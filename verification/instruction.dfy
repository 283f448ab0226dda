/** The instruction of the handheld console: an operation, a signed operand,
    and the bookkeeping flags the interpreter and the repair tooling keep on it. */
module Instructions {

  /** The operation of an instruction. The console stores the mnemonic as
      text and accepts any text, so an unknown mnemonic is kept as `Other`. */
  datatype Operation = Nop | Acc | Jmp | Other(name: string)

  /** An operation the console can hold: an `Other` never carries one of the
      three known mnemonics, since the console compares mnemonics as text and
      such a value would behave like the known operation. */
  type KnownOperation = op: Operation | WellFormed(op) witness Nop

  /** One instruction together with its per-run flags. */
  datatype Instruction = Instruction(
    op: KnownOperation,
    value: int,
    visited: bool,
    reverted: bool,
    swapped: bool)

  /** The text the console stores for an operation. */
  function Mnemonic(op: Operation): string
  {
    match op
    case Nop => "nop"
    case Acc => "acc"
    case Jmp => "jmp"
    case Other(name) => name
  }

  /** An `Other` operation does not carry one of the three known mnemonics. */
  predicate WellFormed(op: Operation)
  {
    op.Other? ==> op.name != "nop" && op.name != "acc" && op.name != "jmp"
  }

  /** Reads a mnemonic: the three known ones become their operation and any
      other text is kept verbatim. */
  function OperationOf(name: string): (op: Operation)
    ensures WellFormed(op)
    ensures Mnemonic(op) == name
    ensures op.Other? <==> name != "nop" && name != "acc" && name != "jmp"
  {
    if name == "nop" then Nop
    else if name == "acc" then Acc
    else if name == "jmp" then Jmp
    else Other(name)
  }

  /** Reading back the mnemonic of a well-formed operation gives the operation. */
  lemma OperationOfMnemonic(op: Operation)
    requires WellFormed(op)
    ensures OperationOf(Mnemonic(op)) == op
  {
  }

  /** A freshly built instruction: not visited, not reverted, not swapped. */
  function NewInstruction(op: KnownOperation, value: int): Instruction
  {
    Instruction(op, value, false, false, false)
  }

  /** The outcome of `Swap`: the instruction afterwards and whether it was swapped. */
  datatype Swapping = Swapping(instruction: Instruction, ok: bool)

  /** Exchanges `jmp` and `nop` on an instruction that has not been swapped
      yet. Any other instruction, `acc` and unknown operations included, is
      refused and left as it was. */
  function Swap(i: Instruction): (r: Swapping)
    ensures r.ok <==> !i.swapped && (i.op == Jmp || i.op == Nop)
    ensures r.ok ==> r.instruction.swapped
    ensures r.ok && i.op == Jmp ==> r.instruction.op == Nop
    ensures r.ok && i.op == Nop ==> r.instruction.op == Jmp
    ensures r.ok ==> r.instruction.value == i.value && r.instruction.visited == i.visited
                     && r.instruction.reverted == i.reverted
    ensures !r.ok ==> r.instruction == i
  {
    if !i.swapped then
      match i.op
      case Jmp => Swapping(i.(op := Nop, swapped := true), true)
      case Nop => Swapping(i.(op := Jmp, swapped := true), true)
      case _ => Swapping(i, false)
    else
      Swapping(i, false)
  }

  /** Undoes a swap: a swapped `jmp` or `nop` is turned back, loses its
      swapped mark and is marked reverted. Anything else is left alone. */
  function Revert(i: Instruction): (r: Instruction)
    ensures i.swapped && i.op == Jmp ==> r.op == Nop
    ensures i.swapped && i.op == Nop ==> r.op == Jmp
    ensures i.swapped && (i.op == Jmp || i.op == Nop) ==> !r.swapped && r.reverted
    ensures r.value == i.value && r.visited == i.visited
    ensures !(i.swapped && (i.op == Jmp || i.op == Nop)) ==> r == i
  {
    if i.swapped then
      match i.op
      case Jmp => i.(op := Nop, swapped := false, reverted := true)
      case Nop => i.(op := Jmp, swapped := false, reverted := true)
      case _ => i
    else
      i
  }

  /** A successful swap followed by a revert gives back the original
      instruction, apart from the reverted mark. */
  lemma SwapThenRevert(i: Instruction)
    requires Swap(i).ok
    ensures Revert(Swap(i).instruction) == i.(reverted := true)
  {
  }

  /** A revert of a swapped instruction followed by a swap gives back the
      swapped instruction, apart from the reverted mark. */
  lemma RevertThenSwap(i: Instruction)
    requires i.swapped && (i.op == Jmp || i.op == Nop)
    ensures Swap(Revert(i)).ok
    ensures Swap(Revert(i)).instruction == i.(reverted := true)
  {
  }

  /** An instruction is swapped at most once: a second swap is refused. */
  lemma SwapOnce(i: Instruction)
    ensures !Swap(Swap(i).instruction).ok
  {
  }

  /** Reverting an instruction that was never swapped changes nothing. */
  lemma RevertUnswapped(i: Instruction)
    requires !i.swapped
    ensures Revert(i) == i
  {
  }
}
