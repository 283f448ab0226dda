/** The console: a program of instructions, an instruction index and an
    accumulator, with the single step `Process` and its undo `Revert`. */
module Consoles {
  import opened Options
  import opened Instructions

  /** The console state. The program is a sequence of distinct instruction
      slots; the index is any integer (a jump may take it anywhere). */
  datatype Console = Console(instructions: seq<Instruction>, index: int, accumulator: int)

  /** An empty console: no instructions, index and accumulator at zero. */
  function NewConsole(): (c: Console)
    ensures |c.instructions| == 0 && c.index == 0 && c.accumulator == 0
  {
    Console([], 0, 0)
  }

  /** The index points at an instruction of the program. */
  predicate InRange(c: Console)
  {
    0 <= c.index < |c.instructions|
  }

  /** The instruction under the index, or `None` where the console would
      fail with an index out of range. */
  function GetInstruction(c: Console): (r: Option<Instruction>)
    ensures r.Some? <==> InRange(c)
    ensures r.Some? ==> r.value == c.instructions[c.index]
  {
    if 0 <= c.index < |c.instructions| then Some(c.instructions[c.index]) else None
  }

  /** Appends one instruction to the program; the earlier instructions, the
      index and the accumulator stay as they were. */
  function LoadInstruction(c: Console, i: Instruction): (r: Console)
    ensures |r.instructions| == |c.instructions| + 1
    ensures r.instructions[..|c.instructions|] == c.instructions
    ensures r.instructions[|c.instructions|] == i
    ensures r.index == c.index && r.accumulator == c.accumulator
  {
    c.(instructions := c.instructions + [i])
  }

  /** The outcome of one `Process` call: the console afterwards, and whether
      the instruction had already been visited (the loop signal). */
  datatype Step = Step(console: Console, hit: bool)

  /** The program with slot `k` marked visited. */
  function MarkVisited(s: seq<Instruction>, k: int): seq<Instruction>
    requires 0 <= k < |s|
  {
    s[k := s[k].(visited := true)]
  }

  /** Executes the instruction in slot `k`. A visited instruction signals a
      loop and changes nothing. Otherwise the instruction is marked visited
      and takes its effect: `nop` advances the index, `acc` adds its operand
      to the accumulator and advances, `jmp` moves the index by its operand,
      and an unknown operation does neither. */
  function Process(c: Console, k: int): (r: Step)
    requires 0 <= k < |c.instructions|
    ensures r.hit <==> c.instructions[k].visited
    ensures r.hit ==> r.console == c
    ensures !r.hit ==> r.console.instructions == MarkVisited(c.instructions, k)
    ensures !r.hit && c.instructions[k].op == Nop ==>
              r.console.index == c.index + 1 && r.console.accumulator == c.accumulator
    ensures !r.hit && c.instructions[k].op == Acc ==>
              r.console.index == c.index + 1
              && r.console.accumulator == c.accumulator + c.instructions[k].value
    ensures !r.hit && c.instructions[k].op == Jmp ==>
              r.console.index == c.index + c.instructions[k].value
              && r.console.accumulator == c.accumulator
    ensures !r.hit && c.instructions[k].op.Other? ==>
              r.console.index == c.index && r.console.accumulator == c.accumulator
  {
    var i := c.instructions[k];
    if i.visited then
      Step(c, true)
    else
      var marked := c.(instructions := MarkVisited(c.instructions, k));
      match i.op
      case Nop => Step(marked.(index := c.index + 1), false)
      case Acc => Step(marked.(accumulator := c.accumulator + i.value, index := c.index + 1), false)
      case Jmp => Step(marked.(index := c.index + i.value), false)
      case Other(_) => Step(marked, false)
  }

  /** Takes back the effect of the instruction in slot `k`: clears its
      visited mark, sets its reverted mark and moves the index and the
      accumulator back by what the instruction's operation would add. */
  function Revert(c: Console, k: int): (r: Console)
    requires 0 <= k < |c.instructions|
    ensures r.instructions == c.instructions[k := c.instructions[k].(visited := false, reverted := true)]
    ensures c.instructions[k].op == Nop ==>
              r.index == c.index - 1 && r.accumulator == c.accumulator
    ensures c.instructions[k].op == Acc ==>
              r.index == c.index - 1 && r.accumulator == c.accumulator - c.instructions[k].value
    ensures c.instructions[k].op == Jmp ==>
              r.index == c.index - c.instructions[k].value && r.accumulator == c.accumulator
    ensures c.instructions[k].op.Other? ==>
              r.index == c.index && r.accumulator == c.accumulator
  {
    var i := c.instructions[k];
    var cleared := c.(instructions := c.instructions[k := i.(visited := false, reverted := true)]);
    match i.op
    case Nop => cleared.(index := c.index - 1)
    case Acc => cleared.(accumulator := c.accumulator - i.value, index := c.index - 1)
    case Jmp => cleared.(index := c.index - i.value)
    case Other(_) => cleared
  }

  /** `Revert` undoes a `Process` that took effect: the index, the accumulator
      and the program come back, with the slot marked reverted. */
  lemma RevertUndoesProcess(c: Console, k: int)
    requires 0 <= k < |c.instructions|
    requires !c.instructions[k].visited
    ensures Revert(Process(c, k).console, k)
            == c.(instructions := c.instructions[k := c.instructions[k].(reverted := true)])
  {
  }

  /** Conversely, processing a visited slot again after reverting it brings
      the console back, with the slot marked reverted. */
  lemma ProcessRedoesRevert(c: Console, k: int)
    requires 0 <= k < |c.instructions|
    requires c.instructions[k].visited
    ensures !Process(Revert(c, k), k).hit
    ensures Process(Revert(c, k), k).console
            == c.(instructions := c.instructions[k := c.instructions[k].(reverted := true)])
  {
  }
}
