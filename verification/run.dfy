/** The run loop of the console: it steps until an instruction is about to
    run a second time. It has no halting branch, so an index that leaves the
    program ends the run with an index out of range. */
module Runs {
  import opened Instructions
  import opened Consoles

  /** How a run ends, with the console at that point and the number of
      `Process` calls made. `Looped` carries the accumulator the run returns;
      `IndexOutOfRange` is the failure of fetching outside the program. */
  datatype RunResult =
    | Looped(accumulator: int, final: Console, steps: nat)
    | IndexOutOfRange(final: Console, steps: nat)

  /** The number of instructions not yet visited. */
  function CountUnvisited(s: seq<Instruction>): (n: nat)
    ensures n <= |s|
  {
    if |s| == 0 then 0
    else (if s[0].visited then 0 else 1) + CountUnvisited(s[1..])
  }

  /** Marking one unvisited slot visited lowers the count by exactly one. */
  lemma {:induction false} CountMarkVisited(s: seq<Instruction>, k: int)
    requires 0 <= k < |s|
    requires !s[k].visited
    ensures CountUnvisited(MarkVisited(s, k)) == CountUnvisited(s) - 1
  {
    if k == 0 {
      assert MarkVisited(s, k)[1..] == s[1..];
    } else {
      assert MarkVisited(s, k)[1..] == MarkVisited(s[1..], k - 1);
      CountMarkVisited(s[1..], k - 1);
    }
  }

  /** Two instructions agree on everything but the visited mark. */
  predicate SameCode(a: Instruction, b: Instruction)
  {
    a.op == b.op && a.value == b.value && a.reverted == b.reverted && a.swapped == b.swapped
  }

  /** `after` is `before` with some more instructions marked visited and
      nothing else changed. */
  predicate Evolves(before: seq<Instruction>, after: seq<Instruction>)
  {
    && |before| == |after|
    && forall k :: 0 <= k < |before| ==>
         SameCode(before[k], after[k]) && (before[k].visited ==> after[k].visited)
  }

  /** Fetches and processes instructions until one is already visited, and
      returns the accumulator at that point. */
  function Run(c: Console): (r: RunResult)
    ensures r.Looped? ==>
              InRange(r.final) && r.final.instructions[r.final.index].visited
              && r.accumulator == r.final.accumulator
    ensures r.IndexOutOfRange? ==> !InRange(r.final)
    ensures Evolves(c.instructions, r.final.instructions)
    ensures r.steps == CountUnvisited(c.instructions) - CountUnvisited(r.final.instructions)
                       + (if r.Looped? then 1 else 0)
    ensures r.steps <= |c.instructions| + 1
    ensures !InRange(c) ==> r == IndexOutOfRange(c, 0)
    ensures InRange(c) && c.instructions[c.index].visited ==> r == Looped(c.accumulator, c, 1)
    decreases CountUnvisited(c.instructions)
  {
    match GetInstruction(c)
    case None => IndexOutOfRange(c, 0)
    case Some(_) =>
      var s := Process(c, c.index);
      if s.hit then
        Looped(s.console.accumulator, s.console, 1)
      else
        CountMarkVisited(c.instructions, c.index);
        var r := Run(s.console);
        r.(steps := r.steps + 1)
  }

  /** Running again right after a run returns does nothing more: the same
      accumulator from the same console, after a single `Process` call, or
      the same out-of-range failure before any. */
  lemma RunIdempotent(c: Console)
    ensures Run(c).Looped? ==>
              Run(Run(c).final) == Looped(Run(c).accumulator, Run(c).final, 1)
    ensures Run(c).IndexOutOfRange? ==>
              Run(Run(c).final) == IndexOutOfRange(Run(c).final, 0)
  {
  }

  /** What the accumulator gains from an instruction that went from
      unvisited in `a` to visited in `b`: the operand of an `acc`. */
  function Gained(a: Instruction, b: Instruction): int
  {
    if !a.visited && b.visited && a.op == Acc then a.value else 0
  }

  /** The total the accumulator gains between two states of a program. */
  function Gain(before: seq<Instruction>, after: seq<Instruction>): int
    requires |before| == |after|
  {
    if |before| == 0 then 0
    else Gained(before[0], after[0]) + Gain(before[1..], after[1..])
  }

  /** Marking slot `k` visited in the earlier state moves that slot's
      contribution out of the gain. */
  lemma {:induction false} GainMarkVisited(before: seq<Instruction>, after: seq<Instruction>, k: int)
    requires |before| == |after|
    requires 0 <= k < |before|
    requires !before[k].visited && after[k].visited
    ensures Gain(before, after)
            == Gain(MarkVisited(before, k), after) + (if before[k].op == Acc then before[k].value else 0)
  {
    if k == 0 {
      assert MarkVisited(before, k)[1..] == before[1..];
    } else {
      assert MarkVisited(before, k)[1..] == MarkVisited(before[1..], k - 1);
      GainMarkVisited(before[1..], after[1..], k - 1);
    }
  }

  /** The accumulator a run ends with is the one it started with plus the
      operands of exactly the `acc` instructions the run visited. */
  lemma {:induction false} RunAccumulates(c: Console)
    ensures Run(c).final.accumulator == c.accumulator + Gain(c.instructions, Run(c).final.instructions)
    decreases CountUnvisited(c.instructions)
  {
    var r := Run(c);
    if !InRange(c) || c.instructions[c.index].visited {
      GainNone(c.instructions);
    } else {
      var s := Process(c, c.index);
      CountMarkVisited(c.instructions, c.index);
      RunAccumulates(s.console);
      var f := Run(s.console).final.instructions;
      assert r.final == Run(s.console).final;
      GainMarkVisited(c.instructions, f, c.index);
    }
  }

  /** A program gains nothing from itself. */
  lemma {:induction false} GainNone(s: seq<Instruction>)
    ensures Gain(s, s) == 0
  {
    if |s| > 0 {
      GainNone(s[1..]);
    }
  }

  /** The program of the worked example: it loops back to its second
      instruction with 5 in the accumulator. */
  function Example(): seq<Instruction>
  {
    [NewInstruction(Nop, 0), NewInstruction(Acc, 1), NewInstruction(Jmp, 4),
     NewInstruction(Acc, 3), NewInstruction(Jmp, -3), NewInstruction(Acc, -99),
     NewInstruction(Acc, 1), NewInstruction(Jmp, -4), NewInstruction(Acc, 6)]
  }

  /** The example loaded into a fresh console. */
  function ExampleStart(): Console
  {
    Console(Example(), 0, 0)
  }

  /** The example after its first four calls: the first three slots and
      the seventh visited, the index at the eighth, 2 in the accumulator. */
  function ExampleAfterFour(): Console
  {
    Console(MarkVisited(MarkVisited(MarkVisited(MarkVisited(Example(), 0), 1), 2), 6), 7, 2)
  }

  /** The first four calls of the example take effect. */
  lemma ExampleFirstFour()
    ensures Continues(Run(ExampleStart()), Run(ExampleAfterFour()), 4)
  {
    var c0 := ExampleStart();
    var c1 := Process(c0, 0).console;
    assert c1 == Console(MarkVisited(Example(), 0), 1, 0);
    var c2 := Process(c1, 1).console;
    assert c2 == Console(MarkVisited(c1.instructions, 1), 2, 1);
    var c3 := Process(c2, 2).console;
    assert c3 == Console(MarkVisited(c2.instructions, 2), 6, 1);
    assert !c3.instructions[6].visited;
    assert Process(c3, 6).console == ExampleAfterFour();
    RunStep(c0);
    RunStep(c1);
    RunStep(c2);
    RunStep(c3);
  }

  /** From there, three more calls take effect and the eighth finds the
      second instruction visited with 5 in the accumulator. */
  lemma ExampleLastFour()
    ensures Run(ExampleAfterFour()).Looped?
    ensures Run(ExampleAfterFour()).accumulator == 5
    ensures Run(ExampleAfterFour()).final.index == 1
    ensures Run(ExampleAfterFour()).steps == 4
  {
    var c4 := ExampleAfterFour();
    assert !c4.instructions[7].visited;
    var c5 := Process(c4, 7).console;
    assert c5 == Console(MarkVisited(c4.instructions, 7), 3, 2);
    assert !c5.instructions[3].visited;
    var c6 := Process(c5, 3).console;
    assert c6 == Console(MarkVisited(c5.instructions, 3), 4, 5);
    assert !c6.instructions[4].visited;
    var c7 := Process(c6, 4).console;
    assert c7 == Console(MarkVisited(c6.instructions, 4), 1, 5);
    assert c7.instructions[1].visited;
    RunStep(c4);
    RunStep(c5);
    RunStep(c6);
  }

  /** Running the example from a fresh console returns 5 after eight
      `Process` calls, the last of which finds the second instruction visited. */
  lemma ExampleLoops()
    ensures Run(ExampleStart()).Looped?
    ensures Run(ExampleStart()).accumulator == 5
    ensures Run(ExampleStart()).final.index == 1
    ensures Run(ExampleStart()).steps == 8
  {
    ExampleFirstFour();
    ExampleLastFour();
  }

  /** Run `a` ends where run `b` ends, after `k` more `Process` calls. */
  predicate Continues(a: RunResult, b: RunResult, k: nat)
  {
    && a.final == b.final
    && a.steps == b.steps + k
    && a.Looped? == b.Looped?
    && (a.Looped? ==> a.accumulator == b.accumulator)
  }

  /** One `Process` call that takes effect, then the rest of the run. */
  lemma RunStep(c: Console)
    requires InRange(c) && !c.instructions[c.index].visited
    ensures Continues(Run(c), Run(Process(c, c.index).console), 1)
  {
  }

  /** A jump by zero finds itself visited on the next call. */
  lemma SelfJumpLoops()
    ensures Run(Console([NewInstruction(Jmp, 0)], 0, 0)) ==
            Looped(0, Console([NewInstruction(Jmp, 0).(visited := true)], 0, 0), 2)
  {
  }

  /** The empty console has no instruction to fetch: its run fails with an
      index out of range rather than halting. */
  lemma EmptyRunOutOfRange()
    ensures Run(NewConsole()) == IndexOutOfRange(NewConsole(), 0)
  {
  }

  /** A program whose last instruction falls off its end fails the same way. */
  lemma FallOffEndOutOfRange()
    ensures Run(Console([NewInstruction(Acc, 7)], 0, 0))
            == IndexOutOfRange(Console([NewInstruction(Acc, 7).(visited := true)], 1, 7), 1)
  {
  }
}
