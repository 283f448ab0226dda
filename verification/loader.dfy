/** Loading a program into the console from text: one instruction per
    non-empty line, lines separated by carriage return and line feed, each
    line a mnemonic and an operand separated by a space. */
module Loader {
  import opened Options
  import opened Instructions
  import opened Consoles
  import opened Text

  /** The line separator. */
  const CRLF: string := "\r\n"

  /** The field separator within a line. */
  const Space: string := " "

  /** How one line reads: an instruction, an operand the integer reader
      refuses, or no second field at all (the console fails indexing it). */
  datatype LineParse = Parsed(instruction: Instruction) | BadOperand | MissingOperand

  /** Reads one line: the first field is the mnemonic, the second the
      operand; fields after the second are ignored. `atoi` is the integer
      reader, `None` standing for its error. */
  function ParseLine(line: string, atoi: string -> Option<int>): (r: LineParse)
    ensures |Split(line, Space)| < 2 <==> r.MissingOperand?
    ensures r.BadOperand? <==> |Split(line, Space)| >= 2 && atoi(Split(line, Space)[1]).None?
    ensures r.Parsed? ==>
              var fields := Split(line, Space);
              r.instruction == NewInstruction(OperationOf(fields[0]), atoi(fields[1]).value)
  {
    var fields := Split(line, Space);
    if |fields| < 2 then MissingOperand
    else match atoi(fields[1])
      case None => BadOperand
      case Some(n) => Parsed(NewInstruction(OperationOf(fields[0]), n))
  }

  /** The lines that are not empty, in order. */
  function NonEmpty(lines: seq<string>): (r: seq<string>)
    ensures |r| <= |lines|
    ensures forall k :: 0 <= k < |r| ==> r[k] != ""
    ensures forall x :: x in r <==> x in lines && x != ""
  {
    if |lines| == 0 then []
    else
      assert lines == [lines[0]] + lines[1..];
      (if lines[0] == "" then [] else [lines[0]]) + NonEmpty(lines[1..])
  }

  /** A single line is kept exactly when it is not empty. */
  lemma NonEmptyOne(x: string)
    ensures NonEmpty([x]) == (if x == "" then [] else [x])
  {
  }

  /** Keeping the non-empty lines works piecewise and keeps their order:
      the lines kept from two runs of lines follow each other. */
  lemma {:induction false} NonEmptyConcat(a: seq<string>, b: seq<string>)
    ensures NonEmpty(a + b) == NonEmpty(a) + NonEmpty(b)
    decreases |a|
  {
    if |a| == 0 {
      assert a + b == b;
    } else {
      var head := if a[0] == "" then [] else [a[0]];
      assert (a + b)[0] == a[0];
      assert (a + b)[1..] == a[1..] + b;
      assert NonEmpty(a + b) == head + NonEmpty(a[1..] + b);
      NonEmptyConcat(a[1..], b);
      assert NonEmpty(a) == head + NonEmpty(a[1..]);
    }
  }

  /** The entries of an input: its non-empty lines. */
  function Entries(p: string): seq<string>
  {
    NonEmpty(Split(p, CRLF))
  }

  /** How a write ends. `Written` reports the byte count; a refused operand
      reports zero; a line without an operand makes the console fail. Each
      carries the console as it stands at that point. */
  datatype WriteOutcome =
    | Written(console: Console, count: int)
    | Refused(console: Console, count: int)
    | Failed(console: Console)

  /** The entries that are read and appended, from the first, until one
      does not read. */
  predicate LoadedAs(before: Console, after: Console, entries: seq<string>, atoi: string -> Option<int>)
  {
    && after.index == before.index
    && after.accumulator == before.accumulator
    && |before.instructions| <= |after.instructions| <= |before.instructions| + |entries|
    && after.instructions[..|before.instructions|] == before.instructions
    && forall j :: 0 <= j < |after.instructions| - |before.instructions| ==>
         ParseLine(entries[j], atoi) == Parsed(after.instructions[|before.instructions| + j])
  }

  /** What a load of `entries` ends with: the entries read and appended
      from the first on; written, with count `n`, exactly when all were
      appended; otherwise the entry it stopped at tells a refused operand
      (count 0) from a missing one. */
  predicate Loads(c: Console, entries: seq<string>, n: int, atoi: string -> Option<int>, r: WriteOutcome)
  {
    && LoadedAs(c, r.console, entries, atoi)
    && (r.Written? <==> |r.console.instructions| == |c.instructions| + |entries|)
    && (r.Written? ==> r.count == n)
    && (r.Refused? ==> r.count == 0)
    && (!r.Written? ==>
          var b := |r.console.instructions| - |c.instructions|;
          && (r.Refused? <==> ParseLine(entries[b], atoi).BadOperand?)
          && (r.Failed? <==> ParseLine(entries[b], atoi).MissingOperand?))
  }

  /** Loads the given lines one by one, skipping empty ones; `n` is the
      count reported on success. */
  function LoadLines(c: Console, lines: seq<string>, n: int, atoi: string -> Option<int>): (r: WriteOutcome)
    ensures Loads(c, NonEmpty(lines), n, atoi, r)
    decreases |lines|
  {
    if |lines| == 0 then
      assert c.instructions[..|c.instructions|] == c.instructions;
      Written(c, n)
    else if lines[0] == "" then
      assert NonEmpty(lines) == NonEmpty(lines[1..]);
      LoadLines(c, lines[1..], n, atoi)
    else
      assert NonEmpty(lines) == [lines[0]] + NonEmpty(lines[1..]);
      match ParseLine(lines[0], atoi)
      case MissingOperand =>
        LoadsStop(c, lines[0], NonEmpty(lines[1..]), n, atoi);
        Failed(c)
      case BadOperand =>
        LoadsStop(c, lines[0], NonEmpty(lines[1..]), n, atoi);
        Refused(c, 0)
      case Parsed(i) =>
        var r := LoadLines(LoadInstruction(c, i), lines[1..], n, atoi);
        LoadsAfterOne(c, i, lines[0], NonEmpty(lines[1..]), n, atoi, r);
        r
  }

  /** An entry that does not read stops the load before anything is appended. */
  lemma LoadsStop(c: Console, entry: string, rest: seq<string>, n: int, atoi: string -> Option<int>)
    requires !ParseLine(entry, atoi).Parsed?
    ensures ParseLine(entry, atoi).BadOperand? ==> Loads(c, [entry] + rest, n, atoi, Refused(c, 0))
    ensures ParseLine(entry, atoi).MissingOperand? ==> Loads(c, [entry] + rest, n, atoi, Failed(c))
  {
    assert c.instructions[..|c.instructions|] == c.instructions;
  }

  /** Loading one entry that reads and then the rest is loading them all. */
  lemma LoadsAfterOne(c: Console, i: Instruction, entry: string, rest: seq<string>, n: int,
                      atoi: string -> Option<int>, r: WriteOutcome)
    requires ParseLine(entry, atoi) == Parsed(i)
    requires Loads(LoadInstruction(c, i), rest, n, atoi, r)
    ensures Loads(c, [entry] + rest, n, atoi, r)
  {
    var after := r.console;
    var k := |c.instructions|;
    assert after.instructions[..k] == after.instructions[..k + 1][..k];
    assert after.instructions[k] == after.instructions[..k + 1][k];
    forall j | 0 <= j < |after.instructions| - k
      ensures ParseLine(([entry] + rest)[j], atoi) == Parsed(after.instructions[k + j])
    {
      if j > 0 {
        assert ([entry] + rest)[j] == rest[j - 1];
      }
    }
    if !r.Written? {
      var b := |after.instructions| - k;
      assert ([entry] + rest)[b] == rest[b - 1];
    }
  }

  /** A load is written exactly when every entry reads. */
  lemma WrittenIffAllRead(c: Console, entries: seq<string>, n: int, atoi: string -> Option<int>, r: WriteOutcome)
    requires Loads(c, entries, n, atoi, r)
    ensures r.Written? <==> forall j :: 0 <= j < |entries| ==> ParseLine(entries[j], atoi).Parsed?
  {
    if !r.Written? {
      var b := |r.console.instructions| - |c.instructions|;
      assert !ParseLine(entries[b], atoi).Parsed?;
    }
  }

  /** Writes text into the console: every non-empty line becomes one
      instruction appended after those already loaded. On success the byte
      count of the input is returned; at the first operand the integer
      reader refuses, zero is returned and the instructions from the lines
      before it stay loaded. */
  function Write(c: Console, p: string, atoi: string -> Option<int>): (r: WriteOutcome)
    ensures Loads(c, Entries(p), |p|, atoi, r)
    ensures r.Written? <==> forall j :: 0 <= j < |Entries(p)| ==> ParseLine(Entries(p)[j], atoi).Parsed?
  {
    var r := LoadLines(c, Split(p, CRLF), |p|, atoi);
    WrittenIffAllRead(c, Entries(p), |p|, atoi, r);
    r
  }

  /** Text a field can hold without being cut: no space, no carriage return. */
  predicate Plain(s: string)
  {
    ' ' !in s && '\r' !in s
  }

  /** The line for one instruction: its mnemonic, a space, its operand as
      `show` writes it. */
  function Render(i: Instruction, show: int -> string): string
  {
    Mnemonic(i.op) + Space + show(i.value)
  }

  /** The lines for a program, one per instruction. */
  function Lines(program: seq<Instruction>, show: int -> string): (lines: seq<string>)
    ensures |lines| == |program|
  {
    seq(|program|, k requires 0 <= k < |program| => Render(program[k], show))
  }

  /** The text for a program: its lines joined with the line separator. */
  function Format(program: seq<Instruction>, show: int -> string): string
  {
    Join(Lines(program, show), CRLF)
  }

  /** The instructions a program reads back as: same operations and
      operands, every flag cleared. */
  function Fresh(program: seq<Instruction>): seq<Instruction>
  {
    seq(|program|, k requires 0 <= k < |program| => NewInstruction(program[k].op, program[k].value))
  }

  /** An instruction the text format can carry: its mnemonic and printed
      operand are plain, and the integer reader reads the printed operand back. */
  predicate Writable(i: Instruction, show: int -> string, atoi: string -> Option<int>)
  {
    Plain(Mnemonic(i.op)) && Plain(show(i.value)) && atoi(show(i.value)) == Some(i.value)
  }

  /** Keeping the non-empty lines of lines that are all non-empty keeps them all. */
  lemma {:induction false} NonEmptyKeepsAll(lines: seq<string>)
    requires forall k :: 0 <= k < |lines| ==> lines[k] != ""
    ensures NonEmpty(lines) == lines
  {
    if |lines| > 0 {
      NonEmptyKeepsAll(lines[1..]);
    }
  }

  /** The line of a writable instruction reads back as that instruction,
      with its flags cleared. */
  lemma ParseRender(i: Instruction, show: int -> string, atoi: string -> Option<int>)
    requires Writable(i, show, atoi)
    ensures Render(i, show) != ""
    ensures '\r' !in Render(i, show)
    ensures ParseLine(Render(i, show), atoi) == Parsed(NewInstruction(i.op, i.value))
  {
    var m, v := Mnemonic(i.op), show(i.value);
    var line := Render(i, show);
    assert line[|m|] == ' ';
    assert Join([m, v], Space) == line;
    SplitJoin([m, v], Space);
    OperationOfMnemonic(i.op);
  }

  /** The entries of a program's text are its lines, each reading back as
      its instruction. */
  lemma EntriesFormat(program: seq<Instruction>, show: int -> string, atoi: string -> Option<int>)
    requires forall k :: 0 <= k < |program| ==> Writable(program[k], show, atoi)
    ensures Entries(Format(program, show)) == Lines(program, show)
    ensures forall k :: 0 <= k < |program| ==>
              ParseLine(Lines(program, show)[k], atoi) == Parsed(Fresh(program)[k])
  {
    var lines := Lines(program, show);
    forall k | 0 <= k < |lines|
      ensures lines[k] != "" && '\r' !in lines[k]
      ensures ParseLine(lines[k], atoi) == Parsed(Fresh(program)[k])
    {
      ParseRender(program[k], show, atoi);
    }
    if |lines| == 0 {
      assert Split("", CRLF) == [""];
    } else {
      SplitJoin(lines, CRLF);
      NonEmptyKeepsAll(lines);
    }
  }

  /** A load in which every entry reads appends exactly what they read. */
  lemma LoadsEvery(c: Console, entries: seq<string>, read: seq<Instruction>, n: int,
                   atoi: string -> Option<int>, r: WriteOutcome)
    requires Loads(c, entries, n, atoi, r)
    requires |read| == |entries|
    requires forall j :: 0 <= j < |entries| ==> ParseLine(entries[j], atoi) == Parsed(read[j])
    ensures r == Written(c.(instructions := c.instructions + read), n)
  {
    WrittenIffAllRead(c, entries, n, atoi, r);
    var k := |c.instructions|;
    var got := r.console.instructions;
    assert got == got[..k] + got[k..];
    assert got[k..] == read by {
      forall j | 0 <= j < |read|
        ensures got[k..][j] == read[j]
      {
        assert ParseLine(entries[j], atoi) == Parsed(got[k + j]);
      }
    }
  }

  /** Writing the text of a program of writable instructions loads exactly
      that program, flags cleared, after the instructions already there, and
      reports the whole text as written. */
  lemma WriteFormat(c: Console, program: seq<Instruction>, show: int -> string, atoi: string -> Option<int>)
    requires forall k :: 0 <= k < |program| ==> Writable(program[k], show, atoi)
    ensures Write(c, Format(program, show), atoi)
            == Written(c.(instructions := c.instructions + Fresh(program)), |Format(program, show)|)
  {
    var p := Format(program, show);
    EntriesFormat(program, show, atoi);
    LoadsEvery(c, Entries(p), Fresh(program), |p|, atoi, Write(c, p, atoi));
  }
}
