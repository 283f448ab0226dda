# Handheld console interpreter, modelled in Dafny

This project models the handheld game console of Advent of Code 2020, day 8,
as implemented in `Day8/console/console.go`. The console holds a program of
instructions, an instruction index and an accumulator. Each instruction has
an operation (`nop`, `acc`, `jmp`, or any other text the loader accepted), a
signed operand, and three flags: visited, reverted and swapped.

The model is functional. Immutable datatypes replace the Go structs, and each
mutating Go method becomes a function that returns the new state.

- `options.dfy` (module `Options`): the optional value used for partial
  results.
- `instruction.dfy` (module `Instructions`): the instruction, reading a
  mnemonic, `NewInstruction`, `Swap` (exchanges `jmp` and `nop`) and
  `Revert` (undoes a swap). An instruction's operation has the subset type
  `KnownOperation`: an unknown operation never carries the text `nop`, `acc`
  or `jmp`. Go compares the stored text, so such a value would behave like
  the known operation, and the loader never builds one.
- `console.dfy` (module `Consoles`): the console, `NewConsole`,
  `GetInstruction`, `LoadInstruction`, the single step `Process` and its
  undo `Revert`.
- `run.dfy` (module `Runs`): the run loop `Run`. It ends when the
  instruction under the index has already been visited. It also ends when
  the index leaves the program, because the fetch then fails.
- `text.dfy` (module `Text`): splitting text around a separator the way Go's
  `strings.Split` does, and joining it back.
- `loader.dfy` (module `Loader`): `Write`, which reads text into
  instructions, and its inverse `Format`.

The run loop has no halting branch. A program that runs past its last
instruction, and the empty program, do not halt with their accumulator.
They end with `IndexOutOfRange`, the model of the fetch at
`console.go:26` indexing outside the slice. A negative index ends the same
way. The puzzle expects a repaired program to terminate by running past its
last instruction, but this code has no branch for that.
`Runs.FallOffEndOutOfRange` and `Runs.EmptyRunOutOfRange` state this.

`Run` is bounded by the visited flags. Every `Process` call that does not
signal a loop marks one unvisited instruction visited. So the number of
unvisited instructions is the termination measure, and a run makes at most
one more `Process` call than the program has instructions.

## Model

| member | source | states |
|---|---|---|
| Instructions.OperationOf | Day8/console/console.go:39-47 | `nop`, `acc` and `jmp` become their operations; any other text is kept verbatim as an unknown operation; the mnemonic of the result is the input text |
| Instructions.OperationOfMnemonic | Day8/console/console.go:39-47 | reading the mnemonic of a well-formed operation gives that operation back |
| Instructions.Swap | Day8/console/console.go:117-131 | succeeds exactly when the instruction is unswapped and is `jmp` or `nop`; on success `jmp` becomes `nop` and `nop` becomes `jmp`, it is marked swapped, and operand, visited and reverted are kept; otherwise (`acc`, unknown operation, already swapped) the instruction is unchanged |
| Instructions.Revert | Day8/console/console.go:133-146 | a swapped `jmp` or `nop` is toggled back, unmarked swapped and marked reverted; operand and visited are always kept; any other instruction is unchanged |
| Instructions.SwapThenRevert | Day8/console/console.go:117-146 | a successful swap followed by a revert restores the original instruction except that it is marked reverted |
| Instructions.RevertThenSwap | Day8/console/console.go:117-146 | reverting a swapped `jmp`/`nop` and swapping again succeeds and restores it, marked reverted |
| Instructions.SwapOnce | Day8/console/console.go:117-131 | a second swap is always refused |
| Instructions.RevertUnswapped | Day8/console/console.go:133-146 | reverting an unswapped instruction changes nothing |
| Consoles.NewConsole | Day8/console/console.go:148-155 | a new console has no instructions, index 0 and accumulator 0 |
| Consoles.GetInstruction | Day8/console/console.go:25-27 | there is an instruction exactly when the index lies in the program, and it is the one under the index; otherwise the outcome is the out-of-range failure |
| Consoles.LoadInstruction | Day8/console/console.go:29-31 | the instruction is appended; earlier instructions, index and accumulator are untouched |
| Consoles.Process | Day8/console/console.go:33-49 | on a visited instruction it signals a loop and changes nothing; otherwise it marks only that slot visited, does not signal, and `nop` adds 1 to the index, `acc` adds the operand to the accumulator and 1 to the index, `jmp` adds the operand to the index, and an unknown operation leaves both unchanged |
| Consoles.Revert | Day8/console/console.go:51-64 | clears the slot's visited flag and sets its reverted flag; `nop` takes 1 from the index, `acc` takes the operand from the accumulator and 1 from the index, `jmp` takes the operand from the index, and an unknown operation moves nothing |
| Consoles.RevertUndoesProcess | Day8/console/console.go:33-64 | processing an unvisited slot and then reverting it restores the index, the accumulator and the program; the only change is the reverted flag |
| Consoles.ProcessRedoesRevert | Day8/console/console.go:33-64 | reverting a visited slot and processing it again takes effect and restores the console; the only change is the reverted flag |
| Runs.Run | Day8/console/console.go:66-75 | a run ends either looped or out of range; looped means the instruction under the final index is visited and the returned value is the final accumulator; out of range means the final index is outside the program; only visited flags change, from false to true; the number of `Process` calls is the number of instructions newly visited, plus one when looped, so at most the program length plus one; an index already outside returns at once, and a visited current instruction returns its accumulator after one call with nothing changed |
| Runs.RunIdempotent | Day8/console/console.go:66-75 | running again from where a run ended gives the same accumulator and console after one call, or the same out-of-range failure before any |
| Runs.RunAccumulates | Day8/console/console.go:66-75 | the final accumulator is the starting one plus the operands of exactly the `acc` instructions the run newly visited |
| Runs.RunStep | Day8/console/console.go:66-75 | after a `Process` call that takes effect, the run ends where the run from the new console ends, with the same outcome and one call more |
| Runs.ExampleLoops | Day8/console/console.go:66-75 | the nine-instruction example program loops at its second instruction and returns 5 after eight calls |
| Runs.SelfJumpLoops | Day8/console/console.go:45-46 | `jmp +0` finds itself visited on the second call and returns 0 |
| Runs.EmptyRunOutOfRange | Day8/console/console.go:25-27 | a run of a new, empty console fails out of range and does not halt |
| Runs.FallOffEndOutOfRange | Day8/console/console.go:25-27 | a program that runs past its last instruction fails out of range and does not halt |
| Text.Find | Day8/console/console.go:80 | reports the first position at or after the start where the separator occurs, or that none does |
| Text.Split | Day8/console/console.go:80 | splitting yields at least one piece, and no piece contains an occurrence of the separator |
| Text.JoinSplit | Day8/console/console.go:80 | joining the pieces of a split with the separator gives back the text |
| Text.SplitJoin | Day8/console/console.go:80-83 | splitting pieces joined with the separator gives back the pieces when none contains the separator's first character |
| Loader.ParseLine | Day8/console/console.go:83-88 | a line with fewer than two space-separated fields is the missing-operand failure; a second field that the integer reader refuses is a bad operand; otherwise the line gives a fresh instruction with the first field's operation and the read operand |
| Loader.NonEmpty | Day8/console/console.go:81-82 | a text is among the result exactly when it is a non-empty line of the input; the result is no longer than the input |
| Loader.NonEmptyOne | Day8/console/console.go:81-82 | a single line is kept exactly when it is not empty |
| Loader.NonEmptyConcat | Day8/console/console.go:81-82 | the lines kept from two runs of lines are those kept from the first followed by those kept from the second, so order is preserved |
| Loader.LoadLines | Day8/console/console.go:81-91 | the non-empty lines are read and appended in order until one does not read, and each appended instruction is its line read; index and accumulator are untouched; it is written, with the given count, exactly when every line was appended; otherwise the line it stopped at tells a refused operand (count 0) from a missing one |
| Loader.Write | Day8/console/console.go:77-93 | it is written exactly when every non-empty line reads, and then it returns the input length; earlier instructions, index and accumulator are untouched and the new instructions are the lines read, in order; a refused operand returns 0 with the instructions from earlier lines still loaded |
| Loader.ParseRender | Day8/console/console.go:83-88 | the line of a writable instruction is non-empty, has no carriage return, and reads back as that instruction with its flags cleared |
| Loader.EntriesFormat | Day8/console/console.go:80-91 | the entries of a formatted program are its lines, each reading back as its instruction |
| Loader.LoadsEvery | Day8/console/console.go:81-92 | when every entry reads, the load is written and appends exactly the instructions read, in order |
| Loader.WriteFormat | Day8/console/console.go:77-93 | writing the text of a program appends exactly that program with its flags cleared and reports the whole text as written |

`NewInstruction` (`console.go:162-170`) builds an instruction with every flag
cleared. Its behaviour is stated through `Loader.ParseLine` and
`Loader.WriteFormat`.

## Left out

- `DFSDebug` and `FiLoQueue` (`console.go:14-23`, `95-107`, `157-160`): dead code. The loop breaks after one push and the function always returns 0.
- The repair search that would use `Swap`, `Instruction.Revert` and `Console.Revert` to toggle one instruction at a time: its driver is not part of this model.
- `strconv.Atoi` is a parameter `atoi: string -> Option<int>`. `None` stands for its error, and its digit grammar and 64-bit range are not modelled.
- Go's 64-bit wrap-around on the index and the accumulator: both are unbounded integers.
- Pointer aliasing: `Process` and `Console.Revert` take an instruction pointer in Go. The model names the instruction by its slot in the program, and each slot is assumed to hold a distinct instruction, as the loader ensures.
- The `io.Writer` plumbing: the byte slice is text with one character per byte, which matches Go's byte-wise `string(p)`, `strings.Split` and comparisons.
- Go panics, both the out-of-range fetch and the missing second field of a line, are outcomes (`Runs.RunResult.IndexOutOfRange`, `Loader.WriteOutcome.Failed`), not aborts of the whole program.
- Loader.Write: the error value returned with a refused operand is not modelled, only that there is one.
