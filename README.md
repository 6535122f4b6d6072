# bf-rs interpreter core in Dafny

This project models the Brainfuck front end and reference interpreter of
bf-rs (`src/interpreter.rs`) and proves properties of the model. The source
has three stages:

- **`Interpreter::new`** is a single-pass optimising front end. It reads the
  program text character by character and keeps four pieces of state: the
  instructions emitted so far, the bracket depth, a pending head movement
  (`shift`) and a map of pending cell deltas keyed by offset. It folds runs of
  `+ - > <`, emits the current cell's pending delta at `.`, drops it at `,`,
  and flushes all pending work at `[` and `]`. It rewrites the clear / copy /
  multiply-add loop idiom into `Clear`, `AddTo` and `Mul`, and rejects
  unbalanced brackets with `"[ missing."` or `"] missing."`.
- **`build_jump_addr`** pairs each `LoopBegin` with its `LoopEnd` using a
  stack, and writes the relative jump offsets.
- **`run`** executes the instruction list on a zeroed tape of 0xffff byte
  cells. Cell arithmetic wraps mod 256, jumps are relative, and I/O is one
  byte at a time.

Modules:

- `Ir` (`ir.dfy`): the `Token` instruction set and the bracket structure of
  a token list (depth, well-nestedness, matching pairs).
- `Optimizer` (`optimizer.dfy`): `Interpreter::new`.
  - The ghost functions `Step`, `Scan` and `Lower` specify the front end one
    character at a time.
  - The methods `Consume`, `OpenLoop`, `CloseLoop`, `FlushPending`,
    `RewriteOps` and `New` implement it with loops. Each is proved equal to
    that specification.
  - The lemmas state what the front end guarantees about its output.
- `Jumps` (`jumps.dfy`): `build_jump_addr`. The method `BuildJumpAddr` runs
  the stack loop and is proved to produce a list whose jumps are resolved
  (`JumpsResolved`). The lemmas give the offset arithmetic, uniqueness and
  idempotence.
- `Machine` (`machine.dfy`): `run`.
  - `Step` and `Exec` give the meaning of one instruction and of a bounded
    run.
  - `Run` executes on an `array` tape updated in place and is proved equal
    to `Exec`.
  - The lemmas state fuel, I/O, jump and in-range properties.

The pending delta map is a `map<int, int>`. The source iterates over a
`HashMap`, whose order is unspecified. The model fixes ascending offset
order for every flush and for the idiom rewrite; see `Optimizer.Flushed` and
`Optimizer.Rewritten`. A flush writes distinct cells (`Optimizer.FlushedSorted`).
The idiom's transfers also write distinct cells (`Optimizer.RewrittenSorted`),
and none of them writes the counter cell `s` that they all read
(`Optimizer.RewrittenSparesCounter`). So the order does not change what a
program computes.

The tape has 0xffff = 65,535 cells, as `src/interpreter.rs:162` allocates,
and the model follows the code.

## Model

| member | source | states |
|---|---|---|
| Optimizer.New | src/interpreter.rs:28-133 | The front end fails with exactly the error its one-character specification reaches. When that specification succeeds, the result is its token list with every jump resolved. |
| Optimizer.Consume | src/interpreter.rs:34-124 | One character of the loop body has exactly the effect `Step` specifies: fold `+ - > <`, emit the current cell's pending delta at `.`, drop the pending delta at `,`, open or close a loop, and skip any other character. |
| Optimizer.OpenLoop | src/interpreter.rs:77-90 | At `[`: flush the non-zero pending deltas, emit `Shift` only when the pending shift is non-zero, push `LoopBegin(0)`, clear the map and record `begin`. |
| Optimizer.CloseLoop | src/interpreter.rs:91-121 | At `]` with depth 0 it fails with `"[ missing."`. Otherwise, when nothing was emitted since the last `LoopBegin`, the pending shift is 0 and the pending delta at 0 is -1, it takes the idiom rewrite: drop `LoopBegin`, take back a preceding `Shift`, emit the transfers and `Clear`. When those conditions do not hold, it does a plain close: flush, `Shift` if needed, `LoopEnd(0)`. |
| Optimizer.FlushPending | src/interpreter.rs:78-82 | The flush loop emits `Add(d, k)` for each non-zero pending delta, in ascending offset order. |
| Optimizer.RewriteOps | src/interpreter.rs:99-105 | The idiom loop emits `AddTo(k+s, s)` for delta 1 and `Mul(d, k+s, s)` for other non-zero deltas, and skips delta 0. |
| Optimizer.FlushedAdds | src/interpreter.rs:110-114 | A flush emits only `Add`s of non-zero pending deltas, at their own offsets. |
| Optimizer.FlushedCovers | src/interpreter.rs:78-82 | A flush emits every non-zero pending delta. |
| Optimizer.FlushedSorted | src/interpreter.rs:78-82 | A flush emits each offset at most once, in ascending order. |
| Optimizer.RewrittenOps | src/interpreter.rs:99-105 | Every token the idiom emits is a transfer out of the counter cell `s` for a non-zero pending delta `d` at offset `k`: `AddTo(k+s, s)` when `d` is 1, `Mul(d, k+s, s)` otherwise. A delta of 0 emits nothing. |
| Optimizer.RewrittenCovers | src/interpreter.rs:99-105 | Every non-zero pending delta gets its transfer. |
| Optimizer.RewrittenSparesCounter | src/interpreter.rs:98-105 | With the counter's own delta removed first, no transfer of the idiom writes the counter cell `s`. |
| Optimizer.RewrittenSorted | src/interpreter.rs:99-105 | The transfers target strictly ascending cells, so each offset gets exactly one. |
| Optimizer.StepKeepsInv | src/interpreter.rs:55-123 | Every character keeps the invariants. The depth equals the bracket balance of the emitted list, and no prefix is over-closed. Jump offsets stay 0 and no `End` appears. Every `Shift` is non-zero and directly precedes a bracket. A zero `Add` only directly precedes the `Output` of its cell. When `begin` equals the list's length and is not 0, the last token is a `LoopBegin`. |
| Optimizer.RewriteKeepsInv | src/interpreter.rs:92-108 | The idiom rewrite keeps those invariants, including when it removes a `Shift` and the `LoopBegin`. |
| Optimizer.Step | src/interpreter.rs:35-123 | The effect of one character on the front end's state. It fails exactly when the character is `]` at depth 0, and then with `"[ missing."`. `[` and `]` move the depth by one; nothing else does. |
| Optimizer.Scan | src/interpreter.rs:34-124 | The loop over the text: the state after a prefix, or the first error. Every state it reaches keeps the invariants. |
| Optimizer.Lower | src/interpreter.rs:34-129 | The whole front end before jump resolution. A success ends with `End` and has no other `End`. |
| Optimizer.LowerErrors | src/interpreter.rs:126-128 | `"[ missing."` exactly when some prefix of the text closes more loops than it opens. `"] missing."` exactly when no prefix over-closes but loops remain open at the end. Success exactly when the brackets balance. |
| Optimizer.LowerIgnoresComments | src/interpreter.rs:53 | Characters outside `+-<>,.[]` change nothing. A text with no commands compiles to `[End]`. |
| Optimizer.LowerShape | src/interpreter.rs:129-132 | A successful result ends with exactly one `End`, has no other `End`, has balanced brackets, and keeps the token invariants before `End`. |
| Optimizer.LowerIo | src/interpreter.rs:64-76 | Each `.` becomes exactly one `Output` and each `,` exactly one `Input`, in source order. No other instruction does I/O. |
| Optimizer.ClearLoopExample | src/interpreter.rs:91-108 | `+++++[-]` compiles to `Add(5,0), Clear(0), End`. |
| Optimizer.ShiftedClearExample | src/interpreter.rs:94-97 | `>[-]` compiles to `Clear(1), End`: the `Shift` before the loop is taken back into the pending shift. |
| Optimizer.CopyLoopExample | src/interpreter.rs:99-106 | `++[->+<]` compiles to `Add(2,0), AddTo(1,0), Clear(0), End`. |
| Optimizer.CancelledOutputExample | src/interpreter.rs:64-69 | `+-.` compiles to `Add(0,0), Output(0), End`: a delta that cancelled to 0 is still emitted before `Output`. |
| Optimizer.UnbalancedExamples | src/interpreter.rs:46-50 | `]` fails with `"[ missing."` and `[` fails with `"] missing."`. |
| Optimizer.CompileError.Message | src/interpreter.rs:49-127 | `MissingOpen` (an over-closing `]`, line 49) reads `"[ missing."` and `MissingClose` (line 127) reads `"] missing."`: the bracket that is missing, then `" missing."`. |
| Jumps.BuildJumpAddr | src/interpreter.rs:135-156 | The stack loop preserves the length and every non-bracket token. Every `LoopEnd` gets the offset that lands one past its partner `LoopBegin`, and so does every matched `LoopBegin`. |
| Jumps.Visit | src/interpreter.rs:138-151 | One turn of the stack loop keeps its invariant. A `LoopBegin` pushes its own index. A `LoopEnd` pops its partner and writes both offsets. Any other token is copied. The stack is always the list of still-open `LoopBegin`s. |
| Jumps.PartnerOffsets | src/interpreter.rs:144-148 | For a matched pair `i < j`: `LoopBegin(j-i+1)` and `LoopEnd(1-(j-i))`. The two offsets sum to 2, and each lands one past the other. |
| Jumps.ResolvedUnique | src/interpreter.rs:135-156 | The resolved list is determined by its input. |
| Jumps.ResolvedShape | src/interpreter.rs:135-156 | Resolution keeps bracket kinds, positions, depth and well-nestedness. |
| Jumps.ResolveIdempotent | src/interpreter.rs:140-148 | Resolving an already resolved list gives it back, since the old offsets are overwritten. |
| Jumps.BalancedAllMatched | src/interpreter.rs:144-147 | In a balanced list every `LoopBegin` is matched, so none keeps offset 0. |
| Machine.Step | src/interpreter.rs:163-199 | One turn stops exactly at `End` and faults exactly when the index or a touched cell is out of range. Otherwise it keeps the tape size and changes at most the cell the instruction writes. It moves the head only on `Shift`, writes output only on `Output` and reads input only on `Input`, at most one byte of each. It jumps by `rel` only on a bracket. |
| Machine.Wrap | src/interpreter.rs:167 | Narrowing to a cell agrees with the full result modulo 256. |
| Machine.Exec | src/interpreter.rs:163-200 | A bounded run that halts ends at an `End`, and one that panics ends at a faulting instruction. |
| Machine.Turn | src/interpreter.rs:164-199 | One turn of the loop body on the array tape in place: it continues exactly as `Step` does, or halts or panics exactly when `Step` stops or faults, leaving the tape unchanged. |
| Machine.Run | src/interpreter.rs:159-201 | The loop over a zeroed 0xffff-cell array tape, starting at index 0 and position 0, ends exactly as `Exec` does. |
| Machine.ExecSplit | src/interpreter.rs:163-200 | Running `a` turns and then `b` more is running `a + b` turns. |
| Machine.ExecEnough | src/interpreter.rs:163-200 | A run that ends within a budget ends the same way with any larger budget. |
| Machine.ExecIo | src/interpreter.rs:188-196 | Output only grows, by at most one byte a turn. Input is consumed from the front. |
| Machine.LoopJumps | src/interpreter.rs:180-187 | With resolved jumps, a `LoopBegin` on a zero cell continues one past its partner `LoopEnd`, and otherwise steps into the loop. A `LoopEnd` on a non-zero cell continues one past its `LoopBegin`, and otherwise leaves the loop. |
| Machine.FrontEndExecutable | src/interpreter.rs:126-132 | The front end's result, with its jumps resolved, is a program the loop can run: balanced, one `End` at the end, every jump resolved. |
| Machine.StepInProgram | src/interpreter.rs:164 | For a list the front end produces, a turn never moves the index outside the list. |
| Machine.ExecInProgram | src/interpreter.rs:164 | For such a list, the index stays in range. A panic can only come from a tape cell out of range. |
| Machine.CellWrites | src/interpreter.rs:165-179 | With its cells on the tape, `Add` stores `Wrap(n + tape[pos+off])`, `Mul` stores `Wrap(n * tape[pos+src] + tape[pos+dst])`, `AddTo` stores `Wrap(tape[pos+src] + tape[pos+dst])` and `Clear` stores 0 in the target cell; the turn then moves to the next instruction. |
| Machine.OutputAppends | src/interpreter.rs:194-196 | An `Output` of an in-range cell appends exactly that cell's byte to the output and changes nothing else but the index. |
| Machine.InputReads | src/interpreter.rs:189-193 | An `Input` into an in-range cell stores the next input byte and consumes it, or stores 0 at end of input. |
| Machine.EmptyProgram | src/interpreter.rs:197 | `[End]` halts at once with no output. |
| Machine.WrapBelowZero | src/interpreter.rs:165-168 | Decrementing a zero cell gives 255. |
| Machine.ReadAtEnd | src/interpreter.rs:188-192 | At end of input a read stores 0; otherwise it stores the next input byte. |
| Ir.MatchUniqueEnd | src/interpreter.rs:144-147 | A `LoopBegin` is closed by at most one `LoopEnd`. |
| Ir.MatchUniqueBegin | src/interpreter.rs:144-147 | A `LoopEnd` closes at most one `LoopBegin`. |

## Left out

- `Interpreter::compile` (`src/interpreter.rs:204-311`) is not part of this model. It generates x86-64 machine code through `dynasm` and calls it.
- `putchar` and `getchar` (`src/interpreter.rs:313-324`) are not part of this model. They are `unsafe` helpers that the generated machine code calls to write or read one byte.
- `src/main.rs` is not part of this model. It loads files, picks sample paths, writes to stdout and times runs.
- Integer widths are not modelled. Deltas (`i16`) and offsets, positions and indices (`i32`) are unbounded integers. In a release build the `i16` sums wrap; a single cell write still stores the same value mod 256. But the emitted instruction list can differ, and with it whether a run panics, when one side emits an `Add` or a transfer to a cell off the tape and the other does not. After `<` and 65,536 `+`, the source's flush at `[` sees a delta of 0 and emits nothing, where the model emits `Add(65536, -1)` and its run panics on cell -1. A loop body of 65,537 `-` wraps to -1 and takes the idiom rewrite in the source, whose transfers can panic, but not in the model, which keeps the loop. Debug-build overflow panics, and an `i32` position or index that wraps, are not modelled.
- `HashMap` iteration order is replaced by ascending offset order, in `Optimizer.FlushPending`, `Optimizer.RewriteOps` and their specifications.
- Read and write errors (the two `.unwrap()` calls in `run`) are not modelled. Input is a byte sequence consumed from the front, and output is a byte sequence that grows. A short read is modelled only at end of input.
- Machine.Run: `run` loops until `End` with no bound. The model takes a step budget `fuel` and reports `OutOfFuel` when it runs out. A run that halts within the budget is the same run.
- Machine.Run: a panic (index out of range) is the outcome `Panicked` with the state before the faulting instruction. It does not abort the process. For `Input`, the byte the source has already read before it panics is not removed from the remaining input.
- Jumps.BuildJumpAddr: requires a well-nested list. On a `LoopEnd` with an empty stack the source panics at `unwrap`, and `Interpreter::new` never passes such a list.
- Pending deltas still in the map when the text ends are dropped without being emitted, as in the source. They cannot be observed.
