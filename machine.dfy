/** The interpreter loop: executing a resolved instruction sequence on a
    tape of byte cells, reading input bytes and writing output bytes. */
module Machine {
  import opened Ir
  import opened Jumps
  import Optimizer

  /** Number of tape cells. */
  const TapeSize := 0xffff

  predicate InTape(a: int) {
    0 <= a < TapeSize
  }

  /** Narrowing to a byte, as an `as u8` cast does: the result agrees with
      `x` modulo 256. */
  function Wrap(x: int): (b: Byte)
    ensures (x - b) % 256 == 0
  {
    x % 256
  }

  /** Everything the loop keeps: instruction index, head position, tape,
      the input not read yet and the output written so far. */
  datatype State = State(pc: int, pos: int, tape: seq<Byte>, input: seq<Byte>, output: seq<Byte>)

  /** The state the loop starts in: all cells zero, head and index at 0. */
  function Init(input: seq<Byte>): (m: State)
    ensures |m.tape| == TapeSize && m.input == input && m.output == []
  {
    State(0, 0, seq(TapeSize, _ => 0), input, [])
  }

  /** What one instruction does: go on in a new state, stop at `End`, or
      fault on an index out of range (a panic in the source). */
  datatype StepResult = Continue(next: State) | Stop | Fault

  /** How a run ends: at `End`, in a panic, or when the step budget is used
      up; each carries the last state. */
  datatype Outcome = Halted(final: State) | Panicked(final: State) | OutOfFuel(final: State)

  /** The tape cells instruction `t` reads or writes with the head at `pos`. */
  function Touches(t: Token, pos: int): seq<int> {
    match t
    case Add(_, off) => [pos + off]
    case Mul(_, dst, src) => [pos + dst, pos + src]
    case AddTo(dst, src) => [pos + dst, pos + src]
    case Clear(off) => [pos + off]
    case Shift(_) => []
    case LoopBegin(_) => [pos]
    case LoopEnd(_) => [pos]
    case Input(off) => [pos + off]
    case Output(off) => [pos + off]
    case End => []
  }

  /** The tape cell instruction `t` may change with the head at `pos`. */
  function Writes(t: Token, pos: int): (a: int) {
    match t
    case Add(_, off) => pos + off
    case Mul(_, dst, _) => pos + dst
    case AddTo(dst, _) => pos + dst
    case Clear(off) => pos + off
    case Input(off) => pos + off
    case _ => -1
  }

  /** `m'` follows `m` as far as I/O goes: at most one byte written at the
      end of the output, at most one byte taken from the front of the input. */
  ghost predicate IoStep(m: State, m': State) {
    (m'.output == m.output || (|m'.output| == |m.output| + 1 && m'.output[..|m.output|] == m.output)) &&
    (m'.input == m.input || (m.input != [] && m'.input == m.input[1..]))
  }

  /** One turn of the interpreter loop. */
  function Step(prog: seq<Token>, m: State): (r: StepResult)
    requires |m.tape| == TapeSize
    ensures r.Stop? <==> 0 <= m.pc < |prog| && prog[m.pc] == End
    ensures r.Fault? <==>
      !(0 <= m.pc < |prog|) || exists a :: a in Touches(prog[m.pc], m.pos) && !InTape(a)
    ensures r.Continue? ==>
      var t := prog[m.pc];
      var m' := r.next;
      |m'.tape| == TapeSize && IoStep(m, m') &&
      m'.pos == m.pos + (if t.Shift? then t.n else 0) &&
      (forall a :: 0 <= a < TapeSize && a != Writes(t, m.pos) ==> m'.tape[a] == m.tape[a]) &&
      (m'.output != m.output ==> t.Output?) && (m'.input != m.input ==> t.Input?) &&
      (m'.pc != m.pc + 1 ==> IsBracket(t) && m'.pc == m.pc + t.rel)
  {
    if !(0 <= m.pc < |prog|) then Fault
    else
      var pc, pos, tape := m.pc, m.pos, m.tape;
      var next := m.(pc := pc + 1);
      match prog[pc]
      case Add(n, off) =>
        if !InTape(pos + off) then Fault
        else Continue(next.(tape := tape[pos + off := Wrap(n + tape[pos + off])]))
      case Mul(n, dst, src) =>
        if !InTape(pos + dst) || !InTape(pos + src) then Fault
        else Continue(next.(tape := tape[pos + dst := Wrap(n * tape[pos + src] + tape[pos + dst])]))
      case AddTo(dst, src) =>
        if !InTape(pos + dst) || !InTape(pos + src) then Fault
        else Continue(next.(tape := tape[pos + dst := Wrap(tape[pos + src] as int + tape[pos + dst])]))
      case Clear(off) =>
        if !InTape(pos + off) then Fault
        else Continue(next.(tape := tape[pos + off := 0]))
      case Shift(n) =>
        Continue(next.(pos := pos + n))
      case LoopBegin(rel) =>
        if !InTape(pos) then Fault
        else if tape[pos] == 0 then Continue(m.(pc := pc + rel))
        else Continue(next)
      case LoopEnd(rel) =>
        if !InTape(pos) then Fault
        else if tape[pos] != 0 then Continue(m.(pc := pc + rel))
        else Continue(next)
      case Input(off) =>
        if !InTape(pos + off) then Fault
        else if m.input == [] then Continue(next.(tape := tape[pos + off := 0]))
        else Continue(next.(tape := tape[pos + off := m.input[0]], input := m.input[1..]))
      case Output(off) =>
        if !InTape(pos + off) then Fault
        else Continue(next.(output := m.output + [tape[pos + off]]))
      case End =>
        Stop
  }

  /** At most `fuel` turns of the loop from `m`. */
  function Exec(prog: seq<Token>, m: State, fuel: nat): (r: Outcome)
    requires |m.tape| == TapeSize
    ensures |r.final.tape| == TapeSize
    ensures r.Halted? ==> Step(prog, r.final).Stop?
    ensures r.Panicked? ==> Step(prog, r.final).Fault?
    decreases fuel
  {
    if fuel == 0 then OutOfFuel(m)
    else match Step(prog, m)
      case Stop => Halted(m)
      case Fault => Panicked(m)
      case Continue(m') => Exec(prog, m', fuel - 1)
  }

  /** What one turn of the loop body decided. */
  datatype Control = Go | Halt | Panic

  /** One turn of the loop body, updating the tape array in place. */
  method Turn(prog: seq<Token>, buffer: array<Byte>, pc: int, pos: int, input: seq<Byte>, output: seq<Byte>)
    returns (c: Control, pc': int, pos': int, input': seq<Byte>, output': seq<Byte>)
    requires buffer.Length == TapeSize
    modifies buffer
    ensures var r := Step(prog, State(pc, pos, old(buffer[..]), input, output));
      match c
      case Go => r == Continue(State(pc', pos', buffer[..], input', output'))
      case Halt => r == Stop && buffer[..] == old(buffer[..])
      case Panic => r == Fault && buffer[..] == old(buffer[..])
  {
    c, pc', pos', input', output' := Go, pc + 1, pos, input, output;
    if !(0 <= pc < |prog|) {
      c := Panic;
      return;
    }
    match prog[pc]
    case Add(n, off) =>
      if !InTape(pos + off) {
        c := Panic;
      } else {
        buffer[pos + off] := Wrap(n + buffer[pos + off]);
      }
    case Mul(n, dst, src) =>
      if !InTape(pos + dst) || !InTape(pos + src) {
        c := Panic;
      } else {
        buffer[pos + dst] := Wrap(n * buffer[pos + src] + buffer[pos + dst]);
      }
    case AddTo(dst, src) =>
      if !InTape(pos + dst) || !InTape(pos + src) {
        c := Panic;
      } else {
        buffer[pos + dst] := Wrap(buffer[pos + src] as int + buffer[pos + dst]);
      }
    case Clear(off) =>
      if !InTape(pos + off) {
        c := Panic;
      } else {
        buffer[pos + off] := 0;
      }
    case Shift(n) =>
      pos' := pos + n;
    case LoopBegin(rel) =>
      if !InTape(pos) {
        c := Panic;
      } else if buffer[pos] == 0 {
        pc' := pc + rel;
      }
    case LoopEnd(rel) =>
      if !InTape(pos) {
        c := Panic;
      } else if buffer[pos] != 0 {
        pc' := pc + rel;
      }
    case Input(off) =>
      if !InTape(pos + off) {
        c := Panic;
      } else if input == [] {
        buffer[pos + off] := 0;
      } else {
        buffer[pos + off] := input[0];
        input' := input[1..];
      }
    case Output(off) =>
      if !InTape(pos + off) {
        c := Panic;
      } else {
        output' := output + [buffer[pos + off]];
      }
    case End =>
      c := Halt;
  }

  /** The interpreter loop, run for at most `fuel` turns on a fresh tape. */
  method Run(prog: seq<Token>, input: seq<Byte>, fuel: nat) returns (r: Outcome)
    ensures r == Exec(prog, Init(input), fuel)
  {
    var buffer := new Byte[TapeSize](_ => 0);
    var pc, pos, inp, out := 0, 0, input, [];
    var left := fuel;
    assert buffer[..] == Init(input).tape;
    while true
      invariant buffer.Length == TapeSize
      invariant Exec(prog, Init(input), fuel) == Exec(prog, State(pc, pos, buffer[..], inp, out), left)
      decreases left
    {
      var m := State(pc, pos, buffer[..], inp, out);
      if left == 0 {
        return OutOfFuel(m);
      }
      var c;
      c, pc, pos, inp, out := Turn(prog, buffer, pc, pos, inp, out);
      if c == Halt {
        return Halted(m);
      } else if c == Panic {
        return Panicked(m);
      }
      left := left - 1;
    }
  }

  // Properties of the loop

  /** Running `a` turns and then `b` more is running `a + b` turns. */
  lemma {:induction false} ExecSplit(prog: seq<Token>, m: State, a: nat, b: nat)
    requires |m.tape| == TapeSize
    ensures var r := Exec(prog, m, a);
      Exec(prog, m, a + b) == if r.OutOfFuel? then Exec(prog, r.final, b) else r
    decreases a
  {
    if a > 0 {
      match Step(prog, m)
      case Stop =>
      case Fault =>
      case Continue(m') =>
        assert Exec(prog, m, a) == Exec(prog, m', a - 1);
        assert Exec(prog, m, a + b) == Exec(prog, m', a - 1 + b);
        ExecSplit(prog, m', a - 1, b);
    }
  }

  /** A run that ends within a budget ends the same way with any larger one. */
  lemma ExecEnough(prog: seq<Token>, m: State, a: nat, b: nat)
    requires |m.tape| == TapeSize && a <= b && !Exec(prog, m, a).OutOfFuel?
    ensures Exec(prog, m, b) == Exec(prog, m, a)
  {
    ExecSplit(prog, m, a, b - a);
  }

  /** From `m` to `f` the output only grew, by at most `n` bytes, and the
      input lost a prefix. */
  ghost predicate IoSince(m: State, f: State, n: nat) {
    m.output <= f.output && |f.output| <= |m.output| + n &&
    |f.input| <= |m.input| && f.input == m.input[|m.input| - |f.input|..]
  }

  lemma IoSinceStep(m: State, m': State, f: State, n: nat)
    requires IoStep(m, m') && IoSince(m', f, n)
    ensures IoSince(m, f, n + 1)
  {
    if m'.input != m.input {
      assert m'.input[|m'.input| - |f.input|..] == m.input[|m.input| - |f.input|..];
    }
  }

  /** Output only grows, by at most one byte a turn, and input is consumed
      from the front. */
  lemma {:induction false} ExecIo(prog: seq<Token>, m: State, fuel: nat)
    requires |m.tape| == TapeSize
    ensures IoSince(m, Exec(prog, m, fuel).final, fuel)
    decreases fuel
  {
    var f := Exec(prog, m, fuel).final;
    if fuel > 0 && Step(prog, m).Continue? {
      var m' := Step(prog, m).next;
      ExecIo(prog, m', fuel - 1);
      assert f == Exec(prog, m', fuel - 1).final;
      IoSinceStep(m, m', f, fuel - 1);
    } else {
      assert f == m;
      assert m.input[|m.input| - |f.input|..] == m.input;
    }
  }

  /** With jumps resolved, a loop that is skipped continues one past its
      `LoopEnd`, and a loop that repeats continues one past its `LoopBegin`. */
  lemma LoopJumps(inst: seq<Token>, prog: seq<Token>, m: State, i: int, j: int)
    requires JumpsResolved(inst, prog) && Matches(inst, i, j)
    requires |m.tape| == TapeSize && InTape(m.pos)
    ensures m.pc == i ==>
      Step(prog, m) == Continue(m.(pc := if m.tape[m.pos] == 0 then j + 1 else i + 1))
    ensures m.pc == j ==>
      Step(prog, m) == Continue(m.(pc := if m.tape[m.pos] != 0 then i + 1 else j + 1))
  {
    PartnerOffsets(inst, prog, i, j);
  }

  /** The shape the front end hands to the loop: jumps resolved against a
      balanced token list whose only `End` is its last token. */
  ghost predicate Executable(inst: seq<Token>, prog: seq<Token>) {
    JumpsResolved(inst, prog) && Balanced(inst) && |inst| >= 1 && inst[|inst| - 1] == End &&
    forall k :: 0 <= k < |inst| - 1 ==> !inst[k].End?
  }

  /** The front end's output, with its jumps resolved, is such a program. */
  lemma FrontEndExecutable(src: string, prog: seq<Token>)
    requires Optimizer.Lower(src).Ok? && JumpsResolved(Optimizer.Lower(src).value, prog)
    ensures Executable(Optimizer.Lower(src).value, prog)
  {
    Optimizer.LowerShape(src);
  }

  /** One turn of such a program never moves the index out of the program. */
  lemma StepInProgram(inst: seq<Token>, prog: seq<Token>, m: State)
    requires Executable(inst, prog) && |m.tape| == TapeSize && 0 <= m.pc < |prog|
    ensures Step(prog, m).Continue? ==> 0 <= Step(prog, m).next.pc < |prog|
  {
    var k := m.pc;
    if inst[k].LoopBegin? {
      BalancedAllMatched(inst, prog, k);
    } else if inst[k].LoopEnd? {
      EndAt(inst, prog, k);
    } else {
      assert prog[k] == inst[k];
    }
  }

  /** A program the front end accepts never leaves its instruction list:
      when it panics, it is on a tape cell out of range. */
  lemma {:induction false} ExecInProgram(inst: seq<Token>, prog: seq<Token>, m: State, fuel: nat)
    requires Executable(inst, prog) && |m.tape| == TapeSize && 0 <= m.pc < |prog|
    ensures var r := Exec(prog, m, fuel);
      0 <= r.final.pc < |prog| &&
      (r.Panicked? ==> exists a :: a in Touches(prog[r.final.pc], r.final.pos) && !InTape(a))
    decreases fuel
  {
    if fuel > 0 && Step(prog, m).Continue? {
      StepInProgram(inst, prog, m);
      ExecInProgram(inst, prog, Step(prog, m).next, fuel - 1);
    }
  }

  /** An `Output` of a cell on the tape appends exactly that cell's byte
      and moves to the next instruction. */
  lemma OutputAppends(prog: seq<Token>, m: State, off: int)
    requires |m.tape| == TapeSize && 0 <= m.pc < |prog| && prog[m.pc] == Output(off)
    requires InTape(m.pos + off)
    ensures Step(prog, m) == Continue(m.(pc := m.pc + 1, output := m.output + [m.tape[m.pos + off]]))
  {
  }

  /** An arithmetic instruction on cells of the tape writes the wrapped
      result into its target cell and moves to the next instruction. */
  lemma CellWrites(prog: seq<Token>, m: State)
    requires |m.tape| == TapeSize && 0 <= m.pc < |prog|
    ensures var t, p, tape := prog[m.pc], m.pos, m.tape;
      var next := m.(pc := m.pc + 1);
      (t.Add? && InTape(p + t.off) ==>
        Step(prog, m) == Continue(next.(tape := tape[p + t.off := Wrap(t.n + tape[p + t.off])]))) &&
      (t.Mul? && InTape(p + t.dst) && InTape(p + t.src) ==>
        Step(prog, m) == Continue(next.(tape := tape[p + t.dst := Wrap(t.n * tape[p + t.src] + tape[p + t.dst])]))) &&
      (t.AddTo? && InTape(p + t.dst) && InTape(p + t.src) ==>
        Step(prog, m) == Continue(next.(tape := tape[p + t.dst := Wrap(tape[p + t.src] as int + tape[p + t.dst])]))) &&
      (t.Clear? && InTape(p + t.off) ==>
        Step(prog, m) == Continue(next.(tape := tape[p + t.off := 0])))
  {
  }

  /** An `Input` into a cell on the tape stores the next input byte and
      consumes it, or stores 0 when the input is used up. */
  lemma InputReads(prog: seq<Token>, m: State, off: int)
    requires |m.tape| == TapeSize && 0 <= m.pc < |prog| && prog[m.pc] == Input(off)
    requires InTape(m.pos + off)
    ensures m.input == [] ==>
      Step(prog, m) == Continue(m.(pc := m.pc + 1, tape := m.tape[m.pos + off := 0]))
    ensures m.input != [] ==>
      Step(prog, m) == Continue(m.(pc := m.pc + 1, tape := m.tape[m.pos + off := m.input[0]], input := m.input[1..]))
  {
  }

  // Small runs

  /** The empty program halts at once with no output. */
  lemma EmptyProgram(input: seq<Byte>, fuel: nat)
    requires fuel >= 1
    ensures Exec([End], Init(input), fuel) == Halted(Init(input))
  {
  }

  /** Cells wrap: one below zero is 255. */
  lemma WrapBelowZero()
    ensures Exec([Add(-1, 0), Output(0), End], Init([]), 3).final.output == [255]
  {
    var m := Init([]);
    var m1 := m.(pc := 1, tape := m.tape[0 := 255]);
    assert Step([Add(-1, 0), Output(0), End], m) == Continue(m1);
  }

  /** At the end of input a read stores 0; otherwise it takes the next byte. */
  lemma ReadAtEnd(input: seq<Byte>)
    ensures Exec([Input(0), Output(0), End], Init(input), 3).final.output ==
      if input == [] then [0] else [input[0]]
  {
  }
}
