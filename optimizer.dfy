/** The single-pass optimising front end (`Interpreter::new`): it folds runs
    of `+ - > <` into pending work, emits the current cell's pending delta
    at `.`, drops it at `,`, flushes all pending work at `[` and `]`,
    rewrites the clear / copy / multiply loop idiom, and rejects unbalanced
    brackets. */
module Optimizer {
  import opened Ir
  import opened Jumps

  /** The two ways the front end fails, with the source's messages. */
  datatype CompileError = MissingOpen | MissingClose {
    function Message(): (m: string)
      ensures |m| == 10 && m[1..] == " missing."
      ensures m[0] == (if this.MissingOpen? then '[' else ']')
    {
      match this
      case MissingOpen => "[ missing."
      case MissingClose => "] missing."
    }
  }

  datatype Result<T> = Ok(value: T) | Err(error: CompileError)

  /** The state the front end carries from one character to the next:
      the instructions emitted so far, the bracket depth, the pending head
      movement, the length of `inst` just after the last `LoopBegin`, and
      the pending cell deltas keyed by offset from the emitted head. */
  datatype Lowering = Lowering(inst: seq<Token>, depth: int, shift: int, begin: int, mp: map<int, int>)

  const Start := Lowering([], 0, 0, 0, map[])

  // ---------------------------------------------------------------------
  // The order in which pending deltas are emitted

  lemma Inhabited(keys: set<int>)
    requires keys != {}
    ensures exists k :: k in keys
  {
    if forall k :: k !in keys {
      assert false;
    }
  }

  /** Some element of a non-empty set of offsets. */
  ghost function Any(keys: set<int>): (k: int)
    requires keys != {}
    ensures k in keys
  {
    Inhabited(keys);
    var k :| k in keys;
    k
  }

  /** The least element of a non-empty set of offsets. */
  ghost function MinKey(keys: set<int>): (m: int)
    requires keys != {}
    ensures m in keys && forall j :: j in keys ==> m <= j
    decreases keys
  {
    var x := Any(keys);
    if keys == {x} then x
    else
      var y := MinKey(keys - {x});
      assert forall j :: j in keys ==> j == x || j in keys - {x};
      if x < y then x else y
  }

  /** The `Add`s a flush emits for the offsets `keys`, in ascending offset
      order, skipping deltas that cancelled to 0. */
  ghost function Flushed(mp: map<int, int>, keys: set<int>): seq<Token>
    requires keys <= mp.Keys
    decreases keys
  {
    if keys == {} then []
    else
      var k := MinKey(keys);
      (if mp[k] != 0 then [Add(mp[k], k)] else []) + Flushed(mp, keys - {k})
  }

  /** A flush emits only `Add`s of non-zero pending deltas, at their own
      offsets. */
  lemma {:induction false} FlushedAdds(mp: map<int, int>, keys: set<int>)
    requires keys <= mp.Keys
    ensures forall i :: 0 <= i < |Flushed(mp, keys)| ==>
      var t := Flushed(mp, keys)[i];
      t.Add? && t.off in keys && t.n == mp[t.off] && t.n != 0
    decreases keys
  {
    if keys != {} {
      var k := MinKey(keys);
      FlushedAdds(mp, keys - {k});
      var rest := Flushed(mp, keys - {k});
      var head: seq<Token> := if mp[k] != 0 then [Add(mp[k], k)] else [];
      assert Flushed(mp, keys) == head + rest;
      forall i | 0 <= i < |head + rest|
        ensures var t := (head + rest)[i]; t.Add? && t.off in keys && t.n == mp[t.off] && t.n != 0
      {
        if i >= |head| { assert (head + rest)[i] == rest[i - |head|]; }
      }
    }
  }

  /** A flush emits every non-zero pending delta. */
  lemma {:induction false} FlushedCovers(mp: map<int, int>, keys: set<int>, j: int)
    requires keys <= mp.Keys && j in keys && mp[j] != 0
    ensures Add(mp[j], j) in Flushed(mp, keys)
    decreases keys
  {
    var k := MinKey(keys);
    var rest := Flushed(mp, keys - {k});
    var head: seq<Token> := if mp[k] != 0 then [Add(mp[k], k)] else [];
    assert Flushed(mp, keys) == head + rest;
    if j != k {
      FlushedCovers(mp, keys - {k}, j);
      var i :| 0 <= i < |rest| && rest[i] == Add(mp[j], j);
      assert (head + rest)[i + |head|] == rest[i];
    } else {
      assert (head + rest)[0] == Add(mp[j], j);
    }
  }

  /** A flush emits its `Add`s in strictly ascending offset order, so no
      offset twice. */
  lemma {:induction false} FlushedSorted(mp: map<int, int>, keys: set<int>)
    requires keys <= mp.Keys
    ensures forall i, j :: 0 <= i < j < |Flushed(mp, keys)| ==>
      Flushed(mp, keys)[i].Add? && Flushed(mp, keys)[j].Add? &&
      Flushed(mp, keys)[i].off < Flushed(mp, keys)[j].off
    decreases keys
  {
    FlushedAdds(mp, keys);
    if keys != {} {
      var k := MinKey(keys);
      FlushedSorted(mp, keys - {k});
      FlushedAdds(mp, keys - {k});
      var rest := Flushed(mp, keys - {k});
      var head: seq<Token> := if mp[k] != 0 then [Add(mp[k], k)] else [];
      var r := head + rest;
      assert Flushed(mp, keys) == r;
      forall i, j | 0 <= i < j < |r| ensures r[i].Add? && r[j].Add? && r[i].off < r[j].off {
        assert r[j] == rest[j - |head|];
        if i >= |head| { assert r[i] == rest[i - |head|]; }
      }
    }
  }

  /** The instruction that adds `d` times the cell at `src` to the cell at `dst`. */
  function IdiomOp(d: int, dst: int, src: int): Token {
    if d == 1 then AddTo(dst, src) else Mul(d, dst, src)
  }

  /** The instructions the loop idiom becomes for the offsets `keys`, when
      the loop counter sits at `s`: a transfer per non-zero delta, in the
      ascending order a flush uses. */
  ghost function Rewritten(mp: map<int, int>, keys: set<int>, s: int): seq<Token>
    requires keys <= mp.Keys
    decreases keys
  {
    if keys == {} then []
    else
      var k := MinKey(keys);
      (if mp[k] != 0 then [IdiomOp(mp[k], k + s, s)] else []) + Rewritten(mp, keys - {k}, s)
  }

  /** `t` is the transfer the idiom emits for some non-zero delta among
      `keys`, with the counter at `s`: an `AddTo` from `s` when the delta
      is 1 and a `Mul` by the delta otherwise. */
  ghost predicate IsTransfer(mp: map<int, int>, keys: set<int>, s: int, t: Token)
    requires keys <= mp.Keys
  {
    (t.AddTo? || t.Mul?) && t.dst - s in keys && mp[t.dst - s] != 0 &&
    t == IdiomOp(mp[t.dst - s], t.dst, s)
  }

  /** The idiom emits only transfers out of the counter at `s`: for a
      non-zero delta `d` at offset `k`, an `AddTo` into `k + s` when `d` is
      1 and a `Mul` by `d` otherwise. */
  lemma {:induction false} RewrittenOps(mp: map<int, int>, keys: set<int>, s: int)
    requires keys <= mp.Keys
    ensures forall i :: 0 <= i < |Rewritten(mp, keys, s)| ==>
      IsTransfer(mp, keys, s, Rewritten(mp, keys, s)[i])
    decreases keys
  {
    if keys != {} {
      var k := MinKey(keys);
      RewrittenOps(mp, keys - {k}, s);
      var rest := Rewritten(mp, keys - {k}, s);
      var head: seq<Token> := if mp[k] != 0 then [IdiomOp(mp[k], k + s, s)] else [];
      assert Rewritten(mp, keys, s) == head + rest;
      forall i | 0 <= i < |head + rest| ensures IsTransfer(mp, keys, s, (head + rest)[i]) {
        if i < |head| {
          assert (head + rest)[i] == IdiomOp(mp[k], k + s, s);
          assert (k + s) - s == k;
        } else {
          assert (head + rest)[i] == rest[i - |head|];
          assert IsTransfer(mp, keys - {k}, s, rest[i - |head|]);
        }
      }
    }
  }

  /** The idiom emits a transfer for every non-zero delta. */
  lemma {:induction false} RewrittenCovers(mp: map<int, int>, keys: set<int>, s: int, j: int)
    requires keys <= mp.Keys && j in keys && mp[j] != 0
    ensures IdiomOp(mp[j], j + s, s) in Rewritten(mp, keys, s)
    decreases keys
  {
    var k := MinKey(keys);
    var rest := Rewritten(mp, keys - {k}, s);
    var head: seq<Token> := if mp[k] != 0 then [IdiomOp(mp[k], k + s, s)] else [];
    assert Rewritten(mp, keys, s) == head + rest;
    if j != k {
      RewrittenCovers(mp, keys - {k}, s, j);
      var i :| 0 <= i < |rest| && rest[i] == IdiomOp(mp[j], j + s, s);
      assert (head + rest)[i + |head|] == rest[i];
    } else {
      assert (head + rest)[0] == IdiomOp(mp[j], j + s, s);
    }
  }

  /** Once the counter's own delta is removed, no transfer writes the
      counter cell `s` that all of them read. */
  lemma RewrittenSparesCounter(mp: map<int, int>, s: int)
    ensures forall i :: 0 <= i < |Rewritten(mp - {0}, (mp - {0}).Keys, s)| ==>
      var t := Rewritten(mp - {0}, (mp - {0}).Keys, s)[i];
      (t.AddTo? || t.Mul?) && t.src == s && t.dst != s
  {
    var m := mp - {0};
    RewrittenOps(m, m.Keys, s);
    forall i | 0 <= i < |Rewritten(m, m.Keys, s)|
      ensures var t := Rewritten(m, m.Keys, s)[i]; (t.AddTo? || t.Mul?) && t.src == s && t.dst != s
    {
      assert IsTransfer(m, m.Keys, s, Rewritten(m, m.Keys, s)[i]);
    }
  }

  /** The idiom's transfers target strictly ascending cells, so no cell
      gets two. */
  lemma {:induction false} RewrittenSorted(mp: map<int, int>, keys: set<int>, s: int)
    requires keys <= mp.Keys
    ensures forall i, j :: 0 <= i < j < |Rewritten(mp, keys, s)| ==>
      var r := Rewritten(mp, keys, s);
      (r[i].AddTo? || r[i].Mul?) && (r[j].AddTo? || r[j].Mul?) && r[i].dst < r[j].dst
    decreases keys
  {
    RewrittenOps(mp, keys, s);
    if keys != {} {
      var k := MinKey(keys);
      RewrittenSorted(mp, keys - {k}, s);
      RewrittenOps(mp, keys - {k}, s);
      var rest := Rewritten(mp, keys - {k}, s);
      var head: seq<Token> := if mp[k] != 0 then [IdiomOp(mp[k], k + s, s)] else [];
      var r := head + rest;
      assert Rewritten(mp, keys, s) == r;
      forall i, j | 0 <= i < j < |r|
        ensures (r[i].AddTo? || r[i].Mul?) && (r[j].AddTo? || r[j].Mul?) && r[i].dst < r[j].dst
      {
        assert r[j] == rest[j - |head|];
        if i >= |head| { assert r[i] == rest[i - |head|]; }
      }
    }
  }

  // ---------------------------------------------------------------------
  // One character

  /** Adds `n` to the pending delta at offset `k`. */
  function Bump(mp: map<int, int>, k: int, n: int): map<int, int> {
    if k in mp then mp[k := mp[k] + n] else mp[k := n]
  }

  /** The pending delta at `k`, if any, as an `Add`, even when it is 0. */
  function Pending(mp: map<int, int>, k: int): seq<Token> {
    if k in mp then [Add(mp[k], k)] else []
  }

  /** A pending head movement, when there is one. */
  function ShiftOut(s: int): seq<Token> {
    if s != 0 then [Shift(s)] else []
  }

  /** Nothing was emitted since the last `LoopBegin`, the head is back at
      the loop counter, and the body's only effect on it is one decrement. */
  predicate IdiomFires(st: Lowering) {
    |st.inst| == st.begin && st.shift == 0 && 0 in st.mp && st.mp[0] == -1
  }

  ghost function Open(st: Lowering): Lowering {
    var inst := st.inst + Flushed(st.mp, st.mp.Keys) + ShiftOut(st.shift) + [LoopBegin(0)];
    Lowering(inst, st.depth + 1, 0, |inst|, map[])
  }

  ghost function Close(st: Lowering): Lowering {
    var inst := st.inst + Flushed(st.mp, st.mp.Keys) + ShiftOut(st.shift) + [LoopEnd(0)];
    Lowering(inst, st.depth - 1, 0, st.begin, map[])
  }

  /** The idiom rewrite: drop the `LoopBegin` and a `Shift` just before it
      (whose amount becomes the pending shift again), then emit the
      transfers and a `Clear` of the counter. */
  ghost function Rewrite(st: Lowering): Lowering
    requires st.inst != []
  {
    var (base, s) := Unwind(st.inst[..|st.inst| - 1], st.shift);
    var m := st.mp - {0};
    Lowering(base + Rewritten(m, m.Keys, s) + [Clear(s)], st.depth - 1, s, 0, map[])
  }

  /** The loop's prefix without the `Shift` that ends it, if one does, and
      the pending shift that results. */
  function Unwind(body: seq<Token>, shift: int): (seq<Token>, int) {
    if body != [] && body[|body| - 1].Shift? then (body[..|body| - 1], body[|body| - 1].n)
    else (body, shift)
  }

  /** The effect of one source character. It fails only on a `]` with no
      loop open, and only brackets change the depth. */
  ghost function Step(st: Lowering, c: char): (r: Result<Lowering>)
    requires Inv(st)
    ensures r.Err? <==> c == ']' && st.depth == 0
    ensures r.Err? ==> r.error == MissingOpen
    ensures r.Ok? ==> r.value.depth == st.depth + (if c == '[' then 1 else if c == ']' then -1 else 0)
  {
    match c
    case '+' => Ok(st.(mp := Bump(st.mp, st.shift, 1)))
    case '-' => Ok(st.(mp := Bump(st.mp, st.shift, -1)))
    case '>' => Ok(st.(shift := st.shift + 1))
    case '<' => Ok(st.(shift := st.shift - 1))
    case '.' => Ok(st.(inst := st.inst + Pending(st.mp, st.shift) + [Output(st.shift)],
                       mp := st.mp - {st.shift}))
    case ',' => Ok(st.(inst := st.inst + [Input(st.shift)], mp := st.mp - {st.shift}))
    case '[' => Ok(Open(st))
    case ']' =>
      if st.depth - 1 < 0 then Err(MissingOpen)
      else if IdiomFires(st) then Ok(Rewrite(st))
      else Ok(Close(st))
    case _ => Ok(st)
  }

  /** The state after a whole prefix of the source, or the first error. */
  ghost function Scan(cs: string): (r: Result<Lowering>)
    ensures r.Ok? ==> Inv(r.value)
    decreases |cs|
  {
    if cs == [] then Ok(Start)
    else
      var prev := Scan(cs[..|cs| - 1]);
      if prev.Err? then prev
      else
        StepKeepsInv(prev.value, cs[|cs| - 1]);
        Step(prev.value, cs[|cs| - 1])
  }

  /** The whole front end, before jump resolution. A result is terminated
      by exactly one `End`. */
  ghost function Lower(src: string): (r: Result<seq<Token>>)
    ensures r.Ok? ==>
      |r.value| >= 1 && r.value[|r.value| - 1] == End &&
      forall k :: 0 <= k < |r.value| - 1 ==> !r.value[k].End?
  {
    match Scan(src)
    case Err(e) => Err(e)
    case Ok(st) =>
      if st.depth > 0 then Err(MissingClose)
      else
        Terminated(st.inst);
        Ok(st.inst + [End])
  }

  // ---------------------------------------------------------------------
  // The invariant of the sweep

  /** The guarantees each emitted token gives about itself and its
      successor: no `End`, jump offsets still 0, a `Shift` only when it
      moves, and only right before a bracket, and a zero `Add` only right
      before the `Output` of that cell. */
  ghost predicate TokenOk(s: seq<Token>, k: int)
    requires 0 <= k < |s|
  {
    !s[k].End? &&
    (s[k].LoopBegin? ==> s[k].rel == 0) &&
    (s[k].LoopEnd? ==> s[k].rel == 0) &&
    (s[k].Shift? ==> s[k].n != 0 && k + 1 < |s| && IsBracket(s[k + 1])) &&
    (s[k].Add? && s[k].n == 0 ==> k + 1 < |s| && s[k + 1] == Output(s[k].off))
  }

  ghost predicate WellFormed(s: seq<Token>) {
    forall k :: 0 <= k < |s| ==> TokenOk(s, k)
  }

  ghost predicate NoBrackets(s: seq<Token>) {
    forall k :: 0 <= k < |s| ==> !IsBracket(s[k])
  }

  ghost predicate Inv(st: Lowering) {
    st.depth >= 0 && Depth(st.inst) == st.depth && WellNested(st.inst) &&
    WellFormed(st.inst) &&
    0 <= st.begin <= |st.inst| &&
    (0 < st.begin == |st.inst| ==> st.inst[|st.inst| - 1].LoopBegin?)
  }

  lemma WellFormedAppend(a: seq<Token>, b: seq<Token>)
    requires WellFormed(a) && WellFormed(b)
    ensures WellFormed(a + b)
  {
    var s := a + b;
    forall k | 0 <= k < |s| ensures TokenOk(s, k) {
      if k < |a| {
        assert s[k] == a[k];
        assert TokenOk(a, k);
        if k + 1 < |a| { assert s[k + 1] == a[k + 1]; }
      } else {
        assert s[k] == b[k - |a|];
        assert TokenOk(b, k - |a|);
        if k + 1 < |s| { assert s[k + 1] == b[k + 1 - |a|]; }
      }
    }
  }

  lemma {:induction false} NoBracketsAppend(s: seq<Token>, t: seq<Token>)
    requires WellNested(s) && NoBrackets(t)
    ensures WellNested(s + t) && Depth(s + t) == Depth(s)
    decreases |t|
  {
    if t != [] {
      var t' := t[..|t| - 1];
      assert (s + t)[..|s + t| - 1] == s + t';
      NoBracketsAppend(s, t');
      assert s[..|s|] == s;
      assert !IsBracket(t[|t| - 1]);
      WellNestedSnoc(s + t', t[|t| - 1]);
      assert s + t' + [t[|t| - 1]] == s + t;
    } else {
      assert s + t == s;
    }
  }

  lemma FlushedShape(mp: map<int, int>, s: int)
    ensures WellFormed(Flushed(mp, mp.Keys)) && NoBrackets(Flushed(mp, mp.Keys))
    ensures WellFormed(Flushed(mp, mp.Keys) + ShiftOut(s)) || s != 0
    ensures NoBrackets(Flushed(mp, mp.Keys) + ShiftOut(s))
  {
    var f := Flushed(mp, mp.Keys);
    FlushedAdds(mp, mp.Keys);
    assert WellFormed(f) by {
      forall k | 0 <= k < |f| ensures TokenOk(f, k) {
        assert f[k].Add? && f[k].n != 0;
      }
    }
    if s == 0 {
      assert f + ShiftOut(s) == f;
    }
  }

  /** Flushing, then moving the head, then a bracket, keeps the shape. */
  lemma BracketTail(mp: map<int, int>, s: int, b: Token)
    requires b == LoopBegin(0) || b == LoopEnd(0)
    ensures WellFormed(Flushed(mp, mp.Keys) + ShiftOut(s) + [b])
    ensures NoBrackets(Flushed(mp, mp.Keys) + ShiftOut(s))
  {
    var f := Flushed(mp, mp.Keys);
    FlushedShape(mp, s);
    var t := ShiftOut(s) + [b];
    assert WellFormed(t) by {
      forall k | 0 <= k < |t| ensures TokenOk(t, k) {
        if s != 0 && k == 0 { assert t[1] == b; }
      }
    }
    WellFormedAppend(f, t);
    assert f + ShiftOut(s) + [b] == f + t;
  }

  /** Appending a flush, a head movement and a bracket to a well-formed,
      well-nested list keeps both, and moves the depth by the bracket. */
  lemma BracketKeeps(inst: seq<Token>, mp: map<int, int>, s: int, b: Token)
    requires b == LoopBegin(0) || b == LoopEnd(0)
    requires WellFormed(inst) && WellNested(inst) && Depth(inst) + Delta(b) >= 0
    ensures var r := inst + Flushed(mp, mp.Keys) + ShiftOut(s) + [b];
      WellFormed(r) && WellNested(r) && Depth(r) == Depth(inst) + Delta(b)
  {
    var f := Flushed(mp, mp.Keys) + ShiftOut(s);
    BracketTail(mp, s, b);
    WellFormedAppend(inst, f + [b]);
    assert inst + (f + [b]) == inst + Flushed(mp, mp.Keys) + ShiftOut(s) + [b];
    NoBracketsAppend(inst, f);
    WellNestedSnoc(inst + f, b);
    assert inst + Flushed(mp, mp.Keys) + ShiftOut(s) + [b] == (inst + f) + [b];
  }

  lemma OpenKeepsInv(st: Lowering)
    requires Inv(st)
    ensures Inv(Open(st))
  {
    BracketKeeps(st.inst, st.mp, st.shift, LoopBegin(0));
  }

  lemma CloseKeepsInv(st: Lowering)
    requires Inv(st) && st.depth >= 1
    ensures Inv(Close(st))
  {
    BracketKeeps(st.inst, st.mp, st.shift, LoopEnd(0));
  }

  /** Removing the last token keeps the shape when that token is one no
      other token needs as its successor. */
  lemma WellFormedInit(s: seq<Token>)
    requires WellFormed(s) && s != []
    requires !s[|s| - 1].LoopBegin? && !s[|s| - 1].LoopEnd? && !s[|s| - 1].Output?
    ensures WellFormed(s[..|s| - 1])
  {
    var p := s[..|s| - 1];
    forall k | 0 <= k < |p| ensures TokenOk(p, k) {
      assert TokenOk(s, k);
      if k + 1 == |p| {
        assert s[k + 1] == s[|s| - 1];
      } else {
        assert p[k + 1] == s[k + 1];
      }
    }
  }

  /** Dropping a final `LoopBegin`, and the `Shift` before it if there is
      one, leaves a well-formed prefix. */
  lemma PopLoopBegin(s: seq<Token>, shift: int)
    requires WellFormed(s) && s != [] && s[|s| - 1].LoopBegin?
    ensures WellFormed(Unwind(s[..|s| - 1], shift).0)
  {
    var body := s[..|s| - 1];
    var base := Unwind(body, shift).0;
    assert |base| <= |body|;
    forall k | 0 <= k < |base| ensures TokenOk(base, k) {
      assert TokenOk(s, k);
      assert s[k] == base[k];
      if k + 1 < |base| {
        assert base[k + 1] == s[k + 1];
      } else if |base| < |body| {
        assert s[k + 1] == body[|base|];
      } else {
        assert s[k + 1] == s[|s| - 1];
      }
    }
  }

  lemma RewrittenShape(mp: map<int, int>, s: int)
    ensures WellFormed(Rewritten(mp, mp.Keys, s) + [Clear(s)])
    ensures NoBrackets(Rewritten(mp, mp.Keys, s) + [Clear(s)])
  {
    var t := Rewritten(mp, mp.Keys, s) + [Clear(s)];
    RewrittenOps(mp, mp.Keys, s);
    forall k | 0 <= k < |t| ensures TokenOk(t, k) && !IsBracket(t[k]) {
      if k < |t| - 1 {
        assert t[k] == Rewritten(mp, mp.Keys, s)[k];
      }
    }
  }

  lemma UnwindKeeps(inst: seq<Token>, shift: int)
    requires WellFormed(inst) && WellNested(inst) && inst != [] && inst[|inst| - 1].LoopBegin?
    ensures var base := Unwind(inst[..|inst| - 1], shift).0;
      WellFormed(base) && WellNested(base) && Depth(base) == Depth(inst) - 1
  {
    var body := inst[..|inst| - 1];
    PopLoopBegin(inst, shift);
    WellNestedInit(inst);
    if body != [] && body[|body| - 1].Shift? {
      WellNestedInit(body);
    }
  }

  lemma RewriteKeepsInv(st: Lowering)
    requires Inv(st) && st.depth >= 1 && IdiomFires(st)
    ensures st.inst != [] && Inv(Rewrite(st))
  {
    assert st.inst != [];
    var (base, s) := Unwind(st.inst[..|st.inst| - 1], st.shift);
    UnwindKeeps(st.inst, st.shift);
    var m := st.mp - {0};
    var t := Rewritten(m, m.Keys, s) + [Clear(s)];
    RewrittenShape(m, s);
    WellFormedAppend(base, t);
    NoBracketsAppend(base, t);
    assert Rewrite(st).inst == base + t;
  }

  lemma StepKeepsInv(st: Lowering, c: char)
    requires Inv(st)
    ensures Step(st, c).Ok? ==> Inv(Step(st, c).value)
  {
    match c
    case '.' =>
      OutputKeepsInv(st);
    case ',' =>
      InputKeepsInv(st);
    case '[' =>
      OpenKeepsInv(st);
    case ']' =>
      if st.depth - 1 >= 0 {
        if IdiomFires(st) {
          RewriteKeepsInv(st);
        } else {
          CloseKeepsInv(st);
        }
      }
    case _ =>
  }

  lemma OutputKeepsInv(st: Lowering)
    requires Inv(st)
    ensures Inv(st.(inst := st.inst + Pending(st.mp, st.shift) + [Output(st.shift)], mp := st.mp - {st.shift}))
  {
    var t := Pending(st.mp, st.shift) + [Output(st.shift)];
    assert WellFormed(t) && NoBrackets(t) by {
      forall k | 0 <= k < |t| ensures TokenOk(t, k) && !IsBracket(t[k]) {
        if k == 0 && st.shift in st.mp { assert t[1] == Output(st.shift); }
      }
    }
    WellFormedAppend(st.inst, t);
    NoBracketsAppend(st.inst, t);
    assert st.inst + Pending(st.mp, st.shift) + [Output(st.shift)] == st.inst + t;
  }

  lemma InputKeepsInv(st: Lowering)
    requires Inv(st)
    ensures Inv(st.(inst := st.inst + [Input(st.shift)], mp := st.mp - {st.shift}))
  {
    var t := [Input(st.shift)];
    assert WellFormed(t) && NoBrackets(t);
    WellFormedAppend(st.inst, t);
    NoBracketsAppend(st.inst, t);
  }

  // ---------------------------------------------------------------------
  // The front end as the source runs it

  /** Removing the least offset from the set to flush emits its delta first. */
  lemma FlushedPeel(mp: map<int, int>, keys: set<int>, k: int, out: seq<Token>)
    requires keys <= mp.Keys && k in keys && forall j :: j in keys ==> k <= j
    ensures (if mp[k] != 0 then out + [Add(mp[k], k)] else out) + Flushed(mp, keys - {k}) ==
      out + Flushed(mp, keys)
  {
    assert MinKey(keys) == k;
    var head: seq<Token> := if mp[k] != 0 then [Add(mp[k], k)] else [];
    assert Flushed(mp, keys) == head + Flushed(mp, keys - {k});
    assert (if mp[k] != 0 then out + [Add(mp[k], k)] else out) == out + head;
  }

  /** Taking the least offset out of the idiom's transfers. */
  lemma RewrittenPeel(mp: map<int, int>, keys: set<int>, k: int, s: int, out: seq<Token>)
    requires keys <= mp.Keys && k in keys && forall j :: j in keys ==> k <= j
    ensures (if mp[k] != 0 then out + [IdiomOp(mp[k], k + s, s)] else out) + Rewritten(mp, keys - {k}, s) ==
      out + Rewritten(mp, keys, s)
  {
    assert MinKey(keys) == k;
    var head: seq<Token> := if mp[k] != 0 then [IdiomOp(mp[k], k + s, s)] else [];
    assert Rewritten(mp, keys, s) == head + Rewritten(mp, keys - {k}, s);
    assert (if mp[k] != 0 then out + [IdiomOp(mp[k], k + s, s)] else out) == out + head;
  }

  method FlushPending(mp: map<int, int>) returns (out: seq<Token>)
    ensures out == Flushed(mp, mp.Keys)
  {
    out := [];
    var rem := mp.Keys;
    while rem != {}
      invariant rem <= mp.Keys
      invariant out + Flushed(mp, rem) == Flushed(mp, mp.Keys)
      decreases |rem|
    {
      ghost var m := MinKey(rem);
      var k :| k in rem && forall j :: j in rem ==> k <= j;
      FlushedPeel(mp, rem, k, out);
      if mp[k] != 0 {
        out := out + [Add(mp[k], k)];
      }
      rem := rem - {k};
    }
    assert Flushed(mp, rem) == [];
  }

  /** Emits the transfer for every non-zero delta of the loop body. */
  method RewriteOps(mp: map<int, int>, s: int) returns (out: seq<Token>)
    ensures out == Rewritten(mp, mp.Keys, s)
  {
    out := [];
    var rem := mp.Keys;
    while rem != {}
      invariant rem <= mp.Keys
      invariant out + Rewritten(mp, rem, s) == Rewritten(mp, mp.Keys, s)
      decreases |rem|
    {
      ghost var m := MinKey(rem);
      var k :| k in rem && forall j :: j in rem ==> k <= j;
      RewrittenPeel(mp, rem, k, s, out);
      if mp[k] != 0 {
        out := out + [IdiomOp(mp[k], k + s, s)];
      }
      rem := rem - {k};
    }
    assert Rewritten(mp, rem, s) == [];
  }

  /** Once a prefix fails, the whole source fails the same way. */
  lemma {:induction false} ScanSticky(cs: string, n: int)
    requires 0 <= n <= |cs| && Scan(cs[..n]).Err?
    ensures Scan(cs) == Scan(cs[..n])
    decreases |cs|
  {
    if n < |cs| {
      var init := cs[..|cs| - 1];
      assert init[..n] == cs[..n];
      ScanSticky(init, n);
    } else {
      assert cs[..n] == cs;
    }
  }

  /** The `[` arm: flush the pending deltas and head movement, then open
      a loop. */
  method OpenLoop(st: Lowering) returns (next: Lowering)
    requires Inv(st)
    ensures Step(st, '[') == Ok(next)
  {
    var inst := st.inst;
    var shift := st.shift;
    var adds := FlushPending(st.mp);
    inst := inst + adds;
    if shift != 0 {
      inst := inst + [Shift(shift)];
      shift := 0;
    }
    inst := inst + [LoopBegin(0)];
    next := Lowering(inst, st.depth + 1, shift, |inst|, map[]);
    assert next == Open(st);
  }

  /** The `]` arm: fail on an unopened loop, rewrite the idiom, or flush
      and close the loop. */
  method CloseLoop(st: Lowering) returns (r: Result<Lowering>)
    requires Inv(st)
    ensures Step(st, ']') == r
  {
    var inst, depth, shift, mp := st.inst, st.depth - 1, st.shift, st.mp;
    if depth < 0 {
      return Err(MissingOpen);
    }
    if |inst| == st.begin && shift == 0 && 0 in mp && mp[0] == -1 {
      assert IdiomFires(st) && st.inst != [];
      inst := inst[..|inst| - 1];
      if |inst| > 0 && inst[|inst| - 1].Shift? {
        shift := inst[|inst| - 1].n;
        inst := inst[..|inst| - 1];
      }
      assert (inst, shift) == Unwind(st.inst[..|st.inst| - 1], st.shift);
      mp := mp - {0};
      var ops := RewriteOps(mp, shift);
      inst := inst + ops + [Clear(shift)];
      r := Ok(Lowering(inst, depth, shift, 0, map[]));
      assert r == Ok(Rewrite(st));
    } else {
      var adds := FlushPending(mp);
      inst := inst + adds;
      if shift != 0 {
        inst := inst + [Shift(shift)];
        shift := 0;
      }
      inst := inst + [LoopEnd(0)];
      assert inst == st.inst + Flushed(st.mp, st.mp.Keys) + ShiftOut(st.shift) + [LoopEnd(0)];
      r := Ok(Lowering(inst, depth, shift, st.begin, map[]));
      assert r == Ok(Close(st));
    }
  }

  /** One character of the source, as the body of the front end's loop. */
  method Consume(st: Lowering, c: char) returns (r: Result<Lowering>)
    requires Inv(st)
    ensures Step(st, c) == r
  {
    var inst, shift, mp := st.inst, st.shift, st.mp;
    if c == '+' || c == '-' {
      var n := if c == '+' then 1 else -1;
      if shift in mp {
        mp := mp[shift := mp[shift] + n];
      } else {
        mp := mp[shift := n];
      }
      r := Ok(st.(mp := mp));
    } else if c == '>' {
      r := Ok(st.(shift := shift + 1));
    } else if c == '<' {
      r := Ok(st.(shift := shift - 1));
    } else if c == '.' {
      if shift in mp {
        inst := inst + [Add(mp[shift], shift)];
        mp := mp - {shift};
      } else {
        assert mp - {shift} == mp;
      }
      inst := inst + [Output(shift)];
      assert inst == st.inst + Pending(st.mp, st.shift) + [Output(st.shift)];
      r := Ok(st.(inst := inst, mp := mp));
    } else if c == ',' {
      if shift in mp {
        mp := mp - {shift};
      } else {
        assert mp - {shift} == mp;
      }
      inst := inst + [Input(shift)];
      r := Ok(st.(inst := inst, mp := mp));
    } else if c == '[' {
      var next := OpenLoop(st);
      r := Ok(next);
    } else if c == ']' {
      r := CloseLoop(st);
    } else {
      r := Ok(st);
    }
  }

  /** `Interpreter::new`: compiles the source and resolves its jumps. */
  method New(src: string) returns (r: Result<seq<Token>>)
    ensures Lower(src).Err? ==> r == Err(Lower(src).error)
    ensures Lower(src).Ok? ==> r.Ok? && JumpsResolved(Lower(src).value, r.value)
  {
    var st := Start;
    for i := 0 to |src|
      invariant Scan(src[..i]) == Ok(st)
    {
      assert src[..i + 1][..i] == src[..i];
      var next := Consume(st, src[i]);
      if next.Err? {
        ScanSticky(src, i + 1);
        assert src[..|src|] == src;
        return Err(next.error);
      }
      st := next.value;
    }
    assert src[..|src|] == src;
    if st.depth > 0 {
      return Err(MissingClose);
    }
    var inst := st.inst + [End];
    WellNestedSnoc(st.inst, End);
    var opt := BuildJumpAddr(inst);
    return Ok(opt);
  }

  // ---------------------------------------------------------------------
  // What the front end guarantees

  /** A compiled program ends with its only `End`, every loop in it is
      closed, and every other token keeps the shape guarantees. */
  lemma LowerShape(src: string)
    ensures Lower(src).Ok? ==>
      var p := Lower(src).value;
      |p| >= 1 && p[|p| - 1] == End && (forall k :: 0 <= k < |p| - 1 ==> !p[k].End?) &&
      WellFormed(p[..|p| - 1]) && Balanced(p)
  {
    var r := Scan(src);
    if r.Ok? && r.value.depth <= 0 {
      assert Lower(src) == Ok(r.value.inst + [End]);
      Terminated(r.value.inst);
    }
  }

  lemma Terminated(inst: seq<Token>)
    requires WellFormed(inst) && WellNested(inst) && Depth(inst) == 0
    ensures var p := inst + [End];
      p[|p| - 1] == End && (forall k :: 0 <= k < |p| - 1 ==> !p[k].End?) &&
      WellFormed(p[..|p| - 1]) && Balanced(p)
  {
    var p := inst + [End];
    assert p[..|p| - 1] == inst;
    WellNestedSnoc(inst, End);
    forall k | 0 <= k < |p| - 1 ensures !p[k].End? {
      assert TokenOk(inst, k);
    }
  }

  /** `[` count minus `]` count. */
  function SrcDepth(cs: string): int {
    if cs == [] then 0
    else SrcDepth(cs[..|cs| - 1]) + (if cs[|cs| - 1] == '[' then 1 else if cs[|cs| - 1] == ']' then -1 else 0)
  }

  /** No prefix of the source closes more loops than it opens. */
  ghost predicate SrcNested(cs: string) {
    forall k :: 0 <= k <= |cs| ==> SrcDepth(cs[..k]) >= 0
  }

  /** Only a `]` at depth 0 fails, and the depth follows the brackets. */
  lemma SrcNestedSnoc(cs: string)
    requires cs != []
    ensures SrcNested(cs) <==> SrcNested(cs[..|cs| - 1]) && SrcDepth(cs) >= 0
  {
    var init := cs[..|cs| - 1];
    if SrcNested(cs) {
      forall k | 0 <= k <= |init| ensures SrcDepth(init[..k]) >= 0 {
        assert init[..k] == cs[..k];
      }
      assert cs[..|cs|] == cs;
    }
    if SrcNested(init) && SrcDepth(cs) >= 0 {
      forall k | 0 <= k <= |cs| ensures SrcDepth(cs[..k]) >= 0 {
        if k <= |init| {
          assert cs[..k] == init[..k];
        } else {
          assert cs[..k] == cs;
        }
      }
    }
  }

  /** The state after a non-empty prefix is one step from the state
      before its last character. */
  lemma ScanSnoc(cs: string)
    requires cs != []
    ensures Scan(cs) == if Scan(cs[..|cs| - 1]).Err? then Scan(cs[..|cs| - 1])
      else Step(Scan(cs[..|cs| - 1]).value, cs[|cs| - 1])
  {
  }

  lemma {:induction false} ScanDepth(cs: string)
    ensures Scan(cs).Ok? <==> SrcNested(cs)
    ensures Scan(cs).Ok? ==> Scan(cs).value.depth == SrcDepth(cs)
    ensures Scan(cs).Err? ==> Scan(cs).error == MissingOpen
    decreases |cs|
  {
    if cs != [] {
      var init := cs[..|cs| - 1];
      ScanDepth(init);
      SrcNestedSnoc(cs);
      ScanSnoc(cs);
      if Scan(init).Ok? {
      }
    } else {
      assert cs[..0] == cs;
    }
  }

  /** `Err("[ missing.")` exactly when some prefix closes a loop it never
      opened, `Err("] missing.")` exactly when no prefix does but a loop
      is left open, and a program otherwise. */
  lemma LowerErrors(src: string)
    ensures Lower(src) == Err(MissingOpen) <==> !SrcNested(src)
    ensures Lower(src) == Err(MissingClose) <==> SrcNested(src) && SrcDepth(src) > 0
    ensures Lower(src).Ok? <==> SrcNested(src) && SrcDepth(src) == 0
  {
    ScanDepth(src);
    assert src[..|src|] == src;
  }

  predicate IsCommand(c: char) {
    c in "+-<>,.[]"
  }

  /** The source with everything but the eight commands removed. */
  function Commands(cs: string): (r: string)
    ensures forall i :: 0 <= i < |r| ==> IsCommand(r[i])
  {
    if cs == [] then []
    else Commands(cs[..|cs| - 1]) + (if IsCommand(cs[|cs| - 1]) then [cs[|cs| - 1]] else [])
  }

  lemma StepSkip(st: Lowering, c: char)
    requires Inv(st) && !IsCommand(c)
    ensures Step(st, c) == Ok(st)
  {
    assert c != '+' && c != '-' && c != '<' && c != '>';
    assert c != ',' && c != '.' && c != '[' && c != ']';
  }

  lemma {:induction false} ScanCommands(cs: string)
    ensures Scan(cs) == Scan(Commands(cs))
    decreases |cs|
  {
    if cs != [] {
      var init := cs[..|cs| - 1];
      var c := cs[|cs| - 1];
      ScanCommands(init);
      ScanSnoc(cs);
      if IsCommand(c) {
        var d := Commands(init) + [c];
        assert Commands(cs) == d;
        assert d[..|d| - 1] == Commands(init) && d[|d| - 1] == c;
        ScanSnoc(d);
      } else {
        assert Commands(cs) == Commands(init);
        if Scan(init).Ok? {
          StepSkip(Scan(init).value, c);
        }
      }
    }
  }

  /** Characters other than the eight commands are skipped: they change
      neither the program nor the error. */
  lemma LowerIgnoresComments(src: string)
    ensures Lower(src) == Lower(Commands(src))
    ensures Commands(src) == [] ==> Lower(src) == Ok([End])
  {
    ScanCommands(src);
    if Commands(src) == [] {
      assert Scan([]) == Ok(Start);
      assert Start.inst + [End] == [End];
      assert Lower(Commands(src)) == Lower([]) == Ok([End]);
    }
  }

  /** The I/O instructions of a program, as the source characters they
      came from. */
  function IoTrace(s: seq<Token>): seq<char> {
    if s == [] then []
    else
      IoTrace(s[..|s| - 1]) +
      (if s[|s| - 1].Output? then "." else if s[|s| - 1].Input? then "," else "")
  }

  /** The `.` and `,` of the source, in order. */
  function IoChars(cs: string): (r: string)
    ensures forall i :: 0 <= i < |r| ==> r[i] == '.' || r[i] == ','
  {
    if cs == [] then []
    else IoChars(cs[..|cs| - 1]) + (if cs[|cs| - 1] in ".," then [cs[|cs| - 1]] else [])
  }

  ghost predicate NoIo(s: seq<Token>) {
    forall k :: 0 <= k < |s| ==> !s[k].Output? && !s[k].Input?
  }

  lemma {:induction false} IoTraceAppend(a: seq<Token>, b: seq<Token>)
    ensures IoTrace(a + b) == IoTrace(a) + IoTrace(b)
    decreases |b|
  {
    if b == [] {
      assert a + b == a;
    } else {
      var b' := b[..|b| - 1];
      assert (a + b)[..|a + b| - 1] == a + b';
      IoTraceAppend(a, b');
    }
  }

  lemma {:induction false} IoTraceNoIo(s: seq<Token>)
    requires NoIo(s)
    ensures IoTrace(s) == []
    decreases |s|
  {
    if s != [] {
      IoTraceNoIo(s[..|s| - 1]);
    }
  }

  lemma FlushedNoIo(mp: map<int, int>, keys: set<int>)
    requires keys <= mp.Keys
    ensures IoTrace(Flushed(mp, keys)) == []
  {
    FlushedAdds(mp, keys);
    IoTraceNoIo(Flushed(mp, keys));
  }

  /** A flush, a head movement and a bracket perform no I/O. */
  lemma BracketIo(inst: seq<Token>, mp: map<int, int>, s: int, b: Token)
    requires IsBracket(b)
    ensures IoTrace(inst + Flushed(mp, mp.Keys) + ShiftOut(s) + [b]) == IoTrace(inst)
  {
    var f := Flushed(mp, mp.Keys);
    FlushedNoIo(mp, mp.Keys);
    IoTraceAppend(inst, f);
    IoTraceAppend(inst + f, ShiftOut(s));
    assert IoTrace(ShiftOut(s)) == [] by {
      if s != 0 { IoTraceSnoc([], Shift(s)); }
    }
    IoTraceSnoc(inst + f + ShiftOut(s), b);
  }

  lemma RewrittenNoIo(mp: map<int, int>, keys: set<int>, s: int)
    requires keys <= mp.Keys
    ensures IoTrace(Rewritten(mp, keys, s) + [Clear(s)]) == []
  {
    RewrittenOps(mp, keys, s);
    var t := Rewritten(mp, keys, s) + [Clear(s)];
    assert NoIo(t) by {
      forall k | 0 <= k < |t| ensures !t[k].Output? && !t[k].Input? {
        if k < |t| - 1 { assert t[k] == Rewritten(mp, keys, s)[k]; }
      }
    }
    IoTraceNoIo(t);
  }

  /** One character adds its own I/O instruction, if it is `.` or `,`,
      and no other. */
  lemma StepIo(st: Lowering, c: char)
    requires Inv(st)
    ensures Step(st, c).Ok? ==>
      IoTrace(Step(st, c).value.inst) == IoTrace(st.inst) + (if c in ".," then [c] else [])
  {
    if c == '[' || c == ']' {
      BracketStepIo(st, c);
    } else {
      PlainStepIo(st, c);
    }
  }

  /** A character other than a bracket. */
  lemma PlainStepIo(st: Lowering, c: char)
    requires Inv(st) && c != '[' && c != ']'
    ensures IoTrace(Step(st, c).value.inst) == IoTrace(st.inst) + (if c in ".," then [c] else [])
  {
    if c == '.' {
      assert Step(st, c).value.inst == st.inst + Pending(st.mp, st.shift) + [Output(st.shift)];
      OutputIo(st);
    } else if c == ',' {
      assert Step(st, c).value.inst == st.inst + [Input(st.shift)];
      IoTraceSnoc(st.inst, Input(st.shift));
    } else {
      assert Step(st, c).value.inst == st.inst;
    }
  }

  /** A bracket performs no I/O, whether or not the idiom fires. */
  lemma BracketStepIo(st: Lowering, c: char)
    requires Inv(st) && (c == '[' || c == ']')
    ensures Step(st, c).Ok? ==> IoTrace(Step(st, c).value.inst) == IoTrace(st.inst)
  {
    if c == '[' {
      OpenIo(st);
    } else if st.depth >= 1 && IdiomFires(st) {
      RewriteIo(st);
    } else if st.depth >= 1 {
      CloseIo(st);
    }
  }

  lemma IoTraceSnoc(s: seq<Token>, t: Token)
    ensures IoTrace(s + [t]) == IoTrace(s) + (if t.Output? then "." else if t.Input? then "," else "")
  {
    assert (s + [t])[..|s|] == s;
  }

  lemma OutputIo(st: Lowering)
    ensures IoTrace(st.inst + Pending(st.mp, st.shift) + [Output(st.shift)]) == IoTrace(st.inst) + "."
  {
    IoTraceSnoc(st.inst + Pending(st.mp, st.shift), Output(st.shift));
    if st.shift in st.mp {
      IoTraceSnoc(st.inst, Add(st.mp[st.shift], st.shift));
    } else {
      assert st.inst + Pending(st.mp, st.shift) == st.inst;
    }
  }

  lemma OpenIo(st: Lowering)
    ensures IoTrace(Open(st).inst) == IoTrace(st.inst)
  {
    BracketIo(st.inst, st.mp, st.shift, LoopBegin(0));
  }

  lemma CloseIo(st: Lowering)
    ensures IoTrace(Close(st).inst) == IoTrace(st.inst)
  {
    BracketIo(st.inst, st.mp, st.shift, LoopEnd(0));
  }

  /** Dropping the `LoopBegin` and a `Shift` before it removes no I/O. */
  lemma UnwindIo(inst: seq<Token>, shift: int)
    requires inst != [] && inst[|inst| - 1].LoopBegin?
    ensures IoTrace(Unwind(inst[..|inst| - 1], shift).0) == IoTrace(inst)
  {
    var body := inst[..|inst| - 1];
    var base := Unwind(body, shift).0;
    assert body + [inst[|inst| - 1]] == inst;
    IoTraceSnoc(body, inst[|inst| - 1]);
    if base != body {
      assert base + [body[|body| - 1]] == body;
      IoTraceSnoc(base, body[|body| - 1]);
    }
  }

  /** The transfers and the `Clear` that replace a loop perform no I/O. */
  lemma TransfersIo(base: seq<Token>, m: map<int, int>, s: int)
    ensures IoTrace(base + Rewritten(m, m.Keys, s) + [Clear(s)]) == IoTrace(base)
  {
    var t := Rewritten(m, m.Keys, s) + [Clear(s)];
    RewrittenNoIo(m, m.Keys, s);
    IoTraceAppend(base, t);
    assert base + t == base + Rewritten(m, m.Keys, s) + [Clear(s)];
  }

  lemma RewriteIo(st: Lowering)
    requires st.inst != [] && st.inst[|st.inst| - 1].LoopBegin?
    ensures IoTrace(Rewrite(st).inst) == IoTrace(st.inst)
  {
    var u := Unwind(st.inst[..|st.inst| - 1], st.shift);
    UnwindIo(st.inst, st.shift);
    TransfersIo(u.0, st.mp - {0}, u.1);
  }

  lemma {:induction false} ScanIo(cs: string)
    ensures Scan(cs).Ok? ==> IoTrace(Scan(cs).value.inst) == IoChars(cs)
    decreases |cs|
  {
    if cs != [] {
      var init := cs[..|cs| - 1];
      ScanIo(init);
      if Scan(init).Ok? {
        StepIo(Scan(init).value, cs[|cs| - 1]);
      }
    }
  }

  /** Every `.` of the source becomes exactly one `Output` and every `,`
      exactly one `Input`, in source order; nothing else reads or writes. */
  lemma LowerIo(src: string)
    ensures Lower(src).Ok? ==> IoTrace(Lower(src).value) == IoChars(src)
  {
    ScanIo(src);
    if Lower(src).Ok? {
      IoTraceAppend(Scan(src).value.inst, [End]);
    }
  }

  // ---------------------------------------------------------------------
  // Worked examples

  lemma FlushedOne(mp: map<int, int>, k: int)
    requires k in mp
    ensures Flushed(mp, {k}) == if mp[k] != 0 then [Add(mp[k], k)] else []
  {
    assert {k} - {MinKey({k})} == {};
  }

  /** Scanning one more character. */
  lemma Scanned(cs: string, c: char, st: Lowering, st': Lowering)
    requires Scan(cs) == Ok(st) && Step(st, c) == Ok(st')
    ensures Scan(cs + [c]) == Ok(st')
  {
    assert (cs + [c])[..|cs|] == cs;
  }

  /** Finishing the sweep with every loop closed. */
  lemma Lowered(src: string, st: Lowering)
    requires Scan(src) == Ok(st) && st.depth == 0
    ensures Lower(src) == Ok(st.inst + [End])
  {
  }

  /** A run of `n` pluses leaves one pending delta of `n` at offset 0. */
  lemma {:induction false} Pluses(n: nat)
    requires n >= 1
    ensures Scan(seq(n, _ => '+')) == Ok(Start.(mp := map[0 := n]))
  {
    var cs := seq(n, _ => '+');
    if n == 1 {
      assert cs == "" + ['+'];
      Scanned("", '+', Start, Start.(mp := map[0 := 1]));
    } else {
      Pluses(n - 1);
      assert cs == seq(n - 1, _ => '+') + ['+'];
      assert Bump(map[0 := n - 1], 0, 1) == map[0 := n];
      Scanned(seq(n - 1, _ => '+'), '+', Start.(mp := map[0 := n - 1]), Start.(mp := map[0 := n]));
    }
  }

  /** `n` pluses and a `[`: the count is flushed, then the loop opens. */
  lemma CountThenOpen(n: nat)
    requires n >= 1
    ensures Scan(seq(n, _ => '+') + ['[']) == Ok(Lowering([Add(n, 0), LoopBegin(0)], 1, 0, 2, map[]))
  {
    var sn := Start.(mp := map[0 := n]);
    var open := Lowering([Add(n, 0), LoopBegin(0)], 1, 0, 2, map[]);
    Pluses(n);
    FlushedOne(map[0 := n], 0);
    assert map[0 := n].Keys == {0};
    assert Open(sn) == open;
    Scanned(seq(n, _ => '+'), '[', sn, open);
  }

  /** A loop just opened after one non-bracket token. */
  lemma OpenedInv(t: Token, mp: map<int, int>)
    requires !IsBracket(t) && TokenOk([t, LoopBegin(0)], 0)
    ensures Inv(Lowering([t, LoopBegin(0)], 1, 0, 2, mp))
  {
    var none: seq<Token> := [];
    assert WellNested(none) by {
      assert none[..0] == none;
    }
    WellNestedSnoc(none, t);
    assert none + [t] == [t];
    WellNestedSnoc([t], LoopBegin(0));
    assert [t] + [LoopBegin(0)] == [t, LoopBegin(0)];
    assert TokenOk([t, LoopBegin(0)], 1);
  }

  /** The `]` of a clear loop whose counter was set by an `Add`. */
  lemma ClearLoopClose(n: int)
    requires n != 0
    ensures var body := Lowering([Add(n, 0), LoopBegin(0)], 1, 0, 2, map[0 := -1]);
      Inv(body) && Step(body, ']') == Ok(Lowering([Add(n, 0), Clear(0)], 0, 0, 0, map[]))
  {
    var body := Lowering([Add(n, 0), LoopBegin(0)], 1, 0, 2, map[0 := -1]);
    OpenedInv(Add(n, 0), map[0 := -1]);
    var none: map<int, int> := map[];
    assert map[0 := -1] - {0} == none;
    assert Rewritten(none, none.Keys, 0) == [] by {
      assert none.Keys == {};
    }
    assert IdiomFires(body) && body.inst[..1] == [Add(n, 0)];
    assert Rewrite(body) == Lowering([Add(n, 0), Clear(0)], 0, 0, 0, map[]);
  }

  /** `+++++[-]`: the count is flushed before the loop, and the loop
      becomes a clear. */
  lemma ClearLoopExample(src: string)
    requires src == "+++++[-]"
    ensures Lower(src) == Ok([Add(5, 0), Clear(0), End])
  {
    var open := Lowering([Add(5, 0), LoopBegin(0)], 1, 0, 2, map[]);
    var body := open.(mp := map[0 := -1]);
    var done := Lowering([Add(5, 0), Clear(0)], 0, 0, 0, map[]);
    CountThenOpen(5);
    assert seq(5, _ => '+') + ['['] + ['-'] + [']'] == src;
    assert Step(open, '-') == Ok(body) by {
      assert Bump(map[], 0, -1) == map[0 := -1];
    }
    Scanned(seq(5, _ => '+') + ['['], '-', open, body);
    ClearLoopClose(5);
    Scanned(seq(5, _ => '+') + ['['] + ['-'], ']', body, done);
    Lowered(src, done);
    assert done.inst + [End] == [Add(5, 0), Clear(0), End];
  }

  lemma RewrittenOne(mp: map<int, int>, k: int, s: int)
    requires k in mp
    ensures Rewritten(mp, {k}, s) == if mp[k] != 0 then [IdiomOp(mp[k], k + s, s)] else []
  {
    assert {k} - {MinKey({k})} == {};
  }

  /** `>[-`: the head movement is emitted before the loop opens. */
  lemma ShiftedClearBody()
    ensures Scan(">[-") == Ok(Lowering([Shift(1), LoopBegin(0)], 1, 0, 2, map[0 := -1]))
  {
    var moved := Start.(shift := 1);
    var open := Lowering([Shift(1), LoopBegin(0)], 1, 0, 2, map[]);
    assert Scan(">[") == Ok(open) by {
      Scanned("", '>', Start, moved);
      assert "" + ['>'] == ">";
      var none: map<int, int> := map[];
      assert Flushed(none, none.Keys) == [] by {
        assert none.Keys == {};
      }
      assert Open(moved) == open;
      Scanned(">", '[', moved, open);
      assert ">" + ['['] == ">[";
    }
    assert Bump(map[], 0, -1) == map[0 := -1];
    Scanned(">[", '-', open, open.(mp := map[0 := -1]));
    assert ">[" + ['-'] == ">[-";
  }

  /** The `]` of a clear loop entered after a head movement. */
  lemma ShiftedClearClose()
    ensures var body := Lowering([Shift(1), LoopBegin(0)], 1, 0, 2, map[0 := -1]);
      Inv(body) && Step(body, ']') == Ok(Lowering([Clear(1)], 0, 1, 0, map[]))
  {
    var body := Lowering([Shift(1), LoopBegin(0)], 1, 0, 2, map[0 := -1]);
    OpenedInv(Shift(1), map[0 := -1]);
    var none: map<int, int> := map[];
    assert map[0 := -1] - {0} == none;
    assert Rewritten(none, none.Keys, 1) == [] by {
      assert none.Keys == {};
    }
    assert IdiomFires(body) && body.inst[..1] == [Shift(1)];
    assert Unwind([Shift(1)], 0) == ([], 1);
    assert Rewrite(body) == Lowering([Clear(1)], 0, 1, 0, map[]);
  }

  /** `>[-]`: the `Shift` before the loop is taken back into the pending
      shift, so the clear addresses the moved cell and no `Shift` is left. */
  lemma ShiftedClearExample()
    ensures Lower(">[-]") == Ok([Clear(1), End])
  {
    var body := Lowering([Shift(1), LoopBegin(0)], 1, 0, 2, map[0 := -1]);
    var done := Lowering([Clear(1)], 0, 1, 0, map[]);
    ShiftedClearBody();
    ShiftedClearClose();
    Scanned(">[-", ']', body, done);
    assert ">[-" + [']'] == ">[-]";
    Lowered(">[-]", done);
    assert done.inst + [End] == [Clear(1), End];
  }

  /** `+-.`: a delta that cancelled to 0 is still emitted before an
      `Output` of its cell. */
  lemma CancelledOutputExample()
    ensures Lower("+-.") == Ok([Add(0, 0), Output(0), End])
  {
    var s1 := Start.(mp := map[0 := 1]);
    var s2 := Start.(mp := map[0 := 0]);
    var done := Lowering([Add(0, 0), Output(0)], 0, 0, 0, map[]);
    assert Scan("+-") == Ok(s2) by {
      Scanned("", '+', Start, s1);
      assert "" + ['+'] == "+";
      assert Bump(map[0 := 1], 0, -1) == map[0 := 0];
      Scanned("+", '-', s1, s2);
      assert "+" + ['-'] == "+-";
    }
    assert Scan("+-.") == Ok(done) by {
      assert map[0 := 0] - {0} == map[];
      assert Pending(map[0 := 0], 0) == [Add(0, 0)];
      assert [] + [Add(0, 0)] + [Output(0)] == done.inst;
      assert Step(s2, '.') == Ok(done);
      Scanned("+-", '.', s2, done);
      assert "+-" + ['.'] == "+-.";
    }
    Lowered("+-.", done);
    assert done.inst + [End] == [Add(0, 0), Output(0), End];
  }

  /** `++[->+<`: the loop body leaves a decrement of the counter and an
      increment of its right neighbour pending. */
  lemma CopyLoopBody(p: string)
    requires p == seq(2, _ => '+') + ['['] + ['-'] + ['>'] + ['+'] + ['<']
    ensures Scan(p) == Ok(Lowering([Add(2, 0), LoopBegin(0)], 1, 0, 2, map[0 := -1, 1 := 1]))
  {
    var p0 := seq(2, _ => '+') + ['['];
    var open := Lowering([Add(2, 0), LoopBegin(0)], 1, 0, 2, map[]);
    var b1 := open.(mp := map[0 := -1]);
    var b2 := b1.(shift := 1);
    var b3 := b2.(mp := map[0 := -1, 1 := 1]);
    CountThenOpen(2);
    assert Bump(map[], 0, -1) == map[0 := -1];
    Scanned(p0, '-', open, b1);
    Scanned(p0 + ['-'], '>', b1, b2);
    assert Bump(map[0 := -1], 1, 1) == map[0 := -1, 1 := 1];
    Scanned(p0 + ['-'] + ['>'], '+', b2, b3);
    Scanned(p0 + ['-'] + ['>'] + ['+'], '<', b3, b3.(shift := 0));
  }

  /** The `]` of the copy loop: the neighbour's delta becomes an `AddTo`. */
  lemma CopyLoopClose()
    ensures var body := Lowering([Add(2, 0), LoopBegin(0)], 1, 0, 2, map[0 := -1, 1 := 1]);
      Inv(body) && Step(body, ']') == Ok(Lowering([Add(2, 0), AddTo(1, 0), Clear(0)], 0, 0, 0, map[]))
  {
    var body := Lowering([Add(2, 0), LoopBegin(0)], 1, 0, 2, map[0 := -1, 1 := 1]);
    OpenedInv(Add(2, 0), map[0 := -1, 1 := 1]);
    var rest := map[1 := 1];
    assert map[0 := -1, 1 := 1] - {0} == rest;
    assert rest.Keys == {1};
    RewrittenOne(rest, 1, 0);
    assert IdiomFires(body) && body.inst[..1] == [Add(2, 0)];
    assert Rewrite(body) == Lowering([Add(2, 0), AddTo(1, 0), Clear(0)], 0, 0, 0, map[]);
  }

  /** `++[->+<]`: a copy loop becomes an `AddTo` and a `Clear`. */
  lemma CopyLoopExample(src: string)
    requires src == "++[->+<]"
    ensures Lower(src) == Ok([Add(2, 0), AddTo(1, 0), Clear(0), End])
  {
    var p := seq(2, _ => '+') + ['['] + ['-'] + ['>'] + ['+'] + ['<'];
    var body := Lowering([Add(2, 0), LoopBegin(0)], 1, 0, 2, map[0 := -1, 1 := 1]);
    var done := Lowering([Add(2, 0), AddTo(1, 0), Clear(0)], 0, 0, 0, map[]);
    CopyLoopBody(p);
    CopyLoopClose();
    Scanned(p, ']', body, done);
    assert p + [']'] == src;
    Lowered(src, done);
    assert done.inst + [End] == [Add(2, 0), AddTo(1, 0), Clear(0), End];
  }

  /** A `]` with nothing open, and a `[` never closed. */
  lemma UnbalancedExamples()
    ensures Lower("]") == Err(MissingOpen)
    ensures Lower("[") == Err(MissingClose)
  {
    assert "]"[..0] == "" && "["[..0] == "";
  }
}
