/** The intermediate instruction set shared by the optimiser and the
    interpreter, and the bracket structure of an instruction sequence. */
module Ir {

  /** A tape cell: an unsigned 8-bit value. */
  type Byte = x: int | 0 <= x < 256

  /** One IR instruction. Offsets are relative to the head position at the
      time the instruction runs. The source stores deltas as 16-bit and
      offsets as 32-bit signed integers; here both are unbounded. */
  datatype Token =
    | Add(n: int, off: int)            // tape[pos + off] += n
    | Mul(n: int, dst: int, src: int)  // tape[pos + dst] += n * tape[pos + src]
    | AddTo(dst: int, src: int)        // tape[pos + dst] += tape[pos + src]
    | Clear(off: int)                  // tape[pos + off] := 0
    | Shift(n: int)                    // pos += n
    | LoopBegin(rel: int)              // if tape[pos] == 0 then pc += rel
    | LoopEnd(rel: int)                // if tape[pos] != 0 then pc += rel
    | Input(off: int)                  // tape[pos + off] := next input byte
    | Output(off: int)                 // emit tape[pos + off]
    | End                              // halt

  predicate IsBracket(t: Token) {
    t.LoopBegin? || t.LoopEnd?
  }

  /** How a token changes the nesting depth. */
  function Delta(t: Token): int {
    if t.LoopBegin? then 1 else if t.LoopEnd? then -1 else 0
  }

  /** Number of `LoopBegin`s minus number of `LoopEnd`s. */
  function Depth(s: seq<Token>): int {
    if s == [] then 0 else Depth(s[..|s| - 1]) + Delta(s[|s| - 1])
  }

  /** Depth of the slice `s[a..b]`. */
  function DepthIn(s: seq<Token>, a: int, b: int): int
    requires 0 <= a <= b <= |s|
  {
    Depth(s[a..b])
  }

  /** Depth of the tokens after position `i`, up to `l` (exclusive). */
  function DepthAfter(s: seq<Token>, i: int, l: int): int
    requires 0 <= i < l <= |s|
  {
    DepthIn(s, i + 1, l)
  }

  /** No prefix closes more loops than it opens. */
  ghost predicate WellNested(s: seq<Token>) {
    forall k :: 0 <= k <= |s| ==> Depth(s[..k]) >= 0
  }

  /** Every loop is closed, and closed after it is opened. */
  ghost predicate Balanced(s: seq<Token>) {
    WellNested(s) && Depth(s) == 0
  }

  /** The `LoopBegin` at `i` is closed by the `LoopEnd` at `j`: the tokens
      strictly between them are balanced. */
  ghost predicate Matches(s: seq<Token>, i: int, j: int) {
    0 <= i < j < |s| && s[i].LoopBegin? && s[j].LoopEnd? &&
    DepthIn(s, i + 1, j) == 0 &&
    forall l :: i < l <= j ==> DepthAfter(s, i, l) >= 0
  }

  /** Two sequences with brackets of the same kind at the same places. */
  ghost predicate SameShape(s: seq<Token>, r: seq<Token>) {
    |r| == |s| &&
    forall k :: 0 <= k < |s| ==>
      (r[k].LoopBegin? <==> s[k].LoopBegin?) && (r[k].LoopEnd? <==> s[k].LoopEnd?)
  }

  lemma DepthSnoc(s: seq<Token>, a: int, b: int)
    requires 0 <= a <= b < |s|
    ensures DepthIn(s, a, b + 1) == DepthIn(s, a, b) + Delta(s[b])
  {
    assert s[a..b + 1][..b - a] == s[a..b];
  }

  lemma {:induction false} DepthAppend(p: seq<Token>, q: seq<Token>)
    ensures Depth(p + q) == Depth(p) + Depth(q)
    decreases |q|
  {
    if q == [] {
      assert p + q == p;
    } else {
      var q' := q[..|q| - 1];
      assert (p + q)[..|p + q| - 1] == p + q';
      DepthAppend(p, q');
    }
  }

  lemma DepthSplit(s: seq<Token>, a: int, b: int, c: int)
    requires 0 <= a <= b <= c <= |s|
    ensures DepthIn(s, a, c) == DepthIn(s, a, b) + DepthIn(s, b, c)
  {
    assert s[a..c] == s[a..b] + s[b..c];
    DepthAppend(s[a..b], s[b..c]);
  }

  /** Depth sees only the bracket kinds. */
  lemma {:induction false} SameShapeDepth(s: seq<Token>, r: seq<Token>, a: int, b: int)
    requires SameShape(s, r) && 0 <= a <= b <= |s|
    ensures DepthIn(r, a, b) == DepthIn(s, a, b)
    decreases b - a
  {
    if a < b {
      SameShapeDepth(s, r, a, b - 1);
      DepthSnoc(s, a, b - 1);
      DepthSnoc(r, a, b - 1);
    }
  }

  /** Matching is a property of the bracket kinds alone. */
  lemma SameShapeMatches(s: seq<Token>, r: seq<Token>, i: int, j: int)
    requires SameShape(s, r)
    ensures Matches(s, i, j) <==> Matches(r, i, j)
  {
    if 0 <= i < j < |s| {
      SameShapeDepth(s, r, i + 1, j);
      forall l | i < l <= j
        ensures DepthAfter(s, i, l) == DepthAfter(r, i, l)
      {
        SameShapeDepth(s, r, i + 1, l);
      }
    }
  }

  /** A `LoopBegin` is closed by at most one `LoopEnd`. */
  lemma MatchUniqueEnd(s: seq<Token>, i: int, j: int, j': int)
    requires Matches(s, i, j) && Matches(s, i, j')
    ensures j == j'
  {
    if j < j' {
      ClosedAt(s, i, j);
    } else if j' < j {
      ClosedAt(s, i, j');
    }
  }

  /** A `LoopEnd` closes at most one `LoopBegin`. */
  lemma MatchUniqueBegin(s: seq<Token>, i: int, i': int, j: int)
    requires Matches(s, i, j) && Matches(s, i', j)
    ensures i == i'
  {
    if i < i' {
      MatchSpan(s, i, i', j);
    } else if i' < i {
      MatchSpan(s, i', i, j);
    }
  }

  /** An inner `LoopBegin` between `i` and its partner `j` leaves the slice
      after it unbalanced. */
  lemma MatchSpan(s: seq<Token>, i: int, i': int, j: int)
    requires Matches(s, i, j) && i < i' < j && s[i'].LoopBegin?
    ensures DepthIn(s, i' + 1, j) != 0
  {
    DepthSplit(s, i + 1, i' + 1, j);
    DepthSnoc(s, i + 1, i');
    assert DepthAfter(s, i, i') >= 0;
  }

  /** Just past its partner, the depth after a `LoopBegin` drops below zero. */
  lemma ClosedAt(s: seq<Token>, i: int, j: int)
    requires Matches(s, i, j)
    ensures DepthAfter(s, i, j + 1) == -1
  {
    DepthSnoc(s, i + 1, j);
  }

  /** Appending a token extends well-nestedness exactly when the new depth
      stays non-negative. */
  lemma WellNestedSnoc(s: seq<Token>, t: Token)
    requires WellNested(s) && Depth(s) + Delta(t) >= 0
    ensures WellNested(s + [t]) && Depth(s + [t]) == Depth(s) + Delta(t)
  {
    var s' := s + [t];
    assert s'[..|s'| - 1] == s;
    forall k | 0 <= k <= |s'| ensures Depth(s'[..k]) >= 0 {
      if k <= |s| {
        assert s'[..k] == s[..k];
      } else {
        assert s'[..k] == s';
      }
    }
  }

  /** Dropping the last token keeps well-nestedness. */
  lemma WellNestedInit(s: seq<Token>)
    requires WellNested(s) && s != []
    ensures WellNested(s[..|s| - 1])
  {
    var p := s[..|s| - 1];
    forall k | 0 <= k <= |p| ensures Depth(p[..k]) >= 0 {
      assert p[..k] == s[..k];
    }
  }
}
