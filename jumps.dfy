/** The second pass of the front end: pairing every `LoopBegin` with its
    `LoopEnd` and filling in the relative jump offsets. */
module Jumps {
  import opened Ir

  /** `r` is `s` with its jumps resolved: same length, every other token
      unchanged, and from every bracket at `k`, `k + rel` lands one past its
      partner. A `LoopBegin` that nothing closes keeps offset 0. */
  ghost predicate JumpsResolved(s: seq<Token>, r: seq<Token>) {
    |r| == |s| &&
    (forall k {:trigger r[k]} :: 0 <= k < |s| && !IsBracket(s[k]) ==> r[k] == s[k]) &&
    (forall k {:trigger r[k]} :: 0 <= k < |s| && s[k].LoopBegin? ==>
       r[k].LoopBegin? &&
       (Matches(s, k, k + r[k].rel - 1) ||
        (r[k].rel == 0 && forall j :: !Matches(s, k, j)))) &&
    (forall k {:trigger r[k]} :: 0 <= k < |s| && s[k].LoopEnd? ==>
       r[k].LoopEnd? && Matches(s, k + r[k].rel - 1, k))
  }

  /** The state of the resolution loop after the first `i` tokens: `stack`
      holds, in increasing order, the positions of the loops still open,
      each not yet resolved; every other bracket before `i` is resolved. */
  ghost predicate Progress(inst: seq<Token>, i: int, stack: seq<int>, opt: seq<Token>) {
    0 <= i <= |inst| && |opt| == i &&
    Copied(inst, i, opt) && Stacked(inst, i, stack, opt) && Resolved(inst, i, stack, opt)
  }

  /** Tokens other than brackets are copied. */
  ghost predicate Copied(inst: seq<Token>, i: int, opt: seq<Token>)
    requires 0 <= i <= |inst| && |opt| == i
  {
    forall k :: 0 <= k < i && !IsBracket(inst[k]) ==> opt[k] == inst[k]
  }

  /** The stack lists the open loops, innermost last. */
  ghost predicate Stacked(inst: seq<Token>, i: int, stack: seq<int>, opt: seq<Token>)
    requires 0 <= i <= |inst| && |opt| == i
  {
    (forall m :: 0 <= m < |stack| ==>
       0 <= stack[m] < i && inst[stack[m]].LoopBegin? && opt[stack[m]] == LoopBegin(0)) &&
    (forall m, m' :: 0 <= m < m' < |stack| ==> stack[m] < stack[m']) &&
    |stack| == Depth(inst[..i]) &&
    OpenLoops(inst, i, stack)
  }

  /** The loops on the stack are open at `i`: the `m`-th has `|stack| - m - 1`
      loops open inside it, and none of them has been closed before `i`. */
  ghost predicate OpenLoops(inst: seq<Token>, i: int, stack: seq<int>)
    requires 0 <= i <= |inst|
    requires forall m :: 0 <= m < |stack| ==> 0 <= stack[m] < i
  {
    (forall m :: 0 <= m < |stack| ==> DepthAfter(inst, stack[m], i) == |stack| - m - 1) &&
    (forall m, l :: 0 <= m < |stack| && stack[m] < l <= i ==> DepthAfter(inst, stack[m], l) >= 0)
  }

  lemma StillOpen(inst: seq<Token>, i: int, stack: seq<int>, m: int, l: int)
    requires 0 <= i <= |inst|
    requires forall m :: 0 <= m < |stack| ==> 0 <= stack[m] < i
    requires OpenLoops(inst, i, stack)
    requires 0 <= m < |stack| && stack[m] < l <= i
    ensures DepthAfter(inst, stack[m], l) >= 0
  {
  }

  /** Every bracket before `i` that is not on the stack jumps one past its partner. */
  ghost predicate Resolved(inst: seq<Token>, i: int, stack: seq<int>, opt: seq<Token>)
    requires 0 <= i <= |inst| && |opt| == i
  {
    BeginsResolved(inst, i, stack, opt) && EndsResolved(inst, i, opt)
  }

  ghost predicate BeginsResolved(inst: seq<Token>, i: int, stack: seq<int>, opt: seq<Token>)
    requires 0 <= i <= |inst| && |opt| == i
  {
    forall k :: 0 <= k < i && inst[k].LoopBegin? && k !in stack ==>
      opt[k].LoopBegin? && Matches(inst, k, k + opt[k].rel - 1)
  }

  ghost predicate EndsResolved(inst: seq<Token>, i: int, opt: seq<Token>)
    requires 0 <= i <= |inst| && |opt| == i
  {
    forall k :: 0 <= k < i && inst[k].LoopEnd? ==>
      opt[k].LoopEnd? && Matches(inst, k + opt[k].rel - 1, k)
  }

  lemma StepDepths(inst: seq<Token>, i: int, stack: seq<int>)
    requires 0 <= i < |inst|
    requires forall m :: 0 <= m < |stack| ==> 0 <= stack[m] < i
    ensures Depth(inst[..i + 1]) == Depth(inst[..i]) + Delta(inst[i])
    ensures forall m :: 0 <= m < |stack| ==>
              DepthAfter(inst, stack[m], i + 1) == DepthAfter(inst, stack[m], i) + Delta(inst[i])
  {
    assert inst[..i + 1][..i] == inst[..i];
    forall m | 0 <= m < |stack|
      ensures DepthAfter(inst, stack[m], i + 1) == DepthAfter(inst, stack[m], i) + Delta(inst[i])
    {
      DepthSnoc(inst, stack[m] + 1, i);
    }
  }

  lemma CopiedSnoc(inst: seq<Token>, i: int, opt: seq<Token>, t: Token)
    requires 0 <= i < |inst| && |opt| == i && Copied(inst, i, opt)
    requires !IsBracket(inst[i]) ==> t == inst[i]
    ensures Copied(inst, i + 1, opt + [t])
  {
    var opt' := opt + [t];
    forall k | 0 <= k < i + 1 && !IsBracket(inst[k]) ensures opt'[k] == inst[k] {
      if k < i {
        assert opt'[k] == opt[k];
      }
    }
  }

  lemma CopiedUpdate(inst: seq<Token>, i: int, opt: seq<Token>, pos: int, t: Token)
    requires 0 <= pos < i <= |inst| && |opt| == i && Copied(inst, i, opt) && IsBracket(inst[pos])
    ensures Copied(inst, i, opt[pos := t])
  {
  }

  lemma ResolvedSnoc(inst: seq<Token>, i: int, stack: seq<int>, opt: seq<Token>, t: Token)
    requires 0 <= i < |inst| && |opt| == i && Resolved(inst, i, stack, opt)
    requires !IsBracket(inst[i]) || (inst[i].LoopBegin? && i in stack)
    ensures Resolved(inst, i + 1, stack, opt + [t])
  {
    BeginsSnoc(inst, i, stack, opt, t);
    EndsSnoc(inst, i, opt, t);
  }

  lemma BeginsSnoc(inst: seq<Token>, i: int, stack: seq<int>, opt: seq<Token>, t: Token)
    requires 0 <= i < |inst| && |opt| == i && BeginsResolved(inst, i, stack, opt)
    requires inst[i].LoopBegin? ==> i in stack
    ensures BeginsResolved(inst, i + 1, stack, opt + [t])
  {
    var opt' := opt + [t];
    forall k | 0 <= k < i + 1 && inst[k].LoopBegin? && k !in stack
      ensures opt'[k].LoopBegin? && Matches(inst, k, k + opt'[k].rel - 1)
    {
      assert opt'[k] == opt[k];
    }
  }

  lemma EndsSnoc(inst: seq<Token>, i: int, opt: seq<Token>, t: Token)
    requires 0 <= i < |inst| && |opt| == i && EndsResolved(inst, i, opt)
    requires !inst[i].LoopEnd?
    ensures EndsResolved(inst, i + 1, opt + [t])
  {
    var opt' := opt + [t];
    forall k | 0 <= k < i + 1 && inst[k].LoopEnd?
      ensures opt'[k].LoopEnd? && Matches(inst, k + opt'[k].rel - 1, k)
    {
      assert opt'[k] == opt[k];
    }
  }

  lemma ResolvedPop(inst: seq<Token>, i: int, stack: seq<int>, opt: seq<Token>, pos: int)
    requires 0 <= i < |inst| && |opt| == i && Resolved(inst, i, stack, opt)
    requires stack != [] && pos == stack[|stack| - 1] && Matches(inst, pos, i)
    ensures Resolved(inst, i + 1, stack[..|stack| - 1],
                     opt[pos := LoopBegin(i - pos + 1)] + [LoopEnd(1 - (i - pos))])
  {
    BeginsPop(inst, i, stack, opt, pos);
    EndsPop(inst, i, opt, pos);
  }

  lemma BeginsPop(inst: seq<Token>, i: int, stack: seq<int>, opt: seq<Token>, pos: int)
    requires 0 <= i < |inst| && |opt| == i && BeginsResolved(inst, i, stack, opt)
    requires stack != [] && pos == stack[|stack| - 1] && Matches(inst, pos, i)
    ensures BeginsResolved(inst, i + 1, stack[..|stack| - 1],
                           opt[pos := LoopBegin(i - pos + 1)] + [LoopEnd(1 - (i - pos))])
  {
    var stack' := stack[..|stack| - 1];
    var opt' := opt[pos := LoopBegin(i - pos + 1)] + [LoopEnd(1 - (i - pos))];
    forall k | 0 <= k < i + 1 && inst[k].LoopBegin? && k !in stack'
      ensures opt'[k].LoopBegin? && Matches(inst, k, k + opt'[k].rel - 1)
    {
      if k != pos {
        NotOnStack(stack, k);
        assert opt'[k] == opt[k];
      }
    }
  }

  lemma EndsPop(inst: seq<Token>, i: int, opt: seq<Token>, pos: int)
    requires 0 <= i < |inst| && |opt| == i && EndsResolved(inst, i, opt)
    requires Matches(inst, pos, i)
    ensures EndsResolved(inst, i + 1, opt[pos := LoopBegin(i - pos + 1)] + [LoopEnd(1 - (i - pos))])
  {
    var opt' := opt[pos := LoopBegin(i - pos + 1)] + [LoopEnd(1 - (i - pos))];
    forall k | 0 <= k < i + 1 && inst[k].LoopEnd?
      ensures opt'[k].LoopEnd? && Matches(inst, k + opt'[k].rel - 1, k)
    {
      if k < i {
        assert opt'[k] == opt[k];
      }
    }
  }

  lemma NotOnStack(stack: seq<int>, k: int)
    requires stack != [] && k != stack[|stack| - 1] && k !in stack[..|stack| - 1]
    ensures k !in stack
  {
    assert stack == stack[..|stack| - 1] + [stack[|stack| - 1]];
  }

  lemma StackedPush(inst: seq<Token>, i: int, stack: seq<int>, opt: seq<Token>)
    requires 0 <= i < |inst| && |opt| == i && Stacked(inst, i, stack, opt) && inst[i].LoopBegin?
    ensures Stacked(inst, i + 1, stack + [i], opt + [LoopBegin(0)])
  {
    StepDepths(inst, i, stack);
    assert inst[i + 1..i + 1] == [];
    assert DepthAfter(inst, i, i + 1) == 0;
    var stack', opt' := stack + [i], opt + [LoopBegin(0)];
    forall m | 0 <= m < |stack'|
      ensures 0 <= stack'[m] < i + 1 && inst[stack'[m]].LoopBegin? && opt'[stack'[m]] == LoopBegin(0)
    {
      if m < |stack| {
        assert stack'[m] == stack[m];
      }
    }
    forall m | 0 <= m < |stack'|
      ensures DepthAfter(inst, stack'[m], i + 1) == |stack'| - m - 1
    {
      if m < |stack| {
        assert stack'[m] == stack[m];
      }
    }
    forall m, l | 0 <= m < |stack'| && stack'[m] < l <= i + 1
      ensures DepthAfter(inst, stack'[m], l) >= 0
    {
      if m < |stack| {
        assert stack'[m] == stack[m];
      }
    }
  }

  lemma StackedPop(inst: seq<Token>, i: int, stack: seq<int>, opt: seq<Token>)
    requires 0 <= i < |inst| && |opt| == i && Stacked(inst, i, stack, opt) && inst[i].LoopEnd?
    requires Depth(inst[..i + 1]) >= 0
    ensures stack != []
    ensures var pos := stack[|stack| - 1];
      Matches(inst, pos, i) &&
      (forall m :: 0 <= m < |stack| - 1 ==> stack[m] != pos) &&
      Stacked(inst, i + 1, stack[..|stack| - 1],
              opt[pos := LoopBegin(i - pos + 1)] + [LoopEnd(1 - (i - pos))])
  {
    StepDepths(inst, i, stack);
    var pos := stack[|stack| - 1];
    assert DepthAfter(inst, pos, i) == 0;
    assert Matches(inst, pos, i);
    var stack' := stack[..|stack| - 1];
    var opt' := opt[pos := LoopBegin(i - pos + 1)] + [LoopEnd(1 - (i - pos))];
    forall m | 0 <= m < |stack'|
      ensures 0 <= stack'[m] < i + 1 && inst[stack'[m]].LoopBegin? && opt'[stack'[m]] == LoopBegin(0)
    {
      assert stack'[m] == stack[m] && stack[m] < pos;
    }
    forall m | 0 <= m < |stack'|
      ensures DepthAfter(inst, stack'[m], i + 1) == |stack'| - m - 1
    {
      assert stack'[m] == stack[m];
    }
    forall m, l | 0 <= m < |stack'| && stack'[m] < l <= i + 1
      ensures DepthAfter(inst, stack'[m], l) >= 0
    {
      assert stack'[m] == stack[m];
    }
  }

  lemma StackedPlain(inst: seq<Token>, i: int, stack: seq<int>, opt: seq<Token>)
    requires 0 <= i < |inst| && |opt| == i && Stacked(inst, i, stack, opt) && !IsBracket(inst[i])
    ensures Stacked(inst, i + 1, stack, opt + [inst[i]])
  {
    StepDepths(inst, i, stack);
    var opt' := opt + [inst[i]];
    forall m | 0 <= m < |stack|
      ensures opt'[stack[m]] == LoopBegin(0)
    {
      assert opt'[stack[m]] == opt[stack[m]];
    }
  }

  lemma PushStep(inst: seq<Token>, i: int, stack: seq<int>, opt: seq<Token>)
    requires Progress(inst, i, stack, opt) && i < |inst| && inst[i].LoopBegin?
    ensures Progress(inst, i + 1, stack + [i], opt + [LoopBegin(0)])
  {
    CopiedSnoc(inst, i, opt, LoopBegin(0));
    StackedPush(inst, i, stack, opt);
    ResolvedStack(inst, i, stack, stack + [i], opt);
    ResolvedSnoc(inst, i, stack + [i], opt, LoopBegin(0));
  }

  /** Growing the stack does not disturb resolution. */
  lemma ResolvedStack(inst: seq<Token>, i: int, stack: seq<int>, stack': seq<int>, opt: seq<Token>)
    requires 0 <= i <= |inst| && |opt| == i && Resolved(inst, i, stack, opt)
    requires forall k :: k in stack ==> k in stack'
    ensures Resolved(inst, i, stack', opt)
  {
  }

  lemma PopStep(inst: seq<Token>, i: int, stack: seq<int>, opt: seq<Token>)
    requires Progress(inst, i, stack, opt) && i < |inst| && inst[i].LoopEnd?
    requires WellNested(inst)
    ensures stack != []
    ensures var pos := stack[|stack| - 1];
      Progress(inst, i + 1, stack[..|stack| - 1],
               opt[pos := LoopBegin(i - pos + 1)] + [LoopEnd(1 - (i - pos))])
  {
    StepDepths(inst, i, stack);
    assert Depth(inst[..i + 1]) >= 0;
    StackedPop(inst, i, stack, opt);
    var pos := stack[|stack| - 1];
    ResolvedPop(inst, i, stack, opt, pos);
    CopiedUpdate(inst, i, opt, pos, LoopBegin(i - pos + 1));
    CopiedSnoc(inst, i, opt[pos := LoopBegin(i - pos + 1)], LoopEnd(1 - (i - pos)));
  }

  lemma PlainStep(inst: seq<Token>, i: int, stack: seq<int>, opt: seq<Token>)
    requires Progress(inst, i, stack, opt) && i < |inst| && !IsBracket(inst[i])
    ensures Progress(inst, i + 1, stack, opt + [inst[i]])
  {
    CopiedSnoc(inst, i, opt, inst[i]);
    StackedPlain(inst, i, stack, opt);
    ResolvedSnoc(inst, i, stack, opt, inst[i]);
  }

  /** One turn of the resolution loop: push a `LoopBegin`, pop the partner
      of a `LoopEnd` and write both offsets, or copy any other token. */
  method Visit(inst: seq<Token>, i: int, stack: seq<int>, opt: seq<Token>)
    returns (stack': seq<int>, opt': seq<Token>)
    requires Progress(inst, i, stack, opt) && i < |inst| && WellNested(inst)
    ensures Progress(inst, i + 1, stack', opt')
  {
    if inst[i].LoopBegin? {
      PushStep(inst, i, stack, opt);
      stack' := stack + [i];
      opt' := opt + [LoopBegin(0)];
    } else if inst[i].LoopEnd? {
      PopStep(inst, i, stack, opt);
      var pos := stack[|stack| - 1];
      stack' := stack[..|stack| - 1];
      var shift := i - pos;
      opt' := opt[pos := LoopBegin(shift + 1)] + [LoopEnd(1 - shift)];
      assert opt' == opt[pos := LoopBegin(i - pos + 1)] + [LoopEnd(1 - (i - pos))];
    } else {
      PlainStep(inst, i, stack, opt);
      stack' := stack;
      opt' := opt + [inst[i]];
    }
  }

  /** Resolves the jump offsets of `inst`. The caller guarantees that no
      `LoopEnd` comes without an open `LoopBegin` (the source would pop an
      empty stack). */
  method BuildJumpAddr(inst: seq<Token>) returns (opt: seq<Token>)
    requires WellNested(inst)
    ensures JumpsResolved(inst, opt)
  {
    opt := [];
    var stack: seq<int> := [];
    for i := 0 to |inst|
      invariant Progress(inst, i, stack, opt)
    {
      stack, opt := Visit(inst, i, stack, opt);
    }
    Unclosed(inst, stack, opt);
  }

  /** At the end, the loops left on the stack are closed by nothing. */
  lemma Unclosed(inst: seq<Token>, stack: seq<int>, opt: seq<Token>)
    requires Progress(inst, |inst|, stack, opt)
    ensures JumpsResolved(inst, opt)
  {
    forall k | 0 <= k < |inst| && inst[k].LoopBegin? && k in stack
      ensures opt[k] == LoopBegin(0) && forall j :: !Matches(inst, k, j)
    {
      var m :| 0 <= m < |stack| && stack[m] == k;
      forall j | Matches(inst, k, j) ensures false {
        StillOpen(inst, |inst|, stack, m, j + 1);
        ClosedAt(inst, k, j);
      }
    }
  }

  /** Partners point at each other: the two offsets sum to 2, and each
      lands one past the other. */
  lemma PartnerOffsets(s: seq<Token>, r: seq<Token>, i: int, j: int)
    requires JumpsResolved(s, r) && Matches(s, i, j)
    ensures r[i] == LoopBegin(j - i + 1) && r[j] == LoopEnd(1 - (j - i))
    ensures r[i].rel + r[j].rel == 2
    ensures i + r[i].rel == j + 1 && j + r[j].rel == i + 1
  {
    var a := MatchedBeginAt(s, r, i, j);
    var b := EndRel(s, r, j);
    PartnerRel(s, i, j, a, b);
  }

  lemma PartnerRel(s: seq<Token>, i: int, j: int, a: int, b: int)
    requires Matches(s, i, j) && Matches(s, i, i + a - 1) && Matches(s, j + b - 1, j)
    ensures a == j - i + 1 && b == 1 - (j - i)
  {
    MatchUniqueEnd(s, i, j, i + a - 1);
    MatchUniqueBegin(s, i, j + b - 1, j);
  }

  lemma BeginAt(s: seq<Token>, r: seq<Token>, k: int)
    requires JumpsResolved(s, r) && 0 <= k < |s| && s[k].LoopBegin?
    ensures r[k].LoopBegin?
    ensures Matches(s, k, k + r[k].rel - 1) || (r[k].rel == 0 && forall j :: !Matches(s, k, j))
  {
  }

  lemma MatchedBeginAt(s: seq<Token>, r: seq<Token>, i: int, j: int) returns (a: int)
    requires JumpsResolved(s, r) && Matches(s, i, j)
    ensures r[i] == LoopBegin(a) && Matches(s, i, i + a - 1)
  {
    BeginAt(s, r, i);
    a := r[i].rel;
    SomeMatch(s, i, j, a);
  }

  /** A `LoopBegin` that has a partner is not one of the unmatched ones. */
  lemma SomeMatch(s: seq<Token>, i: int, j: int, a: int)
    requires Matches(s, i, j)
    requires Matches(s, i, i + a - 1) || (a == 0 && forall j' :: !Matches(s, i, j'))
    ensures Matches(s, i, i + a - 1)
  {
  }

  lemma EndRel(s: seq<Token>, r: seq<Token>, k: int) returns (b: int)
    requires JumpsResolved(s, r) && 0 <= k < |s| && s[k].LoopEnd?
    ensures r[k] == LoopEnd(b) && Matches(s, k + b - 1, k)
  {
    EndAt(s, r, k);
    b := r[k].rel;
  }

  lemma EndAt(s: seq<Token>, r: seq<Token>, k: int)
    requires JumpsResolved(s, r) && 0 <= k < |s| && s[k].LoopEnd?
    ensures r[k].LoopEnd? && Matches(s, k + r[k].rel - 1, k)
  {
  }

  /** The resolved program is determined by its input. */
  lemma ResolvedUnique(s: seq<Token>, r: seq<Token>, r': seq<Token>)
    requires JumpsResolved(s, r) && JumpsResolved(s, r')
    ensures r == r'
  {
    forall k | 0 <= k < |s| ensures r[k] == r'[k] {
      if s[k].LoopBegin? {
        BeginAt(s, r, k);
        BeginAt(s, r', k);
        if Matches(s, k, k + r[k].rel - 1) {
          PartnerOffsets(s, r', k, k + r[k].rel - 1);
        }
      } else if s[k].LoopEnd? {
        EndAt(s, r, k);
        PartnerOffsets(s, r', k + r[k].rel - 1, k);
      }
    }
  }

  /** Resolution changes no bracket kind, so it keeps the nesting. */
  lemma ResolvedShape(s: seq<Token>, r: seq<Token>)
    requires JumpsResolved(s, r)
    ensures SameShape(s, r)
    ensures WellNested(s) ==> WellNested(r)
    ensures Depth(r) == Depth(s)
  {
    forall k | 0 <= k <= |s| ensures Depth(r[..k]) == Depth(s[..k]) {
      SameShapeDepth(s, r, 0, k);
    }
    assert r[..|r|] == r && s[..|s|] == s;
  }

  /** Resolving already resolved jumps changes nothing: the pass overwrites
      every offset, so its result depends only on where the brackets are. */
  lemma ResolveIdempotent(s: seq<Token>, r: seq<Token>, r2: seq<Token>)
    requires JumpsResolved(s, r) && JumpsResolved(r, r2)
    ensures r2 == r
  {
    ResolvedShape(s, r);
    forall i, j ensures Matches(s, i, j) <==> Matches(r, i, j) {
      SameShapeMatches(s, r, i, j);
    }
    assert JumpsResolved(r, r);
    ResolvedUnique(r, r, r2);
  }

  /** In a balanced sequence every `LoopBegin` has a partner. */
  lemma BalancedAllMatched(s: seq<Token>, r: seq<Token>, k: int)
    requires JumpsResolved(s, r) && Balanced(s) && 0 <= k < |s| && s[k].LoopBegin?
    ensures Matches(s, k, k + r[k].rel - 1)
  {
    DepthSplit(s, 0, k + 1, |s|);
    DepthSnoc(s, 0, k);
    assert s[0..k] == s[..k] && s[0..k + 1] == s[..k + 1] && s[0..|s|] == s;
    assert DepthAfter(s, k, |s|) < 0;
    assert s[k + 1..k + 1] == [];
    var j := FindPartner(s, k, k + 1);
    PartnerOffsets(s, r, k, j);
  }

  /** Scans from `l` for the first place where the loop opened at `k` closes. */
  lemma {:induction false} FindPartner(s: seq<Token>, k: int, l: int) returns (j: int)
    requires 0 <= k < l <= |s| && s[k].LoopBegin?
    requires forall l' :: k < l' <= l ==> DepthAfter(s, k, l') >= 0
    requires DepthAfter(s, k, |s|) < 0
    ensures Matches(s, k, j)
    decreases |s| - l
  {
    DepthSnoc(s, k + 1, l);
    assert DepthAfter(s, k, l) >= 0;
    if DepthAfter(s, k, l + 1) < 0 {
      j := l;
    } else {
      j := FindPartner(s, k, l + 1);
    }
  }
}
