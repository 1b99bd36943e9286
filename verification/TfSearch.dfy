/** The time-frequency search of the encoder (tfAnalysis, internal/celt/celt_encoder_tf.go).

    Each band gets a 0/1 flag.  A choice of flags costs the mismatch of every band, weighed
    by its importance, and lambda for every change of flag; for non-transients, lambda too
    if the first flag is 1.  The source runs a Viterbi search for each of two tables, picks
    a table and backtracks.  Its result is proved to be the cheapest of all flag sequences,
    and which of them if several are.
    How the metric itself is computed is not part of this model. */
module TfSearch {
  const TF_SELECT_TABLE: seq<seq<int>> := [
    [0, -1, 0, -1, 0, -1, 0, -1],
    [0, -1, 0, -2, 1, 0, 1, -1],
    [0, -2, 0, -3, 2, 0, 1, -1],
    [0, -2, 0, -3, 3, 0, 1, -1]
  ]

  datatype Search = Search(metric: seq<int>, importance: seq<int>, lambda: int, lm: nat, transient: bool) {
    ghost predicate Valid() { 1 <= |metric| == |importance| && lm < 4 }
    function Bands(): int { |metric| }
  }

  function Abs(x: int): int { if x < 0 then -x else x }
  function Min(a: int, b: int): int { if a < b then a else b }

  predicate IsFlag(b: int) { b == 0 || b == 1 }

  /** What flag b costs in band i under table sel. */
  function Mismatch(s: Search, sel: int, i: int, b: int): int
    requires s.Valid() && IsFlag(sel) && 0 <= i < s.Bands() && IsFlag(b)
  {
    s.importance[i] * Abs(s.metric[i] - 2 * TF_SELECT_TABLE[s.lm][4 * (if s.transient then 1 else 0) + 2 * sel + b])
  }

  function Start(s: Search, sel: int, b: int): int
    requires s.Valid() && IsFlag(sel) && IsFlag(b)
  {
    Mismatch(s, sel, 0, b) + if b == 1 && !s.transient then s.lambda else 0
  }

  function Switch(s: Search, a: int, b: int): int {
    if a != b then s.lambda else 0
  }

  ghost predicate IsPath(r: seq<int>) { r != [] && forall i | 0 <= i < |r| :: IsFlag(r[i]) }

  /** The cost of a flag sequence for the first |r| bands. */
  ghost function PathCost(s: Search, sel: int, r: seq<int>): int
    requires s.Valid() && IsFlag(sel) && IsPath(r) && |r| <= s.Bands()
  {
    var n := |r|;
    if n == 1 then Start(s, sel, r[0])
    else PathCost(s, sel, r[..n - 1]) + Switch(s, r[n - 2], r[n - 1]) + Mismatch(s, sel, n - 1, r[n - 1])
  }

  /** How often the flag changes; a first flag of 1 is a change except for transients. */
  ghost function Changes(r: seq<int>, transient: bool): (n: nat)
    requires r != []
  {
    if |r| == 1 then if r[0] == 1 && !transient then 1 else 0
    else Changes(r[..|r| - 1], transient) + if r[|r| - 2] != r[|r| - 1] then 1 else 0
  }

  /** How far flag b of band i is from the metric, which is in half levels, by importance. */
  function Far(s: Search, sel: int, i: nat, b: int): (d: int)
    requires s.Valid() && IsFlag(sel) && IsFlag(b) && i < s.Bands()
  {
    var level := TF_SELECT_TABLE[s.lm][(if s.transient then 4 else 0) + 2 * sel + b];
    s.importance[i] * if s.metric[i] >= 2 * level then s.metric[i] - 2 * level else 2 * level - s.metric[i]
  }

  ghost function Distance(s: Search, sel: int, r: seq<int>): (d: int)
    requires s.Valid() && IsFlag(sel) && IsPath(r) && |r| <= s.Bands()
  {
    var n := |r| - 1;
    Far(s, sel, n, r[n]) + if n == 0 then 0 else Distance(s, sel, r[..n])
  }

  function Times(n: nat, lambda: int): (p: int) { n * lambda }

  lemma OneMore(n: nat, lambda: int)
    ensures Times(n + 1, lambda) == Times(n, lambda) + lambda && Times(0, lambda) == 0 && Times(1, lambda) == lambda
  {
  }

  lemma FarIs(s: Search, sel: int, i: nat, b: int)
    requires s.Valid() && IsFlag(sel) && IsFlag(b) && i < s.Bands()
    ensures Far(s, sel, i, b) == Mismatch(s, sel, i, b)
  {
  }

  /** The cost of flags is their distance from the metric, and lambda for every change. */
  lemma {:induction false} CostIs(s: Search, sel: int, r: seq<int>)
    requires s.Valid() && IsFlag(sel) && IsPath(r) && |r| <= s.Bands()
    ensures PathCost(s, sel, r) == Distance(s, sel, r) + Times(Changes(r, s.transient), s.lambda)
    decreases |r|
  {
    hide Times, Far, Mismatch;
    var n := |r| - 1;
    FarIs(s, sel, n, r[n]);
    OneMore(0, s.lambda);
    if n > 0 {
      CostIs(s, sel, r[..n]);
      OneMore(Changes(r[..n], s.transient), s.lambda);
      assert r[..n][n - 1] == r[n - 1];
    }
  }

  /** The recurrence: the cheapest way to the n-th band with flag b. */
  function Best(s: Search, sel: int, n: int, b: int): int
    requires s.Valid() && IsFlag(sel) && 1 <= n <= s.Bands() && IsFlag(b)
    decreases n
  {
    if n == 1 then Start(s, sel, b)
    else Min(Best(s, sel, n - 1, b), Best(s, sel, n - 1, 1 - b) + s.lambda) + Mismatch(s, sel, n - 1, b)
  }

  function BestOf(s: Search, sel: int): int
    requires s.Valid() && IsFlag(sel)
  {
    Min(Best(s, sel, s.Bands(), 0), Best(s, sel, s.Bands(), 1))
  }

  /** No path undercuts the recurrence. */
  lemma {:induction false} NoPathIsCheaper(s: Search, sel: int, r: seq<int>)
    requires s.Valid() && IsFlag(sel) && IsPath(r) && |r| <= s.Bands()
    ensures Best(s, sel, |r|, r[|r| - 1]) <= PathCost(s, sel, r)
    decreases |r|
  {
    hide Mismatch;
    if |r| > 1 { NoPathIsCheaper(s, sel, r[..|r| - 1]); }
  }

  // ---------------------------------------------------------------- the forward passes

  /** One search for one table: only its minimum cost. */
  method SelectCost(s: Search, sel: int) returns (cost: int)
    requires s.Valid() && IsFlag(sel)
    ensures cost == BestOf(s, sel)
  {
    hide Mismatch;
    var cost0, cost1 := FirstCosts(s, sel);
    var i := 1;
    while i < s.Bands()
      invariant 1 <= i <= s.Bands()
      invariant cost0 == Best(s, sel, i, 0) && cost1 == Best(s, sel, i, 1)
    {
      var curr0 := Min(cost0, cost1 + s.lambda);
      var curr1 := Min(cost0 + s.lambda, cost1);
      cost0 := curr0 + Mismatch(s, sel, i, 0);
      cost1 := curr1 + Mismatch(s, sel, i, 1);
      i := i + 1;
    }
    cost := Min(cost0, cost1);
  }

  method FirstCosts(s: Search, sel: int) returns (cost0: int, cost1: int)
    requires s.Valid() && IsFlag(sel)
    ensures cost0 == Start(s, sel, 0) && cost1 == Start(s, sel, 1)
  {
    cost0 := Mismatch(s, sel, 0, 0);
    cost1 := Mismatch(s, sel, 0, 1);
    if !s.transient { cost1 := cost1 + s.lambda; }
  }

  /** The flag that goes before b at band i: the cheaper, 1 if they cost the same. */
  function Before(s: Search, sel: int, i: int, b: int): (a: int)
    requires s.Valid() && IsFlag(sel) && IsFlag(b) && 1 <= i < s.Bands()
    ensures IsFlag(a)
  {
    if Best(s, sel, i, 0) + Switch(s, 0, b) < Best(s, sel, i, 1) + Switch(s, 1, b) then 0 else 1
  }

  /** The predecessor of flag b at band i, as the forward pass records it. */
  ghost predicate Recorded(s: Search, sel: int, path: seq<int>, b: int, i: int)
    requires s.Valid() && IsFlag(sel) && IsFlag(b) && 1 <= i < s.Bands() == |path|
  {
    && IsFlag(path[i]) && path[i] == Before(s, sel, i, b)
    && Best(s, sel, i + 1, b) == Best(s, sel, i, path[i]) + Switch(s, path[i], b) + Mismatch(s, sel, i, b)
  }

  method Forward(s: Search, sel: int, path0: array<int>, path1: array<int>) returns (cost0: int, cost1: int)
    requires s.Valid() && IsFlag(sel) && path0 != path1 && path0.Length == path1.Length == s.Bands()
    modifies path0, path1
    ensures cost0 == Best(s, sel, s.Bands(), 0) && cost1 == Best(s, sel, s.Bands(), 1)
    ensures forall i | 1 <= i < s.Bands() ::
      Recorded(s, sel, path0[..], 0, i) && Recorded(s, sel, path1[..], 1, i)
  {
    hide Mismatch;
    cost0, cost1 := FirstCosts(s, sel);
    var i := 1;
    while i < s.Bands()
      invariant 1 <= i <= s.Bands()
      invariant cost0 == Best(s, sel, i, 0) && cost1 == Best(s, sel, i, 1)
      invariant forall k | 1 <= k < i ::
        Recorded(s, sel, path0[..], 0, k) && Recorded(s, sel, path1[..], 1, k)
    {
      ghost var was0, was1 := path0[..], path1[..];
      var curr0, curr1: int;
      var from0, from1 := cost0, cost1 + s.lambda;
      if from0 < from1 {
        curr0, path0[i] := from0, 0;
      } else {
        curr0, path0[i] := from1, 1;
      }
      from0, from1 := cost0 + s.lambda, cost1;
      if from0 < from1 {
        curr1, path1[i] := from0, 0;
      } else {
        curr1, path1[i] := from1, 1;
      }
      cost0 := curr0 + Mismatch(s, sel, i, 0);
      cost1 := curr1 + Mismatch(s, sel, i, 1);
      forall k | 1 <= k < i
        ensures Recorded(s, sel, path0[..], 0, k) && Recorded(s, sel, path1[..], 1, k)
      {
        assert Recorded(s, sel, was0, 0, k) && Recorded(s, sel, was1, 1, k);
      }
      i := i + 1;
    }
  }

  // ---------------------------------------------------------------- the backward pass

  /** What the flags after the first of t, which is band i's, add to the cost. */
  ghost function TailCost(s: Search, sel: int, i: int, t: seq<int>): int
    requires s.Valid() && IsFlag(sel) && 0 <= i && IsPath(t) && i + |t| <= s.Bands()
    decreases |t|
  {
    if |t| == 1 then 0
    else Switch(s, t[0], t[1]) + Mismatch(s, sel, i + 1, t[1]) + TailCost(s, sel, i + 1, t[1..])
  }

  lemma {:induction false} CostOfJoin(s: Search, sel: int, r: seq<int>, t: seq<int>)
    requires s.Valid() && IsFlag(sel) && IsPath(r) && IsPath(t) && |r| + |t| - 1 <= s.Bands()
    requires r[|r| - 1] == t[0]
    ensures PathCost(s, sel, r + t[1..]) == PathCost(s, sel, r) + TailCost(s, sel, |r| - 1, t)
    decreases |t|
  {
    hide Mismatch;
    if |t| == 1 {
      assert r + t[1..] == r;
    } else {
      var r' := r + [t[1]];
      CostOfJoin(s, sel, r', t[1..]);
      assert r' + t[1..][1..] == r + t[1..];
      assert r'[..|r'| - 1] == r;
    }
  }

  lemma TailOfOne(s: Search, sel: int, i: int, t: seq<int>)
    requires s.Valid() && IsFlag(sel) && 0 <= i && IsPath(t) && |t| == 1 && i + 1 <= s.Bands()
    ensures TailCost(s, sel, i, t) == 0 && TracedFrom(s, sel, i, t)
  {
  }

  /** From band i on, every flag but the last is the one that goes before the next. */
  ghost predicate TracedFrom(s: Search, sel: int, i: int, t: seq<int>)
    requires s.Valid() && IsFlag(sel) && 0 <= i && IsPath(t) && i + |t| <= s.Bands()
  {
    forall k | 1 <= k < |t| :: FollowedAt(s, sel, i, t, k)
  }

  predicate FollowedAt(s: Search, sel: int, i: int, t: seq<int>, k: int)
    requires s.Valid() && IsFlag(sel) && 0 <= i && 1 <= k < |t| && i + |t| <= s.Bands() && IsFlag(t[k])
  {
    t[k - 1] == Before(s, sel, i + k, t[k])
  }

  /** Taking the recorded predecessor keeps the cost of the whole. */
  lemma StepBack(s: Search, sel: int, path: seq<int>, i: int, t: seq<int>)
    requires s.Valid() && IsFlag(sel) && 0 <= i && IsPath(t) && i + 1 + |t| <= s.Bands() == |path|
    requires Recorded(s, sel, path, t[0], i + 1) && TracedFrom(s, sel, i + 1, t)
    ensures IsFlag(path[i + 1]) && TracedFrom(s, sel, i, [path[i + 1]] + t)
    ensures Best(s, sel, i + 1, path[i + 1]) + TailCost(s, sel, i, [path[i + 1]] + t)
         == Best(s, sel, i + 2, t[0]) + TailCost(s, sel, i + 1, t)
  {
    hide Mismatch, Best, Before;
    var u := [path[i + 1]] + t;
    assert u[1..] == t;
    forall k | 1 <= k < |u| ensures FollowedAt(s, sel, i, u, k) {
      if k > 1 { assert FollowedAt(s, sel, i + 1, t, k - 1); }
    }
  }

  lemma WholePath(s: Search, sel: int, r: seq<int>)
    requires s.Valid() && IsFlag(sel) && IsPath(r) && |r| == s.Bands()
    ensures PathCost(s, sel, r) == Best(s, sel, 1, r[0]) + TailCost(s, sel, 0, r)
  {
    hide Mismatch;
    assert [r[0]] + r[1..] == r;
    CostOfJoin(s, sel, [r[0]], r);
  }

  ghost predicate Traced(s: Search, sel: int, r: seq<int>)
    requires s.Valid() && IsFlag(sel) && IsPath(r) && |r| <= s.Bands()
  {
    TracedFrom(s, sel, 0, r)
  }

  /** At the last band where they differ, r has 1 and o has 0. */
  ghost predicate Above(r: seq<int>, o: seq<int>) {
    exists i :: 0 <= i < |r| == |o| && r[i] == 1 && o[i] == 0 && r[i + 1..] == o[i + 1..]
  }

  /** Of all paths to a flag that cost no more, the traced one is above the others. */
  lemma {:induction false} TracedIsAbove(s: Search, sel: int, r: seq<int>, o: seq<int>)
    requires s.Valid() && IsFlag(sel) && IsPath(r) && IsPath(o) && |r| == |o| <= s.Bands() && Traced(s, sel, r)
    requires r[|r| - 1] == o[|o| - 1] && PathCost(s, sel, o) <= Best(s, sel, |o|, o[|o| - 1])
    ensures r == o || Above(r, o)
    decreases |r|
  {
    hide Mismatch;
    var n := |r| - 1;
    if n > 0 {
      var r', o' := r[..n], o[..n];
      NoPathIsCheaper(s, sel, o');
      assert r == r' + [r[n]] && o == o' + [o[n]];
      assert forall k | 1 <= k < n :: FollowedAt(s, sel, 0, r, k) ==> FollowedAt(s, sel, 0, r', k);
      if r[n - 1] == o[n - 1] {
        TracedIsAbove(s, sel, r', o');
        if r' != o' { AboveGrows(r', o', r[n]); }
      } else {
        assert FollowedAt(s, sel, 0, r, n);
        assert r[n..] == o[n..];
      }
    }
  }

  lemma AboveGrows(r: seq<int>, o: seq<int>, b: int)
    requires Above(r, o)
    ensures Above(r + [b], o + [b])
  {
    var i :| 0 <= i < |r| == |o| && r[i] == 1 && o[i] == 0 && r[i + 1..] == o[i + 1..];
    assert (r + [b])[i + 1..] == r[i + 1..] + [b] && (o + [b])[i + 1..] == o[i + 1..] + [b];
    assert (r + [b])[i] == 1 && (o + [b])[i] == 0;
  }

  method Backward(s: Search, sel: int, path0: array<int>, path1: array<int>, last: int, tfRes: array<int>)
    requires s.Valid() && IsFlag(sel) && IsFlag(last)
    requires path0.Length == path1.Length == tfRes.Length == s.Bands() && tfRes != path0 && tfRes != path1
    requires forall i | 1 <= i < s.Bands() ::
      Recorded(s, sel, path0[..], 0, i) && Recorded(s, sel, path1[..], 1, i)
    modifies tfRes
    ensures IsPath(tfRes[..]) && tfRes[s.Bands() - 1] == last && Traced(s, sel, tfRes[..])
    ensures PathCost(s, sel, tfRes[..]) == Best(s, sel, s.Bands(), last)
  {
    hide Mismatch, Best, TailCost, Recorded, Before, TracedFrom;
    var n := s.Bands();
    ghost var p0, p1, t := path0[..], path1[..], [last];
    tfRes[n - 1] := last;
    TailOfOne(s, sel, n - 1, t);
    var i := n - 2;
    while i >= 0
      invariant -1 <= i <= n - 2
      invariant path0[..] == p0 && path1[..] == p1
      invariant IsPath(t) && |t| == n - 1 - i
      invariant forall k | i < k < n :: tfRes[k] == t[k - i - 1]
      invariant t[|t| - 1] == last && TracedFrom(s, sel, i + 1, t)
      invariant Best(s, sel, i + 2, t[0]) + TailCost(s, sel, i + 1, t) == Best(s, sel, n, last)
    {
      StepBack(s, sel, if t[0] == 1 then p1 else p0, i, t);
      if tfRes[i + 1] == 1 {
        tfRes[i] := path1[i + 1];
      } else {
        tfRes[i] := path0[i + 1];
      }
      t := [tfRes[i]] + t;
      i := i - 1;
    }
    assert tfRes[..] == t;
    WholePath(s, sel, t);
  }

  // ---------------------------------------------------------------- the search

  /** Only transients may use the second table, and only if it is strictly cheaper. */
  function Selected(s: Search): int
    requires s.Valid()
  {
    if s.transient && BestOf(s, 1) < BestOf(s, 0) then 1 else 0
  }

  /** No flags are cheaper, and any as cheap have a 0 where these, from the end, first differ with a 1. */
  ghost predicate Wins(s: Search, sel: int, r: seq<int>)
    requires s.Valid() && IsFlag(sel)
  {
    && IsPath(r) && |r| == s.Bands()
    && forall o | IsPath(o) && |o| == s.Bands() ::
         PathCost(s, sel, r) < PathCost(s, sel, o) || (PathCost(s, sel, r) == PathCost(s, sel, o) && (r == o || Above(r, o)))
  }

  lemma TracedWins(s: Search, sel: int, r: seq<int>)
    requires s.Valid() && IsFlag(sel) && IsPath(r) && |r| == s.Bands() && Traced(s, sel, r)
    requires PathCost(s, sel, r) == BestOf(s, sel)
    requires r[|r| - 1] == if Best(s, sel, s.Bands(), 0) < Best(s, sel, s.Bands(), 1) then 0 else 1
    ensures Wins(s, sel, r)
  {
    hide Mismatch, Best, PathCost, Above, Traced;
    forall o | IsPath(o) && |o| == s.Bands() && PathCost(s, sel, o) <= PathCost(s, sel, r)
      ensures PathCost(s, sel, r) == PathCost(s, sel, o) && (r == o || Above(r, o))
    {
      NoPathIsCheaper(s, sel, o);
      if r[|r| - 1] == o[|o| - 1] {
        TracedIsAbove(s, sel, r, o);
      } else {
        LastIsAbove(r, o);
      }
    }
  }

  lemma LastIsAbove(r: seq<int>, o: seq<int>)
    requires |r| == |o| > 0 && r[|r| - 1] == 1 && o[|o| - 1] == 0
    ensures Above(r, o)
  {
    var i := |r| - 1;
    assert r[i + 1..] == o[i + 1..];
  }

  /** The second table is taken exactly for a transient that it serves more cheaply. */
  lemma SelectedIff(s: Search, first: seq<int>, second: seq<int>)
    requires s.Valid() && Wins(s, 0, first) && Wins(s, 1, second)
    ensures Selected(s) == if s.transient && PathCost(s, 1, second) < PathCost(s, 0, first) then 1 else 0
  {
    hide Mismatch, Best, PathCost, Above;
    var r0 := MinimumIsAttained(s, 0);
    var r1 := MinimumIsAttained(s, 1);
    NoPathIsCheaper(s, 0, first);
    NoPathIsCheaper(s, 1, second);
  }

  lemma Selects(s: Search)
    requires s.Valid()
    ensures forall first, second | Wins(s, 0, first) && Wins(s, 1, second) ::
      Selected(s) == if s.transient && PathCost(s, 1, second) < PathCost(s, 0, first) then 1 else 0
  {
    hide Mismatch, Best, Before, PathCost, Above;
    forall first, second | Wins(s, 0, first) && Wins(s, 1, second)
      ensures Selected(s) == if s.transient && PathCost(s, 1, second) < PathCost(s, 0, first) then 1 else 0
    {
      SelectedIff(s, first, second);
    }
  }

  method TfAnalysis(s: Search, tfRes: array<int>) returns (tfSelect: int)
    requires s.Valid() && tfRes.Length == s.Bands()
    modifies tfRes
    ensures tfSelect == Selected(s)
    ensures Wins(s, tfSelect, tfRes[..])
    ensures forall first, second | Wins(s, 0, first) && Wins(s, 1, second) ::
      tfSelect == if s.transient && PathCost(s, 1, second) < PathCost(s, 0, first) then 1 else 0
    ensures PathCost(s, tfSelect, tfRes[..]) == BestOf(s, tfSelect)
  {
    hide Mismatch, Best, Wins, Before, Traced, PathCost;
    Selects(s);
    var selcost0 := SelectCost(s, 0);
    var selcost1 := SelectCost(s, 1);
    tfSelect := 0;
    if selcost1 < selcost0 && s.transient {
      tfSelect := 1;
    }
    var path0, path1 := new int[s.Bands()], new int[s.Bands()];
    var cost0, cost1 := Forward(s, tfSelect, path0, path1);
    var last := if cost0 < cost1 then 0 else 1;
    Backward(s, tfSelect, path0, path1, last, tfRes);
    TracedWins(s, tfSelect, tfRes[..]);
  }

  /** The result is optimal: a path that costs what TfAnalysis's does is no dearer than any
      other path under its table, and for transients than any path under either table. */
  lemma SearchIsOptimal(s: Search, found: seq<int>, sel: int, other: seq<int>)
    requires s.Valid() && IsPath(found) && |found| == s.Bands()
    requires PathCost(s, Selected(s), found) == BestOf(s, Selected(s))
    requires IsPath(other) && |other| == s.Bands() && IsFlag(sel)
    requires sel == Selected(s) || s.transient
    ensures PathCost(s, Selected(s), found) <= PathCost(s, sel, other)
  {
    hide Mismatch, Best, PathCost;
    NoPathIsCheaper(s, sel, other);
  }

  /** The minimum the searches compare is attained, so selcost is a true minimum. */
  lemma MinimumIsAttained(s: Search, sel: int) returns (r: seq<int>)
    requires s.Valid() && IsFlag(sel)
    ensures IsPath(r) && |r| == s.Bands() && PathCost(s, sel, r) == BestOf(s, sel)
  {
    var r0 := CheapestPath(s, sel, s.Bands(), 0);
    var r1 := CheapestPath(s, sel, s.Bands(), 1);
    r := if Best(s, sel, s.Bands(), 0) < Best(s, sel, s.Bands(), 1) then r0 else r1;
  }

  lemma {:induction false} CheapestPath(s: Search, sel: int, n: int, b: int) returns (r: seq<int>)
    requires s.Valid() && IsFlag(sel) && 1 <= n <= s.Bands() && IsFlag(b)
    ensures IsPath(r) && |r| == n && r[n - 1] == b && PathCost(s, sel, r) == Best(s, sel, n, b)
    decreases n
  {
    hide Mismatch;
    if n == 1 {
      r := [b];
    } else {
      var from := if Best(s, sel, n - 1, b) < Best(s, sel, n - 1, 1 - b) + s.lambda then b else 1 - b;
      var before := CheapestPath(s, sel, n - 1, from);
      r := before + [b];
      assert r[..n - 1] == before;
    }
  }
}
