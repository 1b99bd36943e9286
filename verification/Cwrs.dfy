/** The PVQ codeword index of RFC 6716 section 4.3.4.2 (internal/celt/cwrs.go).

    A band of n coefficients quantised to k pulses is one of V(n,k) signed integer
    vectors whose absolute values sum to k.  `Icwrs` ranks a vector and `Cwrsi`
    unranks an index.  The two methods are tied to the functions `Rank` and `Unrank`,
    which are proved to be inverse bijections between those vectors and [0, V(n,k)),
    from nothing but the recurrence of U.

    Indices are 32-bit: the only demand on the caller is the source's own, that V(n,k)
    is representable, and no intermediate value then wraps.  Every table read stays in
    the stored triangle row <= column. */
module Cwrs {
  newtype uint32 = x: int | 0 <= x < 0x1_0000_0000

  // ---------------------------------------------------------------- the numbers U and V

  /** U(n,k): ways to place k-1 pulses at most in n-1 dimensions, by its recurrence. */
  function U(n: nat, k: nat): nat
    decreases n, k
  {
    if n == 0 && k == 0 then 1
    else if n == 0 || k == 0 then 0
    else U(n - 1, k) + U(n, k - 1) + U(n - 1, k - 1)
  }

  function V(n: nat, k: nat): nat {
    U(n, k) + U(n, k + 1)
  }

  lemma {:induction false} USymmetric(n: nat, k: nat)
    ensures U(n, k) == U(k, n)
    decreases n, k
  {
    if n > 0 && k > 0 {
      USymmetric(n - 1, k);
      USymmetric(n, k - 1);
      USymmetric(n - 1, k - 1);
    }
  }

  lemma {:induction false} UMonotoneInK(n: nat, k: nat, k': nat)
    requires 1 <= n && k <= k'
    ensures U(n, k) <= U(n, k')
    decreases k' - k
  {
    if k < k' {
      UMonotoneInK(n, k + 1, k');
    }
  }

  lemma UMonotoneInN(n: nat, k: nat)
    requires 1 <= k
    ensures U(n, k) <= U(n + 1, k)
  {
  }

  /** V grows with both arguments, so a representable V bounds every V below it. */
  lemma {:induction false} VMonotone(n: nat, k: nat, n': nat, k': nat)
    requires 1 <= n <= n' && k <= k'
    ensures V(n, k) <= V(n', k')
    decreases n' - n
  {
    UMonotoneInK(n, k, k');
    UMonotoneInK(n, k + 1, k' + 1);
    if n < n' {
      if k' > 0 { UMonotoneInN(n, k'); }
      UMonotoneInN(n, k' + 1);
      VMonotone(n + 1, k', n', k');
    }
  }

  lemma {:induction false} URowOne(k: nat)
    ensures U(1, k) == if k == 0 then 0 else 1
  {
    if k > 1 { URowOne(k - 1); }
  }

  lemma {:induction false} URowTwo(k: nat)
    ensures U(2, k) == if k == 0 then 0 else 2 * k - 1
  {
    URowOne(k);
    if k > 0 {
      URowOne(k - 1);
      URowTwo(k - 1);
    }
  }

  // ---------------------------------------------------------------- vectors

  function Abs(x: int): nat {
    if x < 0 then -x else x
  }

  function Square(x: int): nat {
    Abs(x) * Abs(x)
  }

  function AbsSum(y: seq<int>): nat {
    if y == [] then 0 else Abs(y[0]) + AbsSum(y[1..])
  }

  function SumSquares(y: seq<int>): nat {
    if y == [] then 0 else Square(y[0]) + SumSquares(y[1..])
  }

  lemma SumSquaresCons(head: int, rest: seq<int>)
    ensures SumSquares([head] + rest) == Square(head) + SumSquares(rest)
  {
    assert ([head] + rest)[1..] == rest;
  }

  // ---------------------------------------------------------------- ranking

  /** The index of y among the vectors of its length and absolute sum. */
  function Rank(y: seq<int>): nat
    requires y != []
  {
    if |y| == 1 then
      if y[0] < 0 then 1 else 0
    else
      RankCons(|y|, AbsSum(y[1..]), y[0], Rank(y[1..]))
  }

  /** One more dimension in front of a tail of t pulses. */
  function RankCons(n: nat, t: nat, head: int, tailRank: nat): nat {
    U(n, t) + tailRank + if head < 0 then U(n, Abs(head) + t + 1) else 0
  }

  /** The largest m <= k with U(n,m) <= i: the pulses left after one dimension. */
  function PulsesLeft(n: nat, k: nat, i: nat): (m: nat)
    requires 1 <= n
    ensures m <= k && U(n, m) <= i
    ensures m < k ==> i < U(n, m + 1)
  {
    if U(n, k) <= i then k else PulsesLeft(n, k - 1, i)
  }

  /** The two pieces a head coefficient splits an index into. */
  function IsNegative(n: nat, k: nat, i: nat): bool {
    i >= U(n, k + 1)
  }

  function SignRemoved(n: nat, k: nat, i: nat): nat {
    if IsNegative(n, k, i) then i - U(n, k + 1) else i
  }

  function Signed(magnitude: int, negative: bool): int {
    if negative then -magnitude else magnitude
  }

  /** The index-th vector of n coefficients and k pulses. */
  function Unrank(n: nat, k: nat, i: nat): (y: seq<int>)
    requires 1 <= n
    ensures |y| == n
    decreases n
  {
    if n == 1 then
      [Signed(k, i != 0)]
    else
      var i1 := SignRemoved(n, k, i);
      var m := PulsesLeft(n, k, i1);
      [Signed(k - m, IsNegative(n, k, i))] + Unrank(n - 1, m, i1 - U(n, m))
  }

  /** What is left of the index after one dimension indexes a smaller codebook, and a
      negative coefficient really holds a pulse. */
  lemma HeadStep(n: nat, k: nat, i: nat)
    requires 2 <= n && i < V(n, k)
    ensures var i1 := SignRemoved(n, k, i);
            var m := PulsesLeft(n, k, i1);
            && i1 - U(n, m) < V(n - 1, m)
            && (IsNegative(n, k, i) ==> m < k)
            && RankCons(n, m, Signed(k - m, IsNegative(n, k, i)), i1 - U(n, m)) == i
  {
    var i1 := SignRemoved(n, k, i);
    var m := PulsesLeft(n, k, i1);
    VIsADifference(n, m);
  }

  /** The codebook sizes of n-1 dimensions are the steps of row n of U. */
  lemma VIsADifference(n: nat, k: nat)
    requires 1 <= n
    ensures V(n - 1, k) == U(n, k + 1) - U(n, k)
  {
  }

  /** PulsesLeft is the only m that brackets the index. */
  lemma PulsesLeftUnique(n: nat, k: nat, i: nat, m: nat)
    requires 1 <= n && m <= k && U(n, m) <= i
    requires m < k ==> i < U(n, m + 1)
    ensures PulsesLeft(n, k, i) == m
  {
    var p := PulsesLeft(n, k, i);
    if p < m {
      UMonotoneInK(n, p + 1, m);
    } else if m < p {
      UMonotoneInK(n, m + 1, p);
    }
  }

  /** icwrs after cwrsi: unranking an index gives a vector of k pulses with that rank. */
  lemma {:induction false} RankOfUnrank(n: nat, k: nat, i: nat)
    requires 1 <= n && i < V(n, k)
    ensures AbsSum(Unrank(n, k, i)) == k
    ensures Rank(Unrank(n, k, i)) == i
  {
    var y := Unrank(n, k, i);
    if n == 1 {
      URowOne(k);
      URowOne(k + 1);
      assert y[1..] == [];
    } else {
      var m := PulsesLeft(n, k, SignRemoved(n, k, i));
      var tail := Unrank(n - 1, m, SignRemoved(n, k, i) - U(n, m));
      HeadStep(n, k, i);
      RankOfUnrank(n - 1, m, SignRemoved(n, k, i) - U(n, m));
      assert y[1..] == tail;
    }
  }

  /** The head of y is read back from its rank, whatever the tail's rank is. */
  lemma HeadOfRank(n: nat, t: nat, head: int, tailRank: nat)
    requires 2 <= n && tailRank < V(n - 1, t)
    ensures var k := Abs(head) + t;
            var i := RankCons(n, t, head, tailRank);
            && IsNegative(n, k, i) == (head < 0)
            && SignRemoved(n, k, i) == U(n, t) + tailRank
            && PulsesLeft(n, k, U(n, t) + tailRank) == t
            && i < V(n, k)
  {
    var k := Abs(head) + t;
    VIsADifference(n, t);
    PulsesLeftUnique(n, k, U(n, t) + tailRank, t);
    if head < 0 {
      UMonotoneInK(n, t + 1, k);
    } else {
      UMonotoneInK(n, t + 1, k + 1);
    }
  }

  /** Ranks fill [0, V(n,k)). */
  lemma {:induction false} RankInRange(y: seq<int>)
    requires y != []
    ensures Rank(y) < V(|y|, AbsSum(y))
  {
    if |y| == 1 {
      URowOne(AbsSum(y));
      URowOne(AbsSum(y) + 1);
      assert AbsSum(y[1..]) == 0;
    } else {
      RankInRange(y[1..]);
      HeadOfRank(|y|, AbsSum(y[1..]), y[0], Rank(y[1..]));
    }
  }

  /** Unranking peels off the head that ranking put on. */
  lemma UnrankCons(n: nat, t: nat, head: int, tailRank: nat)
    requires 2 <= n && tailRank < V(n - 1, t)
    ensures Unrank(n, Abs(head) + t, RankCons(n, t, head, tailRank))
         == [head] + Unrank(n - 1, t, tailRank)
  {
    HeadOfRank(n, t, head, tailRank);
  }

  /** cwrsi after icwrs: unranking the rank of y gives y back. */
  lemma {:induction false} UnrankOfRank(y: seq<int>)
    requires y != []
    ensures Unrank(|y|, AbsSum(y), Rank(y)) == y
  {
    if |y| == 1 {
      assert AbsSum(y[1..]) == 0;
    } else {
      var rest := y[1..];
      UnrankOfRank(rest);
      RankInRange(rest);
      UnrankCons(|y|, AbsSum(rest), y[0], Rank(rest));
      assert y == [y[0]] + rest;
    }
  }

  // ---------------------------------------------------------------- the order of the codebook

  /** The coefficients of a dimension in codebook order: from the most pulses down to none, then the
      negative ones, again from the most. */
  predicate Ahead(a: int, b: int) {
    if a < 0 then b < 0 && a < b else b < 0 || a > b
  }

  /** The first dimension in which two vectors differ puts one ahead of the other. */
  predicate Precedes(y: seq<int>, z: seq<int>)
    requires |y| == |z|
  {
    y != [] && if y[0] != z[0] then Ahead(y[0], z[0]) else Precedes(y[1..], z[1..])
  }

  /** With k pulses in all, heads come in order: a head's ranks all lie below those of a later one. */
  lemma HeadsInOrder(n: nat, k: nat, a: int, b: int, aTail: nat, bTail: nat)
    requires 2 <= n && Abs(a) <= k && Abs(b) <= k && Ahead(a, b)
    requires aTail < V(n - 1, k - Abs(a)) && bTail < V(n - 1, k - Abs(b))
    ensures RankCons(n, k - Abs(a), a, aTail) < RankCons(n, k - Abs(b), b, bTail)
  {
    VIsADifference(n, k - Abs(a));
    UMonotoneInK(n, k - Abs(a) + 1, if a < 0 <= b || b < 0 <= a then k + 1 else k - Abs(b));
  }

  /** Of two vectors of as many pulses, the rank is lower for the one that precedes: the index of a
      vector is its place in that order. */
  lemma {:induction false} RankIsOrder(y: seq<int>, z: seq<int>)
    requires |y| == |z| > 0 && AbsSum(y) == AbsSum(z)
    ensures Precedes(y, z) <==> Rank(y) < Rank(z)
  {
    if |y| == 1 {
      assert AbsSum(y[1..]) == 0 && AbsSum(z[1..]) == 0;
    } else {
      RankInRange(y[1..]);
      RankInRange(z[1..]);
      if y[0] == z[0] {
        RankIsOrder(y[1..], z[1..]);
      } else if Ahead(y[0], z[0]) {
        HeadsInOrder(|y|, AbsSum(y), y[0], z[0], Rank(y[1..]), Rank(z[1..]));
      } else {
        HeadsInOrder(|y|, AbsSum(y), z[0], y[0], Rank(z[1..]), Rank(y[1..]));
      }
    }
  }

  // ---------------------------------------------------------------- the table and the methods

  /** celtPVQUData[celtPVQURowOffset[row]+col]; only the triangle row <= col is stored. */
  function TableU(row: nat, col: nat): uint32
    requires row <= col
    requires U(row, col) < 0x1_0000_0000
  {
    U(row, col) as uint32
  }

  /** celtPVQU: the row is the smaller argument and the column the larger. */
  function PvqU(n: nat, k: nat): (u: uint32)
    requires U(n, k) < 0x1_0000_0000
    ensures u as int == U(n, k)
  {
    USymmetric(n, k);
    if k < n then TableU(k, n) else TableU(n, k)
  }

  lemma SliceTail(y: seq<int>, j: nat)
    requires j < |y|
    ensures AbsSum(y[j..]) == Abs(y[j]) + AbsSum(y[j + 1..])
    ensures SumSquares(y[j..]) == Square(y[j]) + SumSquares(y[j + 1..])
    ensures j + 1 < |y| ==>
      Rank(y[j..]) == RankCons(|y| - j, AbsSum(y[j + 1..]), y[j], Rank(y[j + 1..]))
  {
    assert y[j..][1..] == y[j + 1..];
  }

  /** The index of y; y is only read. */
  method Icwrs(n: nat, y: array<int>) returns (i: uint32)
    requires 2 <= n == y.Length
    requires V(n, AbsSum(y[..])) < 0x1_0000_0000
    ensures i as int == Rank(y[..])
  {
    hide U, V;
    ghost var s, total := y[..], AbsSum(y[..]);
    var j := n - 1;
    i := if y[j] < 0 then 1 else 0;
    var k := Abs(y[j]);
    SliceTail(s, n - 1);
    assert s[n..] == [] && s[n - 1..] == [y[n - 1]] && s[0..] == s;
    AbsSumSuffix(s, n - 1);
    while j > 0
      invariant 0 <= j < n && s == y[..]
      invariant k == AbsSum(s[j..]) <= total
      invariant i as int == Rank(s[j..])
    {
      j := j - 1;
      SliceTail(s, j);
      AbsSumSuffix(s, j);
      RankInRange(s[j..]);
      VMonotone(n - j, AbsSum(s[j..]), n, total);
      i := i + PvqU(n - j, k);
      k := k + Abs(y[j]);
      if y[j] < 0 {
        i := i + PvqU(n - j, k + 1);
      }
    }
  }

  lemma {:induction false} AbsSumSuffix(y: seq<int>, j: nat)
    requires j <= |y|
    ensures AbsSum(y[j..]) <= AbsSum(y)
    decreases j
  {
    if j == 0 {
      assert y[0..] == y;
    } else {
      SliceTail(y, j - 1);
      AbsSumSuffix(y, j - 1);
    }
  }

  /** Every table entry a dimension can read is symmetric and representable. */
  lemma TableFacts(n: nat, k: nat)
    requires 1 <= n && V(n, k) < 0x1_0000_0000
    ensures U(n, 0) == 0
    ensures forall m: nat {:trigger U(n, m)} {:trigger U(m, n)} | m <= k + 1 :: U(m, n) == U(n, m) < 0x1_0000_0000
  {
    forall m: nat | m <= k + 1
      ensures U(m, n) == U(n, m) < 0x1_0000_0000
    {
      USymmetric(n, m);
      UMonotoneInK(n, m, k + 1);
    }
  }

  /** The downward searches of the first branch and of the second, in the triangle. */
  method SearchColumn(n: nat, k: nat, i: uint32) returns (k': nat, p: uint32)
    requires 1 <= k <= n && i as int < U(n, k) && V(n, k) < 0x1_0000_0000
    ensures k' < k && p as int == U(n, k') <= i as int < U(n, k' + 1)
  {
    hide U;
    TableFacts(n, k);
    k' := k - 1;
    p := TableU(k', n);
    while p > i
      invariant k' < k && p as int == U(n, k')
      invariant i as int < U(n, k' + 1)
      decreases k'
    {
      k' := k' - 1;
      p := TableU(k', n);
    }
  }

  method SearchRow(n: nat, k: nat, i: uint32) returns (k': nat, p: uint32)
    requires 1 <= n <= k && U(n, n) <= i as int && V(n, k) < 0x1_0000_0000
    ensures k' <= k && p as int == U(n, k') <= i as int
    ensures k' < k ==> i as int < U(n, k' + 1)
  {
    hide U;
    TableFacts(n, k);
    k' := k;
    p := TableU(n, k');
    while p > i
      invariant n <= k' <= k && p as int == U(n, k')
      invariant k' < k ==> i as int < U(n, k' + 1)
      decreases k'
    {
      k' := k' - 1;
      p := TableU(n, k');
    }
  }

  method StepManyPulses(n: nat, k: nat, i: uint32) returns (k': nat, i': uint32, value: int)
    requires 2 < n <= k && i as int < V(n, k) < 0x1_0000_0000
    ensures k' == PulsesLeft(n, k, SignRemoved(n, k, i as int))
    ensures i' as int == SignRemoved(n, k, i as int) - U(n, k')
    ensures value == Signed(k - k', IsNegative(n, k, i as int))
  {
    hide U;
    TableFacts(n, k);
    var p := TableU(n, k + 1);
    var negative := i >= p;
    i' := if negative then i - p else i;
    var q := TableU(n, n);
    if q > i' {
      VMonotone(n, n, n, k);
      k', p := SearchColumn(n, n, i');
    } else {
      k', p := SearchRow(n, k, i');
    }
    PulsesLeftUnique(n, k, i' as int, k');
    i' := i' - p;
    value := Signed(k - k', negative);
  }

  method StepManyDimensions(n: nat, k: nat, i: uint32) returns (k': nat, i': uint32, value: int)
    requires 2 < n && k < n && i as int < V(n, k) < 0x1_0000_0000
    ensures k' == PulsesLeft(n, k, SignRemoved(n, k, i as int))
    ensures i' as int == SignRemoved(n, k, i as int) - U(n, k')
    ensures value == Signed(k - k', IsNegative(n, k, i as int))
  {
    hide U;
    TableFacts(n, k);
    var p := TableU(k, n);
    var q := TableU(k + 1, n);
    if p <= i < q {
      k', i', value := k, i - p, 0;
    } else {
      var negative := i >= q;
      i' := if negative then i - q else i;
      k', p := SearchColumn(n, k, i');
      PulsesLeftUnique(n, k, i' as int, k');
      i' := i' - p;
      value := Signed(k - k', negative);
    }
  }

  /** One turn of the loop over dimensions: reads one coefficient off the index. */
  method Step(n: nat, k: nat, i: uint32) returns (k': nat, i': uint32, value: int)
    requires 2 < n && i as int < V(n, k) < 0x1_0000_0000
    ensures k' <= k && i' as int < V(n - 1, k') < 0x1_0000_0000
    ensures Unrank(n, k, i as int) == [value] + Unrank(n - 1, k', i' as int)
  {
    if k >= n {
      // Lots of pulses.
      k', i', value := StepManyPulses(n, k, i);
    } else {
      // Lots of dimensions.
      k', i', value := StepManyDimensions(n, k, i);
    }
    HeadStep(n, k, i as int);
    VMonotone(n - 1, k', n, k);
  }

  /** The last two coefficients need no table: U(2,k) = 2k-1. */
  method LastTwo(k: nat, i: uint32) returns (first: int, second: int)
    requires i as int < V(2, k) < 0x1_0000_0000
    ensures Unrank(2, k, i as int) == [first, second]
  {
    RowTwoFacts(k, i as int);
    var p := (2 * k + 1) as uint32;
    var negative := i >= p;
    var ii := if negative then i - p else i;
    var k' := (ii as int + 1) / 2;
    if k' != 0 {
      ii := ii - (2 * k' - 1) as uint32;
    }
    first := Signed(k - k', negative);
    second := Signed(k', ii != 0);
  }

  lemma RowTwoFacts(k: nat, i: nat)
    requires i < V(2, k)
    ensures V(2, k) == if k == 0 then 1 else 4 * k
    ensures var negative := i >= 2 * k + 1;
            var i1 := if negative then i - (2 * k + 1) else i;
            var m := (i1 + 1) / 2;
            var i2 := if m != 0 then i1 - (2 * m - 1) else i1;
            0 <= i2 <= 1 && m <= k && Unrank(2, k, i) == [Signed(k - m, negative), Signed(m, i2 != 0)]
  {
    URowTwo(k);
    URowTwo(k + 1);
    var i1 := SignRemoved(2, k, i);
    var m := (i1 + 1) / 2;
    URowTwo(m);
    URowTwo(m + 1);
    PulsesLeftUnique(2, k, i1, m);
    UnrankHead(2, k, i, m);
  }

  lemma UnrankHead(n: nat, k: nat, i: nat, m: nat)
    requires 2 <= n && i < V(n, k) && m == PulsesLeft(n, k, SignRemoved(n, k, i))
    ensures Unrank(n, k, i)
         == [Signed(k - m, IsNegative(n, k, i))] + Unrank(n - 1, m, SignRemoved(n, k, i) - U(n, m))
  {
  }

  /** Reads codeword index i of n coefficients and k pulses into y and returns the energy. */
  method Cwrsi(n: nat, k: nat, i: uint32, y: array<int>) returns (yy: nat)
    requires 2 <= n && 1 <= k && i as int < V(n, k) < 0x1_0000_0000
    requires n <= y.Length
    modifies y
    ensures y[..n] == Unrank(n, k, i as int)
    ensures y[n..] == old(y[n..])
    ensures yy == SumSquares(y[..n])
  {
    hide U, Unrank, Square;
    ghost var target := Unrank(n, k, i as int);
    var nn: nat, kk: nat, ii, j: nat := n, k, i, 0;
    yy := 0;
    while nn > 2
      invariant 2 <= nn <= n && j == n - nn
      invariant ii as int < V(nn, kk) < 0x1_0000_0000
      invariant Unrank(nn, kk, ii as int) == target[j..]
      invariant forall m | 0 <= m < j :: y[m] == target[m]
      invariant forall m | n <= m < y.Length :: y[m] == old(y[m])
      invariant yy + SumSquares(target[j..]) == SumSquares(target)
    {
      var value: int;
      kk, ii, value := Step(nn, kk, ii);
      UnconsTarget(target, j, value, Unrank(nn - 1, kk, ii as int));
      y[j] := value;
      yy := yy + Square(value);
      j := j + 1;
      nn := nn - 1;
    }
    var first, second := LastTwo(kk, ii);
    UnconsTarget(target, j, first, [second]);
    UnconsTarget(target, j + 1, second, []);
    y[j], y[j + 1] := first, second;
    yy := yy + Square(first) + Square(second);
    assert y[..n] == target;
  }

  lemma UnconsTarget(target: seq<int>, j: nat, head: int, rest: seq<int>)
    requires j < |target| && target[j..] == [head] + rest
    ensures target[j] == head && target[j + 1..] == rest
    ensures SumSquares(target[j..]) == Square(head) + SumSquares(rest)
  {
    assert target[j..][1..] == target[j + 1..];
    SumSquaresCons(head, rest);
  }
}
