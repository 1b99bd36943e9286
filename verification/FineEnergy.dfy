/** Refinement of the coarse band energies (quantFineEnergy, quantEnergyFinalise and their
    decoders, internal/celt/quant_bands.go; RFC 6716 section 4.3.2.2).

    Energies are Q24; `error` is what the coarse energy missed.  The fine pass codes
    up to eight raw bits per band and channel, the final pass one more from the bits left
    over.  Both passes move the same offset from `error` to `energy`. */
module FineEnergy {
  import opened RangeCoder

  const HALF: int := 0x80_0000    // ghalf: one half in Q24
  const ONE: int := 0x100_0000
  const MAX_FINE_BITS: int := 8

  /** Energies of band i of channel c are at i + c * nbEBands. */
  datatype Layout = Layout(bands: nat, start: nat, end: nat, channels: nat) {
    predicate Valid() { start <= end <= bands && 1 <= channels <= 2 }

    function Cell(i: nat, c: nat): nat
      requires c < 2
    {
      i + if c == 0 then 0 else bands
    }

    function Size(): nat { if channels == 2 then 2 * bands else bands }
  }

  /** `depth` is the number of refinement bits a cell has had; the code keeps no such
      count, the bounds need it. */
  datatype Energies = Energies(energy: seq<int>, error: seq<int>, depth: seq<nat>)

  predicate Shaped(l: Layout, s: Energies) {
    l.Valid() && |s.energy| == |s.error| == |s.depth| == l.Size()
  }

  /** 2^(23-x): half a step after x bits. */
  function Unit(x: nat): int
    requires x <= 23
  {
    Power2(23 - x)
  }

  function Clamp(v: int, hi: nat): (r: nat)
    ensures r <= hi
  {
    if v > hi then hi else if v < 0 then 0 else v
  }

  /** The level of an error among 2^x, and the offset a level stands for. */
  function LevelOf(error: int, x: nat): (q: nat)
    requires x <= MAX_FINE_BITS
    ensures q < Power2(x)
  {
    Clamp((error + HALF) / Power2(24 - x), Power2(x) - 1)
  }

  function OffsetOf(q: int, x: nat): int
    requires x <= MAX_FINE_BITS
  {
    (2 * q + 1) * Unit(x) - HALF
  }

  function LastOffset(q: int, x: nat): int {
    (q * ONE - HALF) / Power2(x + 1)
  }

  /** Moves an offset from the error to the energy; a decoder has no error. */
  function Move(s: Energies, cell: nat, offset: int, depth: nat, encoding: bool): Energies
    requires cell < |s.energy| == |s.error| == |s.depth|
  {
    Energies(s.energy[cell := s.energy[cell] + offset],
             if encoding then s.error[cell := s.error[cell] - offset] else s.error,
             s.depth[cell := depth])
  }

  // ---------------------------------------------------------------- the fine pass

  function FineChannels(l: Layout, i: nat, x: nat, c: nat, s: Energies, k: Coder): (r: (Energies, Coder))
    requires Shaped(l, s) && l.start <= i < l.end && x <= MAX_FINE_BITS && c <= l.channels
    ensures Shaped(l, r.0) && (k.Encoding? <==> r.1.Encoding?)
    decreases l.channels - c
  {
    if c == l.channels then (s, k)
    else
      var cell := l.Cell(i, c);
      var (k', q) := CodeRaw(k, if k.Encoding? then LevelOf(s.error[cell], x) else 0, x);
      FineChannels(l, i, x, c + 1, Move(s, cell, OffsetOf(q, x), x, k.Encoding?), k')
  }

  /** A band with no fine bits, or whose bits no longer fit, is passed over. */
  predicate CodesFine(l: Layout, extra: int, tell: int, budget: int) {
    extra > 0 && tell + l.channels * extra <= budget
  }

  function FinePass(l: Layout, extra: seq<int>, budget: int, tell: seq<Symbol> -> int, i: nat, s: Energies, k: Coder): (r: (Energies, Coder))
    requires Shaped(l, s) && l.start <= i <= l.end <= |extra|
    requires forall j | 0 <= j < |extra| :: extra[j] <= MAX_FINE_BITS
    ensures Shaped(l, r.0) && (k.Encoding? <==> r.1.Encoding?)
    decreases l.end - i
  {
    if i == l.end then (s, k)
    else if CodesFine(l, extra[i], tell(k.Coded()), budget) then
      var (s', k') := FineChannels(l, i, extra[i], 0, s, k);
      FinePass(l, extra, budget, tell, i + 1, s', k')
    else FinePass(l, extra, budget, tell, i + 1, s, k)
  }

  method FineEnergyPass(l: Layout, extra: seq<int>, budget: int, tell: seq<Symbol> -> int, k0: Coder,
                        ghost s0: Energies, energy: array<int>, error: array<int>)
    returns (k: Coder, ghost s: Energies)
    requires Shaped(l, s0) && l.end <= |extra| && energy != error
    requires forall j | 0 <= j < |extra| :: extra[j] <= MAX_FINE_BITS
    requires energy[..] == s0.energy && error[..] == s0.error
    modifies energy, error
    ensures (s, k) == FinePass(l, extra, budget, tell, l.start, s0, k0)
    ensures energy[..] == s.energy && error[..] == s.error
  {
    hide LevelOf, OffsetOf, CodeRaw;
    k, s := k0, s0;
    var i := l.start;
    while i < l.end
      invariant l.start <= i <= l.end && Shaped(l, s)
      invariant FinePass(l, extra, budget, tell, i, s, k) == FinePass(l, extra, budget, tell, l.start, s0, k0)
      invariant energy[..] == s.energy && error[..] == s.error
    {
      if CodesFine(l, extra[i], tell(k.Coded()), budget) {
        k, s := FineBand(l, i, extra[i], s, k, energy, error);
      }
      i := i + 1;
    }
  }

  method FineBand(l: Layout, i: nat, x: nat, ghost s0: Energies, k0: Coder, energy: array<int>, error: array<int>)
    returns (k: Coder, ghost s: Energies)
    requires Shaped(l, s0) && l.start <= i < l.end && x <= MAX_FINE_BITS && energy != error
    requires energy[..] == s0.energy && error[..] == s0.error
    modifies energy, error
    ensures (s, k) == FineChannels(l, i, x, 0, s0, k0) && Shaped(l, s)
    ensures energy[..] == s.energy && error[..] == s.error
  {
    hide LevelOf, OffsetOf, CodeRaw;
    k, s := k0, s0;
    var c := 0;
    while c < l.channels
      invariant c <= l.channels && Shaped(l, s)
      invariant FineChannels(l, i, x, c, s, k) == FineChannels(l, i, x, 0, s0, k0)
      invariant energy[..] == s.energy && error[..] == s.error
    {
      var cell := l.Cell(i, c);
      var encoding := k.Encoding?;
      var r := CodeRaw(k, if encoding then LevelOf(error[cell], x) else 0, x);
      var offset := OffsetOf(r.1, x);
      energy[cell] := energy[cell] + offset;
      if encoding { error[cell] := error[cell] - offset; }
      s := Move(s, cell, offset, x, encoding);
      k, c := r.0, c + 1;
    }
  }

  // ---------------------------------------------------------------- the final pass

  function FinalChannels(l: Layout, i: nat, x: nat, c: nat, s: Energies, k: Coder): (r: (Energies, Coder))
    requires Shaped(l, s) && l.start <= i < l.end && c <= l.channels
    ensures Shaped(l, r.0) && (k.Encoding? <==> r.1.Encoding?)
    decreases l.channels - c
  {
    if c == l.channels then (s, k)
    else
      var cell := l.Cell(i, c);
      assert Power2(1) == 2;
      var (k', q) := CodeRaw(k, if k.Encoding? && s.error[cell] >= 0 then 1 else 0, 1);
      var depth := if s.depth[cell] == x then x + 1 else s.depth[cell];
      FinalChannels(l, i, x, c + 1, Move(s, cell, LastOffset(q, x), depth, k.Encoding?), k')
  }

  predicate CodesFinal(fine: int, priority: int, prio: int) {
    !(fine >= MAX_FINE_BITS || priority != prio)
  }

  /** One priority class, from band i, while a bit per channel is left. */
  function FinalPass(l: Layout, fine: seq<nat>, priority: seq<int>, prio: int, i: nat, left: int, s: Energies, k: Coder): (r: (Energies, Coder, int))
    requires Shaped(l, s) && l.start <= i <= l.end <= |fine| == |priority|
    ensures Shaped(l, r.0) && (k.Encoding? <==> r.1.Encoding?)
    decreases l.end - i
  {
    if i == l.end || left < l.channels then (s, k, left)
    else if CodesFinal(fine[i], priority[i], prio) then
      var (s', k') := FinalChannels(l, i, fine[i], 0, s, k);
      FinalPass(l, fine, priority, prio, i + 1, left - l.channels, s', k')
    else FinalPass(l, fine, priority, prio, i + 1, left, s, k)
  }

  /** Both classes, lower priority value first. */
  function Finalise(l: Layout, fine: seq<nat>, priority: seq<int>, left: int, s: Energies, k: Coder): (r: (Energies, Coder))
    requires Shaped(l, s) && l.end <= |fine| == |priority|
    ensures Shaped(l, r.0) && (k.Encoding? <==> r.1.Encoding?)
  {
    var (s1, k1, left1) := FinalPass(l, fine, priority, 0, l.start, left, s, k);
    var (s2, k2, _) := FinalPass(l, fine, priority, 1, l.start, left1, s1, k1);
    (s2, k2)
  }

  method FinaliseEnergy(l: Layout, fine: seq<nat>, priority: seq<int>, bitsLeft: int, k0: Coder,
                        ghost s0: Energies, energy: array<int>, error: array<int>)
    returns (k: Coder, ghost s: Energies)
    requires Shaped(l, s0) && l.end <= |fine| == |priority| && energy != error
    requires energy[..] == s0.energy && error[..] == s0.error
    modifies energy, error
    ensures (s, k) == Finalise(l, fine, priority, bitsLeft, s0, k0)
    ensures energy[..] == s.energy && error[..] == s.error
  {
    hide FinalPass;
    var left;
    k, s, left := FinalClass(l, fine, priority, 0, bitsLeft, k0, s0, energy, error);
    k, s, left := FinalClass(l, fine, priority, 1, left, k, s, energy, error);
  }

  method FinalClass(l: Layout, fine: seq<nat>, priority: seq<int>, prio: int, left0: int, k0: Coder,
                    ghost s0: Energies, energy: array<int>, error: array<int>)
    returns (k: Coder, ghost s: Energies, left: int)
    requires Shaped(l, s0) && l.end <= |fine| == |priority| && energy != error
    requires energy[..] == s0.energy && error[..] == s0.error
    modifies energy, error
    ensures (s, k, left) == FinalPass(l, fine, priority, prio, l.start, left0, s0, k0) && Shaped(l, s)
    ensures energy[..] == s.energy && error[..] == s.error
  {
    k, s, left := k0, s0, left0;
    var i := l.start;
    while i < l.end && left >= l.channels
      invariant l.start <= i <= l.end && Shaped(l, s)
      invariant FinalPass(l, fine, priority, prio, i, left, s, k) == FinalPass(l, fine, priority, prio, l.start, left0, s0, k0)
      invariant energy[..] == s.energy && error[..] == s.error
    {
      if CodesFinal(fine[i], priority[i], prio) {
        k, s := FinalBand(l, i, fine[i], s, k, energy, error);
        left := left - l.channels;
      }
      i := i + 1;
    }
  }

  method FinalBand(l: Layout, i: nat, x: nat, ghost s0: Energies, k0: Coder, energy: array<int>, error: array<int>)
    returns (k: Coder, ghost s: Energies)
    requires Shaped(l, s0) && l.start <= i < l.end && energy != error
    requires energy[..] == s0.energy && error[..] == s0.error
    modifies energy, error
    ensures (s, k) == FinalChannels(l, i, x, 0, s0, k0) && Shaped(l, s)
    ensures energy[..] == s.energy && error[..] == s.error
  {
    assert Power2(1) == 2;
    hide LastOffset, CodeRaw, Power2;
    k, s := k0, s0;
    var c := 0;
    while c < l.channels
      invariant c <= l.channels && Shaped(l, s)
      invariant FinalChannels(l, i, x, c, s, k) == FinalChannels(l, i, x, 0, s0, k0)
      invariant energy[..] == s.energy && error[..] == s.error
    {
      var cell := l.Cell(i, c);
      var encoding := k.Encoding?;
      var r := CodeRaw(k, if encoding && error[cell] >= 0 then 1 else 0, 1);
      var offset := LastOffset(r.1, x);
      energy[cell] := energy[cell] + offset;
      if encoding { error[cell] := error[cell] - offset; }
      s := Move(s, cell, offset, if s.depth[cell] == x then x + 1 else s.depth[cell], encoding);
      k, c := r.0, c + 1;
    }
  }

  // ---------------------------------------------------------------- what one level does

  /** The levels of x bits split [-1/2, 1/2) into 2^x steps and the offset is the middle of
      the step, so what is left is at most half a step either way. */
  lemma FineStepNarrows(error: int, x: nat)
    requires -HALF <= error < HALF && x <= MAX_FINE_BITS
    ensures -Unit(x) <= error - OffsetOf(LevelOf(error, x), x) < Unit(x)
  {
    var u, n := Unit(x), Power2(x);
    PowersMultiply(x, 23 - x);
    HalfIsAPower();
    assert Power2(24 - x) == 2 * u;
    hide Power2;
    SplitRange(error + HALF, u, n);
  }

  lemma HalfIsAPower()
    ensures Power2(23) == HALF
  {
    PowersMultiply(12, 11);
    assert Power2(12) == 4096 && Power2(11) == 2048;
  }

  /** v cut into n pieces of 2u: the piece's number and the distance to its middle. */
  lemma SplitRange(v: int, u: int, n: int)
    requires 0 < u && 0 <= v < 2 * (n * u)
    ensures 0 <= v / (2 * u) < n
    ensures -u <= v - (2 * (v / (2 * u)) + 1) * u < u
  {
    var q := v / (2 * u);
    Division(v, 2 * u);
    assert (2 * q + 1) * u == q * (2 * u) + u;
    assert 2 * (n * u) == n * (2 * u);
    CancelStrict(q, n, 2 * u);
  }

  lemma Division(v: int, d: int)
    requires 0 < d && 0 <= v
    ensures 0 <= v / d && v / d * d <= v < v / d * d + d
  {
  }

  lemma CancelStrict(a: int, b: int, d: int)
    requires 0 < d && a * d < b * d
    ensures a < b
  {
    if b <= a { Spread(a - b, b, d); }
  }

  lemma Spread(a: int, b: int, d: int)
    ensures (a + b) * d == a * d + b * d
    ensures a >= 0 && d >= 0 ==> a * d >= 0
  {
  }

  lemma {:induction false} PowersMultiply(a: nat, b: nat)
    ensures Power2(a + b) == Power2(a) * Power2(b)
  {
    if a > 0 {
      PowersMultiply(a - 1, b);
      DoubleProduct(Power2(a - 1), Power2(b));
    }
  }

  lemma DoubleProduct(a: int, b: int)
    ensures 2 * a * b == 2 * (a * b)
  {
  }

  /** The final offset is half of the step that x bits left, towards the error. */
  lemma LastOffsetIsHalfStep(x: nat)
    requires x < MAX_FINE_BITS
    ensures LastOffset(1, x) == Unit(x + 1) && LastOffset(0, x) == -Unit(x + 1)
    ensures Unit(x) == 2 * Unit(x + 1)
  {
    PowersMultiply(22 - x, x + 1);
    HalfIsAPower();
    var a: int, b: int := Power2(22 - x), Power2(x + 1);
    assert Unit(x) == 2 * Unit(x + 1);
    hide Power2;
    QuotientOfProduct(a, b);
    QuotientOfProduct(-a, b);
    assert (-a) * b == -(a * b);
  }

  lemma QuotientOfProduct(a: int, b: int)
    requires 0 < b
    ensures a * b / b == a
  {
    var q, r := a * b / b, a * b % b;
    assert q * b + r == a * b;
    Spread(a - q, q, b);
    assert (a - q) * b == r;
    if a - q >= 1 {
      Spread(a - q - 1, 1, b);
    } else if a - q <= -1 {
      Spread(q - a - 1, a - q + 1, b);
      Spread(a - q, 1, b);
    }
  }

  /** A cell's error fits half a step at its depth. */
  predicate Fits(error: int, depth: nat) {
    depth <= MAX_FINE_BITS && -Unit(depth) <= error < Unit(depth)
  }

  lemma FinalStepNarrows(error: int, depth: nat, x: nat)
    requires Fits(error, depth) && depth <= x < MAX_FINE_BITS
    ensures var e := error - LastOffset(if error >= 0 then 1 else 0, x);
            Fits(e, depth) && (depth == x ==> Fits(e, x + 1))
  {
    LastOffsetIsHalfStep(x);
    UnitShrinks(depth, x);
    UnitShrinks(depth, x + 1);
  }

  lemma {:induction false} UnitShrinks(a: nat, b: nat)
    requires a <= b <= 23
    ensures Unit(b) <= Unit(a)
    decreases b - a
  {
    if a < b { UnitShrinks(a + 1, b); }
  }

  // ---------------------------------------------------------------- conservation

  /** The refined value each cell is heading for. */
  ghost predicate SameTargets(s: Energies, t: Energies) {
    && |s.energy| == |s.error| == |t.energy| == |t.error|
    && forall j | 0 <= j < |s.energy| :: s.energy[j] + s.error[j] == t.energy[j] + t.error[j]
  }

  lemma {:induction false} FineChannelsConserve(l: Layout, i: nat, x: nat, c: nat, s: Energies, k: Coder)
    requires Shaped(l, s) && l.start <= i < l.end && x <= MAX_FINE_BITS && c <= l.channels && k.Encoding?
    ensures SameTargets(s, FineChannels(l, i, x, c, s, k).0)
    decreases l.channels - c
  {
    hide OffsetOf, LevelOf;
    if c < l.channels {
      var cell := l.Cell(i, c);
      var (k', q) := CodeRaw(k, LevelOf(s.error[cell], x), x);
      FineChannelsConserve(l, i, x, c + 1, Move(s, cell, OffsetOf(q, x), x, true), k');
    }
  }

  lemma {:induction false} FinePassConserves(l: Layout, extra: seq<int>, budget: int, tell: seq<Symbol> -> int, i: nat, s: Energies, k: Coder)
    requires Shaped(l, s) && l.start <= i <= l.end <= |extra| && k.Encoding?
    requires forall j | 0 <= j < |extra| :: extra[j] <= MAX_FINE_BITS
    ensures SameTargets(s, FinePass(l, extra, budget, tell, i, s, k).0)
    decreases l.end - i
  {
    hide FineChannels;
    if i < l.end {
      if CodesFine(l, extra[i], tell(k.Coded()), budget) {
        var (s', k') := FineChannels(l, i, extra[i], 0, s, k);
        FineChannelsConserve(l, i, extra[i], 0, s, k);
        FinePassConserves(l, extra, budget, tell, i + 1, s', k');
      } else {
        FinePassConserves(l, extra, budget, tell, i + 1, s, k);
      }
    }
  }

  lemma {:induction false} FinalChannelsConserve(l: Layout, i: nat, x: nat, c: nat, s: Energies, k: Coder)
    requires Shaped(l, s) && l.start <= i < l.end && c <= l.channels && k.Encoding?
    ensures SameTargets(s, FinalChannels(l, i, x, c, s, k).0)
    decreases l.channels - c
  {
    assert Power2(1) == 2;
    hide LastOffset;
    if c < l.channels {
      var cell := l.Cell(i, c);
      var (k', q) := CodeRaw(k, if s.error[cell] >= 0 then 1 else 0, 1);
      var depth := if s.depth[cell] == x then x + 1 else s.depth[cell];
      FinalChannelsConserve(l, i, x, c + 1, Move(s, cell, LastOffset(q, x), depth, true), k');
    }
  }

  lemma {:induction false} FinalPassConserves(l: Layout, fine: seq<nat>, priority: seq<int>, prio: int, i: nat, left: int, s: Energies, k: Coder)
    requires Shaped(l, s) && l.start <= i <= l.end <= |fine| == |priority| && k.Encoding?
    ensures SameTargets(s, FinalPass(l, fine, priority, prio, i, left, s, k).0)
    decreases l.end - i
  {
    hide FinalChannels;
    if i < l.end && left >= l.channels {
      if CodesFinal(fine[i], priority[i], prio) {
        var (s', k') := FinalChannels(l, i, fine[i], 0, s, k);
        FinalChannelsConserve(l, i, fine[i], 0, s, k);
        FinalPassConserves(l, fine, priority, prio, i + 1, left - l.channels, s', k');
      } else {
        FinalPassConserves(l, fine, priority, prio, i + 1, left, s, k);
      }
    }
  }

  /** Neither pass changes energy + error of any cell. */
  lemma RefinementConserves(l: Layout, extra: seq<int>, budget: int, tell: seq<Symbol> -> int,
                            fine: seq<nat>, priority: seq<int>, left: int, s: Energies, k: Coder)
    requires Shaped(l, s) && l.end <= |extra| && l.end <= |fine| == |priority| && k.Encoding?
    requires forall j | 0 <= j < |extra| :: extra[j] <= MAX_FINE_BITS
    ensures SameTargets(s, FinePass(l, extra, budget, tell, l.start, s, k).0)
    ensures SameTargets(s, Finalise(l, fine, priority, left, s, k).0)
  {
    hide FinePass, FinalPass;
    FinePassConserves(l, extra, budget, tell, l.start, s, k);
    var (s1, k1, left1) := FinalPass(l, fine, priority, 0, l.start, left, s, k);
    FinalPassConserves(l, fine, priority, 0, l.start, left, s, k);
    FinalPassConserves(l, fine, priority, 1, l.start, left1, s1, k1);
  }

  // ---------------------------------------------------------------- precision

  ghost predicate AllFit(s: Energies) {
    |s.error| == |s.depth| && forall j | 0 <= j < |s.error| :: Fits(s.error[j], s.depth[j])
  }

  /** Bands from i on have had no bit yet. */
  ghost predicate Untouched(l: Layout, i: nat, s: Energies)
    requires Shaped(l, s)
  {
    forall j, c | i <= j < l.end && 0 <= c < l.channels :: s.depth[l.Cell(j, c)] == 0
  }

  lemma {:induction false} FineChannelsNarrow(l: Layout, i: nat, x: nat, c: nat, s: Energies, k: Coder)
    requires Shaped(l, s) && l.start <= i < l.end && x <= MAX_FINE_BITS && c <= l.channels && k.Encoding?
    requires AllFit(s) && forall d | c <= d < l.channels :: s.depth[l.Cell(i, d)] == 0
    ensures var t := FineChannels(l, i, x, c, s, k).0;
            && AllFit(t)
            && (forall d | c <= d < l.channels :: t.depth[l.Cell(i, d)] == x)
            && (forall j | 0 <= j < |s.depth| && (forall d | c <= d < l.channels :: j != l.Cell(i, d)) :: t.depth[j] == s.depth[j])
    decreases l.channels - c
  {
    hide OffsetOf, LevelOf, Unit, Power2;
    if c < l.channels {
      var cell := l.Cell(i, c);
      assert Fits(s.error[cell], 0);
      UnitZero();
      FineStepNarrows(s.error[cell], x);
      var (k', q) := CodeRaw(k, LevelOf(s.error[cell], x), x);
      FineChannelsNarrow(l, i, x, c + 1, Move(s, cell, OffsetOf(q, x), x, true), k');
    }
  }

  lemma UnitZero()
    ensures Unit(0) == HALF
  {
    HalfIsAPower();
  }

  /** The coder as the fine pass, begun at band i, reaches band j. */
  function FineReaches(l: Layout, extra: seq<int>, budget: int, tell: seq<Symbol> -> int, i: nat, s: Energies, k: Coder, j: nat): (k': Coder)
    requires Shaped(l, s) && l.start <= i <= j <= l.end <= |extra|
    requires forall h | 0 <= h < |extra| :: extra[h] <= MAX_FINE_BITS
    decreases j - i
  {
    if i == j then k
    else if CodesFine(l, extra[i], tell(k.Coded()), budget) then
      var (s', k') := FineChannels(l, i, extra[i], 0, s, k);
      FineReaches(l, extra, budget, tell, i + 1, s', k', j)
    else FineReaches(l, extra, budget, tell, i + 1, s, k, j)
  }

  /** After the fine pass every error fits the bits its band was given: a band is given all its
      bits on every channel exactly if, when the pass comes to it, they all fit the packet, and
      none otherwise. */
  lemma {:induction false} FinePassNarrows(l: Layout, extra: seq<int>, budget: int, tell: seq<Symbol> -> int, i: nat, s: Energies, k: Coder)
    requires Shaped(l, s) && l.start <= i <= l.end <= |extra| && k.Encoding?
    requires forall j | 0 <= j < |extra| :: extra[j] <= MAX_FINE_BITS
    requires AllFit(s) && Untouched(l, i, s)
    ensures var t := FinePass(l, extra, budget, tell, i, s, k).0;
            && AllFit(t)
            && (forall j, c | i <= j < l.end && 0 <= c < l.channels ::
                  var fits := CodesFine(l, extra[j], tell(FineReaches(l, extra, budget, tell, i, s, k, j).Coded()), budget);
                  t.depth[l.Cell(j, c)] == if fits then extra[j] else 0)
            && (forall j, c | 0 <= j < i && 0 <= c < l.channels :: t.depth[l.Cell(j, c)] == s.depth[l.Cell(j, c)])
    decreases l.end - i
  {
    hide FineChannels, AllFit;
    if i < l.end {
      if CodesFine(l, extra[i], tell(k.Coded()), budget) {
        var (s', k') := FineChannels(l, i, extra[i], 0, s, k);
        FineChannelsNarrow(l, i, extra[i], 0, s, k);
        forall j, c | 0 <= j < l.bands && 0 <= c < l.channels && j != i
          ensures s'.depth[l.Cell(j, c)] == s.depth[l.Cell(j, c)]
        {
          assert forall d | 0 <= d < l.channels :: l.Cell(j, c) != l.Cell(i, d);
        }
        FinePassNarrows(l, extra, budget, tell, i + 1, s', k');
      } else {
        FinePassNarrows(l, extra, budget, tell, i + 1, s, k);
      }
    }
  }

  /** A final bit keeps every bound, and halves it for cells that had all their fine bits. */
  lemma {:induction false} FinalChannelsNarrow(l: Layout, i: nat, x: nat, c: nat, s: Energies, k: Coder)
    requires Shaped(l, s) && l.start <= i < l.end && x < MAX_FINE_BITS && c <= l.channels && k.Encoding?
    requires AllFit(s) && forall d | c <= d < l.channels :: s.depth[l.Cell(i, d)] <= x
    ensures var t := FinalChannels(l, i, x, c, s, k).0;
            && AllFit(t)
            && (forall d | c <= d < l.channels && s.depth[l.Cell(i, d)] == x :: t.depth[l.Cell(i, d)] == x + 1)
            && (forall j | 0 <= j < |s.depth| && (forall d | c <= d < l.channels :: j != l.Cell(i, d)) :: t.depth[j] == s.depth[j])
    decreases l.channels - c
  {
    assert Power2(1) == 2;
    hide LastOffset, Unit, Power2;
    if c < l.channels {
      var cell := l.Cell(i, c);
      assert Fits(s.error[cell], s.depth[cell]);
      FinalStepNarrows(s.error[cell], s.depth[cell], x);
      var (k', q) := CodeRaw(k, if s.error[cell] >= 0 then 1 else 0, 1);
      var depth := if s.depth[cell] == x then x + 1 else s.depth[cell];
      FinalChannelsNarrow(l, i, x, c + 1, Move(s, cell, LastOffset(q, x), depth, true), k');
    }
  }

  /** Bands of this class from i on have had no more than their fine bits. */
  ghost predicate Pending(l: Layout, fine: seq<nat>, priority: seq<int>, prio: int, i: nat, s: Energies)
    requires Shaped(l, s) && l.end <= |fine| == |priority|
  {
    forall j, c | i <= j < l.end && 0 <= c < l.channels && CodesFinal(fine[j], priority[j], prio) ::
      s.depth[l.Cell(j, c)] <= fine[j]
  }

  /** Bits the bands of a class take from band i up to band j: one for each channel. */
  function BitsBefore(l: Layout, fine: seq<nat>, priority: seq<int>, prio: int, i: nat, j: nat): (n: nat)
    requires i <= j <= |fine| == |priority|
    decreases j - i
  {
    if i == j then 0 else (if CodesFinal(fine[i], priority[i], prio) then l.channels else 0) + BitsBefore(l, fine, priority, prio, i + 1, j)
  }

  /** A band of the class gets its final bits exactly if they are left when those before it have
      had theirs. */
  predicate Served(l: Layout, fine: seq<nat>, priority: seq<int>, prio: int, i: nat, left: int, j: nat)
    requires i <= j < |fine| == |priority|
  {
    CodesFinal(fine[j], priority[j], prio) && left >= BitsBefore(l, fine, priority, prio, i, j) + l.channels
  }

  /** A cell that had all its fine bits has one more if its band was served; others keep theirs. */
  ghost predicate Deepened(l: Layout, fine: seq<nat>, priority: seq<int>, prio: int, i: nat, left: int, s: Energies, t: Energies)
    requires Shaped(l, s) && Shaped(l, t) && l.end <= |fine| == |priority|
  {
    forall j, c | i <= j < l.end && 0 <= c < l.channels ::
      t.depth[l.Cell(j, c)] == s.depth[l.Cell(j, c)] + if s.depth[l.Cell(j, c)] == fine[j] && Served(l, fine, priority, prio, i, left, j) then 1 else 0
  }

  ghost predicate LeavesOthers(l: Layout, fine: seq<nat>, priority: seq<int>, prio: int, i: nat, s: Energies, t: Energies)
    requires Shaped(l, s) && Shaped(l, t) && l.end <= |fine| == |priority|
  {
    forall j, c | 0 <= j < l.end && 0 <= c < l.channels && (j < i || !CodesFinal(fine[j], priority[j], prio)) ::
      t.depth[l.Cell(j, c)] == s.depth[l.Cell(j, c)]
  }

  lemma FinalBandNarrows(l: Layout, fine: seq<nat>, priority: seq<int>, prio: int, i: nat, s: Energies, k: Coder)
    requires Shaped(l, s) && l.start <= i < l.end <= |fine| == |priority| && k.Encoding?
    requires AllFit(s) && Pending(l, fine, priority, prio, i, s) && CodesFinal(fine[i], priority[i], prio)
    ensures var t := FinalChannels(l, i, fine[i], 0, s, k).0;
            && AllFit(t) && Pending(l, fine, priority, prio, i + 1, t)
            && (forall c | 0 <= c < l.channels :: t.depth[l.Cell(i, c)] == s.depth[l.Cell(i, c)] + if s.depth[l.Cell(i, c)] == fine[i] then 1 else 0)
            && LeavesOthers(l, fine, priority, prio, i, s, t)
            && (forall j, c | i < j < l.end && 0 <= c < l.channels :: t.depth[l.Cell(j, c)] == s.depth[l.Cell(j, c)])
  {
    hide FinalChannels, AllFit;
    var t := FinalChannels(l, i, fine[i], 0, s, k).0;
    FinalChannelsNarrow(l, i, fine[i], 0, s, k);
    FinalDepths(l, i, fine[i], 0, s, k);
    forall j, c | 0 <= j < l.bands && 0 <= c < l.channels && j != i
      ensures t.depth[l.Cell(j, c)] == s.depth[l.Cell(j, c)]
    {
      assert forall d | 0 <= d < l.channels :: l.Cell(j, c) != l.Cell(i, d);
    }
  }

  /** Cells of the band not at their fine depth keep their depth. */
  lemma {:induction false} FinalDepths(l: Layout, i: nat, x: nat, c: nat, s: Energies, k: Coder)
    requires Shaped(l, s) && l.start <= i < l.end && c <= l.channels && k.Encoding?
    ensures var t := FinalChannels(l, i, x, c, s, k).0;
            forall d | 0 <= d < l.channels && (d < c || s.depth[l.Cell(i, d)] != x) ::
              t.depth[l.Cell(i, d)] == s.depth[l.Cell(i, d)]
    decreases l.channels - c
  {
    assert Power2(1) == 2;
    hide LastOffset;
    if c < l.channels {
      var cell := l.Cell(i, c);
      var (k', q) := CodeRaw(k, if s.error[cell] >= 0 then 1 else 0, 1);
      var depth := if s.depth[cell] == x then x + 1 else s.depth[cell];
      FinalDepths(l, i, x, c + 1, Move(s, cell, LastOffset(q, x), depth, true), k');
    }
  }

  lemma {:induction false} FinalPassNarrows(l: Layout, fine: seq<nat>, priority: seq<int>, prio: int, i: nat, left: int, s: Energies, k: Coder)
    requires Shaped(l, s) && l.start <= i <= l.end <= |fine| == |priority| && k.Encoding?
    requires AllFit(s) && Pending(l, fine, priority, prio, i, s)
    ensures var t := FinalPass(l, fine, priority, prio, i, left, s, k).0;
            AllFit(t) && Deepened(l, fine, priority, prio, i, left, s, t) && LeavesOthers(l, fine, priority, prio, i, s, t)
    decreases l.end - i
  {
    hide FinalChannels, AllFit;
    if i < l.end && left >= l.channels {
      if CodesFinal(fine[i], priority[i], prio) {
        var (s', k') := FinalChannels(l, i, fine[i], 0, s, k);
        FinalBandNarrows(l, fine, priority, prio, i, s, k);
        FinalPassNarrows(l, fine, priority, prio, i + 1, left - l.channels, s', k');
      } else {
        FinalPassNarrows(l, fine, priority, prio, i + 1, left, s, k);
      }
    }
  }

  /** What a class leaves: what is left when all its bands are served, or too little for another. */
  lemma {:induction false} ClassLeaves(l: Layout, fine: seq<nat>, priority: seq<int>, prio: int, i: nat, left: int, s: Energies, k: Coder)
    requires Shaped(l, s) && l.start <= i <= l.end <= |fine| == |priority|
    ensures var left' := FinalPass(l, fine, priority, prio, i, left, s, k).2; var all := left - BitsBefore(l, fine, priority, prio, i, l.end);
            left' == all || (left' < l.channels && all < l.channels)
    decreases l.end - i
  {
    hide FinalChannels;
    if i < l.end && left >= l.channels {
      if CodesFinal(fine[i], priority[i], prio) {
        var (s', k') := FinalChannels(l, i, fine[i], 0, s, k);
        ClassLeaves(l, fine, priority, prio, i + 1, left - l.channels, s', k');
      } else {
        ClassLeaves(l, fine, priority, prio, i + 1, left, s, k);
      }
    }
  }

  /** Which bands get a final bit on each channel: those below the bit limit, of the first class
      and then of the second, in order, while enough bits are left. */
  predicate GetsFinal(l: Layout, fine: seq<nat>, priority: seq<int>, left: int, j: nat)
    requires l.Valid() && l.start <= j < l.end <= |fine| == |priority|
  {
    && fine[j] < MAX_FINE_BITS
    && if priority[j] == 0 then left >= BitsBefore(l, fine, priority, 0, l.start, j) + l.channels
       else priority[j] == 1 && left >= BitsBefore(l, fine, priority, 0, l.start, l.end) + BitsBefore(l, fine, priority, 1, l.start, j) + l.channels
  }

  /** After the final bits every bound still holds, and the cells held to half the step are exactly
      those that had all their fine bits, in a band that got final ones. */
  lemma FinaliseNarrows(l: Layout, fine: seq<nat>, priority: seq<int>, left: int, s: Energies, k: Coder)
    requires Shaped(l, s) && l.end <= |fine| == |priority| && k.Encoding?
    requires AllFit(s)
    requires forall j, c | l.start <= j < l.end && 0 <= c < l.channels :: s.depth[l.Cell(j, c)] <= fine[j]
    ensures var t := Finalise(l, fine, priority, left, s, k).0;
            && AllFit(t)
            && forall j, c | l.start <= j < l.end && 0 <= c < l.channels ::
                 t.depth[l.Cell(j, c)] == s.depth[l.Cell(j, c)] + if s.depth[l.Cell(j, c)] == fine[j] && GetsFinal(l, fine, priority, left, j) then 1 else 0
  {
    hide FinalPass, AllFit, BitsBefore;
    var (s1, k1, left1) := FinalPass(l, fine, priority, 0, l.start, left, s, k);
    FinalPassNarrows(l, fine, priority, 0, l.start, left, s, k);
    ClassLeaves(l, fine, priority, 0, l.start, left, s, k);
    FinalPassNarrows(l, fine, priority, 1, l.start, left1, s1, k1);
  }

  // ---------------------------------------------------------------- the decoder agrees

  /** Equal energies: all a decoder holds. */
  ghost predicate SameEnergy(l: Layout, s: Energies, t: Energies) {
    Shaped(l, s) && Shaped(l, t) && s.energy == t.energy
  }

  lemma {:induction false} FineChannelsAppend(l: Layout, i: nat, x: nat, c: nat, s: Energies, e: Coder)
    requires Shaped(l, s) && l.start <= i < l.end && x <= MAX_FINE_BITS && c <= l.channels && e.Encoding?
    ensures e.written <= FineChannels(l, i, x, c, s, e).1.written
    decreases l.channels - c
  {
    hide OffsetOf, LevelOf;
    if c < l.channels {
      var cell := l.Cell(i, c);
      var (e', q) := CodeRaw(e, LevelOf(s.error[cell], x), x);
      FineChannelsAppend(l, i, x, c + 1, Move(s, cell, OffsetOf(q, x), x, true), e');
    }
  }

  lemma {:induction false} FineChannelsLockstep(l: Layout, i: nat, x: nat, c: nat, s: Energies, e: Coder, t: Energies, d: Coder)
    requires SameEnergy(l, s, t) && l.start <= i < l.end && x <= MAX_FINE_BITS && c <= l.channels && InStep(e, d)
    requires FineChannels(l, i, x, c, s, e).1.written <= d.stream
    ensures var (s', e') := FineChannels(l, i, x, c, s, e);
            var (t', d') := FineChannels(l, i, x, c, t, d);
            SameEnergy(l, s', t') && InStep(e', d') && d'.stream == d.stream
    decreases l.channels - c
  {
    hide OffsetOf, LevelOf, CodeRaw;
    if c < l.channels {
      var cell := l.Cell(i, c);
      var q := LevelOf(s.error[cell], x);
      var e' := CodeRaw(e, q, x).0;
      var d' := CodeRaw(d, 0, x).0;
      var s' := Move(s, cell, OffsetOf(CodeRaw(e, q, x).1, x), x, true);
      FineChannelsAppend(l, i, x, c + 1, s', e');
      RawInStep(e, d, q, 0, x);
      FineChannelsLockstep(l, i, x, c + 1, s', e', Move(t, cell, OffsetOf(q, x), x, false), d');
    }
  }

  lemma {:induction false} FinePassAppends(l: Layout, extra: seq<int>, budget: int, tell: seq<Symbol> -> int, i: nat, s: Energies, e: Coder)
    requires Shaped(l, s) && l.start <= i <= l.end <= |extra| && e.Encoding?
    requires forall j | 0 <= j < |extra| :: extra[j] <= MAX_FINE_BITS
    ensures e.written <= FinePass(l, extra, budget, tell, i, s, e).1.written
    decreases l.end - i
  {
    hide FineChannels;
    if i < l.end {
      if CodesFine(l, extra[i], tell(e.Coded()), budget) {
        var (s', e') := FineChannels(l, i, extra[i], 0, s, e);
        FineChannelsAppend(l, i, extra[i], 0, s, e);
        FinePassAppends(l, extra, budget, tell, i + 1, s', e');
      } else {
        FinePassAppends(l, extra, budget, tell, i + 1, s, e);
      }
    }
  }

  /** The decoder of the fine bits ends with the encoder's energies. */
  lemma {:induction false} FinePassLockstep(l: Layout, extra: seq<int>, budget: int, tell: seq<Symbol> -> int, i: nat,
                                            s: Energies, e: Coder, t: Energies, d: Coder)
    requires SameEnergy(l, s, t) && l.start <= i <= l.end <= |extra| && InStep(e, d)
    requires forall j | 0 <= j < |extra| :: extra[j] <= MAX_FINE_BITS
    requires FinePass(l, extra, budget, tell, i, s, e).1.written <= d.stream
    ensures var (s', e') := FinePass(l, extra, budget, tell, i, s, e);
            var (t', d') := FinePass(l, extra, budget, tell, i, t, d);
            SameEnergy(l, s', t') && InStep(e', d')
    decreases l.end - i
  {
    hide FineChannels;
    if i < l.end {
      InStepCodedSame(e, d);
      if CodesFine(l, extra[i], tell(e.Coded()), budget) {
        var (s', e') := FineChannels(l, i, extra[i], 0, s, e);
        var (t', d') := FineChannels(l, i, extra[i], 0, t, d);
        FinePassAppends(l, extra, budget, tell, i + 1, s', e');
        FineChannelsLockstep(l, i, extra[i], 0, s, e, t, d);
        FinePassLockstep(l, extra, budget, tell, i + 1, s', e', t', d');
      } else {
        FinePassLockstep(l, extra, budget, tell, i + 1, s, e, t, d);
      }
    }
  }

  lemma {:induction false} FinalChannelsAppend(l: Layout, i: nat, x: nat, c: nat, s: Energies, e: Coder)
    requires Shaped(l, s) && l.start <= i < l.end && c <= l.channels && e.Encoding?
    ensures e.written <= FinalChannels(l, i, x, c, s, e).1.written
    decreases l.channels - c
  {
    assert Power2(1) == 2;
    hide LastOffset;
    if c < l.channels {
      var cell := l.Cell(i, c);
      var (e', q) := CodeRaw(e, if s.error[cell] >= 0 then 1 else 0, 1);
      var depth := if s.depth[cell] == x then x + 1 else s.depth[cell];
      FinalChannelsAppend(l, i, x, c + 1, Move(s, cell, LastOffset(q, x), depth, true), e');
    }
  }

  lemma {:induction false} FinalChannelsLockstep(l: Layout, i: nat, x: nat, c: nat, s: Energies, e: Coder, t: Energies, d: Coder)
    requires SameEnergy(l, s, t) && l.start <= i < l.end && c <= l.channels && InStep(e, d)
    requires FinalChannels(l, i, x, c, s, e).1.written <= d.stream
    ensures var (s', e') := FinalChannels(l, i, x, c, s, e);
            var (t', d') := FinalChannels(l, i, x, c, t, d);
            SameEnergy(l, s', t') && InStep(e', d') && d'.stream == d.stream
    decreases l.channels - c
  {
    assert Power2(1) == 2;
    hide LastOffset, CodeRaw, Power2;
    if c < l.channels {
      var cell := l.Cell(i, c);
      var q := if s.error[cell] >= 0 then 1 else 0;
      var (e', v) := CodeRaw(e, q, 1);
      var s' := Move(s, cell, LastOffset(v, x), if s.depth[cell] == x then x + 1 else s.depth[cell], true);
      FinalChannelsAppend(l, i, x, c + 1, s', e');
      RawInStep(e, d, q, 0, 1);
      var t' := Move(t, cell, LastOffset(q, x), if t.depth[cell] == x then x + 1 else t.depth[cell], false);
      FinalChannelsLockstep(l, i, x, c + 1, s', e', t', CodeRaw(d, 0, 1).0);
    }
  }

  lemma {:induction false} FinalPassAppends(l: Layout, fine: seq<nat>, priority: seq<int>, prio: int, i: nat, left: int, s: Energies, e: Coder)
    requires Shaped(l, s) && l.start <= i <= l.end <= |fine| == |priority| && e.Encoding?
    ensures e.written <= FinalPass(l, fine, priority, prio, i, left, s, e).1.written
    decreases l.end - i
  {
    hide FinalChannels;
    if i < l.end && left >= l.channels {
      if CodesFinal(fine[i], priority[i], prio) {
        var (s', e') := FinalChannels(l, i, fine[i], 0, s, e);
        FinalChannelsAppend(l, i, fine[i], 0, s, e);
        FinalPassAppends(l, fine, priority, prio, i + 1, left - l.channels, s', e');
      } else {
        FinalPassAppends(l, fine, priority, prio, i + 1, left, s, e);
      }
    }
  }

  lemma {:induction false} FinalPassLockstep(l: Layout, fine: seq<nat>, priority: seq<int>, prio: int, i: nat, left: int,
                                             s: Energies, e: Coder, t: Energies, d: Coder)
    requires SameEnergy(l, s, t) && l.start <= i <= l.end <= |fine| == |priority| && InStep(e, d)
    requires FinalPass(l, fine, priority, prio, i, left, s, e).1.written <= d.stream
    ensures var (s', e', n) := FinalPass(l, fine, priority, prio, i, left, s, e);
            var (t', d', m) := FinalPass(l, fine, priority, prio, i, left, t, d);
            SameEnergy(l, s', t') && InStep(e', d') && d'.stream == d.stream && n == m
    decreases l.end - i
  {
    hide FinalChannels;
    if i < l.end && left >= l.channels {
      if CodesFinal(fine[i], priority[i], prio) {
        var (s', e') := FinalChannels(l, i, fine[i], 0, s, e);
        var (t', d') := FinalChannels(l, i, fine[i], 0, t, d);
        FinalPassAppends(l, fine, priority, prio, i + 1, left - l.channels, s', e');
        FinalChannelsLockstep(l, i, fine[i], 0, s, e, t, d);
        FinalPassLockstep(l, fine, priority, prio, i + 1, left - l.channels, s', e', t', d');
      } else {
        FinalPassLockstep(l, fine, priority, prio, i + 1, left, s, e, t, d);
      }
    }
  }

  /** And so does the decoder of the final bits. */
  lemma FinaliseLockstep(l: Layout, fine: seq<nat>, priority: seq<int>, left: int, s: Energies, e: Coder, t: Energies, d: Coder)
    requires SameEnergy(l, s, t) && l.end <= |fine| == |priority| && InStep(e, d)
    requires Finalise(l, fine, priority, left, s, e).1.written <= d.stream
    ensures var (s', e') := Finalise(l, fine, priority, left, s, e);
            var (t', d') := Finalise(l, fine, priority, left, t, d);
            SameEnergy(l, s', t') && InStep(e', d')
  {
    hide FinalPass;
    var (s1, e1, left1) := FinalPass(l, fine, priority, 0, l.start, left, s, e);
    var (t1, d1, _) := FinalPass(l, fine, priority, 0, l.start, left, t, d);
    FinalPassAppends(l, fine, priority, 1, l.start, left1, s1, e1);
    FinalPassLockstep(l, fine, priority, 0, l.start, left, s, e, t, d);
    FinalPassLockstep(l, fine, priority, 1, l.start, left1, s1, e1, t1, d1);
  }
}
