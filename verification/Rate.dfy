/** CELT bit allocation (internal/celt/rate.go; RFC 6716 section 4.3.3).

    The functions give the value of each stage; the methods are the source's loops over
    arrays, proved to compute them.  All quantities are eighth-bits.  The ledger and the
    encoder/decoder agreement are proved about the functions in RateLedger and
    RateLockstep. */
module Rate {
  import opened RangeCoder

  /** The parts of celtMode the allocator reads. */
  datatype Mode = Mode(eBands: seq<int>, logN: seq<int>, allocVectors: seq<seq<int>>) {
    function Bands(): int { |eBands| - 1 }

    function Width(j: int): int
      requires 0 <= j < |eBands| - 1
    {
      eBands[j + 1] - eBands[j]
    }

    ghost predicate Valid() {
      && 1 <= Bands() < |LOG2_FRAC|
      && |logN| == Bands()
      && 2 <= |allocVectors|
      && (forall i, j | 0 <= i < j < |eBands| :: eBands[i] < eBands[j])
      && (forall q | 0 <= q < |allocVectors| :: |allocVectors[q]| == Bands())
      && (forall q, j | 0 <= q < |allocVectors| && 0 <= j < Bands() :: 0 <= allocVectors[q][j])
      && (forall j | 0 <= j < Bands() :: allocVectors[0][j] == 0)
    }
  }

  const LOG2_FRAC: seq<int> :=
    [0, 8, 13, 16, 19, 21, 23, 24, 26, 27, 28, 29, 30, 31, 32, 32, 33, 34, 34, 35, 36, 36, 37, 37]
  const BIT: int := 8            // 1 << bitRes
  const ALLOC_STEPS: nat := 6
  const FINE_OFFSET: int := 21
  const MAX_FINE_BITS: int := 8

  function Min(a: int, b: int): int { if a < b then a else b }
  function Max(a: int, b: int): int { if a > b then a else b }
  /** celt_udiv; the proofs show that its arguments are never negative here. */
  function UDiv(n: int, d: int): int requires d > 0 { n / d }
  function URest(n: int, d: int): int requires d > 0 { n - d * UDiv(n, d) }

  /** The arguments that stay fixed through one call. */
  datatype Frame = Frame(mode: Mode, start: int, end: int, channels: int, lm: nat, cap: seq<int>) {
    ghost predicate Valid() {
      && mode.Valid()
      && 0 <= start < end <= mode.Bands()
      && (channels == 1 || channels == 2)
      && lm <= 3
      && |cap| == mode.Bands()
      && forall j | 0 <= j < |cap| :: 0 <= cap[j]
    }

    function Floor(): int { channels * BIT }
  }

  // ---------------------------------------------------------------- reservations

  datatype Reserved = Reserved(total: int, skip: int, intensity: int, dual: int)

  function Reserve(f: Frame, total0: int): Reserved
    requires f.Valid()
  {
    var t0 := Max(total0, 0);
    var skip := if t0 >= BIT then BIT else 0;
    var t1 := t0 - skip;
    if f.channels == 2 then
      var want := LOG2_FRAC[f.end - f.start];
      if want > t1 then
        Reserved(t1, skip, 0, 0)
      else
        var t2 := t1 - want;
        var dual := if t2 >= BIT then BIT else 0;
        Reserved(t2 - dual, skip, want, dual)
    else
      Reserved(t1, skip, 0, 0)
  }

  // ---------------------------------------------------------------- allocation curves

  function Threshold(f: Frame, j: int): int
    requires f.Valid() && 0 <= j < f.mode.Bands()
  {
    Max(f.Floor(), 3 * f.mode.Width(j) * Power2(f.lm) * BIT / 16)
  }

  function Thresholds(f: Frame): (s: seq<int>)
    requires f.Valid()
    ensures |s| == f.mode.Bands()
  {
    seq(f.mode.Bands(), j requires 0 <= j < f.mode.Bands() => Threshold(f, j))
  }

  function TrimOffset(f: Frame, trim: int, j: int): int
    requires f.Valid() && 0 <= j < f.mode.Bands()
  {
    f.channels * f.mode.Width(j) * (trim - 5 - f.lm) * (f.end - j - 1) * (Power2(f.lm) * BIT) / 64
    - if f.mode.Width(j) * Power2(f.lm) == 1 then f.Floor() else 0
  }

  /** One band of one row of the static quality curves, tilted. */
  function Curve(f: Frame, trim: int, row: int, j: int): (b: int)
    requires f.Valid() && 0 <= j < f.mode.Bands() && 0 <= row < |f.mode.allocVectors|
    ensures row == 0 ==> b == 0
    ensures b >= 0
  {
    var raw := f.channels * f.mode.Width(j) * f.mode.allocVectors[row][j] * Power2(f.lm) / 4;
    RawIsNonNegative(f.channels * f.mode.Width(j), f.mode.allocVectors[row][j], Power2(f.lm));
    if raw > 0 then Max(0, raw + TrimOffset(f, trim, j)) else raw
  }

  lemma RawIsNonNegative(a: int, b: int, c: int)
    requires a >= 0 && b >= 0 && c >= 1
    ensures a * b * c / 4 >= 0
    ensures b == 0 ==> a * b * c / 4 == 0
  {
  }

  /** The per-band demand the first search sums: curve plus dynalloc boost. */
  function Demand(f: Frame, trim: int, offsets: seq<int>, row: int): (s: seq<int>)
    requires f.Valid() && 0 <= row < |f.mode.allocVectors| && |offsets| == f.mode.Bands()
    ensures |s| == f.mode.Bands()
  {
    seq(f.mode.Bands(), j requires 0 <= j < f.mode.Bands() => Curve(f, trim, row, j) + offsets[j])
  }

  /** The lower end of the interpolation: the boost is left out on row 0. */
  function Lower(f: Frame, trim: int, offsets: seq<int>, lo: int): (s: seq<int>)
    requires f.Valid() && 0 <= lo < |f.mode.allocVectors| && |offsets| == f.mode.Bands()
    ensures |s| == f.mode.Bands()
  {
    seq(f.mode.Bands(), j requires 0 <= j < f.mode.Bands() =>
      Curve(f, trim, lo, j) + if lo > 0 then offsets[j] else 0)
  }

  /** The distance up to the next row (or to the cap above the last). */
  function Gap(f: Frame, trim: int, offsets: seq<int>, lo: int): (s: seq<int>)
    requires f.Valid() && 0 <= lo < |f.mode.allocVectors| && |offsets| == f.mode.Bands()
    ensures |s| == f.mode.Bands()
    ensures forall j | 0 <= j < |s| :: s[j] >= 0
  {
    seq(f.mode.Bands(), j requires 0 <= j < f.mode.Bands() =>
      var upper := if lo + 1 >= |f.mode.allocVectors| then CapCurve(f, trim, j) else Curve(f, trim, lo + 1, j);
      Max(0, upper + offsets[j] - Lower(f, trim, offsets, lo)[j]))
  }

  function CapCurve(f: Frame, trim: int, j: int): int
    requires f.Valid() && 0 <= j < f.mode.Bands()
  {
    if f.cap[j] > 0 then Max(0, f.cap[j] + TrimOffset(f, trim, j)) else f.cap[j]
  }

  /** The last boosted band bounds skipping from below. */
  function SkipStart(f: Frame, offsets: seq<int>, j: int): (s: int)
    requires f.Valid() && |offsets| == f.mode.Bands() && f.start <= j <= f.end
    ensures f.start <= s && (s < j || s == f.start)
    decreases j
  {
    if j == f.start then f.start
    else if offsets[j - 1] > 0 then j - 1
    else SkipStart(f, offsets, j - 1)
  }

  // ---------------------------------------------------------------- the two searches

  function Sum(s: seq<int>, lo: int, hi: int): int
    requires 0 <= lo <= hi <= |s|
    decreases hi - lo
  {
    if lo == hi then 0 else s[lo] + Sum(s, lo + 1, hi)
  }

  /** Some band above j meets its threshold, so band j is served in full. */
  predicate Reached(f: Frame, want: seq<int>, j: int)
    requires f.Valid() && |want| == f.mode.Bands() && f.start <= j < f.end
    decreases f.end - j
  {
    j + 1 < f.end && (want[j + 1] >= Threshold(f, j + 1) || Reached(f, want, j + 1))
  }

  predicate Served(f: Frame, want: seq<int>, j: int)
    requires f.Valid() && |want| == f.mode.Bands() && f.start <= j < f.end
  {
    want[j] >= Threshold(f, j) || Reached(f, want, j)
  }

  /** Below the served bands there is a fine-energy bit per channel, or nothing. */
  function FineOnly(f: Frame, want: int): int
    requires f.Valid()
  {
    if want >= f.Floor() then f.Floor() else 0
  }

  /** What the searches charge band j for. */
  function Charge(f: Frame, want: seq<int>, j: int): int
    requires f.Valid() && |want| == f.mode.Bands() && 0 <= j < |want|
  {
    if !(f.start <= j < f.end) then 0
    else if Served(f, want, j) then Min(want[j], f.cap[j])
    else FineOnly(f, want[j])
  }

  function Charges(f: Frame, want: seq<int>): (s: seq<int>)
    requires f.Valid() && |want| == f.mode.Bands()
    ensures |s| == |want|
  {
    seq(|want|, j requires 0 <= j < |want| => Charge(f, want, j))
  }

  function TotalCharge(f: Frame, want: seq<int>): int
    requires f.Valid() && |want| == f.mode.Bands()
  {
    Sum(Charges(f, want), f.start, f.end)
  }

  /** What the chosen point gives band j before skipping: the charge, never over the cap. */
  function Granted(f: Frame, want: seq<int>): (s: seq<int>)
    requires f.Valid() && |want| == f.mode.Bands()
    ensures |s| == |want|
  {
    seq(|want|, j requires 0 <= j < |want| =>
      if f.start <= j < f.end then Min(Charge(f, want, j), f.cap[j]) else 0)
  }

  /** The row search: bisects rows until the bracket closes. */
  function RowSearch(f: Frame, trim: int, offsets: seq<int>, total: int, lo: int, hi: int): (r: int)
    requires f.Valid() && |offsets| == f.mode.Bands()
    requires 1 <= lo <= |f.mode.allocVectors| && lo - 1 <= hi < |f.mode.allocVectors|
    ensures lo - 1 <= r < |f.mode.allocVectors|
    decreases hi - lo
  {
    if lo > hi then lo - 1
    else
      var mid := (lo + hi) / 2;
      if TotalCharge(f, Demand(f, trim, offsets, mid)) > total then
        RowSearch(f, trim, offsets, total, lo, mid - 1)
      else
        RowSearch(f, trim, offsets, total, mid + 1, hi)
  }

  /** A point on the line between two curves. */
  function Mix(lower: seq<int>, gap: seq<int>, mid: int): (s: seq<int>)
    requires |lower| == |gap|
    ensures |s| == |lower|
  {
    seq(|lower|, j requires 0 <= j < |lower| => lower[j] + mid * gap[j] / 64)
  }

  /** The interpolation search: six halvings of [0, 64). */
  function MixSearch(f: Frame, lower: seq<int>, gap: seq<int>, total: int, lo: int, hi: int, steps: nat): (r: int)
    requires f.Valid() && |lower| == |gap| == f.mode.Bands()
    decreases steps
  {
    if steps == 0 then lo
    else
      var mid := (lo + hi) / 2;
      if TotalCharge(f, Mix(lower, gap, mid)) > total then
        MixSearch(f, lower, gap, total, lo, mid, steps - 1)
      else
        MixSearch(f, lower, gap, total, mid, hi, steps - 1)
  }

  // ---------------------------------------------------------------- skipping bands

  /** State of the skip loop.  `flags` counts the skip flags coded; the code has no such
      counter, the ledger needs it. */
  datatype Skipping = Skipping(coded: int, psum: int, total: int, reserve: int, bits: seq<int>, flags: nat)

  ghost predicate SkipShape(f: Frame, skipStart: int, s: Skipping) {
    && f.Valid() && f.start <= skipStart && f.start < s.coded <= f.end && |s.bits| == f.mode.Bands()
  }

  /** The bits of the top coded band once the left-over is spread over the coded bands. */
  function BandBits(f: Frame, s: Skipping): int
    requires SkipShape(f, f.start, s)
  {
    var e := f.mode.eBands;
    var j := s.coded - 1;
    var per := UDiv(s.total - s.psum, e[s.coded] - e[f.start]);
    var left := URest(s.total - s.psum, e[s.coded] - e[f.start]);
    s.bits[j] + per * (e[s.coded] - e[j]) + Max(left - (e[j] - e[f.start]), 0)
  }

  /** Only a band at or above this may be kept, so only it has a flag. */
  function FlagThreshold(f: Frame, j: int): int
    requires f.Valid() && 0 <= j < f.mode.Bands()
  {
    Max(Threshold(f, j), f.Floor() + BIT)
  }

  /** The encoder's free choice, with hysteresis on the previous frame's coded bands. */
  datatype Policy = Policy(previous: int, bandwidth: int) {
    predicate Keeps(f: Frame, coded: int, bandBits: int)
      requires f.Valid() && f.start < coded <= f.end
    {
      var j := coded - 1;
      var depth := if coded > 17 then (if j < previous then 7 else 9) else 0;
      coded <= f.start + 2 ||
      (bandBits > depth * f.mode.Width(j) * Power2(f.lm) * BIT / 16 && j <= bandwidth)
    }
  }

  /** Takes the top band out of the coded ones.  It keeps a fine-energy bit per channel
      if it can afford one, and the intensity reserve shrinks with the range it codes. */
  function SkipBand(f: Frame, s: Skipping, bandBits: int, flagged: bool): (r: Skipping)
    requires SkipShape(f, f.start, s) && f.start < s.coded - 1
    ensures SkipShape(f, f.start, r) && r.coded == s.coded - 1 && r.total == s.total
  {
    var j := s.coded - 1;
    var flagCost := if flagged then BIT else 0;
    var reserve := if s.reserve > 0 then LOG2_FRAC[j - f.start] else s.reserve;
    var kept := FineOnly(f, bandBits);
    Skipping(j, s.psum + flagCost - (s.bits[j] + s.reserve) + reserve + kept, s.total, reserve,
             s.bits[j := kept], s.flags + if flagged then 1 else 0)
  }

  function Skip(f: Frame, skipStart: int, skipReserve: int, policy: Policy, s: Skipping, c: Coder): (r: (Skipping, Coder))
    requires SkipShape(f, skipStart, s)
    ensures SkipShape(f, skipStart, r.0)
    ensures c.Encoding? <==> r.1.Encoding?
    decreases s.coded
  {
    if s.coded - 1 <= skipStart then
      (s.(total := s.total + skipReserve), c)
    else
      var bandBits := BandBits(f, s);
      if bandBits >= FlagThreshold(f, s.coded - 1) then
        var (c', keep) := CodeBit(c, if policy.Keeps(f, s.coded, bandBits) then 1 else 0, 1);
        if keep != 0 then (s.(flags := s.flags + 1), c')
        else Skip(f, skipStart, skipReserve, policy, SkipBand(f, s, bandBits - BIT, true), c')
      else
        Skip(f, skipStart, skipReserve, policy, SkipBand(f, s, bandBits, false), c)
  }

  // ---------------------------------------------------------------- stereo parameters

  datatype Stereo = Stereo(intensity: int, dual: nat, total: int, dualReserve: int)

  function CodeStereo(f: Frame, s: Skipping, dualReserve: int, intensity: int, dual: nat, c: Coder): (r: (Stereo, Coder))
    requires SkipShape(f, f.start, s) && dual <= 1
    requires c.Encoding? && s.reserve > 0 ==> f.start <= intensity
    ensures c.Encoding? <==> r.1.Encoding?
    ensures r.0.dual <= 1
  {
    var (c1, it) :=
      if s.reserve > 0 then
        var (c', v) := CodeUniform(c, if c.Encoding? then Min(intensity, s.coded) - f.start else 0, s.coded + 1 - f.start);
        (c', f.start + v)
      else (c, 0);
    var (total, rsv) := if it <= f.start then (s.total + dualReserve, 0) else (s.total, dualReserve);
    if rsv > 0 then
      var (c2, d) := CodeBit(c1, dual, 1);
      (Stereo(it, d, total, rsv), c2)
    else
      (Stereo(it, 0, total, rsv), c1)
  }

  // ---------------------------------------------------------------- the final split

  /** Spreads what is left: `per` for every coefficient, and `rem` more from the bottom
      band up, at most one for each coefficient. */
  function SpreadBy(f: Frame, s: Skipping, per: int, rem: int): (r: seq<int>)
    requires SkipShape(f, f.start, s)
    ensures |r| == |s.bits|
  {
    seq(|s.bits|, j requires 0 <= j < |s.bits| =>
      if f.start <= j < s.coded
      then s.bits[j] + per * f.mode.Width(j) + Extra(f, rem, j)
      else s.bits[j])
  }

  function Extra(f: Frame, rem: int, j: int): int
    requires f.Valid() && f.start <= j < f.end
  {
    Min(Max(rem - (f.mode.eBands[j] - f.mode.eBands[f.start]), 0), f.mode.Width(j))
  }

  function Spread(f: Frame, s: Skipping, left: int): (r: seq<int>)
    requires SkipShape(f, f.start, s)
    ensures |r| == |s.bits|
  {
    var whole := f.mode.eBands[s.coded] - f.mode.eBands[f.start];
    SpreadBy(f, s, UDiv(left, whole), URest(left, whole))
  }

  datatype Fine = Fine(pulses: int, ebits: int, priority: int, balance: int)

  /** The offset of a band's fine bits from its fair share of the total. */
  function FineOffset(f: Frame, j: int, b: int, den: int): int
    requires f.Valid() && 0 <= j < f.mode.Bands()
  {
    var nlogn := den * (f.mode.logN[j] + f.lm * 8);
    var o1 := nlogn / 2 - den * FINE_OFFSET
              + if f.mode.Width(j) * Power2(f.lm) == 2 then den * 8 / 4 else 0;
    if b + o1 < den * 2 * 8 then o1 + nlogn / 4
    else if b + o1 < den * 3 * 8 then o1 + nlogn / 8
    else o1
  }

  function Shift(f: Frame, b: int): int {
    if f.channels == 2 then b / 2 / 8 else b / 8
  }

  /** Splits one coded band's bits between fine energy and pulses, and passes the excess
      over its cap to the next band. */
  function FineBand(f: Frame, intensity: int, dual: nat, j: int, bits: int, balance: int): Fine
    requires f.Valid() && 0 <= j < f.mode.Bands()
  {
    var n := f.mode.Width(j) * Power2(f.lm);
    var bit := bits + balance;
    if n > 1 then
      var excess := Max(bit - f.cap[j], 0);
      WideBand(f, j, bit - excess, Freedom(f, intensity, dual, j, n), excess, balance)
    else
      // One coefficient: a sign bit per channel, the rest is fine energy.
      NarrowBand(f, bit, balance)
  }

  function NarrowBand(f: Frame, bit: int, balance: int): Fine {
    var excess := Max(0, bit - f.channels * 8);
    Rebalance(f, Fine(bit - excess, 0, 1, excess), balance)
  }

  function WideBand(f: Frame, j: int, b: int, den: int, excess: int, balance: int): Fine
    requires f.Valid() && 0 <= j < f.mode.Bands() && den > 0
  {
    Rebalance(f, WideFine(f, j, b, den, excess), balance)
  }

  /** Fine energy gets its share of the b bits, never more than they pay for. */
  function WideFine(f: Frame, j: int, b: int, den: int, excess: int): Fine
    requires f.Valid() && 0 <= j < f.mode.Bands() && den > 0
  {
    var e0 := UDiv(Max(0, b + FineOffset(f, j, b, den) + den * 4), den) / 8;
    var e1 := if f.channels * e0 > b / 8 then Shift(f, b) else e0;
    var e := Min(e1, MAX_FINE_BITS);
    var priority := if e * (den * 8) >= b + FineOffset(f, j, b, den) then 1 else 0;
    Fine(b - f.channels * e * 8, e, priority, excess)
  }

  /** Degrees of freedom of a band; one more for stereo that is not intensity-coded. */
  function Freedom(f: Frame, intensity: int, dual: nat, j: int, n: int): (den: int)
    requires f.Valid() && n > 1
    ensures den > 0
  {
    f.channels * n + if f.channels == 2 && n > 2 && dual == 0 && j < intensity then 1 else 0
  }

  /** Fine energy takes what it can of the excess, as it cannot use later re-balancing. */
  function Rebalance(f: Frame, r: Fine, balance: int): Fine {
    if r.balance > 0 then
      var extra := Min(Shift(f, r.balance), MAX_FINE_BITS - r.ebits);
      var taken := extra * f.channels * 8;
      Fine(r.pulses, r.ebits + extra, if taken >= r.balance - balance then 1 else 0, r.balance - taken)
    else r
  }

  /** The coded bands from `start` up to j, each handing its balance to the next. */
  function FineBands(f: Frame, intensity: int, dual: nat, bits: seq<int>, j: int): (r: (seq<Fine>, int))
    requires f.Valid() && |bits| == f.mode.Bands() && f.start <= j <= f.end
    ensures |r.0| == j - f.start
    decreases j
  {
    if j == f.start then ([], 0)
    else
      var (done, balance) := FineBands(f, intensity, dual, bits, j - 1);
      var r := FineBand(f, intensity, dual, j - 1, bits[j - 1], balance);
      (done + [r], r.balance)
  }

  /** A skipped band spends all it has on fine energy. */
  function SkippedBand(f: Frame, bits: int): Fine {
    var e := Shift(f, bits);
    Fine(0, e, if e < 1 then 1 else 0, 0)
  }

  // ---------------------------------------------------------------- the whole allocation

  /** `bands[j - start]` is band j. */
  datatype Allocation = Allocation(coded: int, intensity: int, dual: nat, bands: seq<Fine>, balance: int)

  /** An allocation with the three ledger entries that leave no trace in it. */
  datatype Outcome = Outcome(alloc: Allocation, skipFlags: nat, intensityReserve: int, dualReserve: int)

  /** What each band wants at the point the two searches settle on. */
  function ChosenPoint(f: Frame, trim: int, offsets: seq<int>, total: int): (want: seq<int>)
    requires f.Valid() && |offsets| == f.mode.Bands()
    ensures |want| == f.mode.Bands()
  {
    var row := RowSearch(f, trim, offsets, total, 1, |f.mode.allocVectors| - 1);
    var lower, gap := Lower(f, trim, offsets, row), Gap(f, trim, offsets, row);
    Mix(lower, gap, MixSearch(f, lower, gap, total, 0, 64, ALLOC_STEPS))
  }

  /** Everything decided before a symbol is coded. */
  function Initial(f: Frame, trim: int, offsets: seq<int>, r: Reserved): (s: Skipping)
    requires f.Valid() && |offsets| == f.mode.Bands()
    ensures SkipShape(f, f.start, s) && s.coded == f.end && s.reserve == r.intensity
  {
    var bits := Granted(f, ChosenPoint(f, trim, offsets, r.total));
    Skipping(f.end, Sum(bits, f.start, f.end), r.total, r.intensity, bits, 0)
  }

  function Finish(f: Frame, s: Skipping, st: Stereo): (a: Allocation)
    requires SkipShape(f, f.start, s)
    ensures |a.bands| == f.end - f.start
    ensures a.coded == s.coded && a.intensity == st.intensity && a.dual == st.dual
  {
    var bits := Spread(f, s, st.total - s.psum);
    var (bands, balance) := FineBands(f, st.intensity, st.dual, bits, s.coded);
    var skipped := seq(f.end - s.coded, i requires 0 <= i < f.end - s.coded => SkippedBand(f, s.bits[s.coded + i]));
    Allocation(s.coded, st.intensity, st.dual, bands + skipped, balance)
  }

  function Allocate(f: Frame, trim: int, offsets: seq<int>, total: int, intensity: int, dual: nat,
                    policy: Policy, c: Coder): (r: (Outcome, Coder))
    requires f.Valid() && |offsets| == f.mode.Bands() && dual <= 1
    requires c.Encoding? && f.channels == 2 ==> f.start <= intensity
    ensures c.Encoding? <==> r.1.Encoding?
  {
    var rsv := Reserve(f, total);
    var (s, c1) := Skip(f, SkipStart(f, offsets, f.end), rsv.skip, policy, Initial(f, trim, offsets, rsv), c);
    ReserveStaysZero(f, SkipStart(f, offsets, f.end), rsv.skip, policy, Initial(f, trim, offsets, rsv), c);
    var (st, c2) := CodeStereo(f, s, rsv.dual, intensity, dual, c1);
    (Outcome(Finish(f, s, st), s.flags, s.reserve, st.dualReserve), c2)
  }

  /** A reserve that was not made does not come into being by skipping. */
  lemma {:induction false} ReserveStaysZero(f: Frame, skipStart: int, skipReserve: int, policy: Policy, s: Skipping, c: Coder)
    requires SkipShape(f, skipStart, s)
    ensures s.reserve <= 0 ==> Skip(f, skipStart, skipReserve, policy, s, c).0.reserve <= 0
    decreases s.coded
  {
    if s.coded - 1 > skipStart {
      var bandBits := BandBits(f, s);
      if bandBits >= FlagThreshold(f, s.coded - 1) {
        var (c', keep) := CodeBit(c, if policy.Keeps(f, s.coded, bandBits) then 1 else 0, 1);
        if keep == 0 {
          ReserveStaysZero(f, skipStart, skipReserve, policy, SkipBand(f, s, bandBits - BIT, true), c');
        }
      } else {
        ReserveStaysZero(f, skipStart, skipReserve, policy, SkipBand(f, s, bandBits, false), c);
      }
    }
  }
}
