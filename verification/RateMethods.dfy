/** The allocator as the source runs it: loops that update psum, left and balance and
    write the per-band arrays in place, each proved to compute its function in Rate. */
module RateMethods {
  import opened Rate
  import opened RateLedger
  import RateLaws
  import opened RangeCoder

  // ---------------------------------------------------------------- caps and the pulse cache

  function CapOf(width: int, lm: nat, channels: int, entry: int): int {
    (entry + 64) * channels * (width * Power2(lm)) / 4
  }

  /** Where the caps for this frame size and channel count start in the flat table. */
  function CapsBase(bands: int, lm: nat, channels: int): int {
    bands * (2 * lm + channels - 1)
  }

  /** initCaps. */
  method InitCaps(m: Mode, table: seq<int>, lm: nat, channels: int, cap: array<int>)
    requires m.Valid() && 1 <= channels && cap.Length == m.Bands()
    requires 0 <= CapsBase(m.Bands(), lm, channels) <= |table| - m.Bands()
    modifies cap
    ensures forall i | 0 <= i < m.Bands() ::
      cap[i] == CapOf(m.Width(i), lm, channels, table[CapsBase(m.Bands(), lm, channels) + i])
  {
    hide Mode.Valid, CapOf, CapsBase;
    for i := 0 to m.Bands()
      invariant forall k | 0 <= k < i ::
        cap[k] == CapOf(m.Width(k), lm, channels, table[CapsBase(m.Bands(), lm, channels) + k])
    {
      cap[i] := CapOf(m.Width(i), lm, channels, table[CapsBase(m.Bands(), lm, channels) + i]);
    }
  }

  lemma CapIsGenerous(width: int, lm: nat, channels: int, entry: int)
    requires 1 <= width && 1 <= channels && 0 <= entry
    ensures CapOf(width, lm, channels, entry) >= 16 * channels >= channels * BIT
  {
    var n := width * Power2(lm);
    assert n >= 1;
    assert 64 * channels * n >= 64 * channels;
    assert (entry + 64) * channels * n == entry * channels * n + 64 * channels * n;
    assert entry * channels * n >= 0;
  }

  // ---------------------------------------------------------------- searches

  ghost predicate HoldsThresholds(f: Frame, th: array<int>)
    reads th
    requires f.Valid()
  {
    th.Length == f.mode.Bands() && forall j | f.start <= j < f.end :: th[j] == Threshold(f, j)
  }

  /** The arrays hold the two curves on the bands in use. */
  ghost predicate HoldsCurves(f: Frame, b1: array<int>, b2: array<int>, lower: seq<int>, gap: seq<int>)
    reads b1, b2
    requires f.Valid()
  {
    && b1.Length == b2.Length == |lower| == |gap| == f.mode.Bands()
    && forall j | f.start <= j < f.end :: b1[j] == lower[j] && b2[j] == gap[j]
  }

  /** One pass of the interpolation search from the top band down. */
  method MixCharge(f: Frame, ghost lower: seq<int>, ghost gap: seq<int>, b1: array<int>, b2: array<int>, th: array<int>, mid: int)
    returns (psum: int)
    requires f.Valid() && HoldsCurves(f, b1, b2, lower, gap) && HoldsThresholds(f, th)
    ensures psum == TotalCharge(f, Mix(lower, gap, mid))
  {
    ghost var want := Mix(lower, gap, mid);
    hide Mode.Valid, Threshold;
    psum := 0;
    var done := false;
    var j := f.end;
    while j > f.start
      invariant f.start <= j <= f.end
      invariant done <==> (j < f.end && Served(f, want, j))
      invariant psum == Sum(Charges(f, want), j, f.end)
    {
      j := j - 1;
      var tmp := b1[j] + mid * b2[j] / 64;
      assert tmp == want[j];
      if tmp >= th[j] || done {
        done := true;
        psum := psum + Min(tmp, f.cap[j]);
      } else if tmp >= f.Floor() {
        psum := psum + f.Floor();
      }
    }
  }

  /** One pass of the row search, computing each band's demand as it goes. */
  method RowCharge(f: Frame, trim: int, offsets: seq<int>, th: array<int>, trimOffset: array<int>, row: int)
    returns (psum: int)
    requires f.Valid() && |offsets| == f.mode.Bands() && HoldsThresholds(f, th)
    requires HoldsTrim(f, trim, trimOffset)
    requires 0 <= row < |f.mode.allocVectors|
    ensures psum == TotalCharge(f, Demand(f, trim, offsets, row))
  {
    ghost var want := Demand(f, trim, offsets, row);
    assert |f.mode.allocVectors[row]| == f.mode.Bands();
    hide Mode.Valid, Threshold, TrimOffset;
    psum := 0;
    var done := false;
    var j := f.end;
    while j > f.start
      invariant f.start <= j <= f.end
      invariant done <==> (j < f.end && Served(f, want, j))
      invariant psum == Sum(Charges(f, want), j, f.end)
    {
      j := j - 1;
      var bitsj := f.channels * f.mode.Width(j) * f.mode.allocVectors[row][j] * Power2(f.lm) / 4;
      if bitsj > 0 {
        bitsj := Max(0, bitsj + trimOffset[j]);
      }
      bitsj := bitsj + offsets[j];
      assert bitsj == want[j];
      if bitsj >= th[j] || done {
        done := true;
        psum := psum + Min(bitsj, f.cap[j]);
      } else if bitsj >= f.Floor() {
        psum := psum + f.Floor();
      }
    }
  }

  ghost predicate HoldsTrim(f: Frame, trim: int, t: array<int>)
    reads t
    requires f.Valid()
  {
    t.Length == f.mode.Bands() && forall j | f.start <= j < f.end :: t[j] == TrimOffset(f, trim, j)
  }

  /** The grant loop writes each band's bits and sums them. */
  method GrantBands(f: Frame, ghost lower: seq<int>, ghost gap: seq<int>, b1: array<int>, b2: array<int>, th: array<int>, lo: int,
                    bits: array<int>)
    returns (psum: int)
    requires f.Valid() && bits.Length == f.mode.Bands() && HoldsCurves(f, b1, b2, lower, gap) && HoldsThresholds(f, th)
    requires bits != b1 && bits != b2 && bits != th
    modifies bits
    ensures var g := Granted(f, Mix(lower, gap, lo));
            && psum == Sum(g, f.start, f.end)
            && forall j | f.start <= j < f.end :: bits[j] == g[j]
  {
    ghost var want := Mix(lower, gap, lo);
    ghost var g := Granted(f, want);
    hide Mode.Valid, Threshold;
    psum := 0;
    var done := false;
    var j := f.end;
    while j > f.start
      invariant f.start <= j <= f.end
      invariant HoldsThresholds(f, th) && HoldsCurves(f, b1, b2, lower, gap)
      invariant done <==> (j < f.end && Served(f, want, j))
      invariant psum == Sum(g, j, f.end)
      invariant forall k | j <= k < f.end :: bits[k] == g[k]
    {
      j := j - 1;
      var tmp := b1[j] + lo * b2[j] / 64;
      assert tmp == want[j];
      if tmp < th[j] && !done {
        tmp := if tmp >= f.Floor() then f.Floor() else 0;
      } else {
        done := true;
      }
      tmp := Min(tmp, f.cap[j]);
      bits[j] := tmp;
      psum := psum + tmp;
    }
  }

  // ---------------------------------------------------------------- the skip loop

  /** The bits of the bands the loop works on. */
  ghost predicate HoldsBits(f: Frame, bits: array<int>, held: seq<int>)
    reads bits
    requires f.Valid() && |held| == f.mode.Bands()
  {
    bits.Length == f.mode.Bands() && forall j | f.start <= j < f.end :: bits[j] == held[j]
  }

  method SkipBands(f: Frame, skipStart: int, skipReserve: int, policy: Policy, ghost s0: Skipping,
                   ghost budget: int, psum0: int, total0: int, reserve0: int, bits: array<int>, c0: Coder)
    returns (coded: int, psum: int, total: int, reserve: int, c: Coder)
    requires SkipShape(f, skipStart, s0) && SkipInv(f, budget, skipReserve, s0) && s0.coded == f.end
    requires s0.psum == psum0 && s0.total == total0 && s0.reserve == reserve0 && HoldsBits(f, bits, s0.bits)
    modifies bits
    ensures var (s, c') := Skip(f, skipStart, skipReserve, policy, s0, c0);
            && coded == s.coded && psum == s.psum && total == s.total && reserve == s.reserve && c == c'
            && HoldsBits(f, bits, s.bits)
  {
    hide SkipInv, BandBits, FlagThreshold, Policy.Keeps, CodeBit, Mode.Valid, SkipBand, HoldsBits;
    ghost var s := s0;
    coded, psum, total, reserve, c := f.end, psum0, total0, reserve0, c0;
    while true
      invariant SkipShape(f, skipStart, s) && SkipInv(f, budget, skipReserve, s)
      invariant s.coded == coded && s.psum == psum && s.total == total && s.reserve == reserve
      invariant HoldsBits(f, bits, s.bits)
      invariant Skip(f, skipStart, skipReserve, policy, s, c) == Skip(f, skipStart, skipReserve, policy, s0, c0)
      decreases coded
    {
      var j := coded - 1;
      if j <= skipStart {
        total := total + skipReserve;
        s := s.(total := total);
        break;
      }
      SkipInvFacts(f, budget, skipReserve, s);
      var bandBits := TopBandBits(f, s, coded, psum, total, bits);
      var keep, flagged;
      keep, flagged, bandBits, psum, c := SignalSkip(f, policy, coded, bandBits, psum, c);
      if keep {
        s := s.(flags := s.flags + 1);
        break;
      }
      SkipBandKeeps(f, budget, skipReserve, s, flagged);
      psum, reserve := Reclaim(f, s, flagged, j, bandBits, psum, reserve, bits);
      s, coded := SkipBand(f, s, bandBits, flagged), j;
    }
  }

  /** A band above the threshold has a flag: to keep it, or to skip it at the cost of a bit. */
  method SignalSkip(f: Frame, policy: Policy, coded: int, bandBits0: int, psum0: int, c0: Coder)
    returns (keep: bool, flagged: bool, bandBits: int, psum: int, c: Coder)
    requires f.Valid() && f.start < coded <= f.end
    ensures bandBits0 < FlagThreshold(f, coded - 1) ==> c == c0 && !keep && !flagged
    ensures bandBits0 >= FlagThreshold(f, coded - 1) ==>
      var (c', v) := CodeBit(c0, if policy.Keeps(f, coded, bandBits0) then 1 else 0, 1);
      c == c' && keep == (v != 0) && flagged == (v == 0)
    ensures bandBits == bandBits0 - (if flagged then BIT else 0)
    ensures psum == psum0 + if flagged then BIT else 0
  {
    keep, flagged, bandBits, psum, c := false, false, bandBits0, psum0, c0;
    if bandBits >= FlagThreshold(f, coded - 1) {
      var r := CodeBit(c, if policy.Keeps(f, coded, bandBits) then 1 else 0, 1);
      c, keep := r.0, r.1 != 0;
      if !keep {
        flagged := true;
        psum := psum + BIT;
        bandBits := bandBits - BIT;
      }
    }
  }

  lemma SkipInvFacts(f: Frame, budget: int, skipReserve: int, s: Skipping)
    requires SkipInv(f, budget, skipReserve, s)
    ensures s.psum <= s.total
  {
  }

  /** What the top coded band has once the left-over is spread over the coded bands. */
  method TopBandBits(f: Frame, ghost s: Skipping, coded: int, psum: int, total: int, bits: array<int>) returns (bandBits: int)
    requires SkipShape(f, f.start, s) && s.coded == coded && s.psum == psum && s.total == total
    requires HoldsBits(f, bits, s.bits) && psum <= total
    ensures bandBits == BandBits(f, s)
  {
    var e := f.mode.eBands;
    var j := coded - 1;
    var left := total - psum;
    var per := UDiv(left, e[coded] - e[f.start]);
    left := left - (e[coded] - e[f.start]) * per;
    var rem := Max(left - (e[j] - e[f.start]), 0);
    bandBits := bits[j] + per * (e[coded] - e[j]) + rem;
  }

  /** Reclaims the bits of the top coded band, keeping a fine-energy bit per channel if
      there is room.  The flag, if any, is already in `psum0` and out of `bandBits`. */
  method Reclaim(f: Frame, ghost s: Skipping, ghost flagged: bool, j: int, bandBits: int, psum0: int, reserve0: int, bits: array<int>)
    returns (psum: int, reserve: int)
    requires SkipShape(f, f.start, s) && s.coded == j + 1 && f.start < j && HoldsBits(f, bits, s.bits)
    requires psum0 == s.psum + (if flagged then BIT else 0) && reserve0 == s.reserve
    modifies bits
    ensures var t := SkipBand(f, s, bandBits, flagged);
            psum == t.psum && reserve == t.reserve && HoldsBits(f, bits, t.bits)
  {
    assert j - f.start < |LOG2_FRAC|;
    hide Mode.Valid;
    psum, reserve := psum0 - (bits[j] + reserve0), reserve0;
    if reserve > 0 {
      reserve := LOG2_FRAC[j - f.start];
    }
    psum := psum + reserve;
    if bandBits >= f.Floor() {
      psum := psum + f.Floor();
      bits[j] := f.Floor();
    } else {
      bits[j] := 0;
    }
  }

  // ---------------------------------------------------------------- spreading and splitting

  /** An even share per coefficient, then the remainder from the bottom band up. */
  method SpreadLeft(f: Frame, ghost s: Skipping, coded: int, left0: int, bits: array<int>)
    requires SkipShape(f, f.start, s) && s.coded == coded && HoldsBits(f, bits, s.bits) && left0 >= 0
    modifies bits
    ensures HoldsBits(f, bits, Spread(f, s, left0))
  {
    var whole := f.mode.eBands[coded] - f.mode.eBands[f.start];
    DivideLeft(left0, whole);
    var per := UDiv(left0, whole);
    hide UDiv, Extra, Mode.Valid;
    EvenShares(f, coded, per, bits);
    Remainder(f, coded, left0 - whole * per, bits);
  }

  method EvenShares(f: Frame, coded: int, per: int, bits: array<int>)
    requires f.Valid() && f.start < coded <= f.end && bits.Length == f.mode.Bands()
    modifies bits
    ensures forall k | f.start <= k < coded :: bits[k] == old(bits[k]) + per * f.mode.Width(k)
    ensures forall k | coded <= k < f.end :: bits[k] == old(bits[k])
  {
    for j := f.start to coded
      invariant forall k | f.start <= k < j :: bits[k] == old(bits[k]) + per * f.mode.Width(k)
      invariant forall k | j <= k < f.end :: bits[k] == old(bits[k])
    {
      bits[j] := bits[j] + per * f.mode.Width(j);
    }
  }

  method Remainder(f: Frame, coded: int, rem: int, bits: array<int>)
    requires f.Valid() && f.start < coded <= f.end && bits.Length == f.mode.Bands() && rem >= 0
    modifies bits
    ensures forall k | f.start <= k < coded :: bits[k] == old(bits[k]) + Extra(f, rem, k)
    ensures forall k | coded <= k < f.end :: bits[k] == old(bits[k])
  {
    var left := rem;
    for j := f.start to coded
      invariant left == Max(rem - (f.mode.eBands[j] - f.mode.eBands[f.start]), 0)
      invariant forall k | f.start <= k < j :: bits[k] == old(bits[k]) + Extra(f, rem, k)
      invariant forall k | j <= k < f.end :: bits[k] == old(bits[k])
    {
      assert f.mode.eBands[f.start] <= f.mode.eBands[j] < f.mode.eBands[j + 1];
      var tmp := Min(left, f.mode.Width(j));
      bits[j] := bits[j] + tmp;
      left := left - tmp;
    }
  }

  /** One coded band, split in place. */
  method SplitBand(f: Frame, j: int, intensity: int, dual: nat, balance0: int,
                   bits: array<int>, ebits: array<int>, priority: array<int>) returns (balance: int)
    requires f.Valid() && 0 <= j < f.mode.Bands() == bits.Length == ebits.Length == priority.Length
    requires bits != ebits && bits != priority && ebits != priority
    modifies bits, ebits, priority
    ensures Fine(bits[j], ebits[j], priority[j], balance) == FineBand(f, intensity, dual, j, old(bits[j]), balance0)
    ensures forall k | 0 <= k < bits.Length && k != j ::
      bits[k] == old(bits[k]) && ebits[k] == old(ebits[k]) && priority[k] == old(priority[k])
  {
    assert j < |f.cap|;
    hide Mode.Valid, Frame.Valid, Freedom, Power2, WideFine, Rebalance;
    var n := f.mode.Width(j) * Power2(f.lm);
    var bit := bits[j] + balance0;
    var excess: int;
    if n > 1 {
      excess := Max(bit - f.cap[j], 0);
      bits[j] := bit - excess;
      SplitWide(f, j, Freedom(f, intensity, dual, j, n), excess, bits, ebits, priority);
    } else {
      excess := Max(0, bit - f.channels * 8);
      bits[j] := bit - excess;
      ebits[j] := 0;
      priority[j] := 1;
    }
    balance := GiveExcess(f, j, excess, balance0, bits, ebits, priority);
  }

  method SplitWide(f: Frame, j: int, den: int, ghost excess: int,
                   bits: array<int>, ebits: array<int>, priority: array<int>)
    requires f.Valid() && 0 <= j < f.mode.Bands() == bits.Length == ebits.Length == priority.Length && den > 0
    requires bits != ebits && bits != priority && ebits != priority
    modifies bits, ebits, priority
    ensures Fine(bits[j], ebits[j], priority[j], excess) == WideFine(f, j, old(bits[j]), den, excess)
    ensures forall k | 0 <= k < bits.Length && k != j ::
      bits[k] == old(bits[k]) && ebits[k] == old(ebits[k]) && priority[k] == old(priority[k])
  {
    hide Mode.Valid, Frame.Valid, FineOffset, UDiv, Shift;
    var offset := FineOffset(f, j, bits[j], den);
    ebits[j] := Max(0, bits[j] + offset + den * 4);
    ebits[j] := UDiv(ebits[j], den) / 8;
    if f.channels * ebits[j] > bits[j] / 8 {
      ebits[j] := Shift(f, bits[j]);
    }
    ebits[j] := Min(ebits[j], MAX_FINE_BITS);
    priority[j] := if ebits[j] * (den * 8) >= bits[j] + offset then 1 else 0;
    bits[j] := bits[j] - f.channels * ebits[j] * 8;
  }

  method GiveExcess(f: Frame, j: int, excess0: int, balance0: int,
                    bits: array<int>, ebits: array<int>, priority: array<int>) returns (balance: int)
    requires f.Valid() && 0 <= j < f.mode.Bands() == bits.Length == ebits.Length == priority.Length
    requires bits != ebits && bits != priority && ebits != priority
    modifies ebits, priority
    ensures Fine(bits[j], ebits[j], priority[j], balance)
         == Rebalance(f, Fine(bits[j], old(ebits[j]), old(priority[j]), excess0), balance0)
    ensures forall k | 0 <= k < ebits.Length && k != j :: ebits[k] == old(ebits[k]) && priority[k] == old(priority[k])
  {
    hide Mode.Valid, Frame.Valid, Shift;
    var excess := excess0;
    if excess > 0 {
      var extra := Min(Shift(f, excess), MAX_FINE_BITS - ebits[j]);
      ebits[j] := ebits[j] + extra;
      var taken := extra * f.channels * 8;
      priority[j] := if taken >= excess - balance0 then 1 else 0;
      excess := excess - taken;
    }
    balance := excess;
  }

  /** The arrays hold these bands. */
  ghost predicate HoldsBands(f: Frame, bits: array<int>, ebits: array<int>, priority: array<int>, bands: seq<Fine>)
    reads bits, ebits, priority
    requires f.Valid() && f.start + |bands| <= f.mode.Bands() == bits.Length == ebits.Length == priority.Length
  {
    forall i | 0 <= i < |bands| ::
      bits[f.start + i] == bands[i].pulses && ebits[f.start + i] == bands[i].ebits && priority[f.start + i] == bands[i].priority
  }

  method SplitBands(f: Frame, ghost s: Skipping, ghost spread: seq<int>, coded: int, intensity: int, dual: nat,
                    bits: array<int>, ebits: array<int>, priority: array<int>) returns (balance: int)
    requires SkipShape(f, f.start, s) && s.coded == coded && |spread| == f.mode.Bands() && HoldsBits(f, bits, spread)
    requires forall j | coded <= j < f.end :: spread[j] == s.bits[j]
    requires ebits.Length == priority.Length == f.mode.Bands()
    requires bits != ebits && bits != priority && ebits != priority
    modifies bits, ebits, priority
    ensures var (bands, b) := FineBands(f, intensity, dual, spread, coded);
            && balance == b
            && HoldsBands(f, bits, ebits, priority,
                 bands + seq(f.end - coded, i requires 0 <= i < f.end - coded => SkippedBand(f, s.bits[coded + i])))
  {
    hide FineBand, Mode.Valid;
    balance := 0;
    var j := f.start;
    while j < coded
      invariant f.start <= j <= coded
      invariant HoldsBands(f, bits, ebits, priority, FineBands(f, intensity, dual, spread, j).0)
      invariant balance == FineBands(f, intensity, dual, spread, j).1
      invariant forall k | j <= k < f.end :: bits[k] == spread[k]
    {
      balance := SplitBand(f, j, intensity, dual, balance, bits, ebits, priority);
      j := j + 1;
    }
    ghost var bands := FineBands(f, intensity, dual, spread, coded).0;
    while j < f.end
      invariant coded <= j <= f.end
      invariant HoldsBands(f, bits, ebits, priority, bands)
      invariant forall k | coded <= k < f.end ::
        if k < j then Fine(bits[k], ebits[k], priority[k], 0) == SkippedBand(f, s.bits[k]) else bits[k] == s.bits[k]
    {
      ebits[j] := Shift(f, bits[j]);
      bits[j] := 0;
      priority[j] := if ebits[j] < 1 then 1 else 0;
      j := j + 1;
    }
  }

  // ---------------------------------------------------------------- the entry points

  /** The six halvings. */
  method BisectMix(f: Frame, ghost lower: seq<int>, ghost gap: seq<int>, b1: array<int>, b2: array<int>, th: array<int>, total: int)
    returns (lo: int)
    requires f.Valid() && HoldsCurves(f, b1, b2, lower, gap) && HoldsThresholds(f, th)
    ensures lo == MixSearch(f, lower, gap, total, 0, 64, ALLOC_STEPS)
  {
    hide TotalCharge, Mode.Valid;
    var hi := 64;
    lo := 0;
    for i := 0 to ALLOC_STEPS
      invariant MixSearch(f, lower, gap, total, lo, hi, ALLOC_STEPS - i) == MixSearch(f, lower, gap, total, 0, 64, ALLOC_STEPS)
    {
      var mid := (lo + hi) / 2;
      var psum := MixCharge(f, lower, gap, b1, b2, th, mid);
      if psum > total { hi := mid; } else { lo := mid; }
    }
  }

  /** The intensity and dual-stereo parameters. */
  method CodeParameters(f: Frame, ghost s: Skipping, coded: int, total0: int, reserve: int, dualReserve0: int,
                        intensity0: int, dual0: nat, c0: Coder)
    returns (intensity: int, dual: nat, total: int, c: Coder, ghost st: Stereo)
    requires SkipShape(f, f.start, s) && dual0 <= 1
    requires s.coded == coded && s.total == total0 && s.reserve == reserve
    requires c0.Encoding? && reserve > 0 ==> f.start <= intensity0
    ensures var (t, c') := CodeStereo(f, s, dualReserve0, intensity0, dual0, c0);
            st == t && c == c' && intensity == t.intensity && dual == t.dual && total == t.total
  {
    hide Mode.Valid, CodeBit, CodeUniform;
    var dualReserve := dualReserve0;
    total, c := total0, c0;
    if reserve > 0 {
      var r := CodeUniform(c, if c.Encoding? then Min(intensity0, coded) - f.start else 0, coded + 1 - f.start);
      c, intensity := r.0, f.start + r.1;
    } else {
      intensity := 0;
    }
    if intensity <= f.start {
      total := total + dualReserve;
      dualReserve := 0;
    }
    if dualReserve > 0 {
      var r := CodeBit(c, dual0, 1);
      c, dual := r.0, r.1;
    } else {
      dual := 0;
    }
    st := Stereo(intensity, dual, total, dualReserve);
  }

  /** interpBits2pulses: everything after the row search. */
  method InterpBits2Pulses(f: Frame, ghost lower: seq<int>, ghost gap: seq<int>, ghost s0: Skipping, skipStart: int, b1: array<int>, b2: array<int>, th: array<int>,
                           rsv: Reserved, ghost budget: int, intensity0: int, dual0: nat, policy: Policy, c0: Coder,
                           bits: array<int>, ebits: array<int>, priority: array<int>)
    returns (coded: int, intensity: int, dual: nat, balance: int, c: Coder, ghost s: Skipping, ghost st: Stereo)
    requires f.Valid() && f.start <= skipStart && dual0 <= 1 && HoldsThresholds(f, th)
    requires HoldsCurves(f, b1, b2, lower, gap)
    requires bits.Length == ebits.Length == priority.Length == f.mode.Bands()
    requires bits != b1 && bits != b2 && bits != th && bits != ebits && bits != priority && ebits != priority
    requires s0.bits == Granted(f, Mix(lower, gap, MixSearch(f, lower, gap, rsv.total, 0, 64, ALLOC_STEPS)))
    requires s0 == Skipping(f.end, Sum(s0.bits, f.start, f.end), rsv.total, rsv.intensity, s0.bits, 0)
    requires Starts(f, budget, rsv, s0)
    requires c0.Encoding? && rsv.intensity > 0 ==> f.start <= intensity0
    modifies bits, ebits, priority
    ensures SkipShape(f, skipStart, s0) && s == Skip(f, skipStart, rsv.skip, policy, s0, c0).0
    ensures c0.Encoding? && s.reserve > 0 ==> f.start <= intensity0
    ensures (st, c) == CodeStereo(f, s, rsv.dual, intensity0, dual0, Skip(f, skipStart, rsv.skip, policy, s0, c0).1)
    ensures coded == s.coded && intensity == st.intensity && dual == st.dual
    ensures balance == Finish(f, s, st).balance
    ensures HoldsBands(f, bits, ebits, priority, Finish(f, s, st).bands)
  {
    hide Mode.Valid, Granted, MixSearch, Mix, Sum, Skip, SkipInv, SkipDone, CodeStereo, Spread, FineBands, HoldsBits, HoldsBands;
    assert Starts(f, budget, rsv, s0);
    var lo := BisectMix(f, lower, gap, b1, b2, th, rsv.total);
    var psum := GrantBands(f, lower, gap, b1, b2, th, lo, bits);
    GrantsHeld(f, bits, s0.bits);
    var total, reserve;
    SkipLedger(f, budget, skipStart, rsv.skip, policy, s0, c0);
    ReserveStaysZero(f, skipStart, rsv.skip, policy, s0, c0);
    s := Skip(f, skipStart, rsv.skip, policy, s0, c0).0;
    coded, psum, total, reserve, c := SkipBands(f, skipStart, rsv.skip, policy, s0, budget, psum, rsv.total, rsv.intensity, bits, c0);
    intensity, dual, total, c, st := CodeParameters(f, s, coded, total, reserve, rsv.dual, intensity0, dual0, c);
    SomethingLeft(f, budget, s, rsv.dual, intensity0, dual0, Skip(f, skipStart, rsv.skip, policy, s0, c0).1);
    SpreadLeft(f, s, coded, total - psum, bits);
    SpreadLeavesSkipped(f, s, total - psum);
    balance := SplitBands(f, s, Spread(f, s, total - psum), coded, intensity, dual, bits, ebits, priority);
  }

  lemma GrantsHeld(f: Frame, bits: array<int>, held: seq<int>)
    requires f.Valid() && |held| == f.mode.Bands() == bits.Length
    requires forall j | f.start <= j < f.end :: bits[j] == held[j]
    ensures HoldsBits(f, bits, held)
  {
  }

  lemma SomethingLeft(f: Frame, budget: int, s: Skipping, dualReserve: int, intensity: int, dual: nat, c: Coder)
    requires SkipDone(f, budget, s) && dualReserve >= 0 && dual <= 1
    requires c.Encoding? && s.reserve > 0 ==> f.start <= intensity
    ensures CodeStereo(f, s, dualReserve, intensity, dual, c).0.total >= s.psum
  {
  }

  lemma SpreadLeavesSkipped(f: Frame, s: Skipping, left: int)
    requires SkipShape(f, f.start, s)
    ensures forall j | s.coded <= j < f.end :: Spread(f, s, left)[j] == s.bits[j]
  {
  }

  method Thresholds(f: Frame, trim: int) returns (th: array<int>, trimOffset: array<int>)
    requires f.Valid()
    ensures fresh(th) && fresh(trimOffset) && th != trimOffset
    ensures HoldsThresholds(f, th) && HoldsTrim(f, trim, trimOffset)
  {
    th := new int[f.mode.Bands()];
    trimOffset := new int[f.mode.Bands()];
    for j := f.start to f.end
      invariant forall k | f.start <= k < j :: th[k] == Threshold(f, k) && trimOffset[k] == TrimOffset(f, trim, k)
    {
      th[j] := Max(f.Floor(), 3 * f.mode.Width(j) * Power2(f.lm) * BIT / 16);
      var t := f.channels * f.mode.Width(j) * (trim - 5 - f.lm) * (f.end - j - 1) * (Power2(f.lm) * BIT) / 64;
      trimOffset[j] := t - if f.mode.Width(j) * Power2(f.lm) == 1 then f.Floor() else 0;
    }
  }

  /** The row search: the source's do-while over a closing bracket. */
  method BisectRows(f: Frame, trim: int, offsets: seq<int>, th: array<int>, trimOffset: array<int>, total: int) returns (lo: int)
    requires f.Valid() && |offsets| == f.mode.Bands() && HoldsThresholds(f, th) && HoldsTrim(f, trim, trimOffset)
    ensures lo == RowSearch(f, trim, offsets, total, 1, |f.mode.allocVectors| - 1)
  {
    hide TotalCharge, Demand;
    var hi := |f.mode.allocVectors| - 1;
    lo := 1;
    ghost var r := RowSearch(f, trim, offsets, total, 1, hi);
    while true
      invariant 1 <= lo <= hi < |f.mode.allocVectors|
      invariant RowSearch(f, trim, offsets, total, lo, hi) == r
      decreases hi - lo
    {
      var mid := (lo + hi) / 2;
      var psum := RowCharge(f, trim, offsets, th, trimOffset, mid);
      if psum > total { hi := mid - 1; } else { lo := mid + 1; }
      if !(lo <= hi) { break; }
    }
    lo := lo - 1;
  }

  /** The two ends of the interpolation, and the last boosted band. */
  method Curves(f: Frame, trim: int, offsets: seq<int>, trimOffset: array<int>, lo: int)
    returns (b1: array<int>, b2: array<int>, skipStart: int)
    requires f.Valid() && |offsets| == f.mode.Bands() && HoldsTrim(f, trim, trimOffset)
    requires 0 <= lo < |f.mode.allocVectors|
    ensures fresh(b1) && fresh(b2) && b1 != b2
    ensures HoldsCurves(f, b1, b2, Lower(f, trim, offsets, lo), Gap(f, trim, offsets, lo))
    ensures skipStart == SkipStart(f, offsets, f.end)
  {
    hide Lower, Gap, Curve, CapCurve, TrimOffset, Mode.Valid;
    b1 := new int[f.mode.Bands()];
    b2 := new int[f.mode.Bands()];
    skipStart := f.start;
    for j := f.start to f.end
      invariant HoldsTrim(f, trim, trimOffset) && skipStart == SkipStart(f, offsets, j)
      invariant forall k | f.start <= k < j ::
        b1[k] == Lower(f, trim, offsets, lo)[k] && b2[k] == Gap(f, trim, offsets, lo)[k]
    {
      var low, high := CurvePair(f, trim, trimOffset[j], lo, j);
      if lo > 0 { low := low + offsets[j]; }
      high := high + offsets[j];
      if offsets[j] > 0 { skipStart := j; }
      CurvesAt(f, trim, offsets, lo, j);
      b1[j] := low;
      b2[j] := Max(0, high - low);
    }
  }

  lemma CurvesAt(f: Frame, trim: int, offsets: seq<int>, lo: int, j: int)
    requires f.Valid() && |offsets| == f.mode.Bands() && f.start <= j < f.end && 0 <= lo < |f.mode.allocVectors|
    ensures Lower(f, trim, offsets, lo)[j] == Curve(f, trim, lo, j) + if lo > 0 then offsets[j] else 0
    ensures var upper := if lo + 1 >= |f.mode.allocVectors| then CapCurve(f, trim, j) else Curve(f, trim, lo + 1, j);
            Gap(f, trim, offsets, lo)[j] == Max(0, upper + offsets[j] - Lower(f, trim, offsets, lo)[j])
  {
    hide Curve, CapCurve, Mode.Valid;
  }

  method CurvePair(f: Frame, trim: int, tilt: int, lo: int, j: int) returns (low: int, high: int)
    requires f.Valid() && f.start <= j < f.end && 0 <= lo < |f.mode.allocVectors| && tilt == TrimOffset(f, trim, j)
    ensures low == Curve(f, trim, lo, j)
    ensures high == if lo + 1 >= |f.mode.allocVectors| then CapCurve(f, trim, j) else Curve(f, trim, lo + 1, j)
  {
    hide TrimOffset;
    var hi := lo + 1;
    assert |f.mode.allocVectors[lo]| == f.mode.Bands();
    low := f.channels * f.mode.Width(j) * f.mode.allocVectors[lo][j] * Power2(f.lm) / 4;
    if hi >= |f.mode.allocVectors| {
      high := f.cap[j];
    } else {
      assert |f.mode.allocVectors[hi]| == f.mode.Bands();
      high := f.channels * f.mode.Width(j) * f.mode.allocVectors[hi][j] * Power2(f.lm) / 4;
    }
    if low > 0 { low := Max(0, low + tilt); }
    if high > 0 { high := Max(0, high + tilt); }
  }

  /** cltComputeAllocation: fills pulses, ebits and priority for bands [start, end). */
  method ComputeAllocation(f: Frame, trim: int, offsets: seq<int>, intensity0: int, dual0: nat, total: int,
                           policy: Policy, c0: Coder,
                           pulses: array<int>, ebits: array<int>, priority: array<int>)
    returns (coded: int, intensity: int, dual: nat, balance: int, c: Coder)
    requires f.Valid() && |offsets| == f.mode.Bands() && dual0 <= 1
    requires forall j | 0 <= j < |offsets| :: offsets[j] >= 0
    requires c0.Encoding? && f.channels == 2 ==> f.start <= intensity0
    requires pulses.Length == ebits.Length == priority.Length == f.mode.Bands()
    requires pulses != ebits && pulses != priority && ebits != priority
    modifies pulses, ebits, priority
    ensures var (o, c') := Allocate(f, trim, offsets, total, intensity0, dual0, policy, c0);
            && c == c' && coded == o.alloc.coded && intensity == o.alloc.intensity && dual == o.alloc.dual
            && balance == o.alloc.balance && HoldsBands(f, pulses, ebits, priority, o.alloc.bands)
    ensures forall j | f.start <= j < f.end && offsets[j] > 0 :: j < coded
  {
    hide Finish, Skip, CodeStereo, HoldsBands, Reserve, Granted, Mix, MixSearch, RowSearch, Lower, Gap, SkipStart,
      HoldsTrim, HoldsThresholds, HoldsCurves, SkipInv, SkipDone, Sum, Mode.Valid;
    forall j | f.start <= j < f.end && offsets[j] > 0 ensures j < Allocate(f, trim, offsets, total, intensity0, dual0, policy, c0).0.alloc.coded {
      RateLaws.BoostedAreCoded(f, trim, offsets, total, intensity0, dual0, policy, c0, j);
    }
    var rsv := Reserve(f, total);
    var th, trimOffset := Thresholds(f, trim);
    var lo := BisectRows(f, trim, offsets, th, trimOffset, rsv.total);
    var b1, b2, skipStart := Curves(f, trim, offsets, trimOffset, lo);
    ghost var s, st;
    StartsSound(f, trim, offsets, total);
    coded, intensity, dual, balance, c, s, st :=
      InterpBits2Pulses(f, Lower(f, trim, offsets, lo), Gap(f, trim, offsets, lo), Initial(f, trim, offsets, rsv),
                        skipStart, b1, b2, th, rsv, Max(total, 0) - rsv.dual, intensity0, dual0, policy, c0,
                        pulses, ebits, priority);
  }

  // ---------------------------------------------------------------- the frozen mode

  /** mode48000_960: the one mode the codec is built with. */
  const MODE_48000_960: Mode := Mode(
    [0, 1, 2, 3, 4, 5, 6, 7, 8, 10, 12, 14, 16, 20, 24, 28, 34, 40, 48, 60, 78, 100],
    [0, 0, 0, 0, 0, 0, 0, 0, 8, 8, 8, 8, 16, 16, 16, 21, 21, 24, 29, 34, 36],
    [
      [0, 0, 0, 0, 0, 0, 0, 0, 0, 0, 0, 0, 0, 0, 0, 0, 0, 0, 0, 0, 0],
      [90, 80, 75, 69, 63, 56, 49, 40, 34, 29, 20, 18, 10, 0, 0, 0, 0, 0, 0, 0, 0],
      [110, 100, 90, 84, 78, 71, 65, 58, 51, 45, 39, 32, 26, 20, 12, 0, 0, 0, 0, 0, 0],
      [118, 110, 103, 93, 86, 80, 75, 70, 65, 59, 53, 47, 40, 31, 23, 15, 4, 0, 0, 0, 0],
      [126, 119, 112, 104, 95, 89, 83, 78, 72, 66, 60, 54, 47, 39, 32, 25, 17, 12, 1, 0, 0],
      [134, 127, 120, 114, 103, 97, 91, 85, 78, 72, 66, 60, 54, 47, 41, 35, 29, 23, 16, 10, 1],
      [144, 137, 130, 124, 113, 107, 101, 95, 88, 82, 76, 70, 64, 57, 51, 45, 39, 33, 26, 15, 1],
      [152, 145, 138, 132, 123, 117, 111, 105, 98, 92, 86, 80, 74, 67, 61, 55, 49, 43, 36, 20, 1],
      [162, 155, 148, 142, 133, 127, 121, 115, 108, 102, 96, 90, 84, 77, 71, 65, 59, 53, 46, 30, 1],
      [172, 165, 158, 152, 143, 137, 131, 125, 118, 112, 106, 100, 94, 87, 81, 75, 69, 63, 56, 45, 20],
      [200, 200, 200, 200, 200, 200, 200, 200, 198, 193, 188, 183, 178, 173, 168, 163, 158, 153, 148, 129, 104]
    ])

  lemma FrozenModeIsValid()
    ensures MODE_48000_960.Valid() && MODE_48000_960.Bands() == 21
  {
    FrozenBandEdges();
    FrozenRows();
    hide MODE_48000_960;
  }

  lemma FrozenBandEdges()
    ensures var e := MODE_48000_960.eBands;
            |e| == 22 && |MODE_48000_960.logN| == 21 && forall i, j | 0 <= i < j < |e| :: e[i] < e[j]
  {
    Increasing(MODE_48000_960.eBands);
  }

  lemma FrozenRows()
    ensures var rows := MODE_48000_960.allocVectors;
            && |rows| == 11 && (forall q | 0 <= q < |rows| :: |rows[q]| == 21)
            && (forall q, j | 0 <= q < |rows| && 0 <= j < 21 :: 0 <= rows[q][j])
            && forall j | 0 <= j < 21 :: rows[0][j] == 0
  {
  }

  lemma {:induction false} Increasing(e: seq<int>)
    requires forall i | 0 <= i < |e| - 1 :: e[i] < e[i + 1]
    ensures forall i, j | 0 <= i < j < |e| :: e[i] < e[j]
  {
    if |e| > 1 {
      Increasing(e[1..]);
      forall i, j | 0 <= i < j < |e| ensures e[i] < e[j] {
        if i > 0 {
          assert e[1..][i - 1] < e[1..][j - 1];
        } else if j > 1 {
          assert e[1..][0] < e[1..][j - 1];
        }
      }
    }
  }
}
