/** What the allocation promises a band, besides that the bits add up: boosted bands are coded, skipping
    follows the policy, what is left is spread evenly, and fine bits are a rounded share. */
module RateLaws {
  import opened Rate
  import opened RangeCoder

  // ---------------------------------------------------------------- which bands are coded

  lemma {:induction false} SkipStartAbove(f: Frame, offsets: seq<int>, j: int, i: int)
    requires f.Valid() && |offsets| == f.mode.Bands() && f.start <= i < j <= f.end && offsets[i] > 0
    ensures SkipStart(f, offsets, j) >= i
    decreases j
  {
    hide Mode.Valid;
    if i < j - 1 { SkipStartAbove(f, offsets, j - 1, i); }
  }

  /** The loop ends on a band at or above the bound; above it, on one worth a flag that the encoder's
      policy keeps. */
  lemma {:induction false} SkipEndsOn(f: Frame, skipStart: int, skipReserve: int, policy: Policy, s: Skipping, c: Coder)
    requires SkipShape(f, skipStart, s) && skipStart < s.coded
    ensures var (t, _) := Skip(f, skipStart, skipReserve, policy, s, c);
            && skipStart < t.coded <= s.coded
            && (t.coded - 1 > skipStart ==> BandBits(f, t) >= FlagThreshold(f, t.coded - 1) && (c.Encoding? ==> policy.Keeps(f, t.coded, BandBits(f, t))))
    decreases s.coded
  {
    hide FlagThreshold, SkipBand, Policy.Keeps, Mode.Valid;
    if s.coded - 1 > skipStart {
      var bandBits := BandBits(f, s);
      if bandBits >= FlagThreshold(f, s.coded - 1) {
        var (c', keep) := CodeBit(c, if policy.Keeps(f, s.coded, bandBits) then 1 else 0, 1);
        if keep != 0 {
          SameBits(f, s, s.flags + 1);
        } else {
          SkipEndsOn(f, skipStart, skipReserve, policy, SkipBand(f, s, bandBits - BIT, true), c');
        }
      } else {
        SkipEndsOn(f, skipStart, skipReserve, policy, SkipBand(f, s, bandBits, false), c);
      }
    }
  }

  lemma SameBits(f: Frame, s: Skipping, flags: nat)
    requires SkipShape(f, f.start, s)
    ensures BandBits(f, s.(flags := flags)) == BandBits(f, s)
  {
  }

  /** A band that dynalloc has boosted is never skipped, in either direction, under any policy. */
  lemma BoostedAreCoded(f: Frame, trim: int, offsets: seq<int>, total: int, intensity: int, dual: nat, policy: Policy, c: Coder, j: int)
    requires f.Valid() && |offsets| == f.mode.Bands() && dual <= 1
    requires c.Encoding? && f.channels == 2 ==> f.start <= intensity
    requires f.start <= j < f.end && offsets[j] > 0
    ensures j < Allocate(f, trim, offsets, total, intensity, dual, policy, c).0.alloc.coded
  {
    hide Skip, Initial, Reserve, Finish, CodeStereo, SkipStart;
    SkipStartAbove(f, offsets, f.end, j);
    SkipEndsOn(f, SkipStart(f, offsets, f.end), Reserve(f, total).skip, policy, Initial(f, trim, offsets, Reserve(f, total)), c);
  }

  /** The policy's hysteresis: past the first two bands, a band is kept only up to the bandwidth; up to
      band 16 with any bits at all; above, with more than 7/16 of a bit for each coefficient if the
      frame before kept it, 9/16 if not. */
  lemma PolicyKeeps(policy: Policy, f: Frame, coded: int, bandBits: int)
    requires f.Valid() && f.start < coded <= f.end
    ensures var n := f.mode.Width(coded - 1) * Power2(f.lm);
            policy.Keeps(f, coded, bandBits) <==>
              coded - f.start <= 2
              || (coded - 1 <= policy.bandwidth
                  && if coded <= 17 then bandBits > 0 else if coded - 1 < policy.previous then 2 * bandBits > 7 * n else 2 * bandBits > 9 * n)
  {
    hide Power2;
    Depth(0, f.mode.Width(coded - 1), Power2(f.lm));
    Depth(7, f.mode.Width(coded - 1), Power2(f.lm));
    Depth(9, f.mode.Width(coded - 1), Power2(f.lm));
  }

  lemma Depth(d: int, w: int, p: int)
    ensures d * w * p * BIT / 16 == d * (w * p) / 2
  {
    assert d * w * p == d * (w * p);
  }

  // ---------------------------------------------------------------- stereo parameters

  /** An encoder with the bits reserved codes its intensity, but not past the coded bands, and its dual
      flag, unless intensity starts at the first band. */
  lemma StereoAsChosen(f: Frame, s: Skipping, dualReserve: int, intensity: int, dual: nat, c: Coder)
    requires SkipShape(f, f.start, s) && dual <= 1 && c.Encoding?
    requires s.reserve > 0 ==> f.start <= intensity
    ensures var (st, c') := CodeStereo(f, s, dualReserve, intensity, dual, c);
            && st.intensity == (if s.reserve > 0 then Min(intensity, s.coded) else 0)
            && st.dual == (if s.reserve > 0 && intensity > f.start && dualReserve > 0 then dual else st.dual)
            && (st.intensity <= f.start || dualReserve <= 0 ==> st.dual == 0)
            && (s.reserve > 0 ==> |c'.written| > |c.written| && c'.written[|c.written|] == Uniform(st.intensity - f.start, s.coded + 1 - f.start))
  {
  }

  // ---------------------------------------------------------------- fine bits

  function Levels(e: int, den: int): (b: int) { e * (den * 8) }

  /** The share of fine energy: half a bit for each doubling of a band's size, less 21 eighths, for each
      degree of freedom; a quarter of a bit more at two coefficients, and for each doubling a quarter
      more of a bit for the second fine bit, an eighth for the third. */
  lemma FineShareIs(f: Frame, j: int, b: int, den: int)
    requires f.Valid() && 0 <= j < f.mode.Bands()
    ensures var size := Times(den, f.mode.logN[j] + 8 * f.lm);
            var plain := b + size / 2 - 21 * den + if Coefs(f, j) == 2 then 2 * den else 0;
            b + FineOffset(f, j, b, den) == plain + if plain < 16 * den then size / 4 else if plain < 24 * den then size / 8 else 0
  {
    hide Power2, Mode.Valid;
  }

  /** The fine bits of a band are the most, up to eight, that neither pass its share by more than half
      a bit for each degree of freedom nor cost more than it has; priority says they reach the share. */
  lemma FineIsMost(f: Frame, j: int, b: int, den: int, excess: int)
    requires f.Valid() && 0 <= j < f.mode.Bands() && den > 0 && b >= 0
    ensures var r := WideFine(f, j, b, den, excess); var share := b + FineOffset(f, j, b, den);
            && 0 <= r.ebits <= 8 && Levels(r.ebits, den) <= Max(0, share + 4 * den) && 8 * f.channels * r.ebits <= b
            && (r.ebits == 8 || Levels(r.ebits + 1, den) > share + 4 * den || 8 * f.channels * (r.ebits + 1) > b)
            && (r.priority == if Levels(r.ebits, den) >= share then 1 else 0) && r.balance == excess
  {
    hide FineOffset, Levels, Mode.Valid, UDiv;
    var x := b + FineOffset(f, j, b, den) + den * 4;
    var e0 := UDiv(Max(0, x), den) / 8;
    Rounded(x, den);
    var e := WideFine(f, j, b, den, excess).ebits;
    LevelsGrow(e, e0, den);
    LevelsAre(e, den);
  }

  lemma LevelsAre(e: int, den: int)
    ensures Levels(e, den) == e * (den * 8)
  {
  }

  lemma Rounded(x: int, den: int)
    requires den > 0
    ensures var q := UDiv(Max(0, x), den) / 8; q >= 0 && Levels(q, den) <= Max(0, x) < Levels(q + 1, den)
  {
    var y := Max(0, x);
    var t := UDiv(y, den);
    var q := t / 8;
    Quotient(y, den);
    Eighths(q, den);
    Eighths(q + 1, den);
    Grows(8 * q, t, den);
    Grows(t + 1, 8 * (q + 1), den);
  }

  lemma Quotient(y: int, den: int)
    requires den > 0 && y >= 0
    ensures 0 <= y / den && (y / den) * den <= y < (y / den + 1) * den
  {
  }

  lemma Eighths(q: int, den: int)
    ensures Levels(q, den) == (8 * q) * den
  {
  }

  lemma Grows(a: int, b: int, den: int)
    requires a <= b && den > 0
    ensures a * den <= b * den
  {
  }

  lemma LevelsGrow(a: int, b: int, den: int)
    requires den > 0
    ensures a <= b ==> Levels(a, den) <= Levels(b, den)
  {
    if a <= b { Grows(a, b, den * 8); }
  }

  // ---------------------------------------------------------------- the table of logarithms

  const TWOS: seq<int> :=
    [1, 2, 4, 8, 16, 32, 64, 128, 256, 512, 1024, 2048, 4096, 8192, 16384, 32768, 65536, 131072, 262144,
     524288, 1048576, 2097152, 4194304, 8388608, 16777216, 33554432, 67108864, 134217728, 268435456,
     536870912, 1073741824, 2147483648, 4294967296, 8589934592, 17179869184, 34359738368, 68719476736,
     137438953472]

  const EIGHTH_POWERS: seq<int> :=
    [1, 256, 6561, 65536, 390625, 1679616, 5764801, 16777216, 43046721, 100000000, 214358881, 429981696,
     815730721, 1475789056, 2562890625, 4294967296, 6975757441, 11019960576, 16983563041, 25600000000,
     37822859361, 54875873536, 78310985281, 110075314176]

  lemma {:induction false} TwosAre(t: nat)
    requires t < |TWOS|
    ensures TWOS[t] == Power2(t)
  {
    if t > 0 {
      TwosAre(t - 1);
      TwoMore(t);
    }
  }

  lemma TwoMore(t: nat)
    requires 0 < t < |TWOS|
    ensures TWOS[t] == 2 * TWOS[t - 1]
  {
  }

  /** Entry i of the table is log2(i + 1) in eighths, rounded up: what a uniform choice of i + 1 costs. */
  lemma LogTable(i: nat)
    requires i < |LOG2_FRAC|
    ensures 0 <= LOG2_FRAC[i] && Eighth(i + 1) <= Power2(LOG2_FRAC[i]) && (i > 0 ==> LOG2_FRAC[i] > 0 && Power2(LOG2_FRAC[i] - 1) < Eighth(i + 1))
  {
    hide Power2;
    EighthsAre(i);
    LogsFit(i);
    TwosAre(LOG2_FRAC[i]);
    if i > 0 { TwosAre(LOG2_FRAC[i] - 1); }
  }

  function Eighth(n: nat): (p: nat) { n * n * n * n * n * n * n * n }

  lemma EighthsAre(i: nat)
    requires i < |EIGHTH_POWERS|
    ensures EIGHTH_POWERS[i] == Eighth(i + 1)
  {
  }

  lemma LogsFit(i: nat)
    requires i < |LOG2_FRAC|
    ensures |LOG2_FRAC| == |EIGHTH_POWERS| && 0 <= LOG2_FRAC[i] < |TWOS| && EIGHTH_POWERS[i] <= TWOS[LOG2_FRAC[i]]
    ensures i > 0 ==> LOG2_FRAC[i] > 0 && TWOS[LOG2_FRAC[i] - 1] < EIGHTH_POWERS[i]
  {
  }

  // ---------------------------------------------------------------- the curves, in numbers

  /** Coefficients of band j in one channel. */
  function Coefs(f: Frame, j: int): (n: int)
    requires f.Valid() && 0 <= j < f.mode.Bands()
  {
    f.mode.Width(j) * Power2(f.lm)
  }

  function Tilt(channels: int, n: int, trim: int, above: int): (t: int) { channels * n * trim * above }

  /** The threshold is 3/16 of a bit for each coefficient, at least a bit a channel. A trim above
      5 + lm tilts the curve up by an eighth of an eighth-bit for each step, coefficient and band above;
      a single coefficient is charged a bit a channel. */
  lemma CurvesTilt(f: Frame, trim: int, j: int)
    requires f.Valid() && 0 <= j < f.mode.Bands()
    ensures Threshold(f, j) == Max(8 * f.channels, 3 * Coefs(f, j) / 2)
    ensures var t := Tilt(f.channels, Coefs(f, j), trim - 5 - f.lm, f.end - 1 - j);
            TrimOffset(f, trim, j) == t / 8 - if Coefs(f, j) == 1 then 8 * f.channels else 0
  {
    hide Power2, Mode.Valid;
    var w, p := f.mode.Width(j), Power2(f.lm);
    Depth(3, w, p);
    Tilted(f.channels, w, trim - 5 - f.lm, f.end - 1 - j, p);
  }

  lemma Tilted(c: int, w: int, x: int, y: int, p: int)
    ensures c * w * x * y * (p * BIT) / 64 == Tilt(c, w * p, x, y) / 8
  {
    var t := c * (w * p) * x * y;
    assert c * w * x * y * (p * BIT) == 8 * t by { Regroup(c, w, x, y, p); }
  }

  lemma Regroup(c: int, w: int, x: int, y: int, p: int)
    ensures c * w * x * y * (p * 8) == 8 * (c * (w * p) * x * y)
  {
    calc {
      c * w * x * y * (p * 8);
      8 * ((c * w) * x * y * p);
      { assert (c * w) * x * y * p == (c * w) * p * x * y; }
      8 * ((c * w) * p * x * y);
      { assert (c * w) * p == c * (w * p); }
      8 * (c * (w * p) * x * y);
    }
  }

  /** The curves: a row gives each coefficient 32nds of a bit; the tilt moves only what a row gives. */
  lemma CurveIs(f: Frame, trim: int, row: int, j: int)
    requires f.Valid() && 0 <= j < f.mode.Bands() && 0 <= row < |f.mode.allocVectors|
    ensures var given := Tilt(f.channels, Coefs(f, j), f.mode.allocVectors[row][j], 1);
            Curve(f, trim, row, j) == if given / 4 > 0 then Max(0, given / 4 + TrimOffset(f, trim, j)) else given / 4
  {
    hide Power2, TrimOffset;
    var w, p, v := f.mode.Width(j), Power2(f.lm), f.mode.allocVectors[row][j];
    Regroup(f.channels, w, v, 1, p);
    assert f.channels * w * v * 1 * (p * 8) == 8 * (f.channels * w * v * p);
  }

  // ---------------------------------------------------------------- who is served, and from where

  /** A band is charged in full when it or a coded band above it reaches its threshold, otherwise for
      a bit a channel; never over its cap. */
  lemma {:induction false} ReachedFrom(f: Frame, want: seq<int>, j: int)
    requires f.Valid() && |want| == f.mode.Bands() && f.start <= j < f.end
    ensures Reached(f, want, j) <==> exists k | j < k < f.end :: want[k] >= Threshold(f, k)
    decreases f.end - j
  {
    hide Threshold, Mode.Valid;
    if j + 1 < f.end { ReachedFrom(f, want, j + 1); }
  }

  lemma ChargeIs(f: Frame, want: seq<int>, j: int)
    requires f.Valid() && |want| == f.mode.Bands() && f.start <= j < f.end
    ensures (exists k | j <= k < f.end :: want[k] >= Threshold(f, k)) ==> Charge(f, want, j) == Min(want[j], f.cap[j])
    ensures (forall k | j <= k < f.end :: want[k] < Threshold(f, k)) ==> Charge(f, want, j) == if want[j] >= 8 * f.channels then 8 * f.channels else 0
  {
    hide Threshold, Mode.Valid;
    ReachedFrom(f, want, j);
  }

  /** The interpolation runs from the chosen row to the next, boosts and all, and never down. */
  lemma MixEnds(f: Frame, trim: int, offsets: seq<int>, lo: int, j: int)
    requires f.Valid() && 0 < lo < |f.mode.allocVectors| && |offsets| == f.mode.Bands() && 0 <= j < |offsets|
    ensures var lower, gap := Lower(f, trim, offsets, lo), Gap(f, trim, offsets, lo);
            && Mix(lower, gap, 0)[j] == Demand(f, trim, offsets, lo)[j]
            && (lo + 1 < |f.mode.allocVectors| ==>
                  Mix(lower, gap, 64)[j] == Max(Demand(f, trim, offsets, lo)[j], Demand(f, trim, offsets, lo + 1)[j]))
  {
    hide Curve, CapCurve, Mode.Valid;
  }

  // ---------------------------------------------------------------- what skipping leaves

  /** Bands still coded keep their bits, skipped ones a bit a channel or nothing; the intensity reserve
      is what a choice among the coded bands costs, and the flag's own reserve is returned if the loop
      ran down to its bound. */
  lemma {:induction false} SkipLeaves(f: Frame, skipStart: int, skipReserve: int, policy: Policy, s: Skipping, c: Coder)
    requires SkipShape(f, skipStart, s)
    ensures var (t, _) := Skip(f, skipStart, skipReserve, policy, s, c);
            && t.coded <= s.coded
            && (forall j | 0 <= j < |s.bits| :: Leaves(f, s, t, j))
            && t.reserve == (if t.coded < s.coded && s.reserve > 0 then LOG2_FRAC[t.coded - f.start] else s.reserve)
            && t.total == s.total + (if t.coded - 1 <= skipStart then skipReserve else 0)
    decreases s.coded
  {
    hide FlagThreshold, SkipBand, BandBits, Policy.Keeps, Mode.Valid, Leaves;
    LeavesItself(f, s);
    if s.coded - 1 > skipStart {
      var bandBits := BandBits(f, s);
      if bandBits >= FlagThreshold(f, s.coded - 1) {
        var (c', keep) := CodeBit(c, if policy.Keeps(f, s.coded, bandBits) then 1 else 0, 1);
        if keep == 0 {
          var m := SkipBand(f, s, bandBits - BIT, true);
          SkipOne(f, s, bandBits - BIT, true);
          SkipLeaves(f, skipStart, skipReserve, policy, m, c');
          LeavesChain(f, s, m, Skip(f, skipStart, skipReserve, policy, m, c').0);
        }
      } else {
        var m := SkipBand(f, s, bandBits, false);
        SkipOne(f, s, bandBits, false);
        SkipLeaves(f, skipStart, skipReserve, policy, m, c);
        LeavesChain(f, s, m, Skip(f, skipStart, skipReserve, policy, m, c).0);
      }
    }
  }

  predicate Leaves(f: Frame, s: Skipping, t: Skipping, j: int)
    requires |s.bits| == |t.bits| && 0 <= j < |s.bits|
  {
    if t.coded <= j < s.coded then t.bits[j] == 0 || t.bits[j] == 8 * f.channels else t.bits[j] == s.bits[j]
  }

  lemma LeavesItself(f: Frame, s: Skipping)
    ensures forall j, t: Skipping | 0 <= j < |s.bits| && t.bits == s.bits && t.coded == s.coded :: Leaves(f, s, t, j)
  {
  }

  lemma LeavesChain(f: Frame, s: Skipping, m: Skipping, t: Skipping)
    requires |s.bits| == |m.bits| == |t.bits| && t.coded <= m.coded <= s.coded
    requires forall j | 0 <= j < |s.bits| :: Leaves(f, s, m, j)
    requires forall j | 0 <= j < |s.bits| :: Leaves(f, m, t, j)
    ensures forall j | 0 <= j < |s.bits| :: Leaves(f, s, t, j)
  {
    forall j | 0 <= j < |s.bits| ensures Leaves(f, s, t, j) {
      assert Leaves(f, s, m, j) && Leaves(f, m, t, j);
    }
  }

  lemma SkipOne(f: Frame, s: Skipping, bandBits: int, flagged: bool)
    requires SkipShape(f, f.start, s) && f.start < s.coded - 1
    ensures var t := SkipBand(f, s, bandBits, flagged);
            && (forall j | 0 <= j < |s.bits| :: Leaves(f, s, t, j))
            && t.reserve == (if s.reserve > 0 then LOG2_FRAC[t.coded - f.start] else s.reserve) && (s.reserve > 0 <==> t.reserve > 0)
  {
    LogsFit(s.coded - 1 - f.start);
  }

  // ---------------------------------------------------------------- spreading and sharing

  function Times(a: int, b: int): (p: int) { a * b }

  /** What is left is spread evenly: each coefficient gets the whole share, or one eighth-bit more, and
      the odd ones go to the lowest coefficients. */
  lemma SpreadEven(f: Frame, s: Skipping, left: int, per: int, j: int, k: int)
    requires SkipShape(f, f.start, s) && f.start <= j < k < s.coded
    requires var whole := f.mode.eBands[s.coded] - f.mode.eBands[f.start]; Times(per, whole) <= left < Times(per + 1, whole)
    ensures var got, w := Spread(f, s, left)[j] - s.bits[j], f.mode.Width(j);
            && Times(per, w) <= got <= Times(per + 1, w)
            && (got < Times(per + 1, w) ==> Spread(f, s, left)[k] - s.bits[k] == Times(per, f.mode.Width(k)))
  {
    hide Mode.Valid;
    var whole := f.mode.eBands[s.coded] - f.mode.eBands[f.start];
    BandsGrow(f, s.coded, j, k);
    ShareIs(left, whole, per);
    OneMore(per, f.mode.Width(j));
    assert Spread(f, s, left)[j] - s.bits[j] == Times(per, f.mode.Width(j)) + Extra(f, URest(left, whole), j);
    assert Spread(f, s, left)[k] - s.bits[k] == Times(per, f.mode.Width(k)) + Extra(f, URest(left, whole), k);
  }

  lemma BandsGrow(f: Frame, coded: int, j: int, k: int)
    requires f.Valid() && f.start <= j < k < coded <= f.end
    ensures f.mode.eBands[f.start] <= f.mode.eBands[j] < f.mode.eBands[j + 1] <= f.mode.eBands[k] < f.mode.eBands[k + 1] <= f.mode.eBands[coded]
  {
  }

  lemma ShareIs(left: int, whole: int, per: int)
    requires whole > 0 && Times(per, whole) <= left < Times(per + 1, whole)
    ensures UDiv(left, whole) == per && 0 <= URest(left, whole) == left - Times(per, whole) < whole
  {
    OneMore(per, whole);
    assert left == whole * per + (left - whole * per);
    var q := left / whole;
    assert whole * q <= left < whole * q + whole;
    if q < per { Grows(q + 1, per, whole); }
    if q > per { Grows(per + 1, q, whole); }
  }

  lemma OneMore(per: int, w: int)
    ensures Times(per + 1, w) == Times(per, w) + w
  {
  }

  /** Fine energy takes all the whole bits there are for it in the excess, up to eight in all. */
  lemma RebalanceIsMost(f: Frame, r: Fine, balance: int)
    requires (f.channels == 1 || f.channels == 2) && 0 <= r.ebits <= 8
    ensures var t := Rebalance(f, r, balance);
            && t.pulses == r.pulses && r.ebits <= t.ebits <= 8
            && t.balance == r.balance - 8 * f.channels * (t.ebits - r.ebits)
            && (r.balance > 0 ==> t.balance >= 0 && (t.ebits == 8 || t.balance < 8 * f.channels))
            && t.priority == (if r.balance <= 0 then r.priority else if 8 * f.channels * (t.ebits - r.ebits) >= r.balance - balance then 1 else 0)
  {
  }

  /** A skipped band has its fine bits only, and first call on a last one if it has none. */
  lemma SkippedIs(f: Frame, bits: int)
    requires (f.channels == 1 || f.channels == 2) && (bits == 0 || bits == 8 * f.channels)
    ensures var r := SkippedBand(f, bits); r.pulses == 0 && 8 * f.channels * r.ebits == bits && r.priority == 1 - r.ebits
  {
  }
}
