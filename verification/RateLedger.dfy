/** The bit ledger of the allocator: every eighth-bit of the budget is accounted for.

    The code never states the ledger in one place; the comments only ask that no band's
    share go negative.  Here it is one equation over the whole call, from the
    reservations through the searches, the skip loop and the per-band carry. */
module RateLedger {
  import opened Rate
  import opened RangeCoder

  // ---------------------------------------------------------------- sums

  lemma {:induction false} SumTop(s: seq<int>, lo: int, hi: int)
    requires 0 <= lo < hi <= |s|
    ensures Sum(s, lo, hi) == Sum(s, lo, hi - 1) + s[hi - 1]
    decreases hi - lo
  {
    if lo + 1 < hi { SumTop(s, lo + 1, hi); }
  }

  lemma {:induction false} SumUpdate(s: seq<int>, lo: int, hi: int, j: int, v: int)
    requires 0 <= lo <= j < hi <= |s|
    ensures Sum(s[j := v], lo, hi) == Sum(s, lo, hi) + v - s[j]
    decreases hi - lo
  {
    if lo == j {
      SumSame(s, s[j := v], lo + 1, hi);
    } else {
      SumUpdate(s, lo + 1, hi, j, v);
    }
  }

  lemma {:induction false} SumSame(s: seq<int>, t: seq<int>, lo: int, hi: int)
    requires 0 <= lo <= hi <= |s| == |t|
    requires forall i | lo <= i < hi :: s[i] == t[i]
    ensures Sum(s, lo, hi) == Sum(t, lo, hi)
    decreases hi - lo
  {
    if lo < hi { SumSame(s, t, lo + 1, hi); }
  }

  lemma {:induction false} SumAtMost(s: seq<int>, t: seq<int>, lo: int, hi: int)
    requires 0 <= lo <= hi <= |s| == |t|
    requires forall i | lo <= i < hi :: s[i] <= t[i]
    ensures Sum(s, lo, hi) <= Sum(t, lo, hi)
    decreases hi - lo
  {
    if lo < hi { SumAtMost(s, t, lo + 1, hi); }
  }

  lemma {:induction false} SumZero(s: seq<int>, lo: int, hi: int)
    requires 0 <= lo <= hi <= |s|
    requires forall i | lo <= i < hi :: s[i] == 0
    ensures Sum(s, lo, hi) == 0
    decreases hi - lo
  {
    if lo < hi { SumZero(s, lo + 1, hi); }
  }

  /** One term of a sum of non-negative terms is at most the sum. */
  lemma {:induction false} TermAtMostSum(s: seq<int>, lo: int, hi: int, j: int)
    requires 0 <= lo <= j < hi <= |s|
    requires forall i | lo <= i < hi :: s[i] >= 0
    ensures 0 <= s[j] <= Sum(s, lo, hi)
    decreases hi - lo
  {
    SumNonNegative(s, lo + 1, hi);
    if lo < j { TermAtMostSum(s, lo + 1, hi, j); }
  }

  lemma {:induction false} SumNonNegative(s: seq<int>, lo: int, hi: int)
    requires 0 <= lo <= hi <= |s|
    requires forall i | lo <= i < hi :: s[i] >= 0
    ensures Sum(s, lo, hi) >= 0
    decreases hi - lo
  {
    if lo < hi { SumNonNegative(s, lo + 1, hi); }
  }

  // ---------------------------------------------------------------- the searches fit the budget

  lemma ReserveAccounts(f: Frame, total0: int)
    requires f.Valid()
    ensures var r := Reserve(f, total0);
            && Max(total0, 0) == r.total + r.skip + r.intensity + r.dual
            && r.total >= 0 && r.intensity >= 0
            && (r.skip == 0 || r.skip == BIT) && (r.dual == 0 || r.dual == BIT)
            && (r.skip == 0 ==> Max(total0, 0) < BIT)
            && (r.intensity > 0 ==> f.channels == 2 && r.intensity == LOG2_FRAC[f.end - f.start])
  {
  }

  /** Row 0 asks for nothing, so nothing is charged. */
  lemma {:induction false} NothingReached(f: Frame, want: seq<int>, j: int)
    requires f.Valid() && |want| == f.mode.Bands() && f.start <= j < f.end
    requires forall i | 0 <= i < |want| :: want[i] == 0
    ensures !Reached(f, want, j)
    decreases f.end - j
  {
    if j + 1 < f.end { NothingReached(f, want, j + 1); }
  }

  lemma NothingCharged(f: Frame, want: seq<int>)
    requires f.Valid() && |want| == f.mode.Bands()
    requires forall i | 0 <= i < |want| :: want[i] == 0
    ensures TotalCharge(f, want) == 0
  {
    forall j | f.start <= j < f.end ensures Charges(f, want)[j] == 0 {
      NothingReached(f, want, j);
    }
    SumZero(Charges(f, want), f.start, f.end);
  }

  /** The row found is affordable, and the one above it is not (or does not exist). */
  lemma {:induction false} RowSearchBrackets(f: Frame, trim: int, offsets: seq<int>, total: int, lo: int, hi: int)
    requires f.Valid() && |offsets| == f.mode.Bands()
    requires 1 <= lo <= |f.mode.allocVectors| && lo - 1 <= hi < |f.mode.allocVectors|
    requires lo > 1 ==> TotalCharge(f, Demand(f, trim, offsets, lo - 1)) <= total
    requires hi + 1 < |f.mode.allocVectors| ==> TotalCharge(f, Demand(f, trim, offsets, hi + 1)) > total
    ensures var r := RowSearch(f, trim, offsets, total, lo, hi);
            && (r > 0 ==> TotalCharge(f, Demand(f, trim, offsets, r)) <= total)
            && (r + 1 < |f.mode.allocVectors| ==> TotalCharge(f, Demand(f, trim, offsets, r + 1)) > total)
    decreases hi - lo
  {
    hide TotalCharge, Demand, Frame.Valid;
    if lo <= hi {
      var mid := (lo + hi) / 2;
      if TotalCharge(f, Demand(f, trim, offsets, mid)) > total {
        RowSearchBrackets(f, trim, offsets, total, lo, mid - 1);
      } else {
        RowSearchBrackets(f, trim, offsets, total, mid + 1, hi);
      }
    }
  }

  /** Six halvings leave an affordable point whose successor on the line is not. */
  lemma {:induction false} MixSearchBrackets(f: Frame, lower: seq<int>, gap: seq<int>, total: int, lo: int, hi: int, steps: nat, top: int)
    requires f.Valid() && |lower| == |gap| == f.mode.Bands()
    requires 0 <= lo && hi - lo == Power2(steps) && hi <= top
    requires TotalCharge(f, Mix(lower, gap, lo)) <= total
    requires hi < top ==> TotalCharge(f, Mix(lower, gap, hi)) > total
    ensures var r := MixSearch(f, lower, gap, total, lo, hi, steps);
            && 0 <= r < top
            && TotalCharge(f, Mix(lower, gap, r)) <= total
            && (r + 1 < top ==> TotalCharge(f, Mix(lower, gap, r + 1)) > total)
    decreases steps
  {
    hide TotalCharge, Mix, Frame.Valid;
    if steps > 0 {
      var mid := (lo + hi) / 2;
      assert mid == lo + Power2(steps - 1);
      if TotalCharge(f, Mix(lower, gap, mid)) > total {
        MixSearchBrackets(f, lower, gap, total, lo, mid, steps - 1, top);
      } else {
        MixSearchBrackets(f, lower, gap, total, mid, hi, steps - 1, top);
      }
    }
  }

  lemma MixAtZero(lower: seq<int>, gap: seq<int>)
    requires |lower| == |gap|
    ensures Mix(lower, gap, 0) == lower
  {
  }

  lemma GrantedWithinCharges(f: Frame, want: seq<int>)
    requires f.Valid() && |want| == f.mode.Bands()
    requires forall j | 0 <= j < |want| :: want[j] >= 0
    ensures forall j | 0 <= j < |want| :: 0 <= Granted(f, want)[j]
    ensures Sum(Granted(f, want), f.start, f.end) <= TotalCharge(f, want)
  {
    SumAtMost(Granted(f, want), Charges(f, want), f.start, f.end);
  }

  /** The point the two searches settle on is affordable. */
  lemma ChosenPointFits(f: Frame, trim: int, offsets: seq<int>, total: int)
    requires f.Valid() && |offsets| == f.mode.Bands() && total >= 0
    requires forall j | 0 <= j < |offsets| :: offsets[j] >= 0
    ensures var want := ChosenPoint(f, trim, offsets, total);
            TotalCharge(f, want) <= total && forall j | 0 <= j < |want| :: want[j] >= 0
  {
    hide TotalCharge, Lower, Gap, MixSearch, RowSearch, Mix;
    var row := RowSearch(f, trim, offsets, total, 1, |f.mode.allocVectors| - 1);
    RowSearchBrackets(f, trim, offsets, total, 1, |f.mode.allocVectors| - 1);
    var lower, gap := Lower(f, trim, offsets, row), Gap(f, trim, offsets, row);
    LowerFits(f, trim, offsets, row, total);
    MixAtZero(lower, gap);
    assert Power2(ALLOC_STEPS) == 64;
    MixSearchBrackets(f, lower, gap, total, 0, 64, ALLOC_STEPS, 64);
    LowerNonNegative(f, trim, offsets, row);
    MixNonNegative(lower, gap, MixSearch(f, lower, gap, total, 0, 64, ALLOC_STEPS));
  }

  lemma LowerNonNegative(f: Frame, trim: int, offsets: seq<int>, row: int)
    requires f.Valid() && |offsets| == f.mode.Bands() && 0 <= row < |f.mode.allocVectors|
    requires forall j | 0 <= j < |offsets| :: offsets[j] >= 0
    ensures forall j | 0 <= j < |offsets| :: Lower(f, trim, offsets, row)[j] >= 0
  {
  }

  lemma LowerFits(f: Frame, trim: int, offsets: seq<int>, row: int, total: int)
    requires f.Valid() && |offsets| == f.mode.Bands() && total >= 0 && 0 <= row < |f.mode.allocVectors|
    requires row > 0 ==> TotalCharge(f, Demand(f, trim, offsets, row)) <= total
    ensures TotalCharge(f, Lower(f, trim, offsets, row)) <= total
  {
    hide TotalCharge;
    if row == 0 {
      NothingCharged(f, Lower(f, trim, offsets, row));
    } else {
      assert Lower(f, trim, offsets, row) == Demand(f, trim, offsets, row);
    }
  }

  /** Before a symbol is coded: the grants are non-negative and fit what is left of the
      budget after the reservations. */
  lemma InitialFits(f: Frame, trim: int, offsets: seq<int>, r: Reserved)
    requires f.Valid() && |offsets| == f.mode.Bands() && r.total >= 0
    requires forall j | 0 <= j < |offsets| :: offsets[j] >= 0
    ensures var s := Initial(f, trim, offsets, r);
            && s.psum == Sum(s.bits, f.start, f.end) <= s.total == r.total
            && s.reserve == r.intensity && s.flags == 0
            && forall j | 0 <= j < |s.bits| :: s.bits[j] >= 0
  {
    hide TotalCharge, ChosenPoint, Granted, Sum;
    ChosenPointFits(f, trim, offsets, r.total);
    GrantedWithinCharges(f, ChosenPoint(f, trim, offsets, r.total));
  }

  lemma MixNonNegative(lower: seq<int>, gap: seq<int>, mid: int)
    requires |lower| == |gap| && mid >= 0
    requires forall j | 0 <= j < |lower| :: lower[j] >= 0 && gap[j] >= 0
    ensures forall j | 0 <= j < |lower| :: Mix(lower, gap, mid)[j] >= 0
  {
    forall j | 0 <= j < |lower| ensures Mix(lower, gap, mid)[j] >= 0 {
      assert mid * gap[j] >= 0;
    }
  }

  // ---------------------------------------------------------------- the skip loop

  /** What the skip loop keeps, for a budget of `budget` after the dual-stereo reserve. */
  ghost predicate SkipInv(f: Frame, budget: int, skipReserve: int, s: Skipping) {
    && SkipShape(f, f.start, s)
    && (forall j | 0 <= j < |s.bits| :: s.bits[j] >= 0)
    && (forall j | s.coded <= j < f.end :: s.bits[j] == 0 || s.bits[j] == f.Floor())
    && 0 <= s.reserve && (s.reserve > 0 ==> s.reserve == LOG2_FRAC[s.coded - f.start])
    && s.psum <= s.total
    && s.total - s.psum == budget - skipReserve - s.reserve - Sum(s.bits, f.start, f.end) - BIT * s.flags
  }

  /** The left-over given to the top band is part of the left-over. */
  lemma ShareWithinLeft(left0: int, width: int, wholeWidth: int)
    requires 0 <= left0 && 0 < width <= wholeWidth
    ensures var per := UDiv(left0, wholeWidth);
            var left := URest(left0, wholeWidth);
            && 0 <= per && 0 <= left < wholeWidth
            && per * width <= per * wholeWidth
            && 0 <= per * width + Max(left - (wholeWidth - width), 0) <= left0
  {
    var per := UDiv(left0, wholeWidth);
    assert per * width <= per * wholeWidth;
    assert 0 <= per * width;
  }

  lemma BandBitsBounds(f: Frame, s: Skipping)
    requires SkipShape(f, f.start, s) && s.psum <= s.total
    ensures s.bits[s.coded - 1] <= BandBits(f, s) <= s.bits[s.coded - 1] + s.total - s.psum
  {
    var e := f.mode.eBands;
    ShareWithinLeft(s.total - s.psum, e[s.coded] - e[s.coded - 1], e[s.coded] - e[f.start]);
  }

  lemma LogTableGrows(i: int, j: int)
    requires 0 <= i <= j < |LOG2_FRAC|
    ensures 0 <= LOG2_FRAC[i] <= LOG2_FRAC[j]
  {
  }

  lemma SkipBandKeeps(f: Frame, budget: int, skipReserve: int, s: Skipping, flagged: bool)
    requires SkipInv(f, budget, skipReserve, s) && f.start < s.coded - 1
    requires flagged ==> BandBits(f, s) >= FlagThreshold(f, s.coded - 1)
    ensures SkipInv(f, budget, skipReserve,
                    SkipBand(f, s, BandBits(f, s) - if flagged then BIT else 0, flagged))
  {
    var bandBits := BandBits(f, s) - if flagged then BIT else 0;
    BandBitsBounds(f, s);
    hide BandBits, Sum, Threshold;
    SkipBandBits(f, s, bandBits, flagged);
    SkipBandMoney(f, budget, skipReserve, s, bandBits, flagged);
  }

  /** The bands keep their shape: the skipped one now has a fine bit per channel or none. */
  lemma SkipBandBits(f: Frame, s: Skipping, bandBits: int, flagged: bool)
    requires SkipShape(f, f.start, s) && f.start < s.coded - 1
    requires forall j | 0 <= j < |s.bits| :: s.bits[j] >= 0
    requires forall j | s.coded <= j < f.end :: s.bits[j] == 0 || s.bits[j] == f.Floor()
    ensures var t := SkipBand(f, s, bandBits, flagged);
            && (forall j | 0 <= j < |t.bits| :: t.bits[j] >= 0)
            && (forall j | t.coded <= j < f.end :: t.bits[j] == 0 || t.bits[j] == f.Floor())
  {
  }

  /** Its bits and the shrunk reserve go back to the left-over, the flag and the fine bits
      come out of it. */
  lemma SkipBandMoney(f: Frame, budget: int, skipReserve: int, s: Skipping, bandBits: int, flagged: bool)
    requires SkipInv(f, budget, skipReserve, s) && f.start < s.coded - 1
    requires bandBits + (if flagged then BIT else 0) <= s.bits[s.coded - 1] + s.total - s.psum
    requires flagged ==> bandBits >= f.Floor()
    ensures var t := SkipBand(f, s, bandBits, flagged);
            && 0 <= t.reserve && (t.reserve > 0 ==> t.reserve == LOG2_FRAC[t.coded - f.start])
            && t.psum <= t.total
            && t.total - t.psum == budget - skipReserve - t.reserve - Sum(t.bits, f.start, f.end) - BIT * t.flags
  {
    hide Sum, Threshold, BandBits;
    LogTableGrows(s.coded - 1 - f.start, s.coded - f.start);
    SumUpdate(s.bits, f.start, f.end, s.coded - 1, FineOnly(f, bandBits));
  }

  /** A flag is coded only when its bit was reserved. */
  lemma FlagWasReserved(f: Frame, budget: int, skipReserve: int, s: Skipping)
    requires SkipInv(f, budget, skipReserve, s) && 0 <= skipReserve
    requires BandBits(f, s) >= FlagThreshold(f, s.coded - 1)
    ensures budget >= BIT
  {
    BandBitsBounds(f, s);
    TermAtMostSum(s.bits, f.start, f.end, s.coded - 1);
  }

  /** What holds when the loop ends: the left-over is the budget less what is spent. */
  ghost predicate SkipDone(f: Frame, budget: int, s: Skipping) {
    && SkipShape(f, f.start, s)
    && (forall j | 0 <= j < |s.bits| :: s.bits[j] >= 0)
    && (forall j | s.coded <= j < f.end :: s.bits[j] == 0 || s.bits[j] == f.Floor())
    && 0 <= s.reserve
    && s.psum <= s.total
    && s.total - s.psum == budget - s.reserve - Sum(s.bits, f.start, f.end) - BIT * s.flags
  }

  /** Both ways out of the loop: the reserved bit is given back, or it paid for the flag. */
  lemma SkipEnds(f: Frame, budget: int, skipReserve: int, s: Skipping)
    requires SkipInv(f, budget, skipReserve, s)
    requires skipReserve == 0 || skipReserve == BIT
    requires skipReserve == 0 ==> budget < BIT
    ensures SkipDone(f, budget, s.(total := s.total + skipReserve))
    ensures BandBits(f, s) >= FlagThreshold(f, s.coded - 1) ==> SkipDone(f, budget, s.(flags := s.flags + 1))
  {
    if BandBits(f, s) >= FlagThreshold(f, s.coded - 1) {
      FlagWasReserved(f, budget, skipReserve, s);
    }
  }

  lemma {:induction false} SkipLedger(f: Frame, budget: int, skipStart: int, skipReserve: int, policy: Policy, s: Skipping, c: Coder)
    requires SkipInv(f, budget, skipReserve, s) && SkipShape(f, skipStart, s)
    requires skipReserve == 0 || skipReserve == BIT
    requires skipReserve == 0 ==> budget < BIT
    ensures SkipDone(f, budget, Skip(f, skipStart, skipReserve, policy, s, c).0)
    decreases s.coded
  {
    hide SkipInv, SkipDone, BandBits, SkipBand, FlagThreshold;
    SkipEnds(f, budget, skipReserve, s);
    if s.coded - 1 > skipStart {
      var bandBits := BandBits(f, s);
      if bandBits >= FlagThreshold(f, s.coded - 1) {
        var (c', keep) := CodeBit(c, if policy.Keeps(f, s.coded, bandBits) then 1 else 0, 1);
        if keep != 0 {
        } else {
          SkipBandKeeps(f, budget, skipReserve, s, true);
          SkipLedger(f, budget, skipStart, skipReserve, policy, SkipBand(f, s, bandBits - BIT, true), c');
        }
      } else {
        SkipBandKeeps(f, budget, skipReserve, s, false);
        SkipLedger(f, budget, skipStart, skipReserve, policy, SkipBand(f, s, bandBits, false), c);
      }
    }
  }

  /** What the skip loop starts from. */
  ghost predicate Starts(f: Frame, budget: int, rsv: Reserved, s: Skipping) {
    && SkipInv(f, budget, rsv.skip, s)
    && 0 <= rsv.dual
    && (rsv.skip == 0 || rsv.skip == BIT) && (rsv.skip == 0 ==> budget < BIT)
    && (rsv.intensity > 0 ==> f.channels == 2)
  }

  lemma StartsSound(f: Frame, trim: int, offsets: seq<int>, total: int)
    requires f.Valid() && |offsets| == f.mode.Bands()
    requires forall j | 0 <= j < |offsets| :: offsets[j] >= 0
    ensures var rsv := Reserve(f, total);
            Starts(f, Max(total, 0) - rsv.dual, rsv, Initial(f, trim, offsets, rsv))
  {
    hide Sum, Initial, Reserve, Mode.Valid;
    ReserveAccounts(f, total);
    InitialFits(f, trim, offsets, Reserve(f, total));
  }

  // ---------------------------------------------------------------- spreading the left-over

  lemma SpreadBand(f: Frame, s: Skipping, per: int, rem: int, j: int)
    requires SkipShape(f, f.start, s) && 0 <= rem && f.start <= j < s.coded
    ensures var e := f.mode.eBands;
            SpreadBy(f, s, per, rem)[j] == s.bits[j] + per * (e[j + 1] - e[j])
              + Min(rem, e[j + 1] - e[f.start]) - Min(rem, e[j] - e[f.start])
  {
    hide Sum, Threshold, Power2;
    assert f.mode.eBands[f.start] <= f.mode.eBands[j] < f.mode.eBands[j + 1];
  }

  /** Bands [start, hi) take an even share each and the remainder from the bottom up. */
  lemma {:induction false} SpreadSum(f: Frame, s: Skipping, per: int, rem: int, hi: int)
    requires SkipShape(f, f.start, s) && 0 <= rem && f.start <= hi <= s.coded
    ensures var e := f.mode.eBands;
            Sum(SpreadBy(f, s, per, rem), f.start, hi)
            == Sum(s.bits, f.start, hi) + per * (e[hi] - e[f.start]) + Min(rem, e[hi] - e[f.start])
    decreases hi
  {
    hide SpreadBy;
    if hi > f.start {
      var e := f.mode.eBands;
      SpreadSum(f, s, per, rem, hi - 1);
      SumTop(SpreadBy(f, s, per, rem), f.start, hi);
      SumTop(s.bits, f.start, hi);
      SpreadBand(f, s, per, rem, hi - 1);
      Distribute(per, e[hi - 1] - e[f.start], e[hi] - e[hi - 1]);
    }
  }

  lemma Distribute(k: int, a: int, b: int)
    ensures k * (a + b) == k * a + k * b
  {
  }

  lemma DivideLeft(left: int, whole: int)
    requires 0 <= left && 0 < whole
    ensures 0 <= UDiv(left, whole) && 0 <= URest(left, whole) < whole
    ensures UDiv(left, whole) * whole + URest(left, whole) == left
  {
  }

  /** All of the left-over is spread and no band loses. */
  lemma SpreadsAll(f: Frame, s: Skipping, left: int)
    requires SkipShape(f, f.start, s) && 0 <= left
    ensures Sum(Spread(f, s, left), f.start, s.coded) == Sum(s.bits, f.start, s.coded) + left
    ensures forall j | 0 <= j < |s.bits| :: Spread(f, s, left)[j] >= s.bits[j]
  {
    var whole := f.mode.eBands[s.coded] - f.mode.eBands[f.start];
    assert whole > 0;
    hide Sum, SpreadBy, UDiv, URest, Mode.Valid;
    DivideLeft(left, whole);
    SpreadsAllBy(f, s, whole, UDiv(left, whole), URest(left, whole), left);
  }

  lemma SpreadsAllBy(f: Frame, s: Skipping, whole: int, per: int, rem: int, left: int)
    requires SkipShape(f, f.start, s) && 0 <= per
    requires whole == f.mode.eBands[s.coded] - f.mode.eBands[f.start]
    requires 0 <= rem < whole && per * whole + rem == left
    ensures Sum(SpreadBy(f, s, per, rem), f.start, s.coded) == Sum(s.bits, f.start, s.coded) + left
    ensures forall j | 0 <= j < |s.bits| :: SpreadBy(f, s, per, rem)[j] >= s.bits[j]
  {
    SpreadSum(f, s, per, rem, s.coded);
    SpreadGrows(f, s, per, rem);
  }

  lemma SpreadGrows(f: Frame, s: Skipping, per: int, rem: int)
    requires SkipShape(f, f.start, s) && 0 <= rem && 0 <= per
    ensures forall j | 0 <= j < |s.bits| :: SpreadBy(f, s, per, rem)[j] >= s.bits[j]
  {
    hide Sum, Threshold, Power2;
    forall j | 0 <= j < |s.bits| ensures SpreadBy(f, s, per, rem)[j] >= s.bits[j] {
      assert 0 < f.mode.Width(j);
      assert per * f.mode.Width(j) >= 0;
    }
  }

  // ---------------------------------------------------------------- fine energy and pulses

  /** What a band was given: its pulses, and 8 bits per channel per fine-energy level. */
  function Spent(f: Frame, b: Fine): int {
    b.pulses + BIT * f.channels * b.ebits
  }

  function TotalSpent(f: Frame, bands: seq<Fine>): int {
    if bands == [] then 0 else TotalSpent(f, bands[..|bands| - 1]) + Spent(f, bands[|bands| - 1])
  }

  ghost predicate Sound(f: Frame, b: Fine) {
    0 <= b.pulses && 0 <= b.ebits <= MAX_FINE_BITS && 0 <= b.balance && (b.priority == 0 || b.priority == 1)
  }

  lemma RebalanceConserves(f: Frame, r: Fine, balance: int)
    requires f.Valid() && Sound(f, r)
    ensures var q := Rebalance(f, r, balance);
            Sound(f, q) && q.pulses == r.pulses && Spent(f, q) + q.balance == Spent(f, r) + r.balance
  {
  }

  /** However the resolution is chosen, it is not allowed to bust the band. */
  lemma NotBusted(f: Frame, b: int, e0: int)
    requires f.Valid() && b >= 0 && e0 >= 0
    ensures var e := Min(if f.channels * e0 > b / 8 then Shift(f, b) else e0, MAX_FINE_BITS);
            0 <= e <= MAX_FINE_BITS && f.channels * e * 8 <= b
  {
  }

  /** A band's bits and the balance handed to it are its pulses, its fine energy and the
      balance it hands on; pulses never exceed the cap. */
  lemma FineBandConserves(f: Frame, intensity: int, dual: nat, j: int, bits: int, balance: int)
    requires f.Valid() && 0 <= j < f.mode.Bands() && bits >= 0 && balance >= 0 && f.cap[j] >= 0
    ensures var r := FineBand(f, intensity, dual, j, bits, balance);
            && Sound(f, r) && r.balance >= 0
            && Spent(f, r) + r.balance == bits + balance
            && r.pulses <= Max(f.cap[j], f.channels * 8)
  {
    assert 1 <= f.channels <= 2 && j < |f.cap|;
    hide Power2, Frame.Valid, Mode.Valid, WideBand, NarrowBand, Spent, Freedom, Sound;
    var n := f.mode.Width(j) * Power2(f.lm);
    var bit := bits + balance;
    if n > 1 {
      var excess := Max(bit - f.cap[j], 0);
      WideBandConserves(f, j, bit - excess, Freedom(f, intensity, dual, j, n), excess, balance);
    } else {
      NarrowBandConserves(f, bit, balance);
    }
  }

  lemma NarrowBandConserves(f: Frame, bit: int, balance: int)
    requires f.Valid() && bit >= 0
    ensures var r := NarrowBand(f, bit, balance);
            && Sound(f, r) && 0 <= r.pulses <= f.channels * 8 && r.balance >= 0
            && Spent(f, r) + r.balance == bit
  {
    var excess := Max(0, bit - f.channels * 8);
    hide Rebalance;
    RebalanceConserves(f, Fine(bit - excess, 0, 1, excess), balance);
  }

  lemma WideBandConserves(f: Frame, j: int, b: int, den: int, excess: int, balance: int)
    requires f.Valid() && 0 <= j < f.mode.Bands() && b >= 0 && excess >= 0 && den > 0
    ensures var r := WideBand(f, j, b, den, excess, balance);
            && Sound(f, r) && 0 <= r.pulses <= b && r.balance >= 0
            && Spent(f, r) + r.balance == b + excess
  {
    hide Power2, Frame.Valid, Mode.Valid, WideFine, Rebalance;
    WideFineConserves(f, j, b, den, excess);
    RebalanceConserves(f, WideFine(f, j, b, den, excess), balance);
  }

  lemma WideFineConserves(f: Frame, j: int, b: int, den: int, excess: int)
    requires f.Valid() && 0 <= j < f.mode.Bands() && b >= 0 && excess >= 0 && den > 0
    ensures var r := WideFine(f, j, b, den, excess);
            && Sound(f, r) && 0 <= r.pulses <= b && r.balance == excess
            && Spent(f, r) == b
  {
    hide Power2, Frame.Valid, Mode.Valid, FineOffset, Shift, UDiv;
    var wanted := Max(0, b + FineOffset(f, j, b, den) + den * 4);
    QuotientNonNegative(wanted, den);
    var e0 := UDiv(wanted, den) / 8;
    NotBusted(f, b, e0);
    ChannelsTimes(f, Min(if f.channels * e0 > b / 8 then Shift(f, b) else e0, MAX_FINE_BITS));
  }

  lemma ChannelsTimes(f: Frame, e: int)
    requires f.Valid() && 0 <= e
    ensures 0 <= f.channels * e
  {
  }

  lemma QuotientNonNegative(a: int, den: int)
    requires a >= 0 && den > 0
    ensures UDiv(a, den) / 8 >= 0
  {
  }

  lemma TotalSpentAppend(f: Frame, bands: seq<Fine>, b: Fine)
    ensures TotalSpent(f, bands + [b]) == TotalSpent(f, bands) + Spent(f, b)
  {
    assert (bands + [b])[..|bands|] == bands;
  }

  lemma {:induction false} FineBandsSound(f: Frame, intensity: int, dual: nat, bits: seq<int>, j: int)
    requires f.Valid() && |bits| == f.mode.Bands() && f.start <= j <= f.end
    requires forall i | 0 <= i < |bits| :: bits[i] >= 0
    ensures var (bands, balance) := FineBands(f, intensity, dual, bits, j);
            balance >= 0 && forall i | 0 <= i < |bands| :: Sound(f, bands[i])
    decreases j
  {
    hide FineBand, Sound, Mode.Valid;
    if j > f.start {
      FineBandsSound(f, intensity, dual, bits, j - 1);
      var balance := FineBands(f, intensity, dual, bits, j - 1).1;
      FineBandConserves(f, intensity, dual, j - 1, bits[j - 1], balance);
    }
  }

  lemma {:induction false} FineBandsConserve(f: Frame, intensity: int, dual: nat, bits: seq<int>, j: int)
    requires f.Valid() && |bits| == f.mode.Bands() && f.start <= j <= f.end
    requires forall i | 0 <= i < |bits| :: bits[i] >= 0
    ensures var (bands, balance) := FineBands(f, intensity, dual, bits, j);
            TotalSpent(f, bands) + balance == Sum(bits, f.start, j)
    decreases j
  {
    assert TotalSpent(f, []) == 0 && Sum(bits, f.start, f.start) == 0;
    hide FineBand, Sum, TotalSpent, Spent, Sound, Mode.Valid;
    if j > f.start {
      FineBandsConserve(f, intensity, dual, bits, j - 1);
      FineBandsSound(f, intensity, dual, bits, j - 1);
      var (done, balance) := FineBands(f, intensity, dual, bits, j - 1);
      FineBandConserves(f, intensity, dual, j - 1, bits[j - 1], balance);
      TotalSpentAppend(f, done, FineBand(f, intensity, dual, j - 1, bits[j - 1], balance));
      SumTop(bits, f.start, j);
    }
  }

  lemma SkippedBandSpendsAll(f: Frame, bits: int)
    requires f.Valid() && (bits == 0 || bits == f.Floor())
    ensures var r := SkippedBand(f, bits);
            Sound(f, r) && Spent(f, r) == bits && r.pulses == 0 && r.balance == 0
  {
  }

  lemma {:induction false} SkippedSum(f: Frame, s: Skipping, done: seq<Fine>, hi: int)
    requires SkipShape(f, f.start, s) && s.coded <= hi <= f.end
    requires forall j | s.coded <= j < f.end :: s.bits[j] == 0 || s.bits[j] == f.Floor()
    ensures var skipped := seq(hi - s.coded, i requires 0 <= i < hi - s.coded => SkippedBand(f, s.bits[s.coded + i]));
            TotalSpent(f, done + skipped) == TotalSpent(f, done) + Sum(s.bits, s.coded, hi)
    decreases hi
  {
    var skipped := seq(hi - s.coded, i requires 0 <= i < hi - s.coded => SkippedBand(f, s.bits[s.coded + i]));
    if hi == s.coded {
      assert done + skipped == done;
    } else {
      var before := seq(hi - 1 - s.coded, i requires 0 <= i < hi - 1 - s.coded => SkippedBand(f, s.bits[s.coded + i]));
      SkippedSum(f, s, done, hi - 1);
      SumTop(s.bits, s.coded, hi);
      SkippedBandSpendsAll(f, s.bits[hi - 1]);
      assert done + skipped == (done + before) + [SkippedBand(f, s.bits[hi - 1])];
      TotalSpentAppend(f, done + before, SkippedBand(f, s.bits[hi - 1]));
    }
  }

  lemma {:induction false} SumSplit(s: seq<int>, lo: int, mid: int, hi: int)
    requires 0 <= lo <= mid <= hi <= |s|
    ensures Sum(s, lo, hi) == Sum(s, lo, mid) + Sum(s, mid, hi)
    decreases mid - lo
  {
    if lo < mid { SumSplit(s, lo + 1, mid, hi); }
  }

  lemma FinishSpends(f: Frame, s: Skipping, st: Stereo)
    requires SkipShape(f, f.start, s) && s.psum <= st.total
    requires forall j | 0 <= j < |s.bits| :: s.bits[j] >= 0
    requires forall j | s.coded <= j < f.end :: s.bits[j] == 0 || s.bits[j] == f.Floor()
    ensures var a := Finish(f, s, st);
            && a.balance >= 0
            && (forall i | 0 <= i < |a.bands| :: Sound(f, a.bands[i]))
            && (forall i | s.coded - f.start <= i < |a.bands| :: a.bands[i].pulses == 0)
            && TotalSpent(f, a.bands) + a.balance == Sum(s.bits, f.start, f.end) + st.total - s.psum
  {
    hide Spread, FineBands, Sum, SkippedBand, TotalSpent;
    var left := st.total - s.psum;
    var bits := Spread(f, s, left);
    SpreadsAll(f, s, left);
    FineBandsConserve(f, st.intensity, st.dual, bits, s.coded);
    FineBandsSound(f, st.intensity, st.dual, bits, s.coded);
    var (bands, balance) := FineBands(f, st.intensity, st.dual, bits, s.coded);
    SkippedSum(f, s, bands, f.end);
    SumSplit(s.bits, f.start, s.coded, f.end);
    forall i | s.coded <= i < f.end
      ensures Sound(f, SkippedBand(f, s.bits[i])) && SkippedBand(f, s.bits[i]).pulses == 0
    {
      SkippedBandSpendsAll(f, s.bits[i]);
    }
  }

  // ---------------------------------------------------------------- the ledger

  /** The whole budget, for any input, either direction, any flags and any policy: what
      each band was given, the balance handed on, one bit per skip flag coded, the
      intensity reserve as it stood at the end and the dual-stereo bit if it was coded. */
  lemma Ledger(f: Frame, trim: int, offsets: seq<int>, total: int, intensity: int, dual: nat, policy: Policy, c: Coder)
    requires f.Valid() && |offsets| == f.mode.Bands() && dual <= 1
    requires forall j | 0 <= j < |offsets| :: offsets[j] >= 0
    requires c.Encoding? && f.channels == 2 ==> f.start <= intensity
    ensures var o := Allocate(f, trim, offsets, total, intensity, dual, policy, c).0;
            var a := o.alloc;
            && Max(total, 0) == TotalSpent(f, a.bands) + a.balance
                                + BIT * o.skipFlags + o.intensityReserve + o.dualReserve
            && f.start < a.coded <= f.end && |a.bands| == f.end - f.start
            && 0 <= a.balance && 0 <= o.intensityReserve && 0 <= o.dualReserve
            && (forall i | 0 <= i < |a.bands| :: Sound(f, a.bands[i]))
            && (forall i | a.coded - f.start <= i < |a.bands| :: a.bands[i].pulses == 0)
  {
    hide Skip, Initial, Reserve, Finish, TotalSpent, Sum, SkipStart;
    var rsv := Reserve(f, total);
    ReserveAccounts(f, total);
    StartsSound(f, trim, offsets, total);
    var s0 := Initial(f, trim, offsets, rsv);
    var skipStart := SkipStart(f, offsets, f.end);
    var budget := Max(total, 0) - rsv.dual;
    SkipLedger(f, budget, skipStart, rsv.skip, policy, s0, c);
    ReserveStaysZero(f, skipStart, rsv.skip, policy, s0, c);
    var (s, c1) := Skip(f, skipStart, rsv.skip, policy, s0, c);
    var (st, c2) := CodeStereo(f, s, rsv.dual, intensity, dual, c1);
    FinishSpends(f, s, st);
  }
}
