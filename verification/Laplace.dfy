/** The Laplace coder of coarse energy deltas (internal/celt/laplace.go; RFC 6716
    section 4.3.2.1).

    The range [0, 32768) holds a slot for 0, then a pair of slots for -m and +m at each
    magnitude m, shrinking by the decay rate, then pairs of slots of width one.  The
    encoder clamps magnitudes past the last pair.  All the source's arithmetic is
    unsigned 32-bit; where the layout has room nothing exceeds 32768, so nothing wraps. */
module Laplace {
  const TOTAL: nat := 32768
  const MIN_P: nat := 1
  const GUARANTEED: nat := 16     // laplaceNmin: pairs kept for the tail

  function Min(a: int, b: int): int { if a < b then a else b }
  function Abs(v: int): nat { if v < 0 then -v else v }

  ghost predicate ValidModel(fs: nat, decay: nat) {
    0 < fs <= TOTAL - 2 * GUARANTEED * MIN_P && 0 < decay < 16384
  }

  /** ecLaplaceGetFreq1: the width of the slots of -1 and +1, less the minimum. */
  function Freq1(fs: nat, decay: nat): (f: nat)
    requires ValidModel(fs, decay)
  {
    ProductNonNegative(TOTAL - 2 * GUARANTEED * MIN_P - fs, 16384 - decay);
    (TOTAL - 2 * GUARANTEED * MIN_P - fs) * (16384 - decay) / 32768
  }

  lemma ProductNonNegative(a: int, b: int)
    requires 0 <= a && 0 <= b
    ensures 0 <= a * b
  {
  }

  lemma ProductShrinks(f: nat, decay: nat, whole: nat)
    requires decay < whole
    ensures 0 <= f * decay && (f > 0 ==> f * decay < f * whole)
  {
  }

  /** The width one magnitude further out. */
  function Decayed(f: nat, decay: nat): (g: nat)
    requires decay < 16384
    ensures f > 0 ==> g < f
  {
    ProductShrinks(f, decay, 16384);
    2 * (f * decay) / 32768
  }

  lemma DecayedOfDouble(f: nat, twice: nat, decay: nat)
    requires decay < 16384 && twice == 2 * f
    ensures twice * decay / 32768 == Decayed(f, decay)
  {
    assert twice * decay == 2 * (f * decay);
  }

  /** Where the slots of width one begin, from a level that starts at fl with width f. */
  function TailStart(fl: nat, f: nat, decay: nat): (t: nat)
    requires decay < 16384
    ensures fl <= t && (f > 0 ==> fl + 2 * (f + 1) <= t)
    decreases f
  {
    if f == 0 then fl else TailStart(fl + 2 * (f + 1), Decayed(f, decay), decay)
  }

  /** The decaying part leaves room for at least one pair of the tail. */
  ghost predicate Room(fs: nat, decay: nat)
    requires ValidModel(fs, decay)
  {
    TailStart(fs, Freq1(fs, decay), decay) + 2 * MIN_P <= TOTAL
  }

  /** A coded value and its slot [low, high). */
  datatype Slot = Slot(value: int, low: int, high: int)

  function Signed(magnitude: int, negative: bool): int { if negative then -magnitude else magnitude }

  // ---------------------------------------------------------------- encoder

  /** The slot at the level of magnitude i, where the search stopped. */
  function SlotHere(i: nat, fl: nat, f: nat, magnitude: nat, negative: bool): Slot
    requires 1 <= i <= magnitude
  {
    if f == 0 then
      var s := if negative then -1 else 0;
      var ndiMax := (TOTAL - fl - s) / 2;
      var di := Min(magnitude - i, ndiMax - 1);
      var low := fl + (2 * di + 1 + s) * MIN_P;
      Slot(Signed(i + di, negative), low, low + Min(MIN_P, TOTAL - low))
    else
      var low := if negative then fl else fl + f + MIN_P;
      Slot(Signed(i, negative), low, low + f + MIN_P)
  }

  function EncodeFrom(i: nat, fl: nat, f: nat, decay: nat, magnitude: nat, negative: bool): Slot
    requires 1 <= i <= magnitude && decay < 16384
    decreases magnitude - i
  {
    if f > 0 && i < magnitude then
      EncodeFrom(i + 1, fl + 2 * (f + 1), Decayed(f, decay), decay, magnitude, negative)
    else
      SlotHere(i, fl, f, magnitude, negative)
  }

  function Encode(value: int, fs: nat, decay: nat): Slot
    requires ValidModel(fs, decay)
  {
    if value == 0 then Slot(0, 0, fs)
    else EncodeFrom(1, fs, Freq1(fs, decay), decay, Abs(value), value < 0)
  }

  method EcLaplaceEncode(value: int, fs: nat, decay: nat) returns (r: Slot)
    requires ValidModel(fs, decay)
    ensures r == Encode(value, fs, decay)
  {
    var fl, width, coded := 0, fs, value;
    if value != 0 {
      var negative := value < 0;
      var val := Abs(value);
      fl := fs;
      width := Freq1(fs, decay);
      var i := 1;
      hide Freq1, Decayed;
      while width > 0 && i < val
        invariant 1 <= i <= val && fl >= 0 && width >= 0
        invariant EncodeFrom(i, fl, width, decay, val, negative) == Encode(value, fs, decay)
        decreases val - i
      {
        fl := fl + 2 * width + 2 * MIN_P;
        width := Decayed(width, decay);
        i := i + 1;
      }
      if width == 0 {
        var s := if negative then -1 else 0;
        var ndiMax := (TOTAL - fl - s) / 2;
        var di := Min(val - i, ndiMax - 1);
        fl := fl + (2 * di + 1 + s) * MIN_P;
        width := Min(MIN_P, TOTAL - fl);
        coded := Signed(i + di, negative);
      } else {
        width := width + MIN_P;
        if !negative { fl := fl + width; }
      }
    }
    r := Slot(coded, fl, fl + width);
  }

  // ---------------------------------------------------------------- decoder

  function DecodeFrom(i: nat, fl: nat, f: nat, decay: nat, fm: nat): Slot
    requires 1 <= i && decay < 16384 && fl <= fm
    decreases f
  {
    if f > 0 && fm >= fl + 2 * (f + 1) then
      DecodeFrom(i + 1, fl + 2 * (f + 1), Decayed(f, decay), decay, fm)
    else
      var di := if f == 0 then (fm - fl) / 2 else 0;
      var low := fl + 2 * di;
      var negative := fm < low + f + 1;
      var start := if negative then low else low + f + 1;
      Slot(Signed(i + di, negative), start, Min(start + f + 1, TOTAL))
  }

  function Decode(fm: nat, fs: nat, decay: nat): Slot
    requires ValidModel(fs, decay)
  {
    if fm < fs then Slot(0, 0, Min(fs, TOTAL)) else DecodeFrom(1, fs, Freq1(fs, decay), decay, fm)
  }

  method EcLaplaceDecode(fm: nat, fs0: nat, decay: nat) returns (r: Slot)
    requires ValidModel(fs0, decay)
    ensures r == Decode(fm, fs0, decay)
  {
    var fl: nat, fs: nat, val: int := 0, fs0, 0;
    if fm >= fs {
      val := 1;
      fl := fs;
      fs := Freq1(fs, decay) + MIN_P;
      hide Freq1, Decayed;
      while fs > MIN_P && fm >= fl + 2 * fs
        invariant val >= 1 && fs >= MIN_P && fl <= fm
        invariant DecodeFrom(val, fl, fs - MIN_P, decay, fm) == Decode(fm, fs0, decay)
        decreases fs
      {
        ghost var f := fs - MIN_P;
        fs := fs * 2;
        fl := fl + fs;
        DecayedOfDouble(f, fs - 2 * MIN_P, decay);
        fs := (fs - 2 * MIN_P) * decay / 32768;
        fs := fs + MIN_P;
        val := val + 1;
      }
      if fs <= MIN_P {
        var di := (fm - fl) / 2;
        val := val + di;
        fl := fl + 2 * di * MIN_P;
      }
      if fm < fl + fs {
        val := -val;
      } else {
        fl := fl + fs;
      }
    }
    r := Slot(val, fl, Min(fl + fs, TOTAL));
  }

  // ---------------------------------------------------------------- the coder inverts

  /** Encoding never moves below the level it searches from, and stays in range. */
  lemma {:induction false} EncodeStaysAbove(i: nat, fl: nat, f: nat, decay: nat, magnitude: nat, negative: bool)
    requires 1 <= i <= magnitude && decay < 16384
    requires TailStart(fl, f, decay) + 2 <= TOTAL
    ensures var s := EncodeFrom(i, fl, f, decay, magnitude, negative);
            && fl <= s.low < s.high <= TOTAL
            && i <= Abs(s.value) <= magnitude && (s.value < 0) == negative
    decreases magnitude - i
  {
    hide Decayed;
    if f > 0 && i < magnitude {
      EncodeStaysAbove(i + 1, fl + 2 * (f + 1), Decayed(f, decay), decay, magnitude, negative);
    }
  }

  lemma {:induction false} DecodeInvertsFrom(i: nat, fl: nat, f: nat, decay: nat, magnitude: nat, negative: bool, fm: nat)
    requires 1 <= i <= magnitude && decay < 16384
    requires TailStart(fl, f, decay) + 2 <= TOTAL
    requires var s := EncodeFrom(i, fl, f, decay, magnitude, negative); s.low <= fm < s.high
    ensures fl <= fm && DecodeFrom(i, fl, f, decay, fm) == EncodeFrom(i, fl, f, decay, magnitude, negative)
    decreases magnitude - i
  {
    hide Decayed;
    EncodeStaysAbove(i, fl, f, decay, magnitude, negative);
    if f > 0 && i < magnitude {
      EncodeStaysAbove(i + 1, fl + 2 * (f + 1), Decayed(f, decay), decay, magnitude, negative);
      DecodeInvertsFrom(i + 1, fl + 2 * (f + 1), Decayed(f, decay), decay, magnitude, negative, fm);
    }
  }

  /** Whatever point of the encoder's slot the range decoder reports, the decoder returns
      the value as the encoder clamped it, and the very same slot. */
  lemma DecodeInvertsEncode(value: int, fs: nat, decay: nat, fm: nat)
    requires ValidModel(fs, decay) && Room(fs, decay)
    requires var s := Encode(value, fs, decay); s.low <= fm < s.high
    ensures Decode(fm, fs, decay) == Encode(value, fs, decay)
  {
    if value != 0 {
      hide Freq1;
      DecodeInvertsFrom(1, fs, Freq1(fs, decay), decay, Abs(value), value < 0, fm);
    }
  }

  lemma {:induction false} EncodeInvertsFrom(i: nat, fl: nat, f: nat, decay: nat, fm: nat)
    requires 1 <= i && decay < 16384 && fl <= fm < TOTAL
    requires TailStart(fl, f, decay) + 2 <= TOTAL
    ensures var s := DecodeFrom(i, fl, f, decay, fm);
            && s.low <= fm < s.high && i <= Abs(s.value)
            && EncodeFrom(i, fl, f, decay, Abs(s.value), s.value < 0) == s
    decreases f
  {
    hide Decayed;
    if f > 0 && fm >= fl + 2 * (f + 1) {
      EncodeInvertsFrom(i + 1, fl + 2 * (f + 1), Decayed(f, decay), decay, fm);
    }
  }

  /** The slots tile [0, 32768): every point decodes to a value whose slot it is in. */
  lemma EncodeInvertsDecode(fm: nat, fs: nat, decay: nat)
    requires ValidModel(fs, decay) && Room(fs, decay) && fm < TOTAL
    ensures var s := Decode(fm, fs, decay);
            s.low <= fm < s.high && Encode(s.value, fs, decay) == s
  {
    if fm >= fs {
      hide Freq1;
      EncodeInvertsFrom(1, fs, Freq1(fs, decay), decay, fm);
    }
  }

  /** Every value has a slot, and slots of different coded values are disjoint. */
  lemma SlotsAreDisjoint(v: int, w: int, fs: nat, decay: nat)
    requires ValidModel(fs, decay) && Room(fs, decay)
    ensures var s, t := Encode(v, fs, decay), Encode(w, fs, decay);
            && 0 <= s.low < s.high <= TOTAL
            && (s.value != t.value ==> s.high <= t.low || t.high <= s.low)
  {
    hide Freq1;
    var s, t := Encode(v, fs, decay), Encode(w, fs, decay);
    if v != 0 { EncodeStaysAbove(1, fs, Freq1(fs, decay), decay, Abs(v), v < 0); }
    if w != 0 { EncodeStaysAbove(1, fs, Freq1(fs, decay), decay, Abs(w), w < 0); }
    if s.value != t.value && s.low < t.high && t.low < s.high {
      var fm := if s.low < t.low then t.low else s.low;
      DecodeInvertsEncode(v, fs, decay, fm);
      DecodeInvertsEncode(w, fs, decay, fm);
    }
  }

  // ---------------------------------------------------------------- where the slots are

  function Width(s: Slot): (w: int) { s.high - s.low }

  /** The slots of a magnitude: -m, then +m right above it, equally wide, if neither is clamped. */
  lemma {:induction false} PairFrom(i: nat, fl: nat, f: nat, decay: nat, m: int)
    requires 1 <= i <= m && decay < 16384 && TailStart(fl, f, decay) + 2 <= TOTAL
    ensures var minus, plus := EncodeFrom(i, fl, f, decay, m, true), EncodeFrom(i, fl, f, decay, m, false);
            && (m == i ==> minus.low == fl && Width(minus) == f + 1)
            && (plus.value == m ==> minus.value == -m && minus.high == plus.low && Width(minus) == Width(plus))
    decreases m - i
  {
    hide Decayed;
    EncodeStaysAbove(i, fl, f, decay, m, false);
    EncodeStaysAbove(i, fl, f, decay, m, true);
    if f > 0 && i < m {
      PairFrom(i + 1, fl + 2 * (f + 1), Decayed(f, decay), decay, m);
    }
  }

  /** The next magnitude's pair starts where this one's ends, narrower by the decay in 16384ths on all
      but the minimum of one. */
  lemma {:induction false} NextFrom(i: nat, fl: nat, f: nat, decay: nat, m: nat)
    requires 1 <= i <= m && decay < 16384 && TailStart(fl, f, decay) + 2 <= TOTAL
    requires EncodeFrom(i, fl, f, decay, m + 1, false).value == m + 1
    ensures var plus, next := EncodeFrom(i, fl, f, decay, m, false), EncodeFrom(i, fl, f, decay, m + 1, true);
            && plus.value == m && plus.high == next.low
            && Width(plus) >= 1 && Width(next) == 1 + Decayed(Width(plus) - 1, decay)
    decreases m - i
  {
    hide Decayed, SlotHere;
    EncodeStaysAbove(i, fl, f, decay, m + 1, false);
    if f > 0 && i < m {
      NextFrom(i + 1, fl + 2 * (f + 1), Decayed(f, decay), decay, m);
    } else {
      NextHere(i, fl, f, decay, m);
    }
  }

  lemma NextHere(i: nat, fl: nat, f: nat, decay: nat, m: nat)
    requires 1 <= i <= m && decay < 16384 && TailStart(fl, f, decay) + 2 <= TOTAL && (f == 0 || i == m)
    requires EncodeFrom(i, fl, f, decay, m + 1, false).value == m + 1
    ensures var plus, next := EncodeFrom(i, fl, f, decay, m, false), EncodeFrom(i, fl, f, decay, m + 1, true);
            && plus.value == m && plus.high == next.low
            && Width(plus) >= 1 && Width(next) == 1 + Decayed(Width(plus) - 1, decay)
  {
    EncodeStaysAbove(i, fl, f, decay, m + 1, false);
    if f > 0 {
      PairFrom(i + 1, fl + 2 * (f + 1), Decayed(f, decay), decay, m + 1);
    }
  }

  /** The layout of the range: 0 first, then -1 and +1, sharing with 0 what the tail's reserve and the
      decay leave; every pair after that adjoins the one before. Clamped values aside this fixes every
      slot. */
  lemma SlotsInOrder(m: int, fs: nat, decay: nat)
    requires ValidModel(fs, decay) && Room(fs, decay) && m >= 1 && Encode(m, fs, decay).value == m
    ensures Encode(0, fs, decay).low == 0 && Encode(0, fs, decay).high == fs == Encode(-1, fs, decay).low
    ensures var share := (32736 - fs) * (16384 - decay); Width(Encode(-1, fs, decay)) == 1 + share / 32768
    ensures Encode(-m, fs, decay).value == -m && Encode(-m, fs, decay).high == Encode(m, fs, decay).low
    ensures Width(Encode(-m, fs, decay)) == Width(Encode(m, fs, decay)) >= 1
    ensures m > 1 ==> Encode(m - 1, fs, decay).value == m - 1 && Encode(m - 1, fs, decay).high == Encode(-m, fs, decay).low
    ensures m > 1 ==> var before := (Width(Encode(m - 1, fs, decay)) - 1) * decay; Width(Encode(m, fs, decay)) == 1 + before / 16384
  {
    hide Freq1, TailStart, EncodeFrom, Decayed;
    var f := Freq1(fs, decay);
    EncodeStaysAbove(1, fs, f, decay, m, false);
    PairFrom(1, fs, f, decay, m);
    PairFrom(1, fs, f, decay, 1);
    ShareIs(fs, decay);
    if m > 1 {
      NextFrom(1, fs, f, decay, m - 1);
      DecayedQuotient(Width(Encode(m - 1, fs, decay)) - 1, decay);
    }
  }

  lemma ShareIs(fs: nat, decay: nat)
    requires ValidModel(fs, decay)
    ensures var share := (32736 - fs) * (16384 - decay); Freq1(fs, decay) == share / 32768
  {
  }

  // ---------------------------------------------------------------- when there is room

  /** The number of magnitudes in the decaying part. */
  function Levels(f: nat, decay: nat): nat
    requires decay < 16384
    decreases f
  {
    if f == 0 then 0 else 1 + Levels(Decayed(f, decay), decay)
  }

  /** Exactly which magnitudes are clamped: those past the decaying levels and the pairs
      left over, where a last odd slot goes to the negative value. */
  lemma {:induction false} ClampedIff(i: nat, fl: nat, f: nat, decay: nat, magnitude: nat, negative: bool)
    requires 1 <= i <= magnitude && decay < 16384
    requires TailStart(fl, f, decay) + 2 <= TOTAL
    ensures EncodeFrom(i, fl, f, decay, magnitude, negative).value == Signed(magnitude, negative)
       <==> magnitude < i + Levels(f, decay) + (TOTAL - TailStart(fl, f, decay) + if negative then 1 else 0) / 2
    decreases magnitude - i
  {
    hide Decayed;
    if f > 0 && i < magnitude {
      ClampedIff(i + 1, fl + 2 * (f + 1), Decayed(f, decay), decay, magnitude, negative);
    }
  }

  lemma Distribute(a: int, b: int, w: int)
    ensures (a + b) * w == a * w + b * w
  {
  }

  lemma Cancel(a: int, b: int, w: int)
    requires 0 < w && a * w <= b * w
    ensures a <= b
  {
    if a > b { Distribute(a - b, b, w); ProductNonNegative(a - b - 1, w); Distribute(a - b - 1, 1, w); }
  }

  /** The widths are at most a geometric series; each level also takes its two minimums. */
  lemma {:induction false} GeometricBound(fl: nat, f: nat, decay: nat)
    requires decay < 16384
    ensures (TailStart(fl, f, decay) - fl - 2 * Levels(f, decay)) * (16384 - decay) <= 2 * f * 16384
    decreases f
  {
    if f > 0 {
      var g := Decayed(f, decay);
      GeometricBound(fl + 2 * (f + 1), g, decay);
      var rest := TailStart(fl, f, decay) - (fl + 2 * (f + 1)) - 2 * Levels(g, decay);
      assert 2 * g * 16384 <= 2 * (f * decay);
      hide Decayed, TailStart, Levels;
      GeometricStep(rest, f, decay);
      assert TailStart(fl, f, decay) - fl - 2 * Levels(f, decay) == rest + 2 * f by {
        LevelsUnfold(fl, f, decay);
      }
    }
  }

  lemma LevelsUnfold(fl: nat, f: nat, decay: nat)
    requires decay < 16384 && f > 0
    ensures Levels(f, decay) == 1 + Levels(Decayed(f, decay), decay)
    ensures TailStart(fl, f, decay) == TailStart(fl + 2 * (f + 1), Decayed(f, decay), decay)
  {
  }

  lemma GeometricStep(rest: int, f: nat, decay: nat)
    requires rest * (16384 - decay) <= 2 * (f * decay)
    ensures (rest + 2 * f) * (16384 - decay) <= 2 * f * 16384
  {
    Distribute(rest, 2 * f, 16384 - decay);
  }

  /** The decaying part takes at most the unreserved range, and two minimums a level. */
  lemma TailBound(fs: nat, decay: nat)
    requires ValidModel(fs, decay)
    ensures var f := Freq1(fs, decay);
            TailStart(fs, f, decay) <= TOTAL - 2 * GUARANTEED * MIN_P + 2 * Levels(f, decay)
  {
    var f, w := Freq1(fs, decay), 16384 - decay;
    var t := TailStart(fs, f, decay) - fs - 2 * Levels(f, decay);
    GeometricBound(fs, f, decay);
    ProductNonNegative(TOTAL - 2 * GUARANTEED * MIN_P - fs, w);
    assert 32768 * f <= (TOTAL - 2 * GUARANTEED * MIN_P - fs) * w;
    Cancel(t, TOTAL - 2 * GUARANTEED * MIN_P - fs, w);
  }

  /** With at most 15 decaying levels the 16 guaranteed pairs pay for all the minimums. */
  lemma RoomForFewLevels(fs: nat, decay: nat)
    requires ValidModel(fs, decay) && Levels(Freq1(fs, decay), decay) <= 15
    ensures Room(fs, decay)
  {
    TailBound(fs, decay);
  }

  /** The guarantee laplaceNmin names: deltas of up to 16 either way are never clamped. */
  lemma GuaranteedDeltas(value: int, fs: nat, decay: nat)
    requires ValidModel(fs, decay) && Room(fs, decay) && Abs(value) <= GUARANTEED
    ensures Encode(value, fs, decay).value == value
  {
    if value != 0 {
      hide Freq1, Levels, TailStart, EncodeFrom;
      TailBound(fs, decay);
      ClampedIff(1, fs, Freq1(fs, decay), decay, Abs(value), value < 0);
    }
  }

  /** The least width that n levels at this decay may leave above zero. */
  function Reach(n: nat, decay: nat): nat
    requires 0 < decay
  {
    if n == 0 then 1 else (Reach(n - 1, decay) * 16384 + decay - 1) / decay
  }

  lemma {:induction false} LevelsWithinReach(f: nat, decay: nat, fastest: nat, n: nat)
    requires decay <= fastest && 0 < fastest < 16384 && f < Reach(n, fastest)
    ensures Levels(f, decay) <= n
    decreases f
  {
    if f > 0 {
      ReachStep(f, fastest, Reach(n - 1, fastest));
      DecayedMonotone(f, decay, fastest);
      LevelsWithinReach(Decayed(f, decay), decay, fastest, n - 1);
    }
  }

  lemma DecayedMonotone(f: nat, decay: nat, fastest: nat)
    requires decay <= fastest < 16384
    ensures Decayed(f, decay) <= Decayed(f, fastest)
  {
    ProductMonotone(f, decay, fastest);
  }

  lemma ProductMonotone(f: nat, a: nat, b: nat)
    requires a <= b
    ensures f * a <= f * b
  {
  }

  lemma ReachStep(f: nat, decay: nat, r: nat)
    requires 0 < decay < 16384 && f < (r * 16384 + decay - 1) / decay
    ensures Decayed(f, decay) < r
  {
    var q := (r * 16384 + decay - 1) / decay;
    ProductNonNegative(q - f - 1, decay);
    Distribute(q - f - 1, f + 1, decay);
    Distribute(f, 1, decay);
    assert q * decay <= r * 16384 + decay - 1;
  }

  lemma Freq1Bound(fs: nat, decay: nat, cap: nat)
    requires ValidModel(fs, decay) && (TOTAL - 2 * GUARANTEED * MIN_P - fs) * 16384 <= cap * 32768
    ensures Freq1(fs, decay) <= cap
  {
    var a := TOTAL - 2 * GUARANTEED * MIN_P - fs;
    ProductNonNegative(a, decay);
    assert a * (16384 - decay) == a * 16384 - a * decay;
  }

  lemma ReachNext(n: nat, decay: nat, r: nat, r': nat)
    requires 0 < decay && (n == 0 ==> r == 1) && (n > 0 ==> Reach(n, decay) == r)
    requires r' == (r * 16384 + decay - 1) / decay
    ensures Reach(n + 1, decay) == r'
  {
  }

  lemma ReachAtHalf()
    ensures Reach(14, 8192) == 16384
  {
    hide *;
    ReachNext(0, 8192, 1, 2); ReachNext(1, 8192, 2, 4); ReachNext(2, 8192, 4, 8);
    ReachNext(3, 8192, 8, 16); ReachNext(4, 8192, 16, 32); ReachNext(5, 8192, 32, 64);
    ReachNext(6, 8192, 64, 128); ReachNext(7, 8192, 128, 256); ReachNext(8, 8192, 256, 512);
    ReachNext(9, 8192, 512, 1024); ReachNext(10, 8192, 1024, 2048); ReachNext(11, 8192, 2048, 4096);
    ReachNext(12, 8192, 4096, 8192); ReachNext(13, 8192, 8192, 16384);
  }

  lemma ReachBeyondHalf()
    ensures Reach(15, 8832) == 13639
  {
    hide *;
    ReachNext(0, 8832, 1, 2); ReachNext(1, 8832, 2, 4); ReachNext(2, 8832, 4, 8);
    ReachNext(3, 8832, 8, 15); ReachNext(4, 8832, 15, 28); ReachNext(5, 8832, 28, 52);
    ReachNext(6, 8832, 52, 97); ReachNext(7, 8832, 97, 180); ReachNext(8, 8832, 180, 334);
    ReachNext(9, 8832, 334, 620); ReachNext(10, 8832, 620, 1151); ReachNext(11, 8832, 1151, 2136);
    ReachNext(12, 8832, 2136, 3963); ReachNext(13, 8832, 3963, 7352); ReachNext(14, 8832, 7352, 13639);
  }

  /** So a decay of at most a half has room, whatever the probability of 0. */
  lemma RoomForSlowDecay(fs: nat, decay: nat)
    requires ValidModel(fs, decay) && decay <= 8192
    ensures Room(fs, decay)
  {
    hide Reach, Freq1, Levels, Room;
    Freq1Bound(fs, decay, 16368);
    ReachAtHalf();
    LevelsWithinReach(Freq1(fs, decay), decay, 8192, 14);
    RoomForFewLevels(fs, decay);
  }

  /** A little more than a half has room too, unless 0 is very improbable. */
  lemma RoomForMediumDecay(fs: nat, decay: nat)
    requires ValidModel(fs, decay) && decay <= 138 * 64 && fs >= 48 * 128
    ensures Room(fs, decay)
  {
    hide Reach, Freq1, Levels, Room;
    Freq1Bound(fs, decay, 13296);
    ReachBeyondHalf();
    LevelsWithinReach(Freq1(fs, decay), decay, 8832, 15);
    RoomForFewLevels(fs, decay);
  }

  // ---------------------------------------------------------------- the models in use

  /** eProbModel: per frame size and intra flag (a row), and per band, the probability of
      0 and the decay, both in Q8. */
  const MODELS: seq<seq<(nat, nat)>> := [
    [(72, 127), (65, 129), (66, 128), (65, 128), (64, 128), (62, 128), (64, 128), (64, 128), (92, 78), (92, 79), (92, 78), (90, 79), (116, 41), (115, 40), (114, 40), (132, 26), (132, 26), (145, 17), (161, 12), (176, 10), (177, 11)],
    [(24, 179), (48, 138), (54, 135), (54, 132), (53, 134), (56, 133), (55, 132), (55, 132), (61, 114), (70, 96), (74, 88), (75, 88), (87, 74), (89, 66), (91, 67), (100, 59), (108, 50), (120, 40), (122, 37), (97, 43), (78, 50)],
    [(83, 78), (84, 81), (88, 75), (86, 74), (87, 71), (90, 73), (93, 74), (93, 74), (109, 40), (114, 36), (117, 34), (117, 34), (143, 17), (145, 18), (146, 19), (162, 12), (165, 10), (178, 7), (189, 6), (190, 8), (177, 9)],
    [(23, 178), (54, 115), (63, 102), (66, 98), (69, 99), (74, 89), (71, 91), (73, 91), (78, 89), (86, 80), (92, 66), (93, 64), (102, 59), (103, 60), (104, 60), (117, 52), (123, 44), (138, 35), (133, 31), (97, 38), (77, 45)],
    [(61, 90), (93, 60), (105, 42), (107, 41), (110, 45), (116, 38), (113, 38), (112, 38), (124, 26), (132, 27), (136, 19), (140, 20), (155, 14), (159, 16), (158, 18), (170, 13), (177, 10), (187, 8), (192, 6), (175, 9), (159, 10)],
    [(21, 178), (59, 110), (71, 86), (75, 85), (84, 83), (91, 66), (88, 73), (87, 72), (92, 75), (98, 72), (105, 58), (107, 54), (115, 52), (114, 55), (112, 56), (129, 51), (132, 40), (150, 33), (140, 29), (98, 35), (77, 42)],
    [(42, 121), (96, 66), (108, 43), (111, 40), (117, 44), (123, 32), (120, 36), (119, 33), (127, 33), (134, 34), (139, 21), (147, 23), (152, 20), (158, 25), (154, 26), (166, 21), (173, 16), (184, 13), (184, 10), (150, 13), (139, 15)],
    [(22, 178), (63, 114), (74, 82), (84, 83), (92, 82), (103, 62), (96, 72), (96, 67), (101, 73), (107, 72), (113, 55), (118, 52), (125, 52), (118, 52), (117, 55), (135, 49), (137, 39), (157, 32), (145, 29), (97, 33), (77, 40)]
  ]

  /** One level of a written-out run of the search. */
  lemma Level(fl: nat, f: nat, decay: nat, fl': nat, f': nat)
    requires decay < 16384 && f > 0 && fl' == fl + 2 * (f + 1) && f' == f * decay / 16384
    ensures TailStart(fl, f, decay) == TailStart(fl', f', decay)
  {
    DecayedQuotient(f, decay);
  }

  lemma DecayedQuotient(f: nat, decay: nat)
    requires decay < 16384
    ensures f * decay / 16384 == Decayed(f, decay)
  {
  }

  lemma TailReached(fl: nat, decay: nat)
    requires decay < 16384
    ensures TailStart(fl, 0, decay) == fl
  {
  }

  lemma FastModel21x178()
    ensures Room(21 * 128, 178 * 64)
  {
    assert Freq1(2688, 11392) == 4577;
    FastTail21x178();
    hide TailStart, Freq1;
  }

  lemma FastTail21x178()
    ensures TailStart(2688, 4577, 11392) == 32708
  {
    hide *;
    Level(2688, 4577, 11392, 11844, 3182); Level(11844, 3182, 11392, 18210, 2212); Level(18210, 2212, 11392, 22636, 1538);
    Level(22636, 1538, 11392, 25714, 1069); Level(25714, 1069, 11392, 27854, 743); Level(27854, 743, 11392, 29342, 516);
    Level(29342, 516, 11392, 30376, 358); Level(30376, 358, 11392, 31094, 248); Level(31094, 248, 11392, 31592, 172);
    Level(31592, 172, 11392, 31938, 119); Level(31938, 119, 11392, 32178, 82); Level(32178, 82, 11392, 32344, 57);
    Level(32344, 57, 11392, 32460, 39); Level(32460, 39, 11392, 32540, 27); Level(32540, 27, 11392, 32596, 18);
    Level(32596, 18, 11392, 32634, 12); Level(32634, 12, 11392, 32660, 8); Level(32660, 8, 11392, 32678, 5);
    Level(32678, 5, 11392, 32690, 3); Level(32690, 3, 11392, 32698, 2); Level(32698, 2, 11392, 32704, 1);
    Level(32704, 1, 11392, 32708, 0);
    TailReached(32708, 11392);
  }

  lemma FastModel22x178()
    ensures Room(22 * 128, 178 * 64)
  {
    assert Freq1(2816, 11392) == 4558;
    FastTail22x178();
    hide TailStart, Freq1;
  }

  lemma FastTail22x178()
    ensures TailStart(2816, 4558, 11392) == 32706
  {
    hide *;
    Level(2816, 4558, 11392, 11934, 3169); Level(11934, 3169, 11392, 18274, 2203); Level(18274, 2203, 11392, 22682, 1531);
    Level(22682, 1531, 11392, 25746, 1064); Level(25746, 1064, 11392, 27876, 739); Level(27876, 739, 11392, 29356, 513);
    Level(29356, 513, 11392, 30384, 356); Level(30384, 356, 11392, 31098, 247); Level(31098, 247, 11392, 31594, 171);
    Level(31594, 171, 11392, 31938, 118); Level(31938, 118, 11392, 32176, 82); Level(32176, 82, 11392, 32342, 57);
    Level(32342, 57, 11392, 32458, 39); Level(32458, 39, 11392, 32538, 27); Level(32538, 27, 11392, 32594, 18);
    Level(32594, 18, 11392, 32632, 12); Level(32632, 12, 11392, 32658, 8); Level(32658, 8, 11392, 32676, 5);
    Level(32676, 5, 11392, 32688, 3); Level(32688, 3, 11392, 32696, 2); Level(32696, 2, 11392, 32702, 1);
    Level(32702, 1, 11392, 32706, 0);
    TailReached(32706, 11392);
  }

  lemma FastModel23x178()
    ensures Room(23 * 128, 178 * 64)
  {
    assert Freq1(2944, 11392) == 4538;
    FastTail23x178();
    hide TailStart, Freq1;
  }

  lemma FastTail23x178()
    ensures TailStart(2944, 4538, 11392) == 32708
  {
    hide *;
    Level(2944, 4538, 11392, 12022, 3155); Level(12022, 3155, 11392, 18334, 2193); Level(18334, 2193, 11392, 22722, 1524);
    Level(22722, 1524, 11392, 25772, 1059); Level(25772, 1059, 11392, 27892, 736); Level(27892, 736, 11392, 29366, 511);
    Level(29366, 511, 11392, 30390, 355); Level(30390, 355, 11392, 31102, 246); Level(31102, 246, 11392, 31596, 171);
    Level(31596, 171, 11392, 31940, 118); Level(31940, 118, 11392, 32178, 82); Level(32178, 82, 11392, 32344, 57);
    Level(32344, 57, 11392, 32460, 39); Level(32460, 39, 11392, 32540, 27); Level(32540, 27, 11392, 32596, 18);
    Level(32596, 18, 11392, 32634, 12); Level(32634, 12, 11392, 32660, 8); Level(32660, 8, 11392, 32678, 5);
    Level(32678, 5, 11392, 32690, 3); Level(32690, 3, 11392, 32698, 2); Level(32698, 2, 11392, 32704, 1);
    Level(32704, 1, 11392, 32708, 0);
    TailReached(32708, 11392);
  }

  lemma FastModel24x179()
    ensures Room(24 * 128, 179 * 64)
  {
    assert Freq1(3072, 11456) == 4461;
    FastTail24x179();
    hide TailStart, Freq1;
  }

  lemma FastTail24x179()
    ensures TailStart(3072, 4461, 11456) == 32710
  {
    hide *;
    Level(3072, 4461, 11456, 11996, 3119); Level(11996, 3119, 11456, 18236, 2180); Level(18236, 2180, 11456, 22598, 1524);
    Level(22598, 1524, 11456, 25648, 1065); Level(25648, 1065, 11456, 27780, 744); Level(27780, 744, 11456, 29270, 520);
    Level(29270, 520, 11456, 30312, 363); Level(30312, 363, 11456, 31040, 253); Level(31040, 253, 11456, 31548, 176);
    Level(31548, 176, 11456, 31902, 123); Level(31902, 123, 11456, 32150, 86); Level(32150, 86, 11456, 32324, 60);
    Level(32324, 60, 11456, 32446, 41); Level(32446, 41, 11456, 32530, 28); Level(32530, 28, 11456, 32588, 19);
    Level(32588, 19, 11456, 32628, 13); Level(32628, 13, 11456, 32656, 9); Level(32656, 9, 11456, 32676, 6);
    Level(32676, 6, 11456, 32690, 4); Level(32690, 4, 11456, 32700, 2); Level(32700, 2, 11456, 32706, 1);
    Level(32706, 1, 11456, 32710, 0);
    TailReached(32710, 11456);
  }

  /** The four models that decay fastest. */
  predicate IsFast(m: (nat, nat)) {
    m == (21, 178) || m == (22, 178) || m == (23, 178) || m == (24, 179)
  }

  predicate Listed(m: (nat, nat)) {
    0 < m.0 < 255 && 0 < m.1 && (m.1 <= 128 || (m.1 <= 138 && m.0 >= 48) || IsFast(m))
  }

  lemma ModelsInUse(row: nat)
    requires row < |MODELS|
    ensures |MODELS| == 8 && |MODELS[row]| == 21
    ensures forall band | 0 <= band < 21 :: Listed(MODELS[row][band])
  {
    forall band | 0 <= band < 21 ensures Listed(MODELS[row][band]) {
    }
  }

  /** Every model the codec uses has room, so the coder inverts for all of them. */
  lemma ModelsHaveRoom(row: nat, band: nat)
    requires row < |MODELS| && band < |MODELS[row]|
    ensures var (fs, decay) := (MODELS[row][band].0 * 128, MODELS[row][band].1 * 64);
            ValidModel(fs, decay) && Room(fs, decay)
  {
    ModelsInUse(row);
    var m := MODELS[row][band];
    hide MODELS, Room;
    if m.1 <= 128 {
      RoomForSlowDecay(m.0 * 128, m.1 * 64);
    } else if m.1 <= 138 && m.0 >= 48 {
      RoomForMediumDecay(m.0 * 128, m.1 * 64);
    } else {
      FastModel21x178();
      FastModel22x178();
      FastModel23x178();
      FastModel24x179();
    }
  }
}
