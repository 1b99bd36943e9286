/** Entropy coding of the split angle (the coding part of computeTheta,
    internal/celt/bands.go; RFC 6716 section 4.3.4.3).

    An angle in [0, qn] is coded with one of three densities: a step for stereo, uniform
    for time splits, a triangle otherwise.  Each density cuts [0, ft) into one slot per
    angle, and the decoder finds the slot by division or by an integer square root. */
module Theta {
  import opened RangeCoder

  const P0: int := 3   // the step's weight up to the middle angle

  datatype Density = Step | Uniform | Triangular

  datatype Slot = Slot(low: int, high: int)

  /** A resolution other than 1 is even. */
  predicate ValidQn(qn: int) { 2 <= qn && qn % 2 == 0 }

  function Total(d: Density, qn: int): int {
    match d
    case Step => P0 * (qn / 2 + 1) + qn / 2
    case Uniform => qn + 1
    case Triangular => (qn / 2 + 1) * (qn / 2 + 1)
  }

  /** The slot the encoder codes for angle x. */
  function SlotOf(d: Density, qn: int, x: int): Slot {
    var h := qn / 2;
    match d
    case Step =>
      if x <= h then Slot(P0 * x, P0 * (x + 1))
      else Slot((x - 1 - h) + (h + 1) * P0, (x - h) + (h + 1) * P0)
    case Uniform => Slot(x, x + 1)
    case Triangular =>
      if x <= h then Slot(x * (x + 1) / 2, x * (x + 1) / 2 + x + 1)
      else RightSlot(qn, x)
  }

  /** The descending half of the triangle, also what the decoder recomputes for the middle. */
  function RightSlot(qn: int, x: int): Slot {
    var low := Total(Triangular, qn) - (qn + 1 - x) * (qn + 2 - x) / 2;
    Slot(low, low + qn + 1 - x)
  }

  // ---------------------------------------------------------------- integer square root

  /** EC_ILOG: the number of bits of v. */
  function ILog(v: nat): (n: nat)
    ensures v > 0 ==> n >= 1 && Power2(n - 1) <= v < Power2(n)
  {
    if v == 0 then 0 else if v == 1 then assert Power2(1) == 2; 1 else 1 + ILog(v / 2)
  }

  ghost predicate IsRoot(g: int, v: int) { 0 <= g && g * g <= v < (g + 1) * (g + 1) }

  lemma {:induction false} Power2Doubles(n: nat)
    ensures Power2(2 * n) == Power2(n) * Power2(n)
  {
    if n > 0 {
      Power2Doubles(n - 1);
      assert Power2(2 * n) == 4 * Power2(2 * (n - 1));
    }
  }

  /** Isqrt32 (internal/fixedmath/mathops.go): one bit of the root at a time. */
  method Isqrt32(v0: nat) returns (g: nat)
    requires 1 <= v0 < 0x1_0000_0000
    ensures IsRoot(g, v0)
  {
    hide Square, IsRoot;
    var shift := (ILog(v0) - 1) / 2;
    var b, val := Power2(shift), v0;
    g := 0;
    FirstBit(v0, shift);
    while true
      invariant 0 <= shift && b == Power2(shift) && g >= 0
      invariant val == v0 - Square(g) && val >= 0
      invariant v0 < Square(g + 2 * b)
      decreases shift
    {
      var t := (2 * g + b) * b;
      SquareOfSum(g, b);
      if t <= val {
        g := g + b;
        val := val - t;
      }
      if shift == 0 { break; }
      b := b / 2;
      shift := shift - 1;
    }
    Squares(g, v0);
  }

  function Square(x: int): (s: int) { x * x }

  lemma SquareOfSum(g: int, b: int)
    ensures (2 * g + b) * b == Square(g + b) - Square(g)
  {
  }

  lemma Squares(g: int, v: int)
    ensures IsRoot(g, v) <==> 0 <= g && Square(g) <= v < Square(g + 1)
  {
  }

  lemma FirstBit(v: nat, shift: nat)
    requires v > 0 && shift == (ILog(v) - 1) / 2
    ensures Square(0) == 0 && v < Square(2 * Power2(shift))
  {
    Power2Doubles(shift + 1);
    Pow2Grows(ILog(v), 2 * shift + 2);
  }

  lemma {:induction false} Pow2Grows(m: nat, n: nat)
    requires m <= n
    ensures Power2(m) <= Power2(n)
    decreases n - m
  {
    if m < n { Pow2Grows(m + 1, n); }
  }

  /** The root is unique, so the decoder's formulas have one meaning. */
  lemma RootBounds(g: int, v: int, a: int)
    requires IsRoot(g, v) && a >= 0
    ensures a * a <= v ==> a <= g
    ensures v < a * a ==> g < a
  {
    if a > g { assert a * a >= (g + 1) * (g + 1); }
    if a <= g { assert a * a <= g * g; }
  }

  // ---------------------------------------------------------------- the decoder

  /** The two halves of the triangular decoder, given the root it computes. */
  function LeftAngle(root: int): int { (root - 1) / 2 }
  function RightAngle(qn: int, root: int): int { (2 * (qn + 1) - root) / 2 }

  /** The angle whose slot holds the point read back: the coded one, and no other. */
  method DecodeAngle(d: Density, qn: int, fm: int) returns (x: int, slot: Slot)
    requires ValidQn(qn) && qn <= 256 && 0 <= fm < Total(d, qn)
    ensures 0 <= x <= qn && slot == SlotOf(d, qn, x)
    ensures slot.low <= fm < slot.high
    ensures forall y | 0 <= y <= qn && SlotOf(d, qn, y).low <= fm < SlotOf(d, qn, y).high :: y == x
  {
    hide SlotOf;
    x, slot := Decoded(d, qn, fm);
    forall y | 0 <= y <= qn && SlotOf(d, qn, y).low <= fm < SlotOf(d, qn, y).high ensures y == x {
      AngleOfPointIsUnique(d, qn, x, y, fm);
    }
  }

  method Decoded(d: Density, qn: int, fm: int) returns (x: int, slot: Slot)
    requires ValidQn(qn) && qn <= 256 && 0 <= fm < Total(d, qn)
    ensures 0 <= x <= qn && slot == SlotOf(d, qn, x)
    ensures slot.low <= fm < slot.high
  {
    var h := qn / 2;
    match d {
      case Step =>
        if fm < (h + 1) * P0 {
          x := fm / P0;
        } else {
          x := h + 1 + (fm - (h + 1) * P0);
        }
        slot := SlotOf(Step, qn, x);
      case Uniform =>
        x := fm;
        slot := Slot(x, x + 1);
      case Triangular =>
        var ft := (h + 1) * (h + 1);
        TriangleFits(qn);
        if fm < h * (h + 1) / 2 {
          var root := Isqrt32(8 * fm + 1);
          x := LeftAngle(root);
          LeftAngleFound(h, fm, root);
          slot := Slot(x * (x + 1) / 2, x * (x + 1) / 2 + x + 1);
        } else {
          var root := Isqrt32(8 * (ft - fm - 1) + 1);
          x := RightAngle(qn, root);
          RightAngleFound(qn, fm, root);
          MiddleSlotBothWays(qn);
          slot := RightSlot(qn, x);
        }
    }
  }

  lemma TriangleFits(qn: int)
    requires ValidQn(qn) && qn <= 256
    ensures 0 < Total(Triangular, qn) <= 129 * 129
  {
    var h := qn / 2;
    assert h + 1 <= 129;
    assert (h + 1) * (h + 1) <= 129 * 129;
  }

  method EncodeAngle(d: Density, qn: int, x: nat) returns (slot: Slot, ft: int)
    requires ValidQn(qn) && 0 <= x <= qn
    ensures slot == SlotOf(d, qn, x) && ft == Total(d, qn)
    ensures slot == Slot(WeightBelow(d, qn, x), WeightBelow(d, qn, x + 1)) && ft == WeightBelow(d, qn, qn + 1)
    ensures 0 <= slot.low < slot.high <= ft
  {
    SlotInRange(d, qn, x);
    SlotIsWeight(d, qn, x);
    var h := qn / 2;
    match d {
      case Step =>
        ft := P0 * (h + 1) + h;
        if x <= h {
          slot := Slot(P0 * x, P0 * (x + 1));
        } else {
          slot := Slot((x - 1 - h) + (h + 1) * P0, (x - h) + (h + 1) * P0);
        }
      case Uniform =>
        ft := qn + 1;
        slot := Slot(x, x + 1);
      case Triangular =>
        ft := (h + 1) * (h + 1);
        if x <= h {
          slot := Slot(x * (x + 1) / 2, x * (x + 1) / 2 + x + 1);
        } else {
          var low := ft - (qn + 1 - x) * (qn + 2 - x) / 2;
          slot := Slot(low, low + qn + 1 - x);
        }
    }
  }

  // ---------------------------------------------------------------- triangular numbers

  /** x(x+1)/2 without the division. */
  lemma {:induction false} Triangle(x: nat)
    ensures x * (x + 1) % 2 == 0
    ensures 2 * (x * (x + 1) / 2) == x * (x + 1)
  {
    if x > 0 {
      Triangle(x - 1);
      assert x * (x + 1) == (x - 1) * x + 2 * x;
    }
  }

  lemma TriangleOrder(x: int, y: int)
    requires 0 <= x <= y
    ensures x * (x + 1) <= y * (y + 1)
  {
    assert x * (x + 1) <= y * (x + 1) <= y * (y + 1);
  }

  /** Between two triangular numbers the root formula gives the first one's index. */
  lemma RootOfTriangle(v: int, root: int) returns (x: int)
    requires 0 <= v && IsRoot(root, 8 * v + 1)
    ensures x == (root - 1) / 2 && 0 <= x
    ensures x * (x + 1) <= 2 * v < (x + 1) * (x + 2)
  {
    x := (root - 1) / 2;
    RootBounds(root, 8 * v + 1, 1);
    SquareOrder(2 * x + 1, root);
    SquareOrder(root + 1, 2 * x + 3);
    assert (2 * x + 1) * (2 * x + 1) == 4 * (x * (x + 1)) + 1;
    assert (2 * x + 3) * (2 * x + 3) == 4 * ((x + 1) * (x + 2)) + 1;
  }

  lemma SquareOrder(a: int, b: int)
    requires 0 <= a <= b
    ensures a * a <= b * b
  {
  }

  lemma LeftAngleFound(h: int, fm: int, root: int)
    requires 1 <= h && 0 <= fm < h * (h + 1) / 2 && IsRoot(root, 8 * fm + 1)
    ensures var x := LeftAngle(root);
            0 <= x < h && x * (x + 1) / 2 <= fm < x * (x + 1) / 2 + x + 1
  {
    var x := RootOfTriangle(fm, root);
    Triangle(x);
    Triangle(h);
    if x >= h { TriangleOrder(h, x); }
    assert (x + 1) * (x + 2) == x * (x + 1) + 2 * (x + 1);
  }

  lemma RightAngleFound(qn: int, fm: int, root: int)
    requires ValidQn(qn)
    requires var h := qn / 2; h * (h + 1) / 2 <= fm < (h + 1) * (h + 1)
    requires IsRoot(root, 8 * (Total(Triangular, qn) - fm - 1) + 1)
    ensures var x := RightAngle(qn, root);
            qn / 2 <= x <= qn && RightSlot(qn, x).low <= fm < RightSlot(qn, x).high
  {
    var h := qn / 2;
    var u := Total(Triangular, qn) - fm - 1;
    var z := RootOfTriangle(u, root);
    var x := RightAngle(qn, root);
    assert x == qn - z;
    Triangle(z + 1);
    Triangle(h);
    MiddleSum(h);
    assert (z + 1) * (z + 2) == z * (z + 1) + 2 * (z + 1);
    if z > h { TriangleOrder(h + 1, z); }
  }

  lemma MiddleSum(h: int)
    requires 0 <= h
    ensures 2 * ((h + 1) * (h + 1)) == h * (h + 1) + (h + 1) * (h + 2)
  {
  }

  /** The middle angle's slot is the same from either side. */
  lemma MiddleSlotBothWays(qn: int)
    requires ValidQn(qn)
    ensures RightSlot(qn, qn / 2) == SlotOf(Triangular, qn, qn / 2)
  {
    var h := qn / 2;
    MiddleSum(h);
    Triangle(h);
    Triangle(h + 1);
  }

  // ---------------------------------------------------------------- the densities tile and invert

  lemma SlotInRange(d: Density, qn: int, x: int)
    requires ValidQn(qn) && 0 <= x <= qn
    ensures 0 <= SlotOf(d, qn, x).low < SlotOf(d, qn, x).high <= Total(d, qn)
  {
    if d == Triangular {
      var h := qn / 2;
      MiddleSum(h);
      Triangle(x);
      Triangle(h);
      Triangle(h + 1);
      if x <= h {
        TriangleOrder(x, h);
        assert (h + 1) * (h + 1) == h * (h + 1) + h + 1;
        assert 0 <= x * (x + 1);
      } else {
        var y := qn + 1 - x;
        Triangle(y);
        TriangleOrder(y, h);
        assert y * (y + 1) >= 2 * y;
      }
    }
  }

  /** Slots follow one another without a gap, from 0 to the total. */
  lemma SlotsAreContiguous(d: Density, qn: int, x: int)
    requires ValidQn(qn) && 0 <= x <= qn
    ensures x == 0 ==> SlotOf(d, qn, x).low == 0
    ensures x < qn ==> SlotOf(d, qn, x).high == SlotOf(d, qn, x + 1).low
    ensures x == qn ==> SlotOf(d, qn, x).high == Total(d, qn)
  {
    if d == Triangular {
      var h := qn / 2;
      MiddleSlotBothWays(qn);
      if x < h {
        Triangle(x);
        Triangle(x + 1);
        assert (x + 1) * (x + 2) == x * (x + 1) + 2 * (x + 1);
      } else {
        var y := qn + 1 - x;
        Triangle(y);
        Triangle(y - 1);
        assert y * (y + 1) == (y - 1) * y + 2 * y;
        assert SlotOf(d, qn, x) == RightSlot(qn, x);
      }
    }
  }

  /** How probable an angle is: for stereo three times as much up to the middle as above it, for time
      splits all alike, otherwise rising by one to the middle and falling again. */
  function Weight(d: Density, qn: int, x: int): (w: int) {
    match d
    case Step => if 2 * x <= qn then 3 else 1
    case Uniform => 1
    case Triangular => 1 + if 2 * x <= qn then x else qn - x
  }

  function WeightBelow(d: Density, qn: int, x: nat): (w: int) {
    if x == 0 then 0 else WeightBelow(d, qn, x - 1) + Weight(d, qn, x - 1)
  }

  /** The slot of an angle is its weight, on top of those of all the angles below it. */
  lemma SlotIsWeight(d: Density, qn: int, x: nat)
    requires ValidQn(qn) && x <= qn
    ensures SlotOf(d, qn, x) == Slot(WeightBelow(d, qn, x), WeightBelow(d, qn, x) + Weight(d, qn, x))
    ensures Total(d, qn) == WeightBelow(d, qn, qn + 1)
  {
    hide SlotOf, Total;
    LowIsWeight(d, qn, x);
    WidthIsWeight(d, qn, x);
    LowIsWeight(d, qn, qn);
    WidthIsWeight(d, qn, qn);
    SlotsAreContiguous(d, qn, qn);
  }

  lemma WidthIsWeight(d: Density, qn: int, x: nat)
    requires ValidQn(qn) && x <= qn
    ensures SlotOf(d, qn, x).high - SlotOf(d, qn, x).low == Weight(d, qn, x)
  {
    hide Total;
  }

  lemma {:induction false} LowIsWeight(d: Density, qn: int, x: nat)
    requires ValidQn(qn) && x <= qn
    ensures SlotOf(d, qn, x).low == WeightBelow(d, qn, x)
  {
    hide SlotOf, Total;
    SlotsAreContiguous(d, qn, x);
    if x > 0 {
      SlotsAreContiguous(d, qn, x - 1);
      LowIsWeight(d, qn, x - 1);
      WidthIsWeight(d, qn, x - 1);
    }
  }

  lemma {:induction false} SlotsAreOrdered(d: Density, qn: int, x: int, y: int)
    requires ValidQn(qn) && 0 <= x < y <= qn
    ensures SlotOf(d, qn, x).high <= SlotOf(d, qn, y).low
    decreases y - x
  {
    SlotsAreContiguous(d, qn, y - 1);
    if x < y - 1 {
      SlotsAreOrdered(d, qn, x, y - 1);
      SlotInRange(d, qn, y - 1);
    }
  }

  /** Whatever point of the coded angle's slot is read back, an angle whose slot holds that
      point is the coded one: DecodeAngle can return nothing else. */
  lemma AngleOfPointIsUnique(d: Density, qn: int, x: int, y: int, fm: int)
    requires ValidQn(qn) && 0 <= x <= qn && 0 <= y <= qn
    requires SlotOf(d, qn, x).low <= fm < SlotOf(d, qn, x).high
    requires SlotOf(d, qn, y).low <= fm < SlotOf(d, qn, y).high
    ensures x == y
  {
    if x < y {
      SlotsAreOrdered(d, qn, x, y);
    } else if y < x {
      SlotsAreOrdered(d, qn, y, x);
    }
  }

  // ---------------------------------------------------------------- the resolution

  const EXP2_TABLE: seq<int> := [16384, 17866, 19483, 21247, 23170, 25267, 27554, 30048]

  /** The end of computeQn, from the bits qb it settles on. */
  function QnOf(qb: int): int
    requires qb <= 64
  {
    if qb < 4 then 1
    else
      var q := EXP2_TABLE[qb % 8] / Power2(14 - qb / 8);
      (q + 1) / 2 * 2
  }

  /** Every resolution it gives is 1 (nothing coded) or even and at most 256, as the
      densities need. */
  lemma QnIsEven(qb: int)
    requires qb <= 64
    ensures QnOf(qb) == 1 || (ValidQn(QnOf(qb)) && QnOf(qb) <= 256)
  {
    if 4 <= qb {
      var k, p := qb / 8, Power2(14 - qb / 8);
      var e := EXP2_TABLE[qb % 8];
      assert 16384 <= e <= 30048 && (k == 8 ==> e == 16384);
      Pow2Grows(14 - k, 14);
      assert Power2(14) == 16384 && Power2(7) == 128 && Power2(6) == 64;
      assert 1 <= e / p by { QuotientAtLeastOne(e, p); }
      if k == 8 {
        assert e / p == 256;
      } else {
        Pow2Grows(7, 14 - k);
        QuotientBound(e, p);
      }
    }
  }

  lemma QuotientAtLeastOne(e: int, p: int)
    requires 0 < p <= e
    ensures 1 <= e / p
  {
  }

  lemma QuotientBound(e: int, p: int)
    requires 128 <= p && 0 <= e <= 30048
    ensures e / p <= 234
  {
  }
}
