/** The comb filter: the scalar recurrence, and the form that runs it in blocks on one buffer. */
module Comb {

  type int32 = i: int | -0x8000_0000 <= i < 0x8000_0000
  type int16 = i: int | -0x8000 <= i < 0x8000

  const SIG_SAT: int32 := 536870911

  /** Two's-complement addition wraps. */
  function Wrap(n: int): (w: int32) { (n + 0x8000_0000) % 0x1_0000_0000 - 0x8000_0000 }

  lemma WrapAdds(a: int, b: int)
    ensures Wrap(Wrap(a) + b) == Wrap(a + b)
  {
    var k := (a + 0x8000_0000) / 0x1_0000_0000;
    assert Wrap(a) == a - k * 0x1_0000_0000;
    assert a + b + 0x8000_0000 == (Wrap(a) + b + 0x8000_0000) + k * 0x1_0000_0000;
    Shifts(Wrap(a) + b + 0x8000_0000, k);
  }

  lemma Shifts(n: int, k: int)
    ensures (n + k * 0x1_0000_0000) % 0x1_0000_0000 == n % 0x1_0000_0000
  {
  }

  /** MULT16_32_Q15: the product shifted toward minus infinity, cut to 32 bits. */
  function Mult(g: int16, x: int32): (m: int32) { Wrap(g * x / 0x8000) }

  function Saturate(x: int32, a: int32): (s: int32)
    requires a >= 0
  {
    if x > a then a else if x < -a then -a else x
  }

  datatype Gains = Gains(g10: int16, g11: int16, g12: int16)

  /** The sum of the five taps, as the scalar filter adds them to the sample. */
  function Tapped(x: int32, g: Gains, x0: int32, x1: int32, x2: int32, x3: int32, x4: int32): (v: int32) {
    Wrap(Wrap(Wrap(x + Mult(g.g10, x2)) + Mult(g.g11, Wrap(x1 + x3))) + Mult(g.g12, Wrap(x0 + x4)))
  }

  /** The fixed-point bias, then saturation. */
  function Biased(v: int): (y: int32) { Saturate(Wrap(v - 1), SIG_SAT) }

  function Add32(a: int, b: int): (s: int32) { Wrap(a + b) }

  function Output(x: int32, g: Gains, x0: int32, x1: int32, x2: int32, x3: int32, x4: int32): (y: int32) {
    Biased(Tapped(x, g, x0, x1, x2, x3, x4))
  }

  predicate In32(n: int) { -0x8000_0000 <= n < 0x8000_0000 }

  /** A gain is in 32768ths; what is left over is rounded down. */
  function Share(g: int, x: int): (s: int) { g * x / 32768 }

  /** Where nothing overflows an output is the sample, the tap at the lag, the pair next to it and the
      pair after that, each with its gain, less the bias of one, kept within 2^29 - 1. */
  lemma Unwrapped(x: int32, g: Gains, x0: int32, x1: int32, x2: int32, x3: int32, x4: int32)
    requires In32(x1 + x3) && In32(x0 + x4)
    requires var a, b, c := Share(g.g10, x2), Share(g.g11, x1 + x3), Share(g.g12, x0 + x4);
             In32(a) && In32(b) && In32(c) && In32(x + a) && In32(x + a + b) && In32(x + a + b + c) && In32(x + a + b + c - 1)
    ensures var v := x + Share(g.g10, x2) + Share(g.g11, x1 + x3) + Share(g.g12, x0 + x4) - 1;
            Output(x, g, x0, x1, x2, x3, x4) == if v > 536870911 then 536870911 else if v < -536870911 then -536870911 else v
  {
    hide Share, Mult, Wrap;
    Gained(g.g10, x2);
    Gained(g.g11, x1 + x3);
    Gained(g.g12, x0 + x4);
    Unwraps(x1 + x3); Unwraps(x0 + x4);
    var a, b, c := Share(g.g10, x2), Share(g.g11, x1 + x3), Share(g.g12, x0 + x4);
    Unwraps(x + a); Unwraps(x + a + b); Unwraps(x + a + b + c); Unwraps(x + a + b + c - 1);
  }

  lemma Unwraps(n: int)
    requires In32(n)
    ensures Wrap(n) == n
  {
  }

  lemma Gained(g: int16, x: int32)
    requires In32(Share(g, x))
    ensures Mult(g, x) == Share(g, x)
  {
    Unwraps(Share(g, x));
  }

  // ---------------------------------------------------------------- the recurrence

  /** One filtering: the input buffer as it was, where the signal begins in it, the lag, and
      whether the output goes over the input. */
  datatype Job = Job(x: seq<int32>, xb: nat, lag: nat, gains: Gains, inPlace: bool)

  /** The buffer holds the signal and every sample a tap reaches, back or ahead. */
  predicate Sane(j: Job, n: nat) {
    j.lag + 2 <= j.xb && j.xb + n <= |j.x| && j.xb + n + 2 <= |j.x| + j.lag
  }

  predicate Reached(j: Job, n: nat, k: int) {
    0 <= k + j.lag + 2 && k + j.lag < n + 2
  }

  /** The signal the taps read at position `k`. A tap is loaded two samples ahead of the lag: in
      place, and at a lag of three or more, that is after the position became output. */
  function Signal(j: Job, n: nat, k: int): (s: int32)
    requires Sane(j, n) && Reached(j, n, k)
    decreases if j.lag >= 3 then k + j.lag + 2 else 0, 0
  {
    if j.inPlace && k >= 0 && j.lag >= 3 then Filtered(j, n, k) else j.x[j.xb + k]
  }

  /** Output `i`: the sample, five taps around the lag, the bias, saturation. */
  function Filtered(j: Job, n: nat, i: nat): (y: int32)
    requires Sane(j, n) && i < n
    decreases if j.lag >= 3 then i + j.lag + 1 else 0, 1
  {
    var t := i - j.lag;
    Output(j.x[j.xb + i], j.gains, Signal(j, n, t + 2), Signal(j, n, t + 1), Signal(j, n, t), Signal(j, n, t - 1), Signal(j, n, t - 2))
  }

  /** The output buffer once the first `done` outputs are written at `yb`. */
  ghost predicate Written(j: Job, n: nat, y0: seq<int32>, yb: nat, y: seq<int32>, done: nat)
    requires Sane(j, n) && done <= n && yb + n <= |y0|
  {
    && |y| == |y0|
    && (forall i | 0 <= i < done :: y[yb + i] == Filtered(j, n, i))
    && (forall k | 0 <= k < |y| && !(yb <= k < yb + done) :: y[k] == y0[k])
  }

  /** What a tap finds in the buffer is the signal, when all before `done` is written. */
  lemma TapReads(j: Job, n: nat, x: seq<int32>, done: nat, k: int)
    requires Sane(j, n) && done <= n && Reached(j, n, k)
    requires if j.lag >= 3 then k < done else k < 0 || k >= done
    requires if j.inPlace then Written(j, n, j.x, j.xb, x, done) else x == j.x
    ensures x[j.xb + k] == Signal(j, n, k)
  {
    hide Filtered;
  }

  /** Two ways of running the filter that both write the recurrence leave the same buffer. */
  lemma OneResult(j: Job, n: nat, y0: seq<int32>, yb: nat, y: seq<int32>, z: seq<int32>)
    requires Sane(j, n) && yb + n <= |y0| && Written(j, n, y0, yb, y, n) && Written(j, n, y0, yb, z, n)
    ensures y == z
  {
    hide Filtered;
    forall k | 0 <= k < |y| ensures y[k] == z[k] {
      if yb <= k < yb + n {
        var i := k - yb;
        assert y[yb + i] == Filtered(j, n, i) == z[yb + i];
      }
    }
  }

  lemma WrittenMore(j: Job, n: nat, y0: seq<int32>, yb: nat, y: seq<int32>, i: nat)
    requires Sane(j, n) && i < n && yb + n <= |y0| && Written(j, n, y0, yb, y, i)
    ensures Written(j, n, y0, yb, y[yb + i := Filtered(j, n, i)], i + 1)
  {
    hide Filtered;
  }

  /** The sample itself is still there when its output is due. */
  lemma SampleReads(j: Job, n: nat, x: seq<int32>, i: nat)
    requires Sane(j, n) && i < n
    requires if j.inPlace then Written(j, n, j.x, j.xb, x, i) else x == j.x
    ensures x[j.xb + i] == j.x[j.xb + i]
  {
    hide Filtered;
  }

  /** What the buffers hold part of the way: the output as far as it goes, the input as it was
      or, in place, the same buffer. */
  ghost predicate Progress(j: Job, n: nat, y0: seq<int32>, yb: nat, y: seq<int32>, x: seq<int32>, done: nat)
    requires Sane(j, n) && done <= n && yb + n <= |y0|
  {
    && Written(j, n, y0, yb, y, done)
    && if j.inPlace then y0 == j.x && yb == j.xb && x == y else x == j.x
  }

  /** The scalar filter: taps carried from sample to sample in registers. */
  method Scalar(y: array<int32>, yb: nat, x: array<int32>, xb: nat, lag: nat, n: nat, g: Gains)
    requires y == x ==> yb == xb
    requires Sane(Job(x[..], xb, lag, g, y == x), n) && yb + n <= y.Length
    modifies y
    ensures Written(Job(old(x[..]), xb, lag, g, y == x), n, old(y[..]), yb, y[..], n)
  {
    hide Filtered, Output, Written, Tapped, Biased, Signal;
    ghost var j, y0 := Job(x[..], xb, lag, g, y == x), y[..];
    NothingWritten(j, n, y0, yb);
    TapReads(j, n, x[..], 0, 0 - lag - 2);
    TapReads(j, n, x[..], 0, 0 - lag - 1);
    TapReads(j, n, x[..], 0, 0 - lag);
    TapReads(j, n, x[..], 0, 1 - lag);
    var x4, x3, x2, x1 := x[xb - lag - 2], x[xb - lag - 1], x[xb - lag], x[xb - lag + 1];
    for i := 0 to n
      invariant Progress(j, n, y0, yb, y[..], x[..], i)
      invariant x4 == Signal(j, n, i - lag - 2) && x3 == Signal(j, n, i - lag - 1) && x2 == Signal(j, n, i - lag) && x1 == Signal(j, n, i - lag + 1)
    {
      ghost var ys := y[..];
      TapReads(j, n, x[..], i, i - lag + 2);
      SampleReads(j, n, x[..], i);
      var x0 := x[xb + i - lag + 2];
      var v := Tapped(x[xb + i], g, x0, x1, x2, x3, x4);
      IsFiltered(j, n, i, x0, x1, x2, x3, x4);
      OutputIs(x[xb + i], g, x0, x1, x2, x3, x4);
      WrittenMore(j, n, y0, yb, ys, i);
      y[yb + i] := Biased(v);
      assert y[..] == ys[yb + i := Filtered(j, n, i)];
      x4, x3, x2, x1 := x3, x2, x1, x0;
    }
  }

  lemma NothingWritten(j: Job, n: nat, y0: seq<int32>, yb: nat)
    requires Sane(j, n) && yb + n <= |y0|
    ensures Written(j, n, y0, yb, y0, 0)
  {
  }

  lemma OutputIs(x: int32, g: Gains, x0: int32, x1: int32, x2: int32, x3: int32, x4: int32)
    ensures Output(x, g, x0, x1, x2, x3, x4) == Biased(Tapped(x, g, x0, x1, x2, x3, x4))
  {
  }

  lemma IsFiltered(j: Job, n: nat, i: nat, x0: int32, x1: int32, x2: int32, x3: int32, x4: int32)
    requires Sane(j, n) && i < n
    requires x0 == Signal(j, n, i - j.lag + 2) && x1 == Signal(j, n, i - j.lag + 1) && x2 == Signal(j, n, i - j.lag)
             && x3 == Signal(j, n, i - j.lag - 1) && x4 == Signal(j, n, i - j.lag - 2)
    ensures Filtered(j, n, i) == Output(j.x[j.xb + i], j.gains, x0, x1, x2, x3, x4)
  {
    hide Output;
  }

  // ---------------------------------------------------------------- in blocks

  /** The kernel's sum: the centre tap, then the two mirror pairs, each pair added before its
      one product. */
  function Kernel(g: Gains, w0: int32, w1: int32, w2: int32, w3: int32, w4: int32): (a: int32) {
    Wrap(Wrap(Mult(g.g10, w2) + Mult(g.g11, Wrap(w3 + w1))) + Mult(g.g12, Wrap(w4 + w0)))
  }

  function KernelAt(g: Gains, win: seq<int32>, k: nat): (a: int32)
    requires k + 5 <= |win|
  {
    Kernel(g, win[k], win[k + 1], win[k + 2], win[k + 3], win[k + 4])
  }

  /** FIRSymValidQ15 for two pairs: one output for each window of five samples. */
  method Fir(acc: array<int32>, w: nat, win: seq<int32>, g: Gains)
    requires w <= acc.Length && |win| == w + 4
    modifies acc
    ensures forall k | 0 <= k < w :: acc[k] == KernelAt(g, win, k)
  {
    hide KernelAt;
    for k := 0 to w
      invariant forall i | 0 <= i < k :: acc[i] == KernelAt(g, win, i)
    {
      acc[k] := KernelAt(g, win, k);
    }
  }

  /** Adding the sample last instead of first changes nothing: wrapping addition is associative. */
  lemma KernelTaps(x: int32, g: Gains, x0: int32, x1: int32, x2: int32, x3: int32, x4: int32)
    ensures Output(x, g, x0, x1, x2, x3, x4) == Biased(Add32(Kernel(g, x4, x3, x2, x1, x0), x))
  {
    hide Mult, Wrap, Biased;
    var a, b, c := Mult(g.g10, x2), Mult(g.g11, Wrap(x1 + x3)), Mult(g.g12, Wrap(x0 + x4));
    WrapAdds(x + a, b);
    WrapAdds(x + a + b, c);
    WrapAdds(a + b, c);
    WrapAdds(a + b + c, x);
    assert (a + b + c) + x == x + a + b + c;
  }

  /** The next block: no wider than what is left, than the lag lets it be, than the scratch; and
      when more blocks follow, rounded down to a whole number of vectors if one fits. */
  function Width(left: nat, blockW: nat, tile: nat, align: nat): (w: nat)
    requires left > 0 && blockW > 0 && tile > 0 && align > 0
    ensures 0 < w <= left && w <= blockW && w <= tile
  {
    var w := Min(left, Min(blockW, tile));
    if w < left && w - w % align >= align then w - w % align else w
  }

  function Min(a: nat, b: nat): (m: nat) { if a < b then a else b }

  const MIN_COMB_BLOCK := 32
  const COMB_TILE := 256
  const COMB_VEC_ALIGN := 8

  /** The blocked filter writes what the scalar filter writes, in place or apart, for any lag,
      length, scratch size and rounding. */
  method Blocked(y: array<int32>, yb: nat, x: array<int32>, xb: nat, lag: nat, n: nat, g: Gains, tile: nat := COMB_TILE,
                 align: nat := COMB_VEC_ALIGN)
    requires y == x ==> yb == xb
    requires Sane(Job(x[..], xb, lag, g, y == x), n) && yb + n <= y.Length && tile > 0 && align > 0
    modifies y
    ensures Written(Job(old(x[..]), xb, lag, g, y == x), n, old(y[..]), yb, y[..], n)
  {
    hide Filtered, Output, Written, Biased, Add32, Signal, KernelAt;
    var blockW := lag - 2;
    if blockW < MIN_COMB_BLOCK || n < MIN_COMB_BLOCK {
      Scalar(y, yb, x, xb, lag, n, g);
      return;
    }
    ghost var j, y0 := Job(x[..], xb, lag, g, y == x), y[..];
    var acc := new int32[tile];
    NothingWritten(j, n, y0, yb);
    var base: nat := 0;
    while base < n
      invariant base <= n && Progress(j, n, y0, yb, y[..], x[..], base)
    {
      var w := Width(n - base, blockW, tile, align);
      var s := xb + base;
      var win := x[s - lag - 2..s - lag + 2 + w];
      assert win == x[..][s - lag - 2..s - lag + 2 + w];
      Window(j, n, x[..], base, w, win);
      Fir(acc, w, win, g);
      Tail(j, n, y0, y, yb, x, xb, acc, base, w, win);
      base := base + w;
    }
  }

  /** Every sample of a block's window was final before the block began. */
  lemma Window(j: Job, n: nat, x: seq<int32>, base: nat, w: nat, win: seq<int32>)
    requires Sane(j, n) && base + w <= n && 0 < w <= j.lag - 2 && |x| == |j.x|
    requires if j.inPlace then Written(j, n, j.x, j.xb, x, base) else x == j.x
    requires win == x[j.xb + base - j.lag - 2..j.xb + base - j.lag + 2 + w]
    ensures forall k | 0 <= k < w + 4 :: win[k] == Signal(j, n, base + k - j.lag - 2)
  {
    hide Filtered, Signal, Written;
    forall k | 0 <= k < w + 4 ensures win[k] == Signal(j, n, base + k - j.lag - 2) {
      TapReads(j, n, x, base, base + k - j.lag - 2);
    }
  }

  lemma TailIs(j: Job, n: nat, base: nat, w: nat, win: seq<int32>, k: nat, s: int32)
    requires Sane(j, n) && 3 <= j.lag && base + w <= n && |win| == w + 4 && k < w && s == j.x[j.xb + base + k]
    requires forall i | 0 <= i < w + 4 :: win[i] == Signal(j, n, base + i - j.lag - 2)
    ensures Biased(Add32(KernelAt(j.gains, win, k), s)) == Filtered(j, n, base + k)
  {
    hide Filtered, Output, Biased, Add32, Signal, Kernel;
    assert win[k + 4] == Signal(j, n, base + (k + 4) - j.lag - 2) && win[k + 3] == Signal(j, n, base + (k + 3) - j.lag - 2);
    assert win[k + 2] == Signal(j, n, base + (k + 2) - j.lag - 2) && win[k + 1] == Signal(j, n, base + (k + 1) - j.lag - 2);
    IsFiltered(j, n, base + k, win[k + 4], win[k + 3], win[k + 2], win[k + 1], win[k]);
    KernelTaps(s, j.gains, win[k + 4], win[k + 3], win[k + 2], win[k + 1], win[k]);
  }

  /** The scalar tail of a block: each sample is read before its output goes over it. */
  method Tail(ghost j: Job, ghost n: nat, ghost y0: seq<int32>, y: array<int32>, yb: nat, x: array<int32>, xb: nat, acc: array<int32>,
              base: nat, w: nat, ghost win: seq<int32>)
    requires Sane(j, n) && 3 <= j.lag && xb == j.xb && xb + n <= x.Length && yb + n <= y.Length && base + w <= n && yb + n <= |y0| && |win| == w + 4 && acc != y && acc != x && w <= acc.Length
    requires j.inPlace == (y == x) && Progress(j, n, y0, yb, y[..], x[..], base)
    requires forall k | 0 <= k < w + 4 :: win[k] == Signal(j, n, base + k - j.lag - 2)
    requires forall k | 0 <= k < w :: acc[k] == KernelAt(j.gains, win, k)
    modifies y
    ensures Progress(j, n, y0, yb, y[..], x[..], base + w)
  {
    hide Filtered, Output, Written, Biased, Add32, Signal, KernelAt;
    for k := 0 to w
      invariant Progress(j, n, y0, yb, y[..], x[..], base + k)
      invariant forall i | 0 <= i < w :: acc[i] == KernelAt(j.gains, win, i)
    {
      ghost var ys := y[..];
      SampleReads(j, n, x[..], base + k);
      var s := x[xb + base + k];
      TailIs(j, n, base, w, win, k, s);
      WrittenMore(j, n, y0, yb, ys, base + k);
      y[yb + base + k] := Biased(Add32(acc[k], s));
      assert y[..] == ys[yb + (base + k) := Filtered(j, n, base + k)];
    }
  }

  /** Run in place on two buffers holding the same, the two filters leave the same. */
  method Refines(lag: nat, n: nat, g: Gains, xb: nat, x: array<int32>, z: array<int32>, tile: nat, align: nat)
    requires tile > 0 && align > 0
    requires x != z && x[..] == z[..] && Sane(Job(x[..], xb, lag, g, true), n)
    modifies x, z
    ensures x[..] == z[..]
  {
    ghost var j, y0 := Job(x[..], xb, lag, g, true), x[..];
    Scalar(x, xb, x, xb, lag, n, g);
    Blocked(z, xb, z, xb, lag, n, g, tile, align);
    OneResult(j, n, y0, xb, x[..], z[..]);
  }

  /** Run apart, from one input into two outputs that held the same, they leave the same. */
  method RefinesApart(lag: nat, n: nat, g: Gains, xb: nat, x: array<int32>, yb: nat, y: array<int32>, z: array<int32>, tile: nat, align: nat)
    requires tile > 0 && align > 0 && x != y && x != z && y != z && y[..] == z[..] && yb + n <= y.Length
    requires Sane(Job(x[..], xb, lag, g, false), n)
    modifies y, z
    ensures y[..] == z[..]
  {
    ghost var j, y0 := Job(x[..], xb, lag, g, false), y[..];
    Scalar(y, yb, x, xb, lag, n, g);
    Blocked(z, yb, x, xb, lag, n, g, tile, align);
    OneResult(j, n, y0, yb, y[..], z[..]);
  }
}
