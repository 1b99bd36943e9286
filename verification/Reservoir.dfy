/** The bit reservoir of constrained variable rate, over whole runs of frames. All rates are in
    eighths of a bit per frame, so a byte is 64 of them. */
module Reservoir {

  const BYTE := 64
  const PACKET_SIZE_CAP := 1275

  /** What one frame brings to rate control: the bytes asked for, whether it is silence, by how
      much the frame is shorter than the longest, the least size that keeps the decisions already
      coded, and what the perceptual model would like to spend. */
  datatype Frame = Frame(request: nat, silence: bool, lmDiff: nat, minAllowed: int, wanted: int)

  /** Requests under two bytes are refused; the least size carries a margin of two bytes. */
  predicate Codable(f: Frame) {
    f.request >= 2 && f.lmDiff <= 3 && f.minAllowed >= 2
  }

  datatype Outcome = Outcome(reservoir: int, bytes: int)

  function Min(a: int, b: int): (m: int) { if a < b then a else b }

  function Max(a: int, b: int): (m: int) { if a > b then a else b }

  function Cap(lmDiff: nat): (c: nat)
    requires lmDiff <= 3
  {
    if lmDiff == 0 then PACKET_SIZE_CAP else if lmDiff == 1 then PACKET_SIZE_CAP / 2
    else if lmDiff == 2 then PACKET_SIZE_CAP / 4 else PACKET_SIZE_CAP / 8
  }

  /** The most the reservoir lets the frame take: the size its header is coded at. */
  function Allowed(vbrRate: int, reservoir: int, f: Frame): (nb: int)
    requires Codable(f)
  {
    Min(Max(2, (vbrRate + vbrRate - reservoir) / BYTE), Min(f.request, PACKET_SIZE_CAP))
  }

  /** The most the frame may take once the reservoir, silence and the packet cap have spoken. */
  function Limit(vbrRate: int, reservoir: int, f: Frame): (nb: int)
    requires Codable(f)
  {
    var allowed := Allowed(vbrRate, reservoir, f);
    Min(if f.silence then Min(allowed, 2) else allowed, Cap(f.lmDiff))
  }

  function Granted(vbrRate: int, reservoir: int, f: Frame): (nb: int)
    requires Codable(f)
  {
    if f.silence then 2 else Min(Limit(vbrRate, reservoir, f), Max(f.minAllowed, (f.wanted + 32) / BYTE))
  }

  /** One frame: what is granted fills the reservoir, the rate drains it; an empty reservoir gives
      its shortfall back to the frame in whole bytes. */
  function Step(vbrRate: int, reservoir: int, f: Frame): (o: Outcome)
    requires Codable(f)
  {
    var granted := Granted(vbrRate, reservoir, f);
    var level := reservoir + granted * BYTE - vbrRate;
    var refill := if level < 0 && !f.silence then -level / BYTE else 0;
    Outcome(Max(level, 0), Min(Limit(vbrRate, reservoir, f), granted + refill))
  }

  // ---------------------------------------------------------------- one frame

  /** The reservoir stays within its bound, the frame pays for its bytes with the rate and what it
      adds to the reservoir, and what it leaves unpaid is under a byte unless the frame is at its
      limit or silent. The packet is never shrunk below the least size. */
  lemma StepKeeps(vbrRate: int, reservoir: int, f: Frame)
    requires vbrRate >= 2 * BYTE && 0 <= reservoir <= vbrRate && Codable(f)
    ensures var o := Step(vbrRate, reservoir, f);
      && 0 <= o.reservoir <= vbrRate
      && o.bytes * BYTE <= vbrRate + o.reservoir - reservoir
      && 2 <= o.bytes <= Min(f.request, Cap(f.lmDiff))
      && (f.silence ==> o.bytes == 2)
      && (f.silence || o.bytes == Limit(vbrRate, reservoir, f) || o.bytes * BYTE > vbrRate + o.reservoir - reservoir - BYTE)
      && (f.silence || o.bytes >= Min(f.minAllowed, Limit(vbrRate, reservoir, f)))
  {
    var nb := Limit(vbrRate, reservoir, f);
    assert (vbrRate + vbrRate - reservoir) / BYTE >= 2;
    assert 2 <= nb;
    if !f.silence {
      assert nb * BYTE <= vbrRate + vbrRate - reservoir;
    }
  }

  // ---------------------------------------------------------------- what a frame asks for

  /** The most a frame may be sent: what was asked for, 1275 bytes for the longest frames and half of
      that for each halving, and what brings the reservoir no higher than the rate; two bytes always. */
  predicate IsLimit(limit: int, vbrRate: int, before: int, f: Frame)
    requires Codable(f)
  {
    if f.silence then limit == 2
    else Fits(limit, vbrRate, before, f) && !Fits(limit + 1, vbrRate, before, f)
  }

  predicate Fits(n: int, vbrRate: int, before: int, f: Frame)
    requires Codable(f)
  {
    n <= f.request && n <= [1275, 637, 318, 159][f.lmDiff] && (n <= 2 || 64 * n <= 2 * vbrRate - before)
  }

  /** A frame is granted `w`, its wanted size in whole bytes, or the least size if that is more, as far
      as its limit goes. The reservoir takes the difference from the rate; if that drains it, the whole
      bytes of the shortfall are sent on top. */
  predicate Served(vbrRate: int, before: int, f: Frame, limit: int, w: int, after: int, bytes: int) {
    var granted := if f.silence then 2 else Min(limit, Max(f.minAllowed, w));
    var short := vbrRate - before - 64 * granted;
    && (short <= 0 ==> after == -short && bytes == granted)
    && (short > 0 ==> after == 0 && bytes == if f.silence then granted else Min(limit, granted + short / 64))
  }

  /** So a frame that is not silent is sent what it wants up to its limit, and more than that, or the
      least size, only when the reservoir has run dry. */
  lemma WantedIsSent(vbrRate: int, before: int, f: Frame, limit: int, w: int)
    requires Codable(f) && IsLimit(limit, vbrRate, before, f) && 64 * w - 32 <= f.wanted < 64 * w + 32
    ensures var o := Step(vbrRate, before, f);
      && Served(vbrRate, before, f, limit, w, o.reservoir, o.bytes)
      && (f.silence || Min(limit, w) <= o.bytes <= limit)
      && (!f.silence && o.bytes > Max(f.minAllowed, w) ==> o.reservoir == 0 && before + 64 * Max(f.minAllowed, w) < vbrRate)
  {
    LimitIs(limit, vbrRate, before, f);
    assert (f.wanted + 32) / BYTE == w;
  }

  /** There is one such limit, the one the steps of the encoder arrive at. */
  lemma LimitIs(limit: int, vbrRate: int, before: int, f: Frame)
    requires Codable(f)
    ensures IsLimit(limit, vbrRate, before, f) <==> limit == Limit(vbrRate, before, f)
  {
    var nb := Limit(vbrRate, before, f);
    assert Cap(f.lmDiff) == [1275, 637, 318, 159][f.lmDiff];
    if !f.silence {
      assert Fits(nb, vbrRate, before, f) && !Fits(nb + 1, vbrRate, before, f);
    }
  }

  // ---------------------------------------------------------------- runs

  ghost predicate AllCodable(fs: seq<Frame>) { forall i | 0 <= i < |fs| :: Codable(fs[i]) }

  function Level(vbrRate: int, reservoir: int, fs: seq<Frame>): (r: int)
    requires AllCodable(fs)
    decreases |fs|
  {
    if fs == [] then reservoir else Level(vbrRate, Step(vbrRate, reservoir, fs[0]).reservoir, fs[1..])
  }

  function Spent(vbrRate: int, reservoir: int, fs: seq<Frame>): (bytes: int)
    requires AllCodable(fs)
    decreases |fs|
  {
    if fs == [] then 0
    else Step(vbrRate, reservoir, fs[0]).bytes + Spent(vbrRate, Step(vbrRate, reservoir, fs[0]).reservoir, fs[1..])
  }

  lemma Distributes(n: nat, rate: int)
    ensures (n + 1) * rate == rate + n * rate
  {
  }

  /** Any run of frames, from any legal level: the reservoir stays legal, and the bytes are paid
      for by the rate and the rise of the reservoir. */
  lemma {:induction false} RunKeeps(vbrRate: int, reservoir: int, fs: seq<Frame>)
    requires vbrRate >= 2 * BYTE && 0 <= reservoir <= vbrRate && AllCodable(fs)
    ensures 0 <= Level(vbrRate, reservoir, fs) <= vbrRate
    ensures Spent(vbrRate, reservoir, fs) * BYTE <= |fs| * vbrRate + Level(vbrRate, reservoir, fs) - reservoir
    decreases |fs|
  {
    hide Step;
    if fs == [] {
    } else {
      StepKeeps(vbrRate, reservoir, fs[0]);
      RunKeeps(vbrRate, Step(vbrRate, reservoir, fs[0]).reservoir, fs[1..]);
      Distributes(|fs[1..]|, vbrRate);
    }
  }

  /** From a fresh encoder, `n` frames take at most `n + 1` frames' worth of bits; so does every
      stretch of a run, wherever it starts. */
  lemma LeakyBucket(vbrRate: int, before: seq<Frame>, fs: seq<Frame>)
    requires vbrRate >= 2 * BYTE && AllCodable(before) && AllCodable(fs)
    ensures Spent(vbrRate, Level(vbrRate, 0, before), fs) * BYTE <= (|fs| + 1) * vbrRate
  {
    RunKeeps(vbrRate, 0, before);
    var r := Level(vbrRate, 0, before);
    RunKeeps(vbrRate, r, fs);
    Distributes(|fs|, vbrRate);
  }

  // ---------------------------------------------------------------- how slow the rate may be

  const SILENT := Frame(2, true, 0, 2, 0)

  function Silences(n: nat): (fs: seq<Frame>)
    ensures |fs| == n && AllCodable(fs)
  {
    seq(n, _ => SILENT)
  }

  /** A rate under two bytes a frame never drains what silence puts in. */
  lemma {:induction false} SilenceFills(vbrRate: int, reservoir: int, n: nat)
    requires 0 < vbrRate < 2 * BYTE && 0 <= reservoir
    ensures Level(vbrRate, reservoir, Silences(n)) == reservoir + n * (2 * BYTE - vbrRate)
    decreases n
  {
    if n == 0 {
    } else {
      assert Silences(n)[0] == SILENT && Silences(n)[1..] == Silences(n - 1);
      var next := reservoir + 2 * BYTE - vbrRate;
      assert Step(vbrRate, reservoir, SILENT).reservoir == next;
      SilenceFills(vbrRate, next, n - 1);
      assert n * (2 * BYTE - vbrRate) == (2 * BYTE - vbrRate) + (n - 1) * (2 * BYTE - vbrRate);
    }
  }

  ghost predicate Bounded(vbrRate: int) {
    forall fs: seq<Frame> | AllCodable(fs) :: 0 <= Level(vbrRate, 0, fs) <= vbrRate
  }

  /** The reservoir bound holds over every run exactly when a frame is allowed two bytes, what a
      silent frame is booked at. */
  lemma BoundedExactly(vbrRate: int)
    requires vbrRate > 0
    ensures Bounded(vbrRate) <==> vbrRate >= 2 * BYTE
  {
    if vbrRate >= 2 * BYTE {
      forall fs: seq<Frame> | AllCodable(fs) ensures 0 <= Level(vbrRate, 0, fs) <= vbrRate {
        RunKeeps(vbrRate, 0, fs);
      }
    } else {
      var n := vbrRate + 1;
      SilenceFills(vbrRate, 0, n);
      Outgrows(n, 2 * BYTE - vbrRate);
      assert AllCodable(Silences(n)) && Level(vbrRate, 0, Silences(n)) > vbrRate;
    }
  }

  lemma Outgrows(n: nat, step: int)
    requires step >= 1
    ensures n * step >= n
  {
  }

  // ---------------------------------------------------------------- the encoder's state

  /** The encoder's rate-control state, and the steps a frame takes through it. */
  class RateControl {
    var vbrReservoir: int

    constructor ()
      ensures vbrReservoir == 0
    {
      vbrReservoir := 0;
    }

    /** One frame of constrained variable rate on a fresh range coder. */
    method Encode(vbrRate: int, f: Frame) returns (bytes: int)
      requires vbrRate > 0 && Codable(f)
      modifies this
      ensures Outcome(vbrReservoir, bytes) == Step(vbrRate, old(vbrReservoir), f)
      ensures forall limit, w | IsLimit(limit, vbrRate, old(vbrReservoir), f) && 64 * w - 32 <= f.wanted < 64 * w + 32 ::
          Served(vbrRate, old(vbrReservoir), f, limit, w, vbrReservoir, bytes)
      ensures vbrRate >= 2 * BYTE && 0 <= old(vbrReservoir) <= vbrRate ==>
          0 <= vbrReservoir <= vbrRate && bytes * BYTE <= vbrRate + vbrReservoir - old(vbrReservoir)
    {
      if vbrRate >= 2 * BYTE && 0 <= vbrReservoir <= vbrRate {
        StepKeeps(vbrRate, vbrReservoir, f);
      }
      forall limit, w | IsLimit(limit, vbrRate, vbrReservoir, f) && 64 * w - 32 <= f.wanted < 64 * w + 32
        ensures var o := Step(vbrRate, vbrReservoir, f); Served(vbrRate, vbrReservoir, f, limit, w, o.reservoir, o.bytes)
      {
        WantedIsSent(vbrRate, vbrReservoir, f, limit, w);
      }
      var nbCompressed := Min(f.request, PACKET_SIZE_CAP);
      var nbAvailable := nbCompressed;
      var maxAllowed := Min(Max(2, (vbrRate + vbrRate - vbrReservoir) / BYTE), nbAvailable);
      if maxAllowed < nbAvailable {
        nbCompressed, nbAvailable := maxAllowed, maxAllowed;
      }
      if f.silence {
        nbCompressed := Min(nbCompressed, 2);
        nbAvailable := 2;
      }
      nbCompressed := Min(nbCompressed, Cap(f.lmDiff));
      nbAvailable := Max(f.minAllowed, (f.wanted + BYTE / 2) / BYTE);
      nbAvailable := Min(nbCompressed, nbAvailable);
      var target := nbAvailable * BYTE;
      if f.silence {
        nbAvailable := 2;
        target := 2 * BYTE;
      }
      vbrReservoir := vbrReservoir + target - vbrRate;
      if vbrReservoir < 0 {
        var adjust := (-vbrReservoir) / BYTE;
        if !f.silence {
          nbAvailable := nbAvailable + adjust;
        }
        vbrReservoir := 0;
      }
      bytes := Min(nbCompressed, nbAvailable);
    }

    /** A whole run, frame after frame: what it sent, and where the reservoir ended. */
    method EncodeAll(vbrRate: int, fs: seq<Frame>) returns (sizes: seq<int>, total: int)
      requires vbrRate > 0 && AllCodable(fs)
      modifies this
      ensures |sizes| == |fs| && vbrReservoir == Level(vbrRate, old(vbrReservoir), fs)
      ensures total == Spent(vbrRate, old(vbrReservoir), fs)
      ensures vbrRate >= 2 * BYTE && old(vbrReservoir) == 0 ==> total * BYTE <= (|fs| + 1) * vbrRate
    {
      hide Step, Codable;
      sizes, total := [], 0;
      ghost var from := vbrReservoir;
      if vbrRate >= 2 * BYTE && from == 0 {
        LeakyBucket(vbrRate, [], fs);
      }
      for i := 0 to |fs|
        invariant |sizes| == i
        invariant Level(vbrRate, from, fs) == Level(vbrRate, vbrReservoir, fs[i..])
        invariant Spent(vbrRate, from, fs) == total + Spent(vbrRate, vbrReservoir, fs[i..])
      {
        assert fs[i..][0] == fs[i] && fs[i..][1..] == fs[i + 1..];
        var bytes := Encode(vbrRate, fs[i]);
        sizes, total := sizes + [bytes], total + bytes;
      }
    }
  }
}
