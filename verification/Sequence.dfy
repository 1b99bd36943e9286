/** Decoding forward to a sample, against decoding everything from the start. */
module Sequence {
  import opened Crc
  import P = Page
  import opened Packets
  import opened Playback

  /** Bytes in one sample of every channel. */
  function FrameBytes<S>(st: Stream<S>): (n: nat) { 2 * st.head.channels }

  /** No more samples will be kept. */
  predicate Spent<S>(c: Core<S>) {
    c.limit >= 0 && c.delivered >= c.limit
  }

  /** `d` has skipped where the sequential decoder `c` has yielded; past the end trim its count
      may have run on. */
  ghost predicate Ahead<S(!new)>(c: Core<S>, d: Core<S>) {
    && c.reader == d.reader && c.pos == d.pos && c.preSkipLeft == d.preSkipLeft && c.limit == d.limit && c.codec == d.codec
    && 0 <= c.delivered <= d.delivered && (c.delivered == d.delivered || Spent(c))
  }

  function Past(a: int, b: int): (n: nat) { if a > b then a - b else 0 }

  function Later(a: int, b: int): (m: int) { if a > b then a else b }

  lemma SpanAhead(pre: nat, c: int, d: int, limit: int, n: nat, skipTo: int)
    requires 0 <= c <= d && (c == d || (limit >= 0 && c >= limit))
    ensures var s := Spanned(pre, c, limit, n, 0); var t := Spanned(pre, d, limit, n, skipTo);
            && s.preSkipLeft == t.preSkipLeft && s.delivered == c + s.count && c <= s.delivered <= t.delivered && d <= t.delivered
            && (s.delivered == t.delivered || (limit >= 0 && s.delivered >= limit))
            && t.count == (if c == d then Past(s.delivered, Later(skipTo, c)) else 0) <= s.count
            && (t.count > 0 ==> t.first + t.count == s.first + s.count)
            && (t.delivered < skipTo ==> t.count == 0)
            && (c != d || (limit >= 0 && c >= limit) ==> s.count == 0)
            && (s.delivered != t.delivered ==> t.count == 0)
            && (d < skipTo <= t.delivered == s.delivered ==> t.count == t.delivered - skipTo)
  {
  }

  lemma SliceTail(samples: seq<int16>, channels: nat, frame: nat, s: Span, t: Span)
    requires channels > 0 && s.first + s.count <= PerChannel(samples, channels) && t.first + t.count <= PerChannel(samples, channels)
    requires t.count <= s.count && (t.count > 0 ==> t.first + t.count == s.first + s.count) && frame == 2 * channels
    ensures var a := Pcm(Slice(samples, channels, s)); var b := Pcm(Slice(samples, channels, t));
            && |a| == s.count * frame && |b| == t.count * frame && |b| <= |a| && b == a[|a| - |b|..]
            && (s.count == 0 ==> a == []) && (t.count == 0 ==> b == []) && (s.count == t.count ==> a == b)
  {
    hide Pcm;
    var x, y := Slice(samples, channels, s), Slice(samples, channels, t);
    WithinFrame(s.first, s.count, PerChannel(samples, channels), channels);
    WithinFrame(t.first, t.count, PerChannel(samples, channels), channels);
    Monotone(t.count, s.count, channels);
    Doubled(s.count, channels);
    Doubled(t.count, channels);
    if t.count > 0 {
      assert y == x[|x| - |y|..];
    } else {
      assert y == [];
    }
    PcmTail(x, y);
  }

  lemma Doubled(n: nat, k: nat)
    ensures 2 * (n * k) == n * (2 * k)
  {
  }

  lemma PcmTail(x: seq<int16>, y: seq<int16>)
    requires |y| <= |x| && y == x[|x| - |y|..]
    ensures Pcm(y) == Pcm(x)[2 * |x| - 2 * |y|..]
  {
  }

  /** What one packet does to the counts and the bytes: only what lies from `skipTo` on is kept. */
  predicate Parallel(frame: nat, skipTo: int, c: int, d: int, spent: bool, c': int, a: seq<byte>, d': int, b: seq<byte>) {
    && c <= c' <= d' && d <= d' && |a| == (c' - c) * frame && |b| <= |a| && b == a[|a| - |b|..]
    && (d' < skipTo ==> b == []) && (spent ==> a == []) && (c' != d' ==> b == [])
    && (c == d && skipTo <= d ==> b == a)
    && (d < skipTo <= d' == c' ==> |b| == (d' - skipTo) * frame)
  }

  lemma PacketAhead(samples: seq<int16>, channels: nat, frame: nat, pre: nat, c: int, d: int, limit: int, skipTo: int)
    requires channels > 0 && frame == 2 * channels && 0 <= c <= d && (c == d || (limit >= 0 && c >= limit))
    ensures var n := PerChannel(samples, channels);
            var s := Spanned(pre, c, limit, n, 0); var t := Spanned(pre, d, limit, n, skipTo);
            && Parallel(frame, skipTo, c, d, limit >= 0 && c >= limit, s.delivered, Pcm(Slice(samples, channels, s)), t.delivered, Pcm(Slice(samples, channels, t)))
            && s.preSkipLeft == t.preSkipLeft && (s.delivered == t.delivered || (limit >= 0 && s.delivered >= limit))
  {
    hide Pcm, Slice, PerChannel, Spanned;
    var n := PerChannel(samples, channels);
    SpanAhead(pre, c, d, limit, n, skipTo);
    SliceTail(samples, channels, frame, Spanned(pre, c, limit, n, 0), Spanned(pre, d, limit, n, skipTo));
  }

  /** One packet, decoded in step. */
  lemma FillAhead<S(!new)>(st: Stream<S>, c: Core<S>, d: Core<S>, skipTo: int)
    requires Fit(st, c) && st.head.channels > 0 && Ahead(c, d)
    ensures Fit(st, d)
    ensures match (Fill(st, c, 0), Fill(st, d, skipTo))
            case (Finished(c'), Finished(d')) => Ahead(c', d') && c'.delivered == c.delivered && d'.delivered == d.delivered
            case (Faulted(e, c'), Faulted(e', d')) => e == e'
            case (More(c', a), More(d', b)) =>
              && Ahead(c', d') && (Spent(c) ==> Spent(c'))
              && Parallel(FrameBytes(st), skipTo, c.delivered, d.delivered, Spent(c), c'.delivered, a, d'.delivered, b)
            case _ => false
  {
    var (n, r, pos) := NextPacket(st.src, c.reader, c.pos);
    if n.Got? && st.codec.step(c.codec, n.packet).Frame? {
      var samples := st.codec.step(c.codec, n.packet).samples;
      var limit := Learned(c.limit, r, st.head.preSkip);
      PacketAhead(samples, st.head.channels, FrameBytes(st), c.preSkipLeft, c.delivered, d.delivered, limit, skipTo);
    }
    hide NextPacket, Pcm, Slice, PerChannel, Spanned, FrameBytes, Parallel;
  }

  /** Once the target is passed, what is still to come is what sequential decoding still yields. */
  lemma {:induction false} RestAhead<S(!new)>(st: Stream<S>, c: Core<S>, d: Core<S>, skipTo: int)
    requires Fit(st, c) && st.head.channels > 0 && Ahead(c, d) && skipTo <= d.delivered
    ensures Fit(st, d) && RestFrom(st, d, skipTo) == RestFrom(st, c, 0)
    ensures Spent(c) ==> RestFrom(st, c, 0).0 == []
    decreases |st.src| - c.pos, |c.reader.queue| - c.reader.qi
  {
    hide Fill;
    FillAhead(st, c, d, skipTo);
    match (Fill(st, c, 0), Fill(st, d, skipTo))
    case (More(c', a), More(d', b)) =>
      RestAhead(st, c', d', skipTo);
      assert a == b;
    case _ =>
  }

  // ---------------------------------------------------------------- how far decoding can count

  /** Samples the next packet decodes to, less what is left of the pre-skip. */
  function Gained<S>(st: Stream<S>, c: Core<S>): (n: nat)
    requires Fit(st, c) && st.head.channels > 0
  {
    var next := NextPacket(st.src, c.reader, c.pos).0;
    if next.Got? && st.codec.step(c.codec, next.packet).Frame? then
      var n := PerChannel(st.codec.step(c.codec, next.packet).samples, st.head.channels);
      n - Min(c.preSkipLeft, n)
    else 0
  }

  /** Samples still to be decoded, before any end trim. */
  function Left<S>(st: Stream<S>, c: Core<S>): (n: nat)
    requires Fit(st, c) && st.head.channels > 0
    decreases |st.src| - c.pos, |c.reader.queue| - c.reader.qi
  {
    match Fill(st, c, 0)
    case More(c', _) => Gained(st, c) + Left(st, c')
    case _ => 0
  }

  /** How far the count of a decoder that skips can get. */
  function Reach<S>(st: Stream<S>, c: Core<S>): (n: int)
    requires Fit(st, c) && st.head.channels > 0
  {
    c.delivered + Left(st, c)
  }

  /** What one packet adds to the count: all it gains, but for what the end trim takes. */
  lemma FillGains<S(!new)>(st: Stream<S>, c: Core<S>, skipTo: int)
    requires Fit(st, c) && st.head.channels > 0 && Fill(st, c, skipTo).More?
    ensures var c' := Fill(st, c, skipTo).core;
            && c.delivered <= c'.delivered <= c.delivered + Gained(st, c)
            && (c'.delivered < skipTo || c'.limit < 0 ==> c'.delivered == c.delivered + Gained(st, c))
            && (skipTo <= c.delivered ==> |Fill(st, c, skipTo).out| == (c'.delivered - c.delivered) * FrameBytes(st))
            && (skipTo <= c.delivered && c'.limit >= 0 ==> c'.delivered == Later(c.delivered, Min(c.delivered + Gained(st, c), c'.limit)))
            && (c.limit >= 0 ==> c'.limit == c.limit)
  {
    hide NextPacket, Pcm, Slice, PerChannel, Spanned;
    var (n, r, pos) := NextPacket(st.src, c.reader, c.pos);
    var samples := st.codec.step(c.codec, n.packet).samples;
    var limit := Learned(c.limit, r, st.head.preSkip);
    SpanGains(c.preSkipLeft, c.delivered, limit, PerChannel(samples, st.head.channels), skipTo);
    var span := Spanned(c.preSkipLeft, c.delivered, limit, PerChannel(samples, st.head.channels), skipTo);
    Doubled(span.count, st.head.channels);
  }

  lemma SpanGains(pre: nat, c: int, limit: int, n: nat, skipTo: int)
    ensures var s := Spanned(pre, c, limit, n, skipTo); var gained := n - Min(pre, n);
            && c <= s.delivered <= c + gained
            && (s.delivered < skipTo || limit < 0 ==> s.delivered == c + gained)
            && (skipTo <= c ==> s.count == s.delivered - c)
            && (skipTo <= c && limit >= 0 ==> s.delivered == Later(c, Min(c + gained, limit)))
  {
  }

  lemma {:induction false} LeftAhead<S(!new)>(st: Stream<S>, c: Core<S>, d: Core<S>)
    requires Fit(st, c) && st.head.channels > 0 && Ahead(c, d)
    ensures Fit(st, d) && Left(st, c) == Left(st, d)
    decreases |st.src| - c.pos, |c.reader.queue| - c.reader.qi
  {
    hide Fill;
    FillAhead(st, c, d, 0);
    if Fill(st, c, 0).More? {
      LeftAhead(st, Fill(st, c, 0).core, Fill(st, d, 0).core);
    }
  }

  /** A packet taken off what is left, however much of it is skipped. */
  lemma LeftStep<S(!new)>(st: Stream<S>, d: Core<S>, skipTo: int)
    requires Fit(st, d) && st.head.channels > 0 && d.delivered >= 0
    ensures var f := Fill(st, d, skipTo);
            && (f.More? ==> Left(st, d) == Gained(st, d) + Left(st, f.core))
            && (f.Finished? ==> Left(st, d) == 0 && Left(st, f.core) == 0)
            && (f.Faulted? ==> Left(st, d) == 0)
  {
    hide NextPacket, Gained, Parallel;
    FillAhead(st, d, d, skipTo);
    var f := Fill(st, d, skipTo);
    if f.More? {
      LeftAhead(st, Fill(st, d, 0).core, f.core);
    } else if f.Finished? {
      EndStays(st.src, d.reader, d.pos);
    }
  }

  /** The end trim sequential decoding comes to know, if any, and what it has decoded by then. */
  function EndTrim<S>(st: Stream<S>, c: Core<S>): (r: (int, nat))
    requires Fit(st, c) && st.head.channels > 0
    decreases |st.src| - c.pos, |c.reader.queue| - c.reader.qi
  {
    if c.limit >= 0 then (c.limit, 0)
    else
      match Fill(st, c, 0)
      case More(c', _) => if c'.limit >= 0 then (c'.limit, 0) else var rest := EndTrim(st, c'); (rest.0, Gained(st, c) + rest.1)
      case _ => (-1, 0)
  }

  /** What is heard of what is left: all of it without an end trim; else up to the trim, but no
      less than was out before the trim was known. */
  function Heard<S>(st: Stream<S>, c: Core<S>): (n: nat)
    requires Fit(st, c) && st.head.channels > 0
  {
    var (trim, early) := EndTrim(st, c);
    if trim < 0 then Left(st, c) else Later(early, Min(Left(st, c), trim - c.delivered))
  }

  lemma {:induction false} HeardIs<S(!new)>(st: Stream<S>, c: Core<S>)
    requires Fit(st, c) && st.head.channels > 0 && c.delivered >= 0
    ensures |RestFrom(st, c, 0).0| == Heard(st, c) * FrameBytes(st) && Heard(st, c) <= Left(st, c)
    decreases |st.src| - c.pos, |c.reader.queue| - c.reader.qi
  {
    hide Fill, Gained, FrameBytes;
    var f := Fill(st, c, 0);
    if f.More? {
      FillGains(st, c, 0);
      HeardIs(st, f.core);
      SumTimes(f.core.delivered - c.delivered, Heard(st, f.core), FrameBytes(st));
    }
  }

  /** For a target, what is heard matters only through the end trim: unless the final granule
      falls below what was out when it was read, a target is heard or nothing is trimmed exactly
      if the target or all that is decoded lies within the final granule less the pre-skip. */
  lemma TrimDecides<S(!new)>(st: Stream<S>, start: Core<S>, target: int)
    requires Fit(st, start) && st.head.channels > 0 && start.delivered == 0
    ensures var (trim, early) := EndTrim(st, start);
            && (trim < 0 ==> Heard(st, start) == Left(st, start))
            && (0 <= trim && early <= trim ==>
                  (target <= Heard(st, start) || Heard(st, start) == Left(st, start) <==> target <= trim || Left(st, start) <= trim))
  {
    hide EndTrim, Left;
    HeardIs(st, start);
  }

  // ---------------------------------------------------------------- the sequential decoder, n packets on

  datatype Run<+S> = Ran(core: Core<S>, done: seq<byte>) | Stuck

  function After<S>(st: Stream<S>, start: Core<S>, n: nat): (r: Run<S>)
    requires Fit(st, start) && st.head.channels > 0
    ensures r.Ran? ==> Fit(st, r.core)
    decreases n
  {
    if n == 0 then Ran(start, [])
    else
      match After(st, start, n - 1)
      case Stuck => Stuck
      case Ran(c, done) =>
        match Fill(st, c, 0)
        case More(c', out) => Ran(c', done + out)
        case Finished(c') => Ran(c', done)
        case Faulted(_, _) => Stuck
  }

  /** The end of the stream stays the end. */
  lemma {:induction false} EndStays(src: seq<byte>, r: Reader, off: nat)
    requires off <= |src| && r.Valid()
    ensures var (n, r', off') := NextPacket(src, r, off); n.End? ==> NextPacket(src, r', off').0.End?
    decreases |src| - off
  {
    hide P.ReadPage, ProcessPage;
    if r.qi >= |r.queue| && !r.sawEos {
      var (read, next) := P.ReadPage(src, off);
      if read.Read? {
        ReadIsWritable(src, off);
        var p := ProcessPage(r, read.page);
        if p.Done? { EndStays(src, p.reader, next); }
      } else if read.Eof? {
        assert next == off;
      }
    }
  }

  lemma FinishedStays<S(!new)>(st: Stream<S>, c: Core<S>, skipTo: int)
    requires Fit(st, c) && st.head.channels > 0 && Fill(st, c, skipTo).Finished?
    ensures RestFrom(st, Fill(st, c, skipTo).core, skipTo) == ([], Ended) == RestFrom(st, c, skipTo)
  {
    EndStays(st.src, c.reader, c.pos);
    hide NextPacket;
  }

  /** What n packets have yielded and what the rest will is the whole. */
  lemma {:induction false} AfterSplits<S(!new)>(st: Stream<S>, start: Core<S>, n: nat)
    requires Fit(st, start) && st.head.channels > 0 && start.delivered == 0
    requires After(st, start, n).Ran?
    ensures var r := After(st, start, n); var whole := RestFrom(st, start, 0); var rest := RestFrom(st, r.core, 0);
            whole == (r.done + rest.0, rest.1) && r.core.delivered >= 0 && |r.done| == r.core.delivered * FrameBytes(st)
    decreases n
  {
    hide Fill;
    if n == 0 {
      assert [] + RestFrom(st, start, 0).0 == RestFrom(st, start, 0).0;
    } else {
      AfterSplits(st, start, n - 1);
      var r := After(st, start, n - 1);
      FillAhead(st, r.core, r.core, 0);
      var f := Fill(st, r.core, 0);
      var rest := RestFrom(st, f.core, 0);
      if f.More? {
        assert (r.done + f.out) + rest.0 == r.done + (f.out + rest.0);
        SumTimes(r.core.delivered, f.core.delivered - r.core.delivered, FrameBytes(st));
      } else {
        FinishedStays(st, r.core, 0);
      }
    }
  }

  lemma SumTimes(a: int, b: int, k: int)
    ensures (a + b) * k == a * k + b * k
  {
  }

  lemma Monotone(a: int, b: int, k: nat)
    requires a <= b
    ensures a * k <= b * k
  {
  }

  /** The decoder, with `pcm` still to deliver, stands where n packets of sequential decoding
      lead, except that bytes it skipped or has delivered are gone from `pcm`. */
  ghost predicate InStep<S(!new)>(st: Stream<S>, start: Core<S>, n: nat, d: Core<S>, pcm: seq<byte>)
    requires Fit(st, start) && st.head.channels > 0
  {
    var r := After(st, start, n);
    && start.delivered == 0 && r.Ran? && Ahead(r.core, d)
    && |pcm| <= |r.done| && pcm == r.done[|r.done| - |pcm|..]
    && (d.delivered != r.core.delivered ==> pcm == [])
    && Reach(st, d) <= Reach(st, start)
  }

  lemma StartsInStep<S(!new)>(st: Stream<S>, start: Core<S>)
    requires Fit(st, start) && st.head.channels > 0 && start.delivered == 0
    ensures InStep(st, start, 0, start, [])
    ensures [] + RestFrom(st, start, 0).0 == RestFrom(st, start, 0).0
  {
  }

  function Drop(s: seq<byte>, n: int): (t: seq<byte>) {
    if n <= 0 then s else if n >= |s| then [] else s[n..]
  }

  lemma TailAndRest(done: seq<byte>, pcm: seq<byte>, rest: seq<byte>)
    requires |pcm| <= |done| && pcm == done[|done| - |pcm|..]
    ensures pcm + rest == Drop(done + rest, |done| - |pcm|)
  {
    var at := |done| - |pcm|;
    if at < |done + rest| {
      assert (done + rest)[at..] == done[at..] + rest;
    }
  }

  /** In step, what Read will yield is a tail of the sequential decode. */
  lemma InStepYields<S(!new)>(st: Stream<S>, start: Core<S>, n: nat, d: Core<S>, pcm: seq<byte>, skipTo: int)
    requires Fit(st, start) && st.head.channels > 0 && InStep(st, start, n, d, pcm) && skipTo <= d.delivered
    ensures Fit(st, d) && d.delivered >= 0
    ensures var whole := RestFrom(st, start, 0); var rest := RestFrom(st, d, skipTo);
            rest.1 == whole.1 && pcm + rest.0 == Drop(whole.0, d.delivered * FrameBytes(st) - |pcm|)
  {
    hide RestFrom, After, Drop, FrameBytes, Reach;
    AfterSplits(st, start, n);
    var r := After(st, start, n);
    RestAhead(st, r.core, d, skipTo);
    var rest := RestFrom(st, d, skipTo).0;
    TailAndRest(r.done, pcm, rest);
    if d.delivered != r.core.delivered {
      Monotone(r.core.delivered, d.delivered, FrameBytes(st));
      AllDropped(r.done + rest, d.delivered * FrameBytes(st));
    }
  }

  lemma AllDropped(s: seq<byte>, n: int)
    requires n >= |s|
    ensures Drop(s, n) == []
  {
  }

  lemma Suffix(done: seq<byte>, a: seq<byte>, b: seq<byte>)
    requires |b| <= |a| && b == a[|a| - |b|..]
    ensures b == (done + a)[|done + a| - |b|..]
  {
  }

  lemma OneMore<S(!new)>(st: Stream<S>, start: Core<S>, n: nat)
    requires Fit(st, start) && st.head.channels > 0 && After(st, start, n).Ran?
    ensures var r := After(st, start, n);
            match Fill(st, r.core, 0)
            case More(c', out) => After(st, start, n + 1) == Ran(c', r.done + out)
            case Finished(c') => After(st, start, n + 1) == Ran(c', r.done)
            case _ => true
  {
  }

  lemma NotNegative<S(!new)>(c: Core<S>, d: Core<S>)
    requires Ahead(c, d)
    ensures 0 <= c.delivered <= d.delivered
  {
  }

  /** Decoding one more packet keeps in step, and so does finding there is none. */
  lemma StepKeeps<S(!new)>(st: Stream<S>, start: Core<S>, n: nat, d: Core<S>, pcm: seq<byte>, skipTo: int)
    requires Fit(st, start) && st.head.channels > 0 && InStep(st, start, n, d, pcm)
    ensures Fit(st, d)
    ensures var f := Fill(st, d, skipTo);
            match f
            case More(d', out) => InStep(st, start, n + 1, d', out) && d.delivered <= d'.delivered
            case Finished(d') => InStep(st, start, n + 1, d', pcm) && d.delivered == d'.delivered
            case _ => true
    ensures var f := Fill(st, d, skipTo); f.More? && d.delivered < skipTo <= f.core.delivered ==>
              var c := After(st, start, n + 1).core;
              |f.out| == if c.delivered == f.core.delivered then (f.core.delivered - skipTo) * FrameBytes(st) else 0
  {
    hide Fill, FrameBytes, After, Ahead, Left, Gained;
    var r := After(st, start, n);
    FillAhead(st, r.core, d, skipTo);
    OneMore(st, start, n);
    NotNegative(r.core, d);
    LeftStep(st, d, skipTo);
    if Fill(st, d, skipTo).More? { FillGains(st, d, skipTo); }
    var f, g := Fill(st, r.core, 0), Fill(st, d, skipTo);
    if g.More? {
      Suffix(r.done, f.out, g.out);
    }
  }

  // ---------------------------------------------------------------- decoding to a target

  datatype Walked<+S> = Reached(core: Core<S>, pcm: seq<byte>) | RanOut(core: Core<S>) | Broke(fault: Fault, core: Core<S>)

  /** decodeToTarget: packets are decoded and dropped until `target` is passed. */
  function Walk<S>(st: Stream<S>, d: Core<S>, pcm: seq<byte>, target: int): (w: Walked<S>)
    requires Fit(st, d) && st.head.channels > 0
    ensures Fit(st, w.core)
    decreases |st.src| - d.pos, |d.reader.queue| - d.reader.qi
  {
    if d.delivered >= target then Reached(d, pcm)
    else
      match Fill(st, d, target)
      case Finished(c) => RanOut(c)
      case Faulted(fault, c) => Broke(fault, c)
      case More(d', out) => Walk(st, d', out, target)
  }

  /** A walk gets to its target exactly if decoding can count that far. */
  lemma {:induction false} WalkCounts<S(!new)>(st: Stream<S>, d: Core<S>, pcm: seq<byte>, target: int)
    requires Fit(st, d) && st.head.channels > 0 && 0 <= d.delivered < target
    ensures match Walk(st, d, pcm, target)
            case Reached(_, _) => target <= Reach(st, d)
            case RanOut(c) => c.delivered == Reach(st, d) < target
            case Broke(_, _) => Reach(st, d) < target
    decreases |st.src| - d.pos, |d.reader.queue| - d.reader.qi
  {
    hide Fill, Gained, Left;
    LeftStep(st, d, target);
    var f := Fill(st, d, target);
    if f.More? {
      FillGains(st, d, target);
      if f.core.delivered < target { WalkCounts(st, f.core, f.out, target); }
    } else {
      Stands(st, d, target);
    }
  }

  /** The end of the stream leaves the count alone. */
  lemma Stands<S(!new)>(st: Stream<S>, d: Core<S>, target: int)
    requires Fit(st, d) && st.head.channels > 0 && !Fill(st, d, target).More?
    ensures Fill(st, d, target).core.delivered == d.delivered
  {
  }

  /** From in step and before the target, the walk ends in step at the target, or where the
      sequential decode ends short of it. */
  lemma {:induction false} WalkLands<S(!new)>(st: Stream<S>, start: Core<S>, n: nat, d: Core<S>, pcm: seq<byte>, target: int) returns (m: nat)
    requires Fit(st, start) && st.head.channels > 0 && InStep(st, start, n, d, pcm) && d.delivered < target
    ensures Fit(st, d)
    ensures var whole := RestFrom(st, start, 0); var w := Walk(st, d, pcm, target);
            && (w.Reached? ==>
                  && InStep(st, start, m, w.core, w.pcm) && w.core.delivered >= target
                  && (w.pcm + RestFrom(st, w.core, target).0, RestFrom(st, w.core, target).1) == (Drop(whole.0, target * FrameBytes(st)), whole.1))
            && (w.RanOut? ==> whole.1 == Ended && |whole.0| < target * FrameBytes(st) && |whole.0| <= w.core.delivered * FrameBytes(st) && w.core.delivered < target)
            && (w.Broke? ==> whole.1 == Stopped(w.fault) && |whole.0| < target * FrameBytes(st))
    decreases |st.src| - d.pos, |d.reader.queue| - d.reader.qi
  {
    hide Fill, RestFrom, InStep, FrameBytes;
    StepKeeps(st, start, n, d, pcm, target);
    var f := Fill(st, d, target);
    if f.More? {
      assert Walk(st, d, pcm, target) == Walk(st, f.core, f.out, target);
      if f.core.delivered < target {
        m := WalkLands(st, start, n + 1, f.core, f.out, target);
      } else {
        m := n + 1;
        TargetReached(st, start, n, d, pcm, target);
      }
    } else {
      m := n;
      Short(st, start, n, d, pcm, target);
    }
  }

  lemma TargetReached<S(!new)>(st: Stream<S>, start: Core<S>, n: nat, d: Core<S>, pcm: seq<byte>, target: int)
    requires Fit(st, start) && st.head.channels > 0 && InStep(st, start, n, d, pcm) && Fit(st, d) && d.delivered < target
    requires Fill(st, d, target).More? && Fill(st, d, target).core.delivered >= target
    ensures var f := Fill(st, d, target); var whole := RestFrom(st, start, 0); var rest := RestFrom(st, f.core, target);
            (f.out + rest.0, rest.1) == (Drop(whole.0, target * FrameBytes(st)), whole.1)
  {
    hide Fill, RestFrom;
    StepKeeps(st, start, n, d, pcm, target);
    var f := Fill(st, d, target);
    InStepYields(st, start, n + 1, f.core, f.out, target);
    AfterSplits(st, start, n + 1);
    var r := After(st, start, n + 1);
    if r.core.delivered == f.core.delivered {
      Monotone(target, r.core.delivered, FrameBytes(st));
      SumTimes(target, f.core.delivered - target, FrameBytes(st));
    } else {
      RestAhead(st, r.core, f.core, target);
      assert RestFrom(st, start, 0).0 == r.done;
      SpentBefore(st, start, n, d, pcm, target);
      Monotone(r.core.delivered, target, FrameBytes(st));
    }
  }

  /** The count runs past the sequential one only while it is below the target. */
  lemma SpentBefore<S(!new)>(st: Stream<S>, start: Core<S>, n: nat, d: Core<S>, pcm: seq<byte>, target: int)
    requires Fit(st, start) && st.head.channels > 0 && InStep(st, start, n, d, pcm) && Fit(st, d) && d.delivered < target
    requires Fill(st, d, target).More? && After(st, start, n + 1).Ran?
    requires After(st, start, n + 1).core.delivered != Fill(st, d, target).core.delivered
    ensures After(st, start, n + 1).core.delivered <= target
  {
    hide NextPacket, Pcm, Slice;
    AfterSplits(st, start, n);
  }

  lemma Short<S(!new)>(st: Stream<S>, start: Core<S>, n: nat, d: Core<S>, pcm: seq<byte>, target: int)
    requires Fit(st, start) && st.head.channels > 0 && InStep(st, start, n, d, pcm) && Fit(st, d) && d.delivered < target
    requires !Fill(st, d, target).More?
    ensures var whole := RestFrom(st, start, 0);
            && |whole.0| <= d.delivered * FrameBytes(st) < target * FrameBytes(st)
            && match Fill(st, d, target)
               case Finished(d') => whole.1 == Ended && d'.delivered == d.delivered
               case Faulted(fault, _) => whole.1 == Stopped(fault)
  {
    hide NextPacket;
    AfterSplits(st, start, n);
    var r := After(st, start, n);
    FillAhead(st, r.core, d, target);
    Monotone(r.core.delivered, d.delivered, FrameBytes(st));
    Scaled(d.delivered, target, FrameBytes(st));
  }

  lemma Scaled(a: int, b: int, k: nat)
    requires a < b && k > 0
    ensures a * k < b * k
  {
  }

  /** A decoder in step can count to between what is heard of the stream and all that is decoded. */
  lemma ReachBounds<S(!new)>(st: Stream<S>, start: Core<S>, n: nat, d: Core<S>, pcm: seq<byte>)
    requires Fit(st, start) && st.head.channels > 0 && InStep(st, start, n, d, pcm)
    ensures Fit(st, d) && 0 <= d.delivered && Heard(st, start) <= Reach(st, d) <= Left(st, start)
  {
    hide RestFrom, After, FrameBytes, Left, Heard;
    AfterSplits(st, start, n);
    var c := After(st, start, n).core;
    HeardIs(st, c);
    HeardIs(st, start);
    LeftAhead(st, c, d);
    SumTimes(c.delivered, Heard(st, c), FrameBytes(st));
    Cancel(Heard(st, start), c.delivered + Heard(st, c), st);
  }

  lemma Cancel<S(!new)>(a: int, b: int, st: Stream<S>)
    requires st.head.channels > 0 && a * FrameBytes(st) == b * FrameBytes(st)
    ensures a == b
  {
    if a < b { Scaled(a, b, FrameBytes(st)); }
    if b < a { Scaled(b, a, FrameBytes(st)); }
  }
}
