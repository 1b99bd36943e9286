/** Which samples decoding yields: those of every packet in turn, the pre-skip off the front. */
module Samples {
  import opened Crc
  import opened Packets
  import opened Playback
  import opened Sequence

  /** The samples of packets decoded one after another, up to one that is refused. */
  function Output<S>(codec: Codec<S>, s: S, ps: seq<Packet>): (x: seq<int16>) {
    if ps == [] then []
    else
      match codec.step(s, ps[0])
      case Refused(_) => []
      case Frame(samples, s') => samples + Output(codec, s', ps[1..])
  }

  function First(x: seq<int16>, n: nat): (y: seq<int16>) {
    if n >= |x| then x else x[..n]
  }

  /** `n` samples of every channel. */
  function Of(n: nat, channels: nat): (m: nat) { n * channels }

  /** What is left when the first `n` are taken off. */
  function Off(x: seq<int16>, n: nat): (y: seq<int16>) {
    if n >= |x| then [] else x[n..]
  }

  // ---------------------------------------------------------------- samples as bytes

  /** The low byte comes first, and the two make the sample, modulo 2^16. */
  lemma LowByteFirst(s: seq<int16>, k: nat)
    requires k < |s|
    ensures |Pcm(s)| == 2 * |s|
    ensures var low: int, high: int := Pcm(s)[2 * k], Pcm(s)[2 * k + 1];
            var v: int := s[k];
            0 <= low < 256 && low + 256 * high == if v < 0 then v + 65536 else v
  {
    assert (2 * k) / 2 == k && (2 * k + 1) / 2 == k && (2 * k) % 2 == 0 && (2 * k + 1) % 2 == 1;
  }

  lemma PcmAppends(a: seq<int16>, b: seq<int16>)
    ensures Pcm(a + b) == Pcm(a) + Pcm(b)
  {
    var l, r := Pcm(a + b), Pcm(a) + Pcm(b);
    forall i | 0 <= i < |l| ensures l[i] == r[i] {
      if i >= 2 * |a| { assert (i - 2 * |a|) / 2 == i / 2 - |a| && (i - 2 * |a|) % 2 == i % 2; }
    }
  }

  lemma PcmFront(a: seq<int16>, n: nat)
    requires n <= |a|
    ensures Pcm(a[..n]) == Pcm(a)[..2 * n]
  {
    assert a == a[..n] + a[n..];
    PcmAppends(a[..n], a[n..]);
  }

  // ---------------------------------------------------------------- one packet

  /** Sample `j` of a packet is kept just when it lies behind the pre-skip, at or behind the
      target, and before the end trim. */
  lemma KeepsWhich(pre: nat, delivered: int, limit: int, n: nat, skipTo: int, j: nat)
    requires j < n
    ensures var s := Spanned(pre, delivered, limit, n, skipTo);
            s.first <= j < s.first + s.count
            <==> Heeded(pre, delivered, limit, skipTo, j)
  {
  }

  /** Sample `j` of a packet, when `pre` of the pre-skip are left and `delivered` are out. */
  predicate Heeded(pre: nat, delivered: int, limit: int, skipTo: int, j: nat) {
    j >= pre && delivered + j - pre >= skipTo && (limit < 0 || delivered + j - pre < limit)
  }

  /** What is kept of a packet: the samples, on every channel, of all indexes to be kept. */
  ghost predicate IsKept(frame: seq<int16>, channels: nat, n: nat, samples: seq<int16>, pre: nat, delivered: int, limit: int, skipTo: int) {
    exists a: nat, b: nat :: a <= b <= n && KeptSlice(frame, channels, a, b, samples) && forall j: nat | j < n :: Heeded(pre, delivered, limit, skipTo, j) <==> a <= j < b
  }

  predicate KeptSlice(frame: seq<int16>, channels: nat, a: nat, b: nat, samples: seq<int16>) {
    a * channels <= b * channels <= |frame| && samples == frame[a * channels..b * channels]
  }

  lemma SliceIsKept(frame: seq<int16>, channels: nat, pre: nat, delivered: int, limit: int, skipTo: int)
    requires channels > 0
    ensures IsKept(frame, channels, PerChannel(frame, channels), Slice(frame, channels, Spanned(pre, delivered, limit, PerChannel(frame, channels), skipTo)), pre, delivered, limit, skipTo)
  {
    var n := PerChannel(frame, channels);
    var s := Spanned(pre, delivered, limit, n, skipTo);
    WithinFrame(s.first, s.count, n, channels);
    assert KeptSlice(frame, channels, s.first, s.first + s.count, Slice(frame, channels, s));
    forall j: nat | j < n ensures Heeded(pre, delivered, limit, skipTo, j) <==> s.first <= j < s.first + s.count {
      KeepsWhich(pre, delivered, limit, n, skipTo, j);
    }
  }

  /** How far into what is to be decoded the first kept sample lies. */
  function Ahead0(pre: nat, delivered: int, skipTo: int): (n: nat) { pre + Past(skipTo, delivered) }

  lemma SpanMoves(pre: nat, delivered: int, limit: int, n: nat, skipTo: int)
    ensures var s := Spanned(pre, delivered, limit, n, skipTo); var off := Ahead0(pre, delivered, skipTo);
            && s.first == Min(off, n)
            && (s.first + s.count == n ==> Ahead0(s.preSkipLeft, s.delivered, skipTo) == Past(off, n))
            && (s.first + s.count < n ==> limit >= 0 && s.delivered >= limit && s.delivered >= skipTo)
            && s.delivered >= delivered
  {
  }

  lemma OfAdds(a: nat, b: nat, channels: nat)
    ensures Of(a + b, channels) == Of(a, channels) + Of(b, channels)
  {
    SumTimes(a, b, channels);
  }

  /** Taking samples off a packet and what follows it. */
  lemma OffFront(x: seq<int16>, y: seq<int16>, off: nat, n: nat, channels: nat)
    requires |x| == Of(n, channels)
    ensures var first := Min(off, n);
            && Of(first, channels) <= |x| && Off(x + y, Of(off, channels)) == x[Of(first, channels)..] + Off(y, Of(Past(off, n), channels))
  {
    hide Of;
    OfAdds(Min(off, n), Past(n, off), channels);
    if off >= n {
      OfAdds(n, off - n, channels);
      assert x[|x|..] == [];
      if Of(off, channels) < |x + y| { assert (x + y)[Of(off, channels)..] == y[Of(off - n, channels)..]; }
    } else {
      OfAdds(0, 0, channels);
      if Of(off, channels) == |x| {
        assert x[|x|..] + y == y;
        OffAll(x, y);
      } else {
        assert (x + y)[Of(off, channels)..] == x[Of(off, channels)..] + y;
      }
      OffAll([], y);
    }
  }

  lemma OffAll(x: seq<int16>, y: seq<int16>)
    ensures Off(x + y, |x|) == y
  {
  }

  // ---------------------------------------------------------------- everything to come

  /** The packets ahead, first and rest. */
  lemma FirstAhead(src: seq<byte>, r: Reader, off: nat)
    requires off <= |src| && r.Valid()
    ensures var (n, r', off') := NextPacket(src, r, off); var ps := AllPackets(src, r, off).0;
            if n.Got? then ps != [] && ps[0] == n.packet && ps[1..] == AllPackets(src, r', off').0 else ps == []
  {
    hide NextPacket;
  }

  /** The samples still ahead of a decoder, before anything is dropped. */
  function AheadOf<S>(st: Stream<S>, c: Core<S>): (x: seq<int16>)
    requires Fit(st, c)
  {
    Output(st.codec, c.codec, AllPackets(st.src, c.reader, c.pos).0)
  }

  /** One packet of them: `n` samples of every channel, of which a span is kept. */
  lemma AheadStep<S(!new)>(st: Stream<S>, c: Core<S>, skipTo: int) returns (x: seq<int16>, n: nat)
    requires Fit(st, c) && st.head.channels > 0 && Sound(st.codec, st.head.channels)
    ensures !Fill(st, c, skipTo).More? ==> AheadOf(st, c) == []
    ensures Fill(st, c, skipTo).More? ==>
              && |x| == Of(n, st.head.channels) && Gained(st, c) == n - Min(c.preSkipLeft, n) && AheadOf(st, c) == x + AheadOf(st, Fill(st, c, skipTo).core)
              && Took(c, Fill(st, c, skipTo).core, Spanned(c.preSkipLeft, c.delivered, Fill(st, c, skipTo).core.limit, n, skipTo), Fill(st, c, skipTo).out, x, st.head.channels)
  {
    hide NextPacket, AllPackets, Pcm, Spanned;
    FirstAhead(st.src, c.reader, c.pos);
    x, n := [], 0;
    var (next, r, pos) := NextPacket(st.src, c.reader, c.pos);
    if next.Got? && st.codec.step(c.codec, next.packet).Frame? {
      x := st.codec.step(c.codec, next.packet).samples;
      assert WholeSamples(x, st.head.channels);
      n := PerChannel(x, st.head.channels);
      var span := Spanned(c.preSkipLeft, c.delivered, Learned(c.limit, r, st.head.preSkip), n, skipTo);
      WithinFrame(span.first, span.count, n, st.head.channels);
    }
  }

  /** The counts moved by the span, and its samples came out as bytes. */
  predicate Took<S>(c: Core<S>, c': Core<S>, s: Span, out: seq<byte>, x: seq<int16>, channels: nat) {
    && c'.preSkipLeft == s.preSkipLeft && c'.delivered == s.delivered
    && Of(s.first, channels) <= Of(s.first + s.count, channels) <= |x|
    && out == Pcm(x[Of(s.first, channels)..Of(s.first + s.count, channels)])
  }

  /** What decoding yields is, from where it is to start, what the packets ahead decode to. */
  lemma {:induction false} Hears<S(!new)>(st: Stream<S>, c: Core<S>, skipTo: int)
    requires Fit(st, c) && st.head.channels > 0 && Sound(st.codec, st.head.channels) && c.delivered >= 0
    ensures RestFrom(st, c, skipTo).0 <= Pcm(Off(AheadOf(st, c), Of(Ahead0(c.preSkipLeft, c.delivered, skipTo), st.head.channels)))
    decreases |st.src| - c.pos, |c.reader.queue| - c.reader.qi
  {
    hide Fill, Pcm, Off, AheadOf, Spanned, Sound, Ahead0, Of;
    var x, n := AheadStep(st, c, skipTo);
    var f, ch := Fill(st, c, skipTo), st.head.channels;
    if f.More? {
      var span := Spanned(c.preSkipLeft, c.delivered, f.core.limit, n, skipTo);
      SpanMoves(c.preSkipLeft, c.delivered, f.core.limit, n, skipTo);
      if span.first + span.count == n {
        Hears(st, f.core, skipTo);
      } else {
        RestAhead(st, f.core, f.core, skipTo);
      }
      Joins(f.out, RestFrom(st, f.core, skipTo).0, x, AheadOf(st, f.core), Ahead0(c.preSkipLeft, c.delivered, skipTo), n, ch, span.first, span.count);
    }
  }

  /** A packet's part of what is yielded, and the rest of it. */
  lemma Joins(a: seq<byte>, rest: seq<byte>, x: seq<int16>, y: seq<int16>, off: nat, n: nat, ch: nat, first: nat, count: nat)
    requires |x| == Of(n, ch) && first == Min(off, n) && first + count <= n
    requires Of(first, ch) <= Of(first + count, ch) <= |x| && a == Pcm(x[Of(first, ch)..Of(first + count, ch)])
    requires if first + count == n then rest <= Pcm(Off(y, Of(Past(off, n), ch))) else rest == []
    ensures a + rest <= Pcm(Off(x + y, Of(off, ch)))
  {
    hide Pcm, Off, Of;
    OffFront(x, y, off, n, ch);
    PcmAppends(x[Of(first, ch)..], Off(y, Of(Past(off, n), ch)));
    if first + count == n {
      assert x[Of(first, ch)..] == x[Of(first, ch)..Of(first + count, ch)];
    } else {
      SliceFront(x, Of(first, ch), Of(first + count, ch));
    }
  }

  lemma SliceFront(x: seq<int16>, a: nat, b: nat)
    requires a <= b <= |x|
    ensures Pcm(x[a..b]) <= Pcm(x[a..])
  {
    assert x[a..b] == x[a..][..b - a];
    PcmFront(x[a..], b - a);
  }

  /** How many samples are still to be decoded: those of the packets ahead, less the pre-skip. */
  lemma {:induction false} LeftIs<S(!new)>(st: Stream<S>, c: Core<S>) returns (n: nat)
    requires Fit(st, c) && st.head.channels > 0 && Sound(st.codec, st.head.channels)
    ensures |AheadOf(st, c)| == Of(n, st.head.channels) && Left(st, c) == Past(n, c.preSkipLeft)
    decreases |st.src| - c.pos, |c.reader.queue| - c.reader.qi
  {
    hide Fill, AheadOf, Sound, Spanned, Took, Gained, Of;
    var x, m := AheadStep(st, c, 0);
    var f, ch := Fill(st, c, 0), st.head.channels;
    if f.More? {
      var more := LeftIs(st, f.core);
      n := m + more;
      OfAdds(m, more, ch);
      SpanMoves(c.preSkipLeft, c.delivered, f.core.limit, m, 0);
      TookCounts(c, f.core, Spanned(c.preSkipLeft, c.delivered, f.core.limit, m, 0), f.out, x, ch);
      SpanLeaves(c.preSkipLeft, c.delivered, f.core.limit, m);
    } else {
      n := 0;
      NoneOf(ch);
    }
  }

  lemma SpanLeaves(pre: nat, delivered: int, limit: int, n: nat)
    ensures Spanned(pre, delivered, limit, n, 0).preSkipLeft == Past(pre, n)
  {
  }

  lemma TookCounts<S>(c: Core<S>, c': Core<S>, s: Span, out: seq<byte>, x: seq<int16>, channels: nat)
    requires Took(c, c', s, out, x, channels)
    ensures c'.preSkipLeft == s.preSkipLeft && c'.delivered == s.delivered
  {
  }

  lemma NoneOf(channels: nat)
    ensures Of(0, channels) == 0
  {
  }

  /** The samples of a stream's packets behind the pre-skip. */
  function AudioOf<S>(o: Opening<S>): (x: seq<int16>)
    requires o.Opened? && o.pos <= |o.stream.src| && o.reader.Valid()
  {
    Off(Output(o.stream.codec, o.stream.codec.initial, AllPackets(o.stream.src, o.reader, o.pos).0), Of(o.stream.head.preSkip, o.stream.head.channels))
  }

  /** The sequential decode of an opened stream: the samples of every packet decoded in turn, the
      first preSkip of each channel taken off, cut at the length heard, as bytes. */
  lemma SequentialIs<S(!new)>(o: Opening<S>)
    requires o.Opened? && Fit(o.stream, Start(o)) && o.stream.head.channels > 0 && Sound(o.stream.codec, o.stream.head.channels)
    ensures var n := Of(Heard(o.stream, Start(o)), o.stream.head.channels);
            n <= |AudioOf(o)| && RestFrom(o.stream, Start(o), 0).0 == Pcm(First(AudioOf(o), n))
  {
    hide RestFrom, Heard, Pcm, Off, Output, Sound, AllPackets;
    Hears(o.stream, Start(o), 0);
    HeardIs(o.stream, Start(o));
    var ch, heard := o.stream.head.channels, Heard(o.stream, Start(o));
    Doubled(heard, ch);
    PcmFront(AudioOf(o), heard * ch);
  }
}
