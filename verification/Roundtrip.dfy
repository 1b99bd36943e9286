/** From samples to samples: the frames an encoder is given, and what a player hears of them. */
module Roundtrip {
  import opened Crc
  import P = Page
  import opened Packets
  import S = Stream
  import opened Playback
  import opened Sequence
  import opened Samples
  import W = Writer
  import E = Encoder
  import opened Duration
  import D = Decoder

  // ---------------------------------------------------------------- the frames that are coded

  /** `n` frames of `size` values, one after another. */
  function Cut(x: seq<int16>, size: nat, n: nat): (fs: seq<seq<int16>>)
    requires n * size <= |x|
    decreases n
  {
    if n == 0 then []
    else
      E.Grows(n - 1, n, size);
      Cut(x, size, n - 1) + [x[(n - 1) * size..n * size]]
  }

  /** The packets a codec makes of frames given to it in turn. */
  function Packed<T>(codec: E.FrameCodec<T>, s: T, fs: seq<seq<int16>>): (ps: seq<Packet>)
  {
    if fs == [] then []
    else
      match codec.encode(s, fs[0])
      case Coded(p, s') => [p] + Packed(codec, s', fs[1..])
      case Refused(s') => Packed(codec, s', fs[1..])
  }

  /** And the state it ends in. */
  function Ends<T>(codec: E.FrameCodec<T>, s: T, fs: seq<seq<int16>>): (s': T) {
    if fs == [] then s else Ends(codec, codec.encode(s, fs[0]).state, fs[1..])
  }

  lemma {:induction false} OneFrameMore<T>(codec: E.FrameCodec<T>, s: T, fs: seq<seq<int16>>, f: seq<int16>)
    ensures E.Run(Ends(codec, s, fs + [f]), Packed(codec, s, fs + [f])) == E.Then(codec, E.Run(Ends(codec, s, fs), Packed(codec, s, fs)), f)
  {
    if fs == [] {
      assert [f][1..] == [] && [] + [f] == [f];
    } else {
      assert (fs + [f])[1..] == fs[1..] + [f];
      OneFrameMore(codec, codec.encode(s, fs[0]).state, fs[1..], f);
      var rest := Packed(codec, codec.encode(s, fs[0]).state, fs[1..]);
      if codec.encode(s, fs[0]).Coded? {
        var p := codec.encode(s, fs[0]).packet;
        assert forall q: Packet :: ([p] + rest) + [q] == [p] + (rest + [q]);
      }
    }
  }

  /** Loading a slice of bytes is a slice of the loaded bytes. */
  lemma LoadedSlice(b: seq<byte>, i: nat, j: nat)
    requires i <= j && 2 * j <= |b|
    ensures E.Loaded(b[2 * i..2 * j]) == E.Loaded(b)[i..j]
  {
  }

  /** The first whole frames of the input. */
  lemma {:induction false} FedIsCut<T>(codec: E.FrameCodec<T>, input: seq<byte>, size: nat, n: nat)
    requires n * (2 * size) <= |input|
    ensures n * size <= |E.Loaded(input)|
    ensures E.Fed(codec, input, 2 * size, n)
            == E.Run(Ends(codec, codec.initial, Cut(E.Loaded(input), size, n)), Packed(codec, codec.initial, Cut(E.Loaded(input), size, n)))
    decreases n
  {
    hide E.Loaded, E.Then;
    TwiceOver(n, size);
    LoadedLength(input);
    if n > 0 {
      TwiceOver(n - 1, size);
      E.Grows(n - 1, n, size);
      E.Grows(n - 1, n, 2 * size);
      FedIsCut(codec, input, size, n - 1);
      LoadedSlice(input, (n - 1) * size, n * size);
      OneFrameMore(codec, codec.initial, Cut(E.Loaded(input), size, n - 1), E.Loaded(input)[(n - 1) * size..n * size]);
    }
  }

  lemma LoadedLength(b: seq<byte>)
    ensures |E.Loaded(b)| == |b| / 2
  {
  }

  lemma TwiceOver(n: nat, size: nat)
    ensures n * (2 * size) == 2 * (n * size)
  {
  }

  lemma {:induction false} CutFront(x: seq<int16>, y: seq<int16>, size: nat, n: nat)
    requires n * size <= |x| <= |y| && y[..|x|] == x
    ensures Cut(x, size, n) == Cut(y, size, n)
    decreases n
  {
    if n > 0 {
      E.Grows(n - 1, n, size);
      CutFront(x, y, size, n - 1);
      assert y[..|x|][(n - 1) * size..n * size] == y[(n - 1) * size..n * size];
    }
  }

  lemma CutMore(x: seq<int16>, size: nat, n: nat, f: seq<int16>)
    requires n * size <= |x| && (n + 1) * size <= |x| && f == x[n * size..(n + 1) * size]
    ensures Cut(x, size, n + 1) == Cut(x, size, n) + [f]
  {
  }

  /** Samples of the input, and silence to the end of the last frame. */
  function Audio(c: E.Config, input: seq<byte>): (x: seq<int16>)
    requires c.Valid()
  {
    E.Loaded(input) + E.Silence(Past((E.Frames(c, |input|) + E.Silences(c, |input|)) * c.ScratchLen(), |input| / 2))
  }

  function Count(c: E.Config, input: seq<byte>): (g: nat)
    requires c.Valid()
  {
    E.Frames(c, |input|) + E.Silences(c, |input|)
  }

  /** The audio is whole frames, and no shorter than the input. */
  lemma AudioLength(c: E.Config, input: seq<byte>)
    requires c.Valid() && |input| % c.SampleBytes() == 0
    ensures c.FrameBytes() == 2 * c.ScratchLen() && c.ScratchLen() > 0 && |input| % 2 == 0
    ensures |E.Loaded(input)| == |input| / 2 <= |Audio(c, input)| == Count(c, input) * c.ScratchLen()
    ensures E.WholeCount(c, |input|) * c.ScratchLen() <= |input| / 2 <= E.Frames(c, |input|) * c.ScratchLen() <= Count(c, input) * c.ScratchLen()
    ensures |input| / 2 < E.WholeCount(c, |input|) * c.ScratchLen() + c.ScratchLen()
  {
    hide E.Config.Valid, E.Loaded, E.Silences, E.WholeCount, E.Silence, E.Config.FrameLen;
    LoadedLength(input);
    E.Sizes(c);
    Twice(c);
    var n, size, frames := E.WholeCount(c, |input|), c.ScratchLen(), E.Frames(c, |input|);
    E.OneMoreFrame(n, c.FrameBytes());
    TwiceOver(n, size);
    E.OneMoreFrame(n, size);
    E.Grows(frames, Count(c, input), size);
    EvenBytes(c, |input|);
    SilenceLength(Past(Count(c, input) * size, |input| / 2));
  }

  lemma SilenceLength(n: nat)
    ensures |E.Silence(n)| == n
  {
  }

  lemma Twice(c: E.Config)
    ensures c.FrameBytes() == 2 * c.ScratchLen()
  {
    assert c.FrameLen() * (2 * c.channels) == 2 * (c.FrameLen() * c.channels);
  }

  lemma EvenBytes(c: E.Config, n: nat)
    requires c.Valid() && n % c.SampleBytes() == 0
    ensures n % 2 == 0
  {
  }

  /** Where the input has run out there is only silence. */
  lemma SilentFrame(c: E.Config, input: seq<byte>, f: nat)
    requires c.Valid() && |input| / 2 <= f * c.ScratchLen() && (f + 1) * c.ScratchLen() <= |Audio(c, input)|
    ensures f * c.ScratchLen() <= (f + 1) * c.ScratchLen() && Audio(c, input)[f * c.ScratchLen()..(f + 1) * c.ScratchLen()] == E.Silence(c.ScratchLen())
  {
    E.OneMoreFrame(f, c.ScratchLen());
  }

  /** The frame the input ends in is what is left of it, and silence. */
  lemma LastFrame(c: E.Config, input: seq<byte>, n: nat)
    requires c.Valid() && |input| % 2 == 0 && c.FrameBytes() == 2 * c.ScratchLen() && n * c.FrameBytes() <= |input|
    requires n * c.ScratchLen() <= |input| / 2 < (n + 1) * c.ScratchLen() <= |Audio(c, input)|
    ensures Audio(c, input)[n * c.ScratchLen()..(n + 1) * c.ScratchLen()] == E.Padded(c, input[n * c.FrameBytes()..])
  {
    hide E.Frames, E.Silences, E.Config.ScratchLen, E.Config.FrameBytes, E.Config.Valid, E.Loaded;
    var size := c.ScratchLen();
    E.OneMoreFrame(n, size);
    TwiceOver(n, size);
    LoadedLength(input);
    TailLoaded(input, n * size);
    TailOf(E.Loaded(input), Past((E.Frames(c, |input|) + E.Silences(c, |input|)) * size, |input| / 2), n * size, (n + 1) * size);
  }

  lemma TailLoaded(input: seq<byte>, i: nat)
    requires |input| % 2 == 0 && i <= |input| / 2
    ensures |E.Loaded(input)| == |input| / 2 && |input| == 2 * (|input| / 2)
    ensures E.Loaded(input[2 * i..]) == E.Loaded(input)[i..|input| / 2]
  {
    assert input[2 * i..] == input[2 * i..2 * (|input| / 2)];
    LoadedSlice(input, i, |input| / 2);
  }

  lemma TailOf(x: seq<int16>, z: nat, i: nat, j: nat)
    requires i <= |x| <= j <= |x| + z
    ensures (x + E.Silence(z))[i..j] == x[i..|x|] + E.Silence(j - |x|)
  {
  }

  /** The codec is given the input cut into frames, silence behind it, whatever the calls it came in. */
  lemma CodesAudio<T(!new)>(codec: E.FrameCodec<T>, c: E.Config, input: seq<byte>)
    requires c.Valid() && |input| % c.SampleBytes() == 0
    ensures Count(c, input) * c.ScratchLen() <= |Audio(c, input)|
    ensures E.Coding(codec, c, input).packets == Packed(codec, codec.initial, Cut(Audio(c, input), c.ScratchLen(), Count(c, input)))
  {
    hide E.Config.Valid, E.Config.ScratchLen, E.Config.FrameBytes, E.Config.SampleBytes, E.WholeCount, E.Loaded, E.Silences, E.Length48k, E.Config.Duration, E.Then, E.Padded, Audio, E.Silence;
    AudioLength(c, input);
    var n, size, x := E.WholeCount(c, |input|), c.ScratchLen(), Audio(c, input);
    TwiceOver(n, size);
    FedIsCut(codec, input, size, n);
    AudioFront(c, input);
    CutFront(E.Loaded(input), x, size, n);
    var f := n;
    if n * c.FrameBytes() < |input| {
      E.OneMoreFrame(n, size);
      LastFrame(c, input, n);
      CutMore(x, size, n, E.Padded(c, input[n * c.FrameBytes()..]));
      OneFrameMore(codec, codec.initial, Cut(x, size, n), E.Padded(c, input[n * c.FrameBytes()..]));
      f := n + 1;
    }
    if E.Silences(c, |input|) == 1 {
      SilentFrame(c, input, f);
      CutMore(x, size, f, E.Silence(size));
      OneFrameMore(codec, codec.initial, Cut(x, size, f), E.Silence(size));
    }
  }

  lemma AudioFront(c: E.Config, input: seq<byte>)
    requires c.Valid()
    ensures |E.Loaded(input)| <= |Audio(c, input)| && Audio(c, input)[..|E.Loaded(input)|] == E.Loaded(input)
  {
  }

  // ---------------------------------------------------------------- what is heard

  /** The stream opens, and what is read of it to its end is this. */
  ghost predicate Plays<U>(o: Opening<U>, bytes: seq<byte>) {
    && o.Opened? && Fit(o.stream, Start(o)) && o.stream.head.channels > 0
    && RestFrom(o.stream, Start(o), 0).0 == bytes && RestFrom(o.stream, Start(o), 0).1 == Ended
  }

  /** What the encoder wrote plays as its packets decoded in turn, the first 312 samples of each
      channel taken off, cut at the input's length at 48 kHz. */
  lemma PlaysPackets<T(!new), U(!new)>(e: E.Encoder<T>, format: Format<U>, h: Head, codec: Codec<U>)
    requires e.Valid() && e.closed && e.intact
    requires format.head(Kept(e.cw.head, 2)) == Some(h) && format.tags(Kept(e.cw.tags, 1)) && format.build(h) == Some(codec)
    requires h.preSkip == E.PRE_SKIP && h.channels == e.config.channels && h.streams <= 1
    requires h.channels > 0 && Framed(codec, h.channels, Elements(e.cw.sent), e.config.Duration()) && Sound(codec, h.channels)
    ensures e.config.Valid()
    ensures var n := Of(E.Length48k(e.config, |e.input|), h.channels); var audio := Off(Output(codec, codec.initial, e.cw.sent), Of(312, h.channels));
            n <= |audio| && Plays(Open(e.cw.sw.sink, 0, format), Pcm(First(audio, n)))
  {
    hide *;
    EndToEnd(e, format, h, codec);
    var pages, ps := Written(e);
    var claim, frame := Claims(e);
    var k := StreamOpens(pages, e.cw.sw.serial, ps, format, h, codec);
    assert ps[2..] == e.cw.sent;
    var o := Open(e.cw.sw.sink, 0, format);
    SequentialIs(o);
    StartsAtZero(o);
    HeardIs(o.stream, Start(o));
    AudioIs(o, h, codec, e.cw.sent);
    var length := E.Length48k(e.config, |e.input|);
    SameLength(Heard(o.stream, Start(o)), length, o.stream, h);
    ItPlays(o, Pcm(First(AudioOf(o), Of(Heard(o.stream, Start(o)), h.channels))));
    assert First(AudioOf(o), Of(Heard(o.stream, Start(o)), h.channels)) == First(Off(Output(codec, codec.initial, e.cw.sent), Of(312, h.channels)), Of(length, h.channels));
  }

  lemma ItPlays<U>(o: Opening<U>, bytes: seq<byte>)
    requires o.Opened? && Fit(o.stream, Start(o)) && o.stream.head.channels > 0
    requires RestFrom(o.stream, Start(o), 0).0 == bytes && RestFrom(o.stream, Start(o), 0).1 == Ended
    ensures Plays(o, bytes)
  {
    hide RestFrom;
  }

  lemma StartsAtZero<U>(o: Opening<U>)
    requires o.Opened?
    ensures Start(o).delivered == 0
  {
  }

  lemma AudioIs<U>(o: Opening<U>, h: Head, codec: Codec<U>, sent: seq<Packet>)
    requires o.Opened? && o.pos <= |o.stream.src| && o.reader.Valid() && o.stream.head == h && o.stream.codec == codec && h.preSkip == E.PRE_SKIP
    requires AllPackets(o.stream.src, o.reader, o.pos).0 == sent
    ensures AudioOf(o) == Off(Output(codec, codec.initial, sent), Of(312, h.channels))
  {
    hide AllPackets, Output, Off;
  }

  lemma SameLength<U(!new)>(heard: nat, length: nat, st: Stream<U>, h: Head)
    requires st.head == h && h.channels > 0 && heard * FrameBytes(st) == length * (2 * h.channels)
    ensures heard == length
  {
    Cancel(heard, length, st);
  }

  // ---------------------------------------------------------------- a transparent codec

  function Flat(fs: seq<seq<int16>>): (x: seq<int16>) {
    if fs == [] then [] else Flat(fs[..|fs| - 1]) + fs[|fs| - 1]
  }

  lemma {:induction false} FlatOfCut(x: seq<int16>, size: nat, n: nat)
    requires n * size <= |x|
    ensures |Cut(x, size, n)| == n && Flat(Cut(x, size, n)) == x[..n * size] && Sized(Cut(x, size, n), size)
    decreases n
  {
    if n > 0 {
      E.Grows(n - 1, n, size);
      FlatOfCut(x, size, n - 1);
      E.OneMoreFrame(n - 1, size);
      FlatMore(Cut(x, size, n - 1), x, (n - 1) * size, n * size, size);
    }
  }

  predicate Sized(fs: seq<seq<int16>>, size: nat) {
    forall i | 0 <= i < |fs| :: |fs[i]| == size
  }

  lemma FlatMore(fs: seq<seq<int16>>, x: seq<int16>, a: nat, b: nat, size: nat)
    requires a <= b <= |x| && b - a == size && Flat(fs) == x[..a] && Sized(fs, size)
    ensures Flat(fs + [x[a..b]]) == x[..b] && Sized(fs + [x[a..b]], size)
  {
    assert (fs + [x[a..b]])[..|fs|] == fs;
    assert x[..a] + x[a..b] == x[..b];
  }

  /** Whatever frames go in come out, `delay` values later. */
  ghost predicate Transparent<T(!new), U(!new)>(enc: E.FrameCodec<T>, dec: Codec<U>, size: nat, delay: nat) {
    forall fs: seq<seq<int16>> | Sized(fs, size) ::
      Output(dec, dec.initial, Packed(enc, enc.initial, fs)) == First(E.Silence(delay) + Flat(fs), |Flat(fs)|)
  }

  /** Loading and writing out again. */
  lemma PcmOfLoaded(b: seq<byte>)
    requires |b| % 2 == 0
    ensures Pcm(E.Loaded(b)) == b
  {
    hide PcmByte, E.Sample;
    forall i | 0 <= i < |b| ensures Pcm(E.Loaded(b))[i] == b[i] {
      var k := i / 2;
      assert E.Loaded(b)[k] == E.Sample(b[2 * k], b[2 * k + 1]);
      BytesOfSample(b[2 * k], b[2 * k + 1]);
    }
  }

  lemma BytesOfSample(low: byte, high: byte)
    ensures PcmByte(E.Sample(low, high), true) == low && PcmByte(E.Sample(low, high), false) == high
  {
  }

  /** With a codec that delays by the pre-skip and changes nothing else, at 48 kHz, every input is
      played back to the byte, however it was split over calls. */
  lemma EverySampleBack<T(!new), U(!new)>(e: E.Encoder<T>, format: Format<U>, h: Head, codec: Codec<U>)
    requires e.Valid() && e.closed && e.intact
    requires format.head(Kept(e.cw.head, 2)) == Some(h) && format.tags(Kept(e.cw.tags, 1)) && format.build(h) == Some(codec)
    requires h.preSkip == E.PRE_SKIP && h.channels == e.config.channels && h.streams <= 1
    requires h.channels > 0 && Framed(codec, h.channels, Elements(e.cw.sent), e.config.Duration()) && Sound(codec, h.channels)
    requires e.config.rate == 48000 && Transparent(e.codec, codec, e.config.ScratchLen(), Of(312, h.channels))
    ensures Plays(Open(e.cw.sw.sink, 0, format), e.input)
  {
    hide *;
    PlaysPackets(e, format, h, codec);
    Coded(e);
    CodesAudio(e.codec, e.config, e.input);
    AudioLength(e.config, e.input);
    var x, size, g := Audio(e.config, e.input), e.config.ScratchLen(), Count(e.config, e.input);
    FlatOfCut(x, size, g);
    WholeAudio(x, g * size);
    Delayed(e.codec, codec, size, Of(312, h.channels), Cut(x, size, g));
    AudioFront(e.config, e.input);
    InputAt48k(e.config, e.input, h);
    InputBack(x, E.Loaded(e.input), Of(312, h.channels), Of(E.Length48k(e.config, |e.input|), h.channels));
    PcmOfLoaded(e.input);
  }

  lemma Coded<T(!new)>(e: E.Encoder<T>)
    requires e.Valid() && e.closed && e.intact
    ensures e.config.Valid() && |e.input| % e.config.SampleBytes() == 0 && e.cw.sent == E.Coding(e.codec, e.config, e.input).packets
  {
    hide W.StreamWriter.Valid, W.ContainerWriter.Valid, E.Coding, E.Uniform, E.Frames, E.Silences, E.Length48k, E.Config.Valid,
      E.Config.Duration, E.Config.Scale, E.Config.FrameBytes, E.Config.FrameLen, E.Config.SampleBytes, E.Config.ScratchLen, E.Bounded;
  }

  lemma WholeAudio(x: seq<int16>, n: nat)
    requires |x| == n
    ensures x[..n] == x
  {
  }

  lemma Delayed<T(!new), U(!new)>(enc: E.FrameCodec<T>, dec: Codec<U>, size: nat, delay: nat, fs: seq<seq<int16>>)
    requires Transparent(enc, dec, size, delay) && Sized(fs, size)
    ensures Output(dec, dec.initial, Packed(enc, enc.initial, fs)) == First(E.Silence(delay) + Flat(fs), |Flat(fs)|)
  {
    hide Output, Packed, Flat, First, E.Silence;
  }

  /** At 48 kHz the length is the input's own. */
  lemma InputAt48k(c: E.Config, input: seq<byte>, h: Head)
    requires c.Valid() && c.rate == 48000 && h.channels == c.channels && |input| % c.SampleBytes() == 0
    ensures Of(E.Length48k(c, |input|), h.channels) == |input| / 2 == |E.Loaded(input)|
  {
    var q := |input| / (2 * c.channels);
    assert |input| == q * (2 * c.channels);
    assert q * (2 * c.channels) == 2 * (q * c.channels);
  }

  /** The delay is what is taken off. */
  lemma InputBack(x: seq<int16>, input: seq<int16>, delay: nat, n: nat)
    requires n == |input| <= |x| && x[..n] == input
    requires n <= |Off(First(E.Silence(delay) + x, |x|), delay)|
    ensures First(Off(First(E.Silence(delay) + x, |x|), delay), n) == input
  {
    var y := First(E.Silence(delay) + x, |x|);
    if delay < |y| {
      forall i | 0 <= i < n ensures y[delay..][i] == input[i] { assert x[..n][i] == x[i]; }
    }
  }

  /** Read to its end by a decoder. */
  method PlayBack<T(!new), U(!new)>(e: E.Encoder<T>, format: Format<U>, h: Head, codec: Codec<U>) returns (bytes: seq<byte>, fault: Option<Fault>)
    requires e.Valid() && e.closed && e.intact && D.SoundFormat(format)
    requires format.head(Kept(e.cw.head, 2)) == Some(h) && format.tags(Kept(e.cw.tags, 1)) && format.build(h) == Some(codec)
    requires h.preSkip == E.PRE_SKIP && h.channels == e.config.channels && h.streams <= 1
    requires h.channels > 0 && Framed(codec, h.channels, Elements(e.cw.sent), e.config.Duration())
    ensures fault == None && e.config.Valid()
    ensures var audio := Off(Output(codec, codec.initial, e.cw.sent), Of(312, h.channels));
            bytes == Pcm(First(audio, Of(E.Length48k(e.config, |e.input|), h.channels)))
    ensures e.config.rate == 48000 && Transparent(e.codec, codec, e.config.ScratchLen(), Of(312, h.channels)) ==> bytes == e.input
  {
    hide *;
    D.Built(format, h);
    PlaysPackets(e, format, h, codec);
    if e.config.rate == 48000 && Transparent(e.codec, codec, e.config.ScratchLen(), Of(312, h.channels)) {
      EverySampleBack(e, format, h, codec);
    }
    PlaysOnlyThat(Open(e.cw.sw.sink, 0, format), [], Pcm(First(Off(Output(codec, codec.initial, e.cw.sent), Of(312, h.channels)), Of(E.Length48k(e.config, |e.input|), h.channels))));
    bytes, fault := PlayAll(e.cw.sw.sink, format);
    PlaysOnlyThat(Open(e.cw.sw.sink, 0, format), bytes, Pcm(First(Off(Output(codec, codec.initial, e.cw.sent), Of(312, h.channels)), Of(E.Length48k(e.config, |e.input|), h.channels))));
    if Plays(Open(e.cw.sw.sink, 0, format), e.input) { PlaysOnlyThat(Open(e.cw.sw.sink, 0, format), bytes, e.input); }
  }

  lemma PlaysOnlyThat<U>(o: Opening<U>, a: seq<byte>, b: seq<byte>)
    requires Plays(o, b)
    ensures o.Opened? && Fit(o.stream, Start(o)) && o.stream.head.channels > 0 && RestFrom(o.stream, Start(o), 0).0 == b && RestFrom(o.stream, Start(o), 0).1 == Ended
    ensures a == RestFrom(o.stream, Start(o), 0).0 ==> a == b
  {
    hide RestFrom;
  }

  /** A decoder bound to a source, and everything read from it. */
  method PlayAll<U(!new)>(src: seq<byte>, format: Format<U>) returns (bytes: seq<byte>, fault: Option<Fault>)
    requires D.SoundFormat(format) && Open(src, 0, format).Opened? && Open(src, 0, format).stream.head.channels > 0
    ensures Fit(Open(src, 0, format).stream, Start(Open(src, 0, format)))
    ensures (bytes, if fault.Some? then Stopped(fault.value) else Ended) == RestFrom(Open(src, 0, format).stream, Start(Open(src, 0, format)), 0)
    ensures Sound(Open(src, 0, format).stream.codec, Open(src, 0, format).stream.head.channels)
    ensures bytes == Pcm(First(AudioOf(Open(src, 0, format)), Of(Heard(Open(src, 0, format).stream, Start(Open(src, 0, format))), Open(src, 0, format).stream.head.channels)))
  {
    hide Open, RestFrom, Heard, D.SoundFormat, Sound, InStep, Left, AudioOf, First, Of;
    var d := new D.Decoder(format);
    fault := d.Reset(src, 0, false, D.Rejected(SeekUnsupported));
    d.Ready();
    bytes, fault := d.WriteTo();
    SequentialIs(Open(src, 0, format));
  }

  // ---------------------------------------------------------------- such a codec

  /** Holds each frame back by what it was begun with; takes what fits a packet. */
  function Delay(d: nat): (c: E.FrameCodec<seq<int16>>) {
    E.FrameCodec(E.Silence(d), (s: seq<int16>, f: seq<int16>) =>
      if 2 * |f| > E.MAX_PACKET then E.Encoded.Refused(s) else E.Encoded.Coded(Pcm(First(s + f, |f|)), Off(s + f, |f|)))
  }

  function Plain(): (c: Codec<()>) {
    Codec((), (s: (), p: Packet) => Frame(E.Loaded(p), s))
  }

  lemma {:induction false} FlatFirst(f: seq<int16>, fs: seq<seq<int16>>)
    ensures Flat([f] + fs) == f + Flat(fs)
    decreases |fs|
  {
    if fs == [] {
      assert ([f] + fs)[..0] == [];
    } else {
      FlatFirst(f, fs[..|fs| - 1]);
      assert ([f] + fs)[..|fs|] == [f] + fs[..|fs| - 1];
    }
  }

  lemma {:induction false} DelayDelays(d: nat, s: seq<int16>, fs: seq<seq<int16>>)
    requires forall i | 0 <= i < |fs| :: 2 * |fs[i]| <= E.MAX_PACKET
    ensures Output(Plain(), (), Packed(Delay(d), s, fs)) == First(s + Flat(fs), |Flat(fs)|)
    decreases |fs|
  {
    hide Pcm, E.Loaded;
    if fs == [] {
      assert s + [] == s;
    } else {
      var f, rest := fs[0], fs[1..];
      assert [f] + rest == fs;
      FlatFirst(f, rest);
      DelayDelays(d, Off(s + f, |f|), rest);
      E.LoadedOfPcm(First(s + f, |f|));
      FrontAndBack(s, f, Flat(rest));
    }
  }

  lemma FrontAndBack(s: seq<int16>, f: seq<int16>, t: seq<int16>)
    ensures First(s + f, |f|) + First(Off(s + f, |f|) + t, |t|) == First(s + (f + t), |f + t|)
  {
  }

  /** So transparent codecs there are. */
  lemma DelayIsTransparent(d: nat, size: nat)
    requires 2 * size <= E.MAX_PACKET
    ensures E.Bounded(Delay(d)) && Transparent(Delay(d), Plain(), size, d)
  {
    hide Pcm;
    forall fs: seq<seq<int16>> | Sized(fs, size)
      ensures Output(Plain(), Plain().initial, Packed(Delay(d), Delay(d).initial, fs)) == First(E.Silence(d) + Flat(fs), |Flat(fs)|)
    {
      DelayDelays(d, E.Silence(d), fs);
    }
  }
}
