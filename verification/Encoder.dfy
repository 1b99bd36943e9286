/** The encoder as it runs: PCM carried over to whole frames, padded and trimmed at the end. */
module Encoder {
  import opened Crc
  import P = Page
  import opened Packets
  import opened Playback
  import opened Writer

  const CODING_RATE := 48000
  const PRE_SKIP := 312
  const MAX_PACKET := 1276 * 6

  /** Far below what the source's 64-bit counters hold. */
  const MAX_INPUT := 0x1000_0000_0000_0000

  datatype Config = Config(rate: nat, ms: nat, channels: nat) {
    predicate Valid() {
      && rate in {8000, 12000, 16000, 24000, 48000} && ms in {20, 40, 60, 80, 100, 120} && channels in {1, 2}
    }

    /** Samples of each channel in a frame, at the input rate. */
    function FrameLen(): (n: nat) { rate * ms / 1000 }

    /** Values in the scratch frame. */
    function ScratchLen(): (n: nat) { FrameLen() * channels }

    function SampleBytes(): (n: nat) { 2 * channels }

    function FrameBytes(): (n: nat) { FrameLen() * SampleBytes() }

    /** Every valid rate divides the coding rate. */
    function Scale(): (m: nat)
      requires Valid()
    {
      CODING_RATE / rate
    }

    /** A frame's duration at 48 kHz. */
    function Duration(): (d: nat)
      requires Valid()
    {
      FrameLen() * CODING_RATE / rate
    }
  }

  lemma Sizes(c: Config)
    requires c.Valid()
    ensures c.Scale() in {1, 2, 3, 4, 6} && c.Scale() * c.rate == CODING_RATE
    ensures c.Duration() <= 5760 && c.Duration() == 48 * c.ms == c.FrameLen() * c.Scale() && c.Duration() >= 960 > PRE_SKIP
    ensures c.FrameLen() > 0 && c.FrameBytes() > 0 && c.Duration() <= 3 * c.FrameBytes()
  {
  }

  /** Source samples at 48 kHz: the division is exact. */
  lemma Exact48k(c: Config, n: nat)
    requires c.Valid()
    ensures n * CODING_RATE / c.rate == n * c.Scale()
  {
    Sizes(c);
    var m := c.Scale();
    assert n * CODING_RATE == (n * m) * c.rate by {
      assert n * (m * c.rate) == (n * m) * c.rate;
    }
    DivExact(n * m, c.rate);
  }

  lemma DivExact(q: nat, d: nat)
    requires d > 0
    ensures (q * d) / d == q
  {
    if (q * d) / d < q { Grows((q * d) / d + 1, q, d); } else { Grows(q, (q * d) / d, d); }
    if (q * d) / d > q { Grows(q + 1, (q * d) / d, d); }
  }

  lemma Grows(a: int, b: int, k: nat)
    requires a <= b
    ensures a * k <= b * k
  {
  }

  datatype Encoded<+T> = Coded(packet: Packet, state: T) | Refused(state: T)

  /** The codec seam: one frame to one packet, from state to state. */
  datatype FrameCodec<!T> = FrameCodec(initial: T, encode: (T, seq<int16>) -> Encoded<T>)

  /** Its packet buffer bounds what it can return. */
  ghost predicate Bounded<T(!new)>(codec: FrameCodec<T>) {
    forall s, f :: codec.encode(s, f).Coded? ==> |codec.encode(s, f).packet| <= MAX_PACKET
  }

  /** Two bytes, little-endian, two's complement. */
  function Sample(low: byte, high: byte): (v: int16) {
    var u := low + 256 * high;
    if u < 0x8000 then u else u - 0x1_0000
  }

  function Loaded(chunk: seq<byte>): (f: seq<int16>) {
    seq(|chunk| / 2, i requires 0 <= i < |chunk| / 2 => Sample(chunk[2 * i], chunk[2 * i + 1]))
  }

  function Silence(n: nat): (f: seq<int16>) { seq(n, _ => 0) }

  /** Loading undoes writing samples out as bytes. */
  lemma LoadedOfPcm(s: seq<int16>)
    ensures Loaded(Pcm(s)) == s
  {
    hide PcmByte, Sample;
    forall i | 0 <= i < |s| ensures Loaded(Pcm(s))[i] == s[i] {
      assert Pcm(s)[2 * i] == PcmByte(s[i], true) && Pcm(s)[2 * i + 1] == PcmByte(s[i], false);
      SampleOfBytes(s[i]);
    }
  }

  lemma SampleOfBytes(v: int16)
    ensures Sample(PcmByte(v, true), PcmByte(v, false)) == v
  {
  }

  // ---------------------------------------------------------------- what the input codes to

  datatype Run<+T> = Run(state: T, packets: seq<Packet>)

  function Then<T>(codec: FrameCodec<T>, r: Run<T>, frame: seq<int16>): (r': Run<T>) {
    match codec.encode(r.state, frame)
    case Coded(p, s) => Run(s, r.packets + [p])
    case Refused(s) => Run(s, r.packets)
  }

  /** The first `n` whole frames of the input, coded one after another. */
  function Fed<T>(codec: FrameCodec<T>, input: seq<byte>, size: nat, n: nat): (r: Run<T>)
    requires n * size <= |input|
    decreases n
  {
    if n == 0 then Run(codec.initial, [])
    else
      Grows(n - 1, n, size);
      Then(codec, Fed(codec, input, size, n - 1), Loaded(input[(n - 1) * size..n * size]))
  }

  /** More input changes nothing of what is already coded. */
  lemma {:induction false} FedMore<T>(codec: FrameCodec<T>, input: seq<byte>, more: seq<byte>, size: nat, n: nat)
    requires n * size <= |input|
    ensures n * size <= |input + more| && Fed(codec, input + more, size, n) == Fed(codec, input, size, n)
    decreases n
  {
    if n > 0 {
      Grows(n - 1, n, size);
      FedMore(codec, input, more, size, n - 1);
      assert (input + more)[(n - 1) * size..n * size] == input[(n - 1) * size..n * size];
    }
  }

  /** Frames of input, the last one padded. */
  function Frames(c: Config, length: nat): (n: nat)
    requires c.Valid()
  {
    WholeCount(c, length) + if WholeCount(c, length) * c.FrameBytes() < length then 1 else 0
  }

  function WholeCount(c: Config, length: nat): (n: nat)
    requires c.Valid()
    ensures n * c.FrameBytes() <= length < (n + 1) * c.FrameBytes()
  {
    Sizes(c);
    hide Config.FrameBytes, Config.Valid;
    Divides(length, c.FrameBytes());
    length / c.FrameBytes()
  }

  lemma Divides(n: nat, k: nat)
    requires k > 0
    ensures n / k * k <= n < (n / k + 1) * k
  {
  }

  /** The quotient is the only one there can be. */
  lemma OnlyQuotient(n: nat, k: nat, a: nat, b: nat)
    requires a * k <= n < (a + 1) * k && b * k <= n < (b + 1) * k
    ensures a == b
  {
    if a < b { Grows(a + 1, b, k); }
    if b < a { Grows(b + 1, a, k); }
  }

  /** The source's length at 48 kHz. */
  function Length48k(c: Config, length: nat): (n: nat)
    requires c.Valid()
  {
    length / c.SampleBytes() * c.Scale()
  }

  /** Silent frames behind the input: one when the coded audio would not cover what the final
      granule claims, or when there is no audio at all; never more. */
  function Silences(c: Config, length: nat): (n: nat)
    requires c.Valid()
    ensures n <= 1
  {
    if Frames(c, length) == 0 || Frames(c, length) * c.Duration() < PRE_SKIP + Length48k(c, length) then 1 else 0
  }

  function Padded(c: Config, tail: seq<byte>): (f: seq<int16>) {
    var have := Loaded(tail);
    if |have| <= c.ScratchLen() then have + Silence(c.ScratchLen() - |have|) else have
  }

  /** Everything an input codes to, however it was split over calls of Write. */
  function Coding<T>(codec: FrameCodec<T>, c: Config, input: seq<byte>): (r: Run<T>)
    requires c.Valid()
  {
    hide Config.Valid, Config.FrameBytes, Config.FrameLen, Config.ScratchLen, Config.SampleBytes, WholeCount, Frames, Length48k;
    var n := WholeCount(c, |input|);
    var r := Fed(codec, input, c.FrameBytes(), n);
    var r' := if n * c.FrameBytes() < |input| then Then(codec, r, Padded(c, input[n * c.FrameBytes()..])) else r;
    if Silences(c, |input|) == 1 then Then(codec, r', Silence(c.ScratchLen())) else r'
  }

  /** Whole frames and a remainder, told from any split of the input. */
  lemma SplitOf(c: Config, length: nat, n: nat, rest: nat)
    requires c.Valid() && length == n * c.FrameBytes() + rest && rest < c.FrameBytes()
    ensures WholeCount(c, length) == n && Frames(c, length) == n + if rest > 0 then 1 else 0
  {
    hide Config.FrameBytes, Config.Valid, WholeCount;
    OneMoreFrame(n, c.FrameBytes());
    OnlyQuotient(length, c.FrameBytes(), n, WholeCount(c, length));
  }

  lemma OneMoreFrame(n: nat, k: nat)
    ensures (n + 1) * k == n * k + k
  {
  }

  /** The coded audio covers the source, and all but one frame of it does not overrun it. */
  lemma Covers(c: Config, n: nat, rest: nat)
    requires c.Valid() && rest < c.FrameBytes() && rest % c.SampleBytes() == 0
    ensures var length := n * c.FrameBytes() + rest; var f := Frames(c, length);
            && f == n + (if rest > 0 then 1 else 0) && Length48k(c, length) == (n * c.FrameLen() + rest / c.SampleBytes()) * c.Scale()
            && length % c.SampleBytes() == 0
            && Length48k(c, length) <= f * c.Duration() && (f > 0 ==> (f - 1) * c.Duration() <= Length48k(c, length))
  {
    hide Config.Valid, Config.Scale, Config.Duration, Config.FrameLen, Config.ScratchLen, Config.SampleBytes, WholeCount, Frames;
    var length := n * c.FrameBytes() + rest;
    SplitOf(c, length, n, rest);
    Sizes(c);
    SomeBytes(c);
    Samples(n, c.FrameLen(), c.SampleBytes(), rest);
    TailFits(c.FrameLen(), c.SampleBytes(), rest);
    Distributes(n, c.FrameLen(), rest / c.SampleBytes(), c.Scale(), c.Duration());
  }

  lemma NoneCarried(c: Config)
    requires c.SampleBytes() > 0
    ensures 0 % c.SampleBytes() == 0 && 0 / c.SampleBytes() == 0
  {
  }

  lemma SomeBytes(c: Config)
    requires c.Valid()
    ensures c.SampleBytes() > 0
  {
  }

  lemma Samples(n: nat, len: nat, bytes: nat, rest: nat)
    requires bytes > 0 && rest % bytes == 0
    ensures n * (len * bytes) + rest == (n * len + rest / bytes) * bytes
    ensures (n * (len * bytes) + rest) / bytes == n * len + rest / bytes && (n * (len * bytes) + rest) % bytes == 0
  {
    var q := n * len + rest / bytes;
    assert n * (len * bytes) == (n * len) * bytes;
    assert rest == (rest / bytes) * bytes;
    assert n * (len * bytes) + rest == q * bytes;
    DivExact(q, bytes);
  }

  lemma TailFits(len: nat, bytes: nat, rest: nat)
    requires bytes > 0 && rest < len * bytes && rest % bytes == 0
    ensures rest / bytes <= len && (rest > 0 <==> rest / bytes > 0)
  {
    if rest / bytes > len { Grows(len, rest / bytes, bytes); }
  }

  lemma Distributes(n: nat, len: nat, tail: nat, m: nat, dur: nat)
    requires dur == len * m && tail <= len
    ensures var f := n + (if tail > 0 then 1 else 0);
            (n * len + tail) * m <= f * dur && (f > 0 ==> (f - 1) * dur <= (n * len + tail) * m)
  {
    assert (n * len + tail) * m == n * dur + tail * m by {
      assert (n * len + tail) * m == (n * len) * m + tail * m;
      assert (n * len) * m == n * (len * m);
    }
    Grows(tail, len, m);
    Grows(0, tail, m);
    if tail > 0 { assert (n + 1) * dur == n * dur + dur; } else if n > 0 { Grows(n - 1, n, dur); }
  }

  // ---------------------------------------------------------------- the encoder

  function Uniform(n: nat, d: nat): (s: seq<nat>) { seq(n, _ => d) }

  lemma {:induction false} UniformTotal(n: nat, d: nat)
    ensures Total(Uniform(n, d)) == n * d
  {
    if n > 0 {
      UniformTotal(n - 1, d);
      assert Uniform(n, d)[..n - 1] == Uniform(n - 1, d);
      assert n * d == (n - 1) * d + d;
    }
  }

  lemma UniformMore(n: nat, d: nat)
    ensures Uniform(n, d) + [d] == Uniform(n + 1, d)
  {
  }

  datatype EncodeError = FrameRefused | PartialSample | AlreadyClosed

  /** What the encoder holds against what it has been given: the frames coded are the first `n`
      of the input, and the rest of it is carried. */
  ghost predicate InTune<T(!new)>(codec: FrameCodec<T>, c: Config, input: seq<byte>, n: nat, carry: seq<byte>, state: T, packets: seq<Packet>, srcSamples: nat) {
    && n * c.FrameBytes() + |carry| == |input| && carry == input[n * c.FrameBytes()..]
    && Run(state, packets) == Fed(codec, input, c.FrameBytes(), n)
    && srcSamples == n * c.FrameLen() && |packets| == n
  }

  /** Bytes carried. */
  lemma TuneTakes<T(!new)>(codec: FrameCodec<T>, c: Config, input: seq<byte>, n: nat, carry: seq<byte>, state: T, packets: seq<Packet>, srcSamples: nat, more: seq<byte>)
    requires InTune(codec, c, input, n, carry, state, packets, srcSamples)
    ensures InTune(codec, c, input + more, n, carry + more, state, packets, srcSamples)
  {
    hide Config.FrameBytes, Config.FrameLen;
    FedMore(codec, input, more, c.FrameBytes(), n);
  }

  /** A whole frame carried is coded. */
  lemma TuneCodes<T(!new)>(codec: FrameCodec<T>, c: Config, input: seq<byte>, n: nat, carry: seq<byte>, state: T, packets: seq<Packet>, srcSamples: nat, r: Run<T>)
    requires InTune(codec, c, input, n, carry, state, packets, srcSamples) && |carry| == c.FrameBytes()
    requires r == Then(codec, Run(state, packets), Loaded(carry)) && |r.packets| == |packets| + 1
    ensures InTune(codec, c, input, n + 1, [], r.state, r.packets, srcSamples + c.FrameLen())
  {
    hide Config.FrameBytes, Config.FrameLen, Config.ScratchLen, Loaded;
    OneMoreFrame(n, c.FrameBytes());
    OneMoreFrame(n, c.FrameLen());
    assert input[n * c.FrameBytes()..(n + 1) * c.FrameBytes()] == carry;
  }

  lemma UniformLess(n: nat, d: nat)
    requires n > 0
    ensures |Uniform(n, d)| == n && Uniform(n, d)[..n - 1] == Uniform(n - 1, d)
  {
  }

  lemma StillCovered(c: Config, src: nat, coded: nat, more: nat)
    requires c.Valid() && src * c.Scale() <= coded && more <= c.FrameLen()
    ensures (src + more) * c.Scale() <= coded + c.Duration()
  {
    Sizes(c);
    Grows(more, c.FrameLen(), c.Scale());
    assert (src + more) * c.Scale() == src * c.Scale() + more * c.Scale();
  }

  /** What closing makes of an encoder in tune: the frames and the silence are those its whole
      input calls for. */
  lemma ClosingCodes<T(!new)>(codec: FrameCodec<T>, c: Config, input: seq<byte>, n: nat, carry: seq<byte>, state: T, packets: seq<Packet>, srcSamples: nat)
    requires c.Valid() && InTune(codec, c, input, n, carry, state, packets, srcSamples) && |carry| < c.FrameBytes()
    ensures |packets| == n && Frames(c, |input|) == n + if carry == [] then 0 else 1
    ensures var r := if carry == [] then Run(state, packets) else Then(codec, Run(state, packets), Padded(c, carry));
            Coding(codec, c, input) == if Silences(c, |input|) == 1 then Then(codec, r, Silence(c.ScratchLen())) else r
  {
    hide Config.Valid, Config.FrameBytes, Config.FrameLen, Config.ScratchLen, WholeCount, Frames, Length48k, Padded, Silences, Then;
    SplitOf(c, |input|, n, |carry|);
    assert |carry| > 0 <==> carry != [];
  }

  /** And its length is that of the whole input. */
  lemma ClosingCounts<T(!new)>(codec: FrameCodec<T>, c: Config, input: seq<byte>, n: nat, carry: seq<byte>, state: T, packets: seq<Packet>, srcSamples: nat, tail: nat)
    requires c.Valid() && InTune(codec, c, input, n, carry, state, packets, srcSamples) && |carry| < c.FrameBytes()
    requires c.SampleBytes() > 0 && |carry| % c.SampleBytes() == 0 && tail == |carry| / c.SampleBytes()
    ensures |input| % c.SampleBytes() == 0 && Length48k(c, |input|) == (srcSamples + tail) * c.Scale()
    ensures var f := Frames(c, |input|);
            Length48k(c, |input|) <= f * c.Duration() && (f > 0 ==> (f - 1) * c.Duration() <= Length48k(c, |input|))
  {
    hide Config.Valid, Config.FrameBytes, Config.FrameLen, Config.ScratchLen, Config.SampleBytes, Config.Scale, Config.Duration, WholeCount, Frames, Length48k, Fed;
    Covers(c, n, |carry|);
  }

  /** What an encoder is to put out once its last frame is coded: silence if it is due makes the
      whole coding, and the length is the input's. */
  ghost predicate Due<T(!new)>(codec: FrameCodec<T>, c: Config, input: seq<byte>, r: Run<T>, n: nat, srcSamples: nat) {
    && c.Valid() && n == Frames(c, |input|) && c.SampleBytes() > 0 && |input| % c.SampleBytes() == 0
    && Coding(codec, c, input) == (if Silences(c, |input|) == 1 then Then(codec, r, Silence(c.ScratchLen())) else r)
    && Length48k(c, |input|) == srcSamples * c.Scale()
    && Length48k(c, |input|) <= n * c.Duration() && (n > 0 ==> (n - 1) * c.Duration() <= Length48k(c, |input|))
  }

  lemma DueNow<T(!new)>(codec: FrameCodec<T>, c: Config, input: seq<byte>, n: nat, carry: seq<byte>, state: T, packets: seq<Packet>, srcSamples: nat, tail: nat)
    requires c.Valid() && InTune(codec, c, input, n, carry, state, packets, srcSamples) && |carry| < c.FrameBytes()
    requires c.SampleBytes() > 0 && |carry| % c.SampleBytes() == 0 && tail == |carry| / c.SampleBytes()
    ensures var r := if carry == [] then Run(state, packets) else Then(codec, Run(state, packets), Padded(c, carry));
            |packets| == n && Due(codec, c, input, r, n + (if carry == [] then 0 else 1), srcSamples + tail)
  {
    hide *;
    ClosingCodes(codec, c, input, n, carry, state, packets, srcSamples);
    ClosingCounts(codec, c, input, n, carry, state, packets, srcSamples, tail);
    IsDue(codec, c, input, if carry == [] then Run(state, packets) else Then(codec, Run(state, packets), Padded(c, carry)), n + (if carry == [] then 0 else 1), srcSamples + tail);
  }

  lemma IsDue<T(!new)>(codec: FrameCodec<T>, c: Config, input: seq<byte>, r: Run<T>, n: nat, srcSamples: nat)
    requires c.Valid() && n == Frames(c, |input|) && c.SampleBytes() > 0 && |input| % c.SampleBytes() == 0
    requires Coding(codec, c, input) == (if Silences(c, |input|) == 1 then Then(codec, r, Silence(c.ScratchLen())) else r)
    requires Length48k(c, |input|) == srcSamples * c.Scale()
    requires Length48k(c, |input|) <= n * c.Duration() && (n > 0 ==> (n - 1) * c.Duration() <= Length48k(c, |input|))
    ensures Due(codec, c, input, r, n, srcSamples)
  {
    hide Config.Valid, Config.FrameBytes, Config.FrameLen, Config.ScratchLen, Config.SampleBytes, Config.Scale, Config.Duration, Frames, Length48k, Silences, Coding;
  }

  lemma DueSilence<T(!new)>(codec: FrameCodec<T>, c: Config, input: seq<byte>, r: Run<T>, n: nat, srcSamples: nat)
    requires Due(codec, c, input, r, n, srcSamples)
    ensures c.Valid() && c.SampleBytes() > 0 && |input| % c.SampleBytes() == 0 && n == Frames(c, |input|)
    ensures Length48k(c, |input|) == srcSamples * c.Scale()
    ensures var s := if n == 0 || n * c.Duration() < PRE_SKIP + srcSamples * c.Scale() then 1 else 0;
            && s == Silences(c, |input|) && Coding(codec, c, input) == (if s == 1 then Then(codec, r, Silence(c.ScratchLen())) else r)
            && n + s > 0 && (n + s - 1) * c.Duration() <= PRE_SKIP + srcSamples * c.Scale()
  {
    hide Config.Valid, Config.FrameBytes, Config.FrameLen, Config.ScratchLen, Config.SampleBytes, Config.Scale, Config.Duration, Frames, Length48k, Coding;
    ClaimHolds(c, |input|);
  }

  /** With the silence in place the coded audio covers what the stream claims, and without its
      last frame it does not exceed it. */
  lemma ClaimHolds(c: Config, length: nat)
    requires c.Valid()
    requires var f := Frames(c, length); Length48k(c, length) <= f * c.Duration() && (f > 0 ==> (f - 1) * c.Duration() <= Length48k(c, length))
    ensures var g := Frames(c, length) + Silences(c, length);
            g > 0 && (g - 1) * c.Duration() <= PRE_SKIP + Length48k(c, length) <= g * c.Duration()
  {
    hide Config.Valid, Config.FrameBytes, Config.Duration, Frames, Length48k;
    Sizes(c);
    OneMoreFrame(Frames(c, length), c.Duration());
  }

  lemma ScratchHolds(c: Config, bytes: nat)
    requires bytes == c.FrameBytes()
    ensures bytes / 2 == c.ScratchLen() && bytes % 2 == 0
  {
    assert c.FrameLen() * (2 * c.channels) == 2 * c.ScratchLen();
  }

  /** The samples of a run of bytes into the front of the scratch frame, zeros behind them. */
  method Load(frame: array<int16>, chunk: seq<byte>, ghost silence: nat)
    requires |chunk| / 2 + silence == frame.Length
    modifies frame
    ensures frame[..] == Loaded(chunk) + Silence(silence)
    ensures silence == 0 ==> frame[..] == Loaded(chunk)
  {
    var have := |chunk| / 2;
    for i := 0 to have
      invariant forall j | 0 <= j < i :: frame[j] == Sample(chunk[2 * j], chunk[2 * j + 1])
    {
      frame[i] := Sample(chunk[2 * i], chunk[2 * i + 1]);
    }
    for i := have to frame.Length
      invariant forall j | 0 <= j < have :: frame[j] == Loaded(chunk)[j]
      invariant forall j | have <= j < i :: frame[j] == 0
    {
      frame[i] := 0;
    }
    assert frame[..have] == Loaded(chunk) && frame[have..] == Silence(silence);
    assert frame[..] == frame[..have] + frame[have..];
    if silence == 0 { assert Loaded(chunk) + Silence(0) == Loaded(chunk); }
  }

  class Encoder<T(!new)> {
    const codec: FrameCodec<T>
    const config: Config
    const cw: ContainerWriter
    const frame: array<int16>
    var state: T
    var carry: seq<byte>
    var srcSamples: nat
    var coded48k: nat
    var closed: bool

    ghost var input: seq<byte>   // every byte taken
    ghost var whole: nat         // the frames of it coded so far
    ghost var intact: bool       // the codec has refused nothing

    /** Everything but what ties the encoder to its input. */
    ghost predicate Kept()
      reads this, cw, cw.sw
    {
      && config.Valid() && Bounded(codec) && frame.Length == config.ScratchLen()
      && cw.Valid() && cw.preSkip == PRE_SKIP && cw.durations == Uniform(|cw.sent|, config.Duration()) && coded48k == |cw.sent| * config.Duration()
      && (forall p | p in cw.sent :: |p| <= MAX_PACKET) && srcSamples * config.Scale() <= coded48k
      && |carry| <= config.FrameBytes() && (closed <==> cw.sw.closed)
    }

    ghost predicate Valid()
      reads this, cw, cw.sw
    {
      && Kept()
      && (intact && !closed ==> |carry| < config.FrameBytes() && InTune(codec, config, input, whole, carry, state, cw.sent, srcSamples))
      && (intact && closed ==> Finished())
    }

    /** The stream is what the input codes to, and claims exactly the input's length: no more than
        what is coded, and more than all but the last frame of it. */
    ghost predicate Finished()
      reads this, cw
      requires config.Valid()
    {
      && Run(state, cw.sent) == Coding(codec, config, input) && |input| % config.SampleBytes() == 0
      && |cw.sent| == Frames(config, |input|) + Silences(config, |input|)
      && cw.final == PRE_SKIP + Length48k(config, |input|)
      && (|cw.sent| - 1) * config.Duration() <= cw.final <= |cw.sent| * config.Duration()
    }

    /** The source's 64-bit counters do not overflow. */
    ghost predicate Roomy(more: nat)
      reads this
    {
      coded48k + 3 * (|carry| + more) < MAX_INPUT
    }

    constructor (codec: FrameCodec<T>, config: Config, serial: P.uint32, head: Packet, tags: Packet)
      requires config.Valid() && Bounded(codec)
      ensures Valid() && !closed && intact && input == [] && cw.head == head && cw.tags == tags && fresh(cw) && fresh(cw.sw) && fresh(frame)
      ensures this.codec == codec && this.config == config
    {
      hide Emitted, Carries, Ledger, Bounded;
      this.codec, this.config := codec, config;
      cw := new ContainerWriter(serial, PRE_SKIP, head, tags);
      frame := new int16[config.ScratchLen()](_ => 0);
      state, carry, srcSamples, coded48k, closed := codec.initial, [], 0, 0, false;
      input, whole, intact := [], 0, true;
      new;
      assert Uniform(0, config.Duration()) == [];
      Sizes(config);
    }

    /** The scratch frame through the codec and out; `realSamples` of it are the source's. */
    method EncodeFrame(realSamples: nat) returns (error: Option<EncodeError>)
      requires Kept() && !closed && coded48k < 4 * MAX_INPUT && realSamples <= config.FrameLen()
      modifies this`state, this`srcSamples, this`coded48k, this`intact, cw, cw.sw
      ensures Kept() && !closed
      ensures var f := old(frame[..]);
              match codec.encode(old(state), f)
              case Refused(s) => error == Some(FrameRefused) && !intact && cw.sent == old(cw.sent)
              case Coded(p, s) => error == None && intact == old(intact) && srcSamples == old(srcSamples) + realSamples
                                  && Run(state, cw.sent) == Then(codec, Run(old(state), old(cw.sent)), f) && |cw.sent| == |old(cw.sent)| + 1
      ensures coded48k <= old(coded48k) + config.Duration()
    {
      hide Emitted, Carries, Ledger, Coding, InTune, StreamWriter.Valid, ContainerWriter.Valid, Finished,
        Config.FrameBytes, Config.FrameLen, Config.ScratchLen, Config.Duration, Config.Scale, Config.Valid, Uniform, Total;
      var coded := codec.encode(state, frame[..]);
      state := coded.state;
      if coded.Refused? {
        intact := false;
        return Some(FrameRefused);
      }
      OneMoreFrame(|cw.sent|, config.Duration());
      Sizes(config);
      UniformTotal(|cw.sent|, config.Duration());
      UniformMore(|cw.sent|, config.Duration());
      StillCovered(config, srcSamples, coded48k, realSamples);
      srcSamples := srcSamples + realSamples;
      coded48k := coded48k + config.Duration();
      cw.WritePacket(coded.packet, config.Duration());
      return None;
    }

    /** encodeFrameBytes: one whole frame of PCM. */
    method EncodeChunk(chunk: seq<byte>) returns (error: Option<EncodeError>)
      requires Kept() && !closed && coded48k < 4 * MAX_INPUT && |chunk| == config.FrameBytes()
      modifies this`state, this`srcSamples, this`coded48k, this`intact, frame, cw, cw.sw
      ensures Kept() && !closed && coded48k <= old(coded48k) + config.Duration()
      ensures error.Some? ==> error == Some(FrameRefused) && !intact
      ensures error.None? ==> intact == old(intact) && srcSamples == old(srcSamples) + config.FrameLen()
                              && Run(state, cw.sent) == Then(codec, Run(old(state), old(cw.sent)), Loaded(chunk)) && |cw.sent| == |old(cw.sent)| + 1
    {
      hide Emitted, Carries, Ledger, Then, Config.FrameLen, Config.ScratchLen, Config.FrameBytes, Config.Duration, Config.Valid, ContainerWriter.Valid, StreamWriter.Valid, Bounded;
      ScratchHolds(config, |chunk|);
      Load(frame, chunk, 0);
      error := EncodeFrame(config.FrameLen());
    }

    /** Takes PCM: whole frames are coded, what is left of the last is carried. */
    method Write(p: seq<byte>) returns (taken: nat, error: Option<EncodeError>)
      requires Valid() && Roomy(|p|)
      modifies this, frame, cw, cw.sw
      ensures Valid() && closed == old(closed)
      ensures old(closed) ==> error == Some(AlreadyClosed) && taken == 0 && input == old(input)
      ensures !old(closed) ==> taken <= |p| && input == old(input) + p[..taken]
      ensures !old(closed) && error.None? ==> taken == |p| && intact == old(intact)
      ensures !old(closed) && error.Some? ==> !intact
    {
      hide ContainerWriter.Valid, InTune, Bounded, Config.FrameLen, Config.ScratchLen, Config.FrameBytes, Config.Duration, Config.Valid, Uniform, Finished;
      if closed { return 0, Some(AlreadyClosed); }
      Sizes(config);
      taken := 0;
      if |carry| > 0 {
        var need := config.FrameBytes() - |carry|;
        taken := if need < |p| then need else |p|;
        Take(p[..taken]);
        if |carry| == config.FrameBytes() {
          error := EncodeCarry();
          if error.Some? { return; }
        }
      }
      var more;
      more, error := WriteWhole(p[taken..]);
      assert p[..taken] + p[taken..][..more] == p[..taken + more];
      taken := taken + more;
    }

    /** With no partial frame carried, or no bytes left: whole frames, then what is left. */
    method WriteWhole(p: seq<byte>) returns (taken: nat, error: Option<EncodeError>)
      requires Kept() && !closed && coded48k + 3 * (|carry| + |p|) < MAX_INPUT + config.Duration() && coded48k + 3 * |p| < MAX_INPUT
      requires (|p| > 0 ==> carry == []) && |carry| < config.FrameBytes()
      requires intact ==> InTune(codec, config, input, whole, carry, state, cw.sent, srcSamples)
      modifies this, frame, cw, cw.sw
      ensures Valid() && !closed && taken <= |p| && input == old(input) + p[..taken]
      ensures error.None? ==> taken == |p| && intact == old(intact)
      ensures error.Some? ==> error == Some(FrameRefused) && !intact
    {
      hide ContainerWriter.Valid, InTune, Bounded, Config.FrameLen, Config.ScratchLen, Config.FrameBytes, Config.Duration, Config.Valid, Uniform, Finished;
      Sizes(config);
      var size := config.FrameBytes();
      taken := 0;
      assert input == old(input) + p[..0];
      while |p| - taken >= size
        invariant Kept() && !closed && taken <= |p| && input == old(input) + p[..taken] && intact == old(intact)
        invariant coded48k + 3 * (|p| - taken) < MAX_INPUT
        invariant (|p| - taken > 0 ==> carry == []) && |carry| < size
        invariant intact ==> InTune(codec, config, input, whole, carry, state, cw.sent, srcSamples)
      {
        error := EncodeDirect(p[taken..taken + size]);
        if error.Some? { return; }
        assert p[..taken] + p[taken..taken + size] == p[..taken + size];
        taken := taken + size;
      }
      Take(p[taken..]);
      assert p[..taken] + p[taken..] == p[..|p|];
      return |p|, None;
    }

    /** The carried frame, now whole. */
    method EncodeCarry() returns (error: Option<EncodeError>)
      requires Kept() && !closed && coded48k < 4 * MAX_INPUT && |carry| == config.FrameBytes()
      requires intact ==> InTune(codec, config, input, whole, carry, state, cw.sent, srcSamples)
      modifies this, frame, cw, cw.sw
      ensures Kept() && !closed && coded48k <= old(coded48k) + config.Duration() && input == old(input)
      ensures error.Some? ==> error == Some(FrameRefused) && !intact
      ensures error.None? ==> carry == [] && intact == old(intact)
      ensures error.None? && intact ==> InTune(codec, config, input, whole, carry, state, cw.sent, srcSamples)
    {
      hide ContainerWriter.Valid, InTune, Bounded, Config.FrameBytes, Config.FrameLen, Config.ScratchLen, Config.Duration, Config.Valid, Uniform, Finished, Then, Loaded;
      ghost var r := Then(codec, Run(state, cw.sent), Loaded(carry));
      error := EncodeChunk(carry);
      if error.Some? { return; }
      if intact { TuneCodes(codec, config, input, whole, carry, old(state), old(cw.sent), old(srcSamples), r); }
      carry, whole := [], whole + 1;
    }

    /** A whole frame straight from the caller's bytes. */
    method EncodeDirect(chunk: seq<byte>) returns (error: Option<EncodeError>)
      requires Kept() && !closed && coded48k < 4 * MAX_INPUT && carry == [] && |chunk| == config.FrameBytes()
      requires intact ==> InTune(codec, config, input, whole, carry, state, cw.sent, srcSamples)
      modifies this, frame, cw, cw.sw
      ensures Kept() && !closed && carry == [] && coded48k <= old(coded48k) + config.Duration()
      ensures error.Some? ==> error == Some(FrameRefused) && !intact && input == old(input)
      ensures error.None? ==> intact == old(intact) && input == old(input) + chunk
      ensures error.None? && intact ==> InTune(codec, config, input, whole, carry, state, cw.sent, srcSamples)
    {
      hide ContainerWriter.Valid, InTune, Bounded, Config.FrameBytes, Config.FrameLen, Config.ScratchLen, Config.Duration, Config.Valid, Uniform, Finished, Then, Loaded;
      ghost var r := Then(codec, Run(state, cw.sent), Loaded(chunk));
      assert [] + chunk == chunk;
      if intact { TuneTakes(codec, config, input, whole, carry, state, cw.sent, srcSamples, chunk); }
      error := EncodeChunk(chunk);
      if error.Some? { return; }
      if intact { TuneCodes(codec, config, input + chunk, whole, chunk, old(state), old(cw.sent), old(srcSamples), r); }
      whole, input := whole + 1, input + chunk;
    }

    method Take(more: seq<byte>)
      requires Kept() && !closed && |carry| + |more| <= config.FrameBytes()
      requires intact ==> InTune(codec, config, input, whole, carry, state, cw.sent, srcSamples)
      modifies this`carry, this`input
      ensures Kept() && !closed && carry == old(carry) + more && input == old(input) + more
      ensures intact ==> InTune(codec, config, input, whole, carry, state, cw.sent, srcSamples)
    {
      hide ContainerWriter.Valid, InTune, Bounded, Config.FrameBytes, Config.FrameLen, Config.ScratchLen, Config.Duration, Config.Valid, Uniform, Finished;
      if intact { TuneTakes(codec, config, input, whole, carry, state, cw.sent, srcSamples, more); }
      carry, input := carry + more, input + more;
    }

    /** Codes what is carried, padded, and the silence that makes the coded audio cover what the
        stream is about to claim; then ends the stream, claiming exactly the source. */
    method Close() returns (error: Option<EncodeError>)
      requires Valid() && Roomy(0)
      modifies this, frame, cw, cw.sw
      ensures Valid() && input == old(input)
      ensures error.None? <==> closed
      ensures closed && intact ==> config.Valid() && Finished()
      ensures old(closed) ==> closed && cw.sw.sink == old(cw.sw.sink) && intact == old(intact)
      ensures !old(closed) && error.None? ==> intact == old(intact)
      ensures error == Some(PartialSample) ==> |carry| % config.SampleBytes() != 0 && intact == old(intact)
      ensures error == Some(FrameRefused) ==> !intact
      ensures error != Some(AlreadyClosed)
    {
      hide ContainerWriter.Valid, InTune, Bounded, Config.FrameLen, Config.ScratchLen, Config.FrameBytes, Config.Duration, Config.Scale, Config.SampleBytes, Config.Valid,
        Uniform, Finished, Then, Due, Padded;
      if closed { return None; }
      Sizes(config);
      SomeBytes(config);
      NoneCarried(config);
      ghost var r := if carry == [] then Run(state, cw.sent) else Then(codec, Run(state, cw.sent), Padded(config, carry));
      if intact && |carry| % config.SampleBytes() == 0 {
        DueNow(codec, config, input, whole, carry, state, cw.sent, srcSamples, |carry| / config.SampleBytes());
      }
      if |carry| > 0 {
        if |carry| % config.SampleBytes() != 0 { return Some(PartialSample); }
        error := EncodeTail();
        if error.Some? { return; }
      }
      error := EndStream(r);
    }

    method EndStream(ghost r: Run<T>) returns (error: Option<EncodeError>)
      requires Kept() && !closed && coded48k < 2 * MAX_INPUT
      requires intact ==> Run(state, cw.sent) == r && Due(codec, config, input, r, |cw.sent|, srcSamples)
      modifies this`closed, this`state, this`srcSamples, this`coded48k, this`intact, frame, cw, cw.sw
      ensures Valid() && (error.None? <==> closed)
      ensures error.None? ==> intact == old(intact)
      ensures error.Some? ==> error == Some(FrameRefused) && !intact
    {
      hide Kept, Then, Silence, Due, Coding, Frames, Silences, Length48k, Finished, InTune, Config.FrameLen, Config.ScratchLen, Config.FrameBytes, Config.Duration, Config.Scale, Config.SampleBytes;
      Counted();
      ghost var n, src := |cw.sent|, srcSamples;
      Exact48k(config, srcSamples);
      var src48k := srcSamples * CODING_RATE / config.rate;
      error := CoverClaim(src48k, r);
      if error.Some? {
        Refused();
        return;
      }
      if intact { DueSilence(codec, config, input, r, n, src); }
      Finish(src48k);
      return None;
    }

    lemma Refused()
      requires Kept() && !intact
      ensures Valid()
    {
    }

    /** Silence, until the coded audio covers the claim; a stream with no audio still gets one
        frame.  One frame is always enough. */
    method CoverClaim(src48k: nat, ghost r: Run<T>) returns (error: Option<EncodeError>)
      requires Kept() && !closed && coded48k < 2 * MAX_INPUT && src48k <= coded48k && (intact ==> Run(state, cw.sent) == r)
      modifies this`state, this`srcSamples, this`coded48k, this`intact, frame, cw, cw.sw
      ensures Kept() && !closed && coded48k < 3 * MAX_INPUT
      ensures error.Some? ==> error == Some(FrameRefused) && !intact
      ensures error.None? ==>
                var f := |old(cw.sent)|; var s := if f == 0 || old(coded48k) < PRE_SKIP + src48k then 1 else 0;
                && intact == old(intact) && PRE_SKIP + src48k <= coded48k && |cw.sent| == f + s
                && (intact ==> Run(state, cw.sent) == if s == 1 then Then(codec, r, Silence(config.ScratchLen())) else r)
    {
      hide Kept, Then, Silence, Due, Coding, Frames, Silences, Length48k, Finished, InTune, Config.FrameLen, Config.ScratchLen, Config.FrameBytes, Config.Duration, Config.Scale, Config.SampleBytes;
      ghost var f := |cw.sent|;
      Counted();
      if cw.audioCount == 0 {
        error := EncodeSilence();
        if error.Some? { return; }
      }
      while coded48k < cw.preSkip + src48k
        invariant Kept() && !closed && intact == old(intact)
        invariant if |cw.sent| == f then f > 0 && coded48k == old(coded48k) else |cw.sent| == f + 1 && PRE_SKIP + src48k <= coded48k
        invariant |cw.sent| == f + 1 ==> (f == 0 || old(coded48k) < PRE_SKIP + src48k) && coded48k == old(coded48k) + config.Duration()
        invariant intact ==> Run(state, cw.sent) == if |cw.sent| == f then r else Then(codec, r, Silence(config.ScratchLen()))
        decreases cw.preSkip + src48k - coded48k
      {
        error := EncodeSilence();
        if error.Some? { return; }
      }
      error := None;
    }

    lemma Counted()
      requires Kept()
      ensures cw.audioCount == |cw.sent| && coded48k == |cw.sent| * config.Duration() && cw.preSkip == PRE_SKIP && !closed == !cw.sw.closed
      ensures config.Valid() && srcSamples * config.Scale() <= coded48k && 960 <= config.Duration() <= 5760
    {
      Sizes(config);
      hide Ledger, StreamWriter.Valid, Bounded, Uniform, Config.Duration, Config.Valid, Config.FrameLen, Config.ScratchLen, Config.FrameBytes, Config.Scale;
    }

    /** Ends the stream: the final granule is the claim itself, the guard on it never bites. */
    method Finish(src48k: nat)
      requires Kept() && !closed && PRE_SKIP + src48k <= coded48k < 4 * MAX_INPUT
      requires intact ==> Run(state, cw.sent) == Coding(codec, config, input) && |input| % config.SampleBytes() == 0 && config.SampleBytes() > 0
                          && |cw.sent| == Frames(config, |input|) + Silences(config, |input|) && src48k == Length48k(config, |input|)
                          && |cw.sent| > 0 && (|cw.sent| - 1) * config.Duration() <= PRE_SKIP + src48k
      modifies this`closed, cw, cw.sw
      ensures Valid() && closed
    {
      hide ContainerWriter.Valid, Bounded, Config.FrameLen, Config.ScratchLen, Config.FrameBytes, Config.Duration, Config.Scale, Config.Valid, Config.SampleBytes,
        Then, Coding, Frames, Length48k, Silences, Total, Uniform;
      Counted();
      if |cw.sent| > 0 {
        UniformTotal(|cw.sent| - 1, config.Duration());
        UniformLess(|cw.sent|, config.Duration());
      }
      closed := true;
      cw.Close(src48k);
    }

    method EncodeSilence() returns (error: Option<EncodeError>)
      requires Kept() && !closed && coded48k < 4 * MAX_INPUT
      modifies this`state, this`srcSamples, this`coded48k, this`intact, frame, cw, cw.sw
      ensures Kept() && !closed && coded48k <= old(coded48k) + config.Duration()
      ensures error.Some? ==> error == Some(FrameRefused) && !intact
      ensures error.None? ==> intact == old(intact) && srcSamples == old(srcSamples) && coded48k == old(coded48k) + config.Duration()
                              && Run(state, cw.sent) == Then(codec, Run(old(state), old(cw.sent)), Silence(config.ScratchLen()))
                              && |cw.sent| == |old(cw.sent)| + 1
    {
      hide Emitted, Carries, Ledger, Then, Config.FrameLen, Config.ScratchLen, Config.FrameBytes, Config.Duration, Config.Valid, ContainerWriter.Valid, StreamWriter.Valid, Bounded, Uniform;
      Load(frame, [], config.ScratchLen());
      assert Loaded([]) + Silence(frame.Length) == Silence(frame.Length);
      OneMoreFrame(|cw.sent|, config.Duration());
      error := EncodeFrame(0);
    }

    /** The carried partial frame, padded. */
    method EncodeTail() returns (error: Option<EncodeError>)
      requires Kept() && !closed && coded48k < 4 * MAX_INPUT && |carry| % config.SampleBytes() == 0 && config.SampleBytes() > 0
      modifies this`state, this`srcSamples, this`coded48k, this`intact, this`carry, frame, cw, cw.sw
      ensures Kept() && !closed && coded48k <= old(coded48k) + config.Duration()
      ensures error.Some? ==> error == Some(FrameRefused) && !intact
      ensures error.None? ==> intact == old(intact) && carry == [] && srcSamples == old(srcSamples) + |old(carry)| / config.SampleBytes()
                              && Run(state, cw.sent) == Then(codec, Run(old(state), old(cw.sent)), Padded(config, old(carry)))
                              && |cw.sent| == |old(cw.sent)| + 1
    {
      hide Emitted, Carries, Ledger, Then, Config.FrameLen, Config.ScratchLen, Config.FrameBytes, Config.Duration, Config.Valid, ContainerWriter.Valid, StreamWriter.Valid, Bounded, Uniform, Config.SampleBytes;
      TailInFrame(config, carry);
      Load(frame, carry, frame.Length - |carry| / 2);
      error := EncodeFrame(|carry| / config.SampleBytes());
      if error.None? { carry := []; }
    }
  }

  lemma TailInFrame(c: Config, tail: seq<byte>)
    requires c.Valid() && |tail| <= c.FrameBytes() && |tail| % c.SampleBytes() == 0
    ensures c.SampleBytes() > 0 && |tail| / c.SampleBytes() <= c.FrameLen() && |tail| / 2 <= c.ScratchLen()
    ensures Padded(c, tail) == Loaded(tail) + Silence(c.ScratchLen() - |tail| / 2)
  {
    ScratchHolds(c, c.FrameBytes());
    AtMost(c.FrameLen(), c.SampleBytes(), |tail|);
  }

  lemma AtMost(len: nat, bytes: nat, rest: nat)
    requires bytes > 0 && rest <= len * bytes && rest % bytes == 0
    ensures rest / bytes <= len
  {
    if rest / bytes > len { Grows(len + 1, rest / bytes, bytes); OneMoreFrame(len, bytes); }
  }
}
