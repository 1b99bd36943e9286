/** Decoding as a function of the stream: what Read yields from any state, whatever the codec. */
module Playback {
  import opened Crc
  import opened Packets

  type int16 = i: int | -0x8000 <= i < 0x8000

  datatype Option<+T> = None | Some(value: T)

  /** What OpusHead says that decoding depends on. */
  datatype Head = Head(preSkip: nat, channels: nat, streams: nat)

  datatype Decoded<+S> = Frame(samples: seq<int16>, state: S) | Refused(state: S)

  /** The codec seam: an arbitrary state machine with a reset to its initial state. */
  datatype Codec<!S> = Codec(initial: S, step: (S, Packet) -> Decoded<S>)

  datatype Stream<!S> = Stream(src: seq<byte>, head: Head, codec: Codec<S>)

  /** A frame holds whole samples: one value for every channel. */
  ghost predicate Sound<S(!new)>(codec: Codec<S>, channels: nat) {
    && channels > 0
    && forall s, p :: codec.step(s, p).Frame? ==> WholeSamples(codec.step(s, p).samples, channels)
  }

  predicate WholeSamples(samples: seq<int16>, channels: nat)
    requires channels > 0
  {
    |samples| % channels == 0
  }

  /** The decode state: container, codec, and the sample accounting. */
  datatype Core<+S> = Core(reader: Reader, pos: nat, codec: S, preSkipLeft: nat, delivered: int, limit: int)

  predicate Fit<S>(st: Stream<S>, c: Core<S>) {
    c.pos <= |st.src| && c.reader.Valid()
  }

  // ---------------------------------------------------------------- one packet

  function Min(a: int, b: int): (m: int) { if a < b then a else b }

  /** totalSamples: what the end-of-stream granule claims, less the pre-skip. */
  function Learned(limit: int, r: Reader, preSkip: nat): (l: int) {
    if limit < 0 && r.finalGranule >= 0 then r.finalGranule - preSkip else limit
  }

  /** Which of a packet's samples are kept: `count` of them from `first`. */
  datatype Span = Span(first: nat, count: nat, preSkipLeft: nat, delivered: int)

  /** Drop the pre-skip, then what lies before `skipTo`, then what lies past `limit`. */
  function Spanned(preSkipLeft: nat, delivered: int, limit: int, n: nat, skipTo: int): (s: Span)
    ensures s.first + s.count <= n
  {
    var lead := Min(preSkipLeft, n);
    var skip := if delivered < skipTo then Min(skipTo - delivered, n - lead) else 0;
    var left := n - lead - skip;
    var at := delivered + skip;
    var keep := if limit >= 0 && at + left > limit then (if limit - at > 0 then limit - at else 0) else left;
    Span(lead + skip, keep, preSkipLeft - lead, at + keep)
  }

  /** Samples as little-endian bytes. */
  function Pcm(s: seq<int16>): (b: seq<byte>)
    ensures |b| == 2 * |s|
  {
    seq(2 * |s|, i requires 0 <= i < 2 * |s| => PcmByte(s[i / 2], i % 2 == 0))
  }

  function PcmByte(v: int16, low: bool): (b: byte) {
    var u := if v < 0 then v + 0x1_0000 else v;
    if low then u % 256 else u / 256
  }

  datatype Fault = Uninitialized | SeekUnsupported | InvalidSeek | Container(error: ReadError) | NotOpus | BadTags | BadHead
                 | CodecRefused | NoPage(off: nat) | ForeignPage

  datatype Filled<+S> = More(core: Core<S>, out: seq<byte>) | Finished(core: Core<S>) | Faulted(fault: Fault, core: Core<S>)

  /** Samples per channel. */
  function PerChannel(samples: seq<int16>, channels: nat): (n: nat)
    requires channels > 0
    ensures n * channels <= |samples|
  {
    |samples| / channels
  }

  function Slice(samples: seq<int16>, channels: nat, s: Span): (out: seq<int16>)
    requires channels > 0 && s.first + s.count <= PerChannel(samples, channels)
    ensures |out| == s.count * channels
  {
    WithinFrame(s.first, s.count, |samples| / channels, channels);
    samples[s.first * channels..(s.first + s.count) * channels]
  }

  lemma WithinFrame(first: nat, count: nat, n: nat, channels: nat)
    requires first + count <= n
    ensures first * channels <= (first + count) * channels <= n * channels
    ensures (first + count) * channels == first * channels + count * channels
  {
  }

  /** fill: the next packet's bytes, before `skipTo` dropped. */
  function Fill<S>(st: Stream<S>, c: Core<S>, skipTo: int): (f: Filled<S>)
    requires Fit(st, c) && st.head.channels > 0
    ensures Fit(st, f.core)
    ensures f.More? ==> f.core.pos > c.pos || (f.core.pos == c.pos && f.core.reader == c.reader.(qi := c.reader.qi + 1) && c.reader.qi < |c.reader.queue|)
  {
    var (n, r, pos) := NextPacket(st.src, c.reader, c.pos);
    match n
    case End => Finished(c.(reader := r, pos := pos))
    case Error(e) => Faulted(Container(e), c.(reader := r, pos := pos))
    case Got(p) =>
      match st.codec.step(c.codec, p)
      case Refused(s) => Faulted(CodecRefused, c.(reader := r, pos := pos, codec := s))
      case Frame(samples, s) =>
        var limit := Learned(c.limit, r, st.head.preSkip);
        var span := Spanned(c.preSkipLeft, c.delivered, limit, PerChannel(samples, st.head.channels), skipTo);
        More(Core(r, pos, s, span.preSkipLeft, span.delivered, limit), Pcm(Slice(samples, st.head.channels, span)))
  }

  datatype Ending = Ended | Stopped(fault: Fault)

  /** Every byte still to come, and how they end. */
  function RestFrom<S>(st: Stream<S>, c: Core<S>, skipTo: int): (r: (seq<byte>, Ending))
    requires Fit(st, c) && st.head.channels > 0
    decreases |st.src| - c.pos, |c.reader.queue| - c.reader.qi
  {
    match Fill(st, c, skipTo)
    case Finished(_) => ([], Ended)
    case Faulted(fault, _) => ([], Stopped(fault))
    case More(c', out) =>
      var rest := RestFrom(st, c', skipTo);
      (out + rest.0, rest.1)
  }

  // ---------------------------------------------------------------- opening a stream

  /** Header parsing and the codec's constructor, as the container sees them. */
  datatype Format<!S> = Format(head: Packet -> Option<Head>, tags: Packet -> bool, build: Head -> Option<Codec<S>>)

  function AudioLimit(h: Head): (n: nat) { (if h.streams > 1 then h.streams else 1) * STREAM_LIMIT }

  datatype Opening<!S> = Opened(stream: Stream<S>, reader: Reader, pos: nat) | Closed(fault: Fault)

  function HeaderFault(n: Next): (f: Fault)
    requires !n.Got?
  {
    if n.End? then Container(Truncated) else Container(n.error)
  }

  datatype Headers = Headed(head: Head, reader: Reader, pos: nat) | Headless(fault: Fault)

  /** newContainerReader: the two header packets. */
  function ReadHeaders<S>(src: seq<byte>, base: nat, format: Format<S>): (h: Headers)
    requires base <= |src|
    ensures h.Headed? ==> h.pos <= |src| && h.reader.Valid()
  {
    hide NextPacket;
    var (n, r, pos) := NextPacket(src, Fresh(STREAM_LIMIT), base);
    if !n.Got? then Headless(HeaderFault(n))
    else
      match format.head(n.packet)
      case None => Headless(NotOpus)
      case Some(h) => ReadTags(src, r, pos, h, format)
  }

  /** The audio limit is known before OpusTags is read. */
  function ReadTags<S>(src: seq<byte>, r: Reader, pos: nat, head: Head, format: Format<S>): (h: Headers)
    requires pos <= |src| && r.Valid() && r.limit == STREAM_LIMIT
    ensures h.Headed? ==> h.pos <= |src| && h.reader.Valid() && h.head == head
  {
    hide NextPacket;
    LimitRaised(r, head.streams);
    var (n, r', pos') := NextPacket(src, r.(limit := AudioLimit(head)), pos);
    if !n.Got? then Headless(HeaderFault(n))
    else if !format.tags(n.packet) then Headless(BadTags)
    else Headed(head, r', pos')
  }

  /** The headers, then the codec OpusHead calls for. */
  function Open<S>(src: seq<byte>, base: nat, format: Format<S>): (o: Opening<S>)
    requires base <= |src|
    ensures o.Opened? ==> o.stream.src == src && o.pos <= |src| && o.reader.Valid() && format.build(o.stream.head) == Some(o.stream.codec)
  {
    match ReadHeaders(src, base, format)
    case Headless(fault) => Closed(fault)
    case Headed(head, r, pos) =>
      match format.build(head)
      case None => Closed(BadHead)
      case Some(codec) => Opened(Stream(src, head, codec), r, pos)
  }

  lemma LimitRaised(r: Reader, streams: nat)
    requires r.Valid() && r.limit == STREAM_LIMIT
    ensures r.(limit := (if streams > 1 then streams else 1) * STREAM_LIMIT).Valid()
  {
  }

  /** A decoder just bound to the stream. */
  function Start<S>(o: Opening<S>): (c: Core<S>)
    requires o.Opened?
  {
    Core(o.reader, o.pos, o.stream.codec.initial, o.stream.head.preSkip, 0, -1)
  }
}
