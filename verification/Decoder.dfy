/** The decoder as it runs: Read, and both seeks, over one bound stream. */
module Decoder {
  import opened Crc
  import P = Page
  import opened Packets
  import opened Playback
  import opened Sequence
  import Samples
  import opened ContainerReader
  import Scan
  import Landing
  import Jump

  /** What indexing the stream found: where its audio lies and how long it is, or why it has no length. */
  datatype Index = Index(audioStart: nat, linkEnd: nat, length: int, eos: bool) | Rejected(fault: Fault)

  datatype ReadResult = Data(bytes: seq<byte>) | AtEof | ReadFault(fault: Fault)

  datatype SeekResult = Arrived(index: int) | Lost(fault: Fault)

  datatype Machine<!S> = NoCodec | Machine(stream: Stream<S>, state: S)

  ghost predicate SoundFormat<S(!new)>(format: Format<S>) {
    forall h :: format.build(h).Some? ==> Sound(format.build(h).value, h.channels)
  }

  /** Samples decoded and dropped before a target, when there is a page to land on. */
  const SEEK_PRE_ROLL := 61440

  /** Samples as bytes. */
  function InBytes(n: int, frame: nat): (b: int) { n * frame }

  lemma InBytesAdd(a: int, b: int, frame: nat)
    ensures InBytes(a + b, frame) == InBytes(a, frame) + InBytes(b, frame) && InBytes(0, frame) == 0
  {
  }

  /** What an exact seek comes to, told from the sequential decode alone. */
  function Exact(whole: (seq<byte>, Ending), target: int, frame: nat): (r: SeekResult)
    requires frame > 0
  {
    if InBytes(target, frame) <= |whole.0| then Arrived(target)
    else
      match whole.1
      case Ended => Arrived(|whole.0| / frame)
      case Stopped(fault) => Lost(fault)
  }

  /** What an exact seek answers, told from how far its decoder can count. */
  function Answer(ending: Ending, reach: int, target: int): (r: SeekResult) {
    if target <= reach then Arrived(target)
    else
      match ending
      case Ended => Arrived(reach)
      case Stopped(fault) => Lost(fault)
  }

  /** Whether the answer is the one told from the sequential decode alone depends on the end trim:
      on whether it takes anything, and on whether the target lies past it. */
  lemma AnswerIsExact(whole: (seq<byte>, Ending), frame: nat, heard: nat, reach: int, target: int)
    requires frame > 0 && |whole.0| == InBytes(heard, frame) && heard <= reach
    ensures Answer(whole.1, reach, target) == Exact(whole, target, frame)
            <==> target <= heard || heard == reach || (whole.1.Stopped? && target > reach)
  {
    Quotient(|whole.0|, heard, frame);
    if target <= heard { Monotone(target, heard, frame); } else { Scaled(heard, target, frame); }
  }

  /** What an exact seek leaves: the sequential decode from the index returned, which is the one
      asked for unless the decoder cannot count that far. */
  ghost predicate SoughtAt(whole: (seq<byte>, Ending), rest: (seq<byte>, Ending), frame: nat, reach: int, inSequence: bool, target: int, r: SeekResult)
  {
    && (match r
        case Arrived(n) =>
          && rest == (Drop(whole.0, InBytes(n, frame)), whole.1)
          && n <= target && (n < target ==> whole.1 == Ended && |whole.0| < InBytes(target, frame))
          && (inSequence <==> n == target)
        case Lost(e) => rest == ([], Stopped(e)) && !inSequence)
    && r == Answer(whole.1, reach, target)
  }

  ghost predicate Describes<S(!new)>(st: Stream<S>, o: Opening<S>, idx: Index, k: Jump.Link) {
    && o.Opened? && o.stream == st && idx.Index? && k.a == idx.audioStart == o.pos && k.b == idx.linkEnd
    && k.serial == o.reader.serial && k.eos == idx.eos
    && Jump.Sane(st, k) && |k.trail.readers| == |k.trail.totals| == |k.refs| + 1
    && o.reader.qi == |o.reader.queue| && Jump.Served(o.reader) == k.trail.readers[0]
    && idx.length == Jump.Cap(k, st.head.preSkip) == Jump.Samples(st, k)
  }

  lemma OpenOf<S(!new)>(src: seq<byte>, base: nat, format: Format<S>)
    requires base <= |src|
    ensures match ReadHeaders(src, base, format)
            case Headless(fault) => Open(src, base, format) == Closed(fault)
            case Headed(head, r, pos) =>
              if format.build(head).None? then Open(src, base, format) == Closed(BadHead)
              else Open(src, base, format) == Opened(Stream(src, head, format.build(head).value), r, pos)
  {
    hide ReadHeaders;
  }

  lemma Positive<S(!new)>(codec: Codec<S>, channels: nat)
    requires Sound(codec, channels)
    ensures channels > 0
  {
  }

  lemma Built<S(!new)>(format: Format<S>, head: Head)
    requires SoundFormat(format) && format.build(head).Some?
    ensures Sound(format.build(head).value, head.channels) && head.channels > 0
  {
  }

  class Decoder<S(!new)> {
    const format: Format<S>
    var src: seq<byte>
    var base: nat
    var seekable: bool
    var idx: Index
    var cr: Container?
    var scan: Scan.PageScanner?
    var dec: Machine<S>
    var pcm: seq<byte>
    var preSkipLeft: nat
    var delivered: int
    var limit: int
    var skipTo: int
    var atEnd: bool
    var err: Option<Fault>
    var inSequence: bool

    ghost var fills: nat     // while inSequence: how many packets of sequential decoding led here

    /** Bound to a stream: the container and the codec belong to it. */
    ghost predicate Bound()
      reads this`src, this`base, this`dec, this`cr, this`scan, cr, scan
    {
      && dec.Machine? && cr != null && cr.Valid() && cr.src == src == dec.stream.src
      && (scan != null ==> scan.Valid() && scan.src == src)
      && base <= |src| && Open(src, base, format).Opened? && Open(src, base, format).stream == dec.stream
      && Settled(cr.State(), Open(src, base, format).reader)
      && Sound(dec.stream.codec, dec.stream.head.channels)
    }

    /** inSequence means what it says: the codec and container stand where decoding this stream
        from its start leads, no error is latched, and this is not a seek's end. */
    ghost predicate Valid()
      reads this, cr, scan
    {
      && SoundFormat(format)
      && (dec.Machine? ==> Bound())
      && ((err.Some? || atEnd) ==> pcm == [])
      && (dec.Machine? && inSequence ==>
            && err.None? && !atEnd && skipTo <= delivered
            && InStep(dec.stream, Start(Open(src, base, format)), fills, Core(), pcm))
    }

    function Core(): (c: Core<S>)
      reads this`dec, this`cr, this`preSkipLeft, this`delivered, this`limit, cr
      requires dec.Machine? && cr != null
    {
      Playback.Core(cr.State(), cr.pos, dec.state, preSkipLeft, delivered, limit)
    }

    lemma Ready()
      requires Bound()
      ensures dec.stream.head.channels > 0 && FrameSize() > 0 && Fit(dec.stream, Start(Open(src, base, format))) && Fit(dec.stream, Core())
    {
    }

    /** What sequential decoding of this stream yields from its first sample. */
    ghost function Whole(): (w: (seq<byte>, Ending))
      reads this`src, this`base, this`dec, this`cr, this`scan, cr, scan
      requires Bound()
    {
      RestFrom(dec.stream, Start(Open(src, base, format)), 0)
    }

    /** Samples sequential decoding yields, and samples it decodes before the end trim. */
    ghost function HeardAll(): (n: nat)
      reads this`src, this`base, this`dec, this`cr, this`scan, cr, scan
      requires Bound()
    {
      Heard(dec.stream, Start(Open(src, base, format)))
    }

    ghost function DecodedAll(): (n: nat)
      reads this`src, this`base, this`dec, this`cr, this`scan, cr, scan
      requires Bound()
    {
      Left(dec.stream, Start(Open(src, base, format)))
    }

    /** How far an exact seek to `target` can count from here: from where the decoder stands, or
        from the start if it must go back. */
    ghost function Reaching(target: int): (n: int)
      reads this, cr, scan
      requires Valid() && Bound()
    {
      Ready();
      if inSequence && target >= delivered - |pcm| / FrameSize() then Reach(dec.stream, Core()) else DecodedAll()
    }

    function FrameSize(): (n: nat)
      reads this`dec
      requires dec.Machine?
    {
      FrameBytes(dec.stream)
    }

    /** What reading on from here yields, and how it ends. */
    ghost function Rest(): (r: (seq<byte>, Ending))
      reads this, cr, scan
      requires Valid()
    {
      if dec.NoCodec? then ([], Stopped(Uninitialized))
      else if err.Some? then ([], Stopped(err.value))
      else if atEnd then ([], Ended)
      else
        var rest := RestFrom(dec.stream, Core(), skipTo);
        (pcm + rest.0, rest.1)
    }

    constructor (format: Format<S>)
      requires SoundFormat(format)
      ensures Valid() && dec.NoCodec? && this.format == format
    {
      this.format := format;
      src, base, seekable, idx, cr, scan, dec := [], 0, false, Rejected(Uninitialized), null, null, NoCodec;
      pcm, preSkipLeft, delivered, limit, skipTo, atEnd, err, inSequence := [], 0, 0, -1, 0, false, None, false;
      fills := 0;
    }

    /** newContainerReader over a fresh buffer at `at`. */
    method OpenContainer(at: nat) returns (c: Container, h: Headers)
      requires at <= |src|
      ensures fresh(c) && c.src == src && c.Valid() && h == ReadHeaders(src, at, format)
      ensures h.Headed? ==> c.State() == h.reader && c.pos == h.pos
    {
      hide NextPacket;
      c := new Container(src, at);
      var n := c.NextRawPacket();
      if !n.Got? { return c, Headless(HeaderFault(n)); }
      var head := format.head(n.packet);
      if head.None? { return c, Headless(NotOpus); }
      LimitRaised(c.State(), head.value.streams);
      c.limit := AudioLimit(head.value);
      n := c.NextRawPacket();
      if !n.Got? { return c, Headless(HeaderFault(n)); }
      if !format.tags(n.packet) { return c, Headless(BadTags); }
      return c, Headed(head.value, c.State(), c.pos);
    }

    /** Reset: rebinds to a new source, or leaves the decoder unbound when its headers will not do. */
    method Reset(source: seq<byte>, at: nat, canSeek: bool, index: Index) returns (fault: Option<Fault>)
      requires Valid() && at <= |source|
      modifies this
      ensures Valid() && (fault.None? <==> Open(source, at, format).Opened?) && (fault.Some? <==> dec.NoCodec?)
      ensures fault.None? ==> Bound() && src == source && base == at && seekable == canSeek && idx == index
                              && inSequence && pcm == [] && Rest() == Whole() && cr != null && Core() == Start(Open(src, base, format))
      ensures fault.None? ==> cr != null && fresh(cr) && scan == null && IsAudio(Rest().0)
    {
      hide InStep, RestFrom, Open, IsAudio;
      cr, scan, dec, seekable, skipTo, atEnd, inSequence, err, pcm := null, null, NoCodec, false, 0, false, false, None, [];
      fault := Init(source, at, canSeek, index);
      if fault.None? { WholeIsAudio(); }
    }

    /** The samples of the stream's packets decoded in turn, the pre-skip taken off, as far as they
        are heard, as bytes. */
    ghost predicate IsAudio(bytes: seq<byte>)
      reads this`src, this`base, this`dec, this`cr, this`scan, cr, scan
      requires Bound()
    {
      bytes == Pcm(Samples.First(Samples.AudioOf(Open(src, base, format)), Samples.Of(HeardAll(), dec.stream.head.channels)))
    }

    lemma WholeIsAudio()
      requires Bound()
      ensures IsAudio(Whole().0)
    {
      hide Open, RestFrom, Heard, Pcm, Samples.First, Samples.AudioOf, Sound;
      Ready();
      Samples.SequentialIs(Open(src, base, format));
    }

    lemma JustOpened()
      requires SoundFormat(format) && base <= |src| && Open(src, base, format).Opened?
      requires var o := Open(src, base, format);
               && Sound(o.stream.codec, o.stream.head.channels)
               && cr != null && cr.Valid() && cr.src == src && scan == null && dec == Machine(o.stream, o.stream.codec.initial)
               && cr.State() == o.reader && cr.pos == o.pos && preSkipLeft == o.stream.head.preSkip && delivered == 0 && limit == -1
      requires inSequence && fills == 0 && pcm == [] && err.None? && !atEnd && skipTo == 0
      ensures Bound() && Valid() && Rest() == Whole() && Core() == Start(Open(src, base, format))
    {
      hide InStep, RestFrom, Open, Sound, SoundFormat;
      var o := Open(src, base, format);
      Positive(o.stream.codec, o.stream.head.channels);
      StartsInStep(o.stream, Start(o));
      assert Core() == Start(o);
    }

    method Init(source: seq<byte>, at: nat, canSeek: bool, index: Index) returns (fault: Option<Fault>)
      requires SoundFormat(format) && dec.NoCodec? && scan == null && at <= |source| && pcm == [] && err.None? && !atEnd && skipTo == 0
      modifies this
      ensures fault.None? <==> Open(source, at, format).Opened?
      ensures fault.Some? ==> dec.NoCodec? && pcm == [] && err.None? && !atEnd
      ensures fault.None? ==> Bound() && Valid() && src == source && base == at && seekable == canSeek && idx == index
                              && inSequence && pcm == [] && Rest() == Whole() && cr != null && fresh(cr) && scan == null && Core() == Start(Open(src, base, format))
    {
      hide *;
      src, base, idx := source, at, index;
      var c, h := OpenContainer(at);
      OpenOf(source, at, format);
      if h.Headless? { return Some(h.fault); }
      var codec := format.build(h.head);
      if codec.None? { return Some(BadHead); }
      Built(format, h.head);
      Bind(c, h.head, codec.value, canSeek);
      return None;
    }

    /** The decoder takes the container it opened, and the codec built for its header. */
    method Bind(c: Container, head: Head, codec: Codec<S>, canSeek: bool)
      requires SoundFormat(format) && base <= |src| && c.Valid() && c.src == src && scan == null && Sound(codec, head.channels)
      requires Open(src, base, format) == Opened(Stream(src, head, codec), c.State(), c.pos)
      requires pcm == [] && err.None? && !atEnd && skipTo == 0
      modifies this`seekable, this`cr, this`dec, this`preSkipLeft, this`delivered, this`limit, this`inSequence, this`fills
      ensures Bound() && Valid() && Rest() == Whole() && seekable == canSeek && inSequence && cr == c && Core() == Start(Open(src, base, format))
    {
      hide *;
      seekable := canSeek;
      cr, dec := c, Machine(Stream(src, head, codec), codec.initial);
      preSkipLeft, delivered, limit := head.preSkip, 0, -1;
      inSequence, fills := true, 0;
      JustOpened();
    }

    /** The next packet into pcm. */
    method Fill() returns (done: bool, fault: Option<Fault>)
      requires Bound()
      modifies this`pcm, this`dec, this`preSkipLeft, this`delivered, this`limit, this`err, this`inSequence, cr
      ensures Bound() && dec.stream == old(dec.stream)
      ensures atEnd ==> done && fault == None && Core() == old(Core()) && pcm == old(pcm) && err == old(err) && inSequence == old(inSequence)
      ensures !atEnd ==>
              match Playback.Fill(dec.stream, old(Core()), skipTo)
              case More(c, out) => !done && fault == None && Core() == c && pcm == out && err == old(err) && inSequence == old(inSequence)
              case Finished(c) => done && fault == None && Core() == c && pcm == old(pcm) && err == old(err) && inSequence == old(inSequence)
              case Faulted(e, c) => !done && fault == Some(e) && Core() == c && pcm == old(pcm) && !inSequence
                                    && err == if e == Container(PacketTooLarge) then Some(e) else old(err)
    {
      hide NextPacket, Open, Pcm, Slice, Spanned, PerChannel;
      if atEnd { return true, None; }
      var n := cr.NextRawPacket();
      if n.End? { return true, None; }
      if n.Error? {
        inSequence := false;
        var e := Container(n.error);
        if n.error.PacketTooLarge? { err := Some(e); }
        return false, Some(e);
      }
      var st := dec.stream;
      var frame := st.codec.step(dec.state, n.packet);
      dec := Machine(st, frame.state);
      if frame.Refused? {
        inSequence := false;
        return false, Some(CodecRefused);
      }
      if limit < 0 && cr.finalGranule >= 0 { limit := cr.finalGranule - st.head.preSkip; }
      var samples;
      samples, preSkipLeft, delivered := Trim(frame.samples, st.head.channels, preSkipLeft, delivered, limit, skipTo);
      pcm := Pcm(samples);
      return false, None;
    }

    /** fill, with nothing waiting to be delivered. */
    method Refill() returns (done: bool, fault: Option<Fault>)
      requires Valid() && Bound() && err.None? && pcm == []
      modifies this`pcm, this`dec, this`preSkipLeft, this`delivered, this`limit, this`err, this`inSequence, this`fills, cr
      ensures Valid() && Bound() && dec.stream == old(dec.stream)
      ensures fault.None? && !done ==> Rest() == old(Rest()) && err.None?
      ensures fault.None? && !done ==> cr.pos > old(cr.pos) || (cr.pos == old(cr.pos) && |cr.queue| - cr.qi < |old(cr.queue)| - old(cr.qi))
      ensures done ==> fault.None? && old(Rest()) == ([], Ended) && Rest() == ([], Ended) && pcm == []
      ensures fault.Some? ==> old(Rest()) == ([], Stopped(fault.value))
      ensures fault.None? && old(inSequence) ==> inSequence && InBytes(delivered - old(delivered), FrameSize()) == |pcm| && (done ==> Reaches() == delivered)
    {
      hide Playback.Fill, InStep, Open, Sound, SoundFormat, WholeSamples, Left, FrameBytes;
      ghost var c := Core();
      Ready();
      FillReads(dec.stream, Start(Open(src, base, format)), fills, c, skipTo, inSequence);
      assert pcm + RestFrom(dec.stream, c, skipTo).0 == RestFrom(dec.stream, c, skipTo).0;
      hide RestFrom;
      done, fault := Fill();
      fills := fills + 1;
    }

    /** At most `n` bytes of what is still to come. */
    method Read(n: nat) returns (r: ReadResult)
      requires Valid()
      modifies this`pcm, this`dec, this`preSkipLeft, this`delivered, this`limit, this`err, this`inSequence, this`fills, cr
      ensures Valid() && Same(old(dec))
      ensures match r
              case Data(b) => old(Rest()) == (b + Rest().0, Rest().1) && |b| <= n && (n > 0 ==> b != [])
              case AtEof => old(Rest()) == ([], Ended) && Rest() == ([], Ended)
              case ReadFault(e) => old(Rest()) == ([], Stopped(e))
    {
      hide InStep, Open, Sound, SoundFormat, WholeSamples, RestFrom;
      if dec.NoCodec? { return ReadFault(Uninitialized); }
      if err.Some? { return ReadFault(err.value); }
      while |pcm| == 0
        invariant Valid() && Bound() && err.None? && dec.stream == old(dec.stream)
        invariant Rest() == old(Rest())
        decreases |src| - cr.pos, |cr.queue| - cr.qi
      {
        var done, fault := Refill();
        if fault.Some? { return ReadFault(fault.value); }
        if done { return AtEof; }
      }
      var m := if n < |pcm| then n else |pcm|;
      var b := pcm[..m];
      TakePcm(m);
      pcm := pcm[m..];
      return Data(b);
    }

    lemma TakePcm(m: nat)
      requires Valid() && Bound() && m <= |pcm|
      ensures pcm[..m] + (pcm[m..] + RestFrom(dec.stream, Core(), skipTo).0) == pcm + RestFrom(dec.stream, Core(), skipTo).0
      ensures inSequence ==> InStep(dec.stream, Start(Open(src, base, format)), fills, Core(), pcm[m..])
    {
      Ready();
      hide InStep, RestFrom, Open, Sound, SoundFormat, After;
      TakeFirst(pcm, RestFrom(dec.stream, Core(), skipTo).0, m);
      if inSequence { ShorterPcm(dec.stream, Start(Open(src, base, format)), fills, Core(), pcm, m); }
    }

    /** Everything still to come, given to a sink that takes it all. */
    method WriteTo() returns (written: seq<byte>, fault: Option<Fault>)
      requires Valid()
      modifies this`pcm, this`dec, this`preSkipLeft, this`delivered, this`limit, this`err, this`inSequence, this`fills, cr
      ensures Valid() && Same(old(dec))
      ensures old(Rest()) == (written, if fault.Some? then Stopped(fault.value) else Ended)
      ensures fault.None? ==> Rest() == ([], Ended)
      ensures fault.None? && old(inSequence) && dec.Machine? ==>
                Bound() && inSequence && InBytes(delivered - old(delivered), FrameSize()) == |written| - |old(pcm)| && pcm == [] && Reaches() == delivered
    {
      hide InStep, Open, Sound, SoundFormat, WholeSamples, RestFrom, InBytes, FrameBytes, Reach;
      written := [];
      if dec.NoCodec? { return [], Some(Uninitialized); }
      if err.Some? { return [], err; }
      assert [] + Rest().0 == Rest().0;
      InBytesAdd(0, 0, FrameSize());
      while true
        invariant Valid() && Bound() && err.None? && dec.stream == old(dec.stream)
        invariant old(Rest()) == (written + Rest().0, Rest().1)
        invariant old(inSequence) ==> inSequence && InBytes(delivered - old(delivered), FrameSize()) == |written| + |pcm| - |old(pcm)|
        decreases |src| - cr.pos, |cr.queue| - cr.qi, |pcm|
      {
        if |pcm| == 0 {
          ghost var sofar := delivered;
          var done, fill := Refill();
          InBytesAdd(sofar - old(delivered), delivered - sofar, FrameSize());
          assert written + [] == written;
          if fill.Some? { return written, fill; }
          if done { return written, None; }
        } else {
          TakePcm(|pcm|);
          assert pcm[..|pcm|] == pcm && pcm[|pcm|..] == [];
          Ready();
          ghost var rest := RestFrom(dec.stream, Core(), skipTo).0;
          Associative(written, pcm, rest);
          assert [] + rest == rest;
          written := written + pcm;
          pcm := [];
        }
      }
    }

    // ---------------------------------------------------------------- seeking

    /** What a seek reports before it moves anything. */
    function SeekCheck(sampleIndex: int): (fault: Option<Fault>)
      reads this
    {
      if dec.NoCodec? then Some(Uninitialized)
      else if !seekable then Some(SeekUnsupported)
      else if sampleIndex < 0 then Some(InvalidSeek)
      else if idx.Rejected? then Some(idx.fault)
      else None
    }

    /** Back to the first audio page, as a decoder just bound: what opened once opens again. */
    method Rewind()
      requires Bound()
      modifies this`cr
      ensures Bound() && dec.Machine? && cr != null && fresh(cr)
      ensures var o := Open(src, base, format); o.Opened? && cr.State() == o.reader && cr.pos == o.pos && dec.stream == o.stream
    {
      hide ReadHeaders, Sound;
      var c, h := OpenContainer(base);
      assert h.Headed?;
      cr := c;
    }

    /** Decode state as of a decoder about to decode from the packet at sample `at`. */
    method ResetForSeek(target: int, preSkip: nat, at: int, newLimit: int)
      requires dec.Machine?
      modifies this`dec, this`preSkipLeft, this`delivered, this`skipTo, this`limit, this`pcm, this`atEnd, this`err
      ensures dec == Machine(old(dec).stream, old(dec).stream.codec.initial) && preSkipLeft == preSkip && delivered == at
      ensures skipTo == target && limit == newLimit && pcm == [] && !atEnd && err == None
      ensures old(Bound()) ==> Bound()
    {
      hide Open, Sound;
      dec := Machine(dec.stream, dec.stream.codec.initial);
      preSkipLeft, delivered, skipTo, limit, pcm, atEnd, err := preSkip, at, target, newLimit, [], false, None;
    }

    method SeekToEnd(n: int) returns (r: SeekResult)
      modifies this`inSequence, this`atEnd, this`pcm, this`err
      ensures r == Arrived(n) && !inSequence && atEnd && pcm == [] && err == None
    {
      inSequence, atEnd, pcm, err := false, true, [], None;
      return Arrived(n);
    }

    method SeekFailed(fault: Fault) returns (r: SeekResult)
      modifies this`inSequence, this`err, this`pcm
      ensures r == Lost(fault) && !inSequence && err == Some(fault) && pcm == []
    {
      inSequence, err, pcm := false, Some(fault), [];
      return Lost(fault);
    }

    /** Decodes and discards until the next sample is skipTo, or the stream ends short of it. */
    method DecodeToTarget(sampleIndex: int) returns (r: SeekResult)
      requires Bound() && err.None? && !atEnd
      modifies this`pcm, this`dec, this`preSkipLeft, this`delivered, this`limit, this`err, this`inSequence, this`atEnd, cr
      ensures Bound() && dec.stream == old(dec.stream)
      ensures match Walk(dec.stream, old(Core()), old(pcm), skipTo)
              case Reached(c, out) => r == Arrived(sampleIndex) && Core() == c && pcm == out && inSequence == old(inSequence) && err == None && !atEnd
              case RanOut(c) => r == Arrived(c.delivered) && Core() == c && pcm == [] && !inSequence && err == None && atEnd
              case Broke(e, c) => r == Lost(e) && Core() == c && pcm == [] && !inSequence && err == Some(e)
    {
      hide Playback.Fill, Open, Sound, SoundFormat, WholeSamples;
      Ready();
      while delivered < skipTo
        invariant Bound() && dec.stream == old(dec.stream) && err.None? && !atEnd && inSequence == old(inSequence)
        invariant dec.stream.head.channels > 0 && Fit(dec.stream, Core())
        invariant Walk(dec.stream, Core(), pcm, skipTo) == Walk(dec.stream, old(Core()), old(pcm), skipTo)
        decreases |src| - cr.pos, |cr.queue| - cr.qi
      {
        var done, fault := Fill();
        if fault.Some? {
          r := SeekFailed(fault.value);
          return;
        }
        if done {
          r := SeekToEnd(delivered);
          return;
        }
        Ready();
      }
      return Arrived(sampleIndex);
    }

    /** Positions the decoder so that reading on yields the sequential decode from sampleIndex. */
    method SeekToSampleExact(sampleIndex: int) returns (r: SeekResult)
      requires Valid()
      modifies this, cr
      ensures Valid() && Same(old(dec)) && (cr == old(cr) || (cr != null && fresh(cr))) && scan == old(scan)
      ensures var check := old(SeekCheck(sampleIndex));
              check.Some? ==> r == Lost(check.value) && Rest() == old(Rest()) && inSequence == old(inSequence)
      ensures old(SeekCheck(sampleIndex)).None? && sampleIndex >= idx.length ==> r == Arrived(idx.length) && Rest() == ([], Ended) && !inSequence
      ensures old(SeekCheck(sampleIndex)).None? && sampleIndex < idx.length ==>
                && Bound() && Whole() == old(Whole()) && Sought(sampleIndex, old(Reaching(sampleIndex)), r)
                && HeardAll() <= old(Reaching(sampleIndex)) <= DecodedAll()
                && (sampleIndex <= HeardAll() || HeardAll() == DecodedAll() ==> r == Exact(Whole(), sampleIndex, FrameSize()))
    {
      hide Sound, SoundFormat, WholeSamples, InStep, RestFrom, Open, Poised, FrameBytes, SoughtAt, Heard, Left;
      if SeekCheck(sampleIndex).Some? { return Lost(SeekCheck(sampleIndex).value); }
      if sampleIndex >= idx.length {
        r := SeekToEnd(idx.length);
        return;
      }
      Ready();
      ghost var reach := Reaching(sampleIndex);
      Countable(sampleIndex);
      var whole := |pcm| / FrameSize();
      if inSequence && sampleIndex >= delivered - whole {
        if sampleIndex <= delivered {
          WholeOnes(delivered - sampleIndex, |pcm|, FrameSize());
          r := DropBuffered(sampleIndex);
          Settles(sampleIndex, reach, r);
          return;
        }
        SkipForward(sampleIndex);
      } else {
        Restart(sampleIndex);
      }
      PoisedReach(sampleIndex);
      r := DecodeInStep(sampleIndex);
      Settles(sampleIndex, reach, r);
    }

    lemma Countable(target: int)
      requires Valid() && Bound()
      ensures HeardAll() <= Reaching(target) <= DecodedAll()
    {
      hide Open, InStep, RestFrom, Heard, Left, Reach, Sound, SoundFormat;
      Ready();
      HeardIs(dec.stream, Start(Open(src, base, format)));
      if inSequence {
        ReachBounds(dec.stream, Start(Open(src, base, format)), fills, Core(), pcm);
      }
    }

    lemma Settles(target: int, reach: int, r: SeekResult)
      requires Valid() && Bound() && Sought(target, reach, r) && HeardAll() <= reach <= DecodedAll()
      ensures target <= HeardAll() || HeardAll() == DecodedAll() ==> r == Exact(Whole(), target, FrameSize())
    {
      hide Open, InStep, RestFrom, Heard, Left, Sound, SoundFormat, Exact, Answer;
      Ready();
      HeardIs(dec.stream, Start(Open(src, base, format)));
      AnswerIsExact(Whole(), FrameSize(), HeardAll(), reach, target);
    }

    /** About to decode to a target, in step with the sequential decode. */
    ghost predicate Poised(sampleIndex: int)
      reads this, cr, scan
    {
      && SoundFormat(format) && Bound() && err.None? && !atEnd && pcm == [] && skipTo == sampleIndex && inSequence && delivered <= sampleIndex
      && dec.stream.head.channels > 0 && Fit(dec.stream, Start(Open(src, base, format)))
      && InStep(dec.stream, Start(Open(src, base, format)), fills, Core(), [])
    }

    /** The target lies ahead: what waits to be delivered is dropped. */
    method SkipForward(sampleIndex: int)
      requires Valid() && Bound() && inSequence && sampleIndex > delivered
      modifies this`pcm, this`skipTo
      ensures Poised(sampleIndex) && cr != null && dec.Machine? && Core() == old(Core())
    {
      hide *;
      ghost var st, start := InSequence();
      NoPcm(st, start, fills, Core(), pcm);
      pcm, skipTo := [], sampleIndex;
      PoisedNow(sampleIndex, st, start);
    }

    lemma InSequence() returns (st: Stream<S>, start: Core<S>)
      requires Valid() && Bound() && inSequence
      ensures st == dec.stream && start == Start(Open(src, base, format))
      ensures cr != null && dec.Machine? && SoundFormat(format) && err.None? && !atEnd && skipTo <= delivered
      ensures Fit(st, start) && Fit(st, Core()) && st.head.channels > 0 && FrameSize() == FrameBytes(st) > 0
              && Core().delivered == delivered && InStep(st, start, fills, Core(), pcm)
    {
      hide InStep;
      st, start := dec.stream, Start(Open(src, base, format));
      Ready();
    }

    lemma IsPoised(target: int) returns (st: Stream<S>, start: Core<S>)
      requires Poised(target)
      ensures cr != null && dec.Machine? && st == dec.stream && start == Start(Open(src, base, format))
      ensures SoundFormat(format) && Bound() && err.None? && !atEnd && pcm == [] && skipTo == target && inSequence
      ensures st.head.channels > 0 && Fit(st, start) && Fit(st, Core()) && Core().delivered == delivered <= target && InStep(st, start, fills, Core(), [])
    {
      hide InStep;
      st, start := dec.stream, Start(Open(src, base, format));
      Ready();
    }

    lemma PoisedNow(target: int, st: Stream<S>, start: Core<S>)
      requires SoundFormat(format) && Bound() && st == dec.stream && start == Start(Open(src, base, format)) && Fit(st, start) && st.head.channels > 0
      requires err.None? && !atEnd && pcm == [] && skipTo == target && inSequence && delivered <= target
      requires InStep(st, start, fills, Core(), [])
      ensures Poised(target)
    {
      hide Open, InStep, SoundFormat, Sound;
    }

    /** Back to the start of the stream. */
    method Restart(sampleIndex: int)
      requires SoundFormat(format) && Bound() && sampleIndex >= 0
      modifies this`cr, this`dec, this`preSkipLeft, this`delivered, this`skipTo, this`limit, this`pcm, this`atEnd, this`err, this`inSequence, this`fills
      ensures Poised(sampleIndex) && cr != null && fresh(cr) && dec.Machine? && dec.stream == old(dec.stream)
      ensures Core() == Start(Open(src, base, format))
    {
      hide *;
      Rewind();
      ResetForSeek(sampleIndex, dec.stream.head.preSkip, 0, -1);
      inSequence := true;
      fills := 0;
      PoisedAtStart(sampleIndex);
    }

    lemma PoisedAtStart(target: int)
      requires SoundFormat(format) && Bound() && target >= 0
      requires var o := Open(src, base, format); cr.State() == o.reader && cr.pos == o.pos && dec.state == o.stream.codec.initial
                                                 && preSkipLeft == o.stream.head.preSkip
      requires delivered == 0 && limit == -1 && pcm == [] && skipTo == target && !atEnd && err.None? && inSequence && fills == 0
      ensures Poised(target) && cr != null && dec.Machine? && Core() == Start(Open(src, base, format))
    {
      hide InStep, SoundFormat;
      Ready();
      StartsInStep(dec.stream, Start(Open(src, base, format)));
      assert Core() == Start(Open(src, base, format));
    }

    /** decodeToTarget, in step with the sequential decode. */
    method DecodeInStep(sampleIndex: int) returns (r: SeekResult)
      requires Poised(sampleIndex)
      modifies this`pcm, this`dec, this`preSkipLeft, this`delivered, this`limit, this`err, this`inSequence, this`atEnd, this`fills, cr
      ensures Valid() && Bound() && dec.stream == old(dec.stream) && Sought(sampleIndex, old(Reaches()), r)
    {
      hide *;
      ghost var st, start := IsPoised(sampleIndex);
      ghost var reach := Reaches();
      IsReach(st);
      ghost var m := WalkSeeks(st, start, fills, Core(), sampleIndex);
      r := DecodeToTarget(sampleIndex);
      fills := m;
      StillBound(st, start);
      if err.None? && !atEnd {
        StaysInStep(st, start);
      } else {
        OutOfStep();
      }
      SoughtNow(sampleIndex, r, st, start, reach);
    }

    lemma PoisedReach(target: int)
      requires Poised(target)
      ensures Bound() && Fit(dec.stream, Core()) && dec.stream.head.channels > 0 && Reaches() == Reach(dec.stream, Core())
    {
      hide Reach, Open, InStep;
      Ready();
    }

    /** How far decoding on from here can count. */
    ghost function Reaches(): (n: int)
      reads this, cr, scan
      requires Bound()
    {
      Ready();
      Reach(dec.stream, Core())
    }

    lemma IsReach(st: Stream<S>)
      requires Bound() && dec.stream == st && Fit(st, Core()) && st.head.channels > 0
      ensures Reaches() == Reach(st, Core())
    {
      hide Reach, Open;
    }

    lemma StillBound(st: Stream<S>, start: Core<S>)
      requires Bound() && st == dec.stream && start == Start(Open(src, base, format))
      ensures cr != null && Core().delivered == delivered
      ensures Fit(st, start) && Fit(st, Core()) && st.head.channels > 0 && FrameSize() == FrameBytes(st) > 0
    {
      hide Open;
    }

    lemma StaysInStep(st: Stream<S>, start: Core<S>)
      requires Bound() && st == dec.stream && start == Start(Open(src, base, format)) && Fit(st, start) && st.head.channels > 0
      requires SoundFormat(format) && err.None? && !atEnd && inSequence && skipTo <= delivered && InStep(st, start, fills, Core(), pcm)
      ensures Valid()
    {
      hide Open, InStep;
    }

    lemma OutOfStep()
      requires Bound() && SoundFormat(format) && pcm == [] && !inSequence
      ensures Valid()
    {
      hide Open, InStep;
    }

    lemma SoughtNow(target: int, r: SeekResult, st: Stream<S>, start: Core<S>, reach: int)
      requires Valid() && Bound() && st == dec.stream && start == Start(Open(src, base, format)) && FrameBytes(st) > 0
      requires Fit(st, start) && Fit(st, Core()) && st.head.channels > 0
      requires var rest := if err.Some? then ([], Stopped(err.value)) else if atEnd then ([], Ended)
                           else (pcm + RestFrom(st, Core(), skipTo).0, RestFrom(st, Core(), skipTo).1);
               SoughtAt(RestFrom(st, start, 0), rest, FrameBytes(st), reach, inSequence, target, r)
      ensures Sought(target, reach, r)
    {
      hide Open, InStep, RestFrom, SoughtAt;
    }

    /** A target among the samples waiting to be delivered: the bytes before it are dropped. */
    method DropBuffered(sampleIndex: int) returns (r: SeekResult)
      requires Valid() && Bound() && inSequence && sampleIndex <= delivered && 0 <= InBytes(delivered - sampleIndex, FrameSize()) <= |pcm|
      modifies this`pcm
      ensures Valid() && Bound() && Sought(sampleIndex, old(Reaches()), r)
    {
      hide *;
      ghost var st, start := InSequence();
      IsReach(st);
      ghost var reach := Reaches();
      var drop: nat := InBytes(delivered - sampleIndex, FrameSize());
      BufferLeft(st, start, sampleIndex, drop);
      pcm := pcm[|pcm| - drop..];
      StaysInStep(st, start);
      SoughtNow(sampleIndex, Arrived(sampleIndex), st, start, reach);
      return Arrived(sampleIndex);
    }

    lemma BufferLeft(st: Stream<S>, start: Core<S>, target: int, drop: nat)
      requires cr != null && dec.Machine? && dec.stream == st && Fit(st, start) && Fit(st, Core()) && st.head.channels > 0
      requires FrameSize() == FrameBytes(st) > 0 && Core().delivered == delivered
      requires InStep(st, start, fills, Core(), pcm) && skipTo <= delivered && target <= delivered
      requires drop == InBytes(delivered - target, FrameSize()) && drop <= |pcm|
      ensures InStep(st, start, fills, Core(), pcm[|pcm| - drop..])
      ensures var rest := RestFrom(st, Core(), skipTo);
              SoughtAt(RestFrom(st, start, 0), (pcm[|pcm| - drop..] + rest.0, rest.1), FrameBytes(st), Reach(st, Core()), true, target, Arrived(target))
    {
      hide *;
      InBuffer(st, start, fills, Core(), pcm, skipTo, target);
    }

    ghost predicate Sought(sampleIndex: int, reach: int, r: SeekResult)
      reads this, cr, scan
      requires Valid() && Bound()
    {
      SoughtAt(Whole(), Rest(), FrameSize(), reach, inSequence, sampleIndex, r)
    }

    /** A link of the bound stream, from its first audio page, that holds what its index says. */
    ghost predicate Described(k: Jump.Link)
      reads this`src, this`base, this`dec, this`cr, this`scan, this`idx, cr, scan
      requires Bound()
    {
      Describes(dec.stream, Open(src, base, format), idx, k)
    }

    /** Reads the page at `ref` and drops what completes on it: the packet it leaves pending is
        the first the decoder needs. */
    method LandOn(ref: Scan.PageRef, sampleIndex: int, newLimit: int) returns (fault: Option<Fault>)
      requires Bound() && ref.off <= |src|
      modifies this`dec, this`preSkipLeft, this`delivered, this`skipTo, this`limit, this`pcm, this`atEnd, this`err, cr
      ensures Bound() && dec.stream == old(dec.stream)
      ensures var (read, next) := P.ReadPage(src, ref.off);
              read.Read? && read.page.Writable() ==>
                match ProcessPage(Cleared(old(cr.State())), read.page)
                case Failed(e, _) => fault == Some(Container(e))
                case Done(r) => fault == None && LandedAt(Jump.Served(r), next, ref.granule - dec.stream.head.preSkip, sampleIndex, newLimit)
      ensures !P.ReadPage(src, ref.off).0.Read? ==> fault.Some?
      ensures fault.None? ==> err.None? && !atEnd && pcm == [] && skipTo == sampleIndex
    {
      hide ProcessPage, P.ReadPage, Open, Sound;
      cr.RepositionAt(ref.off);
      var (read, next) := P.ReadPage(src, ref.off);
      ReadIsWritable(src, ref.off);
      cr.pos := next;
      match read {
        case Eof => return Some(Container(Truncated));
        case UnexpectedEof => return Some(Container(Truncated));
        case Broken(flaw) => return Some(Container(Corrupt(flaw)));
        case Read(pg) =>
          var error := cr.ProcessPage(pg);
          if error != [] { return Some(Container(error[0])); }
          cr.queue, cr.qi := [], 0;
          ResetForSeek(sampleIndex, 0, ref.granule - dec.stream.head.preSkip, newLimit);
          return None;
      }
    }

    ghost predicate LandedAt(r: Reader, at: nat, sample: int, target: int, newLimit: int)
      reads this, cr
    {
      && dec.Machine? && cr != null && cr.State() == r && cr.pos == at && dec.state == dec.stream.codec.initial
      && preSkipLeft == 0 && delivered == sample && limit == newLimit && skipTo == target && pcm == [] && !atEnd && err == None
    }

    /** The landing page for a target, or none when there is no room for the pre-roll. */
    method Choose(sampleIndex: int, ghost k: Jump.Link) returns (c: Landing.Choice)
      requires Bound() && idx.Index?
      modifies this`scan, scan
      ensures Bound() && (scan == old(scan) || (scan != null && fresh(scan)))
      ensures sampleIndex < SEEK_PRE_ROLL ==> c.Restart?
      ensures c.Land? ==> idx.audioStart <= c.ref.off < idx.linkEnd && Scan.PageAt(src, c.ref.off) == Scan.Found(c.ref)
                          && Landing.Qualifies(c.ref, dec.stream.head.preSkip, sampleIndex - SEEK_PRE_ROLL)
      ensures Described(k) ==> Answers(k, dec.stream.head.preSkip, sampleIndex, c)
    {
      hide Open, Sound, Scan.PageAt, Landing.Qualifies, Landing.Layout, Landing.Best, Jump.Truthful, Jump.Passes;
      if sampleIndex < SEEK_PRE_ROLL { return Landing.Restart; }
      if scan == null { scan := new Scan.PageScanner(src); }
      c := Landing.ChooseLanding(scan, cr.serial, dec.stream.head.preSkip, idx.audioStart, idx.linkEnd, sampleIndex - SEEK_PRE_ROLL, k.refs);
      if Described(k) { LinkOrdered(k); }
    }

    lemma LinkOrdered(k: Jump.Link)
      requires Bound() && Described(k)
      ensures Landing.Layout(src, idx.audioStart, idx.linkEnd, cr.serial, k.refs) && idx.audioStart <= idx.linkEnd && cr.serial == k.serial
    {
      hide Landing.Layout, Landing.From, Jump.Truthful, Jump.Passes, Sound;
      Landing.Ordered(src, k.a, k.b, k.serial, k.refs, 0, |k.refs|);
      Landing.FirstFrom(k.a, k.refs);
      Jump.LinkEnds(src, k.a, k.b, k.serial, k.refs);
    }

    /** Ready to decode from page `i` on: the container stands at the sample its position says. */
    ghost predicate Approached(st: Stream<S>, start: Core<S>, length: int, k: Jump.Link, i: nat, target: int)
      reads this, cr
    {
      && dec.Machine? && dec.stream == st && cr != null && err.None? && !atEnd && pcm == [] && skipTo == target
      && Placeable(st, start, length, k, i, Core(), target)
    }

    /** Where the decoder goes before it decodes to the target: the landing page, or the start. */
    method Approach(c: Landing.Choice, sampleIndex: int, newLimit: int, ghost st: Stream<S>, ghost o: Opening<S>, ghost k: Jump.Link)
      returns (fault: Option<Fault>, ghost i: nat)
      requires Bound() && st == dec.stream && o == Open(src, base, format) && 0 <= sampleIndex && idx.Index?
      requires Describes(st, o, idx, k) ==> Answers(k, st.head.preSkip, sampleIndex, c)
      requires c.Land? ==> idx.Index? && idx.audioStart <= c.ref.off < idx.linkEnd && Scan.PageAt(src, c.ref.off) == Scan.Found(c.ref)
                           && Landing.Qualifies(c.ref, dec.stream.head.preSkip, sampleIndex - SEEK_PRE_ROLL)
      modifies this`cr, this`dec, this`preSkipLeft, this`delivered, this`skipTo, this`limit, this`pcm, this`atEnd, this`err, cr
      ensures Bound() && dec.stream == st && (cr == old(cr) || fresh(cr))
      ensures fault.None? ==> err.None? && !atEnd && pcm == [] && skipTo == sampleIndex
      ensures Describes(st, o, idx, k) && sampleIndex < idx.length && newLimit == (if idx.eos then idx.length else -1)
              ==> fault.None? && Fit(st, Start(o)) && st.head.channels > 0 && Approached(st, Start(o), idx.length, k, i, sampleIndex)
    {
      hide *;
      i := 0;
      ghost var good := Describes(st, o, idx, k) && sampleIndex < idx.length && newLimit == (if idx.eos then idx.length else -1);
      match c {
        case NotAPage(off) =>
          if good { AnswersSo(k, st.head.preSkip, sampleIndex, c); }
          return Some(NoPage(off)), i;
        case Foreign =>
          if good { AnswersSo(k, st.head.preSkip, sampleIndex, c); }
          return Some(ForeignPage), i;
        case Restart =>
          var preSkip := HeadPreSkip();
          Rewind();
          ResetForSeek(sampleIndex, preSkip, 0, newLimit);
          if good {
            AnswersSo(k, st.head.preSkip, sampleIndex, c);
            AtStart(st, o, k, sampleIndex, newLimit);
          }
          return None, i;
        case Land(ref) =>
          ghost var q := Unread(ref, o);
          if good { i := LandingPage(st, o, idx, k, ref, q, sampleIndex); }
          fault := LandOn(ref, sampleIndex, newLimit);
          if good { AtLanding(st, o, k, ref, i, sampleIndex, newLimit); }
      }
    }

    function HeadPreSkip(): (n: nat)
      reads this`src, this`base, this`dec, this`cr, this`scan, cr, scan
      requires Bound()
      ensures dec.Machine? && n == dec.stream.head.preSkip
    {
      dec.stream.head.preSkip
    }

    lemma Unread(ref: Scan.PageRef, o: Opening<S>) returns (q: Reader)
      requires Bound() && o == Open(src, base, format) && Scan.PageAt(src, ref.off) == Scan.Found(ref)
      ensures ref.off <= |src| && cr != null && o.Opened? && cr.State().Valid() && dec.Machine? && src == dec.stream.src
      ensures q == Cleared(cr.State()) && Jump.Repositioned(q) && Settled(q, o.reader)
    {
      hide Open, Sound, P.ParsePage;
      q := Cleared(cr.State());
    }

    lemma AtStart(st: Stream<S>, o: Opening<S>, k: Jump.Link, target: int, newLimit: int)
      requires Bound() && st == dec.stream && o == Open(src, base, format) && Describes(st, o, idx, k)
      requires o.Opened? && cr != null && cr.State() == o.reader && cr.pos == o.pos && dec.state == o.stream.codec.initial
      requires preSkipLeft == o.stream.head.preSkip && delivered == 0 && limit == newLimit && newLimit == (if idx.eos then idx.length else -1)
      requires skipTo == target && pcm == [] && !atEnd && err.None? && 0 <= target < idx.length && Chosen(k, st.head.preSkip, target, 0)
      ensures Fit(st, Start(o)) && st.head.channels > 0 && Approached(st, Start(o), idx.length, k, 0, target)
    {
      Ready();
      hide Open, Sound, Jump.Sane, Chosen;
      StartPlaceable(st, o, idx, k, Core(), target);
    }

    lemma AtLanding(st: Stream<S>, o: Opening<S>, k: Jump.Link, ref: Scan.PageRef, i: nat, target: int, newLimit: int)
      requires Bound() && st == dec.stream && o == Open(src, base, format) && Describes(st, o, idx, k)
      requires newLimit == (if idx.eos then idx.length else -1) && SEEK_PRE_ROLL <= target < idx.length && i <= |k.refs|
      requires LandedAt(k.trail.readers[i], Landing.From(k.a, k.refs, i), ref.granule - st.head.preSkip, target, newLimit)
      requires 0 <= ref.granule - st.head.preSkip <= target && 0 < i && k.refs[i - 1] == ref && Chosen(k, st.head.preSkip, target, i)
      requires forall c: Core<S> | c.codec == st.codec.initial && c.reader.qi == |c.reader.queue| && c.preSkipLeft == 0 && c.delivered == ref.granule - st.head.preSkip
                                && (c.limit == -1 || (k.eos && c.limit == Jump.Cap(k, st.head.preSkip))) :: Jump.Placed(st, k, c, k.trail.totals[i])
      requires k.trail.readers[i] == Jump.Served(k.trail.readers[i])
      ensures Fit(st, Start(o)) && st.head.channels > 0 && Approached(st, Start(o), idx.length, k, i, target)
    {
      Ready();
      hide Open, Sound, Jump.Sane, Jump.Placed, Chosen;
      assert Jump.Placed(st, k, Core(), k.trail.totals[i]);
    }

    /** Positions the decoder so that the next sample read is the one at sampleIndex: the codec is
        rebuilt from a pre-roll, or from the start when the target is near it. */
    method SeekToSample(sampleIndex: int, ghost k: Jump.Link) returns (r: SeekResult)
      requires Valid()
      modifies this, cr, scan
      ensures Valid() && Same(old(dec)) && (cr == old(cr) || (cr != null && fresh(cr))) && (scan == old(scan) || (scan != null && fresh(scan)))
      ensures var check := old(SeekCheck(sampleIndex));
              check.Some? ==> r == Lost(check.value) && Rest() == old(Rest()) && inSequence == old(inSequence)
      ensures old(SeekCheck(sampleIndex)).None? && sampleIndex >= idx.length ==> r == Arrived(idx.length) && Rest() == ([], Ended) && !inSequence
      ensures old(SeekCheck(sampleIndex)).None? && sampleIndex < idx.length ==>
                Bound() && Whole() == old(Whole()) && !inSequence && (r.Lost? ==> Rest() == ([], Stopped(r.fault)))
                && (r.Arrived? && r.index != sampleIndex ==> Rest() == ([], Ended))
      ensures old(SeekCheck(sampleIndex)).None? && sampleIndex < idx.length && old(Described(k)) ==> Jumped(k, sampleIndex, r)
    {
      hide Sound, SoundFormat, WholeSamples, InStep, RestFrom, Open, FrameBytes, Describes, JumpedAt;
      if SeekCheck(sampleIndex).Some? { return Lost(SeekCheck(sampleIndex).value); }
      if sampleIndex >= idx.length {
        r := SeekToEnd(idx.length);
        return;
      }
      r := JumpTo(sampleIndex, k);
    }

    method JumpTo(sampleIndex: int, ghost k: Jump.Link) returns (r: SeekResult)
      requires SoundFormat(format) && Bound() && idx.Index? && 0 <= sampleIndex < idx.length
      modifies this`inSequence, this`scan, this`cr, this`dec, this`preSkipLeft, this`delivered, this`skipTo, this`limit, this`pcm, this`atEnd, this`err, cr, scan
      ensures Valid() && Bound() && dec.stream == old(dec.stream) && !inSequence
      ensures (cr == old(cr) || fresh(cr)) && (scan == old(scan) || (scan != null && fresh(scan)))
      ensures if r.Lost? then err == Some(r.fault) else err.None? && (r.index == sampleIndex || atEnd)
      ensures old(Described(k)) ==> Jumped(k, sampleIndex, r)
    {
      hide *;
      ghost var st, o, good := Checked(k);
      inSequence := false;
      var newLimit := if idx.eos then idx.length else -1;
      var c := Choose(sampleIndex, k);
      if good { Redescribed(st, o, k); }
      var fault;
      ghost var i;
      fault, i := Approach(c, sampleIndex, newLimit, st, o, k);
      if fault.Some? {
        r := SeekFailed(fault.value);
        OutOfStep();
        return;
      }
      if good { Placing(st, o, k, i, sampleIndex); }
      r := DecodeToTarget(sampleIndex);
      if err.Some? || atEnd { OutOfStep(); } else { Unsequenced(); }
      if good { JumpedNow(st, o, k, sampleIndex, r); }
    }

    lemma Checked(k: Jump.Link) returns (st: Stream<S>, o: Opening<S>, good: bool)
      requires Bound()
      ensures st == dec.stream && o == Open(src, base, format) && dec.Machine? && cr != null && (good <==> Described(k))
      ensures good <==> Describes(st, o, idx, k)
    {
      hide Open, Sound, Describes;
      st, o, good := dec.stream, Open(src, base, format), Described(k);
    }

    lemma Redescribed(st: Stream<S>, o: Opening<S>, k: Jump.Link)
      requires Bound() && st == dec.stream && o == Open(src, base, format) && Describes(st, o, idx, k)
      ensures Described(k)
    {
      hide Open, Sound, Describes;
    }

    lemma Placing(st: Stream<S>, o: Opening<S>, k: Jump.Link, i: nat, target: int)
      requires Bound() && st == dec.stream && idx.Index? && Describes(st, o, idx, k)
      requires Fit(st, Start(o)) && st.head.channels > 0 && Approached(st, Start(o), idx.length, k, i, target)
      ensures cr != null && skipTo == target && pcm == [] && Fit(st, Core())
      ensures var w := Walk(st, Core(), [], target);
              w.Reached? && JumpedAt(st, k, RestFrom(st, Start(o), 0), (w.pcm + RestFrom(st, w.core, target).0, RestFrom(st, w.core, target).1), target, Arrived(target))
    {
      hide Open, Describes, Placeable, JumpedAt, Walk, RestFrom;
      PlaceableJumps(st, o, idx, k, i, Core(), target);
    }

    lemma Unsequenced()
      requires Bound() && SoundFormat(format) && err.None? && !atEnd && !inSequence
      ensures Valid()
    {
      hide Open, InStep;
    }

    lemma JumpedNow(st: Stream<S>, o: Opening<S>, k: Jump.Link, target: int, r: SeekResult)
      requires Valid() && Bound() && st == dec.stream && o == Open(src, base, format) && err.None? && !atEnd && Fit(st, Start(o)) && st.head.channels > 0
      requires Fit(st, Core()) && JumpedAt(st, k, RestFrom(st, Start(o), 0), (pcm + RestFrom(st, Core(), skipTo).0, RestFrom(st, Core(), skipTo).1), target, r)
      ensures Jumped(k, target, r)
    {
      hide Open, Sound, InStep, RestFrom, JumpedAt;
    }

    /** The seek took: as many samples are still to come as the stream has from the index on; for an
        index below 61440, or with no page that far before it, they are the very samples sequential
        decoding yields, else those of a codec begun anew at least 61440 samples before it. */
    ghost predicate Jumped(k: Jump.Link, sampleIndex: int, r: SeekResult)
      reads this, cr, scan
      requires Valid() && Bound()
    {
      Ready();
      JumpedAt(dec.stream, k, Whole(), Rest(), sampleIndex, r)
    }

    /** The stream and everything about how the decoder is bound to it. */
    twostate predicate Same(d: Machine<S>)
      reads this
    {
      && src == old(src) && base == old(base) && seekable == old(seekable) && idx == old(idx)
      && (d.Machine? <==> dec.Machine?) && (d.Machine? ==> dec.stream == d.stream)
    }
  }

  lemma InBuffer<S(!new)>(st: Stream<S>, start: Core<S>, n: nat, d: Core<S>, pcm: seq<byte>, skipTo: int, target: int)
    requires Fit(st, start) && st.head.channels > 0 && InStep(st, start, n, d, pcm) && skipTo <= d.delivered && Fit(st, d)
    requires target <= d.delivered && InBytes(d.delivered - target, FrameBytes(st)) <= |pcm|
    ensures 0 <= InBytes(d.delivered - target, FrameBytes(st)) <= |pcm|
    ensures var left := pcm[|pcm| - InBytes(d.delivered - target, FrameBytes(st))..]; var rest := RestFrom(st, d, skipTo);
            && InStep(st, start, n, d, left)
            && SoughtAt(RestFrom(st, start, 0), (left + rest.0, rest.1), FrameBytes(st), Reach(st, d), true, target, Arrived(target))
  {
    hide RestFrom, After, Drop, Left;
    var k := FrameBytes(st);
    assert k > 0;
    hide FrameBytes;
    Monotone(0, d.delivered - target, k);
    SumTimes(target, d.delivered - target, k);
    var left := pcm[|pcm| - (d.delivered - target) * k..];
    ShorterPcm(st, start, n, d, pcm, |pcm| - (d.delivered - target) * k);
    InStepYields(st, start, n, d, left, skipTo);
  }

  lemma WholeOnes(m: int, n: nat, k: nat)
    requires k > 0 && 0 <= m <= n / k
    ensures 0 <= InBytes(m, k) <= n
  {
    Monotone(m, n / k, k);
  }

  lemma NoPcm<S(!new)>(st: Stream<S>, start: Core<S>, n: nat, d: Core<S>, pcm: seq<byte>)
    requires Fit(st, start) && st.head.channels > 0 && InStep(st, start, n, d, pcm)
    ensures InStep(st, start, n, d, [])
  {
  }

  lemma Quotient(n: nat, m: int, k: nat)
    requires k > 0 && n == m * k
    ensures n / k == m
  {
    if n / k < m { Monotone(n / k + 1, m, k); } else { Monotone(m, n / k, k); }
    if n / k > m { Monotone(m + 1, n / k, k); }
  }

  /** What decoding to a target comes to, when the decoder starts in step and short of it. */
  lemma WalkSeeks<S(!new)>(st: Stream<S>, start: Core<S>, n: nat, d: Core<S>, target: int) returns (m: nat)
    requires Fit(st, start) && st.head.channels > 0 && InStep(st, start, n, d, []) && d.delivered <= target
    ensures Fit(st, d)
    ensures var w := Walk(st, d, [], target); w.Reached? ==>
              && InStep(st, start, m, w.core, w.pcm) && target <= w.core.delivered
              && SoughtAt(RestFrom(st, start, 0), (w.pcm + RestFrom(st, w.core, target).0, RestFrom(st, w.core, target).1), FrameBytes(st),
                          Reach(st, d), true, target, Arrived(target))
    ensures var w := Walk(st, d, [], target); w.RanOut? ==>
              SoughtAt(RestFrom(st, start, 0), ([], Ended), FrameBytes(st), Reach(st, d), false, target, Arrived(w.core.delivered))
    ensures var w := Walk(st, d, [], target); w.Broke? ==>
              SoughtAt(RestFrom(st, start, 0), ([], Stopped(w.fault)), FrameBytes(st), Reach(st, d), false, target, Lost(w.fault))
  {
    hide Playback.Fill, RestFrom, InStep, FrameBytes, Drop, Left;
    ReachBounds(st, start, n, d, []);
    if d.delivered < target {
      m := WalkLands(st, start, n, d, [], target);
      WalkCounts(st, d, [], target);
      var w, whole := Walk(st, d, [], target), RestFrom(st, start, 0);
      if w.RanOut? { AllDropped(whole.0, w.core.delivered * FrameBytes(st)); }
    } else {
      m := n;
      InStepYields(st, start, n, d, [], target);
    }
  }

  /** The page a seek begins behind: the last whose first new sample lies at least 61440 before the
      target; none, for 0, when there is none. */
  ghost predicate Chosen(k: Jump.Link, preSkip: nat, target: int, i: nat) {
    if i == 0 then target < 61440 || forall j | 0 <= j < |k.refs| :: !Early(k.refs[j], preSkip, target)
    else
      && i <= |k.refs| && target >= 61440 && Early(k.refs[i - 1], preSkip, target)
      && forall j | i <= j < |k.refs| :: !Early(k.refs[j], preSkip, target)
  }

  predicate Early(r: Scan.PageRef, preSkip: nat, target: int) {
    r.hasGranule && preSkip <= r.granule <= target + preSkip - 61440
  }

  lemma EarlyQualifies(preSkip: nat, target: int)
    ensures forall r: Scan.PageRef :: Early(r, preSkip, target) <==> Landing.Qualifies(r, preSkip, target - 61440)
  {
  }

  /** The same of what choosing a landing comes to. */
  ghost predicate Answers(k: Jump.Link, preSkip: nat, target: int, c: Landing.Choice) {
    if target < 61440 then c.Restart? else Landing.Best(k.refs, |k.refs|, preSkip, target - 61440, c)
  }

  lemma AnswersSo(k: Jump.Link, preSkip: nat, target: int, c: Landing.Choice)
    requires Answers(k, preSkip, target, c)
    ensures (c.Land? || c.Restart?) && (c.Restart? ==> Chosen(k, preSkip, target, 0))
  {
    hide Landing.Qualifies, Early;
    EarlyQualifies(preSkip, target);
  }

  /** A core at the start of page `i`, where a seek to the target begins, at or before the target. */
  ghost predicate Placeable<S(!new)>(st: Stream<S>, start: Core<S>, length: int, k: Jump.Link, i: nat, d: Core<S>, target: int) {
    && Fit(st, start) && Fit(st, d) && st.head.channels > 0 && |k.trail.readers| == |k.trail.totals| == |k.refs| + 1 && i <= |k.refs|
    && Jump.Served(d.reader) == k.trail.readers[i] && d.reader.qi == |d.reader.queue| && d.pos == Landing.From(k.a, k.refs, i)
    && Jump.Placed(st, k, d, k.trail.totals[i]) && 0 <= d.delivered <= target < length
    && Chosen(k, st.head.preSkip, target, i) && d.codec == st.codec.initial
    && (if i == 0 then RestFrom(st, d, target) == (Drop(RestFrom(st, start, 0).0, InBytes(target, FrameBytes(st))), Ended)
        else d.preSkipLeft == 0 && d.delivered == k.refs[i - 1].granule - st.head.preSkip)
  }

  lemma StartPlaceable<S(!new)>(st: Stream<S>, o: Opening<S>, idx: Index, k: Jump.Link, d: Core<S>, target: int)
    requires Describes(st, o, idx, k) && Fit(st, Start(o)) && Fit(st, d) && st.head.channels > 0 && 0 <= target < idx.length
    requires d == Start(o).(limit := if idx.eos then idx.length else -1) && Chosen(k, st.head.preSkip, target, 0)
    ensures Placeable(st, Start(o), idx.length, k, 0, d, target)
  {
    StartTotals(st, k);
    hide RestFrom, Jump.Sane, Drop, FrameBytes, Fit, Jump.Served, Chosen;
    Jump.WholeLength(st, k, Start(o));
    Jump.RestartExact(st, k, Start(o), d, target);
    Landing.FirstFrom(k.a, k.refs);
  }

  lemma StartTotals<S(!new)>(st: Stream<S>, k: Jump.Link)
    requires Jump.Sane(st, k)
    ensures |k.trail.totals| == |k.refs| + 1 && k.trail.totals[0] == 0
  {
  }

  /** The page landed on, as the container reads it. */
  lemma LandingPage<S(!new)>(st: Stream<S>, o: Opening<S>, idx: Index, k: Jump.Link, ref: Scan.PageRef, q: Reader, target: int) returns (i: nat)
    requires Describes(st, o, idx, k) && Scan.PageAt(st.src, ref.off) == Scan.Found(ref) && idx.Index? && idx.audioStart <= ref.off < idx.linkEnd && ref.off <= |st.src|
    requires Landing.Qualifies(ref, st.head.preSkip, target - SEEK_PRE_ROLL) && target < idx.length && Answers(k, st.head.preSkip, target, Landing.Land(ref))
    requires Jump.Repositioned(q) && Settled(q, o.reader)
    ensures 0 < i <= |k.refs| && k.trail.readers[i] == Jump.Served(k.trail.readers[i]) && k.refs[i - 1] == ref && Chosen(k, st.head.preSkip, target, i)
    ensures var (read, next) := P.ReadPage(st.src, ref.off);
            && read.Read? && read.page.Writable() && next == Landing.From(k.a, k.refs, i)
            && ProcessPage(q, read.page).Done? && Jump.Served(ProcessPage(q, read.page).reader) == k.trail.readers[i]
    ensures 0 <= ref.granule - st.head.preSkip <= target && SEEK_PRE_ROLL <= target
    ensures forall c: Core<S> | c.codec == st.codec.initial && c.reader.qi == |c.reader.queue| && c.preSkipLeft == 0 && c.delivered == ref.granule - st.head.preSkip
                                && (c.limit == -1 || (k.eos && c.limit == Jump.Cap(k, st.head.preSkip))) :: Jump.Placed(st, k, c, k.trail.totals[i])
  {
    hide Jump.Placed, Jump.Passes, Jump.Truthful, Landing.Layout, Scan.PageAt, ProcessPage, P.ReadPage, P.ParsePage;
    var j := Landing.Numbered(st.src, k.a, k.b, k.serial, k.refs, ref);
    Jump.Lands(st, k, j, target - SEEK_PRE_ROLL, q);
    Jump.Facts(st, k, j);
    P.ReadIsParse(st.src, ref.off);
    i := j + 1;
    LastChosen(st.src, k, st.head.preSkip, target, ref, j);
  }

  lemma LastChosen(src: seq<byte>, k: Jump.Link, preSkip: nat, target: int, ref: Scan.PageRef, j: nat)
    requires Landing.Layout(src, k.a, k.b, k.serial, k.refs) && j < |k.refs| && k.refs[j] == ref && Answers(k, preSkip, target, Landing.Land(ref))
    ensures Chosen(k, preSkip, target, j + 1)
  {
    hide Landing.Layout, Landing.Qualifies, Early;
    EarlyQualifies(preSkip, target);
    var m :| 0 <= m < |k.refs| && k.refs[m] == ref && Landing.Qualifies(ref, preSkip, target - 61440)
             && forall i | m < i < |k.refs| :: !Landing.Qualifies(k.refs[i], preSkip, target - 61440);
    Landing.OffsetOrder(src, k.a, k.b, k.serial, k.refs, m, j);
    Landing.OffsetOrder(src, k.a, k.b, k.serial, k.refs, j, m);
  }

  /** What is read after a seek that begins behind page `i`: the sequential decode, or what the
      packets that end behind that page decode to from the codec's first state, as many samples in
      as the target lies behind the page's last. */
  ghost predicate BegunAt<S(!new)>(st: Stream<S>, k: Jump.Link, i: nat, whole: seq<byte>, rest: seq<byte>, target: int) {
    if i == 0 then rest == Drop(whole, InBytes(target, FrameBytes(st)))
    else
      && i <= |k.refs| && i < |k.trail.readers| && k.trail.readers[i].Valid() && Landing.From(k.a, k.refs, i) <= |st.src|
      && 0 <= k.refs[i - 1].granule - st.head.preSkip <= target - 61440
      && rest <= Pcm(Samples.Off(Samples.Output(st.codec, st.codec.initial, AllPackets(st.src, k.trail.readers[i], Landing.From(k.a, k.refs, i)).0),
                                 Samples.Of(target - (k.refs[i - 1].granule - st.head.preSkip), st.head.channels)))
  }

  ghost predicate JumpedAt<S(!new)>(st: Stream<S>, k: Jump.Link, whole: (seq<byte>, Ending), rest: (seq<byte>, Ending), target: int, r: SeekResult) {
    && r == Arrived(target) && rest.1 == whole.1 == Ended && |k.trail.totals| == |k.refs| + 1
    && |whole.0| == InBytes(Jump.Samples(st, k), FrameBytes(st)) && |rest.0| == InBytes(Jump.Samples(st, k) - target, FrameBytes(st))
    && (target < 61440 ==> rest.0 == Drop(whole.0, InBytes(target, FrameBytes(st))))
    && exists i: nat :: Chosen(k, st.head.preSkip, target, i) && BegunAt(st, k, i, whole.0, rest.0, target)
  }

  /** Decoding on from there gets to the target. */
  lemma PlaceableJumps<S(!new)>(st: Stream<S>, o: Opening<S>, idx: Index, k: Jump.Link, i: nat, d: Core<S>, target: int)
    requires Describes(st, o, idx, k) && Placeable(st, Start(o), idx.length, k, i, d, target) && Sound(st.codec, st.head.channels)
    ensures Fit(st, Start(o)) && Fit(st, d) && st.head.channels > 0
    ensures var w := Walk(st, d, [], target);
            w.Reached? && JumpedAt(st, k, RestFrom(st, Start(o), 0), (w.pcm + RestFrom(st, w.core, target).0, RestFrom(st, w.core, target).1), target, Arrived(target))
  {
    hide RestFrom, Jump.Sane, Drop, FrameBytes, Fit, Jump.Served, Walk, InBytes, Jump.Samples, Jump.Placed, Jump.Cap, Chosen, BegunAt, Sound;
    StartTotals(st, k);
    Jump.JumpYields(st, k, i, d, target);
    NearStart(k, st.head.preSkip, target, i);
    BegunThere(st, Start(o), idx.length, k, i, d, target);
    WholeBytes(st, o, idx, k);
    Bytes(Jump.Samples(st, k) - target, FrameBytes(st));
  }

  lemma NearStart(k: Jump.Link, preSkip: nat, target: int, i: nat)
    requires Chosen(k, preSkip, target, i)
    ensures target < 61440 ==> i == 0
  {
  }

  lemma BegunThere<S(!new)>(st: Stream<S>, start: Core<S>, length: int, k: Jump.Link, i: nat, d: Core<S>, target: int)
    requires Placeable(st, start, length, k, i, d, target) && Sound(st.codec, st.head.channels)
    ensures st.head.channels > 0 && Fit(st, start) && Fit(st, d) && BegunAt(st, k, i, RestFrom(st, start, 0).0, RestFrom(st, d, target).0, target)
    ensures i == 0 ==> RestFrom(st, d, target).0 == Drop(RestFrom(st, start, 0).0, InBytes(target, FrameBytes(st)))
  {
    hide RestFrom, Drop, FrameBytes, Walk, InBytes, Jump.Placed, AllPackets, Samples.Output, Pcm, Samples.Off, Samples.Of, Sound;
    if i > 0 {
      Samples.Hears(st, d, target);
      Jump.ServedAll(st.src, d.reader, d.pos);
    }
  }

  lemma Bytes(n: int, frame: nat)
    ensures InBytes(n, frame) == n * frame
  {
  }

  lemma WholeBytes<S(!new)>(st: Stream<S>, o: Opening<S>, idx: Index, k: Jump.Link)
    requires Describes(st, o, idx, k) && Fit(st, Start(o)) && st.head.channels > 0
    ensures RestFrom(st, Start(o), 0).1 == Ended && |RestFrom(st, Start(o), 0).0| == InBytes(Jump.Samples(st, k), FrameBytes(st))
  {
    hide RestFrom, Jump.Sane, FrameBytes, Fit, Jump.Served, InBytes;
    StartTotals(st, k);
    Jump.WholeLength(st, k, Start(o));
    Bytes(Jump.Samples(st, k), FrameBytes(st));
  }

  /** A stream that holds what its index says is heard to its whole length, so every index an exact
      seek is asked for below the length is reached, whatever was called before. */
  lemma IndexIsHeard<S(!new)>(st: Stream<S>, o: Opening<S>, idx: Index, k: Jump.Link, target: int)
    requires Describes(st, o, idx, k) && Fit(st, Start(o)) && st.head.channels > 0 && target < idx.length
    ensures Heard(st, Start(o)) == idx.length && FrameBytes(st) > 0
    ensures Exact(RestFrom(st, Start(o), 0), target, FrameBytes(st)) == Arrived(target)
    ensures forall reach | reach >= Heard(st, Start(o)) :: Answer(RestFrom(st, Start(o), 0).1, reach, target) == Arrived(target)
  {
    WholeBytes(st, o, idx, k);
    IndexLength(st, o, idx, k);
    HeardIs(st, Start(o));
    hide RestFrom, Jump.Sane, Fit, Jump.Served, Heard, Describes, Jump.Samples, Left;
    Cancel(Heard(st, Start(o)), Jump.Samples(st, k), st);
    Monotone(target, idx.length, FrameBytes(st));
  }

  lemma IndexLength<S(!new)>(st: Stream<S>, o: Opening<S>, idx: Index, k: Jump.Link)
    requires Describes(st, o, idx, k)
    ensures |k.trail.totals| == |k.refs| + 1 && idx.length == Jump.Samples(st, k)
  {
    hide Jump.Sane, Jump.Served, Jump.Samples, Jump.Cap;
  }

  function Cleared(r: Reader): (r': Reader)
    requires r.Valid()
    ensures r'.Valid()
  {
    r.(queue := [], qi := 0, partial := [], sawEos := false, finalGranule := -1)
  }

  /** What one call of fill does to what is still to come. */
  lemma FillReads<S(!new)>(st: Stream<S>, start: Core<S>, n: nat, c: Core<S>, skipTo: int, inSequence: bool)
    requires Fit(st, c) && Fit(st, start) && st.head.channels > 0 && (inSequence ==> InStep(st, start, n, c, []) && skipTo <= c.delivered)
    ensures var f := Playback.Fill(st, c, skipTo); inSequence && f.More? ==> InBytes(f.core.delivered - c.delivered, FrameBytes(st)) == |f.out|
    ensures var f := Playback.Fill(st, c, skipTo); inSequence && f.Finished? ==> f.core.delivered == c.delivered && Left(st, f.core) == 0
    ensures var f := Playback.Fill(st, c, skipTo); f.More? ==>
              RestFrom(st, c, skipTo) == (f.out + RestFrom(st, f.core, skipTo).0, RestFrom(st, f.core, skipTo).1)
    ensures var f := Playback.Fill(st, c, skipTo); f.More? && inSequence ==> InStep(st, start, n + 1, f.core, f.out) && skipTo <= f.core.delivered
    ensures var f := Playback.Fill(st, c, skipTo); f.Finished? ==> RestFrom(st, c, skipTo) == ([], Ended) && RestFrom(st, f.core, skipTo) == ([], Ended)
    ensures var f := Playback.Fill(st, c, skipTo); f.Finished? && inSequence ==> InStep(st, start, n + 1, f.core, []) && skipTo <= f.core.delivered
    ensures var f := Playback.Fill(st, c, skipTo); f.Faulted? ==> RestFrom(st, c, skipTo) == ([], Stopped(f.fault))
  {
    hide NextPacket, InStep, Left, FrameBytes;
    if inSequence {
      StepKeeps(st, start, n, c, [], skipTo);
      ReachBounds(st, start, n, c, []);
      LeftStep(st, c, skipTo);
      if Playback.Fill(st, c, skipTo).More? { FillGains(st, c, skipTo); }
    }
    if Playback.Fill(st, c, skipTo).Finished? { FinishedStays(st, c, skipTo); }
  }

  lemma TakeFirst(pcm: seq<byte>, rest: seq<byte>, m: nat)
    requires m <= |pcm|
    ensures pcm[..m] + (pcm[m..] + rest) == pcm + rest
  {
  }

  lemma Associative(a: seq<byte>, b: seq<byte>, c: seq<byte>)
    ensures a + (b + c) == (a + b) + c && a + [] == a
  {
  }

  lemma ShorterPcm<S(!new)>(st: Stream<S>, start: Core<S>, n: nat, c: Core<S>, pcm: seq<byte>, m: nat)
    requires Fit(st, start) && st.head.channels > 0 && InStep(st, start, n, c, pcm) && m <= |pcm|
    ensures InStep(st, start, n, c, pcm[m..])
  {
    var done := After(st, start, n).done;
    assert pcm[m..] == done[|done| - |pcm[m..]|..];
  }

  /** A frame's samples that are kept: the pre-skip, what lies before skipTo and what lies past
      the limit are dropped, in that order. */
  method Trim(frame: seq<int16>, channels: nat, preSkipLeft0: nat, delivered0: int, limit: int, skipTo: int)
    returns (samples: seq<int16>, preSkipLeft: nat, delivered: int)
    requires channels > 0 && WholeSamples(frame, channels)
    ensures var span := Spanned(preSkipLeft0, delivered0, limit, PerChannel(frame, channels), skipTo);
            samples == Slice(frame, channels, span) && preSkipLeft == span.preSkipLeft && delivered == span.delivered
    ensures Samples.IsKept(frame, channels, PerChannel(frame, channels), samples, preSkipLeft0, delivered0, limit, skipTo)
  {
    hide Slice, IsPart, PerChannel, WholeSamples, Samples.IsKept, Behind, UpTo;
    preSkipLeft, delivered := preSkipLeft0, delivered0;
    samples := frame;
    var perChan := PerChannel(frame, channels);
    ghost var span := Spanned(preSkipLeft, delivered, limit, perChan, skipTo);
    ghost var first: nat := 0;
    PartAll(frame, channels);
    if preSkipLeft > 0 {
      var drop: nat := Min(preSkipLeft, perChan);
      PartDrop(frame, channels, first, perChan, samples, drop);
      samples := Behind(samples, channels, drop);
      perChan, preSkipLeft, first := perChan - drop, preSkipLeft - drop, first + drop;
    }
    if delivered < skipTo {
      var drop: nat := Min(skipTo - delivered, perChan);
      PartDrop(frame, channels, first, perChan, samples, drop);
      samples := Behind(samples, channels, drop);
      perChan, delivered, first := perChan - drop, delivered + drop, first + drop;
    }
    if limit >= 0 && delivered + perChan > limit {
      var keep: nat := if limit - delivered > 0 then limit - delivered else 0;
      PartKeep(frame, channels, first, perChan, samples, keep);
      samples := UpTo(samples, channels, keep);
      perChan := keep;
    }
    delivered := delivered + perChan;
    assert span == Span(first, perChan, preSkipLeft, delivered);
    PartIsSlice(frame, channels, span, samples);
    Samples.SliceIsKept(frame, channels, preSkipLeft0, delivered0, limit, skipTo);
  }

  /** `n` samples of every channel off the front, or all but the first `n`. */
  function Behind(samples: seq<int16>, channels: nat, n: nat): (rest: seq<int16>) {
    if n * channels <= |samples| then samples[n * channels..] else []
  }

  function UpTo(samples: seq<int16>, channels: nat, n: nat): (front: seq<int16>) {
    if n * channels <= |samples| then samples[..n * channels] else samples
  }

  /** `samples` are `count` samples of every channel, from the `first` on. */
  predicate IsPart(frame: seq<int16>, channels: nat, first: nat, count: nat, samples: seq<int16>) {
    && first * channels + count * channels <= |frame|
    && samples == frame[first * channels..first * channels + count * channels]
  }

  lemma PartAll(frame: seq<int16>, channels: nat)
    requires channels > 0 && WholeSamples(frame, channels)
    ensures IsPart(frame, channels, 0, PerChannel(frame, channels), frame)
  {
    assert |frame| == (|frame| / channels) * channels;
  }

  lemma SubSlices<T>(s: seq<T>, a: nat, b: nat, d: nat)
    requires a + b <= |s| && d <= b
    ensures s[a..a + b][d..] == s[a + d..a + b] && s[a..a + b][..d] == s[a..a + d]
  {
  }

  lemma PartDrop(frame: seq<int16>, channels: nat, first: nat, count: nat, samples: seq<int16>, drop: nat)
    requires IsPart(frame, channels, first, count, samples) && drop <= count
    ensures drop * channels <= |samples| && IsPart(frame, channels, first + drop, count - drop, Behind(samples, channels, drop))
  {
    SumTimes(drop, count - drop, channels);
    SumTimes(first, drop, channels);
    Monotone(drop, count, channels);
    SubSlices(frame, first * channels, count * channels, drop * channels);
  }

  lemma PartKeep(frame: seq<int16>, channels: nat, first: nat, count: nat, samples: seq<int16>, keep: nat)
    requires IsPart(frame, channels, first, count, samples) && keep <= count
    ensures keep * channels <= |samples| && IsPart(frame, channels, first, keep, UpTo(samples, channels, keep))
  {
    Monotone(keep, count, channels);
    SubSlices(frame, first * channels, count * channels, keep * channels);
  }

  lemma PartIsSlice(frame: seq<int16>, channels: nat, s: Span, samples: seq<int16>)
    requires channels > 0 && IsPart(frame, channels, s.first, s.count, samples) && s.first + s.count <= PerChannel(frame, channels)
    ensures samples == Slice(frame, channels, s)
  {
    SumTimes(s.first, s.count, channels);
  }
}
