/** One stream, two histories: what an exact seek remembers of the calls before it. */
module Histories {
  import opened Crc
  import P = Page
  import opened Packets
  import opened Playback
  import opened Sequence
  import D = Decoder
  import Scan
  import S = Stream

  /** The stream opens at `base`, and sequential decoding gets to its end. */
  ghost predicate Plays<T(!new)>(src: seq<byte>, base: nat, format: Format<T>) {
    && D.SoundFormat(format) && base <= |src| && Open(src, base, format).Opened? && Open(src, base, format).stream.head.channels > 0
    && RestFrom(Open(src, base, format).stream, Start(Open(src, base, format)), 0).1 == Ended
  }

  /** Samples heard of the stream: those decoded, but for what the end trim takes. */
  function HeardOf<T>(src: seq<byte>, base: nat, format: Format<T>): (n: nat)
    requires base <= |src| && Open(src, base, format).Opened? && Open(src, base, format).stream.head.channels > 0
  {
    Heard(Open(src, base, format).stream, Start(Open(src, base, format)))
  }

  function DecodedOf<T>(src: seq<byte>, base: nat, format: Format<T>): (n: nat)
    requires base <= |src| && Open(src, base, format).Opened? && Open(src, base, format).stream.head.channels > 0
  {
    Left(Open(src, base, format).stream, Start(Open(src, base, format)))
  }

  /** An exact seek on a decoder just bound, and one after everything has been read.  They agree
      exactly if the target lies before the end trim, or the trim takes nothing. */
  method TwoHistories<T(!new)>(src: seq<byte>, base: nat, format: Format<T>, idx: D.Index, target: int) returns (first: D.SeekResult, later: D.SeekResult)
    requires Plays(src, base, format) && idx.Index? && 0 <= target < idx.length
    ensures first == D.Answer(Ended, DecodedOf(src, base, format), target) && later == D.Answer(Ended, HeardOf(src, base, format), target)
    ensures first == later <==> target <= HeardOf(src, base, format) || HeardOf(src, base, format) == DecodedOf(src, base, format)
  {
    hide Open, RestFrom, Left, Heard, D.SoundFormat;
    HeardIs(Open(src, base, format).stream, Start(Open(src, base, format)));
    first := Straightaway(src, base, format, idx, target);
    later := AfterReading(src, base, format, idx, target);
  }

  method Straightaway<T(!new)>(src: seq<byte>, base: nat, format: Format<T>, idx: D.Index, target: int) returns (r: D.SeekResult)
    requires Plays(src, base, format) && idx.Index? && 0 <= target < idx.length
    ensures r == D.Answer(Ended, DecodedOf(src, base, format), target)
  {
    hide Open, RestFrom, Left, Heard, D.SoundFormat, InStep, D.Exact, Sound;
    var d := new D.Decoder(format);
    var fault := d.Reset(src, base, true, idx);
    d.Ready();
    ghost var reach := d.Reaching(target);
    assert reach == d.DecodedAll();
    r := d.SeekToSampleExact(target);
  }

  method AfterReading<T(!new)>(src: seq<byte>, base: nat, format: Format<T>, idx: D.Index, target: int) returns (r: D.SeekResult)
    requires Plays(src, base, format) && idx.Index? && 0 <= target < idx.length
    ensures r == D.Answer(Ended, HeardOf(src, base, format), target)
  {
    hide Open, RestFrom, Left, Heard, D.SoundFormat, InStep, D.Exact, Sound;
    var d := new D.Decoder(format);
    var fault := d.Reset(src, base, true, idx);
    var written;
    written, fault := d.WriteTo();
    d.Ready();
    HeardIs(Open(src, base, format).stream, Start(Open(src, base, format)));
    Cancel(d.delivered, HeardOf(src, base, format), d.dec.stream);
    r := d.SeekToSampleExact(target);
  }

  // ---------------------------------------------------------------- two links of one serial

  function OpusHead(): Packet { [79, 112, 117, 115, 72, 101, 97, 100, 1, 1, 0, 0, 128, 187, 0, 0, 0, 0, 0] }

  function OpusTags(): Packet { [79, 112, 117, 115, 84, 97, 103, 115, 0, 0, 0, 0, 0, 0, 0, 0] }

  /** A mono packet of 2.5 ms with nothing in it. */
  function Quarter(): Packet { [128] }

  /** A decoder that takes those three packets. */
  function Silent(): (c: Codec<()>) {
    Codec((), (s: (), p: Packet) => if p == Quarter() then Frame(seq(120, _ => 0), s) else Refused(s))
  }

  function SilentFormat(): (f: Format<()>) {
    Format(p => if p == OpusHead() then Some(Head(0, 1, 1)) else None, p => p == OpusTags(), (h: Head) => if h.channels == 1 then Some(Silent()) else None)
  }

  /** Two packets, 240 samples, behind their headers. */
  function Link(granule: P.int64): (pages: seq<P.Page>) {
    [P.Page(2, 0, 7, 0, [19], OpusHead()), P.Page(0, 0, 7, 1, [16], OpusTags()), P.Page(4, granule, 7, 2, [1, 1], Quarter() + Quarter())]
  }

  /** One link trimmed to 200 samples and, put behind it, another that says 500. */
  function Pages(): (pages: seq<P.Page>) { Link(200) + Link(500) }

  lemma PagesWritable()
    ensures S.AllWritable(Pages()) && |Pages()| == 6
  {
    assert P.Sum([19]) == 19 by { assert [19][1..] == []; }
    assert P.Sum([16]) == 16 by { assert [16][1..] == []; }
    assert P.Sum([1, 1]) == 2 by { assert [1, 1][1..] == [1] && [1][1..] == []; }
  }

  function Chain(): (src: seq<byte>) {
    PagesWritable();
    S.EncodedFrom(Pages(), 0)
  }

  /** The pages of the first link, and the last page. */
  lemma ChainPages()
    ensures |Chain()| == 244
    ensures P.ReadPage(Chain(), 0) == (P.Read(Pages()[0]), 47) && P.ReadPage(Chain(), 47) == (P.Read(Pages()[1]), 91)
    ensures P.ReadPage(Chain(), 91) == (P.Read(Pages()[2]), 122)
    ensures Chain()[213..] == P.Encode(Pages()[5]) + []
  {
    hide P.Encode, P.ReadPage, Pages, S.EncodedFrom;
    PageSizes();
    var src := Chain();
    assert src[0..] == src;
    S.PageAt(Pages(), 0, src, 0);
    S.PageAt(Pages(), 1, src, 47);
    S.PageAt(Pages(), 2, src, 91);
    S.PageAt(Pages(), 3, src, 122);
    S.PageAt(Pages(), 4, src, 169);
    S.PageAt(Pages(), 5, src, 213);
    LastEncoded();
  }

  lemma PageSizes()
    ensures S.AllWritable(Pages()) && |Pages()| == 6 && forall k | 0 <= k < 6 :: |Pages()[k].segTable| <= 255
    ensures |P.Encode(Pages()[0])| == 47 == |P.Encode(Pages()[3])| && |P.Encode(Pages()[1])| == 44 == |P.Encode(Pages()[4])|
    ensures |P.Encode(Pages()[2])| == 31 == |P.Encode(Pages()[5])|
  {
    hide P.Encode;
    PagesWritable();
  }

  lemma LastEncoded()
    ensures S.AllWritable(Pages()) && |Pages()| == 6
    ensures S.EncodedFrom(Pages(), 6) == [] && S.EncodedFrom(Pages(), 5) == P.Encode(Pages()[5]) + []
  {
    hide P.Encode, Pages;
    PageSizes();
  }

  /** A page with one short packet on it. */
  lemma OneShort(p: Packet, headers: nat)
    requires |p| < 255
    ensures P.Sum([|p|]) == |p| && Segments([|p|], p, [], headers, STREAM_LIMIT) == Cut([p], [], Less(headers))
  {
    assert [|p|][1..] == [] && p[..|p|] == p && p[|p|..] == [];
    NoSegments([], Less(headers), STREAM_LIMIT);
    assert [] + p == p;
  }

  function AfterHead(): (r: Reader) { Reader(true, 7, [], [OpusHead()], 1, 0, -1, false, STREAM_LIMIT, 1) }

  function AfterTags(): (r: Reader) { Reader(true, 7, [], [OpusTags()], 1, 0, -1, false, STREAM_LIMIT, 0) }

  function AfterAudio(n: nat): (r: Reader) { Reader(true, 7, [], [Quarter(), Quarter()], n, 200, 200, true, STREAM_LIMIT, 0) }

  /** A page read when nothing is queued, and the packet then served. */
  lemma Reads(src: seq<byte>, r: Reader, off: nat, pg: P.Page, next: nat, r': Reader)
    requires off <= |src| && r.Valid() && r.qi == |r.queue| && !r.sawEos && pg.Writable() && r'.Valid()
    requires P.ReadPage(src, off) == (P.Read(pg), next) && ProcessPage(r, pg) == Done(r') && r'.qi == 0 < |r'.queue|
    ensures next <= |src| && NextPacket(src, r, off) == (Got(r'.queue[0]), r'.(qi := 1), next)
  {
    hide P.ReadPage, ProcessPage;
  }

  lemma HeadersRead()
    ensures Open(Chain(), 0, SilentFormat()) == Opened(Stream(Chain(), Head(0, 1, 1), Silent()), AfterTags(), 91)
  {
    hide P.ReadPage, Chain, Segments, NextPacket;
    ChainPages();
    PagesWritable();
    OneShort(OpusHead(), 2);
    OneShort(OpusTags(), 1);
    var start := Packets.Fresh(STREAM_LIMIT);
    Reads(Chain(), start, 0, Pages()[0], 47, AfterHead().(qi := 0));
    Reads(Chain(), AfterHead(), 47, Pages()[1], 91, AfterTags().(qi := 0));
  }

  lemma AudioRead()
    ensures NextPacket(Chain(), AfterTags(), 91) == (Got(Quarter()), AfterAudio(1), 122)
    ensures NextPacket(Chain(), AfterAudio(1), 122) == (Got(Quarter()), AfterAudio(2), 122)
    ensures NextPacket(Chain(), AfterAudio(2), 122) == (End, AfterAudio(2), 122)
  {
    hide P.ReadPage, Chain, Segments;
    ChainPages();
    PagesWritable();
    OneShort(Quarter(), 0);
    SegmentsAppend([1], Quarter(), [1], Quarter(), [], 0, STREAM_LIMIT);
    assert [1] + [1] == [1, 1];
    Reads(Chain(), AfterTags(), 91, Pages()[2], 122, AfterAudio(0));
  }

  function At(n: nat): (c: Core<()>) {
    if n == 0 then Core(AfterTags(), 91, (), 0, 0, -1) else Core(AfterAudio(n), 122, (), 0, if n == 1 then 120 else 200, 200)
  }

  lemma Fills()
    ensures var st := Stream(Chain(), Head(0, 1, 1), Silent());
            && |Chain()| == 244 && (forall n | 0 <= n < 3 :: Fit(st, At(n)))
            && Fill(st, At(0), 0).More? && Fill(st, At(0), 0).core == At(1) && Gained(st, At(0)) == 120
            && Fill(st, At(1), 0).More? && Fill(st, At(1), 0).core == At(2) && Gained(st, At(1)) == 120
            && Fill(st, At(2), 0) == Finished(At(2))
  {
    hide P.ReadPage, Chain, NextPacket, Pcm, Slice;
    ChainPages();
    AudioRead();
    var st := Stream(Chain(), Head(0, 1, 1), Silent());
    assert PerChannel(st.codec.step((), Quarter()).samples, 1) == 120;
  }

  /** The chain opens, 240 samples are decoded of it and 200 heard, and it ends. */
  lemma ChainPlays()
    ensures Plays(Chain(), 0, SilentFormat()) && HeardOf(Chain(), 0, SilentFormat()) == 200 && DecodedOf(Chain(), 0, SilentFormat()) == 240
  {
    hide Chain, Fill, Gained, Silent, Open;
    HeadersRead();
    Fills();
    SilentIsSound();
    var st := Stream(Chain(), Head(0, 1, 1), Silent());
    assert Start(Open(Chain(), 0, SilentFormat())) == At(0) by { Begins(); }
    assert Left(st, At(2)) == 0 && RestFrom(st, At(2), 0).1 == Ended;
    assert Left(st, At(1)) == 120 && RestFrom(st, At(1), 0).1 == Ended;
    assert Left(st, At(0)) == 240 && RestFrom(st, At(0), 0).1 == Ended;
    assert EndTrim(st, At(0)) == (200, 0);
  }

  lemma Begins()
    ensures Open(Chain(), 0, SilentFormat()).Opened? && Start(Open(Chain(), 0, SilentFormat())) == At(0)
  {
    hide Open, Chain;
    HeadersRead();
  }

  lemma SilentIsSound()
    ensures D.SoundFormat(SilentFormat())
  {
  }

  /** The last page of the second link is the last page there is. */
  lemma LastOfChain()
    ensures Scan.PageAt(Chain(), 213) == Scan.Found(Scan.PageRef(213, 244, 500, 7, true, true))
    ensures forall o | o > 213 :: !Scan.EndsBy(Chain(), o, 244)
  {
    hide *;
    LastFound();
    forall o: nat | o > 213 ensures !Scan.EndsBy(Chain(), o, 244) { NoneLater(o); }
  }

  lemma LastFound()
    ensures Scan.PageAt(Chain(), 213) == Scan.Found(Scan.PageRef(213, 244, 500, 7, true, true))
  {
    hide P.ParsePage, Chain, P.Encode, Pages, Link;
    ChainPages();
    PagesWritable();
    LastIs();
    var pg := Pages()[5];
    P.ParseOfWritten(pg, []);
  }

  lemma LastIs()
    ensures |Pages()| == 6 && Pages()[5].Writable() && |P.Encode(Pages()[5])| == 31
    ensures Scan.RefOf(Pages()[5], 213, 31) == Scan.PageRef(213, 244, 500, 7, true, true)
  {
    hide P.Encode;
    PagesWritable();
    assert Pages()[5].segTable[0] < P.MAX_SEGMENT;
  }

  lemma NoneLater(o: nat)
    requires o > 213
    ensures !Scan.EndsBy(Chain(), o, 244)
  {
    hide P.ParsePage, Chain, P.Encode, Scan.PageAt, Pages;
    ChainPages();
    if o < 217 {
      Scan.PageCaptures(Chain(), o);
      Captured(Chain(), o);
      assert Chain()[o] == Chain()[213..][o - 213];
      NoCapture(o - 213);
    } else {
      TooNear(Chain(), o);
    }
  }

  lemma Captured(src: seq<byte>, o: nat)
    ensures Scan.Captures(src, o) ==> o < |src| && src[o] == 0x4f
  {
    if Scan.Captures(src, o) { assert src[o..o + 4][0] == 0x4f; }
  }

  lemma NoCapture(i: nat)
    requires 0 < i < 4
    ensures |Pages()| == 6 && |Pages()[5].segTable| <= 255 && (P.Encode(Pages()[5]) + [])[i] != 0x4f
  {
    hide Checksum, P.Le32, P.Le64;
  }

  lemma TooNear(src: seq<byte>, o: nat)
    ensures Scan.PageAt(src, o).Found? ==> Scan.PageAt(src, o).ref.end >= o + 28
  {
    hide P.PageCrc, P.Sum, P.UnLe32, P.UnLe64;
  }

  /** The result of an exact seek does depend on earlier calls.  Measured by its last page this
      chain is 500 samples long; 300 comes to 240 at first, and to 200 once all has been read. */
  method Remembers() returns (idx: D.Index, first: D.SeekResult, later: D.SeekResult)
    ensures idx == D.Index(91, 244, 500, true) && first == D.Arrived(240) && later == D.Arrived(200)
  {
    hide Chain, Scan.PageAt, Scan.EndsBy, Plays, HeardOf, DecodedOf;
    LastOfChain();
    ChainPages();
    var sc := new Scan.PageScanner(Chain());
    var last := sc.FindBackward(91, |Chain()|);
    Unique(last);
    idx := D.Index(91, last.ref.end, last.ref.granule, last.ref.eos);
    ChainPlays();
    first, later := TwoHistories(Chain(), 0, SilentFormat(), idx, 300);
  }

  /** So that is the page a backward scan finds. */
  lemma Unique(f: Scan.Found)
    requires f.Found? ==> f == Scan.PageAt(Chain(), f.ref.off) && f.ref.end <= 244
    requires forall o | 91 <= o && (f.Found? ==> f.ref.off < o) :: !Scan.EndsBy(Chain(), o, 244)
    ensures f == Scan.Found(Scan.PageRef(213, 244, 500, 7, true, true))
  {
    hide Chain, Scan.PageAt;
    LastOfChain();
    assert Scan.EndsBy(Chain(), 213, 244);
    assert f.Found? && f.ref.off >= 213;
    if f.ref.off > 213 {
      NoneLater(f.ref.off);
      assert false;
    }
  }
}
