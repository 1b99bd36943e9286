/** End to end: what the encoder writes decodes to exactly the length of its input. */
module Duration {
  import opened Crc
  import P = Page
  import opened Packets
  import S = Stream
  import opened Playback
  import opened Sequence
  import opened Jump
  import W = Writer
  import E = Encoder

  // ---------------------------------------------------------------- reading a closed chain of pages

  /** The reader has come to page `k` of a chain that is what is left of the source; having read
      the last page it knows the end granule, before that it does not. */
  ghost predicate OnChain(pages: seq<P.Page>, serial: P.uint32, r: Reader, src: seq<byte>, off: nat, k: nat) {
    && S.Chained(pages, serial) && S.EndsOnce(pages) && !S.OpenEnded(pages[|pages| - 1]) && pages[|pages| - 1].granule >= 0
    && k <= |pages| && off <= |src| && src[off..] == S.EncodedFrom(pages, k) && r.Valid()
    && if k < |pages| then
         && S.Following(pages, serial, k, r) && r.finalGranule == -1
         && P.Sum(S.SegsFrom(pages, k)) == |S.BodiesFrom(pages, k)|
         && Segments(S.SegsFrom(pages, k), S.BodiesFrom(pages, k), r.partial, r.headers, r.limit).Cut?
       else r.sawEos && r.finalGranule == pages[|pages| - 1].granule
  }

  /** Reading page `k`. */
  lemma ReadNext(pages: seq<P.Page>, serial: P.uint32, r: Reader, src: seq<byte>, off: nat, k: nat)
    requires OnChain(pages, serial, r, src, off, k) && k < |pages| && r.qi == |r.queue|
    ensures var (read, next) := P.ReadPage(src, off); var p := ProcessPage(r, pages[k]);
            read == P.Read(pages[k]) && off < next <= |src| && p.Done? && p.reader.qi == 0 && OnChain(pages, serial, p.reader, src, next, k + 1)
    ensures NextPacket(src, r, off) == NextPacket(src, ProcessPage(r, pages[k]).reader, P.ReadPage(src, off).1)
  {
    hide Segments, S.EncodedFrom, P.ReadPage, P.Encode, ProcessPage, Room, P.Sum, S.OpenEnded;
    var pg := pages[k];
    assert S.AllWritable(pages);
    S.PageAt(pages, k, src, off);
    S.FromMeasures(pages, k + 1);
    SegmentsAppend(pg.segTable, pg.body, S.SegsFrom(pages, k + 1), S.BodiesFrom(pages, k + 1), r.partial, r.headers, r.limit);
    S.FollowPage(pages, serial, k, r);
    EndKnown(r, pg);
  }

  lemma EndKnown(r: Reader, pg: P.Page)
    requires r.Valid() && pg.Writable() && ProcessPage(r, pg).Done? && r.finalGranule == -1
    ensures var r' := ProcessPage(r, pg).reader;
            r'.finalGranule == if pg.Has(P.EOS) then (if pg.granule != P.NO_GRANULE then pg.granule else r.lastGranule) else -1
  {
    hide Segments;
  }

  /** The next packet, however many pages it takes to get to it. */
  lemma {:induction false} NextOnChain(pages: seq<P.Page>, serial: P.uint32, r: Reader, src: seq<byte>, off: nat, k: nat) returns (k': nat)
    requires OnChain(pages, serial, r, src, off, k)
    ensures var (n, r', off') := NextPacket(src, r, off);
            !n.Error? && (n.Got? ==> OnChain(pages, serial, r', src, off', k'))
    decreases |pages| - k
  {
    hide OnChain, P.ReadPage, ProcessPage, S.Chained, S.EndsOnce;
    Served0(pages, serial, r, src, off, k);
    k' := k;
    if r.qi == |r.queue| && k < |pages| {
      ReadNext(pages, serial, r, src, off, k);
      k' := NextOnChain(pages, serial, ProcessPage(r, pages[k]).reader, src, P.ReadPage(src, off).1, k + 1);
    }
  }

  lemma Served0(pages: seq<P.Page>, serial: P.uint32, r: Reader, src: seq<byte>, off: nat, k: nat)
    requires OnChain(pages, serial, r, src, off, k)
    ensures off <= |src| && r.Valid() && k <= |pages| && pages != [] && (k < |pages| ==> pages[k].Writable())
    ensures r.qi < |r.queue| ==> NextPacket(src, r, off) == (Got(r.queue[r.qi]), r.(qi := r.qi + 1), off) && OnChain(pages, serial, r.(qi := r.qi + 1), src, off, k)
    ensures r.qi == |r.queue| && k == |pages| ==> NextPacket(src, r, off).0.End?
  {
    hide P.ReadPage, ProcessPage, Segments, Room, S.EncodedFrom, S.SegsFrom, S.BodiesFrom, P.Sum, S.OpenEnded, S.Continues;
  }

  /** While pages are left, so is a packet. */
  lemma MoreToCome(pages: seq<P.Page>, serial: P.uint32, r: Reader, src: seq<byte>, off: nat, k: nat)
    requires OnChain(pages, serial, r, src, off, k) && k < |pages|
    ensures off <= |src| && r.Valid() && AllPackets(src, r, off).0 != []
  {
    hide Segments, P.ReadPage, ProcessPage, P.Encode, S.EncodedFrom, AllPackets, NextPacket, Room;
    if r.qi < |r.queue| {
      S.Drained(src, r, off);
    } else {
      S.PagesDeliver(pages, serial, k, r, src, off);
      SegmentsEnd(S.SegsFrom(pages, k), S.BodiesFrom(pages, k), r.partial, r.headers, r.limit);
      EndsFrom(pages, k);
    }
  }

  function Elements(ps: seq<Packet>): (packets: set<Packet>) { set p | p in ps }

  lemma Occur(ps: seq<Packet>)
    ensures forall p | p in ps :: p in Elements(ps)
  {
  }

  /** Each of these packets decodes to `frame` samples, from every state they lead to. */
  ghost predicate Framed<T(!new)>(codec: Codec<T>, channels: nat, packets: set<Packet>, frame: nat)
    requires channels > 0
  {
    forall s, p | Reachable(codec, packets, s) && p in packets ::
      codec.step(s, p).Frame? && PerChannel(codec.step(s, p).samples, channels) == frame
  }

  /** Playing the chain on from anywhere, every packet of it `frame` samples long: as many samples
      as the packets hold, end-trimmed to what the last page claims. */
  lemma {:induction false} PlaysOut<T(!new)>(st: Stream<T>, pages: seq<P.Page>, serial: P.uint32, c: Core<T>, k: nat, total: nat, packets: set<Packet>, frame: nat,
                                           claim: int, end: nat)
    requires Fit(st, c) && st.head.channels > 0 && Framed(st.codec, st.head.channels, packets, frame)
    requires Reachable(st.codec, packets, c.codec) && forall p | p in AllPackets(st.src, c.reader, c.pos).0 :: p in packets
    requires OnChain(pages, serial, c.reader, st.src, c.pos, k) && claim == LastGranule(pages) && claim >= st.head.preSkip
    requires end == total + Lasting(|AllPackets(st.src, c.reader, c.pos).0|, frame)
    requires (AllPackets(st.src, c.reader, c.pos).0 != [] ==> end <= claim + frame) && Standing(st, c, total, claim)
    ensures RestFrom(st, c, 0).1 == Ended
    ensures |RestFrom(st, c, 0).0| == Past(At(end, st.head.preSkip, claim - st.head.preSkip), c.delivered) * FrameBytes(st)
    decreases |st.src| - c.pos, |c.reader.queue| - c.reader.qi
  {
    hide Fill, OnChain, AllPackets, NextPacket, FrameBytes, Lasting, Standing, At, LastGranule, Framed, Reachable;
    var k' := NextOnChain(pages, serial, c.reader, st.src, c.pos, k);
    var (n, r, pos) := NextPacket(st.src, c.reader, c.pos);
    OnePacketLess(st.src, c.reader, c.pos, frame);
    if n.Got? {
      var left := |AllPackets(st.src, r, pos).0|;
      KnowsOrMore(pages, serial, r, st.src, pos, k', frame);
      PlaysOne(st, c, total, packets, frame, claim);
      var f := Fill(st, c, 0);
      StandsAt(st, f.core, total + frame, claim);
      PlaysOut(st, pages, serial, f.core, k', total + frame, packets, frame, claim, end);
      StandsAt(st, c, total, claim);
      SumTimes(Past(f.core.delivered, c.delivered), Past(At(end, st.head.preSkip, claim - st.head.preSkip), f.core.delivered), FrameBytes(st));
      AtGrows(total + frame, end, st.head.preSkip, claim - st.head.preSkip);
    } else {
      Finishes(st, c);
      StandsAt(st, c, total, claim);
    }
  }

  function LastGranule(pages: seq<P.Page>): (g: int) { if pages == [] then -1 else pages[|pages| - 1].granule }

  function Lasting(n: nat, frame: nat): (d: nat) { n * frame }

  lemma OnePacketLess(src: seq<byte>, r: Reader, off: nat, frame: nat)
    requires off <= |src| && r.Valid()
    ensures var (n, r', off') := NextPacket(src, r, off); var ps := AllPackets(src, r, off).0;
            if n.Got? then ps != [] && Lasting(|ps|, frame) == frame + Lasting(|AllPackets(src, r', off').0|, frame)
            else ps == [] && Lasting(|ps|, frame) == 0
    ensures var (n, r', off') := NextPacket(src, r, off); n.Got? && AllPackets(src, r', off').0 != [] ==>
              Lasting(|AllPackets(src, r', off').0|, frame) >= frame
  {
    hide NextPacket;
    var (n, r', off') := NextPacket(src, r, off);
    if n.Got? { OneMoreTimes(|AllPackets(src, r', off').0|, frame); }
  }

  lemma OneMoreTimes(n: nat, k: nat)
    ensures (n + 1) * k == k + n * k && (n > 0 ==> n * k >= k)
  {
    if n > 0 { Monotone(1, n, k); }
  }

  /** Either the end granule is known, or another packet is to come. */
  lemma KnowsOrMore(pages: seq<P.Page>, serial: P.uint32, r: Reader, src: seq<byte>, off: nat, k: nat, frame: nat)
    requires OnChain(pages, serial, r, src, off, k)
    ensures off <= |src| && r.Valid()
    ensures r.finalGranule == LastGranule(pages) || (r.finalGranule == -1 && AllPackets(src, r, off).0 != [])
  {
    hide AllPackets;
    if k < |pages| { MoreToCome(pages, serial, r, src, off, k); }
  }

  lemma StandsAt<T(!new)>(st: Stream<T>, c: Core<T>, total: nat, claim: int)
    requires Standing(st, c, total, claim)
    ensures c.delivered == At(total, st.head.preSkip, claim - st.head.preSkip)
  {
  }

  lemma AtGrows(a: nat, b: nat, preSkip: nat, cap: int)
    requires a <= b
    ensures At(a, preSkip, cap) <= At(b, preSkip, cap)
  {
  }

  lemma Finishes<T(!new)>(st: Stream<T>, c: Core<T>)
    requires Fit(st, c) && st.head.channels > 0 && NextPacket(st.src, c.reader, c.pos).0.End?
    ensures RestFrom(st, c, 0) == ([], Ended)
  {
    hide NextPacket;
  }

  /** The counts after packets of total duration `total`. */
  ghost predicate Standing<T>(st: Stream<T>, c: Core<T>, total: nat, claim: int) {
    && c.preSkipLeft == Past(st.head.preSkip, total) && c.delivered == At(total, st.head.preSkip, claim - st.head.preSkip)
    && (c.limit == -1 || c.limit == claim - st.head.preSkip)
  }

  /** One packet got and decoded. */
  lemma PlaysOne<T(!new)>(st: Stream<T>, c: Core<T>, total: nat, packets: set<Packet>, frame: nat, claim: int)
    requires Fit(st, c) && st.head.channels > 0 && Framed(st.codec, st.head.channels, packets, frame)
    requires Reachable(st.codec, packets, c.codec) && forall p | p in AllPackets(st.src, c.reader, c.pos).0 :: p in packets
    requires Standing(st, c, total, claim)
    requires claim >= st.head.preSkip && NextPacket(st.src, c.reader, c.pos).0.Got?
    requires var r := NextPacket(st.src, c.reader, c.pos).1; r.finalGranule == claim || (r.finalGranule == -1 && total + frame <= claim)
    ensures var f := Fill(st, c, 0); var (n, r, pos) := NextPacket(st.src, c.reader, c.pos);
            && f.More? && f.core.reader == r && f.core.pos == pos && Standing(st, f.core, total + frame, claim)
            && |f.out| == Past(f.core.delivered, c.delivered) * FrameBytes(st) && c.delivered <= f.core.delivered
            && Reachable(st.codec, packets, f.core.codec) && forall p | p in AllPackets(st.src, r, pos).0 :: p in packets
  {
    hide NextPacket, Pcm, Slice, PerChannel, Spanned, Reachable;
    var (n, r, pos) := NextPacket(st.src, c.reader, c.pos);
    assert AllPackets(st.src, c.reader, c.pos).0[0] == n.packet;
    ReachesOn(st.codec, packets, c.codec, n.packet);
    var coded := st.codec.step(c.codec, n.packet);
    assert coded.Frame? && PerChannel(coded.samples, st.head.channels) == frame;
    var limit := Learned(c.limit, r, st.head.preSkip);
    PacketMoves(total, frame, st.head.preSkip, claim - st.head.preSkip, limit, 0);
    SliceCounts(coded.samples, st.head.channels, Spanned(c.preSkipLeft, c.delivered, limit, frame, 0));
  }

  lemma {:induction false} SegmentsEnd(segs: seq<byte>, body: seq<byte>, partial: Packet, headers: nat, limit: nat)
    requires P.Sum(segs) == |body| && |partial| <= Room(headers, limit) && Segments(segs, body, partial, headers, limit).Cut?
    ensures var c := Segments(segs, body, partial, headers, limit); var n := S.Ends(segs);
            |c.packets| == n && c.headers == if n >= headers then 0 else headers - n
    decreases |segs|
  {
    hide Segments, Room, Grown, P.Sum;
    if segs == [] {
      assert body == [] by { NoSum(body); }
      EmptyRuns([], [], partial, headers, limit);
    } else {
      FirstSegment(segs, body, partial, headers, limit);
      var l := segs[0];
      if l < P.MAX_SEGMENT {
        SegmentsEnd(segs[1..], body[l..], [], Less(headers), limit);
      } else {
        SegmentsEnd(segs[1..], body[l..], Grown(partial, body[..l], Room(headers, limit)), headers, limit);
      }
    }
  }

  lemma {:induction false} EndsFrom(pages: seq<P.Page>, k: nat)
    requires k < |pages| && S.AllWritable(pages) && !S.OpenEnded(pages[|pages| - 1])
    ensures S.Ends(S.SegsFrom(pages, k)) > 0
    decreases |pages| - k
  {
    var pg := pages[k];
    S.EndsAppend(pg.segTable, S.SegsFrom(pages, k + 1));
    if k + 1 < |pages| {
      EndsFrom(pages, k + 1);
    } else {
      assert pg.segTable[|pg.segTable| - 1] < P.MAX_SEGMENT;
      S.EndsIfCompletes(pg);
    }
  }

  // ---------------------------------------------------------------- opening what was written

  /** The start of the chain. */
  lemma AtTheStart(pages: seq<P.Page>, serial: P.uint32, ps: seq<Packet>)
    requires S.Chained(pages, serial) && S.EndsOnce(pages) && !S.OpenEnded(pages[|pages| - 1]) && pages[|pages| - 1].granule >= 0
    requires S.AllSegs(pages) == Laces(ps) && S.AllBodies(pages) == Bytes(ps) && Fits(ps, 2, STREAM_LIMIT)
    ensures OnChain(pages, serial, Fresh(STREAM_LIMIT), S.Encoded(pages), 0, 0)
    ensures AllPackets(S.Encoded(pages), Fresh(STREAM_LIMIT), 0) == (KeptAll(ps, 2), End)
  {
    hide Segments, AllPackets, P.Encode, S.OpenEnded, S.EncodedFrom, S.SegsFrom, S.BodiesFrom, S.AllSegs, S.AllBodies, S.Encoded, P.Sum, Laces, Bytes, KeptAll;
    S.StreamDelivers(pages, serial, ps, STREAM_LIMIT);
    S.FromSplits(pages, 0);
    S.EncodedSplits(pages, 0);
    Nothing();
    assert pages[..0] == [];
    assert S.Encoded(pages)[0..] == S.EncodedFrom(pages, 0);
    assert S.SegsFrom(pages, 0) == Laces(ps) && S.BodiesFrom(pages, 0) == Bytes(ps);
    ManyPackets(ps, 2, STREAM_LIMIT);
  }

  lemma Nothing()
    ensures S.AllSegs([]) == [] && S.AllBodies([]) == [] && S.Encoded([]) == []
  {
  }

  lemma {:induction false} KeptAudio(ps: seq<Packet>, headers: nat)
    requires |ps| >= headers
    ensures |KeptAll(ps, headers)| == |ps| && KeptAll(ps, headers)[headers..] == ps[headers..]
    decreases |ps|
  {
    if ps != [] {
      KeptAudio(ps[1..], Less(headers));
      if headers > 0 {
        assert KeptAll(ps, headers)[headers..] == KeptAll(ps[1..], Less(headers))[Less(headers)..];
        assert ps[1..][Less(headers)..] == ps[headers..];
      } else {
        assert KeptAll(ps[1..], 0)[0..] == KeptAll(ps[1..], 0) && ps[1..][0..] == ps[1..];
        assert KeptAll(ps, 0)[0..] == [ps[0]] + KeptAll(ps[1..], 0) && ps[0..] == [ps[0]] + ps[1..];
      }
    }
  }

  /** A decoder opens the stream, and has exactly the audio packets before it. */
  lemma StreamOpens<T(!new)>(pages: seq<P.Page>, serial: P.uint32, ps: seq<Packet>, format: Format<T>, h: Head, codec: Codec<T>) returns (k: nat)
    requires S.Chained(pages, serial) && S.EndsOnce(pages) && !S.OpenEnded(pages[|pages| - 1]) && pages[|pages| - 1].granule >= 0
    requires S.AllSegs(pages) == Laces(ps) && S.AllBodies(pages) == Bytes(ps) && Fits(ps, 2, STREAM_LIMIT) && |ps| >= 2
    requires format.head(Kept(ps[0], 2)) == Some(h) && h.streams <= 1 && format.tags(Kept(ps[1], 1)) && format.build(h) == Some(codec)
    ensures var src := S.Encoded(pages); var o := Open(src, 0, format);
            && o.Opened? && o.stream == Stream(src, h, codec) && OnChain(pages, serial, o.reader, src, o.pos, k)
            && AllPackets(src, o.reader, o.pos).0 == ps[2..]
  {
    hide NextPacket, OnChain, S.Chained, S.EndsOnce, S.OpenEnded, S.AllSegs, S.AllBodies, S.Encoded, Laces, Bytes, Fits, Kept;
    W.ChainWritable(pages, serial);
    AtTheStart(pages, serial, ps);
    KeptAudio(ps, 2);
    var src := S.Encoded(pages);
    var r0 := Fresh(STREAM_LIMIT);
    var k1 := NextOnChain(pages, serial, r0, src, 0, 0);
    var (n1, r1, p1) := NextPacket(src, r0, 0);
    assert KeptAll(ps, 2)[0] == Kept(ps[0], 2) && KeptAll(ps, 2)[1] == Kept(ps[1], 1);
    k := NextOnChain(pages, serial, r1, src, p1, k1);
    var (n2, r2, p2) := NextPacket(src, r1, p1);
    assert AudioLimit(h) == STREAM_LIMIT;
    assert r1.(limit := AudioLimit(h)) == r1;
    assert AllPackets(src, r2, p2).0 == KeptAll(ps, 2)[2..];
  }

  // ---------------------------------------------------------------- end to end

  /** A closed encoder's stream, as pages and packets. */
  lemma Written<T(!new)>(e: E.Encoder<T>) returns (pages: seq<P.Page>, ps: seq<Packet>)
    requires e.Valid() && e.closed && e.intact
    ensures ps == [e.cw.head, e.cw.tags] + e.cw.sent && Fits(ps, 2, STREAM_LIMIT) && pages != []
    ensures S.Chained(pages, e.cw.sw.serial) && S.EndsOnce(pages) && e.cw.sw.sink == S.Encoded(pages)
    ensures S.AllSegs(pages) == Laces(ps) && S.AllBodies(pages) == Bytes(ps)
    ensures !S.OpenEnded(pages[|pages| - 1]) && pages[|pages| - 1].granule == e.cw.final && pages == e.cw.sw.pages && e.cw.sent != []
  {
    var w := e.cw.sw;
    pages, ps := w.pages, w.packets;
    ClosedWriter(e);
    hide E.Encoder.Valid, E.Encoder.Kept, W.ContainerWriter.Valid, W.Ledger;
    LastPage(w);
  }

  lemma ClosedWriter<T(!new)>(e: E.Encoder<T>)
    requires e.Valid() && e.closed && e.intact
    ensures e.cw.sw.Valid() && e.cw.sw.closed && e.cw.sent != []
    ensures e.cw.sw.packets == [e.cw.head, e.cw.tags] + e.cw.sent && Fits(e.cw.sw.packets, 2, STREAM_LIMIT)
    ensures |e.cw.sw.granules| == |e.cw.sw.packets| && e.cw.sw.granules[|e.cw.sw.granules| - 1] == e.cw.final
  {
    hide W.StreamWriter.Valid, E.Coding, W.Cumulative, W.Total, E.Uniform, E.Frames, E.Silences, E.Length48k, E.Config.Valid,
      E.Config.Duration, E.Config.Scale, E.Config.FrameBytes, E.Config.FrameLen, E.Config.SampleBytes, E.Config.ScratchLen, E.Bounded;
    SomethingSent(e.config, |e.input|);
    forall i | 2 <= i < |e.cw.sw.packets| ensures |e.cw.sw.packets[i]| <= STREAM_LIMIT {
      assert e.cw.sw.packets[i] == e.cw.sent[i - 2];
    }
  }

  lemma SomethingSent(c: E.Config, length: nat)
    requires c.Valid()
    ensures E.Frames(c, length) + E.Silences(c, length) > 0
  {
    hide E.Frames;
  }

  /** The last page of a closed writer ends a packet, the last, and carries its granule. */
  lemma LastPage(w: W.StreamWriter)
    requires w.Valid() && w.closed && w.packets != []
    ensures S.Chained(w.pages, w.serial) && S.EndsOnce(w.pages) && w.sink == S.Encoded(w.pages)
    ensures S.AllSegs(w.pages) == Laces(w.packets) && S.AllBodies(w.pages) == Bytes(w.packets)
    ensures |w.granules| == |w.packets|
    ensures !S.OpenEnded(w.pages[|w.pages| - 1]) && w.pages[|w.pages| - 1].granule == w.granules[|w.granules| - 1]
  {
    hide S.Stamped, S.AllSegs, S.AllBodies, S.Encoded, Laces, Bytes, S.Ends, P.Encode, W.Fills, W.InOrder, S.Chained, S.EndsOnce;
    assert S.AllSegs(w.pages) + [] == S.AllSegs(w.pages) && S.AllBodies(w.pages) + [] == S.AllBodies(w.pages);
    W.LacesOfSome(w.packets);
    W.PagesHaveSegments(w.pages, w.serial);
    LacesClose(w.packets);
    W.ChainWritable(w.pages, w.serial);
    LastSegments(w.pages);
    S.EndsOfLaces(w.packets);
    StampOfLast(w.pages, w.granules, |w.packets|);
  }

  lemma LacesClose(ps: seq<Packet>)
    requires ps != []
    ensures Laces(ps) != [] && Laces(ps)[|Laces(ps)| - 1] < P.MAX_SEGMENT
  {
    hide P.Lacing;
    var n := |ps| - 1;
    assert ps == ps[..n] + [ps[n]];
    LacesAppend(ps[..n], ps[n]);
    P.LacingMeasures(|ps[n]|);
  }

  lemma LastSegments(pages: seq<P.Page>)
    requires pages != [] && S.AllWritable(pages)
    ensures var s := S.AllSegs(pages); var t := pages[|pages| - 1].segTable; s != [] && s[|s| - 1] == t[|t| - 1]
  {
  }

  lemma StampOfLast(pages: seq<P.Page>, granules: seq<P.int64>, n: nat)
    requires pages != [] && S.AllWritable(pages) && S.Stamped(pages, granules) && S.Ends(S.AllSegs(pages)) == n == |granules|
    requires !S.OpenEnded(pages[|pages| - 1])
    ensures n > 0 && pages[|pages| - 1].granule == granules[n - 1]
  {
    hide S.AllSegs, S.Ends;
    var k := |pages| - 1;
    assert pages[..k + 1] == pages;
    var t := pages[k].segTable;
    assert t[|t| - 1] < P.MAX_SEGMENT;
  }

  /** For every rate, frame duration, input and split of it over calls: what the encoder wrote
      decodes cleanly to exactly the input's length at 48 kHz. */
  lemma EndToEnd<T(!new), U(!new)>(e: E.Encoder<T>, format: Format<U>, h: Head, codec: Codec<U>)
    requires e.Valid() && e.closed && e.intact
    requires format.head(Kept(e.cw.head, 2)) == Some(h) && format.tags(Kept(e.cw.tags, 1)) && format.build(h) == Some(codec)
    requires h.preSkip == E.PRE_SKIP && h.channels == e.config.channels && h.streams <= 1
    requires h.channels > 0 && Framed(codec, h.channels, Elements(e.cw.sent), e.config.Duration())
    ensures e.config.Valid()
    ensures var o := Open(e.cw.sw.sink, 0, format);
            && o.Opened? && Fit(o.stream, Start(o)) && o.stream.head == h
            && RestFrom(o.stream, Start(o), 0).1 == Ended
            && |RestFrom(o.stream, Start(o), 0).0| == E.Length48k(e.config, |e.input|) * (2 * e.config.channels)
  {
    hide *;
    var pages, ps := Written(e);
    var claim, frame := Claims(e);
    var k := StreamOpens(pages, e.cw.sw.serial, ps, format, h, codec);
    var o := Open(e.cw.sw.sink, 0, format);
    var end := Lasting(|e.cw.sent|, frame);
    Begins(o, claim, h);
    GranuleOf(pages, claim);
    InitiallyReached(codec, Elements(e.cw.sent));
    Occur(e.cw.sent);
    assert ps[2..] == e.cw.sent;
    PlaysOut(o.stream, pages, e.cw.sw.serial, Start(o), k, 0, Elements(e.cw.sent), frame, claim, end);
    AllClaimed(end, h.preSkip, claim);
    Widths(o.stream, e.config);
  }

  lemma Claims<T(!new)>(e: E.Encoder<T>) returns (claim: int, frame: nat)
    requires e.Valid() && e.closed && e.intact
    ensures e.config.Valid() && frame == e.config.Duration() && claim == e.cw.final == E.PRE_SKIP + E.Length48k(e.config, |e.input|)
    ensures claim <= Lasting(|e.cw.sent|, frame) <= claim + frame
  {
    hide W.StreamWriter.Valid, W.ContainerWriter.Valid, E.Coding, E.Uniform, E.Frames, E.Silences, E.Length48k, E.Config.Valid,
      E.Config.Duration, E.Config.Scale, E.Config.FrameBytes, E.Config.FrameLen, E.Config.SampleBytes, E.Config.ScratchLen, E.Bounded;
    claim, frame := e.cw.final, e.config.Duration();
    OneMoreTimes(if |e.cw.sent| > 0 then |e.cw.sent| - 1 else 0, frame);
  }

  lemma Begins<T(!new)>(o: Opening<T>, claim: int, h: Head)
    requires o.Opened? && o.stream.head == h && claim >= h.preSkip && o.pos <= |o.stream.src| && o.reader.Valid()
    ensures Fit(o.stream, Start(o)) && Standing(o.stream, Start(o), 0, claim) && Start(o).delivered == 0
    ensures Start(o).reader == o.reader && Start(o).pos == o.pos && Start(o).codec == o.stream.codec.initial
  {
  }

  lemma GranuleOf(pages: seq<P.Page>, claim: int)
    requires pages != [] && pages[|pages| - 1].granule == claim
    ensures LastGranule(pages) == claim
  {
  }

  lemma AllClaimed(end: nat, preSkip: nat, claim: int)
    requires preSkip <= claim <= end
    ensures Past(At(end, preSkip, claim - preSkip), 0) == claim - preSkip
  {
  }

  lemma Widths<U>(st: Stream<U>, c: E.Config)
    requires st.head.channels == c.channels
    ensures FrameBytes(st) == 2 * c.channels
  {
  }
}
