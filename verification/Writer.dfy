/** The packet writer: one page in progress, committed when the next begins or at close. */
module Writer {
  import opened Crc
  import P = Page
  import opened Packets
  import opened Stream

  /** The pages committed form a chain, are numbered, and are what the sink holds; once
      `done`, exactly the last of them ends the stream. */
  ghost predicate Emitted(pages: seq<P.Page>, serial: P.uint32, sink: seq<byte>, number: P.uint32, isCont: bool, done: bool) {
    && Chained(pages, serial) && sink == Encoded(pages)
    && InOrder(pages) && number == |pages| % 0x1_0000_0000
    && (isCont <==> pages != [] && OpenEnded(pages[|pages| - 1]))
    && (if done then EndsOnce(pages) else forall k | 0 <= k < |pages| :: !pages[k].Has(P.EOS))
  }

  /** Committed and pending pages together carry the segments `s` of the bytes `b`, and every
      granule, the pending one too, is that of the last packet to end so far. */
  ghost predicate Carries(pages: seq<P.Page>, segs: seq<byte>, body: seq<byte>, gran: P.int64,
                          s: seq<byte>, b: seq<byte>, g: seq<P.int64>) {
    && |segs| <= P.MAX_SEGMENTS && P.Sum(segs) == |body|
    && AllSegs(pages) + segs == s && AllBodies(pages) + body == b
    && Ends(s) <= |g| && Stamped(pages, g)
    && (if Ends(segs) > 0 then Ends(s) > 0 && gran == g[Ends(s) - 1] else gran == P.NO_GRANULE)
  }

  function Flags(isCont: bool, first: bool, eos: bool): (f: byte) {
    (if isCont then P.CONTINUED else 0) + (if first then P.BOS else 0) + (if eos then P.EOS else 0)
  }

  lemma FlagsRead(pg: P.Page, isCont: bool, first: bool, eos: bool)
    requires pg.flags == Flags(isCont, first, eos)
    ensures (pg.Has(P.CONTINUED) <==> isCont) && (pg.Has(P.BOS) <==> first) && (pg.Has(P.EOS) <==> eos)
  {
  }

  lemma ChainAt(pages: seq<P.Page>, serial: P.uint32, k: nat)
    requires Chained(pages, serial) && k < |pages|
    ensures pages[k].Writable() && pages[k].serial == serial && pages[0].Has(P.BOS)
    ensures pages[k].Has(P.CONTINUED) <==> Continues(pages, k)
  {
    hide P.Page.Has, P.Page.Writable, Continues;
    assert pages != [];
  }

  lemma ChainGrows(pages: seq<P.Page>, serial: P.uint32, pg: P.Page)
    requires Chained(pages, serial) && pg.Writable() && pg.serial == serial
    requires pg.Has(P.CONTINUED) <==> pages != [] && OpenEnded(pages[|pages| - 1])
    requires pages == [] ==> pg.Has(P.BOS)
    ensures Chained(pages + [pg], serial)
  {
    hide P.Page.Has, P.Page.Writable, OpenEnded;
    var all := pages + [pg];
    forall k | 0 <= k < |all| ensures all[k].Writable() && all[k].serial == serial {
      if k < |pages| { ChainAt(pages, serial, k); }
    }
    if pages != [] { ChainAt(pages, serial, 0); }
    forall k | 0 <= k < |all| ensures all[k].Has(P.CONTINUED) <==> Continues(all, k) {
      if k < |pages| { ChainAt(pages, serial, k); }
    }
  }

  /** Pages are numbered in order, modulo the width of the field, and number zero begins a stream. */
  ghost predicate InOrder(pages: seq<P.Page>) {
    forall k | 0 <= k < |pages| :: pages[k].sequence == k % 0x1_0000_0000 && (pages[k].Has(P.BOS) <==> k % 0x1_0000_0000 == 0)
  }

  lemma OrderGrows(pages: seq<P.Page>, pg: P.Page)
    requires InOrder(pages) && pg.sequence == |pages| % 0x1_0000_0000 && (pg.Has(P.BOS) <==> pg.sequence == 0)
    ensures InOrder(pages + [pg])
    ensures (|pages| % 0x1_0000_0000 + 1) % 0x1_0000_0000 == |pages + [pg]| % 0x1_0000_0000
  {
    var all := pages + [pg];
    forall k | 0 <= k < |all| ensures all[k].sequence == k % 0x1_0000_0000 && (all[k].Has(P.BOS) <==> k % 0x1_0000_0000 == 0) {
      if k < |pages| { assert all[k] == pages[k]; }
    }
  }

  /** Committing the page in progress keeps the chain. */
  lemma CommitEmits(pages: seq<P.Page>, serial: P.uint32, sink: seq<byte>, number: P.uint32, isCont: bool, eos: bool, pg: P.Page)
    requires Emitted(pages, serial, sink, number, isCont, false) && pg.Writable()
    requires pg.flags == Flags(isCont, number == 0, eos) && pg.serial == serial && pg.sequence == number
    ensures Emitted(pages + [pg], serial, sink + P.Encode(pg), (number + 1) % 0x1_0000_0000, OpenEnded(pg), eos)
  {
    hide P.Encode, P.Sum, Encoded, Flags, Chained, InOrder, OpenEnded;
    FlagsRead(pg, isCont, number == 0, eos);
    assert AllWritable(pages) by { ChainWritable(pages, serial); }
    EncodedOneMore(pages, pg);
    NumberZero(pages);
    ChainGrows(pages, serial, pg);
    OrderGrows(pages, pg);
    assert forall k | 0 <= k < |pages| :: (pages + [pg])[k] == pages[k];
  }

  lemma ChainWritable(pages: seq<P.Page>, serial: P.uint32)
    requires Chained(pages, serial)
    ensures AllWritable(pages)
  {
    hide OpenEnded;
  }

  lemma NumberZero(pages: seq<P.Page>)
    ensures pages == [] ==> |pages| % 0x1_0000_0000 == 0
  {
  }

  /** Committing the page in progress loses nothing and stamps it like the rest. */
  lemma CommitCarries(pages: seq<P.Page>, pg: P.Page, s: seq<byte>, b: seq<byte>, g: seq<P.int64>)
    requires Carries(pages, pg.segTable, pg.body, pg.granule, s, b, g)
    ensures Carries(pages + [pg], [], [], P.NO_GRANULE, s, b, g)
    ensures AllSegs(pages + [pg]) == s
  {
    hide Stamped, AllSegs, AllBodies, Ends;
    OnePageMore(pages, pg);
    EndsIfCompletes(pg);
    EmptyRun();
    assert AllSegs(pages + [pg]) + [] == s && AllBodies(pages + [pg]) + [] == b;
    StampedOneMore(pages, pg, g);
  }

  lemma EmptyRun()
    ensures P.Sum([]) == 0 && Ends([]) == 0
  {
  }

  lemma OneSegment(l: byte)
    ensures P.Sum([l]) == l && Ends([l]) == if l < P.MAX_SEGMENT then 1 else 0
  {
  }

  /** The next segment of a packet: its place, and whether it ends the packet. */
  lemma Segment(data: Packet, lacing: seq<byte>, i: nat, s0: seq<byte>)
    requires lacing == P.Lacing(|data|) && i < |lacing|
    ensures P.Sum(lacing[..i]) + lacing[i] == P.Sum(lacing[..i + 1]) <= |data|
    ensures lacing[i] < P.MAX_SEGMENT <==> i == |lacing| - 1
    ensures Ends(s0 + lacing[..i]) == Ends(s0)
    ensures Ends(s0 + lacing[..i + 1]) == Ends(s0) + if i == |lacing| - 1 then 1 else 0
  {
    hide P.Lacing, P.Sum, Ends;
    P.LacingMeasures(|data|);
    OneSegment(lacing[i]);
    assert lacing[..i + 1] == lacing[..i] + [lacing[i]];
    SumAppends(lacing[..i], [lacing[i]]);
    assert lacing == lacing[..i + 1] + lacing[i + 1..];
    SumAppends(lacing[..i + 1], lacing[i + 1..]);
    EndsOfLacing(|data|, i);
    EndsOfLacing(|data|, i + 1);
    EndsAppend(s0, lacing[..i]);
    EndsAppend(s0, lacing[..i + 1]);
  }

  lemma Extend<T>(a: seq<T>, b: seq<T>, s: seq<T>, t: seq<T>, x: seq<T>)
    requires a + b == s + t
    ensures a + (b + x) == s + (t + x)
  {
    assert a + (b + x) == (a + b) + x;
    assert s + (t + x) == (s + t) + x;
  }

  lemma PlaceRuns(pages: seq<P.Page>, segs: seq<byte>, body: seq<byte>, s0: seq<byte>, b0: seq<byte>,
                  data: Packet, lacing: seq<byte>, i: nat, off: nat)
    requires lacing == P.Lacing(|data|) && i < |lacing| && off == P.Sum(lacing[..i]) <= |data|
    requires AllSegs(pages) + segs == s0 + lacing[..i] && AllBodies(pages) + body == b0 + data[..off] && P.Sum(segs) == |body|
    ensures var l := lacing[i]; var next := off + l;
            next == P.Sum(lacing[..i + 1]) <= |data| && P.Sum(segs + [l]) == |body + data[off..next]|
            && AllSegs(pages) + (segs + [l]) == s0 + lacing[..i + 1] && AllBodies(pages) + (body + data[off..next]) == b0 + data[..next]
  {
    hide AllSegs, AllBodies, Ends, P.Sum, P.Lacing;
    var l := lacing[i];
    Segment(data, lacing, i, s0);
    OneSegment(l);
    SumAppends(segs, [l]);
    var next := off + l;
    assert lacing[..i + 1] == lacing[..i] + [l];
    Extend(AllSegs(pages), segs, s0, lacing[..i], [l]);
    assert data[..next] == data[..off] + data[off..next];
    Extend(AllBodies(pages), body, b0, data[..off], data[off..next]);
  }

  /** One more segment of the packet on the page in progress; the granule goes on with the
      packet's last. */
  lemma PlaceCarries(pages: seq<P.Page>, segs: seq<byte>, body: seq<byte>, gran: P.int64, s0: seq<byte>, b0: seq<byte>, g: seq<P.int64>,
                     data: Packet, lacing: seq<byte>, i: nat, off: nat)
    requires lacing == P.Lacing(|data|) && i < |lacing| && off == P.Sum(lacing[..i]) <= |data|
    requires Carries(pages, segs, body, gran, s0 + lacing[..i], b0 + data[..off], g) && |segs| < P.MAX_SEGMENTS
    requires Ends(s0) + 1 == |g|
    ensures var next := off + lacing[i];
            next == P.Sum(lacing[..i + 1]) <= |data| &&
            Carries(pages, segs + [lacing[i]], body + data[off..next], if i == |lacing| - 1 then g[|g| - 1] else gran,
                    s0 + lacing[..i + 1], b0 + data[..next], g)
  {
    hide Stamped, AllSegs, AllBodies, Ends, P.Sum, P.Lacing;
    PlaceRuns(pages, segs, body, s0, b0, data, lacing, i, off);
    Segment(data, lacing, i, s0);
    OneSegment(lacing[i]);
    EndsAppend(segs, [lacing[i]]);
  }

  /** A granule more to stamp from changes nothing yet. */
  lemma MoreGranules(pages: seq<P.Page>, segs: seq<byte>, body: seq<byte>, gran: P.int64, s: seq<byte>, b: seq<byte>, g: seq<P.int64>, more: P.int64)
    requires Carries(pages, segs, body, gran, s, b, g)
    ensures Carries(pages, segs, body, gran, s, b, g + [more])
  {
    hide Stamped, AllSegs, AllBodies, Ends, P.Sum;
    StampedMoreGranules(pages, g, more);
  }

  /** The first `from` packets fill the first `page` pages. */
  ghost predicate Fills(pages: seq<P.Page>, packets: seq<Packet>, page: nat, from: nat) {
    page <= |pages| && from <= |packets| && AllSegs(pages[..page]) == Laces(packets[..from])
  }

  lemma FillsOn(pages: seq<P.Page>, packets: seq<Packet>, page: nat, from: nat, pages': seq<P.Page>, packets': seq<Packet>)
    requires Fills(pages, packets, page, from) && pages <= pages' && packets <= packets'
    ensures Fills(pages', packets', page, from)
  {
    assert pages'[..page] == pages[..page] && packets'[..from] == packets[..from];
  }

  lemma FillsAll(pages: seq<P.Page>, packets: seq<Packet>)
    requires AllSegs(pages) == Laces(packets)
    ensures Fills(pages, packets, |pages|, |packets|)
  {
    assert pages[..|pages|] == pages && packets[..|packets|] == packets;
  }

  /** From page `from` on a page is committed only once it is full, but for the one that closing flushes. */
  ghost predicate Full(pages: seq<P.Page>, from: nat, done: bool) {
    forall k | from <= k < |pages| :: |pages[k].segTable| == 255 || (done && k == |pages| - 1)
  }

  lemma FullAbove(pages: seq<P.Page>)
    ensures Full(pages, |pages|, false)
  {
  }

  lemma FullOn(pages: seq<P.Page>, from: nat, pages': seq<P.Page>, done: bool)
    requires Full(pages, from, false) && pages <= pages'
    requires forall k | |pages| <= k < |pages'| :: |pages'[k].segTable| == 255 || (done && k == |pages'| - 1)
    ensures Full(pages', from, done)
  {
    forall k | from <= k < |pages'| ensures |pages'[k].segTable| == 255 || (done && k == |pages'| - 1) {
      if k < |pages| { assert pages'[k] == pages[k]; }
    }
  }

  class StreamWriter {
    const serial: P.uint32
    var sink: seq<byte>          // what the io.Writer has been given
    var number: P.uint32         // the next page's sequence number
    var segs: seq<byte>          // the page in progress
    var body: seq<byte>
    var gran: P.int64
    var isCont: bool
    var havePage: bool
    var audioStarted: bool
    var closed: bool

    ghost var pages: seq<P.Page>       // every page committed
    ghost var packets: seq<Packet>     // every packet placed, in order
    ghost var granules: seq<P.int64>   // the granule each was placed with
    ghost var audioFrom: nat           // packets placed before the first audio packet
    ghost var audioPage: nat           // and the pages they fill

    ghost predicate Valid()
      reads this
    {
      && Emitted(pages, serial, sink, number, isCont, closed && pages != [])
      && Fills(pages, packets, audioPage, audioFrom) && Full(pages, audioPage, closed)
      && Carries(pages, segs, body, gran, Laces(packets), Bytes(packets), granules)
      && |granules| == |packets|
      && (havePage <==> segs != []) && (havePage <==> !closed && packets != [])
    }

    constructor (serial: P.uint32)
      ensures Valid() && pages == [] && packets == [] && granules == [] && !closed && !audioStarted && this.serial == serial && audioFrom == 0
    {
      this.serial := serial;
      sink, number, segs, body, gran, isCont, havePage, audioStarted, closed := [], 0, [], [], P.NO_GRANULE, false, false, false, false;
      pages, packets, granules, audioFrom, audioPage := [], [], [], 0, 0;
    }

    /** Writes the page in progress, if there is one. */
    method Commit(eos: bool, ghost s: seq<byte>, ghost b: seq<byte>, ghost g: seq<P.int64>)
      requires Emitted(pages, serial, sink, number, isCont, false) && Carries(pages, segs, body, gran, s, b, g)
      requires havePage <==> segs != []
      modifies this`sink, this`number, this`segs, this`body, this`gran, this`isCont, this`havePage, this`pages
      ensures Emitted(pages, serial, sink, number, isCont, old(havePage) && eos) && Carries(pages, segs, body, gran, s, b, g)
      ensures !havePage && segs == [] && AllSegs(pages) == s && old(pages) <= pages
      ensures |pages| == |old(pages)| + if old(havePage) then 1 else 0
      ensures old(havePage) ==> pages[|old(pages)|].segTable == old(segs)
    {
      hide P.Encode, AllSegs, AllBodies, Ends, Emitted, Stamped, Encoded;
      if !havePage {
        assert AllSegs(pages) + [] == AllSegs(pages);
        return;
      }
      var pg := P.Page(Flags(isCont, number == 0, eos), gran, serial, number, segs, body);
      var w := P.WritePage(pg);
      assert w == P.Written(P.Encode(pg));
      CommitEmits(pages, serial, sink, number, isCont, eos, pg);
      CommitCarries(pages, pg, s, b, g);
      sink := sink + w.bytes;
      isCont := segs[|segs| - 1] == P.MAX_SEGMENT;
      number := (number + 1) % 0x1_0000_0000;
      segs, body, gran, havePage := [], [], P.NO_GRANULE, false;
      pages := pages + [pg];
    }

    /** Places a packet's segments on the page in progress, committing it each time it fills. */
    method WritePacket(data: Packet, granuleAfter: P.int64, forceNewPage: bool)
      requires Valid() && !closed
      modifies this
      ensures Valid() && !closed && audioStarted == old(audioStarted)
      ensures if forceNewPage then audioFrom == |old(packets)| else audioFrom == old(audioFrom)
      ensures packets == old(packets) + [data] && granules == old(granules) + [granuleAfter] && old(pages) <= pages
    {
      hide Emitted, Carries, Laces, Bytes, P.Lacing, P.Sum, Ends, AllSegs, Fills, Full;
      ghost var s0, b0, g := Laces(packets), Bytes(packets), granules + [granuleAfter];
      EndsOfLaces(packets);
      MoreGranules(pages, segs, body, gran, s0, b0, granules, granuleAfter);
      ghost var head: seq<P.Page> := pages;
      if forceNewPage && havePage {
        Commit(false, s0, b0, g);
        head := pages;
      } else if !havePage {
        NothingPending(pages, body, gran, s0, b0, g);
      }
      ghost var was, from := packets, if forceNewPage then |packets| else audioFrom;
      ghost var page := if forceNewPage then |head| else audioPage;
      if forceNewPage { FillsAll(head, packets); FullAbove(head); } else { FillsOn(pages, packets, page, from, head, packets); }
      PlaceAll(data, granuleAfter, s0, b0, g);
      LacesAppend(packets, data);
      packets := packets + [data];
      granules := g;
      FillsOn(head, was, page, from, pages, packets);
      FullOn(head, page, pages, false);
      audioFrom, audioPage := from, page;
    }

    method PlaceAll(data: Packet, granuleAfter: P.int64, ghost s0: seq<byte>, ghost b0: seq<byte>, ghost g: seq<P.int64>)
      requires Emitted(pages, serial, sink, number, isCont, false) && Carries(pages, segs, body, gran, s0, b0, g)
      requires Ends(s0) + 1 == |g| && g[|g| - 1] == granuleAfter && (havePage <==> segs != [])
      modifies this`sink, this`number, this`segs, this`body, this`gran, this`isCont, this`havePage, this`pages
      ensures Emitted(pages, serial, sink, number, isCont, false)
      ensures Carries(pages, segs, body, gran, s0 + P.Lacing(|data|), b0 + data, g)
      ensures havePage && segs != [] && old(pages) <= pages
      ensures forall k | |old(pages)| <= k < |pages| :: |pages[k].segTable| == 255
    {
      hide Emitted, Carries, P.Lacing, P.Sum, Ends, AllSegs;
      var lacing := P.Lacing(|data|);
      var off: nat := 0;
      EmptyRun();
      assert s0 + lacing[..0] == s0 && b0 + data[..0] == b0 && lacing[..0] == [];
      for i := 0 to |lacing|
        invariant off == P.Sum(lacing[..i]) <= |data| && (havePage <==> segs != []) && (i > 0 ==> havePage) && old(pages) <= pages
        invariant forall k | |old(pages)| <= k < |pages| :: |pages[k].segTable| == 255
        invariant Emitted(pages, serial, sink, number, isCont, false)
        invariant Carries(pages, segs, body, gran, s0 + lacing[..i], b0 + data[..off], g)
      {
        if havePage && |segs| == P.MAX_SEGMENTS {
          Commit(false, s0 + lacing[..i], b0 + data[..off], g);
        }
        NotFull(pages, segs, body, gran, s0 + lacing[..i], b0 + data[..off], g);
        PlaceCarries(pages, segs, body, gran, s0, b0, g, data, lacing, i, off);
        havePage := true;
        segs := segs + [lacing[i]];
        body := body + data[off..off + lacing[i]];
        off := off + lacing[i];
        if i == |lacing| - 1 {
          gran := granuleAfter;
        }
      }
      P.LacingMeasures(|data|);
      assert lacing[..|lacing|] == lacing && data[..off] == data;
    }

    /** OpusHead and OpusTags, each starting a page of its own. */
    method WriteHeaders(head: Packet, tags: Packet)
      requires Valid() && !closed && packets == [] && granules == []
      modifies this
      ensures Valid() && !closed && audioStarted == old(audioStarted) && packets == [head, tags] && granules == [0, 0]
      ensures audioFrom == 1
    {
      hide Emitted, Carries, Laces, Bytes, AllSegs, Fills;
      WritePacket(head, 0, true);
      assert packets == [head] && granules == [0];
      WritePacket(tags, 0, true);
      assert packets == [head, tags] && granules == [0, 0];
    }

    method WriteAudioPacket(data: Packet, granuleAfter: P.int64)
      requires Valid() && !closed
      modifies this
      ensures Valid() && !closed && audioStarted
      ensures packets == old(packets) + [data] && granules == old(granules) + [granuleAfter]
      ensures audioFrom == if old(audioStarted) then old(audioFrom) else |old(packets)|
    {
      hide Emitted, Carries, Laces, Bytes, AllSegs, Fills;
      var force := !audioStarted;
      audioStarted := true;
      WritePacket(data, granuleAfter, force);
    }

    /** Flushes the last page, flagged end-of-stream. */
    method Close()
      requires Valid()
      modifies this
      ensures Valid() && closed && packets == old(packets) && granules == old(granules)
      ensures audioFrom == old(audioFrom) && audioStarted == old(audioStarted)
      ensures old(closed) ==> pages == old(pages) && sink == old(sink)
      ensures forall k | audioPage <= k < |pages| - 1 :: |pages[k].segTable| == 255
    {
      hide Emitted, Carries, Laces, Bytes, Fills;
      if closed { return; }
      ghost var was := pages;
      if !havePage {
        NothingCommitted(pages, serial, sink, number, isCont, segs, body, gran, granules);
      }
      closed := true;
      Commit(true, Laces(packets), Bytes(packets), granules);
      FillsOn(was, packets, audioPage, audioFrom, pages, packets);
      FullOn(was, audioPage, pages, true);
    }
  }

  lemma NothingCommitted(pages: seq<P.Page>, serial: P.uint32, sink: seq<byte>, number: P.uint32, isCont: bool,
                         segs: seq<byte>, body: seq<byte>, gran: P.int64, g: seq<P.int64>)
    requires Emitted(pages, serial, sink, number, isCont, false) && Carries(pages, segs, body, gran, Laces([]), Bytes([]), g)
    ensures pages == []
  {
    hide Ends, Stamped, Encoded, AllSegs;
    assert AllSegs(pages) == [];
    PagesHaveSegments(pages, serial);
  }

  lemma PagesHaveSegments(pages: seq<P.Page>, serial: P.uint32)
    requires Chained(pages, serial)
    ensures pages == [] <==> AllSegs(pages) == []
  {
  }

  lemma NothingPending(pages: seq<P.Page>, body: seq<byte>, gran: P.int64, s: seq<byte>, b: seq<byte>, g: seq<P.int64>)
    requires Carries(pages, [], body, gran, s, b, g)
    ensures AllSegs(pages) == s
  {
    assert AllSegs(pages) + [] == AllSegs(pages);
  }

  lemma NotFull(pages: seq<P.Page>, segs: seq<byte>, body: seq<byte>, gran: P.int64, s: seq<byte>, b: seq<byte>, g: seq<P.int64>)
    requires Carries(pages, segs, body, gran, s, b, g)
    ensures |segs| <= P.MAX_SEGMENTS
  {
  }

  /** A closed writer's sink reads back as the packets placed, header packets cut to their
      limit; its pages carry the granule of the last packet to end on them, and exactly the
      last of them ends the stream. */
  lemma RoundTrip(w: StreamWriter, limit: nat)
    requires w.Valid() && w.closed && w.packets != [] && Fits(w.packets, 2, limit)
    ensures AllPackets(w.sink, Fresh(limit), 0) == (KeptAll(w.packets, 2), End)
    ensures w.sink == Encoded(w.pages) && Stamped(w.pages, w.granules) && EndsOnce(w.pages)
    ensures forall i | 0 <= i < |w.packets| :: var p := w.packets[i]; KeptAll(w.packets, 2)[i] == if i < 2 && |p| > 61440 then p[..61440] else p
  {
    forall i | 0 <= i < |w.packets|
      ensures var p := w.packets[i]; KeptAll(w.packets, 2)[i] == if i < 2 && |p| > 61440 then p[..61440] else p
    {
      KeptAt(w.packets, 2, i);
    }
    Reads(w, limit);
  }

  lemma Reads(w: StreamWriter, limit: nat)
    requires w.Valid() && w.closed && w.packets != [] && Fits(w.packets, 2, limit)
    ensures AllPackets(w.sink, Fresh(limit), 0) == (KeptAll(w.packets, 2), End)
    ensures w.sink == Encoded(w.pages) && Stamped(w.pages, w.granules) && EndsOnce(w.pages)
  {
    hide AllPackets, Encoded, KeptAll, Stamped, P.Encode, Ends, Laces, Bytes, AllSegs, AllBodies;
    assert AllSegs(w.pages) + [] == AllSegs(w.pages) && AllBodies(w.pages) + [] == AllBodies(w.pages);
    LacesOfSome(w.packets);
    PagesHaveSegments(w.pages, w.serial);
    StreamDelivers(w.pages, w.serial, w.packets, limit);
  }

  lemma LacesOfSome(ps: seq<Packet>)
    requires ps != []
    ensures Laces(ps) != []
  {
  }

  // ---------------------------------------------------------------- granule accounting

  function Total(d: seq<nat>): (n: nat) {
    if d == [] then 0 else Total(d[..|d| - 1]) + d[|d| - 1]
  }

  /** The running totals of the durations. */
  function Cumulative(d: seq<nat>): (g: seq<int>)
    ensures |g| == |d|
  {
    if d == [] then [] else Cumulative(d[..|d| - 1]) + [Total(d)]
  }

  lemma {:induction false} CumulativeAt(d: seq<nat>, i: nat)
    requires i < |d|
    ensures Cumulative(d)[i] == Total(d[..i + 1]) <= Total(d)
  {
    if i == |d| - 1 {
      assert d[..i + 1] == d;
    } else {
      CumulativeAt(d[..|d| - 1], i);
      assert d[..|d| - 1][..i + 1] == d[..i + 1];
    }
  }

  /** What has been placed, against the audio packets taken: all but the one held back, each
      with the running total of the durations, the last with the granule it was closed with. */
  ghost predicate Ledger(packets: seq<Packet>, granules: seq<P.int64>, head: Packet, tags: Packet, sent: seq<Packet>, durations: seq<nat>,
                         hasHeld: bool, heldPacket: Packet, heldDur: nat, granule: int, closed: bool, final: P.int64) {
    && |sent| == |durations|
    && (if hasHeld then
          && !closed && sent != [] && heldPacket == sent[|sent| - 1] && heldDur == durations[|sent| - 1]
          && granule == Total(durations[..|sent| - 1])
          && packets == [head, tags] + sent[..|sent| - 1] && granules == [0, 0] + Cumulative(durations[..|sent| - 1])
        else if !closed then
          && sent == [] && granule == 0 && packets == [head, tags] && granules == [0, 0]
        else
          && packets == [head, tags] + sent
          && granules == [0, 0] + if sent == [] then [] else Cumulative(durations[..|sent| - 1]) + [final])
  }

  /** A packet taken: the one held, if any, has gone out with the granule it ends at. */
  lemma LedgerTakes(packets: seq<Packet>, granules: seq<P.int64>, head: Packet, tags: Packet, sent: seq<Packet>, durations: seq<nat>,
                    hasHeld: bool, heldPacket: Packet, heldDur: nat, granule: int, final: P.int64, pkt: Packet, dur: nat)
    requires Ledger(packets, granules, head, tags, sent, durations, hasHeld, heldPacket, heldDur, granule, false, final)
    requires Total(durations) < 0x8000_0000_0000_0000
    ensures hasHeld ==> 0 <= granule + heldDur == Total(durations)
    ensures Ledger(if hasHeld then packets + [heldPacket] else packets, if hasHeld then granules + [granule + heldDur] else granules,
                   head, tags, sent + [pkt], durations + [dur], true, pkt, dur, if hasHeld then granule + heldDur else granule, false, final)
  {
    assert (sent + [pkt])[..|sent|] == sent && (durations + [dur])[..|sent|] == durations;
    hide Total, Cumulative;
    TotalLast(durations);
    if hasHeld {
      assert sent[..|sent| - 1] + [heldPacket] == sent;
      assert packets + [heldPacket] == [head, tags] + sent;
      assert granules + [granule + heldDur] == [0, 0] + Cumulative(durations);
    } else {
      assert [head, tags] + sent == [head, tags] && [0, 0] + Cumulative(durations) == [0, 0];
    }
  }

  lemma LedgerHasHeaders(packets: seq<Packet>, granules: seq<P.int64>, head: Packet, tags: Packet, sent: seq<Packet>, durations: seq<nat>,
                         hasHeld: bool, heldPacket: Packet, heldDur: nat, granule: int, closed: bool, final: P.int64)
    requires Ledger(packets, granules, head, tags, sent, durations, hasHeld, heldPacket, heldDur, granule, closed, final)
    ensures |packets| >= 2 && packets[..2] == [head, tags]
  {
    hide Total, Cumulative;
  }

  /** The held packet has gone out with the final granule. */
  lemma LedgerCloses(packets: seq<Packet>, granules: seq<P.int64>, head: Packet, tags: Packet, sent: seq<Packet>, durations: seq<nat>,
                     hasHeld: bool, heldPacket: Packet, heldDur: nat, granule: int, closed: bool, final: P.int64, final': P.int64)
    requires Ledger(packets, granules, head, tags, sent, durations, hasHeld, heldPacket, heldDur, granule, closed, final)
    requires !hasHeld ==> final' == final
    ensures Ledger(if hasHeld then packets + [heldPacket] else packets, if hasHeld then granules + [final'] else granules,
                   head, tags, sent, durations, false, heldPacket, heldDur, granule, true, final')
  {
    hide Total, Cumulative;
    if hasHeld {
      assert sent[..|sent| - 1] + [heldPacket] == sent;
      assert packets + [heldPacket] == [head, tags] + sent;
      assert granules + [final'] == [0, 0] + (Cumulative(durations[..|sent| - 1]) + [final']);
    } else if !closed {
      assert packets == [head, tags] + sent && granules == [0, 0] + [];
    }
  }

  /** The packet-level writer: one packet held back so that the last can be end-trimmed. */
  class ContainerWriter {
    const sw: StreamWriter
    const preSkip: nat
    const head: Packet
    const tags: Packet
    var granule: P.int64
    var heldPacket: Packet
    var heldDur: nat
    var hasHeld: bool
    var audioCount: nat

    ghost var sent: seq<Packet>      // every audio packet taken
    ghost var durations: seq<nat>    // their durations at 48 kHz
    ghost var final: P.int64         // the granule of the last packet, once closed

    ghost predicate Valid()
      reads this, sw
    {
      && sw.Valid() && |sent| == |durations| == audioCount
      && Ledger(sw.packets, sw.granules, head, tags, sent, durations, hasHeld, heldPacket, heldDur, granule, sw.closed, final)
      && (sw.audioStarted <==> |sw.packets| > 2) && (sw.audioStarted ==> sw.audioFrom == 2)
    }

    constructor (serial: P.uint32, preSkip: nat, head: Packet, tags: Packet)
      ensures Valid() && fresh(sw) && !sw.closed && sent == [] && durations == []
      ensures this.preSkip == preSkip && this.head == head && this.tags == tags && sw.serial == serial
    {
      hide *;
      var w := new StreamWriter(serial);
      w.WriteHeaders(head, tags);
      sw := w;
      this.preSkip, this.head, this.tags := preSkip, head, tags;
      granule, heldPacket, heldDur, hasHeld, audioCount := 0, [], 0, false, 0;
      sent, durations, final := [], [], 0;
      new;
      Opened();
    }

    lemma Opened()
      requires sw.Valid() && !sw.closed && !sw.audioStarted && sw.packets == [head, tags] && sw.granules == [0, 0] && !hasHeld && audioCount == 0
      requires sent == [] && durations == [] && granule == 0
      ensures Valid()
    {
      hide StreamWriter.Valid, Total, Cumulative;
    }

    /** Takes a packet; the one held goes out with the granule it ends at. */
    method WritePacket(pkt: Packet, samples48k: nat)
      requires Valid() && !sw.closed && Total(durations) < 0x8000_0000_0000_0000
      modifies this, sw
      ensures Valid() && !sw.closed && sent == old(sent) + [pkt] && durations == old(durations) + [samples48k]
    {
      hide Emitted, Carries, Total, Cumulative, Ledger, StreamWriter.Valid;
      LedgerTakes(sw.packets, sw.granules, head, tags, sent, durations, hasHeld, heldPacket, heldDur, granule, final, pkt, samples48k);
      LedgerHasHeaders(sw.packets, sw.granules, head, tags, sent, durations, hasHeld, heldPacket, heldDur, granule, false, final);
      if hasHeld {
        granule := granule + heldDur;
        sw.WriteAudioPacket(heldPacket, granule);
      }
      heldPacket, heldDur, hasHeld, audioCount := pkt, samples48k, true, audioCount + 1;
      sent, durations := sent + [pkt], durations + [samples48k];
    }

    /** Flushes the held packet, end-trimmed so that the stream claims exactly the source. */
    method Close(sourceSamples: nat)
      requires Valid() && preSkip + sourceSamples < 0x8000_0000_0000_0000
      modifies this, sw
      ensures Valid() && sw.closed && sent == old(sent) && durations == old(durations)
      ensures !old(sw.closed) && sent != [] ==> final == Max(preSkip + sourceSamples, Total(durations[..|sent| - 1]))
      ensures old(sw.closed) ==> final == old(final) && sw.sink == old(sw.sink)
      ensures forall k | sw.audioPage <= k < |sw.pages| - 1 :: |sw.pages[k].segTable| == 255
    {
      hide Emitted, Carries, Total, Cumulative, StreamWriter.Valid;
      ghost var final' := if hasHeld then Max(preSkip + sourceSamples, granule) else final;
      LedgerCloses(sw.packets, sw.granules, head, tags, sent, durations, hasHeld, heldPacket, heldDur, granule, sw.closed, final, final');
      if hasHeld {
        var finalGranule := Max(preSkip + sourceSamples, granule);
        sw.WriteAudioPacket(heldPacket, finalGranule);
        final := finalGranule;
        hasHeld := false;
      }
      sw.Close();
    }
  }

  function Max(a: int, b: int): (m: int) { if a > b then a else b }

  lemma TotalLast(d: seq<nat>)
    ensures Total([]) == 0 && Cumulative([]) == []
    ensures d != [] ==> Total(d) == Total(d[..|d| - 1]) + d[|d| - 1] && Cumulative(d) == Cumulative(d[..|d| - 1]) + [Total(d)]
  {
  }
}
