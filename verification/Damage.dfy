/** Streams that break off or go wrong: the packets before the fault are delivered, then it is reported. */
module Damage {
  import opened Crc
  import P = Page
  import opened Packets
  import opened Stream

  /** What a reader in the middle of the stream `serial` says to `tail`: bytes that hold no further page of
      that stream. */
  function Verdict(serial: P.uint32, tail: seq<byte>): (v: Next)
    requires Faulty(serial, tail)
  {
    if tail == [] then End
    else
      match P.ParsePage(tail)
      case Short => Error(Truncated)
      case Bad(flaw) => Error(Corrupt(flaw))
      case Parsed(_, _) => Error(WrongSerial)
  }

  predicate Faulty(serial: P.uint32, tail: seq<byte>) {
    P.ParsePage(tail).Parsed? ==> P.ParsePage(tail).page.serial != serial
  }

  lemma FaultIsTold(src: seq<byte>, r: Reader, off: nat, serial: P.uint32)
    requires off <= |src| && r.Valid() && r.qi == |r.queue| && !r.sawEos && r.serialSet && r.serial == serial && Faulty(serial, src[off..])
    ensures AllPackets(src, r, off) == ([], Verdict(serial, src[off..]))
  {
    hide P.ReadPage, P.ParsePage, Reassemble;
    P.ReadIsParse(src, off);
    ReadIsWritable(src, off);
  }

  lemma DropFront(src: seq<byte>, off: nat, front: seq<byte>, rest: seq<byte>)
    requires off <= |src| && src[off..] == front + rest
    ensures off + |front| <= |src| && src[off + |front|..] == rest
  {
    assert src[off + |front|..] == src[off..][|front|..];
  }

  lemma FromAt(pages: seq<P.Page>, k: nat)
    requires k < |pages| && AllWritable(pages)
    ensures SegsFrom(pages, k) == pages[k].segTable + SegsFrom(pages, k + 1) && BodiesFrom(pages, k) == pages[k].body + BodiesFrom(pages, k + 1)
    ensures EncodedFrom(pages, k) == P.Encode(pages[k]) + EncodedFrom(pages, k + 1)
    ensures SegsFrom(pages, |pages|) == [] && BodiesFrom(pages, |pages|) == [] && EncodedFrom(pages, |pages|) == []
  {
    hide P.Encode;
  }

  lemma NoneFrom(pages: seq<P.Page>)
    requires AllWritable(pages)
    ensures SegsFrom(pages, |pages|) == [] && BodiesFrom(pages, |pages|) == [] && EncodedFrom(pages, |pages|) == []
  {
  }

  lemma PageThen(pages: seq<P.Page>, k: nat, src: seq<byte>, off: nat, tail: seq<byte>)
    requires k < |pages| && AllWritable(pages) && off <= |src| && src[off..] == EncodedFrom(pages, k) + tail
    ensures var next := off + |P.Encode(pages[k])|;
            P.ReadPage(src, off) == (P.Read(pages[k]), next) && next <= |src| && src[next..] == EncodedFrom(pages, k + 1) + tail
  {
    hide P.ReadPage, P.ParsePage, P.Encode, EncodedFrom;
    var pg, rest := pages[k], EncodedFrom(pages, k + 1) + tail;
    FromAt(pages, k);
    Regroup(P.Encode(pg), EncodedFrom(pages, k + 1), tail);
    P.ParseOfWritten(pg, rest);
    P.ReadIsParse(src, off);
    DropFront(src, off, P.Encode(pg), rest);
  }

  lemma FollowingServed(pages: seq<P.Page>, serial: P.uint32, k: nat, r: Reader)
    requires Chained(pages, serial) && k <= |pages| && Following(pages, serial, k, r)
    ensures r.Valid() && !r.sawEos && Following(pages, serial, k, r.(qi := |r.queue|)) && r.queue[0..] == r.queue
  {
  }

  /** Reading pages of a chain that has not ended: their packets, and then whatever comes behind them. */
  lemma {:induction false} PagesRead(pages: seq<P.Page>, serial: P.uint32, k: nat, r: Reader, src: seq<byte>, off: nat, tail: seq<byte>) returns (r2: Reader)
    requires Chained(pages, serial) && (forall j | 0 <= j < |pages| :: !pages[j].Has(P.EOS)) && 0 < |pages| && k <= |pages|
    requires Following(pages, serial, k, r) && r.qi == |r.queue|
    requires off <= |src| && src[off..] == EncodedFrom(pages, k) + tail
    requires P.Sum(SegsFrom(pages, k)) == |BodiesFrom(pages, k)|
    requires Segments(SegsFrom(pages, k), BodiesFrom(pages, k), r.partial, r.headers, r.limit).Cut?
    ensures Following(pages, serial, |pages|, r2) && r2.qi == |r2.queue| && r2.limit == r.limit
    ensures r2.headers == Segments(SegsFrom(pages, k), BodiesFrom(pages, k), r.partial, r.headers, r.limit).headers
    ensures |tail| <= |src| && src[|src| - |tail|..] == tail
    ensures AllPackets(src, r, off).0 == Segments(SegsFrom(pages, k), BodiesFrom(pages, k), r.partial, r.headers, r.limit).packets + AllPackets(src, r2, |src| - |tail|).0
    ensures AllPackets(src, r, off).1 == AllPackets(src, r2, |src| - |tail|).1
    decreases |pages| - k
  {
    hide Segments, AllPackets, P.ReadPage, P.ParsePage, P.Encode, ProcessPage, NextPacket, Room, SegsFrom, BodiesFrom, EncodedFrom, Chained, Following;
    ChainWrites(pages, serial);
    FollowingServed(pages, serial, k, r);
    if k == |pages| {
      NoneFrom(pages);
      assert [] + tail == tail;
      NoSegments(r.partial, r.headers, r.limit);
      r2 := r;
      assert [] + AllPackets(src, r2, |src| - |tail|).0 == AllPackets(src, r2, |src| - |tail|).0;
    } else {
      var pg := pages[k];
      PageThen(pages, k, src, off, tail);
      FromAt(pages, k);
      FromMeasures(pages, k + 1);
      SegmentsAppend(pg.segTable, pg.body, SegsFrom(pages, k + 1), BodiesFrom(pages, k + 1), r.partial, r.headers, r.limit);
      FollowPage(pages, serial, k, r);
      var next, r' := off + |P.Encode(pg)|, ProcessPage(r, pg).reader;
      ReadThrough(src, r, off, pg, next, r');
      Drained(src, r', next);
      var r'' := r'.(qi := |r'.queue|);
      FollowingServed(pages, serial, k + 1, r');
      r2 := PagesRead(pages, serial, k + 1, r'', src, next, tail);
    }
  }

  function Rest(n: nat, m: nat): (d: nat) { if n > m then n - m else 0 }

  /** As many packets as end in a run come out of it, the header packets first. */
  lemma {:induction false} AsManyAsEnd(segs: seq<byte>, body: seq<byte>, partial: Packet, headers: nat, limit: nat)
    requires P.Sum(segs) == |body| && |partial| <= Room(headers, limit)
    ensures var r := Segments(segs, body, partial, headers, limit); r.Cut? ==> |r.packets| == Ends(segs) && r.headers == Rest(headers, Ends(segs))
    decreases |segs|
  {
    hide Room, Grown;
    if segs != [] {
      var l := segs[0];
      if !(headers == 0 && |partial| + l > Room(headers, limit)) {
        if l < P.MAX_SEGMENT {
          AsManyAsEnd(segs[1..], body[l..], [], Less(headers), limit);
        } else {
          AsManyAsEnd(segs[1..], body[l..], Grown(partial, body[..l], Room(headers, limit)), headers, limit);
        }
      }
    }
  }

  lemma PrefixChained(pages: seq<P.Page>, serial: P.uint32, k: nat)
    requires Chained(pages, serial) && EndsOnce(pages) && k < |pages|
    ensures Chained(pages[..k], serial) && AllWritable(pages) && AllWritable(pages[..k]) && forall j | 0 <= j < k :: !pages[..k][j].Has(P.EOS)
  {
    hide P.Page.Has, P.Page.Writable, OpenEnded;
    var front := pages[..k];
    forall j | 0 <= j < k ensures front[j].Has(P.CONTINUED) <==> Continues(front, j) {
      assert front[j] == pages[j] && Continues(front, j) == Continues(pages, j);
    }
  }

  /** The packets that end on the first pages. */
  lemma FrontCarries(pages: seq<P.Page>, serial: P.uint32, ps: seq<Packet>, limit: nat, k: nat)
    requires Chained(pages, serial) && AllSegs(pages) == Laces(ps) && AllBodies(pages) == Bytes(ps) && Fits(ps, 2, limit) && k < |pages|
    ensures P.Sum(AllSegs(pages[..k])) == |AllBodies(pages[..k])| && Ends(AllSegs(pages[..k])) <= |ps|
    ensures var c := Segments(AllSegs(pages[..k]), AllBodies(pages[..k]), [], 2, limit);
            && c.Cut? && c.packets == KeptAll(ps, 2)[..Ends(AllSegs(pages[..k]))] && c.headers == Rest(2, Ends(AllSegs(pages[..k])))
            && P.Sum(SegsFrom(pages, k)) == |BodiesFrom(pages, k)|
            && Segments(SegsFrom(pages, k), BodiesFrom(pages, k), c.partial, c.headers, limit).Cut?
            && Segments(SegsFrom(pages, k), BodiesFrom(pages, k), c.partial, c.headers, limit).packets == KeptAll(ps, 2)[Ends(AllSegs(pages[..k]))..]
  {
    hide Segments, Room, Laces, Bytes, AllSegs, AllBodies, SegsFrom, BodiesFrom, KeptAll, Fits, Ends, Chained;
    AllMeasure(pages, serial, k);
    ChainWrites(pages, serial);
    FromSplits(pages, k);
    ManyPackets(ps, 2, limit);
    FromMeasures(pages, k);
    SegmentsAppend(AllSegs(pages[..k]), AllBodies(pages[..k]), SegsFrom(pages, k), BodiesFrom(pages, k), [], 2, limit);
    AsManyAsEnd(AllSegs(pages[..k]), AllBodies(pages[..k]), [], 2, limit);
  }

  lemma ChainWrites(pages: seq<P.Page>, serial: P.uint32)
    requires Chained(pages, serial)
    ensures AllWritable(pages)
  {
    hide OpenEnded;
  }

  lemma AllMeasure(pages: seq<P.Page>, serial: P.uint32, j: nat)
    requires Chained(pages, serial) && j <= |pages|
    ensures P.Sum(AllSegs(pages[..j])) == |AllBodies(pages[..j])|
  {
    hide AllSegs, AllBodies;
    var front := pages[..j];
    FromSplits(front, 0);
    NoneBefore(front);
    FromMeasures(front, 0);
  }

  /** The first pages of a stream and whatever follows: the packets that end on those pages come first. */
  lemma FrontRead(pages: seq<P.Page>, serial: P.uint32, ps: seq<Packet>, limit: nat, k: nat, tail: seq<byte>) returns (r: Reader)
    requires Chained(pages, serial) && EndsOnce(pages) && AllSegs(pages) == Laces(ps) && AllBodies(pages) == Bytes(ps) && Fits(ps, 2, limit)
    requires 0 < k < |pages|
    ensures AllWritable(pages[..k]) && Ends(AllSegs(pages[..k])) <= |ps|
    ensures r.Valid() && r.qi == |r.queue| && !r.sawEos && r.serialSet && r.serial == serial && r.limit == limit && r.headers == Rest(2, Ends(AllSegs(pages[..k])))
    ensures var src := Encoded(pages[..k]) + tail; var (more, end) := AllPackets(src, r, |src| - |tail|);
            src[|src| - |tail|..] == tail && AllPackets(src, Fresh(limit), 0) == (KeptAll(ps, 2)[..Ends(AllSegs(pages[..k]))] + more, end)
  {
    hide Segments, AllPackets, P.Encode, Room, Encoded, Chained, EndsOnce, Laces, Bytes, AllSegs, AllBodies, SegsFrom, BodiesFrom, EncodedFrom, KeptAll, Fits, Ends;
    PrefixChained(pages, serial, k);
    var front, src := pages[..k], Encoded(pages[..k]) + tail;
    FrontCarries(pages, serial, ps, limit, k);
    FromSplits(front, 0);
    EncodedSplits(front, 0);
    NoneBefore(front);
    FromMeasures(front, 0);
    assert src[0..] == src;
    r := PagesRead(front, serial, 0, Fresh(limit), src, 0, tail);
  }

  /** The first `k` pages of a stream, and then bytes that are not its next page: the packets that end on
      those pages are delivered, and then what is wrong is reported; nothing of a packet left open is. */
  lemma FaultAfterPages(pages: seq<P.Page>, serial: P.uint32, ps: seq<Packet>, limit: nat, k: nat, tail: seq<byte>)
    requires Chained(pages, serial) && EndsOnce(pages) && AllSegs(pages) == Laces(ps) && AllBodies(pages) == Bytes(ps) && Fits(ps, 2, limit)
    requires 0 < k < |pages| && Faulty(serial, tail)
    ensures AllWritable(pages[..k])
    ensures var done := Ends(AllSegs(pages[..k]));
            done <= |ps| && AllPackets(Encoded(pages[..k]) + tail, Fresh(limit), 0) == (KeptAll(ps, 2)[..done], Verdict(serial, tail))
  {
    hide AllPackets, Verdict, Faulty, Encoded, Chained, EndsOnce, Laces, Bytes, AllSegs, AllBodies, KeptAll, Fits, Ends;
    var r := FrontRead(pages, serial, ps, limit, k, tail);
    var src := Encoded(pages[..k]) + tail;
    FaultIsTold(src, r, |src| - |tail|, serial);
    NothingMore(KeptAll(ps, 2)[..Ends(AllSegs(pages[..k]))]);
  }

  lemma NothingMore(a: seq<Packet>)
    ensures a + [] == a
  {
  }

  /** The first page of a source, if it does not begin a stream: nothing is delivered. */
  lemma NoStream(src: seq<byte>, limit: nat)
    requires P.ParsePage(src).Parsed? ==> !P.ParsePage(src).page.Has(P.BOS)
    ensures AllPackets(src, Fresh(limit), 0)
            == ([], if src == [] then End
                    else match P.ParsePage(src)
                         case Short => Error(Truncated)
                         case Bad(flaw) => Error(Corrupt(flaw))
                         case Parsed(_, _) => Error(MissingBos))
  {
    hide P.ReadPage, P.ParsePage, Reassemble;
    assert src[0..] == src;
    P.ReadIsParse(src, 0);
    ReadIsWritable(src, 0);
  }

  lemma NoneBefore(pages: seq<P.Page>)
    requires AllWritable(pages)
    ensures pages[..0] == [] && AllSegs(pages[..0]) == [] && AllBodies(pages[..0]) == [] && Encoded(pages[..0]) == []
    ensures AllSegs(pages[..0]) + SegsFrom(pages, 0) == SegsFrom(pages, 0) && AllBodies(pages[..0]) + BodiesFrom(pages, 0) == BodiesFrom(pages, 0)
    ensures Encoded(pages[..0]) + EncodedFrom(pages, 0) == EncodedFrom(pages, 0)
  {
  }

  /** A stream cut anywhere behind its first page: between two pages it reads like one that ends there,
      inside a page it is reported truncated; the packets of the whole pages are delivered either way. */
  lemma CutStream(pages: seq<P.Page>, serial: P.uint32, ps: seq<Packet>, limit: nat, k: nat, n: nat)
    requires Chained(pages, serial) && EndsOnce(pages) && AllSegs(pages) == Laces(ps) && AllBodies(pages) == Bytes(ps) && Fits(ps, 2, limit)
    requires 0 < k < |pages| && AllWritable(pages) && |Encoded(pages[..k])| <= n < |Encoded(pages[..k + 1])|
    ensures n <= |Encoded(pages)|
    ensures var done := Ends(AllSegs(pages[..k]));
            done <= |ps| && AllPackets(Encoded(pages)[..n], Fresh(limit), 0)
                            == (KeptAll(ps, 2)[..done], if n == |Encoded(pages[..k])| then End else Error(Truncated))
  {
    hide AllPackets, P.Encode, P.ParsePage, Encoded, Chained, EndsOnce, Laces, Bytes, AllSegs, AllBodies, KeptAll, Fits, Ends, P.WritePage;
    var pg, front := pages[k], Encoded(pages[..k]);
    TakeOne(pages, k);
    EncodedOneMore(pages[..k], pg);
    EncodedSplits(pages, k + 1);
    var all := Encoded(pages);
    var tail := P.Encode(pg)[..n - |front|];
    assert all == front + P.Encode(pg) + EncodedFrom(pages, k + 1);
    assert all[..n] == front + tail;
    P.ParseOfWritten(pg, []);
    assert P.Encode(pg) + [] == P.Encode(pg);
    P.ParseOfPrefix(tail, P.Encode(pg));
    FaultAfterPages(pages, serial, ps, limit, k, tail);
  }

  // ---------------------------------------------------------------- lost pages

  /** A page that does not continue a packet drops the one left open: what is pending does not matter. */
  lemma PendingIsDropped(src: seq<byte>, r: Reader, off: nat, pg: P.Page, next: nat)
    requires off <= |src| && r.Valid() && r.qi == |r.queue| && !r.sawEos && r.serialSet
    requires P.ReadPage(src, off) == (P.Read(pg), next) && pg.Writable() && !pg.Has(P.CONTINUED) && pg.serial == r.serial
    requires ProcessPage(r.(partial := []), pg).Done?
    ensures AllPackets(src, r, off) == AllPackets(src, r.(partial := []), off)
  {
    hide P.ReadPage, Segments, AllPackets, NextPacket, Room;
    var r' := ProcessPage(r.(partial := []), pg).reader;
    assert ProcessPage(r, pg) == Done(r');
    ReadThrough(src, r, off, pg, next, r');
    ReadThrough(src, r.(partial := []), off, pg, next, r');
  }

  /** From a page that begins with a packet on, a chain carries the packets that end there. */
  lemma BackCarries(pages: seq<P.Page>, serial: P.uint32, ps: seq<Packet>, limit: nat, j: nat)
    requires Chained(pages, serial) && AllSegs(pages) == Laces(ps) && AllBodies(pages) == Bytes(ps) && Fits(ps, 2, limit)
    requires 0 < j < |pages| && !pages[j].Has(P.CONTINUED) && Ends(AllSegs(pages[..j])) >= 2
    ensures P.Sum(SegsFrom(pages, j)) == |BodiesFrom(pages, j)| && Ends(AllSegs(pages[..j])) <= |ps|
    ensures var c := Segments(SegsFrom(pages, j), BodiesFrom(pages, j), [], 0, limit);
            c.Cut? && c.packets == KeptAll(ps, 2)[Ends(AllSegs(pages[..j]))..]
  {
    hide Segments, Room, Laces, Bytes, AllSegs, AllBodies, SegsFrom, BodiesFrom, KeptAll, Fits, Ends, Chained;
    FrontCarries(pages, serial, ps, limit, j);
    FrontCloses(pages, serial, j);
    ClosedRun(AllSegs(pages[..j]), AllBodies(pages[..j]), [], 2, limit);
  }

  lemma FrontCloses(pages: seq<P.Page>, serial: P.uint32, j: nat)
    requires Chained(pages, serial) && 0 < j < |pages| && !pages[j].Has(P.CONTINUED)
    ensures var a := AllSegs(pages[..j]); a != [] && a[|a| - 1] < P.MAX_SEGMENT
  {
    hide AllSegs, P.Page.Has;
    assert Continues(pages, j) == OpenEnded(pages[j - 1]);
    TakeOne(pages, j - 1);
    OnePageMore(pages[..j - 1], pages[j - 1]);
  }

  /** Pages lost from the middle of a stream, up to one that begins with a packet: every packet that ends
      before the gap or begins behind it is delivered, and nothing is joined across it. */
  lemma LostPages(pages: seq<P.Page>, serial: P.uint32, ps: seq<Packet>, limit: nat, i: nat, j: nat)
    requires Chained(pages, serial) && EndsOnce(pages) && AllSegs(pages) == Laces(ps) && AllBodies(pages) == Bytes(ps) && Fits(ps, 2, limit)
    requires 0 < i <= j < |pages| && !pages[j].Has(P.CONTINUED) && Ends(AllSegs(pages[..i])) >= 2
    ensures AllWritable(pages[..i]) && AllWritable(pages) && Ends(AllSegs(pages[..i])) <= Ends(AllSegs(pages[..j])) <= |ps|
    ensures AllPackets(Encoded(pages[..i]) + EncodedFrom(pages, j), Fresh(limit), 0)
            == (KeptAll(ps, 2)[..Ends(AllSegs(pages[..i]))] + KeptAll(ps, 2)[Ends(AllSegs(pages[..j]))..], End)
  {
    hide AllPackets, Encoded, EncodedFrom, Laces, Bytes, AllSegs, AllBodies, SegsFrom, BodiesFrom, KeptAll, Fits, Ends, Segments, Chained, EndsOnce;
    PrefixChained(pages, serial, i);
    EndsGrow(pages, i, j);
    var tail := EncodedFrom(pages, j);
    var r := FrontRead(pages, serial, ps, limit, i, tail);
    var src := Encoded(pages[..i]) + tail;
    BackCarries(pages, serial, ps, limit, j);
    BackRead(pages, serial, j, r, src, |src| - |tail|);
  }

  lemma Rejoins(pages: seq<P.Page>, serial: P.uint32, j: nat, r: Reader)
    requires Chained(pages, serial) && 0 < j < |pages| && r.Valid() && !r.sawEos && r.serialSet && r.serial == serial
    ensures Following(pages, serial, j, r.(partial := [])) && pages[j].serial == serial
  {
    hide OpenEnded, P.Page.Has;
  }

  /** The pages from one that begins with a packet on, whatever the reader has pending. */
  lemma BackRead(pages: seq<P.Page>, serial: P.uint32, j: nat, r: Reader, src: seq<byte>, at: nat)
    requires Chained(pages, serial) && EndsOnce(pages) && 0 < j < |pages| && !pages[j].Has(P.CONTINUED)
    requires r.Valid() && r.qi == |r.queue| && !r.sawEos && r.serialSet && r.serial == serial && r.headers == 0
    requires AllWritable(pages) && at <= |src| && src[at..] == EncodedFrom(pages, j)
    requires P.Sum(SegsFrom(pages, j)) == |BodiesFrom(pages, j)| && Segments(SegsFrom(pages, j), BodiesFrom(pages, j), [], 0, r.limit).Cut?
    ensures AllPackets(src, r, at) == (Segments(SegsFrom(pages, j), BodiesFrom(pages, j), [], 0, r.limit).packets, End)
  {
    hide AllPackets, EncodedFrom, SegsFrom, BodiesFrom, Segments, ProcessPage, P.ReadPage, P.Encode, Room, EndsOnce, OpenEnded, P.Page.Has, Chained, Following;
    var q, pg := r.(partial := []), pages[j];
    Rejoins(pages, serial, j, r);
    PageAt(pages, j, src, at);
    FromMeasures(pages, j + 1);
    FromAt(pages, j);
    SegmentsAppend(pg.segTable, pg.body, SegsFrom(pages, j + 1), BodiesFrom(pages, j + 1), [], 0, r.limit);
    FollowPage(pages, serial, j, q);
    PendingIsDropped(src, r, at, pg, at + |P.Encode(pg)|);
    PagesDeliver(pages, serial, j, q, src, at);
  }

  lemma EndsGrow(pages: seq<P.Page>, i: nat, j: nat)
    requires i <= j <= |pages|
    ensures Ends(AllSegs(pages[..i])) <= Ends(AllSegs(pages[..j]))
  {
    hide AllSegs, Ends, AllBodies;
    FromSplits(pages[..j], i);
    assert pages[..j][..i] == pages[..i];
    EndsAppend(AllSegs(pages[..i]), SegsFrom(pages[..j], i));
  }
}
