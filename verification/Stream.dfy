/** Chains of pages: what a writer's pages carry, and that a reader gets exactly that back. */
module Stream {
  import opened Crc
  import P = Page
  import opened Packets

  predicate AllWritable(pages: seq<P.Page>) {
    forall k | 0 <= k < |pages| :: pages[k].Writable()
  }

  function AllSegs(pages: seq<P.Page>): (s: seq<byte>) {
    if pages == [] then [] else AllSegs(pages[..|pages| - 1]) + pages[|pages| - 1].segTable
  }

  function AllBodies(pages: seq<P.Page>): (s: seq<byte>) {
    if pages == [] then [] else AllBodies(pages[..|pages| - 1]) + pages[|pages| - 1].body
  }

  /** The pages as bytes. */
  function Encoded(pages: seq<P.Page>): (s: seq<byte>)
    requires AllWritable(pages)
  {
    if pages == [] then [] else Encoded(pages[..|pages| - 1]) + P.Encode(pages[|pages| - 1])
  }

  /** The page ends inside a packet. */
  predicate OpenEnded(p: P.Page)
    requires p.Writable()
  {
    p.segTable[|p.segTable| - 1] == P.MAX_SEGMENT
  }

  /** The page before this one ends inside a packet. */
  predicate Continues(pages: seq<P.Page>, k: nat)
    requires k < |pages| && forall j | 0 <= j < |pages| :: pages[j].Writable()
  {
    k > 0 && OpenEnded(pages[k - 1])
  }

  /** Each page says whether it continues the one before, and all are of one stream. */
  predicate Chained(pages: seq<P.Page>, serial: P.uint32) {
    && (forall k | 0 <= k < |pages| :: pages[k].Writable() && pages[k].serial == serial)
    && (forall k | 0 <= k < |pages| :: pages[k].Has(P.CONTINUED) <==> Continues(pages, k))
    && (pages != [] ==> pages[0].Has(P.BOS))
  }

  predicate EndsOnce(pages: seq<P.Page>) {
    pages != [] && forall k | 0 <= k < |pages| :: pages[k].Has(P.EOS) <==> k == |pages| - 1
  }

  /** The number of packets that end in a run of segments. */
  function Ends(segs: seq<byte>): (n: nat) {
    if segs == [] then 0 else (if segs[0] < P.MAX_SEGMENT then 1 else 0) + Ends(segs[1..])
  }

  /** The granule a page carries: that of the last packet that ends on it, or none. */
  predicate Stamped(pages: seq<P.Page>, granules: seq<P.int64>) {
    forall k | 0 <= k < |pages| ::
      var through := Ends(AllSegs(pages[..k + 1]));
      if pages[k].CompletesPacket() then 0 < through <= |granules| && pages[k].granule == granules[through - 1]
      else pages[k].granule == P.NO_GRANULE
  }

  lemma {:induction false} EndsAppend(a: seq<byte>, b: seq<byte>)
    ensures Ends(a + b) == Ends(a) + Ends(b)
  {
    if a == [] {
      assert a + b == b;
    } else {
      assert (a + b)[1..] == a[1..] + b;
      EndsAppend(a[1..], b);
    }
  }

  lemma {:induction false} EndsIfCompletes(p: P.Page)
    ensures p.CompletesPacket() <==> Ends(p.segTable) > 0
  {
    EndsPositive(p.segTable);
  }

  lemma {:induction false} EndsPositive(segs: seq<byte>)
    ensures Ends(segs) > 0 <==> exists i :: 0 <= i < |segs| && segs[i] < P.MAX_SEGMENT
  {
    if segs != [] {
      EndsPositive(segs[1..]);
      if Ends(segs[1..]) > 0 {
        var i :| 0 <= i < |segs[1..]| && segs[1..][i] < P.MAX_SEGMENT;
        assert segs[i + 1] < P.MAX_SEGMENT;
      } else {
        assert forall i | 0 < i < |segs| :: segs[i] == segs[1..][i - 1];
      }
    }
  }

  lemma {:induction false} EndsOfLaces(ps: seq<Packet>)
    ensures Ends(Laces(ps)) == |ps|
  {
    hide P.Lacing;
    if ps != [] {
      EndsOfLacing(|ps[0]|, |P.Lacing(|ps[0]|)|);
      EndsAppend(P.Lacing(|ps[0]|), Laces(ps[1..]));
      EndsOfLaces(ps[1..]);
    }
  }

  /** Only the last lacing value of a packet ends it. */
  lemma {:induction false} EndsOfLacing(n: nat, i: nat)
    requires i <= |P.Lacing(n)|
    ensures Ends(P.Lacing(n)[..i]) == if i == |P.Lacing(n)| then 1 else 0
    ensures Ends(P.Lacing(n)) == 1
    decreases n
  {
    var s := P.Lacing(n);
    if n >= P.MAX_SEGMENT {
      var t := P.Lacing(n - P.MAX_SEGMENT);
      EndsOfLacing(n - P.MAX_SEGMENT, if i > 0 then i - 1 else 0);
      assert s[1..] == t;
      if i > 0 { assert s[..i][1..] == t[..i - 1]; }
    } else {
      assert s[1..] == [];
      if i == 1 { assert s[..i] == s; }
    }
  }

  lemma OnePageMore(pages: seq<P.Page>, p: P.Page)
    ensures AllSegs(pages + [p]) == AllSegs(pages) + p.segTable && AllBodies(pages + [p]) == AllBodies(pages) + p.body
  {
    assert (pages + [p])[..|pages|] == pages;
  }

  lemma EncodedOneMore(pages: seq<P.Page>, p: P.Page)
    requires p.Writable() && AllWritable(pages)
    ensures Encoded(pages + [p]) == Encoded(pages) + P.Encode(p)
  {
    assert (pages + [p])[..|pages|] == pages;
  }

  lemma StampedOneMore(pages: seq<P.Page>, p: P.Page, granules: seq<P.int64>)
    requires Stamped(pages, granules)
    requires var through := Ends(AllSegs(pages + [p]));
             if p.CompletesPacket() then 0 < through <= |granules| && p.granule == granules[through - 1] else p.granule == P.NO_GRANULE
    ensures Stamped(pages + [p], granules)
  {
    hide Ends, AllSegs;
    var all := pages + [p];
    forall k | 0 <= k < |all|
      ensures var through := Ends(AllSegs(all[..k + 1]));
              if all[k].CompletesPacket() then 0 < through <= |granules| && all[k].granule == granules[through - 1]
              else all[k].granule == P.NO_GRANULE
    {
      if k < |pages| {
        assert all[..k + 1] == pages[..k + 1];
      } else {
        assert all[..k + 1] == all;
      }
    }
  }

  lemma StampedMoreGranules(pages: seq<P.Page>, granules: seq<P.int64>, g: P.int64)
    requires Stamped(pages, granules)
    ensures Stamped(pages, granules + [g])
  {
    hide Ends, AllSegs;
  }

  // ---------------------------------------------------------------- reading pages back

  /** What is left of the segments from page `k` on. */
  function SegsFrom(pages: seq<P.Page>, k: nat): (s: seq<byte>)
    requires k <= |pages|
    decreases |pages| - k
  {
    if k == |pages| then [] else pages[k].segTable + SegsFrom(pages, k + 1)
  }

  function BodiesFrom(pages: seq<P.Page>, k: nat): (s: seq<byte>)
    requires k <= |pages|
    decreases |pages| - k
  {
    if k == |pages| then [] else pages[k].body + BodiesFrom(pages, k + 1)
  }

  function EncodedFrom(pages: seq<P.Page>, k: nat): (s: seq<byte>)
    requires k <= |pages| && AllWritable(pages)
    decreases |pages| - k
  {
    if k == |pages| then [] else P.Encode(pages[k]) + EncodedFrom(pages, k + 1)
  }

  lemma TakeOne(pages: seq<P.Page>, k: nat)
    requires k < |pages|
    ensures pages[..k + 1] == pages[..k] + [pages[k]]
  {
  }

  lemma {:induction false} FromSplits(pages: seq<P.Page>, k: nat)
    requires k <= |pages|
    ensures AllSegs(pages) == AllSegs(pages[..k]) + SegsFrom(pages, k)
    ensures AllBodies(pages) == AllBodies(pages[..k]) + BodiesFrom(pages, k)
    decreases |pages| - k
  {
    hide AllSegs, AllBodies;
    if k == |pages| {
      assert pages[..k] == pages;
    } else {
      FromSplits(pages, k + 1);
      TakeOne(pages, k);
      OnePageMore(pages[..k], pages[k]);
      Regroup(AllSegs(pages[..k]), pages[k].segTable, SegsFrom(pages, k + 1));
      Regroup(AllBodies(pages[..k]), pages[k].body, BodiesFrom(pages, k + 1));
    }
  }

  lemma Regroup(a: seq<byte>, b: seq<byte>, c: seq<byte>)
    ensures (a + b) + c == a + (b + c)
  {
  }

  lemma {:induction false} EncodedSplits(pages: seq<P.Page>, k: nat)
    requires k <= |pages| && AllWritable(pages)
    ensures Encoded(pages) == Encoded(pages[..k]) + EncodedFrom(pages, k)
    decreases |pages| - k
  {
    hide P.Encode, Encoded;
    if k == |pages| {
      assert pages[..k] == pages;
    } else {
      EncodedSplits(pages, k + 1);
      TakeOne(pages, k);
      EncodedOneMore(pages[..k], pages[k]);
      Regroup(Encoded(pages[..k]), P.Encode(pages[k]), EncodedFrom(pages, k + 1));
    }
  }

  lemma {:induction false} FromMeasures(pages: seq<P.Page>, k: nat)
    requires k <= |pages| && AllWritable(pages)
    ensures P.Sum(SegsFrom(pages, k)) == |BodiesFrom(pages, k)|
    decreases |pages| - k
  {
    if k < |pages| {
      FromMeasures(pages, k + 1);
      SumAppends(pages[k].segTable, SegsFrom(pages, k + 1));
    }
  }

  /** A run that ends a packet leaves nothing pending. */
  lemma {:induction false} ClosedRun(segs: seq<byte>, body: seq<byte>, partial: Packet, headers: nat, limit: nat)
    requires P.Sum(segs) == |body| && |partial| <= Room(headers, limit) && segs != [] && segs[|segs| - 1] < P.MAX_SEGMENT
    ensures var r := Segments(segs, body, partial, headers, limit); r.Cut? ==> r.partial == []
    decreases |segs|
  {
    hide Room, Grown;
    var l := segs[0];
    if !(headers == 0 && |partial| + l > Room(headers, limit)) {
      if |segs| > 1 {
        if l < P.MAX_SEGMENT {
          ClosedRun(segs[1..], body[l..], [], Less(headers), limit);
        } else {
          ClosedRun(segs[1..], body[l..], Grown(partial, body[..l], Room(headers, limit)), headers, limit);
        }
      }
    }
  }

  lemma ServesQueue(src: seq<byte>, r: Reader, off: nat)
    requires off <= |src| && r.Valid() && r.qi < |r.queue|
    ensures NextPacket(src, r, off) == (Got(r.queue[r.qi]), r.(qi := r.qi + 1), off)
  {
    hide P.ReadPage, ProcessPage;
  }

  /** Packets already queued come first. */
  lemma {:induction false} Drained(src: seq<byte>, r: Reader, off: nat)
    requires off <= |src| && r.Valid()
    ensures var rest := AllPackets(src, r.(qi := |r.queue|), off);
            AllPackets(src, r, off) == (r.queue[r.qi..] + rest.0, rest.1)
    decreases |r.queue| - r.qi
  {
    hide NextPacket;
    if r.qi < |r.queue| {
      var r' := r.(qi := r.qi + 1);
      ServesQueue(src, r, off);
      Drained(src, r', off);
      assert r'.(qi := |r'.queue|) == r.(qi := |r.queue|);
      var rest := AllPackets(src, r.(qi := |r.queue|), off);
      assert [r.queue[r.qi]] + (r'.queue[r'.qi..] + rest.0) == r.queue[r.qi..] + rest.0;
    } else {
      assert r.(qi := |r.queue|) == r;
      assert r.queue[r.qi..] + AllPackets(src, r, off).0 == AllPackets(src, r, off).0;
    }
  }

  /** With nothing queued, a page that processes cleanly is read through. */
  lemma ReadThrough(src: seq<byte>, r: Reader, off: nat, pg: P.Page, next: nat, r': Reader)
    requires off <= |src| && r.Valid() && r.qi == |r.queue| && !r.sawEos && pg.Writable()
    requires P.ReadPage(src, off) == (P.Read(pg), next) && ProcessPage(r, pg) == Done(r')
    ensures next <= |src| && AllPackets(src, r, off) == AllPackets(src, r', next)
  {
    hide P.ReadPage, ProcessPage;
    assert NextPacket(src, r, off) == NextPacket(src, r', next);
  }

  /** What the reader makes of page `k`, when it has followed the chain so far. */
  predicate Following(pages: seq<P.Page>, serial: P.uint32, k: nat, r: Reader)
    requires Chained(pages, serial) && k <= |pages|
  {
    && r.Valid() && !r.sawEos
    && (if k == 0 then !r.serialSet else r.serialSet && r.serial == serial)
    && (r.partial == [] || (k > 0 && OpenEnded(pages[k - 1])))
  }

  lemma FollowPage(pages: seq<P.Page>, serial: P.uint32, k: nat, r: Reader)
    requires Chained(pages, serial) && k < |pages| && Following(pages, serial, k, r)
    requires Segments(pages[k].segTable, pages[k].body, r.partial, r.headers, r.limit).Cut?
    ensures var c := Segments(pages[k].segTable, pages[k].body, r.partial, r.headers, r.limit);
            var p := ProcessPage(r, pages[k]);
            p.Done? && p.reader.queue == c.packets && p.reader.partial == c.partial && p.reader.headers == c.headers
            && p.reader.limit == r.limit && p.reader.sawEos == pages[k].Has(P.EOS) && p.reader.qi == 0
            && (!p.reader.sawEos ==> Following(pages, serial, k + 1, p.reader))
  {
    hide Segments, Room;
    var pg := pages[k];
    assert (if pg.Has(P.CONTINUED) then r.partial else []) == r.partial;
    if !OpenEnded(pg) {
      ClosedRun(pg.segTable, pg.body, r.partial, r.headers, r.limit);
    }
  }

  lemma PageAt(pages: seq<P.Page>, k: nat, src: seq<byte>, off: nat)
    requires k < |pages| && AllWritable(pages)
    requires off <= |src| && src[off..] == EncodedFrom(pages, k)
    ensures var next := off + |P.Encode(pages[k])|;
            P.ReadPage(src, off) == (P.Read(pages[k]), next) && next <= |src| && src[next..] == EncodedFrom(pages, k + 1)
  {
    hide P.ReadPage, P.ParsePage, P.Encode;
    var pg := pages[k];
    P.ParseOfWritten(pg, EncodedFrom(pages, k + 1));
    P.ReadIsParse(src, off);
    assert src[off + |P.Encode(pg)|..] == src[off..][|P.Encode(pg)|..];
  }

  /** Reading the pages from `k` on delivers the packets their segments spell. */
  lemma {:induction false} PagesDeliver(pages: seq<P.Page>, serial: P.uint32, k: nat, r: Reader, src: seq<byte>, off: nat)
    requires Chained(pages, serial) && EndsOnce(pages) && k < |pages| && Following(pages, serial, k, r) && r.qi == |r.queue|
    requires off <= |src| && src[off..] == EncodedFrom(pages, k)
    requires P.Sum(SegsFrom(pages, k)) == |BodiesFrom(pages, k)|
    requires Segments(SegsFrom(pages, k), BodiesFrom(pages, k), r.partial, r.headers, r.limit).Cut?
    ensures AllPackets(src, r, off)
            == (Segments(SegsFrom(pages, k), BodiesFrom(pages, k), r.partial, r.headers, r.limit).packets, End)
    decreases |pages| - k
  {
    hide Segments, AllPackets, EncodedFrom, P.ReadPage, P.Encode, ProcessPage, NextPacket, Room;
    var pg := pages[k];
    PageAt(pages, k, src, off);
    FromMeasures(pages, k + 1);
    SegmentsAppend(pg.segTable, pg.body, SegsFrom(pages, k + 1), BodiesFrom(pages, k + 1), r.partial, r.headers, r.limit);
    FollowPage(pages, serial, k, r);
    var next, r' := off + |P.Encode(pg)|, ProcessPage(r, pg).reader;
    ReadThrough(src, r, off, pg, next, r');
    Drained(src, r', next);
    var r'' := r'.(qi := |r'.queue|);
    assert r'.queue[0..] == r'.queue;
    if k + 1 < |pages| {
      assert Following(pages, serial, k + 1, r'');
      PagesDeliver(pages, serial, k + 1, r'', src, next);
    } else {
      AtTheEnd(src, r'', next);
      NoSegments(r'.partial, r'.headers, r'.limit);
      assert r'.queue + [] == r'.queue;
    }
  }

  lemma AtTheEnd(src: seq<byte>, r: Reader, off: nat)
    requires off <= |src| && r.Valid() && r.qi == |r.queue| && r.sawEos
    ensures AllPackets(src, r, off) == ([], End)
  {
  }

  /** Any chain of pages whose segments spell a list of packets within the limits reads
      back as that list, header packets cut to their limit, and ends cleanly. */
  lemma StreamDelivers(pages: seq<P.Page>, serial: P.uint32, ps: seq<Packet>, limit: nat)
    requires Chained(pages, serial) && EndsOnce(pages)
    requires AllSegs(pages) == Laces(ps) && AllBodies(pages) == Bytes(ps)
    requires Fits(ps, 2, limit)
    ensures AllPackets(Encoded(pages), Fresh(limit), 0) == (KeptAll(ps, 2), End)
  {
    hide Segments, AllPackets, P.Encode, Room;
    FromSplits(pages, 0);
    EncodedSplits(pages, 0);
    assert pages[..0] == [];
    assert Encoded(pages)[0..] == EncodedFrom(pages, 0);
    assert SegsFrom(pages, 0) == Laces(ps) && BodiesFrom(pages, 0) == Bytes(ps);
    ManyPackets(ps, 2, limit);
    PagesDeliver(pages, serial, 0, Fresh(limit), Encoded(pages), 0);
  }
}
