/** The streams the encoder writes are streams a seek can trust. */
module Seekable {
  import opened Crc
  import P = Page
  import opened Packets
  import S = Stream
  import opened Playback
  import opened Sequence
  import Scan
  import Landing
  import J = Jump
  import W = Writer
  import E = Encoder
  import opened Duration
  import D = Decoder

  // ---------------------------------------------------------------- pages as places

  /** Where page `i` begins. */
  function Off(pages: seq<P.Page>, i: nat): (o: nat)
    requires S.AllWritable(pages) && i <= |pages|
  {
    |S.Encoded(pages[..i])|
  }

  function RefOf(pages: seq<P.Page>, i: nat): (r: Scan.PageRef)
    requires S.AllWritable(pages) && i < |pages|
  {
    Scan.RefOf(pages[i], Off(pages, i), |P.Encode(pages[i])|)
  }

  function Refs(pages: seq<P.Page>, from: nat): (rs: seq<Scan.PageRef>)
    requires S.AllWritable(pages) && from <= |pages|
    ensures |rs| == |pages| - from
  {
    seq(|pages| - from, i requires 0 <= i < |pages| - from => RefOf(pages, from + i))
  }

  lemma Place(pages: seq<P.Page>, i: nat)
    requires S.AllWritable(pages) && i <= |pages|
    ensures Off(pages, i) <= |S.Encoded(pages)| && S.Encoded(pages)[Off(pages, i)..] == S.EncodedFrom(pages, i)
    ensures i == |pages| ==> Off(pages, i) == |S.Encoded(pages)|
    ensures i < |pages| ==> Off(pages, i + 1) == Off(pages, i) + |P.Encode(pages[i])|
  {
    hide P.Encode;
    S.EncodedSplits(pages, i);
    if i < |pages| {
      S.TakeOne(pages, i);
      assert S.AllWritable(pages[..i + 1]);
    } else {
      assert pages[..i] == pages;
    }
  }

  lemma Starts(pages: seq<P.Page>, i: nat)
    requires S.AllWritable(pages) && i < |pages|
    ensures S.EncodedFrom(pages, i) == P.Encode(pages[i]) + S.EncodedFrom(pages, i + 1)
  {
    hide P.Encode;
  }

  lemma PageThere(pages: seq<P.Page>, i: nat)
    requires S.AllWritable(pages) && i < |pages|
    ensures var src := S.Encoded(pages); var o := Off(pages, i);
            && o <= |src| && P.ParsePage(src[o..]) == P.Parsed(pages[i], |P.Encode(pages[i])|)
            && Scan.PageAt(src, o) == Scan.Found(RefOf(pages, i))
            && P.ReadPage(src, o) == (P.Read(pages[i]), Off(pages, i + 1))
  {
    hide P.Encode, P.ParsePage, P.ReadPage, S.Encoded, S.EncodedFrom, Off, P.Page.CompletesPacket;
    Place(pages, i);
    S.PageAt(pages, i, S.Encoded(pages), Off(pages, i));
    P.ReadIsParse(S.Encoded(pages), Off(pages, i));
    Starts(pages, i);
    P.ParseOfWritten(pages[i], S.EncodedFrom(pages, i + 1));
  }

  /** Packets that end on the first `i` pages. */
  function EndsBefore(pages: seq<P.Page>, i: nat): (n: nat)
    requires i <= |pages|
  {
    S.Ends(S.AllSegs(pages[..i]))
  }

  lemma EndsStep(pages: seq<P.Page>, i: nat)
    requires i < |pages|
    ensures EndsBefore(pages, i + 1) == EndsBefore(pages, i) + S.Ends(pages[i].segTable)
    ensures EndsBefore(pages, 0) == 0
  {
    hide S.Ends;
    S.TakeOne(pages, i);
    S.OnePageMore(pages[..i], pages[i]);
    S.EndsAppend(S.AllSegs(pages[..i]), pages[i].segTable);
    W.EmptyRun();
    assert pages[..0] == [];
  }

  lemma {:induction false} EndsGrow(pages: seq<P.Page>, i: nat, j: nat)
    requires i <= j <= |pages|
    ensures EndsBefore(pages, i) <= EndsBefore(pages, j)
    decreases j
  {
    hide EndsBefore;
    if i < j {
      EndsStep(pages, j - 1);
      EndsGrow(pages, i, j - 1);
    }
  }

  // ---------------------------------------------------------------- the reader, page by page

  /** The reader on reaching page `i`, its queue served. */
  function Reach(pages: seq<P.Page>, i: nat): (r: Reader)
    requires S.AllWritable(pages) && i <= |pages|
    ensures r.Valid() && r == J.Served(r)
    decreases i
  {
    if i == 0 then Fresh(STREAM_LIMIT) else J.Served(ProcessPage(Reach(pages, i - 1), pages[i - 1]).reader)
  }

  lemma ReachStep(pages: seq<P.Page>, i: nat)
    requires S.AllWritable(pages) && i < |pages|
    ensures Reach(pages, i + 1) == J.Served(ProcessPage(Reach(pages, i), pages[i]).reader)
  {
    hide ProcessPage;
  }

  lemma ReachStart(pages: seq<P.Page>)
    requires S.AllWritable(pages)
    ensures Reach(pages, 0) == Fresh(STREAM_LIMIT) && Off(pages, 0) == 0
  {
    assert pages[..0] == [];
  }

  /** All that is known of a chain that is the whole of a source. */
  ghost predicate Whole(pages: seq<P.Page>, serial: P.uint32) {
    && S.Chained(pages, serial) && S.AllWritable(pages)
    && OnChain(pages, serial, Fresh(STREAM_LIMIT), S.Encoded(pages), 0, 0)
  }

  lemma OnChainServed(pages: seq<P.Page>, serial: P.uint32, r: Reader, src: seq<byte>, off: nat, k: nat)
    requires OnChain(pages, serial, r, src, off, k)
    ensures OnChain(pages, serial, J.Served(r), src, off, k)
  {
    hide Segments, S.EncodedFrom, S.SegsFrom, S.BodiesFrom, P.Sum, S.OpenEnded, S.EndsOnce, Room;
  }

  lemma Idle(r: Reader)
    requires r == J.Served(r)
    ensures r.qi == |r.queue|
  {
  }

  lemma {:induction false} Reaches(pages: seq<P.Page>, serial: P.uint32, i: nat)
    requires Whole(pages, serial) && i <= |pages|
    ensures OnChain(pages, serial, Reach(pages, i), S.Encoded(pages), Off(pages, i), i)
    decreases i
  {
    hide OnChain, P.ReadPage, P.Encode, ProcessPage, S.Chained, S.Encoded, Reach, Off, RefOf, J.Served, P.ParsePage, Scan.PageAt;
    if i == 0 {
      ReachStart(pages);
    } else {
      Reaches(pages, serial, i - 1);
      ReachStep(pages, i - 1);
      Idle(Reach(pages, i - 1));
      ReadNext(pages, serial, Reach(pages, i - 1), S.Encoded(pages), Off(pages, i - 1), i - 1);
      PageThere(pages, i - 1);
      OnChainServed(pages, serial, ProcessPage(Reach(pages, i - 1), pages[i - 1]).reader, S.Encoded(pages), Off(pages, i), i);
    }
  }

  /** What reading page `i` does. */
  lemma Reads(pages: seq<P.Page>, serial: P.uint32, i: nat)
    requires Whole(pages, serial) && i < |pages|
    ensures var r := Reach(pages, i); var p := ProcessPage(r, pages[i]);
            && p.Done? && J.Served(p.reader) == Reach(pages, i + 1) && p.reader.qi == 0
            && |p.reader.queue| == S.Ends(pages[i].segTable)
            && p.reader.headers == (if S.Ends(pages[i].segTable) >= r.headers then 0 else r.headers - S.Ends(pages[i].segTable))
  {
    hide OnChain, P.ReadPage, P.Encode, ProcessPage, Segments, S.Ends, Reach;
    Reaches(pages, serial, i);
    Unread(pages, serial, Reach(pages, i), S.Encoded(pages), Off(pages, i), i);
    var r := Reach(pages, i);
    ReadNext(pages, serial, r, S.Encoded(pages), Off(pages, i), i);
    S.FollowPage(pages, serial, i, r);
    SegmentsEnd(pages[i].segTable, pages[i].body, r.partial, r.headers, r.limit);
    ReachStep(pages, i);
  }

  lemma Unread(pages: seq<P.Page>, serial: P.uint32, r: Reader, src: seq<byte>, off: nat, k: nat)
    requires OnChain(pages, serial, r, src, off, k) && k < |pages|
    ensures r.Valid() && S.Chained(pages, serial) && S.Following(pages, serial, k, r) && r.finalGranule == -1 && !r.sawEos
    ensures k > 0 ==> r.serialSet && r.serial == serial
    ensures Segments(pages[k].segTable, pages[k].body, r.partial, r.headers, r.limit).Cut?
  {
    hide P.ReadPage, P.Encode, S.EncodedFrom, S.OpenEnded, Room, Segments, P.Sum, S.EndsOnce;
    var pg := pages[k];
    S.FromMeasures(pages, k + 1);
    SegmentsAppend(pg.segTable, pg.body, S.SegsFrom(pages, k + 1), S.BodiesFrom(pages, k + 1), r.partial, r.headers, r.limit);
  }

  lemma AllRead(pages: seq<P.Page>, serial: P.uint32, r: Reader, src: seq<byte>, off: nat)
    requires OnChain(pages, serial, r, src, off, |pages|)
    ensures r.sawEos && r.finalGranule == LastGranule(pages) && pages != []
  {
    hide S.EncodedFrom, S.OpenEnded, S.Chained;
  }

  /** Both header packets have been counted off once they have ended. */
  lemma {:induction false} HeadersCounted(pages: seq<P.Page>, serial: P.uint32, i: nat)
    requires Whole(pages, serial) && i <= |pages|
    ensures Reach(pages, i).headers == if EndsBefore(pages, i) >= 2 then 0 else 2 - EndsBefore(pages, i)
    ensures Reach(pages, i).limit == STREAM_LIMIT
    decreases i
  {
    hide OnChain, ProcessPage, S.Ends, S.Chained, EndsBefore, Reach, S.Encoded;
    if i == 0 {
      NoneEnd(pages);
      ReachStart(pages);
    } else {
      HeadersCounted(pages, serial, i - 1);
      Reads(pages, serial, i - 1);
      EndsStep(pages, i - 1);
    }
  }

  lemma NoneEnd(pages: seq<P.Page>)
    ensures EndsBefore(pages, 0) == 0
  {
    assert pages[..0] == [];
  }

  // ---------------------------------------------------------------- opening

  lemma ReadsOne(pages: seq<P.Page>, serial: P.uint32, r: Reader, i: nat)
    requires Whole(pages, serial) && i < |pages| && r.Valid() && J.Served(r) == Reach(pages, i) && r.qi == |r.queue|
    ensures Off(pages, i) <= |S.Encoded(pages)| && Off(pages, i + 1) <= |S.Encoded(pages)|
    ensures var r' := ProcessPage(Reach(pages, i), pages[i]).reader;
            NextPacket(S.Encoded(pages), r, Off(pages, i)) == NextPacket(S.Encoded(pages), r', Off(pages, i + 1))
  {
    hide OnChain, P.ReadPage, ProcessPage, S.Chained, S.Encoded, Reach, Off, P.ParsePage, P.Encode;
    Reads(pages, serial, i);
    Reaches(pages, serial, i);
    Unread(pages, serial, Reach(pages, i), S.Encoded(pages), Off(pages, i), i);
    PageThere(pages, i);
    Place(pages, i);
    Place(pages, i + 1);
    J.ServedProcesses(r, pages[i]);
    hide Scan.PageAt;
  }

  /** The next packet to end. */
  lemma {:induction false} NextEnds(pages: seq<P.Page>, serial: P.uint32, r: Reader, i: nat, m: nat) returns (j: nat)
    requires Whole(pages, serial) && i < m <= |pages| && r.Valid() && J.Served(r) == Reach(pages, i) && r.qi == |r.queue|
    requires EndsBefore(pages, i) < EndsBefore(pages, m)
    ensures i <= j < m && EndsBefore(pages, j) == EndsBefore(pages, i) < EndsBefore(pages, j + 1)
    ensures Off(pages, i) <= |S.Encoded(pages)|
    ensures var (n, r', off') := NextPacket(S.Encoded(pages), r, Off(pages, i));
            && n.Got? && r'.qi == 1 && |r'.queue| == EndsBefore(pages, j + 1) - EndsBefore(pages, i)
            && J.Served(r') == Reach(pages, j + 1) && off' == Off(pages, j + 1)
    decreases m - i
  {
    hide NextPacket, OnChain, ProcessPage, S.Chained, S.Encoded, Reach, Off, EndsBefore, S.Ends;
    ReadsOne(pages, serial, r, i);
    Reads(pages, serial, i);
    EndsStep(pages, i);
    var r' := ProcessPage(Reach(pages, i), pages[i]).reader;
    if S.Ends(pages[i].segTable) > 0 {
      j := i;
      S.ServesQueue(S.Encoded(pages), r', Off(pages, i + 1));
    } else {
      if i + 1 == m { assert false; }
      j := NextEnds(pages, serial, r', i + 1, m);
    }
  }

  /** The pages the first two packets fill. */
  ghost predicate Headed(pages: seq<P.Page>, k: nat) {
    0 < k <= |pages| && EndsBefore(pages, k) == 2 && S.Ends(pages[k - 1].segTable) > 0
  }

  /** A page that ends a second packet is the last of those. */
  lemma LastOfHeaders(pages: seq<P.Page>, k: nat, j: nat)
    requires Headed(pages, k) && j < k && EndsBefore(pages, j + 1) >= 2
    ensures j + 1 == k && EndsBefore(pages, j + 1) == 2
  {
    hide EndsBefore, S.Ends;
    EndsGrow(pages, j + 1, k);
    if j + 1 < k {
      EndsGrow(pages, j + 1, k - 1);
      EndsStep(pages, k - 1);
    }
  }

  /** A decoder that opens such a stream stands at its first audio page, nothing queued. */
  lemma OpensAtAudio<T(!new)>(pages: seq<P.Page>, serial: P.uint32, k: nat, format: Format<T>)
    requires Whole(pages, serial) && Headed(pages, k)
    requires var o := Open(S.Encoded(pages), 0, format); o.Opened? && o.stream.head.streams <= 1
    ensures var o := Open(S.Encoded(pages), 0, format);
            J.Served(o.reader) == Reach(pages, k) && o.reader.qi == |o.reader.queue| && o.pos == Off(pages, k)
  {
    hide NextPacket, OnChain, S.Chained, S.Encoded, Reach, Off, EndsBefore, S.Ends;
    var src, r0 := S.Encoded(pages), Fresh(STREAM_LIMIT);
    NoneEnd(pages);
    ReachStart(pages);
    var j := NextEnds(pages, serial, r0, 0, k);
    var (n1, r1, p1) := NextPacket(src, r0, 0);
    HeadersCounted(pages, serial, j + 1);
    var o := Open(src, 0, format);
    assert AudioLimit(o.stream.head) == STREAM_LIMIT && r1.(limit := STREAM_LIMIT) == r1;
    var (n2, r2, p2) := NextPacket(src, r1, p1);
    assert o.reader == r2 && o.pos == p2;
    if EndsBefore(pages, j + 1) >= 2 {
      LastOfHeaders(pages, k, j);
      S.ServesQueue(src, r1, p1);
    } else {
      var j2 := NextEnds(pages, serial, r1, j + 1, k);
      LastOfHeaders(pages, k, j2);
    }
  }

  // ---------------------------------------------------------------- what was written

  /** The granules a closed writer has stamped its packets with. */
  function Granules(n: nat, frame: nat, final: int): (g: seq<int>)
    requires n > 0
  {
    [0, 0] + (W.Cumulative(E.Uniform(n - 1, frame)) + [final])
  }

  /** A closed writer's pages: two header packets that fill the first `n0`, then `sent`, each of
      `frame` samples, stamped with running totals but for the last, which is stamped `final`. */
  ghost predicate Recorded(pages: seq<P.Page>, serial: P.uint32, sent: seq<Packet>, frame: nat, final: int, n0: nat) {
    && Whole(pages, serial) && Headed(pages, n0) && sent != [] && EndsBefore(pages, |pages|) == |sent| + 2
    && (exists g: seq<P.int64> :: S.Stamped(pages, g) && g == Granules(|sent|, frame, final))
    && LastGranule(pages) == final && Lasting(|sent| - 1, frame) <= final <= Lasting(|sent|, frame)
    && Off(pages, n0) <= |S.Encoded(pages)| && AllPackets(S.Encoded(pages), Reach(pages, n0), Off(pages, n0)).0 == sent
  }

  /** There are audio pages, and the last page ends a packet. */
  lemma AudioPages(pages: seq<P.Page>, serial: P.uint32, sent: seq<Packet>, frame: nat, final: int, n0: nat)
    requires Recorded(pages, serial, sent, frame, final, n0)
    ensures 0 < n0 < |pages| && EndsBefore(pages, n0) == 2 && EndsBefore(pages, |pages| - 1) < |sent| + 2
  {
    hide OnChain, S.Chained, S.Encoded, Reach, Off, EndsBefore, S.Ends, AllPackets, S.Stamped, Granules, Lasting;
    LastEnds(pages, serial);
    EndsStep(pages, |pages| - 1);
  }

  lemma LastEnds(pages: seq<P.Page>, serial: P.uint32)
    requires Whole(pages, serial)
    ensures pages != [] && S.Ends(pages[|pages| - 1].segTable) > 0
  {
    hide *;
    LastCloses(pages, serial);
    ClosedEnds(pages[|pages| - 1]);
  }

  lemma LastCloses(pages: seq<P.Page>, serial: P.uint32)
    requires Whole(pages, serial)
    ensures pages != [] && pages[|pages| - 1].Writable() && !S.OpenEnded(pages[|pages| - 1])
  {
    hide S.EncodedFrom, S.SegsFrom, S.BodiesFrom, P.Sum, Segments, S.Following, S.Chained, S.OpenEnded, S.Encoded, P.Page.Writable, P.Page.Has;
  }

  lemma ClosedEnds(pg: P.Page)
    requires pg.Writable() && !S.OpenEnded(pg)
    ensures S.Ends(pg.segTable) > 0
  {
    hide S.Ends, P.Sum;
    S.EndsIfCompletes(pg);
    assert pg.segTable[|pg.segTable| - 1] < P.MAX_SEGMENT;
  }

  function Constant(frame: nat): (f: Packet -> nat) { (p: Packet) => frame }

  lemma {:induction false} ConstantTotal(ps: seq<Packet>, frame: nat)
    ensures J.Total(ps, Constant(frame)) == Lasting(|ps|, frame)
  {
    if ps != [] {
      ConstantTotal(ps[1..], frame);
      OneMoreTimes(|ps| - 1, frame);
    }
  }

  /** The duration of the audio packets that end before page `i`. */
  function Before(pages: seq<P.Page>, i: nat, frame: nat): (n: nat)
    requires i <= |pages|
  {
    Lasting(Past(EndsBefore(pages, i), 2), frame)
  }

  lemma LastingAdds(a: nat, b: nat, frame: nat)
    ensures Lasting(a + b, frame) == Lasting(a, frame) + Lasting(b, frame)
  {
    SumTimes(a, b, frame);
  }

  /** What is left to read at an audio page is what has not ended before it; so is what ends on it. */
  lemma {:induction false} AheadOf(pages: seq<P.Page>, serial: P.uint32, sent: seq<Packet>, frame: nat, final: int, n0: nat, i: nat)
    requires Recorded(pages, serial, sent, frame, final, n0) && n0 <= i < |pages|
    ensures Off(pages, i) <= |S.Encoded(pages)|
    ensures forall p | p in AllPackets(S.Encoded(pages), Reach(pages, i), Off(pages, i)).0 :: p in sent
    ensures forall p | p in ProcessPage(Reach(pages, i), pages[i]).reader.queue :: p in sent
    decreases i
  {
    hide OnChain, S.Chained, S.Encoded, Reach, Off, EndsBefore, S.Ends, AllPackets, S.Stamped, Granules, Lasting, ProcessPage, Headed;
    Place(pages, i);
    if i > n0 { AheadOf(pages, serial, sent, frame, final, n0, i - 1); }
    PageServes(pages, serial, i);
    if i > n0 { PageServes(pages, serial, i - 1); }
  }

  lemma PageServes(pages: seq<P.Page>, serial: P.uint32, i: nat)
    requires Whole(pages, serial) && i < |pages|
    ensures Off(pages, i) <= |S.Encoded(pages)| && Off(pages, i + 1) <= |S.Encoded(pages)|
    ensures AllPackets(S.Encoded(pages), Reach(pages, i), Off(pages, i)).0
            == ProcessPage(Reach(pages, i), pages[i]).reader.queue + AllPackets(S.Encoded(pages), Reach(pages, i + 1), Off(pages, i + 1)).0
  {
    hide OnChain, P.ReadPage, ProcessPage, S.Chained, S.Encoded, Reach, Off, P.ParsePage, P.Encode, AllPackets, Scan.PageAt;
    var src := S.Encoded(pages);
    Reads(pages, serial, i);
    Reaches(pages, serial, i);
    Unread(pages, serial, Reach(pages, i), src, Off(pages, i), i);
    PageThere(pages, i);
    Place(pages, i);
    Place(pages, i + 1);
    var r' := ProcessPage(Reach(pages, i), pages[i]).reader;
    Idle(Reach(pages, i));
    S.ReadThrough(src, Reach(pages, i), Off(pages, i), pages[i], Off(pages, i + 1), r');
    S.Drained(src, r', Off(pages, i + 1));
    assert r'.queue[0..] == r'.queue;
    J.ServedAll(src, r'.(qi := |r'.queue|), Off(pages, i + 1));
  }

  // ---------------------------------------------------------------- the link a seek can trust

  function LinkOf(pages: seq<P.Page>, serial: P.uint32, sent: seq<Packet>, frame: nat, final: int, n0: nat): (k: J.Link)
    requires S.AllWritable(pages) && n0 <= |pages|
  {
    J.Link(Off(pages, n0), |S.Encoded(pages)|, serial, Refs(pages, n0), Elements(sent), Constant(frame),
           J.Trail(Readers(pages, n0), Totals(pages, n0, frame)), true, final)
  }

  function Readers(pages: seq<P.Page>, n0: nat): (rs: seq<Reader>)
    requires S.AllWritable(pages) && n0 <= |pages|
    ensures |rs| == |pages| - n0 + 1 && forall i | 0 <= i < |rs| :: rs[i] == Reach(pages, n0 + i)
  {
    hide Reach;
    seq(|pages| - n0 + 1, i requires 0 <= i < |pages| - n0 + 1 => Reach(pages, n0 + i))
  }

  function Totals(pages: seq<P.Page>, n0: nat, frame: nat): (ts: seq<nat>)
    requires n0 <= |pages|
    ensures |ts| == |pages| - n0 + 1 && forall i | 0 <= i < |ts| :: ts[i] == Before(pages, n0 + i, frame)
  {
    hide Before;
    seq<nat>(|pages| - n0 + 1, i requires 0 <= i < |pages| - n0 + 1 => Before(pages, n0 + i, frame))
  }

  /** No page of another stream hides in the audio: what parses as a page there is one of these. */
  ghost predicate NoOther(pages: seq<P.Page>, n0: nat)
    requires S.AllWritable(pages) && n0 <= |pages|
  {
    forall o | Off(pages, n0) <= o < |S.Encoded(pages)| && Scan.PageAt(S.Encoded(pages), o).Found? :: exists i :: n0 <= i < |pages| && Off(pages, i) == o
  }

  lemma RefAt(pages: seq<P.Page>, serial: P.uint32, n0: nat, i: nat)
    requires Whole(pages, serial) && n0 + i < |pages|
    ensures var r := Refs(pages, n0)[i];
            && Scan.PageAt(S.Encoded(pages), r.off) == Scan.Found(r) && r.serial == serial && r.off == Off(pages, n0 + i)
            && r.off == Landing.From(Off(pages, n0), Refs(pages, n0), i) && r.end == Off(pages, n0 + i + 1) <= |S.Encoded(pages)|
            && r.granule == pages[n0 + i].granule && (r.hasGranule <==> pages[n0 + i].granule >= 0 && pages[n0 + i].CompletesPacket())
  {
    hide P.Encode, P.ParsePage, P.ReadPage, S.Encoded, Off, Scan.PageAt, OnChain, P.Page.CompletesPacket, S.OpenEnded;
    PageThere(pages, n0 + i);
    Place(pages, n0 + i);
    Place(pages, n0 + i + 1);
    if i > 0 {
      Place(pages, n0 + i - 1);
      assert Refs(pages, n0)[i - 1] == RefOf(pages, n0 + i - 1);
    }
    SerialOf(pages, serial, n0 + i);
  }

  lemma SerialOf(pages: seq<P.Page>, serial: P.uint32, i: nat)
    requires S.Chained(pages, serial) && i < |pages|
    ensures pages[i].serial == serial
  {
    hide S.OpenEnded;
  }

  /** Granules of audio pages but the last: running totals. */
  lemma GranuleAt(pages: seq<P.Page>, serial: P.uint32, sent: seq<Packet>, frame: nat, final: int, n0: nat, i: nat)
    requires Recorded(pages, serial, sent, frame, final, n0) && n0 <= i < |pages| - 1
    ensures pages[i].CompletesPacket() ==> pages[i].granule == Before(pages, i + 1, frame)
    ensures !pages[i].CompletesPacket() ==> pages[i].granule == -1
  {
    hide OnChain, S.Chained, S.Encoded, Reach, Off, S.Ends, AllPackets, Headed, S.AllSegs, W.Cumulative, W.Total, E.Uniform, Lasting, P.Page.CompletesPacket;
    var g: seq<P.int64> :| S.Stamped(pages, g) && g == Granules(|sent|, frame, final);
    if pages[i].CompletesPacket() {
      StampAt(pages, g, i);
      S.EndsIfCompletes(pages[i]);
      EndsStep(pages, i);
      AudioPages(pages, serial, sent, frame, final, n0);
      EndsGrow(pages, n0, i);
      EndsGrow(pages, i + 1, |pages| - 1);
      var m := EndsBefore(pages, i + 1) - 3;
      GranuleIs(|sent|, frame, final, m);
    } else {
      StampAt(pages, g, i);
    }
  }

  lemma StampAt(pages: seq<P.Page>, g: seq<P.int64>, i: nat)
    requires S.Stamped(pages, g) && i < |pages|
    ensures if pages[i].CompletesPacket() then 0 < EndsBefore(pages, i + 1) <= |g| && pages[i].granule == g[EndsBefore(pages, i + 1) - 1]
            else pages[i].granule == -1
  {
    hide S.Ends, S.AllSegs, P.Page.CompletesPacket;
  }

  lemma GranuleIs(n: nat, frame: nat, final: int, m: nat)
    requires m + 1 < n
    ensures |Granules(n, frame, final)| == n + 2 && Granules(n, frame, final)[m + 2] == Lasting(m + 1, frame)
  {
    hide W.Cumulative, W.Total, E.Uniform;
    UniformFront(n - 1, frame, m);
    W.CumulativeAt(E.Uniform(n - 1, frame), m);
    E.UniformTotal(m + 1, frame);
  }

  lemma UniformFront(n: nat, frame: nat, m: nat)
    requires m < n
    ensures |E.Uniform(n, frame)| == n && E.Uniform(n, frame)[..m + 1] == E.Uniform(m + 1, frame)
  {
  }

  /** One page of it, as the link counts. */
  lemma PageCounts(pages: seq<P.Page>, serial: P.uint32, sent: seq<Packet>, frame: nat, final: int, n0: nat, i: nat)
    requires Recorded(pages, serial, sent, frame, final, n0) && n0 <= i < |pages|
    ensures J.Passes(S.Encoded(pages), Off(pages, i), Reach(pages, i), Reach(pages, i + 1), Before(pages, i, frame), Before(pages, i + 1, frame),
                     Elements(sent), Constant(frame))
  {
    hide OnChain, S.Chained, S.Encoded, Reach, Off, S.Ends, AllPackets, Headed, Lasting, P.ParsePage, P.ReadPage, P.Encode, ProcessPage, Scan.PageAt, S.Stamped, Granules,
      EndsBefore;
    AudioPages(pages, serial, sent, frame, final, n0);
    EndsGrow(pages, n0, i);
    PageThere(pages, i);
    Reads(pages, serial, i);
    EndsStep(pages, i);
    AheadOf(pages, serial, sent, frame, final, n0, i);
    var queue := ProcessPage(Reach(pages, i), pages[i]).reader.queue;
    ConstantTotal(queue, frame);
    LastingAdds(EndsBefore(pages, i) - 2, |queue|, frame);
    Occur(sent);
  }

  lemma LaidOut(pages: seq<P.Page>, serial: P.uint32, sent: seq<Packet>, frame: nat, final: int, n0: nat)
    requires Recorded(pages, serial, sent, frame, final, n0) && NoOther(pages, n0)
    ensures Landing.Layout(S.Encoded(pages), Off(pages, n0), |S.Encoded(pages)|, serial, Refs(pages, n0))
  {
    hide OnChain, S.Chained, S.Encoded, Reach, Off, S.Ends, AllPackets, Headed, Lasting, Scan.PageAt, S.Stamped, Granules, EndsBefore, Refs, Recorded, Landing.From, NoOther;
    AudioPages(pages, serial, sent, frame, final, n0);
    IsWhole(pages, serial, sent, frame, final, n0);
    InRow(pages, serial, n0);
    Ascending(pages, serial, sent, frame, final, n0);
    OnlyThese(pages, serial, n0);
  }

  lemma IsWhole(pages: seq<P.Page>, serial: P.uint32, sent: seq<Packet>, frame: nat, final: int, n0: nat)
    requires Recorded(pages, serial, sent, frame, final, n0)
    ensures Whole(pages, serial)
  {
    hide Whole;
  }

  lemma InRow(pages: seq<P.Page>, serial: P.uint32, n0: nat)
    requires Whole(pages, serial) && n0 < |pages|
    ensures var refs := Refs(pages, n0); var a := Off(pages, n0);
            && |refs| == |pages| - n0 && Landing.From(a, refs, |refs|) == |S.Encoded(pages)|
            && forall i | 0 <= i < |refs| :: Scan.PageAt(S.Encoded(pages), refs[i].off) == Scan.Found(refs[i]) && refs[i].serial == serial
                                             && refs[i].off == Landing.From(a, refs, i) && refs[i].end <= |S.Encoded(pages)|
  {
    hide OnChain, S.Chained, S.Encoded, Off, Scan.PageAt, Refs, RefOf;
    Place(pages, |pages|);
    var refs := Refs(pages, n0);
    forall i | 0 <= i < |refs|
      ensures Scan.PageAt(S.Encoded(pages), refs[i].off) == Scan.Found(refs[i]) && refs[i].serial == serial
              && refs[i].off == Landing.From(Off(pages, n0), refs, i) && refs[i].end <= |S.Encoded(pages)|
    {
      RefAt(pages, serial, n0, i);
    }
    RefAt(pages, serial, n0, |refs| - 1);
  }

  lemma Ascending(pages: seq<P.Page>, serial: P.uint32, sent: seq<Packet>, frame: nat, final: int, n0: nat)
    requires Recorded(pages, serial, sent, frame, final, n0) && n0 < |pages|
    ensures var refs := Refs(pages, n0); forall i, j | 0 <= i < j < |refs| && refs[i].hasGranule && refs[j].hasGranule :: refs[i].granule <= refs[j].granule
  {
    hide OnChain, S.Chained, S.Encoded, Off, Scan.PageAt, Refs, RefOf, Recorded;
    IsWhole(pages, serial, sent, frame, final, n0);
    var refs := Refs(pages, n0);
    forall i, j | 0 <= i < j < |refs| && refs[i].hasGranule && refs[j].hasGranule ensures refs[i].granule <= refs[j].granule {
      RefAt(pages, serial, n0, i);
      RefAt(pages, serial, n0, j);
      Rises(pages, serial, sent, frame, final, n0, n0 + i, n0 + j);
    }
  }

  lemma OnlyThese(pages: seq<P.Page>, serial: P.uint32, n0: nat)
    requires Whole(pages, serial) && n0 < |pages| && NoOther(pages, n0)
    ensures var refs := Refs(pages, n0);
            forall o | Off(pages, n0) <= o < |S.Encoded(pages)| && Scan.PageAt(S.Encoded(pages), o).Found? :: exists i :: 0 <= i < |refs| && refs[i].off == o
  {
    hide OnChain, S.Chained, S.Encoded, Off, Scan.PageAt, Refs, RefOf;
    var refs := Refs(pages, n0);
    forall o | Off(pages, n0) <= o < |S.Encoded(pages)| && Scan.PageAt(S.Encoded(pages), o).Found? ensures exists i :: 0 <= i < |refs| && refs[i].off == o {
      var i :| n0 <= i < |pages| && Off(pages, i) == o;
      RefAt(pages, serial, n0, i - n0);
    }
  }

  lemma Rises(pages: seq<P.Page>, serial: P.uint32, sent: seq<Packet>, frame: nat, final: int, n0: nat, i: nat, j: nat)
    requires Recorded(pages, serial, sent, frame, final, n0) && n0 <= i < j < |pages|
    requires pages[i].CompletesPacket() && pages[j].CompletesPacket()
    ensures pages[i].granule <= pages[j].granule
  {
    hide OnChain, S.Chained, S.Encoded, Reach, Off, S.Ends, AllPackets, Headed, S.Stamped, Granules, EndsBefore, P.Page.CompletesPacket;
    AudioPages(pages, serial, sent, frame, final, n0);
    GranuleAt(pages, serial, sent, frame, final, n0, i);
    EndsGrow(pages, n0, i + 1);
    EndsGrow(pages, i + 1, j);
    EndsGrow(pages, j, j + 1);
    if j < |pages| - 1 {
      GranuleAt(pages, serial, sent, frame, final, n0, j);
      Monotone(EndsBefore(pages, i + 1) - 2, EndsBefore(pages, j + 1) - 2, frame);
    } else {
      Monotone(EndsBefore(pages, i + 1) - 2, |sent| - 1, frame);
    }
  }

  lemma Follows(pages: seq<P.Page>, serial: P.uint32, sent: seq<Packet>, frame: nat, final: int, n0: nat)
    requires Recorded(pages, serial, sent, frame, final, n0) && NoOther(pages, n0)
    ensures var k := LinkOf(pages, serial, sent, frame, final, n0);
            J.Follows(S.Encoded(pages), k.a, k.b, serial, k.refs, k.packets, k.dur, k.trail)
  {
    hide OnChain, S.Chained, S.Encoded, Reach, Off, S.Ends, AllPackets, Headed, Scan.PageAt, S.Stamped, Granules, EndsBefore, P.Page.CompletesPacket, Refs, Readers, Totals,
      J.Passes, Landing.Layout, NoOther, Before;
    AudioPages(pages, serial, sent, frame, final, n0);
    LaidOut(pages, serial, sent, frame, final, n0);
    Reaches(pages, serial, n0);
    Unread(pages, serial, Reach(pages, n0), S.Encoded(pages), Off(pages, n0), n0);
    HeadersCounted(pages, serial, n0);
    NoneBefore(pages, n0, frame);
    var k := LinkOf(pages, serial, sent, frame, final, n0);
    assert k.trail.readers[0] == Reach(pages, n0) && k.trail.totals[0] == Before(pages, n0, frame);
    forall i | 0 <= i < |k.refs|
      ensures J.Passes(S.Encoded(pages), k.refs[i].off, k.trail.readers[i], k.trail.readers[i + 1], k.trail.totals[i], k.trail.totals[i + 1], k.packets, k.dur)
    {
      RefAt(pages, serial, n0, i);
      PageCounts(pages, serial, sent, frame, final, n0, n0 + i);
      assert k.trail.readers[i + 1] == Reach(pages, n0 + i + 1);
    }
  }

  lemma NoneBefore(pages: seq<P.Page>, n0: nat, frame: nat)
    requires n0 <= |pages| && EndsBefore(pages, n0) == 2
    ensures Before(pages, n0, frame) == 0
  {
    hide EndsBefore;
  }

  /** Its granules tell the truth. */
  lemma Trusted(pages: seq<P.Page>, serial: P.uint32, sent: seq<Packet>, frame: nat, final: int, n0: nat)
    requires Recorded(pages, serial, sent, frame, final, n0)
    ensures var k := LinkOf(pages, serial, sent, frame, final, n0); J.Truthful(k.refs, k.trail, true, final)
  {
    hide OnChain, S.Chained, S.Encoded, Reach, Off, S.Ends, AllPackets, Headed, S.Stamped, Granules, EndsBefore, P.Page.CompletesPacket, Refs, Readers, Totals;
    AudioPages(pages, serial, sent, frame, final, n0);
    var k := LinkOf(pages, serial, sent, frame, final, n0);
    var refs, t := k.refs, k.trail;
    forall i | 0 < i < |refs| ensures !t.readers[i].sawEos && t.readers[i].finalGranule == -1 {
      PageTrusted(pages, serial, sent, frame, final, n0, i - 1);
    }
    forall i | 0 <= i < |refs| - 1 && refs[i].hasGranule ensures refs[i].granule == t.totals[i + 1] {
      PageTrusted(pages, serial, sent, frame, final, n0, i);
    }
    EndTrusted(pages, serial, sent, frame, final, n0);
  }

  lemma PageTrusted(pages: seq<P.Page>, serial: P.uint32, sent: seq<Packet>, frame: nat, final: int, n0: nat, i: nat)
    requires Recorded(pages, serial, sent, frame, final, n0) && n0 + i < |pages| - 1
    ensures var k := LinkOf(pages, serial, sent, frame, final, n0);
            && i + 1 < |k.refs| && !k.trail.readers[i + 1].sawEos && k.trail.readers[i + 1].finalGranule == -1
            && (k.refs[i].hasGranule ==> k.refs[i].granule == k.trail.totals[i + 1])
  {
    hide OnChain, S.Chained, S.Encoded, Reach, Off, S.Ends, AllPackets, Headed, S.Stamped, Granules, EndsBefore, P.Page.CompletesPacket, Refs, Readers, Totals;
    var k := LinkOf(pages, serial, sent, frame, final, n0);
    RefAt(pages, serial, n0, i);
    GranuleAt(pages, serial, sent, frame, final, n0, n0 + i);
    Reaches(pages, serial, n0 + i + 1);
    Unread(pages, serial, Reach(pages, n0 + i + 1), S.Encoded(pages), Off(pages, n0 + i + 1), n0 + i + 1);
    assert k.trail.readers[i + 1] == Reach(pages, n0 + i + 1);
  }

  lemma EndTrusted(pages: seq<P.Page>, serial: P.uint32, sent: seq<Packet>, frame: nat, final: int, n0: nat)
    requires Recorded(pages, serial, sent, frame, final, n0) && n0 < |pages|
    ensures var k := LinkOf(pages, serial, sent, frame, final, n0); var n := |k.refs|;
            && n > 0 && k.trail.readers[n].sawEos && k.trail.readers[n].finalGranule == final && k.trail.totals[n - 1] <= final
  {
    hide OnChain, S.Chained, S.Encoded, Reach, Off, S.Ends, AllPackets, Headed, S.Stamped, Granules, EndsBefore, P.Page.CompletesPacket, Refs, Readers, Totals;
    var k := LinkOf(pages, serial, sent, frame, final, n0);
    AudioPages(pages, serial, sent, frame, final, n0);
    Reaches(pages, serial, |pages|);
    AllRead(pages, serial, Reach(pages, |pages|), S.Encoded(pages), Off(pages, |pages|));
    assert k.trail.readers[|k.refs|] == Reach(pages, |pages|);
    assert k.trail.totals[|k.refs| - 1] == Before(pages, |pages| - 1, frame);
    EndsGrow(pages, n0, |pages| - 1);
    Monotone(EndsBefore(pages, |pages| - 1) - 2, |sent| - 1, frame);
  }

  /** So the stream holds what its index says. */
  lemma Describes<T(!new)>(pages: seq<P.Page>, serial: P.uint32, sent: seq<Packet>, frame: nat, final: int, n0: nat, o: Opening<T>, idx: D.Index)
    requires Recorded(pages, serial, sent, frame, final, n0) && NoOther(pages, n0)
    requires o.Opened? && o.stream.src == S.Encoded(pages) && o.pos == Off(pages, n0) && o.reader.qi == |o.reader.queue| && J.Served(o.reader) == Reach(pages, n0)
    requires o.stream.head.channels > 0 && Framed(o.stream.codec, o.stream.head.channels, Elements(sent), frame) && final >= o.stream.head.preSkip
    requires idx == D.Index(Off(pages, n0), |S.Encoded(pages)|, final - o.stream.head.preSkip, true)
    ensures D.Describes(o.stream, o, idx, LinkOf(pages, serial, sent, frame, final, n0))
  {
    hide OnChain, S.Chained, S.Encoded, Reach, Off, S.Ends, AllPackets, Headed, S.Stamped, Granules, EndsBefore, P.Page.CompletesPacket, Refs, Readers, Totals, J.Follows, J.Truthful,
      Framed, J.Timed, NoOther;
    AudioPages(pages, serial, sent, frame, final, n0);
    Follows(pages, serial, sent, frame, final, n0);
    Trusted(pages, serial, sent, frame, final, n0);
    FramedIsTimed(o.stream.codec, o.stream.head.channels, Elements(sent), frame);
    Reaches(pages, serial, n0);
    Unread(pages, serial, Reach(pages, n0), S.Encoded(pages), Off(pages, n0), n0);
    var k := LinkOf(pages, serial, sent, frame, final, n0);
    assert k.trail.readers[0] == Reach(pages, n0) && k.trail.totals[|k.refs|] == Before(pages, |pages|, frame);
    assert Before(pages, |pages|, frame) == Lasting(|sent|, frame);
  }

  lemma FramedIsTimed<T(!new)>(codec: Codec<T>, channels: nat, packets: set<Packet>, frame: nat)
    requires channels > 0 && Framed(codec, channels, packets, frame)
    ensures J.Timed(codec, channels, packets, Constant(frame))
  {
    hide J.Reachable, PerChannel;
  }

  // ---------------------------------------------------------------- the encoder's stream

  /** Packets not yet read at page `i` are all but those that end before it. */
  lemma {:induction false} AllFrom(pages: seq<P.Page>, serial: P.uint32, i: nat)
    requires Whole(pages, serial) && i <= |pages|
    ensures Off(pages, i) <= |S.Encoded(pages)|
    ensures var all := AllPackets(S.Encoded(pages), Fresh(STREAM_LIMIT), 0).0;
            EndsBefore(pages, i) <= |all| && AllPackets(S.Encoded(pages), Reach(pages, i), Off(pages, i)).0 == all[EndsBefore(pages, i)..]
    decreases i
  {
    hide OnChain, S.Chained, S.Encoded, Reach, Off, EndsBefore, S.Ends, AllPackets, ProcessPage;
    Place(pages, i);
    NoneEnd(pages);
    ReachStart(pages);
    if i > 0 {
      AllFrom(pages, serial, i - 1);
      PageServes(pages, serial, i - 1);
      Reads(pages, serial, i - 1);
      EndsStep(pages, i - 1);
    }
  }

  /** Two packets fill the first pages: the last of these ends the second. */
  lemma HeadersFill(pages: seq<P.Page>, packets: seq<Packet>, n0: nat)
    requires S.AllWritable(pages) && |packets| >= 2 && W.Fills(pages, packets, n0, 2)
    ensures Headed(pages, n0)
  {
    hide S.Ends, S.AllSegs, Laces;
    var front := pages[..n0];
    S.EndsOfLaces(packets[..2]);
    LacesClose(packets[..2]);
    NoPagesNoSegments(front);
    LastSegments(front);
    assert front[n0 - 1] == pages[n0 - 1];
    S.EndsIfCompletes(pages[n0 - 1]);
  }

  lemma NoPagesNoSegments(pages: seq<P.Page>)
    ensures pages == [] ==> S.AllSegs(pages) == []
  {
  }

  lemma RecordedNow(pages: seq<P.Page>, serial: P.uint32, head: Packet, tags: Packet, sent: seq<Packet>, frame: nat, final: int, granules: seq<P.int64>, n0: nat)
    requires S.Chained(pages, serial) && S.EndsOnce(pages) && !S.OpenEnded(pages[|pages| - 1]) && pages[|pages| - 1].granule == final >= 0
    requires S.AllWritable(pages) && sent != []
    requires var ps := [head, tags] + sent;
             && S.AllSegs(pages) == Laces(ps) && S.AllBodies(pages) == Bytes(ps) && Fits(ps, 2, STREAM_LIMIT) && W.Fills(pages, ps, n0, 2)
    requires S.Stamped(pages, granules) && granules == Granules(|sent|, frame, final)
    requires Lasting(|sent| - 1, frame) <= final <= Lasting(|sent|, frame)
    ensures Recorded(pages, serial, sent, frame, final, n0)
  {
    hide S.Stamped, S.AllSegs, S.AllBodies, S.Encoded, Laces, Bytes, Fits, S.Ends, W.Fills, S.Chained, S.EndsOnce, S.OpenEnded, OnChain, Reach, Off, AllPackets, Granules, Lasting,
      Headed, KeptAll;
    var ps := [head, tags] + sent;
    AtTheStart(pages, serial, ps);
    HeadersFill(pages, ps, n0);
    S.EndsOfLaces(ps);
    assert pages[..|pages|] == pages;
    TwoEnded(pages, n0);
    AllFrom(pages, serial, n0);
    KeptAudio(ps, 2);
    assert ps[2..] == sent;
  }

  lemma TwoEnded(pages: seq<P.Page>, n0: nat)
    requires Headed(pages, n0)
    ensures n0 <= |pages| && EndsBefore(pages, n0) == 2
  {
    hide EndsBefore;
  }

  /** A closed encoder's pages are a recording of its packets. */
  lemma IsRecorded<T(!new)>(e: E.Encoder<T>)
    requires e.Valid() && e.closed && e.intact
    ensures e.config.Valid() && e.cw.final == E.PRE_SKIP + E.Length48k(e.config, |e.input|)
    ensures Recorded(e.cw.sw.pages, e.cw.sw.serial, e.cw.sent, e.config.Duration(), e.cw.final, e.cw.sw.audioPage)
    ensures e.cw.sw.sink == S.Encoded(e.cw.sw.pages)
  {
    hide *;
    var pages, ps := Written(e);
    var claim, frame := Claims(e);
    Stamps(e);
    W.ChainWritable(pages, e.cw.sw.serial);
    OneFrameLess(|e.cw.sent|, frame, claim);
    NotBelowZero(e);
    RecordedNow(pages, e.cw.sw.serial, e.cw.head, e.cw.tags, e.cw.sent, frame, claim, e.cw.sw.granules, e.cw.sw.audioPage);
  }

  lemma NotBelowZero<T(!new)>(e: E.Encoder<T>)
    requires e.config.Valid()
    ensures E.PRE_SKIP + E.Length48k(e.config, |e.input|) >= 0
  {
  }

  lemma OneFrameLess(n: nat, frame: nat, claim: int)
    requires n > 0 && Lasting(n, frame) <= claim + frame
    ensures Lasting(n - 1, frame) <= claim
  {
    OneMoreTimes(n - 1, frame);
  }

  /** The granules its packets were placed with, and the pages its headers fill. */
  lemma Stamps<T(!new)>(e: E.Encoder<T>)
    requires e.Valid() && e.closed && e.intact
    ensures e.config.Valid() && e.cw.sent != [] && S.Stamped(e.cw.sw.pages, e.cw.sw.granules)
    ensures e.cw.sw.granules == Granules(|e.cw.sent|, e.config.Duration(), e.cw.final)
    ensures W.Fills(e.cw.sw.pages, [e.cw.head, e.cw.tags] + e.cw.sent, e.cw.sw.audioPage, 2)
  {
    ClosedWriter(e);
    hide E.Coding, W.Cumulative, W.Total, E.Uniform, E.Frames, E.Silences, E.Length48k, E.Config.Valid, E.Config.Duration, E.Config.Scale, E.Config.FrameBytes,
      E.Config.FrameLen, E.Config.SampleBytes, E.Config.ScratchLen, E.Bounded, S.Stamped, W.Fills, W.Emitted;
    E.UniformLess(|e.cw.sent|, e.config.Duration());
  }

  lemma Lengths<T(!new)>(e: E.Encoder<T>, h: Head)
    requires e.config.Valid() && h.preSkip == E.PRE_SKIP
    ensures E.PRE_SKIP + E.Length48k(e.config, |e.input|) >= h.preSkip
    ensures E.PRE_SKIP + E.Length48k(e.config, |e.input|) - h.preSkip == E.Length48k(e.config, |e.input|)
  {
  }

  /** The index of a closed encoder's stream: its audio, and the input's length at 48 kHz. */
  ghost function IndexOf<T(!new)>(e: E.Encoder<T>): (idx: D.Index)
    requires e.config.Valid() && S.AllWritable(e.cw.sw.pages) && e.cw.sw.audioPage <= |e.cw.sw.pages|
    reads e, e.cw, e.cw.sw
  {
    D.Index(Off(e.cw.sw.pages, e.cw.sw.audioPage), |e.cw.sw.sink|, E.Length48k(e.config, |e.input|), true)
  }

  /** A decoder for what an encoder wrote: it takes the headers, and every packet of the stream
      decodes to a frame's length. */
  ghost predicate Matches<T(!new), U(!new)>(e: E.Encoder<T>, format: Format<U>, h: Head, codec: Codec<U>)
    requires e.config.Valid()
    reads e, e.cw
  {
    && format.head(Kept(e.cw.head, 2)) == Some(h) && format.tags(Kept(e.cw.tags, 1)) && format.build(h) == Some(codec)
    && h.preSkip == E.PRE_SKIP && h.channels == e.config.channels && h.streams <= 1 && h.channels > 0
    && Framed(codec, h.channels, Elements(e.cw.sent), e.config.Duration())
  }

  /** What the encoder wrote, with its index, is a stream that holds what its index says. */
  lemma IsDescribed<T(!new), U(!new)>(e: E.Encoder<T>, format: Format<U>, h: Head, codec: Codec<U>) returns (k: J.Link)
    requires e.Valid() && e.closed && e.intact && e.config.Valid() && Matches(e, format, h, codec)
    requires S.AllWritable(e.cw.sw.pages) && e.cw.sw.audioPage <= |e.cw.sw.pages| && NoOther(e.cw.sw.pages, e.cw.sw.audioPage)
    ensures var o := Open(e.cw.sw.sink, 0, format);
            o.Opened? && o.stream == Stream(e.cw.sw.sink, h, codec) && D.Describes(o.stream, o, IndexOf(e), k)
  {
    hide *;
    var pages, ps := Written(e);
    var n0, frame, claim := e.cw.sw.audioPage, e.config.Duration(), e.cw.final;
    Taken(e, format, h, codec);
    IsRecorded(e);
    Lengths(e, h);
    var j := StreamOpens(pages, e.cw.sw.serial, ps, format, h, codec);
    IsWhole(pages, e.cw.sw.serial, e.cw.sent, frame, claim, n0);
    IsHeaded(pages, e.cw.sw.serial, e.cw.sent, frame, claim, n0);
    OpensAtAudio(pages, e.cw.sw.serial, n0, format);
    IndexIs(e);
    Describes(pages, e.cw.sw.serial, e.cw.sent, frame, claim, n0, Open(e.cw.sw.sink, 0, format), IndexOf(e));
    k := LinkOf(pages, e.cw.sw.serial, e.cw.sent, frame, claim, n0);
  }

  lemma Taken<T(!new), U(!new)>(e: E.Encoder<T>, format: Format<U>, h: Head, codec: Codec<U>)
    requires e.config.Valid() && Matches(e, format, h, codec)
    ensures format.head(Kept(e.cw.head, 2)) == Some(h) && format.tags(Kept(e.cw.tags, 1)) && format.build(h) == Some(codec)
    ensures h.preSkip == E.PRE_SKIP && h.channels == e.config.channels && h.streams <= 1 && h.channels > 0
    ensures Framed(codec, h.channels, Elements(e.cw.sent), e.config.Duration())
  {
    hide Kept, Framed;
  }

  lemma IsHeaded(pages: seq<P.Page>, serial: P.uint32, sent: seq<Packet>, frame: nat, final: int, n0: nat)
    requires Recorded(pages, serial, sent, frame, final, n0)
    ensures Headed(pages, n0)
  {
    hide Headed;
  }

  lemma IndexIs<T(!new)>(e: E.Encoder<T>)
    requires e.config.Valid() && S.AllWritable(e.cw.sw.pages) && e.cw.sw.audioPage <= |e.cw.sw.pages|
    ensures IndexOf(e) == D.Index(Off(e.cw.sw.pages, e.cw.sw.audioPage), |e.cw.sw.sink|, E.Length48k(e.config, |e.input|), true)
  {
  }

  /** An exact seek in a stream as long as its index says, and everything read from there. */
  method SeekExactly<U(!new)>(src: seq<byte>, format: Format<U>, idx: D.Index, target: nat)
    returns (r: D.SeekResult, bytes: seq<byte>, fault: Option<Fault>)
    requires D.SoundFormat(format) && Open(src, 0, format).Opened? && Open(src, 0, format).stream.head.channels > 0 && idx.Index? && target < idx.length
    requires var st := Open(src, 0, format).stream; var whole := RestFrom(st, Start(Open(src, 0, format)), 0);
             whole.1 == Ended && |whole.0| == idx.length * FrameBytes(st)
    ensures r == D.Arrived(target) && fault == None
    ensures var st := Open(src, 0, format).stream; bytes == Drop(RestFrom(st, Start(Open(src, 0, format)), 0).0, D.InBytes(target, FrameBytes(st)))
  {
    hide Open, RestFrom, Left, Heard, D.SoundFormat, InStep, Sound, D.Exact, Drop, FrameBytes, D.InBytes, Reach;
    var d := new D.Decoder(format);
    var bound := d.Reset(src, 0, true, idx);
    d.Ready();
    ghost var o := Open(src, 0, format);
    HeardIs(o.stream, Start(o));
    Cancel(Heard(o.stream, Start(o)), idx.length, o.stream);
    r := d.SeekToSampleExact(target);
    bytes, fault := d.WriteTo();
  }

  /** A bisecting seek in a stream that holds what its index says, and everything read from there. */
  method SeekByPages<U(!new)>(src: seq<byte>, format: Format<U>, idx: D.Index, ghost k: J.Link, target: nat)
    returns (r: D.SeekResult, bytes: seq<byte>, fault: Option<Fault>)
    requires D.SoundFormat(format) && Open(src, 0, format).Opened? && D.Describes(Open(src, 0, format).stream, Open(src, 0, format), idx, k) && target < idx.length
    ensures r == D.Arrived(target) && fault == None
    ensures |bytes| == D.InBytes(idx.length - target, FrameBytes(Open(src, 0, format).stream))
  {
    hide Open, RestFrom, Left, Heard, D.SoundFormat, InStep, Sound, D.Exact, Drop, FrameBytes, D.InBytes, D.Describes, J.Samples;
    DescribedHasIndex(src, format, idx, k);
    var d := new D.Decoder(format);
    var bound := d.Reset(src, 0, true, idx);
    D.IndexLength(Open(src, 0, format).stream, Open(src, 0, format), idx, k);
    r := d.SeekToSample(target, k);
    bytes, fault := d.WriteTo();
  }

  lemma DescribedHasIndex<U(!new)>(src: seq<byte>, format: Format<U>, idx: D.Index, k: J.Link)
    requires Open(src, 0, format).Opened? && D.Describes(Open(src, 0, format).stream, Open(src, 0, format), idx, k)
    ensures idx.Index?
  {
    hide Open, J.Sane;
  }

  /** Encode, close, seek exactly, read on: below the input's length the seek arrives where it was
      asked to, and what is read is the rest of the sequential decode. */
  method SeekWrittenExactly<T(!new), U(!new)>(e: E.Encoder<T>, format: Format<U>, h: Head, codec: Codec<U>, idx: D.Index, target: nat)
    returns (r: D.SeekResult, bytes: seq<byte>, fault: Option<Fault>)
    requires e.Valid() && e.closed && e.intact && e.config.Valid() && Matches(e, format, h, codec) && D.SoundFormat(format)
    requires idx.Index? && idx.length == E.Length48k(e.config, |e.input|) && target < idx.length
    ensures r == D.Arrived(target) && fault == None
    ensures |bytes| == D.InBytes(E.Length48k(e.config, |e.input|) - target, 2 * e.config.channels)
    ensures Open(e.cw.sw.sink, 0, format).Opened? && Fit(Open(e.cw.sw.sink, 0, format).stream, Start(Open(e.cw.sw.sink, 0, format)))
            && Open(e.cw.sw.sink, 0, format).stream.head.channels > 0
            && bytes == Drop(RestFrom(Open(e.cw.sw.sink, 0, format).stream, Start(Open(e.cw.sw.sink, 0, format)), 0).0,
                             D.InBytes(target, 2 * e.config.channels))
  {
    hide *;
    Taken(e, format, h, codec);
    EndToEnd(e, format, h, codec);
    ghost var o := Open(e.cw.sw.sink, 0, format);
    Widths(o.stream, e.config);
    r, bytes, fault := SeekExactly(e.cw.sw.sink, format, idx, target);
    DropLeaves(RestFrom(o.stream, Start(o), 0).0, E.Length48k(e.config, |e.input|), target, 2 * e.config.channels);
  }

  /** The same with the bisecting seek, when no page hides in the audio: as much is read as is
      left of the input. */
  method SeekWritten<T(!new), U(!new)>(e: E.Encoder<T>, format: Format<U>, h: Head, codec: Codec<U>, idx: D.Index, target: nat)
    returns (r: D.SeekResult, bytes: seq<byte>, fault: Option<Fault>)
    requires e.Valid() && e.closed && e.intact && e.config.Valid() && Matches(e, format, h, codec) && D.SoundFormat(format)
    requires S.AllWritable(e.cw.sw.pages) && e.cw.sw.audioPage <= |e.cw.sw.pages| && NoOther(e.cw.sw.pages, e.cw.sw.audioPage)
    requires idx == IndexOf(e) && target < E.Length48k(e.config, |e.input|)
    ensures r == D.Arrived(target) && fault == None
    ensures |bytes| == D.InBytes(E.Length48k(e.config, |e.input|) - target, 2 * e.config.channels)
  {
    hide *;
    ghost var k := IsDescribed(e, format, h, codec);
    IndexIs(e);
    Taken(e, format, h, codec);
    Widths(Open(e.cw.sw.sink, 0, format).stream, e.config);
    r, bytes, fault := SeekByPages(e.cw.sw.sink, format, idx, k, target);
  }

  lemma DropLeaves(s: seq<byte>, length: nat, target: nat, frame: nat)
    requires |s| == length * frame && target <= length
    ensures |Drop(s, D.InBytes(target, frame))| == D.InBytes(length - target, frame)
  {
    Monotone(target, length, frame);
    SumTimes(target, length - target, frame);
  }
}
