/** Packets across pages: RFC 3533 section 6 lacing with the size limits of the reader. */
module Packets {
  import opened Crc
  import P = Page

  type Packet = seq<byte>

  const RFC_PACKET := 61440
  const STREAM_LIMIT := 2 * RFC_PACKET
  const HEADER_LIMIT := RFC_PACKET

  // ---------------------------------------------------------------- segments

  datatype Cut = Cut(packets: seq<Packet>, partial: Packet, headers: nat) | TooLarge(packets: seq<Packet>)

  /** How many bytes of the packet in progress may be held. */
  function Room(headers: nat, limit: nat): (n: nat) { if headers > 0 then HEADER_LIMIT else limit }

  /** A header packet past its limit is cut there; the rest is dropped. */
  function Grown(partial: Packet, segment: seq<byte>, room: nat): (p: Packet)
    requires |partial| <= room
    ensures |p| <= room && (|partial| + |segment| <= room ==> p == partial + segment)
  {
    if |partial| + |segment| <= room then partial + segment else partial + segment[..room - |partial|]
  }

  function Less(headers: nat): (n: nat) { if headers > 0 then headers - 1 else 0 }

  function Before(packets: seq<Packet>, rest: Cut): (r: Cut) {
    match rest
    case TooLarge(ps) => TooLarge(packets + ps)
    case Cut(ps, q, h) => Cut(packets + ps, q, h)
  }

  /** The packets that end in a run of segments, and what is left of one that does not. */
  function Segments(segs: seq<byte>, body: seq<byte>, partial: Packet, headers: nat, limit: nat): (r: Cut)
    requires P.Sum(segs) == |body| && |partial| <= Room(headers, limit)
    ensures r.Cut? ==> |r.partial| <= Room(r.headers, limit)
    ensures r.Cut? && headers == 0 ==> r.headers == 0
    decreases |segs|
  {
    if segs == [] then Cut([], partial, headers)
    else
      var l := segs[0];
      var room := Room(headers, limit);
      if headers == 0 && |partial| + l > room then TooLarge([])
      else
        var p := Grown(partial, body[..l], room);
        if l < P.MAX_SEGMENT then Before([p], Segments(segs[1..], body[l..], [], Less(headers), limit))
        else Segments(segs[1..], body[l..], p, headers, limit)
  }

  lemma {:induction false} SumAppends(a: seq<byte>, b: seq<byte>)
    ensures P.Sum(a + b) == P.Sum(a) + P.Sum(b)
  {
    if a == [] {
      assert a + b == b;
    } else {
      assert (a + b)[1..] == a[1..] + b;
      SumAppends(a[1..], b);
    }
  }

  /** The first segment of a run, taken off. */
  lemma FirstSegment(a: seq<byte>, x: seq<byte>, partial: Packet, headers: nat, limit: nat)
    requires a != [] && P.Sum(a) == |x| && |partial| <= Room(headers, limit)
    ensures a[0] <= |x| && P.Sum(a[1..]) == |x[a[0]..]|
    ensures var l := a[0]; var room := Room(headers, limit);
            Segments(a, x, partial, headers, limit)
            == if headers == 0 && |partial| + l > room then TooLarge([])
               else if l < P.MAX_SEGMENT then Before([Grown(partial, x[..l], room)], Segments(a[1..], x[l..], [], Less(headers), limit))
               else Segments(a[1..], x[l..], Grown(partial, x[..l], room), headers, limit)
  {
    hide Room, Grown, Less;
  }

  /** The same first segment, whatever run follows. */
  lemma FirstOfBoth(a: seq<byte>, x: seq<byte>, b: seq<byte>, y: seq<byte>)
    requires a != [] && P.Sum(a) == |x|
    ensures (a + b)[0] == a[0] <= |x| && (a + b)[1..] == a[1..] + b
    ensures (x + y)[..a[0]] == x[..a[0]] && (x + y)[a[0]..] == x[a[0]..] + y
  {
  }

  lemma BeforeBefore(a: seq<Packet>, b: Cut, c: Cut)
    requires b.Cut?
    ensures Before(a, Before(b.packets, c)) == Before(a + b.packets, c)
  {
    assert a + (b.packets + c.packets) == (a + b.packets) + c.packets;
  }

  lemma EmptyRuns(b: seq<byte>, y: seq<byte>, partial: Packet, headers: nat, limit: nat)
    requires P.Sum(b) == |y| && |partial| <= Room(headers, limit)
    ensures [] + b == b && [] + y == y
    ensures Segments([], [], partial, headers, limit) == Cut([], partial, headers)
    ensures Before([], Segments(b, y, partial, headers, limit)) == Segments(b, y, partial, headers, limit)
  {
    assert [] + Segments(b, y, partial, headers, limit).packets == Segments(b, y, partial, headers, limit).packets;
  }

  /** Two runs of segments are one: where the runs are cut does not matter. */
  lemma {:induction false} SegmentsAppend(a: seq<byte>, x: seq<byte>, b: seq<byte>, y: seq<byte>, partial: Packet, headers: nat, limit: nat)
    requires P.Sum(a) == |x| && P.Sum(b) == |y| && |partial| <= Room(headers, limit)
    ensures P.Sum(a + b) == |x + y|
    ensures var r := Segments(a, x, partial, headers, limit);
            Segments(a + b, x + y, partial, headers, limit)
            == if r.TooLarge? then r else Before(r.packets, Segments(b, y, r.partial, r.headers, limit))
    decreases |a|
  {
    hide Segments, Room, Grown, P.Sum;
    SumAppends(a, b);
    if a == [] {
      assert x == [] by { NoSum(x); }
      EmptyRuns(b, y, partial, headers, limit);
    } else {
      FirstSegment(a, x, partial, headers, limit);
      FirstOfBoth(a, x, b, y);
      FirstSegment(a + b, x + y, partial, headers, limit);
      var l, room := a[0], Room(headers, limit);
      if !(headers == 0 && |partial| + l > room) {
        var p := Grown(partial, x[..l], room);
        if l < P.MAX_SEGMENT {
          SegmentsAppend(a[1..], x[l..], b, y, [], Less(headers), limit);
          var r := Segments(a[1..], x[l..], [], Less(headers), limit);
          if r.Cut? { BeforeBefore([p], r, Segments(b, y, r.partial, r.headers, limit)); }
        } else {
          SegmentsAppend(a[1..], x[l..], b, y, p, headers, limit);
        }
      }
    }
  }

  lemma NoSum(x: seq<byte>)
    ensures P.Sum([]) == 0
    ensures |x| == P.Sum([]) ==> x == []
  {
  }

  // ---------------------------------------------------------------- one packet, many packets

  /** What the reader keeps of a packet. */
  function Kept(p: Packet, headers: nat): (k: Packet) {
    if headers > 0 && |p| > HEADER_LIMIT then p[..HEADER_LIMIT] else p
  }

  function KeptAll(ps: seq<Packet>, headers: nat): (ks: seq<Packet>)
    ensures |ks| == |ps|
  {
    if ps == [] then [] else [Kept(ps[0], headers)] + KeptAll(ps[1..], Less(headers))
  }

  /** Header packets are cut at 61440 bytes, nothing else is. */
  lemma {:induction false} KeptAt(ps: seq<Packet>, headers: nat, i: nat)
    requires i < |ps|
    ensures KeptAll(ps, headers)[i] == if i < headers && |ps[i]| > 61440 then ps[i][..61440] else ps[i]
    decreases |ps|
  {
    if i > 0 { KeptAt(ps[1..], Less(headers), i - 1); }
  }

  /** The audio packets, those after the header packets, are within the limit. */
  predicate Fits(ps: seq<Packet>, headers: nat, limit: nat) {
    forall i | headers <= i < |ps| :: |ps[i]| <= limit
  }

  function Laces(ps: seq<Packet>): (s: seq<byte>) {
    if ps == [] then [] else P.Lacing(|ps[0]|) + Laces(ps[1..])
  }

  function Bytes(ps: seq<Packet>): (s: seq<byte>) {
    if ps == [] then [] else ps[0] + Bytes(ps[1..])
  }

  lemma {:induction false} LacesMeasure(ps: seq<Packet>)
    ensures P.Sum(Laces(ps)) == |Bytes(ps)|
  {
    if ps != [] {
      P.LacingMeasures(|ps[0]|);
      SumAppends(P.Lacing(|ps[0]|), Laces(ps[1..]));
      LacesMeasure(ps[1..]);
    }
  }

  lemma {:induction false} LacesAppend(ps: seq<Packet>, p: Packet)
    ensures Laces(ps + [p]) == Laces(ps) + P.Lacing(|p|) && Bytes(ps + [p]) == Bytes(ps) + p
  {
    hide P.Lacing;
    if ps == [] {
      assert ps + [p] == [p];
      assert Laces([p]) == P.Lacing(|p|) + Laces([]) && Bytes([p]) == p + Bytes([]);
    } else {
      assert (ps + [p])[1..] == ps[1..] + [p];
      LacesAppend(ps[1..], p);
    }
  }

  /** The segments of one packet make that packet, after whatever was pending. */
  lemma {:induction false} OnePacket(p: Packet, partial: Packet, headers: nat, limit: nat)
    requires |partial| <= Room(headers, limit) && (headers == 0 ==> |partial| + |p| <= limit)
    ensures P.Sum(P.Lacing(|p|)) == |p|
    ensures Segments(P.Lacing(|p|), p, partial, headers, limit) == Cut([Grown(partial, p, Room(headers, limit))], [], Less(headers))
    decreases |p|
  {
    P.LacingMeasures(|p|);
    var segs := P.Lacing(|p|);
    var l := segs[0];
    if |p| >= P.MAX_SEGMENT {
      assert segs[1..] == P.Lacing(|p| - 255) && |p[255..]| == |p| - 255;
      var q := Grown(partial, p[..255], Room(headers, limit));
      OnePacket(p[255..], q, headers, limit);
      GrownTwice(partial, p[..255], p[255..], Room(headers, limit));
      assert p[..255] + p[255..] == p;
    } else {
      assert segs[1..] == [] && p[..l] == p && p[l..] == [];
    }
  }

  lemma GrownTwice(partial: Packet, a: seq<byte>, b: seq<byte>, room: nat)
    requires |partial| <= room
    ensures Grown(Grown(partial, a, room), b, room) == Grown(partial, a + b, room)
  {
    if |partial| + |a| + |b| <= room {
      assert (partial + a) + b == partial + (a + b);
    } else if |partial| + |a| <= room {
      assert (partial + a) + b[..room - |partial + a|] == partial + (a + b)[..room - |partial|];
    } else {
      assert (a + b)[..room - |partial|] == a[..room - |partial|];
    }
  }

  /** The segments of any list of packets within the limits come apart into that list. */
  lemma {:induction false} ManyPackets(ps: seq<Packet>, headers: nat, limit: nat)
    requires Fits(ps, headers, limit)
    ensures P.Sum(Laces(ps)) == |Bytes(ps)|
    ensures Segments(Laces(ps), Bytes(ps), [], headers, limit)
            == Cut(KeptAll(ps, headers), [], if |ps| >= headers then 0 else headers - |ps|)
  {
    hide Segments, P.Lacing;
    LacesMeasure(ps);
    if ps == [] {
      assert Segments([], [], [], headers, limit) == Cut([], [], headers) by { NoSegments([], headers, limit); }
    } else {
      var p := ps[0];
      assert headers == 0 ==> |p| <= limit;
      OnePacket(p, [], headers, limit);
      assert forall i | Less(headers) <= i < |ps[1..]| :: ps[1..][i] == ps[i + 1];
      ManyPackets(ps[1..], Less(headers), limit);
      SegmentsAppend(P.Lacing(|p|), p, Laces(ps[1..]), Bytes(ps[1..]), [], headers, limit);
      KeptIsGrown(p, headers, limit);
    }
  }

  lemma NoSegments(partial: Packet, headers: nat, limit: nat)
    requires |partial| <= Room(headers, limit)
    ensures Segments([], [], partial, headers, limit) == Cut([], partial, headers)
  {
  }

  lemma KeptIsGrown(p: Packet, headers: nat, limit: nat)
    requires headers == 0 ==> |p| <= limit
    ensures Grown([], p, Room(headers, limit)) == Kept(p, headers)
  {
    assert [] + p == p;
    if |p| > Room(headers, limit) {
      assert [] + p[..HEADER_LIMIT] == p[..HEADER_LIMIT];
    }
  }

  // ---------------------------------------------------------------- the reader

  datatype ReadError = Truncated | Corrupt(flaw: P.Flaw) | MissingBos | WrongSerial | PacketTooLarge

  datatype Reader = Reader(serialSet: bool, serial: P.uint32, partial: Packet, queue: seq<Packet>, qi: nat,
                           lastGranule: P.int64, finalGranule: P.int64, sawEos: bool, limit: nat, headers: nat) {
    predicate Valid() {
      |partial| <= Room(headers, limit) && qi <= |queue|
    }
  }

  function Fresh(limit: nat): (r: Reader)
    ensures r.Valid()
  {
    Reader(false, 0, [], [], 0, 0, -1, false, limit, 2)
  }

  /** What does not change once known: the limit, that the headers are past, and the serial. */
  predicate Settled(r: Reader, r0: Reader) {
    && r.limit == r0.limit && (r0.headers == 0 ==> r.headers == 0)
    && (r0.serialSet ==> r.serialSet && r.serial == r0.serial)
  }

  datatype Processed = Done(reader: Reader) | Failed(error: ReadError, reader: Reader)

  /** Granule and end-of-stream accounting. */
  function Account(r: Reader, pg: P.Page): (r': Reader) {
    var last := if pg.granule != P.NO_GRANULE then pg.granule else r.lastGranule;
    if pg.Has(P.EOS) then r.(lastGranule := last, sawEos := true, finalGranule := last) else r.(lastGranule := last)
  }

  /** Reassembly: a page that does not continue a packet drops what was pending. */
  function Reassemble(r: Reader, pg: P.Page): (p: Processed)
    requires r.Valid() && pg.Writable()
    ensures p.reader.Valid() && (p.Done? ==> p.reader.qi == 0) && Settled(p.reader, r)
  {
    var partial := if pg.Has(P.CONTINUED) then r.partial else [];
    match Segments(pg.segTable, pg.body, partial, r.headers, r.limit)
    case TooLarge(ps) => Failed(PacketTooLarge, r.(partial := [], queue := ps, qi := 0, headers := 0))
    case Cut(ps, q, h) => Done(r.(partial := q, queue := ps, qi := 0, headers := h))
  }

  function ProcessPage(r: Reader, pg: P.Page): (p: Processed)
    requires r.Valid() && pg.Writable()
    ensures p.reader.Valid() && (p.Done? ==> p.reader.qi == 0) && Settled(p.reader, r)
  {
    if !r.serialSet && !pg.Has(P.BOS) then Failed(MissingBos, r.(serialSet := true, serial := pg.serial))
    else if r.serialSet && pg.serial != r.serial then Failed(WrongSerial, r)
    else
      match Reassemble(r.(serialSet := true, serial := pg.serial), pg)
      case Failed(e, r') => Failed(e, r')
      case Done(r') => Done(Account(r', pg))
  }

  datatype Next = Got(packet: Packet) | End | Error(error: ReadError)

  /** nextRawPacket over a source: the next packet, the reader after it, where the source stands. */
  function NextPacket(src: seq<byte>, r: Reader, off: nat): (n: (Next, Reader, nat))
    requires off <= |src| && r.Valid()
    ensures off <= n.2 <= |src| && n.1.Valid() && Settled(n.1, r)
    ensures n.0.Got? ==> n.2 > off || (n.2 == off && r.qi < |r.queue| && n.1 == r.(qi := r.qi + 1))
    decreases |src| - off
  {
    if r.qi < |r.queue| then (Got(r.queue[r.qi]), r.(qi := r.qi + 1), off)
    else if r.sawEos then (End, r, off)
    else
      var (read, next) := P.ReadPage(src, off);
      match read
      case Eof => (End, r, next)
      case UnexpectedEof => (Error(Truncated), r, next)
      case Broken(flaw) => (Error(Corrupt(flaw)), r, next)
      case Read(pg) =>
        ReadIsWritable(src, off);
        match ProcessPage(r, pg)
        case Failed(e, r') => (Error(e), r', next)
        case Done(r') => NextPacket(src, r', next)
  }

  lemma ReadIsWritable(src: seq<byte>, off: nat)
    requires off <= |src|
    ensures P.ReadPage(src, off).0.Read? ==> P.ReadPage(src, off).0.page.Writable()
  {
    hide P.ReadPage, P.ParsePage;
    P.ReadIsParse(src, off);
    if P.ParsePage(src[off..]).Parsed? { P.WrittenOfParse(src[off..]); }
  }

  /** Every packet still to come, and how the stream ends. */
  function AllPackets(src: seq<byte>, r: Reader, off: nat): (a: (seq<Packet>, Next))
    requires off <= |src| && r.Valid()
    ensures !a.1.Got?
    decreases |src| - off, |r.queue| - r.qi
  {
    var (n, r', off') := NextPacket(src, r, off);
    if n.Got? then
      var (rest, end) := AllPackets(src, r', off');
      ([n.packet] + rest, end)
    else ([], n)
  }
}
