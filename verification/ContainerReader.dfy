/** The container reader as it runs: one page at a time, reassembled into a queue in place. */
module ContainerReader {
  import opened Crc
  import P = Page
  import opened Packets

  class Container {
    const src: seq<byte>
    var pos: nat                // where the source stands
    var serialSet: bool
    var serial: P.uint32
    var partial: Packet
    var queue: seq<Packet>
    var qi: nat
    var lastGranule: P.int64
    var finalGranule: P.int64
    var sawEos: bool
    var limit: nat
    var headers: nat

    function State(): (r: Reader)
      reads this
    {
      Reader(serialSet, serial, partial, queue, qi, lastGranule, finalGranule, sawEos, limit, headers)
    }

    ghost predicate Valid()
      reads this
    {
      pos <= |src| && State().Valid()
    }

    constructor (src: seq<byte>, pos: nat)
      requires pos <= |src|
      ensures Valid() && this.src == src && this.pos == pos && State() == Fresh(122880)
    {
      this.src, this.pos := src, pos;
      serialSet, serial, partial, queue, qi := false, 0, [], [], 0;
      lastGranule, finalGranule, sawEos, limit, headers := 0, -1, false, STREAM_LIMIT, 2;
    }

    /** The segment loop. */
    method TakeSegments(pg: P.Page) returns (ok: bool)
      requires pg.Writable() && |partial| <= Room(headers, limit)
      modifies this`partial, this`queue, this`headers
      ensures var c := Segments(pg.segTable, pg.body, old(partial), old(headers), limit);
              match c
              case TooLarge(ps) => !ok && queue == ps && headers == 0
              case Cut(ps, q, h) => ok && queue == ps && partial == q && headers == h
    {
      hide Segments, P.Sum, Grown, Room;
      ghost var all := Segments(pg.segTable, pg.body, partial, headers, limit);
      queue := [];
      var off: nat := 0;
      assert pg.segTable[0..] == pg.segTable && pg.body[0..] == pg.body;
      NoneBefore(all);
      for i := 0 to |pg.segTable|
        invariant off <= |pg.body| && P.Sum(pg.segTable[i..]) == |pg.body| - off && |partial| <= Room(headers, limit)
        invariant all == Before(queue, Segments(pg.segTable[i..], pg.body[off..], partial, headers, limit))
      {
        SegmentStep(pg.segTable, pg.body, i, off, partial, headers, limit);
        var l: nat := pg.segTable[i];
        var room := Room(headers, limit);
        if headers == 0 && |partial| + l > room {
          assert queue + [] == queue;
          return false;
        }
        var before := partial;
        partial := Grown(partial, pg.body[off..off + l], room);
        off := off + l;
        if l < P.MAX_SEGMENT {
          BeforeTwice(queue, [partial], Segments(pg.segTable[i + 1..], pg.body[off..], [], Less(headers), limit));
          headers := Less(headers);
          queue := queue + [partial];
          partial := [];
        }
      }
      NoMore(partial, headers, limit);
      assert pg.segTable[|pg.segTable|..] == [];
      assert pg.body[off..] == [];
      assert queue + [] == queue;
      return true;
    }

    method ProcessPage(pg: P.Page) returns (error: seq<ReadError>)
      requires Valid() && pg.Writable()
      modifies this`serialSet, this`serial, this`partial, this`queue, this`qi, this`lastGranule, this`finalGranule, this`sawEos, this`headers
      ensures Valid()
      ensures match Packets.ProcessPage(old(State()), pg)
              case Done(r) => error == [] && State() == r
              case Failed(e, r) => error == [e] && State() == r
    {
      hide Segments;
      if !serialSet {
        serial := pg.serial;
        serialSet := true;
        if !pg.Has(P.BOS) { return [MissingBos]; }
      } else if pg.serial != serial {
        return [WrongSerial];
      }
      if !pg.Has(P.CONTINUED) && |partial| > 0 {
        partial := [];
      }
      qi := 0;
      var ok := TakeSegments(pg);
      if !ok {
        partial := [];
        return [PacketTooLarge];
      }
      if pg.granule != P.NO_GRANULE {
        lastGranule := pg.granule;
      }
      if pg.Has(P.EOS) {
        sawEos := true;
        finalGranule := lastGranule;
      }
      return [];
    }

    /** The next packet, reading pages as needed. */
    method NextRawPacket() returns (n: Next)
      requires Valid()
      modifies this
      ensures Valid() && (n, State(), pos) == NextPacket(src, old(State()), old(pos))
    {
      hide P.ReadPage, Packets.ProcessPage, Room;
      while true
        invariant Valid() && NextPacket(src, State(), pos) == NextPacket(src, old(State()), old(pos))
        decreases |src| - pos
      {
        if qi < |queue| {
          var p := queue[qi];
          qi := qi + 1;
          return Got(p);
        }
        if sawEos { return End; }
        var (read, next) := P.ReadPage(src, pos);
        ReadIsWritable(src, pos);
        ghost var before := State();
        pos := next;
        match read
        case Eof => return End;
        case UnexpectedEof => return Error(Truncated);
        case Broken(flaw) => return Error(Corrupt(flaw));
        case Read(pg) =>
          var error := ProcessPage(pg);
          if error != [] { return Error(error[0]); }
      }
    }

    /** Rebinds to a page boundary, dropping all packet state. */
    method RepositionAt(at: nat)
      requires Valid() && at <= |src|
      modifies this`pos, this`queue, this`qi, this`partial, this`sawEos, this`finalGranule
      ensures Valid() && pos == at
      ensures State() == old(State()).(queue := [], qi := 0, partial := [], sawEos := false, finalGranule := -1)
    {
      pos, queue, qi, partial, sawEos, finalGranule := at, [], 0, [], false, -1;
    }
  }

  lemma SegmentStep(segs: seq<byte>, body: seq<byte>, i: nat, off: nat, partial: Packet, headers: nat, limit: nat)
    requires i < |segs| && off <= |body| && P.Sum(segs[i..]) == |body| - off && |partial| <= Room(headers, limit)
    ensures var l := segs[i]; var room := Room(headers, limit);
            off + l <= |body| && P.Sum(segs[i + 1..]) == |body| - (off + l)
            && Segments(segs[i..], body[off..], partial, headers, limit)
               == if headers == 0 && |partial| + l > room then TooLarge([])
                  else
                    var p := Grown(partial, body[off..off + l], room);
                    if l < P.MAX_SEGMENT then Before([p], Segments(segs[i + 1..], body[off + l..], [], Less(headers), limit))
                    else Segments(segs[i + 1..], body[off + l..], p, headers, limit)
  {
    hide Room, Grown;
    var l := segs[i];
    assert segs[i..][1..] == segs[i + 1..];
    assert body[off..][..l] == body[off..off + l];
    assert body[off..][l..] == body[off + l..];
  }

  lemma BeforeTwice(a: seq<Packet>, b: seq<Packet>, c: Cut)
    ensures Before(a, Before(b, c)) == Before(a + b, c)
  {
    assert a + (b + c.packets) == (a + b) + c.packets;
  }

  lemma NoneBefore(c: Cut)
    ensures Before([], c) == c
  {
    assert [] + c.packets == c.packets;
  }

  lemma NoMore(partial: Packet, headers: nat, limit: nat)
    requires |partial| <= Room(headers, limit)
    ensures P.Sum([]) == 0 && Segments([], [], partial, headers, limit) == Cut([], partial, headers)
  {
  }
}
