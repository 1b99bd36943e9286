/** Decoding from a page in the middle of a stream: how many samples are still to come. */
module Jump {
  import opened Crc
  import P = Page
  import opened Packets
  import opened Playback
  import opened Sequence
  import S = Scan
  import opened Landing

  /** The codec's state after a run of packets. */
  function StateAfter<T>(codec: Codec<T>, ps: seq<Packet>): (s: T) {
    if ps == [] then codec.initial else codec.step(StateAfter(codec, ps[..|ps| - 1]), ps[|ps| - 1]).state
  }

  /** A state that some run of these packets leads to. */
  ghost predicate Reachable<T(!new)>(codec: Codec<T>, packets: set<Packet>, s: T) {
    exists ps: seq<Packet> :: (forall p | p in ps :: p in packets) && StateAfter(codec, ps) == s
  }

  /** Each of these packets decodes, to a duration of its own, from every state they lead to. */
  ghost predicate Timed<T(!new)>(codec: Codec<T>, channels: nat, packets: set<Packet>, dur: Packet -> nat)
    requires channels > 0
  {
    forall s, p | Reachable(codec, packets, s) && p in packets ::
      codec.step(s, p).Frame? && PerChannel(codec.step(s, p).samples, channels) == dur(p)
  }

  lemma ReachesOn<T(!new)>(codec: Codec<T>, packets: set<Packet>, s: T, p: Packet)
    requires Reachable(codec, packets, s) && p in packets
    ensures Reachable(codec, packets, codec.step(s, p).state)
  {
    var ps: seq<Packet> :| (forall q | q in ps :: q in packets) && StateAfter(codec, ps) == s;
    var on := ps + [p];
    assert on[..|on| - 1] == ps;
    assert StateAfter(codec, on) == codec.step(s, p).state;
  }

  lemma InitiallyReached<T(!new)>(codec: Codec<T>, packets: set<Packet>)
    ensures Reachable(codec, packets, codec.initial)
  {
    assert StateAfter(codec, []) == codec.initial;
  }

  /** Every packet still queued is one of these. */
  predicate Queued(r: Reader, packets: set<Packet>) {
    forall j | r.qi <= j < |r.queue| :: r.queue[j] in packets
  }

  function PageOf(src: seq<byte>, off: nat): (pg: P.Page)
    requires off <= |src| && P.ParsePage(src[off..]).Parsed?
    ensures pg.Writable()
  {
    P.WrittenOfParse(src[off..]);
    P.ParsePage(src[off..]).page
  }

  /** A reader whose queue has been served. */
  function Served(r: Reader): (r': Reader) { r.(queue := [], qi := 0) }

  function Total(ps: seq<Packet>, dur: Packet -> nat): (n: nat) {
    if ps == [] then 0 else dur(ps[0]) + Total(ps[1..], dur)
  }

  /** The pages of a link as the container reader takes them in order: the reader on reaching
      each, and the total duration of the packets before it. */
  datatype Trail = Trail(readers: seq<Reader>, totals: seq<nat>)

  ghost predicate Follows(src: seq<byte>, a: nat, b: nat, serial: P.uint32, refs: seq<S.PageRef>, packets: set<Packet>, dur: Packet -> nat,
                          t: Trail) {
    && Layout(src, a, b, serial, refs) && |t.readers| == |t.totals| == |refs| + 1
    && t.readers[0].serialSet && t.readers[0].serial == serial && t.readers[0] == Served(t.readers[0])
    && t.readers[0].headers == 0 && !t.readers[0].sawEos && t.readers[0].finalGranule == -1 && t.totals[0] == 0
    && forall i | 0 <= i < |refs| :: Passes(src, refs[i].off, t.readers[i], t.readers[i + 1], t.totals[i], t.totals[i + 1], packets, dur)
  }

  /** One page: it processes cleanly, and its packets add their durations. */
  ghost predicate Passes(src: seq<byte>, off: nat, r: Reader, r': Reader, total: nat, total': nat, packets: set<Packet>, dur: Packet -> nat) {
    && off <= |src| && P.ParsePage(src[off..]).Parsed? && r.Valid()
    && var p := ProcessPage(r, PageOf(src, off));
       p.Done? && r' == Served(p.reader) && total' == total + Total(p.reader.queue, dur) && Queued(p.reader, packets)
  }

  /** Granules tell the truth: on every page but an end-of-stream one the granule is the total
      duration so far, and the end-of-stream page, if there is one the last, claims no less
      than what came before it. */
  ghost predicate Truthful(refs: seq<S.PageRef>, t: Trail, eos: bool, claim: int)
    requires |t.readers| == |t.totals| == |refs| + 1
  {
    && (forall i | 0 < i <= |refs| && !(eos && i == |refs|) :: !t.readers[i].sawEos && t.readers[i].finalGranule == -1)
    && (forall i | 0 <= i < |refs| && !(eos && i == |refs| - 1) && refs[i].hasGranule :: refs[i].granule == t.totals[i + 1])
    && (eos ==> refs != [] && t.readers[|refs|].sawEos && t.readers[|refs|].finalGranule == claim && t.totals[|refs| - 1] <= claim)
    && (!eos ==> claim == t.totals[|refs|])
  }

  /** Samples delivered once packets of total duration `total` are decoded. */
  function At(total: nat, preSkip: nat, cap: int): (n: int) { Min(Past(total, preSkip), cap) }

  /** One packet of `n` samples moves the position by what lies from skipTo up to the cap. */
  lemma PacketMoves(total: nat, n: nat, preSkip: nat, cap: int, limit: int, skipTo: int)
    requires cap >= 0 && skipTo <= cap && (limit == cap || (limit == -1 && Past(total + n, preSkip) <= cap))
    ensures var s := Spanned(Past(preSkip, total), At(total, preSkip, cap), limit, n, skipTo);
            && s.preSkipLeft == Past(preSkip, total + n) && s.delivered == At(total + n, preSkip, cap)
            && s.count == Past(At(total + n, preSkip, cap), Later(skipTo, At(total, preSkip, cap)))
  {
  }

  /** Whether the end trim is known does not matter before it bites. */
  lemma LimitMoves(total: nat, n: nat, preSkip: nat, cap: int, skipTo: int)
    requires cap >= 0 && skipTo <= cap && Past(total + n, preSkip) <= cap
    ensures Spanned(Past(preSkip, total), At(total, preSkip, cap), -1, n, skipTo) == Spanned(Past(preSkip, total), At(total, preSkip, cap), cap, n, skipTo)
  {
  }

  // ---------------------------------------------------------------- what the queue holds does not matter once served

  lemma ServedProcesses(r: Reader, pg: P.Page)
    requires r.Valid() && pg.Writable()
    ensures Served(r).Valid()
    ensures var p := ProcessPage(r, pg); var q := ProcessPage(Served(r), pg);
            (p.Done? <==> q.Done?) && (p.Done? ==> p == q) && (p.Failed? ==> p.error == q.error)
  {
    hide Segments;
  }

  lemma ServedReads(src: seq<byte>, r: Reader, off: nat)
    requires off <= |src| && r.Valid() && r.qi == |r.queue|
    ensures Served(r).Valid()
    ensures var (n, r1, o1) := NextPacket(src, r, off); var (m, r2, o2) := NextPacket(src, Served(r), off);
            n == m && (n.Got? ==> r1 == r2 && o1 == o2)
  {
    hide P.ReadPage, ProcessPage;
    if !r.sawEos {
      var (read, next) := P.ReadPage(src, off);
      if read.Read? {
        ReadIsWritable(src, off);
        ServedProcesses(r, read.page);
      }
    }
  }

  lemma ServedAll(src: seq<byte>, r: Reader, off: nat)
    requires off <= |src| && r.Valid() && r.qi == |r.queue|
    ensures Served(r).Valid() && AllPackets(src, r, off) == AllPackets(src, Served(r), off)
  {
    hide NextPacket;
    ServedReads(src, r, off);
  }

  lemma ServedRest<T(!new)>(st: Stream<T>, c: Core<T>, skipTo: int)
    requires Fit(st, c) && st.head.channels > 0 && c.reader.qi == |c.reader.queue|
    ensures Fit(st, c.(reader := Served(c.reader)))
    ensures RestFrom(st, c, skipTo) == RestFrom(st, c.(reader := Served(c.reader)), skipTo)
  {
    ServedReads(st.src, c.reader, c.pos);
    hide NextPacket;
  }

  /** A page that processes cleanly is read through. */
  lemma ReadsOn<T(!new)>(st: Stream<T>, c: Core<T>, r': Reader, next: nat, skipTo: int)
    requires Fit(st, c) && st.head.channels > 0 && c.reader.qi == |c.reader.queue| && !c.reader.sawEos
    requires c.pos <= |st.src| && P.ParsePage(st.src[c.pos..]).Parsed? && next == c.pos + P.ParsePage(st.src[c.pos..]).len
    requires ProcessPage(c.reader, PageOf(st.src, c.pos)) == Done(r')
    ensures r'.Valid() && next <= |st.src|
    ensures RestFrom(st, c, skipTo) == RestFrom(st, c.(reader := r', pos := next), skipTo)
  {
    assert NextPacket(st.src, c.reader, c.pos) == NextPacket(st.src, r', next) by {
      hide P.ReadPage, P.ParsePage, ProcessPage;
      P.ReadIsParse(st.src, c.pos);
    }
    hide P.ReadPage, P.ParsePage, ProcessPage;
    P.ReadIsParse(st.src, c.pos);
    hide NextPacket;
  }

  // ---------------------------------------------------------------- the count, page by page

  /** Everything known about one link of a stream and how it decodes. */
  datatype Link = Link(a: nat, b: nat, serial: P.uint32, refs: seq<S.PageRef>, packets: set<Packet>, dur: Packet -> nat, trail: Trail, eos: bool,
                       claim: int)

  /** The last sample there is: what the packets hold, end-trimmed when the stream says so. */
  function Cap(k: Link, preSkip: nat): (n: int) { if k.eos then k.claim - preSkip else Past(k.claim, preSkip) }

  ghost predicate Sane<T(!new)>(st: Stream<T>, k: Link) {
    && st.head.channels > 0 && Timed(st.codec, st.head.channels, k.packets, k.dur)
    && Follows(st.src, k.a, k.b, k.serial, k.refs, k.packets, k.dur, k.trail) && Truthful(k.refs, k.trail, k.eos, k.claim)
    && Cap(k, st.head.preSkip) >= 0 && (k.eos || k.b == |st.src|)
  }

  /** All the samples of the link, when it is decoded from its start. */
  function Samples<T>(st: Stream<T>, k: Link): (n: int)
    requires |k.trail.totals| == |k.refs| + 1
  {
    At(k.trail.totals[|k.refs|], st.head.preSkip, Cap(k, st.head.preSkip))
  }

  ghost predicate Placed<T(!new)>(st: Stream<T>, k: Link, c: Core<T>, total: nat) {
    && Reachable(st.codec, k.packets, c.codec) && Queued(c.reader, k.packets)
    && c.preSkipLeft == Past(st.head.preSkip, total) && c.delivered == At(total, st.head.preSkip, Cap(k, st.head.preSkip))
    && (c.limit == -1 || (k.eos && c.limit == Cap(k, st.head.preSkip)))
  }

  lemma Facts<T(!new)>(st: Stream<T>, k: Link, i: nat)
    requires Sane(st, k) && i < |k.refs|
    ensures |k.trail.readers| == |k.trail.totals| == |k.refs| + 1 && st.head.channels > 0
    ensures From(k.a, k.refs, i) == k.refs[i].off <= |st.src| && From(k.a, k.refs, i + 1) <= |st.src|
    ensures Passes(st.src, k.refs[i].off, k.trail.readers[i], k.trail.readers[i + 1], k.trail.totals[i], k.trail.totals[i + 1], k.packets, k.dur)
    ensures P.ParsePage(st.src[k.refs[i].off..]).Parsed? && From(k.a, k.refs, i + 1) == k.refs[i].off + P.ParsePage(st.src[k.refs[i].off..]).len
    ensures !k.trail.readers[i].sawEos && k.trail.readers[i].qi == |k.trail.readers[i].queue| && k.trail.readers[i].Valid()
    ensures k.trail.totals[i] <= k.trail.totals[i + 1]
    ensures if k.eos && i == |k.refs| - 1 then k.trail.readers[i + 1].sawEos && k.trail.readers[i + 1].finalGranule == k.claim
            else !k.trail.readers[i + 1].sawEos && k.trail.readers[i + 1].finalGranule == -1
  {
    OnePage(st.src, k.a, k.b, k.serial, k.refs, i);
    hide P.ParsePage, ProcessPage, Layout;
    Parses(st.src, k.refs[i]);
    if i > 0 { assert Passes(st.src, k.refs[i - 1].off, k.trail.readers[i - 1], k.trail.readers[i], k.trail.totals[i - 1], k.trail.totals[i], k.packets, k.dur); }
  }

  lemma Parses(src: seq<byte>, r: S.PageRef)
    requires S.PageAt(src, r.off) == S.Found(r)
    ensures r.off <= |src| && P.ParsePage(src[r.off..]).Parsed? && r.end == r.off + P.ParsePage(src[r.off..]).len <= |src|
  {
    hide P.ParsePage;
  }

  /** Before the end-of-stream page nothing runs past the cap. */
  lemma {:induction false} BelowClaim<T(!new)>(st: Stream<T>, k: Link, i: nat)
    requires Sane(st, k) && i <= |k.refs| && !(k.eos && i == |k.refs|)
    ensures k.trail.totals[i] <= k.claim
    decreases |k.refs| - i
  {
    if i < |k.refs| && !(k.eos && i == |k.refs| - 1) {
      Facts(st, k, i);
      BelowClaim(st, k, i + 1);
    }
  }

  /** A packet waiting in the queue is decoded next. */
  lemma FillServes<T(!new)>(st: Stream<T>, c: Core<T>, skipTo: int)
    requires Fit(st, c) && st.head.channels > 0 && c.reader.qi < |c.reader.queue|
    requires st.codec.step(c.codec, c.reader.queue[c.reader.qi]).Frame?
    ensures var frame := st.codec.step(c.codec, c.reader.queue[c.reader.qi]);
            var limit := Learned(c.limit, c.reader, st.head.preSkip);
            var s := Spanned(c.preSkipLeft, c.delivered, limit, PerChannel(frame.samples, st.head.channels), skipTo);
            Fill(st, c, skipTo) == More(Core(c.reader.(qi := c.reader.qi + 1), c.pos, frame.state, s.preSkipLeft, s.delivered, limit),
                                        Pcm(Slice(frame.samples, st.head.channels, s)))
  {
    hide Spanned, PerChannel, Pcm, Slice;
    assert NextPacket(st.src, c.reader, c.pos) == (Got(c.reader.queue[c.reader.qi]), c.reader.(qi := c.reader.qi + 1), c.pos);
  }

  /** One packet waiting in the queue. */
  lemma PacketCounts<T(!new)>(st: Stream<T>, k: Link, c: Core<T>, total: nat, skipTo: int)
    requires Fit(st, c) && Sane(st, k) && Placed(st, k, c, total) && c.reader.qi < |c.reader.queue| && skipTo <= Cap(k, st.head.preSkip)
    requires var n := k.dur(c.reader.queue[c.reader.qi]);
             if c.reader.finalGranule == -1 then total + n <= k.claim else k.eos && c.reader.finalGranule == k.claim
    ensures var p := c.reader.queue[c.reader.qi]; var f := Fill(st, c, skipTo); var cap := Cap(k, st.head.preSkip);
            && f.More? && f.core.reader == c.reader.(qi := c.reader.qi + 1) && f.core.pos == c.pos && Placed(st, k, f.core, total + k.dur(p))
            && |f.out| == Past(At(total + k.dur(p), st.head.preSkip, cap), Later(skipTo, c.delivered)) * FrameBytes(st)
            && (k.eos ==> Fill(st, c.(limit := cap), skipTo) == More(f.core.(limit := cap), f.out))
  {
    hide Fill, Pcm, Slice, PerChannel, Spanned, Past, Later, At, Follows, Truthful, Reachable;
    var p, cap := c.reader.queue[c.reader.qi], Cap(k, st.head.preSkip);
    var frame := st.codec.step(c.codec, p);
    assert p in k.packets;
    assert frame.Frame? && PerChannel(frame.samples, st.head.channels) == k.dur(p);
    ReachesOn(st.codec, k.packets, c.codec, p);
    FillServes(st, c, skipTo);
    FillServes(st, c.(limit := cap), skipTo);
    var limit := Learned(c.limit, c.reader, st.head.preSkip);
    PastCap(total + k.dur(p), k, st.head.preSkip);
    PacketMoves(total, k.dur(p), st.head.preSkip, cap, limit, skipTo);
    if limit == -1 { LimitMoves(total, k.dur(p), st.head.preSkip, cap, skipTo); }
    SliceCounts(frame.samples, st.head.channels, Spanned(c.preSkipLeft, c.delivered, limit, k.dur(p), skipTo));
    assert Learned(cap, c.reader, st.head.preSkip) == cap;
    assert k.eos ==> Spanned(c.preSkipLeft, c.delivered, cap, k.dur(p), skipTo) == Spanned(c.preSkipLeft, c.delivered, limit, k.dur(p), skipTo);
    var f := Fill(st, c, skipTo);
    assert f.More? && f.core.reader == c.reader.(qi := c.reader.qi + 1) && f.core.pos == c.pos;
    assert Placed(st, k, f.core, total + k.dur(p));
    assert |f.out| == Past(At(total + k.dur(p), st.head.preSkip, cap), Later(skipTo, c.delivered)) * FrameBytes(st);
    assert f.core.(limit := cap) == Core(f.core.reader, f.core.pos, f.core.codec, f.core.preSkipLeft, f.core.delivered, cap);
  }

  lemma PastCap(total: nat, k: Link, preSkip: nat)
    ensures total <= k.claim && Cap(k, preSkip) >= 0 ==> Past(total, preSkip) <= Cap(k, preSkip)
  {
  }

  lemma SliceCounts(samples: seq<int16>, channels: nat, s: Span)
    requires channels > 0 && s.first + s.count <= PerChannel(samples, channels)
    ensures |Pcm(Slice(samples, channels, s))| == s.count * (2 * channels)
  {
    Doubled(s.count, channels);
  }

  /** The bytes of a stretch, packet by packet. */
  lemma Telescopes(from: int, mid: int, to: int, skipTo: int, frame: nat)
    requires from <= mid <= to
    ensures Past(mid, Later(skipTo, from)) * frame + Past(to, Later(skipTo, mid)) * frame == Past(to, Later(skipTo, from)) * frame
  {
    SumTimes(Past(mid, Later(skipTo, from)), Past(to, Later(skipTo, mid)), frame);
  }

  /** What is still to come from a position: ends cleanly, as many bytes as samples remain, and
      the same whether the end trim is known yet or not. */
  ghost predicate Remains<T(!new)>(st: Stream<T>, k: Link, c: Core<T>, total: nat, skipTo: int)
    requires Fit(st, c) && st.head.channels > 0 && |k.trail.totals| == |k.refs| + 1
  {
    var rest := RestFrom(st, c, skipTo);
    && rest.1 == Ended
    && |rest.0| == Past(Samples(st, k), Later(skipTo, At(total, st.head.preSkip, Cap(k, st.head.preSkip)))) * FrameBytes(st)
    && (k.eos ==> RestFrom(st, c.(limit := Cap(k, st.head.preSkip)), skipTo) == rest)
  }

  lemma {:induction false} FromPage<T(!new)>(st: Stream<T>, k: Link, i: nat, c: Core<T>, skipTo: int)
    requires Fit(st, c) && Sane(st, k) && i <= |k.refs| && skipTo <= Cap(k, st.head.preSkip)
    requires |k.trail.readers| == |k.trail.totals| == |k.refs| + 1
    requires c.reader == k.trail.readers[i] && c.pos == From(k.a, k.refs, i) && Placed(st, k, c, k.trail.totals[i])
    ensures Remains(st, k, c, k.trail.totals[i], skipTo)
    decreases |k.refs| - i, 1, 0
  {
    hide *;
    Basics(st, k);
    if i == |k.refs| {
      AtLinkEnd(st, k, c, skipTo);
    } else {
      Facts(st, k, i);
      var r' := EnterPage(st, k, i, c, skipTo);
      var c' := c.(reader := r', pos := From(k.a, k.refs, i + 1));
      FromQueue(st, k, i, c', k.trail.totals[i], skipTo);
      Carried(st, k, c, c', k.trail.totals[i], skipTo);
    }
  }

  lemma Carried<T(!new)>(st: Stream<T>, k: Link, c: Core<T>, c': Core<T>, total: nat, skipTo: int)
    requires Fit(st, c) && Fit(st, c') && st.head.channels > 0 && |k.trail.totals| == |k.refs| + 1
    requires RestFrom(st, c, skipTo) == RestFrom(st, c', skipTo)
    requires k.eos ==> RestFrom(st, c.(limit := Cap(k, st.head.preSkip)), skipTo) == RestFrom(st, c'.(limit := Cap(k, st.head.preSkip)), skipTo)
    requires Remains(st, k, c', total, skipTo)
    ensures Remains(st, k, c, total, skipTo)
  {
    hide RestFrom;
  }

  lemma EnterPage<T(!new)>(st: Stream<T>, k: Link, i: nat, c: Core<T>, skipTo: int) returns (r': Reader)
    requires Fit(st, c) && Sane(st, k) && i < |k.refs| && st.head.channels > 0 && |k.trail.readers| == |k.trail.totals| == |k.refs| + 1
    requires c.reader == k.trail.readers[i] && c.pos == From(k.a, k.refs, i) && Placed(st, k, c, k.trail.totals[i])
    ensures var c' := c.(reader := r', pos := From(k.a, k.refs, i + 1)); var cap := Cap(k, st.head.preSkip);
            && Fit(st, c') && r'.qi == 0 && Served(r') == k.trail.readers[i + 1] && Placed(st, k, c', k.trail.totals[i])
            && k.trail.totals[i + 1] == k.trail.totals[i] + Total(r'.queue, k.dur)
            && RestFrom(st, c, skipTo) == RestFrom(st, c', skipTo)
            && RestFrom(st, c.(limit := cap), skipTo) == RestFrom(st, c'.(limit := cap), skipTo)
  {
    hide RestFrom, ProcessPage, Follows, Truthful, Layout, P.ParsePage, Past, At;
    Facts(st, k, i);
    r' := ProcessPage(c.reader, PageOf(st.src, k.refs[i].off)).reader;
    var next := From(k.a, k.refs, i + 1);
    ReadsOn(st, c, r', next, skipTo);
    ReadsOn(st, c.(limit := Cap(k, st.head.preSkip)), r', next, skipTo);
  }

  lemma AtLinkEnd<T(!new)>(st: Stream<T>, k: Link, c: Core<T>, skipTo: int)
    requires Fit(st, c) && Sane(st, k) && st.head.channels > 0 && |k.trail.readers| == |k.trail.totals| == |k.refs| + 1
    requires c.reader == k.trail.readers[|k.refs|] && c.pos == From(k.a, k.refs, |k.refs|)
    ensures Remains(st, k, c, k.trail.totals[|k.refs|], skipTo)
  {
    hide ProcessPage, Layout, P.ParsePage;
    var n := |k.refs|;
    assert c.reader.qi >= |c.reader.queue|;
    if k.eos {
      assert c.reader.sawEos;
    } else {
      assert c.pos == |st.src| by { LinkEnds(st.src, k.a, k.b, k.serial, k.refs); }
    }
    assert NextPacket(st.src, c.reader, c.pos).0 == End;
    hide At;
  }

  lemma LinkEnds(src: seq<byte>, a: nat, b: nat, serial: P.uint32, refs: seq<S.PageRef>)
    requires Layout(src, a, b, serial, refs)
    ensures From(a, refs, |refs|) == b
  {
  }

  lemma {:induction false} FromQueue<T(!new)>(st: Stream<T>, k: Link, i: nat, c: Core<T>, total: nat, skipTo: int)
    requires Fit(st, c) && Sane(st, k) && i < |k.refs| && st.head.channels > 0 && skipTo <= Cap(k, st.head.preSkip)
    requires |k.trail.readers| == |k.trail.totals| == |k.refs| + 1
    requires Served(c.reader) == k.trail.readers[i + 1] && c.pos == From(k.a, k.refs, i + 1) && Placed(st, k, c, total)
    requires k.trail.totals[i + 1] == total + Total(c.reader.queue[c.reader.qi..], k.dur)
    ensures Remains(st, k, c, total, skipTo)
    decreases |k.refs| - i, 0, |c.reader.queue| - c.reader.qi
  {
    hide *;
    if c.reader.qi < |c.reader.queue| {
      var p := c.reader.queue[c.reader.qi];
      NextUp(st, k, i, c, total);
      Rises(st, k, i + 1);
      PacketCounts(st, k, c, total, skipTo);
      var f := Fill(st, c, skipTo);
      SameServed(c.reader);
      FromQueue(st, k, i, f.core, total + k.dur(p), skipTo);
      OneOff(st, k, c, total, k.dur(p), skipTo);
    } else {
      var c' := c.(reader := Served(c.reader));
      QueueDone(st, k, i, c, total);
      ServedRest(st, c, skipTo);
      ServedRest(st, c.(limit := Cap(k, st.head.preSkip)), skipTo);
      FromPage(st, k, i + 1, c', skipTo);
      Carried(st, k, c, c', total, skipTo);
    }
  }

  lemma Basics<T(!new)>(st: Stream<T>, k: Link)
    requires Sane(st, k)
    ensures st.head.channels > 0 && |k.trail.readers| == |k.trail.totals| == |k.refs| + 1
  {
  }

  lemma SameServed(r: Reader)
    requires r.qi < |r.queue|
    ensures Served(r.(qi := r.qi + 1)) == Served(r)
    ensures |r.(qi := r.qi + 1).queue| - r.(qi := r.qi + 1).qi == |r.queue| - r.qi - 1
    ensures r.(qi := r.qi + 1).queue[r.(qi := r.qi + 1).qi..] == r.queue[r.qi + 1..]
  {
  }

  lemma {:induction false} Rises<T(!new)>(st: Stream<T>, k: Link, i: nat)
    requires Sane(st, k) && i <= |k.refs| && |k.trail.totals| == |k.refs| + 1
    ensures k.trail.totals[i] <= k.trail.totals[|k.refs|]
    decreases |k.refs| - i
  {
    hide *;
    if i < |k.refs| {
      Facts(st, k, i);
      Rises(st, k, i + 1);
    }
  }

  lemma QueueDone<T(!new)>(st: Stream<T>, k: Link, i: nat, c: Core<T>, total: nat)
    requires Fit(st, c) && |k.trail.totals| == |k.refs| + 1 && i < |k.refs| && c.reader.qi >= |c.reader.queue| && Placed(st, k, c, total)
    requires k.trail.totals[i + 1] == total + Total(c.reader.queue[c.reader.qi..], k.dur)
    ensures k.trail.totals[i + 1] == total && c.reader.qi == |c.reader.queue|
    ensures Placed(st, k, c.(reader := Served(c.reader)), total) && Fit(st, c.(limit := Cap(k, st.head.preSkip)))
  {
  }

  lemma NextUp<T(!new)>(st: Stream<T>, k: Link, i: nat, c: Core<T>, total: nat)
    requires Sane(st, k) && i < |k.refs| && |k.trail.readers| == |k.trail.totals| == |k.refs| + 1
    requires Served(c.reader) == k.trail.readers[i + 1] && c.reader.qi < |c.reader.queue|
    requires k.trail.totals[i + 1] == total + Total(c.reader.queue[c.reader.qi..], k.dur)
    ensures var n := k.dur(c.reader.queue[c.reader.qi]);
            && (if c.reader.finalGranule == -1 then total + n <= k.claim else k.eos && c.reader.finalGranule == k.claim)
            && k.trail.totals[i + 1] == (total + n) + Total(c.reader.queue[c.reader.qi + 1..], k.dur)
  {
    Facts(st, k, i);
    var rest := c.reader.queue[c.reader.qi..];
    assert rest[1..] == c.reader.queue[c.reader.qi + 1..];
    if !(k.eos && i == |k.refs| - 1) { BelowClaim(st, k, i + 1); }
  }

  /** One packet's bytes and what comes after it. */
  lemma OneOff<T(!new)>(st: Stream<T>, k: Link, c: Core<T>, total: nat, n: nat, skipTo: int)
    requires Fit(st, c) && st.head.channels > 0 && |k.trail.totals| == |k.refs| + 1 && Placed(st, k, c, total) && skipTo <= Cap(k, st.head.preSkip)
    requires var f := Fill(st, c, skipTo); var cap := Cap(k, st.head.preSkip);
             && f.More? && Remains(st, k, f.core, total + n, skipTo)
             && |f.out| == Past(At(total + n, st.head.preSkip, cap), Later(skipTo, c.delivered)) * FrameBytes(st)
             && (k.eos ==> Fill(st, c.(limit := cap), skipTo) == More(f.core.(limit := cap), f.out))
    requires total + n <= k.trail.totals[|k.refs|]
    ensures Remains(st, k, c, total, skipTo)
  {
    hide Fill, FrameBytes;
    var cap := Cap(k, st.head.preSkip);
    Telescopes(At(total, st.head.preSkip, cap), At(total + n, st.head.preSkip, cap), Samples(st, k), skipTo, FrameBytes(st));
  }

  // ---------------------------------------------------------------- landing in the middle

  /** A reader dropped on a page boundary: nothing pending, nothing queued. */
  predicate Repositioned(r: Reader) {
    r.Valid() && r.partial == [] && r.queue == [] && r.qi == 0 && !r.sawEos && r.finalGranule == -1
  }

  /** Past the first packet end, what was pending before a page no longer shows. */
  lemma {:induction false} TailPartial(segs: seq<byte>, body: seq<byte>, p: Packet, q: Packet, limit: nat)
    requires P.Sum(segs) == |body| && |q| <= |p| <= limit && Segments(segs, body, p, 0, limit).Cut?
    requires exists j :: 0 <= j < |segs| && segs[j] < P.MAX_SEGMENT
    ensures var c := Segments(segs, body, p, 0, limit); var d := Segments(segs, body, q, 0, limit);
            d.Cut? && d.partial == c.partial && d.headers == c.headers == 0
    decreases |segs|
  {
    hide Segments, P.Sum;
    FirstSegment(segs, body, p, 0, limit);
    FirstSegment(segs, body, q, 0, limit);
    var l := segs[0];
    if l >= P.MAX_SEGMENT {
      var j :| 0 <= j < |segs| && segs[j] < P.MAX_SEGMENT;
      assert segs[1..][j - 1] == segs[j];
      TailPartial(segs[1..], body[l..], Grown(p, body[..l], limit), Grown(q, body[..l], limit), limit);
    }
  }

  /** Taking in one page that completes a packet and carries a granule leaves the same reader
      whether the pages before it were taken in or not. */
  lemma PageForgets(r: Reader, q: Reader, pg: P.Page)
    requires r.Valid() && Repositioned(q) && pg.Writable() && pg.CompletesPacket() && pg.granule >= 0
    requires r.headers == 0 == q.headers && r.limit == q.limit && r.serialSet && q.serialSet && r.serial == q.serial
    requires var p := ProcessPage(r, pg); p.Done? && !p.reader.sawEos && p.reader.finalGranule == -1
    ensures var p := ProcessPage(q, pg); p.Done? && Served(p.reader) == Served(ProcessPage(r, pg).reader)
  {
    hide Segments;
    var partial := if pg.Has(P.CONTINUED) then r.partial else [];
    TailPartial(pg.segTable, pg.body, partial, [], r.limit);
  }

  lemma {:induction false} Steady<T(!new)>(st: Stream<T>, k: Link, i: nat)
    requires Sane(st, k) && i < |k.trail.readers|
    ensures k.trail.readers != [] && Settled(k.trail.readers[i], k.trail.readers[0])
    ensures k.trail.readers[i].headers == 0 && k.trail.readers[i].serialSet && k.trail.readers[i].serial == k.serial
  {
    hide ProcessPage, P.ParsePage, Layout, Truthful;
    if i > 0 {
      Steady(st, k, i - 1);
      assert Passes(st.src, k.refs[i - 1].off, k.trail.readers[i - 1], k.trail.readers[i], k.trail.totals[i - 1], k.trail.totals[i], k.packets, k.dur);
    }
  }

  lemma Fields(src: seq<byte>, r: S.PageRef)
    requires S.PageAt(src, r.off) == S.Found(r)
    ensures r.off <= |src| && P.ParsePage(src[r.off..]).Parsed?
    ensures var pg := PageOf(src, r.off);
            r.granule == pg.granule && (r.hasGranule ==> pg.granule >= 0 && pg.CompletesPacket())
  {
    hide P.ParsePage;
  }

  lemma EosGranule(r: Reader, pg: P.Page)
    requires r.Valid() && pg.Writable() && pg.granule >= 0
    requires var p := ProcessPage(r, pg); p.Done? && !r.sawEos && p.reader.sawEos
    ensures ProcessPage(r, pg).reader.finalGranule == pg.granule
  {
    hide Segments;
  }

  /** A page that qualifies short of the stream's end is not the end-of-stream page. */
  lemma NotTheLast<T(!new)>(st: Stream<T>, k: Link, i: nat, pre: int)
    requires Sane(st, k) && i < |k.refs| && Qualifies(k.refs[i], st.head.preSkip, pre) && pre < Cap(k, st.head.preSkip)
    ensures !(k.eos && i == |k.refs| - 1)
  {
    if k.eos && i == |k.refs| - 1 {
      Facts(st, k, i);
      OnePage(st.src, k.a, k.b, k.serial, k.refs, i);
      Fields(st.src, k.refs[i]);
      hide ProcessPage, P.ParsePage, Layout;
      EosGranule(k.trail.readers[i], PageOf(st.src, k.refs[i].off));
    }
  }

  /** Landing on such a page puts the container where sequential decoding has it after that
      page, at the sample its granule names. */
  lemma Lands<T(!new)>(st: Stream<T>, k: Link, i: nat, pre: int, q: Reader)
    requires Sane(st, k) && i < |k.refs| && Qualifies(k.refs[i], st.head.preSkip, pre) && pre < Cap(k, st.head.preSkip)
    requires |k.trail.readers| == |k.trail.totals| == |k.refs| + 1 && Repositioned(q) && Settled(q, k.trail.readers[0])
    ensures k.refs[i].off <= |st.src| && P.ParsePage(st.src[k.refs[i].off..]).Parsed?
    ensures var p := ProcessPage(q, PageOf(st.src, k.refs[i].off));
            p.Done? && Served(p.reader) == k.trail.readers[i + 1] && k.refs[i].granule == k.trail.totals[i + 1]
    ensures forall c: Core<T> | c.codec == st.codec.initial && c.reader.qi == |c.reader.queue| && c.preSkipLeft == 0 && c.delivered == k.refs[i].granule - st.head.preSkip
                                && (c.limit == -1 || (k.eos && c.limit == Cap(k, st.head.preSkip))) :: Placed(st, k, c, k.trail.totals[i + 1])
  {
    hide ProcessPage, P.ParsePage, Layout;
    Steady(st, k, i);
    Steady(st, k, 0);
    Facts(st, k, i);
    OnePage(st.src, k.a, k.b, k.serial, k.refs, i);
    Fields(st.src, k.refs[i]);
    NotTheLast(st, k, i, pre);
    BelowClaim(st, k, i + 1);
    PastCap(k.trail.totals[i + 1], k, st.head.preSkip);
    PageForgets(k.trail.readers[i], q, PageOf(st.src, k.refs[i].off));
    InitiallyReached(st.codec, k.packets);
  }

  /** Walking to a target drops exactly what decoding from there does not want. */
  lemma {:induction false} WalkRest<T(!new)>(st: Stream<T>, d: Core<T>, pcm: seq<byte>, target: int)
    requires Fit(st, d) && st.head.channels > 0 && 0 <= d.delivered && (d.delivered <= target ==> pcm == [])
    ensures var rest := RestFrom(st, d, target);
            match Walk(st, d, pcm, target)
            case Reached(d', out) => (out + RestFrom(st, d', target).0, RestFrom(st, d', target).1) == (pcm + rest.0, rest.1) && d'.delivered >= target
            case RanOut(_) => rest == ([], Ended)
            case Broke(fault, _) => rest == ([], Stopped(fault))
    decreases |st.src| - d.pos, |d.reader.queue| - d.reader.qi
  {
    hide Fill;
    if d.delivered < target {
      FillAhead(st, d, d, target);
      var f := Fill(st, d, target);
      if f.More? {
        var rest := RestFrom(st, f.core, target);
        assert [] + rest.0 == rest.0;
        if f.core.delivered < target {
          WalkRest(st, f.core, f.out, target);
        } else {
          assert RestFrom(st, d, target) == (f.out + rest.0, rest.1);
          assert Walk(st, d, pcm, target) == Reached(f.core, f.out);
          assert pcm + (f.out + rest.0) == f.out + rest.0;
        }
      }
    }
  }

  /** Decoding on from a page boundary to a target short of the end gets there, with exactly the
      samples from the target on still to come. */
  lemma JumpYields<T(!new)>(st: Stream<T>, k: Link, i: nat, d: Core<T>, target: int)
    requires Fit(st, d) && Sane(st, k) && i <= |k.refs| && |k.trail.readers| == |k.trail.totals| == |k.refs| + 1 && st.head.channels > 0
    requires Served(d.reader) == k.trail.readers[i] && d.reader.qi == |d.reader.queue| && d.pos == From(k.a, k.refs, i)
    requires Placed(st, k, d, k.trail.totals[i]) && 0 <= d.delivered <= target < Samples(st, k) == Cap(k, st.head.preSkip)
    ensures var w := Walk(st, d, [], target);
            && w.Reached? && w.core.delivered >= target
            && (w.pcm + RestFrom(st, w.core, target).0, RestFrom(st, w.core, target).1) == RestFrom(st, d, target)
            && RestFrom(st, d, target).1 == Ended && |RestFrom(st, d, target).0| == (Samples(st, k) - target) * FrameBytes(st)
  {
    hide *;
    var c := d.(reader := Served(d.reader));
    ServedRest(st, d, target);
    SamePlace(st, k, d, k.trail.totals[i]);
    FromPage(st, k, i, c, target);
    WalkRest(st, d, [], target);
    LengthOf(st, k, c, k.trail.totals[i], target);
    var w := Walk(st, d, [], target);
    assert [] + RestFrom(st, d, target).0 == RestFrom(st, d, target).0;
    Positive(Samples(st, k) - target, FrameBytes(st));
    FrameSome(st);
  }

  lemma SamePlace<T(!new)>(st: Stream<T>, k: Link, d: Core<T>, total: nat)
    requires Placed(st, k, d, total)
    ensures Placed(st, k, d.(reader := Served(d.reader)), total)
    ensures d.delivered == At(total, st.head.preSkip, Cap(k, st.head.preSkip))
  {
  }

  lemma LengthOf<T(!new)>(st: Stream<T>, k: Link, c: Core<T>, total: nat, target: int)
    requires Fit(st, c) && st.head.channels > 0 && |k.trail.totals| == |k.refs| + 1 && Remains(st, k, c, total, target)
    requires At(total, st.head.preSkip, Cap(k, st.head.preSkip)) <= target < Samples(st, k)
    ensures RestFrom(st, c, target).1 == Ended && |RestFrom(st, c, target).0| == (Samples(st, k) - target) * FrameBytes(st)
    ensures k.eos ==> RestFrom(st, c.(limit := Cap(k, st.head.preSkip)), target) == RestFrom(st, c, target)
  {
    hide RestFrom, FrameBytes;
  }

  lemma FrameSome<T>(st: Stream<T>)
    requires st.head.channels > 0
    ensures FrameBytes(st) > 0
  {
  }

  lemma Positive(n: int, k: nat)
    ensures n > 0 && k > 0 ==> n * k > 0
  {
  }

  /** The whole of the link. */
  lemma WholeLength<T(!new)>(st: Stream<T>, k: Link, start: Core<T>)
    requires Fit(st, start) && Sane(st, k) && |k.trail.readers| == |k.trail.totals| == |k.refs| + 1 && st.head.channels > 0
    requires Served(start.reader) == k.trail.readers[0] && start.reader.qi == |start.reader.queue| && start.pos == k.a
    requires start.preSkipLeft == st.head.preSkip && start.delivered == 0 && start.limit == -1 && k.trail.totals[0] == 0
    requires start.codec == st.codec.initial
    ensures Placed(st, k, start, 0)
    ensures RestFrom(st, start, 0).1 == Ended && |RestFrom(st, start, 0).0| == Samples(st, k) * FrameBytes(st)
  {
    hide RestFrom, Follows, Truthful, FrameBytes, Fit, Timed, Served;
    ServedRest(st, start, 0);
    InitiallyReached(st.codec, k.packets);
    FirstFrom(k.a, k.refs);
    SamePlace(st, k, start, 0);
    FromPage(st, k, 0, start.(reader := Served(start.reader)), 0);
  }

  /** From the start, knowing the end trim beforehand or not, what a target leaves is exactly the
      sequential decode from it. */
  lemma RestartExact<T(!new)>(st: Stream<T>, k: Link, start: Core<T>, d: Core<T>, target: int)
    requires Fit(st, start) && Sane(st, k) && |k.trail.readers| == |k.trail.totals| == |k.refs| + 1 && st.head.channels > 0
    requires Served(start.reader) == k.trail.readers[0] && start.reader.qi == |start.reader.queue| && start.pos == k.a
    requires start.preSkipLeft == st.head.preSkip && start.delivered == 0 && start.limit == -1 && k.trail.totals[0] == 0
    requires start.codec == st.codec.initial
    requires d == start.(limit := d.limit) && (d.limit == -1 || (k.eos && d.limit == Cap(k, st.head.preSkip)))
    requires 0 <= target < Samples(st, k) == Cap(k, st.head.preSkip)
    ensures Fit(st, d) && RestFrom(st, d, target) == (Drop(RestFrom(st, start, 0).0, target * FrameBytes(st)), Ended)
  {
    hide RestFrom, Follows, Truthful, FrameBytes, Timed, Served, Walk, Fill, Drop;
    WholeLength(st, k, start);
    FirstFrom(k.a, k.refs);
    ServedRest(st, start, target);
    ServedRest(st, start.(limit := Cap(k, st.head.preSkip)), target);
    SamePlace(st, k, start, 0);
    FromPage(st, k, 0, start.(reader := Served(start.reader)), target);
    LengthOf(st, k, start.(reader := Served(start.reader)), 0, target);
    FromStart(st, k, start, target);
  }

  lemma FromStart<T(!new)>(st: Stream<T>, k: Link, start: Core<T>, target: int)
    requires Fit(st, start) && Sane(st, k) && |k.trail.readers| == |k.trail.totals| == |k.refs| + 1 && st.head.channels > 0
    requires Served(start.reader) == k.trail.readers[0] && start.reader.qi == |start.reader.queue| && start.pos == From(k.a, k.refs, 0)
    requires Placed(st, k, start, k.trail.totals[0]) && start.delivered == 0 <= target < Samples(st, k) == Cap(k, st.head.preSkip)
    ensures RestFrom(st, start, target) == (Drop(RestFrom(st, start, 0).0, target * FrameBytes(st)), RestFrom(st, start, 0).1)
  {
    hide *;
    if target > 0 {
      JumpYields(st, k, 0, start, target);
      StartsInStep(st, start);
      var m := WalkLands(st, start, 0, start, [], target);
    } else {
      NothingDropped(RestFrom(st, start, 0).0, FrameBytes(st));
    }
  }

  lemma NothingDropped(s: seq<byte>, frame: nat)
    ensures Drop(s, 0 * frame) == s
  {
  }
}
