/** Scanning raw bytes for pages through one reused window. */
module Scan {
  import opened Crc
  import P = Page

  const WINDOW := 2 * P.MAX_PAGE

  /** A page located in the source. */
  datatype PageRef = PageRef(off: nat, end: nat, granule: P.int64, serial: P.uint32, hasGranule: bool, eos: bool)

  datatype Found = Found(ref: PageRef) | NotFound

  function RefOf(pg: P.Page, off: nat, n: nat): (r: PageRef)
    ensures r.off == off && r.end == off + n
  {
    PageRef(off, off + n, pg.granule, pg.serial, pg.granule >= 0 && pg.CompletesPacket(), pg.Has(P.EOS))
  }

  /** The valid page that starts exactly at `off`, if there is one. */
  function PageAt(src: seq<byte>, off: nat): (f: Found)
    ensures f.Found? ==> f.ref.off == off < f.ref.end <= |src| && f.ref.end <= off + P.MAX_PAGE
  {
    if off > |src| then NotFound
    else
      match P.ParsePage(src[off..])
      case Parsed(pg, n) => Found(RefOf(pg, off, n))
      case _ => NotFound
  }

  predicate Captures(b: seq<byte>, i: nat) {
    i + 4 <= |b| && b[i..i + 4] == P.CAPTURE
  }

  lemma PageCaptures(src: seq<byte>, off: nat)
    ensures PageAt(src, off).Found? ==> Captures(src, off)
  {
    hide P.PageCrc, P.Sum, P.UnLe32, P.UnLe64;
    if off <= |src| && P.ParsePage(src[off..]).Parsed? {
      assert src[off..][..4] == src[off..off + 4];
    }
  }

  /** `buf` is what the source holds from `off` on: all of it, or at least a page. */
  predicate Window(src: seq<byte>, off: nat, buf: seq<byte>, eof: bool) {
    && |buf| <= WINDOW && (eof || |buf| >= P.MAX_PAGE)
    && (if off > |src| then buf == [] && eof else buf <= src[off..] && (eof ==> buf == src[off..]))
  }

  /** Inside a window a page parses as it does in the source, unless the window ends first. */
  lemma ParseInWindow(src: seq<byte>, off: nat, buf: seq<byte>, eof: bool, c: nat)
    requires Window(src, off, buf, eof) && c <= |buf|
    ensures var r := P.ParsePage(buf[c..]); var f := PageAt(src, off + c);
            && (r.Parsed? ==> f == Found(RefOf(r.page, off + c, r.len)))
            && (r.Bad? ==> f == NotFound)
            && (r.Short? ==> |buf| - c < P.MAX_PAGE && (eof ==> f == NotFound) && (f.Found? ==> f.ref.end > off + |buf|))
  {
    hide P.ParsePage;
    if off <= |src| {
      var s := src[off..];
      assert buf == s[..|buf|];
      assert src[off + c..] == s[c..];
      assert buf[c..] <= s[c..];
      P.ParseOfPrefix(buf[c..], s[c..]);
    } else {
      TooShort();
    }
  }

  lemma TooShort()
    ensures P.ParsePage([]).Short?
  {
  }

  /** bytes.Index: the first place the capture pattern starts, or none. */
  method Index(b: seq<byte>) returns (found: bool, j: nat)
    ensures if found then Captures(b, j) && forall i | 0 <= i < j :: !Captures(b, i) else forall i | 0 <= i :: !Captures(b, i)
  {
    j := 0;
    while j + 4 <= |b|
      invariant forall i | 0 <= i < j :: !Captures(b, i)
    {
      if b[j..j + 4] == P.CAPTURE { return true, j; }
      j := j + 1;
    }
    return false, 0;
  }

  /** bytes.LastIndex. */
  method LastIndex(b: seq<byte>) returns (found: bool, c: nat)
    ensures if found then Captures(b, c) && forall i | c < i :: !Captures(b, i) else forall i | 0 <= i :: !Captures(b, i)
  {
    var k: nat := |b|;
    while k > 0
      invariant k <= |b| && forall i | k <= i :: !Captures(b, i)
    {
      k := k - 1;
      if k + 4 <= |b| && b[k..k + 4] == P.CAPTURE { return true, k; }
    }
    return false, 0;
  }

  lemma CapturesWithin(src: seq<byte>, off: nat, buf: seq<byte>, eof: bool, i: nat, stop: nat, k: nat)
    requires Window(src, off, buf, eof) && off <= |src| && i <= k && k + 4 <= stop <= |buf|
    ensures Captures(src, off + k) <==> Captures(buf[i..stop], k - i)
  {
    assert buf == src[off..][..|buf|];
    assert buf[i..stop][k - i..k - i + 4] == buf[k..k + 4];
    assert buf[k..k + 4] == src[off + k..off + k + 4];
  }

  // ---------------------------------------------------------------- the scanner's window

  /** The window last read: where it begins, how much it holds, whether the source ends with it. */
  datatype Cache = Cache(off: nat, len: nat, eof: bool, valid: bool) {
    function End(): (e: nat) { off + len }
  }

  function Fresh(src: seq<byte>, at: nat): (w: Cache) {
    if at > |src| then Cache(at, 0, true, true)
    else if |src| - at < WINDOW then Cache(at, |src| - at, true, true)
    else Cache(at, WINDOW, false, true)
  }

  predicate Holds(src: seq<byte>, k: Cache) {
    k.valid ==> k == Fresh(src, k.off)
  }

  /** The window for position `at`: the one at hand if it reaches far enough, else a new one. */
  function Load(src: seq<byte>, k: Cache, at: nat): (w: Cache) {
    if k.valid && k.off <= at < k.End() && (k.End() - at >= P.MAX_PAGE || k.eof) then k else Fresh(src, at)
  }

  /** What the source holds from `at` to the end of the window. */
  function Held(src: seq<byte>, w: Cache, at: nat): (b: seq<byte>) {
    if at <= w.End() <= |src| then src[at..w.End()] else []
  }

  lemma Loaded(src: seq<byte>, k: Cache, at: nat)
    requires Holds(src, k)
    ensures var w := Load(src, k, at);
            && Holds(src, w) && w.valid && w.off <= at && (w.eof || w.len == WINDOW) && (w.eof || w.End() >= at + P.MAX_PAGE)
            && (w == k || w.off == at) && (at <= |src| ==> at <= w.End() <= |src|) && (at > |src| ==> w.End() == at && w.eof)
            && (w.eof && at <= |src| ==> w.End() == |src|)
            && Window(src, at, Held(src, w, at), w.eof) && |Held(src, w, at)| == w.End() - at
  {
    var w := Load(src, k, at);
    if at <= |src| { assert src[at..w.End()] == src[at..][..w.End() - at]; }
  }

  // ---------------------------------------------------------------- looking for a page

  /** What a capture in the window turned out to be. */
  datatype Hit = Parses(ref: PageRef) | Straddles(c: nat) | Nothing

  /** The first capture from `c` on, starting before `lim`, that parses, or that may parse once
      the window starts there. */
  function Look(src: seq<byte>, at: nat, end: nat, eof: bool, lim: nat, c: nat): (h: Hit)
    requires at + lim <= end <= |src|
    ensures h.Straddles? ==> 0 < h.c < lim
    decreases lim - c
  {
    if c >= lim || at + c + 4 > end then Nothing
    else if !Captures(src, at + c) then Look(src, at, end, eof, lim, c + 1)
    else
      match P.ParsePage(src[at + c..end])
      case Parsed(pg, n) => Parses(RefOf(pg, at + c, n))
      case Short =>
        if c > 0 && end - (at + c) < P.MAX_PAGE && !eof then Straddles(c) else Look(src, at, end, eof, lim, c + 1)
      case Bad(_) => Look(src, at, end, eof, lim, c + 1)
  }

  /** What a search finds, and the window it ends with. */
  function Forward(src: seq<byte>, k: Cache, pos: nat, bound: nat): (r: (Found, Cache))
    requires Holds(src, k)
    decreases bound - pos
  {
    if pos >= bound then (NotFound, k)
    else
      Loaded(src, k, pos);
      var w := Load(src, k, pos);
      if w.End() <= pos then (NotFound, w)
      else
        var lim := Lim(w.End() - pos, bound - pos);
        match Look(src, pos, w.End(), w.eof, lim, 0)
        case Parses(ref) => (Found(ref), w)
        case Straddles(c) => Forward(src, w, pos + c, bound)
        case Nothing => Forward(src, w, pos + (if lim == w.End() - pos && !w.eof then lim - 3 else lim), bound)
  }

  function Max(a: int, b: int): (m: int) { if a > b then a else b }

  function Lim(held: nat, left: nat): (lim: nat) { if held > left then left else held }

  /** A search from `from` that finds the first page to start in its range, or that there is none. */
  ghost predicate IsFirst(src: seq<byte>, from: nat, bound: nat, f: Found) {
    match f
    case Found(r) => from <= r.off < bound && PageAt(src, r.off) == f && forall o | from <= o < r.off :: PageAt(src, o).NotFound?
    case NotFound => forall o | from <= o < bound :: PageAt(src, o).NotFound?
  }

  lemma {:induction false} LookSees(src: seq<byte>, at: nat, end: nat, eof: bool, lim: nat, c: nat)
    requires at + lim <= end <= |src| && Window(src, at, src[at..end], eof) && c <= lim
    ensures match Look(src, at, end, eof, lim, c)
            case Parses(r) => at + c <= r.off < at + lim && r.off + 4 <= end && PageAt(src, r.off) == Found(r) && forall o | at + c <= o < r.off :: PageAt(src, o).NotFound?
            case Straddles(d) => c <= d && forall o | at + c <= o < at + d :: PageAt(src, o).NotFound?
            case Nothing => forall o | at + c <= o < at + lim && (eof || o + 4 <= end) :: PageAt(src, o).NotFound?
    decreases lim - c
  {
    hide P.ParsePage, PageAt, Window;
    if c < lim {
      if at + c + 4 > end {
        Tail(src, at, end, eof);
      } else {
        PageCaptures(src, at + c);
        var b := src[at..end];
        assert b[c..] == src[at + c..end];
        Sizes(src, at, b, eof);
        ParseInWindow(src, at, b, eof, c);
        LookSees(src, at, end, eof, lim, c + 1);
      }
    }
  }

  /** At the end of the source no page starts in the last bytes. */
  lemma Tail(src: seq<byte>, at: nat, end: nat, eof: bool)
    requires at <= end <= |src| && Window(src, at, src[at..end], eof)
    ensures eof ==> forall o: nat | o + 4 > end :: PageAt(src, o).NotFound?
  {
    if eof {
      assert src[at..end] == src[at..];
      assert end == |src|;
      forall o: nat | o + 4 > end ensures PageAt(src, o).NotFound? { PageCaptures(src, o); }
    }
  }

  lemma Past(src: seq<byte>, k: Cache, pos: nat, bound: nat)
    requires Holds(src, k) && pos >= bound
    ensures Forward(src, k, pos, bound) == (NotFound, k)
  {
  }

  /** One window of a search. */
  lemma Steps(src: seq<byte>, k: Cache, pos: nat, bound: nat)
    requires Holds(src, k) && pos < bound
    ensures var w := Load(src, k, pos);
            && Holds(src, w) && |Held(src, w, pos)| == w.End() - pos
            && (w.End() <= pos ==> Forward(src, k, pos, bound) == (NotFound, w))
            && (w.End() > pos ==>
                  var lim := Lim(w.End() - pos, bound - pos);
                  && w.End() <= |src| && Held(src, w, pos) == src[pos..w.End()] && (w.eof || w.End() - pos >= P.MAX_PAGE)
                  && Forward(src, k, pos, bound) == match Look(src, pos, w.End(), w.eof, lim, 0)
                       case Parses(ref) => (Found(ref), w)
                       case Straddles(c) => Forward(src, w, pos + c, bound)
                       case Nothing => Forward(src, w, pos + (if lim == w.End() - pos && !w.eof then lim - 3 else lim), bound))
  {
    hide Look, Load, Window;
    Loaded(src, k, pos);
  }

  /** The page found is the first; when none is found, none is there that the last window holds the
      capture pattern of, and that window reaches past the bound. */
  lemma {:induction false} ForwardSees(src: seq<byte>, k: Cache, pos: nat, bound: nat)
    requires Holds(src, k)
    ensures var (f, w) := Forward(src, k, pos, bound);
            && Holds(src, w)
            && (f.Found? ==> IsFirst(src, pos, bound, f) && w.off <= f.ref.off && f.ref.off + 4 <= w.End())
            && (f.NotFound? ==> forall o | pos <= o < bound && (w.eof || o + 4 <= w.End()) :: PageAt(src, o).NotFound?)
            && (pos < bound ==> w.valid && (w.eof || (w.len == WINDOW && w.End() >= pos + P.MAX_PAGE)) && (w == k || w.off >= pos))
            && (f.NotFound? && pos < bound ==> w.eof || bound < w.End())
            && (pos >= bound ==> f.NotFound? && w == k)
    decreases bound - pos
  {
    hide PageAt, Look, Load, Window, Holds, Forward, Held;
    if pos >= bound {
      Past(src, k, pos, bound);
    } else {
      Loaded(src, k, pos);
      Steps(src, k, pos, bound);
      var w := Load(src, k, pos);
      if w.End() <= pos {
        NothingBeyond(src, pos, Held(src, w, pos), w.eof);
      } else {
        var lim := Lim(w.End() - pos, bound - pos);
        LookSees(src, pos, w.End(), w.eof, lim, 0);
        match Look(src, pos, w.End(), w.eof, lim, 0)
        case Parses(ref) =>
        case Straddles(c) => ForwardSees(src, w, pos + c, bound);
        case Nothing => ForwardSees(src, w, pos + (if lim == w.End() - pos && !w.eof then lim - 3 else lim), bound);
      }
    }
  }

  /** Exactly when a search misses a page: the first page of the range starts so near the bound
      that the window the search ends with, which the source outlives, holds only part of its
      capture pattern. */
  lemma MissesExactly(src: seq<byte>, k: Cache, from: nat, bound: nat)
    requires Holds(src, k)
    ensures var (f, w) := Forward(src, k, from, bound);
            !IsFirst(src, from, bound, f) <==>
            exists o :: from <= o < bound && o + 4 > w.End() && !w.eof && PageAt(src, o).Found? && forall x | from <= x < o :: PageAt(src, x).NotFound?
    ensures forall o | from <= o && o + 2 < bound && PageAt(src, o).Found? :: !Forward(src, k, from, bound).0.NotFound?
  {
    hide PageAt, Forward, Holds;
    ForwardSees(src, k, from, bound);
    var (f, w) := Forward(src, k, from, bound);
    if f.NotFound? && exists x :: from <= x < bound && PageAt(src, x).Found? {
      var o := FirstStart(src, from, bound);
      assert o + 4 > w.End() && !w.eof;
    }
  }

  lemma {:induction false} FirstStart(src: seq<byte>, from: nat, bound: nat) returns (o: nat)
    requires exists x :: from <= x < bound && PageAt(src, x).Found?
    ensures from <= o < bound && PageAt(src, o).Found? && forall x | from <= x < o :: PageAt(src, x).NotFound?
    decreases bound - from
  {
    hide PageAt;
    if PageAt(src, from).Found? { o := from; } else { o := FirstStart(src, from + 1, bound); }
  }

  /** The windows of a search through bytes without a capture follow on from one another, three
      bytes shared: where the one ends that reaches past the bound. */
  function LastEnd(end: nat, bound: nat): (e: nat)
    ensures e > bound && (end <= bound ==> e <= bound + WINDOW - 3)
    decreases bound + 1 - end
  {
    if end > bound then end else LastEnd(end - 3 + WINDOW, bound)
  }

  ghost predicate Quiet(src: seq<byte>, from: nat, to: nat) {
    forall o | from <= o < to :: !Captures(src, o)
  }

  /** Known before the search: when nothing before the page looks like one, the page is missed
      exactly if the windows counted on from the first end inside its capture pattern. */
  lemma {:induction false} QuietMisses(src: seq<byte>, k: Cache, from: nat, bound: nat, o: nat)
    requires Holds(src, k) && from <= o < bound && Quiet(src, from, o) && PageAt(src, o).Found?
    ensures var end := LastEnd(Load(src, k, from).End(), bound);
            var f := Forward(src, k, from, bound).0;
            && f == (if !Load(src, k, from).eof && o + 4 > end && end <= |src| then NotFound else PageAt(src, o))
    decreases bound - from
  {
    hide P.ParsePage, Look, Load, Holds, Forward, LastEnd, Quiet, PageAt, Window;
    PageEnds(src, o);
    Loaded(src, k, from);
    Steps(src, k, from, bound);
    var w := Load(src, k, from);
    var lim := Lim(w.End() - from, bound - from);
    LastEndStep(w.End(), bound);
    if o + 4 <= w.End() {
      LookFinds(src, from, w.End(), w.eof, lim, 0, o);
      if Look(src, from, w.End(), w.eof, lim, 0).Straddles? {
        QuietNone(src, o);
        QuietMisses(src, w, o, bound, o);
        Loaded(src, w, o);
        LastEndStep(Load(src, w, o).End(), bound);
      }
    } else {
      LookQuiet(src, from, w.End(), w.eof, lim, 0, o);
      if w.End() > bound {
        Past(src, w, bound, bound);
      } else {
        var next := w.End() - 3;
        QuietLess(src, from, next, o);
        QuietMisses(src, w, next, bound, o);
        Reloads(src, w, next);
        LastEndStep(next + WINDOW, bound);
      }
    }
  }

  lemma PageEnds(src: seq<byte>, o: nat)
    ensures PageAt(src, o).Found? ==> o + 28 <= PageAt(src, o).ref.end <= |src| && PageAt(src, o).ref.off == o
  {
    hide P.ParsePage;
  }

  lemma LastEndStep(end: nat, bound: nat)
    ensures LastEnd(end, bound) == if end > bound then end else LastEnd(end - 3 + WINDOW, bound)
    ensures LastEnd(end, bound) >= end
    ensures end <= bound ==> LastEnd(end, bound) >= end - 3 + WINDOW
  {
    LastEndGrows(end, bound);
    if end <= bound { LastEndGrows(end - 3 + WINDOW, bound); }
  }

  lemma {:induction false} LastEndGrows(end: nat, bound: nat)
    ensures LastEnd(end, bound) >= end
    decreases bound + 1 - end
  {
    if end <= bound { LastEndGrows(end - 3 + WINDOW, bound); }
  }

  lemma QuietNone(src: seq<byte>, o: nat)
    ensures Quiet(src, o, o)
  {
  }

  lemma QuietLess(src: seq<byte>, from: nat, next: nat, o: nat)
    requires Quiet(src, from, o) && from <= next
    ensures Quiet(src, next, o)
  {
  }

  lemma Reloads(src: seq<byte>, w: Cache, next: nat)
    requires w.End() == next + 3 && !w.eof && next <= |src|
    ensures Load(src, w, next) == Fresh(src, next)
    ensures var v := Load(src, w, next); v.eof <==> next + WINDOW > |src|
    ensures var v := Load(src, w, next); v.End() == if v.eof then |src| else next + WINDOW
  {
  }

  lemma {:induction false} LookFinds(src: seq<byte>, at: nat, end: nat, eof: bool, lim: nat, c: nat, o: nat)
    requires at + lim <= end <= |src| && Window(src, at, src[at..end], eof) && at + c <= o < at + lim && o + 4 <= end
    requires Quiet(src, at + c, o) && PageAt(src, o).Found?
    ensures var h := Look(src, at, end, eof, lim, c);
            h == Parses(PageAt(src, o).ref) || (h == Straddles(o - at) && end - o < P.MAX_PAGE && !eof && o > at)
    decreases lim - c
  {
    hide P.ParsePage, PageAt, Window;
    if at + c < o {
      LookFinds(src, at, end, eof, lim, c + 1, o);
    } else {
      PageCaptures(src, o);
      PageEnds(src, o);
      var b := src[at..end];
      assert b[c..] == src[at + c..end];
      Sizes(src, at, b, eof);
      ParseInWindow(src, at, b, eof, c);
    }
  }

  lemma {:induction false} LookQuiet(src: seq<byte>, at: nat, end: nat, eof: bool, lim: nat, c: nat, o: nat)
    requires at + lim <= end <= |src| && o + 4 > end && Quiet(src, at, o)
    ensures Look(src, at, end, eof, lim, c) == Nothing
    decreases lim - c
  {
    hide P.ParsePage, Captures;
    if c < lim && at + c + 4 <= end {
      LookQuiet(src, at, end, eof, lim, c + 1, o);
    }
  }

  /** A page that is missed: after zeros, in a search from the start of the source by a scanner
      that has read nothing yet. */
  lemma Unseen(pg: P.Page, tail: seq<byte>)
    requires pg.Writable() && |tail| >= WINDOW
    ensures var zeros: seq<byte> := seq(WINDOW - 3, _ => 0);
            var src := zeros + (P.Encode(pg) + tail);
            && PageAt(src, WINDOW - 3) == Found(RefOf(pg, WINDOW - 3, |P.Encode(pg)|))
            && Forward(src, Cache(0, 0, false, false), 0, WINDOW - 1).0 == NotFound
            && Forward(src, Cache(0, 0, false, false), 0, WINDOW).0 == PageAt(src, WINDOW - 3)
  {
    hide P.ParsePage, P.Encode, P.Sum, Forward;
    var zeros: seq<byte> := seq(WINDOW - 3, _ => 0);
    var src := zeros + (P.Encode(pg) + tail);
    var o := WINDOW - 3;
    P.ParseOfWritten(pg, tail);
    assert src[o..] == P.Encode(pg) + tail;
    Located(src, o, pg, |P.Encode(pg)|);
    assert Quiet(src, 0, o) by {
      forall k | 0 <= k < o ensures !Captures(src, k) {
        if k + 4 <= |src| { assert src[k..k + 4][0] == src[k] == zeros[k]; }
      }
    }
    hide PageAt;
    QuietMisses(src, Cache(0, 0, false, false), 0, WINDOW - 1, o);
    QuietMisses(src, Cache(0, 0, false, false), 0, WINDOW, o);
    LastEndStep(WINDOW, WINDOW - 1);
    LastEndStep(WINDOW, WINDOW);
  }

  lemma Located(src: seq<byte>, off: nat, pg: P.Page, n: nat)
    requires off <= |src| && P.ParsePage(src[off..]) == P.Parsed(pg, n)
    ensures PageAt(src, off) == Found(RefOf(pg, off, n))
  {
    hide P.ParsePage;
  }

  class PageScanner {
    const src: seq<byte>
    var buf: seq<byte>
    var off: nat
    var eof: bool
    var valid: bool

    function State(): (k: Cache)
      reads this
    {
      Cache(off, |buf|, eof, valid)
    }

    ghost predicate Valid()
      reads this
    {
      Holds(src, State()) && (valid ==> buf == Held(src, State(), off))
    }

    constructor (src: seq<byte>)
      ensures Valid() && this.src == src && !valid
    {
      this.src := src;
      buf, off, eof, valid := [], 0, false, false;
    }

    /** The bytes starting at `at`, from the last window if it reaches far enough. */
    method WindowAt(at: nat) returns (b: seq<byte>)
      requires Valid()
      modifies this
      ensures Valid() && State() == Load(src, old(State()), at) && b == Held(src, State(), at) && Window(src, at, b, eof)
    {
      Loaded(src, State(), at);
      if valid && off <= at < off + |buf| {
        var rem := off + |buf| - at;
        if rem >= P.MAX_PAGE || eof {
          assert src[off..off + |buf|][at - off..] == src[at..off + |buf|];
          return buf[at - off..];
        }
      }
      off := at;
      if at > |src| {
        buf, eof := [], true;
      } else {
        var n := if |src| - at < WINDOW then |src| - at else WINDOW;
        buf, eof := src[at..at + n], n < WINDOW;
      }
      valid := true;
      return buf;
    }

    method ParseAt(at: nat) returns (f: Found)
      requires Valid()
      modifies this
      ensures Valid() && f == PageAt(src, at)
    {
      hide P.ParsePage, PageAt;
      var b := WindowAt(at);
      assert b[0..] == b;
      ParseInWindow(src, at, b, eof, 0);
      match P.ParsePage(b)
      case Parsed(pg, n) => return Found(RefOf(pg, at, n));
      case _ => return NotFound;
    }

    /** The first valid page whose start lies in [from, bound), but for the pages `MissesExactly`
        names; it may extend past bound. */
    method FindForward(from: nat, bound: nat) returns (f: Found)
      requires Valid()
      modifies this
      ensures Valid() && (f, State()) == Forward(src, old(State()), from, bound)
    {
      hide P.ParsePage, PageAt, Window, Look, Load, Holds, Held;
      var pos := from;
      while pos < bound
        invariant Valid() && Holds(src, State()) && Holds(src, old(State())) && from <= pos
        invariant Forward(src, State(), pos, bound) == Forward(src, old(State()), from, bound)
        decreases bound - pos
      {
        Loaded(src, State(), pos);
        ghost var before := State();
        var b := WindowAt(pos);
        Steps(src, before, pos, bound);
        if |b| == 0 { return NotFound; }
        var lim: nat := if |b| > bound - pos then bound - pos else |b|;
        var hit := FirstPage(b, pos, lim);
        match hit {
          case Parses(ref) =>
            return Found(ref);
          case Straddles(c) =>
            pos := pos + c;
          case Nothing =>
            var adv: nat := lim;
            if lim == |b| && !eof {
              adv := Max(lim - 3, 1);
            }
            pos := pos + adv;
        }
      }
      return NotFound;
    }

    /** The inner loop: capture after capture in the window, up to one that decides. */
    method FirstPage(b: seq<byte>, at: nat, lim: nat) returns (h: Hit)
      requires at + lim <= at + |b| <= |src| && b == src[at..at + |b|] && lim > 0
      ensures h == Look(src, at, at + |b|, eof, lim, 0)
    {
      hide P.ParsePage, Captures;
      ghost var end := at + |b|;
      var i: nat := 0;
      while i < lim
        invariant i <= lim && Look(src, at, end, eof, lim, i) == Look(src, at, end, eof, lim, 0)
      {
        var stop := if |b| < lim + 3 then |b| else lim + 3;
        var hit, j := Index(b[i..stop]);
        LookSkips(src, at, end, eof, lim, i, stop, if hit then j else stop - i);
        if !hit { break; }
        var c := i + j;
        if c >= lim { break; }
        Within(src, at, end, i, stop, c);
        assert b[c..] == src[at + c..end];
        var r := P.ParsePage(b[c..]);
        if r.Parsed? { return Parses(RefOf(r.page, at + c, r.len)); }
        if r.Short? && c > 0 && |b| - c < P.MAX_PAGE && !eof { return Straddles(c); }
        i := c + 1;
      }
      return Nothing;
    }

    /** The page with the greatest start among those that start at or after floor and end at
        or before end. */
    method FindBackward(floor: nat, end0: nat) returns (f: Found)
      requires Valid()
      modifies this
      ensures Valid()
      ensures f.Found? ==> floor <= f.ref.off && f.ref.end <= end0 && f == PageAt(src, f.ref.off)
      ensures forall o | floor <= o && (f.Found? ==> f.ref.off < o) :: !EndsBy(src, o, end0)
    {
      hide P.ParsePage, PageAt, EndsBy;
      var end: nat := end0;
      while end > floor
        invariant Valid() && end <= end0
        invariant forall o | floor <= o :: EndsBy(src, o, end0) ==> EndsBy(src, o, end)
        decreases end
      {
        var start: nat := if end - WINDOW > floor then end - WINDOW else floor;
        var b := WindowAt(start);
        if |b| < end - start && !eof {
          valid := false;
          b := WindowAt(start);
        }
        var n: nat := if |b| < end - start then |b| else end - start;
        var pg := LastPage(b, start, n, start + n);
        if pg.Found? {
          OnlyBefore(src, start, b, eof, start + n, end, pg.ref);
          LastIsLast(src, floor, pg.ref, end, end0);
          return pg;
        }
        NoneFits(src, start, b, eof, start + n, end);
        if start == floor { return NotFound; }
        StepBack(src, floor, start, end, end0);
        end := start + P.MAX_PAGE - 1;
      }
      NothingAbove(src, floor, end, end0);
      return NotFound;
    }

    /** The last capture that parses in the first `n` bytes of the window. */
    method LastPage(b: seq<byte>, start: nat, n: nat, ghost stop: nat) returns (f: Found)
      requires Window(src, start, b, eof) && n <= |b| && stop == start + n
      ensures f.Found? ==> start <= f.ref.off && f.ref.end <= stop && f == PageAt(src, f.ref.off)
      ensures forall o | start <= o && (f.Found? ==> f.ref.off < o) :: !EndsBy(src, o, stop)
    {
      hide P.ParsePage, PageAt;
      var i: nat := n;
      ShortTail(src, start, stop);
      while i >= 4
        invariant i <= n && forall o | start <= o && o + 3 >= start + i :: !EndsBy(src, o, stop)
      {
        var hit, c := LastIndex(b[..i]);
        BackTo(src, start, b, eof, stop, i, hit, c);
        if !hit { return NotFound; }
        ParseCut(src, start, b, eof, n, c, stop);
        var r := P.ParsePage(b[..n][c..]);
        if r.Parsed? { return Found(RefOf(r.page, start + c, r.len)); }
        i := c + 3;
      }
      return NotFound;
    }
  }

  /** Where the window holds no capture, looking goes on behind it. */
  lemma {:induction false} LookSkips(src: seq<byte>, at: nat, end: nat, eof: bool, lim: nat, i: nat, stop: nat, j: nat)
    requires at + lim <= end <= |src| && i <= stop && at + stop <= end && j <= stop - i && i <= lim
    requires stop == Lim(end - at, lim + 3)
    requires forall x | 0 <= x < j :: !Captures(src[at..end][i..stop], x)
    ensures i + j <= lim ==> Look(src, at, end, eof, lim, i) == Look(src, at, end, eof, lim, i + j)
    ensures j == stop - i ==> Look(src, at, end, eof, lim, i) == Nothing
    decreases j
  {
    hide P.ParsePage, Captures;
    if i < lim && at + i + 4 <= end {
      if j > 0 {
        Within(src, at, end, i, stop, i);
        var here, next := src[at..end][i..stop], src[at..end][i + 1..stop];
        forall x | 0 <= x < j - 1 ensures !Captures(next, x) {
          CapturesLater(here, next, x);
        }
        LookSkips(src, at, end, eof, lim, i + 1, stop, j - 1);
      }
    }
  }

  lemma CapturesLater(here: seq<byte>, next: seq<byte>, x: nat)
    requires here != [] && next == here[1..]
    ensures Captures(next, x) <==> Captures(here, x + 1)
  {
    if x + 4 <= |next| { assert next[x..x + 4] == here[x + 1..x + 5]; }
  }

  lemma Sliced(s: seq<byte>, i: nat, j: nat, x: nat, y: nat)
    requires x <= y <= j - i && i <= j <= |s|
    ensures s[i..j][x..y] == s[i + x..i + y]
  {
    var l, r := s[i..j][x..y], s[i + x..i + y];
    forall k | 0 <= k < |l| ensures l[k] == r[k] {
      assert l[k] == s[i..j][x + k];
    }
  }

  /** A capture in a slice of the window is one in the source. */
  lemma Within(src: seq<byte>, at: nat, end: nat, i: nat, stop: nat, c: nat)
    requires at <= end <= |src| && i <= c <= stop && at + stop <= end
    ensures c + 4 <= stop ==> (Captures(src[at..end][i..stop], c - i) <==> Captures(src, at + c))
  {
    if c + 4 <= stop {
      var b := src[at..end];
      Sliced(b, i, stop, c - i, c - i + 4);
      Sliced(src, at, end, c, c + 4);
    }
  }

  predicate EndsBy(src: seq<byte>, o: nat, end: nat) {
    PageAt(src, o).Found? && PageAt(src, o).ref.end <= end
  }

  lemma Sizes(src: seq<byte>, off: nat, buf: seq<byte>, eof: bool)
    requires Window(src, off, buf, eof)
    ensures |buf| <= WINDOW && (eof || |buf| >= P.MAX_PAGE)
  {
  }

  lemma NothingBeyond(src: seq<byte>, pos: nat, b: seq<byte>, eof: bool)
    requires Window(src, pos, b, eof) && |b| == 0
    ensures eof && forall o | pos <= o :: PageAt(src, o).NotFound?
  {
    forall o | pos <= o ensures PageAt(src, o).NotFound? {
      if pos <= |src| { assert src[pos..] == []; }
    }
  }

  // ---------------------------------------------------------------- backward

  /** A page needs more than its last four bytes. */
  lemma ShortTail(src: seq<byte>, start: nat, stop: nat)
    ensures forall o | start <= o && o + 3 >= stop :: !EndsBy(src, o, stop)
  {
    hide P.PageCrc, P.Sum, P.UnLe32, P.UnLe64;
  }

  lemma BackTo(src: seq<byte>, start: nat, b: seq<byte>, eof: bool, stop: nat, i: nat, hit: bool, c: nat)
    requires Window(src, start, b, eof) && i <= |b|
    requires if hit then Captures(b[..i], c) && forall k | c < k :: !Captures(b[..i], k) else forall k | 0 <= k :: !Captures(b[..i], k)
    requires forall o | start <= o && o + 3 >= start + i :: !EndsBy(src, o, stop)
    ensures forall o | start <= o && (hit ==> o > start + c) :: !EndsBy(src, o, stop)
  {
    hide PageAt;
    assert b[0..i] == b[..i];
    forall o | start <= o && (hit ==> o > start + c) ensures !EndsBy(src, o, stop) {
      if o + 3 < start + i {
        PageCaptures(src, o);
        if Captures(src, o) {
          CapturesWithin(src, start, b, eof, 0, i, o - start);
        }
      }
    }
  }

  /** Cut at `n`, a page parses just when it ends by then. */
  lemma ParseCut(src: seq<byte>, start: nat, b: seq<byte>, eof: bool, n: nat, c: nat, stop: nat)
    requires Window(src, start, b, eof) && c <= n <= |b| && stop == start + n
    ensures var r := P.ParsePage(b[..n][c..]);
            if r.Parsed? then PageAt(src, start + c) == Found(RefOf(r.page, start + c, r.len)) && start + c + r.len <= stop
            else !EndsBy(src, start + c, stop)
  {
    hide P.ParsePage;
    if start <= |src| {
      var s := src[start..];
      assert b == s[..|b|];
      assert src[start + c..] == s[c..];
      assert b[..n][c..] <= s[c..];
      P.ParseOfPrefix(b[..n][c..], s[c..]);
    } else {
      TooShort();
      assert b[..n][c..] == [];
    }
  }

  lemma NoneFits(src: seq<byte>, start: nat, b: seq<byte>, eof: bool, stop: nat, end: nat)
    requires Window(src, start, b, eof) && start <= end && stop == start + (if |b| < end - start then |b| else end - start)
    requires |b| < end - start ==> eof
    requires forall o | start <= o :: !EndsBy(src, o, stop)
    ensures forall o | start <= o :: !EndsBy(src, o, end)
  {
    hide P.ParsePage;
    forall o | start <= o ensures !EndsBy(src, o, end) {
      assert !EndsBy(src, o, stop);
      if |b| < end - start {
        if start <= |src| { assert |src| == stop; }
      }
    }
  }

  lemma OnlyBefore(src: seq<byte>, start: nat, b: seq<byte>, eof: bool, stop: nat, end: nat, r: PageRef)
    requires Window(src, start, b, eof) && start <= end && stop == start + (if |b| < end - start then |b| else end - start)
    requires |b| < end - start ==> eof
    requires start <= r.off && forall o | start <= o && r.off < o :: !EndsBy(src, o, stop)
    ensures forall o | r.off < o :: !EndsBy(src, o, end)
  {
    hide P.ParsePage;
    forall o | r.off < o ensures !EndsBy(src, o, end) {
      assert !EndsBy(src, o, stop);
      if |b| < end - start {
        if start <= |src| { assert |src| == stop; }
      }
    }
  }

  lemma StepBack(src: seq<byte>, floor: nat, start: nat, end: nat, end0: nat)
    requires forall o | start <= o :: !EndsBy(src, o, end)
    requires forall o | floor <= o :: EndsBy(src, o, end0) ==> EndsBy(src, o, end)
    ensures forall o | floor <= o :: EndsBy(src, o, end0) ==> EndsBy(src, o, start + P.MAX_PAGE - 1)
  {
    hide P.ParsePage;
  }

  lemma LastIsLast(src: seq<byte>, floor: nat, r: PageRef, end: nat, end0: nat)
    requires end <= end0
    requires forall o | floor <= o :: EndsBy(src, o, end0) ==> EndsBy(src, o, end)
    requires forall o | r.off < o && floor <= o :: !EndsBy(src, o, end)
    ensures forall o | floor <= o && r.off < o :: !EndsBy(src, o, end0)
  {
    hide EndsBy;
  }

  lemma NothingAbove(src: seq<byte>, floor: nat, end: nat, end0: nat)
    requires end <= floor
    requires forall o | floor <= o :: EndsBy(src, o, end0) ==> EndsBy(src, o, end)
    ensures forall o | floor <= o :: !EndsBy(src, o, end0)
  {
    hide P.ParsePage;
  }
}
