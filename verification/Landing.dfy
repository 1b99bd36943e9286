/** Choosing where a seek lands: pages bisected by granule, against a linear scan. */
module Landing {
  import opened Crc
  import P = Page
  import opened Scan

  /** One link: pages end to end over [a, b), all of one stream, granules never falling, and
      no other place in it that parses as a page. */
  ghost predicate Layout(src: seq<byte>, a: nat, b: nat, serial: P.uint32, refs: seq<PageRef>) {
    && (forall i | 0 <= i < |refs| :: PageAt(src, refs[i].off) == Found(refs[i]) && refs[i].serial == serial)
    && (forall i | 0 <= i < |refs| :: refs[i].off == From(a, refs, i) && refs[i].end <= b)
    && From(a, refs, |refs|) == b
    && (forall i, j | 0 <= i < j < |refs| && refs[i].hasGranule && refs[j].hasGranule :: refs[i].granule <= refs[j].granule)
    && (forall o | a <= o < b && PageAt(src, o).Found? :: exists i :: 0 <= i < |refs| && refs[i].off == o)
  }

  /** Where page `i` begins: where the one before ends. */
  function From(a: nat, refs: seq<PageRef>, i: nat): (o: nat)
    requires i <= |refs|
  {
    if i == 0 then a else refs[i - 1].end
  }

  lemma OnePage(src: seq<byte>, a: nat, b: nat, serial: P.uint32, refs: seq<PageRef>, i: nat)
    requires Layout(src, a, b, serial, refs) && i < |refs|
    ensures PageAt(src, refs[i].off) == Found(refs[i]) && refs[i].serial == serial
    ensures From(a, refs, i) == refs[i].off && refs[i].off + 28 <= refs[i].end == From(a, refs, i + 1) <= b
  {
    hide PageAt;
    LongEnough(src, refs[i].off);
  }

  lemma {:induction false} Ordered(src: seq<byte>, a: nat, b: nat, serial: P.uint32, refs: seq<PageRef>, i: nat, j: nat)
    requires Layout(src, a, b, serial, refs) && i <= j <= |refs|
    ensures a <= From(a, refs, i) <= From(a, refs, j)
    ensures i < j ==> From(a, refs, i) + 28 <= From(a, refs, j)
    decreases j
  {
    hide Layout, PageAt, From;
    if i < j {
      OnePage(src, a, b, serial, refs, j - 1);
      Ordered(src, a, b, serial, refs, i, j - 1);
    } else if j > 0 {
      OnePage(src, a, b, serial, refs, j - 1);
      Ordered(src, a, b, serial, refs, j - 1, j - 1);
    } else {
      assert From(a, refs, 0) == a by { FirstFrom(a, refs); }
    }
  }

  lemma FirstFrom(a: nat, refs: seq<PageRef>)
    ensures From(a, refs, 0) == a
  {
  }

  /** Page starts and page numbers go together. */
  lemma OffsetOrder(src: seq<byte>, a: nat, b: nat, serial: P.uint32, refs: seq<PageRef>, i: nat, j: nat)
    requires Layout(src, a, b, serial, refs) && i < |refs| && j < |refs|
    ensures refs[i].off < refs[j].off <==> i < j
    ensures refs[i].off < refs[j].end <==> i <= j
    ensures a <= refs[i].off < refs[i].end <= b
  {
    hide Layout, PageAt, From;
    OnePage(src, a, b, serial, refs, i);
    OnePage(src, a, b, serial, refs, j);
    if i <= j { Ordered(src, a, b, serial, refs, i, j); } else { Ordered(src, a, b, serial, refs, j + 1, i); }
    Ordered(src, a, b, serial, refs, 0, i);
  }

  /** A page has at least a header and a segment. */
  lemma LongEnough(src: seq<byte>, off: nat)
    ensures PageAt(src, off).Found? ==> PageAt(src, off).ref.end >= off + 28
  {
    hide P.PageCrc, P.Sum, P.UnLe32, P.UnLe64;
  }

  /** The page's first new sample lies in [0, pre]. */
  predicate Qualifies(r: PageRef, preSkip: nat, pre: int) {
    r.hasGranule && 0 <= r.granule - preSkip <= pre
  }

  datatype Choice = Land(ref: PageRef) | Restart | NotAPage(off: nat) | Foreign

  /** The last qualifying page among the first `n`. */
  ghost predicate Best(refs: seq<PageRef>, n: nat, preSkip: nat, pre: int, c: Choice)
    requires n <= |refs|
  {
    match c
    case Land(r) => exists k :: 0 <= k < n && refs[k] == r && Qualifies(r, preSkip, pre) && forall i | k < i < n :: !Qualifies(refs[i], preSkip, pre)
    case Restart => forall i | 0 <= i < n :: !Qualifies(refs[i], preSkip, pre)
    case _ => false
  }

  /** A granule page of the stream that a search up to `bound` has missed: it starts in the last two
      bytes before, and the window the search ended with holds only part of its capture pattern. */
  predicate Clipped(r: PageRef, bound: nat, w: Cache) {
    r.hasGranule && !w.eof && r.off < bound < w.End() < r.off + 4
  }

  /** What a search of a link for a granule page comes to, from the scanner's window before and
      after: the first one, or none but, if the range begins inside a page that ends just short of
      the bound, one that is clipped. */
  ghost predicate Sought(refs: seq<PageRef>, from: nat, bound: nat, k: Cache, w: Cache, f: Found) {
    && (from < bound ==> w.valid && (w.eof || (w.len == WINDOW && w.End() >= from + P.MAX_PAGE)) && (w == k || w.off >= from))
    && (f.Found? ==> w.off <= f.ref.off && forall i | 0 <= i < |refs| && from <= refs[i].off && refs[i].hasGranule :: f.ref.off <= refs[i].off)
    && (f.NotFound? ==> forall i | 0 <= i < |refs| && from <= refs[i].off < bound && refs[i].hasGranule ::
          Clipped(refs[i], bound, w) && forall j | 0 <= j < |refs| && from <= refs[j].off :: refs[i].off <= refs[j].off)
  }

  /** The first granule page of the stream that starts in [from, bound). */
  method FindGranulePage(sc: PageScanner, serial: P.uint32, from0: nat, bound: nat, ghost a: nat, ghost b: nat, ghost refs: seq<PageRef>)
    returns (f: Found)
    requires sc.Valid()
    modifies sc
    ensures sc.Valid()
    ensures f.Found? ==> from0 <= f.ref.off < bound && f == PageAt(sc.src, f.ref.off) && f.ref.serial == serial && f.ref.hasGranule
    ensures Layout(sc.src, a, b, serial, refs) && a <= from0 && bound <= b ==> Sought(refs, from0, bound, old(sc.State()), sc.State(), f)
  {
    hide PageAt, Layout, Forward, Holds, Sought, From, PageScanner.State;
    var from: nat := from0;
    ghost var link := Layout(sc.src, a, b, serial, refs) && a <= from0 && bound <= b;
    ghost var k0 := sc.State();
    while from < bound
      invariant sc.Valid() && from0 <= from
      invariant link ==> Passed(sc.src, a, b, refs, from0, from, bound, k0, sc.State())
      decreases bound - from
    {
      ghost var k := sc.State();
      f := sc.FindForward(from, bound);
      ForwardSees(sc.src, k, from, bound);
      if f.NotFound? {
        if link { NoneSeen(sc.src, a, b, serial, refs, from0, from, bound, k0, k, sc.State()); }
        return NotFound;
      }
      if f.ref.serial == serial && f.ref.hasGranule {
        if link { FirstSeen(sc.src, a, b, serial, refs, from0, from, bound, k0, k, sc.State(), f.ref); }
        return f;
      }
      if link { SkipOne(sc.src, a, b, serial, refs, from0, from, bound, k0, k, sc.State(), f.ref); }
      EndsLater(sc.src, f.ref.off);
      from := f.ref.end;
    }
    f := NotFound;
    if link { AllPassed(refs, sc.src, a, b, from0, from, bound, k0, sc.State()); }
  }

  /** Part of the way: no granule page so far, and past the first step the search stands where a
      page begins. */
  ghost predicate Passed(src: seq<byte>, a: nat, b: nat, refs: seq<PageRef>, from0: nat, from: nat, bound: nat, k0: Cache, k: Cache) {
    && from0 <= from
    && (forall i | 0 <= i < |refs| && from0 <= refs[i].off < from :: !refs[i].hasGranule)
    && (if from == from0 then k == k0
        else
          && from0 < bound && (from >= b || exists i :: 0 <= i < |refs| && refs[i].off == from)
          && k.valid && (k.eof || (k.len == WINDOW && k.End() >= from0 + P.MAX_PAGE)) && (k == k0 || k.off >= from0))
  }

  lemma EndsLater(src: seq<byte>, off: nat)
    ensures PageAt(src, off).Found? ==> PageAt(src, off).ref.end > off
  {
  }

  lemma NoneSeen(src: seq<byte>, a: nat, b: nat, serial: P.uint32, refs: seq<PageRef>, from0: nat, from: nat, bound: nat, k0: Cache, k: Cache, w: Cache)
    requires Layout(src, a, b, serial, refs) && bound <= b && Passed(src, a, b, refs, from0, from, bound, k0, k) && from < bound
    requires w.valid && (w.eof || (w.len == WINDOW && w.End() >= from + P.MAX_PAGE && bound < w.End())) && (w == k || w.off >= from)
    requires forall o | from <= o < bound && (w.eof || o + 4 <= w.End()) :: PageAt(src, o).NotFound?
    ensures Sought(refs, from0, bound, k0, w, NotFound)
  {
    hide PageAt;
    if from > from0 { assert false; }
    forall i | 0 <= i < |refs| && from0 <= refs[i].off < bound && refs[i].hasGranule
      ensures Clipped(refs[i], bound, w) && forall j | 0 <= j < |refs| && from0 <= refs[j].off :: refs[i].off <= refs[j].off
    {
      OnePage(src, a, b, serial, refs, i);
      forall j | 0 <= j < |refs| && from0 <= refs[j].off ensures refs[i].off <= refs[j].off {
        if refs[j].off < refs[i].off {
          OnePage(src, a, b, serial, refs, j);
          OffsetOrder(src, a, b, serial, refs, j, i);
          Ordered(src, a, b, serial, refs, j, i);
          assert false;
        }
      }
    }
  }

  lemma FirstSeen(src: seq<byte>, a: nat, b: nat, serial: P.uint32, refs: seq<PageRef>, from0: nat, from: nat, bound: nat, k0: Cache, k: Cache, w: Cache, r: PageRef)
    requires Layout(src, a, b, serial, refs) && Passed(src, a, b, refs, from0, from, bound, k0, k) && from < bound
    requires w.valid && (w.eof || (w.len == WINDOW && w.End() >= from + P.MAX_PAGE)) && (w == k || w.off >= from) && w.off <= r.off
    requires forall o | from <= o < r.off :: PageAt(src, o).NotFound?
    ensures Sought(refs, from0, bound, k0, w, Found(r))
  {
    hide PageAt;
    forall i | 0 <= i < |refs| && from0 <= refs[i].off && refs[i].hasGranule ensures r.off <= refs[i].off {
      OnePage(src, a, b, serial, refs, i);
    }
  }

  lemma SkipOne(src: seq<byte>, a: nat, b: nat, serial: P.uint32, refs: seq<PageRef>, from0: nat, from: nat, bound: nat, k0: Cache, k: Cache, w: Cache, r: PageRef)
    requires Layout(src, a, b, serial, refs) && bound <= b && a <= from0 && Passed(src, a, b, refs, from0, from, bound, k0, k) && from < bound
    requires w.valid && (w.eof || (w.len == WINDOW && w.End() >= from + P.MAX_PAGE)) && (w == k || w.off >= from)
    requires from <= r.off < bound && PageAt(src, r.off) == Found(r) && !(r.serial == serial && r.hasGranule)
    requires forall o | from <= o < r.off :: PageAt(src, o).NotFound?
    ensures Passed(src, a, b, refs, from0, r.end, bound, k0, w) && r.end > from
  {
    hide PageAt, From;
    LongEnough(src, r.off);
    var j := Numbered(src, a, b, serial, refs, r);
    OnePage(src, a, b, serial, refs, j);
    Ordered(src, a, b, serial, refs, j + 1, |refs|);
    forall i | 0 <= i < |refs| && from0 <= refs[i].off < r.end ensures !refs[i].hasGranule {
      OffsetOrder(src, a, b, serial, refs, i, j);
      OnePage(src, a, b, serial, refs, i);
      if refs[i].off >= from && i < j { assert false; }
    }
    if j + 1 < |refs| {
      OnePage(src, a, b, serial, refs, j + 1);
      assert refs[j + 1].off == r.end;
    } else {
      Closes(src, a, b, serial, refs);
    }
  }

  lemma Closes(src: seq<byte>, a: nat, b: nat, serial: P.uint32, refs: seq<PageRef>)
    requires Layout(src, a, b, serial, refs)
    ensures From(a, refs, |refs|) == b
  {
  }

  lemma AllPassed(refs: seq<PageRef>, src: seq<byte>, a: nat, b: nat, from0: nat, from: nat, bound: nat, k0: Cache, k: Cache)
    requires Passed(src, a, b, refs, from0, from, bound, k0, k) && from >= bound
    ensures Sought(refs, from0, bound, k0, k, NotFound)
  {
  }

  lemma Numbered(src: seq<byte>, a: nat, b: nat, serial: P.uint32, refs: seq<PageRef>, r: PageRef) returns (j: nat)
    requires Layout(src, a, b, serial, refs) && a <= r.off < b && PageAt(src, r.off) == Found(r)
    ensures j < |refs| && refs[j] == r && r.serial == serial
  {
    hide PageAt, From;
    j :| 0 <= j < |refs| && refs[j].off == r.off;
  }

  // ---------------------------------------------------------------- the bisection

  /** The scan so far: the best page before `lo`, none to land on from `hi` on. */
  ghost predicate Searched(src: seq<byte>, a: nat, b: nat, serial: P.uint32, refs: seq<PageRef>, preSkip: nat, pre: int,
                           best: Choice, lo: nat, hi: nat, at: nat) {
    && at <= |refs| && lo == From(a, refs, at) && hi <= b
    && (best.Land? || best.Restart?) && Best(refs, at, preSkip, pre, best)
    && forall i | 0 <= i < |refs| && hi <= refs[i].off :: !Qualifies(refs[i], preSkip, pre)
  }

  /** The window at hand cannot clip a page before `hi` in a search of the upper half of [lo, hi). */
  predicate Suits(k: Cache, lo: nat, hi: nat, b: nat) {
    hi == b || !k.valid || k.eof || k.End() >= hi + 3 || k.off < lo
  }

  /** A search of the upper half of what is left, while that is two pages or more, misses nothing:
      the page before a clipped one starts below the middle, so the bound is within a page of it
      and the window reaches well past the bound. */
  lemma NoMiss(src: seq<byte>, a: nat, b: nat, serial: P.uint32, refs: seq<PageRef>, lo: nat, hi: nat, at: nat, k: Cache, w: Cache, i: nat)
    requires Layout(src, a, b, serial, refs) && at <= |refs| && lo == From(a, refs, at) && hi <= b && hi - lo >= WINDOW
    requires Suits(k, lo, hi, b) && Sought(refs, lo + (hi - lo) / 2, hi, k, w, NotFound)
    ensures i < |refs| && lo + (hi - lo) / 2 <= refs[i].off < hi ==> !refs[i].hasGranule
  {
    hide PageAt, From, Layout;
    if i < |refs| && lo + (hi - lo) / 2 <= refs[i].off < hi && refs[i].hasGranule {
      assert Clipped(refs[i], hi, w);
      OnePage(src, a, b, serial, refs, i);
      if hi < b {
        Ordered(src, a, b, serial, refs, 0, at);
        FirstFrom(a, refs);
        var prev := Before(src, a, b, serial, refs, i);
      }
    }
  }

  /** A page that does not open the link starts within a page of the one before. */
  lemma Before(src: seq<byte>, a: nat, b: nat, serial: P.uint32, refs: seq<PageRef>, i: nat) returns (prev: nat)
    requires Layout(src, a, b, serial, refs) && i < |refs| && refs[i].off > a
    ensures prev < |refs| && refs[prev].off < refs[i].off <= refs[prev].off + P.MAX_PAGE
  {
    prev := i - 1;
    OnePage(src, a, b, serial, refs, prev);
  }

  /** Nothing from `mid` on can be landed on. */
  lemma CutAt(src: seq<byte>, a: nat, b: nat, serial: P.uint32, refs: seq<PageRef>, preSkip: nat, pre: int,
              best: Choice, lo: nat, hi: nat, at: nat, k: Cache, w: Cache, f: Found)
    requires Layout(src, a, b, serial, refs) && Searched(src, a, b, serial, refs, preSkip, pre, best, lo, hi, at)
    requires hi - lo >= WINDOW && Suits(k, lo, hi, b) && Sought(refs, lo + (hi - lo) / 2, hi, k, w, f)
    requires f.Found? ==> f == PageAt(src, f.ref.off) && a <= f.ref.off < b && f.ref.hasGranule && f.ref.granule - preSkip > pre
    ensures Searched(src, a, b, serial, refs, preSkip, pre, best, lo, lo + (hi - lo) / 2, at)
    ensures Suits(w, lo, lo + (hi - lo) / 2, b)
  {
    hide PageAt, From, Layout, Best;
    var mid := lo + (hi - lo) / 2;
    forall i | 0 <= i < |refs| && mid <= refs[i].off ensures !Qualifies(refs[i], preSkip, pre) {
      if f.Found? {
        if refs[i].hasGranule {
          var j := Numbered(src, a, b, serial, refs, f.ref);
          OffsetOrder(src, a, b, serial, refs, i, j);
          Rising(src, a, b, serial, refs, j, i);
        }
      } else if refs[i].off < hi {
        NoMiss(src, a, b, serial, refs, lo, hi, at, k, w, i);
      }
    }
  }

  lemma Rising(src: seq<byte>, a: nat, b: nat, serial: P.uint32, refs: seq<PageRef>, i: nat, j: nat)
    requires Layout(src, a, b, serial, refs) && i <= j < |refs| && refs[i].hasGranule && refs[j].hasGranule
    ensures refs[i].granule <= refs[j].granule
  {
    hide PageAt, From;
  }

  /** Page `j` takes over, or shows that none before it can be landed on. */
  lemma BestOneMore(src: seq<byte>, a: nat, b: nat, serial: P.uint32, refs: seq<PageRef>, preSkip: nat, pre: int, best: Choice, at: nat, j: nat)
    requires Layout(src, a, b, serial, refs) && at <= j < |refs| && (best.Land? || best.Restart?) && Best(refs, at, preSkip, pre, best)
    requires if refs[j].hasGranule then refs[j].granule - preSkip <= pre else j == at
    ensures Best(refs, j + 1, preSkip, pre, if Qualifies(refs[j], preSkip, pre) then Land(refs[j]) else best)
  {
    hide PageAt, From, Layout;
    forall i | 0 <= i < j ensures refs[i].hasGranule && refs[j].hasGranule ==> refs[i].granule <= refs[j].granule {
      if refs[i].hasGranule && refs[j].hasGranule { Rising(src, a, b, serial, refs, i, j); }
    }
  }

  lemma TakeIt(src: seq<byte>, a: nat, b: nat, serial: P.uint32, refs: seq<PageRef>, preSkip: nat, pre: int,
               best: Choice, lo: nat, hi: nat, at: nat, r: PageRef) returns (at': nat)
    requires Layout(src, a, b, serial, refs) && Searched(src, a, b, serial, refs, preSkip, pre, best, lo, hi, at)
    requires lo <= r.off < hi && PageAt(src, r.off) == Found(r)
    requires if r.hasGranule then r.granule - preSkip <= pre else r.off == lo
    ensures Searched(src, a, b, serial, refs, preSkip, pre, if Qualifies(r, preSkip, pre) then Land(r) else best, r.end, hi, at')
  {
    hide PageAt, From, Layout, Best;
    Ordered(src, a, b, serial, refs, 0, at);
    FirstFrom(a, refs);
    var j := Numbered(src, a, b, serial, refs, r);
    OnePage(src, a, b, serial, refs, j);
    at' := j + 1;
    if j < at { Ordered(src, a, b, serial, refs, j + 1, at); }
    if j > at { Ordered(src, a, b, serial, refs, at, j); }
    BestOneMore(src, a, b, serial, refs, preSkip, pre, best, at, j);
  }

  /** Nothing left to walk. */
  lemma Walked(src: seq<byte>, a: nat, b: nat, serial: P.uint32, refs: seq<PageRef>, preSkip: nat, pre: int,
               best: Choice, lo: nat, hi: nat, at: nat)
    requires Layout(src, a, b, serial, refs) && Searched(src, a, b, serial, refs, preSkip, pre, best, lo, hi, at)
    requires lo >= hi || (at < |refs| && refs[at].hasGranule && refs[at].granule - preSkip > pre)
    ensures Best(refs, |refs|, preSkip, pre, best)
  {
    hide PageAt, From, Layout;
    forall i | at <= i < |refs| ensures !Qualifies(refs[i], preSkip, pre) {
      if lo >= hi {
        Ordered(src, a, b, serial, refs, at, i);
        OnePage(src, a, b, serial, refs, i);
      } else if refs[i].hasGranule {
        Rising(src, a, b, serial, refs, at, i);
      }
    }
  }

  /** The last page whose first new sample lies in [0, pre], as a linear scan of the link finds it,
      whatever the scanner has read before. */
  method ChooseLanding(sc: PageScanner, serial: P.uint32, preSkip: nat, a: nat, b: nat, pre: int, ghost refs: seq<PageRef>)
    returns (c: Choice)
    requires sc.Valid()
    modifies sc
    ensures sc.Valid()
    ensures c.Land? ==> a <= c.ref.off < b && PageAt(sc.src, c.ref.off) == Found(c.ref) && c.ref.serial == serial && Qualifies(c.ref, preSkip, pre)
    ensures Layout(sc.src, a, b, serial, refs) && a <= b ==> Best(refs, |refs|, preSkip, pre, c)
  {
    hide PageAt, Layout, Searched, From, Best, Sought, Suits, PageScanner.State;
    ghost var good := a <= b && Layout(sc.src, a, b, serial, refs);
    ghost var at: nat := 0;
    var lo, hi: nat := a, b;
    c := Restart;
    if good { Begin(sc.src, a, b, serial, refs, preSkip, pre, sc.State()); }
    while hi - lo >= WINDOW
      invariant sc.Valid() && a <= lo && hi <= b
      invariant c.Restart? || (c.Land? && a <= c.ref.off < b && PageAt(sc.src, c.ref.off) == Found(c.ref) && c.ref.serial == serial && Qualifies(c.ref, preSkip, pre))
      invariant good ==> Searched(sc.src, a, b, serial, refs, preSkip, pre, c, lo, hi, at) && Suits(sc.State(), lo, hi, b)
      decreases hi - lo
    {
      ghost var k := sc.State();
      var mid := lo + (hi - lo) / 2;
      var f := FindGranulePage(sc, serial, mid, hi, a, b, refs);
      if f.NotFound? || f.ref.granule - preSkip > pre {
        if good { CutAt(sc.src, a, b, serial, refs, preSkip, pre, c, lo, hi, at, k, sc.State(), f); }
        hi := mid;
      } else {
        EndsLater(sc.src, f.ref.off);
        if good {
          at := TakeIt(sc.src, a, b, serial, refs, preSkip, pre, c, lo, hi, at, f.ref);
          StillSuits(refs, mid, hi, k, sc.State(), f, b);
        }
        if f.ref.granule - preSkip >= 0 {
          c := Land(f.ref);
        }
        lo := f.ref.end;
      }
    }
    var off := lo;
    while off < hi
      invariant sc.Valid() && a <= off && hi <= b
      invariant c.Restart? || (c.Land? && a <= c.ref.off < b && PageAt(sc.src, c.ref.off) == Found(c.ref) && c.ref.serial == serial && Qualifies(c.ref, preSkip, pre))
      invariant good ==> Searched(sc.src, a, b, serial, refs, preSkip, pre, c, off, hi, at)
      decreases hi - off
    {
      var f := sc.ParseAt(off);
      if good { NextPage(sc.src, a, b, serial, refs, preSkip, pre, c, off, hi, at); }
      if f.NotFound? { return NotAPage(off); }
      OffOf(sc.src, off);
      if f.ref.serial != serial { return Foreign; }
      if f.ref.hasGranule && f.ref.granule - preSkip > pre {
        if good { Walked(sc.src, a, b, serial, refs, preSkip, pre, c, off, hi, at); }
        return c;
      }
      if good { at := TakeIt(sc.src, a, b, serial, refs, preSkip, pre, c, off, hi, at, f.ref); }
      if f.ref.hasGranule && f.ref.granule - preSkip >= 0 {
        c := Land(f.ref);
      }
      EndsLater(sc.src, off);
      off := f.ref.end;
    }
    if good { Walked(sc.src, a, b, serial, refs, preSkip, pre, c, off, hi, at); }
  }

  lemma Begin(src: seq<byte>, a: nat, b: nat, serial: P.uint32, refs: seq<PageRef>, preSkip: nat, pre: int, k: Cache)
    requires Layout(src, a, b, serial, refs)
    ensures Searched(src, a, b, serial, refs, preSkip, pre, Restart, a, b, 0) && Suits(k, a, b, b)
  {
    hide PageAt, Layout;
    forall i | 0 <= i < |refs| ensures refs[i].off < b {
      OnePage(src, a, b, serial, refs, i);
    }
  }

  /** The window that showed the page starts before its end. */
  lemma StillSuits(refs: seq<PageRef>, mid: nat, hi: nat, k: Cache, w: Cache, f: Found, b: nat)
    requires Sought(refs, mid, hi, k, w, f) && f.Found? && f.ref.off < f.ref.end
    ensures Suits(w, f.ref.end, hi, b)
  {
  }

  lemma OffOf(src: seq<byte>, off: nat)
    ensures PageAt(src, off).Found? ==> PageAt(src, off).ref.off == off
  {
  }

  lemma NextPage(src: seq<byte>, a: nat, b: nat, serial: P.uint32, refs: seq<PageRef>, preSkip: nat, pre: int,
                 best: Choice, lo: nat, hi: nat, at: nat)
    requires Layout(src, a, b, serial, refs) && Searched(src, a, b, serial, refs, preSkip, pre, best, lo, hi, at) && lo < hi
    ensures at < |refs| && PageAt(src, lo) == Found(refs[at]) && refs[at].serial == serial
  {
    hide PageAt;
    if at < |refs| { OnePage(src, a, b, serial, refs, at); }
  }
}
