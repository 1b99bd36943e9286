/** The Ogg page codec of RFC 3533 section 6: one page to bytes and back. */
module Page {
  import opened Crc

  const HEADER_LEN := 27
  const CRC_OFFSET := 22
  const MAX_SEGMENTS := 255
  const MAX_SEGMENT := 255
  const MAX_BODY := MAX_SEGMENTS * MAX_SEGMENT
  const MAX_PAGE := HEADER_LEN + MAX_SEGMENTS + MAX_BODY
  const CAPTURE: seq<byte> := [0x4f, 0x67, 0x67, 0x53]
  const CONTINUED: byte := 1
  const BOS: byte := 2
  const EOS: byte := 4

  type uint32 = i: int | 0 <= i < 0x1_0000_0000
  type int64 = i: int | -0x8000_0000_0000_0000 <= i < 0x8000_0000_0000_0000

  /** The granule of a page on which no packet completes. */
  const NO_GRANULE: int64 := -1

  datatype Page = Page(flags: byte, granule: int64, serial: uint32, sequence: uint32, segTable: seq<byte>, body: seq<byte>) {
    predicate Has(flag: byte)
      requires flag > 0
    {
      flags / flag % 2 == 1
    }

    /** Some packet ends here: a lacing value below 255. */
    predicate CompletesPacket() {
      exists i :: 0 <= i < |segTable| && segTable[i] < MAX_SEGMENT
    }

    predicate Writable() {
      1 <= |segTable| <= MAX_SEGMENTS && Sum(segTable) == |body|
    }
  }

  datatype WriteError = BadSegmentCount | BodyMismatch
  datatype Written = Written(bytes: seq<byte>) | Rejected(error: WriteError)
  datatype Flaw = BadCapture | BadVersion | NoSegments | BadChecksum
  datatype Parsed = Parsed(page: Page, len: nat) | Short | Bad(flaw: Flaw)
  datatype Read = Read(page: Page) | Eof | UnexpectedEof | Broken(flaw: Flaw)

  function Sum(s: seq<byte>): (n: nat)
    ensures n <= |s| * 255
  {
    if s == [] then 0 else s[0] + Sum(s[1..])
  }

  // ---------------------------------------------------------------- integers

  function Pow256(k: nat): (n: nat)
    ensures n > 0
  {
    if k == 0 then 1 else 256 * Pow256(k - 1)
  }

  function Le(n: nat, k: nat): (s: seq<byte>)
    ensures |s| == k
    decreases k
  {
    if k == 0 then [] else [n % 256] + Le(n / 256, k - 1)
  }

  function UnLe(s: seq<byte>): (n: nat) {
    if s == [] then 0 else s[0] + 256 * UnLe(s[1..])
  }

  lemma {:induction false} UnLeBound(s: seq<byte>)
    ensures UnLe(s) < Pow256(|s|)
  {
    if s != [] { UnLeBound(s[1..]); }
  }

  lemma {:induction false} LeRoundTrip(n: nat, k: nat)
    requires n < Pow256(k)
    ensures UnLe(Le(n, k)) == n
    decreases k
  {
    if k > 0 {
      LeRoundTrip(n / 256, k - 1);
      assert Le(n, k)[1..] == Le(n / 256, k - 1);
    }
  }

  lemma Digits256(low: byte, high: nat)
    ensures (low + 256 * high) % 256 == low && (low + 256 * high) / 256 == high
  {
  }

  lemma {:induction false} UnLeRoundTrip(s: seq<byte>)
    ensures Le(UnLe(s), |s|) == s
  {
    if s != [] {
      UnLeRoundTrip(s[1..]);
      Digits256(s[0], UnLe(s[1..]));
      assert s == [s[0]] + s[1..];
    }
  }

  lemma Powers()
    ensures Pow256(4) == 0x1_0000_0000 && Pow256(8) == 0x1_0000_0000_0000_0000
  {
    assert Pow256(4) == 256 * Pow256(3) == 256 * 256 * Pow256(2);
    assert Pow256(8) == 256 * Pow256(7) == 256 * 256 * Pow256(6) == 256 * 256 * 256 * Pow256(5) == 256 * 256 * 256 * 256 * Pow256(4);
  }

  /** Two's complement. */
  function Unsigned(g: int64): (n: nat) { if g < 0 then g + 0x1_0000_0000_0000_0000 else g }

  function Signed(n: nat): (g: int64)
    requires n < 0x1_0000_0000_0000_0000
  {
    if n < 0x8000_0000_0000_0000 then n else n - 0x1_0000_0000_0000_0000
  }

  function Le32(n: uint32): (s: seq<byte>)
    ensures |s| == 4
  {
    Le(n, 4)
  }

  function Le64(g: int64): (s: seq<byte>)
    ensures |s| == 8
  {
    Le(Unsigned(g), 8)
  }

  function UnLe32(s: seq<byte>): (n: uint32)
    requires |s| == 4
  {
    UnLeBound(s); Powers();
    UnLe(s)
  }

  function UnLe64(s: seq<byte>): (g: int64)
    requires |s| == 8
  {
    UnLeBound(s); Powers();
    Signed(UnLe(s))
  }

  lemma IntegersRoundTrip(n: uint32, g: int64)
    ensures UnLe32(Le32(n)) == n && UnLe64(Le64(g)) == g
  {
    hide Le, UnLe, Pow256;
    Powers();
    LeRoundTrip(n, 4);
    LeRoundTrip(Unsigned(g), 8);
  }

  lemma BytesRoundTrip(s: seq<byte>, t: seq<byte>)
    requires |s| == 4 && |t| == 8
    ensures Le32(UnLe32(s)) == s && Le64(UnLe64(t)) == t
  {
    hide Le, UnLe, Pow256;
    Powers();
    UnLeBound(t);
    UnLeRoundTrip(s);
    UnLeRoundTrip(t);
  }

  // ---------------------------------------------------------------- the codec

  /** The fixed header with the given four bytes in the checksum field. */
  function Header(p: Page, crc: seq<byte>): (h: seq<byte>)
    requires |p.segTable| <= 255 && |crc| == 4
    ensures |h| == HEADER_LEN
  {
    CAPTURE + [0, p.flags] + Le64(p.granule) + Le32(p.serial) + Le32(p.sequence) + crc + [|p.segTable|]
  }

  const NO_CRC: seq<byte> := [0, 0, 0, 0]

  function Assemble(p: Page, crc: seq<byte>): (b: seq<byte>)
    requires |p.segTable| <= 255 && |crc| == 4
    ensures |b| == HEADER_LEN + |p.segTable| + |p.body|
  {
    Header(p, crc) + p.segTable + p.body
  }

  /** The checksum of a page, its checksum field read as zero. */
  function PageCrc(header: seq<byte>, segTable: seq<byte>, body: seq<byte>): (crc: uint32)
    requires |header| == HEADER_LEN
  {
    Checksum(Checksum(Checksum(0, header[..CRC_OFFSET] + NO_CRC + header[CRC_OFFSET + 4..]), segTable), body) as int
  }

  function Encode(p: Page): (b: seq<byte>)
    requires |p.segTable| <= 255
    ensures |b| == HEADER_LEN + |p.segTable| + |p.body|
  {
    Assemble(p, Le32(Checksum(0, Assemble(p, NO_CRC)) as int))
  }

  function WritePage(p: Page): (w: Written) {
    if |p.segTable| == 0 || |p.segTable| > MAX_SEGMENTS then Rejected(BadSegmentCount)
    else if Sum(p.segTable) != |p.body| then Rejected(BodyMismatch)
    else Written(Encode(p))
  }

  /** The page at the start of a buffer that holds all of it. */
  function Decode(b: seq<byte>, hdrLen: nat, total: nat): (p: Page)
    requires HEADER_LEN <= hdrLen <= total <= |b|
  {
    Page(b[5], UnLe64(b[6..14]), UnLe32(b[14..18]), UnLe32(b[18..22]), b[HEADER_LEN..hdrLen], b[hdrLen..total])
  }

  function ParsePage(b: seq<byte>): (r: Parsed)
    ensures r.Parsed? ==> HEADER_LEN < r.len <= |b| && r.len <= MAX_PAGE
  {
    if |b| < HEADER_LEN then Short
    else if b[..4] != CAPTURE then Bad(BadCapture)
    else if b[4] != 0 then Bad(BadVersion)
    else if b[26] == 0 then Bad(NoSegments)
    else
      var hdrLen := HEADER_LEN + b[26];
      if |b| < hdrLen then Short
      else
        var total := hdrLen + Sum(b[HEADER_LEN..hdrLen]);
        if |b| < total then Short
        else if PageCrc(b[..HEADER_LEN], b[HEADER_LEN..hdrLen], b[hdrLen..total]) != UnLe32(b[CRC_OFFSET..CRC_OFFSET + 4]) then Bad(BadChecksum)
        else Parsed(Decode(b, hdrLen, total), total)
  }

  /** Reading from a source: what was read, and where the source now stands. */
  function ReadPage(src: seq<byte>, off: nat): (r: (Read, nat))
    requires off <= |src|
    ensures off <= r.1 <= |src| && (r.1 == off <==> r.0.Eof?)
  {
    if off == |src| then (Eof, off)
    else if |src| - off < HEADER_LEN then (UnexpectedEof, |src|)
    else
      var h := src[off..off + HEADER_LEN];
      if h[..4] != CAPTURE then (Broken(BadCapture), off + HEADER_LEN)
      else if h[4] != 0 then (Broken(BadVersion), off + HEADER_LEN)
      else if h[26] == 0 then (Broken(NoSegments), off + HEADER_LEN)
      else
        var hdrLen := HEADER_LEN + h[26];
        if |src| - off < hdrLen then (UnexpectedEof, |src|)
        else
          var segTable := src[off + HEADER_LEN..off + hdrLen];
          var total := hdrLen + Sum(segTable);
          if |src| - off < total then (UnexpectedEof, |src|)
          else
            var body := src[off + hdrLen..off + total];
            if PageCrc(h, segTable, body) != UnLe32(h[CRC_OFFSET..CRC_OFFSET + 4]) then (Broken(BadChecksum), off + total)
            else (Read(Page(h[5], UnLe64(h[6..14]), UnLe32(h[14..18]), UnLe32(h[18..22]), segTable, body)), off + total)
  }

  // ---------------------------------------------------------------- round trips

  lemma HeaderFields(p: Page, crc: seq<byte>)
    requires |p.segTable| <= 255 && |crc| == 4
    ensures var h := Header(p, crc);
            h[..4] == CAPTURE && h[4] == 0 && h[5] == p.flags && h[6..14] == Le64(p.granule) && h[14..18] == Le32(p.serial)
            && h[18..22] == Le32(p.sequence) && h[CRC_OFFSET..CRC_OFFSET + 4] == crc && h[26] == |p.segTable|
    ensures var h := Header(p, crc); h[..CRC_OFFSET] + NO_CRC + h[CRC_OFFSET + 4..] == Header(p, NO_CRC)
  {
    hide Le64, Le32;
  }

  /** Checking a page's checksum piecewise agrees with computing it over the whole page. */
  lemma PageCrcIsWhole(p: Page, crc: seq<byte>)
    requires |p.segTable| <= 255 && |crc| == 4
    ensures PageCrc(Header(p, crc), p.segTable, p.body) == Checksum(0, Assemble(p, NO_CRC)) as int
  {
    hide Header, Checksum;
    HeaderFields(p, crc);
    var h := Header(p, NO_CRC);
    ChecksumChains(0, h + p.segTable, p.body);
    ChecksumChains(0, h, p.segTable);
  }

  lemma AssembleParts(p: Page, crc: seq<byte>, rest: seq<byte>)
    requires |p.segTable| <= 255 && |crc| == 4
    ensures var b := Assemble(p, crc) + rest; var hdrLen := HEADER_LEN + |p.segTable|; var total := hdrLen + |p.body|;
            b[..HEADER_LEN] == Header(p, crc) && b[HEADER_LEN..hdrLen] == p.segTable && b[hdrLen..total] == p.body
  {
    hide Header;
  }

  lemma Within(b: seq<byte>, h: seq<byte>, i: nat, j: nat)
    requires |h| <= |b| && b[..|h|] == h && i <= j <= |h|
    ensures b[i..j] == h[i..j] && (i < |h| ==> b[i] == h[i])
  {
    assert forall k | 0 <= k < |h| :: b[..|h|][k] == b[k];
    assert b[i..j] == h[i..j];
  }

  /** Every page the writer emits parses back, whatever follows it. */
  lemma ParseOfWritten(p: Page, rest: seq<byte>)
    requires p.Writable()
    ensures WritePage(p) == Written(Encode(p))
    ensures ParsePage(Encode(p) + rest) == Parsed(p, |Encode(p)|)
  {
    hide Header, Checksum, UnLe32, UnLe64, Le32, Le64, PageCrc, Sum;
    var crc := Le32(Checksum(0, Assemble(p, NO_CRC)) as int);
    var h, b := Header(p, crc), Encode(p) + rest;
    AssembleParts(p, crc, rest);
    HeaderFields(p, crc);
    Within(b, h, 0, 4); Within(b, h, 4, 4); Within(b, h, 5, 5); Within(b, h, 6, 14); Within(b, h, 14, 18);
    Within(b, h, 18, 22); Within(b, h, 22, 26); Within(b, h, 26, 26);
    PageCrcIsWhole(p, crc);
    IntegersRoundTrip(p.serial, p.granule);
    IntegersRoundTrip(p.sequence, p.granule);
    IntegersRoundTrip(Checksum(0, Assemble(p, NO_CRC)) as int, p.granule);
  }

  lemma HeaderOf(h: seq<byte>, p: Page)
    requires |h| == HEADER_LEN && |p.segTable| <= 255
    requires h[..4] == CAPTURE && h[4] == 0 && h[5] == p.flags && h[6..14] == Le64(p.granule) && h[14..18] == Le32(p.serial)
             && h[18..22] == Le32(p.sequence) && h[26] == |p.segTable|
    ensures h == Header(p, h[CRC_OFFSET..CRC_OFFSET + 4])
  {
    hide Le64, Le32;
    assert h[4..6] == [0, p.flags];
    assert h[..4] + h[4..6] == h[..6];
    assert h[..6] + h[6..14] == h[..14];
    assert h[..14] + h[14..18] == h[..18];
    assert h[..18] + h[18..22] == h[..22];
    assert h[..22] + h[22..26] == h[..26];
    assert h[..26] + [|p.segTable|] == h;
  }

  /** Only what the writer would emit parses: the encoding of a page is unique. */
  lemma WrittenOfParse(b: seq<byte>)
    requires ParsePage(b).Parsed?
    ensures var r := ParsePage(b); r.page.Writable() && Encode(r.page) == b[..r.len]
  {
    hide Header, Checksum, UnLe32, UnLe64, Le32, Le64, PageCrc, Sum;
    var p, total := ParsePage(b).page, ParsePage(b).len;
    var h := b[..HEADER_LEN];
    BytesRoundTrip(b[14..18], b[6..14]);
    BytesRoundTrip(b[18..22], b[6..14]);
    BytesRoundTrip(b[22..26], b[6..14]);
    Within(b, h, 0, 4); Within(b, h, 4, 4); Within(b, h, 5, 5); Within(b, h, 6, 14); Within(b, h, 14, 18);
    Within(b, h, 18, 22); Within(b, h, 22, 26); Within(b, h, 26, 26);
    HeaderOf(h, p);
    PageCrcIsWhole(p, h[22..26]);
    assert b[..total] == h + p.segTable + p.body;
  }

  // ---------------------------------------------------------------- where everything is

  /** k bytes from `at` on hold n, low byte first. */
  ghost predicate Holds(b: seq<byte>, at: nat, k: nat, n: nat) {
    at + k <= |b| && forall i | 0 <= i < k :: b[at + i] == n / Pow256(i) % 256
  }

  /** The page format of RFC 3533 section 6, field by field; the checksum is the remainder of the whole
      page with its own field zero. */
  ghost predicate LaidOut(b: seq<byte>, p: Page) {
    var n := |p.segTable|;
    && |b| == 27 + n + |p.body|
    && b[0] == 79 && b[1] == 103 && b[2] == 103 && b[3] == 83 && b[4] == 0 && b[5] == p.flags && b[26] == n
    && Holds(b, 6, 8, Unsigned(p.granule)) && Holds(b, 14, 4, p.serial) && Holds(b, 18, 4, p.sequence)
    && Holds(b, 22, 4, Remainder(b[..22] + [0, 0, 0, 0] + b[26..]) as int)
    && b[27..27 + n] == p.segTable && b[27 + n..] == p.body
    && (p.Has(CONTINUED) <==> b[5] % 2 == 1) && (p.Has(BOS) <==> b[5] / 2 % 2 == 1) && (p.Has(EOS) <==> b[5] / 4 % 2 == 1)
  }

  lemma DivideTwice(n: nat, p: nat)
    requires p > 0
    ensures n / 256 / p == n / (256 * p)
  {
    var q, r := n / 256 / p, n / 256 % p;
    assert n / 256 == p * q + r;
    assert n == (256 * p) * q + (256 * r + n % 256);
    Quotient(n, 256 * p, q, 256 * r + n % 256);
  }

  lemma Quotient(n: nat, d: nat, q: nat, r: nat)
    requires d > 0 && n == d * q + r && r < d
    ensures n / d == q
  {
    var m := n / d;
    assert d * m <= n < d * m + d;
    if m < q { TimesGrows(d, m + 1, q); }
    if q < m { TimesGrows(d, q + 1, m); }
  }

  lemma TimesGrows(d: nat, a: nat, b: nat)
    requires a <= b
    ensures d * a <= d * b
  {
  }

  lemma {:induction false} LeAt(n: nat, k: nat, i: nat)
    requires i < k
    ensures Le(n, k)[i] == n / Pow256(i) % 256
    decreases k
  {
    if i == 0 {
      assert Pow256(0) == 1;
    } else {
      LeAt(n / 256, k - 1, i - 1);
      DivideTwice(n, Pow256(i - 1));
    }
  }

  lemma LeHolds(b: seq<byte>, at: nat, k: nat, n: nat)
    requires at + k <= |b| && b[at..at + k] == Le(n, k)
    ensures Holds(b, at, k, n)
  {
    hide Le, Pow256;
    forall i | 0 <= i < k ensures b[at + i] == n / Pow256(i) % 256 {
      LeAt(n, k, i);
      assert b[at + i] == b[at..at + k][i];
    }
  }

  lemma WrittenIsLaidOut(p: Page)
    requires p.Writable()
    ensures LaidOut(Encode(p), p)
  {
    hide Header, Checksum, Remainder, Le, Holds, Sum;
    var zero := Assemble(p, NO_CRC);
    var crc := Checksum(0, zero) as int;
    var h, b := Header(p, Le32(crc)), Encode(p);
    AssembleParts(p, Le32(crc), []);
    assert b + [] == b;
    HeaderFields(p, Le32(crc));
    Within(b, h, 0, 4); Within(b, h, 4, 4); Within(b, h, 5, 5); Within(b, h, 6, 14); Within(b, h, 14, 18);
    Within(b, h, 18, 22); Within(b, h, 22, 26); Within(b, h, 26, 26);
    LeHolds(b, 6, 8, Unsigned(p.granule));
    LeHolds(b, 14, 4, p.serial);
    LeHolds(b, 18, 4, p.sequence);
    LeHolds(b, 22, 4, crc);
    assert b[..22] + [0, 0, 0, 0] + b[26..] == zero by { WithoutChecksum(p, Le32(crc)); }
    ChecksumIsRemainder(zero);
    assert b[..4][0] == 79 && b[..4][1] == 103 && b[..4][2] == 103 && b[..4][3] == 83;
  }

  lemma WithoutChecksum(p: Page, crc: seq<byte>)
    requires |p.segTable| <= 255 && |crc| == 4
    ensures var b := Assemble(p, crc); b[..22] + [0, 0, 0, 0] + b[26..] == Assemble(p, NO_CRC)
  {
    hide Header, Assemble;
    HeaderFields(p, crc);
    AssembledAs(p, crc);
    AssembledAs(p, NO_CRC);
    Spliced(Header(p, crc), p.segTable + p.body);
  }

  lemma AssembledAs(p: Page, crc: seq<byte>)
    requires |p.segTable| <= 255 && |crc| == 4
    ensures Assemble(p, crc) == Header(p, crc) + (p.segTable + p.body)
  {
    hide Header;
    assert (Header(p, crc) + p.segTable) + p.body == Header(p, crc) + (p.segTable + p.body);
  }

  lemma Spliced(h: seq<byte>, t: seq<byte>)
    requires |h| == HEADER_LEN
    ensures (h + t)[..22] + NO_CRC + (h + t)[26..] == h[..22] + NO_CRC + h[26..] + t
  {
    assert (h + t)[..22] == h[..22] && (h + t)[26..] == h[26..] + t;
  }

  /** readPage accepts exactly the pages parsePage accepts, and fails as it fails. */
  lemma ReadIsParse(src: seq<byte>, off: nat)
    requires off <= |src|
    ensures var r := ReadPage(src, off);
            match ParsePage(src[off..])
            case Parsed(p, n) => r == (Read(p), off + n)
            case Short => r.0 == if off == |src| then Eof else UnexpectedEof
            case Bad(flaw) => r.0 == Broken(flaw)
  {
    hide Checksum, UnLe32, UnLe64, PageCrc, Sum;
    var b := src[off..];
    if |b| >= HEADER_LEN {
      var h := src[off..off + HEADER_LEN];
      assert b[..HEADER_LEN] == h;
      Within(b, h, 0, 4); Within(b, h, 4, 4); Within(b, h, 5, 5); Within(b, h, 6, 14); Within(b, h, 14, 18);
      Within(b, h, 18, 22); Within(b, h, 22, 26); Within(b, h, 26, 26);
      var hdrLen := HEADER_LEN + h[26];
      if hdrLen <= |b| {
        assert b[HEADER_LEN..hdrLen] == src[off + HEADER_LEN..off + hdrLen];
        var total := hdrLen + Sum(b[HEADER_LEN..hdrLen]);
        if total <= |b| {
          assert b[hdrLen..total] == src[off + hdrLen..off + total];
        }
      }
    }
  }

  /** A verdict other than "too short" stands whatever follows. */
  lemma ParseOfPrefix(b: seq<byte>, c: seq<byte>)
    requires b <= c
    ensures !ParsePage(b).Short? ==> ParsePage(c) == ParsePage(b)
    ensures ParsePage(c).Parsed? ==> ParsePage(b) == if |b| < ParsePage(c).len then Short else ParsePage(c)
    ensures |b| >= MAX_PAGE ==> !ParsePage(b).Short?
  {
    hide Checksum, UnLe32, UnLe64, PageCrc, Sum;
    if |b| >= HEADER_LEN {
      var h := b[..HEADER_LEN];
      assert c[..HEADER_LEN] == h by { Within(c, b, 0, HEADER_LEN); }
      Within(c, h, 0, 4); Within(c, h, 4, 4); Within(c, h, 5, 5); Within(c, h, 6, 14); Within(c, h, 14, 18);
      Within(c, h, 18, 22); Within(c, h, 22, 26); Within(c, h, 26, 26);
      Within(b, h, 0, 4); Within(b, h, 4, 4); Within(b, h, 5, 5); Within(b, h, 6, 14); Within(b, h, 14, 18);
      Within(b, h, 18, 22); Within(b, h, 22, 26); Within(b, h, 26, 26);
      var hdrLen := HEADER_LEN + h[26];
      if hdrLen <= |b| {
        Within(c, b, HEADER_LEN, hdrLen);
        var total := hdrLen + Sum(b[HEADER_LEN..hdrLen]);
        if total <= |b| {
          Within(c, b, hdrLen, total);
        }
      }
    }
  }

  // ---------------------------------------------------------------- lacing

  /** The lacing values of a packet: as many 255s as fit, then what is left, even if zero. */
  function Lacing(n: nat): (s: seq<byte>)
    ensures |s| == n / MAX_SEGMENT + 1
  {
    if n >= MAX_SEGMENT then [255] + Lacing(n - MAX_SEGMENT) else [n]
  }

  /** Lacing values add up to the packet, and only the last is below 255. */
  lemma {:induction false} LacingMeasures(n: nat)
    ensures Sum(Lacing(n)) == n
    ensures forall i | 0 <= i < |Lacing(n)| :: Lacing(n)[i] < MAX_SEGMENT <==> i == |Lacing(n)| - 1
  {
    if n >= MAX_SEGMENT {
      LacingMeasures(n - MAX_SEGMENT);
      assert Lacing(n)[1..] == Lacing(n - MAX_SEGMENT);
    } else {
      assert Lacing(n)[1..] == [];
    }
  }
}
