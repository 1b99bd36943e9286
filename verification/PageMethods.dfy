/** The page codec as it runs: buffers filled and sliced in place. */
module PageMethods {
  import opened Crc
  import P = Page

  ghost predicate IsCrcTable(table: array<bv32>)
    reads table
  {
    table.Length == 256 && forall v: bv8 :: table[v as int] == Entry(v)
  }

  /** Writes `s` behind what is done; what follows stays. */
  method Copy(buf: array<byte>, at: nat, s: seq<byte>, ghost done: seq<byte>)
    requires at + |s| <= buf.Length && buf[..at] == done
    modifies buf
    ensures buf[..at + |s|] == done + s
    ensures forall j | at + |s| <= j < buf.Length :: buf[j] == old(buf[j])
  {
    for i := 0 to |s|
      invariant forall j | 0 <= j < buf.Length :: buf[j] == if at <= j < at + i then s[j - at] else old(buf[j])
    {
      buf[at + i] := s[i];
    }
    assert buf[at..at + |s|] == s;
    assert buf[..at] == done by {
      assert forall j | 0 <= j < at :: buf[j] == old(buf[..at])[j];
    }
    assert buf[..at + |s|] == buf[..at] + buf[at..at + |s|];
  }

  /** Writes `n` little-endian in `k` bytes. */
  method Put(buf: array<byte>, at: nat, n: nat, k: nat, ghost done: seq<byte>)
    requires at + k <= buf.Length && buf[..at] == done
    modifies buf
    ensures buf[..at + k] == done + P.Le(n, k)
    ensures forall j | at + k <= j < buf.Length :: buf[j] == old(buf[j])
  {
    var rest := n;
    ghost var all := P.Le(n, k);
    for i := 0 to k
      invariant P.Le(rest, k - i) == all[i..]
      invariant forall j | 0 <= j < buf.Length :: buf[j] == if at <= j < at + i then all[j - at] else old(buf[j])
    {
      assert P.Le(rest, k - i)[0] == all[i];
      assert P.Le(rest, k - i)[1..] == all[i + 1..];
      buf[at + i] := rest % 256;
      rest := rest / 256;
    }
    assert buf[at..at + k] == all;
    assert buf[..at] == done by {
      assert forall j | 0 <= j < at :: buf[j] == old(buf[..at])[j];
    }
    assert buf[..at + k] == buf[..at] + buf[at..at + k];
  }

  method SumOf(s: seq<byte>) returns (sum: nat)
    ensures sum == P.Sum(s)
  {
    sum := 0;
    assert s[0..] == s;
    for i := 0 to |s|
      invariant sum + P.Sum(s[i..]) == P.Sum(s)
    {
      assert s[i..][1..] == s[i + 1..];
      sum := sum + s[i];
    }
  }

  method WritePage(table: array<bv32>, p: P.Page) returns (w: P.Written)
    requires IsCrcTable(table)
    ensures w == P.WritePage(p)
    ensures w.Written? ==> P.LaidOut(w.bytes, p)
  {
    hide IsCrcTable, P.Le, P.Le32, P.Le64, Checksum, P.Sum, P.LaidOut;
    if p.Writable() { P.WrittenIsLaidOut(p); }
    if |p.segTable| == 0 || |p.segTable| > P.MAX_SEGMENTS { return P.Rejected(P.BadSegmentCount); }
    var sum := SumOf(p.segTable);
    if sum != |p.body| { return P.Rejected(P.BodyMismatch); }
    var buf := Assembled(p);
    var crc := Checksummed(table, buf[..]);
    SetChecksum(p, buf, crc as int);
    return P.Written(buf[..]);
  }

  /** The page with its checksum field left zero. */
  method Assembled(p: P.Page) returns (buf: array<byte>)
    requires |p.segTable| <= 255
    ensures fresh(buf) && buf[..] == P.Assemble(p, P.NO_CRC)
  {
    hide P.Header;
    var n, m := |p.segTable|, |p.body|;
    buf := new byte[P.HEADER_LEN + n + m](_ => 0);
    PutHeader(p, buf);
    Copy(buf, P.HEADER_LEN, p.segTable, buf[..27]);
    Copy(buf, P.HEADER_LEN + n, p.body, buf[..27 + n]);
    assert buf[..] == buf[..27 + n + m];
  }

  method PutHeader(p: P.Page, buf: array<byte>)
    requires |p.segTable| <= 255 && buf.Length >= P.HEADER_LEN && forall j | 0 <= j < buf.Length :: buf[j] == 0
    modifies buf
    ensures buf[..P.HEADER_LEN] == P.Header(p, P.NO_CRC)
  {
    hide P.Le, P.Unsigned;
    Copy(buf, 0, P.CAPTURE, []);
    Copy(buf, 4, [0, p.flags], buf[..4]);
    Put(buf, 6, P.Unsigned(p.granule), 8, buf[..6]);
    Put(buf, 14, p.serial, 4, buf[..14]);
    Put(buf, 18, p.sequence, 4, buf[..18]);
    assert buf[..26] == buf[..22] + P.NO_CRC;
    Copy(buf, 26, [|p.segTable|], buf[..26]);
  }

  method SetChecksum(p: P.Page, buf: array<byte>, crc: P.uint32)
    requires |p.segTable| <= 255 && buf[..] == P.Assemble(p, P.NO_CRC)
    modifies buf
    ensures buf[..] == P.Assemble(p, P.Le32(crc))
  {
    hide P.Le32, P.Le64, P.Le;
    ghost var zero := buf[..];
    Put(buf, P.CRC_OFFSET, crc, 4, buf[..P.CRC_OFFSET]);
    assert buf[26..] == zero[26..];
    assert buf[..] == buf[..26] + buf[26..];
    assert P.Assemble(p, P.Le32(crc))[..26] == zero[..22] + P.Le32(crc);
    assert P.Assemble(p, P.Le32(crc))[26..] == zero[26..];
    assert buf[..26] == zero[..22] + P.Le32(crc) by { LeIsLe32(crc); }
  }

  lemma LeIsLe32(n: P.uint32)
    ensures P.Le32(n) == P.Le(n, 4)
  {
  }

  method Checksummed(table: array<bv32>, b: seq<byte>) returns (crc: bv32)
    requires IsCrcTable(table)
    ensures crc == Checksum(0, b)
  {
    crc := Crc32(table, 0, b);
  }

  method PageCrc(table: array<bv32>, hdr: seq<byte>, segTable: seq<byte>, body: seq<byte>) returns (crc: P.uint32)
    requires IsCrcTable(table) && |hdr| == P.HEADER_LEN
    ensures crc == P.PageCrc(hdr, segTable, body)
  {
    hide Checksum;
    var zeroed := new byte[P.HEADER_LEN](_ => 0);
    Copy(zeroed, 0, hdr, []);
    assert zeroed[..] == hdr;
    for i := P.CRC_OFFSET to P.CRC_OFFSET + 4
      invariant forall j | 0 <= j < zeroed.Length :: zeroed[j] == if P.CRC_OFFSET <= j < i then 0 else hdr[j]
    {
      zeroed[i] := 0;
    }
    assert zeroed[..] == hdr[..P.CRC_OFFSET] + P.NO_CRC + hdr[P.CRC_OFFSET + 4..];
    var sum := Crc32(table, 0, zeroed[..]);
    sum := Crc32(table, sum, segTable);
    sum := Crc32(table, sum, body);
    crc := sum as int;
  }

  method ParsePage(table: array<bv32>, b: seq<byte>) returns (r: P.Parsed)
    requires IsCrcTable(table)
    ensures r == P.ParsePage(b)
  {
    hide IsCrcTable, P.PageCrc, P.Sum, P.UnLe32, P.UnLe64;
    if |b| < P.HEADER_LEN { return P.Short; }
    if b[..4] != P.CAPTURE { return P.Bad(P.BadCapture); }
    if b[4] != 0 { return P.Bad(P.BadVersion); }
    if b[26] == 0 { return P.Bad(P.NoSegments); }
    var hdrLen: nat := P.HEADER_LEN + b[26];
    if |b| < hdrLen { return P.Short; }
    var segTable := b[P.HEADER_LEN..hdrLen];
    var bodyLen := SumOf(segTable);
    var total := hdrLen + bodyLen;
    if |b| < total { return P.Short; }
    var sum := PageCrc(table, b[..P.HEADER_LEN], segTable, b[hdrLen..total]);
    if sum != P.UnLe32(b[P.CRC_OFFSET..P.CRC_OFFSET + 4]) { return P.Bad(P.BadChecksum); }
    return P.Parsed(P.Decode(b, hdrLen, total), total);
  }

  /** A buffered source and its position. */
  class Source {
    const bytes: seq<byte>
    var pos: nat

    ghost predicate Valid()
      reads this
    {
      pos <= |bytes|
    }

    constructor (bytes: seq<byte>)
      ensures Valid() && this.bytes == bytes && pos == 0
    {
      this.bytes := bytes;
      pos := 0;
    }

    /** io.ReadFull: all of `n` bytes, or what is left and a failure. */
    method ReadFull(n: nat) returns (ok: bool, b: seq<byte>)
      requires Valid()
      modifies this
      ensures Valid() && ok == (old(pos) + n <= |bytes|)
      ensures pos == if ok then old(pos) + n else |bytes|
      ensures b == bytes[old(pos)..pos]
    {
      ok := pos + n <= |bytes|;
      var stop := if ok then pos + n else |bytes|;
      b := bytes[pos..stop];
      pos := stop;
    }

    method ReadPage(table: array<bv32>) returns (r: P.Read)
      requires Valid() && IsCrcTable(table)
      modifies this
      ensures Valid() && (r, pos) == P.ReadPage(bytes, old(pos))
    {
      hide IsCrcTable, P.PageCrc, P.Sum, P.UnLe32, P.UnLe64;
      if pos == |bytes| { return P.Eof; }
      var ok, h := ReadFull(P.HEADER_LEN);
      if !ok { return P.UnexpectedEof; }
      if h[..4] != P.CAPTURE { return P.Broken(P.BadCapture); }
      if h[4] != 0 { return P.Broken(P.BadVersion); }
      if h[26] == 0 { return P.Broken(P.NoSegments); }
      var segTable, body;
      ok, segTable := ReadFull(h[26]);
      if !ok { return P.UnexpectedEof; }
      var bodyLen := SumOf(segTable);
      ok, body := ReadFull(bodyLen);
      if !ok { return P.UnexpectedEof; }
      var sum := PageCrc(table, h, segTable, body);
      if sum != P.UnLe32(h[P.CRC_OFFSET..P.CRC_OFFSET + 4]) { return P.Broken(P.BadChecksum); }
      return P.Read(P.Page(h[5], P.UnLe64(h[6..14]), P.UnLe32(h[14..18]), P.UnLe32(h[18..22]), segTable, body));
    }
  }

  method Lacing(n0: nat) returns (segs: seq<byte>)
    ensures segs == P.Lacing(n0)
  {
    var n: nat := n0;
    segs := [];
    while n >= P.MAX_SEGMENT
      invariant segs + P.Lacing(n) == P.Lacing(n0)
    {
      segs := segs + [255];
      n := n - P.MAX_SEGMENT;
    }
    segs := segs + [n];
  }
}
