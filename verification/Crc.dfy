/** The page checksum of RFC 3533 section 6: a table-driven, most-significant-bit-first CRC-32
    against bit-serial polynomial division. */
module Crc {
  type byte = i: int | 0 <= i < 256

  const POLY: bv32 := 0x04c1_1db7

  function Bit(b: bool): (v: bv32) { if b then 1 else 0 }

  // ---------------------------------------------------------------- division

  /** Addition of polynomials over the two-element field. */
  function Add(a: bv32, b: bv32): (v: bv32) { a ^ b }

  /** One step of long division by x^32 + POLY: multiply the remainder by x, reduce. */
  function Times(r: bv32): (v: bv32) {
    if TopBit(r) then Add(Double(r), POLY) else Double(r)
  }

  predicate TopBit(r: bv32) { r & 0x8000_0000 != 0 }

  function Double(r: bv32): (v: bv32) { r << 1 }

  function TimesN(r: bv32, n: nat): (v: bv32)
    decreases n
  {
    if n == 0 then r else TimesN(Times(r), n - 1)
  }

  /** Bit-serial division: brings down one bit of the dividend at a time. */
  function Divide(r: bv32, bits: seq<bool>): (v: bv32)
    decreases |bits|
  {
    if bits == [] then r else Divide(Add(Times(r), Bit(bits[0])), bits[1..])
  }

  function Test(x: bv8, mask: bv8): (b: bool) { x & mask != 0 }

  /** The bits of a byte, most significant first. */
  function ByteBits(x: bv8): (s: seq<bool>)
    ensures |s| == 8
  {
    [Test(x, 0x80), Test(x, 0x40), Test(x, 0x20), Test(x, 0x10),
     Test(x, 0x08), Test(x, 0x04), Test(x, 0x02), Test(x, 0x01)]
  }

  function Bits(b: seq<byte>): (s: seq<bool>) {
    if b == [] then [] else ByteBits(b[0] as bv8) + Bits(b[1..])
  }

  function Zeros(n: nat): (s: seq<bool>) { seq(n, _ => false) }

  /** The checksum: the remainder of message * x^32. */
  function Remainder(message: seq<byte>): (r: bv32) {
    Divide(0, Bits(message) + Zeros(32))
  }

  // ---------------------------------------------------------------- the running checksum

  /** A byte as the top coefficients of a remainder. */
  function AtTop(x: bv8): (v: bv32) { x as bv32 << 24 }

  function TopByte(r: bv32): (x: bv8) { (r >> 24) as bv8 }

  function Entry(v: bv8): (r: bv32) { TimesN(AtTop(v), 8) }

  function Update(crc: bv32, x: bv8): (r: bv32) {
    Add(crc << 8, Entry(TopByte(crc) ^ x))
  }

  function Checksum(crc: bv32, b: seq<byte>): (r: bv32)
    decreases |b|
  {
    if b == [] then crc else Checksum(Update(crc, b[0] as bv8), b[1..])
  }

  // ---------------------------------------------------------------- linearity

  lemma AddLaws(a: bv32, b: bv32, c: bv32)
    ensures Add(a, 0) == a && Add(0, a) == a
    ensures Add(Add(a, b), c) == Add(a, Add(b, c))
    ensures Add(a, b) == Add(b, a)
  {
  }

  lemma AddSelf(p: bv32)
    ensures Add(p, p) == 0
  {
  }

  lemma AddTwice(a: bv32, b: bv32, p: bv32)
    ensures Add(Add(a, p), Add(b, p)) == Add(a, b)
  {
    hide Add;
    AddLaws(a, p, Add(b, p));
    AddLaws(b, p, 0);
    AddLaws(p, p, b);
    AddSelf(p);
    AddLaws(b, 0, 0);
  }

  lemma DoubleAdd(a: bv32, b: bv32)
    ensures Double(Add(a, b)) == Add(Double(a), Double(b))
  {
  }

  lemma TopBitAdd(a: bv32, b: bv32)
    ensures TopBit(Add(a, b)) == (TopBit(a) != TopBit(b))
  {
    assert (a ^ b) & 0x8000_0000 == (a & 0x8000_0000) ^ (b & 0x8000_0000);
    TopValues(a); TopValues(b);
  }

  lemma TopValues(a: bv32)
    ensures a & 0x8000_0000 == 0 || a & 0x8000_0000 == 0x8000_0000
  {
  }

  lemma TimesAdd(a: bv32, b: bv32)
    ensures Times(Add(a, b)) == Add(Times(a), Times(b))
  {
    hide Add, Double, TopBit;
    DoubleAdd(a, b);
    TopBitAdd(a, b);
    var da, db := Double(a), Double(b);
    AddLaws(da, db, POLY);
    AddLaws(da, POLY, db);
    AddLaws(db, POLY, 0);
    AddTwice(da, db, POLY);
  }

  lemma TimesZero()
    ensures Times(0) == 0
  {
  }

  lemma {:induction false} TimesNAdd(a: bv32, b: bv32, n: nat)
    ensures TimesN(Add(a, b), n) == Add(TimesN(a, n), TimesN(b, n))
    decreases n
  {
    hide Times, Add;
    if n > 0 {
      TimesAdd(a, b);
      TimesNAdd(Times(a), Times(b), n - 1);
    }
  }

  lemma {:induction false} TimesNTwice(r: bv32, m: nat, n: nat)
    ensures TimesN(TimesN(r, m), n) == TimesN(r, m + n)
    decreases m
  {
    hide Times;
    if m > 0 {
      TimesNTwice(Times(r), m - 1, n);
    }
  }

  lemma {:induction false} TimesNZero(n: nat)
    ensures TimesN(0, n) == 0
  {
    hide Times;
    if n > 0 { TimesZero(); TimesNZero(n - 1); }
  }

  lemma {:induction false} DivideAppends(r: bv32, a: seq<bool>, b: seq<bool>)
    ensures Divide(r, a + b) == Divide(Divide(r, a), b)
    decreases |a|
  {
    hide Times, Bit, Add;
    if a == [] {
      assert a + b == b;
    } else {
      assert (a + b)[1..] == a[1..] + b;
      DivideAppends(Add(Times(r), Bit(a[0])), a[1..], b);
    }
  }

  lemma {:induction false} DivideZeros(r: bv32, n: nat)
    ensures Divide(r, Zeros(n)) == TimesN(r, n)
    decreases n
  {
    hide Times, Add;
    if n > 0 {
      assert Zeros(n)[1..] == Zeros(n - 1);
      AddLaws(Times(r), 0, 0);
      DivideZeros(Times(r), n - 1);
    }
  }

  /** Dividing is multiplying what was there and adding the value of what came down. */
  lemma {:induction false} DivideSplits(r: bv32, bits: seq<bool>)
    ensures Divide(r, bits) == Add(TimesN(r, |bits|), Divide(0, bits))
    decreases |bits|
  {
    hide Times, Bit, Add;
    if bits == [] {
      AddLaws(r, 0, 0);
    } else {
      var b, rest := Bit(bits[0]), bits[1..];
      DivideSplits(Add(Times(r), b), rest);
      TimesNAdd(Times(r), b, |rest|);
      TimesZero();
      AddLaws(b, 0, 0);
      DivideSplits(b, rest);
      AddLaws(TimesN(Times(r), |rest|), TimesN(b, |rest|), Divide(0, rest));
    }
  }

  // ---------------------------------------------------------------- one byte

  lemma Unroll(r: bv32, n: nat)
    requires n > 0
    ensures TimesN(r, n) == TimesN(Times(r), n - 1)
  {
    hide Times;
  }

  predicate Doubles(r: bv32, next: bv32) { r & 0x8000_0000 == 0 && r << 1 == next }

  /** Bits that stay below the top only shift. */
  lemma Shifts(r: bv32)
    requires r & 0xff00_0000 == 0
    ensures Doubles(r, r << 1) && Doubles(r << 1, r << 2) && Doubles(r << 2, r << 3) && Doubles(r << 3, r << 4)
    ensures Doubles(r << 4, r << 5) && Doubles(r << 5, r << 6) && Doubles(r << 6, r << 7) && Doubles(r << 7, r << 8)
  {
  }

  lemma TimesLow(r: bv32, s: bv32, n: nat)
    requires Doubles(r, s) && n > 0
    ensures TimesN(r, n) == TimesN(s, n - 1)
  {
    Unroll(r, n);
  }

  lemma EightDoublings(r0: bv32, r1: bv32, r2: bv32, r3: bv32, r4: bv32, r5: bv32, r6: bv32, r7: bv32, r8: bv32)
    requires Doubles(r0, r1) && Doubles(r1, r2) && Doubles(r2, r3) && Doubles(r3, r4)
    requires Doubles(r4, r5) && Doubles(r5, r6) && Doubles(r6, r7) && Doubles(r7, r8)
    ensures TimesN(r0, 8) == r8
  {
    hide TimesN, Doubles;
    TimesLow(r0, r1, 8); TimesLow(r1, r2, 7); TimesLow(r2, r3, 6); TimesLow(r3, r4, 5);
    TimesLow(r4, r5, 4); TimesLow(r5, r6, 3); TimesLow(r6, r7, 2); TimesLow(r7, r8, 1);
    NoTimes(r8);
  }

  lemma ShiftLow8(r: bv32)
    requires r & 0xff00_0000 == 0
    ensures TimesN(r, 8) == r << 8
  {
    hide TimesN, Doubles;
    Shifts(r);
    EightDoublings(r, r << 1, r << 2, r << 3, r << 4, r << 5, r << 6, r << 7, r << 8);
  }

  lemma NoTimes(r: bv32)
    ensures TimesN(r, 0) == r
  {
  }

  lemma ByteMasks(x: bv8)
    ensures var v := x as bv32;
            v & 0xff00_0000 == 0 && (v << 8) & 0xff00_0000 == 0 && (v << 16) & 0xff00_0000 == 0
            && (v << 8) << 8 == v << 16 && (v << 16) << 8 == v << 24
  {
  }

  /** x^24 times a byte is the byte at the top. */
  lemma ByteToTop(x: bv8)
    ensures TimesN(x as bv32, 24) == AtTop(x)
  {
    hide TimesN, Times;
    var v := x as bv32;
    ByteMasks(x);
    ShiftLow8(v); ShiftLow8(v << 8); ShiftLow8(v << 16);
    TimesNTwice(v, 8, 8);
    TimesNTwice(v, 16, 8);
  }

  lemma TopAndLow(crc: bv32, x: bv8)
    ensures Add(crc & 0x00ff_ffff, AtTop(TopByte(crc) ^ x)) == Add(crc, AtTop(x))
    ensures (crc & 0x00ff_ffff) << 8 == crc << 8 && (crc & 0x00ff_ffff) & 0xff00_0000 == 0
  {
  }

  /** A byte enters at the top, ahead of the 32 zeros: one table step is eight division
      steps of the remainder with the byte added to its top byte. */
  lemma UpdateIsTimes8(crc: bv32, x: bv8)
    ensures Update(crc, x) == TimesN(Add(crc, AtTop(x)), 8)
  {
    hide TimesN, AtTop, TopByte, Add;
    TopAndLow(crc, x);
    var top, low := TopByte(crc) ^ x, crc & 0x00ff_ffff;
    ShiftLow8(low);
    TimesNAdd(low, AtTop(top), 8);
  }

  predicate Brings(r: bv32, b: bool, next: bv32) { Add(Times(r), Bit(b)) == next }

  lemma BringsDown(r: bv32, b: bool, next: bv32, bits: seq<bool>, i: nat)
    requires i < |bits| && bits[i] == b && Brings(r, b, next)
    ensures Divide(r, bits[i..]) == Divide(next, bits[i + 1..])
  {
    hide Times, Add, Bit;
    assert bits[i..][1..] == bits[i + 1..];
  }

  lemma FirstDigits(x: bv8)
    ensures Brings(0, Test(x, 0x80), (x >> 7) as bv32)
    ensures Brings((x >> 7) as bv32, Test(x, 0x40), (x >> 6) as bv32)
    ensures Brings((x >> 6) as bv32, Test(x, 0x20), (x >> 5) as bv32)
    ensures Brings((x >> 5) as bv32, Test(x, 0x10), (x >> 4) as bv32)
  {
  }

  lemma LastDigits(x: bv8)
    ensures Brings((x >> 4) as bv32, Test(x, 0x08), (x >> 3) as bv32)
    ensures Brings((x >> 3) as bv32, Test(x, 0x04), (x >> 2) as bv32)
    ensures Brings((x >> 2) as bv32, Test(x, 0x02), (x >> 1) as bv32)
    ensures Brings((x >> 1) as bv32, Test(x, 0x01), x as bv32)
  {
  }

  lemma EightBits(s: seq<bool>, r0: bv32, r1: bv32, r2: bv32, r3: bv32, r4: bv32, r5: bv32, r6: bv32, r7: bv32, r8: bv32)
    requires |s| == 8
    requires Brings(r0, s[0], r1) && Brings(r1, s[1], r2) && Brings(r2, s[2], r3) && Brings(r3, s[3], r4)
    requires Brings(r4, s[4], r5) && Brings(r5, s[5], r6) && Brings(r6, s[6], r7) && Brings(r7, s[7], r8)
    ensures Divide(r0, s) == r8
  {
    hide Brings, Divide;
    BringsDown(r0, s[0], r1, s, 0); BringsDown(r1, s[1], r2, s, 1); BringsDown(r2, s[2], r3, s, 2);
    BringsDown(r3, s[3], r4, s, 3); BringsDown(r4, s[4], r5, s, 4); BringsDown(r5, s[5], r6, s, 5);
    BringsDown(r6, s[6], r7, s, 6); BringsDown(r7, s[7], r8, s, 7);
    assert s[0..] == s && s[8..] == [];
    DivideNothing(r8);
  }

  /** The bits of a byte spell its value. */
  lemma BitsValue(x: bv8)
    ensures Divide(0, ByteBits(x)) == x as bv32
  {
    hide Brings, Divide, Test;
    FirstDigits(x);
    LastDigits(x);
    EightBits(ByteBits(x), 0, (x >> 7) as bv32, (x >> 6) as bv32, (x >> 5) as bv32, (x >> 4) as bv32, (x >> 3) as bv32, (x >> 2) as bv32, (x >> 1) as bv32, x as bv32);
  }

  lemma DivideNothing(r: bv32)
    ensures Divide(r, []) == r
  {
  }

  // ---------------------------------------------------------------- the table form divides

  /** One table step on a carried remainder brings down one byte. */
  lemma UpdateCarries(s: bv32, x: bv8)
    ensures Update(TimesN(s, 32), x) == TimesN(Divide(s, ByteBits(x)), 32)
  {
    hide Times, TimesN, Update, ByteBits, Add, Divide, AtTop;
    var t, v := TimesN(s, 32), x as bv32;
    UpdateIsTimes8(t, x);
    TimesNAdd(t, AtTop(x), 8);
    ByteToTop(x);
    TimesNTwice(s, 32, 8);
    TimesNTwice(s, 8, 32);
    TimesNTwice(v, 24, 8);
    DivideSplits(s, ByteBits(x));
    BitsValue(x);
    TimesNAdd(TimesN(s, 8), v, 32);
  }

  /** The running checksum is the division done so far, carried over 32 further zeros. */
  lemma {:induction false} ChecksumFollows(s: bv32, b: seq<byte>)
    ensures Checksum(TimesN(s, 32), b) == TimesN(Divide(s, Bits(b)), 32)
    decreases |b|
  {
    hide Times, TimesN, Update, ByteBits, Add;
    if b != [] {
      hide Divide;
      var x := b[0] as bv8;
      UpdateCarries(s, x);
      DivideAppends(s, ByteBits(x), Bits(b[1..]));
      ChecksumFollows(Divide(s, ByteBits(x)), b[1..]);
    } else {
      assert Bits(b) == [];
    }
  }

  /** The table-driven checksum of every message is the remainder of long division. */
  lemma ChecksumIsRemainder(message: seq<byte>)
    ensures Checksum(0, message) == Remainder(message)
  {
    hide TimesN, Divide, Checksum, Bits, Zeros;
    TimesNZero(32);
    ChecksumFollows(0, message);
    DivideAppends(0, Bits(message), Zeros(32));
    DivideZeros(Divide(0, Bits(message)), 32);
  }

  /** The polynomial, the terms below x^32: x^8 times the byte 1 at the top of a remainder. */
  lemma EntryOfOne()
    ensures Entry(1) == 0x04c1_1db7
  {
    assert TimesN(0x0100_0000, 8) == TimesN(0x0200_0000, 7) == TimesN(0x0400_0000, 6) == TimesN(0x0800_0000, 5)
        == TimesN(0x1000_0000, 4) == TimesN(0x2000_0000, 3) == TimesN(0x4000_0000, 2) == TimesN(0x8000_0000, 1);
    assert Times(0x8000_0000) == 0x04c1_1db7;
    assert TimesN(Times(0x8000_0000), 0) == Times(0x8000_0000);
  }

  /** A checksum can be built in pieces. */
  lemma {:induction false} ChecksumChains(crc: bv32, a: seq<byte>, b: seq<byte>)
    ensures Checksum(crc, a + b) == Checksum(Checksum(crc, a), b)
    decreases |a|
  {
    hide Update;
    if a == [] {
      assert a + b == b;
    } else {
      assert (a + b)[1..] == a[1..] + b;
      ChecksumChains(Update(crc, a[0] as bv8), a[1..], b);
    }
  }

  // ---------------------------------------------------------------- the loops

  lemma ByteRoundTrip(v: bv8)
    ensures ((v as int) as bv8) == v
    ensures ((v as int) as bv32) == v as bv32
  {
    IntToWord(v as int);
  }

  lemma IntToWord(i: int)
    requires 0 <= i < 256
    ensures (i as bv32) == (i as bv8) as bv32
  {
  }

  method MakeCrcTable() returns (t: array<bv32>)
    ensures fresh(t) && t.Length == 256
    ensures forall v: bv8 :: t[v as int] == Entry(v)
    ensures t[1] == 0x04c1_1db7
  {
    EntryOfOne();
    hide Times, TimesN;
    t := new bv32[256];
    for i := 0 to 256
      invariant forall j: int | 0 <= j < i :: t[j] == TimesN(j as bv32 << 24, 8)
    {
      var r := i as bv32 << 24;
      assert TimesN(r, 8) == TimesN(i as bv32 << 24, 8);
      for k := 0 to 8
        invariant TimesN(r, 8 - k) == TimesN(i as bv32 << 24, 8)
        invariant forall j: int | 0 <= j < i :: t[j] == TimesN(j as bv32 << 24, 8)
      {
        TimesNSteps(r, 8 - k);
        r := TimesOnce(r);
      }
      TimesNSteps(r, 0);
      t[i] := r;
    }
    forall v: bv8 ensures t[v as int] == Entry(v) {
      ByteRoundTrip(v);
      assert t[v as int] == TimesN((v as int) as bv32 << 24, 8);
    }
  }

  lemma TimesNSteps(r: bv32, n: nat)
    ensures n == 0 ==> TimesN(r, n) == r
    ensures n > 0 ==> TimesN(r, n) == TimesN(Times(r), n - 1)
  {
  }

  method TimesOnce(r: bv32) returns (v: bv32)
    ensures v == Times(r)
  {
    AddIsXor(r << 1, POLY);
    if r & 0x8000_0000 != 0 {
      v := (r << 1) ^ POLY;
    } else {
      v := r << 1;
    }
  }

  method Crc32(table: array<bv32>, crc0: bv32, b: seq<byte>) returns (crc: bv32)
    requires table.Length == 256 && forall v: bv8 :: table[v as int] == Entry(v)
    ensures crc == Checksum(crc0, b)
  {
    hide Entry, Update, Checksum;
    crc := crc0;
    assert b[0..] == b;
    for i := 0 to |b|
      invariant Checksum(crc, b[i..]) == Checksum(crc0, b)
    {
      ChecksumStep(crc, b, i);
      var index := ((crc >> 24) as bv8) ^ (b[i] as bv8);
      var entry := table[index as int];
      UpdateForm(crc, b[i] as bv8, index, entry);
      crc := (crc << 8) ^ entry;
    }
    ChecksumNothing(crc, b);
  }

  lemma UpdateForm(crc: bv32, x: bv8, index: bv8, entry: bv32)
    requires index == TopByte(crc) ^ x && entry == Entry(index)
    ensures (crc << 8) ^ entry == Update(crc, x)
  {
    hide Entry, TopByte, Add;
    AddIsXor(crc << 8, entry);
  }

  lemma AddIsXor(a: bv32, b: bv32)
    ensures Add(a, b) == a ^ b
  {
  }

  lemma ChecksumNothing(crc: bv32, b: seq<byte>)
    ensures Checksum(crc, b[|b|..]) == crc
  {
  }

  lemma ChecksumStep(crc: bv32, b: seq<byte>, i: nat)
    requires i < |b|
    ensures Checksum(crc, b[i..]) == Checksum(Update(crc, b[i] as bv8), b[i + 1..])
  {
    hide Update;
    assert b[i..][1..] == b[i + 1..];
  }
}
