/**
 * Little-endian fields and the three fixed records of a ZIP archive (PKWARE APPNOTE, sections
 * 4.3.7, 4.3.12 and 4.3.16), as admin-web/src/zip.js:17-33 writes them into zeroed buffers.
 */
module ZipFields {
  import opened Crc

  type Bytes = seq<byte>

  const LOCAL: nat := 0x0403_4b50
  const CENTRAL: nat := 0x0201_4b50
  const END: nat := 0x0605_4b50
  const SHORTS: nat := 0x1_0000

  // ----- little-endian fields

  function Byte(v: nat): byte {
    (v % 256) as byte
  }

  /** Two bytes at `at`; every use below is within the buffer. */
  function Put2(s: Bytes, at: nat, v: nat): (r: Bytes)
    ensures |r| == |s|
  {
    if at + 2 <= |s| then s[at := Byte(v)][at + 1 := Byte(v / 256)] else s
  }

  function Put4(s: Bytes, at: nat, v: nat): (r: Bytes)
    ensures |r| == |s|
  {
    Put2(Put2(s, at, v), at + 2, v / 0x1_0000)
  }

  /** A number from its digits to base 256, the least significant first. */
  function Value(digits: Bytes): nat {
    if digits == [] then 0 else digits[0] as nat + 256 * Value(digits[1..])
  }

  function Get2(s: Bytes, at: nat): nat
    requires at + 2 <= |s|
  {
    Value([s[at], s[at + 1]])
  }

  function Get4(s: Bytes, at: nat): nat
    requires at + 4 <= |s|
  {
    Value([s[at], s[at + 1], s[at + 2], s[at + 3]])
  }

  /** The letters PK and two more bytes. */
  predicate Signed(s: Bytes, at: nat, x: byte, y: byte) {
    at + 4 <= |s| && s[at] == 0x50 && s[at + 1] == 0x4b && s[at + 2] == x && s[at + 3] == y
  }

  lemma WroteSignature(s: Bytes, v: nat, x: byte, y: byte)
    requires 4 <= |s| && Byte(v) == 0x50 && Byte(v / 256) == 0x4b
    requires Byte(v / 0x1_0000) == x && Byte(v / 0x1_0000 / 256) == y
    ensures Signed(Put4(s, 0, v), 0, x, y)
  {
  }

  lemma ValueOfTwo(x: byte, y: byte)
    ensures Value([x, y]) == x as nat + 256 * y as nat
  {
    assert [x, y][1..] == [y] && [y][1..] == [];
    assert Value([y]) == y as nat;
  }

  lemma ValueOfFour(x: byte, y: byte, z: byte, w: byte)
    ensures Value([x, y, z, w]) == x as nat + 256 * y as nat + 0x1_0000 * Value([z, w])
  {
    assert [x, y, z, w][1..] == [y, z, w] && [y, z, w][1..] == [z, w];
  }

  lemma TwoBytes(v: nat)
    requires v < SHORTS
    ensures v == v % 256 + 256 * ((v / 256) % 256)
    ensures Value([Byte(v), Byte(v / 256)]) == v
  {
    ValueOfTwo(Byte(v), Byte(v / 256));
  }

  lemma LowBytes(v: nat)
    ensures Byte(v % 0x1_0000) == Byte(v) && Byte(v % 0x1_0000 / 256) == Byte(v / 256)
  {
  }

  lemma Wrote2(s: Bytes, at: nat, v: nat)
    requires at + 2 <= |s| && v < SHORTS
    ensures Get2(Put2(s, at, v), at) == v
  {
    TwoBytes(v);
  }

  lemma Wrote4(s: Bytes, at: nat, v: nat)
    requires at + 4 <= |s| && v < WORDS
    ensures Get4(Put4(s, at, v), at) == v
  {
    var low, high := v % 0x1_0000, v / 0x1_0000;
    TwoBytes(low);
    TwoBytes(high);
    LowBytes(v);
    ValueOfTwo(Byte(v), Byte(v / 256));
    ValueOfFour(Byte(v), Byte(v / 256), Byte(high), Byte(high / 256));
  }

  // ----- records

  function Zeros(n: nat): (s: Bytes)
    ensures |s| == n && forall i | 0 <= i < n :: s[i] == 0
  {
    seq(n, _ => 0)
  }

  /** The writes made into a zeroed buffer, the last one outermost. */
  datatype Layout = Blank | Short(into: Layout, at: nat, value: nat) | Long(into: Layout, at: nat, value: nat)

  function Contents(l: Layout, size: nat): (r: Bytes)
    ensures |r| == size
  {
    match l
    case Blank => Zeros(size)
    case Short(into, at, value) => Put2(Contents(into, size), at, value)
    case Long(into, at, value) => Put4(Contents(into, size), at, value)
  }

  function LocalHeader(crc: nat, size: nat, nameSize: nat): (h: Bytes)
    ensures |h| == 30
  {
    Contents(Short(Long(Long(Long(Short(Long(Blank, 0, LOCAL), 4, 20), 14, crc), 18, size), 22, size), 26, nameSize),
             30)
  }

  function CentralHeader(crc: nat, size: nat, nameSize: nat, offset: nat): (h: Bytes)
    ensures |h| == 46
  {
    var front := Long(Long(Short(Short(Long(Blank, 0, CENTRAL), 4, 20), 6, 20), 16, crc), 20, size);
    Contents(Long(Short(Long(front, 24, size), 28, nameSize), 42, offset), 46)
  }

  function EndRecord(count: nat, size: nat, offset: nat): (h: Bytes)
    ensures |h| == 22
  {
    Contents(Long(Long(Short(Short(Long(Blank, 0, END), 8, count), 10, count), 12, size), 16, offset), 22)
  }

  /** The local header at `p` of a stored, unencrypted member. */
  predicate LocalHas(b: Bytes, p: nat, crc: nat, size: nat) {
    && p + 30 <= |b| && Signed(b, p, 3, 4) && Get2(b, p + 6) == 0 && Get2(b, p + 8) == 0
    && Get4(b, p + 14) == crc && Get4(b, p + 18) == size && Get4(b, p + 22) == size
  }

  predicate LocalAt(b: Bytes, p: nat, crc: nat, size: nat, nameSize: nat) {
    LocalHas(b, p, crc, size) && Get2(b, p + 26) == nameSize && Get2(b, p + 28) == 0
  }

  predicate CentralAt(b: Bytes, p: nat, crc: nat, size: nat, nameSize: nat, offset: nat) {
    && p + 46 <= |b| && Signed(b, p, 1, 2) && Get2(b, p + 8) == 0 && Get2(b, p + 10) == 0
    && Get4(b, p + 16) == crc && Get4(b, p + 20) == size && Get4(b, p + 24) == size
    && Get2(b, p + 28) == nameSize && Get2(b, p + 30) == 0 && Get2(b, p + 32) == 0 && Get4(b, p + 42) == offset
  }

  predicate EndAt(b: Bytes, p: nat, count: nat, size: nat, offset: nat) {
    && p + 22 <= |b| && Signed(b, p, 5, 6) && Get2(b, p + 4) == 0 && Get2(b, p + 6) == 0
    && Get2(b, p + 8) == count && Get2(b, p + 10) == count
    && Get4(b, p + 12) == size && Get4(b, p + 16) == offset && Get2(b, p + 20) == 0
  }

  lemma LocalFields(crc: nat, size: nat, nameSize: nat)
    requires crc < WORDS && size < WORDS && nameSize < SHORTS
    ensures LocalAt(LocalHeader(crc, size, nameSize), 0, crc, size, nameSize)
  {
    var w1 := Long(Blank, 0, LOCAL);
    var w2 := Short(w1, 4, 20);
    var w3 := Long(w2, 14, crc);
    var w4 := Long(w3, 18, size);
    var w5 := Long(w4, 22, size);
    ValueOfTwo(0, 0);
    WroteSignature(Contents(Blank, 30), LOCAL, 3, 4);
    Wrote4(Contents(w2, 30), 14, crc);
    Wrote4(Contents(w3, 30), 18, size);
    Wrote4(Contents(w4, 30), 22, size);
    Wrote2(Contents(w5, 30), 26, nameSize);
  }

  /** The central header up to the compressed size, and what is still blank. */
  lemma CentralFront(crc: nat, size: nat, front: Layout)
    requires crc < WORDS && size < WORDS
    requires front == Long(Long(Short(Short(Long(Blank, 0, CENTRAL), 4, 20), 6, 20), 16, crc), 20, size)
    ensures var h := Contents(front, 46);
            && Signed(h, 0, 1, 2) && Get2(h, 8) == 0 && Get2(h, 10) == 0 && Get4(h, 16) == crc && Get4(h, 20) == size
            && forall k | 24 <= k < 46 :: h[k] == 0
  {
    var w1 := Long(Blank, 0, CENTRAL);
    var w2 := Short(Short(w1, 4, 20), 6, 20);
    var w3 := Long(w2, 16, crc);
    ValueOfTwo(0, 0);
    WroteSignature(Contents(Blank, 46), CENTRAL, 1, 2);
    Wrote4(Contents(w2, 46), 16, crc);
    Wrote4(Contents(w3, 46), 20, size);
  }

  lemma CentralBack(front: Layout, size: nat, nameSize: nat, offset: nat)
    requires size < WORDS && nameSize < SHORTS && offset < WORDS
    requires forall k | 24 <= k < 46 :: Contents(front, 46)[k] == 0
    ensures var h := Contents(Long(Short(Long(front, 24, size), 28, nameSize), 42, offset), 46);
            && (forall k | 0 <= k < 24 :: h[k] == Contents(front, 46)[k])
            && Get4(h, 24) == size && Get2(h, 28) == nameSize && Get2(h, 30) == 0 && Get2(h, 32) == 0
            && Get4(h, 42) == offset
  {
    ValueOfTwo(0, 0);
    var w1 := Long(front, 24, size);
    var w2 := Short(w1, 28, nameSize);
    Wrote4(Contents(front, 46), 24, size);
    Wrote2(Contents(w1, 46), 28, nameSize);
    Wrote4(Contents(w2, 46), 42, offset);
  }

  lemma CentralFields(crc: nat, size: nat, nameSize: nat, offset: nat)
    requires crc < WORDS && size < WORDS && nameSize < SHORTS && offset < WORDS
    ensures CentralAt(CentralHeader(crc, size, nameSize, offset), 0, crc, size, nameSize, offset)
  {
    var front := Long(Long(Short(Short(Long(Blank, 0, CENTRAL), 4, 20), 6, 20), 16, crc), 20, size);
    CentralFront(crc, size, front);
    CentralBack(front, size, nameSize, offset);
  }

  lemma EndFields(count: nat, size: nat, offset: nat)
    requires count < SHORTS && size < WORDS && offset < WORDS
    ensures EndAt(EndRecord(count, size, offset), 0, count, size, offset)
  {
    var w1 := Long(Blank, 0, END);
    var w2 := Short(w1, 8, count);
    var w3 := Short(w2, 10, count);
    var w4 := Long(w3, 12, size);
    ValueOfTwo(0, 0);
    WroteSignature(Contents(Blank, 22), END, 5, 6);
    Wrote2(Contents(w1, 22), 8, count);
    Wrote2(Contents(w2, 22), 10, count);
    Wrote4(Contents(w3, 22), 12, size);
    Wrote4(Contents(w4, 22), 16, offset);
  }
}
