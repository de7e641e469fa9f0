/**
 * The table-driven CRC of the ZIP writer (admin-web/src/zip.js:1-10) against the bit-serial
 * register that it speeds up (RFC 1952, section 8). Words are natural numbers below 2^32, so that
 * `>>> 1` halves, `& 255` is a remainder and `^` adds binary digits without carry.
 */
module Crc {
  newtype byte = b: int | 0 <= b < 256

  const WORDS: nat := 0x1_0000_0000
  const POLYNOMIAL: nat := 0xEDB8_8320
  const ONES: nat := 0xFFFF_FFFF

  function Xor(a: nat, b: nat): nat
    decreases a + b
  {
    if a == 0 && b == 0 then 0 else 2 * Xor(a / 2, b / 2) + (a + b) % 2
  }

  /** Divides the register by x, reducing by the reflected polynomial when a bit falls out. */
  function Shift(c: nat): nat {
    if c % 2 == 1 then Xor(POLYNOMIAL, c / 2) else c / 2
  }

  function Shifts(c: nat, n: nat): nat
    decreases n, c
  {
    if n == 0 then c else Shifts(Shift(c), n - 1)
  }

  /** One message bit meets the bit that falls out of the register. */
  function FeedBit(c: nat, bit: nat): nat {
    Shift(Xor(c, bit % 2))
  }

  /** The low `n` bits, least significant first. */
  function FeedBits(c: nat, bits: nat, n: nat): nat
    decreases n, bits
  {
    if n == 0 then c else FeedBits(FeedBit(c, bits), bits / 2, n - 1)
  }

  function Register(data: seq<byte>): nat {
    if data == [] then ONES
    else FeedBits(Register(data[..|data| - 1]), data[|data| - 1] as nat, 8)
  }

  /** The CRC-32 of a message, fed bit by bit. */
  function Checksum(data: seq<byte>): nat {
    Xor(Register(data), ONES)
  }

  // ----- exclusive or

  lemma Digits(high: nat, low: nat)
    requires low < 2
    ensures (2 * high + low) % 2 == low && (2 * high + low) / 2 == high
  {
  }

  lemma XorDigits(a: nat, b: nat)
    ensures Xor(a, b) % 2 == (a + b) % 2 && Xor(a, b) / 2 == Xor(a / 2, b / 2)
  {
    if a > 0 || b > 0 {
      Digits(Xor(a / 2, b / 2), (a + b) % 2);
    }
  }

  lemma {:induction false} XorZero(a: nat)
    ensures Xor(a, 0) == Xor(0, a) == a && Xor(a, a) == 0
    decreases a
  {
    if a > 0 {
      XorZero(a / 2);
    }
  }

  lemma {:induction false} XorCommutes(a: nat, b: nat)
    ensures Xor(a, b) == Xor(b, a)
    decreases a + b
  {
    if a > 0 || b > 0 {
      XorCommutes(a / 2, b / 2);
    }
  }

  lemma SameParity(a: nat, b: nat, c: nat, ab: nat, bc: nat)
    requires ab % 2 == (a + b) % 2 && bc % 2 == (b + c) % 2
    ensures (ab + c) % 2 == (a + bc) % 2
  {
  }

  lemma {:induction false} XorAssociates(a: nat, b: nat, c: nat)
    ensures Xor(Xor(a, b), c) == Xor(a, Xor(b, c))
    decreases a + b + c
  {
    if a > 0 || b > 0 || c > 0 {
      XorAssociates(a / 2, b / 2, c / 2);
      XorDigits(a, b);
      XorDigits(b, c);
      var ab, bc := Xor(a, b), Xor(b, c);
      SameParity(a, b, c, ab, bc);
      assert Xor(ab, c) == 2 * Xor(ab / 2, c / 2) + (ab + c) % 2;
      assert Xor(a, bc) == 2 * Xor(a / 2, bc / 2) + (a + bc) % 2;
    }
  }

  lemma XorSwap(a: nat, b: nat, c: nat, d: nat)
    ensures Xor(Xor(a, b), Xor(c, d)) == Xor(Xor(a, c), Xor(b, d))
  {
    XorAssociates(a, b, Xor(c, d));
    XorAssociates(b, c, d);
    XorCommutes(b, c);
    XorAssociates(c, b, d);
    XorAssociates(a, c, Xor(b, d));
  }

  lemma {:induction false} XorStaysBelow(a: nat, b: nat, digits: nat)
    requires a < Power(digits) && b < Power(digits)
    ensures Xor(a, b) < Power(digits)
    decreases digits
  {
    if digits > 0 {
      XorStaysBelow(a / 2, b / 2, digits - 1);
    }
  }

  function Power(n: nat): nat {
    if n == 0 then 1 else 2 * Power(n - 1)
  }

  lemma WordsHave32Digits()
    ensures WORDS == Power(32)
  {
    assert Power(8) == 256;
    assert Power(16) == 0x1_0000;
    assert Power(24) == 0x100_0000;
  }

  // ----- the register is linear, so a byte can be added at once and looked up

  function Pick(p: nat, c: nat): nat {
    if c % 2 == 1 then p else 0
  }

  function Feedback(c: nat): nat {
    Pick(POLYNOMIAL, c)
  }

  lemma PickIsLinear(p: nat, a: nat, b: nat, sum: nat)
    requires sum % 2 == (a + b) % 2
    ensures Pick(p, sum) == Xor(Pick(p, a), Pick(p, b))
  {
    XorZero(p);
    XorZero(0);
    assert a % 2 == 1 && b % 2 == 1 ==> sum % 2 == 0;
    assert a % 2 == 1 && b % 2 == 0 ==> sum % 2 == 1;
    assert a % 2 == 0 && b % 2 == 1 ==> sum % 2 == 1;
    assert a % 2 == 0 && b % 2 == 0 ==> sum % 2 == 0;
  }

  lemma ShiftAddsFeedback(c: nat)
    ensures Shift(c) == Xor(Feedback(c), c / 2)
  {
    XorZero(c / 2);
  }

  lemma FeedbackIsLinear(a: nat, b: nat)
    ensures Feedback(Xor(a, b)) == Xor(Feedback(a), Feedback(b))
  {
    XorDigits(a, b);
    PickIsLinear(POLYNOMIAL, a, b, Xor(a, b));
  }

  lemma ShiftIsLinear(a: nat, b: nat)
    ensures Shift(Xor(a, b)) == Xor(Shift(a), Shift(b))
  {
    ShiftAddsFeedback(a);
    ShiftAddsFeedback(b);
    ShiftAddsFeedback(Xor(a, b));
    FeedbackIsLinear(a, b);
    XorDigits(a, b);
    XorSwap(Feedback(a), a / 2, Feedback(b), b / 2);
  }

  lemma {:induction false} ShiftsAreLinear(a: nat, b: nat, n: nat)
    ensures Shifts(Xor(a, b), n) == Xor(Shifts(a, n), Shifts(b, n))
    decreases n
  {
    if n > 0 {
      ShiftIsLinear(a, b);
      ShiftsAreLinear(Shift(a), Shift(b), n - 1);
    }
  }

  function Drop(bits: nat, n: nat): nat
    decreases n
  {
    if n == 0 then bits else Drop(bits / 2, n - 1)
  }

  lemma LowBitApart(bits: nat)
    ensures Xor(bits % 2, 2 * (bits / 2)) == bits
  {
    XorZero(bits / 2);
    Digits(bits / 2, 0);
    assert bits > 0 ==> Xor(bits % 2, 2 * (bits / 2)) == 2 * Xor((bits % 2) / 2, bits / 2) + bits % 2;
  }

  lemma ShiftOfEven(half: nat)
    ensures Shift(2 * half) == half
  {
    Digits(half, 0);
  }

  lemma ShiftApart(c: nat, bits: nat, low: nat, half: nat)
    requires Xor(low, 2 * half) == bits
    ensures Shift(Xor(c, bits)) == Xor(Shift(Xor(c, low)), half)
  {
    XorAssociates(c, low, 2 * half);
    ShiftIsLinear(Xor(c, low), 2 * half);
    ShiftOfEven(half);
  }

  lemma NextBit(c: nat, bits: nat)
    ensures Shift(Xor(c, bits)) == Xor(FeedBit(c, bits), bits / 2)
  {
    LowBitApart(bits);
    ShiftApart(c, bits, bits % 2, bits / 2);
  }

  /** Feeding bits one by one equals adding them all at once, but for those not yet reached. */
  lemma {:induction false} FeedingIsShifting(c: nat, bits: nat, n: nat)
    ensures Shifts(Xor(c, bits), n) == Xor(FeedBits(c, bits, n), Drop(bits, n))
    decreases n
  {
    if n > 0 {
      NextBit(c, bits);
      FeedingIsShifting(FeedBit(c, bits), bits / 2, n - 1);
    }
  }

  lemma {:induction false} DropDivides(bits: nat, n: nat)
    requires bits < Power(n)
    ensures Drop(bits, n) == 0
    decreases n
  {
    if n > 0 {
      DropDivides(bits / 2, n - 1);
    }
  }

  /** The `n` low binary digits of `low`, and `high` above them. */
  function Append(low: nat, high: nat, n: nat): nat
    decreases n, low
  {
    if n == 0 then high else low % 2 + 2 * Append(low / 2, high, n - 1)
  }

  lemma AppendDigits(low: nat, high: nat, n: nat)
    requires n > 0
    ensures Append(low, high, n) % 2 == low % 2 && Append(low, high, n) / 2 == Append(low / 2, high, n - 1)
  {
    Digits(Append(low / 2, high, n - 1), low % 2);
  }

  lemma {:induction false} AppendIsSum(low: nat, high: nat, n: nat)
    requires low < Power(n)
    ensures Append(low, high, n) == low + high * Power(n)
    decreases n
  {
    if n > 0 {
      AppendIsSum(low / 2, high, n - 1);
      assert high * Power(n) == 2 * (high * Power(n - 1));
    }
  }

  lemma {:induction false} MovedWhole(high: nat, n: nat)
    ensures Shifts(Append(0, high, n), n) == high
    decreases n
  {
    if n > 0 {
      ShiftOfEven(Append(0, high, n - 1));
      MovedWhole(high, n - 1);
    }
  }

  lemma {:induction false} LowDigitsApart(low: nat, high: nat, n: nat)
    requires low < Power(n)
    ensures Xor(low, Append(0, high, n)) == Append(low, high, n)
    decreases n
  {
    if n == 0 {
      XorZero(high);
    } else {
      var rest := Append(0, high, n - 1);
      Digits(rest, 0);
      LowDigitsApart(low / 2, high, n - 1);
      assert Append(0, high, n) == 2 * rest;
      XorEven(low, rest);
    }
  }

  lemma EvenKeepsParity(low: nat, half: nat)
    ensures (low + 2 * half) % 2 == low % 2
  {
  }

  lemma XorEven(low: nat, half: nat)
    ensures Xor(low, 2 * half) == 2 * Xor(low / 2, half) + low % 2
  {
    var even := 2 * half;
    Digits(half, 0);
    EvenKeepsParity(low, half);
    XorUnfolded(low, even);
    assert even / 2 == half;
  }

  lemma XorUnfolded(a: nat, b: nat)
    ensures Xor(a, b) == 2 * Xor(a / 2, b / 2) + (a + b) % 2
  {
    if a == 0 && b == 0 {
      XorZero(0);
    }
  }

  lemma {:induction false} DropIsLinear(a: nat, b: nat, n: nat)
    ensures Drop(Xor(a, b), n) == Xor(Drop(a, n), Drop(b, n))
    decreases n
  {
    if n > 0 {
      XorDigits(a, b);
      DropIsLinear(a / 2, b / 2, n - 1);
    }
  }

  lemma DropByte(c: nat)
    ensures Drop(c, 8) == c / 256
  {
    assert Drop(c, 8) == Drop(c / 16, 4);
  }

  lemma HighByte(c: nat, bits: nat)
    requires bits < 256
    ensures Xor(c, bits) / 256 == c / 256
  {
    DropIsLinear(c, bits, 8);
    DropByte(c);
    DropByte(bits);
    DropByte(Xor(c, bits));
    XorZero(c / 256);
  }

  lemma SplitByte(x: nat)
    ensures Xor(x % 256, Append(0, x / 256, 8)) == x
  {
    assert Power(8) == 256;
    AppendIsSum(x % 256, x / 256, 8);
    LowDigitsApart(x % 256, x / 256, 8);
  }

  lemma AddedAtOnce(c: nat, bits: nat, x: nat)
    requires bits < 256 && x == Xor(c, bits)
    ensures FeedBits(c, bits, 8) == Shifts(x, 8)
  {
    assert Power(8) == 256;
    FeedingIsShifting(c, bits, 8);
    DropDivides(bits, 8);
    XorZero(FeedBits(c, bits, 8));
  }

  lemma ShiftedApart(x: nat, low: nat, high: nat)
    requires Xor(low, Append(0, high, 8)) == x
    ensures Shifts(x, 8) == Xor(Shifts(low, 8), high)
  {
    ShiftsAreLinear(low, Append(0, high, 8), 8);
    MovedWhole(high, 8);
  }

  /** One lookup does the work of eight shifts. */
  lemma LookupIsEightBits(c: nat, bits: nat)
    requires bits < 256
    ensures FeedBits(c, bits, 8) == Xor(Shifts(Xor(c, bits) % 256, 8), c / 256)
  {
    var x := Xor(c, bits);
    AddedAtOnce(c, bits, x);
    SplitByte(x);
    ShiftedApart(x, x % 256, x / 256);
    HighByte(c, bits);
  }

  // ----- the program

  method TableEntry(n: nat) returns (c: nat)
    ensures c == Shifts(n, 8)
  {
    c := n;
    var k := 8;
    while k > 0
      invariant Shifts(c, k) == Shifts(n, 8)
    {
      assert Shifts(c, k) == Shifts(Shift(c), k - 1);
      c := if c % 2 == 1 then Xor(0xEDB8_8320, c / 2) else c / 2;
      k := k - 1;
    }
  }

  ghost predicate IsTable(table: seq<nat>) {
    |table| == 256 && forall n | 0 <= n < 256 :: table[n] == Shifts(n, 8)
  }

  method BuildTable() returns (table: seq<nat>)
    ensures IsTable(table)
  {
    table := [];
    for n := 0 to 256
      invariant |table| == n
      invariant forall i | 0 <= i < n :: table[i] == Shifts(i, 8)
    {
      var c := TableEntry(n);
      table := table + [c];
    }
  }

  /** The lookups compute the bit-serial checksum of every message. */
  method Crc32(table: seq<nat>, data: seq<byte>) returns (crc: nat)
    requires IsTable(table)
    ensures crc == Checksum(data)
  {
    var c := ONES;
    for i := 0 to |data|
      invariant c == Register(data[..i])
    {
      var b := data[i] as nat;
      LookupIsEightBits(c, b);
      assert data[..i + 1][..i] == data[..i];
      c := Xor(table[Xor(c, b) % 256], c / 256);
    }
    assert data[..|data|] == data;
    crc := Xor(c, ONES);
  }

  // ----- what the checksum is for

  lemma {:induction false} DropOfTop(c: nat, n: nat)
    requires Power(n) <= c < 2 * Power(n)
    ensures Drop(c, n) == 1
    decreases n
  {
    if n > 0 {
      DropOfTop(c / 2, n - 1);
    }
  }

  lemma XorCancels(a: nat, b: nat, x: nat)
    requires Xor(a, x) == Xor(b, x)
    ensures a == b
  {
    XorAssociates(a, x, x);
    XorAssociates(b, x, x);
    XorZero(x);
    XorZero(a);
    XorZero(b);
  }

  lemma ShiftStaysAWord(c: nat)
    requires c < WORDS
    ensures Shift(c) < WORDS
  {
    WordsHave32Digits();
    XorStaysBelow(POLYNOMIAL, c / 2, 32);
  }

  lemma FeedbackIsVisible(a: nat, b: nat)
    requires a < 0x8000_0000 && b < 0x8000_0000
    ensures Xor(POLYNOMIAL, a) != b
  {
    WordsHave32Digits();
    assert Power(32) == 2 * Power(31);
    DropIsLinear(POLYNOMIAL, a, 31);
    DropOfTop(POLYNOMIAL, 31);
    DropDivides(a, 31);
    DropDivides(b, 31);
    XorZero(1);
  }

  lemma ShiftIsInjective(a: nat, b: nat)
    requires a < WORDS && b < WORDS && Shift(a) == Shift(b)
    ensures a == b
  {
    if a % 2 == b % 2 {
      if a % 2 == 1 {
        XorCommutes(POLYNOMIAL, a / 2);
        XorCommutes(POLYNOMIAL, b / 2);
        XorCancels(a / 2, b / 2, POLYNOMIAL);
      }
    } else {
      FeedbackIsVisible(a / 2, b / 2);
      FeedbackIsVisible(b / 2, a / 2);
    }
  }

  lemma {:induction false} ShiftsAreInjective(a: nat, b: nat, n: nat)
    requires a < WORDS && b < WORDS && Shifts(a, n) == Shifts(b, n)
    ensures a == b
    decreases n
  {
    if n > 0 {
      ShiftStaysAWord(a);
      ShiftStaysAWord(b);
      ShiftsAreInjective(Shift(a), Shift(b), n - 1);
      ShiftIsInjective(a, b);
    }
  }

  lemma FeedBitStaysAWord(c: nat, bit: nat)
    requires c < WORDS
    ensures Xor(c, bit % 2) < WORDS && FeedBit(c, bit) < WORDS
  {
    WordsHave32Digits();
    XorStaysBelow(c, bit % 2, 32);
    ShiftStaysAWord(Xor(c, bit % 2));
  }

  lemma {:induction false} FeedingKeepsApart(a: nat, b: nat, bits: nat, n: nat)
    requires a < WORDS && b < WORDS
    ensures FeedBits(a, bits, n) < WORDS
    ensures FeedBits(a, bits, n) == FeedBits(b, bits, n) ==> a == b
    decreases n
  {
    if n > 0 {
      FeedBitStaysAWord(a, bits);
      FeedBitStaysAWord(b, bits);
      FeedingKeepsApart(FeedBit(a, bits), FeedBit(b, bits), bits / 2, n - 1);
      if FeedBit(a, bits) == FeedBit(b, bits) {
        ShiftIsInjective(Xor(a, bits % 2), Xor(b, bits % 2));
        XorCancels(a, b, bits % 2);
      }
    }
  }

  /** The register after more bytes, each `width` bits wide. */
  function RegisterFrom(c: nat, data: seq<byte>, width: nat): nat
    decreases |data|
  {
    if data == [] then c else RegisterFrom(FeedBits(c, data[0] as nat, width), data[1..], width)
  }

  lemma {:induction false} RegisterOfConcatenation(a: seq<byte>, b: seq<byte>)
    ensures Register(a + b) == RegisterFrom(Register(a), b, 8)
    decreases |b|
  {
    if b == [] {
      assert a + b == a;
    } else {
      assert (a + [b[0]])[..|a|] == a;
      assert a + b == (a + [b[0]]) + b[1..];
      RegisterOfConcatenation(a + [b[0]], b[1..]);
    }
  }

  lemma {:induction false} RegisterKeepsApart(a: nat, b: nat, data: seq<byte>, width: nat)
    requires a < WORDS && b < WORDS
    ensures RegisterFrom(a, data, width) < WORDS
    ensures RegisterFrom(a, data, width) == RegisterFrom(b, data, width) ==> a == b
    decreases |data|
  {
    if data != [] {
      var bits := data[0] as nat;
      FeedingKeepsApart(a, b, bits, width);
      FeedingKeepsApart(b, a, bits, width);
      RegisterKeepsApart(FeedBits(a, bits, width), FeedBits(b, bits, width), data[1..], width);
    }
  }

  /** All bytes as one little-endian number. */
  function Word(data: seq<byte>, width: nat): nat {
    if data == [] then 0 else Append(data[0] as nat, Word(data[1..], width), width)
  }

  function Bits(data: seq<byte>, width: nat): nat {
    if data == [] then 0 else width + Bits(data[1..], width)
  }

  lemma {:induction false} FeedInTwoParts(c: nat, low: nat, high: nat, m: nat, n: nat)
    ensures FeedBits(c, Append(low, high, m), m + n) == FeedBits(FeedBits(c, low, m), high, n)
    decreases m
  {
    if m > 0 {
      AppendDigits(low, high, m);
      FeedInTwoParts(FeedBit(c, low), low / 2, high, m - 1, n);
    }
  }

  lemma {:induction false} AppendIsBounded(low: nat, high: nat, m: nat, n: nat)
    requires high < Power(n)
    ensures Append(low, high, m) < Power(m + n)
    decreases m
  {
    if m > 0 {
      AppendIsBounded(low / 2, high, m - 1, n);
    }
  }

  lemma {:induction false} AppendIsInjective(a: nat, x: nat, b: nat, y: nat, n: nat)
    requires a < Power(n) && b < Power(n) && Append(a, x, n) == Append(b, y, n)
    ensures a == b && x == y
    decreases n
  {
    if n > 0 {
      AppendDigits(a, x, n);
      AppendDigits(b, y, n);
      AppendIsInjective(a / 2, x, b / 2, y, n - 1);
    }
  }

  lemma {:induction false} WordIsBounded(data: seq<byte>, width: nat)
    ensures Word(data, width) < Power(Bits(data, width))
  {
    if data != [] {
      WordIsBounded(data[1..], width);
      AppendIsBounded(data[0] as nat, Word(data[1..], width), width, Bits(data[1..], width));
    }
  }

  lemma {:induction false} BytesAreOneWord(c: nat, data: seq<byte>, width: nat)
    ensures RegisterFrom(c, data, width) == FeedBits(c, Word(data, width), Bits(data, width))
    decreases |data|
  {
    if data != [] {
      BytesAreOneWord(FeedBits(c, data[0] as nat, width), data[1..], width);
      FeedInTwoParts(c, data[0] as nat, Word(data[1..], width), width, Bits(data[1..], width));
    }
  }

  lemma {:induction false} WordIsInjective(x: seq<byte>, y: seq<byte>, width: nat)
    requires Power(width) >= 256
    requires |x| == |y| && Word(x, width) == Word(y, width)
    ensures x == y
    decreases |x|
  {
    if x != [] {
      AppendIsInjective(x[0] as nat, Word(x[1..], width), y[0] as nat, Word(y[1..], width), width);
      WordIsInjective(x[1..], y[1..], width);
      assert x == [x[0]] + x[1..] && y == [y[0]] + y[1..];
    }
  }

  lemma PowerGrows(m: nat, n: nat)
    requires m <= n
    ensures Power(m) <= Power(n)
    decreases n - m
  {
    if m < n {
      PowerGrows(m + 1, n);
    }
  }

  lemma WordKeepsApart(c: nat, x: nat, y: nat, n: nat)
    requires c < WORDS && n <= 32 && x < Power(n) && y < Power(n)
    requires FeedBits(c, x, n) == FeedBits(c, y, n)
    ensures x == y
  {
    FeedingIsShifting(c, x, n);
    FeedingIsShifting(c, y, n);
    DropDivides(x, n);
    DropDivides(y, n);
    WordsHave32Digits();
    PowerGrows(n, 32);
    XorStaysBelow(c, x, 32);
    XorStaysBelow(c, y, 32);
    ShiftsAreInjective(Xor(c, x), Xor(c, y), n);
    XorCommutes(c, x);
    XorCommutes(c, y);
    XorCancels(x, y, c);
  }

  lemma {:induction false} BitsOf(data: seq<byte>, width: nat, most: nat)
    requires |data| <= most
    ensures Bits(data, width) <= most * width
  {
    if data != [] {
      BitsOf(data[1..], width, most - 1);
      assert most * width == (most - 1) * width + width;
    }
  }

  lemma {:induction false} SameBits(x: seq<byte>, y: seq<byte>, width: nat)
    requires |x| == |y|
    ensures Bits(x, width) == Bits(y, width)
  {
    if x != [] {
      SameBits(x[1..], y[1..], width);
    }
  }

  lemma FourBytesKeepApart(c: nat, x: seq<byte>, y: seq<byte>, width: nat)
    requires Power(width) >= 256 && 4 * width <= 32
    requires c < WORDS && |x| == |y| <= 4 && RegisterFrom(c, x, width) == RegisterFrom(c, y, width)
    ensures x == y
  {
    BytesAreOneWord(c, x, width);
    BytesAreOneWord(c, y, width);
    WordIsBounded(x, width);
    WordIsBounded(y, width);
    BitsOf(x, width, 4);
    SameBits(x, y, width);
    WordKeepsApart(c, Word(x, width), Word(y, width), Bits(x, width));
    WordIsInjective(x, y, width);
  }

  /** Damage within four neighbouring bytes never goes unnoticed. */
  lemma BurstIsDetected(before: seq<byte>, x: seq<byte>, y: seq<byte>, after: seq<byte>)
    requires |x| == |y| <= 4 && x != y
    ensures Checksum(before + x + after) != Checksum(before + y + after)
  {
    var c := Register(before);
    assert [] + before == before;
    RegisterOfConcatenation([], before);
    RegisterKeepsApart(ONES, ONES, before, 8);
    RegisterOfConcatenation(before, x);
    RegisterOfConcatenation(before, y);
    RegisterOfConcatenation(before + x, after);
    RegisterOfConcatenation(before + y, after);
    RegisterKeepsApart(c, c, x, 8);
    RegisterKeepsApart(c, c, y, 8);
    if Checksum(before + x + after) == Checksum(before + y + after) {
      XorCancels(Register(before + x + after), Register(before + y + after), ONES);
      RegisterKeepsApart(RegisterFrom(c, x, 8), RegisterFrom(c, y, 8), after, 8);
      assert Power(8) == 256;
      FourBytesKeepApart(c, x, y, 8);
      assert false;
    }
  }

  /** The checksum fits the 32-bit field that it is written to. */
  lemma ChecksumIsAWord(data: seq<byte>)
    ensures Checksum(data) < WORDS
  {
    assert [] + data == data;
    RegisterOfConcatenation([], data);
    RegisterKeepsApart(ONES, ONES, data, 8);
    WordsHave32Digits();
    XorStaysBelow(Register(data), ONES, 32);
  }

  // ----- known values

  /**
   * The generator polynomial of RFC 1952, reflected: its powers of x, the 32nd aside, are 26, 23, 22,
   * 16, 12, 11, 10, 8, 7, 5, 4, 2, 1 and 0, and x to the e stands at the binary digit 31 - e.
   */
  lemma PolynomialIsReflected()
    ensures POLYNOMIAL == Power(31 - 26) + Power(31 - 23) + Power(31 - 22) + Power(31 - 16) + Power(31 - 12)
                          + Power(31 - 11) + Power(31 - 10) + Power(31 - 8) + Power(31 - 7) + Power(31 - 5)
                          + Power(31 - 4) + Power(31 - 2) + Power(31 - 1) + Power(31 - 0)
  {
    assert Power(5) == 32 && Power(8) == 0x100 && Power(9) == 0x200 && Power(15) == 0x8000;
    assert Power(19) == 0x8_0000 && Power(20) == 0x10_0000 && Power(21) == 0x20_0000 && Power(23) == 0x80_0000;
    assert Power(24) == 0x100_0000 && Power(26) == 0x400_0000 && Power(27) == 0x800_0000;
    assert Power(29) == 0x2000_0000 && Power(30) == 0x4000_0000 && Power(31) == 0x8000_0000;
  }

  lemma {:induction false} ShiftsOfPower(k: nat, n: nat)
    requires n > k
    ensures Shifts(Power(k), n) == Shifts(POLYNOMIAL, n - k - 1)
  {
    if k == 0 {
      XorZero(POLYNOMIAL);
    } else {
      ShiftOfEven(Power(k - 1));
      ShiftsOfPower(k - 1, n - 1);
    }
  }

  lemma {:induction false} Halvings(q: nat, j: nat, n: nat)
    requires j <= n
    ensures Shifts(Power(j) * q, n) == Shifts(q, n - j)
    decreases j
  {
    if j > 0 {
      assert Power(j) * q == 2 * (Power(j - 1) * q);
      ShiftOfEven(Power(j - 1) * q);
      Halvings(q, j - 1, n - 1);
    }
  }

  lemma {:induction false} PowersAdd(m: nat, n: nat)
    ensures Power(m + n) == Power(m) * Power(n)
    decreases m
  {
    if m > 0 {
      PowersAdd(m - 1, n);
      assert Power(m) * Power(n) == 2 * (Power(m - 1) * Power(n));
    }
  }

  /** The entries of the table for 4, 8 and so on to 128: the last of them is the polynomial itself. */
  lemma KnownEntries(k: nat)
    requires 2 <= k <= 7
    ensures Shifts(Power(k), 8) == Power(k - 2) * 0x076D_C419
    ensures k == 7 ==> Shifts(Power(k), 8) == POLYNOMIAL
  {
    var rest, down := k - 2, 7 - k;
    ShiftsOfPower(k, 8);
    assert Power(5) == 32;
    PowersAdd(down, rest);
    Regrouped(Power(down), Power(rest), 0x076D_C419);
    Halvings(Power(rest) * 0x076D_C419, down, down);
  }

  lemma Regrouped(a: nat, b: nat, c: nat)
    requires a * b == 32
    ensures a * (b * c) == 32 * c
  {
    assert a * (b * c) == (a * b) * c;
  }

  lemma {:induction false} NothingStaysNothing(n: nat)
    ensures Shifts(0, n) == 0
  {
    if n > 0 {
      NothingStaysNothing(n - 1);
    }
  }

  lemma {:induction false} WordOfOnes(data: seq<byte>, n: nat)
    requires |data| == n && forall i | 0 <= i < n :: data[i] == 255
    ensures Word(data, 8) + 1 == Power(8 * n) && Bits(data, 8) == 8 * n
  {
    if n > 0 {
      var low := data[0] as nat;
      WordOfOnes(data[1..], n - 1);
      assert Power(8) == 256;
      AppendIsSum(low, Word(data[1..], 8), 8);
      PowersAdd(8, 8 * (n - 1));
    }
  }

  /** The empty message has the checksum 0, and four bytes 255 have the one with all bits set. */
  lemma KnownChecksums(data: seq<byte>, n: nat)
    requires |data| == n == 4 && forall i | 0 <= i < n :: data[i] == 255
    ensures Checksum([]) == 0 && Checksum(data) == 0xFFFF_FFFF
  {
    XorZero(ONES);
    assert [] + data == data;
    RegisterOfConcatenation([], data);
    BytesAreOneWord(ONES, data, 8);
    WordOfOnes(data, n);
    WordsHave32Digits();
    FeedingIsShifting(ONES, Word(data, 8), Bits(data, 8));
    DropDivides(Word(data, 8), Bits(data, 8));
    NothingStaysNothing(Bits(data, 8));
    XorZero(Register(data));
  }
}
