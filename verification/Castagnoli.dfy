// CRC-32C as section 12.1 of RFC 3720 describes it: the remainder of a long division of polynomials over GF(2). Nothing
// here is shared with the register the program computes with, which Crc32c models; the last lemma says they agree.
module Castagnoli {
  import opened Bytes
  import opened Crc32c

  // Polynomials are lists of coefficients, highest power first. Subtracting is exclusive or.

  function Minus(a: seq<bool>, b: seq<bool>): (c: seq<bool>)
    requires |a| >= |b|
    ensures |c| == |a|
  {
    seq(|a|, i requires 0 <= i < |a| => if i < |b| then a[i] != b[i] else a[i])
  }

  // The bits of a word, the least significant first, and the other way round.

  predicate LowBit(s: bv32) {
    s & 1 != 0
  }

  function Halved(s: bv32): bv32 {
    s >> 1
  }

  predicate Bit(s: bv32, i: nat) {
    if i == 0 then LowBit(s) else Bit(Halved(s), i - 1)
  }

  function Bits(s: bv32): (w: seq<bool>)
    ensures |w| == 32
  {
    seq(32, i requires 0 <= i < 32 => Bit(s, i))
  }

  function Reversed(w: seq<bool>): (v: seq<bool>)
    ensures |v| == |w|
  {
    seq(|w|, i requires 0 <= i < |w| => w[|w| - 1 - i])
  }

  // x^32 + DIVISOR is the generator polynomial.
  const DIVISOR: seq<bool> := Reversed(Bits(0x1EDC6F41))

  // Long division: the leading coefficient goes, and the divisor is subtracted below it if it was one.
  function Remainder(p: seq<bool>): (r: seq<bool>)
    requires |p| >= 32
    ensures |r| == 32
    decreases |p|
  {
    if |p| == 32 then p else Remainder(if p[0] then Minus(p[1..], DIVISOR) else p[1..])
  }

  // The last k binary digits of a number, the least significant first, which is how a byte goes in.
  function NatBits(n: nat, k: nat): (w: seq<bool>)
    ensures |w| == k
  {
    if k == 0 then [] else [n % 2 == 1] + NatBits(n / 2, k - 1)
  }

  function BitsOf(b: byte): (w: seq<bool>)
    ensures |w| == 8
  {
    NatBits(b, 8)
  }

  function AllBits(data: bytes): (w: seq<bool>)
    ensures |w| == 8 * |data|
  {
    if data == [] then [] else BitsOf(data[0]) + AllBits(data[1..])
  }

  function Times(bit: bool, n: nat): (w: seq<bool>)
    ensures |w| == n && forall i :: 0 <= i < n ==> w[i] == bit
  {
    seq(n, _ => bit)
  }

  // The message times x^32, its first 32 coefficients complemented, divided; and the remainder complemented.
  function Crc(data: bytes): (w: seq<bool>)
    ensures |w| == 32
  {
    Minus(Remainder(Minus(AllBits(data) + Times(false, 32), Times(true, 32))), Times(true, 32))
  }

  // A register that divides as the coefficients arrive.

  function Next(c: seq<bool>): (d: seq<bool>)
    requires |c| == 32
    ensures |d| == 32
  {
    c[1..] + [false]
  }

  function Feed(c: seq<bool>, bit: bool): (d: seq<bool>)
    requires |c| == 32
    ensures |d| == 32
  {
    if c[0] != bit then Minus(Next(c), DIVISOR) else Next(c)
  }

  function FeedAll(c: seq<bool>, w: seq<bool>): (d: seq<bool>)
    requires |c| == 32
    ensures |d| == 32
    decreases |w|
  {
    if w == [] then c else FeedAll(Feed(c, w[0]), w[1..])
  }

  // What is in the register is what the long division has yet to subtract.
  lemma {:induction false} FeedingDivides(c: seq<bool>, w: seq<bool>)
    requires |c| == 32
    ensures Remainder(Minus(w + Times(false, 32), c)) == FeedAll(c, w)
    decreases |w|
  {
    hide Feed;
    if w == [] {
      assert Minus([] + Times(false, 32), c) == c;
    } else {
      OneDivision(c, w);
      FeedingDivides(Feed(c, w[0]), w[1..]);
    }
  }

  lemma OneDivision(c: seq<bool>, w: seq<bool>)
    requires |c| == 32 && w != []
    ensures Remainder(Minus(w + Times(false, 32), c)) == Remainder(Minus(w[1..] + Times(false, 32), Feed(c, w[0])))
  {
    var p := Minus(w + Times(false, 32), c);
    var q := Minus(w[1..] + Times(false, 32), Feed(c, w[0]));
    assert (if p[0] then Minus(p[1..], DIVISOR) else p[1..]) == q;
  }

  // The program's register holds the same, the highest power in its least significant bit.

  function Xor(a: bv32, b: bv32): bv32 {
    a ^ b
  }

  lemma HalfXor(a: bv32, b: bv32)
    ensures Halved(Xor(a, b)) == Xor(Halved(a), Halved(b)) && (LowBit(Xor(a, b)) <==> LowBit(a) != LowBit(b))
  {
  }

  lemma {:induction false} BitXor(a: bv32, b: bv32, i: nat)
    ensures Bit(Xor(a, b), i) <==> Bit(a, i) != Bit(b, i)
    decreases i
  {
    hide LowBit, Halved, Xor;
    HalfXor(a, b);
    if i > 0 { BitXor(Halved(a), Halved(b), i - 1); }
  }

  lemma BitsXor(a: bv32, b: bv32)
    ensures Bits(Xor(a, b)) == Minus(Bits(a), Bits(b))
  {
    hide Bit, Xor;
    forall i | 0 <= i < 32 ensures Bit(Xor(a, b), i) == (Bit(a, i) != Bit(b, i)) {
      BitXor(a, b, i);
    }
  }

  // A bound on what is left after i halvings.
  function Bound(i: nat): bv32 {
    if i == 0 then 0xFFFF_FFFF else Halved(Bound(i - 1))
  }

  lemma BoundEnds()
    ensures Bound(32) == 0
  {
    assert Bound(8) == 0xFF_FFFF by { assert Bound(4) == 0xFFF_FFFF; }
    assert Bound(16) == 0xFFFF by { assert Bound(12) == 0xF_FFFF; }
    assert Bound(24) == 0xFF by { assert Bound(20) == 0xFFF; }
    assert Bound(28) == 0xF;
  }

  lemma {:induction false} NoBitPast(s: bv32, i: nat, n: nat)
    requires i <= n && s <= Bound(n - i) && Bound(n) == 0
    ensures !Bit(s, i)
    decreases i
  {
    if i > 0 { NoBitPast(Halved(s), i - 1, n); }
  }

  lemma BitsDown(s: bv32)
    ensures Bits(Halved(s)) == Next(Bits(s))
  {
    hide LowBit, Halved;
    BoundEnds();
    NoBitPast(s, 32, 32);
    assert Bit(Halved(s), 31) == Bit(s, 32);
  }

  // The bits four at a time, which is how constants are written.

  function Quarter(s: bv32): bv32 {
    Halved(Halved(Halved(Halved(s))))
  }

  function Quarters(s: bv32, k: nat): bv32 {
    if k == 0 then s else Quarters(Quarter(s), k - 1)
  }

  lemma FourDown(s: bv32, i: nat)
    ensures Bit(s, i + 4) == Bit(Quarter(s), i)
  {
    hide Halved;
    var s1 := Halved(s);
    var s2 := Halved(s1);
    var s3 := Halved(s2);
    assert Bit(s, i + 4) == Bit(s1, i + 3) && Bit(s1, i + 3) == Bit(s2, i + 2);
    assert Bit(s2, i + 2) == Bit(s3, i + 1) && Bit(s3, i + 1) == Bit(Halved(s3), i);
  }

  lemma {:induction false} DigitAt(s: bv32, k: nat, j: nat)
    ensures Bit(s, 4 * k + j) == Bit(Quarters(s, k), j)
    decreases k
  {
    hide Bit, Quarter;
    if k > 0 {
      FourDown(s, 4 * (k - 1) + j);
      DigitAt(Quarter(s), k - 1, j);
    }
  }

  lemma Digit(s: bv32, k: nat, d: bv32)
    requires Quarters(s, k) & 0xF == d
    ensures (Bit(s, 4 * k) <==> d & 1 != 0) && (Bit(s, 4 * k + 1) <==> d & 2 != 0)
    ensures (Bit(s, 4 * k + 2) <==> d & 4 != 0) && (Bit(s, 4 * k + 3) <==> d & 8 != 0)
  {
    DigitAt(s, k, 0);
    DigitAt(s, k, 1);
    DigitAt(s, k, 2);
    DigitAt(s, k, 3);
    LowFour(Quarters(s, k));
    hide Bit, Quarters;
    LowDigit(Quarters(s, k), d);
  }

  lemma LowDigit(q: bv32, d: bv32)
    requires q & 0xF == d
    ensures (q & 1 != 0) == (d & 1 != 0) && (q & 2 != 0) == (d & 2 != 0)
    ensures (q & 4 != 0) == (d & 4 != 0) && (q & 8 != 0) == (d & 8 != 0)
  {
  }

  lemma LowFour(q: bv32)
    ensures (Bit(q, 0) <==> q & 1 != 0) && (Bit(q, 1) <==> q & 2 != 0)
    ensures (Bit(q, 2) <==> q & 4 != 0) && (Bit(q, 3) <==> q & 8 != 0)
  {
    var t := Halved(Halved(q));
    assert Bit(q, 2) == Bit(Halved(q), 1) && Bit(Halved(q), 1) == Bit(t, 0);
    assert Bit(q, 3) == Bit(Halved(q), 2) && Bit(Halved(q), 2) == Bit(t, 1) && Bit(t, 1) == Bit(Halved(t), 0);
  }

  lemma BitsPoly()
    ensures Bits(POLY) == DIVISOR
  {
    hide Bit;
    Digit(POLY, 0, 0x8);
    Digit(0x1EDC6F41, 0, 0x1);
    Digit(POLY, 1, 0x7);
    Digit(0x1EDC6F41, 1, 0x4);
    Digit(POLY, 2, 0xB);
    Digit(0x1EDC6F41, 2, 0xF);
    Digit(POLY, 3, 0x3);
    Digit(0x1EDC6F41, 3, 0x6);
    Digit(POLY, 4, 0x6);
    Digit(0x1EDC6F41, 4, 0xC);
    Digit(POLY, 5, 0xF);
    Digit(0x1EDC6F41, 5, 0xD);
    Digit(POLY, 6, 0x2);
    Digit(0x1EDC6F41, 6, 0xE);
    Digit(POLY, 7, 0x8);
    Digit(0x1EDC6F41, 7, 0x1);
  }

  lemma BitsOnes()
    ensures Bits(0xFFFF_FFFF) == Times(true, 32)
  {
    hide Bit;
    Digit(0xFFFF_FFFF, 0, 0xF);
    Digit(0xFFFF_FFFF, 1, 0xF);
    Digit(0xFFFF_FFFF, 2, 0xF);
    Digit(0xFFFF_FFFF, 3, 0xF);
    Digit(0xFFFF_FFFF, 4, 0xF);
    Digit(0xFFFF_FFFF, 5, 0xF);
    Digit(0xFFFF_FFFF, 6, 0xF);
    Digit(0xFFFF_FFFF, 7, 0xF);
  }

  lemma {:induction false} NoBits(i: nat)
    ensures !Bit(0, i)
    decreases i
  {
    assert Halved(0) == 0;
    if i > 0 { NoBits(i - 1); }
  }

  // One bit into the program's register.

  function One(bit: bool): bv32 {
    if bit then 1 else 0
  }

  lemma OneBit(bit: bool, i: nat)
    ensures Bit(One(bit), i) <==> bit && i == 0
  {
    NoBits(i);
    if i > 0 {
      NoBits(i - 1);
      assert Halved(1) == 0;
    }
  }

  lemma ShiftIs(t: bv32)
    ensures Shift(t) == if LowBit(t) then Xor(Halved(t), POLY) else Halved(t)
  {
  }

  lemma ShiftFeeds(s: bv32, bit: bool)
    ensures Bits(Shift(Xor(s, One(bit)))) == Feed(Bits(s), bit)
  {
    hide Bit, LowBit, Halved, Xor, One, Shift;
    var t := Xor(s, One(bit));
    ShiftIs(t);
    BitsXor(s, One(bit));
    forall i | 0 <= i < 32 ensures Bit(One(bit), i) == (bit && i == 0) { OneBit(bit, i); }
    BitsDown(t);
    assert Next(Bits(t)) == Next(Bits(s));
    FirstBit(t);
    BitsXor(Halved(t), POLY);
    BitsPoly();
  }

  lemma FirstBit(t: bv32)
    ensures Bits(t)[0] == LowBit(t)
  {
  }

  // One byte, which the program adds to the register all at once.

  lemma PackFirst(b0: bool, b1: bool, b2: bool, b3: bool, b4: bool, b5: bool, b6: bool, b7: bool)
    ensures var u := Pack(b1, b2, b3, b4, b5, b6, b7, false);
            Pack(b0, b1, b2, b3, b4, b5, b6, b7) == Xor(One(b0), u << 1) && u < 0x80
  {
  }

  lemma ShiftLinear(s: bv32, u: bv32)
    requires u < 0x80
    ensures Shift(Xor(s, u << 1)) == Xor(Shift(s), u)
  {
  }

  lemma Xors(a: bv32, b: bv32, c: bv32)
    ensures Xor(Xor(a, b), c) == Xor(a, Xor(b, c))
  {
  }

  lemma PackedBit(s: bv32, b0: bool, b1: bool, b2: bool, b3: bool, b4: bool, b5: bool, b6: bool, b7: bool)
    ensures Shift(Xor(s, Pack(b0, b1, b2, b3, b4, b5, b6, b7)))
            == Xor(Shift(Xor(s, One(b0))), Pack(b1, b2, b3, b4, b5, b6, b7, false))
  {
    hide Shift, Xor, One, Pack;
    var u := Pack(b1, b2, b3, b4, b5, b6, b7, false);
    PackFirst(b0, b1, b2, b3, b4, b5, b6, b7);
    Xors(s, One(b0), u << 1);
    ShiftLinear(Xor(s, One(b0)), u);
  }

  lemma NothingPacked(s: bv32)
    ensures Xor(s, Pack(false, false, false, false, false, false, false, false)) == s
  {
  }

  // Four bits into either register, and the other four of the byte after them.

  function Shift4(s: bv32): bv32 {
    Shift(Shift(Shift(Shift(s))))
  }

  function Fed(s: bv32, bit: bool): bv32 {
    Shift(Xor(s, One(bit)))
  }

  function Fed4(s: bv32, b0: bool, b1: bool, b2: bool, b3: bool): bv32 {
    Fed(Fed(Fed(Fed(s, b0), b1), b2), b3)
  }

  function Feed4(c: seq<bool>, b0: bool, b1: bool, b2: bool, b3: bool): (d: seq<bool>)
    requires |c| == 32
    ensures |d| == 32
  {
    Feed(Feed(Feed(Feed(c, b0), b1), b2), b3)
  }

  function FeedByte(c: seq<bool>, w: seq<bool>): (d: seq<bool>)
    requires |c| == 32 && |w| == 8
    ensures |d| == 32
  {
    Feed4(Feed4(c, w[0], w[1], w[2], w[3]), w[4], w[5], w[6], w[7])
  }

  lemma FourFed(s: bv32, b0: bool, b1: bool, b2: bool, b3: bool)
    ensures Bits(Fed4(s, b0, b1, b2, b3)) == Feed4(Bits(s), b0, b1, b2, b3)
  {
    hide Fed, Bits, Feed;
    OneFed(s, b0);
    OneFed(Fed(s, b0), b1);
    OneFed(Fed(Fed(s, b0), b1), b2);
    OneFed(Fed(Fed(Fed(s, b0), b1), b2), b3);
  }

  lemma OneFed(s: bv32, bit: bool)
    ensures Bits(Fed(s, bit)) == Feed(Bits(s), bit)
  {
    hide Shift, Xor, One, Bits, Feed;
    ShiftFeeds(s, bit);
  }

  lemma FourPacked(s: bv32, b0: bool, b1: bool, b2: bool, b3: bool, b4: bool, b5: bool, b6: bool, b7: bool)
    ensures Shift4(Xor(s, Pack(b0, b1, b2, b3, b4, b5, b6, b7)))
            == Xor(Fed4(s, b0, b1, b2, b3), Pack(b4, b5, b6, b7, false, false, false, false))
  {
    hide Shift, Xor, One, Pack;
    var f := false;
    PackedBit(s, b0, b1, b2, b3, b4, b5, b6, b7);
    PackedBit(Fed(s, b0), b1, b2, b3, b4, b5, b6, b7, f);
    PackedBit(Fed(Fed(s, b0), b1), b2, b3, b4, b5, b6, b7, f, f);
    PackedBit(Fed(Fed(Fed(s, b0), b1), b2), b3, b4, b5, b6, b7, f, f, f);
  }

  lemma InHalves(s: bv32)
    ensures Shift8(s) == Shift4(Shift4(s))
  {
    hide Shift;
  }

  lemma PackFeeds(s: bv32, w: seq<bool>)
    requires |w| == 8
    ensures Bits(Shift8(Xor(s, Pack(w[0], w[1], w[2], w[3], w[4], w[5], w[6], w[7])))) == FeedByte(Bits(s), w)
  {
    hide Shift4, Shift8, Xor, Pack, Bits, Fed4, Feed4;
    var f := false;
    var t := Fed4(s, w[0], w[1], w[2], w[3]);
    var u := Fed4(t, w[4], w[5], w[6], w[7]);
    InHalves(Xor(s, Pack(w[0], w[1], w[2], w[3], w[4], w[5], w[6], w[7])));
    FourPacked(s, w[0], w[1], w[2], w[3], w[4], w[5], w[6], w[7]);
    FourPacked(t, w[4], w[5], w[6], w[7], f, f, f, f);
    NothingPacked(u);
    FourFed(s, w[0], w[1], w[2], w[3]);
    FourFed(t, w[4], w[5], w[6], w[7]);
  }

  lemma {:induction false} HalfBit(b: byte, i: nat, k: nat)
    requires i < k
    ensures Odd(Half(b, i)) == NatBits(b, k)[i]
    decreases i
  {
    if i > 0 { HalfBit(b / 2, i - 1, k - 1); }
  }

  lemma WidenPacks(b: byte)
    ensures var w := BitsOf(b); Widen(b) == Pack(w[0], w[1], w[2], w[3], w[4], w[5], w[6], w[7])
  {
    hide Half, Odd, Pack, NatBits;
    forall i | 0 <= i < 8 ensures Odd(Half(b, i)) == BitsOf(b)[i] { HalfBit(b, i, 8); }
  }

  lemma FedTwo(c: seq<bool>, a: bool, b: bool, rest: seq<bool>)
    requires |c| == 32
    ensures FeedAll(c, [a, b] + rest) == FeedAll(Feed(Feed(c, a), b), rest)
  {
    hide Feed;
    assert ([a, b] + rest)[1..][1..] == rest;
    assert ([a, b] + rest)[1..][0] == b;
  }

  lemma FedByte(c: seq<bool>, w: seq<bool>)
    requires |c| == 32 && |w| == 8
    ensures FeedAll(c, w) == FeedByte(c, w)
  {
    hide Feed, FeedAll;
    var c2 := Feed(Feed(c, w[0]), w[1]);
    var c4 := Feed(Feed(c2, w[2]), w[3]);
    var c6 := Feed(Feed(c4, w[4]), w[5]);
    var c8 := Feed(Feed(c6, w[6]), w[7]);
    InTwos(w);
    FedTwo(c, w[0], w[1], w[2..]);
    FedTwo(c2, w[2], w[3], w[4..]);
    FedTwo(c4, w[4], w[5], w[6..]);
    FedTwo(c6, w[6], w[7], []);
    FedNone(c8);
  }

  lemma InTwos(w: seq<bool>)
    requires |w| == 8
    ensures w == [w[0], w[1]] + w[2..] && w[2..] == [w[2], w[3]] + w[4..]
    ensures w[4..] == [w[4], w[5]] + w[6..] && w[6..] == [w[6], w[7]] + []
  {
  }

  lemma FedNone(c: seq<bool>)
    requires |c| == 32
    ensures FeedAll(c, []) == c
  {
  }

  lemma StepFeeds(s: bv32, b: byte)
    ensures Bits(Step(s, b)) == FeedAll(Bits(s), BitsOf(b))
  {
    hide Bits, Shift8, Pack, Widen, FeedByte, FeedAll, BitsOf;
    WidenPacks(b);
    PackFeeds(s, BitsOf(b));
    FedByte(Bits(s), BitsOf(b));
  }

  lemma {:induction false} FeedAppend(c: seq<bool>, a: seq<bool>, b: seq<bool>)
    requires |c| == 32
    ensures FeedAll(c, a + b) == FeedAll(FeedAll(c, a), b)
    decreases |a|
  {
    hide Feed;
    if a == [] {
      assert a + b == b;
    } else {
      assert (a + b)[1..] == a[1..] + b;
      FeedAppend(Feed(c, a[0]), a[1..], b);
    }
  }

  lemma {:induction false} RunFeeds(s: bv32, data: bytes)
    ensures Bits(Run(s, data)) == FeedAll(Bits(s), AllBits(data))
    decreases |data|
  {
    hide Bits, Step, BitsOf, Feed;
    if data != [] {
      StepFeeds(s, data[0]);
      RunFeeds(Step(s, data[0]), data[1..]);
      FeedAppend(Bits(s), BitsOf(data[0]), AllBits(data[1..]));
    }
  }

  lemma FlipIsXor(s: bv32)
    ensures Flip(s) == Xor(s, 0xFFFF_FFFF) && Flip(0) == 0xFFFF_FFFF
  {
  }

  // The checksum the program computes is the CRC the standard defines, for data of any length.
  lemma ChecksumIsCrc(data: bytes)
    ensures Bits(Checksum(data)) == Crc(data)
  {
    hide Bits, Run, Flip, FeedAll, AllBits, Remainder, Xor;
    RunFeeds(0xFFFF_FFFF, data);
    BitsOnes();
    FeedingDivides(Times(true, 32), AllBits(data));
    FlipIsXor(0);
    FlipIsXor(Run(0xFFFF_FFFF, data));
    BitsXor(Run(0xFFFF_FFFF, data), 0xFFFF_FFFF);
  }

  // A word as a number, and as four bytes, the least significant first.

  function Doubled(h: bv32, bit: bool): bv32 {
    if bit then (h << 1) | 1 else h << 1
  }

  lemma EvenNumber(h: bv32)
    requires h < 0x8000_0000
    ensures (h << 1) as int == 2 * (h as int)
  {
  }

  lemma OddNumber(h: bv32)
    requires h < 0x8000_0000
    ensures ((h << 1) | 1) as int == 2 * (h as int) + 1
  {
  }

  lemma DoubledNumber(h: bv32, bit: bool)
    requires h < 0x8000_0000
    ensures bit ==> Word(Doubled(h, bit)) == 2 * Word(h) + 1
    ensures !bit ==> Word(Doubled(h, bit)) == 2 * Word(h)
  {
    if bit { OddNumber(h); } else { EvenNumber(h); }
  }

  lemma HalvedWord(c: bv32)
    ensures Halved(c) < 0x8000_0000 && c == Doubled(Halved(c), LowBit(c))
  {
  }

  lemma {:induction false} BitNat(c: bv32, i: nat, k: nat)
    requires i < k
    ensures NatBits(Word(c), k)[i] == Bit(c, i)
    decreases i
  {
    hide LowBit, Halved, Word, Doubled;
    HalvedWord(c);
    DoubledNumber(Halved(c), LowBit(c));
    if i > 0 { BitNat(Halved(c), i - 1, k - 1); }
  }

  function Low(n: nat, m: nat): nat
    requires m >= 1
  {
    n % m
  }

  function High(n: nat, m: nat): nat
    requires m >= 1
  {
    n / m
  }

  lemma HalfMod(n: nat, p: nat)
    requires p >= 1
    ensures Low(n, 2 * p) == n % 2 + 2 * Low(n / 2, p) && High(n, 2 * p) == High(n / 2, p)
  {
    var q, r := n / 2, n % 2;
    var a, b := q / p, q % p;
    assert n == 2 * q + r && q == p * a + b;
    assert n == (2 * p) * a + (2 * b + r) by { assert 2 * (p * a) == (2 * p) * a; }
    ModUnique(n, 2 * p, a, 2 * b + r);
    SameQuotient(2 * p, n / (2 * p), a);
  }

  lemma SameQuotient(m: nat, x: int, y: int)
    requires m >= 1 && m * x == m * y
    ensures x == y
  {
    assert m * (x - y) == 0;
    MulAtLeast(m, x - y);
  }

  lemma {:induction false} SplitBits(n: nat, j: nat, k: nat, m: nat)
    requires m == Power2(j) && m >= 1
    ensures NatBits(n, j + k) == NatBits(Low(n, m), j) + NatBits(High(n, m), k)
    decreases j
  {
    hide Low, High, NatBits;
    if j == 0 {
      WholeNumber(n);
      NoDigits(Low(n, m));
    } else {
      var p := Power2(j - 1);
      assert m == 2 * p;
      SplitBits(n / 2, j - 1, k, p);
      HalfMod(n, p);
      LowDouble(n % 2, Low(n / 2, p));
      FirstDigit(n, j - 1 + k);
      FirstDigit(Low(n, m), j - 1);
    }
  }

  lemma NoDigits(n: nat)
    ensures NatBits(n, 0) == []
  {
  }

  lemma FirstDigit(n: nat, k: nat)
    ensures NatBits(n, 1 + k) == [n % 2 == 1] + NatBits(n / 2, k)
  {
  }

  lemma LowDouble(r: nat, q: nat)
    requires r < 2
    ensures (r + 2 * q) % 2 == r && (r + 2 * q) / 2 == q
  {
  }

  lemma WholeNumber(n: nat)
    ensures High(n, 1) == n
  {
  }

  lemma {:induction false} BytesBits(n: nat, k: nat)
    ensures AllBits(LE(n, k)) == NatBits(n, 8 * k)
    decreases k
  {
    hide NatBits;
    if k > 0 {
      assert Power2(8) == 256 by { assert Power2(4) == 16; }
      SplitBits(n, 8, 8 * (k - 1), 256);
      BytesBits(n / 256, k - 1);
      assert LE(n, k)[1..] == LE(n / 256, k - 1);
    }
  }

  // A checksum stored in four bytes is the CRC, bit for bit.
  lemma StoredCrc(data: bytes)
    ensures AllBits(LE(Word(Checksum(data)), 4)) == Crc(data)
  {
    hide AllBits, LE, Crc, Checksum, NatBits, Bit, Word;
    var c := Checksum(data);
    ChecksumIsCrc(data);
    BytesBits(Word(c), 4);
    forall i | 0 <= i < 32 ensures NatBits(Word(c), 32)[i] == Bits(c)[i] { BitNat(c, i, 32); }
  }
}
