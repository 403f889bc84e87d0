// The Castagnoli CRC of section 12.1 of RFC 3720, in its reflected form, one bit at a time.
module Crc32c {
  import opened Bytes

  const POLY: bv32 := 0x82F63B78

  function Shift(s: bv32): bv32 {
    if s & 1 == 1 then (s >> 1) ^ POLY else s >> 1
  }

  function Shift8(s: bv32): bv32 {
    Shift(Shift(Shift(Shift(Shift(Shift(Shift(Shift(s))))))))
  }

  predicate Odd(b: byte) {
    b % 2 == 1
  }

  function Half(b: byte, times: nat): byte {
    if times == 0 then b else Half(b / 2, times - 1)
  }

  function Pack(b0: bool, b1: bool, b2: bool, b3: bool, b4: bool, b5: bool, b6: bool, b7: bool): bv32 {
    (if b0 then 0x01 else 0) | (if b1 then 0x02 else 0) | (if b2 then 0x04 else 0) | (if b3 then 0x08 else 0) |
    (if b4 then 0x10 else 0) | (if b5 then 0x20 else 0) | (if b6 then 0x40 else 0) | (if b7 then 0x80 else 0)
  }

  // A byte as the low eight bits of the register.
  function Widen(b: byte): bv32 {
    Pack(Odd(Half(b, 0)), Odd(Half(b, 1)), Odd(Half(b, 2)), Odd(Half(b, 3)),
         Odd(Half(b, 4)), Odd(Half(b, 5)), Odd(Half(b, 6)), Odd(Half(b, 7)))
  }

  function Step(s: bv32, b: byte): bv32 {
    Shift8(s ^ Widen(b))
  }

  function Run(s: bv32, data: bytes): bv32
    decreases |data|
  {
    if data == [] then s else Run(Step(s, data[0]), data[1..])
  }

  function Flip(s: bv32): bv32 {
    !s
  }

  // crc32.Update and crc32.Checksum
  function Update(crc: bv32, data: bytes): bv32 {
    Flip(Run(Flip(crc), data))
  }

  function Checksum(data: bytes): bv32 {
    Update(0, data)
  }

  // A checksum as the uint32 the header stores.
  function Word(c: bv32): (n: nat)
    ensures n < TWO_32
  {
    c as int
  }

  lemma WordInjective(a: bv32, b: bv32)
    requires Word(a) == Word(b)
    ensures a == b
  {
    assert (a as int) as bv32 == a && (b as int) as bv32 == b;
  }

  // The top bit of POLY is set, so the bit shifted out can be read back from the top of the result.
  lemma ShiftInjective(a: bv32, b: bv32)
    requires Shift(a) == Shift(b)
    ensures a == b
  {
  }

  lemma Shift8Injective(a: bv32, b: bv32)
    requires Shift8(a) == Shift8(b)
    ensures a == b
  {
    var a1, b1 := Shift(a), Shift(b);
    var a2, b2 := Shift(a1), Shift(b1);
    var a3, b3 := Shift(a2), Shift(b2);
    var a4, b4 := Shift(a3), Shift(b3);
    var a5, b5 := Shift(a4), Shift(b4);
    var a6, b6 := Shift(a5), Shift(b5);
    var a7, b7 := Shift(a6), Shift(b6);
    ShiftInjective(a7, b7);
    ShiftInjective(a6, b6);
    ShiftInjective(a5, b5);
    ShiftInjective(a4, b4);
    ShiftInjective(a3, b3);
    ShiftInjective(a2, b2);
    ShiftInjective(a1, b1);
    ShiftInjective(a, b);
  }

  lemma XorCancel(a: bv32, b: bv32, u: bv32, v: bv32)
    requires a ^ u == b ^ v
    ensures u == v ==> a == b
    ensures a == b ==> u == v
  {
  }

  lemma PackInjective(a0: bool, a1: bool, a2: bool, a3: bool, a4: bool, a5: bool, a6: bool, a7: bool,
                      b0: bool, b1: bool, b2: bool, b3: bool, b4: bool, b5: bool, b6: bool, b7: bool)
    requires Pack(a0, a1, a2, a3, a4, a5, a6, a7) == Pack(b0, b1, b2, b3, b4, b5, b6, b7)
    ensures a0 == b0 && a1 == b1 && a2 == b2 && a3 == b3 && a4 == b4 && a5 == b5 && a6 == b6 && a7 == b7
  {
  }

  // Bytes below 2^n that agree on n bits are equal.
  lemma {:induction false} SameBits(x: byte, y: byte, n: nat)
    requires x < Power2(n) && y < Power2(n)
    requires forall t :: 0 <= t < n ==> Odd(Half(x, t)) == Odd(Half(y, t))
    ensures x == y
    decreases n
  {
    if n > 0 {
      forall t | 0 <= t < n - 1 ensures Odd(Half(x / 2, t)) == Odd(Half(y / 2, t)) {
        assert Half(x, t + 1) == Half(x / 2, t) && Half(y, t + 1) == Half(y / 2, t);
      }
      assert Half(x, 0) == x && Half(y, 0) == y;
      SameBits(x / 2, y / 2, n - 1);
    }
  }

  function Power2(n: nat): nat {
    if n == 0 then 1 else 2 * Power2(n - 1)
  }

  lemma WidenInjective(x: byte, y: byte)
    requires Widen(x) == Widen(y)
    ensures x == y
  {
    hide Pack, Odd, Half;
    PackInjective(Odd(Half(x, 0)), Odd(Half(x, 1)), Odd(Half(x, 2)), Odd(Half(x, 3)),
                  Odd(Half(x, 4)), Odd(Half(x, 5)), Odd(Half(x, 6)), Odd(Half(x, 7)),
                  Odd(Half(y, 0)), Odd(Half(y, 1)), Odd(Half(y, 2)), Odd(Half(y, 3)),
                  Odd(Half(y, 4)), Odd(Half(y, 5)), Odd(Half(y, 6)), Odd(Half(y, 7)));
    assert Power2(8) == 256 by { assert Power2(4) == 16; }
    SameBits(x, y, 8);
  }

  lemma StepInjective(a: bv32, b: bv32, x: byte, y: byte)
    requires Step(a, x) == Step(b, y)
    ensures x == y ==> a == b
    ensures a == b ==> x == y
  {
    hide Shift8, Widen;
    Shift8Injective(a ^ Widen(x), b ^ Widen(y));
    XorCancel(a, b, Widen(x), Widen(y));
    if a == b { WidenInjective(x, y); }
  }

  lemma {:induction false} RunInjective(a: bv32, b: bv32, data: bytes)
    requires Run(a, data) == Run(b, data)
    ensures a == b
    decreases |data|
  {
    if data != [] {
      RunInjective(Step(a, data[0]), Step(b, data[0]), data[1..]);
      StepInjective(a, b, data[0], data[0]);
    }
  }

  lemma {:induction false} RunAppend(s: bv32, a: bytes, b: bytes)
    ensures Run(s, a + b) == Run(Run(s, a), b)
    decreases |a|
  {
    if a == [] {
      assert a + b == b;
    } else {
      assert (a + b)[1..] == a[1..] + b;
      RunAppend(Step(s, a[0]), a[1..], b);
    }
  }

  lemma UpdateAppend(a: bytes, b: bytes)
    ensures Update(Checksum(a), b) == Checksum(a + b)
  {
    hide Run, Flip;
    RunAppend(Flip(0), a, b);
    FlipTwice(Run(Flip(0), a));
  }

  // Any change of a single byte changes the checksum.
  lemma OneByteChangesChecksum(data: bytes, p: nat, x: byte)
    requires p < |data| && data[p] != x
    ensures Checksum(data) != Checksum(data[p := x])
  {
    hide Run, Step, Flip;
    var pre, post := data[..p], data[p + 1..];
    assert data == pre + ([data[p]] + post);
    assert data[p := x] == pre + ([x] + post);
    RunAppend(Flip(0), pre, [data[p]] + post);
    RunAppend(Flip(0), pre, [x] + post);
    var s := Run(Flip(0), pre);
    RunFirst(s, data[p], post);
    RunFirst(s, x, post);
    var u, v := Step(s, data[p]), Step(s, x);
    if Checksum(data) == Checksum(data[p := x]) {
      FlipTwice(Run(u, post));
      FlipTwice(Run(v, post));
      RunInjective(u, v, post);
      StepInjective(s, s, data[p], x);
    }
  }

  lemma RunFirst(s: bv32, b: byte, rest: bytes)
    ensures Run(s, [b] + rest) == Run(Step(s, b), rest)
  {
    hide Step;
    assert ([b] + rest)[1..] == rest;
  }

  lemma FlipTwice(a: bv32)
    ensures Flip(Flip(a)) == a
  {
  }
}
