/** CRC-32 as binascii computes it, bit by bit. */
module Crc {
  import opened Bytes

  function Shift(c: bv32): bv32 {
    if c & 1 == 1 then (c >> 1) ^ 0xEDB8_8320 else c >> 1
  }

  function Shift8(c: bv32): bv32 {
    Shift(Shift(Shift(Shift(Shift(Shift(Shift(Shift(c))))))))
  }

  function Step(c: bv32, b: byte): bv32 {
    Shift8(c ^ Word(b))
  }

  function Word(b: byte): bv32 {
    (b as bv8) as bv32
  }

  function Flip(c: bv32): bv32 {
    c ^ 0xFFFF_FFFF
  }

  function Fold(c: bv32, data: seq<byte>): bv32
    decreases |data|
  {
    if data == [] then c else Fold(Step(c, data[0]), data[1..])
  }

  /** binascii.crc32 with a starting value. */
  function Crc32(data: seq<byte>, start: bv32): bv32 {
    Flip(Fold(Flip(start), data))
  }

  lemma {:induction false} FoldAppend(c: bv32, a: seq<byte>, b: seq<byte>)
    ensures Fold(c, a + b) == Fold(Fold(c, a), b)
    decreases |a|
  {
    hide Step;
    if a == [] {
      assert a + b == b;
    } else {
      assert (a + b)[0] == a[0] && (a + b)[1..] == a[1..] + b;
      FoldAppend(Step(c, a[0]), a[1..], b);
    }
  }

  lemma FlipTwice(c: bv32)
    ensures Flip(Flip(c)) == c
  {
  }

  /** Continuing from the CRC of a prefix gives the CRC of the whole. */
  lemma CrcIncremental(a: seq<byte>, b: seq<byte>)
    ensures Crc32(b, Crc32(a, 0)) == Crc32(a + b, 0)
  {
    hide Fold, Flip;
    FlipTwice(Fold(Flip(0), a));
    FoldAppend(Flip(0), a, b);
  }

  // --- division of polynomials -------------------------------------------------------------------
  // A polynomial over the two-element field is the list of its coefficients, highest power first.

  /** The powers of the CRC-32 generator below x^32. */
  const POWERS: set<int> := {26, 23, 22, 16, 12, 11, 10, 8, 7, 5, 4, 2, 1, 0}

  /** The generator without its leading x^32. */
  function Generator(): (g: seq<bool>)
    ensures |g| == 32
  {
    seq(32, (k: nat) => 31 - k in POWERS)
  }

  /** The sum of two polynomials with their highest powers aligned. */
  function Add(a: seq<bool>, b: seq<bool>): (r: seq<bool>)
    requires |a| <= |b|
    ensures |r| == |b|
  {
    if a == [] then b else [a[0] != b[0]] + Add(a[1..], b[1..])
  }

  /** Long division by the generator: what is left of the dividend below x^32. */
  function Remainder(bits: seq<bool>): (r: seq<bool>)
    requires |bits| >= 32
    ensures |r| == 32
    decreases |bits|
  {
    if |bits| == 32 then bits
    else Remainder(if bits[0] then Add(Generator(), bits[1..]) else bits[1..])
  }

  function Xor(c: bv32, d: bv32): bv32 {
    c ^ d
  }

  predicate Low(c: bv32) {
    c & 1 == 1
  }

  function Half(c: bv32): bv32 {
    c >> 1
  }

  /** The `n` low bits, lowest first. */
  function Bits(c: bv32, n: nat): (r: seq<bool>)
    ensures |r| == n
  {
    if n == 0 then [] else [Low(c)] + Bits(Half(c), n - 1)
  }

  function MessageBits(data: seq<byte>): seq<bool> {
    if data == [] then [] else Bits(Word(data[0]), 8) + MessageBits(data[1..])
  }

  function Constant(b: bool, n: nat): (r: seq<bool>)
    ensures |r| == n
  {
    if n == 0 then [] else [b] + Constant(b, n - 1)
  }

  lemma {:induction false} AddAssociative(a: seq<bool>, b: seq<bool>, r: seq<bool>)
    requires |a| <= |b| <= |r|
    ensures Add(a, Add(b, r)) == Add(Add(a, b), r)
  {
    if a != [] { AddAssociative(a[1..], b[1..], r[1..]); }
  }

  lemma {:induction false} AddBits(c: bv32, d: bv32, n: nat)
    ensures Bits(Xor(c, d), n) == Add(Bits(c, n), Bits(d, n))
    decreases n
  {
    hide Low, Half, Xor;
    if n > 0 {
      XorBit(c, d);
      AddBits(Half(c), Half(d), n - 1);
      assert Bits(Xor(c, d), n)[1..] == Bits(Half(Xor(c, d)), n - 1);
      assert Bits(c, n)[1..] == Bits(Half(c), n - 1) && Bits(d, n)[1..] == Bits(Half(d), n - 1);
    }
  }

  lemma XorBit(c: bv32, d: bv32)
    ensures Low(Xor(c, d)) == (Low(c) != Low(d))
    ensures Half(Xor(c, d)) == Xor(Half(c), Half(d))
  {
  }

  lemma {:induction false} AddZeros(a: seq<bool>, n: nat)
    requires n <= |a|
    ensures Add(a[..n], Constant(false, n)) == a[..n]
    decreases n
  {
    if n > 0 {
      AddZeros(a[1..], n - 1);
      assert a[..n][1..] == a[1..][..n - 1];
    }
  }

  lemma {:induction false} AddTrailingZeros(a: seq<bool>, n: nat, r: seq<bool>)
    requires |a| + n <= |r|
    ensures Add(a + Constant(false, n), r) == Add(a, r)
    decreases |a| + n
  {
    if a != [] {
      assert (a + Constant(false, n))[1..] == a[1..] + Constant(false, n);
      AddTrailingZeros(a[1..], n, r[1..]);
    } else if n > 0 {
      assert a + Constant(false, n) == [false] + Constant(false, n - 1);
      assert [] + Constant(false, n - 1) == Constant(false, n - 1);
      AddTrailingZeros([], n - 1, r[1..]);
    }
  }

  function Shifted(c: bv32, n: nat): bv32 {
    if n == 0 then c else Shifted(Half(c), n - 1)
  }

  function Half4(c: bv32): bv32 {
    Half(Half(Half(Half(c))))
  }

  lemma ShiftedByFour(c: bv32, n: nat)
    ensures Shifted(c, n + 4) == Shifted(Half4(c), n)
  {
    hide Half, Low;
    assert Shifted(c, n + 4) == Shifted(Half(c), n + 3) == Shifted(Half(Half(c)), n + 2);
    assert Shifted(Half(Half(c)), n + 2) == Shifted(Half(Half(Half(c))), n + 1);
  }

  lemma HalvedOut(c: bv32, b: byte)
    ensures Half4(Half4(Half4(Half4(Half4(Half4(Half4(Half4(c)))))))) == 0
    ensures Half4(Half4(Word(b))) == 0
  {
  }

  /** A word shifted out, a byte shifted out. */
  lemma ShiftedOut(c: bv32, b: byte)
    ensures Shifted(c, 32) == 0 && Shifted(Word(b), 8) == 0
  {
    HalvedOut(c, b);
    hide Half4, Word, Half;
    ShiftedByFour(c, 28);
    ShiftedByFour(Half4(c), 24);
    ShiftedByFour(Half4(Half4(c)), 20);
    ShiftedByFour(Half4(Half4(Half4(c))), 16);
    ShiftedByFour(Half4(Half4(Half4(Half4(c)))), 12);
    ShiftedByFour(Half4(Half4(Half4(Half4(Half4(c))))), 8);
    ShiftedByFour(Half4(Half4(Half4(Half4(Half4(Half4(c)))))), 4);
    ShiftedByFour(Half4(Half4(Half4(Half4(Half4(Half4(Half4(c))))))), 0);
    ShiftedByFour(Word(b), 4);
    ShiftedByFour(Half4(Word(b)), 0);
  }

  lemma {:induction false} BitsOfSmall(c: bv32, n: nat, m: nat)
    requires Shifted(c, n) == 0
    ensures Bits(c, n + m) == Bits(c, n) + Constant(false, m)
  {
    if n > 0 {
      BitsOfSmall(Half(c), n - 1, m);
    } else {
      BitsOfZero(m);
    }
  }

  lemma {:induction false} BitsOfZero(m: nat)
    ensures Bits(0, m) == Constant(false, m)
  {
    if m > 0 { BitsOfZero(m - 1); }
  }

  function Nibble(c: bv32): seq<bool> {
    [Low(c), Low(Half(c)), Low(Half(Half(c))), Low(Half(Half(Half(c))))]
  }

  lemma TwoBits(c: bv32, n: nat)
    ensures Bits(c, n + 2) == [Low(c), Low(Half(c))] + Bits(Half(Half(c)), n)
  {
    hide Low, Half;
    assert Bits(Half(c), n + 1) == [Low(Half(c))] + Bits(Half(Half(c)), n);
  }

  lemma FourBits(c: bv32, n: nat)
    ensures Bits(c, n + 4) == Nibble(c) + Bits(Half4(c), n)
  {
    hide Low, Half, Bits;
    TwoBits(c, n + 2);
    TwoBits(Half(Half(c)), n);
  }

  lemma GeneratorHighNibbles()
    ensures Nibble(0xEDB8) == [false, false, false, true] && Half4(0xEDB8) == 0xEDB
    ensures Nibble(0xEDB) == [true, true, false, true] && Half4(0xEDB) == 0xED
    ensures Nibble(0xED) == [true, false, true, true] && Half4(0xED) == 0xE
    ensures Nibble(0xE) == [false, true, true, true] && Half4(0xE) == 0x0
  {
  }

  lemma GeneratorHigh()
    ensures Bits(0xEDB8, 16) == [false, false, false, true, true, true, false, true, true, false, true, true, false, true, true, true]
  {
    hide Nibble, Half4, Bits, Low, Half;
    GeneratorHighNibbles();
    FourBits(0xE, 0);
    FourBits(0xED, 4);
    FourBits(0xEDB, 8);
    FourBits(0xEDB8, 12);
    assert Bits(0, 0) == [];
  }

  lemma GeneratorBitsNibbles()
    ensures Nibble(0xEDB8_8320) == [false, false, false, false] && Half4(0xEDB8_8320) == 0x0EDB_8832
    ensures Nibble(0x0EDB_8832) == [false, true, false, false] && Half4(0x0EDB_8832) == 0x00ED_B883
    ensures Nibble(0x00ED_B883) == [true, true, false, false] && Half4(0x00ED_B883) == 0x000E_DB88
    ensures Nibble(0x000E_DB88) == [false, false, false, true] && Half4(0x000E_DB88) == 0xEDB8
  {
  }

  lemma GeneratorBits()
    ensures Bits(0xEDB8_8320, 32) == Generator()
  {
    hide Nibble, Half4, Bits, Low, Half, Constant, Generator;
    GeneratorHigh();
    GeneratorBitsNibbles();
    FourBits(0x000E_DB88, 16);
    FourBits(0x00ED_B883, 20);
    FourBits(0x0EDB_8832, 24);
    FourBits(0xEDB8_8320, 28);
    GeneratorList();
  }

  lemma GeneratorList()
    ensures Generator() == [false, false, false, false, false, true, false, false, true, true, false, false, false, false, false, true]
                           + [false, false, false, true, true, true, false, true, true, false, true, true, false, true, true, true]
  {
  }

  lemma OnesHighNibbles()
    ensures Nibble(0xFFFF) == [true, true, true, true] && Half4(0xFFFF) == 0xFFF
    ensures Nibble(0xFFF) == [true, true, true, true] && Half4(0xFFF) == 0xFF
    ensures Nibble(0xFF) == [true, true, true, true] && Half4(0xFF) == 0xF
    ensures Nibble(0xF) == [true, true, true, true] && Half4(0xF) == 0x0
  {
  }

  lemma OnesHigh()
    ensures Bits(0xFFFF, 16) == [true, true, true, true, true, true, true, true, true, true, true, true, true, true, true, true]
  {
    hide Nibble, Half4, Bits, Low, Half;
    OnesHighNibbles();
    FourBits(0xF, 0);
    FourBits(0xFF, 4);
    FourBits(0xFFF, 8);
    FourBits(0xFFFF, 12);
    assert Bits(0, 0) == [];
  }

  lemma OnesBitsNibbles()
    ensures Nibble(0xFFFF_FFFF) == [true, true, true, true] && Half4(0xFFFF_FFFF) == 0x0FFF_FFFF
    ensures Nibble(0x0FFF_FFFF) == [true, true, true, true] && Half4(0x0FFF_FFFF) == 0x00FF_FFFF
    ensures Nibble(0x00FF_FFFF) == [true, true, true, true] && Half4(0x00FF_FFFF) == 0x000F_FFFF
    ensures Nibble(0x000F_FFFF) == [true, true, true, true] && Half4(0x000F_FFFF) == 0xFFFF
  {
  }

  lemma OnesBits()
    ensures Bits(0xFFFF_FFFF, 32) == Constant(true, 32)
  {
    hide Nibble, Half4, Bits, Low, Half, Constant, Generator;
    OnesHigh();
    OnesBitsNibbles();
    FourBits(0x000F_FFFF, 16);
    FourBits(0x00FF_FFFF, 20);
    FourBits(0x0FFF_FFFF, 24);
    FourBits(0xFFFF_FFFF, 28);
    ConstantAt(true, 32);
  }

  lemma {:induction false} ConstantAt(b: bool, n: nat)
    ensures forall i :: 0 <= i < n ==> Constant(b, n)[i] == b
  {
    if n > 0 { ConstantAt(b, n - 1); }
  }

  /** A register `c` over the next coefficients of the dividend. */
  function Over(c: bv32, rest: seq<bool>): (r: seq<bool>)
    requires |rest| >= 32
    ensures |r| == |rest|
  {
    Add(Bits(c, 32), rest)
  }

  lemma HalfBits(c: bv32, rest: seq<bool>)
    requires |rest| >= 32
    ensures Over(c, [false] + rest) == [Low(c)] + Over(Half(c), rest)
  {
    hide Low, Half;
    ShiftedOut(c, 0);
    assert Shifted(Half(c), 31) == 0;
    BitsOfSmall(Half(c), 31, 1);
    assert Constant(false, 1) == [false];
    AddTrailingZeros(Bits(Half(c), 31), 1, rest);
    assert ([false] + rest)[1..] == rest;
    assert Bits(c, 32)[1..] == Bits(Half(c), 31);
  }

  lemma AddOver(c: bv32, d: bv32, rest: seq<bool>)
    requires |rest| >= 32
    ensures Add(Bits(c, 32), Over(d, rest)) == Over(Xor(c, d), rest)
  {
    hide Bits, Add, Xor;
    AddBits(c, d, 32);
    AddAssociative(Bits(c, 32), Bits(d, 32), rest);
  }

  lemma ShiftIs(c: bv32)
    ensures Shift(c) == if Low(c) then Xor(0xEDB8_8320, Half(c)) else Half(c)
  {
  }

  /** One step of the register is one step of the division. */
  lemma ShiftDivides(c: bv32, rest: seq<bool>)
    requires |rest| >= 32
    ensures Remainder(Over(c, [false] + rest)) == Remainder(Over(Shift(c), rest))
  {
    HalfBits(c, rest);
    ShiftIs(c);
    GeneratorBits();
    AddOver(0xEDB8_8320, Half(c), rest);
    hide Over, Low, Half, Xor, Shift, Bits, Add, Generator;
  }

  lemma {:induction false} ByteOver(c: bv32, b: byte, rest: seq<bool>)
    requires |rest| >= 32
    ensures Over(c, Bits(Word(b), 8) + rest) == Over(Xor(c, Word(b)), Constant(false, 8) + rest)
  {
    hide Word, Bits, Add, Xor, Constant;
    ShiftedOut(0, b);
    BitsOfSmall(Word(b), 8, 24);
    var zeros := Constant(false, 8);
    AddTrailingZeros(Bits(Word(b), 8), 24, zeros + rest);
    AddPrefix(Bits(Word(b), 8), zeros, rest);
    AddOver(c, Word(b), zeros + rest);
  }

  lemma {:induction false} AddPrefix(a: seq<bool>, zeros: seq<bool>, rest: seq<bool>)
    requires zeros == Constant(false, |a|)
    ensures Add(a, zeros + rest) == a + rest
  {
    if a != [] {
      assert (zeros + rest)[1..] == zeros[1..] + rest;
      AddPrefix(a[1..], zeros[1..], rest);
      assert [a[0]] + (a[1..] + rest) == a + rest;
    } else {
      assert zeros + rest == rest && a + rest == rest;
    }
  }

  function Shifts(c: bv32, n: nat): bv32
    decreases n
  {
    if n == 0 then c else Shifts(Shift(c), n - 1)
  }

  lemma {:induction false} ShiftsDivide(c: bv32, n: nat, rest: seq<bool>)
    requires |rest| >= 32
    ensures Remainder(Over(c, Constant(false, n) + rest)) == Remainder(Over(Shifts(c, n), rest))
    decreases n
  {
    hide Over, Remainder, Shift;
    if n > 0 {
      assert Constant(false, n) + rest == [false] + (Constant(false, n - 1) + rest);
      ShiftDivides(c, Constant(false, n - 1) + rest);
      ShiftsDivide(Shift(c), n - 1, rest);
    } else {
      assert Constant(false, n) + rest == rest;
    }
  }

  lemma Shift8IsShifts(c: bv32)
    ensures Shift8(c) == Shifts(c, 8)
  {
    hide Shift;
    var c4 := Shift(Shift(Shift(Shift(c))));
    assert Shifts(c, 8) == Shifts(Shift(c), 7) == Shifts(Shift(Shift(c)), 6) == Shifts(Shift(Shift(Shift(c))), 5);
    assert Shifts(c, 8) == Shifts(c4, 4) == Shifts(Shift(c4), 3) == Shifts(Shift(Shift(c4)), 2);
  }

  lemma StepDivides(c: bv32, b: byte, rest: seq<bool>)
    requires |rest| >= 32
    ensures Remainder(Over(c, Bits(Word(b), 8) + rest)) == Remainder(Over(Step(c, b), rest))
  {
    ByteOver(c, b, rest);
    ShiftsDivide(Xor(c, Word(b)), 8, rest);
    Shift8IsShifts(Xor(c, Word(b)));
    hide Over, Remainder, Shift8, Shifts, Bits, Constant, Word;
  }

  lemma OverNothing(c: bv32)
    ensures Remainder(Over(c, Constant(false, 32))) == Bits(c, 32)
  {
    AddZeros(Bits(c, 32), 32);
    assert Bits(c, 32)[..32] == Bits(c, 32);
    hide Bits, Add, Constant;
  }

  /** The register over the rest of a message is the division of both. */
  lemma {:induction false} FoldDivides(c: bv32, data: seq<byte>)
    ensures Bits(Fold(c, data), 32) == Remainder(Over(c, MessageBits(data) + Constant(false, 32)))
    decreases |data|
  {
    hide Over, Remainder, Step, Bits, Constant, Word;
    var zeros := Constant(false, 32);
    if data == [] {
      assert MessageBits(data) + zeros == zeros;
      OverNothing(c);
    } else {
      var rest := MessageBits(data[1..]) + zeros;
      assert MessageBits(data) + zeros == Bits(Word(data[0]), 8) + rest;
      StepDivides(c, data[0], rest);
      FoldDivides(Step(c, data[0]), data[1..]);
    }
  }

  /** Every coefficient of the highest 32 powers turned over. */
  function Complemented(bits: seq<bool>): (r: seq<bool>)
    requires |bits| >= 32
    ensures |r| == |bits|
  {
    Add(Constant(true, 32), bits)
  }

  /**
   * The checksum is the one of the standard: append 32 zeros to the message, complement its first 32 coefficients,
   * divide by the generator, complement the remainder.
   */
  lemma CrcIsRemainder(data: seq<byte>)
    ensures Bits(Crc32(data, 0), 32) == Complemented(Remainder(Complemented(MessageBits(data) + Constant(false, 32))))
  {
    hide Bits, Add, Remainder, Fold, MessageBits, Constant;
    OnesBits();
    FoldDivides(0xFFFF_FFFF, data);
    FlipIs(0);
    var register := Fold(0xFFFF_FFFF, data);
    FlipIs(register);
    AddBits(0xFFFF_FFFF, register, 32);
  }

  lemma FlipIs(c: bv32)
    ensures Flip(c) == Xor(0xFFFF_FFFF, c) && Flip(0) == 0xFFFF_FFFF
  {
  }
}
