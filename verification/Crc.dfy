/** The checksum program's CRC-32: a register shifted to the left over reversed bytes, against the
    table-driven, right-shifting CRC of section 8 of RFC 1952.
 */
module Crc {

  const POLY: bv32 := 0x04C11DB7
  const REFLECTED: bv32 := 0xEDB88320
  const ONES: bv32 := 0xFFFF_FFFF

  // ---------------------------------------------------------------- words

  function Xor(a: bv32, b: bv32): bv32 { a ^ b }
  function Shr(x: bv32): bv32 { x >> 1 }
  function Shl(x: bv32): bv32 { x << 1 }
  predicate Low(x: bv32) { x & 1 == 1 }
  predicate Top(x: bv32) { x & 0x8000_0000 != 0 }

  lemma XorAssoc(a: bv32, b: bv32, c: bv32)
    ensures Xor(a, Xor(b, c)) == Xor(Xor(a, b), c)
  {
  }

  lemma XorComm(a: bv32, b: bv32)
    ensures Xor(a, b) == Xor(b, a)
  {
  }

  lemma XorSelf(a: bv32, p: bv32)
    ensures Xor(Xor(a, p), p) == a
  {
  }

  lemma {:induction false} XorCancel(p: bv32, a: bv32, b: bv32)
    ensures Xor(Xor(p, a), Xor(p, b)) == Xor(a, b)
  {
    hide Xor;
    XorComm(p, a);
    XorAssoc(Xor(a, p), p, b);
    XorSelf(a, p);
  }

  lemma XorZero(a: bv32)
    ensures Xor(a, 0) == a
  {
  }

  lemma ShrXor(x: bv32, y: bv32)
    ensures Shr(Xor(x, y)) == Xor(Shr(x), Shr(y))
  {
  }

  lemma LowXor(x: bv32, y: bv32)
    ensures Low(Xor(x, y)) <==> Low(x) != Low(y)
  {
  }

  // ---------------------------------------------------------------- section 8 of RFC 1952

  /** One division step of the reflected register. */
  function Shift(c: bv32): bv32 {
    if Low(c) then Xor(REFLECTED, Shr(c)) else Shr(c)
  }

  function Shifts(c: bv32, k: nat): bv32 {
    if k == 0 then c else Shift(Shifts(c, k - 1))
  }

  /** crc_table[n] */
  function TableEntry(n: bv32): bv32 {
    Shifts(n, 8)
  }

  /** One round of update_crc: a table look-up. */
  function LookUp(c: bv32, byte: bv8): bv32 {
    Xor(TableEntry(Xor(c, byte as bv32) & 0xFF), c >> 8)
  }

  /** The loop of update_crc, on the complemented register. */
  function Update(c: bv32, message: seq<bv8>): bv32 {
    if message == [] then c else LookUp(Update(c, message[..|message| - 1]), message[|message| - 1])
  }

  /** crc: update_crc from zero. */
  function Rfc1952(message: seq<bv8>): bv32 {
    Xor(Update(Xor(0, ONES), message), ONES)
  }

  /** Published values: the empty message, and "a". */
  lemma {:induction false} CheckValues()
    ensures Rfc1952([]) == 0 && Rfc1952([0x61]) == 0xE8B7_BE43
  {
    var c := Update(ONES, []);
    assert c == ONES;
    assert [0x61 as bv8][..0] == [];
    assert Update(ONES, [0x61]) == LookUp(ONES, 0x61);
    var n: bv32 := 0x9E;
    var x1, x2, x3, x4 := Shift(n), Shift(Shift(n)), Shift(Shift(Shift(n))), Shift(Shift(Shift(Shift(n))));
    var x5 := Shift(x4);
    var x6 := Shift(x5);
    var x7 := Shift(x6);
    var x8 := Shift(x7);
    assert Shifts(n, 8) == x8;
  }

  // ---------------------------------------------------------------- checksum.c

  /** Reverses the bits of a word. */
  function Reverse(x0: bv32): bv32 {
    var x1: bv32 := ((x0 & 0x5555_5555) << 1) | ((x0 >> 1) & 0x5555_5555);
    var x2: bv32 := ((x1 & 0x3333_3333) << 2) | ((x1 >> 2) & 0x3333_3333);
    var x3: bv32 := ((x2 & 0x0F0F_0F0F) << 4) | ((x2 >> 4) & 0x0F0F_0F0F);
    (x3 << 24) | ((x3 & 0xFF00) << 8) | ((x3 >> 8) & 0xFF00) | (x3 >> 24)
  }

  lemma ReverseInvolution(x: bv32)
    ensures Reverse(Reverse(x)) == x
  {
  }

  lemma ReverseShr(x: bv32)
    ensures Reverse(x >> 1) == Reverse(x) << 1
  {
  }

  /** Reversal turns shifts to the right into shifts to the left. */
  lemma {:induction false} ReverseShift(x: bv32)
    ensures Reverse(Shr(x)) == Shl(Reverse(x))
  {
    hide Reverse;
    ReverseShr(x);
  }

  lemma ReverseXor(x: bv32, y: bv32)
    ensures Reverse(Xor(x, y)) == Xor(Reverse(x), Reverse(y))
  {
  }

  lemma ReverseLowBit(x: bv32)
    ensures Low(x) <==> Top(Reverse(x))
  {
  }

  lemma ReverseConstants()
    ensures Reverse(REFLECTED) == POLY && Reverse(ONES) == ONES
  {
  }

  /** One step of the left-shifting register against the top bit of the message byte. */
  function LeftStep(crc: bv32, byte: bv32): bv32 {
    if Top(Xor(crc, byte)) then Xor(Shl(crc), POLY) else Shl(crc)
  }

  /** Its mirror image. */
  function RightStep(c: bv32, b: bv32): bv32 {
    if Low(Xor(c, b)) then Xor(Shr(c), REFLECTED) else Shr(c)
  }

  lemma {:induction false} StepsMirror(c: bv32, b: bv32)
    ensures LeftStep(Reverse(c), Reverse(b)) == Reverse(RightStep(c, b))
  {
    hide Reverse, Xor, Shr, Shl, Low, Top;
    ReverseConstants();
    ReverseXor(c, b);
    ReverseLowBit(Xor(c, b));
    ReverseShift(c);
    ReverseXor(Shr(c), REFLECTED);
  }

  // ---------------------------------------------------------------- eight steps are one table look-up

  lemma {:induction false} RightStepShift(c: bv32, b: bv32)
    ensures Xor(RightStep(c, b), Shr(b)) == Shift(Xor(c, b))
  {
    hide Xor, Shr, Low;
    ShrXor(c, b);
    XorComm(Shr(c), REFLECTED);
    XorAssoc(REFLECTED, Shr(c), Shr(b));
  }

  lemma {:induction false} ShiftXor(x: bv32, y: bv32)
    ensures Shift(Xor(x, y)) == Xor(Shift(x), Shift(y))
  {
    hide Xor, Shr, Low;
    ShrXor(x, y);
    LowXor(x, y);
    XorCancel(REFLECTED, Shr(x), Shr(y));
    XorAssoc(REFLECTED, Shr(x), Shr(y));
    XorAssoc(Shr(x), REFLECTED, Shr(y));
    XorComm(Shr(x), REFLECTED);
  }

  lemma {:induction false} ShiftsXor(x: bv32, y: bv32, k: nat)
    ensures Shifts(Xor(x, y), k) == Xor(Shifts(x, k), Shifts(y, k))
    decreases k
  {
    hide Shift, Xor;
    if k > 0 {
      ShiftsXor(x, y, k - 1);
      ShiftXor(Shifts(x, k - 1), Shifts(y, k - 1));
    }
  }

  /** Register and message byte after k steps. */
  function Register(c: bv32, b: bv32, k: nat): bv32 {
    if k == 0 then c else RightStep(Register(c, b, k - 1), Drop(b, k - 1))
  }

  function Drop(b: bv32, k: nat): bv32 {
    if k == 0 then b else Shr(Drop(b, k - 1))
  }

  lemma {:induction false} RegisterShifts(c: bv32, b: bv32, k: nat)
    ensures Xor(Register(c, b, k), Drop(b, k)) == Shifts(Xor(c, b), k)
    decreases k
  {
    hide Shift, RightStep, Xor, Shr;
    if k > 0 {
      RegisterShifts(c, b, k - 1);
      RightStepShift(Register(c, b, k - 1), Drop(b, k - 1));
    }
  }

  lemma {:induction false} Drops(x: bv32)
    ensures Drop(x, 0) == x && Drop(x, 1) == x >> 1 && Drop(x, 2) == x >> 2 && Drop(x, 3) == x >> 3
    ensures Drop(x, 4) == x >> 4 && Drop(x, 5) == x >> 5 && Drop(x, 6) == x >> 6 && Drop(x, 7) == x >> 7
    ensures Drop(x, 8) == x >> 8
  {
    hide Drop, Shr;
    DropNext(x, 0);
    DropNext(x, 1);
    DropNext(x, 2);
    DropNext(x, 3);
    DropNext(x, 4);
    DropNext(x, 5);
    DropNext(x, 6);
    DropNext(x, 7);
    ShrMore(x);
  }

  lemma DropNext(x: bv32, k: nat)
    ensures Drop(x, 0) == x && Drop(x, k + 1) == Shr(Drop(x, k))
  {
    hide Shr;
  }

  lemma ShrMore(x: bv32)
    ensures Shr(x) == x >> 1 && Shr(x >> 1) == x >> 2 && Shr(x >> 2) == x >> 3 && Shr(x >> 3) == x >> 4
    ensures Shr(x >> 4) == x >> 5 && Shr(x >> 5) == x >> 6 && Shr(x >> 6) == x >> 7 && Shr(x >> 7) == x >> 8
  {
  }

  lemma {:induction false} DropByte(m: bv8)
    ensures Drop(m as bv32, 8) == 0
  {
    hide Drop;
    Drops(m as bv32);
  }

  /** With the low byte clear eight steps only shift. */
  lemma {:induction false} ShiftsHigh(x: bv32)
    requires x & 0xFF == 0
    ensures Shifts(x, 8) == x >> 8
  {
    hide Drop, Shifts;
    Drops(x);
    forall k: nat | k < 8 ensures !Low(Drop(x, k)) {
    }
    ShiftsClear(x, 8);
  }

  lemma {:induction false} ShiftsClear(x: bv32, k: nat)
    requires forall i: nat :: i < k ==> !Low(Drop(x, i))
    ensures Shifts(x, k) == Drop(x, k)
    decreases k
  {
    hide Low, Shr, Xor;
    if k > 0 {
      ShiftsClear(x, k - 1);
      assert !Low(Drop(x, k - 1));
    }
  }

  lemma SplitWord(x: bv32)
    ensures Xor(x & 0xFF, x & 0xFFFF_FF00) == x && (x & 0xFFFF_FF00) & 0xFF == 0
  {
  }

  lemma HighByte(c: bv32, m: bv8)
    ensures (Xor(c, m as bv32) & 0xFFFF_FF00) >> 8 == c >> 8
  {
  }

  /** Eight right steps over a byte are one table look-up. */
  lemma {:induction false} EightSteps(c: bv32, m: bv8)
    ensures Register(c, m as bv32, 8) == LookUp(c, m)
  {
    hide Shifts, Xor, Register, Drop;
    var b := m as bv32;
    var x := Xor(c, b);
    RegisterShifts(c, b, 8);
    DropByte(m);
    XorZero(Register(c, b, 8));
    SplitWord(x);
    ShiftsXor(x & 0xFF, x & 0xFFFF_FF00, 8);
    ShiftsHigh(x & 0xFFFF_FF00);
    HighByte(c, m);
  }

  // ---------------------------------------------------------------- the program

  /** Eight rounds of the inner loop mirror eight steps of the reflected register. */
  method ByteRounds(crc0: bv32, m: bv8, ghost c: bv32) returns (crc: bv32)
    requires crc0 == Reverse(c)
    ensures crc == Reverse(LookUp(c, m))
  {
    hide Reverse, Xor, Shl, Shr, Top, LeftStep, RightStep, LookUp;
    ghost var b := m as bv32;
    crc := crc0;
    var byte := Reverse(m as bv32);
    var j := 0;
    while j <= 7
      invariant 0 <= j <= 8
      invariant crc == Reverse(Register(c, b, j)) && byte == Reverse(Drop(b, j))
    {
      StepsMirror(Register(c, b, j), Drop(b, j));
      ReverseShift(Drop(b, j));
      LeftStepBody(crc, byte);
      if Top(Xor(crc, byte)) {
        crc := Xor(Shl(crc), POLY);
      } else {
        crc := Shl(crc);
      }
      byte := Shl(byte);
      j := j + 1;
    }
    EightSteps(c, m);
  }

  lemma LeftStepBody(crc: bv32, byte: bv32)
    ensures LeftStep(crc, byte) == if Top(Xor(crc, byte)) then Xor(Shl(crc), POLY) else Shl(crc)
  {
    hide Xor, Shl, Top;
  }

  /** crc32a: for every message, the CRC of section 8 of RFC 1952. */
  method Crc32a(message: seq<bv8>) returns (r: bv32)
    ensures r == Rfc1952(message)
  {
    hide Reverse, Xor, LookUp;
    var i := 0;
    var crc := ONES;
    ReverseConstants();
    XorComm(0, ONES);
    XorZero(ONES);
    while i < |message|
      invariant 0 <= i <= |message| && crc == Reverse(Update(ONES, message[..i]))
    {
      crc := ByteRounds(crc, message[i], Update(ONES, message[..i]));
      assert message[..i + 1][..i] == message[..i];
      i := i + 1;
    }
    assert message[..i] == message;
    var c := Xor(crc, ONES);
    ReverseXor(crc, ONES);
    ReverseInvolution(Update(ONES, message));
    r := Reverse(c);
  }
}
