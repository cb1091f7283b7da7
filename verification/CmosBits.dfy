/** Bits of bytes and of numbers. */
module CmosBits {

  /** BIT(k) in a byte. */
  function Bit(k: nat): bv8
    requires k < 8
  {
    match k
    case 0 => 1
    case 1 => 2
    case 2 => 4
    case 3 => 8
    case 4 => 16
    case 5 => 32
    case 6 => 64
    case _ => 128
  }

  lemma OrBit(v: bv8, k: nat, j: nat)
    requires k < 8 && j < 8
    ensures (v | Bit(k)) & Bit(j) != 0 <==> k == j || v & Bit(j) != 0
  {
  }

  lemma NoBits(v: bv8)
    ensures v == 0 <==> forall k :: 0 <= k < 8 ==> v & Bit(k) == 0
  {
    if forall k :: 0 <= k < 8 ==> v & Bit(k) == 0 {
      assert v & Bit(0) == 0 && v & Bit(1) == 0 && v & Bit(2) == 0 && v & Bit(3) == 0;
      assert v & Bit(4) == 0 && v & Bit(5) == 0 && v & Bit(6) == 0 && v & Bit(7) == 0;
    }
  }

  /** Bit number `b` of a memory. */
  predicate BitAt(mem: seq<bv8>, b: nat)
    requires b / 8 < |mem|
  {
    mem[b / 8] & Bit(b % 8) != 0
  }

  /** Setting a bit sets that bit and no other. */
  lemma SetBit(mem: seq<bv8>, b: nat, c: nat)
    requires b / 8 < |mem| && c / 8 < |mem|
    ensures BitAt(mem[b / 8 := mem[b / 8] | Bit(b % 8)], c) <==> c == b || BitAt(mem, c)
  {
    if b / 8 == c / 8 {
      OrBit(mem[b / 8], b % 8, c % 8);
    }
  }

  /** Bit number `i` of an int; the bits of a negative one go on for ever. */
  predicate ValBit(v: int, i: nat)
    decreases i
  {
    if i == 0 then v % 2 == 1 else ValBit(v / 2, i - 1)
  }

  /** Shifting right keeps the sign. */
  function Shift(v: int, i: nat): int
    decreases i
  {
    if i == 0 then v else Shift(v, i - 1) / 2
  }

  lemma {:induction false} ShiftBit(v: int, i: nat, j: nat)
    ensures ValBit(v, i + j) == ValBit(Shift(v, i), j)
    decreases i
  {
    if i > 0 {
      ShiftBit(v, i - 1, j + 1);
    }
  }

  function Pow2(i: nat): (r: nat)
    ensures r > 0
  {
    if i == 0 then 1 else 2 * Pow2(i - 1)
  }

  /** The values of an int of 32 bits. */
  predicate IsInt(v: int) {
    -(Pow2(31) as int) <= v < Pow2(31)
  }

  /** What BIT(i) adds to an int that does not have that bit: bit 31 is the sign, and
      there are no higher bits. */
  function Weight(i: nat): int {
    if i < 31 then Pow2(i) else if i == 31 then -(Pow2(31) as int) else 0
  }

  /** The int made of the `len` bits from `start` on. */
  function Assemble(mem: seq<bv8>, start: nat, len: nat): int
    requires start + len <= 8 * |mem|
  {
    if len == 0 then 0
    else Assemble(mem, start, len - 1) + if BitAt(mem, start + len - 1) then Weight(len - 1) else 0
  }

  lemma AssembleNext(mem: seq<bv8>, start: nat, i: nat, bit: bool)
    requires start + i < 8 * |mem| && bit == BitAt(mem, start + i)
    ensures Assemble(mem, start, i + 1) == Assemble(mem, start, i) + if bit then Weight(i) else 0
  {
  }

  /** The bits from `start` on are the lowest bits of `v`. */
  ghost predicate Holds(mem: seq<bv8>, start: nat, len: nat, v: int)
    requires start + len <= 8 * |mem|
  {
    forall i :: 0 <= i < len ==> BitAt(mem, start + i) == ValBit(v, i)
  }

  lemma HoldsNext(mem: seq<bv8>, start: nat, n: nat, v: int)
    requires start + n < 8 * |mem| && Holds(mem, start, n, v) && BitAt(mem, start + n) == ValBit(v, n)
    ensures Holds(mem, start, n + 1, v)
  {
    forall i | 0 <= i < n + 1 ensures BitAt(mem, start + i) == ValBit(v, i) {
      assert i < n || i == n;
    }
  }

  /** A number is the sum of its low bits and what is left when they are shifted
      out. */
  lemma {:induction false} AssembleLow(mem: seq<bv8>, start: nat, len: nat, v: int)
    requires len <= 31 && start + len <= 8 * |mem| && Holds(mem, start, len, v)
    ensures v == Assemble(mem, start, len) + Shift(v, len) * Pow2(len)
  {
    if len > 0 {
      AssembleLow(mem, start, len - 1, v);
      ShiftBit(v, len - 1, 0);
      MoveBit(v, Assemble(mem, start, len - 1), Shift(v, len - 1), Pow2(len - 1));
    }
  }

  /** Moves the lowest bit of `s` over to `a`. */
  lemma MoveBit(v: int, a: int, s: int, p: nat)
    requires v == a + s * p
    ensures v == (a + if s % 2 == 1 then p else 0) + (s / 2) * (2 * p)
  {
    var h := s / 2;
    if s % 2 == 1 {
      assert s == 2 * h + 1;
      assert (2 * h + 1) * p == h * (2 * p) + p;
    } else {
      assert s == 2 * h;
      assert (2 * h) * p == h * (2 * p);
    }
  }

  lemma {:induction false} ShiftBound(v: int, len: nat, i: nat)
    requires -(Pow2(len) as int) <= v < Pow2(len) && i <= len
    ensures -(Pow2(len - i) as int) <= Shift(v, i) < Pow2(len - i)
    ensures v >= 0 <==> Shift(v, i) >= 0
  {
    if i > 0 {
      ShiftBound(v, len, i - 1);
    }
  }

  lemma {:induction false} AssembleBound(mem: seq<bv8>, start: nat, len: nat)
    requires len <= 31 && start + len <= 8 * |mem|
    ensures 0 <= Assemble(mem, start, len) < Pow2(len)
  {
    if len > 0 {
      AssembleBound(mem, start, len - 1);
    }
  }

  lemma SignBit(v: int)
    requires IsInt(v)
    ensures Shift(v, 31) == (if v < 0 then -1 else 0) && (ValBit(v, 31) <==> v < 0)
  {
    ShiftBound(v, 31, 31);
    ShiftBit(v, 31, 0);
  }

  lemma AssembleWord(mem: seq<bv8>, start: nat, v: int)
    requires start + 32 <= 8 * |mem| && Holds(mem, start, 32, v) && IsInt(v)
    ensures Assemble(mem, start, 32) == v
  {
    SignBit(v);
    AssembleLow(mem, start, 31, v);
    assert BitAt(mem, start + 31) == ValBit(v, 31);
  }

  /** With 32 bits or more, the sign is there too. */
  lemma {:induction false} AssembleAll(mem: seq<bv8>, start: nat, len: nat, v: int)
    requires len >= 32 && start + len <= 8 * |mem| && Holds(mem, start, len, v) && IsInt(v)
    ensures Assemble(mem, start, len) == v
    decreases len
  {
    if len == 32 {
      AssembleWord(mem, start, v);
    } else {
      AssembleAll(mem, start, len - 1, v);
    }
  }

  lemma AssembleShort(mem: seq<bv8>, start: nat, len: nat, v: int)
    requires len <= 31 && start + len <= 8 * |mem| && Holds(mem, start, len, v)
    ensures Assemble(mem, start, len) == v <==> 0 <= v < Pow2(len)
  {
    AssembleBound(mem, start, len);
    AssembleLow(mem, start, len, v);
    if 0 <= v < Pow2(len) {
      ShiftBound(v, len, len);
    }
  }

  lemma {:induction false} Pow2Grows(i: nat, j: nat)
    requires i <= j
    ensures Pow2(i) <= Pow2(j)
  {
    if i < j {
      Pow2Grows(i, j - 1);
    }
  }

  // -------------------------------------------------------------------------
  // Bits as numbers
  // -------------------------------------------------------------------------

  lemma DigitOfOne(v: bv8)
    ensures v & 1 != 0 <==> v as int % 2 == 1
  {
  }

  lemma DigitOfTwo(v: bv8)
    ensures v & 2 != 0 <==> v as int / 2 % 2 == 1
  {
  }

  lemma DigitOfFour(v: bv8)
    ensures v & 4 != 0 <==> v as int / 4 % 2 == 1
  {
  }

  lemma DigitOfEight(v: bv8)
    ensures v & 8 != 0 <==> v as int / 8 % 2 == 1
  {
  }

  lemma LastDigits(v: bv8)
    ensures v & 16 != 0 <==> v as int / 16 % 2 == 1
    ensures v & 32 != 0 <==> v as int / 32 % 2 == 1
    ensures v & 64 != 0 <==> v as int / 64 % 2 == 1
    ensures v & 128 != 0 <==> v as int / 128 % 2 == 1
  {
  }

  lemma SmallPowers()
    ensures Pow2(0) == 1 && Pow2(1) == 2 && Pow2(2) == 4 && Pow2(3) == 8
    ensures Pow2(4) == 16 && Pow2(5) == 32 && Pow2(6) == 64 && Pow2(7) == 128
  {
  }

  /** Bit `k` of a byte counts 2 to the power of `k`. */
  lemma BitIsDigit(v: bv8, k: nat)
    requires k < 8
    ensures v & Bit(k) != 0 <==> v as int / Pow2(k) % 2 == 1
  {
    SmallPowers();
    DigitOfOne(v);
    DigitOfTwo(v);
    DigitOfFour(v);
    DigitOfEight(v);
    LastDigits(v);
  }

  lemma ByteOf(mem: seq<bv8>, i: nat, j: nat)
    requires i < |mem| && j < 8
    ensures (8 * i + j) / 8 == i && (BitAt(mem, 8 * i + j) <==> mem[i] & Bit(j) != 0)
  {
  }

  /** The value of the `len` digits from `start` on, the lowest first; digit 31 is the
      sign, and there are none after it. */
  ghost function DigitSum(mem: seq<bv8>, start: nat, len: nat): int
    requires start + len <= 8 * |mem|
  {
    if len == 0 then 0
    else
      var b, i := start + len - 1, len - 1;
      DigitSum(mem, start, i) +
      if mem[b / 8] as int / Pow2(b % 8) % 2 != 1 || i > 31 then 0
      else if i == 31 then -(Pow2(31) as int)
      else Pow2(i)
  }

  /** What is read is the number that the digits in the memory make. */
  lemma {:induction false} AssembleIsSum(mem: seq<bv8>, start: nat, len: nat)
    requires start + len <= 8 * |mem|
    ensures Assemble(mem, start, len) == DigitSum(mem, start, len)
  {
    if len > 0 {
      AssembleIsSum(mem, start, len - 1);
      BitIsDigit(mem[(start + len - 1) / 8], (start + len - 1) % 8);
    }
  }

  /** An int that can be kept in this number of bits. */
  predicate Keeps(len: nat, v: int) {
    0 <= v < Pow2(len) || 32 <= len <= 64
  }

  /** No bit is used that a long of 64 bits does not have. */
  predicate InLong(len: nat, v: int) {
    len <= 64 || v >= 0
  }

  /** Bits written from an int give it back exactly when they can keep it. */
  lemma AssembleExactly(mem: seq<bv8>, start: nat, len: nat, v: int)
    requires start + len <= 8 * |mem| && Holds(mem, start, len, v) && IsInt(v) && InLong(len, v)
    ensures Assemble(mem, start, len) == v <==> Keeps(len, v)
  {
    if len >= 32 {
      AssembleAll(mem, start, len, v);
      Pow2Grows(31, len);
    } else {
      AssembleShort(mem, start, len, v);
    }
  }
}
