/**
 The shifts, masks and bitwise OR of the fixed-width C++ code, written out on integers, and the
 two-bit fields of a condensed work state.
 */
module Bits {

  const TWO_POW_31 := 0x8000_0000
  const TWO_POW_32 := 0x1_0000_0000

  /** `v << k` on a value wide enough not to lose bits. */
  function ShiftLeft(v: nat, k: nat): nat {
    if k == 0 then v else 2 * ShiftLeft(v, k - 1)
  }

  /** `v >> k` on a signed value: the arithmetic shift, which rounds towards minus infinity. */
  function ShiftRight(v: int, k: nat): int
    decreases k
  {
    if k == 0 then v else ShiftRight(v / 2, k - 1)
  }

  /** `a | b`. */
  function BitOr(a: nat, b: nat): nat
    decreases a + b
  {
    if a == 0 && b == 0 then 0
    else 2 * BitOr(a / 2, b / 2) + (if a % 2 == 1 || b % 2 == 1 then 1 else 0)
  }

  /** `(v >> i) & 1`. */
  predicate BitSet(v: int, i: nat) {
    ShiftRight(v, i) % 2 == 1
  }

  /** `(v >> (2 * i)) & 0x03`. */
  function Field(v: int, i: nat): (field: nat)
    ensures field < 4
  {
    ShiftRight(v, 2 * i) % 4
  }

  /** The signed 32-bit integer with the same bit pattern as the unsigned `u`. */
  function ToInt32(u: nat): int
    requires u < TWO_POW_32
  {
    if u < TWO_POW_31 then u else u - TWO_POW_32
  }

  /** The number whose field `i` is `states[i]`. */
  function PackFields(states: seq<nat>): nat {
    if states == [] then 0 else states[0] + 4 * PackFields(states[1..])
  }

  /** The number whose bit `i` is `bits[i]`. */
  function PackBits(bits: seq<bool>): nat {
    if bits == [] then 0 else (if bits[0] then 1 else 0) + 2 * PackBits(bits[1..])
  }

  ghost predicate AllFields(states: seq<nat>) {
    forall i :: 0 <= i < |states| ==> states[i] < 4
  }

  lemma {:induction false} OrWithZero(a: nat)
    ensures BitOr(a, 0) == a && BitOr(0, a) == a
  {
    if a != 0 {
      OrWithZero(a / 2);
    }
  }

  /** Fields above the highest bit used so far are added without touching what is there. */
  lemma {:induction false} OrAboveIsSum(a: nat, s: nat, k: nat)
    requires a < ShiftLeft(1, k)
    ensures BitOr(a, ShiftLeft(s, k)) == a + ShiftLeft(s, k)
  {
    if k == 0 {
      OrWithZero(s);
    } else {
      OrAboveIsSum(a / 2, s, k - 1);
      if a == 0 {
        OrWithZero(ShiftLeft(s, k));
      }
    }
  }

  lemma {:induction false} FieldStep(v: int, i: nat)
    ensures Field(v, 0) == v % 4
    ensures Field(v, i + 1) == Field(v / 4, i)
  {
    assert ShiftRight(v, 2 * (i + 1)) == ShiftRight(v / 2, 2 * i + 1) == ShiftRight(v / 2 / 2, 2 * i);
    assert v / 2 / 2 == v / 4;
  }

  lemma {:induction false} PackFieldsAppend(states: seq<nat>, s: nat)
    ensures PackFields(states + [s]) == PackFields(states) + ShiftLeft(s, 2 * |states|)
  {
    if states == [] {
      assert states + [s] == [s] && [s][1..] == [];
    } else {
      PackFieldsAppend(states[1..], s);
      assert (states + [s])[1..] == states[1..] + [s];
      assert ShiftLeft(s, 2 * |states|) == 2 * ShiftLeft(s, 2 * |states| - 1);
    }
  }

  lemma {:induction false} PackFieldsBound(states: seq<nat>)
    requires AllFields(states)
    ensures PackFields(states) < ShiftLeft(1, 2 * |states|)
  {
    if states != [] {
      PackFieldsBound(states[1..]);
      assert ShiftLeft(1, 2 * |states|) == 2 * ShiftLeft(1, 2 * |states| - 1);
    }
  }

  lemma {:induction false} FieldOfPack(states: seq<nat>, i: nat)
    requires AllFields(states) && i < |states|
    ensures Field(PackFields(states), i) == states[i]
  {
    var v := PackFields(states);
    assert v / 4 == PackFields(states[1..]) && v % 4 == states[0];
    if i == 0 {
      FieldStep(v, 0);
    } else {
      FieldStep(v, i - 1);
      FieldOfPack(states[1..], i - 1);
    }
  }

  /** Subtracting a multiple of a higher power leaves the lower fields alone, also below zero. */
  lemma {:induction false} FieldBelowBorrow(v: int, i: nat, k: nat)
    requires i < k
    ensures Field(v - ShiftLeft(1, 2 * k), i) == Field(v, i)
    decreases i
  {
    var p := ShiftLeft(1, 2 * k - 2);
    assert ShiftLeft(1, 2 * k) == 2 * ShiftLeft(1, 2 * k - 1) == 4 * p;
    if i == 0 {
      FieldStep(v, 0);
      FieldStep(v - 4 * p, 0);
    } else {
      FieldStep(v, i - 1);
      FieldStep(v - 4 * p, i - 1);
      assert (v - 4 * p) / 4 == v / 4 - p;
      FieldBelowBorrow(v / 4, i - 1, k - 1);
    }
  }

  lemma SixteenFieldsFit(states: seq<nat>)
    requires |states| == 16 && AllFields(states)
    ensures PackFields(states) < TWO_POW_32
  {
    PackFieldsBound(states);
    ThirtyTwoBits();
  }

  lemma ThirtyTwoBits()
    ensures ShiftLeft(1, 32) == TWO_POW_32
  {
    assert ShiftLeft(1, 8) == 256;
    assert ShiftLeft(1, 16) == 256 * 256;
    assert ShiftLeft(1, 24) == 256 * 256 * 256;
  }

  /**
   Sixteen two-bit states survive the trip through an unsigned 32-bit value, its reinterpretation as
   a signed one, and the arithmetic shifts that unpack it.
   */
  lemma CondensedRoundTrip(states: seq<nat>, i: nat)
    requires |states| == 16 && AllFields(states) && i < 16
    ensures PackFields(states) < TWO_POW_32
    ensures Field(ToInt32(PackFields(states)), i) == states[i]
  {
    SixteenFieldsFit(states);
    FieldOfPack(states, i);
    ThirtyTwoBits();
    FieldBelowBorrow(PackFields(states), i, 16);
  }

  // ---------------------------------------------------------------------------------------------
  // The same in plain arithmetic
  // ---------------------------------------------------------------------------------------------

  lemma DivideTwice(v: int, b: nat)
    requires b > 0
    ensures v / 2 / b == v / (2 * b)
  {
    var q, r := v / (2 * b), v % (2 * b);
    assert v == 2 * (b * q) + r;
    assert v / 2 == b * q + r / 2 && 0 <= r / 2 < b;
    Quotient(b, q, r / 2);
  }

  lemma Quotient(b: nat, q: int, r: nat)
    requires r < b
    ensures (b * q + r) / b == q
  {
    var p, m := (b * q + r) / b, (b * q + r) % b;
    assert b * q + r == b * p + m;
    if p > q {
      Multiple(b, p, q);
    } else if q > p {
      Multiple(b, q, p);
    }
  }

  lemma Multiple(b: nat, p: int, q: int)
    requires p > q
    ensures b * p >= b * q + b
  {
    assert b * (p - q - 1) >= 0;
    assert b * (p - q - 1) == b * p - b * q - b;
  }

  lemma {:induction false} ShiftRightDivides(v: int, k: nat)
    ensures ShiftLeft(1, k) > 0
    ensures ShiftRight(v, k) == v / ShiftLeft(1, k)
    decreases k
  {
    if k != 0 {
      ShiftRightDivides(v / 2, k - 1);
      DivideTwice(v, ShiftLeft(1, k - 1));
    }
  }

  /** A bit of a byte is a binary digit. */
  lemma BitIsDigit(v: int, i: nat)
    requires i < 8
    ensures BitSet(v, i) <==> v / [1, 2, 4, 8, 16, 32, 64, 128][i] % 2 == 1
  {
    ShiftRightDivides(v, i);
    PowersOfTwo(i);
  }

  lemma PowersOfTwo(i: nat)
    requires i < 8
    ensures ShiftLeft(1, i) == [1, 2, 4, 8, 16, 32, 64, 128][i]
  {
    if i != 0 {
      PowersOfTwo(i - 1);
    }
  }

  /** Digit `i` of `v` to base four, counted from the lowest. */
  function BaseFour(v: int, i: nat): nat
    requires i < 16
  {
    v / [0x1, 0x4, 0x10, 0x40, 0x100, 0x400, 0x1000, 0x4000, 0x1_0000, 0x4_0000, 0x10_0000, 0x40_0000,
         0x100_0000, 0x400_0000, 0x1000_0000, 0x4000_0000][i] % 4
  }

  lemma PowersOfFour(i: nat)
    requires i < 16
    ensures ShiftLeft(1, 2 * i) ==
            [0x1, 0x4, 0x10, 0x40, 0x100, 0x400, 0x1000, 0x4000, 0x1_0000, 0x4_0000, 0x10_0000, 0x40_0000,
             0x100_0000, 0x400_0000, 0x1000_0000, 0x4000_0000][i]
  {
    if i != 0 {
      PowersOfFour(i - 1);
      assert ShiftLeft(1, 2 * i) == 2 * ShiftLeft(1, 2 * i - 1) == 4 * ShiftLeft(1, 2 * (i - 1));
    }
  }

  /** A field is a digit to base four, also of a negative number. */
  lemma FieldIsDigit(v: int, i: nat)
    requires i < 16
    ensures BaseFour(v, i) == Field(v, i)
  {
    hide ShiftRight, ShiftLeft;
    ShiftRightDivides(v, 2 * i);
    PowersOfFour(i);
  }

  /** Digits determine the number. */
  lemma {:induction false} FieldsDetermine(v: nat, w: nat, n: nat)
    requires v < ShiftLeft(1, 2 * n) && w < ShiftLeft(1, 2 * n)
    requires forall i: nat :: i < n ==> Field(v, i) == Field(w, i)
    ensures v == w
  {
    hide ShiftRight, Field;
    if n != 0 {
      assert ShiftLeft(1, 2 * n) == 2 * ShiftLeft(1, 2 * n - 1) == 4 * ShiftLeft(1, 2 * (n - 1));
      forall i: nat | i < n - 1 ensures Field(v / 4, i) == Field(w / 4, i) {
        FieldStep(v, i);
        FieldStep(w, i);
        assert Field(v, i + 1) == Field(w, i + 1);
      }
      FieldsDetermine(v / 4, w / 4, n - 1);
      FieldStep(v, 0);
      FieldStep(w, 0);
      assert Field(v, 0) == Field(w, 0);
    }
  }

  /** The signed value has the range of 32 bits and differs from the unsigned one by a multiple of 2^32. */
  lemma SignedSameBits(u: nat)
    requires u < 0x1_0000_0000
    ensures -0x8000_0000 <= ToInt32(u) < 0x8000_0000 && (ToInt32(u) - u) % 0x1_0000_0000 == 0
  {
  }

  /** A bit of `a | b` is set if it is set in either. */
  lemma {:induction false} OrIsBitwise(a: nat, b: nat, i: nat)
    ensures BitSet(BitOr(a, b), i) <==> BitSet(a, i) || BitSet(b, i)
    decreases i
  {
    if i == 0 {
      assert BitOr(a, b) % 2 == 1 <==> a % 2 == 1 || b % 2 == 1;
    } else {
      OrHalves(a, b);
      BitAbove(BitOr(a, b), i);
      BitAbove(a, i);
      BitAbove(b, i);
      OrIsBitwise(a / 2, b / 2, i - 1);
    }
  }

  lemma OrHalves(a: nat, b: nat)
    ensures BitOr(a, b) / 2 == BitOr(a / 2, b / 2)
  {
  }

  lemma {:induction false} PackBitsAppend(bits: seq<bool>, b: bool)
    ensures PackBits(bits + [b]) == PackBits(bits) + ShiftLeft(if b then 1 else 0, |bits|)
  {
    if bits == [] {
      assert bits + [b] == [b] && [b][1..] == [];
    } else {
      PackBitsAppend(bits[1..], b);
      assert (bits + [b])[1..] == bits[1..] + [b];
    }
  }

  lemma {:induction false} PackBitsBound(bits: seq<bool>)
    ensures PackBits(bits) < ShiftLeft(1, |bits|)
  {
    if bits != [] {
      PackBitsBound(bits[1..]);
    }
  }

  lemma BitAbove(v: nat, i: nat)
    requires i != 0
    ensures BitSet(v, i) == BitSet(v / 2, i - 1)
  {
  }

  lemma HalfOfPack(bits: seq<bool>)
    requires bits != []
    ensures PackBits(bits) / 2 == PackBits(bits[1..])
    ensures PackBits(bits) % 2 == if bits[0] then 1 else 0
  {
  }

  lemma {:induction false} BitOfPack(bits: seq<bool>, i: nat)
    ensures BitSet(PackBits(bits), i) <==> i < |bits| && bits[i]
  {
    if bits == [] {
      ZeroHasNoBits(i);
    } else if i != 0 {
      BitAbove(PackBits(bits), i);
      HalfOfPack(bits);
      BitOfPack(bits[1..], i - 1);
    }
  }

  lemma {:induction false} ZeroHasNoBits(i: nat)
    ensures !BitSet(0, i)
  {
    if i != 0 {
      ZeroHasNoBits(i - 1);
    }
  }
}
