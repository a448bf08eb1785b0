/** The published check value of CRC-32, from the same definition. */
module Crc32Check {
  import opened Gf2
  import opened Crc32

  // ---------- Machine words ----------

  function XorBv(a: bv32, b: bv32): bv32 {
    a ^ b
  }

  lemma HalfXor(a: bv32, b: bv32)
    ensures Half(XorBv(a, b)) == XorBv(Half(a), Half(b)) && Odd(XorBv(a, b)) == (Odd(a) != Odd(b))
  {
  }

  lemma {:induction false} BvXor(a: bv32, b: bv32, n: nat)
    ensures FromBv(XorBv(a, b), n) == Xor(FromBv(a, n), FromBv(b, n))
    decreases n
  {
    hide Odd, Half, XorBv;
    if n == 0 {
    } else {
      HalfXor(a, b);
      BvXor(Half(a), Half(b), n - 1);
    }
  }

  /** The bits from n on are zero. */
  predicate Fits(v: bv32, n: nat) {
    if n == 0 then v == 0 else Fits(Half(v), n - 1)
  }

  function FourUp(v: bv32): bv32 {
    Half(Half(Half(Half(v))))
  }

  lemma FitsFour(v: bv32, n: nat)
    requires Fits(FourUp(v), n)
    ensures Fits(v, n + 4)
  {
    hide Half;
    var a, b, c := Half(v), Half(Half(v)), Half(Half(Half(v)));
    assert Fits(c, n + 1);
    assert Fits(b, n + 2);
    assert Fits(a, n + 3);
  }

  lemma EightFours(v: bv32)
    ensures FourUp(FourUp(FourUp(FourUp(FourUp(FourUp(FourUp(FourUp(v)))))))) == 0
  {
  }

  lemma FitsAll(v: bv32)
    ensures Fits(v, 32)
  {
    hide FourUp;
    var a := FourUp(v);
    var b := FourUp(a);
    var c := FourUp(b);
    var d := FourUp(c);
    var e := FourUp(d);
    var f := FourUp(e);
    var g := FourUp(f);
    EightFours(v);
    assert Fits(FourUp(g), 0);
    FitsFour(g, 0);
    FitsFour(f, 4);
    FitsFour(e, 8);
    FitsFour(d, 12);
    FitsFour(c, 16);
    FitsFour(b, 20);
    FitsFour(a, 24);
    FitsFour(v, 28);
  }

  lemma HalfZero()
    ensures Half(0) == 0 && !Odd(0)
  {
  }

  lemma {:induction false} HighZero(v: bv32, k: nat, n: nat, i: nat)
    requires Fits(v, k) && k <= i < n
    ensures !FromBv(v, n)[i]
    decreases n
  {
    hide Odd, Half;
    HalfZero();
    if i == 0 {
    } else {
      if k == 0 { assert Fits(Half(v), 0); }
      HighZero(Half(v), if k == 0 then 0 else k - 1, n - 1, i - 1);
    }
  }

  // ---------- One bit, one byte ----------

  function StepBv(v: bv32): bv32 {
    if Odd(v) then XorBv(Half(v), 0xEDB88320) else Half(v)
  }

  lemma {:induction false} HalfIsShr(v: bv32, n: nat)
    requires Fits(v, n)
    ensures FromBv(Half(v), n) == Shr(FromBv(v, n), 1)
  {
    hide Odd, Half;
    forall i | 0 <= i < n ensures FromBv(Half(v), n)[i] == Shr(FromBv(v, n), 1)[i] {
      if i < n - 1 {
        BitOfHalf(v, n, i);
      } else {
        HighZero(Half(v), n - 1, n, i);
      }
    }
  }

  lemma {:induction false} BitOfHalf(v: bv32, n: nat, i: nat)
    requires i + 1 < n
    ensures FromBv(Half(v), n)[i] == FromBv(v, n)[i + 1]
    decreases n
  {
    hide Odd, Half;
    if i == 0 {
      assert FromBv(v, n)[1] == FromBv(Half(v), n - 1)[0];
    } else {
      BitOfHalf(Half(v), n - 1, i - 1);
      assert FromBv(v, n)[i + 1] == FromBv(Half(v), n - 1)[i];
      assert FromBv(Half(v), n)[i] == FromBv(Half(Half(v)), n - 1)[i - 1];
    }
  }

  lemma StepIsShift(v: bv32)
    ensures FromBv(StepBv(v), 32) == Shift(FromBv(0xEDB88320, 32), FromBv(v, 32))
  {
    hide Odd, Half, XorBv, Fits, Shr;
    var w, poly := FromBv(v, 32), FromBv(0xEDB88320, 32);
    FitsAll(v);
    HalfIsShr(v, 32);
    FirstBit(v, 32);
    BvXor(Half(v), 0xEDB88320, 32);
    hide FromBv;
    assert Xor(Shr(w, 1), Zero(32)) == Shr(w, 1);
  }

  lemma FirstBit(v: bv32, n: nat)
    requires n > 0
    ensures FromBv(v, n)[0] == Odd(v)
  {
  }

  function ByteBv(v: bv32): bv32 {
    StepBv(StepBv(StepBv(StepBv(StepBv(StepBv(StepBv(StepBv(v))))))))
  }

  lemma EatBv(v: bv32)
    ensures FromBv(ByteBv(v), 32) == Eat(Ieee(), FromBv(v, 32))
  {
    hide StepBv, FromBv, Shift;
    var poly, w := Ieee().polynomial, FromBv(v, 32);
    var a := StepBv(v);
    var b := StepBv(a);
    var c := StepBv(b);
    var d := StepBv(c);
    var e := StepBv(d);
    var f := StepBv(e);
    var g := StepBv(f);
    StepIsShift(v);
    StepIsShift(a);
    StepIsShift(b);
    StepIsShift(c);
    StepIsShift(d);
    StepIsShift(e);
    StepIsShift(f);
    StepIsShift(g);
    assert Shifts(poly, 0, w) == w;
    assert Shifts(poly, 1, w) == FromBv(a, 32);
    assert Shifts(poly, 2, w) == FromBv(b, 32);
    assert Shifts(poly, 3, w) == FromBv(c, 32);
    assert Shifts(poly, 4, w) == FromBv(d, 32);
    assert Shifts(poly, 5, w) == FromBv(e, 32);
    assert Shifts(poly, 6, w) == FromBv(f, 32);
    assert Shifts(poly, 7, w) == FromBv(g, 32);
  }

  // ---------- The check value ----------

  /** The digits 1 to 9 as bytes. */
  function Digits(): (data: seq<Bits>)
    ensures |data| == 9 && AreBytes(Ieee(), data)
  {
    var data := seq(9, i requires 0 <= i < 9 => FromBv(Digit(i), 32));
    assert AreBytes(Ieee(), data) by {
      forall i | 0 <= i < 9 ensures IsByte(Ieee(), data[i]) { DigitIsByte(i); }
    }
    data
  }

  function Digit(i: nat): bv32
    requires i < 9
  {
    [0x31, 0x32, 0x33, 0x34, 0x35, 0x36, 0x37, 0x38, 0x39][i]
  }

  lemma ByteFits(b: bv32)
    requires b <= 0xFF
    ensures FourUp(FourUp(b)) == 0
  {
  }

  lemma DigitIsByte(i: nat)
    requires i < 9
    ensures IsByte(Ieee(), FromBv(Digit(i), 32))
  {
    var b := Digit(i);
    assert b <= 0xFF;
    ByteFits(b);
    hide Digit, FourUp, FromBv;
    assert Fits(FourUp(FourUp(b)), 0);
    FitsFour(FourUp(b), 0);
    FitsFour(b, 4);
    forall k | 8 <= k < 32 ensures !FromBv(b, 32)[k] { HighZero(b, 8, 32, k); }
  }

  /** The register after each digit. */
  lemma Registers()
    ensures ByteBv(XorBv(0xFFFFFFFF, 0x31)) == 0x7C231048
    ensures ByteBv(XorBv(0x7C231048, 0x32)) == 0xB0ACBB32
    ensures ByteBv(XorBv(0xB0ACBB32, 0x33)) == 0x77B79C2D
    ensures ByteBv(XorBv(0x77B79C2D, 0x34)) == 0x641C1F5C
    ensures ByteBv(XorBv(0x641C1F5C, 0x35)) == 0x340AC5E3
    ensures ByteBv(XorBv(0x340AC5E3, 0x36)) == 0xF68D2C9E
    ensures ByteBv(XorBv(0xF68D2C9E, 0x37)) == 0xAFFC9660
    ensures ByteBv(XorBv(0xAFFC9660, 0x38)) == 0x651F2550
    ensures ByteBv(XorBv(0x651F2550, 0x39)) == 0x340BC6D9
  {
  }

  lemma FeedDigit(c: bv32, b: bv32, c': bv32, data: seq<Bits>, i: nat)
    requires i < |data| && AreBytes(Ieee(), data) && data[i] == FromBv(b, 32) && ByteBv(XorBv(c, b)) == c'
    ensures AreBytes(Ieee(), data[i..]) && AreBytes(Ieee(), data[i + 1..])
    ensures Feed(Ieee(), FromBv(c, 32), data[i..]) == Feed(Ieee(), FromBv(c', 32), data[i + 1..])
  {
    hide ByteBv, XorBv, FromBv, Eat;
    BvXor(c, b, 32);
    EatBv(XorBv(c, b));
    assert data[i..][0] == data[i] && data[i..][1..] == data[i + 1..];
  }

  predicate AllOnes(v: bv32, n: nat) {
    n == 0 || (Odd(v) && AllOnes(Half(v), n - 1))
  }

  lemma OnesFour(v: bv32, n: nat)
    requires Odd(v) && Odd(Half(v)) && Odd(Half(Half(v))) && Odd(Half(Half(Half(v)))) && AllOnes(FourUp(v), n)
    ensures AllOnes(v, n + 4)
  {
    hide Odd, Half;
    var a, b, c := Half(v), Half(Half(v)), Half(Half(Half(v)));
    assert AllOnes(c, n + 1);
    assert AllOnes(b, n + 2);
    assert AllOnes(a, n + 3);
  }

  lemma {:induction false} OnesAreTrue(v: bv32, n: nat)
    requires AllOnes(v, n)
    ensures FromBv(v, n) == Not(Zero(n))
    decreases n
  {
    hide Odd, Half;
    if n == 0 {
    } else {
      OnesAreTrue(Half(v), n - 1);
    }
  }

  lemma FullWord()
    ensures FromBv(0xFFFFFFFF, 32) == Not(Zero(32))
  {
    hide AllOnes;
    assert AllOnes(0, 0) by { NoOnes(); }
    OnesFour(0xF, 0);
    OnesFour(0xFF, 4);
    OnesFour(0xFFF, 8);
    OnesFour(0xFFFF, 12);
    OnesFour(0xFFFFF, 16);
    OnesFour(0xFFFFFF, 20);
    OnesFour(0xFFFFFFF, 24);
    OnesFour(0xFFFFFFFF, 28);
    OnesAreTrue(0xFFFFFFFF, 32);
  }

  lemma NoOnes()
    ensures AllOnes(0, 0)
  {
  }

  lemma Complement(v: bv32)
    ensures FromBv(XorBv(v, 0xFFFFFFFF), 32) == Not(FromBv(v, 32))
  {
    hide XorBv, FromBv;
    BvXor(v, 0xFFFFFFFF, 32);
    FullWord();
    var w := FromBv(v, 32);
    assert Xor(w, Not(Zero(32))) == Not(w);
  }

  lemma FedDigits()
    ensures Feed(Ieee(), FromBv(0xFFFFFFFF, 32), Digits()) == FromBv(0x340BC6D9, 32)
  {
    hide FromBv, ByteBv, XorBv, Feed;
    var data := Digits();
    Registers();
    assert data[0..] == data;
    FeedDigit(0xFFFFFFFF, 0x31, 0x7C231048, data, 0);
    FeedDigit(0x7C231048, 0x32, 0xB0ACBB32, data, 1);
    FeedDigit(0xB0ACBB32, 0x33, 0x77B79C2D, data, 2);
    FeedDigit(0x77B79C2D, 0x34, 0x641C1F5C, data, 3);
    FeedDigit(0x641C1F5C, 0x35, 0x340AC5E3, data, 4);
    FeedDigit(0x340AC5E3, 0x36, 0xF68D2C9E, data, 5);
    FeedDigit(0xF68D2C9E, 0x37, 0xAFFC9660, data, 6);
    FeedDigit(0xAFFC9660, 0x38, 0x651F2550, data, 7);
    FeedDigit(0x651F2550, 0x39, 0x340BC6D9, data, 8);
    assert data[9..] == [];
    FeedEmpty(FromBv(0x340BC6D9, 32));
  }

  lemma FeedEmpty(c: Bits)
    requires IsWord(Ieee(), c)
    ensures Feed(Ieee(), c, []) == c
  {
  }

  lemma LastComplement()
    ensures XorBv(0x340BC6D9, 0xFFFFFFFF) == 0xCBF43926
  {
  }

  /** The checksum of the nine digits is the published one. */
  lemma CheckValue()
    ensures Checksum(Ieee(), Digits(), Zero(32)) == FromBv(0xCBF43926, 32)
  {
    hide FromBv, Feed, XorBv, Digits;
    FedDigits();
    FullWord();
    Complement(0x340BC6D9);
    LastComplement();
  }
}
