/**
  CRC-32 (section 8 of RFC 1952): the bytewise and the slicing-by-8 form both compute the bit-by-bit definition.
  A word is its bits, least significant first. The proofs hold for every byte width and polynomial; `Ieee` is the
  one in use.
 */
module Crc32 {
  import opened Gf2

  // ---------- Words ----------

  function Not(a: Bits): (r: Bits)
    ensures |r| == |a| && forall i | 0 <= i < |r| :: r[i] == !a[i]
  {
    seq(|a|, i requires 0 <= i < |a| => !a[i])
  }

  function Shr(a: Bits, k: nat): (r: Bits)
    ensures |r| == |a| && forall i | 0 <= i < |r| :: r[i] == (i + k < |a| && a[i + k])
  {
    seq(|a|, i requires 0 <= i < |a| => i + k < |a| && a[i + k])
  }

  function Shl(a: Bits, k: nat): (r: Bits)
    ensures |r| == |a| && forall i | 0 <= i < |r| :: r[i] == (i >= k && a[i - k])
  {
    seq(|a|, i requires 0 <= i < |a| => i >= k && a[i - k])
  }

  /** The low k bits, as masking with a byte of ones gives them. */
  function Low(a: Bits, k: nat): (r: Bits)
    ensures |r| == |a| && forall i | 0 <= i < |r| :: r[i] == (i < k && a[i])
  {
    seq(|a|, i requires 0 <= i < |a| => i < k && a[i])
  }

  predicate Odd(v: bv32) {
    v & 1 == 1
  }

  function Half(v: bv32): bv32 {
    v >> 1
  }

  /** The low n bits of a machine word. */
  function FromBv(v: bv32, n: nat): (r: Bits)
    ensures |r| == n
    decreases n
  {
    if n == 0 then [] else [Odd(v)] + FromBv(Half(v), n - 1)
  }

  lemma NotNot(a: Bits)
    ensures Not(Not(a)) == a
  {
  }

  // ---------- Bit by bit ----------

  /** A word has four bytes. */
  datatype Code = Code(byteBits: nat, polynomial: Bits)

  ghost predicate IsCode(p: Code) {
    p.byteBits > 0 && |p.polynomial| == 4 * p.byteBits
  }

  ghost predicate IsWord(p: Code, w: Bits) {
    |w| == |p.polynomial|
  }

  /** A byte widened to a word. */
  ghost predicate IsByte(p: Code, b: Bits) {
    IsWord(p, b) && forall i | p.byteBits <= i < |b| :: !b[i]
  }

  function Ieee(): (p: Code)
    ensures IsCode(p)
  {
    Code(8, FromBv(0xEDB88320, 32))
  }

  /** Shift out one bit, and fold in the polynomial if it was set. */
  function Shift(poly: Bits, c: Bits): (r: Bits)
    requires |c| == |poly| > 0
    ensures |r| == |c|
  {
    Xor(Shr(c, 1), if c[0] then poly else Zero(|poly|))
  }

  function Shifts(poly: Bits, m: nat, c: Bits): (r: Bits)
    requires |c| == |poly| > 0
    ensures |r| == |c|
  {
    if m == 0 then c else Shift(poly, Shifts(poly, m - 1, c))
  }

  /** Shift out one byte. */
  function Eat(p: Code, c: Bits): (r: Bits)
    requires IsCode(p) && IsWord(p, c)
    ensures IsWord(p, r)
  {
    Shifts(p.polynomial, p.byteBits, c)
  }

  ghost predicate AreBytes(p: Code, data: seq<Bits>) {
    forall i | 0 <= i < |data| :: IsByte(p, data[i])
  }

  /** The remainder after feeding the bytes, bit by bit. */
  ghost function Feed(p: Code, c: Bits, data: seq<Bits>): (r: Bits)
    requires IsCode(p) && IsWord(p, c) && AreBytes(p, data)
    ensures IsWord(p, r)
    decreases |data|
  {
    if data == [] then c else Feed(p, Eat(p, Xor(c, data[0])), data[1..])
  }

  /** The checksum of the bytes, continued from the checksum of what came before. */
  ghost function Checksum(p: Code, data: seq<Bits>, previous: Bits): (r: Bits)
    requires IsCode(p) && IsWord(p, previous) && AreBytes(p, data)
    ensures IsWord(p, r)
  {
    Not(Feed(p, Not(previous), data))
  }

  lemma {:induction false} FeedConcat(p: Code, c: Bits, a: seq<Bits>, b: seq<Bits>)
    requires IsCode(p) && IsWord(p, c) && AreBytes(p, a) && AreBytes(p, b) && AreBytes(p, a + b)
    ensures Feed(p, c, a + b) == Feed(p, Feed(p, c, a), b)
    decreases |a|
  {
    if a == [] {
      assert a + b == b;
    } else {
      assert (a + b)[1..] == a[1..] + b;
      FeedConcat(p, Eat(p, Xor(c, a[0])), a[1..], b);
    }
  }

  /** Checking two pieces in turn equals checking them together. */
  lemma ChecksumChains(p: Code, a: seq<Bits>, b: seq<Bits>, previous: Bits)
    requires IsCode(p) && IsWord(p, previous) && AreBytes(p, a) && AreBytes(p, b) && AreBytes(p, a + b)
    ensures Checksum(p, b, Checksum(p, a, previous)) == Checksum(p, a + b, previous)
  {
    FeedConcat(p, Not(previous), a, b);
    NotNot(Feed(p, Not(previous), a));
  }

  // ---------- The checksum is a remainder ----------

  /** The generator, with its leading coefficient. */
  function Generator(p: Code): Bits {
    [true] + p.polynomial
  }

  /** The bits of the bytes in the order they are sent. */
  ghost function Stream(p: Code, data: seq<Bits>): (r: Bits)
    requires IsCode(p) && AreBytes(p, data)
    ensures |r| == p.byteBits * |data|
  {
    if data == [] then [] else data[0][..p.byteBits] + Stream(p, data[1..])
  }

  /** The stream times x to the word's width, plus the start value times x to the stream's length. */
  ghost function Message(p: Code, data: seq<Bits>, start: Bits): (r: Bits)
    requires IsCode(p) && IsWord(p, start) && AreBytes(p, data)
    ensures |r| == p.byteBits * |data| + |p.polynomial|
  {
    var stream := Stream(p, data);
    Xor(stream + Zero(|p.polynomial|), start + Zero(|stream|))
  }

  lemma ShiftAt(poly: Bits, c: Bits, i: nat)
    requires i < |c| == |poly|
    ensures Shift(poly, c)[i] == ((i + 1 < |c| && c[i + 1]) != (c[0] && poly[i]))
  {
  }

  /** Shifting out a bit is multiplying by x and taking away the generator if it then goes in. */
  lemma ShiftDivides(poly: Bits, c: Bits)
    requires |c| == |poly| > 0
    ensures Divides(c + [false], [true] + poly, [c[0]], Shift(poly, c))
  {
    hide Times, Shift;
    TimesOne(c[0], [true] + poly);
    var m, t, s := c + [false], Times([c[0]], [true] + poly), Zero(1) + Shift(poly, c);
    forall i | 0 <= i < |m| ensures m[i] == (t[i] != s[i]) {
      if i > 0 {
        ShiftAt(poly, c, i - 1);
        assert s[i] == Shift(poly, c)[i - 1] && t[i] == (c[0] && poly[i - 1]);
      }
    }
    assert m == Xor(t, s);
  }

  /** Dividing on by one more coefficient. */
  lemma DivideNext(m: Bits, g: Bits, q: Bits, r: Bits, x: bool, r': Bits)
    requires Divides(m, g, q, r) && Divides(r + [false], g, [x], r')
    ensures Divides(m + [false], g, q + [x], r')
  {
    hide Times;
    TimesConcat(q, [x], g);
    var t, u := Times(q, g), Times([x], g);
    var all := Xor(t + Zero(1), Zero(|q|) + u);
    var sum := Xor(all, Zero(|q| + 1) + r');
    forall i | 0 <= i < |m| + 1 ensures (m + [false])[i] == sum[i] {
      if i < |m| { assert m[i] == (t[i] != (Zero(|q|) + r)[i]); }
      if i >= |q| { assert (r + [false])[i - |q|] == (u[i - |q|] != (Zero(1) + r')[i - |q|]); }
    }
  }

  lemma {:induction false} ShiftsDivide(poly: Bits, k: nat, c: Bits) returns (q: Bits)
    requires |c| == |poly| > 0
    ensures Divides(c + Zero(k), [true] + poly, q, Shifts(poly, k, c)) && |q| == k
  {
    hide Shift;
    if k == 0 {
      q := [];
      assert Xor(Times([], [true] + poly), Zero(0) + c) == c && c + Zero(0) == c;
    } else {
      q := ShiftsDivide(poly, k - 1, c);
      var s := Shifts(poly, k - 1, c);
      ShiftDivides(poly, s);
      DivideNext(c + Zero(k - 1), [true] + poly, q, s, s[0], Shift(poly, s));
      q := q + [s[0]];
      assert c + Zero(k - 1) + [false] == c + Zero(k);
    }
  }

  /** Dividing a first part, then the rest together with its remainder. */
  lemma DivideOn(y: Bits, g: Bits, q1: Bits, x: Bits, d: Bits, q2: Bits, r: Bits)
    requires Divides(y, g, q1, x) && |x| == |r| && Divides(Xor(d + Zero(|x|), x + Zero(|d|)), g, q2, r)
    ensures Divides(Xor(Zero(|q1|) + (d + Zero(|x|)), y + Zero(|d|)), g, q1 + q2, r)
  {
    hide Times;
    TimesConcat(q1, q2, g);
    var t, u, k := Times(q1, g), Times(q2, g), |q1|;
    var m, rest := Xor(Zero(k) + (d + Zero(|x|)), y + Zero(|d|)), Xor(d + Zero(|x|), x + Zero(|d|));
    var sum := Xor(Xor(t + Zero(|q2|), Zero(k) + u), Zero(k + |q2|) + r);
    forall i | 0 <= i < |m| ensures m[i] == sum[i] {
      if i < |y| { assert y[i] == (t[i] != (Zero(k) + x)[i]); }
      if i >= k {
        assert rest[i - k] == (u[i - k] != (Zero(|q2|) + r)[i - k]);
        assert rest[i - k] == ((d + Zero(|x|))[i - k] != (x + Zero(|d|))[i - k]);
      }
    }
  }

  /** The first byte goes into the register; what follows stands behind it. */
  lemma MessageNext(p: Code, data: seq<Bits>, c: Bits)
    requires IsCode(p) && IsWord(p, c) && AreBytes(p, data) && data != []
    ensures var d, k, w := Stream(p, data[1..]), p.byteBits, |p.polynomial|;
            Message(p, data, c) == Xor(Zero(k) + (d + Zero(w)), Xor(c, data[0]) + Zero(k) + Zero(|d|))
  {
    hide Stream;
    var d, k, w, b := Stream(p, data[1..]), p.byteBits, |p.polynomial|, data[0];
    StreamNext(p, data);
    var stream := b[..k] + d;
    var m := Xor(stream + Zero(w), c + Zero(|stream|));
    var n := Xor(Zero(k) + (d + Zero(w)), Xor(c, b) + Zero(k) + Zero(|d|));
    forall i | 0 <= i < |m| ensures m[i] == n[i] {
      if i < w { assert Xor(c, b)[i] == (c[i] != b[i]); }
    }
  }

  lemma StreamNext(p: Code, data: seq<Bits>)
    requires IsCode(p) && AreBytes(p, data) && data != []
    ensures Stream(p, data) == data[0][..p.byteBits] + Stream(p, data[1..])
  {
  }

  lemma {:induction false} FeedDivides(p: Code, c: Bits, data: seq<Bits>) returns (q: Bits)
    requires IsCode(p) && IsWord(p, c) && AreBytes(p, data)
    ensures Divides(Message(p, data, c), Generator(p), q, Feed(p, c, data))
    decreases |data|
  {
    hide Divides, Times, Shifts, Stream, Message;
    if data == [] {
      q := [];
      FeedNothing(p, c);
    } else {
      var y := Xor(c, data[0]);
      var q1 := ShiftsDivide(p.polynomial, p.byteBits, y);
      var q2 := FeedDivides(p, Eat(p, y), data[1..]);
      MessageIs(p, data[1..], Eat(p, y));
      DivideOn(y + Zero(p.byteBits), Generator(p), q1, Eat(p, y), Stream(p, data[1..]), q2, Feed(p, c, data));
      MessageNext(p, data, c);
      q := q1 + q2;
    }
  }

  lemma MessageIs(p: Code, data: seq<Bits>, c: Bits)
    requires IsCode(p) && IsWord(p, c) && AreBytes(p, data)
    ensures Message(p, data, c) == Xor(Stream(p, data) + Zero(|c|), c + Zero(|Stream(p, data)|))
  {
  }

  lemma FeedNothing(p: Code, c: Bits)
    requires IsCode(p) && IsWord(p, c)
    ensures Divides(Message(p, [], c), Generator(p), [], c)
  {
    assert Message(p, [], c) == c;
    assert Xor(Times([], Generator(p)), Zero(0) + c) == c;
  }

  /**
    The complement of the checksum is the remainder, modulo the generator, of the message that starts with the
    complement of the checksum before.
   */
  lemma ChecksumIsRemainder(p: Code, data: seq<Bits>, previous: Bits)
    requires IsCode(p) && IsWord(p, previous) && AreBytes(p, data)
    ensures IsRemainder(Message(p, data, Not(previous)), Generator(p), Not(Checksum(p, data, previous)))
  {
    hide Divides, Message, Feed;
    var r := Feed(p, Not(previous), data);
    var q := FeedDivides(p, Not(previous), data);
    NotNot(r);
  }

  /** And so it is the only word that is. */
  lemma ChecksumExactly(p: Code, data: seq<Bits>, previous: Bits, crc: Bits)
    requires IsCode(p) && IsWord(p, previous) && IsWord(p, crc) && AreBytes(p, data)
    ensures crc == Checksum(p, data, previous) <==>
            IsRemainder(Message(p, data, Not(previous)), Generator(p), Not(crc))
  {
    hide IsRemainder, Message, Checksum;
    ChecksumIsRemainder(p, data, previous);
    if IsRemainder(Message(p, data, Not(previous)), Generator(p), Not(crc)) {
      RemainderUnique(Message(p, data, Not(previous)), Generator(p), Not(crc), Not(Checksum(p, data, previous)));
      NotNot(crc);
      NotNot(Checksum(p, data, previous));
    }
  }

  // ---------- Linearity ----------

  lemma ShiftLinear(poly: Bits, c: Bits, a: Bits, b: Bits)
    requires |a| == |b| == |poly| > 0 && c == Xor(a, b)
    ensures Shift(poly, c) == Xor(Shift(poly, a), Shift(poly, b))
  {
  }

  lemma {:induction false} ShiftsLinear(poly: Bits, m: nat, a: Bits, b: Bits)
    requires |a| == |b| == |poly| > 0
    ensures Shifts(poly, m, Xor(a, b)) == Xor(Shifts(poly, m, a), Shifts(poly, m, b))
  {
    hide Shift;
    if m == 0 {
    } else {
      ShiftsLinear(poly, m - 1, a, b);
      ShiftLinear(poly, Shifts(poly, m - 1, Xor(a, b)), Shifts(poly, m - 1, a), Shifts(poly, m - 1, b));
    }
  }

  lemma ShiftZero(poly: Bits, m: nat, c: Bits, d: Bits)
    requires |c| == |poly| > 0 && m < |c| && !c[m] && d == Shr(c, m)
    ensures Shift(poly, d) == Shr(c, m + 1)
  {
    assert !d[0];
  }

  /** Shifting out zero bits only shifts. */
  lemma {:induction false} ShiftsZeros(poly: Bits, m: nat, c: Bits)
    requires |c| == |poly| > 0 && m <= |c| && forall i | 0 <= i < m :: !c[i]
    ensures Shifts(poly, m, c) == Shr(c, m)
  {
    hide Shift;
    if m == 0 {
      assert Shr(c, 0) == c;
    } else {
      ShiftsZeros(poly, m - 1, c);
      ShiftZero(poly, m - 1, c, Shifts(poly, m - 1, c));
    }
  }

  // ---------- The lookup tables ----------

  /** Row 0 by shifting out one byte; each next row from the one before it. */
  function Table(p: Code, row: nat, i: Bits): (r: Bits)
    requires IsCode(p) && IsWord(p, i)
    ensures IsWord(p, r)
  {
    if row == 0 then Eat(p, i)
    else var t := Table(p, row - 1, i); Xor(Shr(t, p.byteBits), Table(p, 0, Low(t, p.byteBits)))
  }

  /** Shifting out a byte is one shift by a byte and one lookup of the low byte. */
  lemma EatByTable(p: Code, c: Bits)
    requires IsCode(p) && IsWord(p, c)
    ensures Eat(p, c) == Xor(Shr(c, p.byteBits), Table(p, 0, Low(c, p.byteBits)))
  {
    hide Shifts, Xor, Shr, Shl, Low;
    var k := p.byteBits;
    var low, high := Low(c, k), Shl(Shr(c, k), k);
    Halves(c, k);
    ShiftsLinear(p.polynomial, k, high, low);
    ShiftsZeros(p.polynomial, k, high);
  }

  /** A word is its low bits and the rest. */
  lemma Halves(c: Bits, k: nat)
    ensures c == Xor(Shl(Shr(c, k), k), Low(c, k)) && Shr(Shl(Shr(c, k), k), k) == Shr(c, k)
  {
  }

  // ---------- Several bytes ----------

  lemma EatLinear(p: Code, a: Bits, b: Bits)
    requires IsCode(p) && IsWord(p, a) && IsWord(p, b)
    ensures Eat(p, Xor(a, b)) == Xor(Eat(p, a), Eat(p, b))
  {
    ShiftsLinear(p.polynomial, p.byteBits, a, b);
  }

  /** m bytes of shifts. */
  function Advance(p: Code, m: nat, c: Bits): (r: Bits)
    requires IsCode(p) && IsWord(p, c)
    ensures IsWord(p, r)
  {
    if m == 0 then c else Eat(p, Advance(p, m - 1, c))
  }

  lemma {:induction false} AdvanceLinear(p: Code, m: nat, a: Bits, b: Bits)
    requires IsCode(p) && IsWord(p, a) && IsWord(p, b)
    ensures Advance(p, m, Xor(a, b)) == Xor(Advance(p, m, a), Advance(p, m, b))
  {
    hide Eat, Xor;
    if m == 0 {
    } else {
      AdvanceLinear(p, m - 1, a, b);
      EatLinear(p, Advance(p, m - 1, a), Advance(p, m - 1, b));
    }
  }

  lemma {:induction false} AdvanceSplit(p: Code, m: nat, n: nat, c: Bits)
    requires IsCode(p) && IsWord(p, c)
    ensures Advance(p, m, Advance(p, n, c)) == Advance(p, m + n, c)
  {
    hide Eat;
    if m == 0 {
    } else {
      AdvanceSplit(p, m - 1, n, c);
    }
  }

  /** Row r of the table holds the effect of a byte followed by r more. */
  lemma {:induction false} TableIsAdvance(p: Code, row: nat, i: Bits)
    requires IsCode(p) && IsWord(p, i)
    ensures Table(p, row, i) == Advance(p, row + 1, i)
  {
    hide Eat, Xor, Shr, Low;
    if row == 0 {
      assert Advance(p, 0, i) == i;
    } else {
      TableIsAdvance(p, row - 1, i);
      EatByTable(p, Table(p, row - 1, i));
    }
  }

  /** One table step feeds one byte. */
  lemma ByteStep(p: Code, c: Bits, b: Bits)
    requires IsCode(p) && IsWord(p, c) && IsByte(p, b)
    ensures Xor(Shr(c, p.byteBits), Table(p, 0, Xor(Low(c, p.byteBits), b))) == Eat(p, Xor(c, b))
  {
    hide Table, Eat;
    EatByTable(p, Xor(c, b));
    assert Shr(Xor(c, b), p.byteBits) == Shr(c, p.byteBits);
    assert Low(Xor(c, b), p.byteBits) == Xor(Low(c, p.byteBits), b);
  }

  // ---------- Four bytes at a time ----------

  /** One byte up. */
  function Up(p: Code, b: Bits): (r: Bits)
    ensures |r| == |b|
  {
    Shl(b, p.byteBits)
  }

  /** The word of four bytes, the first one lowest. */
  function Load(p: Code, b0: Bits, b1: Bits, b2: Bits, b3: Bits): (r: Bits)
    requires |b0| == |b1| == |b2| == |b3|
    ensures |r| == |b0|
  {
    Xor(Xor(b0, Up(p, b1)), Xor(Up(p, Up(p, b2)), Up(p, Up(p, Up(p, b3)))))
  }

  /** The byte of a word above `skip` bits. */
  function ByteAt(p: Code, w: Bits, skip: nat): (r: Bits)
    ensures |r| == |w|
  {
    Low(Shr(w, skip), p.byteBits)
  }

  /** Shifting a byte out undoes moving up by a byte, if nothing is lost at the top. */
  lemma EatUp(p: Code, x: Bits)
    requires IsCode(p) && IsWord(p, x) && forall i | |x| - p.byteBits <= i < |x| :: !x[i]
    ensures Eat(p, Up(p, x)) == x
  {
    hide Shifts;
    ShiftsZeros(p.polynomial, p.byteBits, Up(p, x));
    assert Shr(Up(p, x), p.byteBits) == x;
  }

  /** A byte moved up is a byte again after as many steps. */
  lemma EatUps(p: Code, b: Bits)
    requires IsCode(p) && IsByte(p, b)
    ensures Eat(p, Up(p, b)) == b && Eat(p, Up(p, Up(p, b))) == Up(p, b)
    ensures Eat(p, Up(p, Up(p, Up(p, b)))) == Up(p, Up(p, b))
  {
    hide Eat;
    EatUp(p, b);
    EatUp(p, Up(p, b));
    EatUp(p, Up(p, Up(p, b)));
  }

  /** A byte fed after a step can be fed before it, one byte up. */
  lemma Absorb(p: Code, x: Bits, u: Bits)
    requires IsCode(p) && IsWord(p, x) && IsWord(p, u) && Eat(p, Up(p, u)) == u
    ensures Xor(Eat(p, x), u) == Eat(p, Xor(x, Up(p, u)))
  {
    hide Eat, Up, Xor;
    EatLinear(p, x, Up(p, u));
  }

  lemma FourSteps(p: Code, c: Bits, b0: Bits, b1: Bits, b2: Bits, b3: Bits)
    requires IsCode(p) && IsWord(p, c) && IsByte(p, b0) && IsByte(p, b1) && IsByte(p, b2) && IsByte(p, b3)
    ensures Eat(p, Xor(Eat(p, Xor(Eat(p, Xor(Eat(p, Xor(c, b0)), b1)), b2)), b3)) ==
            Eat(p, Eat(p, Eat(p, Eat(p, Xor(c, Load(p, b0, b1, b2, b3))))))
  {
    hide Eat, Up, Xor;
    var x0 := Xor(c, b0);
    EatUps(p, b1);
    Absorb(p, x0, b1);
    var x1 := Xor(x0, Up(p, b1));
    EatUps(p, b2);
    Absorb(p, Eat(p, x1), b2);
    Absorb(p, x1, Up(p, b2));
    var x2 := Xor(x1, Up(p, Up(p, b2)));
    EatUps(p, b3);
    Absorb(p, Eat(p, Eat(p, x2)), b3);
    Absorb(p, Eat(p, x2), Up(p, b3));
    Absorb(p, x2, Up(p, Up(p, b3)));
    XorAssoc(x1, Up(p, Up(p, b2)), Up(p, Up(p, Up(p, b3))));
    XorAssoc(c, b0, Up(p, b1));
    XorAssoc(c, Xor(b0, Up(p, b1)), Xor(Up(p, Up(p, b2)), Up(p, Up(p, Up(p, b3)))));
  }

  lemma FeedFour(p: Code, c: Bits, d: seq<Bits>)
    requires IsCode(p) && IsWord(p, c) && AreBytes(p, d) && |d| == 4
    ensures Feed(p, c, d) == Advance(p, 4, Xor(c, Load(p, d[0], d[1], d[2], d[3])))
  {
    hide Eat, Xor, Load;
    FourSteps(p, c, d[0], d[1], d[2], d[3]);
    var c1 := Eat(p, Xor(c, d[0]));
    var c2 := Eat(p, Xor(c1, d[1]));
    var c3 := Eat(p, Xor(c2, d[2]));
    var c4 := Eat(p, Xor(c3, d[3]));
    var d1, d2, d3 := d[1..], d[2..], d[3..];
    assert d1[1..] == d2 && d2[1..] == d3 && d3[1..] == [];
    assert Feed(p, c4, []) == c4;
    assert Feed(p, c3, d3) == c4;
    assert Feed(p, c2, d2) == c4;
    assert Feed(p, c1, d1) == c4;
    Advances(p, Xor(c, Load(p, d[0], d[1], d[2], d[3])));
  }

  lemma Advances(p: Code, x: Bits)
    requires IsCode(p) && IsWord(p, x)
    ensures Advance(p, 1, x) == Eat(p, x) && Advance(p, 4, x) == Eat(p, Eat(p, Eat(p, Eat(p, x))))
  {
    hide Eat;
    assert Advance(p, 0, x) == x;
    assert Advance(p, 2, x) == Eat(p, Advance(p, 1, x));
    assert Advance(p, 3, x) == Eat(p, Advance(p, 2, x));
  }

  // ---------- Eight bytes at a time ----------

  lemma ByteAtIsByte(p: Code, w: Bits, skip: nat)
    requires IsWord(p, w)
    ensures IsByte(p, ByteAt(p, w, skip))
  {
  }

  lemma LoadAt(p: Code, b0: Bits, b1: Bits, b2: Bits, b3: Bits, i: nat)
    requires IsByte(p, b0) && IsByte(p, b1) && IsByte(p, b2) && IsByte(p, b3) && IsCode(p) && i < |b0|
    ensures var k := p.byteBits;
            Load(p, b0, b1, b2, b3)[i] ==
            if i < k then b0[i] else if i < k + k then b1[i - k] else if i < k + k + k then b2[i - k - k]
            else b3[i - k - k - k]
  {
    var u1, u2, u3 := Up(p, b1), Up(p, Up(p, b2)), Up(p, Up(p, Up(p, b3)));
    assert Load(p, b0, b1, b2, b3)[i] == (Xor(b0, u1)[i] != Xor(u2, u3)[i]);
  }

  /** A word is the word of its four bytes. */
  lemma LoadBytes(p: Code, w: Bits)
    requires IsCode(p) && IsWord(p, w)
    ensures var k := p.byteBits;
            w == Load(p, ByteAt(p, w, 0), ByteAt(p, w, k), ByteAt(p, w, k + k), ByteAt(p, w, k + k + k))
  {
    var k := p.byteBits;
    hide Load, Up, Xor;
    var b0, b1, b2, b3 := ByteAt(p, w, 0), ByteAt(p, w, k), ByteAt(p, w, k + k), ByteAt(p, w, k + k + k);
    forall i | 0 <= i < |w| ensures w[i] == Load(p, b0, b1, b2, b3)[i] {
      LoadAt(p, b0, b1, b2, b3, i);
    }
  }

  /** A byte that starts one byte up needs one step more. */
  lemma AdvanceUp(p: Code, m: nat, x: Bits)
    requires IsCode(p) && IsWord(p, x) && Eat(p, Up(p, x)) == x
    ensures Advance(p, m + 1, Up(p, x)) == Advance(p, m, x)
  {
    hide Eat, Up;
    AdvanceSplit(p, m, 1, Up(p, x));
    Advances(p, Up(p, x));
  }

  lemma AdvanceLoad(p: Code, m: nat, b0: Bits, b1: Bits, b2: Bits, b3: Bits)
    requires IsCode(p) && IsByte(p, b0) && IsByte(p, b1) && IsByte(p, b2) && IsByte(p, b3) && m >= 3
    ensures Advance(p, m, Load(p, b0, b1, b2, b3)) ==
            Xor(Xor(Advance(p, m, b0), Advance(p, m - 1, b1)), Xor(Advance(p, m - 2, b2), Advance(p, m - 3, b3)))
  {
    hide Eat, Up, Xor, Advance;
    AdvanceLinear(p, m, Xor(b0, Up(p, b1)), Xor(Up(p, Up(p, b2)), Up(p, Up(p, Up(p, b3)))));
    AdvanceLinear(p, m, b0, Up(p, b1));
    AdvanceLinear(p, m, Up(p, Up(p, b2)), Up(p, Up(p, Up(p, b3))));
    EatUps(p, b1);
    AdvanceUp(p, m - 1, b1);
    EatUps(p, b2);
    AdvanceUp(p, m - 1, Up(p, b2));
    AdvanceUp(p, m - 2, b2);
    EatUps(p, b3);
    AdvanceUp(p, m - 1, Up(p, Up(p, b3)));
    AdvanceUp(p, m - 2, Up(p, b3));
    AdvanceUp(p, m - 3, b3);
  }

  /** Four lookups of the bytes of a word, in rows from `row` down. */
  function Lookups(p: Code, row: nat, w: Bits): (r: Bits)
    requires IsCode(p) && IsWord(p, w) && row >= 3
    ensures IsWord(p, r)
  {
    var k := p.byteBits;
    Xor(Xor(Xor(Table(p, row, ByteAt(p, w, 0)), Table(p, row - 1, ByteAt(p, w, k))),
            Table(p, row - 2, ByteAt(p, w, k + k))),
        Table(p, row - 3, ByteAt(p, w, k + k + k)))
  }

  lemma LookupsAdvance(p: Code, row: nat, w: Bits)
    requires IsCode(p) && IsWord(p, w) && row >= 3
    ensures Lookups(p, row, w) == Advance(p, row + 1, w)
  {
    hide Eat, Xor, Advance, Table, ByteAt, Load;
    var k := p.byteBits;
    hide Load, Up, Xor;
    var b0, b1, b2, b3 := ByteAt(p, w, 0), ByteAt(p, w, k), ByteAt(p, w, k + k), ByteAt(p, w, k + k + k);
    ByteAtIsByte(p, w, 0);
    ByteAtIsByte(p, w, k);
    ByteAtIsByte(p, w, k + k);
    ByteAtIsByte(p, w, k + k + k);
    LoadBytes(p, w);
    AdvanceLoad(p, row + 1, b0, b1, b2, b3);
    TableIsAdvance(p, row, b0);
    TableIsAdvance(p, row - 1, b1);
    TableIsAdvance(p, row - 2, b2);
    TableIsAdvance(p, row - 3, b3);
    XorAssoc(Xor(Table(p, row, b0), Table(p, row - 1, b1)), Table(p, row - 2, b2), Table(p, row - 3, b3));
  }

  /** Eight lookups feed eight bytes: rows 7 to 4 for the first word xor the remainder, 3 to 0 for the second. */
  lemma SliceStep(p: Code, c: Bits, d: seq<Bits>)
    requires IsCode(p) && IsWord(p, c) && AreBytes(p, d) && |d| == 8
    ensures Feed(p, c, d) == Xor(Lookups(p, 7, Xor(Load(p, d[0], d[1], d[2], d[3]), c)),
                                 Lookups(p, 3, Load(p, d[4], d[5], d[6], d[7])))
  {
    hide Eat, Xor, Advance, Table, ByteAt, Load, Lookups, Feed;
    var first, second := d[..4], d[4..];
    assert d == first + second;
    var w1, w2 := Load(p, d[0], d[1], d[2], d[3]), Load(p, d[4], d[5], d[6], d[7]);
    FeedConcat(p, c, first, second);
    FeedFour(p, c, first);
    var one := Xor(c, w1);
    XorComm(c, w1);
    FeedFour(p, Advance(p, 4, one), second);
    AdvanceLinear(p, 4, Advance(p, 4, one), w2);
    AdvanceSplit(p, 4, 4, one);
    LookupsAdvance(p, 7, one);
    LookupsAdvance(p, 3, w2);
  }

  // ---------- The two loops ----------

  lemma FeedNext(p: Code, c: Bits, data: seq<Bits>, i: nat, n: nat)
    requires IsCode(p) && IsWord(p, c) && AreBytes(p, data) && i + n <= |data|
    ensures AreBytes(p, data[i..i + n]) && AreBytes(p, data[i..]) && AreBytes(p, data[i + n..])
    ensures Feed(p, c, data[i..]) == Feed(p, Feed(p, c, data[i..i + n]), data[i + n..])
  {
    hide Feed;
    assert data[i..] == data[i..i + n] + data[i + n..];
    FeedConcat(p, c, data[i..i + n], data[i + n..]);
  }

  /** One lookup per byte. */
  method TakeBytes(p: Code, start: Bits, data: seq<Bits>, from: nat) returns (crc: Bits)
    requires IsCode(p) && IsWord(p, start) && AreBytes(p, data) && from <= |data|
    ensures AreBytes(p, data[from..]) && IsWord(p, crc) && crc == Feed(p, start, data[from..])
  {
    hide Eat, Table, Xor, Low, Shr;
    crc := start;
    var i := from;
    while i < |data|
      invariant from <= i <= |data| && IsWord(p, crc) && AreBytes(p, data[i..]) && AreBytes(p, data[from..])
      invariant Feed(p, crc, data[i..]) == Feed(p, start, data[from..])
    {
      ByteStep(p, crc, data[i]);
      assert data[i..][0] == data[i] && data[i..][1..] == data[i + 1..];
      crc := Xor(Shr(crc, p.byteBits), Table(p, 0, Xor(Low(crc, p.byteBits), data[i])));
      i := i + 1;
    }
    assert data[|data|..] == [];
  }

  method Bytewise(p: Code, data: seq<Bits>, previous: Bits) returns (crc: Bits)
    requires IsCode(p) && IsWord(p, previous) && AreBytes(p, data)
    ensures IsWord(p, crc) && crc == Checksum(p, data, previous)
    ensures IsRemainder(Message(p, data, Not(previous)), Generator(p), Not(crc))
  {
    assert data[0..] == data;
    crc := TakeBytes(p, Not(previous), data, 0);
    crc := Not(crc);
    ChecksumIsRemainder(p, data, previous);
  }

  /** Eight lookups per eight bytes, then one per byte that is left. */
  method SlicingBy8(p: Code, data: seq<Bits>, previous: Bits) returns (crc: Bits)
    requires IsCode(p) && IsWord(p, previous) && AreBytes(p, data)
    ensures IsWord(p, crc) && crc == Checksum(p, data, previous)
    ensures IsRemainder(Message(p, data, Not(previous)), Generator(p), Not(crc))
  {
    hide Eat, Table, Xor, Load, Lookups, Feed, Not, IsRemainder, Message;
    ChecksumIsRemainder(p, data, previous);
    crc := Not(previous);
    var i := 0;
    assert data[0..] == data;
    while |data| - i >= 8
      invariant 0 <= i <= |data| && IsWord(p, crc) && AreBytes(p, data[i..])
      invariant Feed(p, crc, data[i..]) == Feed(p, Not(previous), data)
    {
      var d := data[i..i + 8];
      FeedNext(p, crc, data, i, 8);
      SliceStep(p, crc, d);
      var one := Xor(Load(p, d[0], d[1], d[2], d[3]), crc);
      var two := Load(p, d[4], d[5], d[6], d[7]);
      crc := Xor(Lookups(p, 7, one), Lookups(p, 3, two));
      i := i + 8;
    }
    crc := TakeBytes(p, crc, data, i);
    crc := Not(crc);
  }
}
