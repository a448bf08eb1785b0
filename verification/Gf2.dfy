/** Polynomials over the field of two elements. */
module Gf2 {
  type Bits = seq<bool>

  function Zero(n: nat): (r: Bits)
    ensures |r| == n && forall i | 0 <= i < n :: !r[i]
  {
    seq(n, _ => false)
  }

  function Xor(a: Bits, b: Bits): (r: Bits)
    requires |a| == |b|
    ensures |r| == |a| && forall i | 0 <= i < |r| :: r[i] == (a[i] != b[i])
  {
    seq(|a|, i requires 0 <= i < |a| => a[i] != b[i])
  }

  lemma XorAssoc(a: Bits, b: Bits, c: Bits)
    requires |a| == |b| == |c|
    ensures Xor(Xor(a, b), c) == Xor(a, Xor(b, c))
  {
  }

  lemma XorComm(a: Bits, b: Bits)
    requires |a| == |b|
    ensures Xor(a, b) == Xor(b, a)
  {
  }

  // ---------- Products and remainders ----------

  /** The product. A polynomial is the sequence of its coefficients, the highest first. */
  function Times(q: Bits, g: Bits): (r: Bits)
    requires |g| > 0
    ensures |r| == |q| + |g| - 1
  {
    if q == [] then Zero(|g| - 1)
    else Xor((if q[0] then g else Zero(|g|)) + Zero(|q| - 1), [false] + Times(q[1..], g))
  }

  /** m is a multiple of g plus r, and r has a lower degree than g. */
  ghost predicate IsRemainder(m: Bits, g: Bits, r: Bits) {
    |g| == |r| + 1 && |m| >= |r| && exists q: Bits :: Divides(m, g, q, r)
  }

  ghost predicate Divides(m: Bits, g: Bits, q: Bits, r: Bits) {
    |g| == |r| + 1 && |m| == |q| + |r| && m == Xor(Times(q, g), Zero(|q|) + r)
  }

  lemma TimesOne(x: bool, g: Bits)
    requires |g| > 0
    ensures Times([x], g) == if x then g else Zero(|g|)
  {
    assert [x][1..] == [];
  }

  lemma TimesNone(b: Bits, g: Bits)
    requires |g| > 0
    ensures Times(b, g) == Xor(Times([], g) + Zero(|b|), Zero(0) + Times(b, g))
  {
    var none := Times([], g) + Zero(|b|);
    assert none == Zero(|b| + |g| - 1) && Zero(0) + Times(b, g) == Times(b, g);
  }

  lemma TimesNext(q: Bits, g: Bits)
    requires |g| > 0 && q != []
    ensures Times(q, g) == Xor((if q[0] then g else Zero(|g|)) + Zero(|q| - 1), [false] + Times(q[1..], g))
  {
  }

  lemma {:induction false} TimesConcat(a: Bits, b: Bits, g: Bits)
    requires |g| > 0
    ensures Times(a + b, g) == Xor(Times(a, g) + Zero(|b|), Zero(|a|) + Times(b, g))
  {
    hide Times;
    if a == [] {
      assert a + b == b;
      TimesNone(b, g);
    } else {
      var x := if a[0] then g else Zero(|g|);
      var rest := a[1..];
      assert (a + b)[0] == a[0] && (a + b)[1..] == rest + b;
      TimesNext(a + b, g);
      TimesNext(a, g);
      TimesConcat(rest, b, g);
      Spread(x, Times(rest + b, g), Times(rest, g), Times(b, g), |rest|, |b|);
    }
  }

  /** The same sum with one more coefficient in front. */
  lemma Spread(x: Bits, t: Bits, u: Bits, v: Bits, m: nat, n: nat)
    requires |x| > 0 && |u| == m + |x| - 1 && |v| == n + |x| - 1 && |t| == m + n + |x| - 1
    requires t == Xor(u + Zero(n), Zero(m) + v)
    ensures Xor(x + Zero(m + n), [false] + t) == Xor(Xor(x + Zero(m), [false] + u) + Zero(n), Zero(m + 1) + v)
  {
    var l, r := Xor(x + Zero(m + n), [false] + t), Xor(Xor(x + Zero(m), [false] + u) + Zero(n), Zero(m + 1) + v);
    forall i | 0 <= i < |l| ensures l[i] == r[i] {
      if i > 0 { assert t[i - 1] == ((u + Zero(n))[i - 1] != (Zero(m) + v)[i - 1]); }
    }
  }

  /** With a leading coefficient 1, the high part of a product gives back the factor. */
  lemma {:induction false} TimesInjective(a: Bits, b: Bits, g: Bits)
    requires |g| > 0 && g[0] && |a| == |b| && forall i | 0 <= i < |a| :: Times(a, g)[i] == Times(b, g)[i]
    ensures a == b
  {
    if a == [] {
    } else {
      var x, y := (if a[0] then g else Zero(|g|)) + Zero(|a| - 1), (if b[0] then g else Zero(|g|)) + Zero(|b| - 1);
      var s, t := Times(a[1..], g), Times(b[1..], g);
      assert Times(a, g) == Xor(x, [false] + s) && Times(b, g) == Xor(y, [false] + t);
      assert Times(a, g)[0] == a[0] && Times(b, g)[0] == b[0];
      forall i | 0 <= i < |a| - 1 ensures s[i] == t[i] {
        assert Times(a, g)[i + 1] == (x[i + 1] != s[i]) && Times(b, g)[i + 1] == (y[i + 1] != t[i]);
      }
      TimesInjective(a[1..], b[1..], g);
      assert a == [a[0]] + a[1..] && b == [b[0]] + b[1..];
    }
  }

  /** There is at most one remainder. */
  lemma RemainderUnique(m: Bits, g: Bits, r1: Bits, r2: Bits)
    requires IsRemainder(m, g, r1) && IsRemainder(m, g, r2) && g[0]
    ensures r1 == r2
  {
    var q1: Bits :| Divides(m, g, q1, r1);
    var q2: Bits :| Divides(m, g, q2, r2);
    forall i | 0 <= i < |q1| ensures Times(q1, g)[i] == Times(q2, g)[i] {
      assert m[i] == (Times(q1, g)[i] != (Zero(|q1|) + r1)[i]) && m[i] == (Times(q2, g)[i] != (Zero(|q2|) + r2)[i]);
    }
    TimesInjective(q1, q2, g);
    forall i | 0 <= i < |r1| ensures r1[i] == r2[i] {
      var k := |q1| + i;
      assert m[k] == (Times(q1, g)[k] != (Zero(|q1|) + r1)[k]) && m[k] == (Times(q2, g)[k] != (Zero(|q2|) + r2)[k]);
    }
  }
}
