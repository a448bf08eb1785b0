/** Bytes: fixed-width little-endian integers and copying. */
module LittleEndian {
  type Byte = x: int | 0 <= x < 256

  function Pow256(k: nat): (p: int)
    ensures p > 0
  {
    if k == 0 then 1 else 256 * Pow256(k - 1)
  }

  /** The low k bytes of an integer in two's complement, least significant first. */
  function Word(n: int, k: nat): (s: seq<Byte>)
    ensures |s| == k
    decreases k
  {
    if k == 0 then [] else [n % 256] + Word(n / 256, k - 1)
  }

  /** The unsigned value of the bytes. */
  function Value(s: seq<Byte>): (n: int)
    ensures n >= 0
  {
    if s == [] then 0 else s[0] + 256 * Value(s[1..])
  }

  /** The value of the bytes in two's complement. */
  function Signed(s: seq<Byte>): int {
    var n := Value(s);
    if 2 * n < Pow256(|s|) then n else n - Pow256(|s|)
  }

  lemma Shift(q: int, p: int)
    ensures 256 * (q * p) == q * (256 * p)
  {
  }

  /** k bytes hold exactly the value modulo 256 to the k: the difference is a multiple of it. */
  lemma {:induction false} ValueOfWord(n: int, k: nat) returns (q: int)
    ensures n == Value(Word(n, k)) + q * Pow256(k)
    ensures Value(Word(n, k)) < Pow256(k)
    decreases k
  {
    if k == 0 {
      q := n;
    } else {
      q := ValueOfWord(n / 256, k - 1);
      var v, p := Value(Word(n / 256, k - 1)), Pow256(k - 1);
      assert Word(n, k)[1..] == Word(n / 256, k - 1);
      Shift(q, p);
    }
  }

  lemma MultipleInRange(q: int, p: int, v: int)
    requires p > 0 && 0 <= v < p && 0 <= v + q * p < p
    ensures q == 0
  {
    assert q >= 1 ==> q * p >= p;
    assert q <= -1 ==> q * p <= -p;
  }

  lemma UnsignedRoundTrip(n: int, k: nat)
    requires 0 <= n < Pow256(k)
    ensures Value(Word(n, k)) == n
  {
    var q := ValueOfWord(n, k);
    MultipleInRange(q, Pow256(k), Value(Word(n, k)));
  }

  lemma SignedRoundTrip(n: int, k: nat)
    requires -Pow256(k) <= 2 * n < Pow256(k)
    ensures Signed(Word(n, k)) == n
  {
    var q := ValueOfWord(n, k);
    var p := Pow256(k);
    if n >= 0 {
      MultipleInRange(q, p, Value(Word(n, k)));
    } else {
      assert (q + 1) * p == q * p + p;
      MultipleInRange(q + 1, p, Value(Word(n, k)));
    }
  }

  // ---------- Copying ----------

  method CopyBytes(buffer: array<Byte>, at: nat, bytes: seq<Byte>)
    requires at + |bytes| <= buffer.Length
    modifies buffer
    ensures buffer[..] == old(buffer[..at]) + bytes + old(buffer[at + |bytes|..])
  {
    var k := 0;
    while k < |bytes|
      invariant 0 <= k <= |bytes|
      invariant forall i | 0 <= i < buffer.Length ::
                  buffer[i] == if at <= i < at + k then bytes[i - at] else old(buffer[i])
    {
      buffer[at + k] := bytes[k];
      k := k + 1;
    }
  }
}
