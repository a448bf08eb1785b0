/** Length-prefixed framing of a list of buffers, as log packs use it; `w` is the width of a length, 4 in packs. */
module Framing {
  import opened LittleEndian

  function Body(w: nat, bufs: seq<seq<Byte>>): seq<Byte> {
    if bufs == [] then [] else Word(|bufs[0]|, w) + bufs[0] + Body(w, bufs[1..])
  }

  function Frame(w: nat, bufs: seq<seq<Byte>>): seq<Byte> {
    Word(|bufs|, w) + Body(w, bufs)
  }

  /** The count and the lengths fit a signed integer of that width. */
  ghost predicate Fits(w: nat, bufs: seq<seq<Byte>>) {
    2 * |bufs| < Pow256(w) && forall i | 0 <= i < |bufs| :: 2 * |bufs[i]| < Pow256(w)
  }

  lemma {:induction false} BodyAppend(w: nat, bufs: seq<seq<Byte>>, b: seq<Byte>)
    ensures Body(w, bufs + [b]) == Body(w, bufs) + (Word(|b|, w) + b)
  {
    if bufs == [] {
      assert bufs + [b] == [b] && [b][1..] == [];
      assert Body(w, [b]) == Word(|b|, w) + b + Body(w, []);
    } else {
      assert (bufs + [b])[1..] == bufs[1..] + [b];
      BodyAppend(w, bufs[1..], b);
    }
  }

  /** Reading one length and then that many bytes gives back the first buffer. */
  lemma ReadFirst(w: nat, bufs: seq<seq<Byte>>)
    requires bufs != [] && Fits(w, bufs)
    ensures var s, b := Body(w, bufs), bufs[0];
            && |s| >= w && Value(s[..w]) == |b| && |s| >= w + |b|
            && s[w..w + |b|] == b && s[w + |b|..] == Body(w, bufs[1..])
  {
    var s, b := Body(w, bufs), bufs[0];
    assert s[..w] == Word(|b|, w);
    UnsignedRoundTrip(|b|, w);
  }

  lemma ReadCount(w: nat, bufs: seq<seq<Byte>>)
    requires Fits(w, bufs)
    ensures var s := Frame(w, bufs); |s| >= w && Value(s[..w]) == |bufs| && s[w..] == Body(w, bufs)
  {
    assert Frame(w, bufs)[..w] == Word(|bufs|, w);
    UnsignedRoundTrip(|bufs|, w);
  }

  lemma WriteNext(w: nat, bufs: seq<seq<Byte>>, j: nat, head: seq<Byte>, out: seq<Byte>)
    requires j < |bufs| && out == head + Body(w, bufs[..j])
    ensures out + (Word(|bufs[j]|, w) + bufs[j]) == head + Body(w, bufs[..j + 1])
  {
    hide Word, Body;
    BodyAppend(w, bufs[..j], bufs[j]);
    assert bufs[..j + 1] == bufs[..j] + [bufs[j]];
  }

  method WriteFrame(w: nat, bufs: seq<seq<Byte>>) returns (out: seq<Byte>)
    ensures out == Frame(w, bufs)
  {
    out := Word(|bufs|, w);
    ghost var head := out;
    var j := 0;
    assert out == head + Body(w, bufs[..0]);
    hide Word, Body;
    while j < |bufs|
      invariant 0 <= j <= |bufs| && out == head + Body(w, bufs[..j])
    {
      var b := bufs[j];
      WriteNext(w, bufs, j, head, out);
      out := out + (Word(|b|, w) + b);
      j := j + 1;
    }
    assert bufs[..|bufs|] == bufs;
  }
}
