/**
  Snapshot chunks: the encoding of cache items and how far one chunk reaches.
  `w` is the width of the size and time fields, 8 in the documented format.
 */
module SnapshotChunks {
  import opened Wrappers
  import opened LittleEndian
  import opened Lru

  // ---------- Encoding ----------

  function EncodeItem(w: nat, e: Entry): (s: seq<Byte>)
    ensures |s| == ItemSize(w, e)
  {
    Word(|e.key|, w) + e.key + Word(|e.item.data|, w) + e.item.data + Word(e.item.expiresAt, w)
  }

  function ItemSize(w: nat, e: Entry): nat {
    w + |e.key| + w + |e.item.data| + w
  }

  function EncodeAll(w: nat, rec: seq<Entry>): seq<Byte> {
    if rec == [] then [] else EncodeItem(w, rec[0]) + EncodeAll(w, rec[1..])
  }

  lemma {:induction false} EncodeConcat(w: nat, a: seq<Entry>, b: seq<Entry>)
    ensures EncodeAll(w, a + b) == EncodeAll(w, a) + EncodeAll(w, b)
  {
    if a == [] {
      assert a + b == b;
    } else {
      assert (a + b)[1..] == a[1..] + b;
      EncodeConcat(w, a[1..], b);
    }
  }

  lemma EncodeNext(w: nat, rec: seq<Entry>, i: nat, j: nat)
    requires i <= j < |rec|
    ensures EncodeAll(w, rec[i..j + 1]) == EncodeAll(w, rec[i..j]) + EncodeItem(w, rec[j])
  {
    assert rec[i..j + 1] == rec[i..j] + [rec[j]];
    EncodeConcat(w, rec[i..j], [rec[j]]);
    assert EncodeAll(w, [rec[j]]) == EncodeItem(w, rec[j]) + EncodeAll(w, []);
  }

  // ---------- Decoding ----------

  /** The sizes and times the fields can hold. */
  predicate Encodable(w: nat, e: Entry) {
    && |e.key| < Pow256(w) && |e.item.data| < Pow256(w)
    && -Pow256(w) <= 2 * e.item.expiresAt < Pow256(w)
  }

  function DecodeBytes(w: nat, s: seq<Byte>): Option<(seq<Byte>, seq<Byte>)> {
    if |s| < w then None
    else
      var n := Value(s[..w]);
      if |s| < w + n then None else Some((s[w..w + n], s[w + n..]))
  }

  function DecodeItem(w: nat, s: seq<Byte>): (r: Option<(Entry, seq<Byte>)>)
    ensures r.Some? ==> |r.value.1| + 3 * w <= |s|
  {
    match DecodeBytes(w, s)
    case None => None
    case Some((key, s1)) =>
      match DecodeBytes(w, s1)
      case None => None
      case Some((data, s2)) =>
        if |s2| < w then None else Some((Entry(key, Item(data, Signed(s2[..w]))), s2[w..]))
  }

  function DecodeAll(w: nat, s: seq<Byte>): Option<seq<Entry>>
    requires w > 0
    decreases |s|
  {
    if s == [] then Some([])
    else
      match DecodeItem(w, s)
      case None => None
      case Some((e, rest)) =>
        match DecodeAll(w, rest)
        case None => None
        case Some(es) => Some([e] + es)
  }

  lemma BytesRoundTrip(w: nat, b: seq<Byte>, rest: seq<Byte>)
    requires |b| < Pow256(w)
    ensures DecodeBytes(w, Word(|b|, w) + b + rest) == Some((b, rest))
  {
    var s := Word(|b|, w) + b + rest;
    assert s[..w] == Word(|b|, w);
    UnsignedRoundTrip(|b|, w);
    assert s[w..w + |b|] == b && s[w + |b|..] == rest;
  }

  lemma ItemRoundTrip(w: nat, e: Entry, rest: seq<Byte>)
    requires Encodable(w, e)
    ensures DecodeItem(w, EncodeItem(w, e) + rest) == Some((e, rest))
  {
    var time := Word(e.item.expiresAt, w);
    var s1 := Word(|e.item.data|, w) + e.item.data + (time + rest);
    assert EncodeItem(w, e) + rest == Word(|e.key|, w) + e.key + s1;
    BytesRoundTrip(w, e.key, s1);
    BytesRoundTrip(w, e.item.data, time + rest);
    assert (time + rest)[..w] == time && (time + rest)[w..] == rest;
    SignedRoundTrip(e.item.expiresAt, w);
  }

  /** The encoding loses nothing: it decodes to the same items in the same order. */
  lemma {:induction false} AllRoundTrip(w: nat, rec: seq<Entry>)
    requires w > 0 && forall e :: e in rec ==> Encodable(w, e)
    ensures DecodeAll(w, EncodeAll(w, rec)) == Some(rec)
  {
    if rec == [] {
    } else {
      assert rec[0] in rec;
      ItemRoundTrip(w, rec[0], EncodeAll(w, rec[1..]));
      AllRoundTrip(w, rec[1..]);
      assert EncodeAll(w, rec) != [] && [rec[0]] + rec[1..] == rec;
    }
  }

  // ---------- One chunk ----------

  /** Where a chunk with the given space left stops: the first item that does not fit, or the end. */
  function Stop(w: nat, rec: seq<Entry>, i: nat, space: int): (j: nat)
    requires i <= |rec|
    ensures i <= j <= |rec|
    decreases |rec| - i
  {
    if i < |rec| && ItemSize(w, rec[i]) <= space then Stop(w, rec, i + 1, space - ItemSize(w, rec[i])) else i
  }

  lemma StopStep(w: nat, rec: seq<Entry>, i: nat, space: nat)
    requires i <= |rec|
    ensures i == |rec| ==> Stop(w, rec, i, space) == i
    ensures i < |rec| && ItemSize(w, rec[i]) > space ==> Stop(w, rec, i, space) == i
    ensures i < |rec| && ItemSize(w, rec[i]) <= space ==>
              Stop(w, rec, i, space) == Stop(w, rec, i + 1, space - ItemSize(w, rec[i]))
  {
  }

  /** A chunk takes as many items as fit. */
  lemma {:induction false} StopIsGreatest(w: nat, rec: seq<Entry>, i: nat, space: nat)
    requires i <= |rec|
    ensures var j := Stop(w, rec, i, space);
            && |EncodeAll(w, rec[i..j])| <= space
            && (j < |rec| ==> |EncodeAll(w, rec[i..j + 1])| > space)
    decreases |rec| - i
  {
    hide EncodeAll, EncodeItem, ItemSize, Stop;
    var j := Stop(w, rec, i, space);
    StopStep(w, rec, i, space);
    NothingYet(w, rec, i);
    if i < |rec| {
      if ItemSize(w, rec[i]) <= space {
        StopIsGreatest(w, rec, i + 1, space - ItemSize(w, rec[i]));
        EncodeFirst(w, rec, i, j);
        if j < |rec| { EncodeFirst(w, rec, i, j + 1); }
      } else {
        EncodeNext(w, rec, i, i);
      }
    }
  }

  lemma EncodeFirst(w: nat, rec: seq<Entry>, i: nat, j: nat)
    requires i < j <= |rec|
    ensures EncodeAll(w, rec[i..j]) == EncodeItem(w, rec[i]) + EncodeAll(w, rec[i + 1..j])
  {
    assert rec[i..j][1..] == rec[i + 1..j];
  }

  // ---------- Repeated reading ----------

  /** The item index after n chunks. */
  function After(w: nat, rec: seq<Entry>, chunkSize: nat, n: nat): (i: nat)
    ensures i <= |rec|
  {
    if n == 0 then 0 else Stop(w, rec, After(w, rec, chunkSize, n - 1), chunkSize)
  }

  ghost predicate AllFit(w: nat, rec: seq<Entry>, chunkSize: nat) {
    forall i | 0 <= i < |rec| :: ItemSize(w, rec[i]) <= chunkSize
  }

  lemma {:induction false} Progress(w: nat, rec: seq<Entry>, chunkSize: nat, n: nat)
    requires AllFit(w, rec, chunkSize)
    ensures After(w, rec, chunkSize, n) >= n || After(w, rec, chunkSize, n) == |rec|
  {
    if n == 0 {
    } else {
      Progress(w, rec, chunkSize, n - 1);
    }
  }

  lemma {:induction false} StopsBefore(w: nat, rec: seq<Entry>, i: nat, space: nat, k: nat)
    requires i <= k < |rec| && ItemSize(w, rec[k]) > space
    ensures Stop(w, rec, i, space) <= k
    decreases |rec| - i
  {
    if i < k && ItemSize(w, rec[i]) <= space { StopsBefore(w, rec, i + 1, space - ItemSize(w, rec[i]), k); }
  }

  lemma {:induction false} Stuck(w: nat, rec: seq<Entry>, chunkSize: nat, k: nat, n: nat)
    requires k < |rec| && ItemSize(w, rec[k]) > chunkSize
    ensures After(w, rec, chunkSize, n) <= k
  {
    if n == 0 {
    } else {
      Stuck(w, rec, chunkSize, k, n - 1);
      StopsBefore(w, rec, After(w, rec, chunkSize, n - 1), chunkSize, k);
    }
  }

  /** Reading chunk after chunk reaches the end exactly when every item fits in a chunk. */
  lemma ReadingEnds(w: nat, rec: seq<Entry>, chunkSize: nat)
    ensures AllFit(w, rec, chunkSize) <==> After(w, rec, chunkSize, |rec|) == |rec|
    ensures !AllFit(w, rec, chunkSize) ==> forall n :: After(w, rec, chunkSize, n) < |rec|
  {
    if AllFit(w, rec, chunkSize) {
      Progress(w, rec, chunkSize, |rec|);
    } else {
      var k :| 0 <= k < |rec| && ItemSize(w, rec[k]) > chunkSize;
      forall n ensures After(w, rec, chunkSize, n) < |rec| { Stuck(w, rec, chunkSize, k, n); }
    }
  }

  // ---------- Writing into the chunk buffer ----------

  /** Copy at the write pointer p, after what is already written from `at` on. */
  method CopyNext(buffer: array<Byte>, at: nat, ghost part: seq<Byte>, p: nat, bytes: seq<Byte>) returns (q: nat)
    requires at <= p && p + |bytes| <= buffer.Length && buffer[at..p] == part
    modifies buffer
    ensures q == p + |bytes| && buffer[..at] == old(buffer[..at]) && buffer[at..q] == part + bytes
  {
    CopyBytes(buffer, p, bytes);
    q := p + |bytes|;
  }

  method CopyItem(w: nat, buffer: array<Byte>, at: nat, e: Entry)
    requires at + ItemSize(w, e) <= buffer.Length
    modifies buffer
    ensures buffer[..at] == old(buffer[..at]) && buffer[at..at + ItemSize(w, e)] == EncodeItem(w, e)
  {
    var keySize, dataSize, time := Word(|e.key|, w), Word(|e.item.data|, w), Word(e.item.expiresAt, w);
    var p := CopyNext(buffer, at, [], at, keySize);
    assert [] + keySize == keySize;
    p := CopyNext(buffer, at, keySize, p, e.key);
    p := CopyNext(buffer, at, keySize + e.key, p, dataSize);
    p := CopyNext(buffer, at, keySize + e.key + dataSize, p, e.item.data);
    p := CopyNext(buffer, at, keySize + e.key + dataSize + e.item.data, p, time);
  }

  /** The bytes are the encoding of the items from `start` up to `stop`. */
  ghost predicate Filled(w: nat, rec: seq<Entry>, start: nat, stop: nat, bytes: seq<Byte>) {
    start <= stop <= |rec| && bytes == EncodeAll(w, rec[start..stop])
  }

  /** Copy item `it` after the items from `start`. */
  method CopyAfter(w: nat, buffer: array<Byte>, at: nat, e: Entry, ghost rec: seq<Entry>, ghost start: nat,
                   ghost it: nat)
    returns (end: nat)
    requires at + ItemSize(w, e) <= buffer.Length
    requires it < |rec| && rec[it] == e && Filled(w, rec, start, it, buffer[..at])
    modifies buffer
    ensures end == at + ItemSize(w, e) && Filled(w, rec, start, it + 1, buffer[..end])
  {
    ghost var item := EncodeItem(w, e);
    EncodeNext(w, rec, start, it);
    end := at + ItemSize(w, e);
    CopyItem(w, buffer, at, e);
    Joined(buffer[..end], at, item);
  }

  lemma Joined(s: seq<Byte>, at: nat, item: seq<Byte>)
    requires at <= |s| && s[at..] == item
    ensures s == s[..at] + item
  {
  }

  /** Copy items from a position on until one does not fit. */
  method CopyItems(w: nat, rec: seq<Entry>, start: nat, chunk: array<Byte>) returns (stop: nat, read: nat)
    requires start <= |rec|
    modifies chunk
    ensures read <= chunk.Length && stop == Stop(w, rec, start, chunk.Length)
    ensures Filled(w, rec, start, stop, chunk[..read])
  {
    NothingYet(w, rec, start);
    hide EncodeAll, ItemSize, Stop, Filled;
    stop, read := start, 0;
    assert chunk[..0] == [];
    while stop < |rec|
      invariant start <= stop <= |rec| && read <= chunk.Length && Filled(w, rec, start, stop, chunk[..read])
      invariant Stop(w, rec, start, chunk.Length) == Stop(w, rec, stop, chunk.Length - read)
    {
      StopStep(w, rec, stop, chunk.Length - read);
      if read + ItemSize(w, rec[stop]) > chunk.Length { return; }
      read := CopyAfter(w, chunk, read, rec[stop], rec, start, stop);
      stop := stop + 1;
    }
    StopStep(w, rec, stop, chunk.Length - read);
  }

  lemma NothingYet(w: nat, rec: seq<Entry>, start: nat)
    requires start <= |rec|
    ensures EncodeAll(w, rec[start..start]) == [] && Filled(w, rec, start, start, [])
  {
  }

  /** One chunk of the given size, and the index to go on from, or -1 at the end. */
  method FillChunk(w: nat, rec: seq<Entry>, start: nat, chunkSize: nat)
    returns (chunk: array<Byte>, index: int, read: nat)
    requires start <= |rec|
    ensures fresh(chunk) && read <= chunk.Length == chunkSize
    ensures var stop := Stop(w, rec, start, chunkSize);
            chunk[..read] == EncodeAll(w, rec[start..stop]) && index == if stop == |rec| then -1 else stop
  {
    hide EncodeAll, Stop;
    chunk := new Byte[chunkSize](_ => 0);
    var stop;
    stop, read := CopyItems(w, rec, start, chunk);
    index := if stop == |rec| then -1 else stop;
  }
}
