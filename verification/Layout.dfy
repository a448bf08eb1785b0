/** Which byte of each message holds what: the wire formats by absolute offsets. */
module Layout {
  import opened LittleEndian
  import opened Codec
  import opened Framing
  import Lru
  import SnapshotChunks

  /** Byte i of the k at this offset is digit i of the number in base 256; negative numbers in two's complement. */
  ghost predicate HoldsInt(s: seq<Byte>, at: nat, n: int, k: nat) {
    at + k <= |s| && forall i | 0 <= i < k :: s[at + i] == (n / Pow256(i)) % 256
  }

  ghost predicate HoldsBytes(s: seq<Byte>, at: nat, b: seq<Byte>) {
    at + |b| <= |s| && forall i | 0 <= i < |b| :: s[at + i] == b[i]
  }

  lemma DivideTwice(n: int, p: int)
    requires p > 0
    ensures n / 256 / p == n / (256 * p)
  {
    var a := n / 256;
    var q, r := a / p, a % p;
    assert a == q * p + r && n == 256 * a + n % 256;
    var rest := 256 * r + n % 256;
    assert n == q * (256 * p) + rest by { assert 256 * (q * p) == q * (256 * p); }
    assert 0 <= rest < 256 * p;
    QuotientIs(n, 256 * p, q, rest);
  }

  lemma QuotientIs(n: int, d: int, q: int, r: int)
    requires d > 0 && n == q * d + r && 0 <= r < d
    ensures n / d == q
  {
    var q' := n / d;
    assert n == q' * d + n % d;
    assert (q - q') * d == n % d - r by { assert (q - q') * d == q * d - q' * d; }
    assert q - q' >= 1 ==> (q - q') * d >= d;
    assert q - q' <= -1 ==> (q - q') * d <= -d;
  }

  lemma {:induction false} WordDigit(n: int, k: nat, i: nat)
    requires i < k
    ensures Word(n, k)[i] == (n / Pow256(i)) % 256
    decreases k
  {
    if i == 0 {
    } else {
      WordDigit(n / 256, k - 1, i - 1);
      DivideTwice(n, Pow256(i - 1));
    }
  }

  lemma WordHolds(n: int, k: nat)
    ensures HoldsInt(Word(n, k), 0, n, k)
  {
    forall i | 0 <= i < k { WordDigit(n, k, i); }
  }

  /** What stands in a part stands in the whole, further on. */
  lemma IntInside(s: seq<Byte>, pre: seq<Byte>, n: int, k: nat, post: seq<Byte>)
    requires s == pre + (Word(n, k) + post)
    ensures HoldsInt(s, |pre|, n, k)
  {
    hide Word, Pow256;
    WordHolds(n, k);
    forall i | 0 <= i < k ensures s[|pre| + i] == (n / Pow256(i)) % 256 { assert s[|pre| + i] == Word(n, k)[i]; }
  }

  lemma BytesInside(s: seq<Byte>, pre: seq<Byte>, b: seq<Byte>, post: seq<Byte>)
    requires s == pre + (b + post)
    ensures HoldsBytes(s, |pre|, b)
  {
  }

  lemma FurtherBytes(pre: seq<Byte>, s: seq<Byte>, at: nat, b: seq<Byte>)
    requires HoldsBytes(s, at, b)
    ensures HoldsBytes(pre + s, |pre| + at, b)
  {
    forall i | 0 <= i < |b| ensures (pre + s)[|pre| + at + i] == b[i] { assert (pre + s)[|pre| + at + i] == s[at + i]; }
  }

  lemma FurtherInt(pre: seq<Byte>, s: seq<Byte>, at: nat, n: int, k: nat)
    requires HoldsInt(s, at, n, k)
    ensures HoldsInt(pre + s, |pre| + at, n, k)
  {
    hide Pow256;
    forall i | 0 <= i < k ensures (pre + s)[|pre| + at + i] == (n / Pow256(i)) % 256 {
      assert (pre + s)[|pre| + at + i] == s[at + i];
    }
  }

  lemma EarlierInt(s: seq<Byte>, post: seq<Byte>, at: nat, n: int, k: nat)
    requires HoldsInt(s, at, n, k)
    ensures HoldsInt(s + post, at, n, k)
  {
    hide Pow256;
  }

  lemma EarlierBytes(s: seq<Byte>, post: seq<Byte>, at: nat, b: seq<Byte>)
    requires HoldsBytes(s, at, b)
    ensures HoldsBytes(s + post, at, b)
  {
  }

  // ---------- The snapshot message ----------

  function ServerSize(s: SrvConfig): nat {
    15 + |s.endpoint| + |s.aux|
  }

  function Head(s: SrvConfig): seq<Byte> {
    Word(s.id, 4) + (Word(s.dcId, 4) + (s.endpoint + [0]))
  }

  function Tail(s: SrvConfig): seq<Byte> {
    s.aux + ([0] + (Flag(s.learner) + Word(s.priority, 4)))
  }

  lemma ServerParts(s: SrvConfig)
    ensures EncodeServer(s) == Head(s) + Tail(s)
  {
    hide Word;
    var a, b, c, d, f := Word(s.id, 4), Word(s.dcId, 4), s.endpoint + [0], s.aux + [0],
                         Flag(s.learner) + Word(s.priority, 4);
    assert a + (b + (c + (d + f))) == (a + (b + c)) + (d + f);
    assert d + f == s.aux + ([0] + f);
  }

  lemma HeadLayout(s: SrvConfig)
    ensures var head, m := Head(s), |s.endpoint|;
            && |head| == 9 + m && HoldsInt(head, 0, s.id, 4) && HoldsInt(head, 4, s.dcId, 4)
            && HoldsBytes(head, 8, s.endpoint) && head[8 + m] == 0
  {
    hide Word, HoldsInt, HoldsBytes;
    var head, a, b := Head(s), Word(s.id, 4), Word(s.dcId, 4);
    assert head == [] + (a + (b + (s.endpoint + [0])));
    IntInside(head, [], s.id, 4, b + (s.endpoint + [0]));
    IntInside(head, a, s.dcId, 4, s.endpoint + [0]);
    assert head == a + b + (s.endpoint + [0]);
    BytesInside(head, a + b, s.endpoint, [0]);
  }

  lemma TailLayout(s: SrvConfig)
    ensures var tail, n := Tail(s), |s.aux|;
            && |tail| == 6 + n && HoldsBytes(tail, 0, s.aux) && tail[n] == 0
            && tail[n + 1] == (if s.learner then 1 else 0) && HoldsInt(tail, n + 2, s.priority, 4)
  {
    hide Word, HoldsInt, HoldsBytes;
    var tail, f, p := Tail(s), Flag(s.learner), Word(s.priority, 4);
    assert tail == [] + (s.aux + ([0] + (f + p)));
    BytesInside(tail, [], s.aux, [0] + (f + p));
    assert tail == s.aux + [0] + f + (p + []);
    IntInside(tail, s.aux + [0] + f, s.priority, 4, []);
  }

  lemma ServerLayout(s: SrvConfig)
    ensures var e, m, n := EncodeServer(s), |s.endpoint|, |s.aux|;
            && |e| == ServerSize(s)
            && HoldsInt(e, 0, s.id, 4) && HoldsInt(e, 4, s.dcId, 4)
            && HoldsBytes(e, 8, s.endpoint) && e[8 + m] == 0
            && HoldsBytes(e, 9 + m, s.aux) && e[9 + m + n] == 0
            && e[10 + m + n] == (if s.learner then 1 else 0)
            && HoldsInt(e, 11 + m + n, s.priority, 4)
  {
    hide Word, HoldsInt, HoldsBytes, Head, Tail;
    var head, tail := Head(s), Tail(s);
    ServerParts(s);
    HeadLayout(s);
    TailLayout(s);
    EarlierInt(head, tail, 0, s.id, 4);
    EarlierInt(head, tail, 4, s.dcId, 4);
    EarlierBytes(head, tail, 8, s.endpoint);
    FurtherBytes(head, tail, 0, s.aux);
    FurtherInt(head, tail, 2 + |s.aux|, s.priority, 4);
  }

  lemma ConfigLayout(c: ClusterConfig)
    ensures var e, u := EncodeConfig(c), |c.userCtx|;
            && |e| == 25 + u + |EncodeServers(c.servers)|
            && HoldsInt(e, 0, c.logIdx, 8) && HoldsInt(e, 8, c.prevLogIdx, 8)
            && e[16] == (if c.asyncReplication then 1 else 0)
            && HoldsInt(e, 17, u, 4) && HoldsBytes(e, 21, c.userCtx)
            && HoldsInt(e, 21 + u, |c.servers|, 4)
            && HoldsBytes(e, 25 + u, EncodeServers(c.servers))
  {
    hide Word, HoldsInt, HoldsBytes, EncodeServers;
    var e := EncodeConfig(c);
    var a, b, f, l, x, n, rest := Word(c.logIdx, 8), Word(c.prevLogIdx, 8), Flag(c.asyncReplication),
                                  Word(|c.userCtx|, 4), c.userCtx, Word(|c.servers|, 4), EncodeServers(c.servers);
    IntInside(e, [], c.logIdx, 8, b + (f + (l + (x + (n + rest)))));
    IntInside(e, a, c.prevLogIdx, 8, f + (l + (x + (n + rest))));
    assert e == a + b + f + (l + (x + (n + rest)));
    IntInside(e, a + b + f, |c.userCtx|, 4, x + (n + rest));
    assert e == a + b + f + l + (x + (n + rest));
    BytesInside(e, a + b + f + l, x, n + rest);
    assert e == a + b + f + l + x + (n + rest);
    IntInside(e, a + b + f + l + x, |c.servers|, 4, rest);
    assert e == a + b + f + l + x + n + (rest + []);
    BytesInside(e, a + b + f + l + x + n, rest, []);
  }

  /** Where server i stands among the servers. */
  function ServerOffset(ss: seq<SrvConfig>, i: nat): nat
    requires i <= |ss|
  {
    if i == 0 then 0 else ServerSize(ss[0]) + ServerOffset(ss[1..], i - 1)
  }

  lemma ServerLength(s: SrvConfig)
    ensures |EncodeServer(s)| == ServerSize(s)
  {
    hide Word;
  }

  lemma {:induction false} ServersLayout(ss: seq<SrvConfig>, i: nat)
    requires i < |ss|
    ensures HoldsBytes(EncodeServers(ss), ServerOffset(ss, i), EncodeServer(ss[i]))
  {
    hide EncodeServer, HoldsBytes, ServerSize;
    var first, rest := EncodeServer(ss[0]), EncodeServers(ss[1..]);
    assert EncodeServers(ss) == first + rest;
    if i == 0 {
      assert first + rest == [] + (first + rest);
      BytesInside(first + rest, [], first, rest);
    } else {
      ServersLayout(ss[1..], i - 1);
      assert ss[1..][i - 1] == ss[i];
      ServerLength(ss[0]);
      FurtherBytes(first, rest, ServerOffset(ss[1..], i - 1), EncodeServer(ss[i]));
    }
  }

  lemma SnapshotLayout(s: Snapshot)
    ensures var e := EncodeSnapshot(s);
            && |e| == 25 + |EncodeConfig(s.config)| && e[0] == s.kind
            && HoldsInt(e, 1, s.lastLogIdx, 8) && HoldsInt(e, 9, s.lastLogTerm, 8) && HoldsInt(e, 17, s.size, 8)
            && HoldsBytes(e, 25, EncodeConfig(s.config))
  {
    hide Word, HoldsInt, HoldsBytes, EncodeConfig;
    var e := EncodeSnapshot(s);
    var k, a, b, c, rest := [s.kind], Word(s.lastLogIdx, 8), Word(s.lastLogTerm, 8), Word(s.size, 8),
                            EncodeConfig(s.config);
    IntInside(e, k, s.lastLogIdx, 8, b + (c + rest));
    assert e == k + a + (b + (c + rest));
    IntInside(e, k + a, s.lastLogTerm, 8, c + rest);
    assert e == k + a + b + (c + rest);
    IntInside(e, k + a + b, s.size, 8, rest);
    assert e == k + a + b + c + (rest + []);
    BytesInside(e, k + a + b + c, rest, []);
  }

  lemma RequestLayout(r: SyncReq)
    ensures var e, n := EncodeRequest(r), |EncodeSnapshot(r.snapshot)|;
            && |e| == n + 9 + |r.data|
            && HoldsBytes(e, 0, EncodeSnapshot(r.snapshot)) && HoldsInt(e, n, r.offset, 8)
            && e[n + 8] == (if r.done then 1 else 0) && HoldsBytes(e, n + 9, r.data)
  {
    hide Word, HoldsInt, HoldsBytes, EncodeSnapshot;
    var e := EncodeRequest(r);
    var s, o, f := EncodeSnapshot(r.snapshot), Word(r.offset, 8), Flag(r.done);
    BytesInside(e, [], s, o + (f + r.data));
    IntInside(e, s, r.offset, 8, f + r.data);
    assert e == s + o + f + (r.data + []);
    BytesInside(e, s + o + f, r.data, []);
  }

  // ---------- Snapshot chunks ----------

  /** Key size, key, data size, data, expiry. */
  lemma ItemLayout(w: nat, e: Lru.Entry)
    ensures var s, k, d := SnapshotChunks.EncodeItem(w, e), |e.key|, |e.item.data|;
            && |s| == 3 * w + k + d
            && HoldsInt(s, 0, k, w) && HoldsBytes(s, w, e.key)
            && HoldsInt(s, w + k, d, w) && HoldsBytes(s, 2 * w + k, e.item.data)
            && HoldsInt(s, 2 * w + k + d, e.item.expiresAt, w)
  {
    hide Word, HoldsInt, HoldsBytes;
    var s := SnapshotChunks.EncodeItem(w, e);
    var a, b, c := Word(|e.key|, w), Word(|e.item.data|, w), Word(e.item.expiresAt, w);
    var key, data := e.key, e.item.data;
    assert s == [] + (a + (key + b + data + c));
    IntInside(s, [], |key|, w, key + b + data + c);
    assert s == a + (key + (b + data + c));
    BytesInside(s, a, key, b + data + c);
    assert s == a + key + (b + (data + c));
    IntInside(s, a + key, |data|, w, data + c);
    assert s == a + key + b + (data + c);
    BytesInside(s, a + key + b, data, c);
    assert s == a + key + b + data + (c + []);
    IntInside(s, a + key + b + data, e.item.expiresAt, w, []);
  }

  /** Where item i stands in the stream: after the items before it. */
  function ItemOffset(w: nat, rec: seq<Lru.Entry>, i: nat): nat
    requires i <= |rec|
  {
    if i == 0 then 0
    else 3 * w + |rec[0].key| + |rec[0].item.data| + ItemOffset(w, rec[1..], i - 1)
  }

  lemma {:induction false} ItemsLayout(w: nat, rec: seq<Lru.Entry>, i: nat)
    requires i < |rec|
    ensures HoldsBytes(SnapshotChunks.EncodeAll(w, rec), ItemOffset(w, rec, i), SnapshotChunks.EncodeItem(w, rec[i]))
  {
    hide SnapshotChunks.EncodeItem, HoldsBytes;
    var first, rest := SnapshotChunks.EncodeItem(w, rec[0]), SnapshotChunks.EncodeAll(w, rec[1..]);
    assert SnapshotChunks.EncodeAll(w, rec) == first + rest;
    if i == 0 {
      assert first + rest == [] + (first + rest);
      BytesInside(first + rest, [], first, rest);
    } else {
      ItemsLayout(w, rec[1..], i - 1);
      assert rec[1..][i - 1] == rec[i];
      FurtherBytes(first, rest, ItemOffset(w, rec[1..], i - 1), SnapshotChunks.EncodeItem(w, rec[i]));
    }
  }

  // ---------- Log packs ----------

  function BufferOffset(w: nat, bufs: seq<seq<Byte>>, i: nat): nat
    requires i <= |bufs|
  {
    if i == 0 then w else w + |bufs[0]| + BufferOffset(w, bufs[1..], i - 1)
  }

  lemma {:induction false} BodyLayout(w: nat, bufs: seq<seq<Byte>>, i: nat)
    requires i < |bufs|
    ensures var s, at := Body(w, bufs), BufferOffset(w, bufs, i);
            at >= w && HoldsInt(s, at - w, |bufs[i]|, w) && HoldsBytes(s, at, bufs[i])
  {
    hide Word, HoldsInt, HoldsBytes;
    var a, b, rest, s := Word(|bufs[0]|, w), bufs[0], Body(w, bufs[1..]), Body(w, bufs);
    if i == 0 {
      assert s == [] + (a + (b + rest));
      IntInside(s, [], |b|, w, b + rest);
      assert s == a + (b + rest);
      BytesInside(s, a, b, rest);
    } else {
      BodyLayout(w, bufs[1..], i - 1);
      assert bufs[1..][i - 1] == bufs[i];
      assert s == (a + b) + rest;
      var at := BufferOffset(w, bufs[1..], i - 1);
      FurtherInt(a + b, rest, at - w, |bufs[i]|, w);
      FurtherBytes(a + b, rest, at, bufs[i]);
    }
  }

  /** The number of buffers, then each with its length in front. */
  lemma FrameLayout(w: nat, bufs: seq<seq<Byte>>, i: nat)
    requires i < |bufs|
    ensures var s, at := Frame(w, bufs), w + BufferOffset(w, bufs, i);
            HoldsInt(s, 0, |bufs|, w) && HoldsInt(s, at - w, |bufs[i]|, w) && HoldsBytes(s, at, bufs[i])
  {
    hide Word, HoldsInt, HoldsBytes, Body;
    var a, body, s := Word(|bufs|, w), Body(w, bufs), Frame(w, bufs);
    assert s == [] + (a + body);
    IntInside(s, [], |bufs|, w, body);
    BodyLayout(w, bufs, i);
    FurtherInt(a, body, BufferOffset(w, bufs, i) - w, |bufs[i]|, w);
    FurtherBytes(a, body, BufferOffset(w, bufs, i), bufs[i]);
  }
}
