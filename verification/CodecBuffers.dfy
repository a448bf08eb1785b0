/** The codec as written in place: a fixed-size buffer with a moving position, and a reader over a buffer. */
module CodecBuffers {
  import opened Wrappers
  import opened LittleEndian
  import opened Codec

  class Buffer {
    const data: array<Byte>
    var pos: nat

    ghost predicate Valid()
      reads this
    {
      pos <= data.Length
    }

    /** What has been put so far. */
    ghost function Written(): seq<Byte>
      reads this, data
      requires Valid()
    {
      data[..pos]
    }

    constructor (size: nat)
      ensures Valid() && Written() == [] && data.Length == size && fresh(data)
    {
      data := new Byte[size](_ => 0);
      pos := 0;
    }

    /** Put bytes at the position; a put that does not fit throws. */
    method Put(bytes: seq<Byte>) returns (ok: bool)
      requires Valid()
      modifies this, data
      ensures Valid() && ok == (old(pos) + |bytes| <= data.Length)
      ensures Written() == if ok then old(Written()) + bytes else old(Written())
    {
      if data.Length - pos < |bytes| { return false; }
      CopyBytes(data, pos, bytes);
      pos := pos + |bytes|;
      return true;
    }
  }

  /** A buffer of the given size, unless it is too large. */
  method Alloc(size: nat) returns (b: Option<Buffer>)
    ensures b.Some? <==> size < LIMIT
    ensures b.Some? ==> fresh(b.value) && fresh(b.value.data) && b.value.Valid()
    ensures b.Some? ==> b.value.Written() == [] && b.value.data.Length == size
  {
    if size >= LIMIT { return None; }
    var buf := new Buffer(size);
    b := Some(buf);
  }

  function Joined(parts: seq<seq<Byte>>): seq<Byte> {
    if parts == [] then [] else parts[0] + Joined(parts[1..])
  }

  lemma {:induction false} JoinedConcat(a: seq<seq<Byte>>, b: seq<seq<Byte>>)
    ensures Joined(a + b) == Joined(a) + Joined(b)
  {
    if a == [] {
      assert a + b == b;
    } else {
      assert (a + b)[1..] == a[1..] + b;
      JoinedConcat(a[1..], b);
    }
  }

  lemma JoinedFour(a: seq<Byte>, b: seq<Byte>, c: seq<Byte>, d: seq<Byte>)
    ensures Joined([a, b, c, d]) == a + (b + (c + d))
  {
    assert [a, b, c, d][1..] == [b, c, d] && [b, c, d][1..] == [c, d] && [c, d][1..] == [d] && [d][1..] == [];
    assert Joined([d]) == d + Joined([]);
    assert Joined([c, d]) == c + Joined([d]);
    assert Joined([b, c, d]) == b + Joined([c, d]);
  }

  lemma JoinedSix(a: seq<Byte>, b: seq<Byte>, c: seq<Byte>, d: seq<Byte>, e: seq<Byte>, f: seq<Byte>)
    ensures Joined([a, b, c, d, e, f]) == a + (b + (c + (d + (e + f))))
  {
    JoinedFour(c, d, e, f);
    assert [a, b, c, d, e, f][1..] == [b, c, d, e, f] && [b, c, d, e, f][1..] == [c, d, e, f];
    assert Joined([b, c, d, e, f]) == b + Joined([c, d, e, f]);
  }

  /** Put the parts one after another into a buffer of exactly their size: no put fails and the buffer is full. */
  method PutAll(size: nat, parts: seq<seq<Byte>>) returns (r: Option<seq<Byte>>)
    requires size == |Joined(parts)|
    ensures r == if size < LIMIT then Some(Joined(parts)) else None
  {
    var b := Alloc(size);
    if b.None? { return None; }
    var buf := b.value;
    var i := 0;
    while i < |parts|
      invariant 0 <= i <= |parts| && buf.Valid() && fresh(buf) && fresh(buf.data) && buf.data.Length == size
      invariant buf.Written() + Joined(parts[i..]) == Joined(parts)
    {
      assert parts[i..][1..] == parts[i + 1..];
      var ok := buf.Put(parts[i]);
      assert ok;
      i := i + 1;
    }
    assert buf.Written() == Joined(parts) && buf.pos == buf.data.Length;
    assert buf.data[..] == buf.data[..buf.pos];
    r := Some(buf.data[..]);
  }

  // ---------- Serialising ----------

  function IfFits(bytes: seq<Byte>): Option<seq<Byte>> {
    if |bytes| < LIMIT then Some(bytes) else None
  }

  method SerializeServer(s: SrvConfig) returns (r: Option<seq<Byte>>)
    ensures r == IfFits(EncodeServer(s))
  {
    hide Word;
    var size := INT + INT + (|s.endpoint| + 1) + (|s.aux| + 1) + 1 + INT;
    JoinedSix(Word(s.id, INT), Word(s.dcId, INT), s.endpoint + [0], s.aux + [0], Flag(s.learner),
              Word(s.priority, INT));
    r := PutAll(size, [Word(s.id, INT), Word(s.dcId, INT), s.endpoint + [0], s.aux + [0], Flag(s.learner),
                       Word(s.priority, INT)]);
  }

  /** Serialise the servers, adding up their sizes; fails with the first that does. */
  method SerializeServers(ss: seq<SrvConfig>) returns (r: Option<seq<seq<Byte>>>, size: nat)
    ensures r.Some? ==> Joined(r.value) == EncodeServers(ss) && size == |EncodeServers(ss)|
    ensures r.None? ==> |EncodeServers(ss)| >= LIMIT
  {
    hide EncodeServer;
    var bufs := [];
    size := 0;
    var i := 0;
    assert ss[0..] == ss;
    while i < |ss|
      invariant 0 <= i <= |ss| && size == |Joined(bufs)|
      invariant Joined(bufs) + EncodeServers(ss[i..]) == EncodeServers(ss)
    {
      assert ss[i..][1..] == ss[i + 1..];
      var buf := SerializeServer(ss[i]);
      if buf.None? { return None, 0; }
      JoinedConcat(bufs, [buf.value]);
      assert Joined([buf.value]) == buf.value + Joined([]);
      bufs := bufs + [buf.value];
      size := size + |buf.value|;
      i := i + 1;
    }
    r := Some(bufs);
  }

  method SerializeConfig(c: ClusterConfig) returns (r: Option<seq<Byte>>)
    ensures r == IfFits(EncodeConfig(c))
  {
    hide Word, EncodeServers;
    var bufs, sz := SerializeServers(c.servers);
    if bufs.None? { return None; }
    var size := 2 * LONG + INT + 1 + sz + INT + |c.userCtx|;
    var head := [Word(c.logIdx, LONG), Word(c.prevLogIdx, LONG), Flag(c.asyncReplication), Word(|c.userCtx|, INT),
                 c.userCtx, Word(|c.servers|, INT)];
    JoinedSix(Word(c.logIdx, LONG), Word(c.prevLogIdx, LONG), Flag(c.asyncReplication), Word(|c.userCtx|, INT),
              c.userCtx, Word(|c.servers|, INT));
    JoinedConcat(head, bufs.value);
    assert Joined(head + bufs.value) == EncodeConfig(c);
    r := PutAll(size, head + bufs.value);
  }

  method SerializeSnapshot(s: Snapshot) returns (r: Option<seq<Byte>>)
    ensures r == IfFits(EncodeSnapshot(s))
  {
    hide Word, EncodeConfig;
    var conf := SerializeConfig(s.config);
    if conf.None? { return None; }
    var size := |conf.value| + LONG * 3 + 1;
    var parts := [[s.kind], Word(s.lastLogIdx, LONG), Word(s.lastLogTerm, LONG), Word(s.size, LONG) + conf.value];
    JoinedFour([s.kind], Word(s.lastLogIdx, LONG), Word(s.lastLogTerm, LONG), Word(s.size, LONG) + conf.value);
    r := PutAll(size, parts);
  }

  method SerializeRequest(q: SyncReq) returns (r: Option<seq<Byte>>)
    ensures r == IfFits(EncodeRequest(q))
  {
    hide Word, EncodeSnapshot;
    var snp := SerializeSnapshot(q.snapshot);
    if snp.None? { return None; }
    var size := |snp.value| + LONG + 1 + |q.data|;
    var parts := [snp.value, Word(q.offset, LONG), Flag(q.done), q.data];
    JoinedFour(snp.value, Word(q.offset, LONG), Flag(q.done), q.data);
    r := PutAll(size, parts);
  }

  // ---------- Deserialising ----------

  /** What a read returned and left, against the reading function. */
  ghost predicate Agrees<T>(p: Parsed<T>, r: Option<T>, rest: seq<Byte>) {
    match p
    case Failed => r.None?
    case Parsed(v, left) => r == Some(v) && rest == left
  }

  class Reader {
    const buf: seq<Byte>
    var pos: nat

    ghost predicate Valid()
      reads this
    {
      pos <= |buf|
    }

    ghost function Rest(): seq<Byte>
      reads this
      requires Valid()
    {
      buf[pos..]
    }

    constructor (buf: seq<Byte>)
      ensures Valid() && Rest() == buf
    {
      this.buf := buf;
      pos := 0;
    }

    method GetUnsigned(w: nat) returns (r: Option<nat>)
      requires Valid()
      modifies this
      ensures Valid() && Agrees(Unsigned(old(Rest()), w), r, Rest())
    {
      hide Value;
      if pos + w > |buf| { return None; }
      assert buf[pos..][..w] == buf[pos..pos + w];
      r := Some(Value(buf[pos..pos + w]));
      pos := pos + w;
    }

    method GetInt() returns (r: Option<int>)
      requires Valid()
      modifies this
      ensures Valid() && Agrees(Integer(old(Rest()), INT), r, Rest())
    {
      hide Signed;
      if pos + INT > |buf| { return None; }
      assert buf[pos..][..INT] == buf[pos..pos + INT];
      r := Some(Signed(buf[pos..pos + INT]));
      pos := pos + INT;
    }

    method GetByte() returns (r: Option<Byte>)
      requires Valid()
      modifies this
      ensures Valid() && Agrees(OneByte(old(Rest())), r, Rest())
    {
      if pos + 1 > |buf| { return None; }
      r := Some(buf[pos]);
      pos := pos + 1;
    }

    /** Scan to the terminating zero; without one the position would leave the buffer. */
    method GetCString() returns (r: Option<seq<Byte>>)
      requires Valid()
      modifies this
      ensures Valid() && Agrees(CString(old(Rest())), r, Rest())
    {
      var len := 0;
      while pos + len < |buf| && buf[pos + len] != 0
        invariant pos == old(pos) && pos + len <= |buf|
        invariant Strlen(buf[pos..]) == len + Strlen(buf[pos + len..])
        decreases |buf| - len
      {
        assert buf[pos + len..][1..] == buf[pos + len + 1..];
        len := len + 1;
      }
      if pos + len == |buf| { return None; }
      assert buf[pos..][..len] == buf[pos..pos + len] && buf[pos..][len + 1..] == buf[pos + len + 1..];
      r := Some(buf[pos..pos + len]);
      pos := pos + len + 1;
    }

    method GetCounted() returns (r: Option<seq<Byte>>)
      requires Valid()
      modifies this
      ensures Valid() && Agrees(Counted(old(Rest())), r, Rest())
    {
      var n := GetUnsigned(INT);
      if n.None? || pos + n.value > |buf| { return None; }
      assert buf[pos..][..n.value] == buf[pos..pos + n.value];
      r := Some(buf[pos..pos + n.value]);
      pos := pos + n.value;
    }
  }

  method DeserializeServer(bs: Reader) returns (r: Option<SrvConfig>)
    requires bs.Valid()
    modifies bs
    ensures bs.Valid() && Agrees(DecodeServer(old(bs.Rest())), r, bs.Rest())
  {
    hide Integer, CString, OneByte;
    var id := bs.GetInt();
    if id.None? { return None; }
    var dcId := bs.GetInt();
    if dcId.None? { return None; }
    var endpoint := bs.GetCString();
    if endpoint.None? { return None; }
    var aux := bs.GetCString();
    if aux.None? { return None; }
    var learner := bs.GetByte();
    if learner.None? { return None; }
    var priority := bs.GetInt();
    if priority.None? { return None; }
    r := Some(SrvConfig(id.value, dcId.value, endpoint.value, aux.value, learner.value != 0, priority.value));
  }

  method DeserializeServers(bs: Reader, count: int) returns (r: Option<seq<SrvConfig>>)
    requires bs.Valid()
    modifies bs
    ensures bs.Valid() && Agrees(DecodeServers(old(bs.Rest()), count), r, bs.Rest())
  {
    hide DecodeServer;
    var servers, cnt := [], count;
    PrependedNone(DecodeServers(bs.Rest(), count));
    while cnt > 0
      invariant bs.Valid()
      invariant Prepended(servers, DecodeServers(bs.Rest(), cnt)) == DecodeServers(old(bs.Rest()), count)
    {
      ghost var left := DecodeServers(bs.Rest(), cnt);
      var x := DeserializeServer(bs);
      if x.None? { return None; }
      PrependedNext(servers, x.value, DecodeServers(bs.Rest(), cnt - 1));
      servers := servers + [x.value];
      cnt := cnt - 1;
    }
    assert servers + [] == servers;
    r := Some(servers);
  }

  /** A list read in part, followed by the rest of the reading. */
  ghost function Prepended(xs: seq<SrvConfig>, p: Parsed<seq<SrvConfig>>): Parsed<seq<SrvConfig>> {
    match p
    case Failed => Failed
    case Parsed(ys, rest) => Parsed(xs + ys, rest)
  }

  lemma PrependedNone(p: Parsed<seq<SrvConfig>>)
    ensures Prepended([], p) == p
  {
    if p.Parsed? { assert [] + p.value == p.value; }
  }

  lemma PrependedNext(xs: seq<SrvConfig>, x: SrvConfig, p: Parsed<seq<SrvConfig>>)
    ensures Prepended(xs, Prepended([x], p)) == Prepended(xs + [x], p)
  {
    if p.Parsed? { assert xs + ([x] + p.value) == (xs + [x]) + p.value; }
  }

  method DeserializeConfig(bs: Reader) returns (r: Option<ClusterConfig>)
    requires bs.Valid()
    modifies bs
    ensures bs.Valid() && Agrees(DecodeConfig(old(bs.Rest())), r, bs.Rest())
  {
    hide Unsigned, Integer, OneByte, Counted, DecodeServers;
    var logIdx := bs.GetUnsigned(LONG);
    if logIdx.None? { return None; }
    var prevLogIdx := bs.GetUnsigned(LONG);
    if prevLogIdx.None? { return None; }
    var ec := bs.GetByte();
    if ec.None? { return None; }
    var userCtx := bs.GetCounted();
    if userCtx.None? { return None; }
    var count := bs.GetInt();
    if count.None? { return None; }
    var servers := DeserializeServers(bs, count.value);
    if servers.None? { return None; }
    r := Some(ClusterConfig(logIdx.value, prevLogIdx.value, ec.value != 0, userCtx.value, servers.value));
  }

  method DeserializeSnapshot(bs: Reader) returns (r: Option<Snapshot>)
    requires bs.Valid()
    modifies bs
    ensures bs.Valid() && Agrees(DecodeSnapshot(old(bs.Rest())), r, bs.Rest())
  {
    hide Unsigned, OneByte, DecodeConfig;
    var kind := bs.GetByte();
    if kind.None? { return None; }
    var lastLogIdx := bs.GetUnsigned(LONG);
    if lastLogIdx.None? { return None; }
    var lastLogTerm := bs.GetUnsigned(LONG);
    if lastLogTerm.None? { return None; }
    var size := bs.GetUnsigned(LONG);
    if size.None? { return None; }
    var config := DeserializeConfig(bs);
    if config.None? { return None; }
    r := Some(Snapshot(kind.value, lastLogIdx.value, lastLogTerm.value, size.value, config.value));
  }

  method DeserializeRequest(buf: seq<Byte>) returns (r: Option<SyncReq>)
    ensures Agrees(DecodeRequest(buf), r, [])
  {
    hide Unsigned, OneByte, DecodeSnapshot;
    var bs := new Reader(buf);
    var snapshot := DeserializeSnapshot(bs);
    if snapshot.None? { return None; }
    var offset := bs.GetUnsigned(LONG);
    if offset.None? { return None; }
    var done := bs.GetByte();
    if done.None? { return None; }
    var data := if bs.pos < |bs.buf| then bs.buf[bs.pos..] else [];
    assert data == bs.Rest();
    r := Some(SyncReq(snapshot.value, offset.value, done.value == 1, data));
  }

  /** Sending and receiving a request gives it back, unless it is too large or holds a zero byte in a string. */
  method Transfer(q: SyncReq) returns (r: Option<SyncReq>)
    requires RangedRequest(q)
    ensures |EncodeRequest(q)| < LIMIT && NoNuls(q.snapshot.config.servers) ==> r == Some(q)
    ensures r == Some(q) ==> |EncodeRequest(q)| < LIMIT && NoNuls(q.snapshot.config.servers)
  {
    hide EncodeRequest, DecodeRequest, NoNuls;
    var buf := SerializeRequest(q);
    if buf.None? { return None; }
    RequestRoundTrip(q);
    RequestNoNul(buf.value);
    r := DeserializeRequest(buf.value);
  }
}
