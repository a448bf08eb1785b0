/** The nested snapshot message: what is written for each layer and how it is read back. */
module Codec {
  import opened LittleEndian

  datatype SrvConfig = SrvConfig(id: int, dcId: int, endpoint: seq<Byte>, aux: seq<Byte>, learner: bool, priority: int)

  datatype ClusterConfig = ClusterConfig(logIdx: nat, prevLogIdx: nat, asyncReplication: bool, userCtx: seq<Byte>,
                                         servers: seq<SrvConfig>)

  datatype Snapshot = Snapshot(kind: Byte, lastLogIdx: nat, lastLogTerm: nat, size: nat, config: ClusterConfig)

  datatype SyncReq = SyncReq(snapshot: Snapshot, offset: nat, done: bool, data: seq<Byte>)

  const INT := 4
  const LONG := 8

  // ---------- Writing ----------

  function Flag(b: bool): seq<Byte> {
    [if b then 1 else 0]
  }

  function EncodeServer(s: SrvConfig): seq<Byte> {
    Word(s.id, INT) + (Word(s.dcId, INT) + ((s.endpoint + [0]) + ((s.aux + [0]) +
      (Flag(s.learner) + Word(s.priority, INT)))))
  }

  function EncodeServers(ss: seq<SrvConfig>): seq<Byte> {
    if ss == [] then [] else EncodeServer(ss[0]) + EncodeServers(ss[1..])
  }

  function EncodeConfig(c: ClusterConfig): seq<Byte> {
    Word(c.logIdx, LONG) + (Word(c.prevLogIdx, LONG) + (Flag(c.asyncReplication) +
      (Word(|c.userCtx|, INT) + (c.userCtx + (Word(|c.servers|, INT) + EncodeServers(c.servers))))))
  }

  function EncodeSnapshot(s: Snapshot): seq<Byte> {
    [s.kind] + (Word(s.lastLogIdx, LONG) + (Word(s.lastLogTerm, LONG) + (Word(s.size, LONG) + EncodeConfig(s.config))))
  }

  function EncodeRequest(r: SyncReq): seq<Byte> {
    EncodeSnapshot(r.snapshot) + (Word(r.offset, LONG) + (Flag(r.done) + r.data))
  }

  // ---------- Reading ----------

  /** A failed bounds check, or a value and what is left after it. */
  datatype Parsed<T> = Failed | Parsed(value: T, rest: seq<Byte>)

  function Unsigned(s: seq<Byte>, w: nat): Parsed<nat> {
    if |s| < w then Failed else Parsed(Value(s[..w]), s[w..])
  }

  function Integer(s: seq<Byte>, w: nat): Parsed<int> {
    if |s| < w then Failed else Parsed(Signed(s[..w]), s[w..])
  }

  function OneByte(s: seq<Byte>): Parsed<Byte> {
    if s == [] then Failed else Parsed(s[0], s[1..])
  }

  /** Length up to the first zero byte. */
  function Strlen(s: seq<Byte>): (n: nat)
    ensures n <= |s|
  {
    if s == [] || s[0] == 0 then 0 else 1 + Strlen(s[1..])
  }

  function CString(s: seq<Byte>): Parsed<seq<Byte>> {
    var n := Strlen(s);
    if n == |s| then Failed else Parsed(s[..n], s[n + 1..])
  }

  function Counted(s: seq<Byte>): Parsed<seq<Byte>> {
    match Unsigned(s, INT)
    case Failed => Failed
    case Parsed(n, s1) => if |s1| < n then Failed else Parsed(s1[..n], s1[n..])
  }

  function DecodeServer(s: seq<Byte>): Parsed<SrvConfig> {
    match Integer(s, INT) case Failed => Failed case Parsed(id, s1) =>
    match Integer(s1, INT) case Failed => Failed case Parsed(dcId, s2) =>
    match CString(s2) case Failed => Failed case Parsed(endpoint, s3) =>
    match CString(s3) case Failed => Failed case Parsed(aux, s4) =>
    match OneByte(s4) case Failed => Failed case Parsed(learner, s5) =>
    match Integer(s5, INT) case Failed => Failed case Parsed(priority, s6) =>
      Parsed(SrvConfig(id, dcId, endpoint, aux, learner != 0, priority), s6)
  }

  function DecodeServers(s: seq<Byte>, count: int): Parsed<seq<SrvConfig>>
    decreases count
  {
    if count <= 0 then Parsed([], s)
    else
      match DecodeServer(s) case Failed => Failed case Parsed(x, s1) =>
      match DecodeServers(s1, count - 1) case Failed => Failed case Parsed(xs, s2) => Parsed([x] + xs, s2)
  }

  function DecodeConfig(s: seq<Byte>): Parsed<ClusterConfig> {
    match Unsigned(s, LONG) case Failed => Failed case Parsed(logIdx, s1) =>
    match Unsigned(s1, LONG) case Failed => Failed case Parsed(prevLogIdx, s2) =>
    match OneByte(s2) case Failed => Failed case Parsed(ec, s3) =>
    match Counted(s3) case Failed => Failed case Parsed(userCtx, s4) =>
    match Integer(s4, INT) case Failed => Failed case Parsed(count, s5) =>
    match DecodeServers(s5, count) case Failed => Failed case Parsed(servers, s6) =>
      Parsed(ClusterConfig(logIdx, prevLogIdx, ec != 0, userCtx, servers), s6)
  }

  function DecodeSnapshot(s: seq<Byte>): Parsed<Snapshot> {
    match OneByte(s) case Failed => Failed case Parsed(kind, s1) =>
    match Unsigned(s1, LONG) case Failed => Failed case Parsed(lastLogIdx, s2) =>
    match Unsigned(s2, LONG) case Failed => Failed case Parsed(lastLogTerm, s3) =>
    match Unsigned(s3, LONG) case Failed => Failed case Parsed(size, s4) =>
    match DecodeConfig(s4) case Failed => Failed case Parsed(config, s5) =>
      Parsed(Snapshot(kind, lastLogIdx, lastLogTerm, size, config), s5)
  }

  /** Everything after the flag is the payload. */
  function DecodeRequest(s: seq<Byte>): Parsed<SyncReq> {
    match DecodeSnapshot(s) case Failed => Failed case Parsed(snapshot, s1) =>
    match Unsigned(s1, LONG) case Failed => Failed case Parsed(offset, s2) =>
    match OneByte(s2) case Failed => Failed case Parsed(done, s3) =>
      Parsed(SyncReq(snapshot, offset, done == 1, s3), [])
  }

  // ---------- Round trips ----------

  lemma WordBack(n: int, w: nat, rest: seq<Byte>)
    requires 0 <= n < Pow256(w)
    ensures Unsigned(Word(n, w) + rest, w) == Parsed(n, rest)
  {
    hide Word, Value;
    var s := Word(n, w) + rest;
    assert s[..w] == Word(n, w) && s[w..] == rest;
    UnsignedRoundTrip(n, w);
  }

  lemma IntBack(n: int, w: nat, rest: seq<Byte>)
    requires -Pow256(w) <= 2 * n < Pow256(w)
    ensures Integer(Word(n, w) + rest, w) == Parsed(n, rest)
  {
    hide Word, Value, Signed;
    var s := Word(n, w) + rest;
    assert s[..w] == Word(n, w) && s[w..] == rest;
    SignedRoundTrip(n, w);
  }

  lemma ByteBack(b: Byte, rest: seq<Byte>)
    ensures OneByte([b] + rest) == Parsed(b, rest)
  {
    assert ([b] + rest)[1..] == rest;
  }

  lemma {:induction false} StrlenBack(str: seq<Byte>, rest: seq<Byte>)
    requires 0 !in str
    ensures Strlen((str + [0]) + rest) == |str|
  {
    var s := (str + [0]) + rest;
    if str == [] {
    } else {
      assert str[0] in str && s[0] == str[0];
      assert s[1..] == (str[1..] + [0]) + rest;
      StrlenBack(str[1..], rest);
    }
  }

  lemma CStringBack(str: seq<Byte>, rest: seq<Byte>)
    requires 0 !in str
    ensures CString((str + [0]) + rest) == Parsed(str, rest)
  {
    StrlenBack(str, rest);
    var s := (str + [0]) + rest;
    assert s[..|str|] == str && s[|str| + 1..] == rest;
  }

  lemma CountedBack(bytes: seq<Byte>, rest: seq<Byte>)
    requires |bytes| < Pow256(INT)
    ensures Counted(Word(|bytes|, INT) + (bytes + rest)) == Parsed(bytes, rest)
  {
    hide Word, Unsigned;
    WordBack(|bytes|, INT, bytes + rest);
    assert (bytes + rest)[..|bytes|] == bytes && (bytes + rest)[|bytes|..] == rest;
  }

  /** The numbers are in the ranges of their C++ types. */
  predicate Ranged(s: SrvConfig) {
    -Pow256(INT) <= 2 * s.id < Pow256(INT) && -Pow256(INT) <= 2 * s.dcId < Pow256(INT) &&
    -Pow256(INT) <= 2 * s.priority < Pow256(INT)
  }

  predicate RangedConfig(c: ClusterConfig) {
    && c.logIdx < Pow256(LONG) && c.prevLogIdx < Pow256(LONG)
    && forall i | 0 <= i < |c.servers| :: Ranged(c.servers[i])
  }

  predicate RangedRequest(r: SyncReq) {
    && r.snapshot.lastLogIdx < Pow256(LONG) && r.snapshot.lastLogTerm < Pow256(LONG) && r.snapshot.size < Pow256(LONG)
    && r.offset < Pow256(LONG) && RangedConfig(r.snapshot.config)
  }

  predicate NoNul(s: SrvConfig) {
    0 !in s.endpoint && 0 !in s.aux
  }

  ghost predicate NoNuls(ss: seq<SrvConfig>) {
    forall i | 0 <= i < |ss| :: NoNul(ss[i])
  }

  lemma ServerBack(s: SrvConfig, rest: seq<Byte>)
    requires Ranged(s) && NoNul(s)
    ensures DecodeServer(EncodeServer(s) + rest) == Parsed(s, rest)
  {
    hide Word, Pow256, Integer, CString, OneByte;
    var t6 := Word(s.priority, INT) + rest;
    var t5 := Flag(s.learner) + t6;
    var t4 := (s.aux + [0]) + t5;
    var t3 := (s.endpoint + [0]) + t4;
    var t2 := Word(s.dcId, INT) + t3;
    assert EncodeServer(s) + rest == Word(s.id, INT) + t2;
    IntBack(s.id, INT, t2);
    IntBack(s.dcId, INT, t3);
    CStringBack(s.endpoint, t4);
    CStringBack(s.aux, t5);
    ByteBack(if s.learner then 1 else 0, t6);
    IntBack(s.priority, INT, rest);
  }

  lemma {:induction false} ServersBack(ss: seq<SrvConfig>, rest: seq<Byte>)
    requires NoNuls(ss) && forall i | 0 <= i < |ss| :: Ranged(ss[i])
    ensures DecodeServers(EncodeServers(ss) + rest, |ss|) == Parsed(ss, rest)
  {
    hide EncodeServer, DecodeServer, Ranged, NoNul;
    if ss == [] {
      assert [] + rest == rest;
    } else {
      assert EncodeServers(ss) + rest == EncodeServer(ss[0]) + (EncodeServers(ss[1..]) + rest);
      ServerBack(ss[0], EncodeServers(ss[1..]) + rest);
      ServersBack(ss[1..], rest);
      assert [ss[0]] + ss[1..] == ss;
    }
  }

  lemma {:induction false} ServersSize(ss: seq<SrvConfig>)
    ensures |EncodeServers(ss)| >= |ss|
  {
    if ss == [] {
    } else {
      hide Word;
      ServersSize(ss[1..]);
    }
  }

  lemma Sizes()
    ensures Pow256(INT) == 0x1_0000_0000
  {
    assert Pow256(4) == 256 * Pow256(3) && Pow256(3) == 256 * Pow256(2) && Pow256(2) == 256 * Pow256(1);
  }

  /** Buffers are at most this long. */
  const LIMIT := 0x8000_0000

  lemma ConfigBack(c: ClusterConfig, rest: seq<Byte>)
    requires RangedConfig(c) && NoNuls(c.servers) && |EncodeConfig(c)| < LIMIT
    ensures DecodeConfig(EncodeConfig(c) + rest) == Parsed(c, rest)
  {
    hide Word, Pow256, Integer, Unsigned, OneByte, Counted, DecodeServers, EncodeServers;
    var t6 := EncodeServers(c.servers) + rest;
    var t5 := Word(|c.servers|, INT) + t6;
    var t4 := Word(|c.userCtx|, INT) + (c.userCtx + t5);
    var t3 := Flag(c.asyncReplication) + t4;
    var t2 := Word(c.prevLogIdx, LONG) + t3;
    assert EncodeConfig(c) + rest == Word(c.logIdx, LONG) + t2;
    Sizes();
    ServersSize(c.servers);
    WordBack(c.logIdx, LONG, t2);
    WordBack(c.prevLogIdx, LONG, t3);
    ByteBack(if c.asyncReplication then 1 else 0, t4);
    CountedBack(c.userCtx, t5);
    IntBack(|c.servers|, INT, t6);
    ServersBack(c.servers, rest);
  }

  lemma RequestBack(r: SyncReq)
    requires RangedRequest(r) && NoNuls(r.snapshot.config.servers) && |EncodeRequest(r)| < LIMIT
    ensures DecodeRequest(EncodeRequest(r)) == Parsed(r, [])
  {
    hide Word, Pow256, Integer, Unsigned, OneByte, DecodeConfig, EncodeConfig, RangedConfig;
    var s := r.snapshot;
    var u2 := Flag(r.done) + r.data;
    var u1 := Word(r.offset, LONG) + u2;
    var t4 := EncodeConfig(s.config) + u1;
    var t3 := Word(s.size, LONG) + t4;
    var t2 := Word(s.lastLogTerm, LONG) + t3;
    var t1 := Word(s.lastLogIdx, LONG) + t2;
    assert EncodeRequest(r) == [s.kind] + t1;
    ByteBack(s.kind, t1);
    WordBack(s.lastLogIdx, LONG, t2);
    WordBack(s.lastLogTerm, LONG, t3);
    WordBack(s.size, LONG, t4);
    ConfigBack(s.config, u1);
    WordBack(r.offset, LONG, u2);
    ByteBack(if r.done then 1 else 0, r.data);
  }

  // ---------- When the round trip fails ----------

  lemma {:induction false} StrlenNoNul(s: seq<Byte>)
    ensures 0 !in s[..Strlen(s)]
  {
    if s != [] && s[0] != 0 {
      StrlenNoNul(s[1..]);
      assert s[..Strlen(s)] == [s[0]] + s[1..][..Strlen(s[1..])];
    }
  }

  lemma ServerNoNul(s: seq<Byte>)
    ensures DecodeServer(s).Parsed? ==> NoNul(DecodeServer(s).value)
  {
    hide Word, Pow256, Integer, OneByte, Strlen;
    if Integer(s, INT).Parsed? && Integer(Integer(s, INT).rest, INT).Parsed? {
      var s2 := Integer(Integer(s, INT).rest, INT).rest;
      StrlenNoNul(s2);
      if CString(s2).Parsed? { StrlenNoNul(CString(s2).rest); }
    }
  }

  lemma {:induction false} ServersNoNul(s: seq<Byte>, count: int)
    ensures DecodeServers(s, count).Parsed? ==> NoNuls(DecodeServers(s, count).value)
    decreases count
  {
    hide DecodeServer, NoNul;
    if count > 0 && DecodeServer(s).Parsed? {
      ServerNoNul(s);
      ServersNoNul(DecodeServer(s).rest, count - 1);
    }
  }

  lemma RequestNoNul(s: seq<Byte>)
    ensures DecodeRequest(s).Parsed? ==> NoNuls(DecodeRequest(s).value.snapshot.config.servers)
  {
    hide Word, Pow256, Integer, Unsigned, OneByte, Counted, DecodeServers, NoNuls;
    forall t: seq<Byte>, count: int ensures DecodeServers(t, count).Parsed? ==> NoNuls(DecodeServers(t, count).value) {
      ServersNoNul(t, count);
    }
  }

  /** A request comes back unchanged exactly when no endpoint or auxiliary string holds a zero byte. */
  lemma RequestRoundTrip(r: SyncReq)
    requires RangedRequest(r) && |EncodeRequest(r)| < LIMIT
    ensures DecodeRequest(EncodeRequest(r)) == Parsed(r, []) <==> NoNuls(r.snapshot.config.servers)
  {
    hide DecodeRequest, EncodeRequest, RangedRequest, NoNuls;
    RequestNoNul(EncodeRequest(r));
    if NoNuls(r.snapshot.config.servers) { RequestBack(r); }
  }
}
