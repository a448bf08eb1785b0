/**
  The cache as a plain sequence in most-recently-used order: what reads, writes and purges do to it,
  what eviction removes, and the bounds that follow.
 */
module Lru {
  import opened Wrappers
  import opened LittleEndian

  type Key = seq<Byte>

  datatype Item = Item(data: seq<Byte>, expiresAt: int)

  datatype Entry = Entry(key: Key, item: Item)

  /**
    `overhead` is the fixed per-item cost, the sizes of the item record and of a list iterator.
    `wordSize` is the size of a size or a time.
   */
  datatype Config = Config(cacheSize: nat, maxKeySize: nat, purgeInterval: int, overhead: nat, wordSize: nat)

  datatype Commit =
    | Read(key: Key, at: int)
    | Write(key: Key, item: Item, at: int)
    | Purge(at: int)

  // ---------- Lookup and size ----------

  predicate Expired(item: Item, t: int) {
    item.expiresAt <= t
  }

  /** The first item under the key. */
  function Find(rec: seq<Entry>, key: Key): Option<Item> {
    if rec == [] then None
    else if rec[0].key == key then Some(rec[0].item)
    else Find(rec[1..], key)
  }

  /** The unexpired item under the key. */
  function Get(rec: seq<Entry>, key: Key, t: int): Option<Item> {
    match Find(rec, key)
    case None => None
    case Some(item) => if Expired(item, t) then None else Some(item)
  }

  /** The key is present but its item has expired and is not purged yet. */
  predicate Stale(rec: seq<Entry>, key: Key, t: int) {
    Find(rec, key).Some? && Get(rec, key, t).None?
  }

  function Size(cfg: Config, key: Key, item: Item): nat {
    cfg.overhead + |item.data| + |key|
  }

  function Total(cfg: Config, rec: seq<Entry>): nat {
    if rec == [] then 0 else Size(cfg, rec[0].key, rec[0].item) + Total(cfg, rec[1..])
  }

  ghost predicate Keyed(rec: seq<Entry>) {
    forall i, j | 0 <= i < j < |rec| :: rec[i].key != rec[j].key
  }

  // ---------- Changes ----------

  /** The sequence without the first entry of the key. */
  function Without(rec: seq<Entry>, key: Key): seq<Entry> {
    if rec == [] then []
    else if rec[0].key == key then rec[1..]
    else [rec[0]] + Without(rec[1..], key)
  }

  /** A read moves its entry to the front. */
  function Touch(rec: seq<Entry>, key: Key, t: int): seq<Entry> {
    match Get(rec, key, t)
    case None => rec
    case Some(item) => [Entry(key, item)] + Without(rec, key)
  }

  /** Walk from the least recently used end, dropping entries other than `key` until enough is available. */
  function Evict(cfg: Config, rec: seq<Entry>, key: Key, available: int, required: int): seq<Entry>
    decreases |rec|
  {
    if available >= required || rec == [] then rec
    else
      var last := rec[|rec| - 1];
      var rest := rec[..|rec| - 1];
      if last.key == key then Evict(cfg, rest, key, available, required) + [last]
      else Evict(cfg, rest, key, available + Size(cfg, last.key, last.item), required)
  }

  function OldSize(cfg: Config, rec: seq<Entry>, key: Key, t: int): nat {
    match Get(rec, key, t)
    case None => 0
    case Some(item) => Size(cfg, key, item)
  }

  /** The sequence a write leaves before its own entry goes in. */
  function Room(cfg: Config, rec: seq<Entry>, key: Key, item: Item, t: int): seq<Entry> {
    Evict(cfg, rec, key, cfg.cacheSize - Total(cfg, rec), Size(cfg, key, item) - OldSize(cfg, rec, key, t))
  }

  predicate Accepted(cfg: Config, key: Key, item: Item, t: int) {
    |key| <= cfg.maxKeySize && !Expired(item, t)
  }

  function Put(cfg: Config, rec: seq<Entry>, key: Key, item: Item, t: int): seq<Entry> {
    var room := Room(cfg, rec, key, item, t);
    [Entry(key, item)] + (if Get(rec, key, t).Some? then Without(room, key) else room)
  }

  /** The remainder as C++ computes it: it takes the sign of the dividend. */
  function Remainder(a: int, b: int): int
    requires b > 0
  {
    if a >= 0 then a % b else -((-a) % b)
  }

  function NextPurge(t: int, interval: int): int
    requires interval > 0
  {
    t + (interval - Remainder(t, interval))
  }

  /** A purge at time t removes the items whose bucket is due. */
  predicate Due(cfg: Config, item: Item, t: int)
    requires cfg.purgeInterval > 0
  {
    NextPurge(item.expiresAt, cfg.purgeInterval) <= NextPurge(t, cfg.purgeInterval) - cfg.purgeInterval
  }

  function Purged(cfg: Config, rec: seq<Entry>, t: int): seq<Entry>
    requires cfg.purgeInterval > 0
  {
    if rec == [] then []
    else (if Due(cfg, rec[0].item, t) then [] else [rec[0]]) + Purged(cfg, rec[1..], t)
  }

  function Apply(cfg: Config, rec: seq<Entry>, c: Commit): seq<Entry>
    requires cfg.purgeInterval > 0
  {
    match c
    case Read(key, t) => Touch(rec, key, t)
    case Write(key, item, t) => if Accepted(cfg, key, item, t) then Put(cfg, rec, key, item, t) else rec
    case Purge(t) => Purged(cfg, rec, t)
  }

  function ApplyAll(cfg: Config, rec: seq<Entry>, cs: seq<Commit>): seq<Entry>
    requires cfg.purgeInterval > 0
    decreases |cs|
  {
    if cs == [] then rec else ApplyAll(cfg, Apply(cfg, rec, cs[0]), cs[1..])
  }

  // ---------- Facts about keys ----------

  ghost predicate Lacks(rec: seq<Entry>, key: Key) {
    forall i | 0 <= i < |rec| :: rec[i].key != key
  }

  lemma {:induction false} WithoutAt(rec: seq<Entry>, i: nat)
    requires Keyed(rec) && i < |rec|
    ensures Without(rec, rec[i].key) == rec[..i] + rec[i + 1..]
    ensures Find(rec, rec[i].key) == Some(rec[i].item)
  {
    if i == 0 {
    } else {
      var rest := rec[1..];
      assert rec[0].key != rec[i].key && rest[i - 1] == rec[i];
      WithoutAt(rest, i - 1);
      assert [rec[0]] + (rest[..i - 1] + rest[i..]) == rec[..i] + rec[i + 1..];
    }
  }

  lemma {:induction false} FindAbsent(rec: seq<Entry>, key: Key)
    ensures Lacks(rec, key) <==> Find(rec, key).None?
  {
    if rec == [] {
    } else {
      FindAbsent(rec[1..], key);
      assert rec[0].key != key ==> (Lacks(rec, key) <==> Lacks(rec[1..], key)) by {
        assert forall i | 0 <= i < |rec| && i != 0 :: rec[i] == rec[1..][i - 1];
      }
    }
  }

  /** A key that is found is found at one place. */
  lemma {:induction false} FindAt(rec: seq<Entry>, key: Key) returns (i: nat)
    requires Find(rec, key).Some?
    ensures i < |rec| && rec[i] == Entry(key, Find(rec, key).value)
  {
    if rec[0].key == key {
      i := 0;
    } else {
      i := FindAt(rec[1..], key);
      i := i + 1;
    }
  }

  lemma {:induction false} WithoutAbsent(rec: seq<Entry>, key: Key)
    requires Lacks(rec, key)
    ensures Without(rec, key) == rec
  {
    if rec == [] {
    } else {
      WithoutAbsent(rec[1..], key);
    }
  }

  lemma {:induction false} TotalConcat(cfg: Config, a: seq<Entry>, b: seq<Entry>)
    ensures Total(cfg, a + b) == Total(cfg, a) + Total(cfg, b)
  {
    if a == [] {
      assert a + b == b;
    } else {
      assert (a + b)[1..] == a[1..] + b;
      TotalConcat(cfg, a[1..], b);
    }
  }

  lemma {:induction false} TotalWithout(cfg: Config, rec: seq<Entry>, key: Key)
    ensures Total(cfg, Without(rec, key)) ==
            Total(cfg, rec) - (match Find(rec, key) case None => 0 case Some(item) => Size(cfg, key, item))
  {
    if rec != [] && rec[0].key != key {
      TotalWithout(cfg, rec[1..], key);
      assert ([rec[0]] + Without(rec[1..], key))[1..] == Without(rec[1..], key);
    }
  }
}
