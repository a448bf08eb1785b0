/** Eviction is exactly least-recently-used and minimal, memory stays bounded, purges are sound and timely. */
module LruBounds {
  import opened Lru

  // ---------- Eviction ----------

  /** The entries of the protected key. */
  function Only(rec: seq<Entry>, key: Key): seq<Entry> {
    if rec == [] then [] else (if rec[0].key == key then [rec[0]] else []) + Only(rec[1..], key)
  }

  /** The bytes all other entries take. */
  function Freed(cfg: Config, rec: seq<Entry>, key: Key): nat {
    if rec == [] then 0
    else (if rec[0].key == key then 0 else Size(cfg, rec[0].key, rec[0].item)) + Freed(cfg, rec[1..], key)
  }

  lemma {:induction false} OnlyConcat(a: seq<Entry>, b: seq<Entry>, key: Key)
    ensures Only(a + b, key) == Only(a, key) + Only(b, key)
  {
    if a == [] {
      assert a + b == b;
    } else {
      assert (a + b)[0] == a[0] && (a + b)[1..] == a[1..] + b;
      var first := if a[0].key == key then [a[0]] else [];
      assert Only(a + b, key) == first + Only((a + b)[1..], key);
      OnlyConcat(a[1..], b, key);
      assert first + (Only(a[1..], key) + Only(b, key)) == first + Only(a[1..], key) + Only(b, key);
    }
  }

  lemma {:induction false} FreedConcat(cfg: Config, a: seq<Entry>, b: seq<Entry>, key: Key)
    ensures Freed(cfg, a + b, key) == Freed(cfg, a, key) + Freed(cfg, b, key)
  {
    if a == [] {
      assert a + b == b;
    } else {
      assert (a + b)[1..] == a[1..] + b;
      FreedConcat(cfg, a[1..], b, key);
    }
  }

  lemma {:induction false} OnlyAndFreed(cfg: Config, rec: seq<Entry>, key: Key)
    ensures Total(cfg, rec) == Total(cfg, Only(rec, key)) + Freed(cfg, rec, key)
  {
    if rec == [] {
    } else {
      OnlyAndFreed(cfg, rec[1..], key);
      TotalConcat(cfg, if rec[0].key == key then [rec[0]] else [], Only(rec[1..], key));
    }
  }

  /** Cutting at n keeps the first n entries and the protected ones after them; it is the last cut that frees enough. */
  ghost predicate IsCut(cfg: Config, rec: seq<Entry>, key: Key, available: int, required: int, n: nat) {
    && n <= |rec|
    && (n == 0 || available + Freed(cfg, rec[n..], key) >= required)
    && forall m | n < m <= |rec| :: available + Freed(cfg, rec[m..], key) < required
  }

  lemma FreedLast(cfg: Config, rec: seq<Entry>, m: nat, key: Key)
    requires m < |rec|
    ensures var last, rest := rec[|rec| - 1], rec[..|rec| - 1];
            Freed(cfg, rec[m..], key) ==
            Freed(cfg, rest[m..], key) + (if last.key == key then 0 else Size(cfg, last.key, last.item))
  {
    var last, rest := rec[|rec| - 1], rec[..|rec| - 1];
    assert rec[m..] == rest[m..] + [last];
    FreedConcat(cfg, rest[m..], [last], key);
    assert [last][1..] == [];
  }

  lemma FreedNothing(cfg: Config, rec: seq<Entry>, key: Key)
    ensures Freed(cfg, rec[|rec|..], key) == 0
  {
    assert rec[|rec|..] == [];
  }

  lemma ExtendCut(cfg: Config, rec: seq<Entry>, key: Key, available: int, required: int, n: nat)
    requires rec != [] && available < required
    requires var last := rec[|rec| - 1];
             IsCut(cfg, rec[..|rec| - 1], key,
                   if last.key == key then available else available + Size(cfg, last.key, last.item), required, n)
    ensures IsCut(cfg, rec, key, available, required, n)
  {
    hide Freed, Size;
    var last, rest := rec[|rec| - 1], rec[..|rec| - 1];
    forall m | n <= m <= |rest|
      ensures Freed(cfg, rec[m..], key) ==
              Freed(cfg, rest[m..], key) + (if last.key == key then 0 else Size(cfg, last.key, last.item))
    {
      FreedLast(cfg, rec, m, key);
    }
    FreedNothing(cfg, rec, key);
  }

  lemma OnlyLast(rec: seq<Entry>, n: nat, key: Key)
    requires n < |rec|
    ensures var last, rest := rec[|rec| - 1], rec[..|rec| - 1];
            && rec[..n] == rest[..n]
            && Only(rec[n..], key) == Only(rest[n..], key) + if last.key == key then [last] else []
  {
    var last, rest := rec[|rec| - 1], rec[..|rec| - 1];
    assert rec[n..] == rest[n..] + [last];
    OnlyConcat(rest[n..], [last], key);
  }

  lemma WholeCut(cfg: Config, rec: seq<Entry>, key: Key, available: int, required: int)
    requires available >= required || rec == []
    ensures IsCut(cfg, rec, key, available, required, |rec|)
    ensures Evict(cfg, rec, key, available, required) == rec[..|rec|] + Only(rec[|rec|..], key)
  {
    assert rec[|rec|..] == [];
  }

  lemma EvictLast(cfg: Config, rec: seq<Entry>, key: Key, available: int, required: int)
    requires available < required && rec != []
    ensures var last, rest := rec[|rec| - 1], rec[..|rec| - 1];
            Evict(cfg, rec, key, available, required) ==
            if last.key == key then Evict(cfg, rest, key, available, required) + [last]
            else Evict(cfg, rest, key, available + Size(cfg, last.key, last.item), required)
  {
    hide Size;
  }

  /** Eviction removes the shortest run of least recently used entries that frees enough, skipping the key. */
  lemma {:induction false} EvictIsMinimal(cfg: Config, rec: seq<Entry>, key: Key, available: int, required: int)
    returns (n: nat)
    ensures IsCut(cfg, rec, key, available, required, n)
    ensures Evict(cfg, rec, key, available, required) == rec[..n] + Only(rec[n..], key)
    decreases |rec|
  {
    hide Evict, Only, Freed, Size;
    if available >= required || rec == [] {
      n := |rec|;
      WholeCut(cfg, rec, key, available, required);
    } else {
      var last, rest := rec[|rec| - 1], rec[..|rec| - 1];
      EvictLast(cfg, rec, key, available, required);
      n := EvictIsMinimal(cfg, rest, key,
                          if last.key == key then available else available + Size(cfg, last.key, last.item), required);
      ExtendCut(cfg, rec, key, available, required, n);
      OnlyLast(rec, n, key);
    }
  }

  lemma {:induction false} OnlyFind(rec: seq<Entry>, key: Key)
    ensures Find(Only(rec, key), key) == Find(rec, key)
    ensures forall i | 0 <= i < |Only(rec, key)| :: Only(rec, key)[i].key == key
  {
    if rec == [] {
    } else {
      OnlyFind(rec[1..], key);
    }
  }

  lemma {:induction false} FindConcat(a: seq<Entry>, b: seq<Entry>, key: Key)
    ensures Find(a + b, key) == if Find(a, key).Some? then Find(a, key) else Find(b, key)
  {
    if a == [] {
      assert a + b == b;
    } else {
      assert (a + b)[1..] == a[1..] + b;
      FindConcat(a[1..], b, key);
    }
  }

  /** The protected key survives eviction. */
  lemma EvictKeepsKey(cfg: Config, rec: seq<Entry>, key: Key, available: int, required: int)
    ensures Find(Evict(cfg, rec, key, available, required), key) == Find(rec, key)
  {
    var n := EvictIsMinimal(cfg, rec, key, available, required);
    assert rec == rec[..n] + rec[n..];
    FindConcat(rec[..n], rec[n..], key);
    FindConcat(rec[..n], Only(rec[n..], key), key);
    OnlyFind(rec[n..], key);
  }

  ghost predicate Among(a: seq<Entry>, b: seq<Entry>) {
    forall i | 0 <= i < |a| :: a[i] in b
  }

  lemma {:induction false} EvictKeyed(cfg: Config, rec: seq<Entry>, key: Key, available: int, required: int)
    requires Keyed(rec)
    ensures Keyed(Evict(cfg, rec, key, available, required)) && Among(Evict(cfg, rec, key, available, required), rec)
    decreases |rec|
  {
    if available < required && rec != [] {
      var last, rest := rec[|rec| - 1], rec[..|rec| - 1];
      var a := if last.key == key then available else available + Size(cfg, last.key, last.item);
      EvictKeyed(cfg, rest, key, a, required);
      var kept := Evict(cfg, rest, key, a, required);
      forall i | 0 <= i < |kept| ensures kept[i] in rec && kept[i].key != last.key {
        assert kept[i] in rest;
      }
    }
  }

  // ---------- Writes ----------

  lemma EvictTotal(cfg: Config, rec: seq<Entry>, n: nat, key: Key)
    requires n <= |rec|
    ensures Total(cfg, rec[..n] + Only(rec[n..], key)) == Total(cfg, rec) - Freed(cfg, rec[n..], key)
  {
    TotalConcat(cfg, rec[..n], Only(rec[n..], key));
    OnlyAndFreed(cfg, rec[n..], key);
    assert rec == rec[..n] + rec[n..];
    TotalConcat(cfg, rec[..n], rec[n..]);
  }

  /** Of a keyed sequence only the one entry of the key is protected. */
  lemma {:induction false} OnlyOne(cfg: Config, rec: seq<Entry>, key: Key)
    requires Keyed(rec)
    ensures Total(cfg, Only(rec, key)) == (match Find(rec, key) case None => 0 case Some(item) => Size(cfg, key, item))
  {
    if rec == [] {
    } else {
      OnlyOne(cfg, rec[1..], key);
      TotalConcat(cfg, if rec[0].key == key then [rec[0]] else [], Only(rec[1..], key));
      if rec[0].key == key {
        FindAbsent(rec[1..], key);
      }
    }
  }

  /** What eviction leaves, without the old item, has room for the new one. */
  lemma RoomFits(cfg: Config, rec: seq<Entry>, key: Key, item: Item, t: int)
    requires Keyed(rec) && !Stale(rec, key, t) && Size(cfg, key, item) <= cfg.cacheSize
    ensures Size(cfg, key, item) + Total(cfg, Room(cfg, rec, key, item, t)) - OldSize(cfg, rec, key, t) <= cfg.cacheSize
  {
    hide Evict, Only, Freed, Total, Find, Size, Keyed;
    var available := cfg.cacheSize - Total(cfg, rec);
    var required := Size(cfg, key, item) - OldSize(cfg, rec, key, t);
    var n := EvictIsMinimal(cfg, rec, key, available, required);
    EvictTotal(cfg, rec, n, key);
    if n == 0 {
      assert rec[n..] == rec;
      OnlyOne(cfg, rec, key);
      OnlyAndFreed(cfg, rec, key);
    }
  }

  lemma RoomKeepsKey(cfg: Config, rec: seq<Entry>, key: Key, item: Item, t: int)
    ensures Find(Room(cfg, rec, key, item, t), key) == Find(rec, key)
  {
    EvictKeepsKey(cfg, rec, key, cfg.cacheSize - Total(cfg, rec), Size(cfg, key, item) - OldSize(cfg, rec, key, t));
  }

  lemma ConsTotal(cfg: Config, e: Entry, rec: seq<Entry>)
    ensures Total(cfg, [e] + rec) == Size(cfg, e.key, e.item) + Total(cfg, rec)
  {
    assert ([e] + rec)[1..] == rec;
  }

  /** A write of an item that fits by itself keeps the total within the cache size. */
  lemma PutFits(cfg: Config, rec: seq<Entry>, key: Key, item: Item, t: int)
    requires Keyed(rec) && !Stale(rec, key, t) && Size(cfg, key, item) <= cfg.cacheSize
    ensures Total(cfg, Put(cfg, rec, key, item, t)) <= cfg.cacheSize
  {
    var room := Room(cfg, rec, key, item, t);
    RoomFits(cfg, rec, key, item, t);
    RoomKeepsKey(cfg, rec, key, item, t);
    TotalWithout(cfg, room, key);
    ConsTotal(cfg, Entry(key, item), if Get(rec, key, t).Some? then Without(room, key) else room);
  }

  lemma ConsKeyed(e: Entry, rec: seq<Entry>)
    ensures Keyed([e] + rec) <==> Keyed(rec) && Lacks(rec, e.key)
  {
    var all := [e] + rec;
    if Keyed(all) {
      forall i, j | 0 <= i < j < |rec| ensures rec[i].key != rec[j].key {
        assert all[i + 1] == rec[i] && all[j + 1] == rec[j];
      }
      forall i | 0 <= i < |rec| ensures rec[i].key != e.key { assert all[i + 1] == rec[i] && all[0] == e; }
    }
  }

  lemma {:induction false} WithoutKeyed(rec: seq<Entry>, key: Key)
    requires Keyed(rec)
    ensures Keyed(Without(rec, key)) && Lacks(Without(rec, key), key) && Among(Without(rec, key), rec)
  {
    if rec == [] {
    } else {
      var first, rest := rec[0], rec[1..];
      assert rec == [first] + rest;
      ConsKeyed(first, rest);
      if first.key != key {
        WithoutKeyed(rest, key);
        hide Keyed, Without;
        LacksAmong(Without(rest, key), rest, first.key);
        ConsKeyed(first, Without(rest, key));
      }
    }
  }

  lemma LacksAmong(a: seq<Entry>, b: seq<Entry>, key: Key)
    requires Among(a, b) && Lacks(b, key)
    ensures Lacks(a, key)
  {
    forall i | 0 <= i < |a| ensures a[i].key != key { assert a[i] in b; }
  }

  /** A write keeps one entry per key exactly when the key is absent or its item unexpired. */
  lemma PutKeyed(cfg: Config, rec: seq<Entry>, key: Key, item: Item, t: int)
    requires Keyed(rec)
    ensures Keyed(Put(cfg, rec, key, item, t)) <==> !Stale(rec, key, t)
  {
    var room := Room(cfg, rec, key, item, t);
    EvictKeyed(cfg, rec, key, cfg.cacheSize - Total(cfg, rec), Size(cfg, key, item) - OldSize(cfg, rec, key, t));
    RoomKeepsKey(cfg, rec, key, item, t);
    FindAbsent(room, key);
    WithoutKeyed(room, key);
    ConsKeyed(Entry(key, item), if Get(rec, key, t).Some? then Without(room, key) else room);
  }

  // ---------- Runs ----------

  /** No write of the run meets an expired item that is not yet purged. */
  ghost predicate Clean(cfg: Config, rec: seq<Entry>, cs: seq<Commit>)
    requires cfg.purgeInterval > 0
    decreases |cs|
  {
    cs == [] || (CleanCommit(cfg, rec, cs[0]) && Clean(cfg, Apply(cfg, rec, cs[0]), cs[1..]))
  }

  ghost predicate CleanCommit(cfg: Config, rec: seq<Entry>, c: Commit) {
    c.Write? && Accepted(cfg, c.key, c.item, c.at) ==> !Stale(rec, c.key, c.at)
  }

  ghost predicate Fitting(cfg: Config, cs: seq<Commit>) {
    forall i | 0 <= i < |cs| :: cs[i].Write? ==> Size(cfg, cs[i].key, cs[i].item) <= cfg.cacheSize
  }

  lemma TouchKeeps(cfg: Config, rec: seq<Entry>, key: Key, t: int)
    requires Keyed(rec)
    ensures Keyed(Touch(rec, key, t)) && Total(cfg, Touch(rec, key, t)) == Total(cfg, rec)
  {
    if Get(rec, key, t).Some? {
      var e := Entry(key, Find(rec, key).value);
      WithoutKeyed(rec, key);
      ConsKeyed(e, Without(rec, key));
      TotalWithout(cfg, rec, key);
      ConsTotal(cfg, e, Without(rec, key));
    }
  }

  lemma {:induction false} PurgedKeeps(cfg: Config, rec: seq<Entry>, t: int)
    requires cfg.purgeInterval > 0 && Keyed(rec)
    ensures Keyed(Purged(cfg, rec, t)) && Total(cfg, Purged(cfg, rec, t)) <= Total(cfg, rec)
    ensures Among(Purged(cfg, rec, t), rec)
  {
    if rec == [] {
    } else {
      PurgedKeeps(cfg, rec[1..], t);
      var rest := Purged(cfg, rec[1..], t);
      TotalConcat(cfg, if Due(cfg, rec[0].item, t) then [] else [rec[0]], rest);
      forall i | 0 <= i < |rest| ensures rest[i] in rec && rest[i].key != rec[0].key {
        assert rest[i] in rec[1..];
      }
    }
  }

  lemma ApplyKeeps(cfg: Config, rec: seq<Entry>, c: Commit)
    requires cfg.purgeInterval > 0 && Keyed(rec) && CleanCommit(cfg, rec, c)
    ensures Keyed(Apply(cfg, rec, c))
    ensures Total(cfg, rec) <= cfg.cacheSize && (c.Write? ==> Size(cfg, c.key, c.item) <= cfg.cacheSize)
            ==> Total(cfg, Apply(cfg, rec, c)) <= cfg.cacheSize
  {
    match c
    case Read(key, t) => TouchKeeps(cfg, rec, key, t);
    case Write(key, item, t) =>
      if Accepted(cfg, key, item, t) {
        PutKeyed(cfg, rec, key, item, t);
        if Size(cfg, key, item) <= cfg.cacheSize { PutFits(cfg, rec, key, item, t); }
      }
    case Purge(t) => PurgedKeeps(cfg, rec, t);
  }

  /** Memory stays within the cache size over every clean run of items that each fit, and keys stay unique. */
  lemma {:induction false} CapacityBound(cfg: Config, rec: seq<Entry>, cs: seq<Commit>)
    requires cfg.purgeInterval > 0 && Keyed(rec) && Total(cfg, rec) <= cfg.cacheSize
    requires Clean(cfg, rec, cs) && Fitting(cfg, cs)
    ensures Keyed(ApplyAll(cfg, rec, cs)) && Total(cfg, ApplyAll(cfg, rec, cs)) <= cfg.cacheSize
    decreases |cs|
  {
    if cs == [] {
    } else {
      ApplyKeeps(cfg, rec, cs[0]);
      CapacityBound(cfg, Apply(cfg, rec, cs[0]), cs[1..]);
    }
  }

  // ---------- Purges ----------

  /** For a time at or after zero, the last purge time not after it. */
  function PurgeMark(t: nat, interval: int): (m: int)
    requires interval > 0
    ensures 0 <= m <= t < m + interval
  {
    t - t % interval
  }

  lemma DivideOrder(a: nat, b: nat, i: int)
    requires i > 0
    ensures a - a % i + i <= b - b % i <==> a < b - b % i
  {
    var p, q := a / i, b / i;
    assert a == p * i + a % i && b == q * i + b % i;
    if p < q {
      assert (p + 1) * i <= q * i;
      assert (p + 1) * i == p * i + i;
    } else {
      assert q * i <= p * i;
    }
  }

  lemma DueBeforeZero(e: int, k: nat, i: int)
    requires i > 0 && e < 0
    ensures NextPurge(e, i) <= k * i <==> e <= -i || k >= 1
  {
    var a := (-e) / i;
    assert -e == a * i + (-e) % i;
    assert NextPurge(e, i) == i - a * i;
    if a >= 1 { assert a * i >= i && k * i >= 0; }
    if k >= 1 { assert k * i >= i; }
  }

  /**
    Which items a purge at time t >= 0 removes: those that expired before the last purge time, except,
    before the first interval has passed, those that expired less than an interval before time zero.
   */
  lemma DueExactly(cfg: Config, item: Item, t: nat)
    requires cfg.purgeInterval > 0
    ensures var mark := PurgeMark(t, cfg.purgeInterval);
            Due(cfg, item, t) <==> item.expiresAt < mark && (mark == 0 ==> item.expiresAt <= -cfg.purgeInterval)
  {
    hide PurgeMark, Remainder;
    var e, i := item.expiresAt, cfg.purgeInterval;
    MarkIsNext(t, i);
    if e >= 0 {
      MarkIsNext(e, i);
      MarkOrder(e, t, i);
    } else {
      var k := MarkIsMultiple(t, i);
      DueBeforeZero(e, k, i);
    }
  }

  lemma MarkIsNext(t: nat, i: int)
    requires i > 0
    ensures NextPurge(t, i) == PurgeMark(t, i) + i
  {
  }

  lemma MarkOrder(a: nat, b: nat, i: int)
    requires i > 0
    ensures PurgeMark(a, i) + i <= PurgeMark(b, i) <==> a < PurgeMark(b, i)
  {
    DivideOrder(a, b, i);
  }

  lemma MarkIsMultiple(t: nat, i: int) returns (k: nat)
    requires i > 0
    ensures PurgeMark(t, i) == k * i && (k >= 1 <==> PurgeMark(t, i) > 0)
  {
    k := t / i;
    assert t == k * i + t % i;
    assert k >= 1 ==> k * i >= i;
  }

  lemma {:induction false} PurgedMembers(cfg: Config, rec: seq<Entry>, t: int, e: Entry)
    requires cfg.purgeInterval > 0
    ensures e in Purged(cfg, rec, t) <==> e in rec && !Due(cfg, e.item, t)
  {
    if rec == [] {
    } else {
      PurgedMembers(cfg, rec[1..], t, e);
      assert e in rec <==> e == rec[0] || e in rec[1..];
    }
  }

  /** A purge removes only items already expired; whatever it leaves expired no earlier than the last purge time. */
  lemma PurgeSoundAndTimely(cfg: Config, rec: seq<Entry>, t: nat, e: Entry)
    requires cfg.purgeInterval > 0 && e in rec
    ensures e !in Purged(cfg, rec, t) ==> e.item.expiresAt < t
    ensures e in Purged(cfg, rec, t) && e.item.expiresAt >= 0 ==> e.item.expiresAt >= PurgeMark(t, cfg.purgeInterval)
  {
    PurgedMembers(cfg, rec, t, e);
    DueExactly(cfg, e.item, t);
  }
}
