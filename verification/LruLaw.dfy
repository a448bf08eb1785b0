/**
  What the recency order means, from the history alone: an entry stands before another exactly if it was used later,
  every item is the last one written, and a write removes no more of the least recently used entries than it must.
 */
module LruLaw {
  import opened Wrappers
  import opened Lru
  import opened LruBounds

  // ---------- Entries of other keys ----------

  function Others(rec: seq<Entry>, key: Key): seq<Entry> {
    if rec == [] then [] else (if rec[0].key == key then [] else [rec[0]]) + Others(rec[1..], key)
  }

  /** Positions in increasing order, and the entries there. */
  ghost predicate Picks(rec: seq<Entry>, at: seq<nat>, part: seq<Entry>) {
    && |at| == |part|
    && (forall i | 0 <= i < |at| :: at[i] < |rec| && rec[at[i]] == part[i])
    && (forall i, j | 0 <= i < j < |at| :: at[i] < at[j])
  }

  /** Going on one entry further, with that entry in front or without it. */
  lemma PicksNext(rec: seq<Entry>, at: seq<nat>, part: seq<Entry>, first: bool) returns (at': seq<nat>)
    requires rec != [] && Picks(rec[1..], at, part)
    ensures Picks(rec, at', (if first then [rec[0]] else []) + part)
  {
    var later := seq(|at|, i requires 0 <= i < |at| => at[i] + 1);
    at' := (if first then [0] else []) + later;
    var all := (if first then [rec[0]] else []) + part;
    var d := if first then 1 else 0;
    forall i | 0 <= i < |at'| ensures at'[i] < |rec| && rec[at'[i]] == all[i] {
      if i >= d { assert at'[i] == at[i - d] + 1 && all[i] == part[i - d]; }
    }
    forall i, j | 0 <= i < j < |at'| ensures at'[i] < at'[j] {
      assert at'[j] == at[j - d] + 1;
      if i >= d { assert at'[i] == at[i - d] + 1; }
    }
  }

  lemma {:induction false} OthersPick(rec: seq<Entry>, key: Key) returns (at: seq<nat>)
    ensures Picks(rec, at, Others(rec, key)) && Lacks(Others(rec, key), key)
  {
    if rec == [] {
      at := [];
    } else {
      at := OthersPick(rec[1..], key);
      at := PicksNext(rec, at, Others(rec[1..], key), rec[0].key != key);
    }
  }

  lemma {:induction false} PurgedPick(cfg: Config, rec: seq<Entry>, t: int) returns (at: seq<nat>)
    requires cfg.purgeInterval > 0
    ensures Picks(rec, at, Purged(cfg, rec, t))
  {
    if rec == [] {
      at := [];
    } else {
      at := PurgedPick(cfg, rec[1..], t);
      at := PicksNext(rec, at, Purged(cfg, rec[1..], t), !Due(cfg, rec[0].item, t));
    }
  }

  lemma {:induction false} OthersAbsent(rec: seq<Entry>, key: Key)
    requires Lacks(rec, key)
    ensures Others(rec, key) == rec
  {
    if rec == [] {
    } else {
      OthersAbsent(rec[1..], key);
    }
  }

  lemma {:induction false} WithoutIsOthers(rec: seq<Entry>, key: Key)
    requires Keyed(rec)
    ensures Without(rec, key) == Others(rec, key)
  {
    if rec == [] {
    } else if rec[0].key == key {
      assert Lacks(rec[1..], key);
      OthersAbsent(rec[1..], key);
    } else {
      WithoutIsOthers(rec[1..], key);
    }
  }

  lemma OthersNext(rec: seq<Entry>, key: Key)
    requires rec != []
    ensures Others(rec, key) == (if rec[0].key == key then [] else [rec[0]]) + Others(rec[1..], key)
  {
  }

  lemma OthersNone(key: Key)
    ensures Others([], key) == []
  {
  }

  lemma {:induction false} OthersConcat(a: seq<Entry>, b: seq<Entry>, key: Key)
    ensures Others(a + b, key) == Others(a, key) + Others(b, key)
  {
    hide Others;
    if a == [] {
      assert a + b == b;
      OthersNone(key);
    } else {
      assert (a + b)[0] == a[0] && (a + b)[1..] == a[1..] + b;
      OthersNext(a + b, key);
      OthersNext(a, key);
      OthersConcat(a[1..], b, key);
      var first := if a[0].key == key then [] else [a[0]];
      assert first + (Others(a[1..], key) + Others(b, key)) == first + Others(a[1..], key) + Others(b, key);
    }
  }

  lemma {:induction false} OthersOfOnly(rec: seq<Entry>, key: Key)
    ensures Others(Only(rec, key), key) == []
  {
    if rec == [] {
    } else {
      OthersOfOnly(rec[1..], key);
      var first := if rec[0].key == key then [rec[0]] else [];
      OthersConcat(first, Only(rec[1..], key), key);
    }
  }

  lemma {:induction false} OnlyAbsent(rec: seq<Entry>, key: Key)
    requires Lacks(rec, key)
    ensures Only(rec, key) == []
  {
    if rec == [] {
    } else {
      OnlyAbsent(rec[1..], key);
    }
  }

  // ---------- A read moves its entry to the front ----------

  ghost predicate Live(rec: seq<Entry>, key: Key, t: int) {
    exists i | 0 <= i < |rec| :: rec[i].key == key && t < rec[i].item.expiresAt
  }

  ghost predicate MovedToFront(rec: seq<Entry>, key: Key, rec': seq<Entry>) {
    exists i | 0 <= i < |rec| :: rec[i].key == key && rec' == [rec[i]] + (rec[..i] + rec[i + 1..])
  }

  /** A read of an unexpired entry moves it to the front; any other read changes nothing. */
  lemma ReadMoves(rec: seq<Entry>, key: Key, t: int)
    requires Keyed(rec)
    ensures Get(rec, key, t).Some? <==> Live(rec, key, t)
    ensures if Live(rec, key, t) then MovedToFront(rec, key, Touch(rec, key, t)) else Touch(rec, key, t) == rec
  {
    if i :| 0 <= i < |rec| && rec[i].key == key {
      WithoutAt(rec, i);
    } else {
      FindAbsent(rec, key);
    }
  }

  // ---------- A write removes the least it must ----------

  /** What a write needs beyond the key's present item, in bytes. */
  function Needed(cfg: Config, rec: seq<Entry>, key: Key, item: Item): int {
    var size := cfg.overhead + |key| + |item.data|;
    match Find(rec, key)
    case None => size
    case Some(old') => size - (cfg.overhead + |key| + |old'.data|)
  }

  /** The new entry, then the other keys of the longest part in front that leaves enough room. */
  ghost predicate WrittenFrom(cfg: Config, rec: seq<Entry>, key: Key, item: Item, rec': seq<Entry>, n: nat) {
    && IsCut(cfg, rec, key, cfg.cacheSize - Total(cfg, rec), Needed(cfg, rec, key, item), n)
    && rec' == [Entry(key, item)] + Others(rec[..n], key)
  }

  ghost predicate LeastEvicted(cfg: Config, rec: seq<Entry>, key: Key, item: Item, rec': seq<Entry>) {
    exists n: nat :: WrittenFrom(cfg, rec, key, item, rec', n)
  }

  lemma CutKeyed(rec: seq<Entry>, n: nat, key: Key)
    requires Keyed(rec) && n <= |rec|
    ensures Without(rec[..n] + Only(rec[n..], key), key) == Others(rec[..n], key)
  {
    KeptKeyed(rec, n, key);
    WithoutIsOthers(rec[..n] + Only(rec[n..], key), key);
    OthersConcat(rec[..n], Only(rec[n..], key), key);
    OthersOfOnly(rec[n..], key);
  }

  lemma {:induction false} OnlyPick(rec: seq<Entry>, key: Key) returns (at: seq<nat>)
    ensures Picks(rec, at, Only(rec, key))
  {
    if rec == [] {
      at := [];
    } else {
      at := OnlyPick(rec[1..], key);
      at := PicksNext(rec, at, Only(rec[1..], key), rec[0].key == key);
    }
  }

  lemma KeptKeyed(rec: seq<Entry>, n: nat, key: Key)
    requires Keyed(rec) && n <= |rec|
    ensures Keyed(rec[..n] + Only(rec[n..], key))
  {
    var only := Only(rec[n..], key);
    var at := OnlyPick(rec[n..], key);
    var kept := rec[..n] + only;
    hide Only;
    forall i, j | 0 <= i < j < |kept| ensures kept[i].key != kept[j].key {
      var x := if i < n then i else n + at[i - n];
      var y := if j < n then j else n + at[j - n];
      assert x < y < |rec| && kept[i] == rec[x] && kept[j] == rec[y];
    }
  }

  lemma CutInside(cfg: Config, rec: seq<Entry>, key: Key, available: int, required: int, n: nat)
    requires IsCut(cfg, rec, key, available, required, n)
    ensures n <= |rec|
  {
  }

  /** A write keeps the most recently used entries for which there is room, and no fewer. */
  lemma PutIsMinimal(cfg: Config, rec: seq<Entry>, key: Key, item: Item, t: int)
    requires Keyed(rec) && !Stale(rec, key, t)
    ensures LeastEvicted(cfg, rec, key, item, Put(cfg, rec, key, item, t))
  {
    hide Evict, Freed, Total, IsCut, Keyed, Only, Others;
    var n := EvictIsMinimal(cfg, rec, key, cfg.cacheSize - Total(cfg, rec), Needed(cfg, rec, key, item));
    assert n <= |rec| by { CutInside(cfg, rec, key, cfg.cacheSize - Total(cfg, rec), Needed(cfg, rec, key, item), n); }
    if Find(rec, key).Some? {
      CutKeyed(rec, n, key);
    } else {
      FindAbsent(rec, key);
      assert Lacks(rec[n..], key) && Lacks(rec[..n], key);
      OnlyAbsent(rec[n..], key);
      OthersAbsent(rec[..n], key);
    }
    assert WrittenFrom(cfg, rec, key, item, Put(cfg, rec, key, item, t), n);
  }

  // ---------- Order of use ----------

  /** A read that finds the key, or a write that is accepted. */
  ghost predicate Uses(cfg: Config, rec: seq<Entry>, c: Commit, key: Key) {
    match c
    case Read(k, t) => k == key && Get(rec, key, t).Some?
    case Write(k, item, t) => k == key && Accepted(cfg, key, item, t)
    case Purge(_) => false
  }

  function Front(cs: seq<Commit>): seq<Commit>
    requires cs != []
  {
    cs[..|cs| - 1]
  }

  /** The last commit that used the key, or -1. */
  ghost function LastUse(cfg: Config, rec: seq<Entry>, cs: seq<Commit>, key: Key): (u: int)
    requires cfg.purgeInterval > 0
    ensures -1 <= u < |cs|
    decreases |cs|
  {
    if cs == [] then -1
    else if Uses(cfg, ApplyAll(cfg, rec, Front(cs)), cs[|cs| - 1], key) then |cs| - 1
    else LastUse(cfg, rec, Front(cs), key)
  }

  /** The item of the last accepted write of the key, or what was there before. */
  ghost function LastWritten(cfg: Config, rec: seq<Entry>, cs: seq<Commit>, key: Key): Option<Item>
    decreases |cs|
  {
    if cs == [] then Find(rec, key)
    else
      var c := cs[|cs| - 1];
      if c.Write? && c.key == key && Accepted(cfg, key, c.item, c.at) then Some(c.item)
      else LastWritten(cfg, rec, Front(cs), key)
  }

  /** The first position of the key, or the length. */
  function PlaceOf(rec: seq<Entry>, key: Key): (p: nat)
    ensures p <= |rec|
  {
    if rec == [] || rec[0].key == key then 0 else 1 + PlaceOf(rec[1..], key)
  }

  /** Used later ranks higher; what was not used ranks below, in the order it had. */
  ghost function Rank(cfg: Config, rec: seq<Entry>, cs: seq<Commit>, key: Key): int
    requires cfg.purgeInterval > 0
  {
    var u := LastUse(cfg, rec, cs, key);
    if u >= 0 then u else -1 - PlaceOf(rec, key)
  }

  ghost predicate InUseOrder(cfg: Config, rec: seq<Entry>, cs: seq<Commit>, rec': seq<Entry>)
    requires cfg.purgeInterval > 0
  {
    forall i, j | 0 <= i < j < |rec'| :: Rank(cfg, rec, cs, rec'[i].key) > Rank(cfg, rec, cs, rec'[j].key)
  }

  ghost predicate AsWritten(cfg: Config, rec: seq<Entry>, cs: seq<Commit>, rec': seq<Entry>) {
    forall i | 0 <= i < |rec'| :: LastWritten(cfg, rec, cs, rec'[i].key) == Some(rec'[i].item)
  }

  // ---------- Runs ----------

  lemma {:induction false} ApplyAllLast(cfg: Config, rec: seq<Entry>, cs: seq<Commit>)
    requires cfg.purgeInterval > 0 && cs != []
    ensures ApplyAll(cfg, rec, cs) == Apply(cfg, ApplyAll(cfg, rec, Front(cs)), cs[|cs| - 1])
    ensures Clean(cfg, rec, cs) ==>
              Clean(cfg, rec, Front(cs)) && CleanCommit(cfg, ApplyAll(cfg, rec, Front(cs)), cs[|cs| - 1])
    decreases |cs|
  {
    hide Apply, CleanCommit;
    if |cs| == 1 {
      assert cs[1..] == [] && Front(cs) == [];
    } else {
      assert Front(cs)[1..] == Front(cs[1..]) && Front(cs)[0] == cs[0];
      ApplyAllLast(cfg, Apply(cfg, rec, cs[0]), cs[1..]);
    }
  }

  /** The item a use puts in front: the one found, or the one written. */
  ghost predicate InFront(rec: seq<Entry>, c: Commit, item: Item) {
    match c
    case Read(key, _) => Find(rec, key) == Some(item)
    case Write(_, written, _) => item == written
    case Purge(_) => false
  }

  /** One commit puts what it uses in front and keeps, of the rest, a part in the same order. */
  lemma AppliedShape(cfg: Config, rec: seq<Entry>, c: Commit) returns (at: seq<nat>, part: seq<Entry>)
    requires cfg.purgeInterval > 0 && Keyed(rec) && CleanCommit(cfg, rec, c)
    ensures Picks(rec, at, part)
    ensures if !c.Purge? && Uses(cfg, rec, c, c.key)
            then Lacks(part, c.key) &&
                 exists item :: InFront(rec, c, item) && Apply(cfg, rec, c) == [Entry(c.key, item)] + part
            else Apply(cfg, rec, c) == part
  {
    at, part := seq(|rec|, i requires 0 <= i < |rec| => i), rec;
    match c
    case Purge(t) =>
      at := PurgedPick(cfg, rec, t);
      part := Purged(cfg, rec, t);
    case Read(key, t) =>
      if Get(rec, key, t).Some? {
        at := OthersPick(rec, key);
        part := Others(rec, key);
        WithoutIsOthers(rec, key);
        assert InFront(rec, c, Get(rec, key, t).value);
      }
    case Write(key, item, t) =>
      if Accepted(cfg, key, item, t) {
        PutIsMinimal(cfg, rec, key, item, t);
        var n: nat :| WrittenFrom(cfg, rec, key, item, Put(cfg, rec, key, item, t), n);
        at := OthersPick(rec[..n], key);
        part := Others(rec[..n], key);
        assert InFront(rec, c, item);
      }
  }

  lemma PickedOrder(cfg: Config, rec: seq<Entry>, cs: seq<Commit>, mid: seq<Entry>, at: seq<nat>, part: seq<Entry>)
    requires cfg.purgeInterval > 0 && InUseOrder(cfg, rec, cs, mid) && Picks(mid, at, part)
    ensures InUseOrder(cfg, rec, cs, part)
  {
    hide Rank;
    forall i, j | 0 <= i < j < |part| ensures Rank(cfg, rec, cs, part[i].key) > Rank(cfg, rec, cs, part[j].key) {
      assert mid[at[i]] == part[i] && mid[at[j]] == part[j];
    }
  }

  lemma PickedWritten(cfg: Config, rec: seq<Entry>, cs: seq<Commit>, mid: seq<Entry>, at: seq<nat>, part: seq<Entry>)
    requires AsWritten(cfg, rec, cs, mid) && Picks(mid, at, part)
    ensures AsWritten(cfg, rec, cs, part)
  {
    hide LastWritten;
    forall i | 0 <= i < |part| ensures LastWritten(cfg, rec, cs, part[i].key) == Some(part[i].item) {
      assert mid[at[i]] == part[i];
    }
  }

  /** A commit leaves the ranks of the keys it does not use. */
  lemma RankKept(cfg: Config, rec: seq<Entry>, cs: seq<Commit>, key: Key)
    requires cfg.purgeInterval > 0 && cs != []
    ensures var used := Uses(cfg, ApplyAll(cfg, rec, Front(cs)), cs[|cs| - 1], key);
            Rank(cfg, rec, cs, key) == if used then |cs| - 1 else Rank(cfg, rec, Front(cs), key)
    ensures Rank(cfg, rec, Front(cs), key) < |cs| - 1
  {
    hide Uses, ApplyAll;
  }

  /** Each entry was used later than the next one, over every clean run and from every state. */
  lemma {:induction false} UseOrder(cfg: Config, rec: seq<Entry>, cs: seq<Commit>)
    requires cfg.purgeInterval > 0 && Keyed(rec) && Clean(cfg, rec, cs)
    ensures Keyed(ApplyAll(cfg, rec, cs)) && InUseOrder(cfg, rec, cs, ApplyAll(cfg, rec, cs))
    decreases |cs|
  {
    if cs == [] {
      StartOrder(cfg, rec);
    } else {
      var front, c := Front(cs), cs[|cs| - 1];
      ApplyAllLast(cfg, rec, cs);
      UseOrder(cfg, rec, front);
      var mid := ApplyAll(cfg, rec, front);
      ApplyKeeps(cfg, mid, c);
      var at, part := AppliedShape(cfg, mid, c);
      PickedOrder(cfg, rec, front, mid, at, part);
      OrderAfter(cfg, rec, cs, part);
    }
  }

  lemma {:induction false} PlaceAt(rec: seq<Entry>, i: nat)
    requires Keyed(rec) && i < |rec|
    ensures PlaceOf(rec, rec[i].key) == i
  {
    if i == 0 {
    } else {
      assert rec[1..][i - 1] == rec[i];
      PlaceAt(rec[1..], i - 1);
    }
  }

  lemma StartOrder(cfg: Config, rec: seq<Entry>)
    requires cfg.purgeInterval > 0 && Keyed(rec)
    ensures InUseOrder(cfg, rec, [], rec)
  {
    forall i, j | 0 <= i < j < |rec| ensures Rank(cfg, rec, [], rec[i].key) > Rank(cfg, rec, [], rec[j].key) {
      PlaceAt(rec, i);
      PlaceAt(rec, j);
    }
  }

  /** The entry in front was used last; the others are ordered as before. */
  lemma OrderAfter(cfg: Config, rec: seq<Entry>, cs: seq<Commit>, part: seq<Entry>)
    requires cfg.purgeInterval > 0 && cs != [] && InUseOrder(cfg, rec, Front(cs), part)
    requires var c, mid := cs[|cs| - 1], ApplyAll(cfg, rec, Front(cs));
             if !c.Purge? && Uses(cfg, mid, c, c.key)
             then Lacks(part, c.key) &&
                  exists item :: InFront(mid, c, item) && Apply(cfg, mid, c) == [Entry(c.key, item)] + part
             else Apply(cfg, mid, c) == part
    ensures InUseOrder(cfg, rec, cs, Apply(cfg, ApplyAll(cfg, rec, Front(cs)), cs[|cs| - 1]))
  {
    hide Apply, ApplyAll, Rank, InFront;
    var c, mid := cs[|cs| - 1], ApplyAll(cfg, rec, Front(cs));
    var rec' := Apply(cfg, mid, c);
    forall i | 0 <= i < |rec'| { RankKept(cfg, rec, cs, rec'[i].key); }
  }

  lemma WrittenKept(cfg: Config, rec: seq<Entry>, cs: seq<Commit>, key: Key)
    requires cs != []
    ensures var c := cs[|cs| - 1];
            LastWritten(cfg, rec, cs, key) ==
            if c.Write? && c.key == key && Accepted(cfg, key, c.item, c.at) then Some(c.item)
            else LastWritten(cfg, rec, Front(cs), key)
  {
  }

  /** Each item is the one of the last accepted write of its key, over every clean run and from every state. */
  lemma {:induction false} LastWriteKept(cfg: Config, rec: seq<Entry>, cs: seq<Commit>)
    requires cfg.purgeInterval > 0 && Keyed(rec) && Clean(cfg, rec, cs)
    ensures AsWritten(cfg, rec, cs, ApplyAll(cfg, rec, cs))
    decreases |cs|
  {
    if cs == [] {
      forall i | 0 <= i < |rec| ensures LastWritten(cfg, rec, [], rec[i].key) == Some(rec[i].item) {
        WithoutAt(rec, i);
      }
    } else {
      var front, c := Front(cs), cs[|cs| - 1];
      ApplyAllLast(cfg, rec, cs);
      LastWriteKept(cfg, rec, front);
      UseOrder(cfg, rec, front);
      var mid := ApplyAll(cfg, rec, front);
      var at, part := AppliedShape(cfg, mid, c);
      PickedWritten(cfg, rec, front, mid, at, part);
      hide Apply, ApplyAll, LastWritten, InUseOrder, Clean, CleanCommit;
      if c.Read? && Find(mid, c.key).Some? { var i := FindAt(mid, c.key); }
      var rec' := Apply(cfg, mid, c);
      forall i | 0 <= i < |rec'| { WrittenKept(cfg, rec, cs, rec'[i].key); }
    }
  }

  // ---------- Bytes ----------

  function DataBytes(rec: seq<Entry>): nat {
    if rec == [] then 0 else |rec[0].key| + |rec[0].item.data| + DataBytes(rec[1..])
  }

  /** The memory counted is the bytes of keys and data, and the overhead of each entry. */
  lemma {:induction false} TotalInBytes(cfg: Config, rec: seq<Entry>)
    ensures Total(cfg, rec) == DataBytes(rec) + cfg.overhead * |rec|
  {
    if rec == [] {
    } else {
      TotalInBytes(cfg, rec[1..]);
      assert cfg.overhead * |rec| == cfg.overhead + cfg.overhead * |rec[1..]|;
    }
  }
}
