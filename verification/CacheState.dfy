/** The cache state: commits go to the main storage, or to the overlay while a snapshot is in progress. */
module CacheState {
  import opened Wrappers
  import opened LittleEndian
  import opened Lru
  import opened LruBounds
  import opened LruLaw
  import opened CacheStorage
  import opened SnapshotChunks
  import opened Overlay
  import opened EventLog
  import opened SnapshotStorage

  /** One call made during a snapshot. */
  datatype Step = DoCommit(commit: Commit) | ReadChunk

  function Commits(steps: seq<Step>): seq<Commit> {
    if steps == [] then []
    else (if steps[0].DoCommit? then [steps[0].commit] else []) + Commits(steps[1..])
  }

  function Chunks(steps: seq<Step>): nat {
    if steps == [] then 0 else (if steps[0].ReadChunk? then 1 else 0) + Chunks(steps[1..])
  }

  lemma NextStep(steps: seq<Step>, k: nat)
    requires k < |steps|
    ensures Commits(steps[k..]) == (if steps[k].DoCommit? then [steps[k].commit] else []) + Commits(steps[k + 1..])
    ensures Chunks(steps[k..]) == (if steps[k].ReadChunk? then 1 else 0) + Chunks(steps[k + 1..])
  {
    assert steps[k..][1..] == steps[k + 1..];
  }

  /** The item an index argument starts at; as an unsigned number a negative one is past the end. */
  function StartAt(size: nat, index: int): nat {
    if 0 <= index <= size then index else size
  }

  lemma EncodeSplit(w: nat, rec: seq<Entry>, at: nat, stop: nat)
    requires at <= stop <= |rec|
    ensures EncodeAll(w, rec[..stop]) == EncodeAll(w, rec[..at]) + EncodeAll(w, rec[at..stop])
  {
    assert rec[..stop] == rec[..at] + rec[at..stop];
    EncodeConcat(w, rec[..at], rec[at..stop]);
  }

  /** What n chunk reads have given, and the index for the next; folded like `Consistent`. */
  ghost predicate Streamed(w: nat, rec: seq<Entry>, chunkSize: nat, n: nat, bytes: seq<Byte>, index: int) {
    forall x :: Unfold(x) ==>
      var i := After(w, rec, chunkSize, n);
      && StartAt(|rec|, index) == i && bytes == EncodeAll(w, rec[..i])
      && (n > 0 ==> (index == -1 <==> i == |rec|))
  }

  /** The commits still to come are steady and lead to the goal; folded likewise. */
  ghost predicate Ahead(cfg: Config, own: seq<Entry>, main: seq<Entry>, log: seq<Commit>, cs: seq<Commit>,
                        goal: seq<Commit>) {
    forall x :: Unfold(x) ==> SteadyRun(cfg, own, main, cs) && LogRun(cfg, own, main, log, cs) == goal
  }

  lemma Setting(cfg: Config, own: seq<Entry>, main: seq<Entry>, log: seq<Commit>, cs: seq<Commit>, chunkSize: nat)
    requires SteadyRun(cfg, own, main, cs)
    ensures Ahead(cfg, own, main, log, cs, LogRun(cfg, own, main, log, cs))
    ensures Streamed(cfg.wordSize, main, chunkSize, 0, [], 0)
  {
    assert main[..0] == [];
  }

  lemma Arrival(cfg: Config, own: seq<Entry>, main: seq<Entry>, log: seq<Commit>, goal: seq<Commit>, chunkSize: nat,
                n: nat,
                bytes: seq<Byte>, index: int)
    requires Ahead(cfg, own, main, log, Commits([]), goal) && Streamed(cfg.wordSize, main, chunkSize, n, bytes, index)
    ensures log == goal && Chunks([]) == 0
    ensures var i := After(cfg.wordSize, main, chunkSize, n);
            bytes == EncodeAll(cfg.wordSize, main[..i]) && (n > 0 ==> (index == -1 <==> i == |main|))
  {
    assert Unfold(0);
  }

  lemma Advance(cfg: Config, own: seq<Entry>, main: seq<Entry>, log: seq<Commit>, c: Commit, cs: seq<Commit>,
                goal: seq<Commit>)
    requires Ahead(cfg, own, main, log, [c] + cs, goal)
    ensures Steady(cfg, own, main, c)
    ensures Ahead(cfg, OwnAfter(cfg, own, c), main, LogAfter(cfg, own, main, log, c), cs, goal)
  {
    assert Unfold(0) && ([c] + cs)[1..] == cs;
  }

  lemma NextCommit(cfg: Config, rec: seq<Entry>, cs: seq<Commit>)
    requires cfg.purgeInterval > 0 && cs != [] && Clean(cfg, rec, cs)
    ensures CleanCommit(cfg, rec, cs[0]) && Clean(cfg, Apply(cfg, rec, cs[0]), cs[1..])
    ensures ApplyAll(cfg, rec, cs) == ApplyAll(cfg, Apply(cfg, rec, cs[0]), cs[1..])
  {
  }

  lemma NoCommits(cfg: Config, rec: seq<Entry>)
    requires cfg.purgeInterval > 0
    ensures ApplyAll(cfg, rec, []) == rec
  {
  }

  class State {
    const main: Storage
    const overlay: Snapshot
    var snapshotInProgress: bool
    var commitCode: CommitCode

    ghost predicate Valid()
      reads this, main, overlay, overlay.own, overlay.main
    {
      && overlay.main == main && overlay.Valid()
      && (!snapshotInProgress ==> overlay.Log() == [] && overlay.own.Recency() == [])
    }

    /** The cache as its own sequence, and the overlay's. */
    ghost function Main(): seq<Entry>
      reads main
    {
      main.Recency()
    }

    ghost function Own(): seq<Entry>
      reads overlay, overlay.own
    {
      overlay.own.Recency()
    }

    constructor (config: Config)
      requires config.purgeInterval > 0
      ensures Valid() && !snapshotInProgress && Main() == [] && main.config == config
      ensures fresh(main) && fresh(overlay) && fresh(overlay.own)
    {
      var main := new Storage(config);
      var overlay := new Snapshot(main);
      this.main, this.overlay := main, overlay;
      snapshotInProgress := false;
      commitCode := DoneOk;
    }

    method CommitRead(key: Key, readAt: int) returns (ok: bool)
      requires Valid()
      modifies this`commitCode, main, overlay, overlay.own
      ensures Valid()
      ensures snapshotInProgress ==> unchanged(main) && Own() == old(Own())
      ensures snapshotInProgress ==>
                overlay.Log() == LogAfter(main.config, old(Own()), Main(), old(overlay.Log()), Read(key, readAt))
      ensures !snapshotInProgress ==> Main() == Apply(main.config, old(Main()), Read(key, readAt))
      ensures ok <==> Lookup(old(Own()), old(Main()), key, readAt).Some?
      ensures commitCode == if ok then DoneOk else NotFound
    {
      if snapshotInProgress {
        ok := overlay.CommitRead(key, readAt);
        commitCode := overlay.own.commitCode;
      } else {
        ok := main.CommitRead(key, readAt);
        commitCode := main.commitCode;
      }
    }

    method CommitWrite(key: Key, item: Item, writtenAt: int) returns (ok: bool)
      requires Valid()
      modifies this`commitCode, main, overlay, overlay.own
      ensures snapshotInProgress ==> unchanged(main)
      ensures snapshotInProgress ==> (Valid() <==> Steady(main.config, old(Own()), Main(), Write(key, item, writtenAt)))
      ensures snapshotInProgress && Valid() ==>
                && Own() == OwnAfter(main.config, old(Own()), Write(key, item, writtenAt))
                && overlay.Log() ==
                   LogAfter(main.config, old(Own()), Main(), old(overlay.Log()), Write(key, item, writtenAt))
      ensures !snapshotInProgress ==> Main() == Apply(main.config, old(Main()), Write(key, item, writtenAt))
      ensures !snapshotInProgress ==> (Valid() <==> CleanCommit(main.config, old(Main()), Write(key, item, writtenAt)))
      ensures ok <==> Accepted(main.config, key, item, writtenAt)
      ensures commitCode == if ok then DoneOk else if |key| > main.config.maxKeySize then KeyTooBig else WrongExpiry
    {
      if snapshotInProgress {
        ok := overlay.CommitWrite(key, item, writtenAt);
        commitCode := overlay.own.commitCode;
      } else {
        ok := main.CommitWrite(key, item, writtenAt);
        commitCode := main.commitCode;
      }
    }

    /** A purge leaves the commit code alone. */
    method CommitPurgeExpired(purgeAt: int)
      requires Valid()
      modifies main, overlay, overlay.own
      ensures Valid()
      ensures snapshotInProgress ==> unchanged(main) && Own() == old(Own())
      ensures snapshotInProgress ==>
                overlay.Log() == LogAfter(main.config, old(Own()), Main(), old(overlay.Log()), Purge(purgeAt))
      ensures !snapshotInProgress ==> Main() == Apply(main.config, old(Main()), Purge(purgeAt))
    {
      if snapshotInProgress {
        overlay.CommitPurge(purgeAt);
      } else {
        main.CommitPurge(purgeAt);
      }
    }

    method CommitOne(c: Commit)
      requires Valid() && !snapshotInProgress && CleanCommit(main.config, Main(), c)
      modifies this`commitCode, main, overlay, overlay.own
      ensures Valid() && Main() == Apply(main.config, old(Main()), c)
    {
      match c
      case Read(key, t) => var ok := CommitRead(key, t);
      case Write(key, item, t) => var ok := CommitWrite(key, item, t);
      case Purge(t) => CommitPurgeExpired(t);
    }

    /** A run of commits outside a snapshot refines the plain sequence, and its memory stays bounded. */
    method RunCommits(cs: seq<Commit>)
      requires Valid() && !snapshotInProgress && Clean(main.config, Main(), cs)
      modifies this`commitCode, main, overlay, overlay.own
      ensures Valid() && Main() == ApplyAll(main.config, old(Main()), cs)
      ensures InUseOrder(main.config, old(Main()), cs, Main()) && AsWritten(main.config, old(Main()), cs, Main())
      ensures main.usedMemory == DataBytes(Main()) + main.config.overhead * |Main()|
      ensures old(main.usedMemory) <= main.config.cacheSize && Fitting(main.config, cs) ==>
                main.usedMemory <= main.config.cacheSize
    {
      hide InUseOrder, AsWritten, Apply, ApplyAll, Clean, CleanCommit, Fitting, Total, DataBytes, Tied, Keyed;
      ghost var cfg, rec, goal := main.config, Main(), ApplyAll(main.config, Main(), cs);
      main.Sums();
      UseOrder(cfg, rec, cs);
      LastWriteKept(cfg, rec, cs);
      if main.usedMemory <= cfg.cacheSize && Fitting(cfg, cs) { CapacityBound(cfg, rec, cs); }
      var k := 0;
      assert cs[0..] == cs;
      while k < |cs|
        invariant 0 <= k <= |cs| && Valid()
        invariant Clean(cfg, Main(), cs[k..]) && ApplyAll(cfg, Main(), cs[k..]) == goal
      {
        assert cs[k..][0] == cs[k] && cs[k..][1..] == cs[k + 1..];
        NextCommit(cfg, Main(), cs[k..]);
        CommitOne(cs[k]);
        k := k + 1;
      }
      assert cs[|cs|..] == [];
      NoCommits(cfg, Main());
      main.Sums();
      TotalInBytes(cfg, Main());
    }

    method BeginSnapshot()
      requires Valid()
      modifies `snapshotInProgress
      ensures Valid() && snapshotInProgress && Main() == old(Main())
    {
      snapshotInProgress := true;
    }

    method ReadSnapshotChunk(chunkSize: nat, itemIndex: int) returns (chunk: array<Byte>, index: int, read: nat)
      ensures fresh(chunk) && read <= chunk.Length == chunkSize
      ensures var start := if 0 <= itemIndex <= |Main()| then itemIndex else |Main()|;
              var stop := Stop(main.config.wordSize, Main(), start, chunkSize);
              && chunk[..read] == EncodeAll(main.config.wordSize, Main()[start..stop])
              && index == if stop == |Main()| then -1 else stop
    {
      chunk, index, read := main.ReadSnapshotChunk(chunkSize, itemIndex);
    }

    /** Replay one event on the main storage, reading a written item through the event's pointer. */
    method Replay(e: Event)
      requires main.Valid() && overlay.main == main && overlay.own != main && Holds(e, overlay.own.items)
      requires CleanCommit(main.config, Main(), Deref(e, overlay.own.items))
      modifies main
      ensures main.Valid() && Main() == Apply(main.config, old(Main()), Deref(e, overlay.own.items))
    {
      match e
      case ReadEvent(key, t) => var ok := main.CommitRead(key, t);
      case WriteEvent(key, node, t) =>
        var ok := main.CommitWrite(key, overlay.own.FindItem(node), t);
      case PurgeEvent(t) => main.CommitPurge(t);
    }

    /** Replay every event on the main storage, then drop the overlay. */
    method EndSnapshot()
      requires Valid() && Clean(main.config, Main(), overlay.Log())
      modifies this, main, overlay, overlay.own
      ensures Valid() && !snapshotInProgress
      ensures Main() == ApplyAll(main.config, old(Main()), old(overlay.Log()))
    {
      ghost var log := overlay.Log();
      var i := 0;
      assert log[0..] == log;
      while i < |overlay.events|
        invariant 0 <= i <= |overlay.events| == |log| && Valid() && overlay.Log() == log
        invariant ApplyAll(main.config, Main(), log[i..]) == ApplyAll(main.config, old(Main()), log)
        invariant Clean(main.config, Main(), log[i..])
        modifies main
      {
        assert log[i..][0] == log[i] && log[i..][1..] == log[i + 1..];
        Replay(overlay.events[i]);
        i := i + 1;
      }
      overlay.Clear();
      snapshotInProgress := false;
    }

    /** Any steady commit during a snapshot. */
    method CommitInSnapshot(c: Commit)
      requires Valid() && snapshotInProgress && Steady(main.config, Own(), Main(), c)
      modifies this`commitCode, main, overlay, overlay.own
      ensures Valid() && unchanged(main)
      ensures Own() == OwnAfter(main.config, old(Own()), c)
      ensures overlay.Log() == LogAfter(main.config, old(Own()), Main(), old(overlay.Log()), c)
    {
      match c
      case Read(key, t) => var ok := CommitRead(key, t);
      case Write(key, item, t) => var ok := CommitWrite(key, item, t);
      case Purge(t) => CommitPurgeExpired(t);
    }

    /** Read the next chunk of a stream. */
    method ReadNext(chunkSize: nat, bytes: seq<Byte>, index: int, ghost n: nat) returns (bytes': seq<Byte>, index': int)
      requires Streamed(main.config.wordSize, Main(), chunkSize, n, bytes, index)
      ensures Streamed(main.config.wordSize, Main(), chunkSize, n + 1, bytes', index')
    {
      assert Unfold(0);
      var chunk, next, read := ReadSnapshotChunk(chunkSize, index);
      bytes', index' := bytes + chunk[..read], next;
      ghost var at := After(main.config.wordSize, Main(), chunkSize, n);
      EncodeSplit(main.config.wordSize, Main(), at, Stop(main.config.wordSize, Main(), at, chunkSize));
    }

    /** Commits and chunk reads in any order: the chunks are of the frozen cache, the commits go to the overlay. */
    method RunSteps(steps: seq<Step>, chunkSize: nat) returns (bytes: seq<Byte>, index: int)
      requires Valid() && snapshotInProgress && SteadyRun(main.config, Own(), Main(), Commits(steps))
      modifies this`commitCode, main, overlay, overlay.own
      ensures Valid() && unchanged(main)
      ensures overlay.Log() == LogRun(main.config, old(Own()), Main(), old(overlay.Log()), Commits(steps))
      ensures var w, i := main.config.wordSize, After(main.config.wordSize, Main(), chunkSize, Chunks(steps));
              && bytes == EncodeAll(w, Main()[..i])
              && (Chunks(steps) > 0 ==> (index == -1 <==> i == |Main()|))
    {
      hide Ahead, Streamed, After, LogRun, SteadyRun, EncodeAll, Commits, Chunks, Tied;
      hide Steady, OwnAfter, LogAfter;
      bytes, index := [], 0;
      var k := 0;
      ghost var cfg, rec, n := main.config, Main(), 0;
      Setting(cfg, Own(), rec, overlay.Log(), Commits(steps), chunkSize);
      ghost var goal := LogRun(cfg, Own(), rec, overlay.Log(), Commits(steps));
      assert steps[0..] == steps;
      while k < |steps|
        invariant 0 <= k <= |steps| && Valid() && unchanged(main) && n + Chunks(steps[k..]) == Chunks(steps)
        invariant Ahead(cfg, Own(), rec, overlay.Log(), Commits(steps[k..]), goal)
        invariant Streamed(cfg.wordSize, rec, chunkSize, n, bytes, index)
      {
        NextStep(steps, k);
        match steps[k] {
        case DoCommit(c) =>
          Advance(cfg, Own(), rec, overlay.Log(), c, Commits(steps[k + 1..]), goal);
          CommitInSnapshot(c);
        case ReadChunk =>
          assert [] + Commits(steps[k + 1..]) == Commits(steps[k + 1..]);
          bytes, index := ReadNext(chunkSize, bytes, index, n);
          n := n + 1;
        }
        k := k + 1;
      }
      assert steps[|steps|..] == [];
      Arrival(cfg, Own(), rec, overlay.Log(), goal, chunkSize, n, bytes, index);
    }

    /**
      A whole snapshot taken under commits. The chunks together encode every item the cache held at the start,
      once and in order, and the cache ends as if the commits had been applied to it directly.
     */
    method TakeSnapshot(steps: seq<Step>, chunkSize: nat) returns (bytes: seq<Byte>, index: int)
      requires Valid() && !snapshotInProgress
      requires var cs := Commits(steps);
               && SteadyRun(main.config, [], Main(), cs) && Clean(main.config, Main(), cs)
               && SameItems(RecordedRun(main.config, [], Main(), cs))
      requires AllFit(main.config.wordSize, Main(), chunkSize) && Chunks(steps) >= |Main()| && Chunks(steps) > 0
      modifies this, main, overlay, overlay.own
      ensures Valid() && !snapshotInProgress
      ensures bytes == EncodeAll(main.config.wordSize, old(Main())) && index == -1
      ensures Main() == ApplyAll(main.config, old(Main()), Commits(steps))
    {
      ghost var rec := Main();
      BeginSnapshot();
      bytes, index := RunSteps(steps, chunkSize);
      Progress(main.config.wordSize, rec, chunkSize, Chunks(steps));
      assert rec[..|rec|] == rec;
      main.Sums();
      ReplayEqualsDirect(main.config, rec, Commits(steps));
      EndSnapshot();
    }
  }
}
