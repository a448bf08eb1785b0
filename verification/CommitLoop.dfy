/**
  Handing committed entries to the state machine: a background loop, run by whichever worker gets the commit lock,
  while handlers raise the commit index, extend the log, cut it and compact it.
 */
module CommitLoop {
  import opened Wrappers
  import opened RaftHandlers
  import LogStore

  // ---------- Workers as interleaved steps ----------

  /** A worker is outside the loop, between iterations, or has applied an index it has not recorded yet. */
  datatype Worker = Idle | Looping | Applied(index: nat)

  /** `applied` lists the indexes given to the state machine. `locked` is who holds the commit lock. */
  datatype State = State(quick: nat, sm: nat, startIdx: nat, last: nat, workers: seq<Worker>, locked: Option<nat>,
                         applied: seq<nat>)

  datatype Step =
    | Commit(target: nat)
    | Extend(count: nat)
    | Cut(newLast: nat)
    | Compact(upTo: nat)
    | TakeLock(w: nat)
    | Apply(w: nat)
    | Record(w: nat)
    | Leave(w: nat)

  function Start(workers: nat): State {
    State(0, 0, 1, 0, seq(workers, _ => Idle), None, [])
  }

  predicate Enabled(s: State, e: Step) {
    match e
    case Commit(_) => true
    case Extend(_) => true
    case Cut(newLast) => newLast < s.last
    case Compact(upTo) => upTo <= s.sm
    case TakeLock(w) => w < |s.workers| && s.workers[w].Idle? && s.locked.None?
    case Apply(w) => w < |s.workers| && s.workers[w].Looping? && s.sm < s.quick && s.sm < s.last
    case Record(w) => w < |s.workers| && s.workers[w].Applied?
    case Leave(w) => w < |s.workers| && s.workers[w].Looping?
  }

  function Next(s: State, e: Step): State
    requires Enabled(s, e)
  {
    match e
    case Commit(target) => if target > s.quick then s.(quick := target) else s
    case Extend(count) => s.(last := s.last + count)
    case Cut(newLast) =>
      // Both commit indexes are rolled back to the last entry that is kept.
      s.(last := newLast, quick := Min(s.quick, newLast), sm := Min(s.sm, newLast))
    case Compact(upTo) => if upTo >= s.startIdx then s.(startIdx := upTo + 1) else s
    case TakeLock(w) =>
      s.(workers := s.workers[w := Looping], locked := Some(w),
         sm := if s.sm + 1 < s.startIdx then s.startIdx - 1 else s.sm)
    case Apply(w) => s.(workers := s.workers[w := Applied(s.sm + 1)], applied := s.applied + [s.sm + 1])
    case Record(w) =>
      var index := s.workers[w].index;
      s.(workers := s.workers[w := Looping], sm := if s.sm == index - 1 then index else s.sm)
    case Leave(w) => s.(workers := s.workers[w := Idle], locked := None)
  }

  ghost predicate StepTo(a: State, b: State) {
    exists e :: Enabled(a, e) && b == Next(a, e)
  }

  ghost predicate IsRun(workers: nat, run: seq<State>) {
    |run| > 0 && run[0] == Start(workers) && forall k | 0 <= k < |run| - 1 :: StepTo(run[k], run[k + 1])
  }

  /** How many indexes are applied: one more than recorded when the lock holder has yet to record. */
  function Done(s: State): nat {
    if s.locked.Some? && s.locked.value < |s.workers| && s.workers[s.locked.value].Applied? then s.sm + 1 else s.sm
  }

  ghost predicate Inv(s: State) {
    && (forall w | 0 <= w < |s.workers| :: s.workers[w].Idle? || s.locked == Some(w))
    && (forall w | 0 <= w < |s.workers| :: s.workers[w].Applied? ==> s.workers[w].index == s.sm + 1)
    && (s.locked.Some? ==> s.locked.value < |s.workers|)
    && s.startIdx <= s.sm + 1
    && Done(s) <= s.quick && Done(s) <= s.last
    && |s.applied| == Done(s) && forall i | 0 <= i < |s.applied| :: s.applied[i] == i + 1
  }

  /** The log is cut, if at all, after everything that was applied. */
  predicate Spares(a: State, b: State) {
    b.last < a.last ==> |a.applied| <= b.last
  }

  /** The log is cut, if at all, after everything that is committed. */
  predicate KeepsCommitted(a: State, b: State) {
    b.last < a.last ==> a.quick <= b.last
  }

  lemma StepKeeps(s: State, e: Step)
    requires Inv(s) && Enabled(s, e) && Spares(s, Next(s, e))
    ensures Inv(Next(s, e)) && s.sm <= Next(s, e).sm && s.applied <= Next(s, e).applied
    ensures KeepsCommitted(s, Next(s, e)) ==> s.quick <= Next(s, e).quick
  {
  }

  lemma {:induction false} RunInv(workers: nat, run: seq<State>, k: nat)
    requires IsRun(workers, run) && k < |run| && forall i | 0 <= i < k :: Spares(run[i], run[i + 1])
    ensures Inv(run[k])
  {
    if k == 0 {
    } else {
      RunInv(workers, run, k - 1);
      assert StepTo(run[k - 1], run[k]) && Spares(run[k - 1], run[k - 1 + 1]);
      var e :| Enabled(run[k - 1], e) && run[k] == Next(run[k - 1], e);
      StepKeeps(run[k - 1], e);
    }
  }

  /** The state machine was given 1, 2, 3, ... once each, not past the commit index or the log. */
  ghost predicate Ordered(s: State) {
    && (forall i | 0 <= i < |s.applied| :: s.applied[i] == i + 1)
    && |s.applied| <= s.quick && |s.applied| <= s.last && s.sm <= |s.applied| <= s.sm + 1
  }

  lemma AppliedStays(s: State, e: Step)
    requires Enabled(s, e)
    ensures s.applied <= Next(s, e).applied
  {
  }

  /** A run keeps to the order at every moment exactly if no cut reaches what was applied. */
  lemma AppliedInOrder(workers: nat, run: seq<State>)
    requires IsRun(workers, run)
    ensures (forall k | 0 <= k < |run| :: Ordered(run[k])) <==>
            (forall k | 0 <= k < |run| - 1 :: Spares(run[k], run[k + 1]))
  {
    if forall k | 0 <= k < |run| :: Ordered(run[k]) {
      forall k | 0 <= k < |run| - 1 ensures Spares(run[k], run[k + 1]) {
        assert StepTo(run[k], run[k + 1]) && Ordered(run[k + 1]);
        var e :| Enabled(run[k], e) && run[k + 1] == Next(run[k], e);
        AppliedStays(run[k], e);
      }
    }
    if forall k | 0 <= k < |run| - 1 :: Spares(run[k], run[k + 1]) {
      forall k | 0 <= k < |run| ensures Ordered(run[k]) { RunInv(workers, run, k); }
    }
  }

  lemma RunStep(workers: nat, run: seq<State>, k: nat)
    requires IsRun(workers, run) && 0 < k < |run| && forall i | 0 <= i < k :: Spares(run[i], run[i + 1])
    ensures run[k - 1].sm <= run[k].sm && run[k - 1].applied <= run[k].applied
    ensures KeepsCommitted(run[k - 1], run[k]) ==> run[k - 1].quick <= run[k].quick
  {
    hide Inv, Next, Enabled, Spares, KeepsCommitted;
    RunInv(workers, run, k - 1);
    assert StepTo(run[k - 1], run[k]) && Spares(run[k - 1], run[k - 1 + 1]);
    var e :| Enabled(run[k - 1], e) && run[k] == Next(run[k - 1], e);
    StepKeeps(run[k - 1], e);
  }

  /**
    While no cut reaches what was applied, the state machine's index never goes back and what was applied stays
    applied; while none reaches what is committed, the commit index never goes back either.
   */
  lemma {:induction false} IndexesOnlyGrow(workers: nat, run: seq<State>, j: nat, k: nat)
    requires IsRun(workers, run) && j <= k < |run| && forall i | 0 <= i < k :: Spares(run[i], run[i + 1])
    ensures run[j].sm <= run[k].sm && run[j].applied <= run[k].applied
    ensures (forall i | j <= i < k :: KeepsCommitted(run[i], run[i + 1])) ==> run[j].quick <= run[k].quick
    decreases k - j
  {
    hide IsRun, KeepsCommitted, Spares;
    if j == k {
    } else {
      IndexesOnlyGrow(workers, run, j, k - 1);
      RunStep(workers, run, k);
      assert (forall i | j <= i < k :: KeepsCommitted(run[i], run[i + 1])) ==>
          KeepsCommitted(run[k - 1], run[k - 1 + 1]);
    }
  }

  // ---------- Everything is applied ----------

  ghost predicate SparedRun(workers: nat, run: seq<State>) {
    IsRun(workers, run) && forall k | 0 <= k < |run| - 1 :: Spares(run[k], run[k + 1])
  }

  lemma OneMore(workers: nat, run: seq<State>, e: Step) returns (run': seq<State>)
    requires SparedRun(workers, run) && Enabled(run[|run| - 1], e) && !e.Cut?
    ensures SparedRun(workers, run') && run' == run + [Next(run[|run| - 1], e)]
  {
    var last := run[|run| - 1];
    run' := run + [Next(last, e)];
    assert StepTo(last, Next(last, e)) && Spares(last, Next(last, e));
    forall k | 0 <= k < |run'| - 1 ensures StepTo(run'[k], run'[k + 1]) && Spares(run'[k], run'[k + 1]) {
      if k < |run| - 1 { assert StepTo(run[k], run[k + 1]) && Spares(run[k], run[k + 1]); }
    }
  }

  /** What is committed and in the log. */
  function Due(s: State): nat {
    Min(s.quick, s.last)
  }

  /** A worker that has the lock applies and records everything that is committed and in the log. */
  lemma {:induction false} Drain(workers: nat, run: seq<State>, w: nat) returns (run': seq<State>)
    requires SparedRun(workers, run) && w < |run[|run| - 1].workers| && run[|run| - 1].workers[w].Looping?
    ensures SparedRun(workers, run') && run <= run'
    ensures var s, s' := run[|run| - 1], run'[|run'| - 1];
            s'.quick == s.quick && s'.last == s.last && s'.sm == Due(s) == |s'.applied|
    decreases Due(run[|run| - 1]) - run[|run| - 1].sm
  {
    hide StepTo;
    RunInv(workers, run, |run| - 1);
    var s := run[|run| - 1];
    run' := run;
    if s.sm < Due(s) {
      run' := OneMore(workers, run', Apply(w));
      run' := OneMore(workers, run', Record(w));
      run' := Drain(workers, run', w);
    }
  }

  /** From every such state the workers can go on until everything committed and in the log has been applied. */
  lemma AllApplied(workers: nat, run: seq<State>) returns (run': seq<State>)
    requires SparedRun(workers, run) && workers > 0
    ensures SparedRun(workers, run') && run <= run'
    ensures var s, s' := run[|run| - 1], run'[|run'| - 1];
            s'.quick == s.quick && s'.last == s.last && s'.sm == Due(s) == |s'.applied| && Ordered(s')
  {
    hide StepTo;
    RunInv(workers, run, |run| - 1);
    RunWorkers(workers, run, |run| - 1);
    var s := run[|run| - 1];
    var w := if s.locked.Some? then s.locked.value else 0;
    run' := run;
    if s.locked.None? {
      run' := OneMore(workers, run', TakeLock(0));
    } else if s.workers[w].Applied? {
      run' := OneMore(workers, run', Record(w));
    }
    run' := Drain(workers, run', w);
    RunInv(workers, run', |run'| - 1);
  }

  lemma {:induction false} RunWorkers(workers: nat, run: seq<State>, k: nat)
    requires IsRun(workers, run) && k < |run|
    ensures |run[k].workers| == workers
    ensures run[k].locked.Some? ==> run[k].locked.value < workers && !run[k].workers[run[k].locked.value].Idle?
  {
    if k == 0 {
    } else {
      RunWorkers(workers, run, k - 1);
      assert StepTo(run[k - 1], run[k]);
    }
  }

  // ---------- One pass of the loop ----------

  datatype Handed = Handed(index: nat, entry: Entry)

  ghost predicate Termed(hs: seq<Handed>) {
    forall i | 0 <= i < |hs| :: hs[i].entry.term != 0
  }

  /** The entries after index `from` and up to index `end`, of a log that starts at `start`. */
  function HandedOver(log: seq<Entry>, start: nat, from: nat, end: nat): seq<Handed>
    requires start <= from + 1 && from <= end && (end > from ==> end < start + |log|)
    decreases end
  {
    if end == from then [] else HandedOver(log, start, from, end - 1) + [Handed(end, log[end - start])]
  }

  /** Each entry is handed over once, in order, with its own index. */
  lemma {:induction false} HandedExactly(log: seq<Entry>, start: nat, from: nat, end: nat, i: nat)
    requires start <= from + 1 && from <= end && (end > from ==> end < start + |log|) && i < end - from
    ensures var hs := HandedOver(log, start, from, end);
            |hs| == end - from && hs[i] == Handed(from + 1 + i, log[from + 1 + i - start])
    decreases end
  {
    if end == from + 1 {
    } else {
      HandedExactly(log, start, from, end - 1, if i < end - 1 - from then i else 0);
    }
  }

  /**
    A pass went from one index to another: it stops at the commit index, the end of the log, a corrupt entry, or
    its limit.
   */
  ghost predicate Passed(log: seq<Entry>, start: nat, from: nat, end: nat, quick: nat, limit: nat, corrupt: bool) {
    && start <= from + 1 && from <= end <= from + limit && (end > from ==> end < start + |log| && end <= quick)
    && Termed(HandedOver(log, start, from, end))
    && if corrupt then end + 1 < start + |log| && log[end + 1 - start].term == 0
       else end >= quick || end + 1 >= start + |log| || end == from + limit
  }

  class Executor {
    const store: LogStore.Store
    var quickCommitIndex: nat
    var smCommitIndex: nat
    /** What the state machine was given, oldest first. */
    var handed: seq<Handed>

    constructor (store: LogStore.Store)
      ensures this.store == store && quickCommitIndex == 0 && smCommitIndex == 0 && handed == []
    {
      this.store := store;
      quickCommitIndex, smCommitIndex, handed := 0, 0, [];
    }

    /**
      Hand over entries one by one. An entry of term 0 means a corrupt log and stops the server; a time limit or a
      paused state machine ends the pass after `limit` entries.
     */
    method HandOver(limit: nat) returns (corrupt: bool)
      requires store.Valid() && store.startIdx <= smCommitIndex + 1
      modifies `smCommitIndex, `handed
      ensures Passed(store.Contents(), store.startIdx, old(smCommitIndex), smCommitIndex, quickCommitIndex, limit,
                     corrupt)
      ensures handed == old(handed) + HandedOver(store.Contents(), store.startIdx, old(smCommitIndex), smCommitIndex)
    {
      hide LogStore.Contiguous, LogStore.Entries;
      ghost var from, log, start, given := smCommitIndex, store.Contents(), store.startIdx, [];
      var left := limit;
      while smCommitIndex < quickCommitIndex && smCommitIndex < store.NextSlot() - 1
        invariant from <= smCommitIndex && left == limit - (smCommitIndex - from)
        invariant smCommitIndex > from ==> smCommitIndex < start + |log| && smCommitIndex <= quickCommitIndex
        invariant given == HandedOver(log, start, from, smCommitIndex) && handed == old(handed) + given && Termed(given)
        decreases quickCommitIndex - smCommitIndex
      {
        if left == 0 { break; }
        var index := smCommitIndex + 1;
        var le := store.EntryAt(index);
        if le.term == 0 { return true; }
        handed := handed + [Handed(index, le)];
        given := given + [Handed(index, le)];
        smCommitIndex := index;
        left := left - 1;
      }
      return false;
    }

    /** One pass: the entries handed over are the next ones, in order, up to the commit index or the last entry. */
    method CommitInBgExec(limit: nat) returns (corrupt: bool)
      requires store.Valid()
      modifies `smCommitIndex, `handed
      ensures var from := if old(smCommitIndex) + 1 < store.startIdx then store.startIdx - 1 else old(smCommitIndex);
              && Passed(store.Contents(), store.startIdx, from, smCommitIndex, quickCommitIndex, limit, corrupt)
              && handed == old(handed) + HandedOver(store.Contents(), store.startIdx, from, smCommitIndex)
    {
      if smCommitIndex + 1 < store.startIdx { smCommitIndex := store.startIdx - 1; }
      corrupt := HandOver(limit);
    }
  }
}
