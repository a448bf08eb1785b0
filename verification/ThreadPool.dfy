/**
  The thread pool at interleaving level: workers, pushers and one `stop(true)` share a task queue with its own lock,
  a mutex, a condition variable and the `isDone` flag. Each step is one atomic action of one thread.
 */
module ThreadPool {
  /** Where a worker is. `CheckPop` and `CheckDone` are the two halves of the wait predicate, run holding the mutex. */
  datatype Worker =
    | Popping
    | Running(task: nat)
    | WantLock
    | CheckPop
    | CheckDone
    | Asleep
    | Woken
    | Exited

  /** Where the thread that calls `stop(true)` is. */
  datatype Stopper = NotCalled | Flagged | Joining | Returned

  /**
    `pending` counts pushers that have queued their task but not yet notified. `pushed`, `taken` and `ran` record,
    in order, the tasks queued, popped and finished.
   */
  datatype Pool = Pool(
    queue: seq<nat>, workers: seq<Worker>, pending: nat, stopper: Stopper,
    pushed: seq<nat>, taken: seq<nat>, ran: seq<nat>)

  datatype Step =
    | Push(task: nat)
    | Notify(wake: nat)
    | Pop(w: nat)
    | Finish(w: nat)
    | Lock(w: nat)
    | TestPop(w: nat)
    | TestDone(w: nat)
    | Spurious(w: nat)
    | SetDone
    | NotifyAll
    | Return

  predicate Holding(w: Worker) {
    w.CheckPop? || w.CheckDone?
  }

  /** Nobody holds the mutex. */
  ghost predicate Free(s: Pool) {
    forall i | 0 <= i < |s.workers| :: !Holding(s.workers[i])
  }

  /** A worker that will test the queue again before it sleeps or exits. */
  predicate Awake(w: Worker) {
    w.Popping? || w.Running? || w.WantLock? || w.CheckPop? || w.Woken?
  }

  ghost predicate SomeAwake(s: Pool) {
    exists i | 0 <= i < |s.workers| :: Awake(s.workers[i])
  }

  predicate Done(s: Pool) {
    !s.stopper.NotCalled?
  }

  function Start(n: nat): Pool {
    Pool([], seq(n, _ => Popping), 0, NotCalled, [], [], [])
  }

  ghost predicate Enabled(s: Pool, e: Step) {
    match e
    case Push(_) => true
    case Notify(wake) =>
      // A notification wakes a sleeping worker if there is one.
      s.pending > 0 && Free(s) &&
      (if exists i | 0 <= i < |s.workers| :: s.workers[i].Asleep? then wake < |s.workers| && s.workers[wake].Asleep?
       else true)
    case Pop(w) => w < |s.workers| && s.workers[w].Popping?
    case Finish(w) => w < |s.workers| && s.workers[w].Running?
    case Lock(w) => w < |s.workers| && (s.workers[w].WantLock? || s.workers[w].Woken?) && Free(s)
    case TestPop(w) => w < |s.workers| && s.workers[w].CheckPop?
    case TestDone(w) => w < |s.workers| && s.workers[w].CheckDone?
    case Spurious(w) => w < |s.workers| && s.workers[w].Asleep?
    case SetDone => s.stopper.NotCalled?
    case NotifyAll => s.stopper.Flagged? && Free(s)
    case Return => s.stopper.Joining? && forall i | 0 <= i < |s.workers| :: s.workers[i].Exited?
  }

  function At(s: Pool, w: nat, pc: Worker): Pool
    requires w < |s.workers|
  {
    s.(workers := s.workers[w := pc])
  }

  /** Take the first task, or go on with `otherwise` when there is none. */
  function Take(s: Pool, w: nat, otherwise: Worker): Pool
    requires w < |s.workers|
  {
    if s.queue == [] then At(s, w, otherwise)
    else At(s, w, Running(s.queue[0])).(queue := s.queue[1..], taken := s.taken + [s.queue[0]])
  }

  function WakeAll(workers: seq<Worker>): (r: seq<Worker>)
    ensures |r| == |workers|
    ensures forall i | 0 <= i < |r| :: r[i] == if workers[i].Asleep? then Woken else workers[i]
  {
    seq(|workers|, i requires 0 <= i < |workers| => if workers[i].Asleep? then Woken else workers[i])
  }

  ghost function Next(s: Pool, e: Step): Pool
    requires Enabled(s, e)
  {
    match e
    case Push(task) => s.(queue := s.queue + [task], pushed := s.pushed + [task], pending := s.pending + 1)
    case Notify(wake) =>
      var s' := s.(pending := s.pending - 1);
      if wake < |s.workers| && s.workers[wake].Asleep? then At(s', wake, Woken) else s'
    case Pop(w) => Take(s, w, WantLock)
    case Finish(w) => At(s, w, Popping).(ran := s.ran + [s.workers[w].task])
    case Lock(w) => At(s, w, CheckPop)
    case TestPop(w) => Take(s, w, CheckDone)
    case TestDone(w) => At(s, w, if Done(s) then Exited else Asleep)
    case Spurious(w) => At(s, w, Woken)
    case SetDone => s.(stopper := Flagged)
    case NotifyAll => s.(workers := WakeAll(s.workers), stopper := Joining)
    case Return => s.(stopper := Returned)
  }

  ghost predicate StepTo(a: Pool, b: Pool) {
    exists e :: Enabled(a, e) && b == Next(a, e)
  }

  ghost predicate IsRun(n: nat, run: seq<Pool>) {
    |run| > 0 && run[0] == Start(n) && forall k | 0 <= k < |run| - 1 :: StepTo(run[k], run[k + 1])
  }

  // ---------- Wakeups ----------

  ghost predicate NoneExited(s: Pool) {
    forall i | 0 <= i < |s.workers| :: !s.workers[i].Exited?
  }

  ghost predicate Wakeful(s: Pool) {
    && (!Done(s) ==> NoneExited(s))
    && (s.queue != [] && !Done(s) ==> SomeAwake(s) || s.pending > 0)
  }

  lemma AwakeAt(s: Pool, i: nat)
    requires i < |s.workers| && Awake(s.workers[i])
    ensures SomeAwake(s)
  {
  }

  /** Changing one worker keeps somebody awake if it stays awake, or if it was not awake. */
  lemma AwakeStays(s: Pool, s': Pool, w: nat)
    requires w < |s.workers| == |s'.workers| && s'.workers == s.workers[w := s'.workers[w]]
    requires SomeAwake(s) && (Awake(s.workers[w]) ==> Awake(s'.workers[w]))
    ensures SomeAwake(s')
  {
    var i :| 0 <= i < |s.workers| && Awake(s.workers[i]);
    assert Awake(s'.workers[i]);
  }

  lemma NotifyWakes(s: Pool, e: Step)
    requires e.Notify? && Enabled(s, e) && |s.workers| > 0 && NoneExited(s)
    ensures SomeAwake(Next(s, e))
  {
    var s' := Next(s, e);
    if i :| 0 <= i < |s.workers| && s.workers[i].Asleep? {
      AwakeAt(s', e.wake);
    } else {
      assert !Holding(s.workers[0]) && !s.workers[0].Asleep? && !s.workers[0].Exited?;
      AwakeAt(s', 0);
    }
  }

  lemma StepWakeful(s: Pool, e: Step)
    requires Wakeful(s) && Enabled(s, e) && |s.workers| > 0
    ensures Wakeful(Next(s, e)) && |Next(s, e).workers| == |s.workers|
  {
    var s' := Next(s, e);
    if !Done(s') && s'.queue != [] {
      match e {
        case Push(_) =>
        case Notify(_) => NotifyWakes(s, e);
        case Pop(w) => AwakeAt(s', w);
        case Finish(w) => AwakeAt(s', w);
        case Lock(w) => AwakeAt(s', w);
        case TestPop(w) => AwakeAt(s', w);
        case TestDone(w) => if SomeAwake(s) { AwakeStays(s, s', w); }
        case Spurious(w) => AwakeAt(s', w);
        case NotifyAll =>
        case Return =>
      }
    }
  }

  lemma {:induction false} RunWakeful(n: nat, run: seq<Pool>, k: nat)
    requires IsRun(n, run) && n > 0 && k < |run|
    ensures Wakeful(run[k]) && |run[k].workers| == n
  {
    if k == 0 {
    } else {
      RunWakeful(n, run, k - 1);
      assert StepTo(run[k - 1], run[k]);
      var e :| Enabled(run[k - 1], e) && run[k] == Next(run[k - 1], e);
      StepWakeful(run[k - 1], e);
    }
  }

  /** No lost wakeup: before a stop, queued tasks mean that a worker is awake or a pusher is about to notify. */
  lemma NoLostWakeup(n: nat, run: seq<Pool>, k: nat)
    requires IsRun(n, run) && n > 0 && k < |run| && run[k].stopper.NotCalled? && run[k].queue != []
    ensures SomeAwake(run[k]) || run[k].pending > 0
  {
    RunWakeful(n, run, k);
  }

  // ---------- Tasks run exactly once ----------

  function Has(w: Worker, t: nat): nat {
    if w == Running(t) then 1 else 0
  }

  /** How many workers are running a task. */
  function InHand(workers: seq<Worker>, t: nat): nat {
    if workers == [] then 0 else Has(workers[0], t) + InHand(workers[1..], t)
  }

  lemma {:induction false} InHandUpdate(workers: seq<Worker>, w: nat, x: Worker, t: nat)
    requires w < |workers|
    ensures InHand(workers[w := x], t) + Has(workers[w], t) == InHand(workers, t) + Has(x, t)
  {
    if w == 0 {
      assert workers[w := x][1..] == workers[1..];
    } else {
      assert workers[w := x][1..] == workers[1..][w - 1 := x];
      InHandUpdate(workers[1..], w - 1, x, t);
    }
  }

  lemma {:induction false} InHandSame(a: seq<Worker>, b: seq<Worker>, t: nat)
    requires |a| == |b| && forall i | 0 <= i < |a| :: Has(a[i], t) == Has(b[i], t)
    ensures InHand(a, t) == InHand(b, t)
  {
    if a == [] {
    } else {
      InHandSame(a[1..], b[1..], t);
    }
  }

  lemma {:induction false} InHandNone(a: seq<Worker>, t: nat)
    requires forall i | 0 <= i < |a| :: !a[i].Running?
    ensures InHand(a, t) == 0
  {
    if a == [] {
    } else {
      InHandNone(a[1..], t);
    }
  }

  /** Tasks are taken in the order pushed. */
  ghost predicate InOrder(s: Pool) {
    s.pushed == s.taken + s.queue
  }

  /** A task was taken as often as it was run or is being run. */
  ghost predicate Accounted(s: Pool, t: nat) {
    multiset(s.taken)[t] == multiset(s.ran)[t] + InHand(s.workers, t)
  }

  lemma TakeAccounts(s: Pool, w: nat, otherwise: Worker, t: nat)
    requires InOrder(s) && Accounted(s, t) && w < |s.workers| && !s.workers[w].Running? && !otherwise.Running?
    ensures InOrder(Take(s, w, otherwise)) && Accounted(Take(s, w, otherwise), t)
  {
    var s' := Take(s, w, otherwise);
    InHandUpdate(s.workers, w, s'.workers[w], t);
    if s.queue != [] {
      assert s.taken + s.queue == (s.taken + [s.queue[0]]) + s.queue[1..];
    }
  }

  lemma StepAccounts(s: Pool, e: Step, t: nat)
    requires InOrder(s) && Accounted(s, t) && Enabled(s, e)
    ensures InOrder(Next(s, e)) && Accounted(Next(s, e), t)
  {
    var s' := Next(s, e);
    match e {
      case Push(task) => assert s.taken + (s.queue + [task]) == (s.taken + s.queue) + [task];
      case Pop(w) => TakeAccounts(s, w, WantLock, t);
      case TestPop(w) => TakeAccounts(s, w, CheckDone, t);
      case Finish(w) => InHandUpdate(s.workers, w, Popping, t);
      case Lock(w) => InHandUpdate(s.workers, w, CheckPop, t);
      case TestDone(w) => InHandUpdate(s.workers, w, s'.workers[w], t);
      case Spurious(w) => InHandUpdate(s.workers, w, Woken, t);
      case Notify(wake) => if wake < |s.workers| && s.workers[wake].Asleep? { InHandUpdate(s.workers, wake, Woken, t); }
      case NotifyAll => InHandSame(s.workers, s'.workers, t);
      case SetDone =>
      case Return =>
    }
  }

  lemma {:induction false} RunAccounts(n: nat, run: seq<Pool>, k: nat, t: nat)
    requires IsRun(n, run) && k < |run|
    ensures InOrder(run[k]) && Accounted(run[k], t)
  {
    if k == 0 {
      InHandNone(run[0].workers, t);
    } else {
      RunAccounts(n, run, k - 1, t);
      assert StepTo(run[k - 1], run[k]);
      var e :| Enabled(run[k - 1], e) && run[k] == Next(run[k - 1], e);
      StepAccounts(run[k - 1], e, t);
    }
  }

  // ---------- Stopping ----------

  ghost predicate OneHolder(s: Pool) {
    forall i, j | 0 <= i < j < |s.workers| :: !(Holding(s.workers[i]) && Holding(s.workers[j]))
  }

  lemma StepOneHolder(s: Pool, e: Step)
    requires OneHolder(s) && Enabled(s, e)
    ensures OneHolder(Next(s, e)) && |Next(s, e).workers| == |s.workers|
  {
  }

  lemma {:induction false} RunOneHolder(n: nat, run: seq<Pool>, k: nat)
    requires IsRun(n, run) && k < |run|
    ensures OneHolder(run[k]) && |run[k].workers| == n
  {
    if k == 0 {
    } else {
      RunOneHolder(n, run, k - 1);
      assert StepTo(run[k - 1], run[k]);
      var e :| Enabled(run[k - 1], e) && run[k] == Next(run[k - 1], e);
      StepOneHolder(run[k - 1], e);
    }
  }

  /** What `stop(true)` promises when it returns: every pushed task was taken in order and ran exactly once. */
  ghost predicate AllRan(s: Pool) {
    s.queue == [] && s.taken == s.pushed && multiset(s.ran) == multiset(s.pushed)
  }

  /** No task is pushed once `stop` has been called; a push before the call may still have to notify. */
  ghost predicate NoLatePush(run: seq<Pool>) {
    forall k | 0 <= k < |run| - 1 :: Done(run[k]) ==> run[k + 1].pushed == run[k].pushed
  }

  /** A state to call `stop` in: nothing is queued, or some worker is not about to test the flag. */
  ghost predicate SafeCall(s: Pool) {
    s.queue == [] || exists i | 0 <= i < |s.workers| :: !s.workers[i].CheckDone?
  }

  /** Between these two states `stop` is called. */
  predicate Calls(a: Pool, b: Pool) {
    !Done(a) && Done(b)
  }

  ghost predicate SafeStop(run: seq<Pool>) {
    forall k | 0 <= k < |run| - 1 :: Calls(run[k], run[k + 1]) ==> SafeCall(run[k])
  }

  ghost predicate SomeAsleep(s: Pool) {
    exists i | 0 <= i < |s.workers| :: s.workers[i].Asleep?
  }

  /** Queued tasks have a worker awake, or one asleep that is about to be woken. */
  ghost predicate Draining(s: Pool) {
    && (Done(s) && s.queue != [] ==> SomeAwake(s) || (s.stopper.Flagged? && SomeAsleep(s)))
    && (s.stopper.Returned? ==> forall i | 0 <= i < |s.workers| :: s.workers[i].Exited?)
  }

  /** The worker that makes the call safe is awake or asleep. */
  lemma CallDrains(s: Pool)
    requires Wakeful(s) && s.stopper.NotCalled? && SafeCall(s)
    ensures Draining(Next(s, SetDone))
  {
    var s' := Next(s, SetDone);
    if s.queue != [] {
      var i :| 0 <= i < |s.workers| && !s.workers[i].CheckDone?;
      assert s'.workers[i].Asleep? || Awake(s'.workers[i]);
    }
  }

  /** A worker that was neither awake nor asleep leaves nobody behind. */
  lemma OthersDrain(s: Pool, s': Pool, w: nat)
    requires w < |s.workers| == |s'.workers| && s.workers[w].CheckDone?
    requires s'.workers == s.workers[w := s'.workers[w]]
    ensures (SomeAwake(s) ==> SomeAwake(s')) && (SomeAsleep(s) ==> SomeAsleep(s'))
  {
    if SomeAwake(s) { AwakeStays(s, s', w); }
    if i :| 0 <= i < |s.workers| && s.workers[i].Asleep? { assert s'.workers[i].Asleep?; }
  }

  lemma AllWoken(s: Pool)
    requires s.stopper.Flagged? && Free(s) && (SomeAwake(s) || SomeAsleep(s))
    ensures SomeAwake(Next(s, NotifyAll))
  {
    var i :| 0 <= i < |s.workers| && (Awake(s.workers[i]) || s.workers[i].Asleep?);
    AwakeAt(Next(s, NotifyAll), i);
  }

  lemma StepDrains(s: Pool, e: Step)
    requires Wakeful(s) && Draining(s) && Enabled(s, e)
    requires (Done(s) ==> Next(s, e).pushed == s.pushed) && (e.SetDone? ==> SafeCall(s))
    ensures Draining(Next(s, e))
  {
    var s' := Next(s, e);
    assert e.Push? ==> |s'.pushed| == |s.pushed| + 1;
    if Done(s') && s'.queue != [] {
      match e {
        case Push(_) =>
        case Notify(wake) => if SomeAsleep(s) { AwakeAt(s', wake); }
        case Pop(w) => AwakeAt(s', w);
        case Finish(w) => AwakeAt(s', w);
        case Lock(w) => AwakeAt(s', w);
        case TestPop(w) => AwakeAt(s', w);
        case TestDone(w) => OthersDrain(s, s', w);
        case Spurious(w) => AwakeAt(s', w);
        case SetDone => CallDrains(s);
        case NotifyAll => AllWoken(s);
        case Return => var i :| 0 <= i < |s.workers| && Awake(s.workers[i]); AwakeAt(s', i);
      }
    }
  }

  lemma {:induction false} RunDrains(n: nat, run: seq<Pool>, k: nat)
    requires IsRun(n, run) && n > 0 && k < |run| && NoLatePush(run) && SafeStop(run)
    ensures Draining(run[k])
  {
    if k == 0 {
    } else {
      RunDrains(n, run, k - 1);
      RunWakeful(n, run, k - 1);
      assert StepTo(run[k - 1], run[k]) && run[k] == run[k - 1 + 1];
      var e :| Enabled(run[k - 1], e) && run[k] == Next(run[k - 1], e);
      assert e.SetDone? ==> Calls(run[k - 1], run[k]);
      StepDrains(run[k - 1], e);
    }
  }

  /** Called in a safe state, `stop(true)` returns only after every pushed task ran exactly once. */
  lemma StopWaitsForAll(n: nat, run: seq<Pool>, k: nat)
    requires IsRun(n, run) && n > 0 && k < |run| && NoLatePush(run) && SafeStop(run) && run[k].stopper.Returned?
    ensures AllRan(run[k])
  {
    RunDrains(n, run, k);
    RunAccounts(n, run, k, 0);
    forall t: nat ensures multiset(run[k].ran)[t] == multiset(run[k].pushed)[t] {
      RunAccounts(n, run, k, t);
      InHandNone(run[k].workers, t);
    }
  }

  // ---------- Exactly when it waits ----------

  lemma {:induction false} DoneStays(n: nat, run: seq<Pool>, j: nat, k: nat)
    requires IsRun(n, run) && j <= k < |run| && Done(run[j])
    ensures Done(run[k])
    decreases k
  {
    if j == k {
    } else {
      DoneStays(n, run, j, k - 1);
      assert StepTo(run[k - 1], run[k - 1 + 1]);
    }
  }

  function Last(run: seq<Pool>): Pool
    requires run != []
  {
    run[|run| - 1]
  }

  /** A continuation in which `stop` is called at once, no task is pushed later, and the call returns. */
  ghost predicate StopsNow(n: nat, run: seq<Pool>, run': seq<Pool>) {
    && IsRun(n, run') && NoLatePush(run') && |run| < |run'| && run == run'[..|run|]
    && Done(run'[|run|]) && Last(run').stopper.Returned?
  }

  ghost predicate StopWaits(n: nat, run: seq<Pool>) {
    forall run' | StopsNow(n, run, run') :: AllRan(Last(run'))
  }

  lemma CalledOnce(n: nat, run: seq<Pool>, run': seq<Pool>)
    requires run != [] && Last(run).stopper.NotCalled? && SafeCall(Last(run)) && StopsNow(n, run, run')
    ensures SafeStop(run')
  {
    var j := |run| - 1;
    assert run'[j] == Last(run);
    forall k | 0 <= k < |run'| - 1 && Calls(run'[k], run'[k + 1]) ensures SafeCall(run'[k]) {
      if k < j {
        DoneStays(n, run', k + 1, j);
      } else if k > j {
        DoneStays(n, run', j + 1, k);
      }
    }
  }

  lemma OneMore(n: nat, run: seq<Pool>, s: Pool)
    requires IsRun(n, run) && StepTo(Last(run), s)
    ensures IsRun(n, run + [s])
  {
    var run' := run + [s];
    forall k | 0 <= k < |run'| - 1 ensures StepTo(run'[k], run'[k + 1]) {
      if k < |run| - 1 { assert StepTo(run[k], run[k + 1]); }
    }
  }

  lemma Then(n: nat, run: seq<Pool>, e: Step) returns (run': seq<Pool>)
    requires IsRun(n, run) && Enabled(Last(run), e)
    ensures IsRun(n, run') && run' == run + [Next(Last(run), e)]
  {
    hide Enabled, Next;
    run' := run + [Next(Last(run), e)];
    assert StepTo(Last(run), Next(Last(run), e));
    OneMore(n, run, Next(Last(run), e));
  }

  lemma EarlyPushes(n: nat, run: seq<Pool>, s: Pool)
    requires IsRun(n, run) && Last(run).stopper.NotCalled?
    ensures NoLatePush(run + [s])
  {
    forall k | 0 <= k < |run| ensures !Done((run + [s])[k]) {
      if Done(run[k]) { DoneStays(n, run, k, |run| - 1); }
    }
  }

  /** In an unsafe state the flag sends the only worker away, if there is one, and nobody takes what is queued. */
  lemma UnsafeCallLoses(n: nat, run: seq<Pool>) returns (run': seq<Pool>)
    requires IsRun(n, run) && Last(run).stopper.NotCalled? && !SafeCall(Last(run))
    ensures StopsNow(n, run, run') && Last(run').queue == Last(run).queue != []
  {
    hide StepTo;
    var workers := Last(run).workers;
    assert |workers| > 1 ==> Holding(workers[0]) && Holding(workers[1]);
    RunOneHolder(n, run, |run| - 1);
    run' := Then(n, run, SetDone);
    EarlyPushes(n, run, run'[|run|]);
    if n == 1 {
      run' := Then(n, run', TestDone(0));
    }
    run' := Then(n, run', NotifyAll);
    run' := Then(n, run', Return);
  }

  /** Called in any reachable state of a pool with workers, `stop(true)` waits for all exactly if the call is safe. */
  lemma StopWaitsExactly(n: nat, run: seq<Pool>)
    requires IsRun(n, run) && n > 0 && Last(run).stopper.NotCalled?
    ensures StopWaits(n, run) <==> SafeCall(Last(run))
  {
    if SafeCall(Last(run)) {
      forall run' | StopsNow(n, run, run') ensures AllRan(Last(run')) {
        CalledOnce(n, run, run');
        StopWaitsForAll(n, run', |run'| - 1);
      }
    } else {
      var run' := UnsafeCallLoses(n, run);
    }
  }

  /** A call is safe whenever every push has returned. */
  lemma SafeAfterPushes(n: nat, run: seq<Pool>, k: nat)
    requires IsRun(n, run) && n > 0 && k < |run| && !Done(run[k]) && run[k].pending == 0
    ensures SafeCall(run[k])
  {
    RunWakeful(n, run, k);
    if run[k].queue != [] {
      var i :| 0 <= i < |run[k].workers| && Awake(run[k].workers[i]);
    }
  }

  lemma WaitsAfterPushes(n: nat, run: seq<Pool>)
    requires IsRun(n, run) && n > 0 && Last(run).stopper.NotCalled? && Last(run).pending == 0
    ensures StopWaits(n, run)
  {
    SafeAfterPushes(n, run, |run| - 1);
    StopWaitsExactly(n, run);
  }

  /** With two workers every call is safe, as only one of them can hold the mutex. */
  lemma SafeWithTwo(n: nat, run: seq<Pool>, k: nat)
    requires IsRun(n, run) && n >= 2 && k < |run|
    ensures SafeCall(run[k])
  {
    RunOneHolder(n, run, k);
    assert !run[k].workers[0].CheckDone? || !run[k].workers[1].CheckDone?;
  }

  /** A pool whose `stop(true)`, whenever it is called, waits for all that was pushed before. */
  ghost predicate AlwaysWaits(n: nat) {
    forall run | IsRun(n, run) && NoLatePush(run) && Last(run).stopper.Returned? :: AllRan(Last(run))
  }

  /** A pool of one worker that nothing was taken from. */
  function Solo(w: Worker, queue: seq<nat>, pending: nat, stopper: Stopper): Pool {
    Pool(queue, [w], pending, stopper, queue, [], [])
  }

  lemma SoloMoves(w: Worker, x: Worker, queue: seq<nat>, pending: nat, stopper: Stopper)
    ensures At(Solo(w, queue, pending, stopper), 0, x) == Solo(x, queue, pending, stopper)
  {
    assert [w][0 := x] == [x];
  }

  /** The worker finds the queue empty; then a task comes. */
  lemma SoloBefore(q: seq<nat>)
    requires q == [7]
    ensures Solo(Popping, [], 0, NotCalled) == Start(1)
    ensures StepTo(Solo(Popping, [], 0, NotCalled), Solo(WantLock, [], 0, NotCalled))
    ensures StepTo(Solo(WantLock, [], 0, NotCalled), Solo(CheckPop, [], 0, NotCalled))
    ensures StepTo(Solo(CheckPop, [], 0, NotCalled), Solo(CheckDone, [], 0, NotCalled))
    ensures StepTo(Solo(CheckDone, [], 0, NotCalled), Solo(CheckDone, q, 1, NotCalled))
  {
    SoloMoves(Popping, WantLock, [], 0, NotCalled);
    SoloMoves(WantLock, CheckPop, [], 0, NotCalled);
    SoloMoves(CheckPop, CheckDone, [], 0, NotCalled);
    assert Next(Solo(Popping, [], 0, NotCalled), Pop(0)) == Solo(WantLock, [], 0, NotCalled);
    assert Next(Solo(WantLock, [], 0, NotCalled), Lock(0)) == Solo(CheckPop, [], 0, NotCalled);
    assert Next(Solo(CheckPop, [], 0, NotCalled), TestPop(0)) == Solo(CheckDone, [], 0, NotCalled);
    assert Next(Solo(CheckDone, [], 0, NotCalled), Push(7)) == Solo(CheckDone, q, 1, NotCalled);
  }

  /** The flag is set, the worker leaves, and `stop` has nobody to wait for. */
  lemma SoloAfter(q: seq<nat>)
    ensures StepTo(Solo(CheckDone, q, 1, NotCalled), Solo(CheckDone, q, 1, Flagged))
    ensures StepTo(Solo(CheckDone, q, 1, Flagged), Solo(Exited, q, 1, Flagged))
    ensures StepTo(Solo(Exited, q, 1, Flagged), Solo(Exited, q, 1, Joining))
    ensures StepTo(Solo(Exited, q, 1, Joining), Solo(Exited, q, 1, Returned))
  {
    SoloMoves(CheckDone, Exited, q, 1, Flagged);
    assert Next(Solo(CheckDone, q, 1, NotCalled), SetDone) == Solo(CheckDone, q, 1, Flagged);
    assert Next(Solo(CheckDone, q, 1, Flagged), TestDone(0)) == Solo(Exited, q, 1, Flagged);
    assert Next(Solo(Exited, q, 1, Flagged), NotifyAll) == Solo(Exited, q, 1, Joining);
    assert Next(Solo(Exited, q, 1, Joining), Return) == Solo(Exited, q, 1, Returned);
  }

  /** With one worker a push that overlaps the call of `stop` can be lost: its task is queued and never runs. */
  lemma OverlappingPushIsLost() returns (run: seq<Pool>)
    ensures IsRun(1, run) && NoLatePush(run)
    ensures Last(run).stopper.Returned? && Last(run).pushed == [7] && Last(run).queue == [7] && Last(run).ran == []
  {
    var q := [7];
    SoloBefore(q);
    SoloAfter(q);
    run := [Solo(Popping, [], 0, NotCalled), Solo(WantLock, [], 0, NotCalled), Solo(CheckPop, [], 0, NotCalled),
            Solo(CheckDone, [], 0, NotCalled), Solo(CheckDone, q, 1, NotCalled), Solo(CheckDone, q, 1, Flagged),
            Solo(Exited, q, 1, Flagged), Solo(Exited, q, 1, Joining), Solo(Exited, q, 1, Returned)];
  }

  lemma NobodyWaits() returns (run: seq<Pool>)
    ensures IsRun(0, run) && NoLatePush(run) && Last(run).stopper.Returned? && Last(run).queue == [7]
  {
    run := [Start(0)];
    run := Then(0, run, Push(7));
    run := UnsafeCallLoses(0, run);
  }

  /** `stop(true)` always waits for all that was pushed before exactly in a pool of two or more workers. */
  lemma WaitsWithTwo(n: nat)
    ensures AlwaysWaits(n) <==> n >= 2
  {
    if n >= 2 {
      forall run | IsRun(n, run) && NoLatePush(run) && Last(run).stopper.Returned? ensures AllRan(Last(run)) {
        forall k | 0 <= k < |run| - 1 && Calls(run[k], run[k + 1]) ensures SafeCall(run[k]) {
          SafeWithTwo(n, run, k);
        }
        StopWaitsForAll(n, run, |run| - 1);
      }
    } else if n == 1 {
      var run := OverlappingPushIsLost();
    } else {
      var run := NobodyWaits();
    }
  }
}
