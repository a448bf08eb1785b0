/**
  From every reachable state the cluster can go on: what a leader is given can be committed by a majority, and some
  server can become leader and bring all to one committed log.
 */
module RaftRecovery {
  import opened RaftHandlers
  import opened RaftProtocol
  import opened RaftSafety
  import opened RaftCommit
  import opened RaftElectable
  import opened RaftProgress

  // ---------- Followers commit ----------

  /** Server j has log and commits it, server a is still the leader with it, and the others are as they were. */
  ghost predicate Commits(servers: seq<Server>, servers': seq<Server>, a: nat, j: nat, log: seq<Entry>, commit: nat)
    requires a < |servers| && j < |servers|
  {
    && |servers'| == |servers| && SameLeader(servers[a], servers'[a], j)
    && log <= servers'[j].log && servers'[j].commit >= commit && servers'[j].term == servers[a].term
    && forall k | 0 <= k < |servers| && k != a && k != j :: servers'[k] == servers[k]
  }

  /** One more request, with nothing to send, tells a follower what is committed. */
  lemma Heartbeat(n: nat, run: seq<System>, a: nat, j: nat) returns (run': seq<System>)
    requires IsRun(n, run) && a < |Last(run).servers| && j < |Last(run).servers| && a != j
    requires var s := Last(run).servers[a];
             && s.role == Leader && Last(run).servers[j].term <= s.term && s.log <= Last(run).servers[j].log
    ensures IsRun(n, run') && run <= run' && |run'| == |run| + 3
    ensures var s := Last(run).servers[a];
            Commits(Last(run).servers, Last(run').servers, a, j, s.log, Min(s.commit, |s.log|))
  {
    hide StepTo, Matching, Exchange, Counts, SoundTo;
    var s, f := Last(run).servers[a], Last(run).servers[j];
    var next := |s.log| + 1;
    ReadyAlways(n, run, a, j, next);
    PositiveLog(n, run, a);
    assert s.log[..|s.log|] == s.log;
    MeetsAfter(f.log, s.log, |s.log|);
    var p := PairIn(Last(run), a, j, next);
    AcceptedOnce(p, a, j, 0);
    run' := ExchangeRuns(n, run, a, j, next, 0);
  }

  /** The leader goes on with the same log, and each follower holds it and has committed up to the index. */
  ghost predicate AllCommit(servers: seq<Server>, servers': seq<Server>, a: nat, js: seq<nat>, commit: nat)
    requires a < |servers|
  {
    && |servers'| == |servers|
    && var s, s' := servers[a], servers'[a];
       && s'.role == s.role && s'.term == s.term && s'.log == s.log && s.commit <= s'.commit
       && (forall i | 0 <= i < |js| :: js[i] < |servers| && s.log <= servers'[js[i]].log)
       && (forall i | 0 <= i < |js| :: js[i] < |servers| && servers'[js[i]].commit >= commit)
       && (forall k | 0 <= k < |servers| && k != a && k !in js :: servers'[k] == servers[k])
  }

  lemma {:induction false} Heartbeats(n: nat, run: seq<System>, a: nat, js: seq<nat>, commit: nat)
    returns (run': seq<System>)
    requires IsRun(n, run) && Followers(Last(run).servers, a, js)
    requires var s := Last(run).servers[a];
             && commit <= s.commit && commit <= |s.log|
             && forall i | 0 <= i < |js| :: s.log <= Last(run).servers[js[i]].log
    ensures IsRun(n, run') && run <= run' && |run'| == |run| + 3 * |js|
    ensures AllCommit(Last(run).servers, Last(run').servers, a, js, commit)
    decreases |js|
  {
    hide StepTo;
    if js == [] {
      run' := run;
    } else {
      var k := |js| - 1;
      var servers := Last(run).servers;
      assert Followers(servers, a, js[..k]);
      var mid := Heartbeats(n, run, a, js[..k], commit);
      assert js[k] !in js[..k];
      run' := Heartbeat(n, mid, a, js[k]);
      assert js == js[..k] + [js[k]];
      forall i | 0 <= i < |js|
        ensures servers[a].log <= Last(run').servers[js[i]].log && Last(run').servers[js[i]].commit >= commit
      {
        if i < k { assert js[..k][i] == js[i] != js[k]; }
      }
    }
  }

  /** A leader with a majority of servers of terms not above its own can commit its log together with them. */
  lemma EveryoneCommits(n: nat, run: seq<System>, a: nat, js: seq<nat>, nexts: seq<nat>, counts: seq<nat>)
    returns (run': seq<System>)
    requires n >= 2 && IsRun(n, run) && Followers(Last(run).servers, a, js) && |js| + 1 > n / 2 && |nexts| == |js|
    requires forall i | 0 <= i < |nexts| :: 1 <= nexts[i] <= |Last(run).servers[a].log| + 1
    requires |counts| > 2 * |Last(run).servers[a].log| + 2 && forall i | 0 <= i < |counts| :: counts[i] >= 1
    ensures IsRun(n, run') && run <= run' && a < |Last(run').servers| == |Last(run).servers|
    ensures var s, s' := Last(run).servers[a], Last(run').servers[a];
            && s'.role == Leader && s'.term == s.term && s'.log == s.log && s'.commit >= |s.log|
            && (forall i | 0 <= i < |js| :: s.log <= Last(run').servers[js[i]].log)
            && (forall i | 0 <= i < |js| :: Last(run').servers[js[i]].commit >= |s.log|)
  {
    hide StepTo;
    var led := LeaderCommits(n, run, a, js, nexts, counts);
    run' := Heartbeats(n, led, a, js, |Last(run).servers[a].log|);
  }

  // ---------- Client entries ----------

  /** A client request appends each payload to the leader's log. */
  lemma Requested(n: nat, run: seq<System>, a: nat, payloads: seq<string>) returns (run': seq<System>)
    requires n >= 2 && IsRun(n, run) && a < |Last(run).servers| && Last(run).servers[a].role == Leader
    ensures IsRun(n, run') && run <= run' && |run'| == |run| + 1 && |Last(run').servers| == |Last(run).servers|
    ensures var s, s' := Last(run).servers[a], Last(run').servers[a];
            && s'.role == Leader && s'.term == s.term && Appends(s.log, s'.log, s.term, payloads)
            && forall k | 0 <= k < |Last(run).servers| && k != a :: Last(run').servers[k] == Last(run).servers[k]
  {
    hide StepTo;
    RunSize(n, run, |run| - 1);
    run' := Then(n, run, ClientRequest(a, payloads));
  }

  /**
    From every reachable state, what a client gives a leader can be committed by any majority of servers of terms not
    above the leader's: each payload at its index, on the leader and on all of them.
   */
  lemma ClientEntriesCommit(n: nat, run: seq<System>, a: nat, payloads: seq<string>, js: seq<nat>, nexts: seq<nat>,
                            counts: seq<nat>)
    returns (run': seq<System>)
    requires n >= 2 && IsRun(n, run) && Followers(Last(run).servers, a, js) && |js| + 1 > n / 2 && |nexts| == |js|
    requires forall i | 0 <= i < |nexts| :: 1 <= nexts[i] <= |Last(run).servers[a].log| + 1
    requires |counts| > 2 * (|Last(run).servers[a].log| + |payloads|) + 2
    requires forall i | 0 <= i < |counts| :: counts[i] >= 1
    ensures IsRun(n, run') && run <= run' && a < |Last(run').servers| == |Last(run).servers|
    ensures var s, s' := Last(run).servers[a], Last(run').servers[a];
            && Appends(s.log, s'.log, s.term, payloads) && s'.commit >= |s'.log|
            && (forall i | 0 <= i < |js| :: s'.log <= Last(run').servers[js[i]].log)
            && (forall i | 0 <= i < |js| :: Last(run').servers[js[i]].commit >= |s'.log|)
  {
    hide StepTo;
    var given := Requested(n, run, a, payloads);
    run' := EveryoneCommits(n, given, a, js, nexts, counts);
  }

  // ---------- Recovery ----------

  lemma {:induction false} BestServer(servers: seq<Server>, k: nat) returns (i: nat)
    requires 0 < k <= |servers|
    ensures i < k && forall j | 0 <= j < k :: NotBehind(servers[i].log, servers[j].log)
  {
    if k == 1 {
      i := 0;
      VoteTestTotal(servers[0].log, servers[0].log);
    } else {
      var b := BestServer(servers, k - 1);
      var last := servers[k - 1].log;
      VoteTestTotal(servers[b].log, last);
      VoteTestTotal(last, last);
      i := if NotBehind(servers[b].log, last) then b else k - 1;
      forall j | 0 <= j < k ensures NotBehind(servers[i].log, servers[j].log) {
        if i == k - 1 && j < k - 1 { NotBehindAny(last, servers[b].log, servers[j].log); }
      }
    }
  }

  lemma {:induction false} TermAbove(servers: seq<Server>) returns (t: nat)
    ensures forall i | 0 <= i < |servers| :: servers[i].term < t
  {
    if servers == [] {
      t := 0;
    } else {
      var k := |servers| - 1;
      t := TermAbove(servers[..k]);
      t := Max(t, servers[k].term + 1);
      assert forall i | 0 <= i < k :: servers[i] == servers[..k][i];
    }
  }

  lemma {:induction false} AllOthers(n: nat, i: nat) returns (js: seq<nat>)
    ensures |js| == if i < n then n - 1 else n
    ensures forall j: nat :: j in js <==> j < n && j != i
    ensures forall k, l | 0 <= k < l < |js| :: js[k] != js[l]
  {
    if n == 0 {
      js := [];
    } else {
      js := AllOthers(n - 1, i);
      forall k | 0 <= k < |js| ensures js[k] < n - 1 { assert js[k] in js; }
      if i != n - 1 { js := js + [n - 1]; }
    }
  }

  /**
    From every reachable state some server can become leader, and all servers then hold and commit its whole log,
    which is the log it had and the new leader's configuration entry.
   */
  lemma Recovers(n: nat, run: seq<System>, config: string) returns (run': seq<System>, i: nat, t: nat)
    requires n >= 2 && IsRun(n, run)
    ensures IsRun(n, run') && run <= run' && i < |Last(run).servers| == |Last(run').servers| == n
    ensures Leads(Last(run'), i, t)
    ensures var log := Last(run').servers[i].log;
            && log == Last(run).servers[i].log + [Entry(t, true, config)]
            && (forall j | 0 <= j < n :: NotBehind(Last(run).servers[i].log, Last(run).servers[j].log))
            && (forall j | 0 <= j < n :: log <= Last(run').servers[j].log && Last(run').servers[j].commit >= |log|)
  {
    hide StepTo, NotBehind;
    var servers := Last(run).servers;
    RunSize(n, run, |run| - 1);
    i := BestServer(servers, n);
    t := TermAbove(servers);
    var js := AllOthers(n, i);
    forall k | 0 <= k < |js| ensures js[k] < n && js[k] != i { assert js[k] in js; }
    var led := BecomesLeader(n, run, i, js, t, config);
    LedFollowers(servers, Last(led).servers, i, js, js[..n / 2], t);
    var log := Last(led).servers[i].log;
    var nexts, counts := seq(|js|, _ => 1), seq(2 * |log| + 3, _ => 1);
    run' := EveryoneCommits(n, led, i, js, nexts, counts);
    forall j | 0 <= j < n
      ensures log <= Last(run').servers[j].log && Last(run').servers[j].commit >= |log|
    {
      if j != i {
        assert j in js;
        var k :| 0 <= k < |js| && js[k] == j;
      }
    }
  }

  lemma LedFollowers(servers: seq<Server>, servers': seq<Server>, i: nat, js: seq<nat>, voters: seq<nat>, t: nat)
    requires i < |servers| == |servers'| && servers'[i].role == Leader && servers'[i].term == t
    requires OnlyVoted(servers, servers', i, voters, t) && Supporters(servers, i, js, t)
    ensures Followers(servers', i, js)
  {
    hide NotBehind;
    forall k | 0 <= k < |js| ensures servers'[js[k]].term <= t { assert servers[js[k]].term < t; }
  }

  // ---------- A server alone ----------

  ghost predicate Alone(sys: System) {
    && |sys.servers| == 1 && sys.net == {}
    && var s := sys.servers[0]; s.commit == |s.log| && (s.role == Leader ==> s.precommit == |s.log|)
  }

  lemma StepAlone(sys: System, e: Event)
    requires Alone(sys) && Enabled(sys, e)
    ensures Alone(Next(sys, e))
  {
    assert e.Timeout? || e.ClientRequest? || e.StepDown?;
  }

  /** A server that is alone has committed its whole log at every moment of every run. */
  lemma {:induction false} AloneCommits(run: seq<System>, k: nat)
    requires IsRun(1, run) && k < |run|
    ensures Alone(run[k])
  {
    if k == 0 {
    } else {
      hide Next, Enabled, Alone;
      AloneCommits(run, k - 1);
      assert StepTo(run[k - 1], run[k - 1 + 1]);
      var e :| Enabled(run[k - 1], e) && run[k] == Next(run[k - 1], e);
      StepAlone(run[k - 1], e);
    }
  }
}
