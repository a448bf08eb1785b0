/**
  The leader's commit rule. It counts what servers hold but not the term of the entry it picks,
  so an entry of an earlier term can be committed and then lost; an entry of the leader's own term,
  counted from acceptances of that term, cannot.
 */
module RaftCommit {
  import opened Wrappers
  import CommitIndex
  import opened RaftHandlers
  import opened RaftProtocol
  import opened RaftSafety

  /** The servers the leader counts for index idx. */
  function Counted(s: Server, a: nat, idx: nat): set<nat>
    requires a < |s.matched|
  {
    CommitIndex.Reaching(s.matched[a := s.precommit], idx)
  }

  lemma CountedIsMajority(s: Server, a: nat)
    requires a < |s.matched|
    ensures var idx := CommitIndex.Expected(MatchedIndexes(s, a));
            |Counted(s, a, idx)| > |s.matched| / 2
  {
    var idx := CommitIndex.Expected(MatchedIndexes(s, a));
    CommitIndex.ExpectedIsMajority(MatchedIndexes(s, a), idx);
    CommitIndex.CountMoved(s.matched, a, s.precommit, idx);
    CommitIndex.ReachingSize(s.matched[a := s.precommit], idx);
  }

  // ---------- Where the rule is safe ----------

  lemma {:induction false} ResponsesStay(n: nat, run: seq<System>, j: nat, k: nat, m: Msg)
    requires IsRun(n, run) && j <= k < |run| && m in run[j].net && m.AppendResp?
    ensures m in run[k].net
    decreases k
  {
    if j == k {
    } else {
      ResponsesStay(n, run, j, k - 1, m);
      assert StepTo(run[k - 1], run[k - 1 + 1]);
    }
  }

  lemma RecordStays(sys: System, e: Event, i: nat)
    requires Enabled(sys, e) && i < |sys.servers|
    ensures |Next(sys, e).servers| == |sys.servers| && |Next(sys, e).servers[i].matched| == |sys.servers[i].matched|
  {
    hide CommitIndex.Expected, MatchLen, UpToDate, VoteReqs, Stamp;
  }

  lemma {:induction false} RecordSize(n: nat, run: seq<System>, k: nat, i: nat)
    requires IsRun(n, run) && k < |run| && i < |run[k].servers|
    ensures |run[k].servers[i].matched| == n
    decreases k
  {
    hide Next, Enabled;
    if k == 0 {
    } else {
      assert StepTo(run[k - 1], run[k - 1 + 1]);
      var e :| Enabled(run[k - 1], e) && run[k] == Next(run[k - 1], e);
      RunSize(n, run, k - 1);
      RunSize(n, run, k);
      RecordStays(run[k - 1], e, i);
      RecordSize(n, run, k - 1, i);
    }
  }

  lemma AcceptsStays(n: nat, run: seq<System>, j: nat, k: nat, v: nat, a: nat, t: nat, idx: nat, idx': nat)
    requires IsRun(n, run) && j <= k < |run| && Accepts(run[j], v, a, t, idx) && idx' <= idx
    ensures Accepts(run[k], v, a, t, idx')
  {
    if v != a {
      var dst, next :| next > idx && AppendResp(t, v, dst, next, true) in run[j].net;
      ResponsesStay(n, run, j, k, AppendResp(t, v, dst, next, true));
    }
  }

  /** Every server counted for the index accepted it in the leader's current term. */
  ghost predicate CountsCurrent(sys: System, a: nat, idx: nat)
    requires a < |sys.servers| && a < |sys.servers[a].matched|
  {
    var s := sys.servers[a];
    forall v :: v in Counted(s, a, idx) ==> Accepts(sys, v, a, s.term, idx)
  }

  /**
    If the entry the rule picks has the leader's own term, and the servers counted for it accepted it in
    that term, then every later leader has the leader's entries up to the picked index.
   */
  lemma OwnTermCommitIsKept(n: nat, run: seq<System>, j: nat, a: nat, t: nat, k: nat, b: nat, t2: nat)
    requires IsRun(n, run) && j < |run| && k < |run| && Leads(run[j], a, t) && Leads(run[k], b, t2) && t < t2
    requires a < |run[j].servers[a].matched|
    requires var s := run[j].servers[a];
             var idx := CommitIndex.Expected(MatchedIndexes(s, a));
             1 <= idx <= |s.log| && s.log[idx - 1].term == t && CountsCurrent(run[j], a, idx)
    ensures var s := run[j].servers[a];
            s.log[..CommitIndex.Expected(MatchedIndexes(s, a))] <= run[k].servers[b].log
  {
    var s := run[j].servers[a];
    var idx := CommitIndex.Expected(MatchedIndexes(s, a));
    var q := Counted(s, a, idx);
    RecordSize(n, run, j, a);
    CountedIsMajority(s, a);
    forall v | v in q ensures Accepts(run[|run| - 1], v, a, t, idx) {
      AcceptsStays(n, run, j, |run| - 1, v, a, t, idx, idx);
    }
    LeaderCompleteness(n, run, j, a, t, k, b, t2, idx, q);
  }

  // ---------- Where it is not ----------

  /** A step other than the handling of an append response. */
  ghost predicate QuietTo(a: System, b: System) {
    exists e: Event :: Enabled(a, e) && b == Next(a, e) && !e.ReceiveAppendResp?
  }

  /** One election among three servers: i asks, j grants, i leads. */
  lemma Round(sys: System, i: nat, j: nat, t: nat, config: string) returns (s1: System, s2: System, s3: System)
    requires |sys.servers| == 3 && i < 3 && j < 3 && i != j
    requires t > sys.servers[i].term && t > sys.servers[j].term
    requires UpToDate(LastTerm(sys.servers[i].log), |sys.servers[i].log|, sys.servers[j].log)
    ensures StepTo(sys, s1) && StepTo(s1, s2) && StepTo(s2, s3)
    ensures QuietTo(sys, s1) && QuietTo(s1, s2) && QuietTo(s2, s3)
    ensures s3.servers == sys.servers[j := UpdateTerm(sys.servers[j], t).(votedFor := i)]
                                     [i := Elected(sys.servers[i], i, t, 2, config)]
  {
    var c := InitiateVote(sys.servers[i], i, 3, t, config);
    var req := VoteReq(t, i, j, LastTerm(c.log), |c.log|);
    s1 := Next(sys, Timeout(i, t, config));
    assert Enabled(sys, Timeout(i, t, config)) && req in s1.net && s1.servers == sys.servers[i := c];
    s2 := Next(s1, ReceiveVoteReq(req, false));
    assert Enabled(s1, ReceiveVoteReq(req, false));
    var resp := VoteResp(t, j, i, true);
    assert resp in s2.net && s2.servers == s1.servers[j := UpdateTerm(sys.servers[j], t).(votedFor := i)];
    hide UpToDate, LastTerm, InitiateVote;
    s3 := Next(s2, ReceiveVoteResp(resp, config));
    assert Enabled(s2, ReceiveVoteResp(resp, config));
  }

  /** Server i after winning term t with the given number of votes. */
  function Elected(s: Server, i: nat, t: nat, votes: nat, config: string): Server {
    var log := s.log + [Entry(t, true, config)];
    s.(term := t, votedFor := i, role := Leader, granted := votes, responded := votes, electionDone := true,
       log := log, precommit := |log|)
  }

  lemma OneMore(n: nat, run: seq<System>, s: System)
    requires IsRun(n, run) && StepTo(run[|run| - 1], s)
    ensures IsRun(n, run + [s])
  {
    var run' := run + [s];
    forall k | 0 <= k < |run'| - 1 ensures StepTo(run'[k], run'[k + 1]) {
      if k < |run| - 1 { assert StepTo(run[k], run[k + 1]); }
    }
  }

  function Last(run: seq<System>): System
    requires |run| > 0
  {
    run[|run| - 1]
  }

  lemma Then(n: nat, run: seq<System>, e: Event) returns (run': seq<System>)
    requires IsRun(n, run) && Enabled(Last(run), e)
    ensures IsRun(n, run') && run' == run + [Next(Last(run), e)]
  {
    hide Enabled, Next;
    run' := run + [Next(Last(run), e)];
    assert StepTo(Last(run), Next(Last(run), e));
    OneMore(n, run, Next(Last(run), e));
  }

  lemma QuietNext(sys: System, e: Event)
    requires Enabled(sys, e) && !e.ReceiveAppendResp?
    ensures QuietTo(sys, Next(sys, e))
  {
    hide Enabled, Next;
  }

  /** An append request goes out and is handled. */
  lemma Take(n: nat, run: seq<System>, a: nat, j: nat, prevIdx: nat, count: nat) returns (run': seq<System>)
    requires IsRun(n, run) && Enabled(Last(run), SendAppend(a, j, prevIdx, count))
    ensures IsRun(n, run') && run <= run' && |run'| == |run| + 2 && Last(run).net <= Last(run').net
    ensures QuietTo(Last(run), run'[|run|]) && QuietTo(run'[|run|], Last(run'))
    ensures var servers := Last(run).servers;
            var out := HandleAppend(servers[j], j, AppendReqFor(servers[a], a, j, prevIdx, count), false);
            Last(run').servers == servers[j := out.server] && (out.reply.Some? ==> out.reply.value in Last(run').net)
  {
    hide StepTo, QuietTo, HandleAppend;
    var req := AppendReqFor(Last(run).servers[a], a, j, prevIdx, count);
    run' := Then(n, run, SendAppend(a, j, prevIdx, count));
    QuietNext(Last(run), SendAppend(a, j, prevIdx, count));
    var mid := Last(run');
    assert mid.servers == Last(run).servers && req in mid.net;
    run' := Then(n, run', ReceiveAppend(req, false));
    QuietNext(mid, ReceiveAppend(req, false));
  }

  /** An append response is handled. */
  lemma Reply(n: nat, run: seq<System>, a: nat, resp: Msg) returns (run': seq<System>)
    requires IsRun(n, run) && a < |Last(run).servers| && resp in Last(run).net && resp.AppendResp? && resp.dst == a
    ensures IsRun(n, run') && run' == run + [Next(Last(run), ReceiveAppendResp(resp))]
    ensures var servers := Last(run).servers;
            Last(run').servers == servers[a := HandleAppendResp(servers[a], a, resp)]
  {
    hide StepTo, HandleAppendResp;
    run' := Then(n, run, ReceiveAppendResp(resp));
  }

  lemma ThreeMore(n: nat, run: seq<System>, s1: System, s2: System, s3: System) returns (run': seq<System>)
    requires IsRun(n, run) && StepTo(run[|run| - 1], s1) && StepTo(s1, s2) && StepTo(s2, s3)
    ensures IsRun(n, run') && run' == run + [s1, s2, s3]
  {
    OneMore(n, run, s1);
    OneMore(n, run + [s1], s2);
    OneMore(n, run + [s1] + [s2], s3);
    run' := run + [s1] + [s2] + [s3];
  }

  lemma RunRound(run: seq<System>, i: nat, j: nat, t: nat, config: string) returns (run': seq<System>)
    requires IsRun(3, run)
    requires var sys := run[|run| - 1];
             && |sys.servers| == 3 && i < 3 && j < 3 && i != j
             && t > sys.servers[i].term && t > sys.servers[j].term
             && UpToDate(LastTerm(sys.servers[i].log), |sys.servers[i].log|, sys.servers[j].log)
    ensures IsRun(3, run') && run <= run'
    ensures var servers := run[|run| - 1].servers;
            run'[|run'| - 1].servers == servers[j := UpdateTerm(servers[j], t).(votedFor := i)]
                                               [i := Elected(servers[i], i, t, 2, config)]
  {
    var s1, s2, s3 := Round(run[|run| - 1], i, j, t, config);
    run' := ThreeMore(3, run, s1, s2, s3);
  }

  /** Server i steps down and stands once in vain. */
  lemma RunRetry(run: seq<System>, i: nat) returns (run': seq<System>)
    requires IsRun(3, run) && |run[|run| - 1].servers| == 3 && i < 3
    ensures IsRun(3, run') && run <= run'
    ensures var servers := run[|run| - 1].servers;
            && |run'[|run'| - 1].servers| == 3
            && run'[|run'| - 1].servers[i].term == servers[i].term + 1
            && run'[|run'| - 1].servers[i].log == servers[i].log
            && run'[|run'| - 1].servers[i].matched == servers[i].matched
            && run'[|run'| - 1].servers[i].commit == servers[i].commit
            && run'[|run'| - 1].servers == servers[i := run'[|run'| - 1].servers[i]]
  {
    var sys := run[|run| - 1];
    var s1 := Next(sys, StepDown(i));
    assert Enabled(sys, StepDown(i));
    OneMore(3, run, s1);
    var e := Timeout(i, s1.servers[i].term + 1, "");
    var s2 := Next(s1, e);
    assert Enabled(s1, e);
    OneMore(3, run + [s1], s2);
    run' := run + [s1] + [s2];
  }

  lemma AcceptedReply(s: Server, f: Server, a: nat, j: nat, prevIdx: nat, count: nat)
    requires prevIdx + count <= s.precommit <= |s.log| && f.term <= s.term && (f.term == s.term ==> f.role != Leader)
    requires LogOkay(f.log, prevIdx, TermForLog(s.log, prevIdx))
    ensures var out := HandleAppend(f, j, AppendReqFor(s, a, j, prevIdx, count), false);
            && out.reply == Some(AppendResp(s.term, j, a, prevIdx + count + 1, true))
            && out.server.term == s.term && out.server.role == Follower
            && out.server.log == AppendRule(f.log, prevIdx, s.log[prevIdx..prevIdx + count])
            && out.server.matched == f.matched && (s.commit == 0 && f.commit == 0 ==> out.server.commit == 0)
            && out.server.commit >= Min(s.commit, prevIdx + count)
  {
    hide AppendRule, MatchLen, TermForLog;
  }

  /** Server j drops its own entries and takes the leader's first ones. */
  lemma Taken(s: Server, f: Server, a: nat, j: nat, count: nat)
    requires 1 <= count <= s.precommit <= |s.log| && f.term <= s.term && (f.term == s.term ==> f.role == Follower)
    requires f.log == [] || f.log[0].term != s.log[0].term
    ensures var out := HandleAppend(f, j, AppendReqFor(s, a, j, 0, count), false);
            && out.reply == Some(AppendResp(s.term, j, a, count + 1, true))
            && out.server.log == s.log[..count] && out.server.term == s.term && out.server.matched == f.matched
            && (s.commit == 0 && f.commit == 0 ==> out.server.commit == 0)
  {
    hide HandleAppend;
    AcceptedReply(s, f, a, j, 0, count);
    var entries := s.log[0..count];
    assert MatchLen(f.log, 0, entries) == 0;
    assert AppendRule(f.log, 0, entries) == entries;
  }

  /** The leader sends its first entry to server j and hears back. */
  lemma Replicate(sys: System, a: nat, j: nat) returns (s1: System, s2: System, s3: System)
    requires CanReplicate(sys, a, j)
    ensures StepTo(sys, s1) && StepTo(s1, s2) && StepTo(s2, s3)
    ensures Replicated(sys.servers, a, j, s3.servers)
  {
    hide CommitIndex.Expected, HandleAppend, MatchedIndexes, Commit;
    Taken(sys.servers[a], sys.servers[j], a, j, 1);
    var req := AppendReqFor(sys.servers[a], a, j, 0, 1);
    s1 := Next(sys, SendAppend(a, j, 0, 1));
    assert Enabled(sys, SendAppend(a, j, 0, 1));
    s2 := Next(s1, ReceiveAppend(req, false));
    assert Enabled(s1, ReceiveAppend(req, false));
    var resp := AppendResp(sys.servers[j].term, j, a, 2, true);
    assert resp in s2.net;
    s3 := Next(s2, ReceiveAppendResp(resp));
    assert Enabled(s2, ReceiveAppendResp(resp));
  }

  predicate CanReplicate(sys: System, a: nat, j: nat) {
    && |sys.servers| == 3 && a < 3 && j < 3 && a != j
    && sys.servers[a].role == Leader && 1 <= sys.servers[a].precommit <= |sys.servers[a].log|
    && sys.servers[j].term == sys.servers[a].term && sys.servers[j].role == Follower
    && sys.servers[j].log == [] && |sys.servers[a].matched| == 3
  }

  predicate Replicated(servers: seq<Server>, a: nat, j: nat, after: seq<Server>)
    requires |servers| == 3 && a < 3 && j < 3 && |servers[a].matched| == 3 && |servers[a].log| >= 1
  {
    var s := servers[a].(matched := servers[a].matched[j := 1]);
    && |after| == 3
    && after[a] == Commit(s, CommitIndex.Expected(MatchedIndexes(s, a)))
    && after[j].log == servers[a].log[..1]
    && after[j].term == servers[j].term
    && after == servers[a := after[a]][j := after[j]]
  }

  lemma RunReplicate(run: seq<System>, a: nat, j: nat) returns (run': seq<System>)
    requires IsRun(3, run) && CanReplicate(run[|run| - 1], a, j)
    ensures IsRun(3, run') && run <= run' && Replicated(run[|run| - 1].servers, a, j, run'[|run'| - 1].servers)
  {
    hide StepTo, Replicated;
    var s1, s2, s3 := Replicate(run[|run| - 1], a, j);
    run' := ThreeMore(3, run, s1, s2, s3);
  }

  lemma MiddleOfThree()
    ensures CommitIndex.Expected([2, 1, 0]) == 1
  {
    assert CommitIndex.SortDesc([0]) == [0];
    assert [2, 1, 0][1..] == [1, 0] && [1, 0][1..] == [0];
    assert CommitIndex.Insert(1, [0]) == [1, 0];
    assert CommitIndex.Insert(2, [1, 0]) == [2, 1, 0];
  }

  /**
    The rule as it stands loses a committed entry: with three servers, a leader of term 3 commits
    index 1 holding an entry of term 1, and the leader of term 4 has another entry there.
   */
  lemma CommittedEntryLost() returns (run: seq<System>, j: nat)
    ensures IsRun(3, run) && j < |run|
    ensures Leads(run[j], 0, 3) && run[j].servers[0].commit == 1 && |run[j].servers[0].log| == 2
    ensures run[j].servers[0].log[0].term == 1
    ensures Leads(run[|run| - 1], 2, 4) && |run[|run| - 1].servers[2].log| == 2
    ensures run[|run| - 1].servers[2].log[0] != run[j].servers[0].log[0]
  {
    run := [Init(3)];
    run := RunRound(run, 0, 1, 1, "A");
    run := RunRetry(run, 2);
    run := RunRound(run, 2, 1, 2, "B");
    run := RunRetry(run, 0);
    run := RunRound(run, 0, 1, 3, "C");
    run := RunReplicate(run, 0, 1);
    MiddleOfThree();
    j := |run| - 1;
    var committed := run[j];
    assert MatchedIndexes(committed.servers[0], 0) == [2, 1, 0];
    run := RunRetry(run, 2);
    run := RunRound(run, 2, 1, 4, "D");
    assert run[j] == committed;
  }
}
