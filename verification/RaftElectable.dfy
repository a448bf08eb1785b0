/**
  Who can be elected. Of any two logs at least one passes the other's vote test, and from every reachable state a server
  whose log is not behind those of a majority can become leader.
 */
module RaftElectable {
  import CommitIndex
  import opened RaftHandlers
  import opened RaftProtocol
  import opened RaftHistory
  import opened RaftSafety
  import opened RaftSteps
  import opened RaftCommit

  // ---------- The vote test ----------

  /** Log b is empty, or its last entry is of an earlier term than a's, or of the same term and b is not longer. */
  predicate NotBehind(a: seq<Entry>, b: seq<Entry>) {
    b == [] ||
    (a != [] && var s, t := a[|a| - 1].term, b[|b| - 1].term; t < s || (t == s && |b| <= |a|))
  }

  /** The vote test is this order, and the order is total. */
  lemma VoteTestTotal(a: seq<Entry>, b: seq<Entry>)
    ensures UpToDate(LastTerm(a), |a|, b) <==> NotBehind(a, b)
    ensures NotBehind(a, b) || NotBehind(b, a)
  {
  }

  lemma NotBehindAny(a: seq<Entry>, b: seq<Entry>, c: seq<Entry>)
    requires NotBehind(a, b) && NotBehind(b, c)
    ensures NotBehind(a, c)
  {
  }

  lemma SortedLog(r: map<nat, Reign>, log: seq<Entry>)
    requires LogOk(r, log) && ReignLogsOk(r)
    ensures Sorted(log)
  {
    if log != [] {
      var last := |log| - 1;
      assert Anchored(r, log, last) && ReignLogOk(r, log[last].term);
      hide LogOk, ReignLogsOk;
      var full := r[log[last].term].log;
      assert log == log[..last + 1] == full[..last + 1];
      forall i, j | 0 <= i <= j < |log| ensures log[i].term <= log[j].term {
        assert log[i] == full[i] && log[j] == full[j];
      }
    }
  }

  lemma LogsSorted(n: nat, run: seq<System>, k: nat, i: nat)
    requires IsRun(n, run) && k < |run| && i < |run[k].servers|
    ensures Sorted(run[k].servers[i].log)
  {
    hide Sorted, LogOk, ReignLogsOk, Inv;
    var hs := RunHistories(n, run);
    var st := State(run[k], hs[k]);
    assert Grows(st.h, st.h);
    ServerLogFacts(st, st.h, i);
    ReignLogs(st);
    SortedLog(st.h.reigns, st.sys.servers[i].log);
  }

  /** In every run, a voter never refuses for its log a candidate whose log extends its own. */
  lemma LongerLogPasses(n: nat, run: seq<System>, j: nat, a: nat, k: nat, b: nat)
    requires IsRun(n, run) && j < |run| && k < |run| && a < |run[j].servers| && b < |run[k].servers|
    requires run[k].servers[b].log <= run[j].servers[a].log
    ensures var log := run[j].servers[a].log; UpToDate(LastTerm(log), |log|, run[k].servers[b].log)
  {
    var log, shorter := run[j].servers[a].log, run[k].servers[b].log;
    LogsSorted(n, run, j, a);
    VoteTestTotal(log, shorter);
    if shorter != [] {
      assert log[|shorter| - 1] == shorter[|shorter| - 1];
      assert log[|shorter| - 1].term <= log[|log| - 1].term;
    }
  }

  /** When exactly a vote is granted, and what the voter and the reply are then. */
  lemma VoteExactly(s: Server, id: nat, candidate: Server, i: nat, t: nat, deny: bool)
    ensures var req := VoteReq(t, i, id, LastTerm(candidate.log), |candidate.log|);
            var out := HandleVoteReq(s, id, req, deny);
            && out.reply.Some? && out.reply.value.VoteResp?
            && (out.reply.value.granted <==>
                && !deny && NotBehind(candidate.log, s.log)
                && (t > s.term || (t == s.term && (s.votedFor == -1 || s.votedFor == i))))
            && (out.reply.value.granted ==> out.server.term == t && out.server.votedFor == i)
            && out.server.log == s.log && out.server.term == Max(s.term, t)
            && out.reply.value.term == out.server.term && out.reply.value.src == id && out.reply.value.dst == i
  {
    VoteTestTotal(candidate.log, s.log);
    hide UpToDate;
  }

  // ---------- An election ----------

  function Voted(s: Server, i: nat, t: nat): Server {
    UpdateTerm(s, t).(votedFor := i)
  }

  function Campaigning(s: Server, i: nat, t: nat, votes: nat): Server {
    s.(term := t, votedFor := i, role := Candidate, granted := votes, responded := votes, electionDone := false)
  }

  function Asks(s: Server, i: nat, j: nat, t: nat): Msg {
    VoteReq(t, i, j, LastTerm(s.log), |s.log|)
  }

  /** Server i asks every other server for its vote. */
  lemma Ask(n: nat, run: seq<System>, i: nat, t: nat) returns (run': seq<System>)
    requires n >= 2 && IsRun(n, run) && i < |Last(run).servers| == n && t > Last(run).servers[i].term
    ensures IsRun(n, run') && run <= run' && |run'| == |run| + 1
    ensures var s := Last(run).servers[i];
            && Last(run').servers == Last(run).servers[i := Campaigning(s, i, t, 1)]
            && (forall j | 0 <= j < n && j != i :: Asks(s, i, j, t) in Last(run').net)
  {
    hide StepTo, LastTerm;
    run' := Then(n, run, Timeout(i, t, ""));
  }

  /** Server j grants the vote. */
  lemma Grant(n: nat, run: seq<System>, i: nat, j: nat, t: nat, s: Server) returns (run': seq<System>)
    requires IsRun(n, run) && j < |Last(run).servers| && Asks(s, i, j, t) in Last(run).net
    requires t > Last(run).servers[j].term && NotBehind(s.log, Last(run).servers[j].log)
    ensures IsRun(n, run') && run <= run' && |run'| == |run| + 1
    ensures Last(run').servers == Last(run).servers[j := Voted(Last(run).servers[j], i, t)]
    ensures VoteResp(t, j, i, true) in Last(run').net
    ensures forall m :: m in Last(run).net && m != Asks(s, i, j, t) ==> m in Last(run').net
  {
    hide StepTo, UpToDate;
    VoteTestTotal(s.log, Last(run).servers[j].log);
    run' := Then(n, run, ReceiveVoteReq(Asks(s, i, j, t), false));
  }

  /** Server i counts the vote, and leads once a majority has come in. */
  lemma Hear(n: nat, run: seq<System>, i: nat, j: nat, t: nat, s: Server, votes: nat, config: string)
    returns (run': seq<System>)
    requires n >= 2 && IsRun(n, run) && i < |Last(run).servers| == n && VoteResp(t, j, i, true) in Last(run).net
    requires Last(run).servers[i] == Campaigning(s, i, t, votes) && 1 <= votes <= CommitIndex.Quorum(n)
    ensures IsRun(n, run') && run <= run' && |run'| == |run| + 1
    ensures Last(run').servers ==
            Last(run).servers[i := if votes < CommitIndex.Quorum(n) then Campaigning(s, i, t, votes + 1)
                                   else Elected(s, i, t, votes + 1, config)]
    ensures forall m :: m in Last(run).net && m != VoteResp(t, j, i, true) ==> m in Last(run').net
  {
    hide StepTo;
    var c := Campaigning(s, i, t, votes);
    var c' := HandleVoteResp(c, n, VoteResp(t, j, i, true), config);
    if votes < CommitIndex.Quorum(n) {
      assert c' == Campaigning(s, i, t, votes + 1);
    } else {
      assert c' == Elected(s, i, t, votes + 1, config);
    }
    run' := Then(n, run, ReceiveVoteResp(VoteResp(t, j, i, true), config));
  }

  /** Servers that have yet to vote, have been asked and will not refuse. */
  ghost predicate Willing(sys: System, i: nat, js: seq<nat>, t: nat, s: Server) {
    && (forall k | 0 <= k < |js| :: WillGrant(sys, i, js[k], t, s))
    && (forall k, l | 0 <= k < l < |js| :: js[k] != js[l])
  }

  ghost predicate WillGrant(sys: System, i: nat, j: nat, t: nat, s: Server) {
    && j < |sys.servers| && j != i && sys.servers[j].term < t && NotBehind(s.log, sys.servers[j].log)
    && Asks(s, i, j, t) in sys.net
  }

  /** The voters have the new term and their logs; the rest is as it was. */
  ghost predicate OnlyVoted(servers: seq<Server>, servers': seq<Server>, i: nat, js: seq<nat>, t: nat) {
    && |servers'| == |servers|
    && forall j | 0 <= j < |servers| && j != i ::
         servers'[j] == if j in js then Voted(servers[j], i, t) else servers[j]
  }

  lemma {:induction false} CollectVotes(n: nat, run: seq<System>, i: nat, js: seq<nat>, t: nat, s: Server, votes: nat,
                                        config: string)
    returns (run': seq<System>)
    requires n >= 2 && IsRun(n, run) && i < |Last(run).servers| == n && Willing(Last(run), i, js, t, s)
    requires Last(run).servers[i] == Campaigning(s, i, t, votes) && votes >= 1
    requires js != [] && votes + |js| == CommitIndex.Quorum(n) + 1
    ensures IsRun(n, run') && run <= run' && |run'| == |run| + 2 * |js|
    ensures OnlyVoted(Last(run).servers, Last(run').servers, i, js, t)
    ensures Last(run').servers[i] == Elected(s, i, t, votes + |js|, config)
    decreases |js|
  {
    hide StepTo, NotBehind, Voted, Campaigning, Elected;
    var j, rest := js[0], js[1..];
    assert WillGrant(Last(run), i, j, t, s);
    var granted := Grant(n, run, i, j, t, s);
    var heard := Hear(n, granted, i, j, t, s, votes, config);
    run' := heard;
    if rest != [] {
      forall k | 0 <= k < |rest| ensures WillGrant(Last(heard), i, rest[k], t, s) {
        assert rest[k] == js[k + 1] && WillGrant(Last(run), i, js[k + 1], t, s) && js[0] != js[k + 1];
      }
      run' := CollectVotes(n, heard, i, rest, t, s, votes + 1, config);
      assert js == [j] + rest;
      assert forall k | 0 <= k < |rest| :: rest[k] == js[k + 1] != j;
    } else {
      assert js == [j];
    }
  }

  /** Servers of terms below t whose logs are not ahead of that of server i. */
  ghost predicate Supporters(servers: seq<Server>, i: nat, js: seq<nat>, t: nat)
    requires i < |servers|
  {
    && t > servers[i].term
    && (forall k | 0 <= k < |js| ::
          js[k] < |servers| && js[k] != i && servers[js[k]].term < t && NotBehind(servers[i].log, servers[js[k]].log))
    && (forall k, l | 0 <= k < l < |js| :: js[k] != js[l])
  }

  /**
    From every reachable state, a server whose log is not behind those of enough others to make a majority becomes
    leader of any term above theirs within two steps for each vote it needs and one more.
   */
  lemma BecomesLeader(n: nat, run: seq<System>, i: nat, js: seq<nat>, t: nat, config: string)
    returns (run': seq<System>)
    requires n >= 2 && IsRun(n, run) && i < |Last(run).servers| && Supporters(Last(run).servers, i, js, t)
    requires |js| + 1 > n / 2
    ensures IsRun(n, run') && run <= run' && |run'| == |run| + 1 + 2 * (n / 2)
    ensures Leads(Last(run'), i, t) && Last(run').servers[i].log == Last(run).servers[i].log + [Entry(t, true, config)]
    ensures Last(run').servers[i] == Elected(Last(run).servers[i], i, t, n / 2 + 1, config)
    ensures OnlyVoted(Last(run).servers, Last(run').servers, i, js[..n / 2], t)
  {
    hide StepTo, NotBehind, LastTerm;
    RunSize(n, run, |run| - 1);
    var s, voters := Last(run).servers[i], js[..n / 2];
    var asked := Ask(n, run, i, t);
    forall k | 0 <= k < |voters| ensures WillGrant(Last(asked), i, voters[k], t, s) {
      assert voters[k] == js[k];
    }
    run' := CollectVotes(n, asked, i, voters, t, s, 1, config);
  }
}
