/**
  Records of an earlier leadership count towards a commit. With five servers a leader commits an entry of its own
  term that only two servers hold, and a later leader has another entry there.
 */
module RaftStale {
  import opened RaftHandlers
  import opened RaftProtocol
  import opened RaftSafety
  import CommitIndex
  import opened RaftCommit
  import opened RaftElectable

  // ---------- Building runs ----------

  predicate CanElect(servers: seq<Server>, i: nat, j: nat, k: nat, t: nat) {
    && |servers| == 5 && i < 5 && j < 5 && k < 5 && i != j && i != k && j != k
    && t > servers[i].term && t > servers[j].term && t > servers[k].term
    && UpToDate(LastTerm(servers[i].log), |servers[i].log|, servers[j].log)
    && UpToDate(LastTerm(servers[i].log), |servers[i].log|, servers[k].log)
  }

  lemma Elect(run: seq<System>, i: nat, j: nat, k: nat, t: nat, config: string) returns (run': seq<System>)
    requires IsRun(5, run) && CanElect(Last(run).servers, i, j, k, t)
    ensures IsRun(5, run') && run <= run'
    ensures var servers := Last(run).servers;
            Last(run').servers == servers[j := Voted(servers[j], i, t)][k := Voted(servers[k], i, t)]
                                         [i := Elected(servers[i], i, t, 3, config)]
  {
    hide StepTo, Elected, Voted, UpToDate;
    var servers := Last(run).servers;
    VoteTestTotal(servers[i].log, servers[j].log);
    VoteTestTotal(servers[i].log, servers[k].log);
    hide NotBehind;
    assert [j, k][..5 / 2] == [j, k];
    run' := BecomesLeader(5, run, i, [j, k], t, config);
  }

  predicate CanCopy(servers: seq<Server>, a: nat, j: nat, count: nat) {
    && |servers| == 5 && a < 5 && j < 5 && a != j && |servers[a].matched| == 5
    && servers[a].role == Leader && 1 <= count <= servers[a].precommit <= |servers[a].log|
    && servers[j].term <= servers[a].term && (servers[j].term == servers[a].term ==> servers[j].role == Follower)
    && (servers[j].log == [] || servers[j].log[0].term != servers[a].log[0].term)
  }

  /** Leader a sends its first entries to server j, which has none of them, and hears back. */
  lemma Copy(run: seq<System>, a: nat, j: nat, count: nat) returns (run': seq<System>)
    requires IsRun(5, run) && CanCopy(Last(run).servers, a, j, count)
    ensures IsRun(5, run') && run <= run'
    ensures var servers := Last(run).servers;
            var s := servers[a].(matched := servers[a].matched[j := count]);
            && |Last(run').servers| == 5
            && Last(run').servers[a] == Commit(s, CommitIndex.Expected(MatchedIndexes(s, a)))
            && Last(run').servers[j].log == servers[a].log[..count]
            && Last(run').servers[j].term == servers[a].term
            && Last(run').servers[j].matched == servers[j].matched
            && (servers[a].commit == 0 && servers[j].commit == 0 ==> Last(run').servers[j].commit == 0)
            && Last(run').servers == servers[a := Last(run').servers[a]][j := Last(run').servers[j]]
  {
    hide CommitIndex.Expected, MatchedIndexes, Commit, StepTo;
    var s, f := Last(run).servers[a], Last(run).servers[j];
    Taken(s, f, a, j, count);
    run' := Take(5, run, a, j, 0, count);
    run' := Reply(5, run', a, AppendResp(s.term, j, a, count + 1, true));
  }

  // ---------- The run ----------

  lemma ExpectedIs(s: seq<nat>, v: nat)
    requires s != [] && 2 * CommitIndex.CountAtLeast(s, v) > |s| >= 2 * CommitIndex.CountAtLeast(s, v + 1)
    ensures CommitIndex.Expected(s) == v
  {
    CommitIndex.ExpectedIsMajority(s, v);
    CommitIndex.ExpectedIsMajority(s, v + 1);
  }

  lemma CountFive(a: nat, b: nat, c: nat, d: nat, e: nat, v: nat)
    ensures CommitIndex.CountAtLeast([a, b, c, d, e], v) ==
            (if a >= v then 1 else 0) + (if b >= v then 1 else 0) + (if c >= v then 1 else 0) +
            (if d >= v then 1 else 0) + (if e >= v then 1 else 0)
  {
    var s := [a, b, c, d, e];
    assert s[1..] == [b, c, d, e] && [b, c, d, e][1..] == [c, d, e] && [c, d, e][1..] == [d, e];
    assert [d, e][1..] == [e] && [e][1..] == [];
    assert CommitIndex.CountAtLeast([e], v) == (if e >= v then 1 else 0) + CommitIndex.CountAtLeast([], v);
    assert CommitIndex.CountAtLeast([d, e], v) == (if d >= v then 1 else 0) + CommitIndex.CountAtLeast([e], v);
    assert CommitIndex.CountAtLeast([c, d, e], v) == (if c >= v then 1 else 0) + CommitIndex.CountAtLeast([d, e], v);
    assert CommitIndex.CountAtLeast([b, c, d, e], v) ==
           (if b >= v then 1 else 0) + CommitIndex.CountAtLeast([c, d, e], v);
  }

  function A(): Entry { Entry(1, true, "A") }
  function P(): Entry { Entry(1, false, "p") }
  function X(): Entry { Entry(2, true, "X") }
  function Y(): Entry { Entry(3, true, "Y") }

  /** Server 0 leads term 1 with two entries, and has it on record that server 1 holds both. */
  predicate First(servers: seq<Server>) {
    && |servers| == 5
    && servers[0].term == 1 && servers[0].log == [A(), P()]
    && servers[0].matched == [0, 2, 0, 0, 0] && servers[0].commit == 0
    && servers[1].term == 1 && servers[1].log == [A(), P()]
    && servers[2] == InitServer(5) && servers[3].term == 1 && servers[3].log == [] && servers[4] == InitServer(5)
  }

  /** Server 2 leads term 2 and has replaced server 0's entries by its own. */
  predicate Second(servers: seq<Server>) {
    && |servers| == 5
    && servers[0].term == 2 && servers[0].log == [X()]
    && servers[0].matched == [0, 2, 0, 0, 0] && servers[0].commit == 0
    && servers[1].term == 1 && servers[1].log == [A(), P()]
    && servers[2].term == 2 && servers[2].log == [X()]
    && servers[3].term == 2 && servers[3].log == [] && servers[4].term == 2 && servers[4].log == []
  }

  /** Server 0 leads term 3 and has committed its second entry, which only it and server 3 hold. */
  predicate Third(servers: seq<Server>) {
    && |servers| == 5
    && servers[0].term == 3 && servers[0].role == Leader && servers[0].log == [X(), Y()] && servers[0].commit == 2
    && servers[1].term == 1 && servers[1].log == [A(), P()]
    && servers[2].term == 2 && servers[2].log == [X()]
    && servers[3].term == 3 && servers[3].log == [X(), Y()] && servers[4].term == 3 && servers[4].log == []
  }

  /** Server 0 has just won term 1. */
  predicate Opening(servers: seq<Server>) {
    && |servers| == 5
    && servers[0].term == 1 && servers[0].role == Leader && servers[0].log == [A()] && servers[0].precommit == 1
    && servers[0].matched == [0, 0, 0, 0, 0] && servers[0].commit == 0
    && servers[1].term == 1 && servers[1].role == Follower && servers[1].log == []
    && servers[2] == InitServer(5) && servers[3].term == 1 && servers[3].log == [] && servers[4] == InitServer(5)
  }

  lemma ToOpening() returns (run: seq<System>)
    ensures IsRun(5, run) && Opening(Last(run).servers)
  {
    hide StepTo;
    run := [Init(5)];
    run := Elect(run, 0, 1, 3, 1, "A");
  }

  /** A client's request reaches leader 0. */
  lemma Appended(run: seq<System>) returns (run': seq<System>)
    requires IsRun(5, run) && Opening(Last(run).servers)
    ensures IsRun(5, run') && run <= run'
    ensures Last(run').servers == Last(run).servers[0 := Last(run).servers[0].(log := [A(), P()], precommit := 2)]
  {
    hide StepTo;
    assert Stamp(1, ["p"]) == [P()];
    assert [A()] + [P()] == [A(), P()];
    run' := Then(5, run, ClientRequest(0, ["p"]));
  }

  lemma TwoOfFive(s: Server)
    requires s.matched == [0, 0, 0, 0, 0] && s.precommit == 2 && s.commit == 0
    ensures var m := s.(matched := s.matched[1 := 2]);
            m.matched == [0, 2, 0, 0, 0] && Commit(m, CommitIndex.Expected(MatchedIndexes(m, 0))) == m
  {
    hide CommitIndex.Expected, CommitIndex.CountAtLeast;
    var m := s.(matched := s.matched[1 := 2]);
    CountFive(2, 2, 0, 0, 0, 0);
    CountFive(2, 2, 0, 0, 0, 1);
    ExpectedIs([2, 2, 0, 0, 0], 0);
    assert MatchedIndexes(m, 0) == [2, 2, 0, 0, 0];
  }

  lemma ThreeOfFive(s: Server)
    requires s.matched == [0, 2, 0, 0, 0] && s.precommit == 2 && s.commit == 0
    ensures var m := s.(matched := s.matched[3 := 2]);
            Commit(m, CommitIndex.Expected(MatchedIndexes(m, 0))) == m.(commit := 2)
  {
    hide CommitIndex.Expected, CommitIndex.CountAtLeast;
    var m := s.(matched := s.matched[3 := 2]);
    CountFive(2, 2, 0, 2, 0, 2);
    CountFive(2, 2, 0, 2, 0, 3);
    ExpectedIs([2, 2, 0, 2, 0], 2);
    assert MatchedIndexes(m, 0) == [2, 2, 0, 2, 0];
  }

  lemma ToFirst() returns (run: seq<System>)
    ensures IsRun(5, run) && First(Last(run).servers)
  {
    hide CommitIndex.Expected, StepTo, A, P, Commit;
    run := ToOpening();
    run := Appended(run);
    var s := Last(run).servers[0];
    assert s.log[0] in s.log;
    TwoOfFive(s);
    run := Copy(run, 0, 1, 2);
    assert s.log[..2] == [A(), P()];
  }

  lemma ToSecond(run: seq<System>) returns (run': seq<System>)
    requires IsRun(5, run) && First(Last(run).servers)
    ensures IsRun(5, run') && run <= run' && Second(Last(run').servers)
  {
    hide CommitIndex.Expected, StepTo;
    run' := Elect(run, 2, 3, 4, 2, "X");
    var won := Last(run').servers;
    assert won[2].log == [X()] && won[2].log[..1] == [X()];
    assert won[0].log[0] == A() && won[2].commit == 0;
    run' := Copy(run', 2, 0, 1);
  }

  lemma ToThird(run: seq<System>) returns (run': seq<System>)
    requires IsRun(5, run) && Second(Last(run).servers)
    ensures IsRun(5, run') && run <= run' && Third(Last(run').servers)
  {
    hide CommitIndex.Expected, StepTo;
    run' := Elect(run, 0, 3, 4, 3, "Y");
    var s := Last(run').servers[0];
    assert s.log == [X(), Y()] && s.log[..2] == [X(), Y()];
    ThreeOfFive(s);
    run' := Copy(run', 0, 3, 2);
  }

  /**
    A committed entry of the leader's own term can be lost too: server 0 commits index 2 of its own term 3, counting
    what it recorded of server 1 in term 1, and the leader of term 4 has another entry there.
   */
  lemma OwnTermEntryLost() returns (run: seq<System>, j: nat)
    ensures IsRun(5, run) && j < |run|
    ensures Leads(run[j], 0, 3) && run[j].servers[0].commit == 2 && |run[j].servers[0].log| == 2
    ensures run[j].servers[0].log[1].term == 3
    ensures Leads(Last(run), 2, 4) && |Last(run).servers[2].log| == 2
    ensures Last(run).servers[2].log[1] != run[j].servers[0].log[1]
  {
    hide StepTo;
    run := ToFirst();
    run := ToSecond(run);
    run := ToThird(run);
    j := |run| - 1;
    var committed := run[j];
    run := Elect(run, 2, 1, 4, 4, "Z");
    assert run[j] == committed;
  }
}
