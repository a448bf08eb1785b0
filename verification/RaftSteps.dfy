/** Every event of the protocol keeps the invariants, for a suitable history. */
module RaftSteps {
  import CommitIndex
  import opened RaftHandlers
  import opened RaftProtocol
  import opened RaftHistory
  import opened RaftInvariance
  import opened RaftTouch
  import opened RaftElection
  import opened RaftReplication

  lemma GrowsTwice(a: History, b: History, c: History)
    requires Grows(a, b) && Grows(b, c)
    ensures Grows(a, c)
  {
    forall t | t in a.reigns ensures t in c.reigns && ReignGrows(a.reigns[t], c.reigns[t]) {
      assert ReignGrows(a.reigns[t], b.reigns[t]) && ReignGrows(b.reigns[t], c.reigns[t]);
    }
  }

  // ---------- Starting an election ----------

  /** A term above the server's own is free of its votes, campaigns and reigns. */
  lemma FreshTerm(st: State, id: nat, t: nat)
    requires Inv(st) && id < |st.sys.servers| && t > st.sys.servers[id].term
    ensures (t, id) !in st.h.campaigns && (t, id) !in st.h.ballots
    ensures LastTerm(st.sys.servers[id].log) < t
    ensures !(t in st.h.reigns && st.h.reigns[t].leader == id)
  {
    Parts(st);
    assert (t, id) in st.h.campaigns ==> CampaignOk(st.sys.servers, st.h, (t, id));
    assert (t, id) in st.h.ballots ==> BallotOk(st.sys.servers, st.h, (t, id));
    assert ServerLogOk(st.h.reigns, st.sys.servers[id]);
    assert t in st.h.reigns ==> ElectedOk(|st.sys.servers|, st.h, t);
  }

  /** No message of a campaign concerns the candidate's own vote. */
  lemma NoSelfVotes(st: State, id: nat, t: nat)
    requires Inv(st)
    ensures VoteResp(t, id, id, true) !in st.sys.net
    ensures forall m :: m in st.sys.net && m.VoteReq? ==> !(m.src == id && m.dst == id)
  {
    Parts(st);
    assert VoteResp(t, id, id, true) in st.sys.net ==> VoteMsgOk(st.sys.net, st.h, VoteResp(t, id, id, true));
    forall m | m in st.sys.net && m.VoteReq? ensures !(m.src == id && m.dst == id) {
      assert VoteMsgOk(st.sys.net, st.h, m);
    }
  }

  function Candidacy(s: Server, id: nat, t: nat): Server {
    s.(term := t, votedFor := id, role := Candidate, granted := 1, responded := 1, electionDone := false)
  }

  lemma CampaignKeeps(st: State, id: nat, t: nat) returns (st': State)
    requires Inv(st) && id < |st.sys.servers| && t > st.sys.servers[id].term
    ensures Inv(st') && Grows(st.h, st'.h)
    ensures var c := Candidacy(st.sys.servers[id], id, t);
            st'.sys == System(st.sys.servers[id := c], st.sys.net + VoteReqs(c, id, |st.sys.servers|))
    ensures (t, id) in st'.h.campaigns && st'.h.campaigns[(t, id)].counted == {id}
  {
    var s := st.sys.servers[id];
    FreshTerm(st, id, t);
    var st1 := BumpKeeps(st, id, t);
    var st2 := OpenKeeps(st1, id);
    var st3 := CastKeeps(st2, id, id);
    NoSelfVotes(st3, id, t);
    var st4 := CountKeeps(st3, id, id);
    var c := Candidacy(s, id, t);
    st' := CalmKeeps(st4, id, c);
    assert st'.sys.servers == st.sys.servers[id := c];
  }

  lemma ElectKeeps(st: State, id: nat, config: string) returns (st': State)
    requires Inv(st) && id < |st.sys.servers| && !st.sys.servers[id].electionDone
    requires (st.sys.servers[id].term, id) in st.h.campaigns
    requires |st.h.campaigns[(st.sys.servers[id].term, id)].counted| > CommitIndex.Quorum(|st.sys.servers|)
    ensures Inv(st') && Grows(st.h, st'.h)
    ensures var s := st.sys.servers[id];
            st'.sys == st.sys.(servers := st.sys.servers[id :=
              BecomeLeader(s.(electionDone := true), |st.sys.servers|, config)])
  {
    var s, n := st.sys.servers[id], |st.sys.servers|;
    Parts(st);
    FirstLeader(st.sys.servers, st.sys.net, st.h, id);
    var st1 := CrownKeeps(st, id, config);
    st' := CalmKeeps(st1, id, CommitIfAlone(Crowned(s, config), n));
    assert BecomeLeader(s.(electionDone := true), n, config) == CommitIfAlone(Crowned(s, config), n);
    Overwrite(st.sys.servers, id, Crowned(s, config), CommitIfAlone(Crowned(s, config), n));
  }

  lemma TimeoutKeeps(st: State, id: nat, t: nat, config: string) returns (h': History)
    requires Inv(st) && Enabled(st.sys, Timeout(id, t, config))
    ensures Inv(State(Next(st.sys, Timeout(id, t, config)), h')) && Grows(st.h, h')
  {
    var n := |st.sys.servers|;
    var c := Candidacy(st.sys.servers[id], id, t);
    var st1 := CampaignKeeps(st, id, t);
    if 1 > CommitIndex.Quorum(n) {
      assert VoteReqs(c, id, n) == {};
      var st2 := ElectKeeps(st1, id, config);
      GrowsTwice(st.h, st1.h, st2.h);
      Overwrite(st.sys.servers, id, c, BecomeLeader(c.(electionDone := true), n, config));
      h' := st2.h;
      assert st2 == State(Next(st.sys, Timeout(id, t, config)), h');
    } else {
      h' := st1.h;
      assert st1 == State(Next(st.sys, Timeout(id, t, config)), h');
    }
  }

  // ---------- Voting ----------

  lemma VoteFacts(st: State, m: Msg)
    requires Inv(st) && m in st.sys.net && m.VoteReq? && m.dst < |st.sys.servers|
    ensures (m.term, m.src) in st.h.campaigns
    ensures m.lastTerm == LastTerm(st.h.campaigns[(m.term, m.src)].log)
    ensures m.lastIdx == |st.h.campaigns[(m.term, m.src)].log|
    ensures var s := st.sys.servers[m.dst];
            && (s.votedFor == -1 ==> (s.term, m.dst) !in st.h.ballots)
            && (s.votedFor != -1 ==>
                  (s.term, m.dst) in st.h.ballots && st.h.ballots[(s.term, m.dst)].cand == s.votedFor)
  {
    Parts(st);
    assert VoteMsgOk(st.sys.net, st.h, m);
    assert VotedOk(st.sys.servers, st.h, m.dst);
  }

  /** The voter grants, having voted for nobody else in this term. */
  lemma VoteKeeps(st: State, m: Msg) returns (st': State)
    requires Inv(st) && m in st.sys.net && m.VoteReq? && m.dst < |st.sys.servers|
    requires var s := st.sys.servers[m.dst];
             && m.term == s.term && UpToDate(m.lastTerm, m.lastIdx, s.log)
             && (s.votedFor == m.src || s.votedFor == -1)
    ensures Inv(st') && Grows(st.h, st'.h)
    ensures st'.sys == System(st.sys.servers[m.dst := st.sys.servers[m.dst].(votedFor := m.src)],
                              st.sys.net - {m} + {VoteResp(m.term, m.dst, m.src, true)})
  {
    var s := st.sys.servers[m.dst];
    VoteFacts(st, m);
    var st1 := st;
    if s.votedFor == -1 {
      st1 := CastKeeps(st, m.dst, m.src);
    } else {
      assert st.sys.servers[m.dst := s.(votedFor := m.src)] == st.sys.servers;
    }
    st' := GrantKeeps(st1, m);
  }

  lemma ReceiveVoteReqKeeps(st: State, m: Msg, deny: bool) returns (h': History)
    requires Inv(st) && Enabled(st.sys, ReceiveVoteReq(m, deny))
    ensures Inv(State(Next(st.sys, ReceiveVoteReq(m, deny)), h')) && Grows(st.h, h')
  {
    var i := m.dst;
    var out := HandleVoteReq(st.sys.servers[i], i, m, deny);
    var u := UpdateTerm(st.sys.servers[i], m.term);
    var st1 := BumpKeeps(st, i, m.term);
    var reply := out.reply.value;
    if reply.granted {
      var st2 := VoteKeeps(st1, m);
      h' := st2.h;
      Overwrite(st.sys.servers, i, u, out.server);
      assert st2 == State(Next(st.sys, ReceiveVoteReq(m, deny)), h');
    } else {
      var st2 := NetKeeps(st1, st.sys.net - {m} + {reply});
      h' := st2.h;
      assert st2 == State(Next(st.sys, ReceiveVoteReq(m, deny)), h');
    }
  }

  // ---------- Counting ----------

  /** A grant for this term is the grant of a voter not yet counted. */
  lemma GrantFacts(st: State, m: Msg)
    requires Inv(st) && m in st.sys.net && m.VoteResp? && m.dst < |st.sys.servers|
    requires m.granted && m.term == st.sys.servers[m.dst].term
    ensures CanCount(st.sys.servers, st.sys.net - {m}, st.h, m.dst, m.src)
  {
    Parts(st);
    assert VoteMsgOk(st.sys.net, st.h, m);
    forall x | x in st.sys.net - {m} && x.VoteReq?
      ensures !(x.term == m.term && x.src == m.dst && x.dst == m.src)
    {
      assert VoteMsgOk(st.sys.net, st.h, x);
    }
  }

  /** The counter of granted votes counts distinct voters. */
  lemma GrantedIsCounted(st: State, i: nat)
    requires Inv(st) && i < |st.sys.servers|
    ensures var s := st.sys.servers[i];
            && (s.granted > 0 ==> (s.term, i) in st.h.campaigns)
            && ((s.term, i) in st.h.campaigns ==> s.granted == |st.h.campaigns[(s.term, i)].counted|)
  {
    Parts(st);
    var s := st.sys.servers[i];
    assert VotedOk(st.sys.servers, st.h, i);
    assert (s.term, i) in st.h.campaigns ==> CampaignOk(st.sys.servers, st.h, (s.term, i));
  }

  /** Server i has counted one more response. */
  function Tallied(s: Server, granted: bool): Server {
    s.(responded := s.responded + 1, granted := if granted then s.granted + 1 else s.granted)
  }

  lemma TallyKeeps(st: State, m: Msg) returns (st': State)
    requires Inv(st) && m in st.sys.net && m.VoteResp? && m.dst < |st.sys.servers|
    requires m.term == st.sys.servers[m.dst].term
    ensures Inv(st') && Grows(st.h, st'.h)
    ensures st'.sys == System(st.sys.servers[m.dst := Tallied(st.sys.servers[m.dst], m.granted)], st.sys.net - {m})
  {
    var i, s := m.dst, st.sys.servers[m.dst];
    st' := NetKeeps(st, st.sys.net - {m});
    if m.granted {
      GrantFacts(st, m);
      st' := CountKeeps(st', i, m.src);
      Overwrite(st.sys.servers, i, s.(granted := s.granted + 1), Tallied(s, true));
    }
    st' := CalmKeeps(st', i, Tallied(s, m.granted));
  }

  lemma ReceiveVoteRespKeeps(st: State, m: Msg, config: string) returns (h': History)
    requires Inv(st) && Enabled(st.sys, ReceiveVoteResp(m, config))
    ensures Inv(State(Next(st.sys, ReceiveVoteResp(m, config)), h')) && Grows(st.h, h')
  {
    var i, s, n := m.dst, st.sys.servers[m.dst], |st.sys.servers|;
    var s' := HandleVoteResp(s, n, m, config);
    var st2: State;
    if m.term > s.term || s.electionDone || m.term != s.term {
      var st1 := NetKeeps(st, st.sys.net - {m});
      st2 := BumpKeeps(st1, i, m.term);
    } else {
      var c := Tallied(s, m.granted);
      var st1 := TallyKeeps(st, m);
      GrantedIsCounted(st1, i);
      if c.granted >= CommitIndex.Quorum(n) + 1 {
        st2 := ElectKeeps(st1, i, config);
        GrowsTwice(st.h, st1.h, st2.h);
      } else {
        st2 := CalmKeeps(st1, i, c.(electionDone := c.responded >= n));
      }
      Overwrite(st.sys.servers, i, c, s');
    }
    h' := st2.h;
    assert st2 == State(Next(st.sys, ReceiveVoteResp(m, config)), h');
  }

  // ---------- Replicating ----------

  lemma ClientRequestKeeps(st: State, id: nat, payloads: seq<string>) returns (h': History)
    requires Inv(st) && Enabled(st.sys, ClientRequest(id, payloads))
    ensures Inv(State(Next(st.sys, ClientRequest(id, payloads)), h')) && Grows(st.h, h')
  {
    var s, n := st.sys.servers[id], |st.sys.servers|;
    var s' := HandleCliReq(s, n, payloads);
    var st2 := st;
    if s.role == Leader {
      var entries := Stamp(s.term, payloads);
      LeaderFacts(st, id);
      var st1 := ExtendKeeps(st, id, entries);
      assert payloads == [] ==> s.log + entries == s.log;
      assert s' == CommitIfAlone(Extended(s, entries), n);
      st2 := CalmKeeps(st1, id, s');
      Overwrite(st.sys.servers, id, Extended(s, entries), s');
    } else {
      assert st.sys.servers[id := s'] == st.sys.servers;
    }
    h' := st2.h;
    assert st2 == State(Next(st.sys, ClientRequest(id, payloads)), h');
  }

  lemma LeaderFacts(st: State, id: nat)
    requires Inv(st) && id < |st.sys.servers| && st.sys.servers[id].role == Leader
    ensures var s := st.sys.servers[id];
            && s.precommit == |s.log|
            && s.term in st.h.reigns && st.h.reigns[s.term].log == s.log && st.h.reigns[s.term].leader == id
  {
    Parts(st);
    assert LeaderOk(st.sys.servers, st.h.reigns, id);
  }

  lemma SendAppendKeeps(st: State, id: nat, dst: nat, prevIdx: nat, count: nat) returns (h': History)
    requires Inv(st) && Enabled(st.sys, SendAppend(id, dst, prevIdx, count))
    ensures Inv(State(Next(st.sys, SendAppend(id, dst, prevIdx, count)), h')) && Grows(st.h, h')
  {
    LeaderFacts(st, id);
    var m := AppendReqFor(st.sys.servers[id], id, dst, prevIdx, count);
    assert Harmless(st.h, m);
    var st2 := NetKeeps(st, st.sys.net + {m});
    h' := st2.h;
    assert st2 == State(Next(st.sys, SendAppend(id, dst, prevIdx, count)), h');
  }

  /** A log that passes the check agrees with the leader's up to that point. */
  lemma AgreesUpTo(r: map<nat, Reign>, log: seq<Entry>, full: seq<Entry>, prevIdx: nat)
    requires LogOk(r, log) && LogOk(r, full) && prevIdx <= |full|
    requires LogOkay(log, prevIdx, TermForLog(full, prevIdx))
    ensures log[..prevIdx] == full[..prevIdx]
  {
    if prevIdx > 0 { SamePrefix(r, log, full, prevIdx - 1); }
  }

  lemma AppendMsgFacts(st: State, m: Msg)
    requires Inv(st) && m in st.sys.net && m.AppendReq? && m.dst < |st.sys.servers|
    ensures AppendMsgOk(st.h, m) && LogOk(st.h.reigns, st.sys.servers[m.dst].log)
    ensures LogOk(st.h.reigns, st.h.reigns[m.term].log)
  {
    Parts(st);
    assert AppendMsgOk(st.h, m);
    assert ServerLogOk(st.h.reigns, st.sys.servers[m.dst]) && ReignLogOk(st.h.reigns, m.term);
  }

  lemma AppendFacts(st: State, m: Msg)
    requires Inv(st) && m in st.sys.net && m.AppendReq? && m.dst < |st.sys.servers|
    requires var s := st.sys.servers[m.dst];
             s.term == m.term && s.role != Leader && LogOkay(s.log, m.prevIdx, m.prevTerm)
    ensures CanAccept(st.sys.servers, st.h, m.dst, m.prevIdx, m.entries)
  {
    AppendMsgFacts(st, m);
    AgreesUpTo(st.h.reigns, st.sys.servers[m.dst].log, st.h.reigns[m.term].log, m.prevIdx);
  }

  lemma AcceptAppendKeeps(st: State, m: Msg) returns (st': State)
    requires Inv(st) && m in st.sys.net && m.AppendReq? && m.dst < |st.sys.servers|
    requires var s := st.sys.servers[m.dst];
             s.term == m.term && s.role != Leader && LogOkay(s.log, m.prevIdx, m.prevTerm)
    ensures Inv(st') && Grows(st.h, st'.h)
    ensures st'.sys == System(st.sys.servers[m.dst := AcceptAppend(st.sys.servers[m.dst], m)],
                              st.sys.net + {AppendResp(m.term, m.dst, m.src, m.prevIdx + |m.entries| + 1, true)})
  {
    var i, s := m.dst, st.sys.servers[m.dst];
    AppendFacts(st, m);
    var st1 := AcceptKeeps(st, i, m.prevIdx, m.entries);
    var st2 := CalmKeeps(st1, i, AcceptAppend(s, m));
    Overwrite(st.sys.servers, i, s.(log := AppendRule(s.log, m.prevIdx, m.entries)), AcceptAppend(s, m));
    var reply := AppendResp(m.term, i, m.src, m.prevIdx + |m.entries| + 1, true);
    assert Harmless(st2.h, reply);
    st' := NetKeeps(st2, st.sys.net + {reply});
  }

  lemma ReceiveAppendKeeps(st: State, m: Msg, decline: bool) returns (h': History)
    requires Inv(st) && Enabled(st.sys, ReceiveAppend(m, decline))
    ensures Inv(State(Next(st.sys, ReceiveAppend(m, decline)), h')) && Grows(st.h, h')
  {
    var i := m.dst;
    var u := UpdateTerm(st.sys.servers[i], m.term);
    var out := HandleAppend(st.sys.servers[i], i, m, decline);
    var st1 := BumpKeeps(st, i, m.term);
    var st2 := st1;
    if !(m.term == u.term && u.role == Leader) {
      var f := if m.term == u.term then u.(role := Follower) else u;
      var st3 := CalmKeeps(st1, i, f);
      Overwrite(st.sys.servers, i, u, f);
      if m.term < f.term || !LogOkay(f.log, m.prevIdx, m.prevTerm) || decline {
        st2 := NetKeeps(st3, st.sys.net + {out.reply.value});
      } else {
        st2 := AcceptAppendKeeps(st3, m);
        Overwrite(st.sys.servers, i, f, out.server);
      }
    }
    h' := st2.h;
    assert st2 == State(Next(st.sys, ReceiveAppend(m, decline)), h');
  }

  lemma ReceiveAppendRespKeeps(st: State, m: Msg) returns (h': History)
    requires Inv(st) && Enabled(st.sys, ReceiveAppendResp(m))
    ensures Inv(State(Next(st.sys, ReceiveAppendResp(m)), h')) && Grows(st.h, h')
  {
    var s' := HandleAppendResp(st.sys.servers[m.dst], m.dst, m);
    var st2 := CalmKeeps(st, m.dst, s');
    h' := st2.h;
    assert st2 == State(Next(st.sys, ReceiveAppendResp(m)), h');
  }

  lemma StepDownKeeps(st: State, id: nat) returns (h': History)
    requires Inv(st) && Enabled(st.sys, StepDown(id))
    ensures Inv(State(Next(st.sys, StepDown(id)), h')) && Grows(st.h, h')
  {
    var st2 := CalmKeeps(st, id, Resign(st.sys.servers[id]));
    h' := st2.h;
    assert st2 == State(Next(st.sys, StepDown(id)), h');
  }

  // ---------- Runs ----------

  const BLANK := History(map[], map[], map[], map[])

  lemma InitKeeps(n: nat)
    ensures Inv(State(Init(n), BLANK))
  {
    Whole(State(Init(n), BLANK));
  }

  /** Whatever happens next, some extended history satisfies the invariants. */
  lemma StepKeeps(st: State, e: Event) returns (h': History)
    requires Inv(st) && Enabled(st.sys, e)
    ensures Inv(State(Next(st.sys, e), h')) && Grows(st.h, h')
  {
    match e
    case Timeout(id, t, config) => h' := TimeoutKeeps(st, id, t, config);
    case ReceiveVoteReq(m, deny) => h' := ReceiveVoteReqKeeps(st, m, deny);
    case ReceiveVoteResp(m, config) => h' := ReceiveVoteRespKeeps(st, m, config);
    case ClientRequest(id, payloads) => h' := ClientRequestKeeps(st, id, payloads);
    case SendAppend(id, dst, prevIdx, count) => h' := SendAppendKeeps(st, id, dst, prevIdx, count);
    case ReceiveAppend(m, decline) => h' := ReceiveAppendKeeps(st, m, decline);
    case ReceiveAppendResp(m) => h' := ReceiveAppendRespKeeps(st, m);
    case StepDown(id) => h' := StepDownKeeps(st, id);
  }

  lemma PrefixRun(n: nat, run: seq<System>)
    requires IsRun(n, run) && |run| > 1
    ensures IsRun(n, run[..|run| - 1])
  {
    var before := run[..|run| - 1];
    forall k | 0 <= k < |before| - 1 ensures StepTo(before[k], before[k + 1]) {
      assert StepTo(run[k], run[k + 1]);
    }
  }

  /** Every run has histories that satisfy the invariants at each step and only grow. */
  lemma {:induction false} RunHistories(n: nat, run: seq<System>) returns (hs: seq<History>)
    requires IsRun(n, run)
    ensures |hs| == |run|
    ensures forall k | 0 <= k < |run| :: Inv(State(run[k], hs[k]))
    ensures forall j, k | 0 <= j <= k < |run| :: Grows(hs[j], hs[k])
    decreases |run|
  {
    if |run| == 1 {
      InitKeeps(n);
      hs := [BLANK];
    } else {
      var last := |run| - 1;
      var before := run[..last];
      PrefixRun(n, run);
      var hs1 := RunHistories(n, before);
      assert StepTo(run[last - 1], run[last - 1 + 1]);
      var e :| Enabled(run[last - 1], e) && run[last] == Next(run[last - 1], e);
      assert Inv(State(before[last - 1], hs1[last - 1]));
      var h' := StepKeeps(State(run[last - 1], hs1[last - 1]), e);
      hs := hs1 + [h'];
      forall k | 0 <= k < |run| ensures Inv(State(run[k], hs[k])) {
        if k < last { assert Inv(State(before[k], hs1[k])); }
      }
      forall j, k | 0 <= j <= k < |run| ensures Grows(hs[j], hs[k]) {
        if k == last && j < last {
          assert Grows(hs1[j], hs1[last - 1]);
          GrowsTwice(hs1[j], hs1[last - 1], h');
        }
      }
    }
  }
}
