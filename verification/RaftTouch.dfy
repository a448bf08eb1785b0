/** Small changes that touch neither a log nor the history. */
module RaftTouch {
  import opened RaftHandlers
  import opened RaftHistory

  /** Nothing the invariants speak of changes, except that an election may close. */
  ghost predicate Alike(s: Server, s': Server) {
    && s'.term == s.term && s'.votedFor == s.votedFor && s'.log == s.log && s'.granted == s.granted
    && (s.electionDone ==> s'.electionDone)
    && (s'.role == Leader ==> s.role == Leader && s'.precommit == s.precommit)
  }

  /** Either alike, or in a later term where it has neither voted nor leads. */
  ghost predicate Calm(s: Server, s': Server) {
    Alike(s, s') || (s'.term > s.term && s'.votedFor == -1 && s'.granted == 0 && s'.log == s.log && s'.role != Leader)
  }

  lemma CalmBallots(servers: seq<Server>, h: History, i: nat, s': Server)
    requires BallotsOk(servers, h) && i < |servers| && Calm(servers[i], s')
    ensures BallotsOk(servers[i := s'], h)
  {
    forall k | k in h.ballots ensures BallotOk(servers[i := s'], h, k) { assert BallotOk(servers, h, k); }
  }

  lemma CalmCampaigns(servers: seq<Server>, h: History, i: nat, s': Server)
    requires CampaignsOk(servers, h) && i < |servers| && Calm(servers[i], s')
    ensures CampaignsOk(servers[i := s'], h)
  {
    forall k | k in h.campaigns ensures CampaignOk(servers[i := s'], h, k) { assert CampaignOk(servers, h, k); }
  }

  lemma CalmVotes(servers: seq<Server>, h: History, i: nat, s': Server)
    requires VotesOk(servers, h) && BallotsOk(servers, h) && i < |servers| && Calm(servers[i], s')
    ensures VotesOk(servers[i := s'], h)
  {
    var servers' := servers[i := s'];
    forall j | 0 <= j < |servers| ensures VotedOk(servers', h, j) {
      assert VotedOk(servers, h, j);
      if j == i && (s'.term, i) in h.ballots { assert BallotOk(servers, h, (s'.term, i)); }
    }
  }

  lemma LostLater(r: map<nat, Reign>, t: nat, idx: nat, log: seq<Entry>, bound: nat, bound': nat)
    requires KeptUpTo(r, t, idx, log, bound) && bound <= bound'
    ensures KeptUpTo(r, t, idx, log, bound')
  {
    forall k | 0 <= k <= idx ensures KeptOrLost(r, t, k, log, bound') {
      assert KeptOrLost(r, t, k, log, bound);
    }
  }

  lemma CalmAcks(servers: seq<Server>, h: History, i: nat, s': Server)
    requires AcksOk(servers, h) && i < |servers| && Calm(servers[i], s')
    ensures AcksOk(servers[i := s'], h)
  {
    forall k | k in h.acked ensures AckOk(servers[i := s'], h, k) {
      assert AckOk(servers, h, k);
      if k.1 == i { LostLater(h.reigns, k.0, h.acked[k], s'.log, servers[i].term + 1, s'.term + 1); }
    }
  }

  lemma CalmLogs(servers: seq<Server>, h: History, i: nat, s': Server)
    requires ServerLogsOk(servers, h.reigns) && LeadersOk(servers, h.reigns) && i < |servers| && Calm(servers[i], s')
    ensures ServerLogsOk(servers[i := s'], h.reigns) && LeadersOk(servers[i := s'], h.reigns)
  {
    var servers' := servers[i := s'];
    forall j | 0 <= j < |servers| ensures LeaderOk(servers', h.reigns, j) {
      assert LeaderOk(servers, h.reigns, j);
    }
    forall j | 0 <= j < |servers| ensures ServerLogOk(h.reigns, servers'[j]) {
      assert ServerLogOk(h.reigns, servers[j]);
    }
  }

  lemma CalmKeeps(st: State, i: nat, s': Server) returns (st': State)
    requires Inv(st) && i < |st.sys.servers| && Calm(st.sys.servers[i], s')
    ensures Inv(st') && st'.h == st.h && st'.sys == st.sys.(servers := st.sys.servers[i := s'])
  {
    Parts(st);
    CalmBallots(st.sys.servers, st.h, i, s');
    CalmCampaigns(st.sys.servers, st.h, i, s');
    CalmVotes(st.sys.servers, st.h, i, s');
    CalmAcks(st.sys.servers, st.h, i, s');
    CalmLogs(st.sys.servers, st.h, i, s');
    st' := State(st.sys.(servers := st.sys.servers[i := s']), st.h);
    Whole(st');
  }

  lemma BumpKeeps(st: State, i: nat, t: nat) returns (st': State)
    requires Inv(st) && i < |st.sys.servers|
    ensures Inv(st') && st'.h == st.h
    ensures st'.sys == st.sys.(servers := st.sys.servers[i := UpdateTerm(st.sys.servers[i], t)])
  {
    st' := CalmKeeps(st, i, UpdateTerm(st.sys.servers[i], t));
  }

  /** A new message that asks and grants nothing. */
  ghost predicate Harmless(h: History, m: Msg) {
    AppendMsgOk(h, m) && !m.VoteReq? && (m.VoteResp? ==> !m.granted)
  }

  lemma NetKeeps(st: State, net: set<Msg>) returns (st': State)
    requires Inv(st)
    requires forall m :: m in net ==> m in st.sys.net || Harmless(st.h, m)
    ensures Inv(st') && st'.h == st.h && st'.sys == st.sys.(net := net)
  {
    Parts(st);
    forall m | m in net ensures VoteMsgOk(net, st.h, m) && AppendMsgOk(st.h, m) {
      if m in st.sys.net {
        assert VoteMsgOk(st.sys.net, st.h, m) && AppendMsgOk(st.h, m);
      }
    }
    st' := State(st.sys.(net := net), st.h);
    Whole(st');
  }
}
