/** Campaigns, votes and elections keep the invariants. */
module RaftElection {
  import opened RaftHandlers
  import opened RaftProtocol
  import opened RaftHistory
  import opened RaftInvariance

  // ---------- Casting a vote ----------

  /** Server i, which has not voted in its term, votes for `cand`. */
  function Cast(h: History, i: nat, s: Server, cand: nat): History {
    h.(ballots := h.ballots[(s.term, i) := Ballot(cand, s.log, s.term in h.reigns)])
  }

  ghost predicate CanCast(servers: seq<Server>, h: History, i: nat, cand: nat) {
    && i < |servers|
    && var s := servers[i];
       && (s.term, i) !in h.ballots
       && (s.term, cand) in h.campaigns
       && var c := h.campaigns[(s.term, cand)];
          UpToDate(LastTerm(c.log), |c.log|, s.log)
  }

  lemma CastVotes(servers: seq<Server>, h: History, i: nat, cand: nat)
    requires VotesOk(servers, h) && CanCast(servers, h, i, cand)
    ensures VotesOk(servers[i := servers[i].(votedFor := cand)], Cast(h, i, servers[i], cand))
  {
    var servers' := servers[i := servers[i].(votedFor := cand)];
    var h' := Cast(h, i, servers[i], cand);
    forall j | 0 <= j < |servers'| ensures VotedOk(servers', h', j) {
      assert VotedOk(servers, h, j);
    }
  }

  lemma CastBallots(servers: seq<Server>, h: History, i: nat, cand: nat)
    requires BallotsOk(servers, h) && CanCast(servers, h, i, cand) && ServerLogOk(h.reigns, servers[i])
    ensures BallotsOk(servers[i := servers[i].(votedFor := cand)], Cast(h, i, servers[i], cand))
  {
    var servers' := servers[i := servers[i].(votedFor := cand)];
    var h' := Cast(h, i, servers[i], cand);
    forall k | k in h'.ballots ensures BallotOk(servers', h', k) {
      if k != (servers[i].term, i) { assert BallotOk(servers, h, k); }
    }
  }

  lemma CastCampaigns(servers: seq<Server>, h: History, i: nat, cand: nat)
    requires CampaignsOk(servers, h) && CanCast(servers, h, i, cand)
    ensures CampaignsOk(servers[i := servers[i].(votedFor := cand)], Cast(h, i, servers[i], cand))
  {
    var servers' := servers[i := servers[i].(votedFor := cand)];
    var h' := Cast(h, i, servers[i], cand);
    forall k | k in h.campaigns ensures CampaignOk(servers', h', k) {
      assert CampaignOk(servers, h, k);
      assert CountedOk(h', k);
    }
  }

  lemma CastElections(n: nat, servers: seq<Server>, h: History, i: nat, cand: nat)
    requires ElectionsOk(n, h) && CanCast(servers, h, i, cand)
    ensures ElectionsOk(n, Cast(h, i, servers[i], cand))
  {
    var h' := Cast(h, i, servers[i], cand);
    forall t | t in h'.reigns ensures ElectedOk(n, h', t) { assert ElectedOk(n, h, t); }
  }

  lemma CastMsgs(net: set<Msg>, servers: seq<Server>, h: History, i: nat, cand: nat)
    requires VoteMsgsOk(net, h) && AppendMsgsOk(net, h) && CanCast(servers, h, i, cand)
    ensures VoteMsgsOk(net, Cast(h, i, servers[i], cand)) && AppendMsgsOk(net, Cast(h, i, servers[i], cand))
  {
    var h' := Cast(h, i, servers[i], cand);
    forall m | m in net ensures VoteMsgOk(net, h', m) && AppendMsgOk(h', m) {
      assert VoteMsgOk(net, h, m) && AppendMsgOk(h, m);
    }
  }

  /** A vote cast before its term has a leader is cast with everything accepted before. */
  lemma CastKeepsAcks(servers: seq<Server>, h: History, i: nat, cand: nat)
    requires AcksOk(servers, h) && BallotsKeep(h) && CanCast(servers, h, i, cand)
    ensures AcksOk(servers[i := servers[i].(votedFor := cand)], Cast(h, i, servers[i], cand))
    ensures BallotsKeep(Cast(h, i, servers[i], cand))
  {
    var s := servers[i];
    var servers' := servers[i := s.(votedFor := cand)];
    var h' := Cast(h, i, s, cand);
    forall k | k in h'.acked ensures AckOk(servers', h', k) { assert AckOk(servers, h, k); }
    forall ack: Key, vote: Key | ack in h'.acked && vote in h'.ballots ensures BallotKeeps(h', ack, vote) {
      if vote != (s.term, i) {
        assert BallotKeeps(h, ack, vote);
      } else if ack.1 == i && ack.0 < s.term && s.term !in h.reigns {
        assert AckOk(servers, h, ack);
        NotLostNow(h.reigns, ack.0, h.acked[ack], s.log, s.term);
      }
    }
  }

  /** A term without a leader loses nothing. */
  lemma NotLostNow(r: map<nat, Reign>, t: nat, idx: nat, log: seq<Entry>, term: nat)
    requires KeptUpTo(r, t, idx, log, term + 1) && term !in r
    ensures KeptUpTo(r, t, idx, log, term)
  {
    forall k | 0 <= k <= idx ensures KeptOrLost(r, t, k, log, term) {
      assert KeptOrLost(r, t, k, log, term + 1);
    }
  }

  lemma CastLogs(servers: seq<Server>, reigns: map<nat, Reign>, i: nat, cand: nat)
    requires ServerLogsOk(servers, reigns) && LeadersOk(servers, reigns) && i < |servers|
    ensures ServerLogsOk(servers[i := servers[i].(votedFor := cand)], reigns)
    ensures LeadersOk(servers[i := servers[i].(votedFor := cand)], reigns)
  {
    var servers' := servers[i := servers[i].(votedFor := cand)];
    forall j | 0 <= j < |servers'| ensures LeaderOk(servers', reigns, j) && ServerLogOk(reigns, servers'[j]) {
      assert LeaderOk(servers, reigns, j) && ServerLogOk(reigns, servers[j]);
    }
  }

  lemma CastKeeps(st: State, i: nat, cand: nat) returns (st': State)
    requires Inv(st) && CanCast(st.sys.servers, st.h, i, cand)
    ensures Inv(st') && st'.h == Cast(st.h, i, st.sys.servers[i], cand)
    ensures st'.sys == st.sys.(servers := st.sys.servers[i := st.sys.servers[i].(votedFor := cand)])
  {
    Parts(st);
    var servers, h' := st.sys.servers, Cast(st.h, i, st.sys.servers[i], cand);
    assert ServerLogOk(st.h.reigns, servers[i]);
    CastVotes(servers, st.h, i, cand);
    CastBallots(servers, st.h, i, cand);
    CastCampaigns(servers, st.h, i, cand);
    CastElections(|servers|, servers, st.h, i, cand);
    CastMsgs(st.sys.net, servers, st.h, i, cand);
    CastKeepsAcks(servers, st.h, i, cand);
    CastLogs(servers, st.h.reigns, i, cand);
    forall t | t in st.h.reigns ensures LeaderAck(h', t) { assert LeaderAck(st.h, t); }
    st' := State(st.sys.(servers := servers[i := servers[i].(votedFor := cand)]), h');
    Whole(st');
  }

  /** A request is replaced by the grant it earned. */
  lemma GrantMsgs(net: set<Msg>, h: History, m: Msg)
    requires VoteMsgsOk(net, h) && AppendMsgsOk(net, h) && m in net && m.VoteReq?
    requires (m.term, m.dst) in h.ballots && h.ballots[(m.term, m.dst)].cand == m.src
    ensures var net' := net - {m} + {VoteResp(m.term, m.dst, m.src, true)};
            VoteMsgsOk(net', h) && AppendMsgsOk(net', h)
  {
    var net' := net - {m} + {VoteResp(m.term, m.dst, m.src, true)};
    assert VoteMsgOk(net, h, m);
    forall x | x in net' ensures VoteMsgOk(net', h, x) && AppendMsgOk(h, x) {
      if x in net { assert VoteMsgOk(net, h, x) && AppendMsgOk(h, x); }
    }
  }

  lemma GrantKeeps(st: State, m: Msg) returns (st': State)
    requires Inv(st) && m in st.sys.net && m.VoteReq?
    requires (m.term, m.dst) in st.h.ballots && st.h.ballots[(m.term, m.dst)].cand == m.src
    ensures Inv(st') && st'.h == st.h
    ensures st'.sys == st.sys.(net := st.sys.net - {m} + {VoteResp(m.term, m.dst, m.src, true)})
  {
    Parts(st);
    GrantMsgs(st.sys.net, st.h, m);
    st' := State(st.sys.(net := st.sys.net - {m} + {VoteResp(m.term, m.dst, m.src, true)}), st.h);
    Whole(st');
  }

  // ---------- Opening a campaign ----------

  function Open(h: History, i: nat, s: Server): History {
    h.(campaigns := h.campaigns[(s.term, i) := Campaign(s.log, {})])
  }

  /** Server i has just entered a term later than its whole log. */
  ghost predicate CanOpen(servers: seq<Server>, h: History, i: nat) {
    && i < |servers|
    && (servers[i].term, i) !in h.campaigns
    && LastTerm(servers[i].log) < servers[i].term
    && servers[i].granted == 0
    && !(servers[i].term in h.reigns && h.reigns[servers[i].term].leader == i)
  }

  lemma OpenElections(servers: seq<Server>, net: set<Msg>, h: History, i: nat)
    requires ElectionInv(servers, net, h) && CanOpen(servers, h, i) && ServerLogOk(h.reigns, servers[i])
    ensures BallotsOk(servers, Open(h, i, servers[i])) && CampaignsOk(servers, Open(h, i, servers[i]))
    ensures ElectionsOk(|servers|, Open(h, i, servers[i])) && VotesOk(servers, Open(h, i, servers[i]))
  {
    var h' := Open(h, i, servers[i]);
    forall j | 0 <= j < |servers| ensures VotedOk(servers, h', j) { assert VotedOk(servers, h, j); }
    forall k | k in h'.ballots ensures BallotOk(servers, h', k) { assert BallotOk(servers, h, k); }
    forall k | k in h'.campaigns ensures CampaignOk(servers, h', k) {
      if k in h.campaigns {
        assert CampaignOk(servers, h, k);
        assert CountedOk(h', k);
      }
    }
    forall t | t in h'.reigns ensures ElectedOk(|servers|, h', t) { assert ElectedOk(|servers|, h, t); }
  }

  lemma OpenMsgs(servers: seq<Server>, net: set<Msg>, h: History, i: nat)
    requires VoteMsgsOk(net, h) && AppendMsgsOk(net, h) && CanOpen(servers, h, i)
    ensures VoteMsgsOk(net + VoteReqs(servers[i], i, |servers|), Open(h, i, servers[i]))
    ensures AppendMsgsOk(net + VoteReqs(servers[i], i, |servers|), Open(h, i, servers[i]))
  {
    var h' := Open(h, i, servers[i]);
    var net' := net + VoteReqs(servers[i], i, |servers|);
    forall m | m in net' ensures VoteMsgOk(net', h', m) && AppendMsgOk(h', m) {
      if m in net {
        assert VoteMsgOk(net, h, m) && AppendMsgOk(h, m);
      } else {
        var granted := VoteResp(m.term, m.dst, m.src, true);
        assert granted in net ==> VoteMsgOk(net, h, granted);
      }
    }
  }

  lemma OpenKeeps(st: State, i: nat) returns (st': State)
    requires Inv(st) && CanOpen(st.sys.servers, st.h, i)
    ensures Inv(st') && st'.h == Open(st.h, i, st.sys.servers[i])
    ensures st'.sys == st.sys.(net := st.sys.net + VoteReqs(st.sys.servers[i], i, |st.sys.servers|))
  {
    Parts(st);
    var servers, h' := st.sys.servers, Open(st.h, i, st.sys.servers[i]);
    assert ServerLogOk(st.h.reigns, servers[i]);
    OpenElections(servers, st.sys.net, st.h, i);
    OpenMsgs(servers, st.sys.net, st.h, i);
    SameAcks(servers, st.h, h');
    st' := State(st.sys.(net := st.sys.net + VoteReqs(servers[i], i, |servers|)), h');
    Whole(st');
  }

  lemma SameAcks(servers: seq<Server>, h: History, h': History)
    requires AckInv(servers, h) && h'.reigns == h.reigns && h'.acked == h.acked && h'.ballots == h.ballots
    ensures AckInv(servers, h')
  {
    forall k | k in h'.acked ensures AckOk(servers, h', k) { assert AckOk(servers, h, k); }
    forall ack: Key, vote: Key | ack in h'.acked && vote in h'.ballots ensures BallotKeeps(h', ack, vote) {
      assert BallotKeeps(h, ack, vote);
    }
    forall t | t in h'.reigns ensures LeaderAck(h', t) { assert LeaderAck(h, t); }
  }

  // ---------- Counting a vote ----------

  function Count(h: History, i: nat, s: Server, v: nat): History
    requires (s.term, i) in h.campaigns
  {
    var c := h.campaigns[(s.term, i)];
    h.(campaigns := h.campaigns[(s.term, i) := c.(counted := c.counted + {v})])
  }

  /** Voter v's grant is not counted yet and nothing about it remains in flight. */
  ghost predicate CanCount(servers: seq<Server>, net: set<Msg>, h: History, i: nat, v: nat) {
    && i < |servers|
    && var t := servers[i].term;
       && (t, i) in h.campaigns
       && v !in h.campaigns[(t, i)].counted
       && (t, v) in h.ballots && h.ballots[(t, v)].cand == i
       && VoteResp(t, v, i, true) !in net
       && (forall m :: m in net && m.VoteReq? ==> !(m.term == t && m.src == i && m.dst == v))
  }

  lemma CountBallots(servers: seq<Server>, h: History, i: nat, v: nat)
    requires BallotsOk(servers, h) && ElectionsOk(|servers|, h) && i < |servers| && (servers[i].term, i) in h.campaigns
    ensures var servers' := servers[i := servers[i].(granted := servers[i].granted + 1)];
            var h' := Count(h, i, servers[i], v);
            BallotsOk(servers', h') && ElectionsOk(|servers|, h')
  {
    var servers' := servers[i := servers[i].(granted := servers[i].granted + 1)];
    var h' := Count(h, i, servers[i], v);
    forall k | k in h'.ballots ensures BallotOk(servers', h', k) { assert BallotOk(servers, h, k); }
    forall t | t in h'.reigns ensures ElectedOk(|servers|, h', t) { assert ElectedOk(|servers|, h, t); }
  }

  lemma CountCampaigns(servers: seq<Server>, net: set<Msg>, h: History, i: nat, v: nat)
    requires CampaignsOk(servers, h) && CanCount(servers, net, h, i, v)
    ensures CampaignsOk(servers[i := servers[i].(granted := servers[i].granted + 1)], Count(h, i, servers[i], v))
  {
    var servers' := servers[i := servers[i].(granted := servers[i].granted + 1)];
    var h' := Count(h, i, servers[i], v);
    forall k | k in h'.campaigns ensures CampaignOk(servers', h', k) {
      assert CampaignOk(servers, h, k);
      assert CountedOk(h, k);
      assert CountedOk(h', k);
    }
  }

  lemma CountMsgs(servers: seq<Server>, net: set<Msg>, h: History, i: nat, v: nat)
    requires VoteMsgsOk(net, h) && AppendMsgsOk(net, h) && CanCount(servers, net, h, i, v)
    ensures VoteMsgsOk(net, Count(h, i, servers[i], v)) && AppendMsgsOk(net, Count(h, i, servers[i], v))
  {
    var h' := Count(h, i, servers[i], v);
    forall m | m in net ensures VoteMsgOk(net, h', m) && AppendMsgOk(h', m) {
      assert VoteMsgOk(net, h, m) && AppendMsgOk(h, m);
    }
  }

  lemma CountVotes(servers: seq<Server>, h: History, i: nat, v: nat)
    requires VotesOk(servers, h) && i < |servers| && (servers[i].term, i) in h.campaigns
    ensures VotesOk(servers[i := servers[i].(granted := servers[i].granted + 1)], Count(h, i, servers[i], v))
  {
    var servers' := servers[i := servers[i].(granted := servers[i].granted + 1)];
    var h' := Count(h, i, servers[i], v);
    forall j | 0 <= j < |servers'| ensures VotedOk(servers', h', j) { assert VotedOk(servers, h, j); }
  }

  lemma CountRest(servers: seq<Server>, h: History, i: nat, g: nat)
    requires ServerLogsOk(servers, h.reigns) && LeadersOk(servers, h.reigns) && AcksOk(servers, h) && i < |servers|
    ensures var servers' := servers[i := servers[i].(granted := g)];
            ServerLogsOk(servers', h.reigns) && LeadersOk(servers', h.reigns) && AcksOk(servers', h)
  {
    var servers' := servers[i := servers[i].(granted := g)];
    forall j | 0 <= j < |servers'| ensures LeaderOk(servers', h.reigns, j) { assert LeaderOk(servers, h.reigns, j); }
    forall j | 0 <= j < |servers'| ensures ServerLogOk(h.reigns, servers'[j]) {
      assert ServerLogOk(h.reigns, servers[j]);
    }
    forall k | k in h.acked ensures AckOk(servers', h, k) { assert AckOk(servers, h, k); }
  }

  lemma CountKeeps(st: State, i: nat, v: nat) returns (st': State)
    requires Inv(st) && CanCount(st.sys.servers, st.sys.net, st.h, i, v)
    ensures Inv(st') && st'.h == Count(st.h, i, st.sys.servers[i], v)
    ensures var s := st.sys.servers[i];
            st'.sys == st.sys.(servers := st.sys.servers[i := s.(granted := s.granted + 1)])
  {
    Parts(st);
    var servers, s := st.sys.servers, st.sys.servers[i];
    CountBallots(servers, st.h, i, v);
    CountCampaigns(servers, st.sys.net, st.h, i, v);
    CountMsgs(servers, st.sys.net, st.h, i, v);
    CountVotes(servers, st.h, i, v);
    CountRest(servers, st.h, i, s.granted + 1);
    SameAcks(servers[i := s.(granted := s.granted + 1)], st.h, Count(st.h, i, s, v));
    st' := State(st.sys.(servers := servers[i := s.(granted := s.granted + 1)]), Count(st.h, i, s, v));
    Whole(st');
  }

  // ---------- Winning an election ----------

  /** Two majorities share a server. */
  lemma MajoritiesMeet(n: nat, a: set<nat>, b: set<nat>) returns (v: nat)
    requires forall x :: x in a ==> x < n
    requires forall x :: x in b ==> x < n
    requires |a| > n / 2 && |b| > n / 2
    ensures v in a && v in b
  {
    if a * b == {} {
      assert |a + b| == |a| + |b|;
      SubsetSize(a + b, UpTo(n));
      assert false;
    }
    v :| v in a * b;
  }

  function UpTo(n: nat): (r: set<nat>)
    ensures |r| == n
    ensures forall x: nat :: x in r <==> x < n
  {
    if n == 0 then {} else UpTo(n - 1) + {n - 1}
  }

  lemma SubsetSize(a: set<nat>, b: set<nat>)
    requires a <= b
    ensures |a| <= |b|
  {
    assert b == a + (b - a);
  }

  /** A candidate with a majority that has not finished its election is its term's first leader. */
  lemma FirstLeader(servers: seq<Server>, net: set<Msg>, h: History, i: nat)
    requires ElectionInv(servers, net, h) && i < |servers| && !servers[i].electionDone
    requires (servers[i].term, i) in h.campaigns && |h.campaigns[(servers[i].term, i)].counted| > |servers| / 2
    ensures servers[i].term !in h.reigns
    ensures forall v :: v in h.campaigns[(servers[i].term, i)].counted ==> v < |servers|
  {
    var t := servers[i].term;
    var counted := h.campaigns[(t, i)].counted;
    assert CampaignOk(servers, h, (t, i));
    forall v | v in counted ensures v < |servers| { assert BallotOk(servers, h, (t, v)); }
    if t in h.reigns {
      assert ElectedOk(|servers|, h, t);
      var v := MajoritiesMeet(|servers|, counted, h.reigns[t].electors);
    }
  }

  /** Server i leads its term with `s.log` plus a configuration entry. */
  function Crown(h: History, i: nat, s: Server, log: seq<Entry>): History
    requires (s.term, i) in h.campaigns
  {
    h.(reigns := h.reigns[s.term := Reign(i, log, h.campaigns[(s.term, i)].counted)],
       acked := h.acked[(s.term, i) := |log|])
  }

  ghost predicate CanLead(servers: seq<Server>, h: History, i: nat) {
    && i < |servers|
    && servers[i].term !in h.reigns
    && (servers[i].term, i) in h.campaigns
    && |h.campaigns[(servers[i].term, i)].counted| > |servers| / 2
    && (forall v :: v in h.campaigns[(servers[i].term, i)].counted ==> v < |servers|)
  }

  function Crowned(s: Server, config: string): Server {
    var log := s.log + [Entry(s.term, true, config)];
    s.(role := Leader, log := log, precommit := |log|, electionDone := true)
  }

  /** The new reign is in order and older reigns are untouched. */
  lemma CrownReigns(servers: seq<Server>, h: History, i: nat, config: string)
    requires ReignLogsOk(h.reigns) && CampaignsOk(servers, h) && CanLead(servers, h, i)
    requires ServerLogOk(h.reigns, servers[i])
    ensures var h' := Crown(h, i, servers[i], Crowned(servers[i], config).log);
            ReignsGrow(h.reigns, h'.reigns) && ReignLogsOk(h'.reigns)
  {
    var s := servers[i];
    var log := Crowned(s, config).log;
    var r' := Crown(h, i, s, log).reigns;
    assert ReignsGrow(h.reigns, r');
    assert CampaignOk(servers, h, (s.term, i));
    forall t | t in r' ensures ReignLogOk(r', t) {
      if t != s.term {
        assert ReignLogOk(h.reigns, t);
        LogOkGrows(h.reigns, r', h.reigns[t].log);
      } else {
        LogSorted(h.reigns, s.log);
        LogOkGrows(h.reigns, r', s.log);
        forall k | 0 <= k < |log| ensures Anchored(r', log, k) {
          if k < |s.log| {
            assert Anchored(r', s.log, k);
            assert log[..k + 1] == s.log[..k + 1];
          }
        }
      }
    }
  }

  lemma CrownServers(servers: seq<Server>, h: History, i: nat, config: string)
    requires ServerLogsOk(servers, h.reigns) && LeadersOk(servers, h.reigns) && CanLead(servers, h, i)
    requires var h' := Crown(h, i, servers[i], Crowned(servers[i], config).log);
             ReignsGrow(h.reigns, h'.reigns) && ReignLogsOk(h'.reigns)
    ensures var h' := Crown(h, i, servers[i], Crowned(servers[i], config).log);
            var servers' := servers[i := Crowned(servers[i], config)];
            ServerLogsOk(servers', h'.reigns) && LeadersOk(servers', h'.reigns)
  {
    var r' := Crown(h, i, servers[i], Crowned(servers[i], config).log).reigns;
    var servers' := servers[i := Crowned(servers[i], config)];
    assert ReignLogOk(r', servers[i].term);
    forall j | 0 <= j < |servers'| ensures ServerLogOk(r', servers'[j]) {
      if j != i {
        assert ServerLogOk(h.reigns, servers[j]);
        LogOkGrows(h.reigns, r', servers[j].log);
      }
    }
    forall j | 0 <= j < |servers'| ensures LeaderOk(servers', r', j) {
      assert LeaderOk(servers, h.reigns, j);
    }
  }

  lemma CrownElections(servers: seq<Server>, net: set<Msg>, h: History, i: nat, config: string)
    requires ElectionInv(servers, net, h) && CanLead(servers, h, i)
    requires ReignsGrow(h.reigns, Crown(h, i, servers[i], Crowned(servers[i], config).log).reigns)
    ensures var h' := Crown(h, i, servers[i], Crowned(servers[i], config).log);
            var servers' := servers[i := Crowned(servers[i], config)];
            VotesOk(servers', h') && BallotsOk(servers', h') && CampaignsOk(servers', h')
  {
    var h' := Crown(h, i, servers[i], Crowned(servers[i], config).log);
    var servers' := servers[i := Crowned(servers[i], config)];
    forall j | 0 <= j < |servers'| ensures VotedOk(servers', h', j) { assert VotedOk(servers, h, j); }
    forall k | k in h'.ballots ensures BallotOk(servers', h', k) {
      assert BallotOk(servers, h, k);
      LogOkGrows(h.reigns, h'.reigns, h.ballots[k].log);
    }
    forall k | k in h'.campaigns ensures CampaignOk(servers', h', k) {
      assert CampaignOk(servers, h, k);
      LogOkGrows(h.reigns, h'.reigns, h.campaigns[k].log);
      assert CountedOk(h', k);
    }
  }

  lemma CrownElected(servers: seq<Server>, net: set<Msg>, h: History, i: nat, config: string)
    requires ElectionInv(servers, net, h) && CanLead(servers, h, i) && AppendMsgsOk(net, h)
    ensures var h' := Crown(h, i, servers[i], Crowned(servers[i], config).log);
            ElectionsOk(|servers|, h') && VoteMsgsOk(net, h')
  {
    var s := servers[i];
    var h' := Crown(h, i, s, Crowned(s, config).log);
    forall t | t in h'.reigns ensures ElectedOk(|servers|, h', t) {
      if t != s.term {
        assert ElectedOk(|servers|, h, t);
      } else {
        assert CampaignOk(servers, h, (t, i));
        forall v | v in h'.reigns[t].electors ensures (t, v) in h'.ballots && !h'.ballots[(t, v)].late {
          assert BallotOk(servers, h, (t, v));
        }
      }
    }
    forall m | m in net ensures VoteMsgOk(net, h', m) { assert VoteMsgOk(net, h, m); }
  }

  lemma CrownServerAcks(servers: seq<Server>, h: History, i: nat, config: string)
    requires AcksOk(servers, h) && CanLead(servers, h, i) && ReignLogsOk(h.reigns)
    requires ReignsGrow(h.reigns, Crown(h, i, servers[i], Crowned(servers[i], config).log).reigns)
    ensures AcksOk(servers[i := Crowned(servers[i], config)], Crown(h, i, servers[i], Crowned(servers[i], config).log))
  {
    var s := servers[i];
    var h' := Crown(h, i, s, Crowned(s, config).log);
    var servers' := servers[i := Crowned(s, config)];
    forall k | k in h'.acked ensures AckOk(servers', h', k) {
      if k != (s.term, i) {
        AckGrows(servers, h, servers', h', k);
      } else {
        OwnKept(h'.reigns, s.term, |Crowned(s, config).log|, Crowned(s, config).log, s.term + 1);
      }
    }
  }

  lemma CrownBallots(servers: seq<Server>, h: History, i: nat, config: string)
    requires AckInv(servers, h) && CanLead(servers, h, i) && ReignLogsOk(h.reigns) && BallotsOk(servers, h)
    requires ReignsGrow(h.reigns, Crown(h, i, servers[i], Crowned(servers[i], config).log).reigns)
    ensures BallotsKeep(Crown(h, i, servers[i], Crowned(servers[i], config).log))
  {
    var s := servers[i];
    var h' := Crown(h, i, s, Crowned(s, config).log);
    forall ack: Key, vote: Key | ack in h'.acked && vote in h'.ballots ensures BallotKeeps(h', ack, vote) {
      assert BallotOk(servers, h, vote);
      if ack != (s.term, i) {
        assert BallotKeeps(h, ack, vote) && AckOk(servers, h, ack);
        if ack.1 == vote.1 && ack.0 < vote.0 && !h.ballots[vote].late {
          KeptGrows(h.reigns, h'.reigns, ack.0, h.acked[ack], h.ballots[vote].log, vote.0);
        }
      }
    }
  }

  lemma CrownLeaderAcks(servers: seq<Server>, h: History, i: nat, config: string)
    requires AcksOk(servers, h) && LeaderAcks(h) && CanLead(servers, h, i)
    ensures var h' := Crown(h, i, servers[i], Crowned(servers[i], config).log);
            LeaderAcks(h') && AcksGrow(h.acked, h'.acked) && (servers[i].term, i) !in h.acked
  {
    var s := servers[i];
    var h' := Crown(h, i, s, Crowned(s, config).log);
    forall k | k in h.acked ensures k != (s.term, i) { assert AckOk(servers, h, k); }
    forall t | t in h'.reigns ensures LeaderAck(h', t) {
      if t != s.term { assert LeaderAck(h, t); }
    }
  }

  lemma CrownAppendMsgs(net: set<Msg>, servers: seq<Server>, h: History, i: nat, config: string)
    requires AppendMsgsOk(net, h) && CanLead(servers, h, i)
    requires (servers[i].term, i) !in h.acked
    ensures AppendMsgsOk(net, Crown(h, i, servers[i], Crowned(servers[i], config).log))
  {
    var h' := Crown(h, i, servers[i], Crowned(servers[i], config).log);
    forall m | m in net ensures AppendMsgOk(h', m) { assert AppendMsgOk(h, m); }
  }

  lemma CrownKeeps(st: State, i: nat, config: string) returns (st': State)
    requires Inv(st) && CanLead(st.sys.servers, st.h, i)
    ensures Inv(st') && Grows(st.h, st'.h)
    ensures st'.sys == st.sys.(servers := st.sys.servers[i := Crowned(st.sys.servers[i], config)])
  {
    Parts(st);
    var servers, net, h := st.sys.servers, st.sys.net, st.h;
    assert ServerLogOk(h.reigns, servers[i]);
    CrownReigns(servers, h, i, config);
    CrownServers(servers, h, i, config);
    CrownElections(servers, net, h, i, config);
    CrownElected(servers, net, h, i, config);
    CrownServerAcks(servers, h, i, config);
    CrownBallots(servers, h, i, config);
    CrownLeaderAcks(servers, h, i, config);
    CrownAppendMsgs(net, servers, h, i, config);
    st' := State(st.sys.(servers := servers[i := Crowned(servers[i], config)]),
                 Crown(h, i, servers[i], Crowned(servers[i], config).log));
    Whole(st');
  }
}
