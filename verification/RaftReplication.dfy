/** A leader's own appends and a follower's accepted appends keep the invariants. */
module RaftReplication {
  import opened RaftHandlers
  import opened RaftHistory
  import opened RaftInvariance

  // ---------- The append rule against the leader's log ----------

  /** The request's entries are this stretch of the leader's log. */
  ghost predicate Slice(full: seq<Entry>, prevIdx: nat, entries: seq<Entry>) {
    prevIdx + |entries| <= |full| && entries == full[prevIdx..prevIdx + |entries|]
  }

  lemma SliceTerms(full: seq<Entry>, prevIdx: nat, entries: seq<Entry>)
    requires Slice(full, prevIdx, entries)
    ensures forall j | 0 <= j < |entries| :: entries[j] == full[prevIdx + j]
  {
  }

  /** Where the terms match, the follower's log is the leader's. */
  lemma MatchedPrefix(r: map<nat, Reign>, log: seq<Entry>, full: seq<Entry>, prevIdx: nat, entries: seq<Entry>)
    requires LogOk(r, log) && LogOk(r, full) && Slice(full, prevIdx, entries)
    requires prevIdx <= |log| && log[..prevIdx] == full[..prevIdx]
    ensures var m := prevIdx + MatchLen(log, prevIdx, entries);
            m <= |log| && m <= |full| && log[..m] == full[..m]
  {
    var m := MatchLen(log, prevIdx, entries);
    if m > 0 {
      SliceTerms(full, prevIdx, entries);
      assert log[prevIdx + (m - 1)].term == entries[m - 1].term;
      SamePrefix(r, log, full, prevIdx + m - 1);
    }
  }

  lemma AppendRuleEffect(r: map<nat, Reign>, log: seq<Entry>, full: seq<Entry>, prevIdx: nat, entries: seq<Entry>)
    requires LogOk(r, log) && LogOk(r, full) && Slice(full, prevIdx, entries)
    requires prevIdx <= |log| && log[..prevIdx] == full[..prevIdx]
    ensures var log' := AppendRule(log, prevIdx, entries);
            && full[..prevIdx + |entries|] <= log'
            && (log' == log || log' == full[..prevIdx + |entries|])
  {
    hide LogOk, MatchLen;
    MatchedPrefix(r, log, full, prevIdx, entries);
    var m := MatchLen(log, prevIdx, entries);
    if m < |entries| {
      assert log[..prevIdx + m] + entries[m..] == full[..prevIdx + |entries|];
    }
  }

  /** Nothing that both the old log and the leader's log begin with is dropped. */
  lemma AppendRuleKeeps(r: map<nat, Reign>, log: seq<Entry>, full: seq<Entry>, prevIdx: nat, entries: seq<Entry>,
                        kept: seq<Entry>)
    requires LogOk(r, log) && LogOk(r, full) && Slice(full, prevIdx, entries)
    requires prevIdx <= |log| && log[..prevIdx] == full[..prevIdx]
    requires kept <= log && kept <= full
    ensures kept <= AppendRule(log, prevIdx, entries)
  {
    AppendRuleEffect(r, log, full, prevIdx, entries);
    SliceTerms(full, prevIdx, entries);
    var m := MatchLen(log, prevIdx, entries);
    if m < |entries| && prevIdx + m < |log| {
      assert entries[m] == full[prevIdx + m] != log[prevIdx + m];
      assert |kept| <= prevIdx + m;
    }
  }

  // ---------- Changing a follower's log ----------

  /** Server i, which does not lead, may take this log in a term that has a leader. */
  ghost predicate CanRelog(servers: seq<Server>, h: History, i: nat, log': seq<Entry>) {
    && i < |servers|
    && servers[i].role != Leader
    && servers[i].term in h.reigns
    && ServerLogOk(h.reigns, servers[i].(log := log'))
    && forall k: Key :: k in h.acked && k.1 == i ==> KeptUpTo(h.reigns, k.0, h.acked[k], log', servers[i].term + 1)
  }

  lemma RelogVotes(servers: seq<Server>, h: History, i: nat, log': seq<Entry>)
    requires VotesOk(servers, h) && i < |servers|
    ensures VotesOk(servers[i := servers[i].(log := log')], h)
  {
    var servers' := servers[i := servers[i].(log := log')];
    forall j | 0 <= j < |servers'| ensures VotedOk(servers', h, j) { assert VotedOk(servers, h, j); }
  }

  /** A change of log in a term that has a leader is no concern of its elections. */
  lemma RelogCampaigns(servers: seq<Server>, h: History, i: nat, log': seq<Entry>)
    requires BallotsOk(servers, h) && CampaignsOk(servers, h) && i < |servers| && servers[i].term in h.reigns
    ensures var servers' := servers[i := servers[i].(log := log')];
            BallotsOk(servers', h) && CampaignsOk(servers', h)
  {
    var servers' := servers[i := servers[i].(log := log')];
    forall k | k in h.ballots ensures BallotOk(servers', h, k) { assert BallotOk(servers, h, k); }
    forall k | k in h.campaigns ensures CampaignOk(servers', h, k) { assert CampaignOk(servers, h, k); }
  }

  lemma RelogAcks(servers: seq<Server>, h: History, i: nat, log': seq<Entry>)
    requires AcksOk(servers, h) && CanRelog(servers, h, i, log')
    ensures AcksOk(servers[i := servers[i].(log := log')], h)
  {
    var servers' := servers[i := servers[i].(log := log')];
    forall k | k in h.acked ensures AckOk(servers', h, k) { assert AckOk(servers, h, k); }
  }

  lemma RelogLogs(servers: seq<Server>, h: History, i: nat, log': seq<Entry>)
    requires ServerLogsOk(servers, h.reigns) && LeadersOk(servers, h.reigns) && CanRelog(servers, h, i, log')
    ensures var servers' := servers[i := servers[i].(log := log')];
            ServerLogsOk(servers', h.reigns) && LeadersOk(servers', h.reigns)
  {
    var servers' := servers[i := servers[i].(log := log')];
    forall j | 0 <= j < |servers'| ensures ServerLogOk(h.reigns, servers'[j]) {
      assert ServerLogOk(h.reigns, servers[j]);
    }
    forall j | 0 <= j < |servers'| ensures LeaderOk(servers', h.reigns, j) {
      assert LeaderOk(servers, h.reigns, j);
    }
  }

  lemma RelogKeeps(st: State, i: nat, log': seq<Entry>) returns (st': State)
    requires Inv(st) && CanRelog(st.sys.servers, st.h, i, log')
    ensures Inv(st') && st'.sys == st.sys.(servers := st.sys.servers[i := st.sys.servers[i].(log := log')])
    ensures st'.h == st.h
  {
    Parts(st);
    st' := State(st.sys.(servers := st.sys.servers[i := st.sys.servers[i].(log := log')]), st.h);
    RelogVotes(st.sys.servers, st.h, i, log');
    RelogCampaigns(st.sys.servers, st.h, i, log');
    RelogAcks(st.sys.servers, st.h, i, log');
    RelogLogs(st.sys.servers, st.h, i, log');
    Whole(st');
  }

  // ---------- Recording what a server accepted ----------

  function Ack(h: History, i: nat, t: nat, idx: nat): History {
    if (t, i) in h.acked && h.acked[(t, i)] >= idx then h else h.(acked := h.acked[(t, i) := idx])
  }

  ghost predicate CanAck(servers: seq<Server>, h: History, i: nat, idx: nat) {
    && i < |servers|
    && servers[i].term in h.reigns
    && idx <= |h.reigns[servers[i].term].log|
    && KeptUpTo(h.reigns, servers[i].term, idx, servers[i].log, servers[i].term + 1)
  }

  lemma AckAcks(servers: seq<Server>, h: History, i: nat, idx: nat)
    requires AcksOk(servers, h) && CanAck(servers, h, i, idx)
    ensures AcksOk(servers, Ack(h, i, servers[i].term, idx))
  {
    var h' := Ack(h, i, servers[i].term, idx);
    forall k | k in h'.acked ensures AckOk(servers, h', k) { assert k in h.acked ==> AckOk(servers, h, k); }
  }

  lemma AckBallots(servers: seq<Server>, h: History, i: nat, idx: nat)
    requires BallotsKeep(h) && BallotsOk(servers, h) && i < |servers|
    ensures BallotsKeep(Ack(h, i, servers[i].term, idx))
  {
    var h' := Ack(h, i, servers[i].term, idx);
    forall ack: Key, vote: Key | ack in h'.acked && vote in h'.ballots ensures BallotKeeps(h', ack, vote) {
      assert BallotOk(servers, h, vote);
      if ack != (servers[i].term, i) { assert BallotKeeps(h, ack, vote); }
    }
  }

  lemma AckRest(net: set<Msg>, h: History, i: nat, t: nat, idx: nat)
    requires LeaderAcks(h) && AppendMsgsOk(net, h) && t in h.reigns && idx <= |h.reigns[t].log|
    ensures var h' := Ack(h, i, t, idx); LeaderAcks(h') && AppendMsgsOk(net, h') && Grows(h, h')
  {
    var h' := Ack(h, i, t, idx);
    forall u | u in h'.reigns ensures LeaderAck(h', u) { assert LeaderAck(h, u); }
    forall m | m in net ensures AppendMsgOk(h', m) { assert AppendMsgOk(h, m); }
  }

  lemma AckElections(servers: seq<Server>, net: set<Msg>, h: History, i: nat, t: nat, idx: nat)
    requires ElectionInv(servers, net, h)
    ensures ElectionInv(servers, net, Ack(h, i, t, idx))
  {
    var h' := Ack(h, i, t, idx);
    forall j | 0 <= j < |servers| ensures VotedOk(servers, h', j) { assert VotedOk(servers, h, j); }
    forall k | k in h'.ballots ensures BallotOk(servers, h', k) { assert BallotOk(servers, h, k); }
    forall k | k in h'.campaigns ensures CampaignOk(servers, h', k) {
      assert CampaignOk(servers, h, k);
      assert CountedOk(h', k);
    }
    forall m | m in net ensures VoteMsgOk(net, h', m) { assert VoteMsgOk(net, h, m); }
    forall u | u in h'.reigns ensures ElectedOk(|servers|, h', u) { assert ElectedOk(|servers|, h, u); }
  }

  lemma AckKeeps(st: State, i: nat, idx: nat) returns (st': State)
    requires Inv(st) && CanAck(st.sys.servers, st.h, i, idx)
    ensures Inv(st') && Grows(st.h, st'.h) && st'.sys == st.sys
    ensures var k := (st.sys.servers[i].term, i); k in st'.h.acked && st'.h.acked[k] >= idx
  {
    Parts(st);
    st' := State(st.sys, Ack(st.h, i, st.sys.servers[i].term, idx));
    AckAcks(st.sys.servers, st.h, i, idx);
    AckBallots(st.sys.servers, st.h, i, idx);
    AckRest(st.sys.net, st.h, i, st.sys.servers[i].term, idx);
    AckElections(st.sys.servers, st.sys.net, st.h, i, st.sys.servers[i].term, idx);
    Whole(st');
  }

  // ---------- Accepting an append ----------

  /** Server i agrees with its term's leader up to `prevIdx`. */
  ghost predicate CanAccept(servers: seq<Server>, h: History, i: nat, prevIdx: nat, entries: seq<Entry>) {
    && i < |servers|
    && var s := servers[i];
       && s.term in h.reigns
       && s.role != Leader
       && prevIdx <= |s.log|
       && Slice(h.reigns[s.term].log, prevIdx, entries)
       && s.log[..prevIdx] == h.reigns[s.term].log[..prevIdx]
  }

  lemma KeptByAccept(h: History, s: Server, t: nat, prevIdx: nat, entries: seq<Entry>, idx: nat)
    requires LogOk(h.reigns, s.log) && s.term in h.reigns && LogOk(h.reigns, h.reigns[s.term].log)
    requires prevIdx <= |s.log| && Slice(h.reigns[s.term].log, prevIdx, entries)
    requires s.log[..prevIdx] == h.reigns[s.term].log[..prevIdx]
    requires t <= s.term && KeptUpTo(h.reigns, t, idx, s.log, s.term + 1)
    ensures KeptUpTo(h.reigns, t, idx, AppendRule(s.log, prevIdx, entries), s.term + 1)
  {
    var r, full, bound, log' := h.reigns, h.reigns[s.term].log, s.term + 1, AppendRule(s.log, prevIdx, entries);
    forall k | 0 <= k <= idx ensures KeptOrLost(r, t, k, log', bound) {
      assert KeptOrLost(r, t, k, s.log, bound);
      if OwnTerm(r, t, k) && Holds(r, t, k, s.log) && Holds(r, t, k, full) {
        AppendRuleKeeps(r, s.log, full, prevIdx, entries, r[t].log[..k]);
      }
    }
  }

  lemma TakenLogOk(r: map<nat, Reign>, s: Server, t: nat, idx: nat, log: seq<Entry>)
    requires ServerLogOk(r, s) && t in r && ReignLogOk(r, t) && t <= s.term && idx <= |r[t].log|
    requires log == s.log || log == r[t].log[..idx]
    ensures ServerLogOk(r, s.(log := log))
  {
    PrefixOk(r, r[t].log, idx);
    hide LogOk;
  }

  lemma AcceptedLogOk(servers: seq<Server>, h: History, i: nat, prevIdx: nat, entries: seq<Entry>)
    requires ReignLogsOk(h.reigns) && ServerLogsOk(servers, h.reigns) && CanAccept(servers, h, i, prevIdx, entries)
    ensures var s := servers[i];
            var log' := AppendRule(s.log, prevIdx, entries);
            && ServerLogOk(h.reigns, s.(log := log'))
            && KeptUpTo(h.reigns, s.term, prevIdx + |entries|, log', s.term + 1)
  {
    var s := servers[i];
    var full, idx := h.reigns[s.term].log, prevIdx + |entries|;
    assert ServerLogOk(h.reigns, s) && ReignLogOk(h.reigns, s.term);
    hide ReignLogsOk, ServerLogsOk, LogOk, MatchLen, AppendRule, KeptUpTo, Sorted, LastTerm;
    AppendRuleEffect(h.reigns, s.log, full, prevIdx, entries);
    TakenLogOk(h.reigns, s, s.term, idx, AppendRule(s.log, prevIdx, entries));
    OwnKept(h.reigns, s.term, idx, AppendRule(s.log, prevIdx, entries), s.term + 1);
  }

  lemma LogsAt(servers: seq<Server>, r: map<nat, Reign>, i: nat)
    requires ReignLogsOk(r) && ServerLogsOk(servers, r) && i < |servers| && servers[i].term in r
    ensures LogOk(r, servers[i].log) && LogOk(r, r[servers[i].term].log)
  {
    hide LogOk;
    assert ServerLogOk(r, servers[i]) && ReignLogOk(r, servers[i].term);
  }

  lemma AcceptedKept(servers: seq<Server>, h: History, i: nat, prevIdx: nat, entries: seq<Entry>, k: Key)
    requires ReignLogsOk(h.reigns) && ServerLogsOk(servers, h.reigns) && CanAccept(servers, h, i, prevIdx, entries)
    requires k in h.acked && k.1 == i && AckOk(servers, h, k)
    ensures KeptUpTo(h.reigns, k.0, h.acked[k], AppendRule(servers[i].log, prevIdx, entries), servers[i].term + 1)
  {
    hide ReignLogsOk, ServerLogsOk, KeptUpTo, LogOk, AppendRule, MatchLen;
    LogsAt(servers, h.reigns, i);
    KeptByAccept(h, servers[i], k.0, prevIdx, entries, h.acked[k]);
  }

  lemma AcceptedLog(servers: seq<Server>, h: History, i: nat, prevIdx: nat, entries: seq<Entry>)
    requires AcksOk(servers, h) && ReignLogsOk(h.reigns) && ServerLogsOk(servers, h.reigns)
    requires CanAccept(servers, h, i, prevIdx, entries)
    ensures CanRelog(servers, h, i, AppendRule(servers[i].log, prevIdx, entries))
    ensures CanAck(servers[i := servers[i].(log := AppendRule(servers[i].log, prevIdx, entries))], h, i,
                   prevIdx + |entries|)
  {
    hide ReignLogsOk, ServerLogsOk, MatchLen, KeptUpTo;
    AcceptedLogOk(servers, h, i, prevIdx, entries);
    forall k: Key | k in h.acked && k.1 == i
      ensures KeptUpTo(h.reigns, k.0, h.acked[k], AppendRule(servers[i].log, prevIdx, entries), servers[i].term + 1)
    {
      AcceptedKept(servers, h, i, prevIdx, entries, k);
    }
  }

  lemma AcceptKeeps(st: State, i: nat, prevIdx: nat, entries: seq<Entry>) returns (st': State)
    requires Inv(st) && CanAccept(st.sys.servers, st.h, i, prevIdx, entries)
    ensures Inv(st') && Grows(st.h, st'.h)
    ensures var s := st.sys.servers[i];
            st'.sys == st.sys.(servers := st.sys.servers[i := s.(log := AppendRule(s.log, prevIdx, entries))])
    ensures var k := (st.sys.servers[i].term, i); k in st'.h.acked && st'.h.acked[k] >= prevIdx + |entries|
  {
    Parts(st);
    AcceptedLog(st.sys.servers, st.h, i, prevIdx, entries);
    st' := RelogKeeps(st, i, AppendRule(st.sys.servers[i].log, prevIdx, entries));
    st' := AckKeeps(st', i, prevIdx + |entries|);
  }

  // ---------- A leader's own append ----------

  /** Leader i's log becomes `log'`. */
  function Extend(h: History, i: nat, t: nat, log': seq<Entry>): History
    requires t in h.reigns
  {
    h.(reigns := h.reigns[t := h.reigns[t].(log := log')], acked := h.acked[(t, i) := |log'|])
  }

  ghost predicate CanExtend(servers: seq<Server>, h: History, i: nat, entries: seq<Entry>) {
    && i < |servers|
    && servers[i].term in h.reigns
    && h.reigns[servers[i].term].leader == i
    && h.reigns[servers[i].term].log == servers[i].log
    && forall j | 0 <= j < |entries| :: entries[j].term == servers[i].term
  }

  function Extended(s: Server, entries: seq<Entry>): Server {
    s.(log := s.log + entries, precommit := |s.log + entries|)
  }

  lemma ExtendReigns(servers: seq<Server>, h: History, i: nat, entries: seq<Entry>)
    requires ReignLogsOk(h.reigns) && CanExtend(servers, h, i, entries)
    ensures var r' := Extend(h, i, servers[i].term, servers[i].log + entries).reigns;
            ReignsGrow(h.reigns, r') && ReignLogsOk(r')
  {
    var t, log, log' := servers[i].term, servers[i].log, servers[i].log + entries;
    var r' := Extend(h, i, t, log').reigns;
    assert ReignsGrow(h.reigns, r');
    forall u | u in r' ensures ReignLogOk(r', u) {
      assert ReignLogOk(h.reigns, u);
      LogOkGrows(h.reigns, r', h.reigns[u].log);
      if u == t {
        forall k | 0 <= k < |log'| ensures Anchored(r', log', k) {
          if k < |log| {
            assert Anchored(r', log, k);
            assert log[..k + 1] == log'[..k + 1];
          }
        }
      }
    }
  }

  lemma ExtendServers(servers: seq<Server>, h: History, i: nat, entries: seq<Entry>)
    requires ServerLogsOk(servers, h.reigns) && LeadersOk(servers, h.reigns) && CanExtend(servers, h, i, entries)
    requires var r' := Extend(h, i, servers[i].term, servers[i].log + entries).reigns;
             ReignsGrow(h.reigns, r') && ReignLogsOk(r')
    ensures var r' := Extend(h, i, servers[i].term, servers[i].log + entries).reigns;
            var servers' := servers[i := Extended(servers[i], entries)];
            ServerLogsOk(servers', r') && LeadersOk(servers', r')
  {
    var r' := Extend(h, i, servers[i].term, servers[i].log + entries).reigns;
    var servers' := servers[i := Extended(servers[i], entries)];
    assert ReignLogOk(r', servers[i].term);
    forall j | 0 <= j < |servers'| ensures ServerLogOk(r', servers'[j]) {
      assert ServerLogOk(h.reigns, servers[j]);
      LogOkGrows(h.reigns, r', servers[j].log);
    }
    forall j | 0 <= j < |servers'| ensures LeaderOk(servers', r', j) { assert LeaderOk(servers, h.reigns, j); }
  }

  lemma ExtendElections(servers: seq<Server>, h: History, i: nat, entries: seq<Entry>)
    requires BallotsOk(servers, h) && CampaignsOk(servers, h) && CanExtend(servers, h, i, entries)
    requires ReignsGrow(h.reigns, Extend(h, i, servers[i].term, servers[i].log + entries).reigns)
    ensures var h' := Extend(h, i, servers[i].term, servers[i].log + entries);
            var servers' := servers[i := Extended(servers[i], entries)];
            BallotsOk(servers', h') && CampaignsOk(servers', h')
  {
    var h' := Extend(h, i, servers[i].term, servers[i].log + entries);
    var servers' := servers[i := Extended(servers[i], entries)];
    forall k | k in h'.ballots ensures BallotOk(servers', h', k) {
      assert BallotOk(servers, h, k);
      LogOkGrows(h.reigns, h'.reigns, h.ballots[k].log);
    }
    forall k | k in h'.campaigns ensures CampaignOk(servers', h', k) {
      assert CampaignOk(servers, h, k);
      LogOkGrows(h.reigns, h'.reigns, h.campaigns[k].log);
      assert CountedOk(h', k);
    }
  }

  lemma ExtendElected(servers: seq<Server>, net: set<Msg>, h: History, i: nat, entries: seq<Entry>)
    requires ElectionsOk(|servers|, h) && VoteMsgsOk(net, h) && VotesOk(servers, h) && CanExtend(servers, h, i, entries)
    ensures var h' := Extend(h, i, servers[i].term, servers[i].log + entries);
            ElectionsOk(|servers|, h') && VoteMsgsOk(net, h') &&
            VotesOk(servers[i := Extended(servers[i], entries)], h')
  {
    var h' := Extend(h, i, servers[i].term, servers[i].log + entries);
    var servers' := servers[i := Extended(servers[i], entries)];
    forall j | 0 <= j < |servers'| ensures VotedOk(servers', h', j) { assert VotedOk(servers, h, j); }
    forall t | t in h'.reigns ensures ElectedOk(|servers|, h', t) {
      assert ElectedOk(|servers|, h, t);
      var c := h.campaigns[(t, h.reigns[t].leader)];
      assert h'.reigns[t].log[..|c.log|] == h.reigns[t].log[..|c.log|];
    }
    forall m | m in net ensures VoteMsgOk(net, h', m) { assert VoteMsgOk(net, h, m); }
  }

  lemma ExtendAppendMsgs(servers: seq<Server>, net: set<Msg>, h: History, i: nat, entries: seq<Entry>)
    requires AppendMsgsOk(net, h) && AcksOk(servers, h) && CanExtend(servers, h, i, entries)
    ensures AppendMsgsOk(net, Extend(h, i, servers[i].term, servers[i].log + entries))
  {
    var h' := Extend(h, i, servers[i].term, servers[i].log + entries);
    forall m | m in net ensures AppendMsgOk(h', m) {
      assert AppendMsgOk(h, m);
      if m.AppendReq? {
        assert h'.reigns[m.term].log[m.prevIdx..m.prevIdx + |m.entries|]
            == h.reigns[m.term].log[m.prevIdx..m.prevIdx + |m.entries|];
      } else if m.AppendResp? && m.accepted {
        assert AckOk(servers, h, (m.term, m.src));
      }
    }
  }

  lemma ExtendAcks(servers: seq<Server>, h: History, i: nat, entries: seq<Entry>)
    requires AcksOk(servers, h) && ReignLogsOk(h.reigns) && CanExtend(servers, h, i, entries)
    requires ReignsGrow(h.reigns, Extend(h, i, servers[i].term, servers[i].log + entries).reigns)
    ensures AcksOk(servers[i := Extended(servers[i], entries)],
                   Extend(h, i, servers[i].term, servers[i].log + entries))
  {
    var s := servers[i];
    var log' := s.log + entries;
    var h' := Extend(h, i, s.term, log');
    var servers' := servers[i := Extended(s, entries)];
    forall k | k in h'.acked ensures AckOk(servers', h', k) {
      if k != (s.term, i) {
        assert AckOk(servers, h, k);
        AckGrows(servers, h, servers', h', k);
      } else {
        OwnKept(h'.reigns, s.term, |log'|, log', s.term + 1);
      }
    }
  }

  lemma ExtendBallots(servers: seq<Server>, h: History, i: nat, entries: seq<Entry>)
    requires AcksOk(servers, h) && BallotsKeep(h) && BallotsOk(servers, h) && ReignLogsOk(h.reigns)
    requires CanExtend(servers, h, i, entries)
    requires ReignsGrow(h.reigns, Extend(h, i, servers[i].term, servers[i].log + entries).reigns)
    ensures BallotsKeep(Extend(h, i, servers[i].term, servers[i].log + entries))
  {
    var h' := Extend(h, i, servers[i].term, servers[i].log + entries);
    forall ack: Key, vote: Key | ack in h'.acked && vote in h'.ballots ensures BallotKeeps(h', ack, vote) {
      assert BallotOk(servers, h, vote);
      if ack != (servers[i].term, i) {
        assert BallotKeeps(h, ack, vote) && AckOk(servers, h, ack);
        if ack.1 == vote.1 && ack.0 < vote.0 && !h.ballots[vote].late {
          KeptGrows(h.reigns, h'.reigns, ack.0, h.acked[ack], h.ballots[vote].log, vote.0);
        }
      }
    }
  }

  lemma ExtendLeaderAcks(servers: seq<Server>, h: History, i: nat, entries: seq<Entry>)
    requires LeaderAcks(h) && AcksOk(servers, h) && CanExtend(servers, h, i, entries)
    ensures var h' := Extend(h, i, servers[i].term, servers[i].log + entries);
            LeaderAcks(h') && AcksGrow(h.acked, h'.acked)
  {
    var h' := Extend(h, i, servers[i].term, servers[i].log + entries);
    forall t | t in h'.reigns ensures LeaderAck(h', t) { assert LeaderAck(h, t); }
    assert LeaderAck(h, servers[i].term);
  }

  lemma ExtendKeeps(st: State, i: nat, entries: seq<Entry>) returns (st': State)
    requires Inv(st) && i < |st.sys.servers| && st.sys.servers[i].role == Leader
    requires forall j | 0 <= j < |entries| :: entries[j].term == st.sys.servers[i].term
    ensures Inv(st') && Grows(st.h, st'.h)
    ensures st'.sys == st.sys.(servers := st.sys.servers[i := Extended(st.sys.servers[i], entries)])
  {
    Parts(st);
    var servers, net, h := st.sys.servers, st.sys.net, st.h;
    assert LeaderOk(servers, h.reigns, i);
    ExtendReigns(servers, h, i, entries);
    ExtendServers(servers, h, i, entries);
    ExtendElections(servers, h, i, entries);
    ExtendElected(servers, net, h, i, entries);
    ExtendAppendMsgs(servers, net, h, i, entries);
    ExtendAcks(servers, h, i, entries);
    ExtendBallots(servers, h, i, entries);
    ExtendLeaderAcks(servers, h, i, entries);
    st' := State(st.sys.(servers := servers[i := Extended(servers[i], entries)]),
                 Extend(h, i, servers[i].term, servers[i].log + entries));
    Whole(st');
  }
}
