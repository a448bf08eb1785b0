/** The safety theorems of the protocol, over every run. */
module RaftSafety {
  import opened RaftHandlers
  import opened RaftProtocol
  import opened RaftHistory
  import opened RaftInvariance
  import opened RaftElection
  import opened RaftSteps

  ghost predicate Leads(sys: System, id: nat, term: nat) {
    id < |sys.servers| && sys.servers[id].role == Leader && sys.servers[id].term == term
  }

  /** What the final history knows about a server that led at some step. */
  lemma LedAt(n: nat, run: seq<System>, hs: seq<History>, j: nat, id: nat, term: nat)
    requires |hs| == |run| && j < |run| && Leads(run[j], id, term)
    requires Inv(State(run[j], hs[j])) && Grows(hs[j], hs[|hs| - 1])
    ensures var r := hs[|hs| - 1].reigns;
            term in r && r[term].leader == id && run[j].servers[id].log <= r[term].log
    ensures run[j].servers[id].log != [] && LastTerm(run[j].servers[id].log) == term
  {
    LeaderFacts(State(run[j], hs[j]), id);
    assert ReignGrows(hs[j].reigns[term], hs[|hs| - 1].reigns[term]);
    Parts(State(run[j], hs[j]));
    assert ReignLogOk(hs[j].reigns, term);
  }

  /** In every run at most one server becomes leader in any term. */
  lemma ElectionSafety(n: nat, run: seq<System>, j: nat, k: nat, a: nat, b: nat, term: nat)
    requires IsRun(n, run) && j < |run| && k < |run|
    requires Leads(run[j], a, term) && Leads(run[k], b, term)
    ensures a == b
  {
    var hs := RunHistories(n, run);
    LedAt(n, run, hs, j, a, term);
    LedAt(n, run, hs, k, b, term);
  }

  /** A leader only extends its log while it leads. */
  lemma LeaderAppendOnly(n: nat, run: seq<System>, j: nat, k: nat, a: nat, term: nat)
    requires IsRun(n, run) && j <= k < |run|
    requires Leads(run[j], a, term) && Leads(run[k], a, term)
    ensures run[j].servers[a].log <= run[k].servers[a].log
  {
    var hs := RunHistories(n, run);
    LeaderFacts(State(run[j], hs[j]), a);
    LeaderFacts(State(run[k], hs[k]), a);
    assert ReignGrows(hs[j].reigns[term], hs[k].reigns[term]);
  }

  lemma ServerLogFacts(st: State, h: History, i: nat)
    requires Inv(st) && Grows(st.h, h) && i < |st.sys.servers|
    ensures LogOk(h.reigns, st.sys.servers[i].log)
  {
    Parts(st);
    assert ServerLogOk(st.h.reigns, st.sys.servers[i]);
    LogOkGrows(st.h.reigns, h.reigns, st.sys.servers[i].log);
  }

  /** Logs that hold an entry of the same term at the same index agree up to that index, at all times. */
  lemma LogMatching(n: nat, run: seq<System>, j: nat, k: nat, a: nat, b: nat, idx: nat)
    requires IsRun(n, run) && j < |run| && k < |run|
    requires a < |run[j].servers| && b < |run[k].servers|
    requires 1 <= idx <= |run[j].servers[a].log| && idx <= |run[k].servers[b].log|
    requires run[j].servers[a].log[idx - 1].term == run[k].servers[b].log[idx - 1].term
    ensures run[j].servers[a].log[..idx] == run[k].servers[b].log[..idx]
  {
    var hs := RunHistories(n, run);
    var h := hs[|hs| - 1];
    ServerLogFacts(State(run[j], hs[j]), h, a);
    ServerLogFacts(State(run[k], hs[k]), h, b);
    SamePrefix(h.reigns, run[j].servers[a].log, run[k].servers[b].log, idx - 1);
  }

  // ---------- Leader Completeness ----------

  /** Each server of the set has accepted term t's entries up to index k. */
  ghost predicate AckedBy(h: History, t: nat, k: nat, q: set<nat>) {
    forall v :: v in q ==> (t, v) in h.acked && h.acked[(t, v)] >= k
  }

  /** A log that starts with k entries, the last of term t, and ends in a later term is longer than k. */
  lemma LaterIsLonger(r: map<nat, Reign>, t: nat, k: nat, log: seq<Entry>, full: seq<Entry>)
    requires ReignLogsOk(r) && OwnTerm(r, t, k) && Holds(r, t, k, full) && log <= full
    requires log != [] && LastTerm(log) > t
    ensures k < |log| && Holds(r, t, k, log)
  {
    assert ReignLogOk(r, t);
    forall p | 0 <= p < k ensures full[p].term <= t {
      assert full[p] == r[t].log[..k][p];
    }
    assert log[|log| - 1] == full[|log| - 1];
  }

  /** A candidate that a voter finds up to date has what the voter has of term t. */
  lemma UpToDateHolds(r: map<nat, Reign>, t: nat, k: nat, voter: seq<Entry>, cand: seq<Entry>, bound: nat)
    requires ReignLogsOk(r) && OwnTerm(r, t, k) && LogOk(r, voter) && LogOk(r, cand)
    requires Holds(r, t, k, voter) && UpToDate(LastTerm(cand), |cand|, voter) && LastTerm(cand) < bound
    requires forall t2 :: t < t2 < bound && t2 in r ==> Holds(r, t, k, r[t2].log)
    ensures Holds(r, t, k, cand)
  {
    LogSorted(r, voter);
    assert voter[k - 1].term == r[t].log[..k][k - 1].term == t;
    assert LastTerm(voter) >= t && t >= 1 by { assert ReignLogOk(r, t); }
    var p := |cand| - 1;
    assert Anchored(r, cand, p) && Anchored(r, voter, |voter| - 1);
    var lc := LastTerm(cand);
    assert cand == cand[..p + 1] == r[lc].log[..p + 1];
    if lc == LastTerm(voter) {
      assert voter == voter[..|voter|] == r[lc].log[..|voter|];
      assert voter <= cand;
    } else {
      LaterIsLonger(r, t, k, cand, r[lc].log);
    }
  }

  lemma Ballots(st: State, t: nat, k: nat, v: nat, t2: nat)
    requires AllInv(st) && OwnTerm(st.h.reigns, t, k) && t < t2 && t2 in st.h.reigns
    requires v in st.h.reigns[t2].electors && (t, v) in st.h.acked && st.h.acked[(t, v)] >= k
    ensures (t2, v) in st.h.ballots && (t2, st.h.reigns[t2].leader) in st.h.campaigns
    ensures var b, c := st.h.ballots[(t2, v)], st.h.campaigns[(t2, st.h.reigns[t2].leader)];
            && KeptOrLost(st.h.reigns, t, k, b.log, t2)
            && LogOk(st.h.reigns, b.log) && LogOk(st.h.reigns, c.log)
            && UpToDate(LastTerm(c.log), |c.log|, b.log) && LastTerm(c.log) < t2
            && c.log <= st.h.reigns[t2].log
  {
    assert ElectedOk(|st.sys.servers|, st.h, t2);
    assert BallotOk(st.sys.servers, st.h, (t2, v));
    assert CampaignOk(st.sys.servers, st.h, (t2, st.h.reigns[t2].leader));
    assert BallotKeeps(st.h, (t, v), (t2, v));
    assert KeptUpTo(st.h.reigns, t, st.h.acked[(t, v)], st.h.ballots[(t2, v)].log, t2);
  }

  lemma {:induction false} Complete(st: State, t: nat, k: nat, q: set<nat>, t2: nat)
    requires Inv(st) && OwnTerm(st.h.reigns, t, k)
    requires AckedBy(st.h, t, k, q) && |q| > |st.sys.servers| / 2 && (forall v :: v in q ==> v < |st.sys.servers|)
    requires t < t2 && t2 in st.h.reigns
    ensures Holds(st.h.reigns, t, k, st.h.reigns[t2].log)
    decreases t2
  {
    var r := st.h.reigns;
    forall t3 | t < t3 < t2 && t3 in r ensures Holds(r, t, k, r[t3].log) {
      Complete(st, t, k, q, t3);
    }
    Parts(st);
    assert ElectedOk(|st.sys.servers|, st.h, t2);
    var v := MajoritiesMeet(|st.sys.servers|, q, r[t2].electors);
    Ballots(st, t, k, v, t2);
    var b, c := st.h.ballots[(t2, v)], st.h.campaigns[(t2, r[t2].leader)];
    UpToDateHolds(r, t, k, b.log, c.log, t2);
  }

  // ---------- Over runs ----------

  /** The server leads the term, or its acceptance of everything up to idx is in flight or was. */
  ghost predicate Accepts(sys: System, v: nat, leader: nat, term: nat, idx: nat) {
    v == leader || exists dst, next :: next > idx && AppendResp(term, v, dst, next, true) in sys.net
  }

  lemma AcceptsAcked(st: State, v: nat, leader: nat, term: nat, idx: nat)
    requires Inv(st) && Accepts(st.sys, v, leader, term, idx)
    requires term in st.h.reigns && st.h.reigns[term].leader == leader && idx <= |st.h.reigns[term].log|
    ensures (term, v) in st.h.acked && st.h.acked[(term, v)] >= idx
  {
    AckFacts(st, term);
    if v != leader {
      var dst, next :| next > idx && AppendResp(term, v, dst, next, true) in st.sys.net;
      RespFacts(st, AppendResp(term, v, dst, next, true));
    }
  }

  lemma AckFacts(st: State, term: nat)
    requires Inv(st) && term in st.h.reigns
    ensures LeaderAck(st.h, term)
  {
    Parts(st);
  }

  lemma RespFacts(st: State, m: Msg)
    requires Inv(st) && m in st.sys.net
    ensures AppendMsgOk(st.h, m)
  {
    Parts(st);
  }

  lemma {:induction false} RunSize(n: nat, run: seq<System>, k: nat)
    requires IsRun(n, run) && k < |run|
    ensures |run[k].servers| == n
  {
    if k == 0 {
    } else {
      RunSize(n, run, k - 1);
      assert StepTo(run[k - 1], run[k - 1 + 1]);
    }
  }

  /**
    Once a majority, the leader included, has accepted in the leader's term an index whose entry
    has that term, every leader of a later term has the same entries up to that index.
   */
  lemma LeaderCompleteness(n: nat, run: seq<System>, j: nat, a: nat, t: nat, k: nat, b: nat, t2: nat, idx: nat,
                           q: set<nat>)
    requires IsRun(n, run) && j < |run| && k < |run|
    requires Leads(run[j], a, t) && Leads(run[k], b, t2) && t < t2
    requires 1 <= idx <= |run[j].servers[a].log| && run[j].servers[a].log[idx - 1].term == t
    requires (forall v :: v in q ==> v < n) && |q| > n / 2
    requires forall v :: v in q ==> Accepts(run[|run| - 1], v, a, t, idx)
    ensures run[j].servers[a].log[..idx] <= run[k].servers[b].log
  {
    hide IsRun, Inv, ReignLogsOk;
    var hs := RunHistories(n, run);
    var last := |run| - 1;
    var st := State(run[last], hs[last]);
    var r := st.h.reigns;
    LedAt(n, run, hs, j, a, t);
    LedAt(n, run, hs, k, b, t2);
    RunSize(n, run, last);
    forall v | v in q ensures (t, v) in st.h.acked && st.h.acked[(t, v)] >= idx {
      AcceptsAcked(st, v, a, t, idx);
    }
    Complete(st, t, idx, q, t2);
    ReignLogs(st);
    LaterIsLonger(r, t, idx, run[k].servers[b].log, r[t2].log);
    assert run[j].servers[a].log[..idx] == r[t].log[..idx];
  }

  lemma ReignLogs(st: State)
    requires Inv(st)
    ensures ReignLogsOk(st.h.reigns)
  {
    Parts(st);
  }

  /** Two indexes accepted by majorities, each in its leader's own term, never disagree on an entry. */
  lemma AcceptedEntriesAgree(n: nat, run: seq<System>, j: nat, a: nat, t: nat, idx: nat, q: set<nat>,
                             k: nat, b: nat, t2: nat, idx2: nat, q2: set<nat>, i: nat)
    requires IsRun(n, run) && j < |run| && k < |run| && Leads(run[j], a, t) && Leads(run[k], b, t2)
    requires 1 <= idx <= |run[j].servers[a].log| && run[j].servers[a].log[idx - 1].term == t
    requires 1 <= idx2 <= |run[k].servers[b].log| && run[k].servers[b].log[idx2 - 1].term == t2
    requires (forall v :: v in q ==> v < n) && |q| > n / 2 && (forall v :: v in q2 ==> v < n) && |q2| > n / 2
    requires forall v :: v in q ==> Accepts(run[|run| - 1], v, a, t, idx)
    requires forall v :: v in q2 ==> Accepts(run[|run| - 1], v, b, t2, idx2)
    requires i < idx && i < idx2
    ensures run[j].servers[a].log[i] == run[k].servers[b].log[i]
  {
    if t < t2 {
      LeaderCompleteness(n, run, j, a, t, k, b, t2, idx, q);
    } else if t2 < t {
      LeaderCompleteness(n, run, k, b, t2, j, a, t, idx2, q2);
    } else {
      ElectionSafety(n, run, j, k, a, b, t);
      if j <= k { LeaderAppendOnly(n, run, j, k, a, t); } else { LeaderAppendOnly(n, run, k, j, a, t); }
    }
  }
}
