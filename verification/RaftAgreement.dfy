/**
  What servers have committed never disagrees, in every run where each commit that a leader decides picks an index
  of its own term that the counted servers accepted in that term.
 */
module RaftAgreement {
  import CommitIndex
  import opened RaftHandlers
  import opened RaftProtocol
  import opened RaftHistory
  import opened RaftReplication
  import opened RaftSteps
  import opened RaftSafety
  import opened RaftCommit

  // ---------- Chosen indexes ----------

  ghost predicate Majority(n: nat, q: set<nat>) {
    |q| > n / 2 && forall v :: v in q ==> v < n
  }

  /** A majority accepted the index in term t, whose leader created the entry. */
  ghost predicate Chosen(n: nat, h: History, t: nat, idx: nat) {
    OwnTerm(h.reigns, t, idx) && exists q :: Majority(n, q) && AckedBy(h, t, idx, q)
  }

  ghost predicate BackedBy(n: nat, h: History, term: nat, log: seq<Entry>, c: nat, t: nat, idx: nat) {
    && t <= term && Chosen(n, h, t, idx) && c <= idx && c <= |log|
    && log[..c] == h.reigns[t].log[..c]
  }

  /** The first c entries are below an index chosen in this term or before. */
  ghost predicate Backed(n: nat, h: History, term: nat, log: seq<Entry>, c: nat) {
    c == 0 || exists t, idx :: BackedBy(n, h, term, log, c, t, idx)
  }

  lemma ChosenGrows(n: nat, h: History, h': History, t: nat, idx: nat)
    requires Chosen(n, h, t, idx) && Grows(h, h')
    ensures Chosen(n, h', t, idx) && h.reigns[t].log <= h'.reigns[t].log
  {
    assert ReignGrows(h.reigns[t], h'.reigns[t]);
    var q :| Majority(n, q) && AckedBy(h, t, idx, q);
    forall v | v in q ensures (t, v) in h'.acked && h'.acked[(t, v)] >= idx {
      assert (t, v) in h.acked;
    }
    assert AckedBy(h', t, idx, q);
  }

  /** Backing lasts: over later histories, later terms, and logs that keep the entries. */
  lemma BackedStays(n: nat, h: History, h': History, term: nat, term': nat, log: seq<Entry>, log': seq<Entry>, c: nat)
    requires Backed(n, h, term, log, c) && Grows(h, h') && term <= term'
    requires c <= |log| ==> c <= |log'| && log[..c] == log'[..c]
    ensures Backed(n, h', term', log', c)
  {
    hide Chosen, Grows;
    if c > 0 {
      var t: nat, idx: nat :| BackedBy(n, h, term, log, c, t, idx);
      ChosenGrows(n, h, h', t, idx);
      ChosenIndex(n, h, t, idx);
      ChosenIndex(n, h', t, idx);
      assert h'.reigns[t].log[..c] == h.reigns[t].log[..c];
      assert BackedBy(n, h', term', log', c, t, idx);
    }
  }

  lemma ChosenIndex(n: nat, h: History, t: nat, idx: nat)
    requires Chosen(n, h, t, idx)
    ensures t in h.reigns && 1 <= idx <= |h.reigns[t].log|
  {
  }

  /** The leader of a term has everything backed by that term. */
  lemma LeaderHasBacked(st: State, term: nat, log: seq<Entry>, c: nat)
    requires Inv(st) && term in st.h.reigns && Backed(|st.sys.servers|, st.h, term, log, c)
    ensures c <= |log| && c <= |st.h.reigns[term].log| && log[..c] == st.h.reigns[term].log[..c]
  {
    hide Inv;
    if c > 0 {
      var n, h := |st.sys.servers|, st.h;
      var t: nat, idx: nat :| BackedBy(n, h, term, log, c, t, idx);
      if t < term {
        var q :| Majority(n, q) && AckedBy(h, t, idx, q);
        Complete(st, t, idx, q, term);
        assert h.reigns[t].log[..c] == h.reigns[t].log[..idx][..c];
      }
    }
  }

  /** Two backed prefixes are prefixes of one log. */
  lemma BackedAgree(st: State, term1: nat, log1: seq<Entry>, c1: nat, term2: nat, log2: seq<Entry>, c2: nat)
    requires Inv(st) && Backed(|st.sys.servers|, st.h, term1, log1, c1)
    requires Backed(|st.sys.servers|, st.h, term2, log2, c2)
    ensures c1 <= |log1| && c2 <= |log2| && (log1[..c1] <= log2[..c2] || log2[..c2] <= log1[..c1])
  {
    hide Inv, Chosen;
    if c1 > 0 && c2 > 0 {
      var n, h := |st.sys.servers|, st.h;
      var t1: nat, i1: nat :| BackedBy(n, h, term1, log1, c1, t1, i1);
      var t2: nat, i2: nat :| BackedBy(n, h, term2, log2, c2, t2, i2);
      ChosenIndex(n, h, t1, i1);
      ChosenIndex(n, h, t2, i2);
      var t := if t1 < t2 then t2 else t1;
      assert BackedBy(n, h, t, log1, c1, t1, i1);
      assert BackedBy(n, h, t, log2, c2, t2, i2);
      LeaderHasBacked(st, t, log1, c1);
      LeaderHasBacked(st, t, log2, c2);
      Prefixes(h.reigns[t].log, log1, c1, log2, c2);
    }
  }

  lemma Prefixes(full: seq<Entry>, log1: seq<Entry>, c1: nat, log2: seq<Entry>, c2: nat)
    requires c1 <= |full| && c1 <= |log1| && log1[..c1] == full[..c1]
    requires c2 <= |full| && c2 <= |log2| && log2[..c2] == full[..c2]
    ensures log1[..c1] <= log2[..c2] || log2[..c2] <= log1[..c1]
  {
    if c1 <= c2 {
      assert full[..c1] == full[..c2][..c1];
    } else {
      assert full[..c2] == full[..c1][..c2];
    }
  }

  // ---------- The invariant ----------

  ghost predicate ServerBacked(n: nat, h: History, s: Server) {
    Backed(n, h, s.term, s.log, s.commit)
  }

  /** The commit index a request carries is backed for the log of the leader that sent it. */
  ghost predicate MsgBacked(n: nat, h: History, m: Msg) {
    m.AppendReq? && m.term in h.reigns ==> Backed(n, h, m.term, h.reigns[m.term].log, m.commitIdx)
  }

  ghost predicate CommitsBacked(sys: System, h: History) {
    && (forall i | 0 <= i < |sys.servers| :: ServerBacked(|sys.servers|, h, sys.servers[i]))
    && (forall m :: m in sys.net ==> MsgBacked(|sys.servers|, h, m))
  }

  /** Nothing but later terms and more entries. */
  ghost predicate Stays(s: Server, s': Server) {
    s.term <= s'.term && s.commit == s'.commit && s.log <= s'.log
  }

  /** Or, in a cluster of one, a leader that commits all it has. */
  ghost predicate StaysOrAlone(n: nat, s: Server, s': Server) {
    || Stays(s, s')
    || (s'.role == Leader && CommitIndex.Quorum(n) == 0 && s'.commit == s'.precommit && s.commit <= s'.commit)
  }

  lemma StaysBacked(n: nat, h: History, h': History, s: Server, s': Server)
    requires ServerBacked(n, h, s) && Grows(h, h') && Stays(s, s')
    ensures ServerBacked(n, h', s')
  {
    BackedStays(n, h, h', s.term, s'.term, s.log, s'.log, s.commit);
  }

  /** A leader alone backs its whole log. */
  lemma AloneBacked(st: State, i: nat)
    requires Inv(st) && i < |st.sys.servers| && st.sys.servers[i].role == Leader
    requires CommitIndex.Quorum(|st.sys.servers|) == 0 && st.sys.servers[i].commit == st.sys.servers[i].precommit
    ensures ServerBacked(|st.sys.servers|, st.h, st.sys.servers[i])
  {
    var s, n := st.sys.servers[i], |st.sys.servers|;
    LeaderFacts(st, i);
    AckFacts(st, s.term);
    ReignLogs(st);
    assert ReignLogOk(st.h.reigns, s.term);
    assert AckedBy(st.h, s.term, |s.log|, {i}) && Majority(n, {i});
    assert BackedBy(n, st.h, s.term, s.log, s.commit, s.term, |s.log|);
  }

  /** A decision the leader may make: an index of its own term that the counted servers accepted in it. */
  ghost predicate Sound(sys: System, i: nat) {
    && i < |sys.servers| && sys.servers[i].role == Leader && i < |sys.servers[i].matched| == |sys.servers|
    && var s := sys.servers[i];
       1 <= s.commit <= |s.log| && s.log[s.commit - 1].term == s.term
       && s.commit == CommitIndex.Expected(MatchedIndexes(s, i)) && CountsCurrent(sys, i, s.commit)
  }

  lemma SoundBacked(st: State, i: nat)
    requires Inv(st) && Sound(st.sys, i)
    ensures ServerBacked(|st.sys.servers|, st.h, st.sys.servers[i])
  {
    hide Inv, CommitIndex.Expected;
    var s, n := st.sys.servers[i], |st.sys.servers|;
    var q := Counted(s, i, s.commit);
    CountedIsMajority(s, i);
    LeaderFacts(st, i);
    forall v | v in q ensures (s.term, v) in st.h.acked && st.h.acked[(s.term, v)] >= s.commit {
      AcceptsAcked(st, v, i, s.term, s.commit);
    }
    assert Majority(n, q) && AckedBy(st.h, s.term, s.commit, q);
    assert Chosen(n, st.h, s.term, s.commit);
    assert BackedBy(n, st.h, s.term, s.log, s.commit, s.term, s.commit);
  }

  // ---------- Accepting an append ----------

  /** The follower keeps what it has committed, and takes over what the leader has. */
  lemma AcceptBacked(st: State, f: Server, m: Msg)
    requires Inv(st) && m in st.sys.net && m.AppendReq? && m.dst < |st.sys.servers|
    requires f.log == st.sys.servers[m.dst].log && f.term == m.term && LogOkay(f.log, m.prevIdx, m.prevTerm)
    requires ServerBacked(|st.sys.servers|, st.h, f) && MsgBacked(|st.sys.servers|, st.h, m)
    ensures ServerBacked(|st.sys.servers|, st.h, AcceptAppend(f, m)) && f.commit <= AcceptAppend(f, m).commit
  {
    hide Inv, Backed, LogOk, AppendRule, MatchLen;
    var n, h := |st.sys.servers|, st.h;
    AppendMsgFacts(st, m);
    var full := h.reigns[m.term].log;
    AgreesUpTo(h.reigns, f.log, full, m.prevIdx);
    LeaderHasBacked(st, f.term, f.log, f.commit);
    LeaderHasBacked(st, m.term, full, m.commitIdx);
    var kept := f.log[..f.commit];
    var log' := AppendRule(f.log, m.prevIdx, m.entries);
    AppendRuleKeeps(h.reigns, f.log, full, m.prevIdx, m.entries, kept);
    AppendRuleEffect(h.reigns, f.log, full, m.prevIdx, m.entries);
    NoRollback(f, m, full);
    AcceptCommits(f, m);
    var end := m.prevIdx + |m.entries|;
    var d := Min(m.commitIdx, end);
    GrowsSelf(h);
    hide AcceptAppend, Grows;
    if d > f.commit {
      Shorter(n, h, m.term, full, m.commitIdx, d);
      assert full[..d] == full[..end][..d] == log'[..d];
      BackedStays(n, h, h, m.term, f.term, full, log', d);
    } else {
      BackedStays(n, h, h, f.term, f.term, f.log, log', f.commit);
    }
  }

  lemma AcceptCommits(f: Server, m: Msg)
    requires m.AppendReq? && m.prevIdx <= |f.log| && RolledBackCommit(f, m.prevIdx, m.entries) == f.commit
    ensures var s := AcceptAppend(f, m);
            && s.term == f.term && s.log == AppendRule(f.log, m.prevIdx, m.entries)
            && s.commit == Max(f.commit, Min(m.commitIdx, m.prevIdx + |m.entries|))
  {
    hide AppendRule, RolledBackCommit;
  }

  lemma GrowsSelf(h: History)
    ensures Grows(h, h)
  {
  }

  lemma Shorter(n: nat, h: History, term: nat, log: seq<Entry>, c: nat, d: nat)
    requires Backed(n, h, term, log, c) && d <= c
    ensures Backed(n, h, term, log, d)
  {
    hide Chosen;
    if d > 0 {
      var t: nat, idx: nat :| BackedBy(n, h, term, log, c, t, idx);
      ChosenIndex(n, h, t, idx);
      assert log[..d] == log[..c][..d] && h.reigns[t].log[..d] == h.reigns[t].log[..c][..d];
      assert BackedBy(n, h, term, log, d, t, idx);
    }
  }

  /** The first difference is past what is committed, so the commit index is not rolled back. */
  lemma NoRollback(f: Server, m: Msg, full: seq<Entry>)
    requires m.AppendReq? && m.prevIdx <= |f.log| && Slice(full, m.prevIdx, m.entries)
    requires f.commit <= |f.log| && f.commit <= |full| && f.log[..f.commit] == full[..f.commit]
    ensures RolledBackCommit(f, m.prevIdx, m.entries) == f.commit
  {
    var k := MatchLen(f.log, m.prevIdx, m.entries);
    assert forall i | 0 <= i < f.commit :: f.log[i] == f.log[..f.commit][i] == full[i];
    if k < |m.entries| && m.prevIdx + k < |f.log| {
      SliceTerms(full, m.prevIdx, m.entries);
      assert full[m.prevIdx + k] != f.log[m.prevIdx + k];
    }
  }

  // ---------- Steps ----------

  /** A raise of the commit index by a response is a sound decision. */
  ghost predicate GuardedStep(sys: System, e: Event)
    requires Enabled(sys, e)
  {
    e.ReceiveAppendResp? && Next(sys, e).servers[e.msg.dst].commit > sys.servers[e.msg.dst].commit ==>
      Sound(Next(sys, e), e.msg.dst)
  }

  lemma QuietStep(sys: System, e: Event, i: nat)
    requires Enabled(sys, e) && !e.ReceiveAppend? && !e.ReceiveAppendResp? && i < |sys.servers|
    ensures |Next(sys, e).servers| == |sys.servers|
    ensures StaysOrAlone(|sys.servers|, sys.servers[i], Next(sys, e).servers[i])
  {
    hide UpToDate, VoteReqs, Stamp;
  }

  /** An append request is refused, or accepted by a follower of its term. */
  lemma AppendCases(s: Server, id: nat, m: Msg, decline: bool) returns (f: Server)
    requires m.AppendReq?
    ensures f.log == s.log && f.commit == s.commit && s.term <= f.term
    ensures HandleAppend(s, id, m, decline).server == f ||
            (f.term == m.term && LogOkay(f.log, m.prevIdx, m.prevTerm) &&
             HandleAppend(s, id, m, decline).server == AcceptAppend(f, m))
  {
    hide AcceptAppend, LogOkay;
    var u := UpdateTerm(s, m.term);
    f := if m.term == u.term && u.role != Leader then u.(role := Follower) else u;
  }

  lemma ServerStep(st: State, e: Event, h': History, i: nat)
    requires Inv(st) && Enabled(st.sys, e) && Inv(State(Next(st.sys, e), h')) && Grows(st.h, h')
    requires CommitsBacked(st.sys, st.h) && GuardedStep(st.sys, e) && i < |st.sys.servers|
    ensures |Next(st.sys, e).servers| == |st.sys.servers|
    ensures ServerBacked(|st.sys.servers|, h', Next(st.sys, e).servers[i])
    ensures st.sys.servers[i].commit <= Next(st.sys, e).servers[i].commit
  {
    hide Inv, Backed, Sound, AcceptAppend, InitiateVote, HandleVoteReq, HandleVoteResp, HandleCliReq, VoteReqs, Grows;
    var n, s, st' := |st.sys.servers|, st.sys.servers[i], State(Next(st.sys, e), h');
    var s' := st'.sys.servers[i];
    assert ServerBacked(n, st.h, s);
    if e.ReceiveAppend? {
      if e.msg.dst == i {
        var f := AppendCases(s, i, e.msg, e.decline);
        GrowsSelf(st.h);
        StaysBacked(n, st.h, st.h, s, f);
        if s' == f {
          StaysBacked(n, st.h, h', s, s');
        } else {
          assert MsgBacked(n, st.h, e.msg);
          AcceptBacked(st, f, e.msg);
          StaysBacked(n, st.h, h', s', s');
        }
      } else {
        StaysBacked(n, st.h, h', s, s');
      }
    } else if e.ReceiveAppendResp? {
      ResponseStep(s, i, e.msg);
      if s'.commit > s.commit {
        SoundBacked(st', i);
      } else {
        StaysBacked(n, st.h, h', s, s');
      }
    } else {
      QuietStep(st.sys, e, i);
      if Stays(s, s') {
        StaysBacked(n, st.h, h', s, s');
      } else {
        AloneBacked(st', i);
      }
    }
  }

  lemma ResponseStep(s: Server, id: nat, m: Msg)
    requires m.AppendResp?
    ensures var s' := HandleAppendResp(s, id, m);
            s.term <= s'.term && s.log == s'.log && s.commit <= s'.commit
  {
    hide CommitIndex.Expected;
  }

  /** Only a leader's sending puts a request in flight. */
  lemma NewRequests(sys: System, e: Event, m: Msg)
    requires Enabled(sys, e) && m in Next(sys, e).net && m.AppendReq? && m !in sys.net
    ensures e.SendAppend? && m == AppendReqFor(sys.servers[e.id], e.id, e.dst, e.prevIdx, e.count)
  {
    hide UpToDate, Stamp, AcceptAppend, InitiateVote, HandleVoteResp, HandleCliReq, LogOkay;
  }

  lemma MsgStep(st: State, e: Event, h': History, m: Msg)
    requires Inv(st) && Enabled(st.sys, e) && Inv(State(Next(st.sys, e), h')) && Grows(st.h, h')
    requires CommitsBacked(st.sys, st.h) && m in Next(st.sys, e).net
    ensures MsgBacked(|st.sys.servers|, h', m)
  {
    hide Inv, Backed, Next;
    var n := |st.sys.servers|;
    if m.AppendReq? {
      if m in st.sys.net {
        RespFacts(st, m);
        assert MsgBacked(n, st.h, m);
      } else {
        NewRequests(st.sys, e, m);
        LeaderFacts(st, e.id);
        assert ServerBacked(n, st.h, st.sys.servers[e.id]);
      }
      var full, full' := st.h.reigns[m.term].log, h'.reigns[m.term].log;
      assert ReignGrows(st.h.reigns[m.term], h'.reigns[m.term]);
      BackedStays(n, st.h, h', m.term, m.term, full, full', m.commitIdx);
    }
  }

  lemma StepBacked(st: State, e: Event, h': History)
    requires Inv(st) && Enabled(st.sys, e) && Inv(State(Next(st.sys, e), h')) && Grows(st.h, h')
    requires CommitsBacked(st.sys, st.h) && GuardedStep(st.sys, e)
    ensures CommitsBacked(Next(st.sys, e), h')
    ensures |Next(st.sys, e).servers| == |st.sys.servers|
    ensures forall i | 0 <= i < |st.sys.servers| :: st.sys.servers[i].commit <= Next(st.sys, e).servers[i].commit
  {
    hide Inv, Backed, Next, Enabled, GuardedStep, Grows;
    var sys' := Next(st.sys, e);
    if st.sys.servers != [] { ServerStep(st, e, h', 0); } else { SameSize(st.sys, e); }
    forall i | 0 <= i < |st.sys.servers|
      ensures ServerBacked(|sys'.servers|, h', sys'.servers[i]) && st.sys.servers[i].commit <= sys'.servers[i].commit
    {
      ServerStep(st, e, h', i);
    }
    forall m | m in sys'.net ensures MsgBacked(|sys'.servers|, h', m) { MsgStep(st, e, h', m); }
  }

  lemma SameSize(sys: System, e: Event)
    requires Enabled(sys, e)
    ensures |Next(sys, e).servers| == |sys.servers|
  {
  }

  // ---------- Over runs ----------

  ghost predicate GuardedTo(a: System, b: System) {
    exists e: Event :: Enabled(a, e) && b == Next(a, e) && GuardedStep(a, e)
  }

  /** Every commit decision of the run is sound. */
  ghost predicate Guarded(run: seq<System>) {
    forall k | 0 <= k < |run| - 1 :: GuardedTo(run[k], run[k + 1])
  }

  lemma GuardedMore(run: seq<System>, s: System)
    requires run != [] && Guarded(run) && GuardedTo(Last(run), s)
    ensures Guarded(run + [s])
  {
    hide GuardedTo;
    var run' := run + [s];
    forall k | 0 <= k < |run'| - 1 ensures GuardedTo(run'[k], run'[k + 1]) {
      if k < |run| - 1 { assert GuardedTo(run[k], run[k + 1]); }
    }
  }

  lemma QuietGuarded(a: System, b: System)
    requires QuietTo(a, b)
    ensures GuardedTo(a, b)
  {
    hide Enabled, Next;
    var e: Event :| Enabled(a, e) && b == Next(a, e) && !e.ReceiveAppendResp?;
    assert GuardedStep(a, e);
  }

  lemma StartBacked(n: nat, h: History)
    ensures CommitsBacked(Init(n), h)
  {
  }

  lemma {:induction false} RunBacked(n: nat, run: seq<System>, hs: seq<History>, k: nat)
    requires IsRun(n, run) && Guarded(run) && k < |run| == |hs|
    requires forall j | 0 <= j < |run| :: Inv(State(run[j], hs[j]))
    requires forall i, j | 0 <= i <= j < |run| :: Grows(hs[i], hs[j])
    ensures CommitsBacked(run[k], hs[k])
    ensures k > 0 ==> |run[k].servers| == |run[k - 1].servers| &&
                      forall i | 0 <= i < |run[k].servers| :: run[k - 1].servers[i].commit <= run[k].servers[i].commit
    decreases k
  {
    hide Inv, Backed, Next, Enabled, GuardedStep, Grows;
    if k == 0 {
      StartBacked(n, hs[0]);
    } else {
      RunBacked(n, run, hs, k - 1);
      assert GuardedTo(run[k - 1], run[k - 1 + 1]);
      var e :| Enabled(run[k - 1], e) && run[k] == Next(run[k - 1], e) && GuardedStep(run[k - 1], e);
      assert Inv(State(run[k - 1], hs[k - 1])) && Inv(State(run[k], hs[k])) && Grows(hs[k - 1], hs[k]);
      StepBacked(State(run[k - 1], hs[k - 1]), e, hs[k]);
    }
  }

  /**
    State Machine Safety: what any two servers have committed, at any two moments, one is a prefix of the other.
   */
  lemma StateMachineSafety(n: nat, run: seq<System>, j: nat, k: nat, a: nat, b: nat)
    requires IsRun(n, run) && Guarded(run) && j < |run| && k < |run| && a < |run[j].servers| && b < |run[k].servers|
    ensures var s, s' := run[j].servers[a], run[k].servers[b];
            && s.commit <= |s.log| && s'.commit <= |s'.log|
            && (s.log[..s.commit] <= s'.log[..s'.commit] || s'.log[..s'.commit] <= s.log[..s.commit])
  {
    hide Inv, Backed, Grows, IsRun;
    var hs := RunHistories(n, run);
    var last := |run| - 1;
    var s, s' := run[j].servers[a], run[k].servers[b];
    RunSize(n, run, j);
    RunSize(n, run, k);
    RunSize(n, run, last);
    RunBacked(n, run, hs, j);
    RunBacked(n, run, hs, k);
    assert ServerBacked(n, hs[j], s) && ServerBacked(n, hs[k], s');
    assert Grows(hs[j], hs[last]) && Grows(hs[k], hs[last]);
    StaysBacked(n, hs[j], hs[last], s, s);
    StaysBacked(n, hs[k], hs[last], s', s');
    BackedAgree(State(run[last], hs[last]), s.term, s.log, s.commit, s'.term, s'.log, s'.commit);
  }

  /** No server's commit index ever falls, and so no committed entry is rolled back. */
  lemma {:induction false} CommitNeverFalls(n: nat, run: seq<System>, j: nat, k: nat, i: nat)
    requires IsRun(n, run) && Guarded(run) && j <= k < |run| && i < |run[j].servers| && i < |run[k].servers|
    ensures run[j].servers[i].commit <= run[k].servers[i].commit
    ensures run[j].servers[i].commit <= |run[j].servers[i].log|
    ensures run[j].servers[i].log[..run[j].servers[i].commit] <= run[k].servers[i].log
    decreases k
  {
    hide IsRun, Guarded;
    StateMachineSafety(n, run, j, k, i, i);
    if j == k {
    } else {
      var hs := RunHistories(n, run);
      RunSize(n, run, k - 1);
      RunSize(n, run, k);
      RunBacked(n, run, hs, k);
      CommitNeverFalls(n, run, j, k - 1, i);
    }
  }
}
