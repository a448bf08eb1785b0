/**
  Catching up. A leader that sends from its next index for a follower and moves that index by the follower's
  responses brings any follower to its own log, and with a majority of them it commits all it has.
 */
module RaftProgress {
  import opened RaftHandlers
  import opened RaftProtocol
  import opened RaftHistory
  import RaftElection
  import opened RaftSteps
  import opened RaftSafety
  import CommitIndex
  import opened RaftCommit
  import opened RaftAgreement

  // ---------- One exchange ----------

  /** Entries of one term at one index have the same history. */
  ghost predicate Matching(log: seq<Entry>, full: seq<Entry>) {
    forall k | 0 <= k < |log| && k < |full| && log[k].term == full[k].term :: log[..k + 1] == full[..k + 1]
  }

  ghost predicate Positive(log: seq<Entry>) {
    forall k | 0 <= k < |log| :: log[k].term >= 1
  }

  /** A leader, one of its followers, and the leader's next index for it. */
  datatype Pair = Pair(leader: Server, follower: Server, next: nat)

  ghost predicate Ready(p: Pair, a: nat, j: nat) {
    var s, f := p.leader, p.follower;
    && a < |s.matched| && j < |s.matched| && a != j && s.role == Leader && s.precommit == |s.log|
    && f.term <= s.term && (f.term == s.term ==> f.role != Leader)
    && 1 <= p.next <= |s.log| + 1
    && Matching(f.log, s.log) && Positive(s.log)
  }

  /** The follower's log test at the next index. */
  ghost predicate Meets(p: Pair)
    requires p.next >= 1
  {
    LogOkay(p.follower.log, p.next - 1, TermForLog(p.leader.log, p.next - 1))
  }

  /** The request for `count` entries, the follower's handling, and the leader's handling of the response. */
  ghost function Exchange(p: Pair, a: nat, j: nat, count: nat): Pair
    requires Ready(p, a, j) && p.next - 1 + count <= |p.leader.log|
  {
    var out := HandleAppend(p.follower, j, AppendReqFor(p.leader, a, j, p.next - 1, count), false);
    Pair(HandleAppendResp(p.leader, a, out.reply.value), out.server, NextAfter(p.next, out.reply.value, true))
  }

  lemma PrefixMatching(full: seq<Entry>, n: nat)
    requires n <= |full|
    ensures Matching(full[..n], full)
  {
    forall k | 0 <= k < n && full[..n][k].term == full[k].term ensures full[..n][..k + 1] == full[..k + 1] { }
  }

  lemma MatchedFrom(log: seq<Entry>, full: seq<Entry>, prevIdx: nat, count: nat)
    requires Matching(log, full) && prevIdx + count <= |full| && prevIdx <= |log| && log[..prevIdx] == full[..prevIdx]
    ensures var m := MatchLen(log, prevIdx, full[prevIdx..prevIdx + count]);
            prevIdx + m <= |log| && log[..prevIdx + m] == full[..prevIdx + m]
  {
    hide MatchLen;
    var entries := full[prevIdx..prevIdx + count];
    var m := MatchLen(log, prevIdx, entries);
    if m > 0 { assert log[prevIdx + (m - 1)].term == entries[m - 1].term == full[prevIdx + m - 1].term; }
  }

  lemma Spliced(full: seq<Entry>, prevIdx: nat, count: nat, m: nat)
    requires prevIdx + count <= |full| && m <= count
    ensures full[..prevIdx + m] + full[prevIdx..prevIdx + count][m..] == full[..prevIdx + count]
  {
  }

  lemma AppendMatching(log: seq<Entry>, full: seq<Entry>, prevIdx: nat, count: nat)
    requires Matching(log, full) && prevIdx + count <= |full| && prevIdx <= |log| && log[..prevIdx] == full[..prevIdx]
    ensures var log' := AppendRule(log, prevIdx, full[prevIdx..prevIdx + count]);
            full[..prevIdx + count] <= log' && Matching(log', full)
  {
    hide MatchLen, Matching;
    var entries := full[prevIdx..prevIdx + count];
    var m := MatchLen(log, prevIdx, entries);
    MatchedFrom(log, full, prevIdx, count);
    if m < count {
      Spliced(full, prevIdx, count, m);
      PrefixMatching(full, prevIdx + count);
    } else {
      assert log[..prevIdx + count] == full[..prevIdx + count];
    }
  }

  /** A refusal moves the next index back by one, or at once to the end of the follower's log. */
  lemma RefusedOnce(p: Pair, a: nat, j: nat, count: nat)
    requires Ready(p, a, j) && p.next - 1 + count <= |p.leader.log| && !Meets(p)
    ensures var q := Exchange(p, a, j, count);
            && Ready(q, a, j) && q.leader == p.leader && q.follower.log == p.follower.log
            && q.next == Min(p.next - 1, |p.follower.log| + 1)
  {
    hide AppendRule, MatchLen, Matching;
  }

  /** What the leader keeps while it exchanges messages with follower j. */
  ghost predicate SameLeader(s: Server, s': Server, j: nat) {
    && s'.term == s.term && s'.role == s.role && s'.log == s.log && s'.precommit == s.precommit
    && |s'.matched| == |s.matched|
    && (forall k | 0 <= k < |s.matched| && k != j :: s'.matched[k] == s.matched[k])
    && s.commit <= s'.commit
  }

  /** The leader has counted follower j up to `idx`. */
  ghost predicate Counts(s: Server, a: nat, j: nat, idx: nat)
    requires a < |s.matched| && j < |s.matched|
  {
    s.matched[j] == idx && CommitIndex.Expected(MatchedIndexes(s, a)) <= s.commit
  }

  lemma Recorded(s: Server, a: nat, resp: Msg)
    requires resp.AppendResp? && resp.accepted && resp.term == s.term && resp.nextIdx >= 1
    requires a < |s.matched| && resp.src < |s.matched| && a != resp.src
    ensures var s' := HandleAppendResp(s, a, resp);
            && SameLeader(s, s', resp.src) && Counts(s', a, resp.src, resp.nextIdx - 1)
            && (s'.commit > s.commit ==> s'.commit == CommitIndex.Expected(MatchedIndexes(s', a)))
  {
    hide CommitIndex.Expected;
    var m := s.(matched := s.matched[resp.src := resp.nextIdx - 1]);
    assert MatchedIndexes(HandleAppendResp(s, a, resp), a) == MatchedIndexes(m, a);
  }

  /** A log that holds the leader's first entries passes the log test after them. */
  lemma MeetsAfter(log: seq<Entry>, full: seq<Entry>, idx: nat)
    requires idx <= |full| && full[..idx] <= log && Positive(full)
    ensures LogOkay(log, idx, TermForLog(full, idx))
  {
    if idx > 0 { assert log[idx - 1] == full[..idx][idx - 1]; }
  }

  /** A follower that passes the log test agrees with the leader up to there. */
  lemma MeetsBefore(log: seq<Entry>, full: seq<Entry>, idx: nat)
    requires Matching(log, full) && idx <= |full| && LogOkay(log, idx, TermForLog(full, idx))
    ensures idx <= |log| && log[..idx] == full[..idx]
  {
    if idx > 0 { assert log[idx - 1].term == full[idx - 1].term; }
  }

  /** An acceptance gives the follower the entries sent and moves the next index past them. */
  lemma AcceptedOnce(p: Pair, a: nat, j: nat, count: nat)
    requires Ready(p, a, j) && p.next - 1 + count <= |p.leader.log| && Meets(p)
    ensures var q := Exchange(p, a, j, count);
            && Ready(q, a, j) && q.next == p.next + count && Meets(q)
            && p.leader.log[..q.next - 1] <= q.follower.log && q.follower.term == p.leader.term
            && q.follower.commit >= Min(p.leader.commit, q.next - 1)
            && SameLeader(p.leader, q.leader, j) && Counts(q.leader, a, j, q.next - 1)
  {
    hide AppendRule, Matching, Positive, LogOkay, TermForLog, AppendReqFor, HandleAppend, HandleAppendResp, Counts;
    var s, f, prev := p.leader, p.follower, p.next - 1;
    MeetsBefore(f.log, s.log, prev);
    AppendMatching(f.log, s.log, prev, count);
    MeetsAfter(AppendRule(f.log, prev, s.log[prev..prev + count]), s.log, prev + count);
    Recorded(s, a, AppendResp(s.term, j, a, prev + count + 1, true));
    AcceptedReply(s, f, a, j, prev, count);
  }

  // ---------- Sound decisions ----------

  lemma PositiveLog(n: nat, run: seq<System>, a: nat)
    requires IsRun(n, run) && a < |Last(run).servers|
    ensures Positive(Last(run).servers[a].log)
    ensures Last(run).servers[a].role == Leader ==> Last(run).servers[a].precommit == |Last(run).servers[a].log|
  {
    var hs := RunHistories(n, run);
    var st := State(Last(run), hs[|hs| - 1]);
    ServerLogFacts(st, st.h, a);
    Parts(st);
    if st.sys.servers[a].role == Leader { LeaderFacts(st, a); }
    forall k | 0 <= k < |st.sys.servers[a].log| ensures st.sys.servers[a].log[k].term >= 1 {
      assert Anchored(st.h.reigns, st.sys.servers[a].log, k);
      assert ReignLogOk(st.h.reigns, st.sys.servers[a].log[k].term);
    }
  }

  /** What the leader has not committed is of its own term. */
  ghost predicate OwnTail(s: Server) {
    forall k | s.commit <= k < |s.log| :: s.log[k].term == s.term
  }

  /** All that leader a has recorded of the others was accepted in its term; what it has yet to commit is its own. */
  ghost predicate Current(sys: System, a: nat) {
    && a < |sys.servers| == |sys.servers[a].matched|
    && OwnTail(sys.servers[a])
    && forall v | 0 <= v < |sys.servers| && v != a :: RecordCurrent(sys, a, v)
  }

  ghost predicate RecordCurrent(sys: System, a: nat, v: nat)
    requires a < |sys.servers| && v < |sys.servers[a].matched|
  {
    var s := sys.servers[a];
    s.matched[v] == 0 || Accepts(sys, v, a, s.term, s.matched[v])
  }

  lemma AcceptsMore(sys: System, sys': System, v: nat, a: nat, t: nat, idx: nat, idx': nat)
    requires sys.net <= sys'.net && Accepts(sys, v, a, t, idx) && idx' <= idx
    ensures Accepts(sys', v, a, t, idx')
  {
    if v != a {
      var dst, next :| next > idx && AppendResp(t, v, dst, next, true) in sys.net;
      assert AppendResp(t, v, dst, next, true) in sys'.net;
    }
  }

  lemma CurrentStays(sys: System, sys': System, a: nat)
    requires Current(sys, a) && |sys'.servers| == |sys.servers| && sys'.servers[a] == sys.servers[a]
    requires sys.net <= sys'.net
    ensures Current(sys', a)
  {
    hide Accepts, OwnTail;
    forall v | 0 <= v < |sys.servers| && v != a ensures RecordCurrent(sys', a, v) {
      var s := sys.servers[a];
      assert RecordCurrent(sys, a, v);
      if s.matched[v] != 0 { AcceptsMore(sys, sys', v, a, s.term, s.matched[v], s.matched[v]); }
    }
  }

  /** Nobody accepts in a leader's term more than the leader has. */
  lemma AcceptedFits(n: nat, run: seq<System>, a: nat, v: nat, idx: nat)
    requires IsRun(n, run) && a < |Last(run).servers| && v != a && Last(run).servers[a].role == Leader
    requires Accepts(Last(run), v, a, Last(run).servers[a].term, idx)
    ensures idx <= |Last(run).servers[a].log|
  {
    var t := Last(run).servers[a].term;
    var hs := RunHistories(n, run);
    var st := State(Last(run), hs[|hs| - 1]);
    var dst, next :| next > idx && AppendResp(t, v, dst, next, true) in st.sys.net;
    LeaderFacts(st, a);
    RespFacts(st, AppendResp(t, v, dst, next, true));
    Parts(st);
    assert AckOk(st.sys.servers, st.h, (t, v));
  }

  /** A leader with current records that picks an index beyond `before` decides soundly. */
  lemma SoundNow(n: nat, run: seq<System>, a: nat, before: nat)
    requires IsRun(n, run) && Current(Last(run), a) && Last(run).servers[a].role == Leader
    requires var s := Last(run).servers[a];
             && s.commit == CommitIndex.Expected(MatchedIndexes(s, a)) && before < s.commit
             && forall k | before <= k < |s.log| :: s.log[k].term == s.term
    ensures Sound(Last(run), a)
  {
    hide StepTo, CommitIndex.Expected, MatchedIndexes, Accepts, OwnTail;
    var sys := Last(run);
    var s := sys.servers[a];
    var idx := s.commit;
    PositiveLog(n, run, a);
    CountedIsMajority(s, a);
    forall v | v in Counted(s, a, idx) ensures Accepts(sys, v, a, s.term, idx) && idx <= |s.log| {
      if v == a {
        LeaderAccepts(sys, a, s.term, idx);
      } else {
        assert RecordCurrent(sys, a, v);
        AcceptedFits(n, run, a, v, s.matched[v]);
        AcceptsMore(sys, sys, v, a, s.term, s.matched[v], idx);
      }
    }
    assert Counted(s, a, idx) != {};
    var v :| v in Counted(s, a, idx);
  }

  lemma LeaderAccepts(sys: System, a: nat, t: nat, idx: nat)
    ensures Accepts(sys, a, a, t, idx)
  {
  }

  lemma RecordedCurrent(sys: System, sys': System, a: nat, resp: Msg)
    requires Current(sys, a) && |sys'.servers| == |sys.servers| && sys'.net == sys.net && resp in sys.net
    requires resp.AppendResp? && resp.accepted && resp.nextIdx >= 1 && resp.src < |sys.servers| && resp.src != a
    requires resp.term == sys.servers[a].term && SameLeader(sys.servers[a], sys'.servers[a], resp.src)
    requires sys'.servers[a].matched[resp.src] == resp.nextIdx - 1
    ensures Current(sys', a)
  {
    var s, s' := sys.servers[a], sys'.servers[a];
    forall v | 0 <= v < |sys.servers| && v != a ensures RecordCurrent(sys', a, v) {
      assert RecordCurrent(sys, a, v);
      if v == resp.src {
        assert AppendResp(resp.term, v, resp.dst, resp.nextIdx, true) in sys'.net;
      } else if s.matched[v] != 0 {
        AcceptsMore(sys, sys', v, a, s.term, s.matched[v], s.matched[v]);
      }
    }
  }

  /** Handling a response of its own term, a leader with current records decides soundly and keeps them current. */
  lemma ReplyGuarded(n: nat, run: seq<System>, a: nat, resp: Msg)
    requires IsRun(n, run) && Guarded(run) && Current(Last(run), a) && Last(run).servers[a].role == Leader
    requires resp in Last(run).net && resp.AppendResp? && resp.dst == a && resp.term == Last(run).servers[a].term
    requires resp.src < |Last(run).servers| && resp.src != a
    requires IsRun(n, run + [Next(Last(run), ReceiveAppendResp(resp))])
    ensures var sys' := Next(Last(run), ReceiveAppendResp(resp)); Guarded(run + [sys']) && Current(sys', a)
  {
    hide StepTo, Guarded, RecordCurrent, CommitIndex.Expected, MatchedIndexes;
    var sys, e := Last(run), ReceiveAppendResp(resp);
    var sys' := Next(sys, e);
    var s, s' := sys.servers[a], sys'.servers[a];
    if !resp.accepted || resp.nextIdx == 0 {
      assert s' == s;
      CurrentStays(sys, sys', a);
    } else {
      Recorded(s, a, resp);
      RecordedCurrent(sys, sys', a, resp);
      if s'.commit > s.commit {
        assert OwnTail(s);
        SoundNow(n, run + [sys'], a, s.commit);
      }
    }
    assert GuardedStep(sys, e);
    GuardedMore(run, sys');
  }

  // ---------- Catching up ----------

  /** How many more exchanges it takes until the next index is at the end. */
  ghost function Left(p: Pair): nat
    requires 1 <= p.next <= |p.leader.log| + 1
  {
    if Meets(p) then |p.leader.log| + 1 - p.next else 1 + Min(p.next - 1, |p.follower.log| + 1) + |p.leader.log|
  }

  ghost function PairIn(sys: System, a: nat, j: nat, next: nat): Pair
    requires a < |sys.servers| && j < |sys.servers|
  {
    Pair(sys.servers[a], sys.servers[j], next)
  }

  /** Follower j has the leader's whole log and the leader has counted it; no other server has changed. */
  ghost predicate CaughtUp(servers: seq<Server>, servers': seq<Server>, a: nat, j: nat)
    requires a < |servers| && j < |servers|
  {
    && |servers'| == |servers|
    && SameLeader(servers[a], servers'[a], j)
    && a < |servers'[a].matched| && j < |servers'[a].matched| && Counts(servers'[a], a, j, |servers[a].log|)
    && servers[a].log <= servers'[j].log && servers'[j].term == servers[a].term
    && (forall k | 0 <= k < |servers| && k != a && k != j :: servers'[k] == servers[k])
  }

  /** If so far all decisions were sound and the leader's records are current, this stays so. */
  ghost predicate SoundTo(run: seq<System>, run': seq<System>, a: nat)
    requires run != [] && run' != []
  {
    Guarded(run) && Current(Last(run), a) ==> Guarded(run') && Current(Last(run'), a)
  }

  lemma TakeGuarded(run: seq<System>, run': seq<System>, a: nat)
    requires run != [] && run <= run' && |run'| == |run| + 2 && Guarded(run) && Current(Last(run), a)
    requires QuietTo(Last(run), run'[|run|]) && QuietTo(run'[|run|], Last(run'))
    requires |Last(run').servers| == |Last(run).servers| && Last(run').servers[a] == Last(run).servers[a]
    requires Last(run).net <= Last(run').net
    ensures Guarded(run') && Current(Last(run'), a)
  {
    hide QuietTo, GuardedTo, Guarded, RecordCurrent;
    var mid := run'[|run|];
    QuietGuarded(Last(run), mid);
    GuardedMore(run, mid);
    QuietGuarded(mid, Last(run'));
    GuardedMore(run + [mid], Last(run'));
    assert run' == run + [mid] + [Last(run')];
    CurrentStays(Last(run), Last(run'), a);
  }

  lemma ExchangeRuns(n: nat, run: seq<System>, a: nat, j: nat, next: nat, count: nat) returns (run': seq<System>)
    requires IsRun(n, run) && a < |Last(run).servers| && j < |Last(run).servers|
    requires Ready(PairIn(Last(run), a, j, next), a, j) && next - 1 + count <= |Last(run).servers[a].log|
    ensures IsRun(n, run') && run <= run' && |run'| == |run| + 3
    ensures var q := Exchange(PairIn(Last(run), a, j, next), a, j, count);
            Last(run').servers == Last(run).servers[a := q.leader][j := q.follower]
    ensures SoundTo(run, run', a)
  {
    hide StepTo, QuietTo, Matching, Positive, HandleAppendResp, LogOkay, AcceptAppend, Current, Guarded;
    var s, f := Last(run).servers[a], Last(run).servers[j];
    var out := HandleAppend(f, j, AppendReqFor(s, a, j, next - 1, count), false);
    var resp := out.reply.value;
    assert resp.AppendResp? && resp.dst == a && resp.src == j && resp.term == s.term;
    hide HandleAppend;
    var taken := Take(n, run, a, j, next - 1, count);
    run' := Reply(n, taken, a, resp);
    hide Next;
    if Guarded(run) && Current(Last(run), a) {
      TakeGuarded(run, taken, a);
      ReplyGuarded(n, taken, a, resp);
    }
  }

  lemma ChangedTwice(servers: seq<Server>, a: nat, j: nat, s: Server, f: Server, servers': seq<Server>)
    requires a < |servers| && j < |servers| && a != j && SameLeader(servers[a], s, j) && s.log == servers[a].log
    requires CaughtUp(servers[a := s][j := f], servers', a, j)
    ensures CaughtUp(servers, servers', a, j)
  {
    hide Counts;
  }

  /** Exchanges with slices of any sizes end with the follower at the leader's log, after a bounded number. */
  lemma {:induction false} CatchUp(n: nat, run: seq<System>, a: nat, j: nat, next: nat, counts: seq<nat>)
    returns (run': seq<System>)
    requires IsRun(n, run) && a < |Last(run).servers| && j < |Last(run).servers|
    requires Ready(PairIn(Last(run), a, j, next), a, j) && |counts| > Left(PairIn(Last(run), a, j, next))
    requires forall i | 0 <= i < |counts| :: counts[i] >= 1
    ensures IsRun(n, run') && run <= run' && |run'| <= |run| + 3 * (Left(PairIn(Last(run), a, j, next)) + 1)
    ensures CaughtUp(Last(run).servers, Last(run').servers, a, j) && SoundTo(run, run', a)
    decreases |counts|
  {
    hide StepTo, Matching, Positive, Exchange, Meets, Counts, Guarded, Current;
    var p := PairIn(Last(run), a, j, next);
    var count := Min(counts[0], |p.leader.log| + 1 - next);
    var q := Exchange(p, a, j, count);
    run' := ExchangeRuns(n, run, a, j, next, count);
    if Meets(p) { AcceptedOnce(p, a, j, count); } else { RefusedOnce(p, a, j, count); }
    assert PairIn(Last(run'), a, j, q.next) == q;
    if !(Meets(p) && q.next == |p.leader.log| + 1) {
      run' := CatchUp(n, run', a, j, q.next, counts[1..]);
      ChangedTwice(Last(run).servers, a, j, q.leader, q.follower, Last(run').servers);
    }
  }

  /** In every run, a leader is ready for exchanges with each server of a term not above its own. */
  lemma ReadyAlways(n: nat, run: seq<System>, a: nat, j: nat, next: nat)
    requires IsRun(n, run) && a < |Last(run).servers| && j < |Last(run).servers| && a != j
    requires var s := Last(run).servers[a];
             s.role == Leader && Last(run).servers[j].term <= s.term && 1 <= next <= |s.log| + 1
    ensures Ready(PairIn(Last(run), a, j, next), a, j)
  {
    hide Positive, StepTo;
    var last, s, f := |run| - 1, Last(run).servers[a], Last(run).servers[j];
    if f.term == s.term && f.role == Leader {
      ElectionSafety(n, run, last, last, a, j, s.term);
    }
    PositiveLog(n, run, a);
    RunSize(n, run, last);
    RecordSize(n, run, last, a);
    forall k | 0 <= k < |f.log| && k < |s.log| && f.log[k].term == s.log[k].term
      ensures f.log[..k + 1] == s.log[..k + 1]
    {
      LogMatching(n, run, last, last, j, a, k + 1);
    }
  }

  /** From every reachable state, a leader can bring any server of a term not above its own to its whole log. */
  lemma FollowerCatchesUp(n: nat, run: seq<System>, a: nat, j: nat, next: nat, counts: seq<nat>)
    returns (run': seq<System>)
    requires IsRun(n, run) && a < |Last(run).servers| && j < |Last(run).servers| && a != j
    requires var s := Last(run).servers[a];
             && s.role == Leader && Last(run).servers[j].term <= s.term
             && 1 <= next <= |s.log| + 1 && |counts| > next + |s.log| + 1
    requires forall i | 0 <= i < |counts| :: counts[i] >= 1
    ensures IsRun(n, run') && run <= run'
    ensures var log, log' := Last(run).servers[a].log, Last(run).servers[j].log;
            |run'| <= |run| + 3 * (Min(next - 1, |log'| + 1) + |log| + 2)
    ensures CaughtUp(Last(run).servers, Last(run').servers, a, j) && SoundTo(run, run', a)
  {
    hide StepTo, Ready, Meets, CaughtUp, SoundTo;
    ReadyAlways(n, run, a, j, next);
    run' := CatchUp(n, run, a, j, next, counts);
  }

  // ---------- Committing ----------

  ghost predicate Followers(servers: seq<Server>, a: nat, js: seq<nat>) {
    && a < |servers| && servers[a].role == Leader
    && (forall i | 0 <= i < |js| :: js[i] < |servers| && js[i] != a && servers[js[i]].term <= servers[a].term)
    && (forall i, k | 0 <= i < k < |js| :: js[i] != js[k])
  }

  /** All the followers have the leader's log and are counted for it. */
  ghost predicate AllCaughtUp(servers: seq<Server>, servers': seq<Server>, a: nat, js: seq<nat>)
    requires Followers(servers, a, js)
  {
    && |servers'| == |servers|
    && var s, s' := servers[a], servers'[a];
       && s'.term == s.term && s'.role == s.role && s'.log == s.log && s'.precommit == s.precommit
       && |s'.matched| == |s.matched|
       && (forall i | 0 <= i < |js| :: js[i] < |s'.matched| && s'.matched[js[i]] == |s.log|)
       && (forall i | 0 <= i < |js| :: s.log <= servers'[js[i]].log && servers'[js[i]].term == s.term)
       && (forall k | 0 <= k < |servers| && k != a && k !in js :: servers'[k] == servers[k])
       && (js != [] ==> a < |s'.matched| && CommitIndex.Expected(MatchedIndexes(s', a)) <= s'.commit)
  }

  lemma OneMoreCaughtUp(servers: seq<Server>, mid: seq<Server>, servers': seq<Server>, a: nat, js: seq<nat>)
    requires js != [] && Followers(servers, a, js) && Followers(servers, a, js[..|js| - 1])
    requires AllCaughtUp(servers, mid, a, js[..|js| - 1]) && CaughtUp(mid, servers', a, js[|js| - 1])
    ensures AllCaughtUp(servers, servers', a, js)
  {
    hide CommitIndex.Expected, MatchedIndexes;
    var j, front := js[|js| - 1], js[..|js| - 1];
    forall i | 0 <= i < |js|
      ensures servers'[a].matched[js[i]] == |servers[a].log| && servers[a].log <= servers'[js[i]].log
      ensures servers'[js[i]].term == servers[a].term
    {
      assert i < |js| - 1 ==> js[i] == front[i] && js[i] != j;
    }
  }

  lemma {:induction false} AllCatchUp(n: nat, run: seq<System>, a: nat, js: seq<nat>, nexts: seq<nat>, counts: seq<nat>)
    returns (run': seq<System>)
    requires IsRun(n, run) && Followers(Last(run).servers, a, js) && |nexts| == |js|
    requires forall i | 0 <= i < |nexts| :: 1 <= nexts[i] <= |Last(run).servers[a].log| + 1
    requires |counts| > 2 * |Last(run).servers[a].log| + 2 && forall i | 0 <= i < |counts| :: counts[i] >= 1
    ensures IsRun(n, run') && run <= run' && AllCaughtUp(Last(run).servers, Last(run').servers, a, js)
    ensures SoundTo(run, run', a)
    decreases |js|
  {
    hide StepTo, CaughtUp, Guarded, Current;
    if js == [] {
      run' := run;
    } else {
      var k := |js| - 1;
      assert Followers(Last(run).servers, a, js[..k]);
      var mid := AllCatchUp(n, run, a, js[..k], nexts[..k], counts);
      assert js[k] !in js[..k];
      run' := FollowerCatchesUp(n, mid, a, js[k], nexts[k], counts);
      OneMoreCaughtUp(Last(run).servers, Last(mid).servers, Last(run').servers, a, js);
    }
  }

  lemma {:induction false} DistinctSize(a: nat, js: seq<nat>) returns (q: set<nat>)
    requires (forall i | 0 <= i < |js| :: js[i] != a) && (forall i, k | 0 <= i < k < |js| :: js[i] != js[k])
    ensures |q| == |js| + 1 && forall x :: x in q <==> x == a || x in js
    decreases |js|
  {
    if js == [] {
      q := {a};
    } else {
      var k := |js| - 1;
      var rest := DistinctSize(a, js[..k]);
      q := rest + {js[k]};
      assert js == js[..k] + [js[k]];
    }
  }

  /** An index held by a majority of the records is at most the chosen one. */
  lemma CountedChosen(s: Server, a: nat, js: seq<nat>, idx: nat)
    requires a < |s.matched| && s.precommit >= idx && |js| + 1 > |s.matched| / 2
    requires (forall i | 0 <= i < |js| :: js[i] != a) && (forall i, k | 0 <= i < k < |js| :: js[i] != js[k])
    requires forall i | 0 <= i < |js| :: js[i] < |s.matched| && s.matched[js[i]] >= idx
    ensures idx <= CommitIndex.Expected(MatchedIndexes(s, a))
  {
    hide CommitIndex.Expected;
    var q := DistinctSize(a, js);
    assert q <= Counted(s, a, idx);
    RaftElection.SubsetSize(q, Counted(s, a, idx));
    CommitIndex.ReachingSize(s.matched[a := s.precommit], idx);
    CommitIndex.CountMoved(s.matched, a, s.precommit, idx);
    CommitIndex.ExpectedIsMajority(MatchedIndexes(s, a), idx);
  }

  /**
    From every reachable state, a leader and enough servers of terms not above its own to make a majority can
    go on so that the leader commits its whole log and each of them holds it. Every decision on the way is sound
    if those before were and the leader's records are current.
   */
  lemma LeaderCommits(n: nat, run: seq<System>, a: nat, js: seq<nat>, nexts: seq<nat>, counts: seq<nat>)
    returns (run': seq<System>)
    requires n >= 2 && IsRun(n, run) && Followers(Last(run).servers, a, js) && |js| + 1 > n / 2 && |nexts| == |js|
    requires forall i | 0 <= i < |nexts| :: 1 <= nexts[i] <= |Last(run).servers[a].log| + 1
    requires |counts| > 2 * |Last(run).servers[a].log| + 2 && forall i | 0 <= i < |counts| :: counts[i] >= 1
    ensures IsRun(n, run') && run <= run' && a < |Last(run').servers| == |Last(run).servers|
    ensures var s, s' := Last(run).servers[a], Last(run').servers[a];
            && s'.role == Leader && s'.term == s.term && s'.log == s.log && s'.commit >= |s.log|
            && forall i | 0 <= i < |js| :: s.log <= Last(run').servers[js[i]].log
    ensures Guarded(run) && Current(Last(run), a) ==> Guarded(run')
    ensures Followers(Last(run').servers, a, js)
  {
    hide StepTo, Guarded, Current;
    run' := AllCatchUp(n, run, a, js, nexts, counts);
    PositiveLog(n, run, a);
    RunSize(n, run, |run| - 1);
    RecordSize(n, run, |run| - 1, a);
    hide CommitIndex.Expected, MatchedIndexes;
    CountedChosen(Last(run').servers[a], a, js, |Last(run).servers[a].log|);
  }

  lemma FirstRound() returns (run: seq<System>)
    ensures IsRun(3, run) && Guarded(run)
    ensures var servers := Init(3).servers;
            |servers| == 3 && Last(run).servers ==
            servers[1 := UpdateTerm(servers[1], 1).(votedFor := 0)][0 := Elected(servers[0], 0, 1, 2, "A")]
  {
    hide StepTo, QuietTo, GuardedTo, UpToDate, Elected, UpdateTerm;
    assert UpToDate(LastTerm(Init(3).servers[0].log), 0, Init(3).servers[1].log) by { EmptyUpToDate(); }
    var s1, s2, s3 := Round(Init(3), 0, 1, 1, "A");
    QuietGuarded(Init(3), s1);
    QuietGuarded(s1, s2);
    QuietGuarded(s2, s3);
    GuardedMore([Init(3)], s1);
    GuardedMore([Init(3)] + [s1], s2);
    GuardedMore([Init(3)] + [s1] + [s2], s3);
    run := ThreeMore(3, [Init(3)], s1, s2, s3);
    assert run == [Init(3)] + [s1] + [s2] + [s3];
  }

  lemma EmptyUpToDate()
    ensures UpToDate(LastTerm([]), 0, [])
  {
  }

  /** Three servers elect their first leader. */
  lemma FirstElection() returns (run: seq<System>)
    ensures IsRun(3, run) && Guarded(run) && Current(Last(run), 0)
    ensures var servers := Last(run).servers;
            Followers(servers, 0, [1]) && |servers[0].log| == 1 && servers[0].commit == 0
  {
    run := FirstRound();
    hide IsRun, Guarded, Accepts;
  }

  /** A run with sound decisions in which an entry is committed. */
  lemma SoundRunCommits() returns (run: seq<System>)
    ensures IsRun(3, run) && Guarded(run) && |run| > 0 && |Last(run).servers| == 3 && Last(run).servers[0].commit >= 1
  {
    hide Guarded, Current, Followers;
    var elected := FirstElection();
    RunSize(3, elected, |elected| - 1);
    run := LeaderCommits(3, elected, 0, [1], [1], [1, 1, 1, 1, 1]);
  }
}
