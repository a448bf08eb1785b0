/** The server as the source writes it: fields and a log store changed in place. Each handler refines its function. */
module RaftServer {
  import opened Wrappers
  import CommitIndex
  import opened RaftHandlers
  import LogStore
  import RaftProtocol

  datatype CliResult = Appended | NotLeader | TermMismatch

  // ---------- The append rule, step by step ----------

  ghost predicate SameTerm(log: seq<Entry>, prevIdx: nat, entries: seq<Entry>, i: nat) {
    i < |entries| && prevIdx + i < |log| && log[prevIdx + i].term == entries[i].term
  }

  /** The entries match up to the first that does not. */
  lemma {:induction false} MatchLenIs(log: seq<Entry>, prevIdx: nat, entries: seq<Entry>, cnt: nat)
    requires prevIdx <= |log| && cnt <= |entries|
    requires forall i: nat | i < cnt :: SameTerm(log, prevIdx, entries, i)
    requires cnt == |entries| || !SameTerm(log, prevIdx, entries, cnt)
    ensures MatchLen(log, prevIdx, entries) == cnt
    decreases cnt
  {
    if cnt == 0 {
    } else {
      assert SameTerm(log, prevIdx, entries, 0);
      var next, rest := prevIdx + 1, entries[1..];
      forall i: nat | i < cnt - 1 ensures SameTerm(log, next, rest, i) {
        assert SameTerm(log, prevIdx, entries, i + 1);
      }
      MatchLenIs(log, next, rest, cnt - 1);
    }
  }

  lemma OneMore(kept: seq<Entry>, entries: seq<Entry>, first: nat, cnt: nat)
    requires first <= cnt < |entries|
    ensures kept + entries[first..cnt] + [entries[cnt]] == kept + entries[first..cnt + 1]
  {
  }

  lemma VoteReqsNext(s: Server, id: nat, v: nat)
    ensures RaftProtocol.VoteReqs(s, id, v + 1) ==
            RaftProtocol.VoteReqs(s, id, v) +
            (if v != id then {VoteReq(s.term, id, v, LastTerm(s.log), |s.log|)} else {})
  {
    var m := VoteReq(s.term, id, v, LastTerm(s.log), |s.log|);
    if v != id { assert m in RaftProtocol.VoteReqs(s, id, v + 1); }
    forall x | x in RaftProtocol.VoteReqs(s, id, v) ensures x in RaftProtocol.VoteReqs(s, id, v + 1) {
      assert x == VoteReq(s.term, id, x.dst, LastTerm(s.log), |s.log|);
    }
  }

  /** Handling the same entries again changes nothing. */
  lemma AppendTwice(log: seq<Entry>, prevIdx: nat, entries: seq<Entry>)
    requires prevIdx <= |log|
    ensures var log' := AppendRule(log, prevIdx, entries);
            && prevIdx + |entries| <= |log'| && MatchLen(log', prevIdx, entries) == |entries|
            && AppendRule(log', prevIdx, entries) == log'
  {
    var m, log' := MatchLen(log, prevIdx, entries), AppendRule(log, prevIdx, entries);
    forall i: nat | i < |entries| ensures SameTerm(log', prevIdx, entries, i) {
      assert if i < m then log'[prevIdx + i] == log[prevIdx + i] else log'[prevIdx + i] == entries[i];
    }
    MatchLenIs(log', prevIdx, entries, |entries|);
  }

  /** Entries that match by term are kept, and so is all before them. */
  lemma AppendKeepsMatching(log: seq<Entry>, prevIdx: nat, entries: seq<Entry>, k: nat)
    requires prevIdx <= |log| && k < |log|
    requires k < prevIdx + MatchLen(log, prevIdx, entries)
    ensures k < |AppendRule(log, prevIdx, entries)| && AppendRule(log, prevIdx, entries)[k] == log[k]
  {
  }

  /** Accepting the same request twice equals accepting it once. */
  lemma AcceptTwice(s: Server, req: Msg)
    requires req.AppendReq? && req.prevIdx <= |s.log|
    ensures req.prevIdx <= |AcceptAppend(s, req).log|
    ensures AcceptAppend(AcceptAppend(s, req), req) == AcceptAppend(s, req)
  {
    AppendTwice(s.log, req.prevIdx, req.entries);
  }

  lemma AcceptParts(s: Server, req: Msg)
    requires req.AppendReq? && req.prevIdx <= |s.log|
    ensures var m, end := MatchLen(s.log, req.prevIdx, req.entries), req.prevIdx + |req.entries|;
            var back := m < |req.entries| && req.prevIdx + m < |s.log|;
            var commit := if back then Min(s.commit, req.prevIdx + m) else s.commit;
            AcceptAppend(s, req) ==
            s.(log := if m == |req.entries| then s.log else s.log[..req.prevIdx + m] + req.entries[m..],
               precommit := Max(s.precommit, end), commit := Max(commit, Min(req.commitIdx, end)))
  {
    hide MatchLen;
  }

  /** The server after the term and role part of append handling. */
  ghost function Followed(s: Server, reqTerm: nat): Server {
    var u := UpdateTerm(s, reqTerm);
    if reqTerm == u.term && u.role == Candidate then u.(role := Follower) else u
  }

  lemma HandleAppendCases(s: Server, id: nat, req: Msg, decline: bool)
    requires req.AppendReq?
    ensures var f := Followed(s, req.term);
            HandleAppend(s, id, req, decline) ==
            if req.term == f.term && f.role == Leader then Output(f, None)
            else if req.term < f.term || !LogOkay(f.log, req.prevIdx, req.prevTerm) || decline then
              Output(f, Some(AppendResp(f.term, id, req.src, |f.log| + 1, false)))
            else
              Output(AcceptAppend(f, req), Some(AppendResp(f.term, id, req.src, req.prevIdx + |req.entries| + 1, true)))
    ensures Followed(s, req.term).term >= req.term
  {
  }

  /** The entry before the request's entries survives, so the log test passes again. */
  lemma LogOkayAgain(log: seq<Entry>, prevIdx: nat, prevTerm: nat, entries: seq<Entry>)
    requires LogOkay(log, prevIdx, prevTerm)
    ensures LogOkay(AppendRule(log, prevIdx, entries), prevIdx, prevTerm)
  {
    hide MatchLen;
    if prevIdx > 0 { assert AppendRule(log, prevIdx, entries)[prevIdx - 1] == log[prevIdx - 1]; }
  }

  /** The term and role part changes nothing the second time, nor for a server that only differs in its log. */
  lemma FollowedAgain(s: Server, reqTerm: nat, g: Server)
    requires g.term == Followed(s, reqTerm).term && g.role == Followed(s, reqTerm).role
    ensures Followed(g, reqTerm) == g
  {
  }

  lemma AcceptParty(f: Server, req: Msg)
    requires req.AppendReq? && req.prevIdx <= |f.log|
    ensures var g := AcceptAppend(f, req);
            g.term == f.term && g.role == f.role && g.log == AppendRule(f.log, req.prevIdx, req.entries)
  {
    hide AppendRule, MatchLen;
  }

  /** Handling the same append request again changes nothing and gives the same reply, whatever the reply was. */
  lemma HandledTwice(s: Server, id: nat, req: Msg, decline: bool)
    requires req.AppendReq?
    ensures var out := HandleAppend(s, id, req, decline);
            HandleAppend(out.server, id, req, decline) == out
  {
    hide AcceptAppend, AppendRule, HandleAppend, LogOkay, Followed;
    var f, out := Followed(s, req.term), HandleAppend(s, id, req, decline);
    HandleAppendCases(s, id, req, decline);
    HandleAppendCases(out.server, id, req, decline);
    if out.reply.Some? && out.reply.value.accepted {
      LogOkayAgain(f.log, req.prevIdx, req.prevTerm, req.entries);
      AcceptTwice(f, req);
      AcceptParty(f, req);
    }
    FollowedAgain(s, req.term, out.server);
  }

  // ---------- What a handler does, in terms of the fields ----------

  /** The entry before the request's entries is there, with the request's term. */
  ghost predicate Joins(log: seq<Entry>, prevIdx: nat, prevTerm: nat) {
    prevIdx == 0 || (prevIdx <= |log| && log[prevIdx - 1].term == prevTerm != 0)
  }

  /** The entries stand after the previous index: kept up to the first of another term, all new from there on. */
  ghost predicate Takes(log: seq<Entry>, log': seq<Entry>, prevIdx: nat, entries: seq<Entry>)
    requires prevIdx <= |log|
  {
    var end := prevIdx + |entries|;
    && end <= |log'| && log'[..prevIdx] == log[..prevIdx]
    && (forall i | 0 <= i < |entries| :: log'[prevIdx + i].term == entries[i].term)
    && (log' == log || (|log'| == end && exists m: nat :: CutAt(log, log', prevIdx, entries, m)))
  }

  /** The first entry of another term, or past the end, is number m. */
  ghost predicate CutAt(log: seq<Entry>, log': seq<Entry>, prevIdx: nat, entries: seq<Entry>, m: nat)
    requires prevIdx <= |log|
  {
    && m < |entries| && prevIdx + m <= |log| && |log'| == prevIdx + |entries|
    && (prevIdx + m < |log| ==> log[prevIdx + m].term != entries[m].term)
    && log'[..prevIdx + m] == log[..prevIdx + m]
    && (forall i | m <= i < |entries| :: log'[prevIdx + i] == entries[i])
  }

  /** The server takes a higher term as a follower without a vote. */
  ghost predicate TakesTerm(s: Server, s': Server, t: nat) {
    && s'.log == s.log && s'.commit == s.commit && s'.precommit == s.precommit && s'.matched == s.matched
    && if t > s.term then s'.term == t && s'.role == Follower && s'.votedFor == -1 && !s'.electionDone
       else s'.term == s.term && s'.votedFor == s.votedFor && s'.electionDone == s.electionDone
  }

  /** An append request is refused: only term and role may change, and the reply gives the end of the log. */
  ghost predicate Refuses(s: Server, s': Server, id: nat, req: Msg, reply: Option<Msg>)
    requires req.AppendReq?
  {
    && TakesTerm(s, s', req.term)
    && s'.role == (if req.term >= s.term then Follower else s.role)
    && reply == Some(AppendResp(s'.term, id, req.src, |s.log| + 1, false))
  }

  /** It is accepted: the entries are taken and the commit index follows the leader's as far as they go. */
  ghost predicate Accepts(s: Server, s': Server, id: nat, req: Msg, reply: Option<Msg>)
    requires req.AppendReq?
  {
    var end := req.prevIdx + |req.entries|;
    && s'.term == req.term && s'.role == Follower && s'.matched == s.matched
    && req.prevIdx <= |s.log| && Takes(s.log, s'.log, req.prevIdx, req.entries)
    && s'.precommit == (if s.precommit > end then s.precommit else end)
    && s'.commit >= (if req.commitIdx < end then req.commitIdx else end)
    && (s.log <= s'.log ==> s'.commit >= s.commit)
    && (s'.commit <= s.commit || s'.commit <= req.commitIdx) && (s'.commit <= s.commit || s'.commit <= end)
    && reply == Some(AppendResp(req.term, id, req.src, end + 1, true))
  }

  /** All that handling an append request may do. */
  ghost predicate AppendHandled(s: Server, s': Server, id: nat, req: Msg, decline: bool, reply: Option<Msg>)
    requires req.AppendReq?
  {
    if req.term == s.term && s.role == Leader then s' == s && reply == None
    else if req.term < s.term || decline || !Joins(s.log, req.prevIdx, req.prevTerm) then Refuses(s, s', id, req, reply)
    else Accepts(s, s', id, req, reply)
  }

  lemma TakesByRule(log: seq<Entry>, prevIdx: nat, entries: seq<Entry>)
    requires prevIdx <= |log|
    ensures Takes(log, AppendRule(log, prevIdx, entries), prevIdx, entries)
  {
    var m, log' := MatchLen(log, prevIdx, entries), AppendRule(log, prevIdx, entries);
    hide MatchLen;
    if m < |entries| {
      assert CutAt(log, log', prevIdx, entries, m);
    }
  }

  lemma AcceptedMeans(f: Server, id: nat, req: Msg)
    requires req.AppendReq? && req.prevIdx <= |f.log| && f.term == req.term && f.role == Follower
    ensures Accepts(f, AcceptAppend(f, req), id, req,
                    Some(AppendResp(req.term, id, req.src, req.prevIdx + |req.entries| + 1, true)))
  {
    TakesByRule(f.log, req.prevIdx, req.entries);
    KeptNotCut(f.log, req.prevIdx, req.entries);
    hide MatchLen, AppendRule, Takes;
  }

  /** Nothing is cut from a log that is only extended. */
  lemma KeptNotCut(log: seq<Entry>, prevIdx: nat, entries: seq<Entry>)
    requires prevIdx <= |log|
    ensures var m := MatchLen(log, prevIdx, entries);
            log <= AppendRule(log, prevIdx, entries) ==> m == |entries| || prevIdx + m >= |log|
  {
    var m, log' := MatchLen(log, prevIdx, entries), AppendRule(log, prevIdx, entries);
    hide MatchLen;
    if m < |entries| && prevIdx + m < |log| {
      assert log'[prevIdx + m] == entries[m];
    }
  }

  lemma FollowedMeans(s: Server, t: nat)
    ensures var f := Followed(s, t);
            && TakesTerm(s, f, t)
            && f.role == (if t > s.term || (t == s.term && s.role != Leader) then Follower else s.role)
            && (t <= s.term && !(t == s.term && s.role == Candidate) ==> f == s)
  {
  }

  lemma JoinsMeans(log: seq<Entry>, prevIdx: nat, prevTerm: nat)
    ensures LogOkay(log, prevIdx, prevTerm) <==> Joins(log, prevIdx, prevTerm)
  {
  }

  /** Handling an append request does exactly that. */
  lemma AppendHandledMeans(s: Server, id: nat, req: Msg, decline: bool)
    requires req.AppendReq?
    ensures var out := HandleAppend(s, id, req, decline);
            AppendHandled(s, out.server, id, req, decline, out.reply)
  {
    hide HandleAppend, AcceptAppend, Takes, Followed, LogOkay, Joins;
    HandleAppendCases(s, id, req, decline);
    var f := Followed(s, req.term);
    FollowedMeans(s, req.term);
    JoinsMeans(f.log, req.prevIdx, req.prevTerm);
    if LogOkay(f.log, req.prevIdx, req.prevTerm) && f.term == req.term && f.role == Follower {
      AcceptedMeans(f, id, req);
    }
  }

  /** A vote response counts only in its own term and before the election is over; a majority makes a leader. */
  ghost predicate VoteCounted(s: Server, s': Server, n: nat, resp: Msg, config: string)
    requires resp.VoteResp?
  {
    var votes := s.granted + if resp.granted then 1 else 0;
    if resp.term > s.term || resp.term < s.term || s.electionDone then TakesTerm(s, s', resp.term)
    else
      && s'.term == s.term && s'.votedFor == s.votedFor && s'.granted == votes && s'.responded == s.responded + 1
      && (s'.electionDone <==> s'.responded >= n || 2 * votes > n)
      && if 2 * votes > n then s'.role == Leader && s'.log == s.log + [Entry(s.term, true, config)]
         else s'.role == s.role && s'.log == s.log
  }

  lemma VoteCountedMeans(s: Server, n: nat, resp: Msg, config: string)
    requires resp.VoteResp?
    ensures VoteCounted(s, RaftHandlers.HandleVoteResp(s, n, resp, config), n, resp, config)
  {
  }

  // ---------- Votes ----------

  /** The last entry of the log is not ahead of a last entry of the given term at the given index. */
  ghost predicate NotAhead(log: seq<Entry>, lastTerm: nat, lastIdx: nat) {
    || log == []
    || log[|log| - 1].term < lastTerm
    || (log[|log| - 1].term == lastTerm && |log| <= lastIdx)
  }

  // ---------- What a leader knows of each peer ----------

  /** The records before position i, without the leader's own place. */
  ghost function Others(matched: seq<nat>, id: nat, i: nat): seq<nat>
    requires i <= |matched|
  {
    if i <= id then matched[..i] else matched[..id] + matched[id + 1..i]
  }

  lemma OthersNext(matched: seq<nat>, id: nat, i: nat)
    requires i < |matched|
    ensures Others(matched, id, i + 1) == Others(matched, id, i) + if i == id then [] else [matched[i]]
  {
    if i > id {
      assert matched[id + 1..i + 1] == matched[id + 1..i] + [matched[i]];
    }
  }

  /** The index to send from, the peer's size hint, the last index sent from and how often it was sent again. */
  datatype Progress = Progress(next: nat, hint: int, lastSent: nat, notApplied: nat)

  ghost predicate Restarted(before: seq<Progress>, after: seq<Progress>, next: nat) {
    |after| == |before| && forall i | 0 <= i < |after| :: after[i] == before[i].(next := next)
  }

  function From(p: Progress, precommit: nat): (from: nat)
    ensures from >= 1
  {
    if p.next == 0 then precommit + 1 else p.next
  }

  /** A request that starts where the last one did, with more than one entry to send. */
  predicate IsRetry(p: Progress, precommit: nat, maxAppend: nat) {
    var from := From(p, precommit);
    from == p.lastSent && from + 1 < Min(precommit + 1, from + maxAppend)
  }

  /** The end of the slice: at most `maxAppend` entries, and only one from the fifth retry on. */
  function EndOf(p: Progress, precommit: nat, maxAppend: nat): (end: nat)
    requires From(p, precommit) <= precommit + 1
    ensures From(p, precommit) <= end <= precommit + 1
  {
    var from := From(p, precommit);
    Min(precommit + 1, from + if IsRetry(p, precommit, maxAppend) && p.notApplied + 1 >= 5 then 1 else maxAppend)
  }

  function Sent(p: Progress, precommit: nat, maxAppend: nat): Progress {
    var from := From(p, precommit);
    p.(next := from, lastSent := from, notApplied := if IsRetry(p, precommit, maxAppend) then p.notApplied + 1 else 0)
  }

  /** A peer's progress after sending to it a number of times with no response. */
  function Resent(p: Progress, precommit: nat, maxAppend: nat, times: nat): Progress {
    if times == 0 then p else Sent(Resent(p, precommit, maxAppend, times - 1), precommit, maxAppend)
  }

  /** From the sixth request on that starts at one index, only one entry is sent; before, as many as may be. */
  lemma {:induction false} RetriesNarrow(p: Progress, precommit: nat, maxAppend: nat, times: nat)
    requires 0 < p.next != p.lastSent && p.next + 1 <= precommit && maxAppend >= 2
    ensures var q := Resent(p, precommit, maxAppend, times);
            && q.next == p.next && q.hint == p.hint
            && (times > 0 ==> q.lastSent == p.next && q.notApplied == times - 1)
            && EndOf(q, precommit, maxAppend) - p.next ==
               if times >= 5 then 1 else Min(maxAppend, precommit + 1 - p.next)
  {
    if times == 0 {
    } else {
      RetriesNarrow(p, precommit, maxAppend, times - 1);
    }
  }

  class RaftServer {
    const id: nat
    const n: nat
    const store: LogStore.Store
    var term: nat
    var votedFor: int
    var role: Role
    var votesGranted: nat
    var votesResponded: nat
    var electionCompleted: bool
    var precommitIndex: nat
    var quickCommitIndex: nat
    var smCommitIndex: nat
    var matched: seq<nat>
    var peers: seq<Progress>

    ghost predicate Valid()
      reads this, store
    {
      && store.Valid() && store.startIdx == 1 && store.Dummy().term == 0
      && |matched| == n && |peers| == n
    }

    /** The server as a value. */
    ghost function View(): Server
      reads this, store
      requires Valid()
    {
      Server(term, votedFor, role, store.Contents(), votesGranted, votesResponded, electionCompleted,
             precommitIndex, quickCommitIndex, matched)
    }

    constructor (id: nat, n: nat)
      ensures Valid() && fresh(store) && View() == InitServer(n) && this.id == id && this.n == n
    {
      this.id, this.n := id, n;
      store := new LogStore.Store();
      term, votedFor, role := 0, -1, Follower;
      votesGranted, votesResponded, electionCompleted := 0, 0, false;
      precommitIndex, quickCommitIndex, smCommitIndex := 0, 0, 0;
      matched := seq(n, _ => 0);
      peers := seq(n, _ => Progress(0, 0, 0, 0));
    }

    method UpdateTerm(newTerm: nat) returns (updated: bool)
      requires Valid()
      modifies `term, `votedFor, `role, `votesGranted, `votesResponded, `electionCompleted
      ensures Valid() && View() == RaftHandlers.UpdateTerm(old(View()), newTerm) && updated == (newTerm > old(term))
      ensures TakesTerm(old(View()), View(), newTerm)
    {
      hide LogStore.Contiguous, LogStore.Entries;
      if newTerm > term {
        term := newTerm;
        votedFor := -1;
        electionCompleted := false;
        votesGranted := 0;
        votesResponded := 0;
        role := Follower;
        return true;
      }
      return false;
    }

    method TermForLog(idx: nat) returns (t: nat)
      requires Valid()
      ensures t == RaftHandlers.TermForLog(View().log, idx)
    {
      if idx == 0 { return 0; }
      t := store.TermAt(idx);
    }

    method TryUpdatePrecommitIndex(desired: nat)
      requires Valid()
      modifies `precommitIndex
      ensures precommitIndex == Max(old(precommitIndex), desired)
    {
      if precommitIndex < desired { precommitIndex := desired; }
    }

    method Commit(target: nat)
      requires Valid()
      modifies `quickCommitIndex
      ensures Valid() && View() == RaftHandlers.Commit(old(View()), target)
    {
      if target > quickCommitIndex { quickCommitIndex := target; }
    }

    /** Append, or write over an index when one is given; a leader's configuration entry is precommitted at once. */
    method StoreLogEntry(entry: Entry, index: nat) returns (logIndex: nat)
      requires Valid() && index <= store.NextSlot()
      modifies store, `precommitIndex
      ensures Valid()
      ensures logIndex == if index == 0 then old(store.NextSlot()) else index
      ensures store.Contents() == old(store.Contents())[..logIndex - 1] + [entry]
      ensures precommitIndex ==
              if entry.conf && role == Leader then Max(old(precommitIndex), logIndex) else old(precommitIndex)
    {
      hide LogStore.Contiguous, LogStore.Entries;
      if index == 0 {
        logIndex := store.Append(entry);
        assert old(store.Contents())[..logIndex - 1] == old(store.Contents());
      } else {
        store.WriteAt(index, entry);
        logIndex := index;
      }
      if entry.conf && role == Leader { TryUpdatePrecommitIndex(logIndex); }
    }

    /** Send to every peer from the end of the log; what they were known to hold stays. */
    method RestartPeers()
      requires Valid()
      modifies `peers
      ensures Valid() && Restarted(old(peers), peers, |store.Contents()| + 1)
    {
      var slot := store.NextSlot();
      var i := 0;
      while i < n
        invariant 0 <= i <= n && |peers| == n
        invariant forall k | 0 <= k < n :: peers[k] == if k < i then old(peers)[k].(next := slot) else old(peers)[k]
      {
        peers := peers[i := peers[i].(next := slot)];
        i := i + 1;
      }
    }

    method BecomeLeader(config: string)
      requires Valid()
      modifies `role, store, `precommitIndex, `quickCommitIndex, `peers
      ensures Valid() && View() == RaftHandlers.BecomeLeader(old(View()), n, config)
      ensures role == Leader && |store.Contents()| == |old(store.Contents())| + 1
      ensures Restarted(old(peers), peers, |old(store.Contents())| + 1)
    {
      hide LogStore.Contiguous, LogStore.Entries;
      role := Leader;
      precommitIndex := store.NextSlot() - 1;
      RestartPeers();
      var idx := StoreLogEntry(Entry(term, true, config), 0);
      if CommitIndex.Quorum(n) == 0 { Commit(precommitIndex); }
    }

    /** Start an election; returns the requests sent, none if this server alone decides. */
    method InitiateVote(newTerm: nat, config: string) returns (reqs: set<Msg>)
      requires Valid()
      modifies `term, `votedFor, `role, `votesGranted, `votesResponded, `electionCompleted, store, `precommitIndex
      modifies `quickCommitIndex, `peers
      ensures Valid() && View() == RaftHandlers.InitiateVote(old(View()), id, n, newTerm, config)
      ensures if role == Leader then Restarted(old(peers), peers, |old(store.Contents())| + 1) else peers == old(peers)
      ensures reqs == if role == Leader then {} else RaftProtocol.VoteReqs(View(), id, n)
    {
      hide LogStore.Contiguous, LogStore.Entries, Restarted, RaftProtocol.VoteReqs, RaftHandlers.BecomeLeader;
      term := newTerm;
      role := Candidate;
      electionCompleted := false;
      votedFor := id;
      votesGranted := 1;
      votesResponded := 1;
      if votesGranted > CommitIndex.Quorum(n) {
        electionCompleted := true;
        BecomeLeader(config);
        return {};
      }
      reqs := RequestVotes();
    }

    method RequestVotes() returns (reqs: set<Msg>)
      requires Valid()
      ensures reqs == RaftProtocol.VoteReqs(View(), id, n)
    {
      reqs := {};
      var last := store.NextSlot() - 1;
      var lastTerm := TermForLog(last);
      var v := 0;
      while v < n
        invariant 0 <= v <= n && reqs == RaftProtocol.VoteReqs(View(), id, v)
      {
        VoteReqsNext(View(), id, v);
        if v != id { reqs := reqs + {VoteReq(term, id, v, lastTerm, last)}; }
        v := v + 1;
      }
    }

    method HandleVoteReq(req: Msg, deny: bool) returns (resp: Msg)
      requires Valid() && req.VoteReq?
      modifies `term, `votedFor, `role, `votesGranted, `votesResponded, `electionCompleted
      ensures Valid() && Output(View(), Some(resp)) == RaftHandlers.HandleVoteReq(old(View()), id, req, deny)
      ensures resp.VoteResp?
      ensures resp.granted <==>
              && !deny && NotAhead(old(store.Contents()), req.lastTerm, req.lastIdx)
              && (req.term > old(term) || (req.term == old(term) && (old(votedFor) == -1 || old(votedFor) == req.src)))
    {
      hide LogStore.Contiguous, LogStore.Entries;
      var updated := UpdateTerm(req.term);
      var last := store.LastEntry();
      var logOkay := req.lastTerm > last.term || (req.lastTerm == last.term && store.NextSlot() - 1 <= req.lastIdx);
      var grant := req.term == term && logOkay && (votedFor == req.src || votedFor == -1) && !deny;
      resp := VoteResp(term, id, req.src, grant);
      if grant { votedFor := req.src; }
    }

    method HandleVoteResp(resp: Msg, config: string)
      requires Valid() && resp.VoteResp?
      modifies `term, `votedFor, `role, `votesGranted, `votesResponded, `electionCompleted, store, `precommitIndex
      modifies `quickCommitIndex, `peers
      ensures Valid() && View() == RaftHandlers.HandleVoteResp(old(View()), n, resp, config)
      ensures VoteCounted(old(View()), View(), n, resp, config)
      ensures if store.Contents() == old(store.Contents()) then peers == old(peers)
              else Restarted(old(peers), peers, |old(store.Contents())| + 1)
    {
      hide LogStore.Contiguous, LogStore.Entries, Restarted, RaftHandlers.BecomeLeader;
      VoteCountedMeans(View(), n, resp, config);
      hide VoteCounted;
      var updated := UpdateTerm(resp.term);
      if updated { return; }
      if electionCompleted || resp.term != term { return; }
      votesResponded := votesResponded + 1;
      if resp.granted { votesGranted := votesGranted + 1; }
      if votesResponded >= n { electionCompleted := true; }
      if votesGranted >= CommitIndex.Quorum(n) + 1 {
        electionCompleted := true;
        BecomeLeader(config);
      }
    }

    /** A leader stamps each entry with its term and appends it, unless paused or asked for another term. */
    method HandleCliReq(payloads: seq<string>, writePaused: bool, expectedTerm: nat) returns (code: CliResult)
      requires Valid()
      modifies store, `precommitIndex, `quickCommitIndex
      ensures Valid()
      ensures code == (if role != Leader || writePaused then NotLeader
                       else if expectedTerm != 0 && expectedTerm != term then TermMismatch
                       else Appended)
      ensures View() == if code == Appended then RaftHandlers.HandleCliReq(old(View()), n, payloads) else old(View())
      ensures if code == Appended then Appends(old(store.Contents()), store.Contents(), term, payloads)
              else store.Contents() == old(store.Contents())
    {
      hide LogStore.Contiguous, LogStore.Entries;
      if role != Leader || writePaused { return NotLeader; }
      if expectedTerm != 0 {
        if expectedTerm != term { return TermMismatch; }
      }
      AppendPayloads(payloads);
      return Appended;
    }

    method AppendPayloads(payloads: seq<string>)
      requires Valid() && role == Leader
      modifies store, `precommitIndex, `quickCommitIndex
      ensures Valid() && View() == RaftHandlers.HandleCliReq(old(View()), n, payloads)
      ensures Appends(old(store.Contents()), store.Contents(), term, payloads)
    {
      hide LogStore.Contiguous, LogStore.Entries;
      ghost var log, stamped := store.Contents(), Stamp(term, payloads);
      var lastIdx, i := 0, 0;
      while i < |payloads|
        invariant 0 <= i <= |payloads| && Valid() && unchanged(this)
        invariant store.Contents() == log + stamped[..i] && lastIdx == if i == 0 then 0 else |log| + i
      {
        lastIdx := StoreLogEntry(Entry(term, false, payloads[i]), 0);
        i := i + 1;
      }
      assert stamped[..i] == stamped;
      TryUpdatePrecommitIndex(lastIdx);
      if CommitIndex.Quorum(n) == 0 { Commit(precommitIndex); }
    }

    /** Skip the entries the log already has. */
    method SkipMatching(prevIdx: nat, entries: seq<Entry>) returns (logIdx: nat, cnt: nat)
      requires Valid() && prevIdx <= |store.Contents()|
      ensures cnt == MatchLen(store.Contents(), prevIdx, entries) && logIdx == prevIdx + cnt + 1
      ensures prevIdx + cnt <= |store.Contents()|
    {
      hide LogStore.Contiguous, LogStore.Entries;
      logIdx, cnt := prevIdx + 1, 0;
      ghost var log := store.Contents();
      while logIdx < store.NextSlot() && cnt < |entries|
        invariant logIdx == prevIdx + cnt + 1 && cnt <= |entries| && prevIdx + cnt <= |log|
        invariant forall i: nat | i < cnt :: SameTerm(log, prevIdx, entries, i)
        decreases |entries| - cnt
      {
        var t := store.TermAt(logIdx);
        if t != entries[cnt].term { break; }
        logIdx, cnt := logIdx + 1, cnt + 1;
      }
      MatchLenIs(log, prevIdx, entries, cnt);
    }

    /** Write over the entries that differ; the first write cuts the log behind it. */
    method OverwriteFrom(start: nat, entries: seq<Entry>, first: nat) returns (cnt: nat)
      requires Valid() && role != Leader && first <= |entries| && 1 <= start <= store.NextSlot()
      modifies store, `precommitIndex
      ensures Valid() && precommitIndex == old(precommitIndex) && first <= cnt <= |entries|
      ensures first < |entries| ==> store.Contents() == old(store.Contents())[..start - 1] + entries[first..cnt]
      ensures first == |entries| ==> store.Contents() == old(store.Contents())
    {
      hide LogStore.Contiguous, LogStore.Entries;
      var logIdx := start;
      cnt := first;
      ghost var kept := store.Contents()[..start - 1];
      while logIdx < store.NextSlot() && cnt < |entries|
        invariant first <= cnt <= |entries| && logIdx == start + (cnt - first) && Valid() && unchanged(this)
        invariant store.Contents() == if cnt == first then old(store.Contents()) else kept + entries[first..cnt]
        decreases |entries| - cnt
      {
        OneMore(kept, entries, first, cnt);
        var idx := StoreLogEntry(entries[cnt], logIdx);
        assert store.Contents() == kept + entries[first..cnt] + [entries[cnt]];
        logIdx, cnt := logIdx + 1, cnt + 1;
      }
      assert cnt == first && first < |entries| ==> store.Contents() == kept + entries[first..cnt];
    }

    method AppendRest(entries: seq<Entry>, first: nat)
      requires Valid() && role != Leader && first <= |entries|
      modifies store, `precommitIndex
      ensures Valid() && precommitIndex == old(precommitIndex)
      ensures store.Contents() == old(store.Contents()) + entries[first..]
    {
      hide LogStore.Contiguous, LogStore.Entries;
      var cnt := first;
      ghost var kept := store.Contents();
      assert kept + entries[first..first] == kept;
      while cnt < |entries|
        invariant first <= cnt <= |entries| && Valid() && unchanged(this)
        invariant store.Contents() == kept + entries[first..cnt]
      {
        OneMore(kept, entries, first, cnt);
        var idx := StoreLogEntry(entries[cnt], 0);
        assert store.Contents() == kept + entries[first..cnt] + [entries[cnt]];
        cnt := cnt + 1;
      }
      assert entries[first..|entries|] == entries[first..];
    }

    /** Write over the entries that differ, then append the rest. */
    method Overwrite(start: nat, entries: seq<Entry>, first: nat)
      requires Valid() && role != Leader && first <= |entries| && 1 <= start <= store.NextSlot()
      modifies store, `precommitIndex
      ensures Valid() && precommitIndex == old(precommitIndex)
      ensures store.Contents() ==
              if first == |entries| then old(store.Contents())
              else old(store.Contents())[..start - 1] + entries[first..]
    {
      hide LogStore.Contiguous, LogStore.Entries;
      ghost var kept := store.Contents()[..start - 1];
      var cnt := OverwriteFrom(start, entries, first);
      AppendRest(entries, cnt);
      assert entries[first..] == entries[first..cnt] + entries[cnt..];
      assert first < |entries| ==> kept + entries[first..cnt] + entries[cnt..] == kept + entries[first..];
    }

    /** Neither commit index stays at or past an entry that will be overwritten. */
    method RollBackCommit(logIdx: nat, more: bool)
      requires Valid() && logIdx >= 1
      modifies `quickCommitIndex, `smCommitIndex
      ensures var back := more && logIdx <= |store.Contents()|;
              && quickCommitIndex == (if back then Min(old(quickCommitIndex), logIdx - 1) else old(quickCommitIndex))
              && smCommitIndex == (if back then Min(old(smCommitIndex), logIdx - 1) else old(smCommitIndex))
    {
      if store.NextSlot() - 1 >= logIdx && more {
        if quickCommitIndex >= logIdx { quickCommitIndex := logIdx - 1; }
        if smCommitIndex >= logIdx { smCommitIndex := logIdx - 1; }
      }
    }

    /** Bring the log in line with the request's entries. */
    method StoreEntries(prevIdx: nat, entries: seq<Entry>)
      requires Valid() && role != Leader && prevIdx <= |store.Contents()|
      modifies store, `precommitIndex, `quickCommitIndex, `smCommitIndex
      ensures Valid() && precommitIndex == old(precommitIndex)
      ensures var log, m := old(store.Contents()), MatchLen(old(store.Contents()), prevIdx, entries);
              && store.Contents() == (if m == |entries| then log else log[..prevIdx + m] + entries[m..])
              && quickCommitIndex ==
                 if m < |entries| && prevIdx + m < |log| then Min(old(quickCommitIndex), prevIdx + m)
                 else old(quickCommitIndex)
    {
      hide LogStore.Contiguous, LogStore.Entries;
      if |entries| == 0 { return; }
      var logIdx, cnt := SkipMatching(prevIdx, entries);
      RollBackCommit(logIdx, cnt < |entries|);
      Overwrite(logIdx, entries, cnt);
    }

    method AcceptEntries(req: Msg)
      requires Valid() && req.AppendReq? && role != Leader && req.prevIdx <= |store.Contents()|
      modifies store, `precommitIndex, `quickCommitIndex, `smCommitIndex
      ensures Valid() && View() == AcceptAppend(old(View()), req)
    {
      hide LogStore.Contiguous, LogStore.Entries, MatchLen, AcceptAppend;
      ghost var s := View();
      AcceptParts(s, req);
      StoreEntries(req.prevIdx, req.entries);
      var target := req.prevIdx + |req.entries|;
      TryUpdatePrecommitIndex(target);
      Commit(Min(req.commitIdx, target));
    }

    method CheckLog(prevIdx: nat, prevTerm: nat) returns (ok: bool)
      requires Valid()
      ensures ok == LogOkay(store.Contents(), prevIdx, prevTerm)
    {
      var logTerm := 0;
      if prevIdx < store.NextSlot() { logTerm := TermForLog(prevIdx); }
      ok := prevIdx == 0 || (logTerm != 0 && prevTerm == logTerm);
    }

    /** Take the request's term, and follow its sender unless this server leads that term itself. */
    method Follow(reqTerm: nat) returns (clash: bool)
      requires Valid()
      modifies `term, `votedFor, `role, `votesGranted, `votesResponded, `electionCompleted
      ensures Valid() && View() == Followed(old(View()), reqTerm)
      ensures clash == (reqTerm == term && role == Leader)
    {
      hide LogStore.Contiguous, LogStore.Entries;
      var updated := UpdateTerm(reqTerm);
      if reqTerm == term {
        if role == Candidate {
          role := Follower;
        } else if role == Leader {
          return true;
        }
      }
      return false;
    }

    method HandleAppendEntries(req: Msg, decline: bool) returns (resp: Option<Msg>)
      requires Valid() && req.AppendReq?
      modifies `term, `votedFor, `role, `votesGranted, `votesResponded, `electionCompleted, store, `precommitIndex
      modifies `quickCommitIndex, `smCommitIndex
      ensures Valid() && Output(View(), resp) == HandleAppend(old(View()), id, req, decline)
      ensures AppendHandled(old(View()), View(), id, req, decline, resp)
    {
      hide LogStore.Contiguous, LogStore.Entries;
      HandleAppendCases(View(), id, req, decline);
      AppendHandledMeans(View(), id, req, decline);
      hide AppendHandled;
      var clash := Follow(req.term);
      if clash { return None; }
      var logOkay := CheckLog(req.prevIdx, req.prevTerm);
      if req.term < term || !logOkay {
        return Some(AppendResp(term, id, req.src, store.NextSlot(), false));
      }
      if decline { return Some(AppendResp(term, id, req.src, store.NextSlot(), false)); }
      AcceptEntries(req);
      resp := Some(AppendResp(term, id, req.src, req.prevIdx + |req.entries| + 1, true));
    }

    /** The entries to send, all of the slice or as many as the hint allows. */
    method FetchEntries(from: nat, end: nat, hint: int) returns (entries: seq<Entry>)
      requires Valid() && 1 <= from <= end <= |store.Contents()| + 1
      ensures |entries| <= end - from && entries == store.Contents()[from - 1..from - 1 + |entries|]
      ensures LogStore.Batched(entries, end - from, hint)
    {
      hide LogStore.Contiguous, LogStore.Entries, LogStore.Batched;
      entries := store.LogEntriesExt(from, end, hint);
    }

    /** The next request for a peer; none if its next index is beyond the leader's log, where the server gives up. */
    method CreateAppendReq(dst: nat, maxAppend: nat) returns (req: Option<Msg>)
      requires Valid() && dst < n && precommitIndex <= |store.Contents()|
      modifies `peers
      ensures Valid() && View() == old(View())
      ensures var p := old(peers)[dst];
              var from := From(p, precommitIndex);
              if from > precommitIndex + 1 then req.None? && peers == old(peers)
              else
                && req.Some? && peers == old(peers)[dst := Sent(p, precommitIndex, maxAppend)]
                && req.value.AppendReq?
                && var entries, limit := req.value.entries, EndOf(p, precommitIndex, maxAppend) - from;
                   && |entries| <= limit && req.value == AppendReqFor(View(), id, dst, from - 1, |entries|)
                   && LogStore.Batched(entries, limit, p.hint)
    {
      hide LogStore.Contiguous, LogStore.Entries, LogStore.Bytes, EndOf, Sent;
      var curNext, p := precommitIndex + 1, peers[dst];
      var from := From(p, precommitIndex);
      if from > curNext { return None; }
      var end := EndOf(p, precommitIndex, maxAppend);
      var entries := [];
      if from < curNext { entries := FetchEntries(from, end, p.hint); }
      var prevTerm := TermForLog(from - 1);
      peers := peers[dst := Sent(p, precommitIndex, maxAppend)];
      req := Some(AppendReq(term, id, dst, from - 1, prevTerm, entries, quickCommitIndex));
    }

    /** The index a majority holds, from the leader's own and the peers' matched indexes. */
    method GetExpectedCommittedLogIdx() returns (idx: nat)
      requires Valid() && id < |matched|
      ensures idx == CommitIndex.Expected(MatchedIndexes(View(), id))
    {
      var indexes := [precommitIndex];
      var i := 0;
      while i < |matched|
        invariant 0 <= i <= |matched|
        invariant indexes == [precommitIndex] + Others(matched, id, i)
      {
        OthersNext(matched, id, i);
        if i != id { indexes := indexes + [matched[i]]; }
        i := i + 1;
      }
      assert matched[id + 1..|matched|] == matched[id + 1..];
      assert indexes == MatchedIndexes(View(), id);
      idx := CommitIndex.SortDesc(indexes)[CommitIndex.Quorum(|indexes|)];
    }

    /** Returns whether to send to the peer again at once. */
    method HandleAppendEntriesResp(resp: Msg, hint: int, rewind: bool, pendingCommit: bool) returns (again: bool)
      requires Valid() && resp.AppendResp?
      modifies `term, `votedFor, `role, `votesGranted, `votesResponded, `electionCompleted, `quickCommitIndex
      modifies `matched, `peers
      ensures Valid() && View() == HandleAppendResp(old(View()), id, resp)
      ensures if resp.term > old(term) || resp.src >= n then peers == old(peers) && !again
              else
                var p := old(peers)[resp.src];
                && peers == old(peers)[resp.src := p.(hint := hint, next := NextAfter(p.next, resp, rewind))]
                && (again <==> role == Leader && hint >= 0
                               && (!resp.accepted || pendingCommit || resp.nextIdx < store.NextSlot()))
    {
      hide LogStore.Contiguous, LogStore.Entries, TakesTerm, MatchedIndexes, CommitIndex.Expected;
      var updated := UpdateTerm(resp.term);
      if updated || resp.src >= n { return false; }
      var p := peers[resp.src].(hint := hint);
      var needToCatchUp := true;
      if resp.accepted {
        p := p.(next := resp.nextIdx);
        if resp.nextIdx > 0 && id < n {
          matched := matched[resp.src := resp.nextIdx - 1];
          var committed := GetExpectedCommittedLogIdx();
          Commit(committed);
        }
        needToCatchUp := pendingCommit || resp.nextIdx < store.NextSlot();
      } else if resp.nextIdx > 0 && p.next > resp.nextIdx {
        p := p.(next := resp.nextIdx);
      } else if rewind && p.next > 0 {
        p := p.(next := p.next - 1);
      }
      peers := peers[resp.src := p];
      if hint < 0 { needToCatchUp := false; }
      again := role == Leader && needToCatchUp;
    }
  }
}
