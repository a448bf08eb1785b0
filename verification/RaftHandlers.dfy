/**
  What one server does on each event, as functions of its state.
  The log is a sequence; the entry with log index i is `log[i - 1]`.
 */
module RaftHandlers {
  import opened Wrappers
  import CommitIndex

  datatype Role = Follower | Candidate | Leader

  datatype Entry = Entry(term: nat, conf: bool, payload: string)

  /** `votedFor` is -1 when the server has not voted in its term. */
  datatype Server = Server(
    term: nat, votedFor: int, role: Role, log: seq<Entry>,
    granted: nat, responded: nat, electionDone: bool,
    precommit: nat, commit: nat, matched: seq<nat>)

  datatype Msg =
    | VoteReq(term: nat, src: nat, dst: nat, lastTerm: nat, lastIdx: nat)
    | VoteResp(term: nat, src: nat, dst: nat, granted: bool)
    | AppendReq(term: nat, src: nat, dst: nat, prevIdx: nat, prevTerm: nat, entries: seq<Entry>, commitIdx: nat)
    | AppendResp(term: nat, src: nat, dst: nat, nextIdx: nat, accepted: bool)

  datatype Output = Output(server: Server, reply: Option<Msg>)

  function Max(a: nat, b: nat): nat {
    if a > b then a else b
  }

  function Min(a: nat, b: nat): nat {
    if a < b then a else b
  }

  function InitServer(n: nat): Server {
    Server(0, -1, Follower, [], 0, 0, false, 0, 0, seq(n, _ => 0))
  }

  /** The term of the entry at log index `idx`; 0 for index 0 and beyond the end. */
  function TermForLog(log: seq<Entry>, idx: nat): nat {
    if idx == 0 || idx > |log| then 0 else log[idx - 1].term
  }

  function LastTerm(log: seq<Entry>): nat {
    TermForLog(log, |log|)
  }

  /** The voter's test of a candidate's last entry against its own. */
  predicate UpToDate(lastTerm: nat, lastIdx: nat, log: seq<Entry>) {
    lastTerm > LastTerm(log) || (lastTerm == LastTerm(log) && |log| <= lastIdx)
  }

  function UpdateTerm(s: Server, term: nat): Server {
    if term > s.term then
      s.(term := term, votedFor := -1, role := Follower, granted := 0, responded := 0, electionDone := false)
    else s
  }

  function Commit(s: Server, target: nat): Server {
    if target > s.commit then s.(commit := target) else s
  }

  /** A server alone in its quorum commits without waiting for responses. */
  function CommitIfAlone(s: Server, n: nat): Server {
    if CommitIndex.Quorum(n) == 0 then Commit(s, s.precommit) else s
  }

  /** A new leader first appends a configuration entry of its own term. */
  function BecomeLeader(s: Server, n: nat, config: string): Server {
    var log := s.log + [Entry(s.term, true, config)];
    CommitIfAlone(s.(role := Leader, log := log, precommit := |log|), n)
  }

  function InitiateVote(s: Server, id: nat, n: nat, newTerm: nat, config: string): Server {
    var c := s.(term := newTerm, votedFor := id, role := Candidate, granted := 1, responded := 1,
                electionDone := false);
    if c.granted > CommitIndex.Quorum(n) then BecomeLeader(c.(electionDone := true), n, config) else c
  }

  /** `deny` stands for the priority check, which may turn a grant into a refusal. */
  function HandleVoteReq(s: Server, id: nat, req: Msg, deny: bool): Output
    requires req.VoteReq?
  {
    var u := UpdateTerm(s, req.term);
    var grant := req.term == u.term && UpToDate(req.lastTerm, req.lastIdx, u.log)
                 && (u.votedFor == req.src || u.votedFor == -1) && !deny;
    Output(if grant then u.(votedFor := req.src) else u,
           Some(VoteResp(u.term, id, req.src, grant)))
  }

  function HandleVoteResp(s: Server, n: nat, resp: Msg, config: string): Server
    requires resp.VoteResp?
  {
    if resp.term > s.term then UpdateTerm(s, resp.term)
    else if s.electionDone || resp.term != s.term then s
    else
      var responded := s.responded + 1;
      var granted := if resp.granted then s.granted + 1 else s.granted;
      var c := s.(responded := responded, granted := granted, electionDone := responded >= n);
      if granted >= CommitIndex.Quorum(n) + 1 then BecomeLeader(c.(electionDone := true), n, config) else c
  }

  function Stamp(term: nat, payloads: seq<string>): (r: seq<Entry>)
    ensures |r| == |payloads|
    ensures forall i | 0 <= i < |r| :: r[i] == Entry(term, false, payloads[i])
  {
    seq(|payloads|, i requires 0 <= i < |payloads| => Entry(term, false, payloads[i]))
  }

  /** Each payload is appended, in order, as an entry of the term. */
  ghost predicate Appends(log: seq<Entry>, log': seq<Entry>, term: nat, payloads: seq<string>) {
    && log <= log' && |log'| == |log| + |payloads|
    && forall i | 0 <= i < |payloads| :: log'[|log| + i] == Entry(term, false, payloads[i])
  }

  function HandleCliReq(s: Server, n: nat, payloads: seq<string>): Server {
    if s.role != Leader then s
    else
      var log := s.log + Stamp(s.term, payloads);
      var last := if payloads == [] then 0 else |log|;
      CommitIfAlone(s.(log := log, precommit := Max(s.precommit, last)), n)
  }

  /** The request a leader builds for a peer whose log is believed to end at `prevIdx`. */
  function AppendReqFor(s: Server, id: nat, dst: nat, prevIdx: nat, count: nat): Msg
    requires prevIdx + count <= s.precommit <= |s.log|
  {
    AppendReq(s.term, id, dst, prevIdx, TermForLog(s.log, prevIdx), s.log[prevIdx..prevIdx + count], s.commit)
  }

  predicate LogOkay(log: seq<Entry>, prevIdx: nat, prevTerm: nat)
    ensures LogOkay(log, prevIdx, prevTerm) ==> prevIdx <= |log|
  {
    prevIdx == 0 || (TermForLog(log, prevIdx) != 0 && prevTerm == TermForLog(log, prevIdx))
  }

  /** How many of `entries`, placed after `prevIdx`, the log already has (same term). */
  function MatchLen(log: seq<Entry>, prevIdx: nat, entries: seq<Entry>): (m: nat)
    ensures m <= |entries|
    ensures m > 0 ==> prevIdx + m <= |log|
    ensures forall i | 0 <= i < m :: log[prevIdx + i].term == entries[i].term
    ensures m < |entries| && prevIdx + m < |log| ==> log[prevIdx + m].term != entries[m].term
    decreases |entries|
  {
    if entries == [] || prevIdx >= |log| || log[prevIdx].term != entries[0].term then 0
    else 1 + MatchLen(log, prevIdx + 1, entries[1..])
  }

  /** The simple append rule: keep the log when it already has the entries, else cut at the first difference. */
  function AppendRule(log: seq<Entry>, prevIdx: nat, entries: seq<Entry>): seq<Entry>
    requires prevIdx <= |log|
  {
    var m := MatchLen(log, prevIdx, entries);
    if m == |entries| then log else log[..prevIdx + m] + entries[m..]
  }

  /** Commit index after the rollback that precedes an overwrite. */
  function RolledBackCommit(s: Server, prevIdx: nat, entries: seq<Entry>): nat
    requires prevIdx <= |s.log|
  {
    var m := MatchLen(s.log, prevIdx, entries);
    if m < |entries| && prevIdx + m < |s.log| then Min(s.commit, prevIdx + m) else s.commit
  }

  function AcceptAppend(s: Server, req: Msg): Server
    requires req.AppendReq? && req.prevIdx <= |s.log|
  {
    var target := req.prevIdx + |req.entries|;
    Commit(s.(log := AppendRule(s.log, req.prevIdx, req.entries),
              commit := RolledBackCommit(s, req.prevIdx, req.entries),
              precommit := Max(s.precommit, target)),
           Min(req.commitIdx, target))
  }

  /** `decline` stands for the application's callback, which may refuse a request that passes the log test. */
  function HandleAppend(s: Server, id: nat, req: Msg, decline: bool): Output
    requires req.AppendReq?
  {
    var u := UpdateTerm(s, req.term);
    if req.term == u.term && u.role == Leader then Output(u, None)
    else
      var f := if req.term == u.term then u.(role := Follower) else u;
      if req.term < f.term || !LogOkay(f.log, req.prevIdx, req.prevTerm) || decline then
        Output(f, Some(AppendResp(f.term, id, req.src, |f.log| + 1, false)))
      else
        Output(AcceptAppend(f, req),
               Some(AppendResp(f.term, id, req.src, req.prevIdx + |req.entries| + 1, true)))
  }

  /** The leader's own index, then what each other voter is known to hold. */
  function MatchedIndexes(s: Server, id: nat): (r: seq<nat>)
    requires id < |s.matched|
    ensures |r| == |s.matched|
  {
    [s.precommit] + s.matched[..id] + s.matched[id + 1..]
  }

  function HandleAppendResp(s: Server, id: nat, resp: Msg): Server
    requires resp.AppendResp?
  {
    if resp.term > s.term then UpdateTerm(s, resp.term)
    else if !resp.accepted || resp.src >= |s.matched| || resp.nextIdx == 0 || id >= |s.matched| then s
    else
      var m := s.(matched := s.matched[resp.src := resp.nextIdx - 1]);
      Commit(m, CommitIndex.Expected(MatchedIndexes(m, id)))
  }

  /** Where to send from next; `rewind` is false when the response carries the order not to move back. */
  function NextAfter(next: nat, resp: Msg, rewind: bool): nat
    requires resp.AppendResp?
  {
    if resp.accepted || (resp.nextIdx > 0 && next > resp.nextIdx) then resp.nextIdx
    else if rewind && next > 0 then next - 1
    else next
  }

  function Resign(s: Server): Server {
    if s.role == Leader then s.(role := Follower) else s
  }
}
