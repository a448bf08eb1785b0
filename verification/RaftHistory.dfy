/**
  What a run has done so far, kept beside the system and never read by it, and the
  invariants that tie the two together.
 */
module RaftHistory {
  import opened Wrappers
  import opened RaftHandlers
  import opened RaftProtocol

  /** The log of one term's leader, which only grows, and the voters that elected it. */
  datatype Reign = Reign(leader: nat, log: seq<Entry>, electors: set<nat>)

  /** A candidate's log when it asked for votes and the voters whose grants it has counted. */
  datatype Campaign = Campaign(log: seq<Entry>, counted: set<nat>)

  /** A vote and the voter's log when it was cast; `late` when the term already had a leader. */
  datatype Ballot = Ballot(cand: nat, log: seq<Entry>, late: bool)

  type Key = (nat, nat)

  /**
    `reigns` by term; `campaigns` by (term, candidate); `ballots` by (term, voter);
    `acked` by (term, server): the highest index the server accepted in that term.
   */
  datatype History = History(
    reigns: map<nat, Reign>, campaigns: map<Key, Campaign>,
    ballots: map<Key, Ballot>, acked: map<Key, nat>)

  datatype State = State(sys: System, h: History)

  // ---------- Logs ----------

  ghost predicate Sorted(log: seq<Entry>) {
    forall i, j | 0 <= i <= j < |log| :: log[i].term <= log[j].term
  }

  /** The log up to position k is what the leader of that entry's term had. */
  ghost predicate Anchored(reigns: map<nat, Reign>, log: seq<Entry>, k: nat)
    requires k < |log|
  {
    var t := log[k].term;
    t in reigns && k < |reigns[t].log| && log[..k + 1] == reigns[t].log[..k + 1]
  }

  ghost predicate LogOk(reigns: map<nat, Reign>, log: seq<Entry>) {
    forall k | 0 <= k < |log| :: Anchored(reigns, log, k)
  }

  ghost predicate ReignLogOk(reigns: map<nat, Reign>, t: nat)
    requires t in reigns
  {
    var log := reigns[t].log;
    && t >= 1
    && log != []
    && log[|log| - 1].term == t
    && Sorted(log)
    && LogOk(reigns, log)
  }

  ghost predicate ReignLogsOk(reigns: map<nat, Reign>) {
    forall t :: t in reigns ==> ReignLogOk(reigns, t)
  }

  ghost predicate ServerLogOk(reigns: map<nat, Reign>, s: Server) {
    LogOk(reigns, s.log) && LastTerm(s.log) <= s.term
  }

  ghost predicate ServerLogsOk(servers: seq<Server>, reigns: map<nat, Reign>) {
    forall i | 0 <= i < |servers| ::
      ServerLogOk(reigns, servers[i])
  }

  // ---------- Elections ----------

  ghost predicate LeaderOk(servers: seq<Server>, reigns: map<nat, Reign>, i: nat)
    requires i < |servers|
  {
    var s := servers[i];
    s.role == Leader ==>
      && s.term in reigns
      && reigns[s.term].leader == i
      && reigns[s.term].log == s.log
      && s.precommit == |s.log|
  }

  ghost predicate LeadersOk(servers: seq<Server>, reigns: map<nat, Reign>) {
    forall i | 0 <= i < |servers| :: LeaderOk(servers, reigns, i)
  }

  ghost predicate VotedOk(servers: seq<Server>, h: History, i: nat)
    requires i < |servers|
  {
    var s := servers[i];
    && (s.votedFor == -1 ==> (s.term, i) !in h.ballots)
    && (s.votedFor != -1 ==> (s.term, i) in h.ballots && h.ballots[(s.term, i)].cand == s.votedFor)
    && ((s.term, i) !in h.campaigns ==> s.granted == 0)
  }

  ghost predicate VotesOk(servers: seq<Server>, h: History) {
    forall i | 0 <= i < |servers| :: VotedOk(servers, h, i)
  }

  ghost predicate BallotOk(servers: seq<Server>, h: History, k: Key)
    requires k in h.ballots
  {
    var b := h.ballots[k];
    && k.1 < |servers|
    && k.0 <= servers[k.1].term
    && (b.late ==> k.0 in h.reigns)
    && LogOk(h.reigns, b.log)
    && (k.0, b.cand) in h.campaigns
    && var c := h.campaigns[(k.0, b.cand)];
       UpToDate(LastTerm(c.log), |c.log|, b.log)
  }

  ghost predicate BallotsOk(servers: seq<Server>, h: History) {
    forall k :: k in h.ballots ==> BallotOk(servers, h, k)
  }

  ghost predicate CountedOk(h: History, k: Key)
    requires k in h.campaigns
  {
    forall v :: v in h.campaigns[k].counted ==> (k.0, v) in h.ballots && h.ballots[(k.0, v)].cand == k.1
  }

  ghost predicate CampaignOk(servers: seq<Server>, h: History, k: Key)
    requires k in h.campaigns
  {
    var c := h.campaigns[k];
    && k.1 < |servers|
    && LogOk(h.reigns, c.log)
    && LastTerm(c.log) < k.0
    && CountedOk(h, k)
    && var s := servers[k.1];
       && k.0 <= s.term
       && (k.0 == s.term ==>
             && s.granted == |c.counted|
             && (k.0 !in h.reigns ==> s.log == c.log)
             && (k.0 in h.reigns && h.reigns[k.0].leader == k.1 ==> s.electionDone))
  }

  ghost predicate CampaignsOk(servers: seq<Server>, h: History) {
    forall k :: k in h.campaigns ==> CampaignOk(servers, h, k)
  }

  /** A vote message belongs to a campaign that has not yet counted its voter. */
  ghost predicate VoteMsgOk(net: set<Msg>, h: History, m: Msg) {
    match m
    case VoteReq(t, c, v, lastTerm, lastIdx) =>
      && (t, c) in h.campaigns
      && lastTerm == LastTerm(h.campaigns[(t, c)].log)
      && lastIdx == |h.campaigns[(t, c)].log|
      && v != c
      && v !in h.campaigns[(t, c)].counted
      && VoteResp(t, v, c, true) !in net
    case VoteResp(t, v, c, granted) =>
      granted ==>
        && v != c
        && (t, v) in h.ballots
        && h.ballots[(t, v)].cand == c
        && (t, c) in h.campaigns
        && v !in h.campaigns[(t, c)].counted
    case _ => true
  }

  ghost predicate VoteMsgsOk(net: set<Msg>, h: History) {
    forall m :: m in net ==> VoteMsgOk(net, h, m)
  }

  ghost predicate ElectedOk(n: nat, h: History, t: nat)
    requires t in h.reigns
  {
    var r := h.reigns[t];
    && r.leader < n
    && (forall v :: v in r.electors ==> v < n)
    && |r.electors| > n / 2
    && (forall v :: v in r.electors ==>
          (t, v) in h.ballots && h.ballots[(t, v)].cand == r.leader && !h.ballots[(t, v)].late)
    && (t, r.leader) in h.campaigns
    && var c := h.campaigns[(t, r.leader)];
       && |c.log| < |r.log|
       && c.log == r.log[..|c.log|]
       && r.log[|c.log|].term == t
  }

  ghost predicate ElectionsOk(n: nat, h: History) {
    forall t :: t in h.reigns ==> ElectedOk(n, h, t)
  }

  // ---------- Replication ----------

  ghost predicate AppendMsgOk(h: History, m: Msg) {
    match m
    case AppendReq(t, src, dst, prevIdx, prevTerm, entries, _) =>
      && t in h.reigns
      && prevIdx + |entries| <= |h.reigns[t].log|
      && entries == h.reigns[t].log[prevIdx..prevIdx + |entries|]
      && prevTerm == TermForLog(h.reigns[t].log, prevIdx)
    case AppendResp(t, src, dst, nextIdx, accepted) =>
      accepted ==> nextIdx > 0 && (t, src) in h.acked && h.acked[(t, src)] >= nextIdx - 1
    case _ => true
  }

  ghost predicate AppendMsgsOk(net: set<Msg>, h: History) {
    forall m :: m in net ==> AppendMsgOk(h, m)
  }

  /** Index k of term t's leader log holds an entry of term t itself. */
  ghost predicate OwnTerm(reigns: map<nat, Reign>, t: nat, k: nat) {
    t in reigns && 1 <= k <= |reigns[t].log| && reigns[t].log[k - 1].term == t
  }

  ghost predicate Holds(reigns: map<nat, Reign>, t: nat, k: nat, log: seq<Entry>)
    requires OwnTerm(reigns, t, k)
  {
    reigns[t].log[..k] <= log
  }

  /** Some leader after term t and before term `bound` lacks term t's entries up to k. */
  ghost predicate LostBefore(reigns: map<nat, Reign>, t: nat, k: nat, bound: nat)
    requires OwnTerm(reigns, t, k)
  {
    exists t2 :: t < t2 < bound && t2 in reigns && !Holds(reigns, t, k, reigns[t2].log)
  }

  /** What a server accepted in term t it still has, unless a later leader lacked it. */
  ghost predicate KeptOrLost(reigns: map<nat, Reign>, t: nat, k: nat, log: seq<Entry>, bound: nat) {
    OwnTerm(reigns, t, k) ==> Holds(reigns, t, k, log) || LostBefore(reigns, t, k, bound)
  }

  ghost predicate KeptUpTo(reigns: map<nat, Reign>, t: nat, idx: nat, log: seq<Entry>, bound: nat) {
    forall k | 0 <= k <= idx :: KeptOrLost(reigns, t, k, log, bound)
  }

  ghost predicate AckOk(servers: seq<Server>, h: History, k: Key)
    requires k in h.acked
  {
    && k.1 < |servers|
    && k.0 in h.reigns
    && k.0 <= servers[k.1].term
    && h.acked[k] <= |h.reigns[k.0].log|
    && KeptUpTo(h.reigns, k.0, h.acked[k], servers[k.1].log, servers[k.1].term + 1)
  }

  ghost predicate AcksOk(servers: seq<Server>, h: History) {
    forall k :: k in h.acked ==> AckOk(servers, h, k)
  }

  /** The same, at the moment of a later vote. */
  ghost predicate BallotKeeps(h: History, ack: Key, vote: Key)
    requires ack in h.acked && vote in h.ballots
  {
    ack.1 == vote.1 && ack.0 < vote.0 && !h.ballots[vote].late ==>
      KeptUpTo(h.reigns, ack.0, h.acked[ack], h.ballots[vote].log, vote.0)
  }

  ghost predicate BallotsKeep(h: History) {
    forall ack, vote :: ack in h.acked && vote in h.ballots ==> BallotKeeps(h, ack, vote)
  }

  ghost predicate LeaderAcks(h: History) {
    forall t :: t in h.reigns ==> LeaderAck(h, t)
  }

  ghost predicate LeaderAck(h: History, t: nat)
    requires t in h.reigns
  {
    (t, h.reigns[t].leader) in h.acked && h.acked[(t, h.reigns[t].leader)] == |h.reigns[t].log|
  }

  ghost predicate ElectionInv(servers: seq<Server>, net: set<Msg>, h: History) {
    && VotesOk(servers, h)
    && BallotsOk(servers, h)
    && CampaignsOk(servers, h)
    && VoteMsgsOk(net, h)
    && ElectionsOk(|servers|, h)
  }

  ghost predicate LogInv(servers: seq<Server>, net: set<Msg>, h: History) {
    && ReignLogsOk(h.reigns)
    && ServerLogsOk(servers, h.reigns)
    && LeadersOk(servers, h.reigns)
    && AppendMsgsOk(net, h)
  }

  ghost predicate AckInv(servers: seq<Server>, h: History) {
    && AcksOk(servers, h)
    && BallotsKeep(h)
    && LeaderAcks(h)
  }

  ghost predicate AllInv(st: State) {
    && ElectionInv(st.sys.servers, st.sys.net, st.h)
    && LogInv(st.sys.servers, st.sys.net, st.h)
    && AckInv(st.sys.servers, st.h)
  }

  /** `AllInv`, kept folded: a proof that needs its parts says so with `Parts`. */
  ghost predicate Inv(st: State) {
    forall x :: Unfold(x) ==> AllInv(st)
  }

  lemma Parts(st: State)
    requires Inv(st)
    ensures AllInv(st)
  {
    assert Unfold(0);
  }

  lemma Whole(st: State)
    requires AllInv(st)
    ensures Inv(st)
  {
  }

  // ---------- Growth ----------

  ghost predicate ReignGrows(r: Reign, r': Reign) {
    r'.leader == r.leader && r'.electors == r.electors && r.log <= r'.log
  }

  /** Later reigns keep every earlier one. */
  ghost predicate ReignsGrow(r: map<nat, Reign>, r': map<nat, Reign>) {
    forall t :: t in r ==> t in r' && ReignGrows(r[t], r'[t])
  }

  ghost predicate AcksGrow(a: map<Key, nat>, a': map<Key, nat>) {
    forall k :: k in a ==> k in a' && a[k] <= a'[k]
  }

  ghost predicate Grows(h: History, h': History) {
    ReignsGrow(h.reigns, h'.reigns) && AcksGrow(h.acked, h'.acked)
  }
}
