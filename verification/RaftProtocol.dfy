/**
  A cluster of servers with fixed membership and a set of messages in flight.
  Each event handler is one atomic step; a run is any sequence of events.
 */
module RaftProtocol {
  import opened Wrappers
  import opened RaftHandlers

  /** Server i of `servers` has identifier i. */
  datatype System = System(servers: seq<Server>, net: set<Msg>)

  /** `config` and `payloads` are the contents of the entries a leader creates. */
  datatype Event =
    | Timeout(id: nat, newTerm: nat, config: string)
    | ReceiveVoteReq(msg: Msg, deny: bool)
    | ReceiveVoteResp(msg: Msg, config: string)
    | ClientRequest(id: nat, payloads: seq<string>)
    | SendAppend(id: nat, dst: nat, prevIdx: nat, count: nat)
    | ReceiveAppend(msg: Msg, decline: bool)
    | ReceiveAppendResp(msg: Msg)
    | StepDown(id: nat)

  function Init(n: nat): System {
    System(seq(n, _ => InitServer(n)), {})
  }

  function VoteReqs(s: Server, id: nat, n: nat): set<Msg> {
    set v | 0 <= v < n && v != id :: VoteReq(s.term, id, v, LastTerm(s.log), |s.log|)
  }

  function Replies(reply: Option<Msg>): set<Msg> {
    match reply
    case None => {}
    case Some(m) => {m}
  }

  /** When the event can happen in this state. */
  predicate Enabled(sys: System, e: Event) {
    match e
    case Timeout(id, newTerm, _) => id < |sys.servers| && newTerm > sys.servers[id].term
    case ReceiveVoteReq(m, _) => m in sys.net && m.VoteReq? && m.dst < |sys.servers|
    case ReceiveVoteResp(m, _) => m in sys.net && m.VoteResp? && m.dst < |sys.servers|
    case ClientRequest(id, _) => id < |sys.servers|
    case SendAppend(id, dst, prevIdx, count) =>
      && id < |sys.servers| && dst < |sys.servers| && dst != id
      && sys.servers[id].role == Leader
      && prevIdx + count <= sys.servers[id].precommit <= |sys.servers[id].log|
    case ReceiveAppend(m, _) => m in sys.net && m.AppendReq? && m.dst < |sys.servers|
    case ReceiveAppendResp(m) => m in sys.net && m.AppendResp? && m.dst < |sys.servers|
    case StepDown(id) => id < |sys.servers|
  }

  /**
    One step. A vote request and a vote response are each handled once; append requests and
    their responses stay in flight, so they may be handled late and any number of times.
   */
  function Next(sys: System, e: Event): System
    requires Enabled(sys, e)
  {
    var n := |sys.servers|;
    match e
    case Timeout(id, newTerm, config) =>
      var s := InitiateVote(sys.servers[id], id, n, newTerm, config);
      System(sys.servers[id := s], if s.role == Leader then sys.net else sys.net + VoteReqs(s, id, n))
    case ReceiveVoteReq(m, deny) =>
      var out := HandleVoteReq(sys.servers[m.dst], m.dst, m, deny);
      System(sys.servers[m.dst := out.server], (sys.net - {m}) + Replies(out.reply))
    case ReceiveVoteResp(m, config) =>
      System(sys.servers[m.dst := HandleVoteResp(sys.servers[m.dst], n, m, config)], sys.net - {m})
    case ClientRequest(id, payloads) =>
      sys.(servers := sys.servers[id := HandleCliReq(sys.servers[id], n, payloads)])
    case SendAppend(id, dst, prevIdx, count) =>
      sys.(net := sys.net + {AppendReqFor(sys.servers[id], id, dst, prevIdx, count)})
    case ReceiveAppend(m, decline) =>
      var out := HandleAppend(sys.servers[m.dst], m.dst, m, decline);
      System(sys.servers[m.dst := out.server], sys.net + Replies(out.reply))
    case ReceiveAppendResp(m) =>
      sys.(servers := sys.servers[m.dst := HandleAppendResp(sys.servers[m.dst], m.dst, m)])
    case StepDown(id) =>
      sys.(servers := sys.servers[id := Resign(sys.servers[id])])
  }

  /** `run[k]` is the state after k steps. */
  ghost predicate IsRun(n: nat, run: seq<System>) {
    && |run| > 0
    && run[0] == Init(n)
    && forall k | 0 <= k < |run| - 1 :: StepTo(run[k], run[k + 1])
  }

  ghost predicate StepTo(before: System, after: System) {
    exists e: Event :: Enabled(before, e) && after == Next(before, e)
  }
}
