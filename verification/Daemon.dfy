/** The attribute manager as a state machine: the events one node can see, together with the CIB that
    serves its calls. */
module Daemon {
  import opened Common
  import opened Model
  import opened Elections
  import opened CibWrites
  import opened Attributes
  import opened Corosync

  /** How a received election message turns out: the peer wins, the local node is better and calls a
      new election, the message is merely counted (possibly completing the tally), or it is invalid. */
  datatype VoteOutcome = PeerBetter | LocalBetter | Counted(complete: bool) | BadVote

  datatype PeerMessage =
    | UpdateMessage(e: Element)
    | ClearFailureMessage(e: Element, matching: set<string>)
    | RemoveMessage(host: Option<string>, reap: bool)
    | SyncResponseMessage(e: Element, fromWriter: bool)
    | ElectionMessage(outcome: VoteOutcome)

  /** Winning: tell everyone, erase the nodes that were lost meanwhile, and write everything. */
  function WinElection(n: Node, env: Env): Node {
    var n1 := PeerSync(n.(election := Won, writer := Some(n.self)), None, env);
    WriteAttributes(EraseRemoved(n1, env), true, false, env)
  }

  function HandleElectionOp(n: Node, peer: string, outcome: VoteOutcome, env: Env): Node {
    match outcome
    case BadVote => n
    case PeerBetter =>
      n.(election := Lost, writer := if n.writer.None? || !n.election.Lost? then Some(peer) else n.writer)
    case LocalBetter => CallVote(n.(election := Start, writer := None), env)
    case Counted(complete) =>
      match n.election
      case Start => CallVote(n.(writer := None), env)
      case Lost => if n.writer.None? then n.(writer := Some(peer)) else n
      case InProgress => if complete then WinElection(n, env) else n
      case Won => n
  }

  /** A voter leaves. Losing the writer calls for a new election; losing another voter may complete
      the one in progress. */
  function RemoveVoter(n: Node, peer: string, complete: bool, env: Env): Node {
    if n.writer.Some? && Fold(peer) == Fold(n.writer.value) then StartElectionIfNeeded(n.(writer := None), env)
    else if n.election.InProgress? && complete then WinElection(n, env)
    else n
  }

  function PeerLost(n: Node, peer: string, isRemote: bool, complete: bool, env: Env): Node {
    var n' := PeerRemove(n, peer, false, env);
    if isRemote then n' else RemoveVoter(n', peer, complete, env)
  }

  function PeerJoined(n: Node, peer: string, env: Env): Node {
    if IsWriter(n) then PeerSync(n, Some(peer), env) else n.(outbox := n.outbox + [Protocol(peer)])
  }

  /** While shutting down, only election messages are still answered. */
  function Receive(n: Node, from: string, m: PeerMessage, env: Env): Node {
    match m
    case ElectionMessage(outcome) => HandleElectionOp(n, from, outcome, env)
    case UpdateMessage(e) => if n.shuttingDown then n else PeerUpdate(n, e, false, env)
    case ClearFailureMessage(e, matching) => if n.shuttingDown then n else ClearFailure(n, e, matching, env)
    case RemoveMessage(host, reap) =>
      if n.shuttingDown || host.None? then n else PeerRemove(n, host.value, reap, env)
    case SyncResponseMessage(e, fromWriter) =>
      if n.shuttingDown then n else HandleSyncResponse(n, from, fromWriter, e, env)
  }

  type Cib = map<(string, string), string>   // (attribute, folded node name) to value

  /** The entries a transaction sets (the others it names are deleted). */
  function Entries(attr: string, ops: map<string, Option<string>>): Cib {
    map h | h in ops && ops[h].Some? :: (attr, h) := ops[h].value
  }

  function ApplyRequest(cib: Cib, r: Request): Cib {
    match r
    case Refused => cib
    case Erase(host) => map k | k in cib && k.1 != host :: cib[k]
    case Commit(attr, ops) =>
      (map k | k in cib && !(k.0 == attr && k.1 in ops) :: cib[k]) + Entries(attr, ops)
  }

  /** The CIB works through `node.log` in order: the calls up to `|results|` have been processed, with
      the outcome recorded there, and the replies up to `told` have reached the node. */
  datatype System = System(node: Node, cib: Cib, results: seq<bool>, told: nat)

  datatype Step =
    | Deliver(from: string, message: PeerMessage)
    | CibProcesses(ok: bool)
    | CibReplies
    | CallTimesOut(call: int)
    | TimerFires(name: string)
    | ElectionTimesOut
    | ClientRefresh
    | UnsafeCibChange
    | NodeLost(peer: string, isRemote: bool, complete: bool)
    | ProcessGone(peer: string, complete: bool)
    | NodeJoined(peer: string)
    | MembershipLearns(host: string, id: string)
    | OtherWriterEdits(cib: Cib)
    | BeginShutdown

  /** When a step can happen. The CIB answers in order; while the node is the writer, or has a write
      in flight, nobody else edits the transient attributes; a node that is not an active member, or is
      shutting down, loses every vote. */
  ghost predicate Enabled(s: System, step: Step, env: Env) {
    match step
    case Deliver(_, ElectionMessage(LocalBetter)) => env.active && !s.node.shuttingDown
    case Deliver(_, ElectionMessage(Counted(_))) => env.active && !s.node.shuttingDown
    case CibProcesses(_) => |s.results| < |s.node.log|
    case CibReplies => s.told < |s.results|
    case CallTimesOut(call) => call in s.node.callbacks
    case TimerFires(name) => name in s.node.attributes && s.node.attributes[name].timer.Running?
    case ElectionTimesOut => s.node.election.InProgress?
    case OtherWriterEdits(_) =>
      !IsWriter(s.node) && forall name :: name in s.node.attributes ==> s.node.attributes[name].update == 0
    case _ => true
  }

  function NodeStep(s: System, step: Step, env: Env): Node {
    match step
    case Deliver(from, m) => Receive(s.node, from, m, env)
    case CibReplies => if s.told < |s.results| then CibCallback(s.node, s.told + 1, s.results[s.told], env) else s.node
    case CallTimesOut(call) => CibCallback(s.node, call, false, env)
    case TimerFires(name) => TimerExpired(s.node, name, env)
    case ElectionTimesOut => WinElection(s.node, env)
    case ClientRefresh => WriteAttributes(s.node, true, true, env)
    case UnsafeCibChange =>
      if IsWriter(s.node) && !s.node.shuttingDown then WriteAttributes(s.node, true, false, env) else s.node
    case NodeLost(peer, isRemote, complete) => PeerLost(s.node, peer, isRemote, complete, env)
    case ProcessGone(peer, complete) => RemoveVoter(s.node, peer, complete, env)
    case NodeJoined(peer) => PeerJoined(s.node, peer, env)
    case MembershipLearns(host, id) => s.node.(cache := s.node.cache[Fold(host) := id])
    case BeginShutdown => s.node.(shuttingDown := true)
    case CibProcesses(_) => s.node
    case OtherWriterEdits(_) => s.node
  }

  function Next(s: System, step: Step, env: Env): System {
    var n := NodeStep(s, step, env);
    match step
    case CibProcesses(ok) =>
      if |s.results| < |s.node.log|
      then s.(results := s.results + [ok], cib := if ok then ApplyRequest(s.cib, s.node.log[|s.results|]) else s.cib)
      else s
    case CibReplies => s.(node := n, told := if s.told < |s.results| then s.told + 1 else s.told)
    case OtherWriterEdits(cib) => s.(cib := cib)
    case _ => s.(node := n)
  }

  /** At start-up the node knows nothing, and asks for its own stale attributes to be erased. */
  function Initial(self: string, standAlone: bool, cib: Cib): System {
    System(Node(self, standAlone, false, map[], map[], map[], {}, Start, None, 0,
                if standAlone then [] else [Erase(Fold(self))], map[], []),
           cib, [], 0)
  }

  datatype Event = Event(step: Step, env: Env)

  function Exec(s: System, run: seq<Event>): System {
    if run == [] then s else Next(Exec(s, run[..|run|-1]), run[|run|-1].step, run[|run|-1].env)
  }

  /** Every event of the run was possible when it happened. */
  ghost predicate ValidRun(s: System, run: seq<Event>) {
    run != [] ==>
      && ValidRun(s, run[..|run|-1])
      && ValidEnv(run[|run|-1].env)
      && Enabled(Exec(s, run[..|run|-1]), run[|run|-1].step, run[|run|-1].env)
  }
}
