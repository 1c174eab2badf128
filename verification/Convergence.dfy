/** Nodes that receive the same messages hold the same table, whatever else happens on each of them. */
module Convergence {
  import opened Common
  import opened Model
  import opened Elections
  import opened CibWrites
  import opened Attributes
  import opened Corosync
  import opened Daemon
  import opened Replica
  import opened ClearRequests
  import SyncTransfer

  /** A table, and whether its node is shutting down, when it no longer takes notice of messages. */
  datatype Shared = Shared(table: Table, down: bool)

  function SharedOf(n: Node): Shared {
    Shared(TableOf(n), n.shuttingDown)
  }

  /** What a message does to the table of the node with the given (folded) name; the order of traversal matters to
      requests to clear failures only, and not to all of them. */
  function MessageStep(t: Table, from: string, m: PeerMessage, order: set<string> -> seq<string>, own: string): Table {
    match m
    case UpdateMessage(e) => UpdateTable(t, e, None)
    case ClearFailureMessage(e, matching) => ClearedIn(t, e, matching, order(t.Keys))
    case SyncResponseMessage(e, fromWriter) =>
      if Fold(from) == own then t else LoadTable(SyncTransfer.Receiving(t, fromWriter), e.children, own)
    case RemoveMessage(host, _) => if host.Some? then RemoveFrom(t, Fold(host.value)) else t
    case ElectionMessage(_) => t
  }

  function TableStep(v: Shared, step: Step, order: set<string> -> seq<string>, own: string): Shared {
    match step
    case Deliver(from, m) => if v.down then v else v.(table := MessageStep(v.table, from, m, order, own))
    case NodeLost(peer, _, _) => v.(table := RemoveFrom(v.table, Fold(peer)))
    case BeginShutdown => v.(down := true)
    case _ => v
  }

  /** Messages and membership changes, which every node sees in the same order, and the node's own end. */
  predicate IsShared(step: Step) {
    match step
    case Deliver(_, m) => !m.ElectionMessage?
    case NodeLost(_, _, _) => true
    case BeginShutdown => true
    case _ => false
  }

  lemma {:induction false} EraseEachView(n: Node, hosts: seq<string>)
    ensures SameView(n, EraseEach(n, hosts))
  {
    if hosts != [] {
      EraseEachView(n, hosts[..|hosts|-1]);
    }
  }

  lemma WriteAllView(n: Node, all: bool, noDelay: bool, env: Env)
    ensures SameView(n, WriteAttributes(n, all, noDelay, env))
  {
    WriteEachView(n, env.order(n.attributes.Keys), all, noDelay, env);
  }

  lemma WinView(n: Node, env: Env)
    ensures SameView(n, WinElection(n, env))
  {
    hide EraseEach, WriteAttributes, SyncMessage;
    var n1 := PeerSync(n.(election := Won, writer := Some(n.self)), None, env);
    EraseEachView(n1, env.order(n1.removed));
    WriteAllView(EraseRemoved(n1, env), true, false, env);
  }

  lemma ElectionOpView(n: Node, peer: string, outcome: VoteOutcome, env: Env)
    ensures SameView(n, HandleElectionOp(n, peer, outcome, env))
  {
    hide WinElection, TableOf;
    if outcome.Counted? && n.election.InProgress? && outcome.complete {
      WinView(n, env);
    } else {
      SameAttributes(n, HandleElectionOp(n, peer, outcome, env));
    }
  }

  lemma SameTable(n: Node, n': Node)
    requires n'.attributes == n.attributes
    ensures TableOf(n') == TableOf(n)
  {
  }

  lemma SameAttributes(n: Node, n': Node)
    requires n'.attributes == n.attributes && n'.self == n.self && n'.shuttingDown == n.shuttingDown
    ensures SameView(n, n')
  {
  }

  lemma RemoveVoterView(n: Node, peer: string, complete: bool, env: Env)
    ensures SameView(n, RemoveVoter(n, peer, complete, env))
  {
    hide WinElection, TableOf;
    if n.writer.Some? && Fold(peer) == Fold(n.writer.value) {
      SameAttributes(n, RemoveVoter(n, peer, complete, env));
    } else {
      WinView(n, env);
    }
  }

  /** The node has become that, as far as others can know. */
  ghost predicate Becomes(n: Node, n': Node, v: Shared) {
    SharedOf(n') == v && n'.self == n.self
  }

  lemma MessageView(n: Node, from: string, m: PeerMessage, env: Env)
    requires ValidEnv(env) && Folded(TableOf(n)) && !n.shuttingDown
    ensures Views(n, Receive(n, from, m, env), MessageStep(TableOf(n), from, m, env.order, Fold(n.self)))
    ensures Folded(MessageStep(TableOf(n), from, m, env.order, Fold(n.self)))
  {
    hide HandleElectionOp, PeerUpdate, PeerRemove, ClearFailure, HandleSyncResponse, TableOf, Folded, UpdateTable,
      ClearedIn, RemoveFrom, LoadTable, Fold;
    match m
    case ElectionMessage(outcome) => ElectionOpView(n, from, outcome, env);
    case UpdateMessage(e) => PeerUpdateView(n, e, false, env);
    case ClearFailureMessage(e, matching) =>
      ClearFailureView(n, e, matching, env);
      assert TableOf(n).Keys == n.attributes.Keys by { SameKeys(n); }
    case RemoveMessage(host, reap) => if host.Some? { PeerRemoveView(n, host.value, reap, env); }
    case SyncResponseMessage(e, fromWriter) =>
      if Fold(from) == Fold(n.self) {
        SyncTransfer.OwnSyncIgnored(n, from, fromWriter, e, env);
        SameAttributes(n, HandleSyncResponse(n, from, fromWriter, e, env));
      } else {
        SyncTransfer.SyncResponseView(n, from, fromWriter, e, env);
      }
  }

  lemma SameKeys(n: Node)
    ensures TableOf(n).Keys == n.attributes.Keys
  {
  }

  lemma ReceiveView(n: Node, from: string, m: PeerMessage, env: Env)
    requires ValidEnv(env) && Folded(TableOf(n))
    ensures Becomes(n, Receive(n, from, m, env), TableStep(SharedOf(n), Deliver(from, m), env.order, Fold(n.self)))
    ensures Folded(TableOf(Receive(n, from, m, env)))
  {
    hide TableOf, Folded, MessageStep, HandleElectionOp;
    if !n.shuttingDown {
      hide Receive;
      MessageView(n, from, m, env);
    } else if m.ElectionMessage? {
      ElectionOpView(n, from, m.outcome, env);
    }
  }

  lemma LocalView(s: System, step: Step, env: Env)
    requires !step.Deliver? && Folded(TableOf(s.node))
    ensures Becomes(s.node, NodeStep(s, step, env), TableStep(SharedOf(s.node), step, env.order, Fold(s.node.self)))
    ensures Folded(TableOf(NodeStep(s, step, env)))
  {
    hide CibCallback, TimerExpired, WinElection, WriteAttributes, RemoveVoter, PeerLost, TableOf, Folded, SyncMessage, RemoveFrom;
    var n := s.node;
    match step
    case CibReplies => if s.told < |s.results| { CallbackView(n, s.told + 1, s.results[s.told], env); }
    case CallTimesOut(call) => CallbackView(n, call, false, env);
    case TimerFires(name) => TimerView(n, name, env);
    case ElectionTimesOut => WinView(n, env);
    case ClientRefresh => WriteAllView(n, true, true, env);
    case UnsafeCibChange => WriteAllView(n, true, false, env);
    case ProcessGone(peer, complete) => RemoveVoterView(n, peer, complete, env);
    case NodeLost(peer, isRemote, complete) => LostView(n, peer, isRemote, complete, env);
    case _ => SameTable(n, NodeStep(s, step, env));
  }

  lemma LostView(n: Node, peer: string, isRemote: bool, complete: bool, env: Env)
    requires Folded(TableOf(n))
    ensures Views(n, PeerLost(n, peer, isRemote, complete, env), RemoveFrom(TableOf(n), Fold(peer)))
    ensures Folded(RemoveFrom(TableOf(n), Fold(peer)))
  {
    hide RemoveVoter, PeerRemove, TableOf, Folded, RemoveFrom;
    PeerRemoveView(n, peer, false, env);
    RemoveVoterView(PeerRemove(n, peer, false, env), peer, complete, env);
  }

  /** Each step does to the table exactly what it shares with all nodes, whatever the state of the
      election, the timers and the CIB. */
  lemma StepView(s: System, step: Step, env: Env)
    requires ValidEnv(env) && Folded(TableOf(s.node))
    ensures Becomes(s.node, Next(s, step, env).node, TableStep(SharedOf(s.node), step, env.order, Fold(s.node.self)))
    ensures Folded(TableOf(Next(s, step, env).node))
  {
    hide NodeStep, TableOf, Folded, TableStep;
    if step.Deliver? {
      ReceiveView(s.node, step.from, step.message, env);
      assert NodeStep(s, step, env) == Receive(s.node, step.from, step.message, env) by { DeliverIsReceive(s, step, env); }
    } else {
      LocalView(s, step, env);
      if step.CibProcesses? || step.OtherWriterEdits? {
        assert NodeStep(s, step, env) == s.node by { CibStepIsSilent(s, step, env); }
      }
    }
  }

  lemma DeliverIsReceive(s: System, step: Step, env: Env)
    requires step.Deliver?
    ensures NodeStep(s, step, env) == Receive(s.node, step.from, step.message, env)
  {
  }

  lemma CibStepIsSilent(s: System, step: Step, env: Env)
    requires step.CibProcesses? || step.OtherWriterEdits?
    ensures NodeStep(s, step, env) == s.node
  {
  }

  /** The shared events of a run, in order. */
  function SharedEvents(run: seq<Event>): seq<Event> {
    if run == [] then []
    else SharedEvents(run[..|run|-1]) + (if IsShared(run[|run|-1].step) then [run[|run|-1]] else [])
  }

  function TableRun(v: Shared, events: seq<Event>, own: string): Shared {
    if events == [] then v
    else
      var last := events[|events|-1];
      TableStep(TableRun(v, events[..|events|-1], own), last.step, last.env.order, own)
  }

  ghost predicate ValidEnvs(run: seq<Event>) {
    forall i :: 0 <= i < |run| ==> ValidEnv(run[i].env)
  }

  /** Non-interference: the table a run leads to is determined by its shared events, and the node's name, alone.
      Timer expiries, CIB replies, elections and refreshes do not show in it, nor does hash-table order, but for the
      attribute that a request to clear failures matches first. */
  lemma {:induction false} NonInterference(s: System, run: seq<Event>)
    requires ValidEnvs(run) && Folded(TableOf(s.node))
    ensures Becomes(s.node, Exec(s, run).node, TableRun(SharedOf(s.node), SharedEvents(run), Fold(s.node.self)))
    ensures Folded(TableOf(Exec(s, run).node))
  {
    hide Next, TableStep, SharedOf, Folded;
    if run != [] {
      var front, last := run[..|run|-1], run[|run|-1];
      NonInterference(s, front);
      var s1 := Exec(s, front);
      StepView(s1, last.step, last.env);
      var events := SharedEvents(run);
      if IsShared(last.step) {
        assert events[..|events|-1] == SharedEvents(front);
      } else {
        assert events == SharedEvents(front);
        NotShared(SharedOf(s1.node), last.step, last.env.order, Fold(s.node.self));
      }
    }
  }

  lemma NotShared(v: Shared, step: Step, order: set<string> -> seq<string>, own: string)
    requires !IsShared(step)
    ensures TableStep(v, step, order, own) == v
  {
  }

  /** The step is a sync response, which two nodes may take differently as far as their own values go. */
  predicate IsSync(step: Step) {
    step.Deliver? && step.message.SyncResponseMessage?
  }

  /** The order of traversal makes no difference to such a step. */
  predicate AnyOrderWillDo(step: Step) {
    step.Deliver? && step.message.ClearFailureMessage? ==> NamedChildren(step.message.e.children)
  }

  /** Tables that agree, of nodes that are both live or both shutting down. */
  ghost predicate AlikeShared(v: Shared, w: Shared, apart: set<string>) {
    v.down == w.down && Alike(v.table, w.table, apart)
  }

  lemma AlikeClearedIn(t: Table, u: Table, e: Element, matching: set<string>, names: seq<string>, names': seq<string>, apart: set<string>)
    requires Alike(t, u, apart) && Enumerates(names, t.Keys) && Enumerates(names', u.Keys)
    requires NamedChildren(e.children) || names == names'
    ensures Alike(ClearedIn(t, e, matching, names), ClearedIn(u, e, matching, names'), apart)
  {
    hide ClearedTable, Alike, Filled;
    if NamedChildren(e.children) {
      hide ClearedIn;
      NamedInAnyOrder(t, e, matching, names);
      NamedInAnyOrder(u, e, matching, names');
      AlikeCleared(t, u, e, matching, apart);
    } else {
      var found := FirstMatch(names, matching);
      if found.Some? { AlikeCleared(t, u, Filled(e, found.value), matching, apart); }
    }
  }

  lemma AlikeMessage(t: Table, u: Table, from: string, m: PeerMessage, env: Env, env': Env, own: string, own': string, apart: set<string>)
    requires Alike(t, u, apart) && ValidEnv(env) && ValidEnv(env')
    requires AnyOrderWillDo(Deliver(from, m)) || env.order == env'.order
    requires m.SyncResponseMessage? ==> own in apart && own' in apart && Fold(from) != own && Fold(from) != own'
    ensures Alike(MessageStep(t, from, m, env.order, own), MessageStep(u, from, m, env'.order, own'), apart)
  {
    hide UpdateTable, ClearedIn, LoadTable, Fold;
    match m
    case UpdateMessage(e) => AlikeUpdateTable(t, u, e, None, None, apart);
    case ClearFailureMessage(e, matching) =>
      AlikeClearedIn(t, u, e, matching, env.order(t.Keys), env'.order(u.Keys), apart);
    case SyncResponseMessage(e, fromWriter) =>
      AlikeReceiving(t, u, fromWriter, apart);
      AlikeLoad(SyncTransfer.Receiving(t, fromWriter), SyncTransfer.Receiving(u, fromWriter), e.children, own, own', apart);
    case RemoveMessage(host, _) => if host.Some? { AlikeRemove(t, u, Fold(host.value), apart); }
    case ElectionMessage(_) =>
  }

  lemma AlikeStep(v: Shared, w: Shared, e: Event, e': Event, own: string, own': string, apart: set<string>)
    requires AlikeShared(v, w, apart) && ComparableEvents(e, e', own, own', apart)
    ensures AlikeShared(TableStep(v, e.step, e.env.order, own), TableStep(w, e'.step, e'.env.order, own'), apart)
  {
    hide Alike, MessageStep, Fold, RemoveFrom;
    match e.step
    case Deliver(from, m) => if !v.down { AlikeMessage(v.table, w.table, from, m, e.env, e'.env, own, own', apart); }
    case NodeLost(peer, _, _) => AlikeRemove(v.table, w.table, Fold(peer), apart);
    case _ =>
  }

  lemma AlikeReceiving(t: Table, u: Table, fromWriter: bool, apart: set<string>)
    requires Alike(t, u, apart)
    ensures Alike(SyncTransfer.Receiving(t, fromWriter), SyncTransfer.Receiving(u, fromWriter), apart)
  {
  }

  lemma AlikeRemove(t: Table, u: Table, h: string, apart: set<string>)
    requires Alike(t, u, apart)
    ensures Alike(RemoveFrom(t, h), RemoveFrom(u, h), apart)
  {
  }

  /** The same event at two nodes. If it is a sync response, neither node has sent it, and their own values may differ;
      if it is a request for which the order of traversal matters, that is the same. */
  ghost predicate ComparableEvents(e: Event, e': Event, own: string, own': string, apart: set<string>) {
    && e.step == e'.step && ValidEnv(e.env) && ValidEnv(e'.env)
    && (AnyOrderWillDo(e.step) || e.env.order == e'.env.order)
    && (IsSync(e.step) ==> own in apart && own' in apart && Fold(e.step.from) != own && Fold(e.step.from) != own')
  }

  ghost predicate Comparable(es: seq<Event>, es': seq<Event>, own: string, own': string, apart: set<string>) {
    |es| == |es'| && forall i :: 0 <= i < |es| ==> ComparableEvents(es[i], es'[i], own, own', apart)
  }

  lemma {:induction false} AlikeRun(v: Shared, w: Shared, es: seq<Event>, es': seq<Event>, own: string, own': string, apart: set<string>)
    requires AlikeShared(v, w, apart) && Comparable(es, es', own, own', apart)
    ensures AlikeShared(TableRun(v, es, own), TableRun(w, es', own'), apart)
  {
    hide TableStep, AlikeShared, ComparableEvents;
    if es != [] {
      var front, front' := es[..|es|-1], es'[..|es'|-1];
      AlikeRun(v, w, front, front', own, own', apart);
      AlikeStep(TableRun(v, front, own), TableRun(w, front', own'), es[|es|-1], es'[|es'|-1], own, own', apart);
    }
  }

  /** Two nodes that start from tables that agree, but perhaps on some hosts, and see the same shared events, each
      interleaved with its own timers, replies, elections and refreshes, hold tables that agree as far. */
  lemma AgreementIsKept(s1: System, run1: seq<Event>, s2: System, run2: seq<Event>, apart: set<string>)
    requires ValidEnvs(run1) && ValidEnvs(run2) && Folded(TableOf(s1.node)) && Folded(TableOf(s2.node))
    requires AlikeShared(SharedOf(s1.node), SharedOf(s2.node), apart)
    requires Comparable(SharedEvents(run1), SharedEvents(run2), Fold(s1.node.self), Fold(s2.node.self), apart)
    ensures AlikeShared(SharedOf(Exec(s1, run1).node), SharedOf(Exec(s2, run2).node), apart)
  {
    hide Exec, SharedOf, Folded, AlikeShared, Comparable, Fold, ValidEnvs, SharedEvents;
    NonInterference(s1, run1);
    NonInterference(s2, run2);
    AlikeRun(SharedOf(s1.node), SharedOf(s2.node), SharedEvents(run1), SharedEvents(run2), Fold(s1.node.self), Fold(s2.node.self), apart);
  }

  /** The two runs have the same shared events, as far as that goes. */
  ghost predicate SameEvents(run1: seq<Event>, run2: seq<Event>) {
    var es, es' := SharedEvents(run1), SharedEvents(run2);
    && ValidEnvs(run1) && ValidEnvs(run2) && |es| == |es'|
    && forall i :: 0 <= i < |es| ==> es[i].step == es'[i].step && (AnyOrderWillDo(es[i].step) || es[i].env.order == es'[i].env.order)
  }

  lemma {:induction false} SharedAreValid(run: seq<Event>)
    requires ValidEnvs(run)
    ensures ValidEnvs(SharedEvents(run))
  {
    hide ValidEnv;
    if run != [] {
      SharedAreValid(run[..|run|-1]);
    }
  }

  /** Convergence: without sync responses among the shared events, equal tables stay equal. */
  lemma EqualTablesStayEqual(s1: System, run1: seq<Event>, s2: System, run2: seq<Event>)
    requires SameEvents(run1, run2) && forall i :: 0 <= i < |SharedEvents(run1)| ==> !IsSync(SharedEvents(run1)[i].step)
    requires Folded(TableOf(s1.node)) && Folded(TableOf(s2.node))
    requires AlikeShared(SharedOf(s1.node), SharedOf(s2.node), {})
    ensures AlikeShared(SharedOf(Exec(s1, run1).node), SharedOf(Exec(s2, run2).node), {})
  {
    hide Exec, SharedOf, Folded, AlikeShared, Fold, SharedEvents, AnyOrderWillDo, ValidEnv;
    SharedAreValid(run1);
    SharedAreValid(run2);
    AgreementIsKept(s1, run1, s2, run2, {});
  }

  /** With them, as long as the two nodes are not their senders, the nodes agree on everything but the values of the
      two nodes themselves. */
  lemma OthersStayEqual(s1: System, run1: seq<Event>, s2: System, run2: seq<Event>)
    requires SameEvents(run1, run2)
    requires forall i :: 0 <= i < |SharedEvents(run1)| && IsSync(SharedEvents(run1)[i].step) ==>
      && Fold(SharedEvents(run1)[i].step.from) != Fold(s1.node.self)
      && Fold(SharedEvents(run1)[i].step.from) != Fold(s2.node.self)
    requires Folded(TableOf(s1.node)) && Folded(TableOf(s2.node))
    requires AlikeShared(SharedOf(s1.node), SharedOf(s2.node), {Fold(s1.node.self), Fold(s2.node.self)})
    ensures AlikeShared(SharedOf(Exec(s1, run1).node), SharedOf(Exec(s2, run2).node), {Fold(s1.node.self), Fold(s2.node.self)})
  {
    hide Exec, SharedOf, Folded, AlikeShared, Fold, SharedEvents, AnyOrderWillDo, ValidEnv;
    SharedAreValid(run1);
    SharedAreValid(run2);
    AgreementIsKept(s1, run1, s2, run2, {Fold(s1.node.self), Fold(s2.node.self)});
  }

  // ---- Every table a node can reach is well formed ----

  ghost predicate WellFormed(t: Table) {
    Folded(t) && SyncTransfer.Typed(t)
  }

  lemma UpdateKeepsTyped(t: Table, e: Element)
    requires SyncTransfer.Typed(t)
    ensures SyncTransfer.Typed(UpdateTable(t, e, None))
  {
    hide UpdateOne, UpdateEach;
    SyncTransfer.TypedEach(t, e.attrs, e.children, None);
    SyncTransfer.TypedUpdate(t, e.attrs, None);
  }

  lemma RemovalKeepsTyped(t: Table, h: string)
    requires SyncTransfer.Typed(t)
    ensures SyncTransfer.Typed(RemoveFrom(t, h))
  {
  }

  lemma SyncKeepsWellFormed(n: Node, from: string, peerWon: bool, e: Element, env: Env)
    requires ValidEnv(env) && WellFormed(TableOf(n))
    ensures WellFormed(TableOf(HandleSyncResponse(n, from, peerWon, e, env)))
  {
    hide HandleSyncResponse, Folded, LoadTable;
    if Fold(from) == Fold(n.self) {
      SyncTransfer.OwnSyncIgnored(n, from, peerWon, e, env);
      SameTable(n, HandleSyncResponse(n, from, peerWon, e, env));
    } else {
      SyncTransfer.SyncResponseView(n, from, peerWon, e, env);
      SyncTransfer.TypedUnseen(TableOf(n));
      SyncTransfer.TypedLoad(SyncTransfer.Receiving(TableOf(n), peerWon), e.children, Fold(n.self));
    }
  }

  lemma {:induction false} ClearKeepsWellFormed(n: Node, e: Element, names: seq<string>, matching: set<string>, env: Env)
    requires ValidEnv(env) && WellFormed(TableOf(n))
    ensures WellFormed(TableOf(ClearMatching(n, e, names, matching, env)))
  {
    hide PeerUpdate, TableOf, UpdateOne, UpdateEach, Folded, SyncTransfer.Typed;
    if names != [] {
      var front, name := names[..|names|-1], names[|names|-1];
      ClearKeepsWellFormed(n, e, front, matching, env);
      var n1 := ClearMatching(n, e, front, matching, env);
      var e' := ClearOf(ClearRequest(e, front, matching), name);
      PeerUpdateView(n1, e', false, env);
      SyncTransfer.TypedEach(TableOf(n1), e'.attrs, e'.children, None);
      SyncTransfer.TypedUpdate(TableOf(n1), e'.attrs, None);
    }
  }

  lemma ReceiveKeepsWellFormed(n: Node, from: string, m: PeerMessage, env: Env)
    requires ValidEnv(env) && WellFormed(TableOf(n)) && !n.shuttingDown
    ensures WellFormed(TableOf(Receive(n, from, m, env)))
  {
    hide TableOf, Folded, SyncTransfer.Typed, UpdateTable, RemoveFrom, HandleElectionOp, PeerUpdate, PeerRemove,
      HandleSyncResponse, ClearMatching;
    MessageView(n, from, m, env);
    match m
    case SyncResponseMessage(e, fromWriter) => SyncKeepsWellFormed(n, from, fromWriter, e, env);
    case ClearFailureMessage(e, matching) => ClearKeepsWellFormed(n, e, env.order(n.attributes.Keys), matching, env);
    case UpdateMessage(e) => UpdateKeepsTyped(TableOf(n), e);
    case RemoveMessage(host, _) => if host.Some? { RemovalKeepsTyped(TableOf(n), Fold(host.value)); }
    case ElectionMessage(_) =>
  }

  lemma StepKeepsWellFormed(s: System, step: Step, env: Env)
    requires ValidEnv(env) && WellFormed(TableOf(s.node))
    ensures WellFormed(TableOf(Next(s, step, env).node))
  {
    hide Next, TableOf, Folded, SyncTransfer.Typed, MessageStep, RemoveFrom;
    StepView(s, step, env);
    if step.Deliver? && !s.node.shuttingDown {
      ReceiveKeepsWellFormed(s.node, step.from, step.message, env);
      DeliverIsReceive(s, step, env);
      assert Next(s, step, env).node == NodeStep(s, step, env) by { DeliversToNode(s, step, env); }
    } else if step.NodeLost? {
      RemovalKeepsTyped(TableOf(s.node), Fold(step.peer));
    }
  }

  lemma DeliversToNode(s: System, step: Step, env: Env)
    requires step.Deliver?
    ensures Next(s, step, env).node == NodeStep(s, step, env)
  {
    hide NodeStep;
  }

  /** In every state of every run, node names are filed under their folded form and every attribute that
      belongs in the CIB has a valid set type. */
  lemma {:induction false} ReachableTables(self: string, standAlone: bool, cib: Cib, run: seq<Event>)
    requires ValidRun(Initial(self, standAlone, cib), run)
    ensures WellFormed(TableOf(Exec(Initial(self, standAlone, cib), run).node))
  {
    if run != [] {
      hide Next, Enabled, WellFormed, TableOf;
      ReachableTables(self, standAlone, cib, run[..|run|-1]);
      StepKeepsWellFormed(Exec(Initial(self, standAlone, cib), run[..|run|-1]), run[|run|-1].step, run[|run|-1].env);
    }
  }
}
