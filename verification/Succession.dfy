/** Who writes, who leads, and what becomes of lost nodes: results over every step and every run. */
module Succession {
  import opened Common
  import opened Model
  import opened Elections
  import opened CibWrites
  import opened Attributes
  import opened Corosync
  import opened Daemon
  import opened CibAgreement
  import opened Lifecycle
  import WriterRuns

  // ---- Winning an election ----

  lemma {:induction false} EraseEachShape(n: Node, hosts: seq<string>)
    ensures var n' := EraseEach(n, hosts);
      && n'.attributes == n.attributes && n'.election == n.election && n'.writer == n.writer
      && n'.shuttingDown == n.shuttingDown && n'.self == n.self
      && |n'.log| == |n.log| + |hosts| && n'.log[..|n.log|] == n.log
      && (forall i :: 0 <= i < |hosts| ==> n'.log[|n.log| + i] == Erase(hosts[i]))
      && n'.removed == n.removed - (set h | h in hosts)
  {
    if hosts != [] {
      EraseEachShape(n, hosts[..|hosts|-1]);
      assert hosts == hosts[..|hosts|-1] + [hosts[|hosts|-1]];
    }
  }

  /** The erasure requests in the part of the log after the first `from` calls. */
  ghost predicate ErasedIn(log: seq<Request>, from: nat, h: string) {
    exists j :: from <= j < |log| && log[j] == Erase(h)
  }

  /** Winning keeps the log, erases exactly the removed peers, and makes the node the recorded writer. */
  lemma WinShape(n: Node, env: Env)
    requires ValidEnv(env)
    ensures var n' := WinElection(n, env);
      && IsWriter(n') && n'.writer == Some(n.self) && n'.shuttingDown == n.shuttingDown && n'.self == n.self
      && Extends(n.log, n'.log) && n'.removed == {}
      && (forall h :: ErasedIn(n'.log, |n.log|, h) <==> h in n.removed)
      && (forall h :: Held(n, h) ==> Held(n', h))
  {
    hide EraseEach, WriteEach, SyncMessage, Held;
    var n1 := PeerSync(n.(election := Won, writer := Some(n.self)), None, env);
    var hosts := env.order(n1.removed);
    assert Enumerates(hosts, n1.removed);
    EraseEachShape(n1, hosts);
    var n2 := EraseEach(n1, hosts);
    WriteEachGrows(n2, env.order(n2.attributes.Keys), true, false, env);
    var n' := WinElection(n, env);
    assert n' == WriteAttributes(n2, true, false, env);
    assert (set h | h in hosts) == n.removed;
    assert n'.log[..|n.log|] == n'.log[..|n2.log|][..|n.log|];
    forall h ensures ErasedIn(n'.log, |n.log|, h) <==> h in n.removed {
      ErasuresOf(n.log, hosts, n2.log, n'.log, h);
    }
    forall h | Held(n, h) ensures Held(n', h) { HeldSame(n, n2, h); }
  }

  lemma HeldSame(n: Node, n': Node, h: string)
    requires n'.attributes == n.attributes
    ensures Held(n, h) == Held(n', h)
  {
  }

  lemma ErasuresOf(log: seq<Request>, hosts: seq<string>, log2: seq<Request>, log': seq<Request>, h: string)
    requires |log2| == |log| + |hosts| <= |log'| && log'[..|log2|] == log2
    requires forall i :: 0 <= i < |hosts| ==> log2[|log| + i] == Erase(hosts[i])
    requires forall j :: |log2| <= j < |log'| ==> !log'[j].Erase?
    ensures ErasedIn(log', |log|, h) <==> h in hosts
  {
    assert forall j :: 0 <= j < |log2| ==> log'[j] == log'[..|log2|][j];
    if h in hosts {
      var i :| 0 <= i < |hosts| && hosts[i] == h;
      assert log'[|log| + i] == Erase(h);
    }
    if ErasedIn(log', |log|, h) {
      var j :| |log| <= j < |log'| && log'[j] == Erase(h);
      assert log2[|log| + (j - |log|)] == Erase(hosts[j - |log|]);
    }
  }

  /** The attribute has a transaction in flight or a timer running towards one. */
  predicate Busy(a: Attr) {
    a.update != 0 || a.timer.Running?
  }

  predicate KnowsHost(n: Node, a: Attr, h: string) {
    h in a.values && XmlIdFor(n, h, a.values[h]).Some?
  }

  lemma SendMakesBusy(n: Node, name: string, env: Env, h: string)
    requires IsWriter(n) && name in n.attributes && KnowsHost(n, n.attributes[name], h)
    ensures var n' := SendTransaction(n, name, env); name in n'.attributes && Busy(n'.attributes[name])
  {
    var a := n.attributes[name];
    assert h in Snapshot(n, a) && h in Prepared(n, a).values;
    hide Snapshot, Prepared, LearnedIds;
  }

  lemma WriteMakesBusy(n: Node, name: string, ignoreDelay: bool, env: Env, h: string)
    requires IsWriter(n) && name in n.attributes && Writable(n, n.attributes[name])
    requires n.attributes[name].update != 0 ==> n.attributes[name].update >= n.lastDone
    requires KnowsHost(n, n.attributes[name], h)
    ensures var n' := WriteAttribute(n, name, ignoreDelay, env); name in n'.attributes && Busy(n'.attributes[name])
  {
    hide SendTransaction, XmlIdFor;
    SendMakesBusy(n, name, env, h);
  }

  lemma AskedMakesBusy(n: Node, name: string, noDelay: bool, env: Env, c: Side, h: string)
    requires Base(n, c) && IsWriter(n) && name in n.attributes && Writable(n, n.attributes[name])
    requires KnowsHost(n, n.attributes[name], h)
    ensures var n' := WriteIfAsked(n, name, true, noDelay, env); name in n'.attributes && Busy(n'.attributes[name])
  {
    hide WriteAttribute;
    var a := n.attributes[name];
    var n1 := SetAttr(n, name, a.(changed := true));
    assert Sound(n, c, name, a);
    WriteMakesBusy(n, name, noDelay || a.forceWrite, env, h);
    assert KnowsHost(n1, n1.attributes[name], h);
    WriteMakesBusy(n1, name, noDelay || a.forceWrite, env, h);
  }

  lemma {:induction false} WriteEachElsewhere(n: Node, names: seq<string>, noDelay: bool, env: Env, c: Side, name: string)
    requires Base(n, c) && name in n.attributes && name !in names
    requires forall i :: 0 <= i < |names| ==> names[i] in n.attributes
    ensures var n' := WriteEach(n, names, true, noDelay, env);
      && name in n'.attributes && n'.attributes[name] == n.attributes[name]
      && n'.cache == n.cache && n.xmlIds.Keys <= n'.xmlIds.Keys
  {
    hide Base, WriteIfAsked;
    if names != [] {
      var front, last := names[..|names|-1], names[|names|-1];
      WriteEachElsewhere(n, front, noDelay, env, c, name);
      WriteEachKeeps(n, front, true, noDelay, env, c);
      var n1 := WriteEach(n, front, true, noDelay, env);
      WriteIfAskedKeeps(n1, last, true, noDelay, env, c);
      IdsOnlyGrow(n1, last, true, noDelay, env);
    }
  }

  lemma SendIds(n: Node, name: string, env: Env)
    requires name in n.attributes
    ensures var n' := SendTransaction(n, name, env); n'.cache == n.cache && n.xmlIds.Keys <= n'.xmlIds.Keys
  {
    hide Snapshot, Prepared, LearnedIds, AfterFailure;
  }

  lemma IdsOnlyGrow(n: Node, name: string, all: bool, noDelay: bool, env: Env)
    ensures var n' := WriteIfAsked(n, name, all, noDelay, env); n'.cache == n.cache && n.xmlIds.Keys <= n'.xmlIds.Keys
  {
    hide SendTransaction;
    if name in n.attributes {
      SendIds(n, name, env);
      SendIds(SetAttr(n, name, n.attributes[name].(changed := true)), name, env);
    }
  }

  lemma {:induction false} WriteAllMakesBusy(n: Node, names: seq<string>, noDelay: bool, env: Env, c: Side, name: string, h: string)
    requires Base(n, c) && IsWriter(n) && name in names && name in n.attributes
    requires Writable(n, n.attributes[name]) && KnowsHost(n, n.attributes[name], h)
    requires forall i :: 0 <= i < |names| ==> names[i] in n.attributes
    requires forall i, j :: 0 <= i < j < |names| ==> names[i] != names[j]
    ensures var n' := WriteEach(n, names, true, noDelay, env); name in n'.attributes && Busy(n'.attributes[name])
  {
    hide Base, WriteIfAsked;
    var front, last := names[..|names|-1], names[|names|-1];
    var n1 := WriteEach(n, front, true, noDelay, env);
    WriteEachKeeps(n, front, true, noDelay, env, c);
    if name == last {
      WriteEachElsewhere(n, front, noDelay, env, c, name);
      AskedMakesBusy(n1, name, noDelay, env, c, h);
    } else {
      assert name in front;
      WriteAllMakesBusy(n, front, noDelay, env, c, name, h);
      WriteIfAskedKeeps(n1, last, true, noDelay, env, c);
    }
  }

  /** Winning an election, in any reachable state, is safe and complete: no removed peer is left over and
      each is erased, no node that has a value is erased, and every attribute that belongs in the CIB and
      has a value on a node with known XML ID is being written or about to be. */
  lemma WinIsSafeAndComplete(self: string, standAlone: bool, cib: Cib, run: seq<Event>, env: Env)
    requires ValidRun(Initial(self, standAlone, cib), run) && ValidEnv(env)
    ensures var n := Exec(Initial(self, standAlone, cib), run).node;
      var n' := WinElection(n, env);
      && n'.removed == {}
      && (forall h :: ErasedIn(n'.log, |n.log|, h) <==> h in n.removed)
      && (forall h :: ErasedIn(n'.log, |n.log|, h) ==> !Held(n, h))
      && (forall name, h :: name in n.attributes && Writable(n, n.attributes[name]) && KnowsHost(n, n.attributes[name], h) ==>
            name in n'.attributes && Busy(n'.attributes[name]))
  {
    hide Exec, WinElection, ErasedIn;
    var s := Exec(Initial(self, standAlone, cib), run);
    WriterRuns.RunKeeps(self, standAlone, cib, run);
    var n, c := s.node, WriterRuns.SideOf(s);
    WinShape(n, env);
    forall h | h in n.removed ensures !Held(n, h) {
      assert forall name :: name in n.attributes ==> Sound(n, c, name, n.attributes[name]);
    }
    forall name, h | name in n.attributes && Writable(n, n.attributes[name]) && KnowsHost(n, n.attributes[name], h)
      ensures var n' := WinElection(n, env); name in n'.attributes && Busy(n'.attributes[name])
    {
      WinMakesBusy(n, env, c, name, h);
    }
  }

  lemma WinMakesBusy(n: Node, env: Env, c: Side, name: string, h: string)
    requires Inv(n, c) && ValidEnv(env) && name in n.attributes
    requires Writable(n, n.attributes[name]) && KnowsHost(n, n.attributes[name], h)
    ensures var n' := WinElection(n, env); name in n'.attributes && Busy(n'.attributes[name])
  {
    hide Base, Inv, EraseEach, WriteEach, SyncMessage;
    var n1 := PeerSync(n.(election := Won, writer := Some(n.self)), None, env);
    BaseIgnoresElection(n, n1, c);
    var hosts := env.order(n1.removed);
    assert Enumerates(hosts, n1.removed);
    assert forall i :: 0 <= i < |hosts| ==> hosts[i] in hosts;
    EraseEachKeeps(n1, hosts, c);
    EraseKeepsIds(n1, hosts);
    var n2 := EraseEach(n1, hosts);
    var names := env.order(n2.attributes.Keys);
    assert Enumerates(names, n2.attributes.Keys);
    assert forall i :: 0 <= i < |names| ==> names[i] in names;
    WriteAllMakesBusy(n2, names, false, env, c, name, h);
  }

  lemma {:induction false} EraseKeepsIds(n: Node, hosts: seq<string>)
    ensures var n' := EraseEach(n, hosts); n'.cache == n.cache && n'.xmlIds == n.xmlIds && n'.standAlone == n.standAlone
  {
    if hosts != [] {
      EraseKeepsIds(n, hosts[..|hosts|-1]);
    }
  }

  // ---- Every step ----

  /** What any step does to the log, the removed peers and the writer. */
  ghost predicate Progress(n: Node, n': Node) {
    && Extends(n.log, n'.log)
    && (forall h :: h in n.removed ==> h in n'.removed || Held(n', h) || ErasedIn(n'.log, |n.log|, h))
    && (!IsWriter(n) && !IsWriter(n') ==> n'.log == n.log)
  }

  lemma WinIsProgress(n: Node, env: Env)
    requires ValidEnv(env)
    ensures Progress(n, WinElection(n, env))
  {
    hide WinElection;
    WinShape(n, env);
  }

  lemma SilentIsProgress(n: Node, n': Node)
    requires n'.log == n.log && n'.removed == n.removed
    ensures Progress(n, n')
  {
  }

  /** Removing a peer leaves it to be erased, or asks for its erasure. */
  lemma RemoveShape(n: Node, host: string, uncache: bool, env: Env)
    ensures var n' := PeerRemove(n, host, uncache, env);
      && Extends(n.log, n'.log) && n.removed <= n'.removed
      && (Fold(host) in n'.removed || ErasedIn(n'.log, |n.log|, Fold(host)))
      && (!IsWriter(n) ==> n'.log == n.log && !IsWriter(n'))
      && (IsWriter(n) ==> n'.election == n.election)
      && n'.writer == n.writer && n'.shuttingDown == n.shuttingDown && n'.self == n.self
      && (n'.election == n.election || (n.writer.None? && n'.election.InProgress?))
  {
    var n' := PeerRemove(n, host, uncache, env);
    if IsWriter(n) {
      assert n'.log[|n.log|] == Erase(Fold(host));
    }
  }

  lemma RemoveVoterProgress(n: Node, peer: string, complete: bool, env: Env)
    requires ValidEnv(env)
    ensures Progress(n, RemoveVoter(n, peer, complete, env))
  {
    hide WinElection, Progress;
    WinIsProgress(n, env);
    if n.writer.Some? && Fold(peer) == Fold(n.writer.value) {
      SilentIsProgress(n, RemoveVoter(n, peer, complete, env));
    } else {
      SilentIsProgress(n, n);
    }
  }

  lemma LossProgress(n: Node, peer: string, isRemote: bool, complete: bool, env: Env)
    requires ValidEnv(env)
    ensures var n' := PeerLost(n, peer, isRemote, complete, env);
      && Progress(n, n')
      && (Fold(peer) in n'.removed || Held(n', Fold(peer)) || ErasedIn(n'.log, |n.log|, Fold(peer)))
  {
    hide RemoveVoter, PeerRemove, Held;
    RemoveShape(n, peer, false, env);
    var n1 := PeerRemove(n, peer, false, env);
    RemoveVoterProgress(n1, peer, complete, env);
    var n' := PeerLost(n, peer, isRemote, complete, env);
    assert n'.log[..|n.log|] == n'.log[..|n1.log|][..|n.log|];
    forall h ensures ErasedIn(n1.log, |n.log|, h) || ErasedIn(n'.log, |n1.log|, h) ==> ErasedIn(n'.log, |n.log|, h) {
      if ErasedIn(n1.log, |n.log|, h) {
        var j :| |n.log| <= j < |n1.log| && n1.log[j] == Erase(h);
        assert n'.log[j] == n'.log[..|n1.log|][j];
      }
    }
  }

  lemma ElectionOpProgress(n: Node, peer: string, outcome: VoteOutcome, env: Env)
    requires ValidEnv(env)
    ensures Progress(n, HandleElectionOp(n, peer, outcome, env))
  {
    hide WinElection, Progress;
    WinIsProgress(n, env);
    if !(outcome.Counted? && outcome.complete && n.election.InProgress?) {
      SilentIsProgress(n, HandleElectionOp(n, peer, outcome, env));
    }
  }

  /** Calls are only added; nothing happens to the removed peers. */
  ghost predicate Logs(n: Node, n': Node) {
    Extends(n.log, n'.log) && n'.removed == n.removed && n'.election == n.election
  }

  lemma SendLogs(n: Node, name: string, env: Env)
    requires name in n.attributes
    ensures Logs(n, SendTransaction(n, name, env))
  {
    hide Snapshot, Prepared, LearnedIds, AfterFailure;
  }

  lemma WriteLogs(n: Node, name: string, ignoreDelay: bool, env: Env)
    ensures Logs(n, WriteAttribute(n, name, ignoreDelay, env))
  {
    hide SendTransaction;
    if name in n.attributes { SendLogs(n, name, env); }
  }

  lemma {:induction false} WriteEachLogs(n: Node, names: seq<string>, all: bool, noDelay: bool, env: Env)
    ensures Logs(n, WriteEach(n, names, all, noDelay, env))
  {
    hide WriteAttribute;
    if names != [] {
      WriteEachLogs(n, names[..|names|-1], all, noDelay, env);
      var n1, name := WriteEach(n, names[..|names|-1], all, noDelay, env), names[|names|-1];
      var n2 := WriteEach(n, names, all, noDelay, env);
      if name in n1.attributes {
        var a := n1.attributes[name];
        WriteLogs(n1, name, noDelay || a.forceWrite, env);
        WriteLogs(SetAttr(n1, name, a.(changed := true)), name, noDelay || a.forceWrite, env);
      }
      assert n2.log[..|n.log|] == n2.log[..|n1.log|][..|n.log|];
    }
  }

  lemma CallbackProgress(n: Node, call: int, ok: bool, env: Env)
    ensures Progress(n, CibCallback(n, call, ok, env))
  {
    hide WriteAttribute, Confirmed, AfterFailure;
    if call in n.callbacks && n.callbacks[call] in n.attributes && ok {
      var name := n.callbacks[call];
      var n1 := SetAttr(n.(callbacks := n.callbacks - {call}), name, Confirmed(n.attributes[name])).(lastDone := call);
      WriteLogs(n1, name, false, env);
    }
  }

  lemma TimerProgress(n: Node, name: string, env: Env)
    ensures Progress(n, TimerExpired(n, name, env))
  {
    hide WriteAttribute;
    if name in n.attributes {
      WriteLogs(SetAttr(n, name, n.attributes[name].(timer := Idle)), name, false, env);
    }
  }

  lemma SyncProgress(n: Node, peer: string, peerWon: bool, e: Element, env: Env)
    ensures Progress(n, HandleSyncResponse(n, peer, peerWon, e, env))
  {
    hide PeerSyncResponse, Held;
    SyncResponseGrows(CheckForNewWriter(n, peer, peerWon, env), peerWon, e, env);
  }

  lemma ReceiveProgress(n: Node, from: string, m: PeerMessage, env: Env)
    requires ValidEnv(env)
    ensures Progress(n, Receive(n, from, m, env))
  {
    hide HandleElectionOp, PeerUpdate, PeerRemove, HandleSyncResponse, ClearMatching, Held;
    SilentIsProgress(n, n);
    match m
    case ElectionMessage(outcome) => ElectionOpProgress(n, from, outcome, env);
    case UpdateMessage(e) => PeerUpdateGrows(n, e, false, env);
    case ClearFailureMessage(e, matching) => ClearMatchingGrows(n, e, env.order(n.attributes.Keys), matching, env);
    case RemoveMessage(host, reap) => if host.Some? { RemoveShape(n, host.value, reap, env); }
    case SyncResponseMessage(e, fromWriter) => SyncProgress(n, from, fromWriter, e, env);
  }

  lemma StepProgress(s: System, step: Step, env: Env)
    requires ValidEnv(env)
    ensures var n, n' := s.node, Next(s, step, env).node;
      && Extends(n.log, n'.log)
      && (forall h :: h in n.removed ==> h in n'.removed || Held(n', h) || ErasedIn(n'.log, |n.log|, h))
      && (!step.ClientRefresh? ==> Progress(n, n'))
  {
    hide Receive, CibCallback, TimerExpired, WinElection, WriteEach, PeerLost, RemoveVoter, SyncMessage, Held;
    var n := s.node;
    SilentIsProgress(n, n);
    match step
    case Deliver(from, m) => ReceiveProgress(n, from, m, env);
    case CibReplies => if s.told < |s.results| { CallbackProgress(n, s.told + 1, s.results[s.told], env); }
    case CallTimesOut(call) => CallbackProgress(n, call, false, env);
    case TimerFires(name) => TimerProgress(n, name, env);
    case ElectionTimesOut => WinIsProgress(n, env);
    case ClientRefresh => WriteEachLogs(n, env.order(n.attributes.Keys), true, true, env);
    case UnsafeCibChange => WriteEachLogs(n, env.order(n.attributes.Keys), true, false, env);
    case NodeLost(peer, isRemote, complete) => LossProgress(n, peer, isRemote, complete, env);
    case ProcessGone(peer, complete) => RemoveVoterProgress(n, peer, complete, env);
    case _ =>
  }

  /** A node that is not the writer, and does not become it, issues no CIB call in any step but a client's
      request to refresh. */
  lemma OnlyTheWriterWrites(s: System, step: Step, env: Env)
    requires ValidEnv(env) && !step.ClientRefresh?
    requires !IsWriter(s.node) && !IsWriter(Next(s, step, env).node)
    ensures Next(s, step, env).node.log == s.node.log
  {
    hide Next;
    StepProgress(s, step, env);
  }

  // ---- The fate of removed peers ----

  /** The step removes the peer from this node's memory. */
  predicate Removes(s: System, step: Step, h: string) {
    match step
    case Deliver(_, RemoveMessage(host, _)) => host.Some? && Fold(host.value) == h && !s.node.shuttingDown
    case NodeLost(peer, _, _) => Fold(peer) == h
    case _ => false
  }

  lemma RemovalStarts(s: System, step: Step, env: Env, h: string)
    requires ValidEnv(env) && Removes(s, step, h)
    ensures var n' := Next(s, step, env).node; h in n'.removed || Held(n', h) || ErasedIn(n'.log, |s.node.log|, h)
  {
    hide PeerLost, PeerRemove;
    match step
    case Deliver(_, RemoveMessage(host, reap)) => RemoveShape(s.node, host.value, reap, env);
    case NodeLost(peer, isRemote, complete) => LossProgress(s.node, peer, isRemote, complete, env);
  }

  /** Removal obligation: once a peer is removed, and as long as no value is set for it again, it is still
      listed for erasure or this node has asked the CIB to erase it since. */
  lemma {:induction false} RemovalObligation(s: System, run: seq<Event>, k: nat, h: string)
    requires ValidRun(s, run) && k < |run| && Removes(Exec(s, run[..k]), run[k].step, h)
    requires forall i :: k < i <= |run| ==> !Held(Exec(s, run[..i]).node, h)
    ensures var n := Exec(s, run).node; h in n.removed || ErasedIn(n.log, |Exec(s, run[..k]).node.log|, h)
    ensures Extends(Exec(s, run[..k]).node.log, Exec(s, run).node.log)
  {
    hide Next, Held, Removes, Enabled;
    var front, last := run[..|run|-1], run[|run|-1];
    var s1, s2 := Exec(s, front), Exec(s, run);
    StepProgress(s1, last.step, last.env);
    assert run[..|run|] == run;
    assert !Held(Exec(s, run[..|run|]).node, h);
    if k == |run| - 1 {
      RemovalStarts(s1, last.step, last.env, h);
    } else {
      assert front[..k] == run[..k];
      forall i | k < i <= |front| ensures !Held(Exec(s, front[..i]).node, h) { assert front[..i] == run[..i]; }
      RemovalObligation(s, front, k, h);
      ExtendErased(Exec(s, run[..k]).node.log, s1.node.log, s2.node.log, h);
    }
  }

  lemma ExtendErased(log0: seq<Request>, log1: seq<Request>, log2: seq<Request>, h: string)
    requires Extends(log0, log1) && Extends(log1, log2)
    ensures Extends(log0, log2)
    ensures ErasedIn(log1, |log0|, h) || ErasedIn(log2, |log1|, h) ==> ErasedIn(log2, |log0|, h)
  {
    assert log2[..|log0|] == log2[..|log1|][..|log0|];
    if ErasedIn(log1, |log0|, h) {
      var j :| |log0| <= j < |log1| && log1[j] == Erase(h);
      assert log2[j] == log2[..|log1|][j];
    }
  }

  // ---- There is always a writer, or an election, or a shutdown ----

  predicate Led(n: Node) {
    n.writer.Some? || n.election.InProgress? || n.shuttingDown
  }

  /** The step makes the node forget its writer while no election is in progress. */
  predicate Abandons(s: System, step: Step) {
    && !s.node.shuttingDown && !s.node.election.InProgress?
    && match step
       case NodeLost(peer, isRemote, _) => !isRemote && s.node.writer.Some? && Fold(peer) == Fold(s.node.writer.value)
       case ProcessGone(peer, _) => s.node.writer.Some? && Fold(peer) == Fold(s.node.writer.value)
       case _ => false
  }

  lemma RemoveVoterLed(n: Node, peer: string, complete: bool, env: Env)
    requires ValidEnv(env) && Led(n)
    ensures Led(RemoveVoter(n, peer, complete, env)) <==>
      env.active || n.shuttingDown || n.election.InProgress? || !(n.writer.Some? && Fold(peer) == Fold(n.writer.value))
  {
    hide WinElection;
    WinShape(n, env);
  }

  lemma ElectionOpLed(n: Node, peer: string, outcome: VoteOutcome, env: Env)
    requires ValidEnv(env) && Led(n) && !n.shuttingDown
    requires outcome.LocalBetter? || outcome.Counted? ==> env.active
    ensures Led(HandleElectionOp(n, peer, outcome, env))
  {
    hide WinElection;
    WinShape(n, env);
  }

  lemma ShutdownStaysLed(s: System, step: Step, env: Env)
    requires ValidEnv(env) && s.node.shuttingDown
    ensures Next(s, step, env).node.shuttingDown
  {
    hide CibCallback, TimerExpired, WinElection, WriteEach, PeerLost, RemoveVoter, HandleElectionOp, SyncMessage;
    var n := s.node;
    match step
    case Deliver(from, m) => if m.ElectionMessage? { ElectionOpShutdown(n, from, m.outcome, env); }
    case ElectionTimesOut => WinShape(n, env);
    case ProcessGone(peer, complete) => RemoveVoterShutdown(n, peer, complete, env);
    case CibReplies => if s.told < |s.results| { CallbackLed(n, s.told + 1, s.results[s.told], env); }
    case CallTimesOut(call) => CallbackLed(n, call, false, env);
    case TimerFires(name) => TimerLed(n, name, env);
    case ClientRefresh => WriteEachLed(n, env.order(n.attributes.Keys), true, true, env);
    case UnsafeCibChange =>
    case NodeLost(peer, isRemote, complete) =>
      LostShutdown(n, peer, isRemote, complete, env);
    case _ =>
  }

  lemma ElectionOpShutdown(n: Node, peer: string, outcome: VoteOutcome, env: Env)
    requires ValidEnv(env) && n.shuttingDown
    ensures HandleElectionOp(n, peer, outcome, env).shuttingDown
  {
    hide WinElection;
    WinShape(n, env);
  }

  lemma RemoveVoterShutdown(n: Node, peer: string, complete: bool, env: Env)
    requires ValidEnv(env) && n.shuttingDown
    ensures RemoveVoter(n, peer, complete, env).shuttingDown
  {
    hide WinElection;
    WinShape(n, env);
  }

  lemma LostShutdown(n: Node, peer: string, isRemote: bool, complete: bool, env: Env)
    requires ValidEnv(env) && n.shuttingDown
    ensures PeerLost(n, peer, isRemote, complete, env).shuttingDown
  {
    hide PeerRemove, RemoveVoter;
    RemoveShape(n, peer, false, env);
    RemoveVoterShutdown(PeerRemove(n, peer, false, env), peer, complete, env);
  }

  ghost predicate SameLead(n: Node, n': Node) {
    n'.self == n.self && n'.writer == n.writer && n'.shuttingDown == n.shuttingDown
    && (n'.election == n.election || (n.writer.None? && n'.election.InProgress?))
  }

  lemma WriteLed(n: Node, name: string, ignoreDelay: bool, env: Env)
    ensures SameLead(n, WriteAttribute(n, name, ignoreDelay, env))
  {
    hide Snapshot, Prepared, LearnedIds, AfterFailure;
  }

  lemma {:induction false} WriteEachLed(n: Node, names: seq<string>, all: bool, noDelay: bool, env: Env)
    ensures SameLead(n, WriteEach(n, names, all, noDelay, env))
  {
    hide WriteAttribute;
    if names != [] {
      WriteEachLed(n, names[..|names|-1], all, noDelay, env);
      var n1, name := WriteEach(n, names[..|names|-1], all, noDelay, env), names[|names|-1];
      if name in n1.attributes {
        var a := n1.attributes[name];
        WriteLed(n1, name, noDelay || a.forceWrite, env);
        WriteLed(SetAttr(n1, name, a.(changed := true)), name, noDelay || a.forceWrite, env);
      }
    }
  }

  lemma CallbackLed(n: Node, call: int, ok: bool, env: Env)
    ensures SameLead(n, CibCallback(n, call, ok, env))
  {
    hide WriteAttribute, Confirmed, AfterFailure;
    if call in n.callbacks && n.callbacks[call] in n.attributes && ok {
      var name := n.callbacks[call];
      var n1 := SetAttr(n.(callbacks := n.callbacks - {call}), name, Confirmed(n.attributes[name])).(lastDone := call);
      WriteLed(n1, name, false, env);
    }
  }

  lemma TimerLed(n: Node, name: string, env: Env)
    ensures SameLead(n, TimerExpired(n, name, env))
  {
    hide WriteAttribute;
    if name in n.attributes {
      WriteLed(SetAttr(n, name, n.attributes[name].(timer := Idle)), name, false, env);
    }
  }

  lemma ReceiveLed(s: System, from: string, m: PeerMessage, env: Env)
    requires ValidEnv(env) && Led(s.node) && !s.node.shuttingDown && Enabled(s, Deliver(from, m), env)
    ensures Led(Receive(s.node, from, m, env))
  {
    hide HandleElectionOp, PeerUpdate, PeerRemove, PeerSyncResponse, ClearMatching;
    var n := s.node;
    match m
    case ElectionMessage(outcome) => ElectionOpLed(n, from, outcome, env);
    case UpdateMessage(e) => PeerUpdateGrows(n, e, false, env);
    case ClearFailureMessage(e, matching) => ClearMatchingGrows(n, e, env.order(n.attributes.Keys), matching, env);
    case RemoveMessage(host, reap) => if host.Some? { RemoveShape(n, host.value, reap, env); }
    case SyncResponseMessage(e, fromWriter) =>
      SyncResponseGrows(CheckForNewWriter(n, from, fromWriter, env), fromWriter, e, env);
  }

  /** No idle cluster without a writer: from a state with a recorded writer, an election in progress or a
      shutdown under way, every step leads to such a state, unless it makes the node forget its writer while
      the node is not an active member and so cannot call an election; and then it does not. */
  lemma NeverWithoutAWriter(s: System, step: Step, env: Env)
    requires ValidEnv(env) && Enabled(s, step, env) && Led(s.node)
    ensures Led(Next(s, step, env).node) <==> env.active || !Abandons(s, step)
  {
    hide Receive, CibCallback, TimerExpired, WinElection, WriteEach, PeerRemove, RemoveVoter, SyncMessage;
    var n := s.node;
    if n.shuttingDown {
      ShutdownStaysLed(s, step, env);
    } else {
      match step
      case Deliver(from, m) => ReceiveLed(s, from, m, env);
      case CibReplies => CallbackLed(n, s.told + 1, s.results[s.told], env);
      case CallTimesOut(call) => CallbackLed(n, call, false, env);
      case TimerFires(name) => TimerLed(n, name, env);
      case ElectionTimesOut => WinShape(n, env);
      case ClientRefresh => WriteEachLed(n, env.order(n.attributes.Keys), true, true, env);
      case UnsafeCibChange => WriteEachLed(n, env.order(n.attributes.Keys), true, false, env);
      case NodeLost(peer, isRemote, complete) =>
        RemoveShape(n, peer, false, env);
        RemoveVoterLed(PeerRemove(n, peer, false, env), peer, complete, env);
      case ProcessGone(peer, complete) => RemoveVoterLed(n, peer, complete, env);
      case _ =>
    }
  }

  /** The same over whole runs, for a node that stays an active member. */
  lemma {:induction false} LedForever(s: System, run: seq<Event>)
    requires ValidRun(s, run) && Led(s.node) && forall i :: 0 <= i < |run| ==> run[i].env.active
    ensures Led(Exec(s, run).node)
  {
    hide Next, Enabled, Led, Abandons;
    if run != [] {
      LedForever(s, run[..|run|-1]);
      NeverWithoutAWriter(Exec(s, run[..|run|-1]), run[|run|-1].step, run[|run|-1].env);
    }
  }

  // ---- Who the writer is ----

  /** A node that has won records itself as writer, unless it has seen itself leave. */
  predicate KnowsItself(n: Node) {
    IsWriter(n) && n.writer.Some? ==> Fold(n.writer.value) == Fold(n.self)
  }

  lemma ElectionOpKnows(n: Node, peer: string, outcome: VoteOutcome, env: Env)
    requires ValidEnv(env) && KnowsItself(n)
    ensures KnowsItself(HandleElectionOp(n, peer, outcome, env))
  {
    hide WinElection;
    WinShape(n, env);
  }

  lemma RemoveVoterKnows(n: Node, peer: string, complete: bool, env: Env)
    requires ValidEnv(env) && KnowsItself(n)
    ensures KnowsItself(RemoveVoter(n, peer, complete, env))
  {
    hide WinElection;
    WinShape(n, env);
  }

  lemma CheckKnows(n: Node, peer: string, peerWon: bool, env: Env)
    requires KnowsItself(n)
    ensures KnowsItself(CheckForNewWriter(n, peer, peerWon, env))
  {
  }

  lemma ReceiveKnows(n: Node, from: string, m: PeerMessage, env: Env)
    requires ValidEnv(env) && KnowsItself(n)
    ensures KnowsItself(Receive(n, from, m, env))
  {
    hide HandleElectionOp, PeerUpdate, PeerRemove, PeerSyncResponse, ClearMatching, CheckForNewWriter;
    if m.ElectionMessage? || !n.shuttingDown {
      match m
      case ElectionMessage(outcome) => ElectionOpKnows(n, from, outcome, env);
      case UpdateMessage(e) => PeerUpdateGrows(n, e, false, env);
      case ClearFailureMessage(e, matching) => ClearMatchingGrows(n, e, env.order(n.attributes.Keys), matching, env);
      case RemoveMessage(host, reap) => if host.Some? { RemoveShape(n, host.value, reap, env); }
      case SyncResponseMessage(e, fromWriter) =>
        CheckKnows(n, from, fromWriter, env);
        SyncResponseGrows(CheckForNewWriter(n, from, fromWriter, env), fromWriter, e, env);
    }
  }

  lemma StepKnows(s: System, step: Step, env: Env)
    requires ValidEnv(env) && KnowsItself(s.node)
    ensures KnowsItself(Next(s, step, env).node)
  {
    hide Receive, CibCallback, TimerExpired, WinElection, WriteEach, PeerRemove, RemoveVoter, SyncMessage;
    var n := s.node;
    match step
    case Deliver(from, m) => ReceiveKnows(n, from, m, env);
    case CibReplies => if s.told < |s.results| { CallbackLed(n, s.told + 1, s.results[s.told], env); }
    case CallTimesOut(call) => CallbackLed(n, call, false, env);
    case TimerFires(name) => TimerLed(n, name, env);
    case ElectionTimesOut => WinShape(n, env);
    case ClientRefresh => WriteEachLed(n, env.order(n.attributes.Keys), true, true, env);
    case UnsafeCibChange => WriteEachLed(n, env.order(n.attributes.Keys), true, false, env);
    case NodeLost(peer, isRemote, complete) =>
      RemoveShape(n, peer, false, env);
      RemoveVoterKnows(PeerRemove(n, peer, false, env), peer, complete, env);
    case ProcessGone(peer, complete) => RemoveVoterKnows(n, peer, complete, env);
    case _ =>
  }

  /** In every run, a node that has won the election records no other node as writer. */
  lemma {:induction false} WriterKnowsItself(self: string, standAlone: bool, cib: Cib, run: seq<Event>)
    requires ValidRun(Initial(self, standAlone, cib), run)
    ensures KnowsItself(Exec(Initial(self, standAlone, cib), run).node)
  {
    hide Next, Enabled;
    if run != [] {
      WriterKnowsItself(self, standAlone, cib, run[..|run|-1]);
      hide KnowsItself;
      StepKnows(Exec(Initial(self, standAlone, cib), run[..|run|-1]), run[|run|-1].step, run[|run|-1].env);
    }
  }

  /** Two writers do not go on side by side: a writer that gets another's sync response stays writer if and only
      if it is not an active member, and so cannot call a new election. */
  lemma RivalMakesItStepDown(n: Node, peer: string, e: Element, env: Env)
    requires ValidEnv(env) && IsWriter(n) && Fold(peer) != Fold(n.self)
    ensures IsWriter(HandleSyncResponse(n, peer, true, e, env)) <==> !env.active
  {
    hide PeerSyncResponse;
    SyncResponseGrows(CheckForNewWriter(n, peer, true, env), true, e, env);
  }

  // ---- Start-up ----

  /** In every run, the first thing a node asks of the CIB is to erase the attributes left there under its own name. */
  lemma {:induction false} StartErasesOwn(self: string, standAlone: bool, cib: Cib, run: seq<Event>)
    requires ValidRun(Initial(self, standAlone, cib), run) && !standAlone
    ensures var log := Exec(Initial(self, standAlone, cib), run).node.log; log != [] && log[0] == Erase(Fold(self))
  {
    hide Next, Fold;
    var s := Initial(self, standAlone, cib);
    if run != [] {
      var front, last := run[..|run|-1], run[|run|-1];
      StartErasesOwn(self, standAlone, cib, front);
      StepProgress(Exec(s, front), last.step, last.env);
    }
  }
}
