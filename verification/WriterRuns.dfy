/** Main results about a node and the CIB, over every run. */
module WriterRuns {
  import opened Common
  import opened Model
  import opened Elections
  import opened CibWrites
  import opened Attributes
  import opened Corosync
  import opened Daemon
  import opened CibAgreement

  function SideOf(s: System): Side {
    Side(s.cib, s.results, s.told, 0, {})
  }

  lemma UntouchedBy(cib: Cib, r: Request, name: string, h: string)
    requires !Touches(r, name, h)
    ensures Lookup(ApplyRequest(cib, r), (name, h)) == Lookup(cib, (name, h))
  {
  }

  lemma CommittedTo(cib: Cib, name: string, ops: map<string, Option<string>>, h: string)
    requires h in ops
    ensures Lookup(ApplyRequest(cib, Commit(name, ops)), (name, h)) == ops[h]
  {
    var m := Entries(name, ops);
    if ops[h].Some? {
      assert (name, h) in m && m[(name, h)] == ops[h].value;
    }
  }

  /** The CIB processes the next call, with or without success. */
  function Processed(n: Node, c: Side, ok: bool): Side
    requires |c.results| < |n.log|
  {
    c.(cib := if ok then ApplyRequest(c.cib, n.log[|c.results|]) else c.cib, results := c.results + [ok])
  }

  lemma CarriedProcessed(n: Node, c: Side, ok: bool, name: string, h: string, v: Value, call: int)
    requires |c.results| < |n.log| && 1 <= call <= |n.log| && n.log[call-1].Commit? && n.log[call-1].attr == name
    requires Carried(n.log, c, name, h, v, call)
    ensures Carried(n.log, Processed(n, c, ok), name, h, v, call)
  {
    var r := n.log[|c.results|];
    if call <= |c.results| {
      assert !Touches(r, name, h);
      UntouchedBy(c.cib, r, name, h);
    } else if call == |c.results| + 1 {
      CommittedTo(c.cib, r.attr, r.ops, h);
    }
    hide ApplyRequest;
  }

  lemma ProcessKept(n: Node, c: Side, ok: bool, name: string, a: Attr)
    requires |c.results| < |n.log|
    ensures Sound(n, c, name, a) ==> Sound(n, Processed(n, c, ok), name, a)
    ensures Settled(n, c, name, a) ==> Settled(n, Processed(n, c, ok), name, a)
  {
    var c' := Processed(n, c, ok);
    hide ApplyRequest;
    forall h, call | 1 <= call <= |n.log| && n.log[call-1].Commit? && n.log[call-1].attr == name && h in a.values
                     && Carried(n.log, c, name, h, a.values[h], call)
      ensures Carried(n.log, c', name, h, a.values[h], call)
    {
      CarriedProcessed(n, c, ok, name, h, a.values[h], call);
    }
    hide Carried;
    forall h | h in a.values && Stored(n.log, c, name, h, a.values[h])
      ensures Stored(n.log, c', name, h, a.values[h])
    {
      var call :| StoredBy(n.log, c, name, h, a.values[h], call);
      assert StoredBy(n.log, c', name, h, a.values[h], call);
    }
  }

  lemma ProcessKeeps(n: Node, c: Side, ok: bool)
    requires Inv(n, c) && |c.results| < |n.log|
    ensures Inv(n, Processed(n, c, ok))
  {
    hide Sound, Settled, ApplyRequest;
    forall name | name in n.attributes
      ensures var c' := Processed(n, c, ok);
        && Sound(n, c', name, n.attributes[name])
        && (Settled(n, c, name, n.attributes[name]) ==> Settled(n, c', name, n.attributes[name]))
    {
      ProcessKept(n, c, ok, name, n.attributes[name]);
    }
  }

  lemma OtherWriterKeeps(n: Node, c: Side, cib: Cib)
    requires Inv(n, c) && !IsWriter(n) && forall name :: name in n.attributes ==> n.attributes[name].update == 0
    ensures Inv(n, c.(cib := cib))
  {
  }

  lemma ReceiveKeeps(n: Node, from: string, m: PeerMessage, env: Env, c: Side)
    requires Inv(n, c) && ValidEnv(env)
    ensures Inv(Receive(n, from, m, env), c)
  {
    hide Inv, HandleElectionOp, PeerUpdate, PeerRemove, HandleSyncResponse, ClearMatching;
    match m
    case ElectionMessage(outcome) => ElectionOpKeeps(n, from, outcome, env, c);
    case UpdateMessage(e) => PeerUpdateKeeps(n, e, false, env, c);
    case ClearFailureMessage(e, matching) => ClearMatchingKeeps(n, e, env.order(n.attributes.Keys), matching, env, c);
    case RemoveMessage(host, reap) => if host.Some? { PeerRemoveKeeps(n, host.value, reap, env, c); }
    case SyncResponseMessage(e, fromWriter) => SyncResponseKeeps(n, from, fromWriter, e, env, c);
  }

  /** Every step that happens at the node itself. */
  lemma LocalKeeps(s: System, c: Side, step: Step, env: Env)
    requires Inv(s.node, c) && ValidEnv(env)
    requires step.Deliver? || step.TimerFires? || step.ElectionTimesOut? || step.ClientRefresh? || step.UnsafeCibChange?
             || step.NodeLost? || step.ProcessGone?
    ensures Inv(NodeStep(s, step, env), c)
  {
    hide Inv, Receive, TimerExpired, WinElection, WriteAttributes, RemoveVoter, PeerRemove;
    var n := s.node;
    match step
    case Deliver(from, m) => ReceiveKeeps(n, from, m, env, c);
    case TimerFires(name) => TimerExpiredKeeps(n, name, env, c);
    case ElectionTimesOut => WinKeeps(n, env, c);
    case ClientRefresh => RefreshKeeps(n, true, env, c);
    case UnsafeCibChange => RefreshKeeps(n, false, env, c);
    case ProcessGone(peer, complete) => RemoveVoterKeeps(n, peer, complete, env, c);
    case NodeLost(peer, isRemote, complete) =>
      PeerRemoveKeeps(n, peer, false, env, c);
      RemoveVoterKeeps(PeerRemove(n, peer, false, env), peer, complete, env, c);
  }

  lemma RefreshKeeps(n: Node, noDelay: bool, env: Env, c: Side)
    requires Inv(n, c) && ValidEnv(env)
    ensures Inv(WriteAttributes(n, true, noDelay, env), c)
  {
    hide WriteAttributes;
    WriteAttributesKeeps(n, true, noDelay, env, c);
  }

  /** What a step does to the CIB's side, whatever the CIB holds. */
  function SideAfter(s: System, c: Side, step: Step): Side {
    match step
    case CibProcesses(ok) => if |c.results| < |s.node.log| then Processed(s.node, c, ok) else c
    case CibReplies => c.(told := if c.told < |c.results| then c.told + 1 else c.told)
    case OtherWriterEdits(cib) => c.(cib := cib)
    case _ => c
  }

  lemma StepKeepsSide(s: System, c: Side, step: Step, env: Env)
    requires Inv(s.node, c) && c.results == s.results && c.told == s.told && ValidEnv(env) && Enabled(s, step, env)
    ensures var s', c' := Next(s, step, env), SideAfter(s, c, step);
      Inv(s'.node, c') && c'.results == s'.results && c'.told == s'.told
  {
    hide Inv;
    var n := s.node;
    match step
    case CibProcesses(ok) => ProcessKeeps(n, c, ok);
    case CibReplies => ReplyKeeps(n, c, env);
    case CallTimesOut(call) => FailureKeeps(n, c, call, c, env);
    case OtherWriterEdits(cib) => OtherWriterKeeps(n, c, cib);
    case NodeJoined(_) => QuietKeeps(n, NodeStep(s, step, env), c);
    case MembershipLearns(_, _) => QuietKeeps(n, NodeStep(s, step, env), c);
    case BeginShutdown => QuietKeeps(n, NodeStep(s, step, env), c);
    case _ => LocalKeeps(s, c, step, env);
  }

  lemma StepKeeps(s: System, step: Step, env: Env)
    requires Inv(s.node, SideOf(s)) && ValidEnv(env) && Enabled(s, step, env)
    ensures var s' := Next(s, step, env); Inv(s'.node, SideOf(s'))
  {
    hide Inv, ApplyRequest;
    StepKeepsSide(s, SideOf(s), step, env);
    assert SideOf(Next(s, step, env)) == SideAfter(s, SideOf(s), step) by { hide NodeStep; }
  }

  lemma {:induction false} RunKeeps(self: string, standAlone: bool, cib: Cib, run: seq<Event>)
    requires ValidRun(Initial(self, standAlone, cib), run)
    ensures var s := Exec(Initial(self, standAlone, cib), run); Inv(s.node, SideOf(s))
  {
    hide Next, Enabled;
    if run != [] {
      RunKeeps(self, standAlone, cib, run[..|run|-1]);
      hide Inv;
      StepKeeps(Exec(Initial(self, standAlone, cib), run[..|run|-1]), run[|run|-1].step, run[|run|-1].env);
    }
  }

  /** No lost wake-up: in every state of every run, at the writer, an attribute with an unwritten change
      has a transaction in flight or a running timer. */
  lemma NoLostWakeUp(self: string, standAlone: bool, cib: Cib, run: seq<Event>, name: string)
    requires ValidRun(Initial(self, standAlone, cib), run)
    ensures var n := Exec(Initial(self, standAlone, cib), run).node;
      IsWriter(n) && name in n.attributes && n.attributes[name].changed ==>
        n.attributes[name].update != 0 || n.attributes[name].timer.Running?
  {
    hide Exec;
    RunKeeps(self, standAlone, cib, run);
  }

  /** Quiescent agreement: at the writer, an attribute that belongs in the CIB and has no unwritten change,
      no transaction in flight and no node of unknown XML ID has the same value in the CIB as in memory if and
      only if a transaction has covered the value, or the CIB has none. Exactly when an entry is one that no
      transaction covers is the subject of `BlankEntries`. */
  lemma QuiescentAgreement(self: string, standAlone: bool, cib: Cib, run: seq<Event>, name: string, h: string)
    requires ValidRun(Initial(self, standAlone, cib), run)
    ensures var s := Exec(Initial(self, standAlone, cib), run);
      && IsWriter(s.node) && name in s.node.attributes && Writable(s.node, s.node.attributes[name])
      && !s.node.attributes[name].timer.Running? && s.node.attributes[name].update == 0
      && !s.node.attributes[name].nodeUnknown
      && h in s.node.attributes[name].values
      ==> (Lookup(s.cib, (name, h)) == s.node.attributes[name].values[h].current
           <==> !s.node.attributes[name].values[h].blank || Lookup(s.cib, (name, h)).None?)
  {
    hide Exec;
    RunKeeps(self, standAlone, cib, run);
  }

  /** In-flight snapshot: while an attribute's transaction is outstanding, each value equals the one
      requested unless the attribute is flagged; and it is the only transaction of that attribute whose
      completion is still awaited. */
  lemma InFlightSnapshot(self: string, standAlone: bool, cib: Cib, run: seq<Event>, name: string)
    requires ValidRun(Initial(self, standAlone, cib), run)
    ensures var n := Exec(Initial(self, standAlone, cib), run).node;
      name in n.attributes ==> var a := n.attributes[name];
        && (a.update != 0 && !a.changed && !a.nodeUnknown ==>
              forall h :: h in a.values ==> a.values[h].requested == a.values[h].current)
        && (forall call :: call in n.callbacks && n.callbacks[call] == name <==> a.update == call != 0)
  {
    hide Exec;
    RunKeeps(self, standAlone, cib, run);
  }

  /** A transaction in flight is never taken for lost: its call ID is later than every completed one. */
  lemma NeverConsideredLost(self: string, standAlone: bool, cib: Cib, run: seq<Event>, name: string)
    requires ValidRun(Initial(self, standAlone, cib), run)
    ensures var n := Exec(Initial(self, standAlone, cib), run).node;
      name in n.attributes && n.attributes[name].update != 0 ==> n.attributes[name].update > n.lastDone
  {
    hide Exec;
    RunKeeps(self, standAlone, cib, run);
  }

  /** A removed peer that is still to be erased has no value in memory. */
  lemma RemovedHasNoValue(self: string, standAlone: bool, cib: Cib, run: seq<Event>, name: string, h: string)
    requires ValidRun(Initial(self, standAlone, cib), run)
    ensures var n := Exec(Initial(self, standAlone, cib), run).node;
      name in n.attributes && h in n.removed ==> h !in n.attributes[name].values
  {
    hide Exec;
    RunKeeps(self, standAlone, cib, run);
  }

  /** No transaction ever carries a private attribute, nor any attribute in stand-alone mode. */
  lemma PrivateStaysPrivate(self: string, standAlone: bool, cib: Cib, run: seq<Event>, i: nat)
    requires ValidRun(Initial(self, standAlone, cib), run)
    ensures var n := Exec(Initial(self, standAlone, cib), run).node;
      i < |n.log| && n.log[i].Commit? ==>
        !n.standAlone && n.log[i].attr in n.attributes && !n.attributes[n.log[i].attr].isPrivate
  {
    hide Exec;
    RunKeeps(self, standAlone, cib, run);
  }
}
