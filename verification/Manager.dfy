/** The attribute manager as the daemon runs it: one object whose handlers update its tables in place, in
    loops over hash tables and message children. Each handler is proved to have exactly the effect that the
    other modules reason about. */
module AttributeManager {
  import opened Common
  import opened Model
  import Elections
  import CibWrites
  import Attributes
  import Corosync
  import Daemon

  class Manager {
    const self: string
    const standAlone: bool
    var shuttingDown: bool
    var attributes: map<string, Attr>
    var xmlIds: map<string, string>
    var cache: map<string, string>
    var removed: set<string>
    var election: Election
    var writer: Option<string>
    var lastDone: int
    var log: seq<Request>
    var callbacks: map<int, string>
    var outbox: seq<Outgoing>

    function State(): Node
      reads this
    {
      Node(self, standAlone, shuttingDown, attributes, xmlIds, cache, removed, election, writer, lastDone, log,
           callbacks, outbox)
    }

    constructor (self: string, standAlone: bool)
      ensures State() == Daemon.Initial(self, standAlone, map[]).node
    {
      this.self, this.standAlone, shuttingDown := self, standAlone, false;
      attributes, xmlIds, cache, removed := map[], map[], map[], {};
      election, writer, lastDone := Start, None, 0;
      log := if standAlone then [] else [Erase(Fold(self))];
      callbacks, outbox := map[], [];
    }

    // ---- attrd_cib.c ----

    method WriteAttribute(name: string, ignoreDelay: bool, env: Env)
      requires ValidEnv(env)
      modifies this
      ensures State() == CibWrites.WriteAttribute(old(State()), name, ignoreDelay, env)
    {
      if name !in attributes { return; }
      var a := attributes[name];
      if standAlone || a.isPrivate {
        attributes := attributes[name := a.(changed := false, forceWrite := false, nodeUnknown := false)];
        return;
      }
      if a.update != 0 {
        if a.update >= lastDone { return; }
      } else if a.timer.Running? && !ignoreDelay {
        return;
      }
      SendTransaction(name, env);
    }

    /** Go through the values that can be written: put each into the transaction, note it as requested, and
        remember the XML ID of its node. */
    method Collect(ready: Attr, env: Env) returns (a: Attr, ops: map<string, Option<string>>)
      requires ValidEnv(env) && !ready.nodeUnknown
      modifies `xmlIds
      ensures ops == CibWrites.Snapshot(old(State()), ready)
      ensures xmlIds == old(xmlIds) + CibWrites.LearnedIds(old(State()), ready)
      ensures a == ready.(nodeUnknown := exists h :: h in ready.values && h !in ops,
                          values := CibWrites.Requested(ready.values, ops))
    {
      hide CibWrites.Snapshot, CibWrites.LearnedIds, CibWrites.Requested, Written, Enumerates;
      ghost var n := State();
      a, ops := ready, map[];
      var hosts := env.order(ready.values.Keys);
      assert Enumerates(hosts, ready.values.Keys);
      WrittenNone(n, ready);
      var i := 0;
      while i < |hosts|
        invariant 0 <= i <= |hosts|
        invariant a == ready.(nodeUnknown := a.nodeUnknown, values := a.values)
        invariant Written(n, ready, hosts[..i], ops, a.values, xmlIds, a.nodeUnknown)
      {
        var h := hosts[i];
        NextHost(hosts, ready.values.Keys, i);
        WrittenNot(n, ready, hosts[..i], h, ops, a.values, xmlIds, a.nodeUnknown);
        var v := a.values[h];
        var id := if v.remote then Some(v.nodename) else OrElse(Lookup(cache, h), Lookup(xmlIds, h));
        if id.None? {
          WrittenSkip(n, ready, hosts[..i], h, ops, a.values, xmlIds, a.nodeUnknown);
          a := a.(nodeUnknown := true);
        } else {
          WrittenAdd(n, ready, hosts[..i], h, ops, a.values, xmlIds, a.nodeUnknown);
          xmlIds := xmlIds[h := id.value];
          ops := ops[h := v.current];
          a := a.(values := a.values[h := v.(requested := v.current, blank := false)]);
        }
        i := i + 1;
      }
      assert hosts[..i] == hosts;
      WrittenAll(n, ready, hosts, ops, a.values, xmlIds, a.nodeUnknown);
    }

    /** Commit a transaction, if it holds anything; a commit that cannot be sent has failed already. */
    method Commit(name: string, a: Attr, ops: map<string, Option<string>>, env: Env)
      requires ValidEnv(env)
      modifies `attributes, `log, `callbacks
      ensures Committed(old(State()), State(), name, a, ops, env)
    {
      if ops == map[] {
        attributes := attributes[name := a];
        return;
      }
      var call := |log| + 1;
      if env.refuses(call) {
        log := log + [Refused];
        attributes := attributes[name := a];
        CallbackFailed(name, env);
      } else {
        log := log + [Request.Commit(name, ops)];
        callbacks := callbacks[call := name];
        attributes := attributes[name := a.(update := call)];
      }
    }

    /** Write an attribute that need not wait. */
    method SendTransaction(name: string, env: Env)
      requires ValidEnv(env) && name in attributes
      modifies `attributes, `xmlIds, `log, `callbacks
      ensures State() == CibWrites.SendTransaction(old(State()), name, env)
    {
      hide CibWrites.Snapshot, CibWrites.LearnedIds, CibWrites.Requested, CibWrites.AfterFailure, CibWrites.SendTransaction;
      hide CibWrites.Prepared, Committed;
      var a0 := attributes[name];
      var timer := if a0.update == 0 && a0.timer.Running? then Idle else a0.timer;
      var ready := a0.(changed := false, forceWrite := false, nodeUnknown := false, update := 0, timer := timer);
      var a, ops := Collect(ready, env);
      PreparedIs(old(State()), a0, ready, a, ops);
      Commit(name, a, ops, env);
      SentIs(old(State()), State(), name, a, ops, env);
    }

    /** A write has failed: have every value written again. */
    method CallbackFailed(name: string, env: Env)
      requires ValidEnv(env)
      modifies `attributes
      ensures State() == CibWrites.CallbackFailed(old(State()), name)
    {
      if name !in attributes { return; }
      var a := attributes[name].(update := 0);
      var hosts := env.order(a.values.Keys);
      NonEmpty(hosts, a.values);
      for i := 0 to |hosts|
        invariant unchanged(`attributes)
        invariant a == attributes[name].(update := 0, changed := attributes[name].changed || i > 0)
      {
        a := a.(changed := true);
      }
      if a.changed && election.Won? { a := a.(timer := Running); }
      attributes := attributes[name := a];
    }

    /** A write has been applied: forget what was requested. */
    method Confirm(name: string, call: int, env: Env)
      requires ValidEnv(env) && name in attributes
      modifies `attributes, `lastDone
      ensures lastDone == call
      ensures attributes == old(attributes)[name := CibWrites.Confirmed(old(attributes)[name])]
    {
      var a := attributes[name].(update := 0);
      if a.timer != NoTimer && a.timeoutMs == 0 { a := a.(timer := NoTimer); }
      var values := ForgetRequests(a.values, env);
      attributes := attributes[name := a.(values := values)];
      lastDone := call;
    }

    method CallbackOk(name: string, call: int, env: Env)
      requires ValidEnv(env)
      modifies this
      ensures State() == CibWrites.CallbackOk(old(State()), name, call, env)
    {
      hide CibWrites.WriteAttribute, CibWrites.Confirmed;
      if name !in attributes { return; }
      var changed := attributes[name].changed;
      Confirm(name, call, env);
      if changed && election.Won? { WriteAttribute(name, false, env); }
    }

    /** Run the callback registered for a call, if any, and drop it. */
    method CibCallback(call: int, ok: bool, env: Env)
      requires ValidEnv(env)
      modifies this
      ensures State() == CibWrites.CibCallback(old(State()), call, ok, env)
    {
      if call !in callbacks { return; }
      var name := callbacks[call];
      callbacks := callbacks - {call};
      if ok { CallbackOk(name, call, env); } else { CallbackFailed(name, env); }
    }

    method WriteOrElect(name: string, env: Env)
      requires ValidEnv(env)
      modifies this
      ensures State() == CibWrites.WriteOrElect(old(State()), name, env)
    {
      if election.Won? {
        WriteAttribute(name, false, env);
      } else {
        StartElectionIfNeeded(env);
      }
    }

    method TimerExpired(name: string, env: Env)
      requires ValidEnv(env)
      modifies this
      ensures State() == CibWrites.TimerExpired(old(State()), name, env)
    {
      if name !in attributes { return; }
      attributes := attributes[name := attributes[name].(timer := Idle)];
      WriteOrElect(name, env);
    }

    method WriteIfAsked(name: string, all: bool, noDelay: bool, env: Env)
      requires ValidEnv(env)
      modifies this
      ensures State() == CibWrites.WriteIfAsked(old(State()), name, all, noDelay, env)
    {
      hide CibWrites.WriteAttribute;
      if name !in attributes { return; }
      var a := attributes[name];
      var asked := all || a.changed;
      if (!all && a.nodeUnknown) || a.forceWrite {
        attributes := attributes[name := a.(changed := true)];
        asked := true;
      }
      if asked { WriteAttribute(name, noDelay || a.forceWrite, env); }
    }

    method WriteAttributes(all: bool, noDelay: bool, env: Env)
      requires ValidEnv(env)
      modifies this
      ensures State() == CibWrites.WriteAttributes(old(State()), all, noDelay, env)
    {
      hide CibWrites.WriteIfAsked;
      var names := env.order(attributes.Keys);
      var i := 0;
      while i < |names|
        invariant 0 <= i <= |names|
        invariant State() == CibWrites.WriteEach(old(State()), names[..i], all, noDelay, env)
      {
        WriteIfAsked(names[i], all, noDelay, env);
        i := i + 1;
        assert names[..i][..|names[..i]|-1] == names[..i-1];
      }
      assert names[..i] == names;
    }

    // ---- attrd_elections.c ----

    method CallVote(env: Env)
      modifies this
      ensures State() == Elections.CallVote(old(State()), env)
    {
      if env.active {
        election := InProgress;
        outbox := outbox + [Vote];
      }
    }

    method StartElectionIfNeeded(env: Env)
      modifies this
      ensures State() == Elections.StartElectionIfNeeded(old(State()), env)
    {
      if writer.None? && !election.InProgress? && !shuttingDown {
        CallVote(env);
      }
    }

    method CheckForNewWriter(peer: string, peerWon: bool, env: Env)
      modifies this
      ensures State() == Elections.CheckForNewWriter(old(State()), peer, peerWon, env)
    {
      if !peerWon { return; }
      if election.Won? && Fold(peer) != Fold(self) {
        CallVote(env);
      } else if !SameText(Some(peer), writer) {
        writer := Some(peer);
      }
    }

    /** The local node has won: declare it, erase removed peers, and write everything. */
    method WinElection(env: Env)
      requires ValidEnv(env)
      modifies this
      ensures State() == Daemon.WinElection(old(State()), env)
    {
      hide CibWrites.WriteAttributes, Corosync.EraseRemoved, Corosync.SyncMessage;
      election, writer := Won, Some(self);
      PeerSync(None, env);
      EraseRemoved(env);
      WriteAttributes(true, false, env);
    }

    method HandleElectionOp(peer: string, outcome: Daemon.VoteOutcome, env: Env)
      requires ValidEnv(env)
      modifies this
      ensures State() == Daemon.HandleElectionOp(old(State()), peer, outcome, env)
    {
      hide Daemon.WinElection;
      var previous := election;
      match outcome
      case BadVote =>
      case PeerBetter =>
        election := Lost;
        if writer.None? || !previous.Lost? { writer := Some(peer); }
      case LocalBetter =>
        election, writer := Start, None;
        CallVote(env);
      case Counted(complete) =>
        match previous {
          case Start => writer := None; CallVote(env);
          case Lost => if writer.None? { writer := Some(peer); }
          case InProgress => if complete { WinElection(env); }
          case Won =>
        }
    }

    method RemoveVoter(peer: string, complete: bool, env: Env)
      requires ValidEnv(env)
      modifies this
      ensures State() == Daemon.RemoveVoter(old(State()), peer, complete, env)
    {
      hide Daemon.WinElection;
      if writer.Some? && Fold(peer) == Fold(writer.value) {
        writer := None;
        StartElectionIfNeeded(env);
      } else if election.InProgress? && complete {
        WinElection(env);
      }
    }

    // ---- attrd_attributes.c ----

    /** Create an attribute; the result tells whether the message describes a valid one. */
    method CreateAttribute(op: Op, name: string) returns (ok: bool)
      modifies `attributes
      ensures ok <==> Attributes.CreateAttribute(old(State()), op, name).Some?
      ensures State() == if ok then Attributes.CreateAttribute(old(State()), op, name).value else old(State())
    {
      var setType := Attributes.INSTANCE_ATTRIBUTES;
      if op.setType.Some? { setType := op.setType.value; }
      if !IsSet(op.isPrivate) && !Attributes.ValidSetType(setType) { return false; }
      var ms := 0;
      match op.delay {
        case Some(DelayMs(given)) => if given > 0 { ms := given; }
        case _ =>
      }
      attributes := attributes[name := Attr(setType, op.setId, op.user, IsSet(op.isPrivate), Attributes.CapMs(ms),
                                            if ms > 0 then Idle else NoTimer, 0, false, false, false, map[])];
      return true;
    }

    method UpdateDampening(op: Op, name: string, env: Env) returns (ok: bool)
      requires ValidEnv(env) && name in attributes
      modifies this
      ensures (State(), ok) == Attributes.UpdateDampening(old(State()), op, name, env)
    {
      hide CibWrites.WriteOrElect;
      if op.delay.None? || op.delay.value.BadDelay? { return false; }
      var ms := op.delay.value.ms;
      if ms < 0 { return false; }
      if attributes[name].timeoutMs == ms { return true; }
      attributes := attributes[name := attributes[name].(timeoutMs := Attributes.CapMs(ms),
                                                         timer := if ms > 0 then Idle else NoTimer)];
      WriteOrElect(name, env);
      return true;
    }

    method Populate(op: Op, name: string, env: Env) returns (ok: bool)
      requires ValidEnv(env)
      modifies this
      ensures (State(), ok) == Attributes.Populate(old(State()), op, name, env)
    {
      hide Attributes.UpdateDampening;
      var both := op.task.None? || op.task == Some(UpdateBoth);
      if name !in attributes {
        if !both && op.task != Some(Update) { return false; }
        ok := CreateAttribute(op, name);
        if !ok || !both { return; }
        ok := UpdateDampening(op, name, env);
      } else if both {
        ok := UpdateDampening(op, name, env);
      } else if op.task == Some(UpdateDelay) {
        ok := UpdateDampening(op, name, env);
        return false;
      } else {
        return true;
      }
    }

    /** Forget which values peers are known to have. */
    method ClearValueSeen(env: Env)
      requires ValidEnv(env)
      modifies `attributes
      ensures State() == Attributes.ClearValueSeen(old(State()))
    {
      hide Attributes.Unseen;
      var names := env.order(attributes.Keys);
      assert Enumerates(names, attributes.Keys);
      for i := 0 to |names|
        invariant attributes.Keys == old(attributes).Keys
        invariant forall name :: name in old(attributes) ==>
          attributes[name] == if name in names[..i] then Attributes.Unseen(old(attributes)[name]) else old(attributes)[name]
      {
        var name := names[i];
        NextHost(names, old(attributes).Keys, i);
        var a := ForgetSeen(attributes[name], env);
        attributes := attributes[name := a];
      }
      assert names[..|names|] == names;
      assert attributes == Attributes.ClearValueSeen(old(State())).attributes;
    }

    // ---- attrd_corosync.c ----

    /** Make sure the host has an entry, which also means it is no longer to be erased. */
    method AddEntry(name: string, op: Op, host: string)
      requires name in attributes
      modifies `attributes, `removed
      ensures State() == Corosync.WithEntry(old(State()), name, op, host)
    {
      var a, h := attributes[name], Fold(host);
      var v := if h in a.values then a.values[h] else Value(host, None, None, false, false, true);
      if IsSet(op.isRemote) { v := v.(remote := true); }
      removed := removed - {h};
      attributes := attributes[name := a.(values := a.values[h := v])];
    }

    method ChangeValue(name: string, h: string, value: Option<string>, env: Env)
      requires ValidEnv(env) && name in attributes && h in attributes[name].values
      modifies this
      ensures State() == Corosync.ChangeValue(old(State()), name, h, value, env)
    {
      hide CibWrites.WriteOrElect;
      var a := attributes[name];
      a := a.(values := a.values[h := a.values[h].(current := value, blank := false)], changed := true);
      if a.timeoutMs != 0 && a.timer != NoTimer {
        attributes := attributes[name := a.(timer := Running)];
      } else {
        attributes := attributes[name := a];
        WriteOrElect(name, env);
      }
    }

    method TakeValue(name: string, op: Op, host: string, filter: bool, env: Env)
      requires ValidEnv(env) && name in attributes && Fold(host) in attributes[name].values
      modifies this
      ensures State() == Corosync.TakeValue(old(State()), name, op, host, filter, env)
    {
      hide Corosync.ChangeValue, Attributes.ValueElement;
      var a := attributes[name];
      var v := a.values[Fold(host)];
      if SameText(v.current, op.value) {
        if IsSet(op.forceWrite) && a.timeoutMs != 0 && a.timer != NoTimer {
          attributes := attributes[name := a.(forceWrite := true)];
        }
      } else if filter && Fold(host) == Fold(self) {
        var e := Element(true, NoAttrs.(task := Some(Update)), [Attributes.ValueElement(State(), name, a, v, false)]);
        outbox := outbox + [Send(None, e, election.Won?)];
      } else {
        ChangeValue(name, Fold(host), op.value, env);
      }
    }

    method LearnXmlId(h: string, id: Option<string>, previous: Option<string>, env: Env)
      requires ValidEnv(env)
      modifies this
      ensures State() == Corosync.LearnXmlId(old(State()), h, id, previous, env)
    {
      hide CibWrites.WriteAttributes;
      if id.None? || id == previous { return; }
      xmlIds := xmlIds[h := id.value];
      if election.Won? { WriteAttributes(false, false, env); }
    }

    method UpdateOnHost(name: string, op: Op, host: string, filter: bool, env: Env)
      requires ValidEnv(env)
      modifies this
      ensures State() == Corosync.UpdateOnHost(old(State()), name, op, host, filter, env)
    {
      if name !in attributes { return; }
      hide Corosync.TakeValue, Corosync.LearnXmlId;
      var h := Fold(host);
      var previous := Lookup(xmlIds, h);
      AddEntry(name, op, host);
      TakeValue(name, op, host, filter, env);
      if name in attributes && h in attributes[name].values {
        var a := attributes[name];
        attributes := attributes[name := a.(values := a.values[h := a.values[h].(fromPeer := true)])];
      }
      LearnXmlId(h, OrElse(op.hostId, previous), previous, env);
    }

    method PeerUpdateOne(op: Op, filter: bool, env: Env)
      requires ValidEnv(env)
      modifies this
      ensures State() == Corosync.PeerUpdateOne(old(State()), op, filter, env)
    {
      hide Attributes.Populate, Corosync.UpdateOnHost;
      if op.name.None? { return; }
      var name := op.name.value;
      var ok := Populate(op, name, env);
      if !ok || name !in attributes { return; }
      if op.host.Some? {
        UpdateOnHost(name, op, op.host.value, filter, env);
      } else {
        label Before:
        var hosts := env.order(attributes[name].values.Keys);
        for i := 0 to |hosts|
          invariant State() == Corosync.UpdateOnHosts(old@Before(State()), name, op.(hostId := None), hosts[..i], filter, env)
        {
          UpdateOnHost(name, op.(hostId := None), hosts[i], filter, env);
          assert hosts[..i+1][..i] == hosts[..i];
        }
        assert hosts[..|hosts|] == hosts;
      }
    }

    method PeerUpdate(e: Element, filter: bool, env: Env)
      requires ValidEnv(env)
      modifies this
      ensures State() == Corosync.PeerUpdate(old(State()), e, filter, env)
    {
      hide Corosync.PeerUpdateOne, Merge;
      if e.children == [] {
        PeerUpdateOne(e.attrs, filter, env);
        return;
      }
      for i := 0 to |e.children|
        invariant State() == Corosync.UpdateChildren(old(State()), e.attrs, e.children[..i], filter, env)
      {
        var child := e.children[i];
        if child.isOp { PeerUpdateOne(Merge(child.attrs, e.attrs), filter, env); }
        assert e.children[..i+1][..i] == e.children[..i];
      }
      assert e.children[..|e.children|] == e.children;
    }

    /** Clear every attribute that the failure pattern matches, as if each were updated with no value. */
    method ClearFailure(e: Element, matching: set<string>, env: Env)
      requires ValidEnv(env)
      modifies this
      ensures State() == Corosync.ClearFailure(old(State()), e, matching, env)
    {
      hide Corosync.PeerUpdate, Corosync.Absorb;
      var names, request := env.order(attributes.Keys), e;
      for i := 0 to |names|
        invariant request == Corosync.ClearRequest(e, names[..i], matching)
        invariant State() == Corosync.ClearMatching(old(State()), e, names[..i], matching, env)
      {
        assert names[..i+1][..i] == names[..i];
        if names[i] in matching {
          request := Corosync.ClearOf(request, names[i]);
          PeerUpdate(request, false, env);
          request := Corosync.Absorbed(request);
        }
      }
      assert names[..|names|] == names;
    }

    /** The children of a sync response: every value of every attribute. */
    method AllValues(env: Env) returns (children: seq<Element>)
      ensures children == Corosync.TableInOrder(State(), env.order(State().attributes.Keys), env)
    {
      hide Attributes.ValueElement;
      children := [];
      var names := env.order(attributes.Keys);
      for i := 0 to |names|
        invariant children == Corosync.TableInOrder(State(), names[..i], env)
      {
        assert names[..i+1][..i] == names[..i];
        if names[i] in attributes {
          var a := attributes[names[i]];
          var hosts := env.order(a.values.Keys);
          ghost var before := children;
          for j := 0 to |hosts|
            invariant children == before + Corosync.ValuesInOrder(State(), names[i], a, hosts[..j])
          {
            assert hosts[..j+1][..j] == hosts[..j];
            if hosts[j] in a.values {
              children := children + [Attributes.ValueElement(State(), names[i], a, a.values[hosts[j]], false)];
            }
          }
          assert hosts[..|hosts|] == hosts;
        }
      }
      assert names[..|names|] == names;
    }

    method PeerSync(to: Option<string>, env: Env)
      modifies `outbox
      ensures State() == Corosync.PeerSync(old(State()), to, env)
    {
      hide Corosync.TableInOrder;
      var children := AllValues(env);
      outbox := outbox + [Send(to, Element(false, NoAttrs.(task := Some(SyncResponse)), children), election.Won?)];
    }

    /** The local values that the writer's sync response did not mention. */
    method UnseenValues(env: Env) returns (children: seq<Element>)
      ensures children == Corosync.UnseenInOrder(State(), env.order(State().attributes.Keys), env)
    {
      hide Attributes.ValueElement, Corosync.LocalOnly;
      children := [];
      var names := env.order(attributes.Keys);
      for i := 0 to |names|
        invariant children == Corosync.UnseenInOrder(State(), names[..i], env)
      {
        assert names[..i+1][..i] == names[..i];
        if names[i] in attributes {
          var a := attributes[names[i]];
          var hosts := env.order(a.values.Keys);
          ghost var before := children;
          for j := 0 to |hosts|
            invariant children == before + Corosync.UnseenOf(State(), names[i], a, hosts[..j])
          {
            assert hosts[..j+1][..j] == hosts[..j];
            var h := hosts[j];
            if h in a.values && Corosync.LocalOnly(State(), h, a.values[h]) {
              var force := a.timeoutMs != 0 && a.timer != NoTimer;
              children := children + [Attributes.ValueElement(State(), names[i], a, a.values[h], force)];
            }
          }
          assert hosts[..|hosts|] == hosts;
        }
      }
      assert names[..|names|] == names;
    }

    method BroadcastUnseen(env: Env)
      modifies `outbox
      ensures State() == Corosync.BroadcastUnseen(old(State()), env)
    {
      hide Corosync.UnseenInOrder;
      var children := UnseenValues(env);
      if children != [] {
        outbox := outbox + [Send(None, Element(false, NoAttrs.(task := Some(SyncResponse)), children), election.Won?)];
      }
    }

    method HandleSyncResponse(peer: string, peerWon: bool, e: Element, env: Env)
      requires ValidEnv(env)
      modifies this
      ensures State() == Corosync.HandleSyncResponse(old(State()), peer, peerWon, e, env)
    {
      hide Elections.CheckForNewWriter, Corosync.PeerUpdate, Corosync.BroadcastUnseen, Attributes.ClearValueSeen;
      CheckForNewWriter(peer, peerWon, env);
      if Fold(peer) == Fold(self) { return; }
      if peerWon { ClearValueSeen(env); }
      label Before:
      for i := 0 to |e.children|
        invariant State() == Corosync.LoadChildren(old@Before(State()), e.children[..i], env)
      {
        PeerUpdate(e.children[i], true, env);
        assert e.children[..i+1][..i] == e.children[..i];
      }
      assert e.children[..|e.children|] == e.children;
      if peerWon { BroadcastUnseen(env); }
    }

    method EraseRemoved(env: Env)
      modifies `log, `removed
      ensures State() == Corosync.EraseRemoved(old(State()), env)
    {
      if !election.Won? { return; }
      var hosts := env.order(removed);
      for i := 0 to |hosts|
        invariant State() == Corosync.EraseEach(old(State()), hosts[..i])
      {
        log := log + [Erase(hosts[i])];
        removed := removed - {hosts[i]};
        assert hosts[..i+1][..i] == hosts[..i];
      }
      assert hosts[..|hosts|] == hosts;
    }

    /** Forget a host's values; its attributes in the CIB are erased now by the writer, and otherwise when a
        writer is elected. */
    method PeerRemove(host: string, uncache: bool, env: Env)
      requires ValidEnv(env)
      modifies this
      ensures State() == Corosync.PeerRemove(old(State()), host, uncache, env)
    {
      DropHost(Fold(host), env);
      hide Corosync.DropHost;
      if election.Won? {
        log := log + [Erase(Fold(host))];
      } else {
        removed := removed + {Fold(host)};
        StartElectionIfNeeded(env);
      }
      if uncache {
        cache := cache - {Fold(host)};
        xmlIds := xmlIds - {Fold(host)};
      }
    }

    method DropHost(h: string, env: Env)
      requires ValidEnv(env)
      modifies `attributes
      ensures attributes == Corosync.DropHost(old(attributes), h)
    {
      var names := env.order(attributes.Keys);
      assert Enumerates(names, attributes.Keys);
      for i := 0 to |names|
        invariant attributes.Keys == old(attributes).Keys
        invariant forall name :: name in old(attributes) ==>
          attributes[name] == if name in names[..i]
                              then old(attributes)[name].(values := old(attributes)[name].values - {h})
                              else old(attributes)[name]
      {
        var name := names[i];
        NextHost(names, old(attributes).Keys, i);
        attributes := attributes[name := attributes[name].(values := attributes[name].values - {h})];
      }
      assert names[..|names|] == names;
    }

    // ---- events ----

    method PeerLost(peer: string, isRemote: bool, complete: bool, env: Env)
      requires ValidEnv(env)
      modifies this
      ensures State() == Daemon.PeerLost(old(State()), peer, isRemote, complete, env)
    {
      hide Corosync.PeerRemove, Daemon.RemoveVoter;
      PeerRemove(peer, false, env);
      if !isRemote { RemoveVoter(peer, complete, env); }
    }

    method PeerJoined(peer: string, env: Env)
      modifies `outbox
      ensures State() == Daemon.PeerJoined(old(State()), peer, env)
    {
      hide Corosync.SyncMessage;
      if election.Won? { PeerSync(Some(peer), env); } else { outbox := outbox + [Protocol(peer)]; }
    }

    method Receive(from: string, m: Daemon.PeerMessage, env: Env)
      requires ValidEnv(env)
      modifies this
      ensures State() == Daemon.Receive(old(State()), from, m, env)
    {
      hide Daemon.HandleElectionOp, Corosync.PeerUpdate, Corosync.ClearFailure, Corosync.PeerRemove, Corosync.HandleSyncResponse;
      if m.ElectionMessage? {
        HandleElectionOp(from, m.outcome, env);
        return;
      }
      if shuttingDown { return; }
      match m
      case UpdateMessage(e) => PeerUpdate(e, false, env);
      case ClearFailureMessage(e, matching) => ClearFailure(e, matching, env);
      case RemoveMessage(host, reap) => if host.Some? { PeerRemove(host.value, reap, env); }
      case SyncResponseMessage(e, fromWriter) => HandleSyncResponse(from, fromWriter, e, env);
      case ElectionMessage(_) =>
    }

    /** Any event, of the kinds that runs are made of. */
    method Handle(step: Daemon.Step, results: seq<bool>, told: nat, env: Env)
      requires ValidEnv(env)
      modifies this
      ensures State() == Daemon.NodeStep(Daemon.System(old(State()), map[], results, told), step, env)
    {
      hide Daemon.Receive, CibWrites.CibCallback, CibWrites.TimerExpired, CibWrites.WriteAttributes, Daemon.WinElection,
        Daemon.PeerLost, Daemon.RemoveVoter, Daemon.PeerJoined;
      match step
      case Deliver(from, m) => Receive(from, m, env);
      case CibReplies => if told < |results| { CibCallback(told + 1, results[told], env); }
      case CallTimesOut(call) => CibCallback(call, false, env);
      case TimerFires(name) => TimerExpired(name, env);
      case ElectionTimesOut => WinElection(env);
      case ClientRefresh => WriteAttributes(true, true, env);
      case UnsafeCibChange => if election.Won? && !shuttingDown { WriteAttributes(true, false, env); }
      case NodeLost(peer, isRemote, complete) => PeerLost(peer, isRemote, complete, env);
      case ProcessGone(peer, complete) => RemoveVoter(peer, complete, env);
      case NodeJoined(peer) => PeerJoined(peer, env);
      case MembershipLearns(host, id) => cache := cache[Fold(host) := id];
      case BeginShutdown => shuttingDown := true;
      case CibProcesses(_) =>
      case OtherWriterEdits(_) =>
    }
  }

  /** The values of one attribute, none of them marked as requested any more. */
  method ForgetRequests(values: map<string, Value>, env: Env) returns (r: map<string, Value>)
    requires ValidEnv(env)
    ensures r == CibWrites.Unrequested(values)
  {
    r := values;
    var hosts := env.order(values.Keys);
    assert Enumerates(hosts, values.Keys);
    for i := 0 to |hosts|
      invariant r.Keys == values.Keys
      invariant forall h :: h in values ==>
        r[h] == if h in hosts[..i] then values[h].(requested := None) else values[h]
    {
      var h := hosts[i];
      assert h in hosts;
      assert hosts[..i+1] == hosts[..i] + [h];
      r := r[h := r[h].(requested := None)];
    }
    assert hosts[..|hosts|] == hosts;
  }

  /** An attribute with no value marked as known to a peer. */
  method ForgetSeen(a: Attr, env: Env) returns (r: Attr)
    requires ValidEnv(env)
    ensures r == Attributes.Unseen(a)
  {
    var values := a.values;
    var hosts := env.order(values.Keys);
    assert Enumerates(hosts, values.Keys);
    for i := 0 to |hosts|
      invariant values.Keys == a.values.Keys
      invariant forall h :: h in a.values ==>
        values[h] == if h in hosts[..i] then a.values[h].(fromPeer := false) else a.values[h]
    {
      var h := hosts[i];
      NextHost(hosts, a.values.Keys, i);
      values := values[h := values[h].(fromPeer := false)];
    }
    assert hosts[..|hosts|] == hosts;
    r := a.(values := values);
    assert r.values == Attributes.Unseen(a).values;
  }

  predicate CanWrite(n: Node, a: Attr, h: string) {
    h in a.values && CibWrites.XmlIdFor(n, h, a.values[h]).Some?
  }

  /** What the loop over an attribute's values has to show for one node, whether or not it has passed it. */
  ghost predicate WrittenAt(n: Node, a: Attr, h: string, past: bool, ops: map<string, Option<string>>,
                            values: map<string, Value>, xmlIds: map<string, string>)
  {
    && (h in values <==> h in a.values)
    && (h in ops <==> past && CanWrite(n, a, h))
    && (h in xmlIds <==> h in n.xmlIds || h in ops)
    && (h in ops ==> h in a.values && h in values && ops[h] == a.values[h].current
                     && values[h] == a.values[h].(requested := a.values[h].current, blank := false)
                     && Some(xmlIds[h]) == CibWrites.XmlIdFor(n, h, a.values[h]))
    && (h !in ops ==> Lookup(values, h) == Lookup(a.values, h) && Lookup(xmlIds, h) == Lookup(n.xmlIds, h))
  }

  /** How far the loop over an attribute's values has come. */
  ghost predicate Written(n: Node, a: Attr, past: seq<string>, ops: map<string, Option<string>>,
                          values: map<string, Value>, xmlIds: map<string, string>, unknown: bool)
  {
    && (forall h :: WrittenAt(n, a, h, h in past, ops, values, xmlIds))
    && (unknown <==> exists h :: h in past && !CanWrite(n, a, h))
  }

  lemma WrittenNone(n: Node, a: Attr)
    ensures Written(n, a, [], map[], a.values, n.xmlIds, false)
  {
  }

  lemma NextHost(hosts: seq<string>, keys: set<string>, i: nat)
    requires Enumerates(hosts, keys) && i < |hosts|
    ensures hosts[i] in keys && hosts[i] !in hosts[..i] && hosts[..i+1] == hosts[..i] + [hosts[i]]
  {
    assert hosts[i] in hosts;
  }

  /** The next node's value is still as it was. */
  lemma WrittenNot(n: Node, a: Attr, past: seq<string>, h: string, ops: map<string, Option<string>>,
                   values: map<string, Value>, xmlIds: map<string, string>, unknown: bool)
    requires Written(n, a, past, ops, values, xmlIds, unknown)
    requires h in a.values && h !in past
    ensures h in values && values[h] == a.values[h]
    ensures CibWrites.XmlIdFor(n, h, values[h])
         == if values[h].remote then Some(values[h].nodename) else OrElse(Lookup(n.cache, h), Lookup(xmlIds, h))
  {
    assert WrittenAt(n, a, h, h in past, ops, values, xmlIds);
  }

  /** One turn of the loop, for a value that cannot be written. */
  lemma WrittenSkip(n: Node, a: Attr, past: seq<string>, h: string, ops: map<string, Option<string>>,
                    values: map<string, Value>, xmlIds: map<string, string>, unknown: bool)
    requires Written(n, a, past, ops, values, xmlIds, unknown)
    requires !CanWrite(n, a, h)
    ensures Written(n, a, past + [h], ops, values, xmlIds, true)
  {
    hide CanWrite;
    forall g
      ensures WrittenAt(n, a, g, g in past + [h], ops, values, xmlIds)
    {
      assert WrittenAt(n, a, g, g in past, ops, values, xmlIds);
    }
    assert h in past + [h];
  }

  /** One turn of the loop, for a value that can be written. */
  lemma WrittenAdd(n: Node, a: Attr, past: seq<string>, h: string, ops: map<string, Option<string>>,
                   values: map<string, Value>, xmlIds: map<string, string>, unknown: bool)
    requires Written(n, a, past, ops, values, xmlIds, unknown)
    requires CanWrite(n, a, h)
    ensures var v := a.values[h];
      Written(n, a, past + [h], ops[h := v.current], values[h := v.(requested := v.current, blank := false)],
              xmlIds[h := CibWrites.XmlIdFor(n, h, v).value], unknown)
  {
    var v := a.values[h];
    var ops', values' := ops[h := v.current], values[h := v.(requested := v.current, blank := false)];
    var xmlIds' := xmlIds[h := CibWrites.XmlIdFor(n, h, v).value];
    hide CibWrites.XmlIdFor;
    forall g
      ensures WrittenAt(n, a, g, g in past + [h], ops', values', xmlIds')
    {
      assert WrittenAt(n, a, g, g in past, ops, values, xmlIds);
    }
    hide CanWrite, WrittenAt;
    assert forall g :: g in past + [h] && !CanWrite(n, a, g) ==> g in past;
    assert forall g :: g in past ==> g in past + [h];
  }

  lemma WrittenOne(n: Node, a: Attr, past: seq<string>, h: string, ops: map<string, Option<string>>,
                   values: map<string, Value>, xmlIds: map<string, string>, unknown: bool)
    requires Enumerates(past, a.values.Keys) && Written(n, a, past, ops, values, xmlIds, unknown)
    ensures Lookup(ops, h) == Lookup(CibWrites.Snapshot(n, a), h)
    ensures Lookup(values, h) == Lookup(CibWrites.Requested(a.values, ops), h)
    ensures Lookup(xmlIds, h) == Lookup(n.xmlIds + CibWrites.LearnedIds(n, a), h)
  {
    assert WrittenAt(n, a, h, h in past, ops, values, xmlIds);
    hide CibWrites.XmlIdFor, Written;
  }

  lemma SameMap<V>(m: map<string, V>, m': map<string, V>)
    requires forall h :: Lookup(m, h) == Lookup(m', h)
    ensures m == m'
  {
    forall h
      ensures h in m <==> h in m'
      ensures h in m ==> m[h] == m'[h]
    {
      assert Lookup(m, h) == Lookup(m', h);
    }
  }

  lemma WrittenAll(n: Node, a: Attr, past: seq<string>, ops: map<string, Option<string>>,
                   values: map<string, Value>, xmlIds: map<string, string>, unknown: bool)
    requires Enumerates(past, a.values.Keys) && Written(n, a, past, ops, values, xmlIds, unknown)
    ensures ops == CibWrites.Snapshot(n, a)
    ensures values == CibWrites.Requested(a.values, ops)
    ensures xmlIds == n.xmlIds + CibWrites.LearnedIds(n, a)
    ensures unknown <==> exists h :: h in a.values && h !in ops
  {
    assert unknown <==> exists h :: h in past && !CanWrite(n, a, h);
    assert forall h :: h in a.values ==> (CanWrite(n, a, h) <==> h in CibWrites.Snapshot(n, a));
    hide CibWrites.XmlIdFor, CibWrites.Snapshot, CibWrites.Requested, CibWrites.LearnedIds, Written, CanWrite, Lookup;
    forall h
      ensures Lookup(ops, h) == Lookup(CibWrites.Snapshot(n, a), h)
      ensures Lookup(values, h) == Lookup(CibWrites.Requested(a.values, ops), h)
      ensures Lookup(xmlIds, h) == Lookup(n.xmlIds + CibWrites.LearnedIds(n, a), h)
    {
      WrittenOne(n, a, past, h, ops, values, xmlIds, unknown);
    }
    SameMap(ops, CibWrites.Snapshot(n, a));
    SameMap(values, CibWrites.Requested(a.values, ops));
    SameMap(xmlIds, n.xmlIds + CibWrites.LearnedIds(n, a));
  }

  /** A transaction depends on the values of an attribute only. */
  lemma SameSnapshot(n: Node, a: Attr, b: Attr)
    requires a.values == b.values
    ensures CibWrites.Snapshot(n, a) == CibWrites.Snapshot(n, b)
    ensures CibWrites.LearnedIds(n, a) == CibWrites.LearnedIds(n, b)
  {
  }

  /** The attribute as the loop over its values leaves it. */
  lemma PreparedIs(n: Node, a0: Attr, ready: Attr, a: Attr, ops: map<string, Option<string>>)
    requires ready == a0.(changed := false, forceWrite := false, nodeUnknown := false, update := 0,
                          timer := if a0.update == 0 && a0.timer.Running? then Idle else a0.timer)
    requires ops == CibWrites.Snapshot(n, ready)
    requires a == ready.(nodeUnknown := exists h :: h in ready.values && h !in ops, values := CibWrites.Requested(ready.values, ops))
    ensures ops == CibWrites.Snapshot(n, a0) && a == CibWrites.Prepared(n, a0)
    ensures CibWrites.LearnedIds(n, ready) == CibWrites.LearnedIds(n, a0)
  {
    SameSnapshot(n, a0, ready);
    hide CibWrites.Snapshot, CibWrites.LearnedIds, CibWrites.Requested;
  }

  /** The commit of a transaction: nothing to write, not sent, or sent. */
  ghost predicate Committed(n: Node, n': Node, name: string, a: Attr, ops: map<string, Option<string>>, env: Env) {
    if ops == map[] then n'.attributes == n.attributes[name := a] && n'.log == n.log && n'.callbacks == n.callbacks
    else if env.refuses(|n.log| + 1) then
      && n'.attributes == n.attributes[name := CibWrites.AfterFailure(a, n.election.Won?)]
      && n'.log == n.log + [Refused] && n'.callbacks == n.callbacks
    else
      && n'.attributes == n.attributes[name := a.(update := |n.log| + 1)]
      && n'.log == n.log + [Request.Commit(name, ops)] && n'.callbacks == n.callbacks[|n.log| + 1 := name]
  }

  /** What a transaction changes, put together. */
  lemma SentIs(n: Node, n': Node, name: string, a: Attr, ops: map<string, Option<string>>, env: Env)
    requires name in n.attributes && a == CibWrites.Prepared(n, n.attributes[name]) && ops == CibWrites.Snapshot(n, n.attributes[name])
    requires n'.self == n.self && n'.standAlone == n.standAlone && n'.shuttingDown == n.shuttingDown && n'.cache == n.cache
    requires n'.removed == n.removed && n'.election == n.election && n'.writer == n.writer && n'.lastDone == n.lastDone
    requires n'.outbox == n.outbox
    requires n'.xmlIds == n.xmlIds + CibWrites.LearnedIds(n, n.attributes[name])
    requires Committed(n.(xmlIds := n'.xmlIds), n', name, a, ops, env)
    ensures n' == CibWrites.SendTransaction(n, name, env)
  {
    hide CibWrites.Snapshot, CibWrites.LearnedIds, CibWrites.AfterFailure, CibWrites.Prepared;
  }

  lemma NonEmpty(order: seq<string>, values: map<string, Value>)
    requires Enumerates(order, values.Keys)
    ensures values != map[] <==> order != []
  {
    if order != [] {
      assert order[0] in order;
      assert order[0] in values;
    } else {
      assert values.Keys == {};
    }
  }
}
