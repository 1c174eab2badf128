/** What a write delay delays, and what it does not: when a changed value is written. */
module WriteDelays {
  import opened Common
  import opened Model
  import opened Elections
  import opened CibWrites
  import opened Attributes
  import opened Corosync
  import opened Daemon
  import opened CibAgreement
  import opened WriterRuns
  import opened Replica

  /** The attribute has a delay, which is running, and nobody has asked for it to be cut short. */
  predicate Waiting(n: Node, name: string) {
    && name in n.attributes && n.attributes[name].timeoutMs != 0 && n.attributes[name].timer.Running?
    && !n.attributes[name].forceWrite
    && (n.attributes[name].update != 0 ==> n.attributes[name].update >= n.lastDone)
  }

  /** Calls have been added to the log, and none of them writes the attribute. */
  ghost predicate NotWritten(log: seq<Request>, log': seq<Request>, name: string) {
    && |log| <= |log'| && log'[..|log|] == log
    && forall j :: |log| <= j < |log'| ==> !(log'[j].Commit? && log'[j].attr == name)
  }

  /** If the delay was running, it still is, and the attribute has not been written. */
  ghost predicate Waits(n: Node, n': Node, name: string) {
    Waiting(n, name) ==>
      Waiting(n', name) && n'.attributes[name].timeoutMs == n.attributes[name].timeoutMs && NotWritten(n.log, n'.log, name)
  }

  lemma WaitsOn(n: Node, n1: Node, n2: Node, name: string)
    requires Waits(n, n1, name) && Waits(n1, n2, name)
    ensures Waits(n, n2, name)
  {
    hide Waiting;
    if Waiting(n, name) {
      assert n2.log[..|n.log|] == n2.log[..|n1.log|][..|n.log|];
      forall j | |n.log| <= j < |n2.log| ensures !(n2.log[j].Commit? && n2.log[j].attr == name) {
        if j < |n1.log| { assert n2.log[j] == n2.log[..|n1.log|][j]; }
      }
    }
  }

  lemma SameWaits(n: Node, n': Node, name: string)
    requires n'.attributes == n.attributes && n'.log == n.log && n'.lastDone == n.lastDone
    ensures Waits(n, n', name)
  {
  }

  lemma WriteWaits(n: Node, b: string, ignoreDelay: bool, env: Env, name: string)
    requires b != name || !ignoreDelay
    ensures Waits(n, WriteAttribute(n, b, ignoreDelay, env), name)
  {
    hide Snapshot, LearnedIds, SentAttr;
  }

  lemma WriteOrElectWaits(n: Node, b: string, env: Env, name: string)
    ensures Waits(n, WriteOrElect(n, b, env), name)
  {
    hide WriteAttribute;
    WriteWaits(n, b, false, env, name);
  }

  lemma WriteIfAskedWaits(n: Node, b: string, all: bool, env: Env, name: string)
    ensures Waits(n, WriteIfAsked(n, b, all, false, env), name)
  {
    hide WriteAttribute;
    if Waiting(n, name) && b in n.attributes {
      var a := n.attributes[b];
      var n1 := SetAttr(n, b, a.(changed := true));
      assert Waits(n, n1, name);
      assert b == name ==> !a.forceWrite;
      WriteWaits(n, b, a.forceWrite, env, name);
      WriteWaits(n1, b, a.forceWrite, env, name);
      hide Waits;
      WaitsOn(n, n1, WriteAttribute(n1, b, a.forceWrite, env), name);
      SameWaits(n, n, name);
    }
  }

  lemma {:induction false} WriteEachWaits(n: Node, names: seq<string>, all: bool, env: Env, name: string)
    ensures Waits(n, WriteEach(n, names, all, false, env), name)
  {
    hide WriteIfAsked, Waits;
    SameWaits(n, n, name);
    if names != [] {
      var n1 := WriteEach(n, names[..|names|-1], all, false, env);
      WriteEachWaits(n, names[..|names|-1], all, env, name);
      WriteIfAskedWaits(n1, names[|names|-1], all, env, name);
      WaitsOn(n, n1, WriteEach(n, names, all, false, env), name);
    }
  }

  // ---- Updates ----

  lemma ChangeWaits(n: Node, b: string, h: string, value: Option<string>, env: Env, name: string)
    requires b in n.attributes && h in n.attributes[b].values
    ensures Waits(n, ChangeValue(n, b, h, value, env), name)
  {
    hide WriteOrElect;
    var a := n.attributes[b];
    var n1 := SetAttr(n, b, SetValue(a, h, a.values[h].(current := value, blank := false)).(changed := true));
    assert Waits(n, n1, name);
    WriteOrElectWaits(n1, b, env, name);
    WaitsOn(n, n1, WriteOrElect(n1, b, env), name);
  }

  lemma TakeWaits(n: Node, b: string, op: Op, host: string, filter: bool, env: Env, name: string)
    requires b in n.attributes && Fold(host) in n.attributes[b].values && (b == name ==> !IsSet(op.forceWrite))
    ensures Waits(n, TakeValue(n, b, op, host, filter, env), name)
  {
    hide ChangeValue, Fold, ValueElement;
    ChangeWaits(n, b, Fold(host), op.value, env, name);
    SameWaits(n, n, name);
  }

  lemma EntryWaits(n: Node, b: string, op: Op, host: string, name: string)
    requires b in n.attributes
    ensures Waits(n, WithEntry(n, b, op, host), name)
  {
    hide Fold;
  }

  lemma MarkWaits(n: Node, b: string, h: string, name: string)
    ensures Waits(n, MarkFromPeer(n, b, h), name)
  {
  }

  lemma LearnWaits(n: Node, h: string, id: Option<string>, previous: Option<string>, env: Env, name: string)
    ensures Waits(n, LearnXmlId(n, h, id, previous, env), name)
  {
    hide WriteEach, Waits;
    SameWaits(n, n, name);
    if id.Some? {
      var n1 := n.(xmlIds := n.xmlIds[h := id.value]);
      SameWaits(n, n1, name);
      WriteEachWaits(n1, env.order(n1.attributes.Keys), false, env, name);
      WaitsOn(n, n1, WriteAttributes(n1, false, false, env), name);
    }
  }

  lemma UpdateOnHostWaits(n: Node, b: string, op: Op, host: string, filter: bool, env: Env, name: string)
    requires b == name ==> !IsSet(op.forceWrite)
    ensures Waits(n, UpdateOnHost(n, b, op, host, filter, env), name)
  {
    hide TakeValue, Fold, Waits, LearnXmlId, MarkFromPeer;
    SameWaits(n, n, name);
    if b in n.attributes {
      var n1 := WithEntry(n, b, op, host);
      EntryWaits(n, b, op, host, name);
      TakeWaits(n1, b, op, host, filter, env, name);
      var n2 := TakeValue(n1, b, op, host, filter, env);
      WaitsOn(n, n1, n2, name);
      var n3 := MarkFromPeer(n2, b, Fold(host));
      MarkWaits(n2, b, Fold(host), name);
      WaitsOn(n, n2, n3, name);
      var previous := Lookup(n.xmlIds, Fold(host));
      LearnWaits(n3, Fold(host), OrElse(op.hostId, previous), previous, env, name);
      WaitsOn(n, n3, LearnXmlId(n3, Fold(host), OrElse(op.hostId, previous), previous, env), name);
    }
  }

  lemma {:induction false} UpdateOnHostsWaits(n: Node, b: string, op: Op, hosts: seq<string>, filter: bool, env: Env, name: string)
    requires b == name ==> !IsSet(op.forceWrite)
    ensures Waits(n, UpdateOnHosts(n, b, op, hosts, filter, env), name)
  {
    hide UpdateOnHost, Waits;
    SameWaits(n, n, name);
    if hosts != [] {
      var n1 := UpdateOnHosts(n, b, op, hosts[..|hosts|-1], filter, env);
      UpdateOnHostsWaits(n, b, op, hosts[..|hosts|-1], filter, env, name);
      UpdateOnHostWaits(n1, b, op, hosts[|hosts|-1], filter, env, name);
      WaitsOn(n, n1, UpdateOnHosts(n, b, op, hosts, filter, env), name);
    }
  }

  /** The operation neither forces a write of the attribute nor changes its delay to another one. */
  predicate Calm(op: Op, name: string, ms: nat) {
    op.name == Some(name) ==>
      && !IsSet(op.forceWrite)
      && !((Both(op) || op.task == Some(UpdateDelay)) && ValidDelay(op) && op.delay.value.ms != ms)
  }

  lemma DampeningWaits(n: Node, op: Op, b: string, env: Env, name: string)
    requires b in n.attributes && (b == name ==> !(ValidDelay(op) && op.delay.value.ms != n.attributes[name].timeoutMs))
    ensures Waits(n, UpdateDampening(n, op, b, env).0, name)
  {
    hide WriteOrElect;
    SameWaits(n, n, name);
    if ValidDelay(op) && op.delay.value.ms != n.attributes[b].timeoutMs {
      var ms := op.delay.value.ms;
      var n1 := SetAttr(n, b, n.attributes[b].(timeoutMs := CapMs(ms), timer := if ms > 0 then Idle else NoTimer));
      assert Waits(n, n1, name);
      WriteOrElectWaits(n1, b, env, name);
      WaitsOn(n, n1, WriteOrElect(n1, b, env), name);
    }
  }

  lemma PopulateWaits(n: Node, op: Op, env: Env, name: string)
    requires op.name.Some? && (Waiting(n, name) ==> Calm(op, name, n.attributes[name].timeoutMs))
    ensures Waits(n, Populate(n, op, op.name.value, env).0, name)
  {
    hide UpdateDampening;
    var b := op.name.value;
    SameWaits(n, n, name);
    if Waiting(n, name) {
      if b in n.attributes {
        if Both(op) || op.task == Some(UpdateDelay) { DampeningWaits(n, op, b, env, name); }
      } else {
        var made := CreateAttribute(n, op, b);
        if made.Some? {
          assert Waits(n, made.value, name) && b in made.value.attributes && b != name;
          DampeningWaits(made.value, op, b, env, name);
          WaitsOn(n, made.value, UpdateDampening(made.value, op, b, env).0, name);
        }
      }
    }
  }

  lemma PeerUpdateOneWaits(n: Node, op: Op, filter: bool, env: Env, name: string)
    requires Waiting(n, name) ==> Calm(op, name, n.attributes[name].timeoutMs)
    ensures Waits(n, PeerUpdateOne(n, op, filter, env), name)
  {
    hide Populate, UpdateOnHost, UpdateOnHosts;
    SameWaits(n, n, name);
    if op.name.Some? && Waiting(n, name) {
      hide Waits;
      var b := op.name.value;
      PopulateWaits(n, op, env, name);
      var n1 := Populate(n, op, b, env).0;
      if b in n1.attributes {
        if op.host.Some? {
          UpdateOnHostWaits(n1, b, op, op.host.value, filter, env, name);
          WaitsOn(n, n1, UpdateOnHost(n1, b, op, op.host.value, filter, env), name);
        } else {
          var hosts := env.order(n1.attributes[b].values.Keys);
          UpdateOnHostsWaits(n1, b, op.(hostId := None), hosts, filter, env, name);
          WaitsOn(n, n1, UpdateOnHosts(n1, b, op.(hostId := None), hosts, filter, env), name);
        }
      }
    }
  }

  lemma {:induction false} UpdateChildrenWaits(n: Node, p: Op, children: seq<Element>, filter: bool, env: Env, name: string)
    requires Waiting(n, name) ==> forall i :: 0 <= i < |children| && children[i].isOp ==>
      Calm(Merge(children[i].attrs, p), name, n.attributes[name].timeoutMs)
    ensures Waits(n, UpdateChildren(n, p, children, filter, env), name)
  {
    hide PeerUpdateOne, Merge, Calm;
    SameWaits(n, n, name);
    if children != [] && Waiting(n, name) {
      var front, child := children[..|children|-1], children[|children|-1];
      var n1 := UpdateChildren(n, p, front, filter, env);
      UpdateChildrenWaits(n, p, front, filter, env, name);
      if child.isOp {
        assert n1.attributes[name].timeoutMs == n.attributes[name].timeoutMs;
        PeerUpdateOneWaits(n1, Merge(child.attrs, p), filter, env, name);
        hide Waits;
        WaitsOn(n, n1, PeerUpdateOne(n1, Merge(child.attrs, p), filter, env), name);
      }
    }
  }

  /** No operation of the message cuts the delay short. */
  predicate CalmMessage(e: Element, name: string, ms: nat) {
    if e.children == [] then Calm(e.attrs, name, ms)
    else forall i :: 0 <= i < |e.children| && e.children[i].isOp ==> Calm(Merge(e.children[i].attrs, e.attrs), name, ms)
  }

  lemma PeerUpdateWaits(n: Node, e: Element, filter: bool, env: Env, name: string)
    requires Waiting(n, name) ==> CalmMessage(e, name, n.attributes[name].timeoutMs)
    ensures Waits(n, PeerUpdate(n, e, filter, env), name)
  {
    hide PeerUpdateOne, UpdateChildren, Calm, Merge, Waiting;
    if e.children == [] {
      PeerUpdateOneWaits(n, e.attrs, filter, env, name);
    } else {
      UpdateChildrenWaits(n, e.attrs, e.children, filter, env, name);
    }
  }

  lemma {:induction false} LoadWaits(n: Node, children: seq<Element>, env: Env, name: string)
    requires Waiting(n, name) ==> forall i :: 0 <= i < |children| ==> CalmMessage(children[i], name, n.attributes[name].timeoutMs)
    ensures Waits(n, LoadChildren(n, children, env), name)
  {
    hide PeerUpdate, CalmMessage;
    SameWaits(n, n, name);
    if children != [] && Waiting(n, name) {
      var front, child := children[..|children|-1], children[|children|-1];
      var n1 := LoadChildren(n, front, env);
      LoadWaits(n, front, env, name);
      assert n1.attributes[name].timeoutMs == n.attributes[name].timeoutMs;
      PeerUpdateWaits(n1, child, true, env, name);
      hide Waits;
      WaitsOn(n, n1, PeerUpdate(n1, child, true, env), name);
    }
  }

  /** A request to clear failures that forces nothing and has no children with a delay to set. */
  predicate CalmClear(e: Element) {
    && !IsSet(e.attrs.forceWrite)
    && forall i :: 0 <= i < |e.children| && e.children[i].isOp ==>
         && !IsSet(e.children[i].attrs.forceWrite)
         && e.children[i].attrs.task != Some(UpdateBoth) && e.children[i].attrs.task != Some(UpdateDelay)
  }

  lemma CalmOnceNamed(e: Element, x: string, name: string, ms: nat)
    requires CalmClear(e)
    ensures CalmMessage(ClearOf(e, x), name, ms) && CalmClear(Absorbed(ClearOf(e, x)))
  {
    AbsorbIs(e.children, ClearOf(e, x).attrs);
  }

  lemma {:induction false} ClearWaits(n: Node, e: Element, names: seq<string>, matching: set<string>, env: Env, name: string)
    requires CalmClear(e)
    ensures Waits(n, ClearMatching(n, e, names, matching, env), name) && CalmClear(ClearRequest(e, names, matching))
  {
    hide PeerUpdate, CalmMessage, CalmClear, Absorb;
    SameWaits(n, n, name);
    if names != [] {
      var front, x := names[..|names|-1], names[|names|-1];
      ClearWaits(n, e, front, matching, env, name);
      if x in matching {
        var n1, e1 := ClearMatching(n, e, front, matching, env), ClearRequest(e, front, matching);
        CalmOnceNamed(e1, x, name, if name in n1.attributes then n1.attributes[name].timeoutMs else 0);
        PeerUpdateWaits(n1, ClearOf(e1, x), false, env, name);
        hide Waits;
        WaitsOn(n, n1, PeerUpdate(n1, ClearOf(e1, x), false, env), name);
      }
    }
  }

  lemma SyncWaits(n: Node, peer: string, peerWon: bool, e: Element, env: Env, name: string)
    requires Waiting(n, name) ==> forall i :: 0 <= i < |e.children| ==> CalmMessage(e.children[i], name, n.attributes[name].timeoutMs)
    ensures Waits(n, HandleSyncResponse(n, peer, peerWon, e, env), name)
  {
    hide LoadChildren, CalmMessage, Fold, SameText, UnseenInOrder;
    var n1 := CheckForNewWriter(n, peer, peerWon, env);
    SameWaits(n, n1, name);
    var n2 := if peerWon then ClearValueSeen(n1) else n1;
    assert Waits(n, n2, name) && (Waiting(n, name) <==> Waiting(n2, name));
    LoadWaits(n2, e.children, env, name);
    var n3 := LoadChildren(n2, e.children, env);
    SameWaits(n3, BroadcastUnseen(n3, env), name);
    hide Waits;
    WaitsOn(n, n2, n3, name);
    WaitsOn(n, n3, BroadcastUnseen(n3, env), name);
  }

  // ---- Elections, membership, replies and timers ----

  lemma {:induction false} EraseWaits(n: Node, hosts: seq<string>, name: string)
    ensures Waits(n, EraseEach(n, hosts), name)
  {
    if hosts != [] {
      EraseWaits(n, hosts[..|hosts|-1], name);
    }
  }

  lemma WinWaits(n: Node, env: Env, name: string)
    ensures Waits(n, WinElection(n, env), name)
  {
    hide EraseEach, WriteEach, SyncMessage;
    var n1 := PeerSync(n.(election := Won, writer := Some(n.self)), None, env);
    SameWaits(n, n1, name);
    EraseWaits(n1, env.order(n1.removed), name);
    var n2 := EraseRemoved(n1, env);
    WriteEachWaits(n2, env.order(n2.attributes.Keys), true, env, name);
    hide Waits;
    WaitsOn(n, n1, n2, name);
    WaitsOn(n, n2, WinElection(n, env), name);
  }

  lemma ElectionOpWaits(n: Node, peer: string, outcome: VoteOutcome, env: Env, name: string)
    ensures Waits(n, HandleElectionOp(n, peer, outcome, env), name)
  {
    hide WinElection;
    WinWaits(n, env, name);
    if !(outcome.Counted? && n.election.InProgress? && outcome.complete) {
      hide Waits;
      SameWaits(n, HandleElectionOp(n, peer, outcome, env), name);
    }
  }

  lemma RemoveVoterWaits(n: Node, peer: string, complete: bool, env: Env, name: string)
    ensures Waits(n, RemoveVoter(n, peer, complete, env), name)
  {
    hide WinElection, Fold, Waits;
    WinWaits(n, env, name);
    SameWaits(n, n, name);
    SameWaits(n, StartElectionIfNeeded(n.(writer := None), env), name);
  }

  lemma DropWaits(n: Node, h: string, name: string)
    ensures Waits(n, n.(attributes := DropHost(n.attributes, h)), name)
  {
  }

  lemma OneEraseWaits(n: Node, host: string, name: string)
    ensures Waits(n, EraseTransient(n, host), name)
  {
    hide Fold;
  }

  lemma PeerRemoveWaits(n: Node, host: string, uncache: bool, env: Env, name: string)
    ensures Waits(n, PeerRemove(n, host, uncache, env), name)
  {
    hide Fold, DropHost, EraseTransient, Waits;
    var n1 := n.(attributes := DropHost(n.attributes, Fold(host)));
    DropWaits(n, Fold(host), name);
    var n2 := if IsWriter(n) then EraseTransient(n1, host)
              else StartElectionIfNeeded(n1.(removed := n1.removed + {Fold(host)}), env);
    if IsWriter(n) { OneEraseWaits(n1, host, name); } else { SameWaits(n1, n2, name); }
    WaitsOn(n, n1, n2, name);
    SameWaits(n2, PeerRemove(n, host, uncache, env), name);
    WaitsOn(n, n2, PeerRemove(n, host, uncache, env), name);
  }

  lemma PeerLostWaits(n: Node, peer: string, isRemote: bool, complete: bool, env: Env, name: string)
    ensures Waits(n, PeerLost(n, peer, isRemote, complete, env), name)
  {
    hide PeerRemove, RemoveVoter, Waits;
    PeerRemoveWaits(n, peer, false, env, name);
    RemoveVoterWaits(PeerRemove(n, peer, false, env), peer, complete, env, name);
    WaitsOn(n, PeerRemove(n, peer, false, env), RemoveVoter(PeerRemove(n, peer, false, env), peer, complete, env), name);
  }

  /** A reply does not end a delay, not even the reply to a call for the attribute. */
  lemma CallbackWaits(n: Node, c: Side, call: int, ok: bool, env: Env, name: string)
    requires CallsOk(n, c) && call in n.callbacks && (ok ==> call == c.told + 1)
    requires name in n.attributes && n.attributes[name].update != 0 ==> n.attributes[name].update > c.told
    ensures Waits(n, CibCallback(n, call, ok, env), name)
  {
    hide WriteAttribute, Unrequested;
    var b := n.callbacks[call];
    var n0 := n.(callbacks := n.callbacks - {call});
    if ok {
      var n1 := SetAttr(n0, b, Confirmed(n.attributes[b])).(lastDone := call);
      assert Waits(n, n1, name);
      WriteWaits(n1, b, false, env, name);
      hide Waits;
      WaitsOn(n, n1, WriteAttribute(n1, b, false, env), name);
    }
  }

  lemma TimerWaits(n: Node, b: string, env: Env, name: string)
    requires b != name
    ensures Waits(n, TimerExpired(n, b, env), name)
  {
    hide WriteOrElect;
    if b in n.attributes {
      var n1 := SetAttr(n, b, n.attributes[b].(timer := Idle));
      assert Waits(n, n1, name);
      WriteOrElectWaits(n1, b, env, name);
      WaitsOn(n, n1, WriteOrElect(n1, b, env), name);
    }
  }

  // ---- Every step ----

  /** What may end the wait: the timer itself, a client's refresh, or a message with an operation that forces the write
      or changes the delay. */
  predicate Releases(n: Node, step: Step, name: string)
    requires name in n.attributes
  {
    var ms := n.attributes[name].timeoutMs;
    match step
    case TimerFires(b) => b == name
    case ClientRefresh => true
    case Deliver(_, UpdateMessage(e)) => !CalmMessage(e, name, ms)
    case Deliver(_, ClearFailureMessage(e, _)) => !CalmClear(e)
    case Deliver(_, SyncResponseMessage(e, _)) => exists i :: 0 <= i < |e.children| && !CalmMessage(e.children[i], name, ms)
    case _ => false
  }

  lemma ReceiveWaits(n: Node, from: string, m: PeerMessage, env: Env, name: string)
    requires name in n.attributes && !Releases(n, Deliver(from, m), name)
    ensures Waits(n, Receive(n, from, m, env), name)
  {
    hide HandleElectionOp, PeerUpdate, ClearMatching, PeerRemove, HandleSyncResponse, Waits, CalmMessage, CalmClear;
    SameWaits(n, n, name);
    match m
    case ElectionMessage(outcome) => ElectionOpWaits(n, from, outcome, env, name);
    case UpdateMessage(e) => PeerUpdateWaits(n, e, false, env, name);
    case ClearFailureMessage(e, matching) => ClearWaits(n, e, env.order(n.attributes.Keys), matching, env, name);
    case RemoveMessage(host, reap) => if host.Some? { PeerRemoveWaits(n, host.value, reap, env, name); }
    case SyncResponseMessage(e, fromWriter) => SyncWaits(n, from, fromWriter, e, env, name);
  }

  lemma CallTimesOutWaits(n: Node, c: Side, call: int, env: Env, name: string)
    requires Base(n, c) && call in n.callbacks
    ensures Waits(n, CibCallback(n, call, false, env), name)
  {
    hide CibCallback;
    assert name in n.attributes ==> Sound(n, c, name, n.attributes[name]);
    CallbackWaits(n, c, call, false, env, name);
  }

  lemma ReplyWaits(s: System, env: Env, name: string)
    requires Inv(s.node, SideOf(s)) && s.told < |s.results|
    ensures Waits(s.node, CibCallback(s.node, s.told + 1, s.results[s.told], env), name)
  {
    var n, c := s.node, SideOf(s);
    assert name in n.attributes ==> Sound(n, c, name, n.attributes[name]);
    if s.told + 1 in n.callbacks {
      hide CibCallback, Sound;
      assert name in n.attributes && n.attributes[name].update != 0 ==> n.attributes[name].update > c.told by {
        assert name in n.attributes ==> Sound(n, c, name, n.attributes[name]);
      }
      CallbackWaits(n, c, s.told + 1, s.results[s.told], env, name);
    } else {
      SameWaits(n, n, name);
    }
  }

  lemma LocalWaits(s: System, step: Step, env: Env, name: string)
    requires Inv(s.node, SideOf(s)) && Enabled(s, step, env) && !step.Deliver?
    requires name in s.node.attributes && !Releases(s.node, step, name)
    ensures Waits(s.node, NodeStep(s, step, env), name)
  {
    hide CibCallback, TimerExpired, WinElection, WriteEach, RemoveVoter, PeerLost, SyncMessage, Waits, Inv, Fold;
    var n := s.node;
    SameWaits(n, n, name);
    match step
    case CibReplies => ReplyWaits(s, env, name);
    case CallTimesOut(call) => assert Base(n, SideOf(s)) by { BaseOf(s); } CallTimesOutWaits(n, SideOf(s), call, env, name);
    case TimerFires(b) => TimerWaits(n, b, env, name);
    case ElectionTimesOut => WinWaits(n, env, name);
    case UnsafeCibChange => WriteEachWaits(n, env.order(n.attributes.Keys), true, env, name);
    case ProcessGone(peer, complete) => RemoveVoterWaits(n, peer, complete, env, name);
    case NodeLost(peer, isRemote, complete) => PeerLostWaits(n, peer, isRemote, complete, env, name);
    case _ => SameWaits(n, NodeStep(s, step, env), name);
  }

  lemma BaseOf(s: System)
    requires Inv(s.node, SideOf(s))
    ensures Base(s.node, SideOf(s))
  {
  }

  lemma StepWaits(s: System, step: Step, env: Env, name: string)
    requires Inv(s.node, SideOf(s)) && Enabled(s, step, env)
    requires name in s.node.attributes && !Releases(s.node, step, name)
    ensures Waits(s.node, Next(s, step, env).node, name)
  {
    hide NodeStep, Waits, Inv, Releases, Enabled;
    if step.Deliver? {
      ReceiveWaits(s.node, step.from, step.message, env, name);
      assert NodeStep(s, step, env) == Receive(s.node, step.from, step.message, env) by { Delivered(s, step, env); }
    } else {
      LocalWaits(s, step, env, name);
      SameWaits(s.node, s.node, name);
    }
  }

  lemma Delivered(s: System, step: Step, env: Env)
    requires step.Deliver?
    ensures NodeStep(s, step, env) == Receive(s.node, step.from, step.message, env)
  {
  }

  /** While a delay runs, and nothing in the run cuts it short, the attribute is not written, and the delay goes on: a
      change of a value is followed by a write only after its timer has fired, a client has asked for a refresh, or a
      message has forced the write or changed the delay. */
  lemma {:induction false} DelayHolds(self: string, standAlone: bool, cib: Cib, run: seq<Event>, k: nat, name: string)
    requires ValidRun(Initial(self, standAlone, cib), run) && k <= |run|
    requires var n := Exec(Initial(self, standAlone, cib), run[..k]).node;
      name in n.attributes && n.attributes[name].timeoutMs != 0 && n.attributes[name].timer.Running? && !n.attributes[name].forceWrite
    requires forall i :: k <= i < |run| ==>
      var n := Exec(Initial(self, standAlone, cib), run[..i]).node;
      name in n.attributes ==> !Releases(n, run[i].step, name)
    ensures var n, n' := Exec(Initial(self, standAlone, cib), run[..k]).node, Exec(Initial(self, standAlone, cib), run).node;
      Waiting(n', name) && NotWritten(n.log, n'.log, name)
  {
    hide Next, Releases, Enabled;
    var s0 := Initial(self, standAlone, cib);
    if k == |run| {
      assert run[..k] == run;
      NeverConsideredLost(self, standAlone, cib, run, name);
    } else {
      var front, last := run[..|run|-1], run[|run|-1];
      assert front[..k] == run[..k] && forall i :: k <= i < |front| ==> front[..i] == run[..i] && front[i] == run[i];
      DelayHolds(self, standAlone, cib, front, k, name);
      RunKeeps(self, standAlone, cib, front);
      var s1 := Exec(s0, front);
      assert run[..|run|-1] == front;
      StepWaits(s1, last.step, last.env, name);
      WaitsFrom(Exec(s0, run[..k]).node.log, s1.node, Next(s1, last.step, last.env).node, name);
    }
  }

  lemma WaitsFrom(log: seq<Request>, n: Node, n': Node, name: string)
    requires NotWritten(log, n.log, name) && Waiting(n, name) && Waits(n, n', name)
    ensures Waiting(n', name) && NotWritten(log, n'.log, name)
  {
    hide Waiting;
    assert n'.log[..|log|] == n'.log[..|n.log|][..|log|];
    forall j | |log| <= j < |n'.log| ensures !(n'.log[j].Commit? && n'.log[j].attr == name) {
      if j < |n.log| { assert n'.log[j] == n'.log[..|n.log|][j]; }
    }
  }

  // ---- A changed value ----

  /** The value the table has for the attribute on the node, if any. */
  function HeldFor(n: Node, name: string, h: string): Option<string> {
    if name in n.attributes && h in n.attributes[name].values then n.attributes[name].values[h].current else None
  }

  /** An update that changes the value of an existing attribute on one node, and neither its delay nor what is known of
      the node's XML ID. */
  predicate ChangesOnly(n: Node, op: Op) {
    && op.name.Some? && op.name.value in n.attributes && op.host.Some?
    && (if op.task.None? || op.task == Some(UpdateBoth)
        then op.delay == Some(DelayMs(n.attributes[op.name.value].timeoutMs)) else op.task != Some(UpdateDelay))
    && !SameText(HeldFor(n, op.name.value, Fold(op.host.value)), op.value)
    && (op.hostId.None? || op.hostId == Lookup(n.xmlIds, Fold(op.host.value)))
  }

  /** Such an update makes an entry and changes its value; there is nothing to learn from it. */
  lemma ChangeIs(n: Node, op: Op, env: Env) returns (n1: Node)
    requires ChangesOnly(n, op)
    ensures var name, h := op.name.value, Fold(op.host.value);
      && n1 == WithEntry(n, name, op, op.host.value)
      && name in n1.attributes && h in n1.attributes[name].values
      && PeerUpdateOne(n, op, false, env) == MarkFromPeer(ChangeValue(n1, name, h, op.value, env), name, h)
  {
    hide ChangeValue, MarkFromPeer, Fold;
    var name, h := op.name.value, Fold(op.host.value);
    n1 := WithEntry(n, name, op, op.host.value);
    assert Populate(n, op, name, env) == (n, true);
    assert !SameText(n1.attributes[name].values[h].current, op.value);
    var previous := Lookup(n.xmlIds, h);
    assert OrElse(op.hostId, previous) == previous;
  }

  /** With a delay, a changed value is not written: the timer is started, or started again, and that is all. */
  lemma ChangeIsDelayed(n: Node, c: Side, op: Op, env: Env)
    requires Inv(n, c) && ChangesOnly(n, op) && n.attributes[op.name.value].timeoutMs != 0
    ensures var n', name := PeerUpdate(n, Element(true, op, []), false, env), op.name.value;
      && n'.log == n.log && n'.callbacks == n.callbacks
      && name in n'.attributes && n'.attributes[name].timer.Running? && n'.attributes[name].changed
      && HeldFor(n', name, Fold(op.host.value)) == op.value
  {
    var name, h := op.name.value, Fold(op.host.value);
    assert Sound(n, c, name, n.attributes[name]);
    var n1 := ChangeIs(n, op, env);
    hide Fold, PeerUpdateOne, Inv;
  }

  /** The values are for all nodes whose XML ID is known, as the table has them, but for the new value of one. */
  ghost predicate Writes(n: Node, op: Op, ops: map<string, Option<string>>)
    requires op.name.Some? && op.name.value in n.attributes && op.host.Some?
  {
    var values, h := n.attributes[op.name.value].values, Fold(op.host.value);
    && h in ops && ops[h] == op.value
    && (forall g :: g in ops && g != h ==> g in values && ops[g] == values[g].current)
    && (forall g :: g in values && (g in n.cache || g in n.xmlIds || values[g].remote) ==> g in ops)
  }

  /** The attribute once its value is changed. */
  function Changed(n1: Node, name: string, h: string, value: Option<string>): Attr
    requires name in n1.attributes && h in n1.attributes[name].values
  {
    var a := n1.attributes[name];
    SetValue(a, h, a.values[h].(current := value, blank := false)).(changed := true)
  }

  lemma SnapshotWrites(n: Node, op: Op)
    requires ChangesOnly(n, op)
    requires var h := Fold(op.host.value); h in n.cache || h in n.xmlIds || IsSet(op.isRemote)
    ensures var name, h := op.name.value, Fold(op.host.value);
      var n1 := WithEntry(n, name, op, op.host.value);
      h in n1.attributes[name].values
      && var n2 := SetAttr(n1, name, Changed(n1, name, h, op.value));
      Writes(n, op, Snapshot(n2, n2.attributes[name]))
  {
    hide Fold, SameText;
  }

  /** Without a delay, the writer writes it at once if nothing is in the way: one transaction, with that value for that
      node and all other values as they are, for all nodes whose XML ID is known. */
  lemma ChangeIsWritten(n: Node, op: Op, env: Env)
    requires ChangesOnly(n, op) && IsWriter(n) && !env.refuses(|n.log| + 1)
    requires var a := n.attributes[op.name.value];
      Writable(n, a) && a.timeoutMs == 0 && a.update == 0 && !a.timer.Running?
    requires var h := Fold(op.host.value); h in n.cache || h in n.xmlIds || IsSet(op.isRemote)
    ensures var n' := PeerUpdate(n, Element(true, op, []), false, env);
      exists ops ::
        && n'.log == n.log + [Commit(op.name.value, ops)] && n'.callbacks == n.callbacks[|n.log| + 1 := op.name.value]
        && Writes(n, op, ops)
  {
    var name, h := op.name.value, Fold(op.host.value);
    var n1 := ChangeIs(n, op, env);
    SnapshotWrites(n, op);
    var n2 := SetAttr(n1, name, Changed(n1, name, h, op.value));
    EntryIsIdle(n, name, op, op.host.value);
    hide Fold, PeerUpdateOne, Snapshot, SameText, WithEntry, Writes;
    var ops := Snapshot(n2, n2.attributes[name]);
    assert ops != map[] by { assert h in ops by { SomethingToWrite(n, op, ops); } }
    SentIs(n2, name, env);
    hide SendTransaction;
    assert ChangeValue(n1, name, h, op.value, env) == SendTransaction(n2, name, env);
    assert PeerUpdate(n, Element(true, op, []), false, env).log == n.log + [Commit(name, ops)];
  }

  lemma SomethingToWrite(n: Node, op: Op, ops: map<string, Option<string>>)
    requires op.name.Some? && op.name.value in n.attributes && op.host.Some? && Writes(n, op, ops)
    ensures Fold(op.host.value) in ops
  {
  }

  lemma EntryIsIdle(n: Node, name: string, op: Op, host: string)
    requires name in n.attributes
    ensures var n1 := WithEntry(n, name, op, host);
      && name in n1.attributes && n1.attributes[name] == n.attributes[name].(values := n1.attributes[name].values)
      && n1.log == n.log && n1.callbacks == n.callbacks && n1.election == n.election && n1.standAlone == n.standAlone
  {
    hide Fold;
  }

  lemma SentIs(n: Node, name: string, env: Env)
    requires name in n.attributes && Snapshot(n, n.attributes[name]) != map[] && !env.refuses(|n.log| + 1)
    ensures var n' := SendTransaction(n, name, env);
      && n'.log == n.log + [Commit(name, Snapshot(n, n.attributes[name]))] && n'.callbacks == n.callbacks[|n.log| + 1 := name]
  {
    hide Snapshot, SentAttr, LearnedIds;
  }
}
