/** What makes a value be written, delay or not: the end of a delay, a changed delay, a refresh, a forced write, the
    reply that a deferred change was waiting for, and learning a node's XML ID. */
module WriteTriggers {
  import opened Common
  import opened Model
  import opened Elections
  import opened CibWrites
  import opened Attributes
  import opened Corosync
  import opened Daemon
  import opened CibAgreement
  import opened WriterRuns
  import opened Succession
  import WriteDelays

  /** A new call gives the node that value of the attribute. */
  ghost predicate AsksFor(log: seq<Request>, log': seq<Request>, name: string, h: string, value: Option<string>) {
    exists j :: |log| <= j < |log'| && log'[j].Commit? && log'[j].attr == name && h in log'[j].ops && log'[j].ops[h] == value
  }

  ghost predicate NeverRefuses(env: Env) {
    forall call :: !env.refuses(call)
  }

  /** Nothing is in flight for the attribute, which belongs in the CIB, and the node's XML ID is known. */
  predicate Ready(n: Node, name: string, h: string) {
    name in n.attributes && Writable(n, n.attributes[name]) && n.attributes[name].update == 0 && KnowsHost(n, n.attributes[name], h)
  }

  /** Nothing is left that asks for a write, nor a delay before one. */
  predicate Unflagged(a: Attr) {
    !a.changed && !a.forceWrite && !a.timer.Running?
  }

  lemma ReadyHas(n: Node, name: string, h: string)
    requires Ready(n, name, h)
    ensures name in n.attributes && h in n.attributes[name].values
  {
  }

  lemma KnowsHas(n: Node, a: Attr, h: string)
    requires KnowsHost(n, a, h)
    ensures h in a.values
  {
  }

  lemma WriteNow(n: Node, name: string, ignoreDelay: bool, env: Env, h: string)
    requires Ready(n, name, h) && (!n.attributes[name].timer.Running? || ignoreDelay) && NeverRefuses(env)
    ensures var n' := WriteAttribute(n, name, ignoreDelay, env);
      && |n'.log| == |n.log| + 1 && AsksFor(n.log, n'.log, name, h, n.attributes[name].values[h].current)
      && name in n'.attributes && n'.attributes[name].update == |n.log| + 1 && Unflagged(n'.attributes[name])
  {
    var a := n.attributes[name];
    assert h in Snapshot(n, a) && Snapshot(n, a)[h] == a.values[h].current;
    WriteDelays.SentIs(n, name, env);
    SentIsIdle(n, name, env);
    hide Snapshot, SendTransaction, XmlIdFor;
    var n' := SendTransaction(n, name, env);
    assert n'.log[|n.log|] == Commit(name, Snapshot(n, a));
  }

  lemma SentIsIdle(n: Node, name: string, env: Env)
    requires name in n.attributes && n.attributes[name].update == 0 && NeverRefuses(env) && Snapshot(n, n.attributes[name]) != map[]
    ensures var n' := SendTransaction(n, name, env);
      name in n'.attributes && n'.attributes[name].update == |n.log| + 1 && Unflagged(n'.attributes[name])
  {
    hide Snapshot, LearnedIds;
  }

  /** Going through the attributes, the writer asks for this one. */
  predicate Due(a: Attr, all: bool, noDelay: bool) {
    (all || a.changed || a.nodeUnknown || a.forceWrite) && (!a.timer.Running? || noDelay || a.forceWrite)
  }

  lemma AskedNow(n: Node, name: string, all: bool, noDelay: bool, env: Env, h: string)
    requires Ready(n, name, h) && Due(n.attributes[name], all, noDelay) && NeverRefuses(env)
    ensures var n' := WriteIfAsked(n, name, all, noDelay, env);
      AsksFor(n.log, n'.log, name, h, n.attributes[name].values[h].current)
  {
    var a := n.attributes[name];
    var n1 := SetAttr(n, name, a.(changed := true));
    assert Ready(n1, name, h);
    hide Ready, WriteAttribute, AsksFor;
    if !(a.timer.Running? && !(noDelay || a.forceWrite)) {
      WriteNow(n, name, noDelay || a.forceWrite, env, h);
      WriteNow(n1, name, noDelay || a.forceWrite, env, h);
    }
  }

  lemma AsksBefore(log: seq<Request>, log1: seq<Request>, log2: seq<Request>, name: string, h: string, value: Option<string>)
    requires AsksFor(log, log1, name, h, value) && |log1| <= |log2| && log2[..|log1|] == log1
    ensures AsksFor(log, log2, name, h, value)
  {
    var j :| |log| <= j < |log1| && log1[j].Commit? && log1[j].attr == name && h in log1[j].ops && log1[j].ops[h] == value;
    assert log2[j] == log2[..|log1|][j];
  }

  lemma AsksLater(log: seq<Request>, log1: seq<Request>, log2: seq<Request>, name: string, h: string, value: Option<string>)
    requires AsksFor(log1, log2, name, h, value) && |log| <= |log1|
    ensures AsksFor(log, log2, name, h, value)
  {
  }

  lemma {:induction false} Elsewhere(n: Node, names: seq<string>, all: bool, noDelay: bool, env: Env, c: Side, name: string)
    requires Base(n, c) && name in n.attributes && name !in names
    requires forall i :: 0 <= i < |names| ==> names[i] in n.attributes
    ensures var n' := WriteEach(n, names, all, noDelay, env);
      && name in n'.attributes && n'.attributes[name] == n.attributes[name] && n'.standAlone == n.standAlone
      && n'.cache == n.cache && n.xmlIds.Keys <= n'.xmlIds.Keys && |n.log| <= |n'.log|
  {
    hide Base, WriteIfAsked;
    if names != [] {
      var front, last := names[..|names|-1], names[|names|-1];
      Elsewhere(n, front, all, noDelay, env, c, name);
      WriteEachKeeps(n, front, all, noDelay, env, c);
      var n1 := WriteEach(n, front, all, noDelay, env);
      WriteIfAskedKeeps(n1, last, all, noDelay, env, c);
      IdsOnlyGrow(n1, last, all, noDelay, env);
    }
  }

  lemma StillReady(n: Node, n1: Node, name: string, h: string)
    requires Ready(n, name, h) && name in n1.attributes && n1.attributes[name] == n.attributes[name]
    requires n1.standAlone == n.standAlone && n1.cache == n.cache && n.xmlIds.Keys <= n1.xmlIds.Keys
    ensures Ready(n1, name, h)
  {
  }

  lemma {:induction false} WriteEachAsks(n: Node, names: seq<string>, all: bool, noDelay: bool, env: Env, c: Side, name: string, h: string)
    requires Base(n, c) && name in names && Ready(n, name, h) && Due(n.attributes[name], all, noDelay) && NeverRefuses(env)
    requires forall i :: 0 <= i < |names| ==> names[i] in n.attributes
    requires forall i, j :: 0 <= i < j < |names| ==> names[i] != names[j]
    ensures AsksFor(n.log, WriteEach(n, names, all, noDelay, env).log, name, h, n.attributes[name].values[h].current)
  {
    hide Base, WriteIfAsked, AsksFor, Due, Ready;
    ReadyHas(n, name, h);
    var front, last := names[..|names|-1], names[|names|-1];
    var n1 := WriteEach(n, front, all, noDelay, env);
    WriteEachKeeps(n, front, all, noDelay, env, c);
    var value := n.attributes[name].values[h].current;
    if name == last {
      Elsewhere(n, front, all, noDelay, env, c, name);
      StillReady(n, n1, name, h);
      AskedNow(n1, name, all, noDelay, env, h);
      AsksLater(n.log, n1.log, WriteEach(n, names, all, noDelay, env).log, name, h, value);
    } else {
      assert name in front;
      WriteEachAsks(n, front, all, noDelay, env, c, name, h);
      WriteIfAskedKeeps(n1, last, all, noDelay, env, c);
      AsksBefore(n.log, n1.log, WriteEach(n, names, all, noDelay, env).log, name, h, value);
    }
  }

  lemma WriteAllAsks(n: Node, all: bool, noDelay: bool, env: Env, c: Side, name: string, h: string)
    requires Base(n, c) && ValidEnv(env) && Ready(n, name, h) && Due(n.attributes[name], all, noDelay) && NeverRefuses(env)
    ensures AsksFor(n.log, WriteAttributes(n, all, noDelay, env).log, name, h, n.attributes[name].values[h].current)
  {
    hide Base, WriteEach, AsksFor, Due;
    var names := env.order(n.attributes.Keys);
    assert Enumerates(names, n.attributes.Keys);
    assert forall i :: 0 <= i < |names| ==> names[i] in names;
    WriteEachAsks(n, names, all, noDelay, env, c, name, h);
  }

  // ---- The events that lead to a write ----

  /** A client's refresh writes everything that is not being written already, whatever timers are running. */
  lemma RefreshWritesAll(s: System, env: Env, name: string, h: string)
    requires Inv(s.node, SideOf(s)) && ValidEnv(env) && NeverRefuses(env) && Ready(s.node, name, h)
    ensures AsksFor(s.node.log, Next(s, ClientRefresh, env).node.log, name, h, s.node.attributes[name].values[h].current)
  {
    hide Inv, WriteAttributes, AsksFor, Base, KnowsHost;
    assert Base(s.node, SideOf(s)) by { WriteDelays.BaseOf(s); }
    WriteAllAsks(s.node, true, true, env, SideOf(s), name, h);
  }

  /** Only the attribute's own bookkeeping is changed, and nothing is in flight for it. */
  lemma EditedReady(n: Node, n1: Node, name: string, a: Attr, h: string)
    requires name in n.attributes && Writable(n, n.attributes[name]) && KnowsHost(n, n.attributes[name], h)
    requires n1.attributes == n.attributes[name := a] && a.update == 0 && a.isPrivate == n.attributes[name].isPrivate
    requires n1.standAlone == n.standAlone && n1.cache == n.cache && n1.xmlIds == n.xmlIds
    requires h in a.values && a.values[h] == n.attributes[name].values[h].(requested := a.values[h].requested)
    ensures Ready(n1, name, h) && n1.attributes[name].values[h].current == n.attributes[name].values[h].current
  {
  }

  /** When its delay is over, the writer writes the attribute. */
  lemma TimerWrites(s: System, env: Env, name: string, h: string)
    requires IsWriter(s.node) && NeverRefuses(env) && Ready(s.node, name, h)
    ensures var n, n' := s.node, Next(s, TimerFires(name), env).node;
      && |n'.log| == |n.log| + 1 && AsksFor(n.log, n'.log, name, h, n.attributes[name].values[h].current)
      && name in n'.attributes && Unflagged(n'.attributes[name])
  {
    hide KnowsHost, WriteAttribute, AsksFor;
    var n := s.node;
    ReadyHas(n, name, h);
    var a := n.attributes[name].(timer := Idle);
    var n1 := SetAttr(n, name, a);
    EditedReady(n, n1, name, a, h);
    WriteNow(n1, name, false, env, h);
    assert Next(s, TimerFires(name), env).node == WriteAttribute(n1, name, false, env);
  }

  /** What was changed while a write was in flight is written when the reply comes, unless a delay is running. */
  lemma ReplyWritesDeferred(s: System, env: Env, h: string)
    requires Inv(s.node, SideOf(s)) && IsWriter(s.node) && NeverRefuses(env) && s.told < |s.results| && s.results[s.told]
    requires s.told + 1 in s.node.callbacks
    requires var name := s.node.callbacks[s.told + 1]; var a := s.node.attributes[name];
      a.changed && (a.timeoutMs == 0 || !a.timer.Running?) && KnowsHost(s.node, a, h)
    ensures var name := s.node.callbacks[s.told + 1];
      AsksFor(s.node.log, Next(s, CibReplies, env).node.log, name, h, s.node.attributes[name].values[h].current)
  {
    hide WriteAttribute, AsksFor, Inv, KnowsHost, Confirmed, CibCallback;
    var n, call := s.node, s.told + 1;
    var name := n.callbacks[call];
    InFlightIsWritable(n, SideOf(s), call);
    var a := n.attributes[name];
    KnowsHas(n, a, h);
    var a1 := Confirmed(a);
    ConfirmedIs(a, h);
    var n1 := SetAttr(n.(callbacks := n.callbacks - {call}), name, a1).(lastDone := call);
    EditedReady(n, n1, name, a1, h);
    WriteNow(n1, name, false, env, h);
    assert CibCallback(n, call, true, env) == WriteAttribute(n1, name, false, env) by { CallbackIs(n, call, env); }
  }

  lemma CallbackIs(n: Node, call: int, env: Env)
    requires call in n.callbacks && n.callbacks[call] in n.attributes && n.attributes[n.callbacks[call]].changed && IsWriter(n)
    ensures var name := n.callbacks[call];
      CibCallback(n, call, true, env)
      == WriteAttribute(SetAttr(n.(callbacks := n.callbacks - {call}), name, Confirmed(n.attributes[name])).(lastDone := call), name, false, env)
  {
    hide WriteAttribute, Confirmed;
  }

  lemma ConfirmedIs(a: Attr, h: string)
    requires h in a.values && (a.timeoutMs == 0 || !a.timer.Running?)
    ensures var a1 := Confirmed(a);
      && !a1.timer.Running? && a1.update == 0 && a1.isPrivate == a.isPrivate
      && h in a1.values && a1.values[h] == a.values[h].(requested := None)
  {
  }

  lemma InFlightIsWritable(n: Node, c: Side, call: int)
    requires Inv(n, c) && call in n.callbacks
    ensures n.callbacks[call] in n.attributes && Writable(n, n.attributes[n.callbacks[call]])
  {
    var name := n.callbacks[call];
    assert Sound(n, c, name, n.attributes[name]);
  }

  /** A changed delay writes the attribute at once, and holds from the next change on. */
  lemma DelayChangeWrites(n: Node, op: Op, env: Env, h: string)
    requires op.name.Some? && IsWriter(n) && NeverRefuses(env) && Ready(n, op.name.value, h)
    requires op.task == Some(UpdateDelay) && op.delay.Some? && op.delay.value.DelayMs? && op.delay.value.ms >= 0
    requires op.delay.value.ms != n.attributes[op.name.value].timeoutMs
    ensures var name, n' := op.name.value, PeerUpdate(n, Element(true, op, []), false, env);
      && |n'.log| == |n.log| + 1 && AsksFor(n.log, n'.log, name, h, n.attributes[name].values[h].current)
      && name in n'.attributes && !n'.attributes[name].timer.Running?
      && n'.attributes[name].timeoutMs == (if op.delay.value.ms <= 0x7fff_ffff then op.delay.value.ms else 0x7fff_ffff)
  {
    hide KnowsHost, Writable, IsWriter, NeverRefuses, WriteAttribute, AsksFor, CapMs, PeerUpdate;
    var name, ms := op.name.value, op.delay.value.ms;
    DelayIs(n, op, env);
    CapIs(ms);
    EditedIsWritten(n, name, n.attributes[name].(timeoutMs := CapMs(ms), timer := if ms > 0 then Idle else NoTimer), env, h);
  }

  lemma EditedIsWritten(n: Node, name: string, a: Attr, env: Env, h: string)
    requires Ready(n, name, h) && NeverRefuses(env) && a.update == 0 && a.isPrivate == n.attributes[name].isPrivate
    requires a.values == n.attributes[name].values && !a.timer.Running?
    ensures var n' := WriteAttribute(SetAttr(n, name, a), name, false, env);
      && h in a.values
      && |n'.log| == |n.log| + 1 && AsksFor(n.log, n'.log, name, h, a.values[h].current)
      && name in n'.attributes && !n'.attributes[name].timer.Running? && n'.attributes[name].timeoutMs == a.timeoutMs
  {
    hide KnowsHost, WriteAttribute, AsksFor, NeverRefuses;
    ReadyHas(n, name, h);
    var n1 := SetAttr(n, name, a);
    EditedReady(n, n1, name, a, h);
    WriteKeepsDelay(n1, name, false, env);
    WriteNow(n1, name, false, env, h);
  }

  lemma CapIs(ms: nat)
    ensures CapMs(ms) == if ms <= 0x7fff_ffff then ms else 0x7fff_ffff
  {
  }

  lemma DelayIs(n: Node, op: Op, env: Env)
    requires op.name.Some? && IsWriter(n) && op.name.value in n.attributes && op.task == Some(UpdateDelay)
    requires op.delay.Some? && op.delay.value.DelayMs? && op.delay.value.ms >= 0
    requires op.delay.value.ms != n.attributes[op.name.value].timeoutMs
    ensures var name, ms := op.name.value, op.delay.value.ms;
      PeerUpdate(n, Element(true, op, []), false, env)
      == WriteAttribute(SetAttr(n, name, n.attributes[name].(timeoutMs := CapMs(ms), timer := if ms > 0 then Idle else NoTimer)), name, false, env)
  {
    hide WriteAttribute, CapMs;
  }

  lemma WriteKeepsDelay(n: Node, name: string, ignoreDelay: bool, env: Env)
    requires name in n.attributes
    ensures var n' := WriteAttribute(n, name, ignoreDelay, env);
      name in n'.attributes && n'.attributes[name].timeoutMs == n.attributes[name].timeoutMs
  {
    hide Snapshot, LearnedIds;
  }

  /** A message that repeats a value causes no write; but if it asks for one, that is noted, exactly if there is a delay. */
  lemma ForceIsNoted(n: Node, c: Side, op: Op, env: Env)
    requires Inv(n, c) && op.name.Some? && op.name.value in n.attributes && op.host.Some?
    requires op.task == Some(Update) && op.hostId.None?
    requires SameText(WriteDelays.HeldFor(n, op.name.value, Fold(op.host.value)), op.value)
    ensures var name, n' := op.name.value, PeerUpdate(n, Element(true, op, []), false, env);
      && n'.log == n.log && name in n'.attributes
      && (n'.attributes[name].forceWrite <==>
            n.attributes[name].forceWrite || (op.forceWrite == Some(true) && n.attributes[name].timeoutMs != 0))
  {
    var name, h := op.name.value, Fold(op.host.value);
    assert Sound(n, c, name, n.attributes[name]);
    hide Fold, Inv, TakeValue, WithEntry, MarkFromPeer;
    assert Populate(n, op, name, env) == (n, true);
    var n1 := WithEntry(n, name, op, op.host.value);
    EntryIs(n, name, op, op.host.value);
    RepeatIsNoted(n1, name, op, op.host.value, env);
  }

  lemma EntryIs(n: Node, name: string, op: Op, host: string)
    requires name in n.attributes
    ensures var n1, h := WithEntry(n, name, op, host), Fold(host);
      && n1.log == n.log && name in n1.attributes && h in n1.attributes[name].values
      && n1.attributes[name] == n.attributes[name].(values := n1.attributes[name].values)
      && n1.attributes[name].values[h].current == WriteDelays.HeldFor(n, name, h)
  {
    hide Fold;
  }

  lemma RepeatIsNoted(n: Node, name: string, op: Op, host: string, env: Env)
    requires name in n.attributes && Fold(host) in n.attributes[name].values
    requires SameText(n.attributes[name].values[Fold(host)].current, op.value)
    requires n.attributes[name].timeoutMs != 0 ==> n.attributes[name].timer != NoTimer
    ensures var n' := MarkFromPeer(TakeValue(n, name, op, host, false, env), name, Fold(host));
      && n'.log == n.log && name in n'.attributes
      && (n'.attributes[name].forceWrite <==>
            n.attributes[name].forceWrite || (op.forceWrite == Some(true) && n.attributes[name].timeoutMs != 0))
  {
    hide Fold, TakeValue, MarkFromPeer;
    RepeatIs(n, name, op, host, env);
    MarkIs(TakeValue(n, name, op, host, false, env), name, Fold(host));
  }

  lemma RepeatIs(n: Node, name: string, op: Op, host: string, env: Env)
    requires name in n.attributes && Fold(host) in n.attributes[name].values
    requires SameText(n.attributes[name].values[Fold(host)].current, op.value)
    requires n.attributes[name].timeoutMs != 0 ==> n.attributes[name].timer != NoTimer
    ensures var a := n.attributes[name];
      TakeValue(n, name, op, host, false, env)
      == if op.forceWrite == Some(true) && a.timeoutMs != 0 then SetAttr(n, name, a.(forceWrite := true)) else n
  {
    hide Fold, ChangeValue, SameText, BroadcastValue;
  }

  lemma MarkIs(n: Node, name: string, h: string)
    requires name in n.attributes
    ensures var n' := MarkFromPeer(n, name, h);
      n'.log == n.log && name in n'.attributes && n'.attributes[name] == n.attributes[name].(values := n'.attributes[name].values)
  {
  }

  /** The next time the writer goes through its attributes, it writes one so noted in spite of the delay. */
  lemma ForcedIsWritten(s: System, env: Env, name: string, h: string)
    requires Inv(s.node, SideOf(s)) && ValidEnv(env) && NeverRefuses(env) && Ready(s.node, name, h)
    requires IsWriter(s.node) && !s.node.shuttingDown && s.node.attributes[name].forceWrite
    ensures AsksFor(s.node.log, Next(s, UnsafeCibChange, env).node.log, name, h, s.node.attributes[name].values[h].current)
  {
    hide Inv, WriteAttributes, AsksFor, Base, KnowsHost;
    assert Base(s.node, SideOf(s)) by { WriteDelays.BaseOf(s); }
    WriteAllAsks(s.node, true, false, env, SideOf(s), name, h);
  }

  /** If the attribute is being written at that moment, it is flagged instead, so that the reply leads to another write. */
  lemma ForcedIsDeferred(s: System, env: Env, name: string)
    requires Inv(s.node, SideOf(s)) && ValidEnv(env) && IsWriter(s.node) && !s.node.shuttingDown
    requires name in s.node.attributes && s.node.attributes[name].update != 0 && s.node.attributes[name].forceWrite
    ensures var n' := Next(s, UnsafeCibChange, env).node;
      name in n'.attributes && n'.attributes[name] == s.node.attributes[name].(changed := true)
  {
    hide Inv, WriteEach, Base;
    assert Base(s.node, SideOf(s)) by { WriteDelays.BaseOf(s); }
    var names := env.order(s.node.attributes.Keys);
    assert Enumerates(names, s.node.attributes.Keys);
    assert forall i :: 0 <= i < |names| ==> names[i] in names;
    WriteEachDefers(s.node, names, true, false, env, SideOf(s), name);
  }

  lemma {:induction false} WriteEachDefers(n: Node, names: seq<string>, all: bool, noDelay: bool, env: Env, c: Side, name: string)
    requires Base(n, c) && name in names && name in n.attributes && n.attributes[name].update != 0 && n.attributes[name].forceWrite
    requires forall i :: 0 <= i < |names| ==> names[i] in n.attributes
    requires forall i, j :: 0 <= i < j < |names| ==> names[i] != names[j]
    ensures var n' := WriteEach(n, names, all, noDelay, env);
      name in n'.attributes && n'.attributes[name] == n.attributes[name].(changed := true)
  {
    hide Base, WriteIfAsked;
    var front, last := names[..|names|-1], names[|names|-1];
    var n1 := WriteEach(n, front, all, noDelay, env);
    WriteEachKeeps(n, front, all, noDelay, env, c);
    if name == last {
      Elsewhere(n, front, all, noDelay, env, c, name);
      DeferredNow(n1, name, all, noDelay, env, c);
    } else {
      assert name in front;
      WriteEachDefers(n, front, all, noDelay, env, c, name);
      WriteIfAskedKeeps(n1, last, all, noDelay, env, c);
    }
  }

  lemma DeferredNow(n: Node, name: string, all: bool, noDelay: bool, env: Env, c: Side)
    requires Base(n, c) && name in n.attributes && n.attributes[name].update != 0 && n.attributes[name].forceWrite
    ensures WriteIfAsked(n, name, all, noDelay, env) == SetAttr(n, name, n.attributes[name].(changed := true))
  {
    assert Sound(n, c, name, n.attributes[name]);
  }

  /** A node of unknown XML ID has its values written when the ID is learned. */
  lemma LearningWrites(n: Node, c: Side, h: string, id: string, previous: Option<string>, env: Env, name: string)
    requires Base(n, c) && ValidEnv(env) && NeverRefuses(env) && IsWriter(n) && previous != Some(id)
    requires name in n.attributes && Writable(n, n.attributes[name]) && n.attributes[name].update == 0 && h in n.attributes[name].values
    requires n.attributes[name].nodeUnknown && !n.attributes[name].timer.Running?
    ensures AsksFor(n.log, LearnXmlId(n, h, Some(id), previous, env).log, name, h, n.attributes[name].values[h].current)
  {
    var n1 := n.(xmlIds := n.xmlIds[h := id]);
    assert Ready(n1, name, h);
    assert Base(n1, c) by { IdsDoNotMatter(n, n1, c); }
    hide WriteAttributes, AsksFor, Base, KnowsHost;
    WriteAllAsks(n1, false, false, env, c, name, h);
  }

  lemma IdsDoNotMatter(n: Node, n1: Node, c: Side)
    requires Base(n, c) && n1 == n.(xmlIds := n1.xmlIds)
    ensures Base(n1, c)
  {
    forall name | name in n.attributes ensures Sound(n1, c, name, n.attributes[name]) {
      assert Sound(n, c, name, n.attributes[name]);
    }
  }

  // ---- What a write and its reply leave behind ----

  /** The XML ID under which a node's value is written is remembered: a remote node's name, or else what the membership
      says, or else what was known before. */
  lemma WriteRemembersId(n: Node, name: string, ignoreDelay: bool, env: Env, h: string)
    requires Ready(n, name, h) && (!n.attributes[name].timer.Running? || ignoreDelay)
    ensures var n', v := WriteAttribute(n, name, ignoreDelay, env), n.attributes[name].values[h];
      && h in n'.xmlIds
      && Lookup(n'.xmlIds, h) == if v.remote then Some(v.nodename) else if h in n.cache then Some(n.cache[h]) else Lookup(n.xmlIds, h)
  {
    hide Snapshot, SentAttr, SentCalls;
  }

  /** Once the membership has a node's XML ID, its values are written under that ID. */
  lemma MembershipMakesKnown(s: System, host: string, id: string, env: Env, name: string)
    requires name in s.node.attributes && Fold(host) in s.node.attributes[name].values
    requires Writable(s.node, s.node.attributes[name]) && s.node.attributes[name].update == 0
    ensures var n', h := Next(s, MembershipLearns(host, id), env).node, Fold(host);
      && Ready(n', name, h) && n' == s.node.(cache := n'.cache)
      && (!n'.attributes[name].values[h].remote ==> Lookup(WriteAttribute(n', name, true, env).xmlIds, h) == Some(id))
  {
    hide Fold, WriteAttribute;
    WriteRemembersId(Next(s, MembershipLearns(host, id), env).node, name, true, env, Fold(host));
  }

  /** A reply that the write has succeeded is noted; if nothing has changed meanwhile, nothing is outstanding any more,
      and a timer that was only there to try again is gone. */
  lemma ReplyConfirms(s: System, env: Env)
    requires Inv(s.node, SideOf(s)) && s.told < |s.results| && s.results[s.told] && s.told + 1 in s.node.callbacks
    ensures var n, n' := s.node, Next(s, CibReplies, env).node;
      && n'.lastDone == s.told + 1
      && var name := n.callbacks[s.told + 1];
      && name in n.attributes
      && (!n.attributes[name].changed ==>
            && n'.log == n.log && n'.callbacks == n.callbacks - {s.told + 1} && name in n'.attributes
            && n'.attributes[name].update == 0
            && (n.attributes[name].timeoutMs == 0 ==> n'.attributes[name].timer == NoTimer)
            && n'.attributes[name].values.Keys == n.attributes[name].values.Keys
            && forall h :: h in n.attributes[name].values ==>
                 n'.attributes[name].values[h] == n.attributes[name].values[h].(requested := None))
  {
    hide WriteAttribute, Inv;
    InFlightIsWritable(s.node, SideOf(s), s.told + 1);
    var n, call := s.node, s.told + 1;
    var name := n.callbacks[call];
    var n1 := SetAttr(n.(callbacks := n.callbacks - {call}), name, Confirmed(n.attributes[name])).(lastDone := call);
    WriteKeepsDone(n1, name, env);
  }

  lemma WriteKeepsDone(n: Node, name: string, env: Env)
    ensures WriteAttribute(n, name, false, env).lastDone == n.lastDone
  {
    hide Snapshot, LearnedIds, SentAttr, SentCalls;
  }

  /** A write that failed, or was not answered in time, is tried again when a timer fires. */
  lemma FailureIsRetried(s: System, call: int, env: Env, h: string)
    requires Inv(s.node, SideOf(s)) && IsWriter(s.node) && call in s.node.callbacks && NeverRefuses(env)
    requires KnowsHost(s.node, s.node.attributes[s.node.callbacks[call]], h)
    ensures var name, s1 := s.node.callbacks[call], Next(s, CallTimesOut(call), env);
      && name in s1.node.attributes && s1.node.attributes[name].changed && s1.node.attributes[name].timer.Running?
      && s1.node.log == s.node.log
      && AsksFor(s1.node.log, Next(s1, TimerFires(name), env).node.log, name, h, s.node.attributes[name].values[h].current)
  {
    hide WriteOrElect, AsksFor, Inv, KnowsHost;
    InFlightIsWritable(s.node, SideOf(s), call);
    var n := s.node;
    var name := n.callbacks[call];
    var a := n.attributes[name];
    KnowsHas(n, a, h);
    var s1 := Next(s, CallTimesOut(call), env);
    var a1 := AfterFailure(a, true);
    assert a.values != map[];
    assert s1.node.attributes == n.attributes[name := a1];
    EditedReady(n, s1.node, name, a1, h);
    TimerWrites(s1, env, name, h);
  }
}
