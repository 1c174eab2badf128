/** Where the guarantees end, and exactly when they hold. */
module Limits {
  import opened Common
  import opened Model
  import opened Elections
  import opened CibWrites
  import opened Attributes
  import opened Corosync
  import opened Daemon
  import opened CibAgreement
  import opened Lifecycle
  import opened Succession
  import opened BlankEntries
  import Replica

  // ---- An attribute of a peer that went away and came back ----

  lemma SendCovers(n: Node, name: string, env: Env, j: nat)
    requires name in n.attributes && |n.log| <= j < |SendTransaction(n, name, env).log|
    ensures var r := SendTransaction(n, name, env).log[j];
      !r.Erase? && (r.Commit? ==> r.attr == name && r.ops.Keys <= n.attributes[name].values.Keys)
  {
    hide Prepared, LearnedIds, AfterFailure;
  }

  /** The hosts an attribute has entries for, as far as the attribute exists. */
  function HostsOf(n: Node, name: string): set<string> {
    if name in n.attributes then n.attributes[name].values.Keys else {}
  }

  lemma WriteCovers(n: Node, name: string, ignoreDelay: bool, env: Env)
    ensures var n' := WriteAttribute(n, name, ignoreDelay, env);
      && Extends(n.log, n'.log)
      && (forall b :: HostsOf(n', b) == HostsOf(n, b))
      && (forall j :: |n.log| <= j < |n'.log| ==>
            !n'.log[j].Erase? && (n'.log[j].Commit? ==> n'.log[j].ops.Keys <= HostsOf(n, n'.log[j].attr)))
  {
    hide SendTransaction;
    if name in n.attributes {
      var n1 := SendTransaction(n, name, env);
      SendLogs(n, name, env);
      SendHosts(n, name, env);
      forall j | |n.log| <= j < |n1.log|
        ensures !n1.log[j].Erase? && (n1.log[j].Commit? ==> n1.log[j].ops.Keys <= HostsOf(n, n1.log[j].attr))
      {
        SendCovers(n, name, env, j);
      }
    }
  }

  lemma SendHosts(n: Node, name: string, env: Env)
    requires name in n.attributes
    ensures forall b :: HostsOf(SendTransaction(n, name, env), b) == HostsOf(n, b)
  {
    hide SendTransaction, Snapshot;
    SendShape(n, name, env);
    assert SendTransaction(n, name, env).attributes[name].values.Keys == n.attributes[name].values.Keys;
  }

  lemma {:induction false} WriteEachCovers(n: Node, names: seq<string>, all: bool, noDelay: bool, env: Env)
    ensures var n' := WriteEach(n, names, all, noDelay, env);
      && Extends(n.log, n'.log)
      && (forall b :: HostsOf(n', b) == HostsOf(n, b))
      && (forall j :: |n.log| <= j < |n'.log| ==>
            !n'.log[j].Erase? && (n'.log[j].Commit? ==> n'.log[j].ops.Keys <= HostsOf(n, n'.log[j].attr)))
  {
    hide WriteAttribute;
    if names != [] {
      WriteEachCovers(n, names[..|names|-1], all, noDelay, env);
      var n1, name := WriteEach(n, names[..|names|-1], all, noDelay, env), names[|names|-1];
      var n' := WriteEach(n, names, all, noDelay, env);
      if name in n1.attributes {
        var a := n1.attributes[name];
        WriteCovers(n1, name, noDelay || a.forceWrite, env);
        WriteCovers(SetAttr(n1, name, a.(changed := true)), name, noDelay || a.forceWrite, env);
      }
      assert n'.log[..|n.log|] == n'.log[..|n1.log|][..|n.log|];
      forall j | |n.log| <= j < |n'.log|
        ensures !n'.log[j].Erase? && (n'.log[j].Commit? ==> n'.log[j].ops.Keys <= HostsOf(n, n'.log[j].attr))
      {
        if j < |n1.log| { assert n'.log[j] == n'.log[..|n1.log|][j]; }
      }
    }
  }

  /** For an attribute that has no value on a node in memory, winning an election cleans up what the CIB
      may still have there if and only if the node is listed as removed. */
  lemma WinCleansIffListed(n: Node, env: Env, name: string, h: string)
    requires ValidEnv(env) && h !in HostsOf(n, name)
    ensures var n' := WinElection(n, env);
      && ((exists j :: |n.log| <= j < |n'.log| && Touches(n'.log[j], name, h)) <==> h in n.removed)
      && HostsOf(n', name) == HostsOf(n, name)
  {
    hide EraseEach, WriteEach, SyncMessage;
    var n1 := PeerSync(n.(election := Won, writer := Some(n.self)), None, env);
    var hosts := env.order(n1.removed);
    assert Enumerates(hosts, n1.removed);
    EraseEachShape(n1, hosts);
    var n2 := EraseEach(n1, hosts);
    var n' := WinElection(n, env);
    WriteEachCovers(n2, env.order(n2.attributes.Keys), true, false, env);
    assert n' == WriteEach(n2, env.order(n2.attributes.Keys), true, false, env);
    assert forall j :: 0 <= j < |n2.log| ==> n'.log[j] == n'.log[..|n2.log|][j];
    assert HostsOf(n2, name) == HostsOf(n, name);
    if h in n.removed {
      var i :| 0 <= i < |hosts| && hosts[i] == h;
      assert Touches(n'.log[|n.log| + i], name, h);
    }
    if exists j :: |n.log| <= j < |n'.log| && Touches(n'.log[j], name, h) {
      var j :| |n.log| <= j < |n'.log| && Touches(n'.log[j], name, h);
      if j < |n2.log| {
        assert n2.log[|n.log| + (j - |n.log|)] == Erase(hosts[j - |n.log|]);
        assert hosts[j - |n.log|] in hosts;
      }
    }
  }

  /** So a removed peer for which a single attribute is set again keeps, in the CIB, its old values of all
      the others: the update takes it off the list before anyone erased it. */
  lemma ReturnedPeerKeepsStaleValues(n: Node, name: string, op: Op, host: string, other: string, env: Env, env': Env)
    requires ValidEnv(env) && ValidEnv(env') && name in n.attributes && !IsWriter(n)
    requires other != name && Fold(host) !in HostsOf(n, other)
    ensures var n1 := UpdateOnHost(n, name, op, host, false, env);
      var n' := WinElection(n1, env');
      forall j :: |n1.log| <= j < |n'.log| ==> !Touches(n'.log[j], other, Fold(host))
  {
    hide WinElection, UpdateOnHost, Replica.UpdateRow;
    var n1 := UpdateOnHost(n, name, op, host, false, env);
    assert Fold(host) !in n1.removed by { UpdateUnlists(n, name, op, host, env); }
    Replica.UpdateOnHostView(n, name, op, host, false, env);
    assert HostsOf(n1, other) == HostsOf(n, other) by { HostsInTable(n, other); HostsInTable(n1, other); }
    WinCleansIffListed(n1, env', other, Fold(host));
  }

  function SetOn(name: string, value: string): Element {
    Element(true, NoAttrs.(task := Some(Update), name := Some(name), host := Some("h"), value := Some(value)), [])
  }

  /** One attribute is changed, or added, and has no delay; nothing else happens. */
  ghost predicate OnlyThat(n: Node, n': Node, name: string) {
    && n' == n.(attributes := n'.attributes) && n'.attributes.Keys == n.attributes.Keys + {name}
    && n'.attributes[name].timer == NoTimer
    && forall b :: b in n.attributes && b != name ==> n'.attributes[b] == n.attributes[b]
  }

  lemma OnlyThatTwice(n: Node, n1: Node, n2: Node, name: string)
    requires OnlyThat(n, n1, name) && OnlyThat(n1, n2, name)
    ensures OnlyThat(n, n2, name)
  {
  }

  lemma SetIsOnlyThat(n: Node, name: string, a: Attr)
    requires a.timer == NoTimer
    ensures OnlyThat(n, SetAttr(n, name, a), name)
  {
  }

  lemma TakeWhileInactive(n: Node, name: string, op: Op, env: Env)
    requires !IsWriter(n) && !env.active && Fold("h") == "h" && name in n.attributes && "h" in n.attributes[name].values
    requires n.attributes[name].timer == NoTimer
    ensures OnlyThat(n, TakeValue(n, name, op, "h", false, env), name)
  {
    hide Fold, WriteAttribute, OnlyThat;
    var a := n.attributes[name];
    SetIsOnlyThat(n, name, a);
    assert SetAttr(n, name, a) == n;
    SetIsOnlyThat(n, name, SetValue(a, "h", a.values["h"].(current := op.value, blank := false)).(changed := true));
  }

  lemma PopulateWhileInactive(n: Node, name: string, value: string, env: Env)
    requires name in n.attributes ==> n.attributes[name].timer == NoTimer
    ensures var (n1, ok) := Populate(n, SetOn(name, value).attrs, name, env); ok && OnlyThat(n, n1, name)
  {
    if name in n.attributes {
      assert SetAttr(n, name, n.attributes[name]) == n;
      SetIsOnlyThat(n, name, n.attributes[name]);
    }
  }

  /** A node that has no part in an election is told a value, and has no more to do than to note it. */
  lemma SetWhileInactive(n: Node, name: string, value: string, env: Env)
    requires !IsWriter(n) && !env.active && Fold("h") == "h"
    requires name in n.attributes ==> n.attributes[name].timer == NoTimer
    ensures OnlyThat(n.(removed := n.removed - {"h"}), PeerUpdate(n, SetOn(name, value), false, env), name)
  {
    hide Fold, TakeValue, MarkFromPeer, Populate, WithEntry;
    var op := SetOn(name, value).attrs;
    PopulateWhileInactive(n, name, value, env);
    var n1 := Populate(n, op, name, env).0;
    var n2 := WithEntry(n1, name, op, "h");
    EntryIsOnlyThat(n1, name, op);
    TakeWhileInactive(n2, name, op, env);
    var n3 := TakeValue(n2, name, op, "h", false, env);
    MarkIsOnlyThat(n3, name);
    hide OnlyThat;
    var m1 := n1.(removed := n2.removed);
    assert OnlyThat(n.(removed := n2.removed), m1, name) by { SameRemoved(n, n1, n2.removed, name); }
    OnlyThatTwice(m1, n2, n3, name);
    OnlyThatTwice(m1, n3, MarkFromPeer(n3, name, "h"), name);
    OnlyThatTwice(n.(removed := n2.removed), m1, MarkFromPeer(n3, name, "h"), name);
    assert PeerUpdate(n, SetOn(name, value), false, env) == MarkFromPeer(n3, name, "h");
  }

  lemma SameRemoved(n: Node, n1: Node, removed: set<string>, name: string)
    requires OnlyThat(n, n1, name)
    ensures OnlyThat(n.(removed := removed), n1.(removed := removed), name)
  {
  }

  lemma EntryIsOnlyThat(n: Node, name: string, op: Op)
    requires Fold("h") == "h" && name in n.attributes && n.attributes[name].timer == NoTimer
    ensures var n' := WithEntry(n, name, op, "h");
      && n'.removed == n.removed - {"h"} && OnlyThat(n.(removed := n'.removed), n', name)
      && "h" in n'.attributes[name].values
  {
    hide Fold;
  }

  lemma MarkIsOnlyThat(n: Node, name: string)
    requires name in n.attributes && n.attributes[name].timer == NoTimer
    ensures OnlyThat(n, MarkFromPeer(n, name, "h"), name)
  {
  }

  /** A peer is lost, while there is nobody to erase its attributes. */
  lemma LostWhileInactive(n: Node, env: Env)
    requires !IsWriter(n) && n.writer.None? && !n.election.InProgress? && !env.active && Fold("h") == "h"
    ensures var n' := PeerLost(n, "h", false, false, env);
      && n' == n.(attributes := n'.attributes, removed := n.removed + {"h"}) && n'.attributes.Keys == n.attributes.Keys
      && forall b :: b in n.attributes ==> "h" !in n'.attributes[b].values && n'.attributes[b].timer == n.attributes[b].timer
  {
    hide Fold;
  }

  /** The same two as events of a run. */
  lemma NoteStep(s: System, name: string, value: string, out: Env) returns (e: Event, s': System)
    requires ValidEnv(out) && !out.active && Fold("h") == "h" && s.node.election.Start? && !s.node.shuttingDown
    requires name in s.node.attributes ==> s.node.attributes[name].timer == NoTimer
    ensures e.env == out && Enabled(s, e.step, out) && s' == Next(s, e.step, out) && s' == s.(node := s'.node)
    ensures OnlyThat(s.node.(removed := s.node.removed - {"h"}), s'.node, name)
  {
    hide PeerUpdate, Fold, OnlyThat;
    e := Event(Deliver("w", UpdateMessage(SetOn(name, value))), out);
    s' := Next(s, e.step, out);
    SetWhileInactive(s.node, name, value, out);
  }

  lemma LostStep(s: System, out: Env) returns (e: Event, s': System)
    requires ValidEnv(out) && !out.active && Fold("h") == "h" && s.node.election.Start? && s.node.writer.None?
    ensures e.env == out && Enabled(s, e.step, out) && s' == Next(s, e.step, out) && s' == s.(node := s'.node)
    ensures s'.node == s.node.(attributes := s'.node.attributes, removed := s.node.removed + {"h"})
    ensures s'.node.attributes.Keys == s.node.attributes.Keys
    ensures forall b :: b in s.node.attributes ==>
      "h" !in s'.node.attributes[b].values && s'.node.attributes[b].timer == s.node.attributes[b].timer
  {
    hide PeerLost, Fold;
    e := Event(NodeLost("h", false, false), out);
    s' := Next(s, e.step, out);
    LostWhileInactive(s.node, out);
  }

  /** The first half of that run: two values are noted, and their node is lost. */
  lemma Leaves(s0: System, run0: seq<Event>, s1: System, out: Env) returns (run: seq<Event>, s4: System)
    requires ValidRun(s0, run0) && Exec(s0, run0) == s1
    requires ValidEnv(out) && !out.active && Fold("h") == "h" && s1.node.removed == {} && s1.node.attributes == map[]
    requires s1.node.election.Start? && s1.node.writer.None? && !s1.node.shuttingDown
    ensures |run| == |run0| + 3 && ValidRun(s0, run) && Exec(s0, run) == s4
    ensures s4 == s1.(node := s4.node) && s4.node == s1.node.(attributes := s4.node.attributes, removed := {"h"})
    ensures "a" in s4.node.attributes && s4.node.attributes["a"].timer == NoTimer && "h" !in HostsOf(s4.node, "b")
  {
    hide Exec, ValidRun, Enabled, Next, Fold;
    var e2, s2 := NoteStep(s1, "a", "1", out);
    var s2' := Continue(s0, run0, s1, e2);
    assert s2.node.removed == {};
    var e3, s3 := NoteStep(s2, "b", "1", out);
    var s3' := Continue(s0, run0 + [e2], s2, e3);
    assert s3.node.removed == {};
    var e4, s4' := LostStep(s3, out);
    s4 := Continue(s0, run0 + [e2] + [e3], s3, e4);
    run := run0 + [e2] + [e3] + [e4];
    assert {} + {"h"} == {"h"};
  }

  lemma NotTouched(cib: Cib, r: Request, name: string, h: string)
    requires !Touches(r, name, h)
    ensures Lookup(ApplyRequest(cib, r), (name, h)) == Lookup(cib, (name, h))
  {
  }

  /** The CIB processes what is left, and leaves alone what none of that touches. */
  lemma {:induction false} Drain(s0: System, run: seq<Event>, s: System, name: string, h: string, env: Env)
    returns (run': seq<Event>)
    requires ValidRun(s0, run) && Exec(s0, run) == s && ValidEnv(env) && |s.results| <= |s.node.log|
    requires forall j :: |s.results| <= j < |s.node.log| ==> !Touches(s.node.log[j], name, h)
    ensures run <= run' && ValidRun(s0, run')
    ensures var s' := Exec(s0, run');
      s'.node == s.node && |s'.results| == |s.node.log| && Lookup(s'.cib, (name, h)) == Lookup(s.cib, (name, h))
    decreases |s.node.log| - |s.results|
  {
    hide ValidRun, Exec, Touches, ApplyRequest;
    run' := run;
    if |s.results| < |s.node.log| {
      var e := Event(CibProcesses(true), env);
      var s1 := Continue(s0, run, s, e);
      NotTouched(s.cib, s.node.log[|s.results|], name, h);
      run' := Drain(s0, run + [e], s1, name, h, env);
    }
  }

  /** A run in which a peer that had two attributes is lost, and returns with one of them: the other stays in the CIB,
      although the writer has no such value, has no peer left to erase, and everything it asked for has been done. */
  lemma StaleValueSurvives() returns (run: seq<Event>)
    ensures var s0 := Initial("n", false, map[("a", "h") := "1", ("b", "h") := "1"]);
      && ValidRun(s0, run) && |run| >= 4 && "h" in Exec(s0, run[..4]).node.removed
      && var s := Exec(s0, run);
      && IsWriter(s.node) && s.node.removed == {} && |s.results| == |s.node.log|
      && "h" !in HostsOf(s.node, "b") && Lookup(s.cib, ("b", "h")) == Some("1")
  {
    assert Fold("h") == "h" && Fold("n") == "n";
    hide Exec, ValidRun, Enabled, Next, Fold;
    var env := EnvExists(_ => false, true);
    var out := EnvExists(_ => false, false);
    var s0 := Initial("n", false, map[("a", "h") := "1", ("b", "h") := "1"]);
    StartsEmpty(s0);
    var e1 := Event(CibProcesses(true), env);
    var s1 := FirstProcessed(s0, env);
    var s1' := Continue(s0, [], s0, e1);
    var run4, s4 := Leaves(s0, [e1], s1, out);
    run := Returns(s0, run4, s4, env, out);
    assert run[..4] == run4;
  }

  lemma FirstProcessed(s0: System, env: Env) returns (s1: System)
    requires s0.node.log == [Erase("n")] && s0.results == []
    ensures Enabled(s0, CibProcesses(true), env) && s1 == Next(s0, CibProcesses(true), env)
    ensures s1.node == s0.node && s1.results == [true] && Lookup(s1.cib, ("b", "h")) == Lookup(s0.cib, ("b", "h"))
  {
    s1 := Next(s0, CibProcesses(true), env);
  }

  /** The second half of that run. */
  lemma Returns(s0: System, run0: seq<Event>, s4: System, env: Env, out: Env) returns (run: seq<Event>)
    requires ValidRun(s0, run0) && Exec(s0, run0) == s4 && ValidEnv(env) && ValidEnv(out) && env.active && !out.active
    requires Fold("h") == "h" && s4.node.election.Start? && !s4.node.shuttingDown && s4.node.removed == {"h"}
    requires "a" in s4.node.attributes && s4.node.attributes["a"].timer == NoTimer && "h" !in HostsOf(s4.node, "b")
    requires |s4.results| == |s4.node.log|
    ensures run0 <= run && ValidRun(s0, run)
    ensures var s := Exec(s0, run);
      && IsWriter(s.node) && s.node.removed == {} && |s.results| == |s.node.log|
      && "h" !in HostsOf(s.node, "b") && Lookup(s.cib, ("b", "h")) == Lookup(s4.cib, ("b", "h"))
  {
    hide WinElection, Exec, ValidRun, Fold;
    run := run0;
    var e, s5 := NoteStep(s4, "a", "2", out);
    var s5' := Continue(s0, run, s4, e);
    run := run + [e];
    e := Event(Deliver("w", ElectionMessage(LocalBetter)), env);
    var s6 := Continue(s0, run, s5, e);
    run := run + [e];
    e := Event(ElectionTimesOut, env);
    var s7 := Continue(s0, run, s6, e);
    run := run + [e];
    WinShape(s6.node, env);
    WinCleansIffListed(s6.node, env, "b", "h");
    run := Drain(s0, run, s7, "b", "h", env);
  }

  lemma HostsInTable(n: Node, name: string)
    ensures var t := Replica.TableOf(n); HostsOf(n, name) == if name in t then t[name].values.Keys else {}
  {
  }

  lemma UpdateUnlists(n: Node, name: string, op: Op, host: string, env: Env)
    requires name in n.attributes
    ensures Fold(host) !in UpdateOnHost(n, name, op, host, false, env).removed
  {
    var n1 := WithEntry(n, name, op, host);
    assert Fold(host) !in n1.removed && name in n1.attributes && Fold(host) in n1.attributes[name].values;
    hide TakeValue, MarkFromPeer, LearnXmlId, Held, WithEntry;
    var previous := Lookup(n.xmlIds, Fold(host));
    TakeGrows(n1, name, op, host, false, env);
    var n2 := TakeValue(n1, name, op, host, false, env);
    MarkGrows(n2, name, Fold(host));
    LearnGrows(MarkFromPeer(n2, name, Fold(host)), Fold(host), OrElse(op.hostId, previous), previous, env);
  }

  // ---- A refresh that finds a write in flight ----

  /** Asked to write an attribute that has a value to write, the node issues a call if and only if no
      transaction of the attribute is in flight and no delay holds it back; otherwise nothing is noted. */
  lemma RefreshWritesIffIdle(n: Node, name: string, noDelay: bool, env: Env, c: Side, h: string)
    requires Base(n, c) && name in n.attributes && !n.attributes[name].forceWrite
    requires Writable(n, n.attributes[name]) && KnowsHost(n, n.attributes[name], h)
    ensures var n', a := WriteIfAsked(n, name, true, noDelay, env), n.attributes[name];
      && (|n'.log| == |n.log| + 1 <==> a.update == 0 && (!a.timer.Running? || noDelay))
      && (|n'.log| != |n.log| + 1 ==> n' == n)
  {
    var a := n.attributes[name];
    assert Sound(n, c, name, a);
    assert h in Snapshot(n, a);
    hide Snapshot, LearnedIds, SentAttr;
  }

  lemma {:induction false} WriteAllSkipsInFlight(n: Node, names: seq<string>, env: Env, c: Side, name: string)
    requires Base(n, c) && name in n.attributes && n.attributes[name].update != 0 && !n.attributes[name].forceWrite
    requires forall i :: 0 <= i < |names| ==> names[i] in n.attributes
    ensures var n' := WriteEach(n, names, true, false, env);
      && name in n'.attributes && n'.attributes[name] == n.attributes[name] && Extends(n.log, n'.log)
      && forall j :: |n.log| <= j < |n'.log| ==> !(n'.log[j].Commit? && n'.log[j].attr == name)
  {
    hide WriteIfAsked, Base;
    if names != [] {
      var front, last := names[..|names|-1], names[|names|-1];
      WriteAllSkipsInFlight(n, front, env, c, name);
      WriteEachKeeps(n, front, true, false, env, c);
      var n1 := WriteEach(n, front, true, false, env);
      var n' := WriteEach(n, names, true, false, env);
      WriteIfAskedKeeps(n1, last, true, false, env, c);
      if last == name { InFlightIsSkipped(n1, name, env, c); }
      assert n'.log[..|n.log|] == n'.log[..|n1.log|][..|n.log|];
      forall j | |n.log| <= j < |n'.log| ensures !(n'.log[j].Commit? && n'.log[j].attr == name) {
        if j < |n1.log| { assert n'.log[j] == n'.log[..|n1.log|][j]; }
      }
    }
  }

  lemma InFlightIsSkipped(n: Node, name: string, env: Env, c: Side)
    requires Base(n, c) && name in n.attributes && n.attributes[name].update != 0 && !n.attributes[name].forceWrite
    ensures WriteIfAsked(n, name, true, false, env) == n
  {
    assert Sound(n, c, name, n.attributes[name]);
  }

  /** So a refresh does not reach an attribute whose transaction has been applied and not been answered yet, and once
      the reply is in, the attribute looks written: nothing is in flight, flagged or scheduled for it. */
  lemma RefreshDuringFlight(n: Node, c: Side, name: string, env: Env, env': Env)
    requires Inv(n, c) && IsWriter(n) && ValidEnv(env) && name in n.attributes && !n.attributes[name].forceWrite
    requires var a := n.attributes[name]; a.update == c.told + 1 <= |c.results| && c.results[c.told] && Clean(a)
    ensures var call := n.attributes[name].update;
      var n1 := WriteAttributes(n, true, false, env);
      var n2 := CibCallback(n1, call, true, env');
      && name in n2.attributes && n2.attributes[name] == Confirmed(n.attributes[name])
      && n2.election == n.election && n2.standAlone == n.standAlone
      && n2.attributes[name].update == 0 && Clean(n2.attributes[name])
      && !n2.attributes[name].timer.Running? && Extends(n.log, n2.log)
      && forall j :: |n.log| <= j < |n2.log| ==> !(n2.log[j].Commit? && n2.log[j].attr == name)
  {
    hide WriteEach, Confirmed;
    var a := n.attributes[name];
    var names := env.order(n.attributes.Keys);
    assert Enumerates(names, n.attributes.Keys);
    assert forall i :: 0 <= i < |names| ==> names[i] in names;
    WriteAllSkipsInFlight(n, names, env, c, name);
    WriteEachKeeps(n, names, true, false, env, c);
    WriteAttributesKeeps(n, true, false, env, c);
    var n1 := WriteAttributes(n, true, false, env);
    assert Sound(n1, c, name, a) && Sound(n, c, name, a);
    ConfirmedIsIdle(a);
  }

  lemma ConfirmedIsIdle(a: Attr)
    ensures var a' := Confirmed(a);
      a'.update == 0 && a'.changed == a.changed && a'.nodeUnknown == a.nodeUnknown && (a'.timer.Running? ==> a.timer.Running?)
  {
  }

  // ---- Shutting down ----

  /** A node that is shutting down takes part in elections, but no other message changes anything, and changes of the CIB
      are left for another writer to repair. */
  lemma ShutdownIgnores(s: System, step: Step, env: Env)
    requires s.node.shuttingDown && (step.UnsafeCibChange? || (step.Deliver? && !step.message.ElectionMessage?))
    ensures Next(s, step, env) == s
  {
    hide PeerUpdate, ClearMatching, PeerRemove, HandleSyncResponse, WriteEach;
  }
}
