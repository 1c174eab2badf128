/** Somebody else changes transient attributes in the CIB while the node is writer, which the node is told of and
    answers by writing everything: exactly when that repairs the damage. */
module ForeignEdits {
  import opened Common
  import opened Model
  import opened CibWrites
  import opened Daemon
  import opened CibAgreement
  import opened Lifecycle
  import opened Succession
  import opened WriterRuns
  import opened Attributes
  import opened Corosync
  import BlankEntries
  import Limits

  /** An event of the kind that runs are made of, or an edit. The notification of an edit is a later event. */
  datatype Move = Plain(event: Event) | Edit(cib: Cib)

  function After(s: System, m: Move): System {
    match m
    case Plain(e) => Next(s, e.step, e.env)
    case Edit(cib) => s.(cib := cib)
  }

  ghost predicate CanMove(s: System, m: Move) {
    match m
    case Plain(e) => ValidEnv(e.env) && Enabled(s, e.step, e.env)
    case Edit(_) => IsWriter(s.node) && !s.node.shuttingDown
  }

  function Play(s: System, moves: seq<Move>): System {
    if moves == [] then s else After(Play(s, moves[..|moves|-1]), moves[|moves|-1])
  }

  ghost predicate CanPlay(s: System, moves: seq<Move>) {
    moves != [] ==> CanPlay(s, moves[..|moves|-1]) && CanMove(Play(s, moves[..|moves|-1]), moves[|moves|-1])
  }

  /** Nobody edits the CIB, whether or not the node is writer. */
  ghost predicate Calm(moves: seq<Move>) {
    forall i :: 0 <= i < |moves| ==> moves[i].Plain? && !moves[i].event.step.OtherWriterEdits?
  }

  // ---- The CIB as it would be without the edits ----

  function SideMoved(s: System, c: Side, m: Move): Side {
    match m
    case Plain(e) => SideAfter(s, c, e.step)
    case Edit(_) => c
  }

  function SidePlayed(s: System, c: Side, moves: seq<Move>): Side {
    if moves == [] then c
    else SideMoved(Play(s, moves[..|moves|-1]), SidePlayed(s, c, moves[..|moves|-1]), moves[|moves|-1])
  }

  /** The invariant does not mind the edits, if the CIB is taken as it would be without them. */
  lemma {:induction false} PlayKeeps(s: System, c: Side, moves: seq<Move>)
    requires Inv(s.node, c) && c.results == s.results && c.told == s.told && CanPlay(s, moves)
    ensures var s', c' := Play(s, moves), SidePlayed(s, c, moves);
      Inv(s'.node, c') && c'.results == s'.results && c'.told == s'.told && c'.since == c.since && c'.except == c.except
  {
    hide Inv, Next, Enabled, ApplyRequest;
    if moves != [] {
      var front, m := moves[..|moves|-1], moves[|moves|-1];
      PlayKeeps(s, c, front);
      var s1, c1 := Play(s, front), SidePlayed(s, c, front);
      if m.Plain? {
        StepKeepsSide(s1, c1, m.event.step, m.event.env);
      }
    }
  }

  // ---- What an edit leaves ----

  /** A call after the first `from` has been applied that sets or deletes the entry. */
  ghost predicate Overwritten(s: System, from: nat, k: (string, string)) {
    exists j :: from <= j < |s.results| <= |s.node.log| && s.results[j] && Touches(s.node.log[j], k.0, k.1)
  }

  /** Each entry is as without the edit, if it has been overwritten since, and otherwise as the edit left it. */
  ghost predicate Tracks(s: System, c: Side, from: nat, cib: Cib) {
    forall k :: Lookup(s.cib, k) == if Overwritten(s, from, k) then Lookup(c.cib, k) else Lookup(cib, k)
  }

  lemma SameIfTouched(x: Cib, y: Cib, r: Request, k: (string, string))
    requires Touches(r, k.0, k.1)
    ensures Lookup(ApplyRequest(x, r), k) == Lookup(ApplyRequest(y, r), k)
  {
    if r.Commit? {
      CommittedTo(x, r.attr, r.ops, k.1);
      CommittedTo(y, r.attr, r.ops, k.1);
    }
  }

  /** One step of the CIB or of the node. */
  lemma StepTracks(s: System, c: Side, step: Step, env: Env, from: nat, cib: Cib)
    requires ValidEnv(env) && Enabled(s, step, env) && !step.OtherWriterEdits?
    requires c.results == s.results && |s.results| <= |s.node.log| && from <= |s.results| && Tracks(s, c, from, cib)
    ensures Tracks(Next(s, step, env), SideAfter(s, c, step), from, cib)
  {
    var s', c' := Next(s, step, env), SideAfter(s, c, step);
    StepProgress(s, step, env);
    assert forall j :: 0 <= j < |s.node.log| ==> s'.node.log[j] == s'.node.log[..|s.node.log|][j];
    forall k
      ensures Lookup(s'.cib, k) == if Overwritten(s', from, k) then Lookup(c'.cib, k) else Lookup(cib, k)
    {
      KeyTracks(s, c, s', c', step, from, cib, k);
    }
  }

  lemma KeyTracks(s: System, c: Side, s': System, c': Side, step: Step, from: nat, cib: Cib, k: (string, string))
    requires c.results == s.results && |s.results| <= |s.node.log| <= |s'.node.log| && from <= |s.results|
    requires forall j :: 0 <= j < |s.node.log| ==> s'.node.log[j] == s.node.log[j]
    requires Lookup(s.cib, k) == if Overwritten(s, from, k) then Lookup(c.cib, k) else Lookup(cib, k)
    requires if step.CibProcesses? && |s.results| < |s.node.log|
      then var r := s.node.log[|s.results|];
        && s'.results == s.results + [step.ok]
        && s'.cib == (if step.ok then ApplyRequest(s.cib, r) else s.cib) && c'.cib == (if step.ok then ApplyRequest(c.cib, r) else c.cib)
      else s'.results == s.results && s'.cib == s.cib && c'.cib == c.cib
    ensures Lookup(s'.cib, k) == if Overwritten(s', from, k) then Lookup(c'.cib, k) else Lookup(cib, k)
  {
    if j :| from <= j < |s.results| && s.results[j] && Touches(s.node.log[j], k.0, k.1) {
      assert Overwritten(s, from, k);
      assert s'.results[j] && Touches(s'.node.log[j], k.0, k.1);
      assert Overwritten(s', from, k);
    }
    if step.CibProcesses? && |s.results| < |s.node.log| && step.ok {
      var r := s.node.log[|s.results|];
      if Touches(r, k.0, k.1) {
        SameIfTouched(s.cib, c.cib, r, k);
        assert s'.results[|s.results|] && Touches(s'.node.log[|s.results|], k.0, k.1);
        assert Overwritten(s', from, k);
      } else {
        UntouchedBy(s.cib, r, k.0, k.1);
        UntouchedBy(c.cib, r, k.0, k.1);
      }
    }
    hide ApplyRequest;
  }

  lemma {:induction false} PlayTracks(s: System, c: Side, moves: seq<Move>, from: nat, cib: Cib)
    requires Inv(s.node, c) && c.results == s.results && c.told == s.told && CanPlay(s, moves) && Calm(moves)
    requires from <= |s.results| && Tracks(s, c, from, cib)
    ensures Tracks(Play(s, moves), SidePlayed(s, c, moves), from, cib) && from <= |Play(s, moves).results|
  {
    if moves != [] {
      var front, e := moves[..|moves|-1], moves[|moves|-1].event;
      PlayTracks(s, c, front, from, cib);
      PlayKeeps(s, c, front);
      var s1, c1 := Play(s, front), SidePlayed(s, c, front);
      hide Tracks, SideAfter, Enabled;
      StepTracks(s1, c1, e.step, e.env, from, cib);
      hide Inv;
    }
  }

  // ---- A run with a last edit ----

  /** A run from start-up: up to an edit, on to the notification, and on from there. */
  datatype EditRun = EditRun(self: string, standAlone: bool, start: Cib, before: seq<Move>, cib: Cib,
                             between: seq<Move>, env: Env, after: seq<Move>)

  /** The state that the edit finds. */
  function AtEdit(r: EditRun): System {
    Play(Initial(r.self, r.standAlone, r.start), r.before)
  }

  /** The state in which the node is told of it. */
  function AtNotice(r: EditRun): System {
    Play(AtEdit(r).(cib := r.cib), r.between)
  }

  function Told(r: EditRun): System {
    Next(AtNotice(r), UnsafeCibChange, r.env)
  }

  function AtEnd(r: EditRun): System {
    Play(Told(r), r.after)
  }

  ghost predicate Valid(r: EditRun) {
    && CanPlay(Initial(r.self, r.standAlone, r.start), r.before) && CanMove(AtEdit(r), Edit(r.cib))
    && CanPlay(AtEdit(r).(cib := r.cib), r.between) && Calm(r.between)
    && ValidEnv(r.env) && IsWriter(AtNotice(r).node) && !AtNotice(r).node.shuttingDown
    && CanPlay(Told(r), r.after) && Calm(r.after)
  }

  /** The edit fell between the application of the attribute's transaction and its reply: when the node is told of
      the edit, the transaction is still in flight, and the CIB had applied it before the edit. */
  predicate InWindow(r: EditRun, name: string) {
    var call := if name in AtNotice(r).node.attributes then AtNotice(r).node.attributes[name].update else 0;
    1 <= call <= |AtEdit(r).results| && AtEdit(r).results[call-1]
  }

  /** At the writer, nothing is in flight, flagged or scheduled for an attribute that belongs in the CIB. */
  predicate Quiescent(s: System, name: string) {
    && IsWriter(s.node) && name in s.node.attributes && Writable(s.node, s.node.attributes[name])
    && !s.node.attributes[name].timer.Running? && s.node.attributes[name].update == 0
    && !s.node.attributes[name].nodeUnknown
  }

  lemma InitialKeeps(self: string, standAlone: bool, cib: Cib)
    ensures var s := Initial(self, standAlone, cib); Inv(s.node, SideOf(s))
  {
  }

  lemma {:induction false} PlayExtends(s: System, moves: seq<Move>)
    ensures s.results <= Play(s, moves).results
  {
    hide NodeStep, ApplyRequest;
    if moves != [] {
      PlayExtends(s, moves[..|moves|-1]);
    }
  }

  /** The invariant with a more recent bound, before everything is written again. */
  lemma Rebase(n: Node, c: Side, since: nat, except: set<string>)
    requires Inv(n, c) && since <= |c.results|
    requires forall name :: name in n.attributes && name !in except && 0 < n.attributes[name].update <= since ==>
               !c.results[n.attributes[name].update-1]
    ensures Base(n, c.(since := since, except := except))
  {
    hide Stored;
  }

  lemma Writes(s: System, env: Env)
    requires IsWriter(s.node) && !s.node.shuttingDown
    ensures Next(s, UnsafeCibChange, env) == s.(node := WriteAttributes(s.node, true, false, env))
  {
  }

  /** What is known when the node is told, of the node, of the CIB as it would be without the edit, and of the CIB
      as it is. */
  lemma NoticeOfEdit(r: EditRun) returns (c: Side)
    requires Valid(r)
    ensures Inv(AtNotice(r).node, c) && c.results == AtNotice(r).results && c.told == AtNotice(r).told
    ensures AtEdit(r).results <= AtNotice(r).results
    ensures Tracks(AtNotice(r), c, |AtEdit(r).results|, r.cib)
  {
    hide Inv, Tracks, Next, SideAfter, WriteAttributes, Enabled;
    var s0 := Initial(r.self, r.standAlone, r.start);
    InitialKeeps(r.self, r.standAlone, r.start);
    PlayKeeps(s0, SideOf(s0), r.before);
    var e, ce := AtEdit(r), SidePlayed(s0, SideOf(s0), r.before);
    var e1 := e.(cib := r.cib);
    NothingYet(e1, ce, |e.results|, r.cib);
    PlayKeeps(e1, ce, r.between);
    PlayTracks(e1, ce, r.between, |e.results|, r.cib);
    PlayExtends(e1, r.between);
    c := SidePlayed(e1, ce, r.between);
  }

  /** What is known in the end. */
  lemma EndOfEditRun(r: EditRun) returns (c: Side)
    requires Valid(r)
    ensures Inv(AtEnd(r).node, c) && c.results == AtEnd(r).results && c.since == |AtEdit(r).results| <= |c.results|
    ensures forall name :: name in c.except <==> InWindow(r, name)
    ensures Tracks(AtEnd(r), c, |AtEdit(r).results|, r.cib)
  {
    hide Inv, Tracks, Next, SideAfter, WriteAttributes, Enabled, AtEdit, AtNotice;
    var cm := NoticeOfEdit(r);
    var m, from := AtNotice(r), |AtEdit(r).results|;
    var except := set name | name in m.node.attributes && InWindow(r, name);
    var cw := cm.(since := from, except := except);
    forall name | name in m.node.attributes && name !in except && 0 < m.node.attributes[name].update <= from
      ensures !cm.results[m.node.attributes[name].update-1]
    {
      assert !InWindow(r, name);
    }
    Rebase(m.node, cm, from, except);
    WriteAttributesKeeps(m.node, true, false, r.env, cw);
    Writes(m, r.env);
    var t := Told(r);
    assert Inv(t.node, cw);
    NoticeTracks(m, cm, r.env, from, r.cib, cw);
    PlayKeeps(t, cw, r.after);
    PlayTracks(t, cw, r.after, from, r.cib);
    c := SidePlayed(t, cw, r.after);
  }

  lemma NothingYet(s: System, c: Side, from: nat, cib: Cib)
    requires s.cib == cib && from == |s.results|
    ensures Tracks(s, c, from, cib)
  {
  }

  lemma NoticeTracks(s: System, c: Side, env: Env, from: nat, cib: Cib, c': Side)
    requires ValidEnv(env) && Inv(s.node, c) && c.results == s.results && from <= |s.results| && Tracks(s, c, from, cib)
    requires c'.cib == c.cib
    ensures Tracks(Next(s, UnsafeCibChange, env), c', from, cib)
  {
    hide Next;
    StepTracks(s, c, UnsafeCibChange, env, from, cib);
  }

  /** Whatever else has happened, at quiescence an entry that was set before agrees if and only if the attribute has
      been written over it since the edit, or the edit left the value there. */
  lemma AgreementAfterEdit(r: EditRun, name: string, h: string)
    requires Valid(r) && Quiescent(AtEnd(r), name)
    requires h in AtEnd(r).node.attributes[name].values && !AtEnd(r).node.attributes[name].values[h].blank
    ensures var s, current := AtEnd(r), AtEnd(r).node.attributes[name].values[h].current;
      && (Lookup(s.cib, (name, h)) == current <==> Overwritten(s, |AtEdit(r).results|, (name, h)) || Lookup(r.cib, (name, h)) == current)
      && (!InWindow(r, name) ==> Overwritten(s, |AtEdit(r).results|, (name, h)))
  {
    hide AtEnd, AtEdit, InWindow;
    var c := EndOfEditRun(r);
    var s := AtEnd(r);
    var v := s.node.attributes[name].values[h];
    assert Settled(s.node, c, name, s.node.attributes[name]);
    var call :| StoredBy(s.node.log, c, name, h, v, call);
    if call > c.since {
      assert s.results[call-1] && Touches(s.node.log[call-1], name, h);
    }
  }

  /** The edit is repaired, if it did not fall between the application of the attribute's transaction and its
      reply: the next time the attribute is quiescent, memory and CIB agree again. */
  lemma EditIsRepaired(r: EditRun, name: string, h: string)
    requires Valid(r) && Quiescent(AtEnd(r), name) && !InWindow(r, name)
    requires h in AtEnd(r).node.attributes[name].values && !AtEnd(r).node.attributes[name].values[h].blank
    ensures Lookup(AtEnd(r).cib, (name, h)) == AtEnd(r).node.attributes[name].values[h].current
  {
    hide AtEnd, AtEdit, InWindow, Valid;
    AgreementAfterEdit(r, name, h);
  }

  /** An edit in the window is never repaired by the refresh it causes: if the attribute is not flagged and the reply
      is what comes next, then the attribute is quiescent, and the CIB has what the edit put there. */
  lemma EditInWindowIsNotRepaired(r: EditRun, name: string, env: Env, h: string)
    requires Valid(r) && r.after == [Plain(Event(CibReplies, env))] && InWindow(r, name)
    requires var n := AtNotice(r).node;
      && name in n.attributes && n.attributes[name].update == AtNotice(r).told + 1
      && Clean(n.attributes[name]) && !n.attributes[name].forceWrite
      && h in n.attributes[name].values && !n.attributes[name].values[h].blank
    ensures var s := AtEnd(r);
      && Quiescent(s, name) && h in s.node.attributes[name].values && !s.node.attributes[name].values[h].blank
      && s.node.attributes[name].values[h].current == AtNotice(r).node.attributes[name].values[h].current
      && Lookup(s.cib, (name, h)) == Lookup(r.cib, (name, h))
  {
    hide AtNotice, AtEdit, AtEnd, Inv, Tracks, WriteAttributes, CibCallback, Clean, Valid, Touches, Confirmed;
    var c := NoticeOfEdit(r);
    ToldAsWriter(r);
    var m := AtNotice(r);
    var a := m.node.attributes[name];
    InFlightFacts(m.node, c, name, h, |AtEdit(r).results|);
    LooksWritten(m.node, c, name, r.env, env);
    NoticeThenReply(r, env);
    assert m.results[m.told];
    NotOverwritten(m, c, |AtEdit(r).results|, r.cib, name, h);
    SameAsBefore(m.node, AtEnd(r).node, name, h, a);
    assert !AtEnd(r).node.attributes[name].nodeUnknown by { CleanKnows(AtEnd(r).node.attributes[name]); }
  }

  /** A refresh that comes while a transaction is applied but not answered, and then the answer. */
  lemma LooksWritten(n: Node, c: Side, name: string, env: Env, env': Env)
    requires Inv(n, c) && IsWriter(n) && ValidEnv(env) && name in n.attributes && !n.attributes[name].forceWrite
    requires var a := n.attributes[name]; a.update == c.told + 1 <= |c.results| && c.results[c.told] && Clean(a)
    ensures var n2 := CibCallback(WriteAttributes(n, true, false, env), n.attributes[name].update, true, env');
      && name in n2.attributes && n2.attributes[name] == Confirmed(n.attributes[name])
      && n2.election == n.election && n2.standAlone == n.standAlone
      && n2.attributes[name].update == 0 && Clean(n2.attributes[name]) && !n2.attributes[name].timer.Running?
  {
    hide CibCallback, WriteAttributes, Confirmed, Inv, Clean;
    Limits.RefreshDuringFlight(n, c, name, env, env');
  }

  lemma ToldAsWriter(r: EditRun)
    requires Valid(r)
    ensures IsWriter(AtNotice(r).node) && !AtNotice(r).node.shuttingDown && ValidEnv(r.env)
  {
    hide AtNotice;
  }

  lemma CleanKnows(a: Attr)
    requires Clean(a)
    ensures !a.nodeUnknown
  {
  }

  lemma NoticeThenReply(r: EditRun, env: Env)
    requires r.after == [Plain(Event(CibReplies, env))]
    requires IsWriter(AtNotice(r).node) && !AtNotice(r).node.shuttingDown && AtNotice(r).told < |AtNotice(r).results|
    ensures var m := AtNotice(r);
      && AtEnd(r).node == CibCallback(WriteAttributes(m.node, true, false, r.env), m.told + 1, m.results[m.told], env)
      && AtEnd(r).cib == m.cib
  {
    hide AtNotice, WriteAttributes, CibCallback;
    Writes(AtNotice(r), r.env);
    PlayOne(Told(r), Plain(Event(CibReplies, env)));
  }

  lemma PlayOne(s: System, m: Move)
    ensures Play(s, [m]) == After(s, m)
  {
    hide Next;
    assert [m][..0] == [];
  }

  lemma InFlightFacts(n: Node, c: Side, name: string, h: string, from: nat)
    requires Inv(n, c) && name in n.attributes && h in n.attributes[name].values && !n.attributes[name].values[h].blank
    requires Clean(n.attributes[name]) && 0 < n.attributes[name].update <= from
    ensures Writable(n, n.attributes[name]) && |c.results| <= |n.log|
    ensures forall j :: from <= j < |n.log| ==> !Touches(n.log[j], name, h)
  {
    assert Sound(n, c, name, n.attributes[name]);
  }

  lemma NotOverwritten(s: System, c: Side, from: nat, cib: Cib, name: string, h: string)
    requires Tracks(s, c, from, cib) && forall j :: from <= j < |s.node.log| ==> !Touches(s.node.log[j], name, h)
    ensures Lookup(s.cib, (name, h)) == Lookup(cib, (name, h))
  {
  }

  lemma SameAsBefore(n: Node, n': Node, name: string, h: string, a: Attr)
    requires h in a.values && name in n'.attributes && n'.attributes[name] == Confirmed(a)
    ensures h in n'.attributes[name].values && n'.attributes[name].values[h].current == a.values[h].current
    ensures n'.attributes[name].values[h].blank == a.values[h].blank && n'.attributes[name].isPrivate == a.isPrivate
  {
  }

  // ---- Such a run ----

  const SET_A: Op := NoAttrs.(task := Some(Update), name := Some("a"), host := Some("h"), value := Some("1"))

  /** An attribute for the CIB that has just been created, with an entry for one node. */
  predicate JustCreated(a: Attr) {
    && a.values == map["h" := Value("h", None, None, false, false, true)]
    && !a.isPrivate && a.timeoutMs == 0 && a.timer == NoTimer && a.update == 0 && !a.forceWrite
  }

  lemma SetCreates(n: Node, env: Env) returns (n2: Node)
    requires n.attributes == map[] && Fold("h") == "h"
    ensures n2 == n.(attributes := n2.attributes, removed := n2.removed) && "a" in n2.attributes
    ensures JustCreated(n2.attributes["a"])
    ensures PeerUpdateOne(n, SET_A, false, env) == MarkFromPeer(TakeValue(n2, "a", SET_A, "h", false, env), "a", "h")
  {
    hide Fold, TakeValue, MarkFromPeer;
    var n1 := CreateAttribute(n, SET_A, "a").value;
    assert Populate(n, SET_A, "a", env) == (n1, true);
    n2 := WithEntry(n1, "a", SET_A, "h");
    assert n2.attributes["a"].values == map["h" := Value("h", None, None, false, false, true)];
  }

  lemma TakeSends(n: Node, env: Env) returns (n3: Node)
    requires "a" in n.attributes && JustCreated(n.attributes["a"]) && !n.standAlone && IsWriter(n) && Fold("h") == "h"
    ensures n3 == n.(attributes := n3.attributes) && "a" in n3.attributes
    ensures n3.attributes["a"].values == map["h" := Value("h", Some("1"), None, false, false, false)]
    ensures TakeValue(n, "a", SET_A, "h", false, env) == SendTransaction(n3, "a", env)
  {
    hide Fold, SendTransaction;
    var a := n.attributes["a"];
    var a3 := a.(values := map["h" := Value("h", Some("1"), None, false, false, false)], changed := true);
    assert SetValue(a, "h", a.values["h"].(current := Some("1"), blank := false)).(changed := true) == a3;
    n3 := SetAttr(n, "a", a3);
    assert WriteAttribute(n3, "a", false, env) == SendTransaction(n3, "a", env);
    hide WriteAttribute;
    assert ChangeValue(n, "a", "h", Some("1"), env) == WriteAttribute(n3, "a", false, env);
  }

  /** A writer without attributes is told a value of a node it knows, and sends it off. */
  lemma SetIsSent(n: Node, env: Env)
    requires n.attributes == map[] && !n.standAlone && IsWriter(n) && n.cache == map["h" := "1"] && !env.refuses(|n.log| + 1)
    ensures var n' := PeerUpdateOne(n, SET_A, false, env);
      && n'.log == n.log + [Commit("a", map["h" := Some("1")])] && IsWriter(n') && !n'.shuttingDown == !n.shuttingDown
      && n'.callbacks == n.callbacks[|n.log| + 1 := "a"]
      && "a" in n'.attributes && "h" in n'.attributes["a"].values
      && var a := n'.attributes["a"];
      && a.update == |n.log| + 1 && Clean(a) && !a.forceWrite
      && a.values["h"].current == Some("1") && !a.values["h"].blank
  {
    assert Fold("h") == "h";
    hide Fold, PeerUpdateOne, TakeValue, SendTransaction;
    var n2 := SetCreates(n, env);
    var n3 := TakeSends(n2, env);
    SendOne(n3, env);
  }

  lemma SendOne(n: Node, env: Env)
    requires "a" in n.attributes && n.cache == map["h" := "1"] && !env.refuses(|n.log| + 1)
    requires n.attributes["a"].values == map["h" := Value("h", Some("1"), None, false, false, false)]
    ensures var n' := SendTransaction(n, "a", env);
      && n'.log == n.log + [Commit("a", map["h" := Some("1")])] && n'.callbacks == n.callbacks[|n.log| + 1 := "a"]
      && n'.election == n.election && n'.standAlone == n.standAlone && n'.shuttingDown == n.shuttingDown
      && "a" in n'.attributes && "h" in n'.attributes["a"].values
      && var a := n'.attributes["a"];
      && a.update == |n.log| + 1 && Clean(a) && !a.forceWrite
      && a.values["h"].current == Some("1") && !a.values["h"].blank
  {
    var a := n.attributes["a"];
    assert Snapshot(n, a) == map["h" := Some("1")];
    hide Snapshot, LearnedIds;
    assert "h" in Snapshot(n, a);
  }

  /** One more move. */
  lemma Further(s0: System, moves: seq<Move>, s: System, m: Move) returns (s': System)
    requires CanPlay(s0, moves) && Play(s0, moves) == s && CanMove(s, m)
    ensures s' == After(s, m) && CanPlay(s0, moves + [m]) && Play(s0, moves + [m]) == s' && [] + [m] == [m]
  {
    hide CanMove, After;
    s' := After(s, m);
    assert (moves + [m])[..|moves|] == moves;
  }

  lemma NoMoves(s: System)
    ensures CanPlay(s, []) && Play(s, []) == s && Calm([])
  {
  }

  /** A writer that has just sent its first value, which the CIB has applied. */
  lemma SentAndApplied(env: Env) returns (moves: seq<Move>, s: System)
    requires ValidEnv(env) && env.active && (forall call :: !env.refuses(call))
    ensures var s0 := Initial("n", false, map[]); CanPlay(s0, moves) && Play(s0, moves) == s
    ensures IsWriter(s.node) && !s.node.shuttingDown && s.results == [true, true] && s.told == 1
    ensures "a" in s.node.attributes && "h" in s.node.attributes["a"].values
    ensures var a := s.node.attributes["a"];
      a.update == 2 && Clean(a) && !a.forceWrite && a.values["h"].current == Some("1") && !a.values["h"].blank
  {
    hide WinElection, PeerUpdateOne, CanPlay, Play;
    var s0 := Initial("n", false, map[]);
    NoMoves(s0);
    var m := Plain(Event(Deliver("m", ElectionMessage(LocalBetter)), env));
    var s1 := Further(s0, [], s0, m);
    moves := [m];
    m := Plain(Event(ElectionTimesOut, env));
    var s2 := Further(s0, moves, s1, m);
    moves := moves + [m];
    BlankEntries.WinOfEmpty(s1.node, env);
    m := Plain(Event(MembershipLearns("h", "1"), env));
    var s3 := Further(s0, moves, s2, m);
    moves := moves + [m];
    assert Fold("h") == "h" && s3.node.cache == map["h" := "1"];
    m := Plain(Event(Deliver("m", UpdateMessage(Element(true, SET_A, []))), env));
    var s4 := Further(s0, moves, s3, m);
    moves := moves + [m];
    SetIsSent(s3.node, env);
    assert s4.node == PeerUpdateOne(s3.node, SET_A, false, env) && s4.results == [] && s4.told == 0;
    assert |s4.node.log| == 2 && s4.node.callbacks.Keys == {2};
    moves, s := AppliedTwice(s0, moves, s4, env);
  }

  lemma AppliedTwice(s0: System, moves: seq<Move>, s: System, env: Env) returns (moves': seq<Move>, s': System)
    requires CanPlay(s0, moves) && Play(s0, moves) == s && ValidEnv(env)
    requires |s.node.log| == 2 && s.results == [] && s.told == 0 && 1 !in s.node.callbacks
    ensures CanPlay(s0, moves') && Play(s0, moves') == s'
    ensures s'.node == s.node && s'.results == [true, true] && s'.told == 1
  {
    hide CanPlay, Play, ApplyRequest;
    var process, reply := Plain(Event(CibProcesses(true), env)), Plain(Event(CibReplies, env));
    var s1 := Further(s0, moves, s, process);
    var s2 := Further(s0, moves + [process], s1, process);
    s' := Further(s0, moves + [process] + [process], s2, reply);
    moves' := moves + [process] + [process] + [reply];
  }

  /** A run at whose end the writer is quiescent and holds a value that the CIB does not have: the CIB was emptied
      after the value had been written, and before the writer knew. */
  lemma EditLeavesDisagreement() returns (r: EditRun)
    ensures Valid(r) && InWindow(r, "a") && Quiescent(AtEnd(r), "a") && "h" in AtEnd(r).node.attributes["a"].values
    ensures AtEnd(r).node.attributes["a"].values["h"].current == Some("1") && Lookup(AtEnd(r).cib, ("a", "h")).None?
  {
    var env := EnvExists(_ => false, true);
    var moves, s := SentAndApplied(env);
    var reply := Event(CibReplies, env);
    r := EditRun("n", false, map[], moves, map[], [], env, [Plain(reply)]);
    hide Next;
    NoMoves(s.(cib := map[]));
    assert AtEdit(r) == s && AtNotice(r) == s.(cib := map[]);
    PlayOne(Told(r), Plain(reply));
    assert CanPlay(Told(r), r.after) by { CanReply(AtNotice(r), env); }
    EditInWindowIsNotRepaired(r, "a", env, "h");
  }

  lemma CanReply(m: System, env: Env)
    requires ValidEnv(env) && m.told < |m.results|
    ensures CanPlay(Next(m, UnsafeCibChange, env), [Plain(Event(CibReplies, env))])
  {
    hide WriteAttributes;
    assert [Plain(Event(CibReplies, env))][..0] == [];
  }
}
