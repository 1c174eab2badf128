/** Whom a node takes for the writer: the one it has learned of last, unless that node has been lost since. */
module KnownWriter {
  import opened Common
  import opened Model
  import opened Elections
  import opened CibWrites
  import opened Corosync
  import opened Daemon
  import opened Lifecycle
  import opened Succession
  import Corrections
  import WriteDelays

  /** What an event teaches about the writer. */
  datatype Lesson = Keep | Forget | Learn(who: string)

  function After(l: Lesson, writer: Option<string>): Option<string> {
    match l case Keep => writer case Forget => None case Learn(who) => Some(who)
  }

  /** A voter is gone. If it was the writer, there is none; if it was the last one an election was waiting for, this
      node has won. */
  function VoterGone(n: Node, peer: string, voting: bool, complete: bool): Lesson {
    if n.writer.Some? && Fold(peer) == Fold(n.writer.value) then Forget
    else if voting && complete then Learn(n.self)
    else Keep
  }

  function LessonOf(n: Node, step: Step, active: bool): Lesson {
    match step
    case Deliver(from, SyncResponseMessage(_, declares)) =>
      // another writer is not believed, but challenged
      if declares && !n.shuttingDown && (!IsWriter(n) || Fold(from) == Fold(n.self)) && !SameText(n.writer, Some(from))
      then Learn(from) else Keep
    case Deliver(from, ElectionMessage(outcome)) =>
      (match outcome
       case BadVote => Keep
       case PeerBetter => if n.writer.None? || !n.election.Lost? then Learn(from) else Keep
       case LocalBetter => Forget
       case Counted(complete) =>
         if n.election.Start? then Forget
         else if n.election.Lost? && n.writer.None? then Learn(from)
         else if n.election.InProgress? && complete then Learn(n.self)
         else Keep)
    case ElectionTimesOut => Learn(n.self)
    case ProcessGone(peer, complete) => VoterGone(n, peer, n.election.InProgress?, complete)
    case NodeLost(peer, isRemote, complete) =>
      // removing the peer may itself have called an election
      if isRemote then Keep
      else VoterGone(n, peer, n.election.InProgress? || (n.writer.None? && !IsWriter(n) && !n.shuttingDown && active), complete)
    case _ => Keep
  }

  lemma VoteTeaches(n: Node, from: string, outcome: VoteOutcome, env: Env)
    requires ValidEnv(env)
    ensures HandleElectionOp(n, from, outcome, env).writer == After(LessonOf(n, Deliver(from, ElectionMessage(outcome)), env.active), n.writer)
  {
    hide WinElection;
    WinShape(n, env);
  }

  lemma LossTeaches(n: Node, peer: string, complete: bool, env: Env)
    requires ValidEnv(env)
    ensures RemoveVoter(n, peer, complete, env).writer == After(VoterGone(n, peer, n.election.InProgress?, complete), n.writer)
  {
    hide WinElection;
    WinShape(n, env);
  }

  lemma RemovalKeepsWriter(n: Node, host: string, uncache: bool, env: Env)
    ensures var n' := PeerRemove(n, host, uncache, env);
      && n'.writer == n.writer && n'.self == n.self && n'.shuttingDown == n.shuttingDown
      && n'.election == if n.writer.None? && !IsWriter(n) && !n.election.InProgress? && !n.shuttingDown && env.active
                        then InProgress else n.election
  {
    hide Fold, DropHost;
  }

  lemma ReceiveTeaches(n: Node, from: string, m: PeerMessage, env: Env)
    requires ValidEnv(env)
    ensures Receive(n, from, m, env).writer == After(LessonOf(n, Deliver(from, m), env.active), n.writer)
  {
    hide HandleElectionOp, PeerUpdate, PeerRemove, HandleSyncResponse, ClearMatching, Fold, Grows;
    match m
    case ElectionMessage(outcome) => VoteTeaches(n, from, outcome, env);
    case UpdateMessage(e) => PeerUpdateGrows(n, e, false, env); WriterGrows(n, PeerUpdate(n, e, false, env));
    case ClearFailureMessage(e, matching) =>
      ClearMatchingGrows(n, e, env.order(n.attributes.Keys), matching, env);
      WriterGrows(n, ClearMatching(n, e, env.order(n.attributes.Keys), matching, env));
    case RemoveMessage(host, reap) => if host.Some? { RemovalKeepsWriter(n, host.value, reap, env); }
    case SyncResponseMessage(e, declares) => if !n.shuttingDown { SyncTeaches(n, from, declares, e, env); }
  }

  lemma SyncTeaches(n: Node, from: string, declares: bool, e: Element, env: Env)
    requires ValidEnv(env) && !n.shuttingDown
    ensures HandleSyncResponse(n, from, declares, e, env).writer
      == After(LessonOf(n, Deliver(from, SyncResponseMessage(e, declares)), env.active), n.writer)
  {
    hide CheckForNewWriter, LessonOf, After, PeerSyncResponse, Fold, Grows;
    CheckTeaches(n, from, declares, e, env);
    var n1 := CheckForNewWriter(n, from, declares, env);
    SyncResponseGrows(n1, declares, e, env);
    WriterGrows(n1, PeerSyncResponse(n1, declares, e, env));
  }

  lemma CheckTeaches(n: Node, from: string, declares: bool, e: Element, env: Env)
    requires !n.shuttingDown
    ensures CheckForNewWriter(n, from, declares, env).writer
      == After(LessonOf(n, Deliver(from, SyncResponseMessage(e, declares)), env.active), n.writer)
  {
    hide Fold;
  }

  lemma WriterGrows(n: Node, n': Node)
    requires Grows(n, n')
    ensures n'.writer == n.writer
  {
  }

  /** Each step leaves the recorded writer as its lesson says. */
  lemma StepTeaches(s: System, step: Step, env: Env)
    requires ValidEnv(env)
    ensures Next(s, step, env).node.writer == After(LessonOf(s.node, step, env.active), s.node.writer)
  {
    hide Receive, CibCallback, TimerExpired, WinElection, WriteEach, PeerRemove, RemoveVoter, SyncMessage, Fold;
    var n := s.node;
    match step
    case Deliver(from, m) => ReceiveTeaches(n, from, m, env);
    case CibReplies => if s.told < |s.results| { CallbackLed(n, s.told + 1, s.results[s.told], env); }
    case CallTimesOut(call) => CallbackLed(n, call, false, env);
    case TimerFires(name) => TimerLed(n, name, env);
    case ElectionTimesOut => WinShape(n, env);
    case ClientRefresh => WriteEachLed(n, env.order(n.attributes.Keys), true, true, env);
    case UnsafeCibChange => WriteEachLed(n, env.order(n.attributes.Keys), true, false, env);
    case NodeLost(peer, isRemote, complete) =>
      RemovalKeepsWriter(n, peer, false, env);
      LossTeaches(PeerRemove(n, peer, false, env), peer, complete, env);
    case ProcessGone(peer, complete) => LossTeaches(n, peer, complete, env);
    case _ =>
  }

  /** The lesson of an event of a run. */
  function LessonAt(s: System, run: seq<Event>, i: nat): Lesson
    requires i < |run|
  {
    LessonOf(Exec(s, run[..i]).node, run[i].step, run[i].env.active)
  }

  /** That was the last event to teach anything. */
  predicate LastLesson(s: System, run: seq<Event>, i: nat) {
    i < |run| && !LessonAt(s, run, i).Keep? && forall j :: i < j < |run| ==> LessonAt(s, run, j).Keep?
  }

  lemma SameLessons(s: System, run: seq<Event>, i: nat)
    requires i < |run| - 1
    ensures LessonAt(s, run[..|run|-1], i) == LessonAt(s, run, i)
  {
    hide LessonOf, Exec;
    assert run[..|run|-1][..i] == run[..i];
  }

  lemma StillLast(s: System, run: seq<Event>, i: nat)
    requires run != [] && LastLesson(s, run[..|run|-1], i) && LessonAt(s, run, |run|-1).Keep?
    ensures LastLesson(s, run, i) && LessonAt(s, run, i) == LessonAt(s, run[..|run|-1], i)
  {
    hide LessonAt;
    SameLessons(s, run, i);
    forall j | i < j < |run| ensures LessonAt(s, run, j).Keep? {
      if j < |run| - 1 { SameLessons(s, run, j); }
    }
  }

  predicate NoLesson(s: System, run: seq<Event>) {
    forall j :: 0 <= j < |run| ==> LessonAt(s, run, j).Keep?
  }

  lemma StillNone(s: System, run: seq<Event>)
    requires run != [] && NoLesson(s, run[..|run|-1]) && LessonAt(s, run, |run|-1).Keep?
    ensures NoLesson(s, run)
  {
    hide LessonAt;
    forall j | 0 <= j < |run| ensures LessonAt(s, run, j).Keep? {
      if j < |run| - 1 { SameLessons(s, run, j); }
    }
  }

  /** In every run, the recorded writer is the one learned of last: by its declaration, by a vote, or by winning. Since
      then it has not been lost, and no event has put its position in question. If none is recorded, none has been
      learned of, or the last event that taught anything made the node forget its writer. */
  lemma {:induction false} WriterIsLastLearned(self: string, standAlone: bool, cib: Cib, run: seq<Event>)
    requires ValidRun(Initial(self, standAlone, cib), run)
    ensures var s := Initial(self, standAlone, cib);
      var writer := Exec(s, run).node.writer;
      || (writer.None? && NoLesson(s, run))
      || exists i: nat :: i < |run| && LastLesson(s, run, i) && writer == After(LessonAt(s, run, i), None)
  {
    hide Next, Enabled, LessonOf, LastLesson, NoLesson;
    if run == [] {
      assert NoLesson(Initial(self, standAlone, cib), run) by { NothingLearned(Initial(self, standAlone, cib)); }
    }
    if run != [] {
      var s := Initial(self, standAlone, cib);
      var front, k := run[..|run|-1], |run|-1;
      WriterIsLastLearned(self, standAlone, cib, front);
      StepTeaches(Exec(s, front), run[k].step, run[k].env);
      assert LessonAt(s, run, k) == LessonOf(Exec(s, front).node, run[k].step, run[k].env.active);
      hide LessonAt;
      if !LessonAt(s, run, k).Keep? {
        assert LastLesson(s, run, k) by { IsLast(s, run); }
      } else if i: nat :| i < |front| && LastLesson(s, front, i) && Exec(s, front).node.writer == After(LessonAt(s, front, i), None) {
        StillLast(s, run, i);
      } else {
        StillNone(s, run);
      }
    }
  }

  lemma NothingLearned(s: System)
    ensures NoLesson(s, [])
  {
  }

  lemma IsLast(s: System, run: seq<Event>)
    requires run != [] && !LessonAt(s, run, |run|-1).Keep?
    ensures LastLesson(s, run, |run|-1)
  {
    hide LessonAt;
  }

  // ---- Some lessons in particular ----

  /** A node that is not writer takes the sender of a writer's sync response for the writer, whatever it thought
      before; any other sync response leaves its opinion alone. */
  lemma DeclarationIsBelieved(s: System, from: string, e: Element, declares: bool, env: Env)
    requires ValidEnv(env) && !IsWriter(s.node) && !s.node.shuttingDown
    ensures var writer := Next(s, Deliver(from, SyncResponseMessage(e, declares)), env).node.writer;
      if declares then writer.Some? && Fold(writer.value) == Fold(from) else writer == s.node.writer
  {
    hide Next;
    StepTeaches(s, Deliver(from, SyncResponseMessage(e, declares)), env);
  }

  /** A node that has not lost before records the peer it has just lost to, and steps down. */
  lemma LoserRecordsWinner(s: System, peer: string, env: Env)
    requires ValidEnv(env) && !s.node.election.Lost?
    ensures var n' := Next(s, Deliver(peer, ElectionMessage(PeerBetter)), env).node;
      n'.writer == Some(peer) && n'.election.Lost?
  {
  }

  /** How an election goes on: with a vote received, when it times out, and when a voter is gone. */
  lemma ElectionGoesOn(s: System, step: Step, env: Env)
    requires ValidEnv(env) && Enabled(s, step, env)
    ensures var n, n' := s.node, Next(s, step, env).node;
      match step
      case Deliver(_, ElectionMessage(BadVote)) => n'.election == n.election
      case Deliver(_, ElectionMessage(PeerBetter)) => n'.election.Lost?
      case Deliver(_, ElectionMessage(LocalBetter)) => n'.election.InProgress?
      case Deliver(_, ElectionMessage(Counted(complete))) =>
        n'.election == (if n.election.Start? then InProgress else if n.election.InProgress? && complete then Won else n.election)
      case ElectionTimesOut => n'.election.Won?
      case ProcessGone(peer, complete) =>
        n'.election == (if n.writer.Some? && Fold(peer) == Fold(n.writer.value)
                        then (if env.active && !n.shuttingDown then InProgress else n.election)
                        else if n.election.InProgress? && complete then Won else n.election)
      case _ => true
  {
    hide WinElection, PeerUpdate, ClearMatching, PeerRemove, HandleSyncResponse, CibCallback, TimerExpired, WriteEach, PeerLost, Fold;
    WinShape(s.node, env);
  }

  // ---- A node without a writer calls an election ----

  predicate Leaderless(n: Node) {
    n.writer.None? && !IsWriter(n) && !n.shuttingDown
  }

  /** A member that knows no writer calls an election when a delay is over, when a peer is removed or lost, and when a
      value without delay is changed. */
  lemma TimerCallsElection(s: System, name: string, env: Env)
    requires Leaderless(s.node) && env.active && name in s.node.attributes
    ensures Next(s, TimerFires(name), env).node.election.InProgress?
  {
  }

  lemma RemovalCallsElection(s: System, from: string, host: string, reap: bool, env: Env)
    requires Leaderless(s.node) && env.active
    ensures Next(s, Deliver(from, RemoveMessage(Some(host), reap)), env).node.election.InProgress?
  {
    hide PeerRemove;
    RemovalKeepsWriter(s.node, host, reap, env);
  }

  lemma LossCallsElection(s: System, peer: string, isRemote: bool, env: Env)
    requires Leaderless(s.node) && env.active
    ensures Next(s, NodeLost(peer, isRemote, false), env).node.election.InProgress?
  {
    hide PeerRemove, Fold;
    RemovalKeepsWriter(s.node, peer, false, env);
  }

  /** So does one that is told of a changed value without delay. */
  lemma ChangeCallsElection(n: Node, op: Op, env: Env)
    requires Leaderless(n) && env.active && WriteDelays.ChangesOnly(n, op) && n.attributes[op.name.value].timeoutMs == 0
    ensures PeerUpdate(n, Element(true, op, []), false, env).election.InProgress?
  {
    hide Fold, PeerUpdateOne, WriteAttribute, SameText;
    var n1 := WriteDelays.ChangeIs(n, op, env);
  }

  // ---- Elections are called by votes ----

  lemma QuietlyAnnounces(n: Node, n': Node)
    requires n'.outbox == n.outbox && (n'.election.InProgress? ==> n.election.InProgress?)
    ensures Announces(n, n')
  {
  }

  lemma StartAnnounces(n: Node, env: Env)
    ensures Announces(n, StartElectionIfNeeded(n, env)) && Announces(n, CallVote(n, env))
  {
    var n' := CallVote(n, env);
    if env.active { assert n'.outbox[|n.outbox|] == Vote; }
  }

  lemma WinAnnounces(n: Node, env: Env)
    requires ValidEnv(env)
    ensures Announces(n, WinElection(n, env))
  {
    hide SyncMessage, EraseEach, WriteEach;
    WinShape(n, env);
    var n1 := PeerSync(n.(election := Won, writer := Some(n.self)), None, env);
    EraseAnnounces(n1, env.order(n1.removed));
    var n2 := EraseRemoved(n1, env);
    Corrections.WriteEachSends(n2, env.order(n2.attributes.Keys), true, false, env);
  }

  lemma {:induction false} EraseAnnounces(n: Node, hosts: seq<string>)
    ensures EraseEach(n, hosts).outbox == n.outbox
  {
    if hosts != [] {
      EraseAnnounces(n, hosts[..|hosts|-1]);
    }
  }

  lemma VoteAnnounces(n: Node, from: string, outcome: VoteOutcome, env: Env)
    requires ValidEnv(env)
    ensures Announces(n, HandleElectionOp(n, from, outcome, env))
  {
    hide WinElection, Announces;
    WinAnnounces(n, env);
    QuietlyAnnounces(n, n);
    var n0, n1 := n.(election := Start, writer := None), n.(writer := None);
    QuietlyAnnounces(n, n0);
    QuietlyAnnounces(n, n1);
    StartAnnounces(n0, env);
    StartAnnounces(n1, env);
    AnnouncesTransitive(n, n0, CallVote(n0, env));
    AnnouncesTransitive(n, n1, CallVote(n1, env));
    if !outcome.LocalBetter? && !(outcome.Counted? && (n.election.Start? || n.election.InProgress?)) {
      QuietlyAnnounces(n, HandleElectionOp(n, from, outcome, env));
    }
  }

  lemma RemoveVoterAnnounces(n: Node, peer: string, complete: bool, env: Env)
    requires ValidEnv(env)
    ensures Announces(n, RemoveVoter(n, peer, complete, env))
  {
    hide WinElection, Announces, Fold;
    WinAnnounces(n, env);
    QuietlyAnnounces(n, n);
    QuietlyAnnounces(n, n.(writer := None));
    StartAnnounces(n.(writer := None), env);
    AnnouncesTransitive(n, n.(writer := None), StartElectionIfNeeded(n.(writer := None), env));
  }

  lemma RemoveAnnounces(n: Node, host: string, uncache: bool, env: Env)
    ensures Announces(n, PeerRemove(n, host, uncache, env))
  {
    hide Announces, Fold, DropHost;
    var n1 := n.(attributes := DropHost(n.attributes, Fold(host)), removed := n.removed + {Fold(host)});
    QuietlyAnnounces(n, n1);
    StartAnnounces(n1, env);
    var n2 := StartElectionIfNeeded(n1, env);
    AnnouncesTransitive(n, n1, n2);
    if IsWriter(n) {
      QuietlyAnnounces(n, PeerRemove(n, host, uncache, env));
    } else {
      QuietlyAnnounces(n2, PeerRemove(n, host, uncache, env));
      AnnouncesTransitive(n, n2, PeerRemove(n, host, uncache, env));
    }
  }

  lemma WriteOrElectAnnounces(n: Node, name: string, env: Env)
    ensures Announces(n, WriteOrElect(n, name, env))
  {
    hide Announces, WriteAttribute;
    StartAnnounces(n, env);
    if IsWriter(n) {
      WriteLed(n, name, false, env);
      Corrections.WriteSends(n, name, false, env);
      WriterWrites(n, name, env);
      QuietlyAnnounces(n, WriteAttribute(n, name, false, env));
    }
  }

  lemma WriterWrites(n: Node, name: string, env: Env)
    requires IsWriter(n)
    ensures IsWriter(WriteAttribute(n, name, false, env))
  {
    WriteGrows(n, name, false, env);
  }

  lemma GrowsAnnounces(n: Node, n': Node)
    requires Grows(n, n')
    ensures Announces(n, n')
  {
    hide Announces;
  }

  lemma ReceiveAnnounces(n: Node, from: string, m: PeerMessage, env: Env)
    requires ValidEnv(env)
    ensures Announces(n, Receive(n, from, m, env))
  {
    hide HandleElectionOp, PeerUpdate, PeerRemove, PeerSyncResponse, ClearMatching, Fold, Grows, Announces, SameText;
    QuietlyAnnounces(n, n);
    match m
    case ElectionMessage(outcome) => VoteAnnounces(n, from, outcome, env);
    case UpdateMessage(e) => PeerUpdateGrows(n, e, false, env); GrowsAnnounces(n, PeerUpdate(n, e, false, env));
    case ClearFailureMessage(e, matching) =>
      ClearMatchingGrows(n, e, env.order(n.attributes.Keys), matching, env);
      GrowsAnnounces(n, ClearMatching(n, e, env.order(n.attributes.Keys), matching, env));
    case RemoveMessage(host, reap) => if host.Some? { RemoveAnnounces(n, host.value, reap, env); }
    case SyncResponseMessage(e, declares) =>
      var n1 := CheckForNewWriter(n, from, declares, env);
      StartAnnounces(n, env);
      QuietlyAnnounces(n, n.(writer := Some(from)));
      SyncResponseGrows(n1, declares, e, env);
      var n2 := PeerSyncResponse(n1, declares, e, env);
      GrowsAnnounces(n1, n2);
      AnnouncesTransitive(n, n1, n2);
  }

  lemma TimerAnnounces(n: Node, name: string, env: Env)
    ensures Announces(n, TimerExpired(n, name, env))
  {
    hide Announces, WriteOrElect;
    QuietlyAnnounces(n, n);
    if name in n.attributes {
      var n1 := SetAttr(n, name, n.attributes[name].(timer := Idle));
      QuietlyAnnounces(n, n1);
      WriteOrElectAnnounces(n1, name, env);
      AnnouncesTransitive(n, n1, WriteOrElect(n1, name, env));
    }
  }

  lemma CallbackAnnounces(n: Node, call: int, ok: bool, env: Env)
    ensures Announces(n, CibCallback(n, call, ok, env))
  {
    hide WriteAttribute, Announces, Confirmed, AfterFailure;
    if call in n.callbacks && n.callbacks[call] in n.attributes {
      var name := n.callbacks[call];
      var n1 := SetAttr(n.(callbacks := n.callbacks - {call}), name, Confirmed(n.attributes[name])).(lastDone := call);
      Corrections.WriteSends(n1, name, false, env);
      WriteElection(n1, name, env);
    }
    QuietlyAnnounces(n, CibCallback(n, call, ok, env));
  }

  lemma WriteElection(n: Node, name: string, env: Env)
    ensures WriteAttribute(n, name, false, env).election == n.election
  {
    hide Snapshot, Prepared, LearnedIds, AfterFailure;
  }

  lemma WriteEachAnnounces(n: Node, names: seq<string>, all: bool, noDelay: bool, env: Env)
    ensures Announces(n, WriteEach(n, names, all, noDelay, env))
  {
    hide Announces, WriteEach;
    Corrections.WriteEachSends(n, names, all, noDelay, env);
    WriteEachElection(n, names, all, noDelay, env);
    QuietlyAnnounces(n, WriteEach(n, names, all, noDelay, env));
  }

  lemma {:induction false} WriteEachElection(n: Node, names: seq<string>, all: bool, noDelay: bool, env: Env)
    ensures WriteEach(n, names, all, noDelay, env).election == n.election
  {
    hide Snapshot, Prepared, LearnedIds, AfterFailure;
    if names != [] {
      WriteEachElection(n, names[..|names|-1], all, noDelay, env);
    }
  }

  /** Messages are only added in any step, and whenever an election is under way that was not before, a vote has been
      sent. */
  lemma VoteIsCast(s: System, step: Step, env: Env)
    requires ValidEnv(env)
    ensures Announces(s.node, Next(s, step, env).node)
  {
    hide Receive, CibCallback, TimerExpired, WinElection, WriteEach, PeerRemove, RemoveVoter, SyncMessage, Announces;
    var n := s.node;
    QuietlyAnnounces(n, n);
    match step
    case Deliver(from, m) => ReceiveAnnounces(n, from, m, env);
    case CibReplies => if s.told < |s.results| { CallbackAnnounces(n, s.told + 1, s.results[s.told], env); }
    case CallTimesOut(call) => CallbackAnnounces(n, call, false, env);
    case TimerFires(name) => TimerAnnounces(n, name, env);
    case ElectionTimesOut => WinAnnounces(n, env);
    case ClientRefresh => WriteEachAnnounces(n, env.order(n.attributes.Keys), true, true, env);
    case UnsafeCibChange => WriteEachAnnounces(n, env.order(n.attributes.Keys), true, false, env);
    case NodeLost(peer, isRemote, complete) =>
      RemoveAnnounces(n, peer, false, env);
      var n1 := PeerRemove(n, peer, false, env);
      RemoveVoterAnnounces(n1, peer, complete, env);
      AnnouncesTransitive(n, n1, RemoveVoter(n1, peer, complete, env));
    case ProcessGone(peer, complete) => RemoveVoterAnnounces(n, peer, complete, env);
    case NodeJoined(peer) => assert Announces(n, PeerJoined(n, peer, env)) by { JoinAnnounces(n, peer, env); }
    case _ => QuietlyAnnounces(n, NodeStep(s, step, env));
  }

  lemma JoinAnnounces(n: Node, peer: string, env: Env)
    ensures Announces(n, PeerJoined(n, peer, env))
  {
    hide SyncMessage;
  }
}
