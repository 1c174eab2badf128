/** The attribute manager's object through a whole run, with the CIB that serves it: the main results, on the
    object's own fields. */
module ManagerRuns {
  import opened Common
  import opened Model
  import CibWrites
  import opened Daemon
  import opened AttributeManager
  import WriterRuns
  import Succession

  /** Events happen one after the other. In the end, no change at the writer is forgotten, what is quiescent agrees
      with the CIB, and the writer does not take another node for the writer. */
  method Live(self: string, standAlone: bool, start: Cib, run: seq<Event>)
    returns (m: Manager, cib: Cib, results: seq<bool>, told: nat)
    requires ValidRun(Initial(self, standAlone, start), run)
    ensures fresh(m) && System(m.State(), cib, results, told) == Exec(Initial(self, standAlone, start), run)
    ensures m.election.Won? ==> forall name :: name in m.attributes && m.attributes[name].changed ==>
      m.attributes[name].update != 0 || m.attributes[name].timer.Running?
    ensures m.election.Won? && !m.standAlone ==> forall name, h ::
      (&& name in m.attributes && !m.attributes[name].isPrivate && !m.attributes[name].nodeUnknown
       && m.attributes[name].update == 0 && !m.attributes[name].timer.Running?
       && h in m.attributes[name].values && !m.attributes[name].values[h].blank)
      ==> Lookup(cib, (name, h)) == m.attributes[name].values[h].current
    ensures m.election.Won? && m.writer.Some? ==> Fold(m.writer.value) == Fold(m.self)
  {
    hide NodeStep, Enabled, ApplyRequest;
    m := new Manager(self, standAlone);
    cib, results, told := start, [], 0;
    ghost var s0 := Initial(self, standAlone, start);
    for i := 0 to |run|
      invariant fresh(m) && ValidRun(s0, run[..i])
      invariant System(m.State(), cib, results, told) == Exec(s0, run[..i])
    {
      var e := run[i];
      PrefixIsValid(s0, run, i + 1);
      assert run[..i+1][..i] == run[..i];
      SameNodeStep(System(m.State(), cib, results, told), e.step, e.env);
      m.Handle(e.step, results, told, e.env);
      match e.step
      case CibProcesses(ok) =>
        CibStepsAside(Exec(s0, run[..i]), e.step, e.env);
        if |results| < |m.log| {
          if ok { cib := ApplyRequest(cib, m.log[|results|]); }
          results := results + [ok];
        }
      case CibReplies => if told < |results| { told := told + 1; }
      case OtherWriterEdits(edited) =>
        CibStepsAside(Exec(s0, run[..i]), e.step, e.env);
        cib := edited;
      case _ =>
    }
    assert run[..|run|] == run;
    Promised(self, standAlone, start, run, m.State(), cib);
  }

  lemma {:induction false} PrefixIsValid(s: System, run: seq<Event>, i: nat)
    requires ValidRun(s, run) && i <= |run|
    ensures ValidRun(s, run[..i])
    decreases |run|
  {
    if i < |run| {
      PrefixIsValid(s, run[..|run|-1], i);
      assert run[..|run|-1][..i] == run[..i];
    } else {
      assert run[..i] == run;
    }
  }

  /** What the node does does not depend on what the CIB holds. */
  lemma SameNodeStep(s: System, step: Step, env: Env)
    ensures NodeStep(s.(cib := map[]), step, env) == NodeStep(s, step, env)
  {
    hide Receive, CibWrites.CibCallback, CibWrites.TimerExpired, CibWrites.WriteAttributes, WinElection, PeerLost,
      RemoveVoter, PeerJoined;
  }

  lemma CibStepsAside(s: System, step: Step, env: Env)
    requires step.CibProcesses? || step.OtherWriterEdits?
    ensures NodeStep(s, step, env) == s.node
  {
  }

  lemma Promised(self: string, standAlone: bool, start: Cib, run: seq<Event>, n: Node, cib: Cib)
    requires ValidRun(Initial(self, standAlone, start), run)
    requires n == Exec(Initial(self, standAlone, start), run).node && cib == Exec(Initial(self, standAlone, start), run).cib
    ensures IsWriter(n) ==> forall name :: name in n.attributes && n.attributes[name].changed ==>
      n.attributes[name].update != 0 || n.attributes[name].timer.Running?
    ensures IsWriter(n) && !n.standAlone ==> forall name, h ::
      (&& name in n.attributes && !n.attributes[name].isPrivate && !n.attributes[name].nodeUnknown
       && n.attributes[name].update == 0 && !n.attributes[name].timer.Running?
       && h in n.attributes[name].values && !n.attributes[name].values[h].blank)
      ==> Lookup(cib, (name, h)) == n.attributes[name].values[h].current
    ensures Succession.KnowsItself(n)
  {
    hide Exec;
    forall name | IsWriter(n) && name in n.attributes && n.attributes[name].changed
      ensures n.attributes[name].update != 0 || n.attributes[name].timer.Running?
    {
      WriterRuns.NoLostWakeUp(self, standAlone, start, run, name);
    }
    forall name, h | IsWriter(n) && !n.standAlone && name in n.attributes && !n.attributes[name].isPrivate
                     && !n.attributes[name].nodeUnknown && n.attributes[name].update == 0
                     && !n.attributes[name].timer.Running?
                     && h in n.attributes[name].values && !n.attributes[name].values[h].blank
      ensures Lookup(cib, (name, h)) == n.attributes[name].values[h].current
    {
      WriterRuns.QuiescentAgreement(self, standAlone, start, run, name, h);
    }
    Succession.WriterKnowsItself(self, standAlone, start, run);
  }
}
