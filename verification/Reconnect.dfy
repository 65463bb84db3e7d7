/** Session status and auto-reconnect (internal/session/whatsmeow/manager.go and
    internal/session/whatsmeow/reconnect.go).

    A status transition happens under the session mutex, but the reconnect policy it calls for
    runs after the mutex is dropped, and a cancelled loop is told so later still. Each
    critical section is one step here; what a goroutine still has to do is kept as a pending
    task. */
module Reconnect {
  import opened Wrappers

  type RunId = nat
  type TaskId = nat

  datatype Status = Disconnected | Pairing | Connected | Error

  /** The fields of instanceSession the transitions work on. */
  datatype Fields = Fields(
    status: Status, jid: string, paired: bool, terminal: bool, lastReason: string, run: Option<RunId>)

  predicate IsTerminal(status: Status, reason: string) {
    status == Error || (status == Disconnected && reason != "")
  }

  /** A plain drop after a terminal state, or a repeated report, changes nothing. */
  predicate Ignored(f: Fields, status: Status, reason: string) {
    || (status == Disconnected && reason == "" && f.terminal)
    || (f.status == status && f.lastReason == reason)
  }

  function Transitioned(f: Fields, status: Status, jid: string, reason: string): Fields {
    if Ignored(f, status, reason) then f
    else f.(status := status, lastReason := reason, terminal := IsTerminal(status, reason),
            jid := if jid != "" then jid else f.jid,
            paired := f.paired || jid != "")
  }

  predicate Eligible(f: Fields) {
    f.paired && !f.terminal && f.run.None?
  }

  class InstanceSession {
    var status: Status
    var jid: string
    var paired: bool
    var terminal: bool
    var lastReason: string
    var run: Option<RunId>

    function View(): Fields
      reads this
    {
      Fields(status, jid, paired, terminal, lastReason, run)
    }

    /** A session starts disconnected; a stored device makes it paired. */
    constructor (jid: string)
      ensures View() == Fields(Disconnected, jid, jid != "", false, "", None)
    {
      status, this.jid, paired, terminal, lastReason, run := Disconnected, jid, jid != "", false, "", None;
    }

    /** The critical section of setStatus; `policy` tells whether the policy has to run. */
    method SetStatus(to: Status, newJid: string, reason: string) returns (policy: bool)
      modifies this
      ensures View() == Transitioned(old(View()), to, newJid, reason)
      ensures policy == !Ignored(old(View()), to, reason)
      ensures policy <==> !(to == Disconnected && reason == "" && old(terminal)) && !(old(status) == to && old(lastReason) == reason)
      ensures !policy ==> View() == old(View())
      ensures policy ==> status == to && lastReason == reason && run == old(run)
      ensures policy ==> (terminal <==> to == Error || (to == Disconnected && reason != ""))
      ensures policy && newJid != "" ==> jid == newJid && paired
      ensures policy && newJid == "" ==> jid == old(jid) && paired == old(paired)
    {
      if to == Disconnected && reason == "" && terminal {
        return false;
      }
      if status == to && lastReason == reason {
        return false;
      }
      status := to;
      lastReason := reason;
      terminal := to == Error || (to == Disconnected && reason != "");
      if newJid != "" {
        jid := newJid;
        paired := true;
      }
      return true;
    }

    method ScheduleReconnect(spare: RunId) returns (started: bool)
      modifies this
      ensures started <==> old(paired) && !old(terminal) && old(run).None?
      ensures View() == if started then old(View()).(run := Some(spare)) else old(View())
    {
      if !paired || terminal || run.Some? {
        return false;
      }
      run := Some(spare);
      return true;
    }

    /** The critical section of cancelReconnect: the caller takes the handle and cancels it after. */
    method TakeReconnect() returns (handle: Option<RunId>)
      modifies this
      ensures handle == old(run) && View() == old(View()).(run := None)
    {
      handle := run;
      run := None;
    }

    /** The deferred section of a loop that ends. */
    method FinishLoop(mine: RunId)
      modifies this
      ensures View() == if old(run) == Some(mine) then old(View()).(run := None) else old(View())
    {
      if run == Some(mine) {
        run := None;
      }
    }

    /** Disconnect forgets the paired identity before it reports the drop. */
    method Forget()
      modifies this
      ensures View() == old(View()).(jid := "", paired := false)
    {
      jid := "";
      paired := false;
    }
  }

  // ---- Interleavings ------------------------------------------------------------------

  /** What a goroutine has left to do after it dropped the mutex. */
  datatype Task =
    | Policy(status: Status, reason: string)
    | Stop(run: RunId)

  /** `loops` holds the loops that still run, with whether they were told to stop. */
  datatype State = State(f: Fields, loops: map<RunId, bool>, tasks: map<TaskId, Task>)

  datatype Step =
    | Set(k: TaskId, status: Status, jid: string, reason: string)
    | RunPolicy(k: TaskId, spare: RunId)
    | CancelCall(k: TaskId)
    | Cancel(k: TaskId)
    | Finish(r: RunId)
    | Forget

  ghost predicate Enabled(s: State, step: Step) {
    match step
    case Set(k, _, _, _) => k !in s.tasks
    case RunPolicy(k, spare) => k in s.tasks && s.tasks[k].Policy? && spare !in s.loops && Unused(s, spare)
    case CancelCall(k) => k !in s.tasks
    case Cancel(k) => k in s.tasks && s.tasks[k].Stop?
    case Finish(r) => r in s.loops
    case Forget => true
  }

  /** A new loop gets a handle no pending task refers to. */
  ghost predicate Unused(s: State, r: RunId) {
    forall k :: k in s.tasks ==> s.tasks[k] != Stop(r)
  }

  /** cancelReconnect up to the end of its critical section. */
  function HandleTaken(s: State, k: TaskId): State {
    State(s.f.(run := None), s.loops,
          if s.f.run.Some? then s.tasks[k := Stop(s.f.run.value)] else s.tasks - {k})
  }

  ghost function Apply(s: State, step: Step): State
    requires Enabled(s, step)
  {
    match step
    case Set(k, status, jid, reason) =>
      State(Transitioned(s.f, status, jid, reason), s.loops,
            if Ignored(s.f, status, reason) then s.tasks else s.tasks[k := Policy(status, reason)])
    case RunPolicy(k, spare) =>
      if s.tasks[k].status != Disconnected || s.tasks[k].reason != "" then HandleTaken(s, k)
      else if Eligible(s.f) then State(s.f.(run := Some(spare)), s.loops[spare := false], s.tasks - {k})
      else s.(tasks := s.tasks - {k})
    case CancelCall(k) => HandleTaken(s, k)
    case Cancel(k) =>
      var r := s.tasks[k].run;
      s.(loops := if r in s.loops then s.loops[r := true] else s.loops, tasks := s.tasks - {k})
    case Finish(r) =>
      State(if s.f.run == Some(r) then s.f.(run := None) else s.f, s.loops - {r}, s.tasks)
    case Forget => s.(f := s.f.(jid := "", paired := false))
  }

  ghost predicate StopPending(s: State, r: RunId) {
    exists k :: k in s.tasks && s.tasks[k] == Stop(r)
  }

  ghost predicate TerminalPolicyPending(s: State) {
    exists k :: k in s.tasks && s.tasks[k].Policy? && IsTerminal(s.tasks[k].status, s.tasks[k].reason)
  }

  /** The loops nobody has stopped are the registered one and those somebody is about to stop. */
  ghost predicate LoopsAccounted(s: State) {
    && (s.f.run.Some? ==> s.f.run.value in s.loops && !s.loops[s.f.run.value] && !StopPending(s, s.f.run.value))
    && (forall r :: r in s.loops && !s.loops[r] && s.f.run != Some(r) ==> StopPending(s, r))
  }

  ghost predicate Inv(s: State) {
    && s.f.terminal == IsTerminal(s.f.status, s.f.lastReason)
    && (s.f.terminal && s.f.run.Some? ==> TerminalPolicyPending(s))
    && LoopsAccounted(s)
  }

  /** A task that is not a stop comes or goes; the stops stay. */
  lemma SameStops(s: State, t: State)
    requires LoopsAccounted(s) && t.loops == s.loops && t.f.run == s.f.run
    requires forall r :: StopPending(s, r) <==> StopPending(t, r)
    ensures LoopsAccounted(t)
  {
  }

  lemma SetKeepsInv(s: State, step: Step)
    requires Inv(s) && Enabled(s, step) && step.Set?
    ensures Inv(Apply(s, step))
  {
    var t := Apply(s, step);
    forall r
      ensures StopPending(s, r) <==> StopPending(t, r)
    {
      if StopPending(s, r) {
        var k :| k in s.tasks && s.tasks[k] == Stop(r);
        assert t.tasks[k] == Stop(r);
      }
    }
    SameStops(s, t);
    if t.f.terminal && t.f.run.Some? {
      if Ignored(s.f, step.status, step.reason) {
        assert t.tasks == s.tasks;
      } else {
        assert t.tasks[step.k] == Policy(step.status, step.reason);
      }
    }
  }

  lemma TakenHandleKeepsInv(s: State, k: TaskId)
    requires Inv(s) && (k in s.tasks ==> s.tasks[k].Policy?)
    ensures Inv(HandleTaken(s, k))
  {
    var t := HandleTaken(s, k);
    forall r | r in t.loops && !t.loops[r]
      ensures StopPending(t, r)
    {
      if s.f.run == Some(r) {
        assert t.tasks[k] == Stop(r);
      } else {
        var j :| j in s.tasks && s.tasks[j] == Stop(r);
        assert j != k && t.tasks[j] == Stop(r);
      }
    }
  }

  lemma ScheduleKeepsInv(s: State, k: TaskId, spare: RunId)
    requires Inv(s) && Enabled(s, RunPolicy(k, spare)) && s.tasks[k] == Policy(Disconnected, "")
    ensures Inv(Apply(s, RunPolicy(k, spare)))
  {
    var t := Apply(s, RunPolicy(k, spare));
    forall r | StopPending(s, r)
      ensures StopPending(t, r)
    {
      var j :| j in s.tasks && s.tasks[j] == Stop(r);
      assert j in t.tasks && t.tasks[j] == Stop(r);
    }
    if t.f.terminal && t.f.run.Some? {
      var j :| j in s.tasks && s.tasks[j].Policy? && IsTerminal(s.tasks[j].status, s.tasks[j].reason);
      assert j in t.tasks && t.tasks[j] == s.tasks[j];
    }
  }

  lemma CancelKeepsInv(s: State, k: TaskId)
    requires Inv(s) && Enabled(s, Cancel(k))
    ensures Inv(Apply(s, Cancel(k)))
  {
    var t := Apply(s, Cancel(k));
    assert s.tasks[k] == Stop(s.tasks[k].run) && StopPending(s, s.tasks[k].run);
    forall r | StopPending(s, r) && r != s.tasks[k].run
      ensures StopPending(t, r)
    {
      var j :| j in s.tasks && s.tasks[j] == Stop(r);
      assert j in t.tasks && t.tasks[j] == Stop(r);
    }
    if t.f.terminal && t.f.run.Some? {
      var j :| j in s.tasks && s.tasks[j].Policy? && IsTerminal(s.tasks[j].status, s.tasks[j].reason);
      assert j in t.tasks && t.tasks[j] == s.tasks[j];
    }
  }

  lemma StepKeepsInv(s: State, step: Step)
    requires Inv(s) && Enabled(s, step)
    ensures Inv(Apply(s, step))
  {
    if step.Set? {
      SetKeepsInv(s, step);
    } else if step.CancelCall? {
      TakenHandleKeepsInv(s, step.k);
    } else if step.RunPolicy? {
      if s.tasks[step.k] == Policy(Disconnected, "") {
        ScheduleKeepsInv(s, step.k, step.spare);
      } else {
        TakenHandleKeepsInv(s, step.k);
      }
    } else if step.Cancel? {
      CancelKeepsInv(s, step.k);
    } else {
      var t := Apply(s, step);
      assert forall r :: StopPending(t, r) <==> StopPending(s, r);
      assert TerminalPolicyPending(s) ==> TerminalPolicyPending(t);
    }
  }

  ghost predicate Run(s: State, steps: seq<Step>, t: State)
    decreases |steps|
  {
    if steps == [] then s == t
    else Enabled(s, steps[0]) && Run(Apply(s, steps[0]), steps[1..], t)
  }

  ghost predicate Initial(s: State) {
    s.f == Fields(Disconnected, s.f.jid, s.f.jid != "", false, "", None) && s.loops == map[] && s.tasks == map[]
  }

  lemma {:induction false} RunKeepsInv(s: State, steps: seq<Step>, t: State)
    requires Inv(s) && Run(s, steps, t)
    ensures Inv(t)
    decreases |steps|
  {
    if steps != [] {
      StepKeepsInv(s, steps[0]);
      RunKeepsInv(Apply(s, steps[0]), steps[1..], t);
    }
  }

  /** In every interleaving the terminal flag says what the status and the reason say, and a
      registered loop outlives a terminal transition only while the cancel of a terminal
      transition is still to come. */
  lemma TerminalWindow(s: State, steps: seq<Step>, t: State)
    requires Initial(s) && Run(s, steps, t)
    ensures t.f.terminal <==> t.f.status == Error || (t.f.status == Disconnected && t.f.lastReason != "")
    ensures t.f.terminal && t.f.run.Some? ==> TerminalPolicyPending(t)
  {
    RunKeepsInv(s, steps, t);
  }

  /** A session can be reconnected exactly while it has a JID. */
  lemma {:induction false} PairedMeansJid(s: State, steps: seq<Step>, t: State)
    requires Run(s, steps, t) && (s.f.paired <==> s.f.jid != "")
    ensures t.f.paired <==> t.f.jid != ""
    decreases |steps|
  {
    if steps != [] {
      PairedMeansJid(Apply(s, steps[0]), steps[1..], t);
    }
  }

  /** What a report makes of the JID: a new one replaces it, and only Disconnect forgets it. */
  lemma JidChangesExactly(s: State, step: Step)
    requires Enabled(s, step) && Apply(s, step).f.jid != s.f.jid
    ensures step.Forget? || (step.Set? && step.jid != "" && Apply(s, step).f.jid == step.jid && Apply(s, step).f.paired)
    ensures step.Forget? ==> Apply(s, step).f.jid == "" && !Apply(s, step).f.paired
  {
  }

  /** The policy of a transition: a plain drop starts a loop exactly when the session is paired, not
      terminal and without one; every other transition takes the registered loop to stop it. */
  lemma PolicyIsExact(s: State, k: TaskId, spare: RunId)
    requires Enabled(s, RunPolicy(k, spare))
    ensures var (t, task) := (Apply(s, RunPolicy(k, spare)), s.tasks[k]);
      if task.status == Disconnected && task.reason == "" then
        if s.f.paired && !s.f.terminal && s.f.run.None? then
          t.f == s.f.(run := Some(spare)) && t.loops == s.loops[spare := false] && k !in t.tasks
        else t.f == s.f && t.loops == s.loops && k !in t.tasks
      else
        && t.f == s.f.(run := None) && t.loops == s.loops
        && (if s.f.run.Some? then k in t.tasks && t.tasks[k] == Stop(s.f.run.value) else k !in t.tasks)
  {
  }

  /** No loop leaks: a loop that nobody stopped is the registered one, or its canceller still
      holds the handle. With no canceller in flight there is one such loop at most. */
  lemma NoLeakedLoop(s: State, steps: seq<Step>, t: State, r: RunId, q: RunId)
    requires Initial(s) && Run(s, steps, t)
    requires r in t.loops && !t.loops[r] && q in t.loops && !t.loops[q]
    ensures t.f.run == Some(r) || StopPending(t, r)
    ensures !StopPending(t, r) && !StopPending(t, q) ==> r == q
  {
    RunKeepsInv(s, steps, t);
  }

  /** Once the goroutines are done a terminal session has no loop that could bring it back. */
  lemma QuietTerminalSession(s: State, steps: seq<Step>, t: State)
    requires Initial(s) && Run(s, steps, t) && t.f.terminal && t.tasks == map[]
    ensures t.f.run == None && forall r :: r in t.loops ==> t.loops[r]
  {
    RunKeepsInv(s, steps, t);
  }

  /** A loop that ends takes its own handle with it and leaves a newer one registered, whose
      loop still runs. */
  lemma FinishSparesNewerLoop(s: State, steps: seq<Step>, t: State, r: RunId)
    requires Initial(s) && Run(s, steps, t) && r in t.loops
    ensures var u := Apply(t, Finish(r));
      && u.f.run != Some(r)
      && (t.f.run != Some(r) ==> u.f == t.f)
      && (u.f.run.Some? ==> u.f.run.value in u.loops && !u.loops[u.f.run.value])
  {
    RunKeepsInv(s, steps, t);
  }

  /** Terminal states stick: only a report of pairing or connection leaves one, and a plain
      drop changes nothing at all. */
  lemma TerminalSticks(s: State, step: Step)
    requires Inv(s) && Enabled(s, step) && s.f.terminal
    ensures !Apply(s, step).f.terminal ==> step.Set? && (step.status == Connected || step.status == Pairing)
    ensures step.Set? && step.status == Disconnected && step.reason == "" ==> Apply(s, step) == s
  {
  }
}
