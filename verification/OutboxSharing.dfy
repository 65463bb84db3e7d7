/** When two workers hold one message at a time (internal/message/outbox.go and the unguarded
    updates of internal/storage/postgres/messages.go).

    A recovery that takes the row of a live copy does not share the message yet: the copy may still
    write or die first. TwoWorkersExactly says for every run what it takes, with no hypothesis on
    timing. */
module OutboxSharing {
  import opened MessageQueue
  import opened Outbox

  /** The states a run goes through. */
  ghost predicate Trace(states: seq<State>, steps: seq<Step>) {
    && |states| == |steps| + 1
    && forall i :: 0 <= i < |steps| ==> Enabled(states[i], steps[i]) && states[i + 1] == Apply(states[i], steps[i])
  }

  /** No message is in the hands of two workers. */
  ghost predicate Unshared(s: State) {
    forall c, d :: c in s.copies && d in s.copies && s.copies[c].msg.id == s.copies[d].msg.id ==> c == d
  }

  predicate Holds(s: State, c: CopyId, id: MsgId) {
    c in s.copies && s.copies[c].msg.id == id
  }

  /** A live copy is of a row in sending, or of one that a recovery took from it; a copy on its way
      to its event is of a row in its final status. */
  ghost predicate CopyKept(s: State, copy: Copy) {
    && copy.msg.id in s.rows
    && var status := s.rows[copy.msg.id].status;
       if Live(copy.stage) then status == Sending || status == Queued else Final(status)
  }

  ghost predicate Kept(s: State) {
    forall c :: c in s.copies ==> CopyKept(s, s.copies[c])
  }

  /** The row of the copy was taken from it. */
  predicate Orphaned(s: State, c: CopyId) {
    c in s.copies && s.copies[c].msg.id in s.rows && s.rows[s.copies[c].msg.id].status == Queued
  }

  /** The copy makes its Mark call, reports, or is lost with its worker. */
  predicate LetsGo(step: Step, c: CopyId) {
    (step.Record? || step.Emit? || step.Die?) && step.c == c
  }

  // ---- One step -----------------------------------------------------------------------------

  /** While messages are unshared, only a claim can share one, and it does exactly when there is
      still a copy of what it takes. */
  lemma ClaimsShareExactly(s: State, step: Step)
    requires Unshared(s) && Enabled(s, step)
    ensures Unshared(Apply(s, step)) <==> !(step.ClaimOne? && exists c :: Holds(s, c, step.id))
  {
    var t := Apply(s, step);
    if step.ClaimOne? {
      if c :| Holds(s, c, step.id) {
        assert t.copies[c].msg.id == t.copies[step.c].msg.id && c != step.c;
      } else {
        assert forall d :: d in s.copies ==> !Holds(s, d, step.id);
      }
    } else {
      assert forall d :: d in t.copies ==> d in s.copies && t.copies[d].msg == s.copies[d].msg;
    }
  }

  lemma CopyStaysKept(s: State, step: Step, d: CopyId)
    requires Kept(s) && Unshared(s) && Enabled(s, step) && Unshared(Apply(s, step)) && d in Apply(s, step).copies
    ensures CopyKept(Apply(s, step), Apply(s, step).copies[d])
  {
    assert d in s.copies ==> CopyKept(s, s.copies[d]);
    if step.ClaimOne? {
      ClaimsShareExactly(s, step);
      assert !Holds(s, d, step.id);
    } else if step.Record? {
      assert CopyKept(s, s.copies[step.c]);
    }
  }

  lemma StepKeepsKept(s: State, step: Step)
    requires Kept(s) && Unshared(s) && Enabled(s, step) && Unshared(Apply(s, step))
    ensures Kept(Apply(s, step))
  {
    forall d | d in Apply(s, step).copies
      ensures CopyKept(Apply(s, step), Apply(s, step).copies[d])
    {
      CopyStaysKept(s, step, d);
    }
  }

  /** A copy loses its row exactly to a recovery. */
  lemma RecoveriesOrphanExactly(s: State, step: Step, c: CopyId)
    requires Kept(s) && Unshared(s) && Enabled(s, step) && c in Apply(s, step).copies && !Orphaned(s, c)
    ensures Orphaned(Apply(s, step), c) <==> step.Recover? && Holds(s, c, step.id)
  {
    assert c in s.copies ==> CopyKept(s, s.copies[c]);
    if step.Record? {
      assert CopyKept(s, s.copies[step.c]);
    }
  }

  /** A copy that lets go is gone, or its row is final. */
  lemma LettingGoIsFinal(s: State, step: Step, c: CopyId)
    requires Kept(s) && Enabled(s, step) && LetsGo(step, c)
    ensures !Orphaned(Apply(s, step), c)
  {
    assert CopyKept(s, s.copies[c]);
  }

  lemma CopyStays(s: State, step: Step, c: CopyId)
    requires Enabled(s, step) && c in s.copies && !LetsGo(step, c)
    ensures c in Apply(s, step).copies && Apply(s, step).copies[c].msg == s.copies[c].msg
  {
  }

  // ---- Whole runs ---------------------------------------------------------------------------

  /** Recovery i takes the row of the live copy c, and claim j hands the message out again before
      c lets go of it. */
  ghost predicate TakenOver(states: seq<State>, steps: seq<Step>, i: nat, j: nat, c: CopyId)
    requires Trace(states, steps)
  {
    && i < j < |steps|
    && steps[i].Recover? && Holds(states[i], c, steps[i].id) && Live(states[i].copies[c].stage)
    && steps[j].ClaimOne? && steps[j].id == steps[i].id
    && forall m :: i < m < j ==> !LetsGo(steps[m], c)
  }

  ghost predicate UnsharedUpTo(states: seq<State>, n: nat) {
    forall m :: 0 <= m <= n && m < |states| ==> Unshared(states[m])
  }

  lemma {:induction false} StaysKept(states: seq<State>, steps: seq<Step>, n: nat)
    requires Trace(states, steps) && states[0] == EMPTY && n <= |steps| && UnsharedUpTo(states, n)
    ensures Kept(states[n])
  {
    if n > 0 {
      StaysKept(states, steps, n - 1);
      assert states[n - 1 + 1] == Apply(states[n - 1], steps[n - 1]);
      StepKeepsKept(states[n - 1], steps[n - 1]);
    }
  }

  /** One step back from an orphaned copy: it was one already, or this is the recovery. */
  lemma OrphanedBefore(s: State, step: Step, c: CopyId)
    requires Kept(s) && Unshared(s) && Enabled(s, step) && Orphaned(Apply(s, step), c)
    ensures !LetsGo(step, c)
    ensures Orphaned(s, c) ==> s.copies[c].msg == Apply(s, step).copies[c].msg
    ensures !Orphaned(s, c) ==>
              step.Recover? && Holds(s, c, step.id) && Live(s.copies[c].stage) && step.id == Apply(s, step).copies[c].msg.id
  {
    if LetsGo(step, c) {
      LettingGoIsFinal(s, step, c);
    }
    if Orphaned(s, c) {
      CopyStays(s, step, c);
    } else {
      RecoveriesOrphanExactly(s, step, c);
      assert CopyKept(s, s.copies[c]);
      CopyStays(s, step, c);
    }
  }

  lemma {:induction false} WhenOrphaned(states: seq<State>, steps: seq<Step>, n: nat, c: CopyId) returns (i: nat)
    requires Trace(states, steps) && states[0] == EMPTY && n <= |steps| && UnsharedUpTo(states, n)
    requires Orphaned(states[n], c)
    ensures i < n && steps[i].Recover? && Holds(states[i], c, steps[i].id) && Live(states[i].copies[c].stage)
    ensures steps[i].id == states[n].copies[c].msg.id
    ensures forall m :: i < m < n ==> !LetsGo(steps[m], c)
    decreases n
  {
    var s, step := states[n - 1], steps[n - 1];
    assert states[n - 1 + 1] == Apply(s, step);
    StaysKept(states, steps, n - 1);
    OrphanedBefore(s, step, c);
    i := n - 1;
    if Orphaned(s, c) {
      i := WhenOrphaned(states, steps, n - 1, c);
    }
  }

  lemma {:induction false} CopyStaysUntil(states: seq<State>, steps: seq<Step>, c: CopyId, a: nat, b: nat)
    requires Trace(states, steps) && a <= b <= |steps| && c in states[a].copies
    requires forall m :: a <= m < b ==> !LetsGo(steps[m], c)
    ensures c in states[b].copies && states[b].copies[c].msg == states[a].copies[c].msg
    decreases b
  {
    if a < b {
      CopyStaysUntil(states, steps, c, a, b - 1);
      assert states[b - 1 + 1] == Apply(states[b - 1], steps[b - 1]);
      CopyStays(states[b - 1], steps[b - 1], c);
    }
  }

  lemma TakenOverShares(states: seq<State>, steps: seq<Step>, i: nat, j: nat, c: CopyId)
    requires Trace(states, steps) && TakenOver(states, steps, i, j, c)
    ensures !Unshared(states[j + 1])
  {
    CopyStaysUntil(states, steps, c, i, j);
    assert Enabled(states[j], steps[j]) && states[j + 1] == Apply(states[j], steps[j]);
    assert Holds(states[j + 1], c, steps[j].id) && Holds(states[j + 1], steps[j].c, steps[j].id);
  }

  lemma FirstShared(states: seq<State>, n: nat) returns (k: nat)
    requires n < |states| && !Unshared(states[n]) && Unshared(states[0])
    ensures k < n && UnsharedUpTo(states, k) && !Unshared(states[k + 1])
  {
    k := 0;
    while Unshared(states[k + 1])
      invariant k < n && UnsharedUpTo(states, k)
      decreases n - k
    {
      k := k + 1;
    }
  }

  lemma SharedWasTakenOver(states: seq<State>, steps: seq<Step>, n: nat) returns (i: nat, j: nat, c: CopyId)
    requires Trace(states, steps) && states[0] == EMPTY && n <= |steps| && !Unshared(states[n])
    ensures TakenOver(states, steps, i, j, c)
  {
    j := FirstShared(states, n);
    assert Enabled(states[j], steps[j]) && states[j + 1] == Apply(states[j], steps[j]);
    ClaimsShareExactly(states[j], steps[j]);
    c :| Holds(states[j], c, steps[j].id);
    i := WhenOrphaned(states, steps, j, c);
  }

  /** In every run, however late anybody is, two workers hold one message at some moment if and
      only if a recovery took a row from a live copy, and the row was claimed again before that
      copy made its Mark call or was lost. */
  lemma TwoWorkersExactly(states: seq<State>, steps: seq<Step>)
    requires Trace(states, steps) && states[0] == EMPTY
    ensures (exists n: nat :: n <= |steps| && !Unshared(states[n]))
            <==> exists i: nat, j: nat, c: CopyId :: TakenOver(states, steps, i, j, c)
  {
    if n: nat :| n <= |steps| && !Unshared(states[n]) {
      var i, j, c := SharedWasTakenOver(states, steps, n);
    }
    if i: nat, j: nat, c: CopyId :| TakenOver(states, steps, i, j, c) {
      TakenOverShares(states, steps, i, j, c);
    }
  }

  // ---- The next claim -----------------------------------------------------------------------

  /** A row in sending was due when it was claimed, and still is. */
  ghost predicate Ripe(s: State) {
    forall id :: id in s.rows && s.rows[id].status == Sending ==> Due(s.rows[id].(status := Queued), s.now)
  }

  lemma StepKeepsRipe(s: State, step: Step)
    requires Ripe(s) && Enabled(s, step)
    ensures Ripe(Apply(s, step))
  {
    var t := Apply(s, step);
    forall id | id in t.rows && t.rows[id].status == Sending
      ensures Due(t.rows[id].(status := Queued), t.now)
    {
      assert id in s.rows && (s.rows[id].status == Sending || Due(s.rows[id], s.now));
    }
  }

  lemma {:induction false} RunKeepsRipe(s: State, steps: seq<Step>, t: State)
    requires Ripe(s) && Run(s, steps, t)
    ensures Ripe(t)
    decreases |steps|
  {
    if steps != [] {
      StepKeepsRipe(s, steps[0]);
      RunKeepsRipe(Apply(s, steps[0]), steps[1..], t);
    }
  }

  /** What a recovery takes can be claimed at once, and in an exclusive state that shares the
      message if and only if the recovery was not safe. */
  lemma NextClaimSharesExactly(steps: seq<Step>, s: State, id: MsgId, olderThan: int, c: CopyId)
    requires Run(EMPTY, steps, s) && Exclusive(s) && Enabled(s, Recover(id, olderThan)) && c !in s.copies
    ensures var t := Apply(s, Recover(id, olderThan));
      Enabled(t, ClaimOne(c, id)) && (Unshared(Apply(t, ClaimOne(c, id))) <==> Safe(s, Recover(id, olderThan)))
  {
    RunKeepsRipe(EMPTY, steps, s);
    var t := Apply(s, Recover(id, olderThan));
    assert Due(s.rows[id].(status := Queued), s.now);
    ClaimsShareExactly(t, ClaimOne(c, id));
    forall d | Holds(s, d, id)
      ensures Live(s.copies[d].stage) && Holds(t, d, id)
    {
      assert CopyOk(s, s.copies[d]);
    }
    assert forall d :: Holds(t, d, id) ==> Holds(s, d, id);
  }
}
