/** How a request gets past the protection of its Idempotency-Key (internal/httpapi/idempotency.go,
    internal/storage/postgres/idempotency.go).

    Besides a failing statement of its own there is one way: the record that beat its insert is
    gone when it selects. UnprotectedExactly says so for every run, and the runs at the end show
    both ways for a record to go, by a release and by its expiry. */
module IdempotencyEscape {
  import opened Idempotency

  /** No statement failed in a step. */
  predicate Flawless(step: Step) {
    match step
    case Drop(_, result) => result.Done?
    case Insert(_, result) => result.Done?
    case Select(_, ok) => ok
    case Close(_, result) => result.Done?
    case _ => true
  }

  // ---- One step -----------------------------------------------------------------------------

  predicate IsUnprotected(s: State, r: RequestId) {
    r in s.reqs && s.reqs[r].phase.Unprotected?
  }

  /** A statement of the request reports a failure. */
  predicate Fails(step: Step, r: RequestId) {
    match step
    case Drop(q, result) => q == r && !result.Done?
    case Insert(q, result) => q == r && !result.Done?
    case Select(q, ok) => q == r && !ok
    case _ => false
  }

  /** The request leaves the unprotected phase: its handler is done, or the process is gone. */
  predicate Ends(step: Step, r: RequestId) {
    step.Crash? || (step.Handle? && step.r == r)
  }

  /** The record of the key goes: its request releases it, or it is found expired. */
  predicate Removes(s: State, step: Step, key: Key) {
    key in s.t &&
    match step
    case Close(q, result) =>
      && q in s.reqs && s.reqs[q].phase.Closing? && s.reqs[q].key == key && !result.NotDone?
      && !(s.reqs[q].phase.capture.Some? && Storable(s.reqs[q].phase.capture.value.status))
    case Drop(q, result) => q in s.reqs && s.reqs[q].key == key && !result.NotDone? && s.t[key].expiresAt < s.now
    case Sweep => s.t[key].expiresAt < s.now
    case _ => false
  }

  /** A request enters a record of the key. */
  predicate Enters(s: State, step: Step, key: Key) {
    key !in s.t && step.Insert? && step.r in s.reqs && s.reqs[step.r].key == key && !step.result.NotDone?
  }

  /** A request becomes unprotected exactly by a failing statement of its own or by a select that
      finds nothing. */
  lemma EscapesExactly(s: State, step: Step, r: RequestId)
    requires Enabled(s, step) && !IsUnprotected(s, r)
    ensures IsUnprotected(Apply(s, step), r) <==>
              Fails(step, r) || (step == Select(r, true) && s.reqs[r].key !in s.t)
  {
  }

  /** A key comes into the table and leaves it in these ways only. */
  lemma RecordChangesExactly(s: State, step: Step, key: Key)
    requires Enabled(s, step)
    ensures key in s.t ==> (key !in Apply(s, step).t <==> Removes(s, step, key))
    ensures key !in s.t ==> (key in Apply(s, step).t <==> Enters(s, step, key))
  {
  }

  lemma UnprotectedStays(s: State, step: Step, r: RequestId)
    requires Enabled(s, step) && IsUnprotected(s, r)
    ensures IsUnprotected(Apply(s, step), r) <==> !Ends(step, r)
  {
  }

  // ---- Whole runs ---------------------------------------------------------------------------

  /** The states a run goes through. */
  ghost predicate Trace(states: seq<State>, steps: seq<Step>) {
    && |states| == |steps| + 1
    && forall i :: 0 <= i < |steps| ==> Enabled(states[i], steps[i]) && states[i + 1] == Apply(states[i], steps[i])
  }

  lemma {:induction false} RunHasTrace(s: State, steps: seq<Step>, t: State) returns (states: seq<State>)
    requires Run(s, steps, t)
    ensures Trace(states, steps) && states[0] == s && states[|steps|] == t
    decreases |steps|
  {
    if steps == [] {
      states := [s];
    } else {
      var rest := RunHasTrace(Apply(s, steps[0]), steps[1..], t);
      states := [s] + rest;
      assert forall i :: 0 < i < |steps| ==> steps[i] == steps[1..][i - 1] && states[i] == rest[i - 1] && states[i + 1] == rest[i];
    }
  }

  ghost predicate NotEndedSince(steps: seq<Step>, j: nat, b: nat, r: RequestId)
    requires b <= |steps|
  {
    forall m :: j < m < b ==> !Ends(steps[m], r)
  }

  /** Request r loses its insert at step i to a record that is removed at step k, and not entered
      again before r selects at step j. */
  ghost predicate Vanished(states: seq<State>, steps: seq<Step>, i: nat, k: nat, j: nat, r: RequestId)
    requires Trace(states, steps)
  {
    && i < k < j < |steps|
    && steps[i] == Insert(r, Done) && states[i].reqs[r].key in states[i].t
    && (forall m :: i < m < j ==> !steps[m].Crash?)
    && Removes(states[k], steps[k], states[i].reqs[r].key)
    && (forall m :: k < m < j ==> !Enters(states[m], steps[m], states[i].reqs[r].key))
    && steps[j] == Select(r, true)
  }

  lemma {:induction false} WhenEscaped(states: seq<State>, steps: seq<Step>, b: nat, r: RequestId) returns (j: nat)
    requires Trace(states, steps) && b <= |steps| && !IsUnprotected(states[0], r) && IsUnprotected(states[b], r)
    ensures j < b && NotEndedSince(steps, j, b, r)
    ensures Fails(steps[j], r) || (steps[j] == Select(r, true) && states[j].reqs[r].key !in states[j].t)
    decreases b
  {
    assert states[b - 1 + 1] == Apply(states[b - 1], steps[b - 1]);
    if IsUnprotected(states[b - 1], r) {
      UnprotectedStays(states[b - 1], steps[b - 1], r);
      j := WhenEscaped(states, steps, b - 1, r);
    } else {
      EscapesExactly(states[b - 1], steps[b - 1], r);
      j := b - 1;
    }
  }

  /** A selecting request lost its insert, and has been the same request since. */
  lemma {:induction false} WhenBeaten(states: seq<State>, steps: seq<Step>, j: nat, r: RequestId) returns (i: nat)
    requires Trace(states, steps) && states[0] == EMPTY && j <= |steps|
    requires r in states[j].reqs && states[j].reqs[r].phase.Selecting?
    ensures i < j && steps[i] == Insert(r, Done) && states[i].reqs[r].key == states[j].reqs[r].key
    ensures states[i].reqs[r].key in states[i].t && states[i + 1].t == states[i].t
    ensures forall m :: i < m < j ==> !steps[m].Crash?
    decreases j
  {
    assert states[j - 1 + 1] == Apply(states[j - 1], steps[j - 1]);
    if r in states[j - 1].reqs && states[j - 1].reqs[r].phase.Selecting? {
      i := WhenBeaten(states, steps, j - 1, r);
    } else {
      i := j - 1;
    }
  }

  lemma {:induction false} LastRemoval(states: seq<State>, steps: seq<Step>, key: Key, a: nat, b: nat) returns (k: nat)
    requires Trace(states, steps) && a <= b <= |steps| && key in states[a].t && key !in states[b].t
    ensures a <= k < b && Removes(states[k], steps[k], key)
    ensures forall m :: k < m < b ==> !Enters(states[m], steps[m], key)
    decreases b
  {
    assert states[b - 1 + 1] == Apply(states[b - 1], steps[b - 1]);
    RecordChangesExactly(states[b - 1], steps[b - 1], key);
    if key in states[b - 1].t {
      k := b - 1;
    } else {
      k := LastRemoval(states, steps, key, a, b - 1);
    }
  }

  lemma {:induction false} StaysAbsent(states: seq<State>, steps: seq<Step>, key: Key, a: nat, b: nat)
    requires Trace(states, steps) && a <= b <= |steps| && key !in states[a].t
    requires forall m :: a <= m < b ==> !Enters(states[m], steps[m], key)
    ensures key !in states[b].t
    decreases b
  {
    if a < b {
      StaysAbsent(states, steps, key, a, b - 1);
      assert states[b - 1 + 1] == Apply(states[b - 1], steps[b - 1]);
      RecordChangesExactly(states[b - 1], steps[b - 1], key);
    }
  }

  lemma {:induction false} KeepsItsKey(states: seq<State>, steps: seq<Step>, r: RequestId, a: nat, b: nat)
    requires Trace(states, steps) && a <= b <= |steps| && r in states[a].reqs
    requires forall m :: a <= m < b ==> !steps[m].Crash?
    ensures r in states[b].reqs && states[b].reqs[r].key == states[a].reqs[r].key
    decreases b
  {
    if a < b {
      KeepsItsKey(states, steps, r, a, b - 1);
      assert states[b - 1 + 1] == Apply(states[b - 1], steps[b - 1]);
    }
  }

  lemma {:induction false} StaysUnprotected(states: seq<State>, steps: seq<Step>, r: RequestId, j: nat, b: nat)
    requires Trace(states, steps) && j < b <= |steps| && IsUnprotected(states[j + 1], r) && NotEndedSince(steps, j, b, r)
    ensures IsUnprotected(states[b], r)
    decreases b
  {
    if j + 1 < b {
      StaysUnprotected(states, steps, r, j, b - 1);
      assert states[b - 1 + 1] == Apply(states[b - 1], steps[b - 1]);
      UnprotectedStays(states[b - 1], steps[b - 1], r);
    }
  }

  /** A request that vanished is unprotected after its select. */
  lemma VanishedEscapes(states: seq<State>, steps: seq<Step>, i: nat, k: nat, j: nat, r: RequestId)
    requires Trace(states, steps) && Vanished(states, steps, i, k, j, r)
    ensures IsUnprotected(states[j + 1], r)
  {
    var key := states[i].reqs[r].key;
    assert Enabled(states[i], steps[i]) && Enabled(states[j], steps[j]);
    KeepsItsKey(states, steps, r, i, j);
    assert states[k + 1] == Apply(states[k], steps[k]);
    RecordChangesExactly(states[k], steps[k], key);
    StaysAbsent(states, steps, key, k + 1, j);
    assert states[j + 1] == Apply(states[j], steps[j]);
  }

  lemma FailureEscapes(states: seq<State>, steps: seq<Step>, j: nat, r: RequestId)
    requires Trace(states, steps) && j < |steps| && Fails(steps[j], r)
    ensures IsUnprotected(states[j + 1], r)
  {
    assert Enabled(states[j], steps[j]) && states[j + 1] == Apply(states[j], steps[j]);
  }

  lemma VanishedBefore(states: seq<State>, steps: seq<Step>, j: nat, r: RequestId) returns (i: nat, k: nat)
    requires Trace(states, steps) && states[0] == EMPTY && j < |steps|
    requires steps[j] == Select(r, true) && r in states[j].reqs && states[j].reqs[r].key !in states[j].t
    ensures Vanished(states, steps, i, k, j, r)
  {
    assert Enabled(states[j], steps[j]);
    i := WhenBeaten(states, steps, j, r);
    k := LastRemoval(states, steps, states[j].reqs[r].key, i + 1, j);
  }

  ghost predicate Escaped(states: seq<State>, steps: seq<Step>, j: nat, r: RequestId)
    requires Trace(states, steps) && j < |steps|
  {
    Fails(steps[j], r) || exists i: nat, k: nat :: Vanished(states, steps, i, k, j, r)
  }

  /** In every run, with any faults and clocks, a request runs without protection if and only if one
      of its statements failed, or the record that beat its insert was released or found expired
      and not entered again before it selected; and its handler has not ended since. */
  lemma UnprotectedExactly(states: seq<State>, steps: seq<Step>, r: RequestId)
    requires Trace(states, steps) && states[0] == EMPTY
    ensures IsUnprotected(states[|steps|], r) <==>
              exists j: nat :: j < |steps| && Escaped(states, steps, j, r) && NotEndedSince(steps, j, |steps|, r)
  {
    if IsUnprotected(states[|steps|], r) {
      var j := WhenEscaped(states, steps, |steps|, r);
      if !Fails(steps[j], r) {
        assert Enabled(states[j], steps[j]);
        var i, k := VanishedBefore(states, steps, j, r);
      }
      assert Escaped(states, steps, j, r);
    }
    if j: nat :| j < |steps| && Escaped(states, steps, j, r) && NotEndedSince(steps, j, |steps|, r) {
      if Fails(steps[j], r) {
        FailureEscapes(states, steps, j, r);
      } else {
        var i, k :| Vanished(states, steps, i, k, j, r);
        VanishedEscapes(states, steps, i, k, j, r);
      }
      StaysUnprotected(states, steps, r, j, |steps|);
    }
  }

  /** Without a failing statement it is the record, and nothing else. */
  lemma FlawlessUnprotectedExactly(states: seq<State>, steps: seq<Step>, r: RequestId)
    requires Trace(states, steps) && states[0] == EMPTY && forall i :: 0 <= i < |steps| ==> Flawless(steps[i])
    ensures IsUnprotected(states[|steps|], r) <==>
              exists i: nat, k: nat, j: nat :: j < |steps| && Vanished(states, steps, i, k, j, r) && NotEndedSince(steps, j, |steps|, r)
  {
    UnprotectedExactly(states, steps, r);
    forall j: nat | j < |steps|
      ensures !Fails(steps[j], r)
    {
      assert Flawless(steps[j]);
    }
    if IsUnprotected(states[|steps|], r) {
      var j: nat :| j < |steps| && Escaped(states, steps, j, r) && NotEndedSince(steps, j, |steps|, r);
      var i, k :| Vanished(states, steps, i, k, j, r);
    }
    if i: nat, k: nat, j: nat :| j < |steps| && Vanished(states, steps, i, k, j, r) && NotEndedSince(steps, j, |steps|, r) {
      assert Escaped(states, steps, j, r);
    }
  }

  // ---- Both ways happen -----------------------------------------------------------------------

  lemma {:induction false} RunsCompose(s: State, first: seq<Step>, m: State, step: Step)
    requires Run(s, first, m) && Enabled(m, step) && Timely(Apply(m, step))
    ensures Run(s, first + [step], Apply(m, step))
    decreases |first|
  {
    if first != [] {
      RunsCompose(Apply(s, first[0]), first[1..], m, step);
      assert (first + [step])[1..] == first[1..] + [step];
    } else {
      assert [step][1..] == [];
    }
  }

  lemma FirstOwns(key: Key) returns (steps: seq<Step>, s: State)
    ensures Run(EMPTY, steps, s) && forall i :: 0 <= i < |steps| ==> Flawless(steps[i])
    ensures s == State(map[key := Record("", false, NO_RESPONSE, TTL)], map[1 := Request(key, "", TTL, Owner)], {}, 0)
  {
    steps, s := [Arrive(1, key, "")], Apply(EMPTY, Arrive(1, key, ""));
    assert steps[1..] == [];
    RunsCompose(EMPTY, steps, s, Drop(1, Done));
    steps, s := steps + [Drop(1, Done)], Apply(s, Drop(1, Done));
    RunsCompose(EMPTY, steps, s, Insert(1, Done));
    steps, s := steps + [Insert(1, Done)], Apply(s, Insert(1, Done));
  }

  /** One request owns the key while a second one has met its record and not yet read it. */
  lemma SecondMeetsFirst(key: Key) returns (steps: seq<Step>, s: State)
    ensures Run(EMPTY, steps, s) && forall i :: 0 <= i < |steps| ==> Flawless(steps[i])
    ensures s == State(map[key := Record("", false, NO_RESPONSE, TTL)],
                       map[1 := Request(key, "", TTL, Owner), 2 := Request(key, "", TTL, Selecting)], {}, 0)
  {
    steps, s := FirstOwns(key);
    RunsCompose(EMPTY, steps, s, Arrive(2, key, ""));
    steps, s := steps + [Arrive(2, key, "")], Apply(s, Arrive(2, key, ""));
    RunsCompose(EMPTY, steps, s, Drop(2, Done));
    steps, s := steps + [Drop(2, Done)], Apply(s, Drop(2, Done));
    RunsCompose(EMPTY, steps, s, Insert(2, Done));
    steps, s := steps + [Insert(2, Done)], Apply(s, Insert(2, Done));
  }

  lemma FirstIsRefused(key: Key) returns (steps: seq<Step>, s: State)
    ensures Run(EMPTY, steps, s) && forall i :: 0 <= i < |steps| ==> Flawless(steps[i])
    ensures s == State(map[], map[1 := Request(key, "", TTL, Answered(Served)), 2 := Request(key, "", TTL, Selecting)], {}, 0)
  {
    steps, s := SecondMeetsFirst(key);
    var reply := [WriteHeader(422)];
    CaptureMeans(reply);
    RunsCompose(EMPTY, steps, s, Handle(1, reply));
    steps, s := steps + [Handle(1, reply)], Apply(s, Handle(1, reply));
    RunsCompose(EMPTY, steps, s, Close(1, Done));
    steps, s := steps + [Close(1, Done)], Apply(s, Close(1, Done));
  }

  /** A released record: with no failing statement at all two handlers run at once under one key,
      because the second request finds the record of a refused one gone and is let through. */
  lemma ReleasedRecordUnprotects(key: Key) returns (steps: seq<Step>, t: State)
    ensures Run(EMPTY, steps, t) && forall i :: 0 <= i < |steps| ==> Flawless(steps[i])
    ensures 2 in t.reqs && 3 in t.reqs && t.reqs[2].key == t.reqs[3].key == key
    ensures t.reqs[2].phase == Unprotected(RowVanished) && t.reqs[3].phase == Owner
  {
    steps, t := FirstIsRefused(key);
    RunsCompose(EMPTY, steps, t, Select(2, true));
    steps, t := steps + [Select(2, true)], Apply(t, Select(2, true));
    RunsCompose(EMPTY, steps, t, Arrive(3, key, ""));
    steps, t := steps + [Arrive(3, key, "")], Apply(t, Arrive(3, key, ""));
    RunsCompose(EMPTY, steps, t, Drop(3, Done));
    steps, t := steps + [Drop(3, Done)], Apply(t, Drop(3, Done));
    RunsCompose(EMPTY, steps, t, Insert(3, Done));
    steps, t := steps + [Insert(3, Done)], Apply(t, Insert(3, Done));
  }

  /** The first request is done: its success is stored until the TTL is over. */
  lemma FirstIsStored(key: Key) returns (steps: seq<Step>, s: State)
    ensures Run(EMPTY, steps, s) && forall i :: 0 <= i < |steps| ==> Flawless(steps[i])
    ensures s == State(map[key := Record("", true, Response(200, ""), TTL)],
                       map[1 := Request(key, "", TTL, Answered(Served))], {OwnerRun(key, "", Response(200, ""))}, TTL)
  {
    steps, s := FirstOwns(key);
    var reply := [WriteHeader(200)];
    CaptureMeans(reply);
    RunsCompose(EMPTY, steps, s, Handle(1, reply));
    steps, s := steps + [Handle(1, reply)], Apply(s, Handle(1, reply));
    RunsCompose(EMPTY, steps, s, Close(1, Done));
    steps, s := steps + [Close(1, Done)], Apply(s, Close(1, Done));
    RunsCompose(EMPTY, steps, s, Tick(TTL));
    steps, s := steps + [Tick(TTL)], Apply(s, Tick(TTL));
  }

  lemma RepeatMeetsStored(key: Key) returns (steps: seq<Step>, s: State)
    ensures Run(EMPTY, steps, s) && forall i :: 0 <= i < |steps| ==> Flawless(steps[i])
    ensures s.t == map[key := Record("", true, Response(200, ""), TTL)] && s.now == TTL
    ensures s.finished == {OwnerRun(key, "", Response(200, ""))}
    ensures s.reqs == map[1 := Request(key, "", TTL, Answered(Served)), 2 := Request(key, "", 2 * TTL, Selecting)]
  {
    steps, s := FirstIsStored(key);
    RunsCompose(EMPTY, steps, s, Arrive(2, key, ""));
    steps, s := steps + [Arrive(2, key, "")], Apply(s, Arrive(2, key, ""));
    RunsCompose(EMPTY, steps, s, Drop(2, Done));
    steps, s := steps + [Drop(2, Done)], Apply(s, Drop(2, Done));
    RunsCompose(EMPTY, steps, s, Insert(2, Done));
    steps, s := steps + [Insert(2, Done)], Apply(s, Insert(2, Done));
  }

  /** An expired record: the stored success of a finished request is swept between the insert of
      its repeat and the select, and the repeat runs its handler again, with no failing
      statement and no response but a 200. */
  lemma ExpiredRecordUnprotects(key: Key) returns (steps: seq<Step>, t: State)
    ensures Run(EMPTY, steps, t) && forall i :: 0 <= i < |steps| ==> Flawless(steps[i])
    ensures 2 in t.reqs && t.reqs[2].key == key && t.reqs[2].phase == Unprotected(RowVanished)
    ensures OwnerRun(key, "", Response(200, "")) in t.finished
  {
    steps, t := RepeatMeetsStored(key);
    RunsCompose(EMPTY, steps, t, Tick(TTL + 1));
    steps, t := steps + [Tick(TTL + 1)], Apply(t, Tick(TTL + 1));
    RunsCompose(EMPTY, steps, t, Sweep);
    steps, t := steps + [Sweep], Apply(t, Sweep);
    RunsCompose(EMPTY, steps, t, Select(2, true));
    steps, t := steps + [Select(2, true)], Apply(t, Select(2, true));
  }
}
