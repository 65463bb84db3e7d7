/** The per-instance mutual exclusion of the outbox (internal/instancelock/locker.go): a map
    of reference-counted semaphores whose entries are deleted with the last owner and
    recreated by the next one.

    Acquire is two atomic steps, retain under the mutex and then the semaphore or the
    cancellation; its release is two more, draining the semaphore and then dropping the
    reference. The invariant is about every interleaving of those steps. */
module InstanceLock {
  type InstanceId = nat
  type Ref = nat
  type Thread = nat

  datatype Entry = Entry(sem: bool, refs: int)

  /** The map of the locker plus every entry a goroutine can still point to. */
  datatype Tables = Tables(locks: map<InstanceId, Ref>, entries: map<Ref, Entry>)

  function Retained(t: Tables, id: InstanceId, spare: Ref): Tables
    requires id in t.locks ==> t.locks[id] in t.entries
  {
    if id in t.locks then
      var e := t.entries[t.locks[id]];
      t.(entries := t.entries[t.locks[id] := e.(refs := e.refs + 1)])
    else
      Tables(t.locks[id := spare], t.entries[spare := Entry(false, 1)])
  }

  function WithSem(t: Tables, ref: Ref, sem: bool): Tables
    requires ref in t.entries
  {
    t.(entries := t.entries[ref := t.entries[ref].(sem := sem)])
  }

  function Dropped(t: Tables, id: InstanceId): Tables
    requires id in t.locks ==> t.locks[id] in t.entries
  {
    if id !in t.locks then t
    else
      var e := t.entries[t.locks[id]];
      Tables(if e.refs - 1 == 0 then t.locks - {id} else t.locks,
             t.entries[t.locks[id] := e.(refs := e.refs - 1)])
  }

  class LockEntry {
    ghost const ref: Ref
    var sem: bool
    var refs: int

    constructor (ghost ref: Ref)
      ensures this.ref == ref && !sem && refs == 0
    {
      this.ref := ref;
      sem, refs := false, 0;
    }
  }

  class Locker {
    var locks: map<InstanceId, LockEntry>
    ghost var made: map<Ref, LockEntry>

    ghost predicate Valid()
      reads this, made.Values
    {
      && (forall ref :: ref in made ==> made[ref].ref == ref)
      && (forall id :: id in locks ==> locks[id].ref in made && made[locks[id].ref] == locks[id])
    }

    ghost function View(): Tables
      reads this, made.Values
    {
      Tables(map id | id in locks :: locks[id].ref, map ref | ref in made :: Entry(made[ref].sem, made[ref].refs))
    }

    constructor ()
      ensures Valid() && View() == Tables(map[], map[])
    {
      locks, made := map[], map[];
    }

    method Open(id: InstanceId, ghost spare: Ref) returns (entry: LockEntry)
      requires Valid() && spare !in made && id !in locks
      modifies this
      ensures Valid() && fresh(entry) && locks == old(locks)[id := entry] && made == old(made)[spare := entry]
      ensures entry.refs == 0 && !entry.sem && entry.ref == spare
    {
      entry := new LockEntry(spare);
      locks := locks[id := entry];
      made := made[spare := entry];
    }

    method CountIn(id: InstanceId)
      requires Valid() && id in locks
      modifies locks[id]
      ensures Valid() && View() == Retained(old(View()), id, locks[id].ref)
    {
      locks[id].refs := locks[id].refs + 1;
      assert View().locks == old(View()).locks;
      assert View().entries == Retained(old(View()), id, locks[id].ref).entries;
    }

    method Retain(id: InstanceId, ghost spare: Ref) returns (entry: LockEntry)
      requires Valid() && spare !in made
      modifies this, made.Values
      ensures Valid() && id in locks && locks[id] == entry
      ensures View() == Retained(old(View()), id, spare)
      ensures forall ref :: ref in old(made) ==> ref in made && made[ref] == old(made[ref])
    {
      ghost var before := View();
      if id !in locks {
        entry := Open(id, spare);
        assert View().locks == before.locks[id := spare];
        assert View().entries == before.entries[spare := Entry(false, 0)];
      }
      CountIn(id);
      entry := locks[id];
    }

    /** The send on the semaphore; it goes through only when the slot is empty. */
    method Take(entry: LockEntry) returns (ok: bool)
      requires Valid() && entry in made.Values
      modifies entry
      ensures Valid() && entry.ref in old(View()).entries
      ensures ok == !old(entry.sem) && View() == WithSem(old(View()), entry.ref, true)
    {
      ok := !entry.sem;
      entry.sem := true;
    }

    method Drain(entry: LockEntry)
      requires Valid() && entry in made.Values
      modifies entry
      ensures Valid() && entry.ref in old(View()).entries
      ensures View() == WithSem(old(View()), entry.ref, false)
    {
      entry.sem := false;
    }

    method Release(id: InstanceId)
      requires Valid()
      modifies this, made.Values
      ensures Valid() && View() == Dropped(old(View()), id) && made == old(made)
    {
      if id !in locks {
        return;
      }
      var entry := locks[id];
      entry.refs := entry.refs - 1;
      if entry.refs == 0 {
        locks := locks - {id};
      }
    }
  }

  // ---- Interleavings ------------------------------------------------------------------

  /** Where a goroutine stands with the entry its retain returned. */
  datatype Stage = Waiting | Holding | Returning

  datatype Party = Party(id: InstanceId, ref: Ref, stage: Stage)

  datatype State = State(t: Tables, who: Goroutines)

  datatype Step =
    | Retain(th: Thread, id: InstanceId, spare: Ref)
    | Take(th: Thread)
    | Cancel(th: Thread)
    | Drain(th: Thread)
    | Drop(th: Thread)

  ghost predicate Enabled(s: State, step: Step) {
    match step
    case Retain(th, _, spare) => th !in s.who && spare !in s.t.entries
    case Take(th) =>
      th in s.who && s.who[th].stage == Waiting && s.who[th].ref in s.t.entries && !s.t.entries[s.who[th].ref].sem
    case Cancel(th) => th in s.who && s.who[th].stage == Waiting
    case Drain(th) => th in s.who && s.who[th].stage == Holding && s.who[th].ref in s.t.entries
    case Drop(th) => th in s.who && s.who[th].stage == Returning
  }

  function Apply(s: State, step: Step): State
    requires Linked(s.t) && Enabled(s, step)
  {
    match step
    case Retain(th, id, spare) =>
      var t := Retained(s.t, id, spare);
      State(t, s.who[th := Party(id, t.locks[id], Waiting)])
    case Take(th) => State(WithSem(s.t, s.who[th].ref, true), s.who[th := s.who[th].(stage := Holding)])
    case Cancel(th) => s.(who := s.who[th := s.who[th].(stage := Returning)])
    case Drain(th) => State(WithSem(s.t, s.who[th].ref, false), s.who[th := s.who[th].(stage := Returning)])
    case Drop(th) => State(Dropped(s.t, s.who[th].id), s.who - {th})
  }

  /** Map values point to entries that exist and are not shared between instances. */
  ghost predicate Linked(t: Tables) {
    && (forall id :: id in t.locks ==> t.locks[id] in t.entries)
    && (forall id, id' :: id in t.locks && id' in t.locks && t.locks[id] == t.locks[id'] ==> id == id')
  }

  type Goroutines = map<Thread, Party>

  function Parties(who: Goroutines, id: InstanceId): set<Thread> {
    set th | th in who && who[th].id == id
  }

  predicate Holds(who: Goroutines, th: Thread, id: InstanceId) {
    th in who && who[th].id == id && who[th].stage == Holding
  }

  /** Every goroutine still refers to the entry in the map, and one at most holds it. */
  ghost predicate Attached(s: State) {
    && (forall th :: th in s.who ==> s.who[th].id in s.t.locks && s.t.locks[s.who[th].id] == s.who[th].ref)
    && (forall th, th', id :: Holds(s.who, th, id) && Holds(s.who, th', id) ==> th == th')
  }

  /** The count of an entry is the number of goroutines of its instance, and the semaphore is
      taken exactly when one of them holds. */
  ghost predicate Counted(s: State, id: InstanceId)
    requires Linked(s.t) && id in s.t.locks
  {
    var e := s.t.entries[s.t.locks[id]];
    && e.refs == |Parties(s.who, id)| && e.refs > 0
    && (e.sem <==> exists th :: Holds(s.who, th, id))
  }

  ghost predicate Inv(s: State) {
    && Linked(s.t)
    && Attached(s)
    && (forall id :: id in s.t.locks ==> Counted(s, id))
  }

  lemma NewcomerIsCounted(who: Goroutines, th: Thread, id: InstanceId, ref: Ref)
    requires th !in who
    ensures var who' := who[th := Party(id, ref, Waiting)];
      && |Parties(who', id)| == |Parties(who, id)| + 1
      && (forall k :: k != id ==> Parties(who', k) == Parties(who, k))
      && (forall x, k :: Holds(who', x, k) <==> Holds(who, x, k))
  {
    var who' := who[th := Party(id, ref, Waiting)];
    assert Parties(who', id) == Parties(who, id) + {th};
    assert forall k :: k != id ==> Parties(who', k) == Parties(who, k);
  }

  lemma LeaverIsDiscounted(who: Goroutines, th: Thread)
    requires th in who && who[th].stage == Returning
    ensures |Parties(who - {th}, who[th].id)| == |Parties(who, who[th].id)| - 1
    ensures forall k :: k != who[th].id ==> Parties(who - {th}, k) == Parties(who, k)
    ensures forall x, k :: Holds(who - {th}, x, k) <==> Holds(who, x, k)
  {
    assert Parties(who - {th}, who[th].id) == Parties(who, who[th].id) - {th};
    assert forall k :: k != who[th].id ==> Parties(who - {th}, k) == Parties(who, k);
  }

  lemma StageChangeKeepsCount(who: Goroutines, th: Thread, stage: Stage)
    requires th in who
    ensures var who' := who[th := who[th].(stage := stage)];
      && (forall k :: Parties(who', k) == Parties(who, k))
      && (forall x, k :: Holds(who', x, k) <==> if x == th && k == who[th].id then stage == Holding else Holds(who, x, k))
  {
  }

  lemma NobodyOutsideTheMap(s: State, id: InstanceId)
    requires Attached(s) && id !in s.t.locks
    ensures Parties(s.who, id) == {} && forall x :: !Holds(s.who, x, id)
  {
  }

  lemma RetainKeepsInv(s: State, th: Thread, id: InstanceId, spare: Ref)
    requires Inv(s) && Enabled(s, Retain(th, id, spare))
    ensures Inv(Apply(s, Retain(th, id, spare)))
  {
    var u := Apply(s, Retain(th, id, spare));
    NewcomerIsCounted(s.who, th, id, u.t.locks[id]);
    if id !in s.t.locks {
      NobodyOutsideTheMap(s, id);
    }
    forall k | k in u.t.locks
      ensures Counted(u, k)
    {
      assert k in s.t.locks ==> Counted(s, k);
    }
  }

  lemma DropKeepsInv(s: State, th: Thread)
    requires Inv(s) && Enabled(s, Drop(th))
    ensures Inv(Apply(s, Drop(th)))
  {
    var u := Apply(s, Drop(th));
    var id := s.who[th].id;
    assert Counted(s, id);
    LeaverIsDiscounted(s.who, th);
    forall x | x in u.who
      ensures u.who[x].id in u.t.locks
    {
      if u.who[x].id == id {
        assert x in Parties(u.who, id);
        assert |Parties(u.who, id)| != 0;
      }
    }
    forall k | k in u.t.locks
      ensures Counted(u, k)
    {
      assert Counted(s, k);
    }
  }

  /** The steps that move one goroutine and at most its semaphore. */
  lemma MoveKeepsInv(s: State, step: Step)
    requires Inv(s) && Enabled(s, step) && (step.Take? || step.Cancel? || step.Drain?)
    ensures Inv(Apply(s, step))
  {
    var u := Apply(s, step);
    var id := s.who[step.th].id;
    assert Counted(s, id);
    StageChangeKeepsCount(s.who, step.th, u.who[step.th].stage);
    assert step.Take? ==> Holds(u.who, step.th, id);
    assert step.Drain? ==> Holds(s.who, step.th, id);
    forall k | k in u.t.locks
      ensures Counted(u, k)
    {
      assert Counted(s, k);
    }
  }

  ghost predicate Run(s: State, steps: seq<Step>, u: State)
    requires Inv(s)
    decreases |steps|
  {
    if steps == [] then s == u
    else
      && Enabled(s, steps[0])
      && (StepKeepsInv(s, steps[0]); Run(Apply(s, steps[0]), steps[1..], u))
  }

  lemma StepKeepsInv(s: State, step: Step)
    requires Inv(s) && Enabled(s, step)
    ensures Inv(Apply(s, step))
  {
    match step
    case Retain(th, id, spare) => RetainKeepsInv(s, th, id, spare);
    case Drop(th) => DropKeepsInv(s, th);
    case Take(_) => MoveKeepsInv(s, step);
    case Cancel(_) => MoveKeepsInv(s, step);
    case Drain(_) => MoveKeepsInv(s, step);
  }

  const FRESH: State := State(Tables(map[], map[]), map[])

  lemma {:induction false} RunKeepsInv(s: State, steps: seq<Step>, u: State)
    requires Inv(s) && Run(s, steps, u)
    ensures Inv(u)
    decreases |steps|
  {
    if steps != [] {
      StepKeepsInv(s, steps[0]);
      RunKeepsInv(Apply(s, steps[0]), steps[1..], u);
    }
  }

  /** In every run one goroutine at most holds an instance, and the entry it took is the one
      a newcomer will find: deleting and recreating entries never splits the lock. */
  lemma MutualExclusion(steps: seq<Step>, u: State, th: Thread, th': Thread)
    requires Run(FRESH, steps, u) && th in u.who && th' in u.who && u.who[th].id == u.who[th'].id
    ensures u.who[th].stage == Holding && u.who[th'].stage == Holding ==> th == th'
    ensures u.who[th].id in u.t.locks && u.who[th].ref == u.who[th'].ref == u.t.locks[u.who[th].id]
    ensures u.who[th].stage == Holding ==> !Enabled(u, Take(th'))
  {
    RunKeepsInv(FRESH, steps, u);
    if u.who[th].stage == Holding {
      assert Holds(u.who, th, u.who[th].id);
      assert u.who[th'].stage == Holding ==> Holds(u.who, th', u.who[th].id);
      assert Counted(u, u.who[th].id);
    }
  }

  /** No lost wakeup: with nobody holding, any waiter can take the semaphore. */
  lemma FreeInstanceCanBeTaken(steps: seq<Step>, u: State, th: Thread)
    requires Run(FRESH, steps, u) && th in u.who && u.who[th].stage == Waiting
    requires forall x :: x in u.who && u.who[x].id == u.who[th].id ==> u.who[x].stage != Holding
    ensures Enabled(u, Take(th))
  {
    RunKeepsInv(FRESH, steps, u);
    assert Counted(u, u.who[th].id);
    assert forall x :: !Holds(u.who, x, u.who[th].id);
  }

  /** The count of an entry is the number of goroutines that still refer to it, so the map
      holds exactly the instances in use and is empty once all are done. */
  lemma MapTracksUse(steps: seq<Step>, u: State, id: InstanceId)
    requires Run(FRESH, steps, u)
    ensures id in u.t.locks <==> exists th :: th in u.who && u.who[th].id == id
    ensures id in u.t.locks ==> u.t.locks[id] in u.t.entries && u.t.entries[u.t.locks[id]].refs == |Parties(u.who, id)|
    ensures u.who == map[] ==> u.t.locks == map[]
  {
    RunKeepsInv(FRESH, steps, u);
    forall k | k in u.t.locks
      ensures exists th :: th in u.who && u.who[th].id == k
    {
      assert Counted(u, k);
      var th :| th in Parties(u.who, k);
    }
  }
}
