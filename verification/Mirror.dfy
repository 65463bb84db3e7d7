/** The at-least-once mirror of messages and edits into Chatwoot
    (internal/chatwoot/mirror/worker.go over the correlation table of
    internal/storage/postgres/chatwoot.go).

    The subscription runs one callback at a time, so a delivery is one step. Its remote calls can
    fail before or after they took effect. A crash inside a delivery is one of those failures
    followed by a restart, which forgets the seen set. Chatwoot offers no lookup by source
    id, so a copy whose correlation is lost can be mirrored again: the theorems say exactly
    who pays for each extra copy. */
module Mirror {
  import opened Wrappers

  type EventId = nat
  type ChatId = nat
  type WaId = string

  /** The wa_key of a correlation: a message, or one edit event of a message. */
  datatype Key = Message(id: WaId) | EditOf(id: WaId, event: EventId)

  /** What came before: a sender on the ignore list, a configuration that could not be read, no
      inbox or contact to mirror to, or a stack that failed to resolve. */
  datatype Setup = Ready | Filtered | NoConfig | NoInbox | Broken

  datatype Faults = Faults(
    setup: Setup, lookup: bool, original: bool, mappable: bool,
    create: Write, put: Write, reconcile: bool, retry: Write, cleanup: bool)

  datatype Reply = Ack | Nak

  type Table = map<Key, ChatId>

  /** A message that became visible in Chatwoot: its id, the delivery that created it, and whether
      that delivery left it correlated. */
  datatype Creation = Creation(id: ChatId, delivery: nat, stored: bool)

  datatype State = State(
    seen: set<EventId>, table: Table, created: map<Key, seq<Creation>>,
    deliveries: nat, nextId: ChatId, deletes: nat)

  function CopiesOf(s: State, key: Key): seq<Creation> {
    if key in s.created then s.created[key] else []
  }

  // ---- storeCorrelation ---------------------------------------------------------------

  function Put(t: Table, key: Key, id: ChatId, write: Write): Table {
    if write.NotApplied? then t else t[key := id]
  }

  /** The table after storeCorrelation, its reply, and whether it deleted its own message as an
      orphan of a correlation with a different id. */
  function Stored(t: Table, key: Key, id: ChatId, f: Faults): (Table, Reply, bool) {
    var t1 := Put(t, key, id, f.put);
    if f.put.Applied? then (t1, Ack, false)
    else if !f.reconcile then (t1, Nak, false)
    else if key in t1 then (t1, Ack, t1[key] != id && f.cleanup)
    else (Put(t1, key, id, f.retry), Ack, false)
  }

  /** Everything after the lookup missed: create, then correlate. */
  function Mirrored(s: State, event: EventId, key: Key, f: Faults): (State, Reply) {
    if f.create.NotApplied? then (s, Nak)
    else
      var id := s.nextId;
      var (table, reply, deleted) := if f.create.Applied? then Stored(s.table, key, id, f) else (s.table, Nak, false);
      var copy := Creation(id, s.deliveries, key in table && table[key] == id);
      (s.(table := table, nextId := id + 1,
          created := s.created[key := CopiesOf(s, key) + [copy]],
          seen := if reply == Ack then s.seen + {event} else s.seen,
          deletes := s.deletes + if deleted then 1 else 0), reply)
  }

  function HandledMessage(s: State, event: EventId, id: WaId, f: Faults): (State, Reply) {
    var key := Message(id);
    if f.setup.NoConfig? then (s, Nak)
    else if f.setup.Filtered? || event in s.seen || f.setup.NoInbox? then (s, Ack)
    else if f.setup.Broken? then (s, Nak)
    else if !f.lookup then (s, Nak)
    else if key in s.table then (s.(seen := s.seen + {event}), Ack)
    else if !f.mappable then (s, Ack)
    else Mirrored(s, event, key, f)
  }

  /** An edit is mirrored as a new message, and only when its original is correlated. */
  function HandledEdit(s: State, event: EventId, id: WaId, f: Faults): (State, Reply) {
    var key := EditOf(id, event);
    if f.setup.NoConfig? then (s, Nak)
    else if f.setup.Filtered? || event in s.seen then (s, Ack)
    else if !f.lookup then (s, Nak)
    else if key in s.table then (s.(seen := s.seen + {event}), Ack)
    else if !f.original then (s, Nak)
    else if Message(id) !in s.table || f.setup.NoInbox? then (s, Ack)
    else if f.setup.Broken? then (s, Nak)
    else Mirrored(s, event, key, f)
  }

  /** A message is handed back to the broker exactly when its configuration could not be read, or it
      is new and its stack or its lookup failed, or it has to be mirrored and the create was not
      reported or neither the put nor the reconcile read worked. */
  lemma NakIsExact(s: State, event: EventId, id: WaId, f: Faults)
    ensures var (t, reply) := HandledMessage(s, event, id, f);
      && (reply == Nak <==>
            || f.setup.NoConfig?
            || (event !in s.seen && f.setup.Broken?)
            || (event !in s.seen && f.setup.Ready? && !f.lookup)
            || (event !in s.seen && f.setup.Ready? && Message(id) !in s.table && f.mappable
                && (!f.create.Applied? || (!f.put.Applied? && !f.reconcile))))
      && (reply == Nak ==> t.seen == s.seen)
  {
  }

  lemma EditNakIsExact(s: State, event: EventId, id: WaId, f: Faults)
    ensures var (t, reply) := HandledEdit(s, event, id, f);
      && (reply == Nak <==>
            || f.setup.NoConfig?
            || (event !in s.seen && !f.setup.Filtered?
                && (!f.lookup
                    || (EditOf(id, event) !in s.table
                        && (!f.original
                            || (Message(id) in s.table
                                && (f.setup.Broken?
                                    || (f.setup.Ready? && (!f.create.Applied? || (!f.put.Applied? && !f.reconcile))))))))))
      && (reply == Nak ==> t.seen == s.seen)
  {
  }

  class Worker {
    var seen: set<EventId>
    var table: Table
    var created: map<Key, seq<Creation>>
    var deliveries: nat
    var nextId: ChatId
    var deletes: nat

    function View(): State
      reads this
    {
      State(seen, table, created, deliveries, nextId, deletes)
    }

    constructor ()
      ensures View() == State({}, map[], map[], 0, 0, 0)
    {
      seen, table, created, deliveries, nextId, deletes := {}, map[], map[], 0, 0, 0;
    }

    method PutRow(key: Key, id: ChatId, write: Write) returns (ok: bool)
      modifies this`table
      ensures ok == write.Applied? && table == Put(old(table), key, id, write)
    {
      if !write.NotApplied? {
        table := table[key := id];
      }
      ok := write.Applied?;
    }

    method StoreCorrelation(key: Key, id: ChatId, f: Faults) returns (reply: Reply)
      modifies this`table, this`deletes
      ensures (table, reply) == (Stored(old(table), key, id, f).0, Stored(old(table), key, id, f).1)
      ensures deletes == old(deletes) + if Stored(old(table), key, id, f).2 then 1 else 0
      ensures reply == Nak <==> !f.put.Applied? && !f.reconcile
    {
      var ok := PutRow(key, id, f.put);
      if ok {
        return Ack;
      }
      if !f.reconcile {
        return Nak;
      }
      if key in table {
        if table[key] != id && f.cleanup {
          deletes := deletes + 1;
        }
        return Ack;
      }
      ok := PutRow(key, id, f.retry);
      return Ack;
    }

    method Mirror(event: EventId, key: Key, f: Faults) returns (reply: Reply)
      modifies this
      ensures (View(), reply) == Mirrored(old(View()), event, key, f)
      ensures reply == Nak <==> !f.create.Applied? || (!f.put.Applied? && !f.reconcile)
    {
      if f.create.NotApplied? {
        return Nak;
      }
      var id := nextId;
      nextId := nextId + 1;
      reply := Nak;
      if f.create.Applied? {
        reply := StoreCorrelation(key, id, f);
      }
      var copy := Creation(id, deliveries, key in table && table[key] == id);
      created := created[key := (if key in created then created[key] else []) + [copy]];
      if reply == Ack {
        seen := seen + {event};
      }
    }

    method HandleMessage(event: EventId, id: WaId, f: Faults) returns (reply: Reply)
      modifies this
      ensures (View(), reply) == HandledMessage(old(View()), event, id, f)
      ensures reply == Nak <==>
                || f.setup.NoConfig?
                || (event !in old(seen) && f.setup.Broken?)
                || (event !in old(seen) && f.setup.Ready? && !f.lookup)
                || (event !in old(seen) && f.setup.Ready? && Message(id) !in old(table) && f.mappable
                    && (!f.create.Applied? || (!f.put.Applied? && !f.reconcile)))
      ensures reply == Nak ==> seen == old(seen)
    {
      NakIsExact(View(), event, id, f);
      if f.setup.NoConfig? {
        return Nak;
      }
      if f.setup.Filtered? || event in seen || f.setup.NoInbox? {
        return Ack;
      }
      if f.setup.Broken? || !f.lookup {
        return Nak;
      }
      if Message(id) in table {
        seen := seen + {event};
        return Ack;
      }
      if !f.mappable {
        return Ack;
      }
      reply := Mirror(event, Message(id), f);
    }

    method HandleEdit(event: EventId, id: WaId, f: Faults) returns (reply: Reply)
      modifies this
      ensures (View(), reply) == HandledEdit(old(View()), event, id, f)
      ensures reply == Nak <==>
                || f.setup.NoConfig?
                || (event !in old(seen) && !f.setup.Filtered?
                    && (!f.lookup
                        || (EditOf(id, event) !in old(table)
                            && (!f.original
                                || (Message(id) in old(table)
                                    && (f.setup.Broken?
                                        || (f.setup.Ready? && (!f.create.Applied? || (!f.put.Applied? && !f.reconcile)))))))))
      ensures reply == Nak ==> seen == old(seen)
    {
      EditNakIsExact(View(), event, id, f);
      var key := EditOf(id, event);
      if f.setup.NoConfig? {
        return Nak;
      }
      if f.setup.Filtered? || event in seen {
        return Ack;
      }
      if !f.lookup {
        return Nak;
      }
      if key in table {
        seen := seen + {event};
        return Ack;
      }
      if !f.original {
        return Nak;
      }
      if Message(id) !in table || f.setup.NoInbox? {
        return Ack;
      }
      if f.setup.Broken? {
        return Nak;
      }
      reply := Mirror(event, key, f);
    }
  }

  // ---- Runs ---------------------------------------------------------------------------

  /** Events come in any order and any number of times. */
  datatype Step =
    | DeliverMessage(event: EventId, id: WaId, f: Faults)
    | DeliverEdit(event: EventId, id: WaId, f: Faults)
    | Restart

  function Apply(s: State, step: Step): State {
    match step
    case DeliverMessage(event, id, f) =>
      var t := HandledMessage(s, event, id, f).0; t.(deliveries := s.deliveries + 1)
    case DeliverEdit(event, id, f) =>
      var t := HandledEdit(s, event, id, f).0; t.(deliveries := s.deliveries + 1)
    case Restart => s.(seen := {})
  }

  function After(s: State, steps: seq<Step>): State
    decreases |steps|
  {
    if steps == [] then s else After(Apply(s, steps[0]), steps[1..])
  }

  const EMPTY: State := State({}, map[], map[], 0, 0, 0)

  /** The copies of one key: made by different deliveries in order, none but the last correlated. */
  ghost predicate Ordered(copies: seq<Creation>, deliveries: nat, nextId: ChatId) {
    && (forall i :: 0 <= i < |copies| ==> copies[i].delivery < deliveries && copies[i].id < nextId)
    && (forall i, j :: 0 <= i < j < |copies| ==>
          copies[i].delivery < copies[j].delivery && copies[i].id < copies[j].id && !copies[i].stored)
  }

  predicate HasRow(copies: seq<Creation>) {
    copies != [] && copies[|copies| - 1].stored
  }

  /** The last copy is correlated exactly when there is a row, which carries its id. */
  ghost predicate Ledger(s: State, key: Key) {
    var copies := CopiesOf(s, key);
    && Ordered(copies, s.deliveries, s.nextId)
    && (key in s.table <==> HasRow(copies))
    && (key in s.table ==> s.table[key] == copies[|copies| - 1].id)
  }

  ghost predicate Inv(s: State) {
    (forall key :: Ledger(s, key)) && s.deletes == 0
  }

  lemma AppendedStaysOrdered(copies: seq<Creation>, copy: Creation, deliveries: nat, nextId: ChatId)
    requires Ordered(copies, deliveries, nextId) && !HasRow(copies)
    requires copy.delivery == deliveries && copy.id == nextId
    ensures Ordered(copies + [copy], deliveries + 1, nextId + 1)
  {
  }

  lemma StoredWritesOwnRow(t: Table, key: Key, id: ChatId, f: Faults)
    requires key !in t
    ensures var (after, _, deleted) := Stored(t, key, id, f);
      !deleted && (after == t || after == t[key := id])
  {
  }

  lemma MirroredKeepsLedger(s: State, event: EventId, key: Key, f: Faults)
    requires Ledger(s, key) && key !in s.table
    ensures var t := Mirrored(s, event, key, f).0.(deliveries := s.deliveries + 1);
      Ledger(t, key) && t.deletes == s.deletes
  {
    var t := Mirrored(s, event, key, f).0.(deliveries := s.deliveries + 1);
    StoredWritesOwnRow(s.table, key, s.nextId, f);
    if !f.create.NotApplied? {
      var copies := CopiesOf(t, key);
      AppendedStaysOrdered(CopiesOf(s, key), copies[|copies| - 1], s.deliveries, s.nextId);
    }
  }

  lemma MirroredKeepsOthers(s: State, event: EventId, key: Key, f: Faults, k: Key)
    requires Ledger(s, k) && key !in s.table && k != key
    ensures Ledger(Mirrored(s, event, key, f).0.(deliveries := s.deliveries + 1), k)
  {
    var t := Mirrored(s, event, key, f).0.(deliveries := s.deliveries + 1);
    StoredWritesOwnRow(s.table, key, s.nextId, f);
    assert CopiesOf(t, k) == CopiesOf(s, k);
  }

  lemma MirroredKeepsInv(s: State, event: EventId, key: Key, f: Faults)
    requires Inv(s) && key !in s.table
    ensures var t := Mirrored(s, event, key, f).0.(deliveries := s.deliveries + 1); Inv(t)
  {
    var t := Mirrored(s, event, key, f).0.(deliveries := s.deliveries + 1);
    forall k
      ensures Ledger(t, k)
    {
      assert Ledger(s, k);
      if k == key {
        MirroredKeepsLedger(s, event, key, f);
      } else {
        MirroredKeepsOthers(s, event, key, f, k);
      }
    }
    assert Ledger(s, key);
    MirroredKeepsLedger(s, event, key, f);
  }

  /** A delivery that creates nothing leaves table and copies alone. */
  lemma QuietStepKeepsInv(s: State, t: State)
    requires Inv(s) && t.table == s.table && t.created == s.created && t.nextId == s.nextId && t.deletes == s.deletes
    requires s.deliveries <= t.deliveries
    ensures Inv(t)
  {
    forall k
      ensures Ledger(t, k)
    {
      assert Ledger(s, k);
    }
  }

  function KeyOf(step: Step): Key
    requires !step.Restart?
  {
    if step.DeliverMessage? then Message(step.id) else EditOf(step.id, step.event)
  }

  /** A step is quiet, or mirrors its own key, which has no row yet. */
  lemma StepIsQuietOrMirrors(s: State, step: Step)
    ensures var t := Apply(s, step);
      || (t.table == s.table && t.created == s.created && t.nextId == s.nextId && t.deletes == s.deletes
          && s.deliveries <= t.deliveries)
      || (!step.Restart? && KeyOf(step) !in s.table
          && t == Mirrored(s, step.event, KeyOf(step), step.f).0.(deliveries := s.deliveries + 1))
  {
  }

  lemma StepKeepsInv(s: State, step: Step)
    requires Inv(s)
    ensures Inv(Apply(s, step))
    ensures forall key :: key in s.table ==> key in Apply(s, step).table && Apply(s, step).table[key] == s.table[key]
  {
    var t := Apply(s, step);
    StepIsQuietOrMirrors(s, step);
    if t.table == s.table && t.created == s.created && t.nextId == s.nextId && t.deletes == s.deletes
       && s.deliveries <= t.deliveries {
      QuietStepKeepsInv(s, t);
    } else {
      MirroredKeepsInv(s, step.event, KeyOf(step), step.f);
      StoredWritesOwnRow(s.table, KeyOf(step), s.nextId, step.f);
    }
  }

  lemma {:induction false} RunKeepsInv(s: State, steps: seq<Step>)
    requires Inv(s)
    ensures Inv(After(s, steps))
    ensures forall key :: key in s.table ==>
              key in After(s, steps).table && After(s, steps).table[key] == s.table[key]
    decreases |steps|
  {
    if steps != [] {
      StepKeepsInv(s, steps[0]);
      RunKeepsInv(Apply(s, steps[0]), steps[1..]);
    }
  }

  /** A correlation, once stored, is never overwritten, at most one copy of a key ever has it,
      and the cleanup of an orphan with a different id is never reached. */
  lemma CorrelationIsPermanent(before: seq<Step>, after: seq<Step>, key: Key)
    ensures var s, t := After(EMPTY, before), After(After(EMPTY, before), after);
      && (key in s.table ==> key in t.table && t.table[key] == s.table[key])
      && t.deletes == 0
      && (var copies := CopiesOf(t, key);
          forall i, j :: 0 <= i < j < |copies| ==> !copies[i].stored || !copies[j].stored)
  {
    RunKeepsInv(EMPTY, before);
    RunKeepsInv(After(EMPTY, before), after);
    assert Ledger(After(After(EMPTY, before), after), key);
  }

  /** Every copy beyond the first is charged to a delivery of its own, the one that created the
      copy before it: an earlier delivery of the key that left without a stored row. */
  lemma ExtraCopiesAreCharged(steps: seq<Step>, key: Key)
    ensures var copies := CopiesOf(After(EMPTY, steps), key);
      forall i, j :: 0 <= i < j < |copies| ==> !copies[i].stored && copies[i].delivery < copies[j].delivery
    ensures key in After(EMPTY, steps).table ==> CopiesOf(After(EMPTY, steps), key) != []
  {
    RunKeepsInv(EMPTY, steps);
    assert Ledger(After(EMPTY, steps), key);
  }

  /** A delivery leaves its copy without a row exactly when the create reported a failure, or
      neither write of the correlation took effect. */
  predicate LosesRow(f: Faults) {
    f.create.AppliedButFailed? || (f.put.NotApplied? && (!f.reconcile || f.retry.NotApplied?))
  }

  lemma CopyIsStoredUnlessLost(s: State, event: EventId, key: Key, f: Faults)
    requires key !in s.table && !f.create.NotApplied?
    ensures var copies := CopiesOf(Mirrored(s, event, key, f).0, key);
      copies != [] && (copies[|copies| - 1].stored <==> !LosesRow(f))
  {
  }

  /** Whether a step makes a copy of its key visible. */
  predicate Creates(s: State, step: Step) {
    match step
    case Restart => false
    case DeliverMessage(event, id, f) =>
      && f.setup.Ready? && event !in s.seen && f.lookup && Message(id) !in s.table && f.mappable && !f.create.NotApplied?
    case DeliverEdit(event, id, f) =>
      && f.setup.Ready? && event !in s.seen && f.lookup && EditOf(id, event) !in s.table
      && f.original && Message(id) in s.table && !f.create.NotApplied?
  }

  /** A step adds the one copy of its key, or none of any. */
  lemma CopiesExactly(s: State, step: Step, key: Key)
    ensures |CopiesOf(Apply(s, step), key)|
         == |CopiesOf(s, key)| + if Creates(s, step) && KeyOf(step) == key then 1 else 0
  {
  }

  // ---- At least once ------------------------------------------------------------------------

  function ReplyTo(s: State, step: Step): Reply
    requires !step.Restart?
  {
    if step.DeliverMessage? then HandledMessage(s, step.event, step.id, step.f).1
    else HandledEdit(s, step.event, step.id, step.f).1
  }

  /** The delivery has something to mirror: it gets past the filters, a message can be mapped, and an
      edit has an original. */
  predicate Mirrorable(s: State, step: Step) {
    && !step.Restart? && step.f.setup.Ready?
    && if step.DeliverMessage? then step.f.mappable else Message(step.id) in s.table
  }

  /** Event ids tell deliveries apart: two of one id are of one message or one edit. */
  ghost predicate Labelled(keyOf: EventId -> Key, steps: seq<Step>) {
    forall i :: 0 <= i < |steps| && !steps[i].Restart? ==> KeyOf(steps[i]) == keyOf(steps[i].event)
  }

  /** What the worker remembers is in Chatwoot. */
  ghost predicate SeenIsMirrored(keyOf: EventId -> Key, s: State) {
    forall event :: event in s.seen ==> CopiesOf(s, keyOf(event)) != []
  }

  lemma NewEventIsMirrored(s: State, step: Step)
    requires !step.Restart? && Ledger(s, KeyOf(step)) && step.event !in s.seen
    ensures step.event in Apply(s, step).seen || (Mirrorable(s, step) && ReplyTo(s, step) == Ack) ==>
              CopiesOf(Apply(s, step), KeyOf(step)) != []
  {
  }

  lemma StepKeepsSeenMirrored(keyOf: EventId -> Key, s: State, step: Step)
    requires Inv(s) && SeenIsMirrored(keyOf, s) && Labelled(keyOf, [step])
    ensures SeenIsMirrored(keyOf, Apply(s, step))
  {
    var t := Apply(s, step);
    assert !step.Restart? ==> KeyOf([step][0]) == keyOf(step.event);
    forall event | event in t.seen
      ensures CopiesOf(t, keyOf(event)) != []
    {
      if event in s.seen {
        CopiesExactly(s, step, keyOf(event));
      } else {
        assert event == step.event && Ledger(s, KeyOf(step));
        NewEventIsMirrored(s, step);
      }
    }
  }

  lemma {:induction false} RunKeepsSeenMirrored(keyOf: EventId -> Key, s: State, steps: seq<Step>)
    requires Inv(s) && SeenIsMirrored(keyOf, s) && Labelled(keyOf, steps)
    ensures Inv(After(s, steps)) && SeenIsMirrored(keyOf, After(s, steps))
    decreases |steps|
  {
    if steps != [] {
      assert Labelled(keyOf, [steps[0]]) by {
        assert !steps[0].Restart? ==> KeyOf(steps[0]) == keyOf(steps[0].event);
      }
      StepKeepsInv(s, steps[0]);
      StepKeepsSeenMirrored(keyOf, s, steps[0]);
      assert forall i :: 0 <= i < |steps[1..]| ==> steps[1..][i] == steps[i + 1];
      RunKeepsSeenMirrored(keyOf, Apply(s, steps[0]), steps[1..]);
    }
  }

  /** At least once: after any run, whatever failed and restarted, a delivery that has something to
      mirror and is acknowledged leaves its message or edit visible in Chatwoot. */
  lemma AcknowledgedIsMirrored(keyOf: EventId -> Key, steps: seq<Step>, step: Step)
    requires Labelled(keyOf, steps + [step]) && Mirrorable(After(EMPTY, steps), step)
    ensures ReplyTo(After(EMPTY, steps), step) == Ack ==>
              CopiesOf(Apply(After(EMPTY, steps), step), KeyOf(step)) != []
  {
    var s := After(EMPTY, steps);
    assert forall i :: 0 <= i < |steps| ==> steps[i] == (steps + [step])[i];
    assert KeyOf((steps + [step])[|steps|]) == keyOf(step.event);
    RunKeepsSeenMirrored(keyOf, EMPTY, steps);
    assert Ledger(s, KeyOf(step));
    if step.event in s.seen {
      CopiesExactly(s, step, KeyOf(step));
    } else {
      NewEventIsMirrored(s, step);
    }
  }

  // ---- No loss, no duplicate ------------------------------------------------------------------

  /** No delivery that makes a copy of the key loses its row. */
  predicate NoLostRow(s: State, steps: seq<Step>, key: Key)
    decreases |steps|
  {
    steps != [] ==>
      && !(Creates(s, steps[0]) && KeyOf(steps[0]) == key && LosesRow(steps[0].f))
      && NoLostRow(Apply(s, steps[0]), steps[1..], key)
  }

  /** Exactly one copy: when no delivery that creates a copy of the key loses its row, the key is
      never mirrored twice. */
  lemma {:induction false} NoLossNoDuplicate(s: State, steps: seq<Step>, key: Key)
    requires Inv(s) && |CopiesOf(s, key)| <= 1 && (CopiesOf(s, key) != [] ==> CopiesOf(s, key)[0].stored)
    requires NoLostRow(s, steps, key)
    ensures |CopiesOf(After(s, steps), key)| <= 1
    decreases |steps|
  {
    if steps != [] {
      StepKeepsInv(s, steps[0]);
      assert Ledger(s, key);
      CopiesExactly(s, steps[0], key);
      NoLossOneStep(s, steps[0], key);
      NoLossNoDuplicate(Apply(s, steps[0]), steps[1..], key);
    }
  }

  lemma NoLossOneStep(s: State, step: Step, key: Key)
    requires Ledger(s, key) && |CopiesOf(s, key)| <= 1 && (CopiesOf(s, key) != [] ==> CopiesOf(s, key)[0].stored)
    requires !(Creates(s, step) && KeyOf(step) == key && LosesRow(step.f))
    ensures var copies := CopiesOf(Apply(s, step), key);
      |copies| <= 1 && (copies != [] ==> copies[0].stored)
  {
    if Creates(s, step) && KeyOf(step) == key {
      CopyIsStoredUnlessLost(s, step.event, key, step.f);
    }
  }

  /** After a delivery whose copy lost its row, the next delivery of the message makes a second
      copy if and only if it comes under an event the worker does not remember, finds everything
      ready, and its lookup, its mapping and its create work. */
  lemma RedeliveryDuplicatesExactly(s: State, first: Step, second: Step)
    requires Inv(s) && first.DeliverMessage? && second.DeliverMessage? && second.id == first.id
    requires CopiesOf(s, Message(first.id)) == [] && Creates(s, first) && LosesRow(first.f)
    ensures var (t, g) := (Apply(s, first), second.f);
      |CopiesOf(Apply(t, second), Message(first.id))| == 2
      <==> g.setup.Ready? && second.event !in t.seen && g.lookup && g.mappable && !g.create.NotApplied?
  {
    var key, t := Message(first.id), Apply(s, first);
    assert Ledger(s, key);
    StepKeepsInv(s, first);
    assert Ledger(t, key);
    CopyIsStoredUnlessLost(s, first.event, key, first.f);
    CopiesExactly(s, first, key);
    CopiesExactly(t, second, key);
  }

  /** The event of the lost copy is remembered exactly when it was acknowledged as an orphan: the
      put and its retry both failed although the reconcile read worked. */
  lemma LostCopyIsForgottenUnlessOrphan(s: State, first: Step)
    requires first.DeliverMessage? && Creates(s, first) && LosesRow(first.f)
    ensures first.event in Apply(s, first).seen <==> first.f.create.Applied? && first.f.reconcile
  {
  }

  /** An edit is mirrored only under a correlated original. */
  lemma EditNeedsOriginal(s: State, event: EventId, id: WaId, f: Faults)
    ensures Message(id) !in s.table ==> HandledEdit(s, event, id, f).0.created == s.created
  {
  }

  const CLEAN: Faults := Faults(Ready, true, true, true, Applied, Applied, true, Applied, true)

  /** The reconcile comment of the source promises that a failed Put followed by a failed Get
      cannot duplicate, because the redelivery fails its Get too. It does not when the database
      is back by then: the same event leaves two visible copies. */
  lemma RecoveredDatabaseDuplicates(event: EventId, id: WaId)
    ensures var down := CLEAN.(put := NotApplied, reconcile := false);
      && HandledMessage(EMPTY, event, id, down).1 == Nak
      && |CopiesOf(After(EMPTY, [DeliverMessage(event, id, down), DeliverMessage(event, id, CLEAN)]), Message(id))| == 2
  {
    var down := CLEAN.(put := NotApplied, reconcile := false);
    var first, second := DeliverMessage(event, id, down), DeliverMessage(event, id, CLEAN);
    var s := Apply(EMPTY, first);
    assert CopiesOf(s, Message(id)) == [Creation(0, 0, false)];
    assert CopiesOf(Apply(s, second), Message(id)) == [Creation(0, 0, false), Creation(1, 1, true)];
    assert [first, second][1..] == [second] && [second][1..] == [];
    assert After(s, [second]) == Apply(s, second);
  }
}
