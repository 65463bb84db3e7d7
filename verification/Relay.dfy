/** The transactional event outbox (internal/storage/postgres/events.go) and the relay that
    publishes it (internal/events/relay.go).

    The table is kept in the order the claim reads it, by creation and then id. The lemmas say
    that no event is lost whatever fails, and exactly when a pass makes progress. */
module Relay {
  import opened Wrappers

  type EventId = nat

  /** `decodable` is whether the stored envelope parses. */
  datatype Row = Row(id: EventId, decodable: bool, createdAt: int, attempts: nat, lastError: string, publishedAt: Option<int>)

  type Rows = seq<Row>

  // ---- The statements of the table -----------------------------------------------------

  predicate Before(a: Row, b: Row) {
    a.createdAt < b.createdAt || (a.createdAt == b.createdAt && a.id < b.id)
  }

  ghost predicate InOrder(rows: Rows) {
    forall i, j :: 0 <= i < j < |rows| ==> Before(rows[i], rows[j])
  }

  ghost predicate UniqueIds(rows: Rows) {
    forall i, j :: 0 <= i < j < |rows| ==> rows[i].id != rows[j].id
  }

  predicate HasId(rows: Rows, id: EventId) {
    exists i :: 0 <= i < |rows| && rows[i].id == id
  }

  function Inserted(rows: Rows, row: Row): Rows {
    if rows == [] || Before(row, rows[0]) then [row] + rows else [rows[0]] + Inserted(rows[1..], row)
  }

  lemma InsertedPast(rows: Rows, row: Row, i: nat)
    requires i < |rows| && !Before(row, rows[i])
    ensures rows[..i] + Inserted(rows[i..], row) == rows[..i + 1] + Inserted(rows[i + 1..], row)
  {
    assert rows[i..][1..] == rows[i + 1..];
    Regroup(rows[..i], [rows[i]], Inserted(rows[i + 1..], row));
    assert rows[..i + 1] == rows[..i] + [rows[i]];
  }

  lemma InsertedHere(rows: Rows, row: Row, i: nat)
    requires i <= |rows| && (i == |rows| || Before(row, rows[i]))
    ensures rows[..i] + Inserted(rows[i..], row) == rows[..i] + [row] + rows[i..]
  {
    Regroup(rows[..i], [row], rows[i..]);
    assert i == |rows| ==> [row] == [row] + rows[i..];
  }

  function Pending(rows: Rows, limit: nat): Rows {
    if rows == [] || limit == 0 then []
    else if rows[0].publishedAt.None? then [rows[0]] + Pending(rows[1..], limit - 1)
    else Pending(rows[1..], limit)
  }

  /** The two updates of the relay. */
  datatype Change = Published(at: int) | Failed(cause: string)

  function Changed(row: Row, change: Change): Row {
    match change
    case Published(at) => row.(publishedAt := Some(at), lastError := "")
    case Failed(cause) => row.(attempts := row.attempts + 1, lastError := cause)
  }

  /** UPDATE ... WHERE id = $1. */
  function Updated(rows: Rows, id: EventId, change: Change): Rows {
    seq(|rows|, i requires 0 <= i < |rows| => if rows[i].id == id then Changed(rows[i], change) else rows[i])
  }

  function Purged(rows: Rows, cutoff: int): Rows {
    if rows == [] then []
    else if rows[0].publishedAt.Some? && rows[0].publishedAt.value < cutoff then Purged(rows[1..], cutoff)
    else [rows[0]] + Purged(rows[1..], cutoff)
  }

  /** Pending rows up to the limit, none left behind that is older than one of them, and none at all
      when there was room; in a table that is kept in order, with one row to an id. */
  ghost predicate OldestPending(rows: Rows, limit: int, batch: Rows) {
    && |batch| <= (if limit < 0 then 0 else limit)
    && (forall r :: r in batch ==> r in rows && r.publishedAt.None?)
    && (InOrder(rows) && UniqueIds(rows) ==>
          forall r, q :: r in batch && q in rows && q.publishedAt.None? && q !in batch ==>
            r.createdAt < q.createdAt || (r.createdAt == q.createdAt && r.id < q.id))
    && (|batch| < limit ==> forall q :: q in rows && q.publishedAt.None? ==> q in batch)
  }

  class EventOutbox {
    var rows: Rows

    constructor ()
      ensures rows == []
    {
      rows := [];
    }

    /** The primary key rejects a repeated id. */
    method Enqueue(id: EventId, decodable: bool, createdAt: int) returns (ok: bool)
      modifies this
      ensures ok == !HasId(old(rows), id)
      ensures rows == if ok then Inserted(old(rows), Row(id, decodable, createdAt, 0, "", None)) else old(rows)
    {
      var row := Row(id, decodable, createdAt, 0, "", None);
      ok := !HasId(rows, id);
      if ok {
        var i := 0;
        assert rows[..0] + Inserted(rows[0..], row) == Inserted(rows, row);
        while i < |rows| && !Before(row, rows[i])
          invariant 0 <= i <= |rows| && rows == old(rows)
          invariant Inserted(rows, row) == rows[..i] + Inserted(rows[i..], row)
        {
          InsertedPast(rows, row, i);
          i := i + 1;
        }
        InsertedHere(rows, row, i);
        rows := rows[..i] + [row] + rows[i..];
      }
    }

    method ClaimPending(limit: int) returns (batch: Rows)
      ensures batch == if limit <= 0 then [] else Pending(rows, limit)
      ensures OldestPending(rows, limit, batch)
    {
      batch := [];
      if limit <= 0 {
        ClaimMeans(rows, limit);
        return;
      }
      var i := 0;
      while i < |rows| && |batch| < limit
        invariant 0 <= i <= |rows| && |batch| <= limit
        invariant Pending(rows, limit) == batch + Pending(rows[i..], limit - |batch|)
      {
        if rows[i].publishedAt.None? {
          batch := batch + [rows[i]];
        }
        i := i + 1;
      }
      ClaimMeans(rows, limit);
    }

    method MarkPublished(id: EventId, now: int) returns (found: bool)
      modifies this
      ensures found == HasId(old(rows), id) && rows == Updated(old(rows), id, Published(now))
    {
      found := HasId(rows, id);
      rows := Updated(rows, id, Published(now));
    }

    method MarkAttempt(id: EventId, cause: string) returns (found: bool)
      modifies this
      ensures found == HasId(old(rows), id) && rows == Updated(old(rows), id, Failed(cause))
    {
      found := HasId(rows, id);
      rows := Updated(rows, id, Failed(cause));
    }

    method DeletePublishedBefore(cutoff: int) returns (removed: nat)
      modifies this
      ensures rows == Purged(old(rows), cutoff) && removed == |old(rows)| - |rows|
      ensures forall r :: r in rows <==> r in old(rows) && (r.publishedAt.None? || r.publishedAt.value >= cutoff)
    {
      PurgedDropsOldPublished(rows, cutoff);
      var kept: Rows := [];
      for i := 0 to |rows|
        invariant rows == old(rows)
        invariant Purged(rows, cutoff) == kept + Purged(rows[i..], cutoff) && |kept| <= i
      {
        if rows[i].publishedAt.None? || rows[i].publishedAt.value >= cutoff {
          kept := kept + [rows[i]];
        }
      }
      removed := |rows| - |kept|;
      rows := kept;
    }
  }

  // ---- The relay ----------------------------------------------------------------------

  /** How the calls for one event went: what the broker and the client made of the publish, and
      what became of the update that records it. */
  datatype Sent = Acked | AcceptedButFailed | Refused

  datatype Outcome = Outcome(sent: Sent, updated: bool)

  /** The update the relay asks for after one event. */
  function ChangeFor(row: Row, outcome: Outcome, now: int): Change {
    if !row.decodable then Failed("decode envelope")
    else if outcome.sent.Acked? then Published(now)
    else Failed("publish")
  }

  function Delivered(rows: Rows, row: Row, outcome: Outcome, now: int): Rows {
    if outcome.updated then Updated(rows, row.id, ChangeFor(row, outcome, now)) else rows
  }

  function Accepted(accepted: set<EventId>, row: Row, outcome: Outcome): set<EventId> {
    if row.decodable && !outcome.sent.Refused? then accepted + {row.id} else accepted
  }

  function DeliveredAll(rows: Rows, batch: Rows, outcomes: seq<Outcome>, now: int): Rows
    requires |batch| == |outcomes|
    decreases |batch|
  {
    if batch == [] then rows
    else DeliveredAll(Delivered(rows, batch[0], outcomes[0], now), batch[1..], outcomes[1..], now)
  }

  function AcceptedAll(accepted: set<EventId>, batch: Rows, outcomes: seq<Outcome>): set<EventId>
    requires |batch| == |outcomes|
    decreases |batch|
  {
    if batch == [] then accepted
    else AcceptedAll(Accepted(accepted, batch[0], outcomes[0]), batch[1..], outcomes[1..])
  }

  class Publisher {
    var accepted: set<EventId>

    constructor ()
      ensures accepted == {}
    {
      accepted := {};
    }

    method Publish(id: EventId, sent: Sent) returns (ok: bool)
      modifies this
      ensures ok == sent.Acked?
      ensures accepted == if sent.Refused? then old(accepted) else old(accepted) + {id}
    {
      if !sent.Refused? {
        accepted := accepted + {id};
      }
      ok := sent.Acked?;
    }
  }

  /** What becomes of the row of an event whose turn it was: a publish the client saw succeed stamps it,
      anything else counts an attempt and leaves it as pending as it was, and a failed update
      leaves no trace. */
  ghost predicate RecordedAs(before: Row, after: Row, decodable: bool, outcome: Outcome, now: int) {
    if !outcome.updated then after == before
    else if decodable && outcome.sent.Acked? then after == before.(publishedAt := Some(now), lastError := "")
    else after == before.(attempts := before.attempts + 1, lastError := if decodable then "publish" else "decode envelope")
  }

  ghost predicate RecordedIn(before: Row, after: Row, batch: Rows, outcomes: seq<Outcome>, now: int)
    requires |batch| == |outcomes|
  {
    && (!HasId(batch, before.id) ==> after == before)
    && (forall k :: 0 <= k < |batch| && batch[k].id == before.id ==>
          RecordedAs(before, after, batch[k].decodable, outcomes[k], now))
  }

  lemma {:induction false} PublishRecordsAt(rows: Rows, batch: Rows, outcomes: seq<Outcome>, now: int, i: nat)
    requires |batch| == |outcomes| && i < |rows| && UniqueIds(batch)
    ensures |DeliveredAll(rows, batch, outcomes, now)| == |rows|
    ensures RecordedIn(rows[i], DeliveredAll(rows, batch, outcomes, now)[i], batch, outcomes, now)
    decreases |batch|
  {
    if batch != [] {
      var next, rest := Delivered(rows, batch[0], outcomes[0], now), batch[1..];
      PublishRecordsAt(next, rest, outcomes[1..], now, i);
      assert forall j :: 0 <= j < |rest| ==> rest[j] == batch[j + 1] && outcomes[1..][j] == outcomes[j + 1];
      if batch[0].id == rows[i].id {
        assert !HasId(rest, rows[i].id);
      } else if HasId(batch, rows[i].id) {
        var k :| 0 <= k < |batch| && batch[k].id == rows[i].id;
        assert rest[k - 1].id == rows[i].id;
      }
    }
  }

  lemma {:induction false} SameLength(rows: Rows, batch: Rows, outcomes: seq<Outcome>, now: int)
    requires |batch| == |outcomes|
    ensures |DeliveredAll(rows, batch, outcomes, now)| == |rows|
    decreases |batch|
  {
    if batch != [] {
      SameLength(Delivered(rows, batch[0], outcomes[0], now), batch[1..], outcomes[1..], now);
    }
  }

  lemma PublishRecords(rows: Rows, batch: Rows, outcomes: seq<Outcome>, now: int)
    requires |batch| == |outcomes|
    ensures |DeliveredAll(rows, batch, outcomes, now)| == |rows|
    ensures UniqueIds(batch) ==>
              forall i :: 0 <= i < |rows| ==> RecordedIn(rows[i], DeliveredAll(rows, batch, outcomes, now)[i], batch, outcomes, now)
  {
    SameLength(rows, batch, outcomes, now);
    if UniqueIds(batch) {
      forall i | 0 <= i < |rows|
        ensures RecordedIn(rows[i], DeliveredAll(rows, batch, outcomes, now)[i], batch, outcomes, now)
      {
        PublishRecordsAt(rows, batch, outcomes, now, i);
      }
    }
  }

  lemma {:induction false} PublishAccepts(accepted: set<EventId>, batch: Rows, outcomes: seq<Outcome>)
    requires |batch| == |outcomes|
    ensures forall id :: id in AcceptedAll(accepted, batch, outcomes) <==>
              id in accepted
              || exists k :: 0 <= k < |batch| && batch[k].id == id && batch[k].decodable && !outcomes[k].sent.Refused?
    decreases |batch|
  {
    if batch != [] {
      var next := Accepted(accepted, batch[0], outcomes[0]);
      PublishAccepts(next, batch[1..], outcomes[1..]);
      forall id
        ensures id in AcceptedAll(accepted, batch, outcomes) <==>
                  id in accepted
                  || exists k :: 0 <= k < |batch| && batch[k].id == id && batch[k].decodable && !outcomes[k].sent.Refused?
      {
        if k :| 0 <= k < |batch| && batch[k].id == id && batch[k].decodable && !outcomes[k].sent.Refused? {
          assert k > 0 ==> batch[1..][k - 1] == batch[k] && outcomes[1..][k - 1] == outcomes[k];
        }
      }
    }
  }

  /** PublishNow: every event of the batch is attempted, whatever happened to the ones before. */
  method PublishNow(outbox: EventOutbox, publisher: Publisher, batch: Rows, outcomes: seq<Outcome>, now: int)
    returns (failures: nat)
    requires |batch| == |outcomes|
    modifies outbox, publisher
    ensures outbox.rows == DeliveredAll(old(outbox.rows), batch, outcomes, now)
    ensures publisher.accepted == AcceptedAll(old(publisher.accepted), batch, outcomes)
    ensures |outbox.rows| == |old(outbox.rows)|
    ensures UniqueIds(batch) ==>
              forall i :: 0 <= i < |outbox.rows| ==>
                RecordedIn(old(outbox.rows)[i], outbox.rows[i], batch, outcomes, now)
    ensures forall id :: id in publisher.accepted <==>
              id in old(publisher.accepted)
              || exists k :: 0 <= k < |batch| && batch[k].id == id && batch[k].decodable && !outcomes[k].sent.Refused?
    ensures failures == 0 <==>
              forall i :: 0 <= i < |batch| ==> batch[i].decodable && outcomes[i].sent.Acked? && outcomes[i].updated
  {
    PublishRecords(outbox.rows, batch, outcomes, now);
    PublishAccepts(publisher.accepted, batch, outcomes);
    failures := 0;
    for i := 0 to |batch|
      invariant DeliveredAll(old(outbox.rows), batch, outcomes, now)
             == DeliveredAll(outbox.rows, batch[i..], outcomes[i..], now)
      invariant AcceptedAll(old(publisher.accepted), batch, outcomes)
             == AcceptedAll(publisher.accepted, batch[i..], outcomes[i..])
      invariant failures == 0 <==>
                  forall j :: 0 <= j < i ==> batch[j].decodable && outcomes[j].sent.Acked? && outcomes[j].updated
    {
      var event, outcome := batch[i], outcomes[i];
      assert batch[i..][1..] == batch[i + 1..] && outcomes[i..][1..] == outcomes[i + 1..];
      var sent := false;
      if event.decodable {
        sent := publisher.Publish(event.id, outcome.sent);
      }
      if outcome.updated {
        if sent {
          var _ := outbox.MarkPublished(event.id, now);
        } else {
          var _ := outbox.MarkAttempt(event.id, if event.decodable then "publish" else "decode envelope");
        }
      }
      if !sent || !outcome.updated {
        failures := failures + 1;
      }
    }
  }

  // ---- No event is lost -----------------------------------------------------------------

  /** `enqueued` records every event a producer wrote. */
  datatype State = State(rows: Rows, accepted: set<EventId>, enqueued: set<EventId>)

  /** A delivery is one event of some batch; a crash is a batch that stops, so a run may break
      off anywhere, replay a stale batch, or mix deliveries with inserts and cleanups. */
  datatype Step =
    | Enqueue(row: Row)
    | Deliver(row: Row, outcome: Outcome, now: int)
    | Cleanup(cutoff: int)

  predicate Enabled(s: State, step: Step) {
    match step
    case Enqueue(row) => !HasId(s.rows, row.id) && row.publishedAt.None?
    case Deliver(_, _, _) => true
    case Cleanup(_) => true
  }

  function Apply(s: State, step: Step): State {
    match step
    case Enqueue(row) => s.(rows := Inserted(s.rows, row), enqueued := s.enqueued + {row.id})
    case Deliver(row, outcome, now) =>
      s.(rows := Delivered(s.rows, row, outcome, now), accepted := Accepted(s.accepted, row, outcome))
    case Cleanup(cutoff) => s.(rows := Purged(s.rows, cutoff))
  }

  ghost predicate PendingId(rows: Rows, id: EventId) {
    exists i :: 0 <= i < |rows| && rows[i].id == id && rows[i].publishedAt.None?
  }

  ghost predicate Inv(s: State) {
    && InOrder(s.rows) && UniqueIds(s.rows)
    && (forall i :: 0 <= i < |s.rows| && s.rows[i].publishedAt.Some? ==> s.rows[i].id in s.accepted)
    && (forall id :: id in s.enqueued ==> PendingId(s.rows, id) || id in s.accepted)
  }

  lemma {:induction false} InsertedAdds(rows: Rows, row: Row)
    ensures forall r :: r in Inserted(rows, row) <==> r == row || r in rows
  {
    if rows != [] && !Before(row, rows[0]) {
      InsertedAdds(rows[1..], row);
      assert rows == [rows[0]] + rows[1..];
    }
  }

  lemma {:induction false} PurgedDropsOldPublished(rows: Rows, cutoff: int)
    ensures forall r :: r in Purged(rows, cutoff)
                        <==> r in rows && (r.publishedAt.None? || r.publishedAt.value >= cutoff)
  {
    if rows != [] {
      PurgedDropsOldPublished(rows[1..], cutoff);
      assert rows == [rows[0]] + rows[1..];
    }
  }

  lemma {:induction false} InsertedKeepsOrder(rows: Rows, row: Row)
    requires InOrder(rows) && UniqueIds(rows) && !HasId(rows, row.id)
    ensures InOrder(Inserted(rows, row)) && UniqueIds(Inserted(rows, row))
  {
    if rows != [] && !Before(row, rows[0]) {
      var rest := Inserted(rows[1..], row);
      assert forall i :: 0 <= i < |rows[1..]| ==> rows[1..][i] == rows[i + 1];
      InsertedKeepsOrder(rows[1..], row);
      InsertedAdds(rows[1..], row);
      forall i | 0 <= i < |rest|
        ensures Before(rows[0], rest[i]) && rows[0].id != rest[i].id
      {
        assert rest[i] in rest;
      }
    }
  }

  lemma {:induction false} PurgedKeepsOrder(rows: Rows, cutoff: int)
    requires InOrder(rows) && UniqueIds(rows)
    ensures InOrder(Purged(rows, cutoff)) && UniqueIds(Purged(rows, cutoff))
  {
    if rows != [] {
      var rest := Purged(rows[1..], cutoff);
      assert forall i :: 0 <= i < |rows[1..]| ==> rows[1..][i] == rows[i + 1];
      PurgedKeepsOrder(rows[1..], cutoff);
      PurgedDropsOldPublished(rows[1..], cutoff);
      forall i | 0 <= i < |rest|
        ensures Before(rows[0], rest[i]) && rows[0].id != rest[i].id
      {
        assert rest[i] in rest;
      }
    }
  }

  lemma StepKeepsInv(s: State, step: Step)
    requires Inv(s) && Enabled(s, step)
    ensures Inv(Apply(s, step))
  {
    var t := Apply(s, step);
    match step
    case Enqueue(row) =>
      InsertedAdds(s.rows, row);
      InsertedKeepsOrder(s.rows, row);
      KeptRowsKeepInv(s, t);
      assert row in t.rows;
    case Deliver(row, outcome, now) =>
      DeliverKeepsInv(s, row, outcome, now);
    case Cleanup(cutoff) =>
      PurgedDropsOldPublished(s.rows, cutoff);
      PurgedKeepsOrder(s.rows, cutoff);
      KeptRowsKeepInv(s, t);
  }

  /** Adding unpublished rows and dropping published ones loses no event. */
  lemma KeptRowsKeepInv(s: State, t: State)
    requires Inv(s) && t.accepted == s.accepted
    requires forall r :: r in t.rows ==> r in s.rows || r.publishedAt.None?
    requires forall r :: r in s.rows && r.publishedAt.None? ==> r in t.rows
    ensures forall i :: 0 <= i < |t.rows| && t.rows[i].publishedAt.Some? ==> t.rows[i].id in t.accepted
    ensures forall id :: id in s.enqueued ==> PendingId(t.rows, id) || id in t.accepted
  {
  }

  lemma DeliverKeepsInv(s: State, row: Row, outcome: Outcome, now: int)
    requires Inv(s)
    ensures Inv(Apply(s, Deliver(row, outcome, now)))
  {
    var t := Apply(s, Deliver(row, outcome, now));
    forall id | id in s.enqueued && id !in t.accepted
      ensures PendingId(t.rows, id)
    {
      var i :| 0 <= i < |s.rows| && s.rows[i].id == id && s.rows[i].publishedAt.None?;
      assert t.rows[i].id == id && t.rows[i].publishedAt.None?;
    }
  }

  ghost predicate Run(s: State, steps: seq<Step>, t: State)
    decreases |steps|
  {
    if steps == [] then s == t
    else Enabled(s, steps[0]) && Run(Apply(s, steps[0]), steps[1..], t)
  }

  lemma {:induction false} RunKeepsInv(s: State, steps: seq<Step>, t: State)
    requires Inv(s) && Run(s, steps, t)
    ensures Inv(t)
    decreases |steps|
  {
    if steps != [] {
      StepKeepsInv(s, steps[0]);
      RunKeepsInv(Apply(s, steps[0]), steps[1..], t);
    }
  }

  /** At every moment of every run, whatever calls fail, an event a producer wrote is still a
      pending row or has been accepted by the broker. */
  lemma NoEventLost(steps: seq<Step>, t: State, id: EventId)
    requires Run(State([], {}, {}), steps, t) && id in t.enqueued
    ensures PendingId(t.rows, id) || id in t.accepted
    ensures InOrder(t.rows) && UniqueIds(t.rows)
    ensures !PendingId(t.rows, id) || forall cutoff :: PendingId(Purged(t.rows, cutoff), id)
  {
    RunKeepsInv(State([], {}, {}), steps, t);
    if PendingId(t.rows, id) {
      var i :| 0 <= i < |t.rows| && t.rows[i].id == id && t.rows[i].publishedAt.None?;
      forall cutoff
        ensures PendingId(Purged(t.rows, cutoff), id)
      {
        PurgedDropsOldPublished(t.rows, cutoff);
        assert t.rows[i] in Purged(t.rows, cutoff);
      }
    }
  }

  // ---- Progress ---------------------------------------------------------------------------

  /** A pass in which every call succeeds. */
  function Pass(rows: Rows, limit: nat, now: int): Rows {
    var batch := Pending(rows, limit);
    DeliveredAll(rows, batch, seq(|batch|, _ => Outcome(Acked, true)), now)
  }

  function Passes(rows: Rows, limit: nat, now: int, n: nat): Rows
    decreases n
  {
    if n == 0 then rows else Passes(Pass(rows, limit, now), limit, now, n - 1)
  }

  predicate Good(row: Row) { row.publishedAt.None? && row.decodable }

  predicate Poison(row: Row) { row.publishedAt.None? && !row.decodable }

  function Backlog(rows: Rows): nat {
    if rows == [] then 0 else Backlog(rows[..|rows| - 1]) + (if Good(rows[|rows| - 1]) then 1 else 0)
  }

  function Waiting(rows: Rows): nat {
    if rows == [] then 0 else Waiting(rows[..|rows| - 1]) + (if rows[|rows| - 1].publishedAt.None? then 1 else 0)
  }

  function Poisoned(rows: Rows): nat {
    if rows == [] then 0 else Poisoned(rows[..|rows| - 1]) + (if Poison(rows[|rows| - 1]) then 1 else 0)
  }

  /** Fewer undecodable rows than a batch holds are ahead of every event that can be sent. */
  ghost predicate Reachable(rows: Rows, limit: nat) {
    forall i :: 0 <= i < |rows| && Good(rows[i]) ==> Poisoned(rows[..i]) < limit
  }

  lemma {:induction false} WaitingSplits(first: Row, rest: Rows)
    ensures Waiting([first] + rest) == Waiting(rest) + (if first.publishedAt.None? then 1 else 0)
  {
    var all := [first] + rest;
    if rest != [] {
      assert all[..|all| - 1] == [first] + rest[..|rest| - 1];
      WaitingSplits(first, rest[..|rest| - 1]);
    } else {
      assert all[..|all| - 1] == [];
    }
  }

  /** A claim takes exactly the pending rows with fewer than `limit` pending rows before them. */
  lemma {:induction false} ClaimTakesOldest(rows: Rows, limit: nat, i: nat)
    requires UniqueIds(rows) && i < |rows|
    ensures rows[i] in Pending(rows, limit) <==> rows[i].publishedAt.None? && Waiting(rows[..i]) < limit
    decreases |rows|
  {
    if limit > 0 {
      var rest := rows[1..];
      var taken := if rows[0].publishedAt.None? then limit - 1 else limit;
      PendingIsPart(rest, taken);
      if i > 0 {
        ClaimTakesOldest(rest, taken, i - 1);
        assert rows[..i] == [rows[0]] + rest[..i - 1];
        WaitingSplits(rows[0], rest[..i - 1]);
        assert rows[i] != rows[0];
      } else {
        assert rows[0] !in rest;
      }
    }
  }

  lemma {:induction false} PendingIsPart(rows: Rows, limit: nat)
    ensures forall r :: r in Pending(rows, limit) ==> r in rows && r.publishedAt.None?
    ensures |Pending(rows, limit)| <= limit
    ensures UniqueIds(rows) ==> UniqueIds(Pending(rows, limit))
  {
    if rows != [] && limit > 0 {
      PendingIsPart(rows[1..], limit - 1);
      PendingIsPart(rows[1..], limit);
      assert forall r :: r in rows[1..] ==> exists j :: 1 <= j < |rows| && rows[j] == r;
    }
  }

  lemma {:induction false} WaitingGrows(rows: Rows, i: nat, j: nat)
    requires i <= j <= |rows|
    ensures Waiting(rows[..i]) <= Waiting(rows[..j]) <= j
    decreases j
  {
    if j > 0 {
      assert rows[..j][..j - 1] == rows[..j - 1];
      WaitingGrows(rows, if i < j then i else j - 1, j - 1);
    }
  }

  /** What is left pending is younger than all that was taken. */
  lemma ClaimIsOldest(rows: Rows, limit: nat, r: Row, q: Row)
    requires InOrder(rows) && UniqueIds(rows) && r in Pending(rows, limit)
    requires q in rows && q.publishedAt.None? && q !in Pending(rows, limit)
    ensures r.createdAt < q.createdAt || (r.createdAt == q.createdAt && r.id < q.id)
  {
    PendingIsPart(rows, limit);
    var i :| 0 <= i < |rows| && rows[i] == r;
    var j :| 0 <= j < |rows| && rows[j] == q;
    ClaimTakesOldest(rows, limit, i);
    ClaimTakesOldest(rows, limit, j);
    if j < i {
      WaitingGrows(rows, j, i);
    }
  }

  lemma {:induction false} ShortClaimTakesAll(rows: Rows, limit: nat)
    requires |Pending(rows, limit)| < limit
    ensures forall q :: q in rows && q.publishedAt.None? ==> q in Pending(rows, limit)
  {
    if rows != [] {
      ShortClaimTakesAll(rows[1..], if rows[0].publishedAt.None? then limit - 1 else limit);
      assert rows == [rows[0]] + rows[1..];
    }
  }

  lemma ClaimMeans(rows: Rows, limit: int)
    ensures OldestPending(rows, limit, if limit <= 0 then [] else Pending(rows, limit))
  {
    if limit > 0 {
      PendingIsPart(rows, limit);
      if |Pending(rows, limit)| < limit {
        ShortClaimTakesAll(rows, limit);
      }
      if InOrder(rows) && UniqueIds(rows) {
        forall r, q | r in Pending(rows, limit) && q in rows && q.publishedAt.None? && q !in Pending(rows, limit)
          ensures r.createdAt < q.createdAt || (r.createdAt == q.createdAt && r.id < q.id)
        {
          ClaimIsOldest(rows, limit, r, q);
        }
      }
    }
  }

  lemma {:induction false} DeliveredAllAt(rows: Rows, batch: Rows, outcomes: seq<Outcome>, now: int, i: nat)
    requires |batch| == |outcomes| && i < |rows| && UniqueIds(batch)
    requires forall k :: 0 <= k < |outcomes| ==> outcomes[k] == Outcome(Acked, true)
    ensures |DeliveredAll(rows, batch, outcomes, now)| == |rows|
    ensures var row := DeliveredAll(rows, batch, outcomes, now)[i];
      && row.id == rows[i].id && row.decodable == rows[i].decodable
      && (!HasId(batch, rows[i].id) ==> row == rows[i])
      && (forall b :: b in batch && b.id == rows[i].id ==> row == Changed(rows[i], ChangeFor(b, Outcome(Acked, true), now)))
    decreases |batch|
  {
    if batch != [] {
      var next := Delivered(rows, batch[0], outcomes[0], now);
      var rest := batch[1..];
      DeliveredAllAt(next, rest, outcomes[1..], now, i);
      assert forall j :: 0 <= j < |rest| ==> rest[j] == batch[j + 1];
      forall b | b in batch && b.id == rows[i].id
        ensures if b == batch[0] then !HasId(rest, b.id) else b in rest
      {
        var k :| 0 <= k < |batch| && batch[k] == b;
        assert k > 0 ==> b == rest[k - 1];
      }
    }
  }

  /** A pass publishes the decodable rows it claims, counts an attempt on the others, and
      touches nothing else. */
  lemma PassAt(rows: Rows, limit: nat, now: int, i: nat)
    requires UniqueIds(rows) && i < |rows|
    ensures |Pass(rows, limit, now)| == |rows|
    ensures Pass(rows, limit, now)[i] ==
            if rows[i].publishedAt.None? && Waiting(rows[..i]) < limit
            then Changed(rows[i], if rows[i].decodable then Published(now) else Failed("decode envelope"))
            else rows[i]
  {
    var batch := Pending(rows, limit);
    PendingIsPart(rows, limit);
    ClaimTakesOldest(rows, limit, i);
    DeliveredAllAt(rows, batch, seq(|batch|, _ => Outcome(Acked, true)), now, i);
    if HasId(batch, rows[i].id) {
      var j :| 0 <= j < |batch| && batch[j].id == rows[i].id;
      assert batch[j] in batch;
      assert batch[j] == rows[i];
    }
  }

  lemma {:induction false} BacklogDrops(rows: Rows, after: Rows)
    requires |after| == |rows|
    requires forall i :: 0 <= i < |rows| && Good(after[i]) ==> Good(rows[i])
    ensures Backlog(after) <= Backlog(rows)
    ensures Backlog(after) < Backlog(rows) <==> exists i :: 0 <= i < |rows| && Good(rows[i]) && !Good(after[i])
  {
    if rows != [] {
      var n := |rows| - 1;
      BacklogDrops(rows[..n], after[..n]);
      if i :| 0 <= i < |rows| && Good(rows[i]) && !Good(after[i]) {
        assert i < n ==> rows[..n][i] == rows[i];
      }
    }
  }

  lemma {:induction false} CountsMatch(rows: Rows)
    ensures Waiting(rows) == Backlog(rows) + Poisoned(rows)
    ensures Backlog(rows) > 0 <==> exists i :: 0 <= i < |rows| && Good(rows[i])
  {
    if rows != [] {
      var n := |rows| - 1;
      CountsMatch(rows[..n]);
      if i :| 0 <= i < |rows| && Good(rows[i]) {
        assert i < n ==> rows[..n][i] == rows[i];
      }
    }
  }

  lemma {:induction false} PoisonedOnlyByKind(rows: Rows, after: Rows)
    requires |after| == |rows| && forall i :: 0 <= i < |rows| ==> (Poison(after[i]) <==> Poison(rows[i]))
    ensures Poisoned(after) == Poisoned(rows)
  {
    if rows != [] {
      PoisonedOnlyByKind(rows[..|rows| - 1], after[..|rows| - 1]);
    }
  }

  /** A pass keeps the ids, the undecodable rows and their places; it only takes decodable
      rows out of the backlog. */
  lemma PassKeepsShape(rows: Rows, limit: nat, now: int)
    requires UniqueIds(rows)
    ensures var after := Pass(rows, limit, now);
      && |after| == |rows| && UniqueIds(after)
      && (forall i :: 0 <= i < |rows| ==> (Good(after[i]) <==> Good(rows[i]) && Waiting(rows[..i]) >= limit))
      && (forall i :: 0 <= i < |rows| ==> Poisoned(after[..i]) == Poisoned(rows[..i]))
  {
    var after := Pass(rows, limit, now);
    if rows == [] {
      DeliveredNothing(now);
    } else {
      PassAt(rows, limit, now, 0);
      forall i | 0 <= i < |rows|
        ensures after[i].id == rows[i].id && (Poison(after[i]) <==> Poison(rows[i]))
        ensures Good(after[i]) <==> Good(rows[i]) && Waiting(rows[..i]) >= limit
      {
        PassAt(rows, limit, now, i);
      }
      forall i | 0 <= i < |rows|
        ensures Poisoned(after[..i]) == Poisoned(rows[..i])
      {
        PoisonedOnlyByKind(rows[..i], after[..i]);
      }
    }
  }

  lemma DeliveredNothing(now: int)
    ensures forall limit: nat :: Pass([], limit, now) == []
  {
  }

  /** Progress, exactly: a pass lowers the backlog if and only if the rows it claims include one
      that can be decoded. */
  lemma PassProgress(rows: Rows, limit: nat, now: int)
    requires UniqueIds(rows)
    ensures Backlog(Pass(rows, limit, now)) <= Backlog(rows)
    ensures Backlog(Pass(rows, limit, now)) < Backlog(rows)
       <==> exists r :: r in Pending(rows, limit) && r.decodable
  {
    var after := Pass(rows, limit, now);
    PassKeepsShape(rows, limit, now);
    BacklogDrops(rows, after);
    PendingIsPart(rows, limit);
    forall i | 0 <= i < |rows|
      ensures rows[i] in Pending(rows, limit) <==> rows[i].publishedAt.None? && Waiting(rows[..i]) < limit
    {
      ClaimTakesOldest(rows, limit, i);
    }
    if r :| r in Pending(rows, limit) && r.decodable {
      var i :| 0 <= i < |rows| && rows[i] == r;
      assert Good(rows[i]) && !Good(after[i]);
    }
  }

  /** With a reachable backlog every pass makes progress. */
  lemma ReachablePassProgress(rows: Rows, limit: nat, now: int)
    requires UniqueIds(rows) && Reachable(rows, limit)
    ensures UniqueIds(Pass(rows, limit, now)) && Reachable(Pass(rows, limit, now), limit)
    ensures Backlog(rows) > 0 ==> Backlog(Pass(rows, limit, now)) < Backlog(rows)
    ensures Backlog(rows) == 0 ==> Backlog(Pass(rows, limit, now)) == 0
  {
    PassKeepsShape(rows, limit, now);
    CountsMatch(rows);
    PassProgress(rows, limit, now);
    if Backlog(rows) > 0 {
      var i := FirstGood(rows);
      NothingGoodBefore(rows, i);
      ClaimTakesOldest(rows, limit, i);
    }
  }

  lemma NothingGoodBefore(rows: Rows, i: nat)
    requires i <= |rows| && forall j :: 0 <= j < i ==> !Good(rows[j])
    ensures Waiting(rows[..i]) == Poisoned(rows[..i])
  {
    CountsMatch(rows[..i]);
    assert forall j :: 0 <= j < i ==> rows[..i][j] == rows[j];
  }

  lemma FirstGood(rows: Rows) returns (i: nat)
    requires exists i :: 0 <= i < |rows| && Good(rows[i])
    ensures i < |rows| && Good(rows[i]) && forall j :: 0 <= j < i ==> !Good(rows[j])
  {
    i := 0;
    while !Good(rows[i])
      invariant i < |rows| && forall j :: 0 <= j < i ==> !Good(rows[j])
      decreases |rows| - i
    {
      i := i + 1;
    }
  }

  ghost predicate Draining(rows: Rows, limit: nat, n: nat) {
    UniqueIds(rows) && Reachable(rows, limit) && Backlog(rows) <= n
  }

  lemma PassKeepsDraining(rows: Rows, limit: nat, now: int, n: nat)
    requires Draining(rows, limit, n) && n > 0
    ensures Draining(Pass(rows, limit, now), limit, n - 1)
  {
    ReachablePassProgress(rows, limit, now);
  }

  lemma {:induction false} ReachableBacklogDrains(rows: Rows, limit: nat, now: int, n: nat)
    requires Draining(rows, limit, n)
    ensures Draining(Passes(rows, limit, now, n), limit, 0)
    decreases n
  {
    if n > 0 {
      PassKeepsDraining(rows, limit, now, n);
      ReachableBacklogDrains(Pass(rows, limit, now), limit, now, n - 1);
    }
  }

  lemma {:induction false} BlockedStays(rows: Rows, limit: nat, now: int, n: nat, i: nat)
    requires UniqueIds(rows) && i < |rows| && Good(rows[i]) && Poisoned(rows[..i]) >= limit
    ensures Backlog(Passes(rows, limit, now, n)) > 0
    decreases n
  {
    if n == 0 {
      CountsMatch(rows);
    } else {
      PassKeepsShape(rows, limit, now);
      CountsMatch(rows[..i]);
      BlockedStays(Pass(rows, limit, now), limit, now, n - 1, i);
    }
  }

  lemma UnreachableNeverDrains(rows: Rows, limit: nat, now: int, n: nat)
    requires UniqueIds(rows) && !Reachable(rows, limit)
    ensures Backlog(Passes(rows, limit, now, n)) > 0
  {
    var i :| 0 <= i < |rows| && Good(rows[i]) && Poisoned(rows[..i]) >= limit;
    BlockedStays(rows, limit, now, n, i);
  }

  /** When the relay drains. Undecodable rows stay pending and keep their place, so repeated
      passes publish everything that can be published if and only if fewer than a batch of
      them come before each such row. Then as many passes as there are rows are enough. */
  lemma DrainsExactlyWhenReachable(rows: Rows, limit: nat, now: int)
    requires UniqueIds(rows)
    ensures (exists n: nat :: Backlog(Passes(rows, limit, now, n)) == 0) <==> Reachable(rows, limit)
    ensures Reachable(rows, limit) ==> Backlog(Passes(rows, limit, now, Backlog(rows))) == 0
  {
    if Reachable(rows, limit) {
      var n: nat := Backlog(rows);
      ReachableBacklogDrains(rows, limit, now, n);
      assert Backlog(Passes(rows, limit, now, n)) == 0;
    } else {
      forall n: nat
        ensures Backlog(Passes(rows, limit, now, n)) > 0
      {
        UnreachableNeverDrains(rows, limit, now, n);
      }
    }
  }

  lemma {:induction false} PoisonedGrows(rows: Rows, i: nat)
    requires i <= |rows|
    ensures Poisoned(rows[..i]) <= Poisoned(rows)
  {
    if i < |rows| {
      PoisonedGrows(rows[..|rows| - 1], i);
      assert rows[..|rows| - 1][..i] == rows[..i];
    } else {
      assert rows[..i] == rows;
    }
  }

  /** Fewer undecodable rows than a batch is enough, wherever they are. */
  lemma FewPoisonDrains(rows: Rows, limit: nat, now: int)
    requires UniqueIds(rows) && Poisoned(rows) < limit
    ensures Backlog(rows) > 0 ==> Backlog(Pass(rows, limit, now)) < Backlog(rows)
    ensures Backlog(Passes(rows, limit, now, Backlog(rows))) == 0
  {
    forall i | 0 <= i < |rows|
      ensures Poisoned(rows[..i]) < limit
    {
      PoisonedGrows(rows, i);
    }
    ReachablePassProgress(rows, limit, now);
    ReachableBacklogDrains(rows, limit, now, Backlog(rows));
  }
}
