/** The row transitions of the outbound queue (internal/storage/postgres/messages.go).

    Every statement is one function on the table and one method that runs it. None of the Mark
    updates looks at the status it overwrites: what that costs is the subject of Outbox. */
module MessageQueue {
  import opened Wrappers

  type MsgId = nat
  type InstanceId = nat

  datatype Status = Queued | Sending | Sent | Failed

  datatype Row = Row(
    instance: InstanceId, status: Status, retries: nat, nextAttemptAt: Option<int>,
    createdAt: int, updatedAt: int, whatsappId: string, lastError: string)

  type Table = map<MsgId, Row>

  predicate Due(row: Row, now: int) {
    row.status == Queued && (row.nextAttemptAt.None? || row.nextAttemptAt.value <= now)
  }

  function Claimed(t: Table, ids: set<MsgId>, now: int): Table {
    map id | id in t :: if id in ids then t[id].(status := Sending, updatedAt := now) else t[id]
  }

  /** The three updates a worker can ask for about one message. */
  datatype Change =
    | MarkSent(whatsappId: string)
    | MarkFailed(error: string)
    | MarkRetrying(error: string, nextAttemptAt: int)

  function ChangedRow(row: Row, change: Change, now: int): Row {
    match change
    case MarkSent(wa) => row.(status := Sent, whatsappId := wa, lastError := "", updatedAt := now)
    case MarkFailed(error) => row.(status := Failed, lastError := error, updatedAt := now)
    case MarkRetrying(error, next) =>
      row.(status := Queued, retries := row.retries + 1, lastError := error, nextAttemptAt := Some(next), updatedAt := now)
  }

  function Changed(t: Table, id: MsgId, change: Change, now: int): Table {
    if id in t then t[id := ChangedRow(t[id], change, now)] else t
  }

  predicate Stuck(row: Row, olderThan: int) {
    row.status == Sending && row.updatedAt < olderThan
  }

  function RequeuedRow(row: Row, now: int): Row {
    row.(status := Queued, updatedAt := now)
  }

  function Requeued(t: Table, olderThan: int, now: int): Table {
    map id | id in t :: if Stuck(t[id], olderThan) then RequeuedRow(t[id], now) else t[id]
  }

  /** What the select of a claim returns: due messages, oldest first, up to the limit, and no due
      message older than one it returns left out. */
  ghost predicate IsBatch(t: Table, ids: seq<MsgId>, limit: int, now: int) {
    && (forall i :: 0 <= i < |ids| ==> ids[i] in t && Due(t[ids[i]], now))
    && (forall i, j :: 0 <= i < j < |ids| ==> ids[i] != ids[j] && t[ids[i]].createdAt <= t[ids[j]].createdAt)
    && |ids| <= Max(limit, 0)
    && (forall id :: id in t && Due(t[id], now) && id !in ids ==>
          |ids| >= limit && forall i :: 0 <= i < |ids| ==> t[ids[i]].createdAt <= t[id].createdAt)
  }

  function Max(a: int, b: int): int { if a < b then b else a }

  /** Some of the due messages were picked, the oldest first, and `due` is the rest. */
  ghost predicate Picking(t: Table, ids: seq<MsgId>, due: set<MsgId>, now: int) {
    && (forall id :: id in due <==> id in t && Due(t[id], now) && id !in ids)
    && (forall i :: 0 <= i < |ids| ==> ids[i] in t && Due(t[ids[i]], now))
    && (forall i, j :: 0 <= i < j < |ids| ==> ids[i] != ids[j] && t[ids[i]].createdAt <= t[ids[j]].createdAt)
    && (forall i, id :: 0 <= i < |ids| && id in due ==> t[ids[i]].createdAt <= t[id].createdAt)
  }

  lemma PickOldest(t: Table, ids: seq<MsgId>, due: set<MsgId>, id: MsgId, now: int)
    requires Picking(t, ids, due, now)
    requires id in due && forall other :: other in due ==> t[id].createdAt <= t[other].createdAt
    ensures Picking(t, ids + [id], due - {id}, now)
  {
  }

  /** A claimed message as the worker sees it. */
  datatype Claim = Claim(id: MsgId, instance: InstanceId, attempts: nat)

  class MessageTable {
    var rows: Table

    constructor ()
      ensures rows == map[]
    {
      rows := map[];
    }

    method Oldest(ids: set<MsgId>) returns (id: MsgId)
      requires ids != {} && ids <= rows.Keys
      ensures id in ids && forall other :: other in ids ==> rows[id].createdAt <= rows[other].createdAt
    {
      id :| id in ids;
      var rest := ids - {id};
      while rest != {}
        invariant id in ids && rest <= ids
        invariant forall other :: other in ids && other !in rest ==> rows[id].createdAt <= rows[other].createdAt
        decreases |rest|
      {
        var next :| next in rest;
        rest := rest - {next};
        if rows[next].createdAt < rows[id].createdAt {
          id := next;
        }
      }
    }

    /** The select of a claim. */
    method SelectDue(limit: int, now: int) returns (ids: seq<MsgId>)
      ensures IsBatch(rows, ids, limit, now)
    {
      ids := [];
      var due := set id | id in rows && Due(rows[id], now);
      while due != {} && |ids| < limit
        invariant |ids| <= Max(limit, 0) && Picking(rows, ids, due, now)
        decreases |due|
      {
        var id := Oldest(due);
        PickOldest(rows, ids, due, id, now);
        ids := ids + [id];
        due := due - {id};
      }
    }

    method ClaimQueued(limit: int, now: int) returns (claimed: seq<Claim>, ids: seq<MsgId>)
      modifies this
      ensures IsBatch(old(rows), ids, limit, now)
      ensures rows == Claimed(old(rows), (set id | id in ids), now)
      ensures forall id :: id in ids ==>
                && id in old(rows) && old(rows)[id].status == Queued
                && (old(rows)[id].nextAttemptAt.Some? ==> old(rows)[id].nextAttemptAt.value <= now)
                && id in rows && rows[id] == old(rows)[id].(status := Sending, updatedAt := now)
      ensures forall id :: id in old(rows) && id !in ids ==> id in rows && rows[id] == old(rows)[id]
      ensures |ids| <= Max(limit, 0) && forall i, j :: 0 <= i < j < |ids| ==>
                ids[i] != ids[j] && old(rows)[ids[i]].createdAt <= old(rows)[ids[j]].createdAt
      ensures forall i, id :: 0 <= i < |ids| && id in rows && rows[id].status == Queued
                              && (rows[id].nextAttemptAt.Some? ==> rows[id].nextAttemptAt.value <= now) ==>
                old(rows)[ids[i]].createdAt <= rows[id].createdAt
      ensures |ids| < limit ==>
                forall id :: id in rows && rows[id].status == Queued ==>
                  rows[id].nextAttemptAt.Some? && rows[id].nextAttemptAt.value > now
      ensures |claimed| == |ids|
      ensures forall i :: 0 <= i < |ids| ==>
                claimed[i] == Claim(ids[i], old(rows)[ids[i]].instance, old(rows)[ids[i]].retries)
    {
      ids := SelectDue(limit, now);
      rows := Claimed(rows, (set id | id in ids), now);
      claimed := [];
      for i := 0 to |ids|
        invariant |claimed| == i
        invariant forall j :: 0 <= j < i ==> claimed[j] == Claim(ids[j], rows[ids[j]].instance, rows[ids[j]].retries)
      {
        claimed := claimed + [Claim(ids[i], rows[ids[i]].instance, rows[ids[i]].retries)];
      }
    }

    method Mark(id: MsgId, change: Change, now: int) returns (found: bool)
      modifies this
      ensures found == (id in old(rows)) && rows == Changed(old(rows), id, change, now)
    {
      found := id in rows;
      if !found {
        return;
      }
      var row := rows[id];
      match change
      case MarkSent(wa) =>
        rows := rows[id := row.(status := Sent, whatsappId := wa, lastError := "", updatedAt := now)];
      case MarkFailed(error) =>
        rows := rows[id := row.(status := Failed, lastError := error, updatedAt := now)];
      case MarkRetrying(error, next) =>
        rows := rows[id := row.(status := Queued, retries := row.retries + 1, lastError := error,
                                nextAttemptAt := Some(next), updatedAt := now)];
    }

    method RequeueStuck(olderThan: int, now: int) returns (count: nat)
      modifies this
      ensures rows == Requeued(old(rows), olderThan, now)
      ensures forall id :: id in rows <==> id in old(rows)
      ensures forall id :: id in rows && old(rows)[id].status == Sending ==>
                (rows[id].status == Queued <==> old(rows)[id].updatedAt < olderThan)
                && rows[id].retries == old(rows)[id].retries && rows[id].nextAttemptAt == old(rows)[id].nextAttemptAt
      ensures forall id :: id in rows && old(rows)[id].status != Sending ==> rows[id] == old(rows)[id]
      ensures count == |set id | id in old(rows) && Stuck(old(rows)[id], olderThan)|
    {
      var stuck := set id | id in rows && Stuck(rows[id], olderThan);
      count := |stuck|;
      rows := map id | id in rows :: if id in stuck then rows[id].(status := Queued, updatedAt := now) else rows[id];
    }
  }
}
