/** The Idempotency-Key middleware (internal/httpapi/idempotency.go) over its table
    (internal/storage/postgres/idempotency.go).

    Acquire is three statements, a delete, an insert and a select, with other requests in
    between; Complete and Release look at the key alone. The state machine has one step per
    statement. */
module Idempotency {
  import opened Wrappers

  type RequestId = nat
  type Hash = string
  type Body = string

  /** (instance, key): every statement filters on both. */
  datatype Key = Key(instance: nat, key: string)

  datatype Response = Response(status: nat, body: Body)

  datatype Record = Record(hash: Hash, completed: bool, response: Response, expiresAt: int)

  type Table = map<Key, Record>

  const TTL: int := 86_400_000_000_000

  const NO_RESPONSE: Response := Response(0, "")

  // ---- The statements -----------------------------------------------------------------

  predicate Expired(t: Table, key: Key, now: int) {
    key in t && t[key].expiresAt < now
  }

  function Unexpired(t: Table, key: Key, now: int): Table {
    if Expired(t, key, now) then t - {key} else t
  }

  function Swept(t: Table, now: int): Table {
    map key | key in t && t[key].expiresAt >= now :: t[key]
  }

  function InsertedRow(t: Table, key: Key, hash: Hash, expiresAt: int): Table {
    if key in t then t else t[key := Record(hash, false, NO_RESPONSE, expiresAt)]
  }

  function CompletedRow(t: Table, key: Key, response: Response): Table {
    if key in t then t[key := t[key].(completed := true, response := response)] else t
  }

  /** What the select makes of the row it reads. */
  datatype Reading = Replay(response: Response) | InProgress | Mismatch | Vanished

  function Read(t: Table, key: Key, hash: Hash): Reading {
    if key !in t then Vanished
    else if t[key].hash != hash then Mismatch
    else if !t[key].completed then InProgress
    else Replay(t[key].response)
  }

  class IdempotencyTable {
    var rows: Table

    constructor ()
      ensures rows == map[]
    {
      rows := map[];
    }

    method DropExpired(key: Key, now: int)
      modifies this
      ensures rows == Unexpired(old(rows), key, now)
    {
      if key in rows && rows[key].expiresAt < now {
        rows := rows - {key};
      }
    }

    /** INSERT ... ON CONFLICT DO NOTHING RETURNING; no row back means somebody owns the key. */
    method Insert(key: Key, hash: Hash, expiresAt: int) returns (inserted: bool)
      modifies this
      ensures inserted == (key !in old(rows)) && rows == InsertedRow(old(rows), key, hash, expiresAt)
    {
      inserted := key !in rows;
      if inserted {
        rows := rows[key := Record(hash, false, NO_RESPONSE, expiresAt)];
      }
    }

    method Select(key: Key, hash: Hash) returns (reading: Reading)
      ensures reading == Read(rows, key, hash)
      ensures reading == Vanished <==> key !in rows
      ensures reading == Mismatch <==> key in rows && rows[key].hash != hash
      ensures reading == InProgress <==> key in rows && rows[key].hash == hash && !rows[key].completed
      ensures reading.Replay? ==> reading.response == rows[key].response
    {
      if key !in rows {
        return Vanished;
      }
      var existing := rows[key];
      if existing.hash != hash {
        return Mismatch;
      }
      if !existing.completed {
        return InProgress;
      }
      return Replay(existing.response);
    }

    method Complete(key: Key, response: Response) returns (found: bool)
      modifies this
      ensures found == (key in old(rows)) && rows == CompletedRow(old(rows), key, response)
    {
      found := key in rows;
      if found {
        rows := rows[key := rows[key].(completed := true, response := response)];
      }
    }

    method Release(key: Key)
      modifies this
      ensures rows == old(rows) - {key}
    {
      rows := rows - {key};
    }

    method DeleteExpired(now: int) returns (removed: nat)
      modifies this
      ensures rows == Swept(old(rows), now) && removed == |old(rows)| - |rows|
      ensures forall key :: key in rows <==> key in old(rows) && old(rows)[key].expiresAt >= now
    {
      var before := rows;
      rows := map key | key in rows && rows[key].expiresAt >= now :: rows[key];
      assert rows.Keys <= before.Keys;
      SubsetIsSmaller(rows.Keys, before.Keys);
      assert |rows| == |rows.Keys| && |before| == |before.Keys|;
      removed := |before| - |rows|;
    }
  }

  lemma {:induction false} SubsetIsSmaller(a: set<Key>, b: set<Key>)
    requires a <= b
    ensures |a| <= |b|
  {
    assert b == a + (b - a);
  }

  // ---- What the handler wrote ------------------------------------------------------------

  datatype WriteCall = WriteHeader(status: nat) | Write(bytes: Body)

  /** The first status wins, a body without one means 200, and the body is everything written. */
  function Captured(calls: seq<WriteCall>): Option<Response> {
    if calls == [] then None
    else
      var last := calls[|calls| - 1];
      match Captured(calls[..|calls| - 1])
      case None => Some(if last.WriteHeader? then Response(last.status, "") else Response(200, last.bytes))
      case Some(r) => Some(if last.WriteHeader? then r else r.(body := r.body + last.bytes))
  }

  class ResponseCapture {
    var wrote: bool
    var status: nat
    var body: Body
    ghost var calls: seq<WriteCall>

    ghost predicate Valid()
      reads this
    {
      && Captured(calls) == (if wrote then Some(Response(status, body)) else None)
      && (!wrote ==> body == "")
    }

    constructor ()
      ensures Valid() && calls == []
    {
      wrote, status, body, calls := false, 0, "", [];
    }

    method WriteHeader(to: nat)
      requires Valid()
      modifies this
      ensures Valid() && calls == old(calls) + [WriteCall.WriteHeader(to)]
    {
      calls := calls + [WriteCall.WriteHeader(to)];
      assert calls[..|calls| - 1] == old(calls);
      if wrote {
        return;
      }
      wrote := true;
      status := to;
    }

    method Write(bytes: Body)
      requires Valid()
      modifies this
      ensures Valid() && calls == old(calls) + [WriteCall.Write(bytes)]
    {
      calls := calls + [WriteCall.Write(bytes)];
      assert calls[..|calls| - 1] == old(calls);
      if !wrote {
        wrote := true;
        status := 200;
      }
      body := body + bytes;
      assert "" + bytes == bytes;
    }
  }

  /** A response is kept and replayed unless it tells the caller to try again. */
  predicate Storable(status: nat) {
    !(400 <= status < 500) && status != 503
  }

  function Written(calls: seq<WriteCall>): Body {
    if calls == [] then ""
    else (if calls[0].Write? then calls[0].bytes else "") + Written(calls[1..])
  }

  lemma {:induction false} WrittenSplits(calls: seq<WriteCall>, last: WriteCall)
    ensures Written(calls + [last]) == Written(calls) + (if last.Write? then last.bytes else "")
  {
    if calls == [] {
      assert calls + [last] == [last];
    } else {
      assert (calls + [last])[1..] == calls[1..] + [last];
      WrittenSplits(calls[1..], last);
      var head, more := if calls[0].Write? then calls[0].bytes else "", if last.Write? then last.bytes else "";
      Regroup(head, Written(calls[1..]), more);
    }
  }

  /** What is stored is what the client saw: the first status and every byte. */
  lemma {:induction false} CaptureMeans(calls: seq<WriteCall>)
    ensures calls == [] <==> Captured(calls).None?
    ensures calls != [] ==>
              Captured(calls) == Some(Response(if calls[0].WriteHeader? then calls[0].status else 200, Written(calls)))
  {
    if calls != [] {
      var init := calls[..|calls| - 1];
      CaptureMeans(init);
      var last := calls[|calls| - 1];
      assert calls == init + [last];
      WrittenSplits(init, last);
      assert Written(init) + "" == Written(init);
      if init == [] {
        assert Written(calls) == if last.Write? then last.bytes else "";
      }
    }
  }

  // ---- Concurrent requests ---------------------------------------------------------------

  /** How a statement went: what it did and what it reported. */
  datatype Result = Done | DoneButFailed | NotDone

  datatype Cause = StoreError | RowVanished

  datatype Answer = Served | Replayed(response: Response) | Conflict | Unprocessable

  /** Owner and Closing own the key; Unprotected runs the handler without it. */
  datatype Phase =
    | Dropping
    | Inserting
    | Selecting
    | Owner
    | Closing(capture: Option<Response>)
    | Unprotected(cause: Cause)
    | Answered(answer: Answer)

  datatype Request = Request(key: Key, hash: Hash, expiresAt: int, phase: Phase)

  /** A finished owner run whose response is to be replayed. */
  datatype OwnerRun = OwnerRun(key: Key, hash: Hash, response: Response)

  datatype State = State(t: Table, reqs: map<RequestId, Request>, finished: set<OwnerRun>, now: int)

  datatype Step =
    | Arrive(r: RequestId, key: Key, hash: Hash)
    | Drop(r: RequestId, result: Result)
    | Insert(r: RequestId, result: Result)
    | Select(r: RequestId, ok: bool)
    | Handle(r: RequestId, calls: seq<WriteCall>)
    | Close(r: RequestId, result: Result)
    | Sweep
    | Tick(at: int)
    | Crash

  predicate Owns(phase: Phase) { phase.Owner? || phase.Closing? }

  predicate Handling(phase: Phase) { phase.Owner? || phase.Unprotected? }

  ghost predicate Enabled(s: State, step: Step) {
    match step
    case Arrive(r, _, _) => r !in s.reqs
    case Drop(r, _) => r in s.reqs && s.reqs[r].phase.Dropping?
    case Insert(r, _) => r in s.reqs && s.reqs[r].phase.Inserting?
    case Select(r, _) => r in s.reqs && s.reqs[r].phase.Selecting?
    case Handle(r, _) => r in s.reqs && Handling(s.reqs[r].phase)
    case Close(r, _) => r in s.reqs && s.reqs[r].phase.Closing?
    case Sweep => true
    case Tick(at) => s.now <= at
    case Crash => true
  }

  function Move(s: State, r: RequestId, t: Table, phase: Phase): State
    requires r in s.reqs
  {
    s.(t := t, reqs := s.reqs[r := s.reqs[r].(phase := phase)])
  }

  /** The deferred part of the middleware: what happens to the key of a finished owner. */
  function Closed(t: Table, key: Key, capture: Option<Response>): Table {
    if capture.Some? && Storable(capture.value.status) then CompletedRow(t, key, capture.value) else t - {key}
  }

  ghost function Apply(s: State, step: Step): State
    requires Enabled(s, step)
  {
    match step
    case Arrive(r, key, hash) => s.(reqs := s.reqs[r := Request(key, hash, s.now + TTL, Dropping)])
    case Drop(r, result) =>
      Move(s, r, if result.NotDone? then s.t else Unexpired(s.t, s.reqs[r].key, s.now),
           if result.Done? then Inserting else Unprotected(StoreError))
    case Insert(r, result) =>
      var q := s.reqs[r];
      Move(s, r, if result.NotDone? then s.t else InsertedRow(s.t, q.key, q.hash, q.expiresAt),
           if !result.Done? then Unprotected(StoreError) else if q.key in s.t then Selecting else Owner)
    case Select(r, ok) =>
      var q := s.reqs[r];
      Move(s, r, s.t,
           if !ok then Unprotected(StoreError)
           else match Read(s.t, q.key, q.hash)
                case Replay(response) => Answered(Replayed(response))
                case InProgress => Answered(Conflict)
                case Mismatch => Answered(Unprocessable)
                case Vanished => Unprotected(RowVanished))
    case Handle(r, calls) =>
      Move(s, r, s.t, if s.reqs[r].phase.Owner? then Closing(Captured(calls)) else Answered(Served))
    case Close(r, result) =>
      var q := s.reqs[r];
      var capture := q.phase.capture;
      Move(s.(finished := if capture.Some? && Storable(capture.value.status)
                          then s.finished + {OwnerRun(q.key, q.hash, capture.value)} else s.finished),
           r, if result.NotDone? then s.t else Closed(s.t, q.key, capture), Answered(Served))
    case Sweep => s.(t := Swept(s.t, s.now))
    case Tick(at) => s.(now := at)
    case Crash => s.(reqs := map[])
  }

  /** The three statements of one Acquire with nobody in between. */
  method Acquire(table: IdempotencyTable, key: Key, hash: Hash, now: int, expiresAt: int) returns (owner: bool, reading: Reading)
    modifies table
    ensures table.rows == InsertedRow(Unexpired(old(table.rows), key, now), key, hash, expiresAt)
    ensures owner <==> key !in old(table.rows) || old(table.rows)[key].expiresAt < now
    ensures owner ==> key in table.rows && table.rows[key] == Record(hash, false, NO_RESPONSE, expiresAt)
    ensures !owner ==> reading == Read(old(table.rows), key, hash) && !reading.Vanished?
  {
    table.DropExpired(key, now);
    owner := table.Insert(key, hash, expiresAt);
    reading := Vanished;
    if !owner {
      reading := table.Select(key, hash);
    }
  }

  /** The deferred cleanup of a request that owned its key. */
  method Finish(table: IdempotencyTable, key: Key, capture: ResponseCapture)
    requires capture.Valid()
    modifies table
    ensures table.rows == Closed(old(table.rows), key, Captured(capture.calls))
    ensures forall k :: k != key ==>
              (k in table.rows <==> k in old(table.rows)) && (k in table.rows ==> table.rows[k] == old(table.rows)[k])
    ensures var calls := old(capture.calls);
      var status := if calls == [] || calls[0].Write? then 200 else calls[0].status;
      && (key in table.rows <==> key in old(table.rows) && calls != [] && !(400 <= status <= 499) && status != 503)
      && (key in table.rows ==>
            table.rows[key] == old(table.rows)[key].(completed := true, response := Response(status, Written(calls))))
  {
    CaptureMeans(capture.calls);
    if !capture.wrote {
      table.Release(key);
      return;
    }
    var status := capture.status;
    if (status >= 400 && status < 500) || status == 503 {
      table.Release(key);
      return;
    }
    var _ := table.Complete(key, Response(status, capture.body));
  }

  /** A request asks for its key for a day. */
  lemma KeysLastADay(s: State, r: RequestId, key: Key, hash: Hash)
    requires Enabled(s, Arrive(r, key, hash))
    ensures Apply(s, Arrive(r, key, hash)).reqs[r] == Request(key, hash, s.now + 86_400_000_000_000, Dropping)
  {
  }

  /** What the select of a request that lost its insert makes of the record it reads. */
  lemma RepeatsAreAnswered(s: State, r: RequestId)
    requires Enabled(s, Select(r, true))
    ensures var (q, phase) := (s.reqs[r], Apply(s, Select(r, true)).reqs[r].phase);
      && (phase == Unprotected(RowVanished) <==> q.key !in s.t)
      && (phase == Answered(Unprocessable) <==> q.key in s.t && s.t[q.key].hash != q.hash)
      && (phase == Answered(Conflict) <==> q.key in s.t && s.t[q.key].hash == q.hash && !s.t[q.key].completed)
      && (q.key in s.t && s.t[q.key].hash == q.hash && s.t[q.key].completed ==>
            phase == Answered(Replayed(s.t[q.key].response)))
  {
  }

  /** The hypothesis: a key does not expire while the request that owns it runs. */
  ghost predicate Timely(s: State) {
    forall r :: r in s.reqs && Owns(s.reqs[r].phase) ==> s.now <= s.reqs[r].expiresAt
  }

  ghost predicate RequestOk(s: State, q: Request) {
    && (Owns(q.phase) ==> q.key in s.t && s.t[q.key] == Record(q.hash, false, NO_RESPONSE, q.expiresAt))
    && (q.phase.Answered? && q.phase.answer.Replayed? ==> OwnerRun(q.key, q.hash, q.phase.answer.response) in s.finished)
  }

  ghost predicate SameOwner(s: State, r: RequestId, q: RequestId) {
    && r in s.reqs && q in s.reqs && Owns(s.reqs[r].phase) && Owns(s.reqs[q].phase)
    && s.reqs[r].key == s.reqs[q].key
  }

  ghost predicate Inv(s: State) {
    && (forall r :: r in s.reqs ==> RequestOk(s, s.reqs[r]))
    && (forall r, q :: SameOwner(s, r, q) ==> r == q)
    && (forall key :: key in s.t && s.t[key].completed ==> OwnerRun(key, s.t[key].hash, s.t[key].response) in s.finished)
    && (forall run :: run in s.finished ==> Storable(run.response.status))
  }

  lemma OtherOwnersElsewhere(s: State, r: RequestId)
    requires Inv(s) && r in s.reqs && Owns(s.reqs[r].phase)
    ensures forall q :: q in s.reqs && q != r && Owns(s.reqs[q].phase) ==> s.reqs[q].key != s.reqs[r].key
  {
    assert forall q :: q in s.reqs && Owns(s.reqs[q].phase) && s.reqs[q].key == s.reqs[r].key ==> SameOwner(s, q, r);
  }

  lemma InsertKeepsInv(s: State, r: RequestId, result: Result)
    requires Inv(s) && Enabled(s, Insert(r, result))
    ensures Inv(Apply(s, Insert(r, result)))
  {
    var t := Apply(s, Insert(r, result));
    forall q | q in t.reqs
      ensures RequestOk(t, t.reqs[q])
    {
      assert RequestOk(s, s.reqs[q]);
    }
    forall p, q | SameOwner(t, p, q)
      ensures p == q
    {
      assert forall o :: o in s.reqs && Owns(s.reqs[o].phase) ==> RequestOk(s, s.reqs[o]);
      assert p != r && q != r ==> SameOwner(s, p, q);
    }
  }

  lemma CloseKeepsInv(s: State, r: RequestId, result: Result)
    requires Inv(s) && Enabled(s, Close(r, result))
    ensures Inv(Apply(s, Close(r, result)))
  {
    var t := Apply(s, Close(r, result));
    OtherOwnersElsewhere(s, r);
    assert RequestOk(s, s.reqs[r]);
    forall q | q in t.reqs
      ensures RequestOk(t, t.reqs[q])
    {
      assert RequestOk(s, s.reqs[q]);
    }
    forall p, q | SameOwner(t, p, q)
      ensures p == q
    {
      assert SameOwner(s, p, q);
    }
  }

  lemma DropKeepsInv(s: State, r: RequestId, result: Result)
    requires Inv(s) && Timely(s) && Enabled(s, Drop(r, result))
    ensures Inv(Apply(s, Drop(r, result)))
  {
    var t := Apply(s, Drop(r, result));
    forall q | q in t.reqs
      ensures RequestOk(t, t.reqs[q])
    {
      assert RequestOk(s, s.reqs[q]);
    }
    forall p, q | SameOwner(t, p, q)
      ensures p == q
    {
      assert SameOwner(s, p, q);
    }
  }

  lemma OtherStepKeepsInv(s: State, step: Step)
    requires Inv(s) && Timely(s) && Enabled(s, step) && !step.Drop? && !step.Insert? && !step.Close?
    ensures Inv(Apply(s, step))
  {
    var t := Apply(s, step);
    forall r | r in t.reqs
      ensures RequestOk(t, t.reqs[r])
    {
      assert r in s.reqs ==> RequestOk(s, s.reqs[r]);
    }
    forall p, q | SameOwner(t, p, q)
      ensures p == q
    {
      assert SameOwner(s, p, q);
    }
  }

  lemma StepKeepsInv(s: State, step: Step)
    requires Inv(s) && Timely(s) && Enabled(s, step)
    ensures Inv(Apply(s, step))
  {
    if step.Drop? {
      DropKeepsInv(s, step.r, step.result);
    } else if step.Insert? {
      InsertKeepsInv(s, step.r, step.result);
    } else if step.Close? {
      CloseKeepsInv(s, step.r, step.result);
    } else {
      OtherStepKeepsInv(s, step);
    }
  }

  ghost predicate Run(s: State, steps: seq<Step>, t: State)
    decreases |steps|
  {
    && Timely(s)
    && if steps == [] then s == t
       else Enabled(s, steps[0]) && Run(Apply(s, steps[0]), steps[1..], t)
  }

  const EMPTY: State := State(map[], map[], {}, 0)

  lemma {:induction false} RunKeepsInv(s: State, steps: seq<Step>, t: State)
    requires Inv(s) && Run(s, steps, t)
    ensures Inv(t)
    decreases |steps|
  {
    if steps != [] {
      StepKeepsInv(s, steps[0]);
      RunKeepsInv(Apply(s, steps[0]), steps[1..], t);
    }
  }

  /** A handler runs for the one owner of its key, whose record is in progress under its own
      fingerprint, or without protection. */
  lemma OneOwnerPerKey(steps: seq<Step>, t: State, r: RequestId, q: RequestId)
    requires Run(EMPTY, steps, t) && r in t.reqs && q in t.reqs && t.reqs[r].key == t.reqs[q].key
    requires Handling(t.reqs[r].phase) && Handling(t.reqs[q].phase)
    ensures t.reqs[r].phase.Owner? && t.reqs[q].phase.Owner? ==> r == q
    ensures t.reqs[r].phase.Owner? ==>
              t.reqs[r].key in t.t && !t.t[t.reqs[r].key].completed && t.t[t.reqs[r].key].hash == t.reqs[r].hash
  {
    RunKeepsInv(EMPTY, steps, t);
    assert t.reqs[r].phase.Owner? && t.reqs[q].phase.Owner? ==> SameOwner(t, r, q);
    assert RequestOk(t, t.reqs[r]);
  }

  /** A replay carries exactly the status and body of a finished owner run of its key with the
      same fingerprint, and no response that asks for a retry is ever stored or replayed. */
  lemma ReplaysAreGenuine(steps: seq<Step>, t: State, r: RequestId, key: Key)
    requires Run(EMPTY, steps, t) && r in t.reqs
    ensures t.reqs[r].phase.Answered? && t.reqs[r].phase.answer.Replayed? ==>
              && OwnerRun(t.reqs[r].key, t.reqs[r].hash, t.reqs[r].phase.answer.response) in t.finished
              && !(400 <= t.reqs[r].phase.answer.response.status <= 499) && t.reqs[r].phase.answer.response.status != 503
    ensures key in t.t && t.t[key].completed ==>
              !(400 <= t.t[key].response.status <= 499) && t.t[key].response.status != 503
  {
    RunKeepsInv(EMPTY, steps, t);
    assert RequestOk(t, t.reqs[r]);
  }

  /** What a finished owner leaves behind when its last statement works: a repeat is answered
      from the record and other content is refused, or the key is free for the retry. The key is
      free exactly after no response, a 4xx or a 503; any other response, a 5xx too, is replayed. */
  lemma CloseDecidesRepeats(steps: seq<Step>, s: State, r: RequestId, hash: Hash)
    requires Run(EMPTY, steps, s) && r in s.reqs && s.reqs[r].phase.Closing?
    ensures var (q, t) := (s.reqs[r], Apply(s, Close(r, Done)).t);
      match q.phase.capture
      case None => q.key !in t
      case Some(response) =>
        if 400 <= response.status <= 499 || response.status == 503 then q.key !in t
        else Read(t, q.key, hash) == if hash == q.hash then Replay(response) else Mismatch
  {
    RunKeepsInv(EMPTY, steps, s);
    assert RequestOk(s, s.reqs[r]);
  }

  /** The same from the handler's calls on: whatever the owner's handler wrote, a repeat gets its
      first status and all its bytes, or runs its own handler. */
  lemma HandlerDecidesRepeats(steps: seq<Step>, s: State, r: RequestId, calls: seq<WriteCall>, hash: Hash)
    requires Run(EMPTY, steps, s) && r in s.reqs && s.reqs[r].phase.Owner?
    ensures var (q, t) := (s.reqs[r], Apply(Apply(s, Handle(r, calls)), Close(r, Done)).t);
      var status := if calls == [] || calls[0].Write? then 200 else calls[0].status;
      if calls == [] || 400 <= status <= 499 || status == 503 then q.key !in t
      else
        && q.key in t && t[q.key].completed
        && Read(t, q.key, hash) == if hash == q.hash then Replay(Response(status, Written(calls))) else Mismatch
  {
    RunKeepsInv(EMPTY, steps, s);
    assert RequestOk(s, s.reqs[r]);
    CaptureMeans(calls);
  }
}
