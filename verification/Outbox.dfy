/** The outbound workers (internal/message/outbox.go) over the queue of MessageQueue.

    Workers claim copies of rows, send them under the per-instance lock and record the outcome;
    a recovery loop requeues rows that stayed in sending for too long. The Mark updates have no
    guard, so nothing but the age of a claim keeps two workers off one message. The bounds on
    sends hold in every run; exclusivity holds in the runs where no copy outlives the
    threshold, and the last lemma shows a run where one does. OutboxSharing has the exact
    condition. */
module Outbox {
  import opened MessageQueue
  import opened Wrappers

  type CopyId = nat

  const SECOND: int := 1_000_000_000
  const STUCK_THRESHOLD: int := 300 * SECOND
  const MAX_RETRY_DELAY: int := 120 * SECOND
  const MAX_SEND_RETRIES: nat := 5

  // ---- One message --------------------------------------------------------------------

  function DelayAfter(retries: nat): int {
    if retries == 0 then SECOND
    else if DelayAfter(retries - 1) >= MAX_RETRY_DELAY / 2 then MAX_RETRY_DELAY
    else 2 * DelayAfter(retries - 1)
  }

  lemma DelaysAre(retries: nat)
    ensures DelayAfter(retries) == 1_000_000_000 * if retries < 7 then [1, 2, 4, 8, 16, 32, 64][retries] else 120
  {
    if retries > 0 {
      DelaysAre(retries - 1);
    }
  }

  method RetryDelay(retries: nat) returns (delay: int)
    ensures delay == DelayAfter(retries) && SECOND <= delay <= MAX_RETRY_DELAY
    ensures delay < STUCK_THRESHOLD
    ensures delay == 1_000_000_000 * if retries < 7 then [1, 2, 4, 8, 16, 32, 64][retries] else 120
  {
    DelaysAre(retries);
    delay := SECOND;
    var i := 0;
    while i < retries
      invariant i <= retries && delay == DelayAfter(i) && SECOND <= delay < MAX_RETRY_DELAY
    {
      delay := delay * 2;
      if delay >= MAX_RETRY_DELAY {
        DelayStaysCapped(i + 1, retries);
        return MAX_RETRY_DELAY;
      }
      i := i + 1;
    }
  }

  lemma {:induction false} DelayStaysCapped(i: nat, j: nat)
    requires i <= j && DelayAfter(i) == MAX_RETRY_DELAY
    ensures DelayAfter(j) == MAX_RETRY_DELAY
  {
    if i < j {
      DelayStaysCapped(i, j - 1);
    }
  }

  datatype SendResult = Delivered(whatsappId: string) | Transient(error: string) | Permanent(error: string)

  /** What a worker finds while it processes a message; the flags are the cancelled contexts. */
  datatype Env = Env(hasSession: bool, hasSender: bool, presenceCancelled: bool, send: SendResult, cancelled: bool)

  predicate Sends(env: Env) {
    env.hasSession && env.hasSender && !env.presenceCancelled
  }

  /** The update a worker asks for; None leaves the row in sending. */
  function Verdict(attempts: nat, env: Env, now: int): Option<Change> {
    if !env.hasSession then Some(MarkFailed("session not found"))
    else if !env.hasSender then Some(MarkFailed("unsupported message type"))
    else if env.presenceCancelled then None
    else match env.send
         case Delivered(wa) => Some(MarkSent(wa))
         case Transient(error) =>
           if env.cancelled then None
           else if attempts < MAX_SEND_RETRIES then Some(MarkRetrying(error, now + DelayAfter(attempts)))
           else Some(MarkFailed(error))
         case Permanent(error) => if env.cancelled then None else Some(MarkFailed(error))
  }

  function Recorded(t: Table, id: MsgId, verdict: Option<Change>, write: Write, now: int): Table {
    if verdict.Some? && !write.NotApplied? then Changed(t, id, verdict.value, now) else t
  }

  /** What the program makes of a row whose update goes through, in four exclusive cases. A send is
      over when it delivered, when it cannot be made at all, or when its error is permanent or came
      after five retries; another error is retried after 1, 2, 4, 8 and 16 seconds; and a cancelled
      context leaves the row to the recovery. */
  ghost predicate Outcome(before: Row, after: Row, attempts: nat, env: Env, now: int) {
    var tried := env.hasSession && env.hasSender && !env.presenceCancelled;
    && (!env.hasSession || !env.hasSender ==>
          && after == before.(status := Failed, lastError := after.lastError, updatedAt := now)
          && after.lastError == if !env.hasSession then "session not found" else "unsupported message type")
    && (tried && env.send.Delivered? ==>
          after == before.(status := Sent, whatsappId := env.send.whatsappId, lastError := "", updatedAt := now))
    && (tried && !env.send.Delivered? && !env.cancelled && (env.send.Permanent? || attempts >= 5) ==>
          after == before.(status := Failed, lastError := env.send.error, updatedAt := now))
    && (tried && env.send.Transient? && !env.cancelled && attempts < 5 ==>
          after == before.(status := Queued, retries := before.retries + 1, lastError := env.send.error,
                           nextAttemptAt := Some(now + [1, 2, 4, 8, 16][attempts] * 1_000_000_000), updatedAt := now))
    && (env.hasSession && env.hasSender && (env.presenceCancelled || (!env.send.Delivered? && env.cancelled)) ==>
          after == before)
  }

  /** The row after any processing has that outcome; and a row in sending fails, waits or is sent if
      and only if it had to. */
  lemma OutcomeExactly(t: Table, id: MsgId, attempts: nat, env: Env, write: Write, now: int)
    ensures id in t && !write.NotApplied? ==>
              var (before, after) := (t[id], Recorded(t, id, Verdict(attempts, env, now), write, now)[id]);
              && Outcome(before, after, attempts, env, now)
              && (before.status == Sending ==>
                    && (after.status == Failed <==>
                          !env.hasSession || !env.hasSender
                          || (!env.presenceCancelled && !env.cancelled
                              && (env.send.Permanent? || (env.send.Transient? && attempts >= 5))))
                    && (after.status == Queued <==>
                          && env.hasSession && env.hasSender && !env.presenceCancelled && !env.cancelled
                          && env.send.Transient? && attempts < 5)
                    && (after.status == Sent <==>
                          env.hasSession && env.hasSender && !env.presenceCancelled && env.send.Delivered?))
  {
    if attempts < 5 {
      DelaysAre(attempts);
    }
  }

  /** A status event follows a definitive outcome that was reported as recorded. */
  predicate Reports(t: Table, id: MsgId, verdict: Option<Change>, write: Write) {
    verdict.Some? && !verdict.value.MarkRetrying? && write.Applied? && id in t
  }

  /** The worker's process, between its lock and its event. */
  method Process(queue: MessageTable, msg: Claim, env: Env, write: Write, now: int) returns (sent: bool, report: bool)
    modifies queue
    ensures sent == Sends(env)
    ensures queue.rows == Recorded(old(queue.rows), msg.id, Verdict(msg.attempts, env, now), write, now)
    ensures report == Reports(old(queue.rows), msg.id, Verdict(msg.attempts, env, now), write)
    ensures sent <==> env.hasSession && env.hasSender && !env.presenceCancelled
    ensures queue.rows.Keys == old(queue.rows).Keys
    ensures forall id :: id in queue.rows && id != msg.id ==> queue.rows[id] == old(queue.rows)[id]
    ensures msg.id in queue.rows && write.NotApplied? ==> queue.rows[msg.id] == old(queue.rows)[msg.id]
    ensures msg.id in queue.rows && !write.NotApplied? ==>
              Outcome(old(queue.rows)[msg.id], queue.rows[msg.id], msg.attempts, env, now)
    ensures report ==> write.Applied? && msg.id in queue.rows && queue.rows[msg.id].status in {Sent, Failed}
    ensures msg.id in queue.rows && write.Applied? && old(queue.rows)[msg.id].status == Sending ==>
              (report <==> queue.rows[msg.id].status in {Sent, Failed})
  {
    OutcomeExactly(queue.rows, msg.id, msg.attempts, env, write, now);
    sent, report := false, false;
    if !env.hasSession {
      report := Fail(queue, msg, "session not found", write, now);
      return;
    }
    if !env.hasSender {
      report := Fail(queue, msg, "unsupported message type", write, now);
      return;
    }
    if env.presenceCancelled {
      return;
    }
    sent := true;
    match env.send
    case Delivered(wa) =>
      if write.NotApplied? {
        return;
      }
      var found := queue.Mark(msg.id, MarkSent(wa), now);
      report := found && write.Applied?;
    case Transient(error) =>
      if env.cancelled {
        return;
      }
      if msg.attempts < MAX_SEND_RETRIES {
        var delay := RetryDelay(msg.attempts);
        if !write.NotApplied? {
          var _ := queue.Mark(msg.id, MarkRetrying(error, now + delay), now);
        }
        return;
      }
      report := Fail(queue, msg, error, write, now);
    case Permanent(error) =>
      if env.cancelled {
        return;
      }
      report := Fail(queue, msg, error, write, now);
  }

  method Fail(queue: MessageTable, msg: Claim, error: string, write: Write, now: int) returns (report: bool)
    modifies queue
    ensures queue.rows == Recorded(old(queue.rows), msg.id, Some(MarkFailed(error)), write, now)
    ensures report == Reports(old(queue.rows), msg.id, Some(MarkFailed(error)), write)
  {
    if write.NotApplied? {
      return false;
    }
    var found := queue.Mark(msg.id, MarkFailed(error), now);
    report := found && write.Applied?;
  }

  // ---- Workers, recovery, crashes -------------------------------------------------------

  /** Where the copy of a claimed row stands. It is live until its Mark call. */
  datatype Stage =
    | Batched
    | InLock
    | Decided(verdict: Option<Change>)
    | Reporting

  datatype Copy = Copy(msg: Claim, claimedAt: int, stage: Stage)

  /** What happened to a message so far. */
  datatype Tally = Tally(claims: nat, sends: nat, retries: nat, requeues: nat, events: nat)

  type Copies = map<CopyId, Copy>

  datatype State = State(rows: Table, copies: Copies, tally: map<MsgId, Tally>, now: int)

  datatype Step =
    | Create(id: MsgId, instance: InstanceId)
    | ClaimOne(c: CopyId, id: MsgId)
    | Lock(c: CopyId)
    | Work(c: CopyId, env: Env)
    | Record(c: CopyId, write: Write)
    | Emit(c: CopyId, written: bool)
    | Die(c: CopyId)
    | Recover(id: MsgId, olderThan: int)
    | Receipt(id: MsgId)
    | Tick(at: int)

  predicate Live(stage: Stage) { !stage.Reporting? }

  predicate Unsent(stage: Stage) { stage.Batched? || stage.InLock? }

  predicate Holding(stage: Stage) { !stage.Batched? }

  /** Another copy of the instance is inside its lock. */
  ghost predicate Locked(copies: Copies, instance: InstanceId) {
    exists d :: d in copies && copies[d].msg.instance == instance && Holding(copies[d].stage)
  }

  /** A claim or a recovery of several rows is a series of these steps at one instant; a
      recovery cuts no later than the threshold before now. A receipt stamps the row it
      names and leaves its status alone. */
  ghost predicate Enabled(s: State, step: Step) {
    match step
    case Create(id, _) => id !in s.rows
    case ClaimOne(c, id) => c !in s.copies && id in s.rows && Due(s.rows[id], s.now)
    case Lock(c) => c in s.copies && s.copies[c].stage.Batched? && !Locked(s.copies, s.copies[c].msg.instance)
    case Work(c, _) => c in s.copies && s.copies[c].stage.InLock?
    case Record(c, _) => c in s.copies && s.copies[c].stage.Decided?
    case Emit(c, _) => c in s.copies && s.copies[c].stage.Reporting?
    case Die(c) => c in s.copies
    case Recover(id, olderThan) =>
      id in s.rows && Stuck(s.rows[id], olderThan) && olderThan <= s.now - STUCK_THRESHOLD
    case Receipt(id) => id in s.rows
    case Tick(at) => s.now <= at
  }

  function Moved(s: State, c: CopyId, stage: Stage): State
    requires c in s.copies
  {
    s.(copies := s.copies[c := s.copies[c].(stage := stage)])
  }

  function Count(s: State, id: MsgId): Tally {
    if id in s.tally then s.tally[id] else Tally(0, 0, 0, 0, 0)
  }

  ghost function Apply(s: State, step: Step): State
    requires Enabled(s, step)
  {
    match step
    case Create(id, instance) =>
      s.(rows := s.rows[id := Row(instance, Queued, 0, None, s.now, s.now, "", "")],
         tally := s.tally[id := Tally(0, 0, 0, 0, 0)])
    case ClaimOne(c, id) =>
      var n := Count(s, id);
      s.(rows := Claimed(s.rows, {id}, s.now),
         copies := s.copies[c := Copy(Claim(id, s.rows[id].instance, s.rows[id].retries), s.now, Batched)],
         tally := s.tally[id := n.(claims := n.claims + 1)])
    case Lock(c) => Moved(s, c, InLock)
    case Work(c, env) =>
      var msg := s.copies[c].msg;
      var n := Count(s, msg.id);
      Moved(s, c, Decided(Verdict(msg.attempts, env, s.now)))
        .(tally := s.tally[msg.id := n.(sends := n.sends + if Sends(env) then 1 else 0)])
    case Record(c, write) =>
      var (id, verdict) := (s.copies[c].msg.id, s.copies[c].stage.verdict);
      var n := Count(s, id);
      var retried := verdict.Some? && verdict.value.MarkRetrying? && !write.NotApplied? && id in s.rows;
      s.(rows := Recorded(s.rows, id, verdict, write, s.now),
         copies := if Reports(s.rows, id, verdict, write)
                   then s.copies[c := s.copies[c].(stage := Reporting)] else s.copies - {c},
         tally := s.tally[id := n.(retries := n.retries + if retried then 1 else 0)])
    case Emit(c, written) =>
      var id := s.copies[c].msg.id;
      var n := Count(s, id);
      s.(copies := s.copies - {c}, tally := s.tally[id := n.(events := n.events + if written then 1 else 0)])
    case Die(c) => s.(copies := s.copies - {c})
    case Recover(id, olderThan) =>
      var n := Count(s, id);
      s.(rows := s.rows[id := RequeuedRow(s.rows[id], s.now)],
         tally := s.tally[id := n.(requeues := n.requeues + 1)])
    case Receipt(id) => s.(rows := s.rows[id := s.rows[id].(updatedAt := s.now)])
    case Tick(at) => s.(now := at)
  }

  ghost predicate Run(s: State, steps: seq<Step>, t: State)
    decreases |steps|
  {
    if steps == [] then s == t
    else Enabled(s, steps[0]) && Run(Apply(s, steps[0]), steps[1..], t)
  }

  const EMPTY: State := State(map[], map[], map[], 0)

  // ---- Bounds that need no timing -------------------------------------------------------

  function UnsentOf(copies: Copies, id: MsgId): set<CopyId> {
    set c | c in copies && copies[c].msg.id == id && Unsent(copies[c].stage)
  }

  /** A message enters the queue once, with each retry and with each requeue; each claim takes
      it out; each copy sends at most once. */
  ghost predicate Counted(s: State, id: MsgId)
    requires id in s.rows
  {
    var n := Count(s, id);
    && n.retries == s.rows[id].retries
    && n.claims + (if s.rows[id].status == Queued then 1 else 0) <= 1 + n.retries + n.requeues
    && n.sends + |UnsentOf(s.copies, id)| <= n.claims
  }

  ghost predicate Bounded(s: State) {
    && (forall c :: c in s.copies ==> s.copies[c].msg.id in s.rows)
    && (forall id :: id in s.rows ==> Counted(s, id))
  }

  lemma UnsentAfterPut(copies: Copies, c: CopyId, copy: Copy)
    requires c in copies ==> copies[c].msg == copy.msg
    ensures forall id :: id != copy.msg.id ==> UnsentOf(copies[c := copy], id) == UnsentOf(copies, id)
    ensures |UnsentOf(copies[c := copy], copy.msg.id)| == |UnsentOf(copies, copy.msg.id)|
              + (if Unsent(copy.stage) then 1 else 0) - (if c in copies && Unsent(copies[c].stage) then 1 else 0)
  {
    var id := copy.msg.id;
    var before, after := UnsentOf(copies, id), UnsentOf(copies[c := copy], id);
    assert after == if Unsent(copy.stage) then before + {c} else before - {c};
    assert c in before <==> c in copies && Unsent(copies[c].stage);
    forall k | k != id
      ensures UnsentOf(copies[c := copy], k) == UnsentOf(copies, k)
    {
    }
  }

  lemma UnsentAfterRemoval(copies: Copies, c: CopyId)
    requires c in copies
    ensures forall id :: |UnsentOf(copies - {c}, id)| <= |UnsentOf(copies, id)|
  {
    forall id
      ensures |UnsentOf(copies - {c}, id)| <= |UnsentOf(copies, id)|
    {
      assert UnsentOf(copies - {c}, id) == UnsentOf(copies, id) - {c};
    }
  }

  lemma ClaimKeepsCount(s: State, c: CopyId, m: MsgId, id: MsgId)
    requires Bounded(s) && Enabled(s, ClaimOne(c, m)) && id in s.rows
    ensures id in Apply(s, ClaimOne(c, m)).rows && Counted(Apply(s, ClaimOne(c, m)), id)
  {
    assert Counted(s, id);
    UnsentAfterPut(s.copies, c, Apply(s, ClaimOne(c, m)).copies[c]);
  }

  lemma MoveKeepsCount(s: State, step: Step, id: MsgId)
    requires Bounded(s) && Enabled(s, step) && (step.Lock? || step.Work?) && id in s.rows
    ensures id in Apply(s, step).rows && Counted(Apply(s, step), id)
  {
    assert Counted(s, id);
    UnsentAfterPut(s.copies, step.c, Apply(s, step).copies[step.c]);
  }

  /** The steps that write a copy. */
  lemma CopyStepKeepsBounds(s: State, step: Step)
    requires Bounded(s) && Enabled(s, step)
    requires step.ClaimOne? || step.Lock? || step.Work?
    ensures Bounded(Apply(s, step))
  {
    var t := Apply(s, step);
    assert t.rows.Keys == s.rows.Keys;
    forall id | id in t.rows
      ensures Counted(t, id)
    {
      if step.ClaimOne? {
        ClaimKeepsCount(s, step.c, step.id, id);
      } else {
        MoveKeepsCount(s, step, id);
      }
    }
  }

  lemma RecordKeepsTally(s: State, c: CopyId, write: Write, id: MsgId)
    requires Bounded(s) && Enabled(s, Record(c, write)) && id in s.rows
    ensures var t := Apply(s, Record(c, write));
      && id in t.rows
      && Count(t, id) == Count(s, id).(retries := t.rows[id].retries)
      && t.rows[id].retries + (if s.rows[id].status == Queued then 1 else 0)
         >= s.rows[id].retries + (if t.rows[id].status == Queued then 1 else 0)
  {
    assert Counted(s, id);
  }

  lemma RecordKeepsCount(s: State, c: CopyId, write: Write, id: MsgId)
    requires Bounded(s) && Enabled(s, Record(c, write)) && id in s.rows
    ensures id in Apply(s, Record(c, write)).rows && Counted(Apply(s, Record(c, write)), id)
  {
    var t := Apply(s, Record(c, write));
    assert Counted(s, id);
    RecordKeepsTally(s, c, write, id);
    if c in t.copies {
      UnsentAfterPut(s.copies, c, t.copies[c]);
    } else {
      UnsentAfterRemoval(s.copies, c);
    }
  }

  lemma RecordKeepsBounds(s: State, c: CopyId, write: Write)
    requires Bounded(s) && Enabled(s, Record(c, write))
    ensures Bounded(Apply(s, Record(c, write)))
  {
    var t := Apply(s, Record(c, write));
    assert t.rows.Keys == s.rows.Keys;
    forall id | id in t.rows
      ensures Counted(t, id)
    {
      RecordKeepsCount(s, c, write, id);
    }
  }

  lemma StepKeepsBounds(s: State, step: Step)
    requires Bounded(s) && Enabled(s, step)
    ensures Bounded(Apply(s, step))
  {
    if step.ClaimOne? || step.Lock? || step.Work? {
      CopyStepKeepsBounds(s, step);
    } else if step.Record? {
      RecordKeepsBounds(s, step.c, step.write);
    } else {
      var t := Apply(s, step);
      if step.Emit? || step.Die? {
        UnsentAfterRemoval(s.copies, step.c);
      } else if step.Create? {
        assert UnsentOf(s.copies, step.id) == {};
      }
      forall id | id in t.rows
        ensures Counted(t, id)
      {
        assert id in s.rows ==> Counted(s, id);
      }
    }
  }

  lemma {:induction false} RunKeepsBounds(s: State, steps: seq<Step>, t: State)
    requires Bounded(s) && Run(s, steps, t)
    ensures Bounded(t)
    decreases |steps|
  {
    if steps != [] {
      StepKeepsBounds(s, steps[0]);
      RunKeepsBounds(Apply(s, steps[0]), steps[1..], t);
    }
  }

  /** In every run, however late anybody is, a message is sent no more often than it was
      claimed, and claimed no more often than it entered the queue. */
  lemma SendsAreBounded(steps: seq<Step>, t: State, id: MsgId)
    requires Run(EMPTY, steps, t) && id in t.rows
    ensures var n := Count(t, id);
      n.sends <= n.claims <= 1 + n.retries + n.requeues && n.retries == t.rows[id].retries
  {
    RunKeepsBounds(EMPTY, steps, t);
    assert Counted(t, id);
  }

  // ---- Exclusivity, under the threshold --------------------------------------------------

  /** The hypothesis: every copy reaches its Mark call, or is dropped, within the threshold of
      its claim. */
  ghost predicate Timely(s: State) {
    forall c :: c in s.copies && Live(s.copies[c].stage) ==> s.now <= s.copies[c].claimedAt + STUCK_THRESHOLD
  }

  ghost predicate TimelyRun(s: State, steps: seq<Step>, t: State)
    decreases |steps|
  {
    && Timely(s)
    && if steps == [] then s == t
       else Enabled(s, steps[0]) && TimelyRun(Apply(s, steps[0]), steps[1..], t)
  }

  predicate Final(status: Status) { status == Sent || status == Failed }

  ghost predicate CopyOk(s: State, copy: Copy) {
    && copy.msg.id in s.rows && copy.claimedAt <= s.now
    && var row := s.rows[copy.msg.id];
       if Live(copy.stage) then
         && row.status == Sending && copy.claimedAt <= row.updatedAt && row.retries == copy.msg.attempts
         && (copy.stage.Decided? && copy.stage.verdict.Some? && copy.stage.verdict.value.MarkRetrying?
             ==> copy.msg.attempts < MAX_SEND_RETRIES)
       else
         Final(row.status) && Count(s, copy.msg.id).events == 0
  }

  ghost predicate RowOk(s: State, id: MsgId)
    requires id in s.rows
  {
    && s.rows[id].retries <= MAX_SEND_RETRIES
    && Count(s, id).events <= 1
    && (Count(s, id).events > 0 ==> Final(s.rows[id].status))
  }

  ghost predicate SameLock(copies: Copies, c: CopyId, d: CopyId) {
    && c in copies && d in copies && copies[c].msg.instance == copies[d].msg.instance
    && Holding(copies[c].stage) && Holding(copies[d].stage)
  }

  ghost predicate Exclusive(s: State) {
    && (forall c :: c in s.copies ==> CopyOk(s, s.copies[c]))
    && (forall id :: id in s.rows ==> RowOk(s, id))
    && (forall c, d :: c in s.copies && d in s.copies && s.copies[c].msg.id == s.copies[d].msg.id ==> c == d)
    && s.tally.Keys <= s.rows.Keys
  }

  ghost predicate Serialized(copies: Copies) {
    forall c, d :: SameLock(copies, c, d) ==> c == d
  }

  lemma StepKeepsLocks(s: State, step: Step)
    requires Serialized(s.copies) && Enabled(s, step)
    ensures Serialized(Apply(s, step).copies)
  {
    var t := Apply(s, step);
    forall c, d | SameLock(t.copies, c, d)
      ensures c == d
    {
      if step.Lock? {
        assert forall o :: o in s.copies && s.copies[o].msg.instance == s.copies[step.c].msg.instance
                           ==> !Holding(s.copies[o].stage);
        assert c != step.c && d != step.c ==> SameLock(s.copies, c, d);
      } else {
        assert SameLock(s.copies, c, d);
      }
    }
  }

  lemma RecordKeepsRows(s: State, c: CopyId, write: Write, id: MsgId)
    requires Exclusive(s) && Enabled(s, Record(c, write)) && id in s.rows
    ensures id in Apply(s, Record(c, write)).rows && RowOk(Apply(s, Record(c, write)), id)
  {
    assert CopyOk(s, s.copies[c]) && RowOk(s, id);
  }

  lemma RecordKeepsCopies(s: State, c: CopyId, write: Write, d: CopyId)
    requires Exclusive(s) && Enabled(s, Record(c, write)) && d in Apply(s, Record(c, write)).copies
    ensures CopyOk(Apply(s, Record(c, write)), Apply(s, Record(c, write)).copies[d])
  {
    assert CopyOk(s, s.copies[c]) && CopyOk(s, s.copies[d]);
  }

  lemma RecordKeepsExclusive(s: State, c: CopyId, write: Write)
    requires Exclusive(s) && Enabled(s, Record(c, write))
    ensures Exclusive(Apply(s, Record(c, write)))
  {
    var t := Apply(s, Record(c, write));
    assert CopyOk(s, s.copies[c]);
    forall d | d in t.copies
      ensures CopyOk(t, t.copies[d])
    {
      RecordKeepsCopies(s, c, write, d);
    }
    forall id | id in t.rows
      ensures RowOk(t, id)
    {
      RecordKeepsRows(s, c, write, id);
    }
  }

  /** A due row has no copy. */
  lemma ClaimKeepsExclusive(s: State, c: CopyId, id: MsgId)
    requires Exclusive(s) && Enabled(s, ClaimOne(c, id))
    ensures Exclusive(Apply(s, ClaimOne(c, id)))
  {
    var t := Apply(s, ClaimOne(c, id));
    forall d | d in s.copies
      ensures s.copies[d].msg.id != id && CopyOk(t, s.copies[d])
    {
      assert CopyOk(s, s.copies[d]);
    }
  }

  /** A recovery takes no row that a copy on its way to its Mark call still refers to. */
  ghost predicate Safe(s: State, step: Step) {
    step.Recover? ==> !exists c :: c in s.copies && s.copies[c].msg.id == step.id && Live(s.copies[c].stage)
  }

  lemma RecoverKeepsExclusive(s: State, id: MsgId, olderThan: int)
    requires Exclusive(s) && Enabled(s, Recover(id, olderThan))
    ensures Exclusive(Apply(s, Recover(id, olderThan))) <==> Safe(s, Recover(id, olderThan))
  {
    var t := Apply(s, Recover(id, olderThan));
    if c :| c in s.copies && s.copies[c].msg.id == id && Live(s.copies[c].stage) {
      assert c in t.copies && !CopyOk(t, t.copies[c]);
    } else {
      forall d | d in s.copies
        ensures s.copies[d].msg.id != id && CopyOk(t, s.copies[d])
      {
        assert CopyOk(s, s.copies[d]);
      }
    }
  }

  /** Copies that are younger than the threshold make every recovery a safe one. */
  lemma TimelyIsSafe(s: State, step: Step)
    requires Exclusive(s) && Timely(s) && Enabled(s, step)
    ensures Safe(s, step)
  {
    if step.Recover? {
      forall c | c in s.copies && s.copies[c].msg.id == step.id
        ensures !Live(s.copies[c].stage)
      {
        assert CopyOk(s, s.copies[c]);
      }
    }
  }

  lemma CopyStepKeepsCopies(s: State, step: Step, d: CopyId)
    requires Exclusive(s) && Enabled(s, step) && (step.Lock? || step.Work? || step.Emit? || step.Die?)
    requires d in Apply(s, step).copies
    ensures CopyOk(Apply(s, step), Apply(s, step).copies[d])
  {
    assert CopyOk(s, s.copies[step.c]) && CopyOk(s, s.copies[d]);
  }

  lemma CopyStepKeepsExclusive(s: State, step: Step)
    requires Exclusive(s) && Enabled(s, step) && (step.Lock? || step.Work? || step.Emit? || step.Die?)
    ensures Exclusive(Apply(s, step))
  {
    var t := Apply(s, step);
    assert CopyOk(s, s.copies[step.c]);
    forall d | d in t.copies
      ensures CopyOk(t, t.copies[d])
    {
      CopyStepKeepsCopies(s, step, d);
    }
  }

  lemma QuietStepKeepsExclusive(s: State, step: Step)
    requires Exclusive(s) && Enabled(s, step) && (step.Create? || step.Receipt? || step.Tick?)
    ensures Exclusive(Apply(s, step))
  {
    var t := Apply(s, step);
    forall d | d in t.copies
      ensures CopyOk(t, t.copies[d])
    {
      assert CopyOk(s, s.copies[d]);
    }
  }

  /** Exclusivity is kept by every step but an unsafe recovery. */
  lemma StepKeepsExclusive(s: State, step: Step)
    requires Exclusive(s) && Enabled(s, step)
    ensures Exclusive(Apply(s, step)) <==> Safe(s, step)
  {
    if step.Record? {
      RecordKeepsExclusive(s, step.c, step.write);
    } else if step.ClaimOne? {
      ClaimKeepsExclusive(s, step.c, step.id);
    } else if step.Recover? {
      RecoverKeepsExclusive(s, step.id, step.olderThan);
    } else if step.Lock? || step.Work? || step.Emit? || step.Die? {
      CopyStepKeepsExclusive(s, step);
    } else {
      QuietStepKeepsExclusive(s, step);
    }
  }

  /** Sent and failed are never left. */
  lemma StepKeepsFinal(s: State, step: Step, id: MsgId)
    requires Exclusive(s) && Enabled(s, step) && id in s.rows && Final(s.rows[id].status)
    ensures id in Apply(s, step).rows && Apply(s, step).rows[id].status == s.rows[id].status
  {
  }

  lemma {:induction false} TimelyRunKeepsInv(s: State, steps: seq<Step>, t: State)
    requires Exclusive(s) && Serialized(s.copies) && TimelyRun(s, steps, t)
    ensures Exclusive(t) && Serialized(t.copies)
    ensures forall id :: id in s.rows && Final(s.rows[id].status) ==> id in t.rows && t.rows[id].status == s.rows[id].status
    decreases |steps|
  {
    if steps != [] {
      var next := Apply(s, steps[0]);
      TimelyIsSafe(s, steps[0]);
      StepKeepsExclusive(s, steps[0]);
      StepKeepsLocks(s, steps[0]);
      TimelyRunKeepsInv(next, steps[1..], t);
      forall id | id in s.rows && Final(s.rows[id].status)
        ensures id in t.rows && t.rows[id].status == s.rows[id].status
      {
        StepKeepsFinal(s, steps[0], id);
      }
    }
  }

  lemma {:induction false} TimelyRunIsRun(s: State, steps: seq<Step>, t: State)
    requires TimelyRun(s, steps, t)
    ensures Run(s, steps, t)
    decreases |steps|
  {
    if steps != [] {
      TimelyRunIsRun(Apply(s, steps[0]), steps[1..], t);
    }
  }

  /** In every timely run a message is in the hands of one worker at most, that worker sees the
      stored number of retries, no message is retried more than five times or reported twice,
      and the sends of one instance never overlap. */
  lemma OneWorkerPerMessage(steps: seq<Step>, t: State, c: CopyId, d: CopyId)
    requires TimelyRun(EMPTY, steps, t) && c in t.copies && d in t.copies
    ensures t.copies[c].msg.id == t.copies[d].msg.id ==> c == d
    ensures SameLock(t.copies, c, d) ==> c == d
    ensures Live(t.copies[c].stage) ==>
              var msg := t.copies[c].msg;
              msg.id in t.rows && t.rows[msg.id].status == Sending && t.rows[msg.id].retries == msg.attempts
  {
    TimelyRunKeepsInv(EMPTY, steps, t);
    assert CopyOk(t, t.copies[c]);
  }

  lemma OutcomeIsDefinitive(before: seq<Step>, s: State, after: seq<Step>, t: State, id: MsgId)
    requires TimelyRun(EMPTY, before, s) && TimelyRun(s, after, t) && id in s.rows
    ensures Final(s.rows[id].status) ==> id in t.rows && t.rows[id].status == s.rows[id].status
    ensures s.rows[id].retries <= MAX_SEND_RETRIES
    ensures Count(s, id).events <= 1 && (Count(s, id).events == 1 ==> Final(s.rows[id].status))
    ensures Count(s, id).sends <= 1 + MAX_SEND_RETRIES + Count(s, id).requeues
  {
    TimelyRunKeepsInv(EMPTY, before, s);
    TimelyRunKeepsInv(s, after, t);
    TimelyRunIsRun(EMPTY, before, s);
    SendsAreBounded(before, s, id);
    assert RowOk(s, id);
  }

  lemma {:induction false} RunsCompose(s: State, first: seq<Step>, m: State, step: Step)
    requires Run(s, first, m) && Enabled(m, step)
    ensures Run(s, first + [step], Apply(m, step))
    decreases |first|
  {
    if first != [] {
      RunsCompose(Apply(s, first[0]), first[1..], m, step);
      assert (first + [step])[1..] == first[1..] + [step];
    }
  }

  /** The threshold is needed: here a copy waits in its batch past it, the recovery hands the
      row to a second worker that sends it, and the first one sends it again and puts the
      sent message back in the queue. */
  lemma LateCopySendsTwice() returns (before: seq<Step>, s: State, after: seq<Step>, t: State)
    ensures Run(EMPTY, before, s) && 7 in s.rows && s.rows[7].status == Sent && Count(s, 7).sends == 1
    ensures Run(s, after, t) && 7 in t.rows && t.rows[7].status == Queued && Count(t, 7).sends == 2
  {
    before, s := LateCopyLosesItsRow();
    var slow := Env(true, true, false, Transient(""), false);
    after, t := [], s;
    RunsCompose(s, after, t, Lock(0));
    after, t := after + [Lock(0)], Apply(t, Lock(0));
    RunsCompose(s, after, t, Work(0, slow));
    after, t := after + [Work(0, slow)], Apply(t, Work(0, slow));
    RunsCompose(s, after, t, Record(0, Applied));
    after, t := after + [Record(0, Applied)], Apply(t, Record(0, Applied));
  }

  lemma LateCopyIsRequeued() returns (steps: seq<Step>, s: State)
    ensures Run(EMPTY, steps, s)
    ensures s == State(map[7 := Row(1, Queued, 0, None, 0, STUCK_THRESHOLD + 1, "", "")],
                       map[0 := Copy(Claim(7, 1, 0), 0, Batched)],
                       map[7 := Tally(1, 0, 0, 1, 0)], STUCK_THRESHOLD + 1)
  {
    steps, s := [], EMPTY;
    var a := Create(7, 1);
    RunsCompose(EMPTY, steps, s, a);
    steps, s := steps + [a], Apply(s, a);
    var b := ClaimOne(0, 7);
    RunsCompose(EMPTY, steps, s, b);
    steps, s := steps + [b], Apply(s, b);
    var c := Tick(STUCK_THRESHOLD + 1);
    RunsCompose(EMPTY, steps, s, c);
    steps, s := steps + [c], Apply(s, c);
    var d := Recover(7, 1);
    RunsCompose(EMPTY, steps, s, d);
    steps, s := steps + [d], Apply(s, d);
  }

  lemma SecondCopyIsLocked() returns (steps: seq<Step>, s: State)
    ensures Run(EMPTY, steps, s)
    ensures s == State(map[7 := Row(1, Sending, 0, None, 0, STUCK_THRESHOLD + 1, "", "")],
                       map[0 := Copy(Claim(7, 1, 0), 0, Batched),
                           1 := Copy(Claim(7, 1, 0), STUCK_THRESHOLD + 1, InLock)],
                       map[7 := Tally(2, 0, 0, 1, 0)], STUCK_THRESHOLD + 1)
  {
    steps, s := LateCopyIsRequeued();
    var a := ClaimOne(1, 7);
    RunsCompose(EMPTY, steps, s, a);
    steps, s := steps + [a], Apply(s, a);
    RunsCompose(EMPTY, steps, s, Lock(1));
    steps, s := steps + [Lock(1)], Apply(s, Lock(1));
  }

  lemma LateCopyLosesItsRow() returns (steps: seq<Step>, s: State)
    ensures Run(EMPTY, steps, s)
    ensures 7 in s.rows && s.rows[7].status == Sent
    ensures s.copies == map[0 := Copy(Claim(7, 1, 0), 0, Batched)] && Count(s, 7).sends == 1
  {
    steps, s := SecondCopyIsLocked();
    var quick := Env(true, true, false, Delivered("wa"), false);
    RunsCompose(EMPTY, steps, s, Work(1, quick));
    steps, s := steps + [Work(1, quick)], Apply(s, Work(1, quick));
    RunsCompose(EMPTY, steps, s, Record(1, Applied));
    steps, s := steps + [Record(1, Applied)], Apply(s, Record(1, Applied));
    RunsCompose(EMPTY, steps, s, Emit(1, true));
    steps, s := steps + [Emit(1, true)], Apply(s, Emit(1, true));
  }
}
