/** The fixed-window limiter of the open Chatwoot webhook
    (internal/httpapi/chatwoot_ratelimit.go).

    `Consume` is one call of Allow on the hits table. The lemmas are about whole traces of
    calls: what a window admits, and the exact maximum that an interval of one window can let
    through, in terms of how late a clock reading is served. */
module RateLimit {
  type InstanceId = nat

  const MINUTE: int := 60_000_000_000

  datatype Window = Window(count: nat, reset: int)

  type Hits = map<InstanceId, Window>

  datatype Call = Call(id: InstanceId, now: int)

  /** One call: a missing or elapsed window is replaced by a fresh one holding this call. */
  function Consume(limit: int, window: int, hits: Hits, call: Call): (bool, Hits) {
    if limit <= 0 then (true, hits)
    else if call.id !in hits || call.now >= hits[call.id].reset then
      (true, hits[call.id := Window(1, call.now + window)])
    else if hits[call.id].count >= limit then (false, hits)
    else (true, hits[call.id := hits[call.id].(count := hits[call.id].count + 1)])
  }

  class ChatwootRateLimiter {
    const limit: int
    const window: int
    var hits: Hits

    constructor (limit: int, window: int)
      ensures this.limit == limit && hits == map[]
      ensures this.window == (if window <= 0 then MINUTE else window) && this.window > 0
    {
      this.limit := limit;
      this.window := if window <= 0 then MINUTE else window;
      hits := map[];
    }

    method Allow(id: InstanceId, now: int) returns (ok: bool)
      modifies this`hits
      ensures (ok, hits) == Consume(limit, window, old(hits), Call(id, now))
      ensures !ok <==> limit > 0 && id in old(hits) && now < old(hits)[id].reset && old(hits)[id].count >= limit
      ensures forall other :: other != id && other in old(hits) ==> other in hits && hits[other] == old(hits)[other]
    {
      if limit <= 0 {
        return true;
      }
      if id !in hits || now >= hits[id].reset {
        hits := hits[id := Window(1, now + window)];
        return true;
      }
      var w := hits[id];
      if w.count >= limit {
        return false;
      }
      hits := hits[id := w.(count := w.count + 1)];
      return true;
    }
  }

  /** The clock readings of a trace never go back and none precedes `from`. */
  ghost predicate Clocked(from: int, calls: seq<Call>) {
    && (forall i :: 0 <= i < |calls| ==> from <= calls[i].now)
    && (forall i, j :: 0 <= i < j < |calls| ==> calls[i].now <= calls[j].now)
  }

  /** How many calls of `id` with a reading in [a, b) the trace lets through. */
  function Admitted(limit: int, window: int, hits: Hits, calls: seq<Call>, id: InstanceId, a: int, b: int): nat
    decreases |calls|
  {
    if calls == [] then 0
    else
      var (ok, next) := Consume(limit, window, hits, calls[0]);
      (if ok && calls[0].id == id && a <= calls[0].now < b then 1 else 0)
      + Admitted(limit, window, next, calls[1..], id, a, b)
  }

  /** How many calls of `id` arrive with a reading before b. */
  function Arrived(calls: seq<Call>, id: InstanceId, b: int): nat {
    if calls == [] then 0
    else (if calls[0].id == id && calls[0].now < b then 1 else 0) + Arrived(calls[1..], id, b)
  }

  function Min(a: int, b: int): int { if a < b then a else b }

  /** A window that is open admits exactly what is left of its budget, and no other
      instance can use it up. */
  lemma {:induction false} WindowBudget(limit: int, window: int, hits: Hits, calls: seq<Call>, id: InstanceId, from: int)
    requires limit > 0 && window > 0 && Clocked(from, calls)
    requires id in hits && hits[id].count <= limit
    ensures Admitted(limit, window, hits, calls, id, from, hits[id].reset)
         == Min(limit - hits[id].count, Arrived(calls, id, hits[id].reset))
    decreases |calls|
  {
    if calls != [] {
      var (ok, next) := Consume(limit, window, hits, calls[0]);
      var reset := hits[id].reset;
      if calls[0].id == id && calls[0].now >= reset {
        LateCalls(limit, window, next, calls[1..], id, from, reset);
      } else {
        assert next[id].reset == reset;
        WindowBudget(limit, window, next, calls[1..], id, from);
      }
    }
  }

  /** Nothing with a reading at or past b counts towards an interval that ends at b. */
  lemma {:induction false} LateCalls(limit: int, window: int, hits: Hits, calls: seq<Call>, id: InstanceId, a: int, b: int)
    requires Clocked(b, calls)
    ensures Admitted(limit, window, hits, calls, id, a, b) == 0 && Arrived(calls, id, b) == 0
    decreases |calls|
  {
    if calls != [] {
      LateCalls(limit, window, Consume(limit, window, hits, calls[0]).1, calls[1..], id, a, b);
    }
  }

  /** No reading is served more than `late` behind one served before it; `high` is the latest so
      far. Allow reads the clock before it takes its lock, so that readings can be late at all. */
  ghost predicate LateBy(late: int, high: int, calls: seq<Call>)
    decreases |calls|
  {
    calls != [] ==> high - late <= calls[0].now && LateBy(late, Max(high, calls[0].now), calls[1..])
  }

  function Max(a: int, b: int): int { if a < b then b else a }

  /** What windows that start from `start` on and before `end` can still admit, a window apart, when
      each spends one call outside the interval. */
  function Room(start: int, end: int, limit: int, window: int): (room: int)
    requires limit > 0 && window > 0
    ensures room >= 0
    decreases end - start
  {
    if start >= end then 0 else limit - 1 + Room(start + window, end, limit, window)
  }

  lemma {:induction false} RoomShrinks(start: int, later: int, end: int, limit: int, window: int)
    requires limit > 0 && window > 0 && start <= later
    ensures Room(later, end, limit, window) <= Room(start, end, limit, window)
    decreases end - start
  {
    if start < end && later < end {
      RoomShrinks(start + window, later + window, end, limit, window);
    }
  }

  /** The first instant at which a window can still start that reaches past a. */
  function NextStart(window: int, hits: Hits, id: InstanceId, a: int): int {
    if id in hits && hits[id].reset > a - window then hits[id].reset else a - window + 1
  }

  /** What an interval [a, a + window) can still admit: the rest of the open window if it reaches
      into the interval, and what later windows can; one window at most starts inside the interval
      and spends its first call there. */
  function Headroom(limit: int, window: int, late: int, hits: Hits, id: InstanceId, a: int): int
    requires limit > 0 && window > 0
  {
    var next := NextStart(window, hits, id, a);
    (if id in hits && hits[id].reset > a then limit - hits[id].count else 0)
    + Room(next, a + window + late, limit, window) + if next < a + window then 1 else 0
  }

  ghost predicate Sane(limit: int, hits: Hits) {
    forall id :: id in hits ==> 1 <= hits[id].count <= limit
  }

  /** Once a reading at or past `high` was served, nothing that counts before `high - late` is left. */
  lemma {:induction false} TooLateToCount(limit: int, window: int, late: int, hits: Hits, calls: seq<Call>, id: InstanceId,
                                          a: int, b: int, high: int)
    requires late >= 0 && LateBy(late, high, calls) && b <= high - late
    ensures Admitted(limit, window, hits, calls, id, a, b) == 0
    decreases |calls|
  {
    if calls != [] {
      TooLateToCount(limit, window, late, Consume(limit, window, hits, calls[0]).1, calls[1..], id, a, b, Max(high, calls[0].now));
    }
  }

  /** A call that opens a window pays for it out of the headroom. */
  lemma OpeningPays(limit: int, window: int, late: int, hits: Hits, call: Call, a: int)
    requires limit > 0 && window > 0 && late >= 0 && Sane(limit, hits)
    requires (call.id in hits ==> call.now >= hits[call.id].reset) && call.now < a + window + late
    ensures (if a <= call.now < a + window then 1 else 0)
            + Headroom(limit, window, late, hits[call.id := Window(1, call.now + window)], call.id, a)
         <= Headroom(limit, window, late, hits, call.id, a)
  {
    var next := NextStart(window, hits, call.id, a);
    var then' := NextStart(window, hits[call.id := Window(1, call.now + window)], call.id, a);
    if call.now <= a - window {
      RoomShrinks(next, then', a + window + late, limit, window);
    } else {
      assert then' == call.now + window && next <= call.now;
      RoomShrinks(next, call.now, a + window + late, limit, window);
    }
  }

  /** So does a call that is charged to an open window; a refused one and one of another instance
      change nothing. */
  lemma ChargingPays(limit: int, window: int, late: int, hits: Hits, call: Call, id: InstanceId, a: int)
    requires limit > 0 && window > 0 && late >= 0 && Sane(limit, hits)
    requires call.id == id ==> id in hits && call.now < hits[id].reset
    ensures var (ok, next) := Consume(limit, window, hits, call);
      (if ok && call.id == id && a <= call.now < a + window then 1 else 0) + Headroom(limit, window, late, next, id, a)
      <= Headroom(limit, window, late, hits, id, a)
  {
  }

  lemma {:induction false} IntervalBound(limit: int, window: int, late: int, hits: Hits, calls: seq<Call>, id: InstanceId,
                                         a: int, high: int)
    requires limit > 0 && window > 0 && late >= 0 && LateBy(late, high, calls) && Sane(limit, hits)
    ensures Admitted(limit, window, hits, calls, id, a, a + window) <= Headroom(limit, window, late, hits, id, a)
    decreases |calls|
  {
    if calls != [] {
      var call, rest, next := calls[0], calls[1..], Consume(limit, window, hits, calls[0]).1;
      if call.now >= a + window + late {
        TooLateToCount(limit, window, late, next, rest, id, a, a + window, Max(high, call.now));
      } else {
        IntervalBound(limit, window, late, next, rest, id, a, Max(high, call.now));
        if call.id == id && (id in hits ==> call.now >= hits[id].reset) {
          OpeningPays(limit, window, late, hits, call, a);
        } else {
          ChargingPays(limit, window, late, hits, call, id, a);
        }
      }
    }
  }

  lemma {:induction false} RoomIsBounded(start: int, end: int, n: nat, limit: int, window: int)
    requires limit > 0 && window > 0 && end - start <= n * window
    ensures Room(start, end, limit, window) <= n * (limit - 1)
    decreases n
  {
    if start < end {
      assert n > 0 && n * window == (n - 1) * window + window;
      RoomIsBounded(start + window, end, n - 1, limit, window);
      assert n * (limit - 1) == (n - 1) * (limit - 1) + (limit - 1);
    }
  }

  // ---- The most an interval can let through --------------------------------------------------

  /** What a run lets through of one instance in the interval of one window from a on. */
  function Burst(limit: int, window: int, calls: seq<Call>, id: InstanceId, a: int): nat {
    Admitted(limit, window, map[], calls, id, a, a + window)
  }

  ghost predicate ServedWithin(late: int, calls: seq<Call>) {
    calls != [] ==> LateBy(late, calls[0].now, calls)
  }

  /** How many windows can serve one interval when no reading is served more than `late` late. */
  function Windows(window: int, late: int): int
    requires window > 0
  {
    (late + 3 * window - 2) / window
  }

  function Peak(limit: int, window: int, late: int): int
    requires window > 0
  {
    Windows(window, late) * (limit - 1) + 1
  }

  /** When no reading is served more than `late` late, any half-open interval as long as the window
      lets no more than the peak through, whatever the other instances do. */
  lemma LateBurstBound(limit: int, window: int, late: int, calls: seq<Call>, id: InstanceId, a: int)
    requires limit > 0 && window > 0 && late >= 0 && ServedWithin(late, calls)
    ensures Burst(limit, window, calls, id, a) <= Peak(limit, window, late)
  {
    WindowsCover(window, late);
    if calls != [] {
      IntervalBound(limit, window, late, map[], calls, id, a, calls[0].now);
      RoomIsBounded(a - window + 1, a + window + late, Windows(window, late), limit, window);
    } else {
      assert Windows(window, late) * (limit - 1) >= 0;
    }
  }

  lemma MultiplesGrow(m: int, n: int, w: int)
    requires w >= 0
    ensures m <= n ==> m * w <= n * w
  {
    assert n * w == m * w + (n - m) * w;
    assert m <= n ==> (n - m) * w >= 0;
  }

  /** The number of windows is the least that covers all starts. */
  lemma WindowsCover(window: int, late: int)
    requires window > 0 && late >= 0
    ensures var n := Windows(window, late);
      n >= 1 && (n - 1) * window < late + 2 * window - 1 <= n * window && (window >= 2 ==> n >= 2)
  {
    var n, x := Windows(window, late), late + 3 * window - 2;
    assert x == n * window + x % window;
    assert (n - 1) * window == n * window - window;
    MultiplesGrow(n, 0, window);
    MultiplesGrow(n, 1, window);
  }

  // ---- A run that reaches it ----------------------------------------------------------------

  function Only(id: InstanceId, count: nat, reset: int): Hits {
    map[id := Window(count, reset)]
  }

  function Together(id: InstanceId, now: int, n: nat): seq<Call> {
    seq(n, _ => Call(id, now))
  }

  /** A call that opens a window and those that fill it, and what comes after. */
  function Filled(limit: int, id: InstanceId, opening: int, now: int, rest: seq<Call>): seq<Call>
    requires limit > 0
  {
    [Call(id, opening)] + (Together(id, now, limit - 1) + rest)
  }

  /** Rounds of one call that opens the next window and calls with an old reading that fill it. */
  function StaleRounds(limit: int, window: int, id: InstanceId, start: int, stale: int, rounds: nat): seq<Call>
    requires limit > 0
    decreases rounds
  {
    if rounds == 0 then []
    else
      Filled(limit, id, start + window, stale, StaleRounds(limit, window, id, start + window, stale, rounds - 1))
  }

  /** A window that opens before the interval and is filled inside it, a window that is all inside,
      and then rounds with the last reading of the interval. */
  function WideRun(limit: int, window: int, id: InstanceId, rounds: nat): seq<Call>
    requires limit > 0
  {
    Filled(limit, id, 0, window - 1,
           Filled(limit, id, window, window, StaleRounds(limit, window, id, window, 2 * window - 2, rounds)))
  }

  /** A window of one tick has no instant before the interval to open at. */
  function NarrowRun(limit: int, id: InstanceId, rounds: nat): seq<Call>
    requires limit > 0
  {
    Filled(limit, id, 0, 0, StaleRounds(limit, 1, id, 0, 0, rounds))
  }

  function PeakRun(limit: int, window: int, late: int, id: InstanceId): seq<Call>
    requires limit > 0 && window > 0 && late >= 0
  {
    WindowsCover(window, late);
    var n := Windows(window, late);
    if window == 1 then NarrowRun(limit, id, n - 1) else WideRun(limit, window, id, n - 2)
  }

  lemma OpeningCall(limit: int, window: int, hits: Hits, id: InstanceId, now: int, rest: seq<Call>, a: int, b: int)
    requires limit > 0 && hits.Keys <= {id} && (id in hits ==> now >= hits[id].reset)
    ensures Admitted(limit, window, hits, [Call(id, now)] + rest, id, a, b)
         == (if a <= now < b then 1 else 0) + Admitted(limit, window, Only(id, 1, now + window), rest, id, a, b)
  {
    assert ([Call(id, now)] + rest)[1..] == rest;
    assert hits[id := Window(1, now + window)] == Only(id, 1, now + window);
  }

  lemma ChargedCall(limit: int, window: int, id: InstanceId, count: nat, reset: int, now: int, rest: seq<Call>, a: int, b: int)
    requires limit > 0 && now < reset && count < limit
    ensures Admitted(limit, window, Only(id, count, reset), [Call(id, now)] + rest, id, a, b)
         == (if a <= now < b then 1 else 0) + Admitted(limit, window, Only(id, count + 1, reset), rest, id, a, b)
  {
    assert ([Call(id, now)] + rest)[1..] == rest;
    assert Only(id, count, reset)[id := Window(count + 1, reset)] == Only(id, count + 1, reset);
  }

  lemma {:induction false} ChargedTogether(limit: int, window: int, id: InstanceId, count: nat, reset: int,
                                           now: int, n: nat, rest: seq<Call>, a: int, b: int)
    requires limit > 0 && now < reset && count + n <= limit
    ensures Admitted(limit, window, Only(id, count, reset), Together(id, now, n) + rest, id, a, b)
         == (if a <= now < b then n else 0) + Admitted(limit, window, Only(id, count + n, reset), rest, id, a, b)
    decreases n
  {
    if n == 0 {
      assert Together(id, now, n) + rest == rest;
    } else {
      var more := Together(id, now, n - 1) + rest;
      assert Together(id, now, n) + rest == [Call(id, now)] + more;
      ChargedCall(limit, window, id, count, reset, now, more, a, b);
      ChargedTogether(limit, window, id, count + 1, reset, now, n - 1, rest, a, b);
    }
  }

  lemma FilledAdmits(limit: int, window: int, hits: Hits, id: InstanceId, opening: int, now: int, rest: seq<Call>, a: int, b: int)
    requires limit > 0 && hits.Keys <= {id} && (id in hits ==> opening >= hits[id].reset) && now < opening + window
    ensures Admitted(limit, window, hits, Filled(limit, id, opening, now, rest), id, a, b)
         == (if a <= opening < b then 1 else 0) + (if a <= now < b then limit - 1 else 0)
            + Admitted(limit, window, Only(id, limit, opening + window), rest, id, a, b)
  {
    OpeningCall(limit, window, hits, id, opening, Together(id, now, limit - 1) + rest, a, b);
    ChargedTogether(limit, window, id, 1, opening + window, now, limit - 1, rest, a, b);
  }

  /** Each round lets all but its opening call count in the interval. */
  lemma {:induction false} RoundsAdmit(limit: int, window: int, id: InstanceId, start: int, stale: int, rounds: nat, a: int, b: int)
    requires limit > 0 && window > 0 && a <= stale < b <= start + window
    ensures Admitted(limit, window, Only(id, limit, start + window), StaleRounds(limit, window, id, start, stale, rounds), id, a, b)
         == rounds * (limit - 1)
    decreases rounds
  {
    if rounds > 0 {
      var rest := StaleRounds(limit, window, id, start + window, stale, rounds - 1);
      FilledAdmits(limit, window, Only(id, limit, start + window), id, start + window, stale, rest, a, b);
      RoundsAdmit(limit, window, id, start + window, stale, rounds - 1, a, b);
      assert rounds * (limit - 1) == (limit - 1) + (rounds - 1) * (limit - 1);
    }
  }

  lemma NarrowRunAdmits(limit: int, id: InstanceId, rounds: nat)
    requires limit > 0
    ensures Burst(limit, 1, NarrowRun(limit, id, rounds), id, 0) == 1 + (limit - 1) + rounds * (limit - 1)
  {
    FilledAdmits(limit, 1, map[], id, 0, 0, StaleRounds(limit, 1, id, 0, 0, rounds), 0, 1);
    RoundsAdmit(limit, 1, id, 0, 0, rounds, 0, 1);
  }

  lemma WideRunAdmits(limit: int, window: int, id: InstanceId, rounds: nat)
    requires limit > 0 && window >= 2
    ensures Burst(limit, window, WideRun(limit, window, id, rounds), id, window - 1) == 1 + 2 * (limit - 1) + rounds * (limit - 1)
  {
    var a, b, rest := window - 1, 2 * window - 1, StaleRounds(limit, window, id, window, 2 * window - 2, rounds);
    FilledAdmits(limit, window, map[], id, 0, a, Filled(limit, id, window, window, rest), a, b);
    FilledAdmits(limit, window, Only(id, limit, window), id, window, window, rest, a, b);
    RoundsAdmit(limit, window, id, window, 2 * window - 2, rounds, a, b);
  }

  lemma Split(n: int, m: int, x: int)
    ensures m * x + (n - m) * x == n * x
  {
  }

  lemma PeakRunAdmits(limit: int, window: int, late: int, id: InstanceId)
    requires limit > 0 && window > 0 && late >= 0
    ensures Burst(limit, window, PeakRun(limit, window, late, id), id, window - 1) == Peak(limit, window, late)
  {
    WindowsCover(window, late);
    var n := Windows(window, late);
    if window == 1 {
      NarrowRunAdmits(limit, id, n - 1);
      Split(n, 1, limit - 1);
    } else {
      WideRunAdmits(limit, window, id, n - 2);
      Split(n, 2, limit - 1);
    }
  }

  lemma {:induction false} LateByLower(late: int, low: int, high: int, calls: seq<Call>)
    requires low <= high && LateBy(late, high, calls)
    ensures LateBy(late, low, calls)
    decreases |calls|
  {
    if calls != [] {
      LateByLower(late, Max(low, calls[0].now), Max(high, calls[0].now), calls[1..]);
    }
  }

  lemma {:induction false} LateTogether(late: int, high: int, id: InstanceId, now: int, n: nat, rest: seq<Call>)
    requires late >= 0 && high - late <= now && LateBy(late, Max(high, now), rest)
    ensures LateBy(late, high, Together(id, now, n) + rest)
    decreases n
  {
    if n == 0 {
      assert Together(id, now, n) + rest == rest;
      LateByLower(late, high, Max(high, now), rest);
    } else {
      assert (Together(id, now, n) + rest)[1..] == Together(id, now, n - 1) + rest;
      LateTogether(late, Max(high, now), id, now, n - 1, rest);
    }
  }

  lemma FilledLate(late: int, high: int, limit: int, id: InstanceId, opening: int, now: int, rest: seq<Call>)
    requires limit > 0 && late >= 0 && high <= opening && opening - late <= now
    requires LateBy(late, Max(opening, now), rest)
    ensures LateBy(late, high, Filled(limit, id, opening, now, rest))
  {
    LateTogether(late, opening, id, now, limit - 1, rest);
    assert Filled(limit, id, opening, now, rest)[1..] == Together(id, now, limit - 1) + rest;
  }

  lemma {:induction false} RoundsLate(late: int, high: int, limit: int, window: int, id: InstanceId, start: int, stale: int, rounds: nat)
    requires limit > 0 && window > 0 && late >= 0 && high <= start + window && stale <= start + window
    requires rounds > 0 ==> start + rounds * window - stale <= late
    ensures LateBy(late, high, StaleRounds(limit, window, id, start, stale, rounds))
    decreases rounds
  {
    if rounds > 0 {
      var next := start + window;
      assert rounds * window == window + (rounds - 1) * window && (rounds - 1) * window >= 0;
      RoundsLate(late, next, limit, window, id, next, stale, rounds - 1);
      FilledLate(late, high, limit, id, next, stale, StaleRounds(limit, window, id, next, stale, rounds - 1));
    }
  }

  lemma PeakRunIsLate(limit: int, window: int, late: int, id: InstanceId)
    requires limit > 0 && window > 0 && late >= 0
    ensures ServedWithin(late, PeakRun(limit, window, late, id))
  {
    WindowsCover(window, late);
    var n := Windows(window, late);
    if window == 1 {
      RoundsLate(late, 0, limit, window, id, 0, 0, n - 1);
      FilledLate(late, 0, limit, id, 0, 0, StaleRounds(limit, window, id, 0, 0, n - 1));
    } else {
      var rounds := StaleRounds(limit, window, id, window, 2 * window - 2, n - 2);
      assert (n - 1) * window == window + (n - 2) * window;
      RoundsLate(late, window, limit, window, id, window, 2 * window - 2, n - 2);
      FilledLate(late, window - 1, limit, id, window, window, rounds);
      FilledLate(late, 0, limit, id, 0, window - 1, Filled(limit, id, window, window, rounds));
    }
  }

  // ---- Both together --------------------------------------------------------------------------

  /** No run whose readings are served at most `late` late passes `most` in any interval. */
  ghost predicate KeepsWithin(limit: int, window: int, late: int, most: int) {
    forall calls: seq<Call>, id, a :: ServedWithin(late, calls) ==> Burst(limit, window, calls, id, a) <= most
  }

  /** The peak is the most that any run lets through, for every limit, window and lateness. */
  lemma PeakIsExact(limit: int, window: int, late: int, most: int)
    requires limit > 0 && window > 0 && late >= 0
    ensures KeepsWithin(limit, window, late, most) <==> Peak(limit, window, late) <= most
  {
    if KeepsWithin(limit, window, late, most) {
      PeakRunAdmits(limit, window, late, 0);
      PeakRunIsLate(limit, window, late, 0);
      assert Burst(limit, window, PeakRun(limit, window, late, 0), 0, window - 1) <= most;
    }
    if Peak(limit, window, late) <= most {
      forall calls: seq<Call>, id, a | ServedWithin(late, calls)
        ensures Burst(limit, window, calls, id, a) <= most
      {
        LateBurstBound(limit, window, late, calls, id, a);
      }
    }
  }

  /** The limiter keeps to twice its limit in every run if and only if this holds of the three
      numbers: two windows serve the interval, or the limit is 1, or it is 2 and three do. */
  lemma KeepsTwiceTheLimitExactly(limit: int, window: int, late: int)
    requires limit > 0 && window > 0 && late >= 0
    ensures KeepsWithin(limit, window, late, 2 * limit) <==> (Windows(window, late) - 2) * (limit - 1) <= 1
  {
    PeakIsExact(limit, window, late, 2 * limit);
    assert Windows(window, late) * (limit - 1) == (Windows(window, late) - 2) * (limit - 1) + 2 * (limit - 1);
  }

  /** In whole windows: readings served at most k windows late. */
  lemma KeepsTwiceWhenWindowsLate(limit: int, window: int, k: nat)
    requires limit > 0 && window >= 2
    ensures Peak(limit, window, k * window) == (k + 2) * (limit - 1) + 1
    ensures KeepsWithin(limit, window, k * window, 2 * limit) <==> k * (limit - 1) <= 1
  {
    assert k * window >= 0;
    WindowsCover(window, k * window);
    var n := Windows(window, k * window);
    assert (k + 2) * window == k * window + 2 * window && (k + 1) * window == k * window + window;
    MultiplesGrow(k + 2, n - 1, window);
    MultiplesGrow(n, k + 1, window);
    KeepsTwiceTheLimitExactly(limit, window, k * window);
  }

  // ---- Readings in order ----------------------------------------------------------------------

  ghost predicate InOrder(calls: seq<Call>) {
    forall i, j :: 0 <= i < j < |calls| ==> calls[i].now <= calls[j].now
  }

  lemma {:induction false} OrderedIsNotLate(high: int, calls: seq<Call>)
    requires Clocked(high, calls)
    ensures LateBy(0, high, calls)
    decreases |calls|
  {
    if calls != [] {
      OrderedIsNotLate(calls[0].now, calls[1..]);
    }
  }

  lemma {:induction false} NotLateIsOrdered(high: int, calls: seq<Call>)
    requires LateBy(0, high, calls)
    ensures Clocked(high, calls)
    decreases |calls|
  {
    if calls != [] {
      NotLateIsOrdered(calls[0].now, calls[1..]);
      assert forall i :: 0 < i < |calls| ==> calls[i] == calls[1..][i - 1];
    }
  }

  lemma WithinZeroIsOrdered(calls: seq<Call>)
    requires ServedWithin(0, calls)
    ensures InOrder(calls)
  {
    if calls != [] {
      NotLateIsOrdered(calls[0].now, calls);
    }
  }

  lemma PeakInOrder(limit: int, window: int)
    requires limit > 0 && window > 0
    ensures Peak(limit, window, 0) == if window == 1 then limit else 2 * limit - 1
  {
    WindowsCover(window, 0);
    var n := Windows(window, 0);
    MultiplesGrow(2, n - 1, window);
    assert n == if window == 1 then 1 else 2;
  }

  /** With a clock that never goes back an interval lets fewer than twice the limit through. */
  lemma BurstBound(limit: int, window: int, calls: seq<Call>, id: InstanceId, a: int)
    requires limit > 0 && window > 0 && InOrder(calls)
    ensures Burst(limit, window, calls, id, a) <= 2 * limit - 1
  {
    if calls != [] {
      OrderedIsNotLate(calls[0].now, calls);
    }
    LateBurstBound(limit, window, 0, calls, id, a);
    PeakInOrder(limit, window);
  }

  /** The bound is reached under every limit and window of at least two ticks: the rest of one
      window, then all of the next. */
  lemma BurstIsTight(limit: int, window: int, id: InstanceId) returns (calls: seq<Call>, a: int)
    requires limit > 0 && window >= 2
    ensures InOrder(calls) && Burst(limit, window, calls, id, a) == 2 * limit - 1
  {
    calls, a := PeakRun(limit, window, 0, id), window - 1;
    PeakRunAdmits(limit, window, 0, id);
    PeakRunIsLate(limit, window, 0, id);
    WithinZeroIsOrdered(calls);
    PeakInOrder(limit, window);
  }

  // ---- One input that passes twice the limit ------------------------------------------------

  lemma FilledThree(opening: int, now: int, rest: seq<Call>)
    ensures Filled(3, 7, opening, now, rest) == [Call(7, opening), Call(7, now), Call(7, now)] + rest
  {
    assert Together(7, now, 2) == [Call(7, now), Call(7, now)];
  }

  /** Two ticks late are enough: seven calls of one interval go through under limit 3 and window 10. */
  lemma StaleReadingsBreakBound()
    ensures var calls := [Call(7, 0), Call(7, 9), Call(7, 9)] + ([Call(7, 10), Call(7, 10), Call(7, 10)]
                          + [Call(7, 20), Call(7, 18), Call(7, 18)]);
      ServedWithin(2, calls) && Burst(3, 10, calls, 7, 9) == 7 > 2 * 3
  {
    FilledThree(20, 18, []);
    FilledThree(10, 10, [Call(7, 20), Call(7, 18), Call(7, 18)]);
    FilledThree(0, 9, [Call(7, 10), Call(7, 10), Call(7, 10)] + [Call(7, 20), Call(7, 18), Call(7, 18)]);
    assert StaleRounds(3, 10, 7, 10, 18, 1) == [Call(7, 20), Call(7, 18), Call(7, 18)];
    PeakRunAdmits(3, 10, 2, 7);
    PeakRunIsLate(3, 10, 2, 7);
  }
}
