/** The operational notices of the mirror and the import they trigger
    (internal/chatwoot/mirror/worker.go, HandleConnection and maybeAutoImport).

    Identical notices are throttled by the last one posted, and a connected notice fires the
    history import once until a notice of another status re-arms it. Both rest on maps in memory
    that are written after the post, so a post whose reply is lost and a restart get past them: the
    theorems say exactly when. */
module ConnectionNotices {
  import opened Wrappers

  type EventId = nat
  type InstanceId = nat

  const THROTTLE: int := 30_000_000_000

  datatype Status = Connected | Pairing | Disconnected | Other(name: string)

  datatype Stamp = Stamp(status: Status, at: int)

  datatype Reply = Ack | Nak

  /** What the calls around the post found: nothing to mirror to, an unreadable configuration, no
      stack or contact to post with, or a stack or conversation that failed to resolve. */
  datatype Setup = Ready | Off | NoConfig | Skipped | Broken

  /** The post can fail before or after it took effect; the stamp is taken when it returns. */
  datatype Faults = Faults(setup: Setup, post: Write, postedAt: int)

  /** A notice that became visible: when its throttle was asked, when the call returned, whether it
      reported success, and how many restarts there had been. */
  datatype Post = Post(status: Status, asked: int, at: int, reported: bool, epoch: nat)

  /** `posts`, `fires`, `rearms` and `restarts` record what happened; `rearms` the handled notices
      of a status other than connected. */
  datatype State = State(
    seen: set<EventId>, notices: map<InstanceId, Stamp>, imported: set<InstanceId>,
    posts: map<InstanceId, seq<Post>>, fires: map<InstanceId, nat>, rearms: map<InstanceId, nat>, restarts: nat)

  function Count(m: map<InstanceId, nat>, id: InstanceId): nat { if id in m then m[id] else 0 }

  function PostsOf(s: State, id: InstanceId): seq<Post> { if id in s.posts then s.posts[id] else [] }

  /** A stamp stops a notice of its status for as long as it is fresh. */
  predicate Stops(stamp: Option<Stamp>, status: Status, now: int) {
    stamp.Some? && stamp.value.status == status && now - stamp.value.at < THROTTLE
  }

  function StampOf(notices: map<InstanceId, Stamp>, id: InstanceId): Option<Stamp> {
    if id in notices then Some(notices[id]) else None
  }

  function Rearmed(s: State, id: InstanceId, status: Status): State {
    if status == Connected then s
    else s.(imported := s.imported - {id}, rearms := s.rearms[id := Count(s.rearms, id) + 1])
  }

  function Imported(s: State, id: InstanceId): State {
    if id in s.imported then s
    else s.(imported := s.imported + {id}, fires := s.fires[id := Count(s.fires, id) + 1])
  }

  /** The post, and what is kept of it when it reports success. */
  function Posted(s: State, id: InstanceId, event: EventId, status: Status, now: int, f: Faults): (State, Reply) {
    if f.post.NotApplied? then (s, Nak)
    else
      var post := Post(status, now, f.postedAt, f.post.Applied?, s.restarts);
      var t := s.(posts := s.posts[id := PostsOf(s, id) + [post]]);
      if f.post.AppliedButFailed? then (t, Nak)
      else
        var u := t.(notices := t.notices[id := Stamp(status, f.postedAt)], seen := t.seen + {event});
        (if status == Connected then Imported(u, id) else u, Ack)
  }

  function Handled(s: State, id: InstanceId, event: EventId, status: Status, now: int, f: Faults): (State, Reply) {
    if f.setup.NoConfig? then (s, Nak)
    else if f.setup.Off? || event in s.seen then (s, Ack)
    else
      var r := Rearmed(s, id, status);
      if Stops(StampOf(r.notices, id), status, now) then (r.(seen := r.seen + {event}), Ack)
      else if f.setup.Broken? then (r, Nak)
      else if f.setup.Skipped? then (r, Ack)
      else Posted(r, id, event, status, now, f)
  }

  function Restarted(s: State): State {
    s.(seen := {}, notices := map[], imported := {}, restarts := s.restarts + 1)
  }

  class Notices {
    var seen: set<EventId>
    var notices: map<InstanceId, Stamp>
    var imported: set<InstanceId>
    ghost var posts: map<InstanceId, seq<Post>>
    ghost var fires: map<InstanceId, nat>
    ghost var rearms: map<InstanceId, nat>
    ghost var restarts: nat

    ghost function View(): State
      reads this
    {
      State(seen, notices, imported, posts, fires, rearms, restarts)
    }

    constructor ()
      ensures View() == EMPTY
    {
      seen, notices, imported, posts, fires, rearms, restarts := {}, map[], {}, map[], map[], map[], 0;
    }

    method MaybeAutoImport(id: InstanceId) returns (fire: bool)
      modifies this
      ensures View() == Imported(old(View()), id) && fire == (id !in old(imported))
    {
      fire := id !in imported;
      if fire {
        imported := imported + {id};
        fires := fires[id := Count(fires, id) + 1];
      }
    }

    method Throttled(id: InstanceId, status: Status, now: int) returns (stop: bool)
      ensures stop == Stops(StampOf(notices, id), status, now)
      ensures stop <==> id in notices && notices[id].status == status && now - notices[id].at < 30_000_000_000
    {
      stop := id in notices && notices[id].status == status && now - notices[id].at < THROTTLE;
    }

    method PostNotice(id: InstanceId, event: EventId, status: Status, now: int, f: Faults) returns (reply: Reply, fire: bool)
      modifies this
      ensures (View(), reply) == Posted(old(View()), id, event, status, now, f)
      ensures fire <==> Count(fires, id) > Count(old(fires), id)
    {
      reply, fire := Nak, false;
      if f.post.NotApplied? {
        return;
      }
      posts := posts[id := (if id in posts then posts[id] else [])
                           + [Post(status, now, f.postedAt, f.post.Applied?, restarts)]];
      if f.post.AppliedButFailed? {
        return;
      }
      notices := notices[id := Stamp(status, f.postedAt)];
      seen := seen + {event};
      reply := Ack;
      if status == Connected {
        fire := MaybeAutoImport(id);
      }
    }

    method HandleConnection(id: InstanceId, event: EventId, status: Status, now: int, f: Faults)
      returns (reply: Reply, fire: bool)
      modifies this
      ensures (View(), reply) == Handled(old(View()), id, event, status, now, f)
      ensures reply == Nak <==>
                || f.setup.NoConfig?
                || (!f.setup.Off? && event !in old(seen) && (f.setup.Broken? || (f.setup.Ready? && !f.post.Applied?))
                    && !(id in old(notices) && old(notices)[id].status == status && now - old(notices)[id].at < 30_000_000_000))
      ensures event in seen <==>
                || event in old(seen)
                || (!f.setup.Off? && !f.setup.NoConfig?
                    && ((id in old(notices) && old(notices)[id].status == status && now - old(notices)[id].at < 30_000_000_000)
                        || (f.setup.Ready? && f.post.Applied?)))
      ensures fire <==> Count(fires, id) > Count(old(fires), id)
    {
      reply, fire := Ack, false;
      if f.setup.Off? || f.setup.NoConfig? {
        return if f.setup.Off? then Ack else Nak, false;
      }
      if event in seen {
        return;
      }
      if status != Connected {
        imported := imported - {id};
        rearms := rearms[id := Count(rearms, id) + 1];
      }
      var stop := Throttled(id, status, now);
      if stop {
        seen := seen + {event};
        return;
      }
      if f.setup.Broken? {
        return Nak, false;
      }
      if f.setup.Skipped? {
        return;
      }
      reply, fire := PostNotice(id, event, status, now, f);
    }

    /** A new process starts with empty maps. */
    method Restart()
      modifies this
      ensures View() == Restarted(old(View()))
    {
      seen, notices, imported := {}, map[], {};
      restarts := restarts + 1;
    }
  }

  // ---- Runs ---------------------------------------------------------------------------------

  const EMPTY: State := State({}, map[], {}, map[], map[], map[], 0)

  datatype Delivery = Delivery(id: InstanceId, event: EventId, status: Status, now: int, f: Faults)

  datatype Step = Deliver(d: Delivery) | Restart

  function Apply(s: State, step: Step): State {
    match step
    case Deliver(d) => Handled(s, d.id, d.event, d.status, d.now, d.f).0
    case Restart => Restarted(s)
  }

  function After(s: State, run: seq<Step>): State
    decreases |run|
  {
    if run == [] then s else After(Apply(s, run[0]), run[1..])
  }

  /** The clock of the worker never goes back: callbacks run one at a time, and a post is stamped
      no earlier than its handling began. */
  function ClockAfter(from: int, run: seq<Step>): int {
    if run == [] then from
    else if run[|run| - 1].Deliver? then run[|run| - 1].d.f.postedAt
    else ClockAfter(from, run[..|run| - 1])
  }

  ghost predicate Clocked(from: int, run: seq<Step>)
    decreases |run|
  {
    run != [] ==>
      if run[0].Deliver? then from <= run[0].d.now <= run[0].d.f.postedAt && Clocked(run[0].d.f.postedAt, run[1..])
      else Clocked(from, run[1..])
  }

  // ---- The throttle ---------------------------------------------------------------------------

  /** The stamp that the posts so far leave in memory in this life of the process. */
  function LastStamp(posts: seq<Post>, epoch: nat): Option<Stamp> {
    if posts == [] then None
    else
      var last := posts[|posts| - 1];
      if last.epoch != epoch then None
      else if last.reported then Some(Stamp(last.status, last.at))
      else LastStamp(posts[..|posts| - 1], epoch)
  }

  /** Posts come one after the other in time and in lives of the process. */
  ghost predicate InTime(posts: seq<Post>, clock: int, epoch: nat) {
    && (forall i :: 0 <= i < |posts| ==> posts[i].asked <= posts[i].at <= clock && posts[i].epoch <= epoch)
    && (forall i, j :: 0 <= i < j < |posts| ==> posts[i].at <= posts[j].asked && posts[i].epoch <= posts[j].epoch)
  }

  /** No post was made against the stamp that was in memory then. */
  ghost predicate Allowed(posts: seq<Post>) {
    forall i :: 0 <= i < |posts| ==> !Stops(LastStamp(posts[..i], posts[i].epoch), posts[i].status, posts[i].asked)
  }

  /** The stamp in memory is the one the posts leave. */
  ghost predicate Kept(posts: seq<Post>, stamp: Option<Stamp>, epoch: nat, clock: int) {
    InTime(posts, clock, epoch) && Allowed(posts) && stamp == LastStamp(posts, epoch)
  }

  ghost predicate NoticesOk(s: State, id: InstanceId, clock: int) {
    Kept(PostsOf(s, id), StampOf(s.notices, id), s.restarts, clock)
  }

  lemma LaterStaysAllowed(posts: seq<Post>, post: Post)
    requires Allowed(posts) && !Stops(LastStamp(posts, post.epoch), post.status, post.asked)
    ensures Allowed(posts + [post])
  {
    var more := posts + [post];
    forall i | 0 <= i < |more|
      ensures !Stops(LastStamp(more[..i], more[i].epoch), more[i].status, more[i].asked)
    {
      assert more[..i] == posts[..i];
      assert i == |posts| ==> posts[..i] == posts;
    }
  }

  function StampAfter(stamp: Option<Stamp>, post: Post): Option<Stamp> {
    if post.reported then Some(Stamp(post.status, post.at)) else stamp
  }

  lemma PostIsKept(posts: seq<Post>, stamp: Option<Stamp>, epoch: nat, clock: int, post: Post)
    requires Kept(posts, stamp, epoch, clock) && !Stops(stamp, post.status, post.asked)
    requires post.epoch == epoch && clock <= post.asked <= post.at
    ensures Kept(posts + [post], StampAfter(stamp, post), epoch, post.at)
  {
    LaterStaysAllowed(posts, post);
    InTimeAppended(posts, clock, epoch, post);
    LastStampAppended(posts, epoch, post);
  }

  lemma InTimeAppended(posts: seq<Post>, clock: int, epoch: nat, post: Post)
    requires InTime(posts, clock, epoch) && post.epoch == epoch && clock <= post.asked <= post.at
    ensures InTime(posts + [post], post.at, epoch)
  {
  }

  lemma LastStampAppended(posts: seq<Post>, epoch: nat, post: Post)
    requires post.epoch == epoch
    ensures LastStamp(posts + [post], epoch) == StampAfter(LastStamp(posts, epoch), post)
  {
    assert (posts + [post])[..|posts|] == posts;
  }

  function PostOf(s: State, d: Delivery): Post {
    Post(d.status, d.now, d.f.postedAt, d.f.post.Applied?, s.restarts)
  }

  /** Whether a delivery makes a post. */
  predicate Posts(s: State, d: Delivery) {
    && d.event !in s.seen && d.f.setup.Ready? && !d.f.post.NotApplied?
    && !Stops(StampOf(s.notices, d.id), d.status, d.now)
  }

  lemma PostedSparesOthers(s: State, d: Delivery, id: InstanceId)
    requires id != d.id
    ensures var t := Posted(s, d.id, d.event, d.status, d.now, d.f).0;
      PostsOf(t, id) == PostsOf(s, id) && StampOf(t.notices, id) == StampOf(s.notices, id) && t.restarts == s.restarts
  {
  }

  lemma HandledSparesOthers(s: State, d: Delivery, id: InstanceId)
    requires id != d.id
    ensures var t := Handled(s, d.id, d.event, d.status, d.now, d.f).0;
      PostsOf(t, id) == PostsOf(s, id) && StampOf(t.notices, id) == StampOf(s.notices, id) && t.restarts == s.restarts
  {
    PostedSparesOthers(Rearmed(s, d.id, d.status), d, id);
  }

  lemma PostedAppends(s: State, d: Delivery)
    requires !d.f.post.NotApplied?
    ensures var t := Posted(s, d.id, d.event, d.status, d.now, d.f).0;
      && t.restarts == s.restarts && PostsOf(t, d.id) == PostsOf(s, d.id) + [PostOf(s, d)]
      && StampOf(t.notices, d.id) == StampAfter(StampOf(s.notices, d.id), PostOf(s, d))
  {
  }

  /** A delivery appends its one post and leaves its stamp, or touches neither. */
  lemma HandledPosts(s: State, d: Delivery, id: InstanceId)
    ensures var t := Handled(s, d.id, d.event, d.status, d.now, d.f).0;
      && t.restarts == s.restarts
      && PostsOf(t, id) == PostsOf(s, id) + (if id == d.id && Posts(s, d) then [PostOf(s, d)] else [])
      && StampOf(t.notices, id) == if id == d.id && Posts(s, d) then StampAfter(StampOf(s.notices, id), PostOf(s, d))
                                   else StampOf(s.notices, id)
  {
    assert PostsOf(s, id) + [] == PostsOf(s, id);
    if id != d.id {
      HandledSparesOthers(s, d, id);
    } else if !d.f.post.NotApplied? {
      PostedAppends(Rearmed(s, d.id, d.status), d);
    }
  }

  lemma HandledKeepsNotices(s: State, d: Delivery, id: InstanceId, clock: int)
    requires NoticesOk(s, id, clock) && clock <= d.now <= d.f.postedAt
    ensures NoticesOk(Handled(s, d.id, d.event, d.status, d.now, d.f).0, id, d.f.postedAt)
  {
    HandledPosts(s, d, id);
    if id == d.id && Posts(s, d) {
      PostIsKept(PostsOf(s, id), StampOf(s.notices, id), s.restarts, clock, PostOf(s, d));
    } else {
      assert PostsOf(s, id) + [] == PostsOf(s, id);
    }
  }

  lemma RestartKeepsNotices(s: State, id: InstanceId, clock: int)
    requires NoticesOk(s, id, clock)
    ensures NoticesOk(Restarted(s), id, clock)
  {
  }

  lemma {:induction false} RunKeepsNotices(s: State, run: seq<Step>, id: InstanceId, clock: int)
    requires NoticesOk(s, id, clock) && Clocked(clock, run)
    ensures NoticesOk(After(s, run), id, ClockAfter(clock, run))
    decreases |run|
  {
    if run != [] {
      var next := if run[0].Deliver? then run[0].d.f.postedAt else clock;
      if run[0].Deliver? {
        HandledKeepsNotices(s, run[0].d, id, clock);
      } else {
        RestartKeepsNotices(s, id, clock);
      }
      RunKeepsNotices(Apply(s, run[0]), run[1..], id, next);
      ClockOfTail(clock, run);
    }
  }

  lemma {:induction false} ClockOfTail(from: int, run: seq<Step>)
    requires run != []
    ensures ClockAfter(from, run) == ClockAfter(if run[0].Deliver? then run[0].d.f.postedAt else from, run[1..])
  {
    if |run| > 1 && run[|run| - 1].Restart? {
      ClockOfTail(from, run[..|run| - 1]);
      assert run[..|run| - 1][1..] == run[1..][..|run| - 2];
    }
  }

  /** The last post leaves its stamp exactly when it reported success and the process still lives;
      otherwise no older stamp of its status is fresh any more. */
  lemma LastPostStops(posts: seq<Post>, epoch: nat, now: int)
    requires posts != [] && InTime(posts, now, epoch) && Allowed(posts)
    ensures var p := posts[|posts| - 1];
      Stops(LastStamp(posts, epoch), p.status, now) <==> p.reported && p.epoch == epoch && now - p.at < THROTTLE
  {
    var n := |posts| - 1;
    var p := posts[n];
    if p.epoch == epoch && !p.reported {
      assert !Stops(LastStamp(posts[..n], p.epoch), p.status, p.asked);
    }
  }

  /** After any run, a notice that is identical to the last one posted, and whose calls work, is
      posted again if and only if that one was reported as failed, or a restart lost its stamp, or
      30 seconds are over. */
  lemma RepostsExactly(run: seq<Step>, from: int, d: Delivery)
    requires Clocked(from, run) && ClockAfter(from, run) <= d.now <= d.f.postedAt
    requires var s := After(EMPTY, run);
      && PostsOf(s, d.id) != [] && PostsOf(s, d.id)[|PostsOf(s, d.id)| - 1].status == d.status
      && d.event !in s.seen && d.f.setup.Ready? && !d.f.post.NotApplied?
    ensures var (s, t) := (After(EMPTY, run), Apply(After(EMPTY, run), Deliver(d)));
      var p := PostsOf(s, d.id)[|PostsOf(s, d.id)| - 1];
      |PostsOf(t, d.id)| > |PostsOf(s, d.id)| <==> !p.reported || p.epoch < s.restarts || d.now - p.at >= THROTTLE
  {
    RunKeepsNotices(EMPTY, run, d.id, from);
    var s := After(EMPTY, run);
    var posts := PostsOf(s, d.id);
    LaterInTime(posts, ClockAfter(from, run), d.now, s.restarts);
    LastPostStops(posts, s.restarts, d.now);
    HandledPosts(s, d, d.id);
  }

  lemma LaterInTime(posts: seq<Post>, clock: int, later: int, epoch: nat)
    requires InTime(posts, clock, epoch) && clock <= later
    ensures InTime(posts, later, epoch)
  {
  }

  /** So two consecutive identical notices are closer than 30 seconds only when the earlier one was
      reported as failed or its stamp was lost in a restart. */
  lemma IdenticalNoticesAreSpaced(run: seq<Step>, from: int, id: InstanceId, i: nat)
    requires Clocked(from, run) && i + 1 < |PostsOf(After(EMPTY, run), id)|
    ensures var posts := PostsOf(After(EMPTY, run), id);
      posts[i].status == posts[i + 1].status && posts[i + 1].asked - posts[i].at < THROTTLE
      ==> !posts[i].reported || posts[i].epoch < posts[i + 1].epoch
  {
    RunKeepsNotices(EMPTY, run, id, from);
    var posts := PostsOf(After(EMPTY, run), id);
    assert posts[..i + 1][..i] == posts[..i];
    assert !Stops(LastStamp(posts[..i + 1], posts[i + 1].epoch), posts[i + 1].status, posts[i + 1].asked);
  }

  const WORKS: Faults := Faults(Ready, Applied, 0)

  /** A lost reply: the redelivery of the same event posts the identical notice at once. */
  lemma LostReplyReposts(id: InstanceId, event: EventId, status: Status)
    ensures var d := Delivery(id, event, status, 0, WORKS.(post := AppliedButFailed));
      Clocked(0, [Deliver(d), Deliver(d.(f := WORKS))])
      && PostsOf(After(EMPTY, [Deliver(d), Deliver(d.(f := WORKS))]), id)
         == [Post(status, 0, 0, false, 0), Post(status, 0, 0, true, 0)]
  {
    var d := Delivery(id, event, status, 0, WORKS.(post := AppliedButFailed));
    var again := d.(f := WORKS);
    var run := [Deliver(d), Deliver(again)];
    assert run[1..] == [Deliver(again)] && run[1..][1..] == [];
    HandledPosts(EMPTY, d, id);
    var s := Apply(EMPTY, Deliver(d));
    assert s.seen == {};
    HandledPosts(s, again, id);
    assert After(EMPTY, run) == After(s, run[1..]);
    assert After(s, [Deliver(again)]) == Apply(s, Deliver(again));
  }

  /** A restart: the same event is posted at once again, and the import fires again. */
  lemma RestartReposts(id: InstanceId, event: EventId)
    ensures var d := Deliver(Delivery(id, event, Connected, 0, WORKS));
      var s := After(EMPTY, [d, Restart, d]);
      && Clocked(0, [d, Restart, d]) && Count(s.fires, id) == 2
      && PostsOf(s, id) == [Post(Connected, 0, 0, true, 0), Post(Connected, 0, 0, true, 1)]
  {
    var d := Delivery(id, event, Connected, 0, WORKS);
    var run := [Deliver(d), Restart, Deliver(d)];
    assert run[1..] == [Restart, Deliver(d)] && run[1..][1..] == [Deliver(d)] && run[1..][1..][1..] == [];
    HandledPosts(EMPTY, d, id);
    var s := Apply(EMPTY, Deliver(d));
    assert Count(s.fires, id) == 1;
    var u := Apply(s, Restart);
    HandledPosts(u, d, id);
    assert After(s, run[1..]) == After(u, run[1..][1..]);
    assert After(u, [Deliver(d)]) == Apply(u, Deliver(d));
    ClockedRestart(d);
  }

  lemma ClockedRestart(d: Delivery)
    requires 0 == d.now == d.f.postedAt
    ensures Clocked(0, [Deliver(d), Restart, Deliver(d)])
  {
    var run := [Deliver(d), Restart, Deliver(d)];
    assert run[1..] == [Restart, Deliver(d)] && run[1..][1..] == [Deliver(d)] && run[1..][1..][1..] == [];
    assert Clocked(0, [Deliver(d)]);
    assert Clocked(0, [Restart, Deliver(d)]);
  }

  // ---- The import -----------------------------------------------------------------------------

  predicate ImportsOk(s: State, id: InstanceId) {
    Count(s.fires, id) <= Count(s.rearms, id) + s.restarts + if id in s.imported then 1 else 0
  }

  lemma StepKeepsImports(s: State, step: Step, id: InstanceId)
    requires ImportsOk(s, id)
    ensures ImportsOk(Apply(s, step), id)
  {
    if step.Deliver? {
      var r := Rearmed(s, step.d.id, step.d.status);
      assert ImportsOk(r, id);
      assert ImportsOk(Posted(r, step.d.id, step.d.event, step.d.status, step.d.now, step.d.f).0, id);
    }
  }

  lemma {:induction false} RunKeepsImports(s: State, run: seq<Step>, id: InstanceId)
    requires ImportsOk(s, id)
    ensures ImportsOk(After(s, run), id)
    decreases |run|
  {
    if run != [] {
      StepKeepsImports(s, run[0], id);
      RunKeepsImports(Apply(s, run[0]), run[1..], id);
    }
  }

  /** The import fires at most once, and once more for every re-arming notice and every restart. */
  lemma ImportsAreBounded(run: seq<Step>, id: InstanceId)
    ensures var s := After(EMPTY, run);
      Count(s.fires, id) <= 1 + Count(s.rearms, id) + s.restarts
  {
    RunKeepsImports(EMPTY, run, id);
  }

  /** It fires exactly when a connected notice is posted with success and the flag is down. */
  lemma ImportFiresExactly(s: State, d: Delivery)
    ensures var t := Apply(s, Deliver(d));
      Count(t.fires, d.id) > Count(s.fires, d.id)
      <==> && d.status == Connected && d.event !in s.seen && d.id !in s.imported
           && d.f.setup.Ready? && d.f.post.Applied? && !Stops(StampOf(s.notices, d.id), Connected, d.now)
  {
  }

  /** Re-arming looks at the notice before the throttle and before the calls that can fail, so a
      notice that was never posted still lets the next connected notice fire again. */
  lemma SuppressedNoticeRearms(s: State, id: InstanceId, event: EventId, status: Status, now: int, f: Faults)
    requires status != Connected && event !in s.seen && !f.setup.Off? && !f.setup.NoConfig?
    ensures id !in Handled(s, id, event, status, now, f).0.imported
  {
  }
}
