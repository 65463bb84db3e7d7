/** Sender to conversation resolution (internal/chatwoot/conversations/conversations.go):
    a cache checked outside the lock, the sender lock, a double check inside it, a listing,
    and a reopen or a create.

    The state machine has one step per remote call and per critical section, for one sender of
    one resolver. The main theorem is convergence. */
module Conversations {
  import opened SenderLock
  import opened Wrappers

  type ConvId = int
  type CallerId = nat

  const CACHE_TTL: int := 1_800_000_000_000

  datatype Status = Open | Pending | Resolved | OtherStatus

  datatype Conversation = Conversation(id: ConvId, inbox: int, status: Status)

  datatype Config = Config(inbox: int, pending: bool, reopen: bool, ttl: int)

  datatype Cached = Cached(id: ConvId, expiresAt: int)

  /** What reuse decides about a listing. */
  datatype Choice = Reuse(id: ConvId) | Reopen(id: ConvId) | Nothing

  // ---- The choice among the listed conversations --------------------------------------

  predicate Candidate(c: Conversation, inbox: int, status: Status) {
    c.inbox == inbox && c.status == status
  }

  function MaxId(a: ConvId, b: ConvId): ConvId {
    if b > a then b else a
  }

  /** The newest conversation of a class, 0 when the class is empty. */
  function Newest(convs: seq<Conversation>, inbox: int, status: Status): ConvId {
    if convs == [] then 0
    else
      var top := Newest(convs[..|convs| - 1], inbox, status);
      var last := convs[|convs| - 1];
      if Candidate(last, inbox, status) then MaxId(top, last.id) else top
  }

  function ChoiceOf(cfg: Config, convs: seq<Conversation>): Choice {
    var open := Newest(convs, cfg.inbox, Open);
    var pending := Newest(convs, cfg.inbox, Pending);
    var resolved := Newest(convs, cfg.inbox, Resolved);
    if open != 0 then Reuse(open)
    else if pending != 0 && cfg.pending then Reuse(pending)
    else if resolved != 0 && cfg.reopen then Reopen(resolved)
    else Nothing
  }

  lemma {:induction false} NewestMeans(convs: seq<Conversation>, inbox: int, status: Status)
    ensures var top := Newest(convs, inbox, status);
      && top >= 0
      && (forall c :: c in convs && Candidate(c, inbox, status) ==> c.id <= top)
      && (top != 0 ==> exists c :: c in convs && Candidate(c, inbox, status) && c.id == top)
  {
    if convs != [] {
      var init, last := convs[..|convs| - 1], convs[|convs| - 1];
      assert convs == init + [last];
      NewestMeans(init, inbox, status);
    }
  }

  /** The inbox has a conversation of the status. */
  ghost predicate Any(convs: seq<Conversation>, inbox: int, status: Status) {
    exists c :: c in convs && c.inbox == inbox && c.status == status && c.id > 0
  }

  ghost predicate IsNewest(convs: seq<Conversation>, inbox: int, status: Status, id: ConvId) {
    && id > 0
    && (exists c :: c in convs && c.inbox == inbox && c.status == status && c.id == id)
    && (forall c :: c in convs && c.inbox == inbox && c.status == status ==> c.id <= id)
  }

  lemma NewestIsNewest(convs: seq<Conversation>, inbox: int, status: Status)
    ensures Newest(convs, inbox, status) != 0 <==> Any(convs, inbox, status)
    ensures Any(convs, inbox, status) ==> IsNewest(convs, inbox, status, Newest(convs, inbox, status))
  {
    NewestMeans(convs, inbox, status);
    if c :| c in convs && c.inbox == inbox && c.status == status && c.id > 0 {
      assert Candidate(c, inbox, status);
    }
    if c :| c in convs && Candidate(c, inbox, status) && c.id == Newest(convs, inbox, status) {
      assert c.inbox == inbox && c.status == status;
    }
  }

  /** The newest open conversation is reused; without one the newest pending one, if that is allowed;
      without either the newest resolved one is reopened, if that is allowed; else nothing is. */
  lemma ChoiceFollowsPreference(cfg: Config, convs: seq<Conversation>)
    ensures var (choice, pending) := (ChoiceOf(cfg, convs), cfg.pending && Any(convs, cfg.inbox, Pending));
      && (Any(convs, cfg.inbox, Open) ==> choice.Reuse? && IsNewest(convs, cfg.inbox, Open, choice.id))
      && (!Any(convs, cfg.inbox, Open) && pending ==> choice.Reuse? && IsNewest(convs, cfg.inbox, Pending, choice.id))
      && (!Any(convs, cfg.inbox, Open) && !pending && cfg.reopen && Any(convs, cfg.inbox, Resolved) ==>
            choice.Reopen? && IsNewest(convs, cfg.inbox, Resolved, choice.id))
      && (!Any(convs, cfg.inbox, Open) && !pending && !(cfg.reopen && Any(convs, cfg.inbox, Resolved)) ==> choice.Nothing?)
  {
    NewestIsNewest(convs, cfg.inbox, Open);
    NewestIsNewest(convs, cfg.inbox, Pending);
    NewestIsNewest(convs, cfg.inbox, Resolved);
  }

  ghost predicate PositiveIds(convs: seq<Conversation>) {
    forall c :: c in convs ==> c.id > 0
  }

  /** The loop of reuse over the listing. */
  method Choose(cfg: Config, convs: seq<Conversation>) returns (choice: Choice)
    ensures choice == ChoiceOf(cfg, convs)
    ensures Any(convs, cfg.inbox, Open) ==> choice.Reuse? && IsNewest(convs, cfg.inbox, Open, choice.id)
    ensures !Any(convs, cfg.inbox, Open) && cfg.pending && Any(convs, cfg.inbox, Pending) ==>
              choice.Reuse? && IsNewest(convs, cfg.inbox, Pending, choice.id)
    ensures choice.Reopen? <==>
              && !Any(convs, cfg.inbox, Open) && !(cfg.pending && Any(convs, cfg.inbox, Pending))
              && cfg.reopen && Any(convs, cfg.inbox, Resolved)
    ensures choice.Reopen? ==> IsNewest(convs, cfg.inbox, Resolved, choice.id)
    ensures choice.Reuse? <==> Any(convs, cfg.inbox, Open) || (cfg.pending && Any(convs, cfg.inbox, Pending))
  {
    ChoiceFollowsPreference(cfg, convs);
    var open, pending, resolved := 0, 0, 0;
    for i := 0 to |convs|
      invariant open == Newest(convs[..i], cfg.inbox, Open)
      invariant pending == Newest(convs[..i], cfg.inbox, Pending)
      invariant resolved == Newest(convs[..i], cfg.inbox, Resolved)
    {
      var c := convs[i];
      assert convs[..i + 1][..i] == convs[..i];
      if c.inbox == cfg.inbox {
        match c.status
        case Open => open := MaxId(open, c.id);
        case Pending => pending := MaxId(pending, c.id);
        case Resolved => resolved := MaxId(resolved, c.id);
        case OtherStatus =>
      }
    }
    assert convs[..|convs|] == convs;
    if open != 0 {
      choice := Reuse(open);
    } else if pending != 0 && cfg.pending {
      choice := Reuse(pending);
    } else if resolved != 0 && cfg.reopen {
      choice := Reopen(resolved);
    } else {
      choice := Nothing;
    }
  }

  // ---- The cache of the resolver ------------------------------------------------------

  type Cache = map<Key, Cached>

  function Fresh(cache: Cache, key: Key, now: int): Choice {
    if key in cache && now < cache[key].expiresAt then Reuse(cache[key].id) else Nothing
  }

  class Resolver {
    var cache: Cache

    constructor ()
      ensures cache == map[]
    {
      cache := map[];
    }

    method CachedId(key: Key, now: int) returns (id: ConvId, ok: bool)
      ensures Fresh(cache, key, now) == if ok then Reuse(id) else Nothing
      ensures ok <==> key in cache && now < cache[key].expiresAt
      ensures ok ==> id == cache[key].id
    {
      if key !in cache || now >= cache[key].expiresAt {
        return 0, false;
      }
      return cache[key].id, true;
    }

    method Store(key: Key, id: ConvId, now: int)
      modifies this
      ensures cache == old(cache)[key := Cached(id, now + CACHE_TTL)]
      ensures Fresh(cache, key, now) == Reuse(id)
      ensures key in cache && cache[key].id == id && cache[key].expiresAt == now + 1_800_000_000_000
    {
      cache := cache[key := Cached(id, now + CACHE_TTL)];
    }

    method Drop(key: Key)
      modifies this
      ensures cache == old(cache) - {key}
    {
      cache := cache - {key};
    }

    /** Forgets the entries of one instance and no other. */
    method Clear(prefix: Key)
      modifies this
      ensures cache == map key | key in old(cache) && !(prefix <= key) :: old(cache)[key]
    {
      var keys := cache.Keys;
      var start := cache;
      while keys != {}
        invariant keys <= start.Keys
        invariant forall key :: key in cache <==> key in start && (key in keys || !(prefix <= key))
        invariant forall key :: key in cache ==> cache[key] == start[key]
        decreases |keys|
      {
        var key :| key in keys;
        if |key| >= |prefix| && key[..|prefix|] == prefix {
          cache := cache - {key};
        }
        keys := keys - {key};
      }
    }
  }

  // ---- Concurrent Resolve calls -------------------------------------------------------

  /** Where a caller stands. A token marks the phases inside the lock. */
  datatype Phase =
    | Start
    | Validating(id: ConvId)
    | Refreshing(id: ConvId)
    | Dropping
    | Waiting
    | Locked(token: int)
    | Listing(token: int)
    | Toggling(token: int, id: ConvId)
    | Creating(token: int)
    | Storing(token: int, id: ConvId)
    | Leaving(token: int, result: Choice)
    | Done(id: ConvId)
    | Failed

  predicate InLock(p: Phase) {
    p.Locked? || p.Listing? || p.Toggling? || p.Creating? || p.Storing? || p.Leaving?
  }

  /** `creates` counts the conversations the resolver opened. */
  datatype State = State(
    remote: seq<Conversation>, cache: Cache, held: Held, now: int,
    callers: map<CallerId, Phase>, creates: nat)

  datatype Step =
    | Begin(c: CallerId)
    | ReadCache(c: CallerId)
    | Validate(c: CallerId, ok: bool)
    | Refresh(c: CallerId)
    | DropEntry(c: CallerId)
    | Lock(c: CallerId)
    | GiveUp(c: CallerId)
    | DoubleCheck(c: CallerId)
    | List(c: CallerId, ok: bool, listing: seq<Conversation>)
    | Toggle(c: CallerId, write: Write)
    | Create(c: CallerId, id: ConvId, write: Write)
    | StoreEntry(c: CallerId)
    | Leave(c: CallerId)
    | Tick(at: int)
    | ClearCache

  ghost predicate SameConversations(a: seq<Conversation>, b: seq<Conversation>) {
    forall c :: c in a <==> c in b
  }

  function CreateStatus(cfg: Config): Status { if cfg.pending then Pending else Open }

  ghost predicate Enabled(cfg: Config, key: Key, s: State, step: Step) {
    match step
    case Begin(c) => c !in s.callers
    case ReadCache(c) => c in s.callers && s.callers[c].Start?
    case Validate(c, ok) => c in s.callers && s.callers[c].Validating?
    case Refresh(c) => c in s.callers && s.callers[c].Refreshing?
    case DropEntry(c) => c in s.callers && s.callers[c].Dropping?
    case Lock(c) => c in s.callers && s.callers[c].Waiting? && !Taken(s.held, key, s.now)
    case GiveUp(c) => c in s.callers && s.callers[c].Waiting?
    case DoubleCheck(c) => c in s.callers && s.callers[c].Locked?
    case List(c, ok, listing) =>
      && c in s.callers && s.callers[c].Listing?
      && (ok ==> SameConversations(listing, s.remote))
    case Toggle(c, _) => c in s.callers && s.callers[c].Toggling?
    case Create(c, id, _) =>
      && c in s.callers && s.callers[c].Creating?
      && id > 0 && forall v :: v in s.remote ==> v.id != id
    case StoreEntry(c) => c in s.callers && s.callers[c].Storing?
    case Leave(c) => c in s.callers && s.callers[c].Leaving?
    case Tick(at) => s.now <= at
    case ClearCache => true
  }

  /** GetConversation finds the id in the inbox with a status checkCache accepts. */
  ghost predicate Reusable(cfg: Config, remote: seq<Conversation>, id: ConvId) {
    exists v :: v in remote && v.id == id && v.inbox == cfg.inbox && (v.status == Open || (v.status == Pending && cfg.pending))
  }

  function Reopened(remote: seq<Conversation>, id: ConvId): seq<Conversation> {
    seq(|remote|, i requires 0 <= i < |remote| => if remote[i].id == id then remote[i].(status := Open) else remote[i])
  }

  function Move(s: State, c: CallerId, p: Phase): State {
    s.(callers := s.callers[c := p])
  }

  ghost function Apply(cfg: Config, key: Key, s: State, step: Step): State
    requires Enabled(cfg, key, s, step)
  {
    match step
    case Begin(c) => Move(s, c, Start)
    case ReadCache(c) =>
      var hit := Fresh(s.cache, key, s.now);
      Move(s, c, if hit.Reuse? then Validating(hit.id) else Waiting)
    case Validate(c, ok) =>
      var id := s.callers[c].id;
      Move(s, c, if ok && Reusable(cfg, s.remote, id) then Refreshing(id) else Dropping)
    case Refresh(c) =>
      var id := s.callers[c].id;
      Move(s.(cache := s.cache[key := Cached(id, s.now + CACHE_TTL)]), c, Done(id))
    case DropEntry(c) => Move(s.(cache := s.cache - {key}), c, Waiting)
    case Lock(c) => Move(s.(held := s.held[key := s.now + cfg.ttl]), c, Locked(s.now + cfg.ttl))
    case GiveUp(c) => Move(s, c, Failed)
    case DoubleCheck(c) =>
      var hit := Fresh(s.cache, key, s.now);
      Move(s, c, if hit.Reuse? then Leaving(s.callers[c].token, hit) else Listing(s.callers[c].token))
    case List(c, ok, listing) =>
      var token := s.callers[c].token;
      Move(s, c, if !ok then Leaving(token, Nothing)
                 else match ChoiceOf(cfg, listing)
                      case Reuse(id) => Storing(token, id)
                      case Reopen(id) => Toggling(token, id)
                      case Nothing => Creating(token))
    case Toggle(c, write) =>
      var (token, id) := (s.callers[c].token, s.callers[c].id);
      Move(s.(remote := if write.NotApplied? then s.remote else Reopened(s.remote, id)), c,
           if write.Applied? then Storing(token, id) else Leaving(token, Nothing))
    case Create(c, id, write) =>
      var token := s.callers[c].token;
      Move(s.(remote := if write.NotApplied? then s.remote
                        else s.remote + [Conversation(id, cfg.inbox, CreateStatus(cfg))],
              creates := if write.NotApplied? then s.creates else s.creates + 1), c,
           if write.Applied? then Storing(token, id) else Leaving(token, Nothing))
    case StoreEntry(c) =>
      var (token, id) := (s.callers[c].token, s.callers[c].id);
      Move(s.(cache := s.cache[key := Cached(id, s.now + CACHE_TTL)]), c, Leaving(token, Reuse(id)))
    case Leave(c) =>
      var (token, result) := (s.callers[c].token, s.callers[c].result);
      Move(s.(held := SenderLock.Clear(s.held, key, token)), c,
           if result.Reuse? then Done(result.id) else Failed)
    case Tick(at) => s.(now := at)
    case ClearCache => s.(cache := s.cache - {key})
  }

  /** The hypothesis on timing: nobody works inside the lock past the TTL of its grant. */
  ghost predicate Timely(s: State) {
    forall c :: c in s.callers && InLock(s.callers[c]) ==> s.now < s.callers[c].token
  }

  /** The conversation every caller has to end up with, once there is one. */
  ghost predicate Target(cfg: Config, remote: seq<Conversation>, id: ConvId) {
    ChoiceOf(cfg, remote) == Reuse(id)
  }

  ghost predicate WellFormed(remote: seq<Conversation>) {
    && PositiveIds(remote)
    && forall i, j :: 0 <= i < j < |remote| ==> remote[i].id != remote[j].id
  }

  ghost predicate PhaseOk(cfg: Config, key: Key, s: State, p: Phase) {
    && (InLock(p) ==> key in s.held && s.held[key] == p.token)
    && (match p
        case Validating(id) => Target(cfg, s.remote, id)
        case Refreshing(id) => Target(cfg, s.remote, id)
        case Storing(_, id) => Target(cfg, s.remote, id)
        case Leaving(_, result) => result.Reuse? ==> Target(cfg, s.remote, result.id)
        case Done(id) => Target(cfg, s.remote, id)
        case Toggling(_, id) => ChoiceOf(cfg, s.remote) == Reopen(id)
        case Creating(_) => ChoiceOf(cfg, s.remote) == Nothing
        case _ => true)
  }

  ghost predicate Inv(cfg: Config, key: Key, s: State) {
    && WellFormed(s.remote)
    && (key in s.cache ==> Target(cfg, s.remote, s.cache[key].id))
    && (forall c :: c in s.callers ==> PhaseOk(cfg, key, s, s.callers[c]))
    && (forall c, d :: c in s.callers && d in s.callers && InLock(s.callers[c]) && InLock(s.callers[d]) ==> c == d)
    && (s.creates == 0 || (s.creates == 1 && ChoiceOf(cfg, s.remote).Reuse?))
  }

  // ---- What the choice means, and that it ignores the order of the listing -------------

  lemma ChoiceIgnoresOrder(cfg: Config, a: seq<Conversation>, b: seq<Conversation>)
    requires PositiveIds(a) && SameConversations(a, b)
    ensures ChoiceOf(cfg, a) == ChoiceOf(cfg, b)
  {
    assert PositiveIds(b);
    forall status: Status
      ensures Newest(a, cfg.inbox, status) == Newest(b, cfg.inbox, status)
    {
      NewestMeans(a, cfg.inbox, status);
      NewestMeans(b, cfg.inbox, status);
    }
  }

  /** Reopening the chosen conversation makes it the target of everyone. */
  lemma ReopenSetsTarget(cfg: Config, remote: seq<Conversation>, id: ConvId)
    requires WellFormed(remote) && ChoiceOf(cfg, remote) == Reopen(id)
    ensures WellFormed(Reopened(remote, id)) && Target(cfg, Reopened(remote, id), id)
  {
    var after := Reopened(remote, id);
    NewestMeans(remote, cfg.inbox, Open);
    NewestMeans(remote, cfg.inbox, Resolved);
    assert WellFormed(after);
    NewestMeans(after, cfg.inbox, Open);
    var c :| c in remote && Candidate(c, cfg.inbox, Resolved) && c.id == id;
    var i :| 0 <= i < |remote| && remote[i] == c;
    assert after[i] == c.(status := Open) && after[i] in after;
    forall v | v in after && Candidate(v, cfg.inbox, Open)
      ensures v.id == id
    {
      var j :| 0 <= j < |after| && after[j] == v;
      assert remote[j] in remote;
    }
  }

  lemma CreateSetsTarget(cfg: Config, remote: seq<Conversation>, id: ConvId)
    requires WellFormed(remote) && ChoiceOf(cfg, remote) == Nothing
    requires id > 0 && forall v :: v in remote ==> v.id != id
    ensures var after := remote + [Conversation(id, cfg.inbox, CreateStatus(cfg))];
            WellFormed(after) && Target(cfg, after, id)
  {
  }

  // ---- The runs -----------------------------------------------------------------------

  /** One caller moves to a phase that is in order while the remote stays. */
  lemma MoveKeepsInv(cfg: Config, key: Key, s: State, c: CallerId, p: Phase)
    requires Inv(cfg, key, s) && PhaseOk(cfg, key, s, p)
    requires InLock(p) ==> c in s.callers && InLock(s.callers[c])
    ensures Inv(cfg, key, Move(s, c, p))
  {
  }

  /** The entry of the key is written with the target, removed, or left alone. */
  lemma CacheKeepsInv(cfg: Config, key: Key, s: State, cache: Cache)
    requires Inv(cfg, key, s) && (key in cache ==> Target(cfg, s.remote, cache[key].id))
    ensures Inv(cfg, key, s.(cache := cache))
  {
  }

  /** Nobody is inside when the key is free, so a grant starts alone. */
  lemma LockKeepsInv(cfg: Config, key: Key, s: State, c: CallerId)
    requires cfg.ttl > 0 && Inv(cfg, key, s) && Timely(s) && Enabled(cfg, key, s, Lock(c))
    ensures Inv(cfg, key, Apply(cfg, key, s, Lock(c)))
  {
  }

  lemma LeaveKeepsInv(cfg: Config, key: Key, s: State, c: CallerId)
    requires Inv(cfg, key, s) && Enabled(cfg, key, s, Leave(c))
    ensures Inv(cfg, key, Apply(cfg, key, s, Leave(c)))
  {
    var t := Apply(cfg, key, s, Leave(c));
    assert PhaseOk(cfg, key, s, s.callers[c]);
    forall d | d in t.callers
      ensures PhaseOk(cfg, key, t, t.callers[d])
      ensures !InLock(t.callers[d])
    {
      if d != c {
        assert PhaseOk(cfg, key, s, s.callers[d]);
      }
    }
  }

  /** The steps that write the cache entry of the key. */
  lemma WriteStepKeepsInv(cfg: Config, key: Key, s: State, step: Step)
    requires Inv(cfg, key, s) && Enabled(cfg, key, s, step)
    requires step.Refresh? || step.StoreEntry? || step.DropEntry?
    ensures Inv(cfg, key, Apply(cfg, key, s, step))
  {
    var t := Apply(cfg, key, s, step);
    assert PhaseOk(cfg, key, s, s.callers[step.c]);
    CacheKeepsInv(cfg, key, s, t.cache);
    MoveKeepsInv(cfg, key, s.(cache := t.cache), step.c, t.callers[step.c]);
  }

  /** The steps of one caller that write nothing shared. */
  lemma QuietStepKeepsInv(cfg: Config, key: Key, s: State, step: Step)
    requires Inv(cfg, key, s) && Enabled(cfg, key, s, step)
    requires step.Begin? || step.ReadCache? || step.Validate? || step.GiveUp? || step.DoubleCheck? || step.List?
    ensures Inv(cfg, key, Apply(cfg, key, s, step))
  {
    var t := Apply(cfg, key, s, step);
    if !step.Begin? {
      assert PhaseOk(cfg, key, s, s.callers[step.c]);
    }
    if step.List? {
      if step.ok {
        assert PositiveIds(step.listing);
        ChoiceIgnoresOrder(cfg, step.listing, s.remote);
      }
    }
    MoveKeepsInv(cfg, key, s, step.c, t.callers[step.c]);
  }

  lemma TickKeepsInv(cfg: Config, key: Key, s: State, at: int)
    requires Inv(cfg, key, s)
    ensures Inv(cfg, key, s.(now := at))
  {
  }

  lemma ToggleKeepsInv(cfg: Config, key: Key, s: State, step: Step)
    requires Inv(cfg, key, s) && Enabled(cfg, key, s, step) && step.Toggle?
    ensures Inv(cfg, key, Apply(cfg, key, s, step))
  {
    ReopenSetsTarget(cfg, s.remote, s.callers[step.c].id);
  }

  lemma CreateKeepsInv(cfg: Config, key: Key, s: State, step: Step)
    requires Inv(cfg, key, s) && Enabled(cfg, key, s, step) && step.Create?
    ensures Inv(cfg, key, Apply(cfg, key, s, step))
  {
    CreateSetsTarget(cfg, s.remote, step.id);
  }

  ghost predicate Run(cfg: Config, key: Key, s: State, steps: seq<Step>, t: State)
    decreases |steps|
  {
    if steps == [] then s == t
    else
      && Timely(s) && Enabled(cfg, key, s, steps[0])
      && Run(cfg, key, Apply(cfg, key, s, steps[0]), steps[1..], t)
  }

  ghost predicate Initial(s: State) {
    WellFormed(s.remote) && s.cache == map[] && s.held == map[] && s.callers == map[] && s.creates == 0
  }

  lemma StepKeepsInv(cfg: Config, key: Key, s: State, step: Step)
    requires cfg.ttl > 0 && Inv(cfg, key, s) && Timely(s) && Enabled(cfg, key, s, step)
    ensures Inv(cfg, key, Apply(cfg, key, s, step))
  {
    if step.Toggle? {
      ToggleKeepsInv(cfg, key, s, step);
    } else if step.Create? {
      CreateKeepsInv(cfg, key, s, step);
    } else if step.Lock? {
      LockKeepsInv(cfg, key, s, step.c);
    } else if step.Leave? {
      LeaveKeepsInv(cfg, key, s, step.c);
    } else if step.Tick? {
      TickKeepsInv(cfg, key, s, step.at);
    } else if step.ClearCache? {
      CacheKeepsInv(cfg, key, s, s.cache - {key});
    } else if step.Refresh? || step.StoreEntry? || step.DropEntry? {
      WriteStepKeepsInv(cfg, key, s, step);
    } else {
      QuietStepKeepsInv(cfg, key, s, step);
    }
  }

  lemma CreatesAtNothing(cfg: Config, key: Key, s: State, step: Step)
    requires Inv(cfg, key, s) && Enabled(cfg, key, s, step)
    ensures step.Create? ==> ChoiceOf(cfg, s.remote) == Nothing
  {
    if step.Create? {
      assert PhaseOk(cfg, key, s, s.callers[step.c]);
    }
  }

  /** What can be reused is left alone, and what can be reopened is never created beside. */
  lemma StepCreatesOnlyAtNothing(cfg: Config, key: Key, s: State, step: Step)
    requires Inv(cfg, key, s) && Enabled(cfg, key, s, step) && ChoiceOf(cfg, s.remote) != Nothing
    ensures var t := Apply(cfg, key, s, step);
      && ChoiceOf(cfg, t.remote) != Nothing && t.creates == s.creates
      && (ChoiceOf(cfg, s.remote).Reuse? ==> t.remote == s.remote)
  {
    CreatesAtNothing(cfg, key, s, step);
    if step.Toggle? {
      assert PhaseOk(cfg, key, s, s.callers[step.c]);
      ReopenSetsTarget(cfg, s.remote, s.callers[step.c].id);
    }
  }

  lemma {:induction false} RunKeepsInv(cfg: Config, key: Key, s: State, steps: seq<Step>, t: State)
    requires cfg.ttl > 0 && Inv(cfg, key, s) && Run(cfg, key, s, steps, t)
    ensures Inv(cfg, key, t)
    ensures ChoiceOf(cfg, s.remote) != Nothing ==> ChoiceOf(cfg, t.remote) != Nothing && t.creates == s.creates
    ensures ChoiceOf(cfg, s.remote).Reuse? ==> t.remote == s.remote
    decreases |steps|
  {
    if steps != [] {
      StepKeepsInv(cfg, key, s, steps[0]);
      if ChoiceOf(cfg, s.remote) != Nothing {
        StepCreatesOnlyAtNothing(cfg, key, s, steps[0]);
      }
      RunKeepsInv(cfg, key, Apply(cfg, key, s, steps[0]), steps[1..], t);
    }
  }

  /** The conversation everybody has to end up with, in terms of the listing. */
  ghost predicate Preferred(cfg: Config, remote: seq<Conversation>, id: ConvId) {
    || IsNewest(remote, cfg.inbox, Open, id)
    || (cfg.pending && !Any(remote, cfg.inbox, Open) && IsNewest(remote, cfg.inbox, Pending, id))
  }

  /** The call of a caller in this phase will fail. */
  predicate Doomed(p: Phase) { p.Failed? || (p.Leaving? && !p.result.Reuse?) }

  /** A call fails exactly when its wait ends without the lock, its listing failed, or its reopening or
      its create was not reported; nothing else it meets makes it fail. */
  lemma CallFailsExactly(cfg: Config, key: Key, s: State, step: Step, c: CallerId)
    requires Enabled(cfg, key, s, step) && c in s.callers && !Doomed(s.callers[c])
    ensures var t := Apply(cfg, key, s, step);
      c in t.callers && (Doomed(t.callers[c]) <==>
        match step
        case GiveUp(d) => d == c
        case List(d, ok, _) => d == c && !ok
        case Toggle(d, write) => d == c && !write.Applied?
        case Create(d, _, write) => d == c && !write.Applied?
        case _ => false)
  {
  }

  /** What a caller stores it returns, and what it returns it leaves in the cache for half an hour. */
  lemma StoredIsReturned(cfg: Config, key: Key, s: State, c: CallerId)
    requires Enabled(cfg, key, s, StoreEntry(c))
    ensures var t := Apply(cfg, key, s, StoreEntry(c));
      && Enabled(cfg, key, t, Leave(c)) && Apply(cfg, key, t, Leave(c)).callers[c] == Done(s.callers[c].id)
      && key in t.cache && t.cache[key] == Cached(s.callers[c].id, s.now + 1_800_000_000_000)
  {
  }

  /** What a step can do to the listing: open one conversation of the inbox, pending where that is
      configured, when nothing could be reused or reopened; or reopen the newest resolved one, when
      that is configured and nothing could be reused. */
  lemma ListingChangesOnlySo(cfg: Config, key: Key, s: State, step: Step)
    requires Inv(cfg, key, s) && Enabled(cfg, key, s, step)
    ensures var t := Apply(cfg, key, s, step);
      var usable := Any(s.remote, cfg.inbox, Open) || (cfg.pending && Any(s.remote, cfg.inbox, Pending));
      t.remote != s.remote ==>
        && !usable
        && if cfg.reopen && Any(s.remote, cfg.inbox, Resolved) then
             && step.Toggle? && t.creates == s.creates && |t.remote| == |s.remote|
             && IsNewest(s.remote, cfg.inbox, Resolved, s.callers[step.c].id)
             && forall i :: 0 <= i < |s.remote| ==>
                  t.remote[i] == if s.remote[i].id == s.callers[step.c].id then s.remote[i].(status := Open) else s.remote[i]
           else
             && step.Create? && t.creates == s.creates + 1
             && t.remote == s.remote + [Conversation(step.id, cfg.inbox, if cfg.pending then Pending else Open)]
  {
    ChoiceFollowsPreference(cfg, s.remote);
    if step.Toggle? || step.Create? {
      assert PhaseOk(cfg, key, s, s.callers[step.c]);
    }
  }

  /** Convergence: whatever the interleaving, the failures and the clears of the cache, all
      callers that succeed get the same conversation, the newest open one or, without any and where
      that is allowed, the newest pending one; and the resolver opens at most one, and none when
      there was one to reuse or to reopen. */
  lemma ResolveConverges(cfg: Config, key: Key, s: State, steps: seq<Step>, t: State)
    requires cfg.ttl > 0 && Initial(s) && Run(cfg, key, s, steps, t)
    ensures forall c :: c in t.callers && t.callers[c].Done? ==> Preferred(cfg, t.remote, t.callers[c].id)
    ensures forall c, d :: c in t.callers && d in t.callers && t.callers[c].Done? && t.callers[d].Done?
                           ==> t.callers[c].id == t.callers[d].id
    ensures t.creates <= 1
    ensures Any(s.remote, cfg.inbox, Open) || (cfg.pending && Any(s.remote, cfg.inbox, Pending)) ==>
              t.remote == s.remote && t.creates == 0
    ensures cfg.reopen && Any(s.remote, cfg.inbox, Resolved) ==> t.creates == 0
  {
    RunKeepsInv(cfg, key, s, steps, t);
    ChoiceFollowsPreference(cfg, s.remote);
    ChoiceFollowsPreference(cfg, t.remote);
  }

  // ---- Without the hypothesis on timing ---------------------------------------------------

  ghost predicate AnyRun(cfg: Config, key: Key, s: State, steps: seq<Step>, t: State)
    decreases |steps|
  {
    if steps == [] then s == t
    else Enabled(cfg, key, s, steps[0]) && AnyRun(cfg, key, Apply(cfg, key, s, steps[0]), steps[1..], t)
  }

  lemma {:induction false} RunsCompose(cfg: Config, key: Key, s: State, first: seq<Step>, m: State, step: Step)
    requires AnyRun(cfg, key, s, first, m) && Enabled(cfg, key, m, step)
    ensures AnyRun(cfg, key, s, first + [step], Apply(cfg, key, m, step))
    decreases |first|
  {
    if first != [] {
      RunsCompose(cfg, key, Apply(cfg, key, s, first[0]), first[1..], m, step);
      assert (first + [step])[1..] == first[1..] + [step];
    }
  }

  const EAGER: Config := Config(1, false, false, 10)

  const NOBODY: State := State.State([], map[], map[], 0, map[], 0)

  /** A caller comes up to its create while no conversation shows. */
  lemma ReachesCreate(key: Key, before: seq<Step>, s: State, c: CallerId) returns (steps: seq<Step>, t: State)
    requires AnyRun(EAGER, key, NOBODY, before, s)
    requires c !in s.callers && s.cache == map[] && s.remote == [] && !Taken(s.held, key, s.now)
    ensures AnyRun(EAGER, key, NOBODY, steps, t)
    ensures t == s.(held := s.held[key := s.now + 10], callers := s.callers[c := Creating(s.now + 10)])
  {
    steps, t := before, s;
    RunsCompose(EAGER, key, NOBODY, steps, t, Begin(c));
    steps, t := steps + [Begin(c)], Apply(EAGER, key, t, Begin(c));
    RunsCompose(EAGER, key, NOBODY, steps, t, ReadCache(c));
    steps, t := steps + [ReadCache(c)], Apply(EAGER, key, t, ReadCache(c));
    RunsCompose(EAGER, key, NOBODY, steps, t, Lock(c));
    steps, t := steps + [Lock(c)], Apply(EAGER, key, t, Lock(c));
    RunsCompose(EAGER, key, NOBODY, steps, t, DoubleCheck(c));
    steps, t := steps + [DoubleCheck(c)], Apply(EAGER, key, t, DoubleCheck(c));
    RunsCompose(EAGER, key, NOBODY, steps, t, List(c, true, []));
    steps, t := steps + [List(c, true, [])], Apply(EAGER, key, t, List(c, true, []));
  }

  /** The hypothesis is needed: a caller that outstays its grant and the one that superseded it
      open a conversation each, with no failing call. */
  lemma OverrunOpensTwo(key: Key) returns (steps: seq<Step>, t: State)
    ensures AnyRun(EAGER, key, NOBODY, steps, t) && t.creates == 2
  {
    steps, t := ReachesCreate(key, [], NOBODY, 1);
    RunsCompose(EAGER, key, NOBODY, steps, t, Step.Tick(10));
    steps, t := steps + [Step.Tick(10)], Apply(EAGER, key, t, Step.Tick(10));
    steps, t := ReachesCreate(key, steps, t, 2);
    RunsCompose(EAGER, key, NOBODY, steps, t, Create(1, 7, Applied));
    steps, t := steps + [Create(1, 7, Applied)], Apply(EAGER, key, t, Create(1, 7, Applied));
    RunsCompose(EAGER, key, NOBODY, steps, t, Create(2, 8, Applied));
    steps, t := steps + [Create(2, 8, Applied)], Apply(EAGER, key, t, Create(2, 8, Applied));
  }
}
