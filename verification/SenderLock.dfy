/** The per-sender lock of the conversation resolver
    (internal/chatwoot/conversations/locker.go).

    An entry is a token: the instant at which the grant expires. An unreleased grant that
    expired can be superseded, and releasing clears an entry only when it still carries the
    token of the grant. The lemmas follow every interleaving of attempts and releases under a
    clock that never goes back. */
module SenderLock {
  type Key = string
  type GrantId = nat
  type Held = map<Key, int>

  const DEFAULT_TTL: int := 30_000_000_000

  predicate Taken(held: Held, key: Key, now: int) {
    key in held && now < held[key]
  }

  function Clear(held: Held, key: Key, token: int): Held {
    if key in held && held[key] == token then held - {key} else held
  }

  /** The handle tryAcquire returns: its release runs once. */
  class Grant {
    const key: Key
    const token: int
    var released: bool

    constructor (key: Key, token: int)
      ensures this.key == key && this.token == token && !released
    {
      this.key := key;
      this.token := token;
      released := false;
    }
  }

  class Locker {
    const ttl: int
    var held: Held

    constructor (ttl: int)
      ensures this.ttl == (if ttl <= 0 then DEFAULT_TTL else ttl) && this.ttl > 0 && held == map[]
    {
      this.ttl := if ttl <= 0 then DEFAULT_TTL else ttl;
      held := map[];
    }

    method TryAcquire(key: Key, now: int) returns (grant: Grant?)
      modifies this`held
      ensures grant == null <==> key in old(held) && now < old(held)[key]
      ensures grant == null ==> held == old(held)
      ensures grant != null ==>
                && fresh(grant) && grant.key == key && grant.token == now + ttl && !grant.released
                && held == old(held)[key := now + ttl]
    {
      if key in held && now < held[key] {
        return null;
      }
      var token := now + ttl;
      held := held[key := token];
      grant := new Grant(key, token);
    }

    method Release(grant: Grant)
      modifies this`held, grant`released
      ensures grant.released
      ensures held == if old(grant.released) then old(held) else Clear(old(held), grant.key, grant.token)
    {
      if !grant.released {
        grant.released := true;
        if grant.key in held && held[grant.key] == grant.token {
          held := held - {grant.key};
        }
      }
    }
  }

  // ---- Interleavings ------------------------------------------------------------------

  datatype GrantState = GrantState(key: Key, token: int, released: bool)

  datatype State = State(held: Held, grants: map<GrantId, GrantState>, now: int)

  datatype Step =
    | Try(g: GrantId, key: Key, at: int)
    | Release(g: GrantId)
    | Tick(at: int)

  ghost predicate Enabled(s: State, step: Step) {
    match step
    case Try(g, _, at) => g !in s.grants && s.now <= at
    case Release(g) => g in s.grants
    case Tick(at) => s.now <= at
  }

  function Apply(ttl: int, s: State, step: Step): State
    requires step.Release? ==> step.g in s.grants
  {
    match step
    case Try(g, key, at) =>
      if Taken(s.held, key, at) then s.(now := at)
      else State(s.held[key := at + ttl], s.grants[g := GrantState(key, at + ttl, false)], at)
    case Release(g) =>
      if s.grants[g].released then s
      else s.(held := Clear(s.held, s.grants[g].key, s.grants[g].token),
              grants := s.grants[g := s.grants[g].(released := true)])
    case Tick(at) => s.(now := at)
  }

  /** The grant that owns the entry of its key now. */
  ghost predicate Current(s: State, g: GrantId) {
    && g in s.grants && !s.grants[g].released
    && s.grants[g].key in s.held && s.held[s.grants[g].key] == s.grants[g].token
  }

  /** An unreleased grant owns the entry of its key or is past its expiry. */
  ghost predicate Settled(s: State) {
    forall g :: g in s.grants && !s.grants[g].released ==> Current(s, g) || s.grants[g].token <= s.now
  }

  ghost predicate DistinctTokens(s: State) {
    forall g, h :: (g in s.grants && h in s.grants && g != h && s.grants[g].key == s.grants[h].key
                    && !s.grants[g].released && !s.grants[h].released) ==> s.grants[g].token != s.grants[h].token
  }

  ghost predicate OwnedBy(s: State, key: Key, g: GrantId) {
    Current(s, g) && s.grants[g].key == key
  }

  ghost predicate Inv(s: State) {
    && Settled(s)
    && DistinctTokens(s)
    && (forall key :: key in s.held ==> exists g :: OwnedBy(s, key, g))
  }

  /** Whatever is left of the key when it can be taken is past its expiry. */
  lemma OldGrantsExpired(s: State, key: Key, at: int, h: GrantId)
    requires Inv(s) && s.now <= at && !Taken(s.held, key, at)
    requires h in s.grants && !s.grants[h].released && s.grants[h].key == key
    ensures s.grants[h].token <= at
  {
    assert Current(s, h) || s.grants[h].token <= s.now;
  }

  lemma TryKeepsOwners(ttl: int, s: State, g: GrantId, key: Key, at: int, k: Key)
    requires Inv(s) && Enabled(s, Try(g, key, at)) && !Taken(s.held, key, at)
    requires k in s.held || k == key
    ensures var t := Apply(ttl, s, Try(g, key, at)); exists h :: OwnedBy(t, k, h)
  {
    var t := Apply(ttl, s, Try(g, key, at));
    if k == key {
      assert OwnedBy(t, k, g);
    } else {
      var h :| OwnedBy(s, k, h);
      assert OwnedBy(t, k, h);
    }
  }

  lemma TryKeepsTokens(ttl: int, s: State, g: GrantId, key: Key, at: int)
    requires ttl > 0 && Inv(s) && Enabled(s, Try(g, key, at)) && !Taken(s.held, key, at)
    ensures DistinctTokens(Apply(ttl, s, Try(g, key, at)))
  {
    forall h | h in s.grants && !s.grants[h].released && s.grants[h].key == key
      ensures s.grants[h].token < at + ttl
    {
      OldGrantsExpired(s, key, at, h);
    }
  }

  lemma TryKeepsSettled(ttl: int, s: State, g: GrantId, key: Key, at: int)
    requires ttl > 0 && Inv(s) && Enabled(s, Try(g, key, at)) && !Taken(s.held, key, at)
    ensures Settled(Apply(ttl, s, Try(g, key, at)))
  {
    var t := Apply(ttl, s, Try(g, key, at));
    forall h | h in t.grants && !t.grants[h].released
      ensures Current(t, h) || t.grants[h].token <= t.now
    {
      if h != g && s.grants[h].key == key {
        OldGrantsExpired(s, key, at, h);
      } else if h != g {
        assert Current(s, h) || s.grants[h].token <= s.now;
      }
    }
  }

  lemma TryKeepsInv(ttl: int, s: State, g: GrantId, key: Key, at: int)
    requires ttl > 0 && Inv(s) && Enabled(s, Try(g, key, at)) && !Taken(s.held, key, at)
    ensures Inv(Apply(ttl, s, Try(g, key, at)))
  {
    TryKeepsSettled(ttl, s, g, key, at);
    TryKeepsTokens(ttl, s, g, key, at);
    forall k | k in Apply(ttl, s, Try(g, key, at)).held {
      TryKeepsOwners(ttl, s, g, key, at, k);
    }
  }

  lemma ReleaseKeepsInv(ttl: int, s: State, g: GrantId)
    requires ttl > 0 && Inv(s) && g in s.grants
    ensures Inv(Apply(ttl, s, Release(g)))
  {
    var t := Apply(ttl, s, Release(g));
    forall h | h in t.grants && !t.grants[h].released
      ensures Current(t, h) || t.grants[h].token <= t.now
    {
      assert h in s.grants && s.grants[h] == t.grants[h];
    }
    forall k | k in t.held
      ensures exists h :: OwnedBy(t, k, h)
    {
      var h :| OwnedBy(s, k, h);
      assert OwnedBy(t, k, h);
    }
  }

  lemma StepKeepsInv(ttl: int, s: State, step: Step)
    requires ttl > 0 && Inv(s) && Enabled(s, step)
    ensures Inv(Apply(ttl, s, step))
  {
    match step
    case Try(g, key, at) =>
      if !Taken(s.held, key, at) {
        TryKeepsInv(ttl, s, g, key, at);
      } else {
        ClockKeepsInv(s, at);
      }
    case Release(g) => ReleaseKeepsInv(ttl, s, g);
    case Tick(at) => ClockKeepsInv(s, at);
  }

  lemma ClockKeepsInv(s: State, at: int)
    requires Inv(s) && s.now <= at
    ensures Inv(s.(now := at))
  {
    var t := s.(now := at);
    forall k | k in t.held
      ensures exists h :: OwnedBy(t, k, h)
    {
      var h :| OwnedBy(s, k, h);
      assert OwnedBy(t, k, h);
    }
  }

  ghost predicate Run(ttl: int, s: State, steps: seq<Step>, t: State)
    decreases |steps|
  {
    if steps == [] then s == t
    else Enabled(s, steps[0]) && Run(ttl, Apply(ttl, s, steps[0]), steps[1..], t)
  }

  lemma {:induction false} RunKeepsInv(ttl: int, s: State, steps: seq<Step>, t: State)
    requires ttl > 0 && Inv(s) && Run(ttl, s, steps, t)
    ensures Inv(t)
    decreases |steps|
  {
    if steps != [] {
      StepKeepsInv(ttl, s, steps[0]);
      RunKeepsInv(ttl, Apply(ttl, s, steps[0]), steps[1..], t);
    }
  }

  /** Mutual exclusion: at any instant of any run at most one unreleased grant of a key is
      inside its TTL, and while it is, nobody else can take the key. */
  lemma AtMostOneLiveGrant(ttl: int, start: int, steps: seq<Step>, s: State, g: GrantId, h: GrantId)
    requires ttl > 0 && Run(ttl, State(map[], map[], start), steps, s)
    requires g in s.grants && h in s.grants && s.grants[g].key == s.grants[h].key
    requires !s.grants[g].released && s.now < s.grants[g].token
    ensures Taken(s.held, s.grants[g].key, s.now)
    ensures !s.grants[h].released && s.now < s.grants[h].token ==> g == h
  {
    RunKeepsInv(ttl, State(map[], map[], start), steps, s);
  }

  /** Safe handover: a release removes the entry of its key exactly when the releasing grant
      still owns it, so a superseded grant never evicts the holder that replaced it. */
  lemma ReleaseClearsOwnEntryOnly(ttl: int, start: int, steps: seq<Step>, s: State, g: GrantId, h: GrantId)
    requires ttl > 0 && Run(ttl, State(map[], map[], start), steps, s)
    requires g in s.grants && Current(s, h) && g != h
    ensures var t := Apply(ttl, s, Release(g));
            Current(t, h) && t.held[s.grants[h].key] == s.held[s.grants[h].key]
    ensures s.grants[h].key !in Apply(ttl, s, Release(h)).held
  {
    RunKeepsInv(ttl, State(map[], map[], start), steps, s);
  }

  /** Nothing leaks: once every grant is released no entry is left. */
  lemma ReleasedRunLeavesNoEntry(ttl: int, start: int, steps: seq<Step>, s: State)
    requires ttl > 0 && Run(ttl, State(map[], map[], start), steps, s)
    requires forall g :: g in s.grants ==> s.grants[g].released
    ensures s.held == map[]
  {
    RunKeepsInv(ttl, State(map[], map[], start), steps, s);
    assert forall key :: key in s.held ==> exists g :: OwnedBy(s, key, g);
  }
}
