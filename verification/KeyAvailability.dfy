/** When a lookup is answered, told by the key sets that have been stored. */
module KeyAvailability {
  import opened Prelude
  import opened Jwks

  ghost predicate NothingStored(trace: seq<Event>) { forall k | 0 <= k < |trace| :: !trace[k].Stored? }

  /** The last stored set has this key. */
  predicate HasKey(trace: seq<Event>, j: nat, kid: string) {
    j < |trace| && trace[j].Stored? && kid in trace[j].keys
  }

  predicate IsFresh(policy: Policy, trace: seq<Event>, j: nat, now: real) {
    j < |trace| && trace[j].Stored? && now < trace[j].started + policy.freshFor
  }

  predicate IsUsableStill(policy: Policy, trace: seq<Event>, j: nat, now: real) {
    j < |trace| && trace[j].Stored? && now < trace[j].started + policy.freshFor + policy.maxStale
  }

  /** A member of the set that has a key id and a key type, both texts and neither empty. */
  ghost predicate IsKey(c: Candidate, kid: string) {
    kid != "" && exists kty: string, rest: string :: kty != "" && c == Object(Str(kid), Str(kty), rest)
  }

  lemma KeysAreUsable(c: Candidate)
    ensures Usable(c) <==> exists kid :: IsKey(c, kid)
    ensures forall kid :: IsKey(c, kid) ==> c.kid.s == kid
  {
    if Usable(c) {
      assert c == Object(Str(c.kid.s), Str(c.kty.s), c.rest);
      assert IsKey(c, c.kid.s);
    }
  }

  /** The fetch brought nothing usable: it raised, or its answer has no candidate that is a key. */
  ghost predicate BringsNothing(response: Option<Payload>) {
    response.None? || response.value.NoKeyArray? || forall c, kid | c in response.value.candidates :: !IsKey(c, kid)
  }

  lemma {:induction false} NoKeysExactly(candidates: seq<Candidate>)
    ensures ByKeyId(candidates) == map[] <==> forall c | c in candidates :: !Usable(c)
  {
    if c :| c in candidates && Usable(c) {
      var i :| 0 <= i < |candidates| && candidates[i] == c;
      ByKeyIdKeepsLast(candidates, c.kid.s);
    }
    if kid :| kid in ByKeyId(candidates) { ByKeyIdKeepsLast(candidates, kid); }
  }

  lemma BringsNothingExactly(response: Option<Payload>)
    ensures BringsNothing(response) <==> response.None? || Normalize(response.value).None?
  {
    if response.Some? && response.value.KeyArray? {
      NoKeysExactly(response.value.candidates);
      forall c | c in response.value.candidates ensures Usable(c) <==> exists kid :: IsKey(c, kid) { KeysAreUsable(c); }
    }
    hide ByKeyId, Usable, IsKey;
  }

  lemma OneLastStored(trace: seq<Event>, m: nat, i: nat, j: nat)
    requires LastStoredAt(trace, m, i) && LastStoredAt(trace, m, j)
    ensures i == j
  {
  }

  /** The cache is the last stored set, with its windows. */
  lemma CacheIs(policy: Policy, s: State, j: nat)
    requires CacheIsLastStored(policy, s) && LastStoredAt(s.trace, |s.trace|, j)
    ensures s.cache == Cache(s.trace[j].keys, s.trace[j].started + policy.freshFor,
                             s.trace[j].started + policy.freshFor + policy.maxStale)
  {
    if i: nat :| LastStoredAt(s.trace, |s.trace|, i)
                 && s.cache == Cache(s.trace[i].keys, s.trace[i].started + policy.freshFor,
                                     s.trace[i].started + policy.freshFor + policy.maxStale) {
      OneLastStored(s.trace, |s.trace|, i, j);
    }
  }

  lemma ReachedCacheIs(policy: Policy, clock: real, steps: seq<Step>, j: nat)
    requires policy.Valid() && var trace := After(policy, Initial(clock), steps).trace; LastStoredAt(trace, |trace|, j)
    ensures var s := After(policy, Initial(clock), steps);
            s.cache == Cache(s.trace[j].keys, s.trace[j].started + policy.freshFor,
                             s.trace[j].started + policy.freshFor + policy.maxStale)
  {
    hide After, LastStoredAt, TraceOk, CacheIsLastStored;
    EveryRunIsSafe(policy, clock, steps);
    CacheIs(policy, After(policy, Initial(clock), steps), j);
  }

  /** A lookup of a fresh key is answered at once, and every other one waits for the lock. */
  lemma FreshKeyIsReturnedAtOnce(policy: Policy, clock: real, steps: seq<Step>, j: nat, task: nat, kid: string)
    requires policy.Valid() && task !in After(policy, Initial(clock), steps).tasks
    requires var trace := After(policy, Initial(clock), steps).trace; LastStoredAt(trace, |trace|, j)
    ensures var s := After(policy, Initial(clock), steps);
            Next(policy, s, Start(task, kid)) ==
            if HasKey(s.trace, j, kid) && IsFresh(policy, s.trace, j, s.clock)
            then s.(trace := s.trace + [Returned(kid, s.trace[j].keys[kid], s.clock)])
            else s.(tasks := s.tasks[task := Waiting(kid)])
  {
    hide After, Refresh;
    ReachedCacheIs(policy, clock, steps, j);
  }

  /** With the lock the same is tried again; a lookup fetches exactly when the key is not fresh even now. */
  lemma LockedLookupFetchesExactly(policy: Policy, clock: real, steps: seq<Step>, j: nat, task: nat)
    requires var s := After(policy, Initial(clock), steps);
             policy.Valid() && s.holder.None? && task in s.tasks && s.tasks[task].Waiting? && LastStoredAt(s.trace, |s.trace|, j)
    ensures var s := After(policy, Initial(clock), steps);
            var t, kid := Next(policy, s, Acquire(task)), s.tasks[task].kid;
            if HasKey(s.trace, j, kid) && IsFresh(policy, s.trace, j, s.clock)
            then t.trace == s.trace + [Returned(kid, s.trace[j].keys[kid], s.clock)] && t.tasks == s.tasks - {task}
            else t.trace == s.trace && t.holder == Some(task) && task in t.tasks
                 && t.tasks[task] == Fetching(kid, s.clock, if HasKey(s.trace, j, kid) then Some(s.trace[j].keys[kid]) else None)
  {
    hide After, Refresh;
    ReachedCacheIs(policy, clock, steps, j);
  }

  /**
    A fetch that brings nothing leaves the cache as it is, and the lookup gets the last stored set's
    key exactly when that set has one and its stale window was open when the fetch began.
   */
  lemma FailedFetchServesStale(policy: Policy, clock: real, steps: seq<Step>, j: nat, task: nat, response: Option<Payload>)
    requires var s := After(policy, Initial(clock), steps);
             policy.Valid() && task in s.tasks && s.tasks[task].Fetching? && LastStoredAt(s.trace, |s.trace|, j)
    requires BringsNothing(response)
    ensures var s := After(policy, Initial(clock), steps);
            var t, kid, now := Next(policy, s, Respond(task, response)), s.tasks[task].kid, s.tasks[task].now;
            && t.cache == s.cache && t.tasks == s.tasks - {task} && t.holder == None
            && t.trace == s.trace + (if HasKey(s.trace, j, kid) && IsUsableStill(policy, s.trace, j, now)
                                     then [Returned(kid, s.trace[j].keys[kid], now)] else [])
  {
    hide After, BringsNothing, Normalize;
    BringsNothingExactly(response);
    EveryRunIsSafe(policy, clock, steps);
    ReachedCacheIs(policy, clock, steps, j);
    hide TraceOk, CacheIsLastStored;
    var s := After(policy, Initial(clock), steps);
    assert s.tasks[task].cached == Lookup(s.cache.keys, s.tasks[task].kid);
    assert s.trace + [] == s.trace;
  }

  /** A fetch that brings keys stores them all, counted from its start, and answers from them alone. */
  lemma FetchedKeysAreStored(policy: Policy, clock: real, steps: seq<Step>, task: nat, candidates: seq<Candidate>)
    requires var s := After(policy, Initial(clock), steps); policy.Valid() && task in s.tasks && s.tasks[task].Fetching?
    requires !BringsNothing(Some(KeyArray(candidates)))
    ensures var s := After(policy, Initial(clock), steps);
            var t, kid, now := Next(policy, s, Respond(task, Some(KeyArray(candidates)))), s.tasks[task].kid, s.tasks[task].now;
            var keys := ByKeyId(candidates);
            && t.tasks == s.tasks - {task} && t.holder == None
            && t.trace == s.trace + [Stored(now, keys)] + (if kid in keys then [Returned(kid, keys[kid], now)] else [])
  {
    hide After, BringsNothing, ByKeyId;
    BringsNothingExactly(Some(KeyArray(candidates)));
    EveryRunIsSafe(policy, clock, steps);
    hide TraceOk, CacheIsLastStored;
  }

  /** Before the first set is stored no lookup gets a key without a fetch that brings one. */
  lemma NothingFromNothing(policy: Policy, clock: real, steps: seq<Step>, step: Step)
    requires policy.Valid() && NothingStored(After(policy, Initial(clock), steps).trace)
    requires step.Respond? ==> BringsNothing(step.response)
    ensures Next(policy, After(policy, Initial(clock), steps), step).trace == After(policy, Initial(clock), steps).trace
  {
    hide After, BringsNothing, Normalize;
    if step.Respond? { BringsNothingExactly(step.response); }
    EveryRunIsSafe(policy, clock, steps);
    NothingCached(policy, After(policy, Initial(clock), steps));
    hide TraceOk, CacheIsLastStored;
  }

  lemma NothingCached(policy: Policy, s: State)
    requires CacheIsLastStored(policy, s) && NothingStored(s.trace)
    ensures s.cache == EMPTY_CACHE
  {
  }
}
