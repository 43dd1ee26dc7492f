/** The signing-key cache: what one refresh does, and every interleaving of concurrent lookups. */
module Jwks {
  import opened Prelude

  /******* Key sets *******/

  datatype JsonField = Str(s: string) | NotStr | Missing

  /** One member of the "keys" array of a JSON Web Key Set (section 5 of RFC 7517). */
  datatype Candidate = NotObject | Object(kid: JsonField, kty: JsonField, rest: string)

  datatype Payload = NoKeyArray | KeyArray(candidates: seq<Candidate>)

  type Keys = map<string, Candidate>

  predicate Usable(c: Candidate) {
    c.Object? && c.kid.Str? && c.kid.s != "" && c.kty.Str? && c.kty.s != ""
  }

  /** The usable candidates by key id; a later one replaces an earlier one. */
  function ByKeyId(candidates: seq<Candidate>): Keys {
    if candidates == [] then map[] else
      var last := candidates[|candidates| - 1];
      var front := ByKeyId(candidates[..|candidates| - 1]);
      if Usable(last) then front[last.kid.s := last] else front
  }

  /** A set without usable keys counts as a failed fetch. */
  function Normalize(payload: Payload): Option<Keys> {
    if payload.KeyArray? && ByKeyId(payload.candidates) != map[]
    then Some(ByKeyId(payload.candidates)) else None
  }

  /** A key id is cached exactly when a usable candidate has it, and then as the last of them. */
  lemma {:induction false} ByKeyIdKeepsLast(candidates: seq<Candidate>, kid: string)
    ensures kid in ByKeyId(candidates)
            <==> exists i | 0 <= i < |candidates| :: Usable(candidates[i]) && candidates[i].kid.s == kid
    ensures kid in ByKeyId(candidates) ==>
              exists i | 0 <= i < |candidates| ::
                && ByKeyId(candidates)[kid] == candidates[i]
                && Usable(candidates[i]) && candidates[i].kid.s == kid
                && (forall j | i < j < |candidates| :: Usable(candidates[j]) ==> candidates[j].kid.s != kid)
  {
    if candidates != [] {
      var k := |candidates| - 1;
      var front := candidates[..k];
      ByKeyIdKeepsLast(front, kid);
      forall i | 0 <= i < k ensures front[i] == candidates[i] {}
      if Usable(candidates[k]) && candidates[k].kid.s == kid {
        assert ByKeyId(candidates)[kid] == candidates[k];
      } else if kid in ByKeyId(front) {
        var i :| 0 <= i < k && ByKeyId(front)[kid] == front[i] && Usable(front[i]) && front[i].kid.s == kid
                 && (forall j | i < j < k :: Usable(front[j]) ==> front[j].kid.s != kid);
        assert ByKeyId(candidates)[kid] == candidates[i];
      }
    }
  }

  /******* The cache *******/

  datatype Policy = Policy(freshFor: real, maxStale: real) {
    predicate Valid() { freshFor > 0.0 && maxStale >= 0.0 }
  }

  datatype Cache = Cache(keys: Keys, freshUntil: real, staleUntil: real)

  const EMPTY_CACHE := Cache(map[], 0.0, 0.0)

  datatype Reply = Found(key: Candidate) | UnknownKey | Unavailable

  function Lookup(keys: Keys, kid: string): Option<Candidate> {
    if kid in keys then Some(keys[kid]) else None
  }

  /** The key, if it is cached and fresh. */
  function FreshHit(cache: Cache, kid: string, now: real): Option<Candidate> {
    if now < cache.freshUntil then Lookup(cache.keys, kid) else None
  }

  /**
    The end of a fetch that began at `now`; `response` is none when the fetcher raised. The windows
    of a new set count from before the fetch.
   */
  function Refresh(policy: Policy, cache: Cache, kid: string, now: real, cached: Option<Candidate>,
                   response: Option<Payload>): (Cache, Reply)
  {
    match (if response.Some? then Normalize(response.value) else None)
    case Some(keys) =>
      (Cache(keys, now + policy.freshFor, now + policy.freshFor + policy.maxStale),
       if kid in keys then Found(keys[kid]) else UnknownKey)
    case None =>
      (cache, if cached.Some? && now < cache.staleUntil then Found(cached.value) else Unavailable)
  }

  /** The cache object. Its methods are the stretches of `get` between two awaits. */
  class JWKSCache {
    const policy: Policy
    var keys: Keys
    var freshUntil: real
    var staleUntil: real

    constructor (policy: Policy)
      requires policy.Valid()
      ensures this.policy == policy && Value() == EMPTY_CACHE
    {
      this.policy := policy;
      keys, freshUntil, staleUntil := map[], 0.0, 0.0;
    }

    function Value(): Cache
      reads this
    {
      Cache(keys, freshUntil, staleUntil)
    }

    /** The check made first without the lock and again with it. */
    method Check(kid: string, now: real) returns (hit: Option<Candidate>, cached: Option<Candidate>)
      ensures hit == FreshHit(Value(), kid, now)
      ensures cached == Lookup(keys, kid)
    {
      cached := if kid in keys then Some(keys[kid]) else None;
      hit := if cached.Some? && now < freshUntil then cached else None;
    }

    static method NormalizePayload(payload: Payload) returns (result: Option<Keys>)
      ensures result == Normalize(payload)
    {
      if payload.NoKeyArray? { return None; }
      var normalized: Keys := map[];
      for i := 0 to |payload.candidates|
        invariant normalized == ByKeyId(payload.candidates[..i])
      {
        var candidate := payload.candidates[i];
        assert payload.candidates[..i + 1][..i] == payload.candidates[..i];
        if Usable(candidate) { normalized := normalized[candidate.kid.s := candidate]; }
      }
      assert payload.candidates[..|payload.candidates|] == payload.candidates;
      if normalized == map[] { return None; }
      return Some(normalized);
    }

    /** From the fetcher's answer to the end of `get`, with the lock held throughout. */
    method Finish(kid: string, now: real, cached: Option<Candidate>, response: Option<Payload>)
      returns (reply: Reply)
      modifies this
      ensures (Value(), reply) == Refresh(policy, old(Value()), kid, now, cached, response)
    {
      var refreshed: Option<Keys> := None;
      if response.Some? { refreshed := NormalizePayload(response.value); }
      if refreshed.None? {
        if cached.Some? && now < staleUntil { return Found(cached.value); }
        return Unavailable;
      }
      keys := refreshed.value;
      freshUntil := now + policy.freshFor;
      staleUntil := freshUntil + policy.maxStale;
      if kid !in keys { return UnknownKey; }
      return Found(keys[kid]);
    }

    /** A lookup nobody interrupts: `now` is read before the lock, `later` with it. */
    method Get(kid: string, now: real, later: real, response: Option<Payload>) returns (reply: Reply)
      modifies this
      ensures match FreshHit(old(Value()), kid, now)
              case Some(key) => reply == Found(key) && Value() == old(Value())
              case None =>
                match FreshHit(old(Value()), kid, later)
                case Some(key) => reply == Found(key) && Value() == old(Value())
                case None =>
                  (Value(), reply)
                  == Refresh(policy, old(Value()), kid, later, Lookup(old(keys), kid), response)
    {
      hide Refresh;
      var hit, cached := Check(kid, now);
      if hit.Some? { return Found(hit.value); }
      hit, cached := Check(kid, later);
      if hit.Some? { return Found(hit.value); }
      reply := Finish(kid, later, cached, response);
    }
  }

  /******* Concurrent lookups *******/

  datatype Task = Waiting(kid: string) | Fetching(kid: string, now: real, cached: Option<Candidate>)

  /** `decided` is the clock reading the answer was decided on. */
  datatype Event =
    | Stored(started: real, keys: Keys)
    | Returned(kid: string, key: Candidate, decided: real)

  datatype State = State(cache: Cache, holder: Option<nat>, tasks: map<nat, Task>, clock: real, trace: seq<Event>)

  datatype Step =
    | Tick(elapsed: real)
    | Start(task: nat, kid: string)
    | Acquire(task: nat)
    | Respond(task: nat, response: Option<Payload>)
    | Cancel(task: nat)

  function Initial(clock: real): State { State(EMPTY_CACHE, None, map[], clock, []) }

  function Released(s: State, task: nat): State {
    s.(tasks := s.tasks - {task}, holder := if s.holder == Some(task) then None else s.holder)
  }

  /** One step; a step that is not enabled changes nothing. */
  function Next(policy: Policy, s: State, step: Step): State {
    match step
    case Tick(elapsed) => if elapsed < 0.0 then s else s.(clock := s.clock + elapsed)
    case Start(task, kid) =>
      if task in s.tasks then s else
        (match FreshHit(s.cache, kid, s.clock)
         case Some(key) => s.(trace := s.trace + [Returned(kid, key, s.clock)])
         case None => s.(tasks := s.tasks[task := Waiting(kid)]))
    case Acquire(task) =>
      if s.holder.Some? || task !in s.tasks || !s.tasks[task].Waiting? then s else
        var kid := s.tasks[task].kid;
        (match FreshHit(s.cache, kid, s.clock)
         case Some(key) => Released(s, task).(trace := s.trace + [Returned(kid, key, s.clock)])
         case None =>
           s.(holder := Some(task),
              tasks := s.tasks[task := Fetching(kid, s.clock, Lookup(s.cache.keys, kid))]))
    case Respond(task, response) =>
      if task !in s.tasks || !s.tasks[task].Fetching? then s else
        var t := s.tasks[task];
        var (cache, reply) := Refresh(policy, s.cache, t.kid, t.now, t.cached, response);
        var stored := if response.Some? && Normalize(response.value).Some?
                      then [Stored(t.now, cache.keys)] else [];
        var returned := if reply.Found? then [Returned(t.kid, reply.key, t.now)] else [];
        Released(s, task).(cache := cache, trace := s.trace + stored + returned)
    case Cancel(task) => if task in s.tasks then Released(s, task) else s
  }

  function After(policy: Policy, s: State, steps: seq<Step>): State {
    if steps == [] then s else
      Next(policy, After(policy, s, steps[..|steps| - 1]), steps[|steps| - 1])
  }

  /******* Reading the trace *******/

  /** Position `j` holds the last key set stored before position `m`. */
  ghost predicate LastStoredAt(trace: seq<Event>, m: nat, j: nat) {
    && j < m <= |trace| && trace[j].Stored?
    && (forall k | j < k < m :: !trace[k].Stored?)
  }

  /** The returned key belongs to the last stored set and was decided within its windows. */
  ghost predicate Justified(policy: Policy, trace: seq<Event>, m: nat)
    requires m < |trace| && trace[m].Returned?
  {
    exists j: nat :: LastStoredAt(trace, m, j)
      && trace[m].kid in trace[j].keys && trace[j].keys[trace[m].kid] == trace[m].key
      && trace[m].decided < trace[j].started + policy.freshFor + policy.maxStale
  }

  ghost predicate TraceOk(policy: Policy, trace: seq<Event>) {
    && (forall m | 0 <= m < |trace| && trace[m].Returned? :: Justified(policy, trace, m))
    && (forall j, k | 0 <= j < k < |trace| && trace[j].Stored? && trace[k].Stored? ::
          trace[j].started <= trace[k].started)
  }

  /** The cache is the last stored set with its windows, or empty. */
  ghost predicate CacheIsLastStored(policy: Policy, s: State) {
    || (s.cache == EMPTY_CACHE && forall j | 0 <= j < |s.trace| :: !s.trace[j].Stored?)
    || (exists j: nat :: LastStoredAt(s.trace, |s.trace|, j)
          && s.cache == Cache(s.trace[j].keys, s.trace[j].started + policy.freshFor,
                              s.trace[j].started + policy.freshFor + policy.maxStale))
  }

  ghost predicate Safe(policy: Policy, s: State) {
    && TraceOk(policy, s.trace)
    && CacheIsLastStored(policy, s)
    && (s.holder.Some? ==> s.holder.value in s.tasks)
    && (forall t | t in s.tasks ::
          && (s.tasks[t].Fetching? <==> s.holder == Some(t))
          && (s.tasks[t].Fetching? ==>
                && s.tasks[t].cached == Lookup(s.cache.keys, s.tasks[t].kid)
                && s.tasks[t].now <= s.clock
                && (forall j | 0 <= j < |s.trace| && s.trace[j].Stored? :: s.trace[j].started <= s.tasks[t].now)))
    && (forall j | 0 <= j < |s.trace| && s.trace[j].Stored? :: s.trace[j].started <= s.clock)
  }

  /******* Proofs *******/

  lemma ReturnKeepsTrace(policy: Policy, s: State, kid: string, key: Candidate, decided: real)
    requires TraceOk(policy, s.trace) && CacheIsLastStored(policy, s)
    requires kid in s.cache.keys && s.cache.keys[kid] == key && decided < s.cache.staleUntil
    ensures var trace := s.trace + [Returned(kid, key, decided)];
            TraceOk(policy, trace) && CacheIsLastStored(policy, s.(trace := trace))
  {
    var trace := s.trace + [Returned(kid, key, decided)];
    var j: nat :| LastStoredAt(s.trace, |s.trace|, j)
                  && s.cache == Cache(s.trace[j].keys, s.trace[j].started + policy.freshFor,
                                      s.trace[j].started + policy.freshFor + policy.maxStale);
    assert LastStoredAt(trace, |s.trace|, j);
    assert LastStoredAt(trace, |trace|, j);
    forall m | 0 <= m < |trace| && trace[m].Returned? ensures Justified(policy, trace, m) {
      if m < |s.trace| { JustifiedLater(policy, s.trace, trace, m); }
    }
  }

  lemma JustifiedLater(policy: Policy, a: seq<Event>, b: seq<Event>, m: nat)
    requires |a| <= |b| && b[..|a|] == a && m < |a| && a[m].Returned? && Justified(policy, a, m)
    ensures b[m].Returned? && Justified(policy, b, m)
  {
    forall k | 0 <= k < |a| ensures b[k] == a[k] { assert b[..|a|][k] == a[k]; }
    var j: nat :| LastStoredAt(a, m, j)
      && a[m].kid in a[j].keys && a[j].keys[a[m].kid] == a[m].key
      && a[m].decided < a[j].started + policy.freshFor + policy.maxStale;
    assert LastStoredAt(b, m, j);
  }

  lemma StoreKeepsTrace(policy: Policy, s: State, started: real, keys: Keys)
    requires TraceOk(policy, s.trace)
    requires forall j | 0 <= j < |s.trace| && s.trace[j].Stored? :: s.trace[j].started <= started
    ensures var trace := s.trace + [Stored(started, keys)];
            var cache := Cache(keys, started + policy.freshFor, started + policy.freshFor + policy.maxStale);
            TraceOk(policy, trace) && CacheIsLastStored(policy, s.(trace := trace, cache := cache))
  {
    var trace := s.trace + [Stored(started, keys)];
    assert LastStoredAt(trace, |trace|, |s.trace|);
    forall m | 0 <= m < |trace| && trace[m].Returned? ensures Justified(policy, trace, m) {
      JustifiedLater(policy, s.trace, trace, m);
    }
  }

  /** The stale window never ends before the fresh one. */
  lemma FreshBeforeStale(policy: Policy, s: State)
    requires policy.Valid() && CacheIsLastStored(policy, s)
    ensures s.cache.freshUntil <= s.cache.staleUntil
  {
  }

  lemma RespondIsSafe(policy: Policy, s: State, task: nat, response: Option<Payload>)
    requires policy.Valid() && Safe(policy, s) && task in s.tasks && s.tasks[task].Fetching?
    ensures Safe(policy, Next(policy, s, Respond(task, response)))
  {
    hide TraceOk;
    hide CacheIsLastStored;
    hide Normalize;
    var t := s.tasks[task];
    var s' := Next(policy, s, Respond(task, response));
    if response.Some? && Normalize(response.value).Some? {
      var keys := Normalize(response.value).value;
      StoreKeepsTrace(policy, s, t.now, keys);
      var cache := Cache(keys, t.now + policy.freshFor, t.now + policy.freshFor + policy.maxStale);
      var mid := s.(trace := s.trace + [Stored(t.now, keys)], cache := cache);
      if t.kid in keys {
        ReturnKeepsTrace(policy, mid, t.kid, keys[t.kid], t.now);
      }
      assert mid.trace + [] == mid.trace;
      SameCacheAndTrace(policy, if t.kid in keys then mid.(trace := mid.trace + [Returned(t.kid, keys[t.kid], t.now)]) else mid, s');
    } else {
      assert s.trace + [] == s.trace;
      if t.cached.Some? && t.now < s.cache.staleUntil {
        ReturnKeepsTrace(policy, s, t.kid, t.cached.value, t.now);
        SameCacheAndTrace(policy, s.(trace := s.trace + [Returned(t.kid, t.cached.value, t.now)]), s');
      } else {
        SameCacheAndTrace(policy, s, s');
      }
    }
  }

  lemma SameCacheAndTrace(policy: Policy, a: State, b: State)
    requires a.cache == b.cache && a.trace == b.trace && CacheIsLastStored(policy, a)
    ensures CacheIsLastStored(policy, b)
  {
  }

  lemma HitIsSafe(policy: Policy, s: State, s': State, kid: string)
    requires policy.Valid() && Safe(policy, s) && FreshHit(s.cache, kid, s.clock).Some?
    requires s'.cache == s.cache && s'.clock == s.clock
    requires s'.trace == s.trace + [Returned(kid, FreshHit(s.cache, kid, s.clock).value, s.clock)]
    requires s'.holder == s.holder && (s.holder.Some? ==> s.holder.value in s'.tasks)
    requires forall t | t in s'.tasks :: t in s.tasks && s'.tasks[t] == s.tasks[t]
    ensures Safe(policy, s')
  {
    FreshBeforeStale(policy, s);
    ReturnKeepsTrace(policy, s, kid, FreshHit(s.cache, kid, s.clock).value, s.clock);
    hide TraceOk;
    hide CacheIsLastStored;
    SameCacheAndTrace(policy, s.(trace := s'.trace), s');
  }

  lemma NextIsSafe(policy: Policy, s: State, step: Step)
    requires policy.Valid() && Safe(policy, s)
    ensures Safe(policy, Next(policy, s, step))
  {
    hide TraceOk;
    hide CacheIsLastStored;
    var s' := Next(policy, s, step);
    match step {
      case Tick(elapsed) => SameCacheAndTrace(policy, s, s');
      case Start(task, kid) =>
        if task !in s.tasks && FreshHit(s.cache, kid, s.clock).Some? {
          HitIsSafe(policy, s, s', kid);
        } else {
          SameCacheAndTrace(policy, s, s');
        }
      case Acquire(task) =>
        if s.holder.None? && task in s.tasks && s.tasks[task].Waiting?
           && FreshHit(s.cache, s.tasks[task].kid, s.clock).Some? {
          HitIsSafe(policy, s, s', s.tasks[task].kid);
        } else {
          SameCacheAndTrace(policy, s, s');
        }
      case Respond(task, response) =>
        if task in s.tasks && s.tasks[task].Fetching? { RespondIsSafe(policy, s, task, response); }
      case Cancel(task) => SameCacheAndTrace(policy, s, s');
    }
  }

  lemma {:induction false} EveryRunIsSafe(policy: Policy, clock: real, steps: seq<Step>)
    requires policy.Valid()
    ensures Safe(policy, After(policy, Initial(clock), steps))
  {
    hide Next;
    hide Safe;
    if steps == [] {
      InitialIsSafe(policy, clock);
    } else {
      EveryRunIsSafe(policy, clock, steps[..|steps| - 1]);
      NextIsSafe(policy, After(policy, Initial(clock), steps[..|steps| - 1]), steps[|steps| - 1]);
    }
  }

  lemma InitialIsSafe(policy: Policy, clock: real)
    ensures Safe(policy, Initial(clock))
  {
  }

  /** In every interleaving at most one lookup is fetching, and it holds the lock. */
  lemma AtMostOneFetch(policy: Policy, clock: real, steps: seq<Step>, t: nat, u: nat)
    requires policy.Valid()
    ensures var s := After(policy, Initial(clock), steps);
            t in s.tasks && u in s.tasks && s.tasks[t].Fetching? && s.tasks[u].Fetching? ==> t == u
  {
    hide After;
    EveryRunIsSafe(policy, clock, steps);
  }

  /**
    In every interleaving, a returned key belongs to the most recently stored key set and was
    decided before that set's fetch began plus the fresh and the stale window.
   */
  lemma ReturnedKeysAreCurrent(policy: Policy, clock: real, steps: seq<Step>, m: nat)
    requires policy.Valid()
    ensures var trace := After(policy, Initial(clock), steps).trace;
            m < |trace| && trace[m].Returned? ==> Justified(policy, trace, m)
  {
    hide After;
    EveryRunIsSafe(policy, clock, steps);
  }

  /** A key that a stored set no longer has is not returned again until a later set has it. */
  lemma DroppedKeysStayDropped(policy: Policy, clock: real, steps: seq<Step>, d: nat, m: nat)
    requires policy.Valid()
    requires var trace := After(policy, Initial(clock), steps).trace;
             && d < m < |trace| && trace[m].Returned?
             && trace[d].Stored? && trace[m].kid !in trace[d].keys
    ensures var trace := After(policy, Initial(clock), steps).trace;
            exists j | d < j < m ::
              trace[j].Stored? && trace[m].kid in trace[j].keys && trace[j].started >= trace[d].started
  {
    hide After;
    EveryRunIsSafe(policy, clock, steps);
    var trace := After(policy, Initial(clock), steps).trace;
    assert Justified(policy, trace, m);
    var j: nat :| LastStoredAt(trace, m, j) && trace[m].kid in trace[j].keys;
    assert d < j;
  }
}
