/** How a claim ends, whatever goes wrong in it, and that interrupted runs can be resumed. */
module IngestionOutcomes {
  import opened Prelude
  import opened Catalogue
  import opened IngestionRuns
  import opened IngestionTheorems

  /******* Fetching *******/

  /** The attempt stops with an exception before there are `maximum` records. */
  predicate StopsShort(available: seq<Record>, maximum: nat, a: Attempt) {
    !a.Ends? && Min(a.after, |available|) < maximum
  }

  /** The attempts from `i` to `j` (without it) are all interrupted short. */
  ghost predicate InterruptedUpTo(available: seq<Record>, maximum: nat, attempts: seq<Attempt>, i: nat, j: nat) {
    forall k | i <= k < j :: AttemptAt(attempts, k).Interrupted? && StopsShort(available, maximum, AttemptAt(attempts, k))
  }

  /** The attempt whose records are returned: the first that is not interrupted short, or the last. */
  ghost predicate DecidedBy(available: seq<Record>, maximum: nat, attempts: seq<Attempt>, i: nat, last: nat, j: nat) {
    && i <= j <= last
    && InterruptedUpTo(available, maximum, attempts, i, j)
    && (j < last ==> !(AttemptAt(attempts, j).Interrupted? && StopsShort(available, maximum, AttemptAt(attempts, j))))
  }

  /**
    One attempt decides: the first that is not interrupted, or the last there is. It is an error
    exactly when that attempt stopped short, and its records are those it yielded.
   */
  lemma {:induction false} OneAttemptDecides(available: seq<Record>, maximum: nat, attempts: seq<Attempt>,
                                             i: nat, last: nat) returns (j: nat)
    requires i <= last
    ensures DecidedBy(available, maximum, attempts, i, last, j)
    ensures var f := FetchFrom(available, maximum, attempts, i, last);
            var a := AttemptAt(attempts, j);
            && f.error == (if !StopsShort(available, maximum, a) then None
                           else if a.Interrupted? then Some(FetchFailed) else Some(ParseFailed))
            && |f.records| == if StopsShort(available, maximum, a) then Min(a.after, |available|)
                              else Min(maximum, |available|)
    decreases last - i
  {
    var once := FetchOnce(available, maximum, AttemptAt(attempts, i));
    if once.error == Some(FetchFailed) && i < last {
      j := OneAttemptDecides(available, maximum, attempts, i + 1, last);
    } else {
      j := i;
    }
  }

  /******* How a claim ends *******/

  /** What a claim of the run fetches. */
  function ReadBy(source: seq<Record>, adapter: Adapter, run: Run, env: Env): Fetched {
    FetchFrom(Available(source, run.cursor), run.batchSize + 1, env.attempts, 0, adapter.maxRetries)
  }

  /** How many of them the claim works on. */
  function Taken(source: seq<Record>, adapter: Adapter, run: Run, env: Env): nat {
    Min(run.batchSize, |ReadBy(source, adapter, run, env).records|)
  }

  /** The claim's own statements succeed; records and fetches may still fail. */
  predicate Recorded(env: Env) { !env.claimFails && !env.failItemFails && !env.advanceFails }

  /** Only the fetches of the claim fail. */
  predicate OnlyFetchesFail(env: Env) { Recorded(env) && env.faults == [] }

  lemma FinalMeansThirdClaim(source: seq<Record>, run: nat, items: seq<Item>, raw: RawKey, attempts: nat)
    requires ItemsMatch(source, run, items) && SumAttempts(items) <= attempts
    ensures FailureIsFinal(items, raw) ==> attempts >= 2
  {
    if i :| 0 <= i < |items| && items[i].raw == raw && items[i].attempts + 1 >= 3 {
      AttemptsOfOneItem(items, i);
    }
  }

  /** The run row a claim leaves, if the claim leaves any. */
  ghost predicate EndsAs(source: seq<Record>, f: Fetched, taken: nat, before: Run, after: Run) {
    && before.cursor <= after.cursor <= before.cursor + taken <= |source|
    && (after.status == DeadLettered <==>
          && before.attempts >= 2
          && (after.cursor < before.cursor + taken || (f.error.Some? && f.records == [])))
    && (after.status == Completed <==> after.cursor == |source| && f.error.None?)
    && (after.status != DeadLettered && after.status != Completed ==> after.status == Partial)
  }

  lemma GoingEnds(source: seq<Record>, adapter: Adapter, db: DB, env: Env, counters: Counters)
    requires db.run.cursor <= |source| && db.run.batchSize >= 1
    ensures var run := db.run.Claimed();
            var f := ReadBy(source, adapter, db.run, env);
            var taken := Taken(source, adapter, db.run, env);
            EndsAs(source, f, taken, db.run, run.Advanced(run.cursor + taken, counters, EndStatus(run, f, taken)))
  {
    hide FetchFrom;
    TodoIsSlice(source, adapter, db.run, env);
    var available := Available(source, db.run.cursor);
    FetchIsPrefix(available, db.run.batchSize + 1, env.attempts, 0, adapter.maxRetries);
  }

  /**
    However a claim's fetches and records fail, if it leaves the run not running: it is dead-lettered
    exactly when this was the third claim or a later one and a record failed or the fetch failed
    without a single record; completed exactly when nothing is left and the fetch did not fail; and
    partial otherwise.
   */
  lemma ClaimEnds(source: seq<Record>, adapter: Adapter, origin: World, db: DB, env: Env)
    requires Inv(source, origin, db) && db.run.Claimable()
    requires adapter.Approved() && db.run.adapter == adapter.id && Recorded(env)
    ensures var next := RunBatch(source, adapter, db, env).run;
            next.status != Running ==>
              EndsAs(source, ReadBy(source, adapter, db.run, env), Taken(source, adapter, db.run, env), db.run, next)
  {
    hide Process, Pass, FetchFrom, ItemsMatch, SumAttempts, LinksInRange, FailItems, FailureIsFinal, EndStatus, EndsAs;
    var run := db.run.Claimed();
    var f := ReadBy(source, adapter, db.run, env);
    var todo := f.records[..Min(run.batchSize, |f.records|)];
    TodoIsSlice(source, adapter, run, env);
    var p := Progress(World(db.content, run.counters.tally), run.counters.fetched, db.items);
    ProcessOk(source, run.id, run.dry, origin, db.run.attempts, run.cursor, todo, p, env.faults, |todo|);
    var s := Process(run.id, run.dry, p, todo, run.cursor, env.faults, |todo|);
    GoingEnds(source, adapter, db, env, Counters(s.p.fetched, s.p.world.tally));
    if s.Broke? {
      if s.raw.Some? { FinalMeansThirdClaim(source, run.id, s.p.items, s.raw.value, db.run.attempts); }
      BrokeEnds(source, f, |todo|, db, s, env);
    }
  }

  lemma BrokeEnds(source: seq<Record>, f: Fetched, taken: nat, db: DB, s: LoopState, env: Env)
    requires s.Broke? && db.run.cursor <= s.position < db.run.cursor + taken <= |source| && Recorded(env)
    requires s.raw.Some? && FailureIsFinal(s.p.items, s.raw.value) ==> db.run.attempts >= 2
    ensures EndsAs(source, f, taken, db.run, HandleFailure(db.run.Claimed(), s.p, s.position, s.raw, env).run)
  {
    hide FailureIsFinal, FailItems;
  }

  /******* Where a claim ends *******/

  /** A record breaks the loop at its own position, right after the loop got there. */
  lemma {:induction false} BrokeAt(run: nat, dry: bool, p: Progress, recs: seq<Record>, start: nat,
                                   faults: seq<Fault>, k: nat)
    requires LinksInRange(p.world.content) && k <= |recs| && Process(run, dry, p, recs, start, faults, k).Broke?
    ensures var s := Process(run, dry, p, recs, start, faults, k);
            && start <= s.position < start + k
            && Process(run, dry, p, recs, start, faults, s.position - start).Going?
            && Process(run, dry, p, recs, start, faults, s.position - start + 1) == s
  {
    hide PassOne, StoreRaw, MarkItems;
    if Process(run, dry, p, recs, start, faults, k - 1).Broke? {
      BrokeAt(run, dry, p, recs, start, faults, k - 1);
    }
  }

  /** What the claim works on. */
  function TakenRecords(source: seq<Record>, adapter: Adapter, run: Run, env: Env): seq<Record> {
    ReadBy(source, adapter, run, env).records[..Taken(source, adapter, run, env)]
  }

  /** The first `k` records get through and the next one, if there is one, does not. */
  ghost predicate PassesUpTo(run: nat, dry: bool, w: World, recs: seq<Record>, k: nat)
    requires LinksInRange(w.content)
  {
    && k <= |recs|
    && Pass(run, dry, w, recs[..k]).Some?
    && (k < |recs| ==> Pass(run, dry, w, recs[..k + 1]).None?)
  }

  /** If only fetches fail, the claim ends at the first record that does not get through. */
  lemma ClaimStopsAt(source: seq<Record>, adapter: Adapter, origin: World, db: DB, env: Env, k: nat)
    requires Inv(source, origin, db) && db.run.Claimable()
    requires adapter.Approved() && db.run.adapter == adapter.id && OnlyFetchesFail(env)
    requires PassesUpTo(db.run.id, db.run.dry, World(db.content, db.run.counters.tally),
                        TakenRecords(source, adapter, db.run, env), k)
    ensures var recs := TakenRecords(source, adapter, db.run, env);
            var next := RunBatch(source, adapter, db, env).run;
            && (next.status == Running <==> k < |recs| && recs[k].raw.RawCrash?)
            && (next.status != Running ==> next.cursor == db.run.cursor + k)
  {
    hide Process, Pass, FetchFrom, ItemsMatch, SumAttempts, LinksInRange, FailItems, FailureIsFinal, CrashReached;
    var run := db.run.Claimed();
    var recs := TakenRecords(source, adapter, db.run, env);
    TodoIsSlice(source, adapter, run, env);
    var w := World(db.content, run.counters.tally);
    var p := Progress(w, run.counters.fetched, db.items);
    CalmLoop(source, run.id, run.dry, p, recs, run.cursor, k);
    CalmLoop(source, run.id, run.dry, p, recs, run.cursor, |recs|);
    CrashesOnlyAt(run.id, run.dry, w, recs, k);
    assert recs[..|recs|] == recs;
    if k < |recs| {
      CalmLoop(source, run.id, run.dry, p, recs, run.cursor, k + 1);
      StoppedStays(run.id, run.dry, p, recs, run.cursor, [], k + 1, |recs|);
      var s := Process(run.id, run.dry, p, recs, run.cursor, [], |recs|);
      if s.Broke? {
        BrokeAt(run.id, run.dry, p, recs, run.cursor, [], |recs|);
        if s.position - run.cursor < k {
          StoppedStays(run.id, run.dry, p, recs, run.cursor, [], s.position - run.cursor + 1, k);
        } else if s.position - run.cursor > k {
          StoppedStays(run.id, run.dry, p, recs, run.cursor, [], k + 1, s.position - run.cursor);
        }
      }
    }
  }

  lemma CrashesOnlyAt(run: nat, dry: bool, w: World, recs: seq<Record>, k: nat)
    requires LinksInRange(w.content) && PassesUpTo(run, dry, w, recs, k)
    ensures forall j | 0 <= j < |recs| && CrashReached(run, dry, w, recs, j) :: j == k
    ensures k < |recs| ==> (CrashReached(run, dry, w, recs, k) <==> recs[k].raw.RawCrash?)
  {
    hide Pass, LinksInRange;
    forall j | 0 <= j < |recs| && CrashReached(run, dry, w, recs, j) ensures j == k {
      CrashNow(run, dry, w, recs, j);
      if j < k {
        assert recs[..k][..j + 1] == recs[..j + 1];
        PassPrefix(run, dry, w, recs[..k], j + 1);
      } else if j > k {
        assert recs[..j][..k + 1] == recs[..k + 1];
        PassPrefix(run, dry, w, recs[..j], k + 1);
      }
    }
  }

  /** The records of the next claim are the next ones of the pass. */
  lemma NextGetThrough(source: seq<Record>, origin: World, db: DB, n: nat)
    requires UpToCursor(source, origin, db) && LinksInRange(db.content)
    requires db.run.cursor + n <= |source|
    requires Pass(db.run.id, db.run.dry, origin, source[..db.run.cursor + n]).Some?
    ensures Pass(db.run.id, db.run.dry, World(db.content, db.run.counters.tally),
                 source[db.run.cursor..db.run.cursor + n])
            == Pass(db.run.id, db.run.dry, origin, source[..db.run.cursor + n])
  {
    hide PassOne, LinksInRange, Pass;
    var c := db.run.cursor;
    var w := World(db.content, db.run.counters.tally);
    var recs := source[c..c + n];
    if n == 0 {
      assert recs == [];
      EmptyPass(db.run.id, db.run.dry, w);
    } else {
      PassStep(db.run.id, db.run.dry, origin, source, c + n - 1);
      NextGetThrough(source, origin, db, n - 1);
      PassStep(db.run.id, db.run.dry, w, recs, n - 1);
      assert recs[..n - 1] == source[c..c + n - 1] && recs[..n] == recs && recs[n - 1] == source[c + n - 1];
    }
  }

  /**
    A claim that is only interrupted, over a source whose records all get through: it moves the cursor
    over what it read; it is dead-lettered exactly when the fetch failed, nothing was read and it was
    the third claim or a later one; completed exactly when the fetch did not fail and nothing is left;
    and partial otherwise.
   */
  lemma InterruptedClaimEnds(source: seq<Record>, adapter: Adapter, origin: World, db: DB, env: Env)
    requires Inv(source, origin, db) && db.run.Claimable()
    requires adapter.Approved() && db.run.adapter == adapter.id && OnlyFetchesFail(env)
    requires Pass(db.run.id, db.run.dry, origin, source).Some?
    ensures var f := ReadBy(source, adapter, db.run, env);
            var next := RunBatch(source, adapter, db, env).run;
            && next.cursor == db.run.cursor + Taken(source, adapter, db.run, env)
            && (next.status == DeadLettered <==> f.error.Some? && f.records == [] && db.run.attempts >= 2)
            && (next.status == Completed <==> f.error.None? && next.cursor == |source|)
            && (next.status != DeadLettered && next.status != Completed ==> next.status == Partial)
  {
    hide Pass, FetchFrom, ItemsMatch, SumAttempts, LinksInRange, RunBatch;
    var recs := TakenRecords(source, adapter, db.run, env);
    var c, n := db.run.cursor, |recs|;
    TodoIsSlice(source, adapter, db.run, env);
    PassPrefix(db.run.id, db.run.dry, origin, source, c + n);
    NextGetThrough(source, origin, db, n);
    assert recs[..n] == recs;
    ClaimStopsAt(source, adapter, origin, db, env, n);
    ClaimEnds(source, adapter, origin, db, env);
  }

  /**
    A claim that is only interrupted and meets a record that does not get through, having built its
    raw row: it stops at that record; dead-lettered if it was the third claim or a later one, partial
    otherwise.
   */
  lemma FailingRecordEnds(source: seq<Record>, adapter: Adapter, origin: World, db: DB, env: Env, k: nat)
    requires Inv(source, origin, db) && db.run.Claimable()
    requires adapter.Approved() && db.run.adapter == adapter.id && OnlyFetchesFail(env)
    requires PassesUpTo(db.run.id, db.run.dry, World(db.content, db.run.counters.tally),
                        TakenRecords(source, adapter, db.run, env), k)
    requires k < |TakenRecords(source, adapter, db.run, env)|
    requires !TakenRecords(source, adapter, db.run, env)[k].raw.RawCrash?
    ensures var next := RunBatch(source, adapter, db, env).run;
            && next.cursor == db.run.cursor + k
            && next.status == if db.run.attempts >= 2 then DeadLettered else Partial
  {
    hide Pass, FetchFrom, ItemsMatch, SumAttempts, LinksInRange, RunBatch, PassesUpTo;
    TodoIsSlice(source, adapter, db.run, env);
    ClaimStopsAt(source, adapter, origin, db, env, k);
    ClaimEnds(source, adapter, origin, db, env);
  }

  /******* Resuming *******/

  lemma {:induction false} RunManyAppend(source: seq<Record>, adapter: Adapter, db: DB, a: seq<Env>, b: seq<Env>)
    requires LinksInRange(db.content)
    ensures RunMany(source, adapter, db, a + b) == RunMany(source, adapter, RunMany(source, adapter, db, a), b)
  {
    hide RunBatch;
    if b == [] {
      assert a + b == a;
    } else {
      assert (a + b)[..|a + b| - 1] == a + b[..|b| - 1];
      RunManyAppend(source, adapter, db, a, b[..|b| - 1]);
    }
  }

  /** Still to be claimed, or done. */
  predicate Alive(run: Run) { run.Claimable() || run.status == Completed }

  lemma {:induction false} CalmFinishes(source: seq<Record>, adapter: Adapter, origin: World, db: DB, n: nat)
    requires Inv(source, origin, db) && Alive(db.run) && adapter.Approved() && db.run.adapter == adapter.id
    requires Pass(db.run.id, db.run.dry, origin, source).Some?
    ensures var run := RunMany(source, adapter, db, Calm(n)).run;
            run.status == Completed || (run.Claimable() && run.cursor >= db.run.cursor + n)
  {
    hide RunBatch, Pass, ItemsMatch, SumAttempts;
    if n > 0 {
      assert Calm(n)[..n - 1] == Calm(n - 1);
      CalmFinishes(source, adapter, origin, db, n - 1);
      var before := RunMany(source, adapter, db, Calm(n - 1));
      RunManyKeepsInv(source, adapter, origin, db, Calm(n - 1));
      if before.run.status == Completed {
        OnlyClaimableRunsMove(source, adapter, before, [CALM]);
        assert [CALM][..0] == [];
        assert RunMany(source, adapter, before, []) == before;
      } else {
        CalmBatch(source, adapter, origin, before);
      }
    }
  }

  /** Each claim reads something, unless the run is done. */
  ghost predicate EachReads(source: seq<Record>, adapter: Adapter, db: DB, envs: seq<Env>)
    requires LinksInRange(db.content)
  {
    forall k | 0 <= k < |envs| ::
      var run := RunMany(source, adapter, db, envs[..k]).run;
      run.status == Completed || ReadBy(source, adapter, run, envs[k]).records != []
  }

  lemma EachReadsFront(source: seq<Record>, adapter: Adapter, db: DB, envs: seq<Env>)
    requires LinksInRange(db.content) && envs != [] && EachReads(source, adapter, db, envs)
    ensures EachReads(source, adapter, db, envs[..|envs| - 1])
  {
    hide RunMany, FetchFrom;
    var front := envs[..|envs| - 1];
    forall k | 0 <= k < |front|
      ensures var run := RunMany(source, adapter, db, front[..k]).run;
              run.status == Completed || ReadBy(source, adapter, run, front[k]).records != []
    {
      assert front[..k] == envs[..k];
    }
  }

  lemma {:induction false} InterruptionsLeaveAlive(source: seq<Record>, adapter: Adapter, db: DB, envs: seq<Env>)
    requires Fresh(db) && adapter.Approved() && db.run.adapter == adapter.id
    requires Pass(db.run.id, db.run.dry, World(db.content, NO_TALLY), source).Some?
    requires (forall i | 0 <= i < |envs| :: OnlyFetchesFail(envs[i])) && EachReads(source, adapter, db, envs)
    ensures Alive(RunMany(source, adapter, db, envs).run)
  {
    hide RunBatch, Pass, ItemsMatch, SumAttempts, FetchFrom;
    if envs != [] {
      var front, env := envs[..|envs| - 1], envs[|envs| - 1];
      EachReadsFront(source, adapter, db, envs);
      InterruptionsLeaveAlive(source, adapter, db, front);
      var before := RunMany(source, adapter, db, front);
      FreshHasInv(source, db);
      RunManyKeepsInv(source, adapter, World(db.content, NO_TALLY), db, front);
      if before.run.status == Completed {
        OnlyClaimableRunsMove(source, adapter, before, [env]);
        RunManyAppend(source, adapter, db, front, [env]);
        assert front + [env] == envs;
      } else {
        InterruptedClaimEnds(source, adapter, World(db.content, NO_TALLY), before, env);
      }
    }
  }

  /**
    Interrupted fetches never lose a run that gets on: any number of claims that are only interrupted
    and each read at least one record, and then claims without faults, complete it.
   */
  lemma InterruptedRunsComplete(source: seq<Record>, adapter: Adapter, db: DB, envs: seq<Env>)
    requires Fresh(db) && adapter.Approved() && db.run.adapter == adapter.id
    requires Pass(db.run.id, db.run.dry, World(db.content, NO_TALLY), source).Some?
    requires (forall i | 0 <= i < |envs| :: OnlyFetchesFail(envs[i])) && EachReads(source, adapter, db, envs)
    ensures RunMany(source, adapter, db, envs + Calm(|source| + 1)).run.status == Completed
  {
    hide RunBatch, Pass, ItemsMatch, SumAttempts, RunMany, EachReads, Calm;
    var origin := World(db.content, NO_TALLY);
    var before := RunMany(source, adapter, db, envs);
    InterruptionsLeaveAlive(source, adapter, db, envs);
    FreshHasInv(source, db);
    RunManyKeepsInv(source, adapter, origin, db, envs);
    RunManyAppend(source, adapter, db, envs, Calm(|source| + 1));
    CalmFinishes(source, adapter, origin, before, |source| + 1);
    RunManyKeepsInv(source, adapter, origin, before, Calm(|source| + 1));
  }

  /******* What the counter of fetched records counts *******/

  /** How many of the records get as far as a stored raw row. */
  function CountReadable(recs: seq<Record>): nat {
    if recs == [] then 0
    else CountReadable(recs[..|recs| - 1]) + if recs[|recs| - 1].raw.RawOk? then 1 else 0
  }

  lemma {:induction false} CountOfSum(a: seq<Record>, b: seq<Record>)
    ensures CountReadable(a + b) == CountReadable(a) + CountReadable(b)
  {
    if b == [] {
      assert a + b == a;
    } else {
      assert (a + b)[..|a + b| - 1] == a + b[..|b| - 1];
      CountOfSum(a, b[..|b| - 1]);
    }
  }

  lemma FetchedOne(run: nat, dry: bool, p: Progress, rec: Record, position: nat, fault: Fault)
    requires LinksInRange(p.world.content)
    ensures var s := ProcessOne(run, dry, p, rec, position, fault);
            && (s.Going? ==> s.p.fetched == p.fetched + if rec.raw.RawOk? then 1 else 0)
            && (s.Broke? ==> s.position == position && rec.raw.RawOk? && p.fetched <= s.p.fetched <= p.fetched + 1)
  {
    hide PassOne, StoreRaw, MarkItems, LinksInRange;
  }

  lemma {:induction false} FetchedInLoop(run: nat, dry: bool, p: Progress, recs: seq<Record>, start: nat,
                                         faults: seq<Fault>, k: nat)
    requires LinksInRange(p.world.content) && k <= |recs|
    ensures var s := Process(run, dry, p, recs, start, faults, k);
            && (s.Going? ==> s.p.fetched == p.fetched + CountReadable(recs[..k]))
            && (s.Broke? ==>
                  && start <= s.position < start + k
                  && var passed := CountReadable(recs[..s.position - start]);
                  p.fetched + passed <= s.p.fetched <= p.fetched + passed + 1)
  {
    hide ProcessOne;
    if k > 0 {
      FetchedInLoop(run, dry, p, recs, start, faults, k - 1);
      var s := Process(run, dry, p, recs, start, faults, k - 1);
      assert recs[..k][..k - 1] == recs[..k - 1];
      if s.Going? { FetchedOne(run, dry, s.p, recs[k - 1], start + k - 1, FaultAt(faults, k - 1)); }
    }
  }

  /** Each readable record before the cursor was counted, and at most one more for each claim. */
  ghost predicate FetchedFits(source: seq<Record>, run: Run)
    requires run.cursor <= |source|
  {
    var passed := CountReadable(source[..run.cursor]);
    passed <= run.counters.fetched <= passed + run.attempts
  }

  lemma FetchedMoves(source: seq<Record>, before: Run, after: Run, n: nat)
    requires before.cursor + n <= |source| && FetchedFits(source, before)
    requires after.cursor == before.cursor + n && after.attempts == before.attempts + 1
    requires var passed := CountReadable(source[before.cursor..before.cursor + n]);
             before.counters.fetched + passed <= after.counters.fetched <= before.counters.fetched + passed + 1
    ensures FetchedFits(source, after)
  {
    CountOfSum(source[..before.cursor], source[before.cursor..before.cursor + n]);
    assert source[..before.cursor] + source[before.cursor..before.cursor + n] == source[..after.cursor];
    hide CountReadable;
  }

  lemma FetchedInWork(source: seq<Record>, adapter: Adapter, origin: World, db: DB, env: Env)
    requires Inv(source, origin, db) && db.run.Claimable() && FetchedFits(source, db.run)
    ensures var next := Work(source, adapter, db, db.run.Claimed(), env).run;
            next.cursor <= |source| && FetchedFits(source, next)
  {
    hide Process, Pass, FetchFrom, ItemsMatch, SumAttempts, LinksInRange, FailItems, FailureIsFinal, EndStatus,
         CountReadable, FetchedFits;
    var run := db.run.Claimed();
    var f := ReadBy(source, adapter, db.run, env);
    var todo := f.records[..Min(run.batchSize, |f.records|)];
    TodoIsSlice(source, adapter, run, env);
    var p := Progress(World(db.content, run.counters.tally), run.counters.fetched, db.items);
    FetchedInLoop(run.id, run.dry, p, todo, run.cursor, env.faults, |todo|);
    var s := Process(run.id, run.dry, p, todo, run.cursor, env.faults, |todo|);
    var next := Work(source, adapter, db, run, env).run;
    assert todo[..|todo|] == todo;
    if next == run {
      FetchedStays(source, db.run);
    } else if s.Broke? {
      assert todo[..s.position - run.cursor] == source[run.cursor..s.position];
      FetchedMoves(source, db.run, next, s.position - run.cursor);
    } else {
      FetchedMoves(source, db.run, next, |todo|);
    }
  }

  lemma FetchedStays(source: seq<Record>, run: Run)
    requires run.cursor <= |source| && FetchedFits(source, run)
    ensures FetchedFits(source, run.Claimed())
  {
  }

  /**
    In every state of a run the counter of fetched records is the number of readable records before
    the cursor, and at most one more for each claim: a record that broke a claim is counted again.
   */
  lemma {:induction false} FetchedCountsReadable(source: seq<Record>, adapter: Adapter, db: DB, envs: seq<Env>)
    requires Fresh(db)
    ensures var run := RunMany(source, adapter, db, envs).run;
            && run.cursor <= |source|
            && CountReadable(source[..run.cursor]) <= run.counters.fetched
            && run.counters.fetched <= CountReadable(source[..run.cursor]) + run.attempts
  {
    hide Work, Pass, ItemsMatch, SumAttempts;
    if envs != [] {
      var front, env := envs[..|envs| - 1], envs[|envs| - 1];
      FetchedCountsReadable(source, adapter, db, front);
      FreshHasInv(source, db);
      RunManyKeepsInv(source, adapter, World(db.content, NO_TALLY), db, front);
      var before := RunMany(source, adapter, db, front);
      if before.run.Claimable() { FetchedInWork(source, adapter, World(db.content, NO_TALLY), before, env); }
    }
  }

  /******* What the items say *******/

  /** Each record has an item of its own. */
  ghost predicate OwnItems(source: seq<Record>, run: nat) {
    forall i, j | 0 <= i < j < |source| :: KeyOf(run, source[i]) != KeyOf(run, source[j])
  }

  /** The pass quarantines the record at `j`. */
  ghost predicate QuarantinesAt(source: seq<Record>, run: nat, dry: bool, origin: World, j: nat)
    requires LinksInRange(origin.content) && j < |source|
    requires Pass(run, dry, origin, source[..j]).Some? && Pass(run, dry, origin, source[..j + 1]).Some?
  {
    |Pass(run, dry, origin, source[..j + 1]).value.content.quarantine|
    > |Pass(run, dry, origin, source[..j]).value.content.quarantine|
  }

  /** The item of the record at `j` says whether the record was quarantined or accepted. */
  ghost predicate ItemTells(source: seq<Record>, run: nat, dry: bool, origin: World, items: seq<Item>, j: nat)
    requires LinksInRange(origin.content) && j < |source|
  {
    && Pass(run, dry, origin, source[..j]).Some? && Pass(run, dry, origin, source[..j + 1]).Some?
    && exists i | 0 <= i < |items| ::
         && items[i].position == j && items[i].raw == KeyOf(run, source[j])
         && items[i].status == if QuarantinesAt(source, run, dry, origin, j) then ItemRejected else ItemCompleted
  }

  ghost predicate ItemsTell(source: seq<Record>, run: nat, dry: bool, origin: World, items: seq<Item>, n: nat)
    requires LinksInRange(origin.content) && n <= |source|
  {
    forall j | 0 <= j < n && source[j].raw.RawOk? :: ItemTells(source, run, dry, origin, items, j)
  }

  /** Every item stays where it is, and those of other records as they are. */
  ghost predicate OthersKept(before: seq<Item>, after: seq<Item>, raw: RawKey) {
    && |before| <= |after|
    && (forall i | 0 <= i < |before| && before[i].raw != raw :: after[i] == before[i])
  }

  lemma OthersStillTell(source: seq<Record>, run: nat, dry: bool, origin: World, before: seq<Item>, after: seq<Item>,
                        n: nat, k: nat)
    requires LinksInRange(origin.content) && n <= k < |source| && OwnItems(source, run)
    requires ItemsTell(source, run, dry, origin, before, n) && OthersKept(before, after, KeyOf(run, source[k]))
    ensures ItemsTell(source, run, dry, origin, after, n)
  {
    hide Pass, LinksInRange, QuarantinesAt;
    forall j | 0 <= j < n && source[j].raw.RawOk? ensures ItemTells(source, run, dry, origin, after, j) {
      assert ItemTells(source, run, dry, origin, before, j);
      var i :| 0 <= i < |before| && before[i].position == j && before[i].raw == KeyOf(run, source[j])
               && before[i].status == if QuarantinesAt(source, run, dry, origin, j) then ItemRejected else ItemCompleted;
      assert after[i] == before[i];
    }
  }

  lemma StoreKeepsOthers(items: seq<Item>, raw: RawKey, position: nat)
    requires StoreRaw(items, raw, position).Some?
    ensures OthersKept(items, StoreRaw(items, raw, position).value, raw)
    ensures HasItem(StoreRaw(items, raw, position).value, raw)
  {
    if !HasItem(items, raw) {
      assert (items + [Item(raw, position, 0, Pending)])[|items|].raw == raw;
    }
  }

  lemma MarkKeepsOthers(items: seq<Item>, raw: RawKey, status: ItemStatus)
    ensures OthersKept(items, MarkItems(items, raw, status), raw)
    ensures forall i | 0 <= i < |items| && items[i].raw == raw :: MarkItems(items, raw, status)[i] == items[i].(status := status)
  {
  }

  lemma FailKeepsOthers(items: seq<Item>, raw: RawKey)
    ensures OthersKept(items, FailItems(items, raw), raw)
  {
  }

  lemma TellsFewer(source: seq<Record>, run: nat, dry: bool, origin: World, items: seq<Item>, n: nat, m: nat)
    requires LinksInRange(origin.content) && n <= m <= |source| && ItemsTell(source, run, dry, origin, items, m)
    ensures ItemsTell(source, run, dry, origin, items, n)
  {
    hide ItemTells, LinksInRange;
  }

  lemma TellsOneMore(source: seq<Record>, run: nat, dry: bool, origin: World, items: seq<Item>, k: nat)
    requires LinksInRange(origin.content) && k < |source| && ItemsTell(source, run, dry, origin, items, k)
    requires source[k].raw.RawOk? ==> ItemTells(source, run, dry, origin, items, k)
    ensures ItemsTell(source, run, dry, origin, items, k + 1)
  {
    hide ItemTells, LinksInRange;
  }

  /** The item of a record that was just marked. */
  lemma MarkedTells(source: seq<Record>, run: nat, dry: bool, origin: World, stored: seq<Item>, k: nat, u: World, v: World)
    requires LinksInRange(origin.content) && k < |source| && OwnItems(source, run)
    requires ItemsMatch(source, run, stored) && HasItem(stored, KeyOf(run, source[k]))
    requires Pass(run, dry, origin, source[..k]) == Some(u) && Pass(run, dry, origin, source[..k + 1]) == Some(v)
    ensures ItemTells(source, run, dry, origin, MarkItems(stored, KeyOf(run, source[k]), OutcomeStatus(u, v)), k)
  {
    hide Pass, LinksInRange;
    var raw := KeyOf(run, source[k]);
    var i :| 0 <= i < |stored| && stored[i].raw == raw;
    MarkKeepsOthers(stored, raw, OutcomeStatus(u, v));
    var j := stored[i].position;
    assert KeyOf(run, source[j]) == raw;
    assert MarkItems(stored, raw, OutcomeStatus(u, v))[i] == stored[i].(status := OutcomeStatus(u, v));
  }

  /** One record's turn, in the loop of a claim. */
  lemma ItemsInOne(source: seq<Record>, run: nat, dry: bool, origin: World, attempts: nat,
                   start: nat, k: nat, p: Progress, fault: Fault)
    requires LinksInRange(origin.content) && LinksInRange(p.world.content) && OwnItems(source, run)
    requires start + k < |source| && LoopOk(source, run, dry, origin, attempts, start, k, Going(p))
    requires ItemsTell(source, run, dry, origin, p.items, start + k)
    ensures var s := ProcessOne(run, dry, p, source[start + k], start + k, fault);
            && ItemsTell(source, run, dry, origin, s.p.items, start + k)
            && (s.Going? ==> ItemsTell(source, run, dry, origin, s.p.items, start + k + 1))
            && (s.Broke? ==> s.position == start + k
                             && (s.raw.Some? ==> s.raw.value == KeyOf(run, source[start + k])))
  {
    hide PassOne, Pass, ItemsMatch, SumAttempts, StoreRaw, MarkItems, OthersKept, OwnItems, ItemsTell, ItemTells,
         OutcomeStatus, LinksInRange;
    var n := start + k;
    var rec, raw := source[n], KeyOf(run, source[n]);
    var s := ProcessOne(run, dry, p, rec, n, fault);
    PassStep(run, dry, origin, source, n);
    if rec.raw.RawOk? {
      StoreKeepsItems(source, run, p.items, n);
      StoreKeepsOthers(p.items, raw, n);
      var stored := StoreRaw(p.items, raw, n).value;
      OthersStillTell(source, run, dry, origin, p.items, stored, n, n);
      if s.Going? {
        var v := PassOne(run, dry, p.world, rec).value;
        MarkedTells(source, run, dry, origin, stored, n, p.world, v);
        MarkKeepsOthers(stored, raw, OutcomeStatus(p.world, v));
        OthersStillTell(source, run, dry, origin, stored, s.p.items, n, n);
        TellsOneMore(source, run, dry, origin, s.p.items, n);
      }
    } else if s.Going? {
      TellsOneMore(source, run, dry, origin, s.p.items, n);
    }
  }

  lemma {:induction false} ItemsInLoop(source: seq<Record>, run: nat, dry: bool, origin: World, attempts: nat,
                                       start: nat, recs: seq<Record>, p: Progress, faults: seq<Fault>, k: nat)
    requires LinksInRange(origin.content) && LinksInRange(p.world.content) && OwnItems(source, run)
    requires k <= |recs| && start + |recs| <= |source| && recs == source[start..start + |recs|]
    requires LoopOk(source, run, dry, origin, attempts, start, 0, Going(p))
    requires ItemsTell(source, run, dry, origin, p.items, start)
    ensures var s := Process(run, dry, p, recs, start, faults, k);
            && ItemsTell(source, run, dry, origin, s.p.items, start)
            && (s.Going? ==> ItemsTell(source, run, dry, origin, s.p.items, start + k))
            && (s.Broke? ==>
                  && start <= s.position < start + k
                  && ItemsTell(source, run, dry, origin, s.p.items, s.position)
                  && (s.raw.Some? ==> s.raw.value == KeyOf(run, source[s.position])))
  {
    hide PassOne, ProcessOne, Pass, ItemsMatch, SumAttempts, OwnItems, ItemsTell, LinksInRange;
    if k > 0 {
      ItemsInLoop(source, run, dry, origin, attempts, start, recs, p, faults, k - 1);
      var s := Process(run, dry, p, recs, start, faults, k - 1);
      if s.Going? {
        ProcessOk(source, run, dry, origin, attempts, start, recs, p, faults, k - 1);
        assert recs[k - 1] == source[start + k - 1];
        ItemsInOne(source, run, dry, origin, attempts, start, k - 1, s.p, FaultAt(faults, k - 1));
        var next := Process(run, dry, p, recs, start, faults, k);
        TellsFewer(source, run, dry, origin, next.p.items, start, start + k - 1);
      }
    }
  }

  lemma ItemsInFailure(source: seq<Record>, origin: World, run: Run, s: LoopState, env: Env)
    requires LinksInRange(origin.content) && OwnItems(source, run.id) && s.Broke?
    requires run.cursor <= s.position < |source|
    requires ItemsTell(source, run.id, run.dry, origin, s.p.items, s.position)
    requires s.raw.Some? ==> s.raw.value == KeyOf(run.id, source[s.position])
    ensures var next := HandleFailure(run, s.p, s.position, s.raw, env);
            next.run.cursor <= |source| && ItemsTell(source, run.id, run.dry, origin, next.items, next.run.cursor)
  {
    hide OwnItems, ItemsTell, FailItems, FailureIsFinal, LinksInRange, OthersKept;
    var next := HandleFailure(run, s.p, s.position, s.raw, env);
    if s.raw.Some? {
      FailKeepsOthers(s.p.items, s.raw.value);
      OthersStillTell(source, run.id, run.dry, origin, s.p.items, FailItems(s.p.items, s.raw.value), s.position, s.position);
    }
    TellsFewer(source, run.id, run.dry, origin, next.items, next.run.cursor, s.position);
  }

  lemma ItemsInWork(source: seq<Record>, adapter: Adapter, origin: World, db: DB, env: Env)
    requires Inv(source, origin, db) && db.run.Claimable() && OwnItems(source, db.run.id)
    requires ItemsTell(source, db.run.id, db.run.dry, origin, db.items, db.run.cursor)
    ensures var next := Work(source, adapter, db, db.run.Claimed(), env);
            next.run.cursor <= |source|
            && ItemsTell(source, db.run.id, db.run.dry, origin, next.items, next.run.cursor)
  {
    hide Process, Pass, FetchFrom, ItemsMatch, SumAttempts, LinksInRange, EndStatus, ItemsTell, OwnItems, HandleFailure;
    var run := db.run.Claimed();
    var f := ReadBy(source, adapter, db.run, env);
    var todo := f.records[..Min(run.batchSize, |f.records|)];
    TodoIsSlice(source, adapter, run, env);
    var p := Progress(World(db.content, run.counters.tally), run.counters.fetched, db.items);
    ItemsInLoop(source, run.id, run.dry, origin, db.run.attempts, run.cursor, todo, p, env.faults, |todo|);
    var s := Process(run.id, run.dry, p, todo, run.cursor, env.faults, |todo|);
    if s.Broke? { ItemsInFailure(source, origin, run, s, env); }
  }

  /**
    In every state of a run over records with keys of their own, each readable record before the
    cursor has an item, at its position, that says rejected if the record was quarantined and
    completed if it was accepted; no failure of a later record changes that.
   */
  lemma {:induction false} ItemsTellOutcomes(source: seq<Record>, adapter: Adapter, db: DB, envs: seq<Env>)
    requires Fresh(db) && OwnItems(source, db.run.id)
    ensures var end := RunMany(source, adapter, db, envs);
            && end.run.cursor <= |source|
            && ItemsTell(source, db.run.id, db.run.dry, World(db.content, NO_TALLY), end.items, end.run.cursor)
  {
    hide Work, Pass, ItemsMatch, SumAttempts, ItemTells, OwnItems;
    if envs != [] {
      var front, env := envs[..|envs| - 1], envs[|envs| - 1];
      var origin := World(db.content, NO_TALLY);
      ItemsTellOutcomes(source, adapter, db, front);
      FreshHasInv(source, db);
      RunManyKeepsInv(source, adapter, origin, db, front);
      var before := RunMany(source, adapter, db, front);
      hide ItemsTell;
      if before.run.Claimable() { ItemsInWork(source, adapter, origin, before, env); }
    }
  }

  /******* Dead letters *******/

  /** No item has used up its three failures. */
  ghost predicate AllRetryable(items: seq<Item>) {
    forall i | 0 <= i < |items| :: items[i].attempts < 3 && items[i].status != DeadLetter
  }

  ghost predicate DeadAtThree(items: seq<Item>) {
    forall i | 0 <= i < |items| :: items[i].status == DeadLetter <==> items[i].attempts >= 3
  }

  lemma RetryableInOne(run: nat, dry: bool, p: Progress, rec: Record, position: nat, fault: Fault)
    requires LinksInRange(p.world.content) && AllRetryable(p.items)
    ensures AllRetryable(ProcessOne(run, dry, p, rec, position, fault).p.items)
  {
    hide PassOne, LinksInRange;
  }

  lemma {:induction false} RetryableInLoop(run: nat, dry: bool, p: Progress, recs: seq<Record>, start: nat,
                                           faults: seq<Fault>, k: nat)
    requires LinksInRange(p.world.content) && AllRetryable(p.items) && k <= |recs|
    ensures AllRetryable(Process(run, dry, p, recs, start, faults, k).p.items)
  {
    hide ProcessOne, AllRetryable, LinksInRange;
    if k > 0 {
      RetryableInLoop(run, dry, p, recs, start, faults, k - 1);
      var s := Process(run, dry, p, recs, start, faults, k - 1);
      if s.Going? { RetryableInOne(run, dry, s.p, recs[k - 1], start + k - 1, FaultAt(faults, k - 1)); }
    }
  }

  lemma FailedAtThree(items: seq<Item>, raw: RawKey)
    requires AllRetryable(items)
    ensures DeadAtThree(FailItems(items, raw))
    ensures !FailureIsFinal(items, raw) ==> AllRetryable(FailItems(items, raw))
  {
  }

  lemma RetryableIsNotDead(items: seq<Item>)
    requires AllRetryable(items)
    ensures DeadAtThree(items)
  {
  }

  lemma RetryableInWork(source: seq<Record>, adapter: Adapter, db: DB, run: Run, env: Env)
    requires LinksInRange(db.content) && AllRetryable(db.items) && run.status == Running
    ensures var next := Work(source, adapter, db, run, env);
            DeadAtThree(next.items) && (next.run.Claimable() ==> AllRetryable(next.items))
  {
    hide Process, FetchFrom, LinksInRange, AllRetryable, DeadAtThree, FailItems, FailureIsFinal;
    var f := FetchFrom(Available(source, run.cursor), run.batchSize + 1, env.attempts, 0, adapter.maxRetries);
    var todo := f.records[..Min(run.batchSize, |f.records|)];
    var p := Progress(World(db.content, run.counters.tally), run.counters.fetched, db.items);
    RetryableInLoop(run.id, run.dry, p, todo, run.cursor, env.faults, |todo|);
    var s := Process(run.id, run.dry, p, todo, run.cursor, env.faults, |todo|);
    RetryableIsNotDead(s.p.items);
    if s.Broke? && s.raw.Some? { FailedAtThree(s.p.items, s.raw.value); }
  }

  /**
    In every state of a run an item is dead-lettered exactly when three failures were charged to it,
    and a run that can still be claimed has no such item.
   */
  lemma {:induction false} ThirdFailureIsFinal(source: seq<Record>, adapter: Adapter, db: DB, envs: seq<Env>)
    requires Fresh(db)
    ensures var end := RunMany(source, adapter, db, envs);
            && (forall i | 0 <= i < |end.items| :: end.items[i].status == DeadLetter <==> end.items[i].attempts >= 3)
            && (end.run.Claimable() ==> forall i | 0 <= i < |end.items| :: end.items[i].attempts < 3)
  {
    hide Work;
    if envs != [] {
      var before := RunMany(source, adapter, db, envs[..|envs| - 1]);
      ThirdFailureIsFinal(source, adapter, db, envs[..|envs| - 1]);
      if before.run.Claimable() { RetryableInWork(source, adapter, before, before.run.Claimed(), envs[|envs| - 1]); }
    }
  }

  /******* Which failures are charged *******/

  /** Items are only added, and of all of them only that of the given record is charged one failure. */
  ghost predicate ChargesOnly(before: seq<Item>, after: seq<Item>, key: Option<RawKey>) {
    && |before| <= |after|
    && forall i | 0 <= i < |after| ::
         && (i < |before| ==> after[i].raw == before[i].raw)
         && after[i].attempts == (if i < |before| then before[i].attempts else 0)
                                 + if key == Some(after[i].raw) then 1 else 0
  }

  lemma OneChargesNothing(run: nat, dry: bool, p: Progress, rec: Record, position: nat, fault: Fault, before: seq<Item>)
    requires LinksInRange(p.world.content) && ChargesOnly(before, p.items, None)
    ensures ChargesOnly(before, ProcessOne(run, dry, p, rec, position, fault).p.items, None)
  {
    hide PassOne, LinksInRange;
  }

  lemma {:induction false} LoopChargesNothing(run: nat, dry: bool, p: Progress, recs: seq<Record>, start: nat,
                                              faults: seq<Fault>, k: nat)
    requires LinksInRange(p.world.content) && k <= |recs|
    ensures ChargesOnly(p.items, Process(run, dry, p, recs, start, faults, k).p.items, None)
  {
    hide ProcessOne, LinksInRange;
    if k > 0 {
      LoopChargesNothing(run, dry, p, recs, start, faults, k - 1);
      hide ChargesOnly;
      var s := Process(run, dry, p, recs, start, faults, k - 1);
      if s.Going? { OneChargesNothing(run, dry, s.p, recs[k - 1], start + k - 1, FaultAt(faults, k - 1), p.items); }
    }
  }

  lemma FailItemsCharges(before: seq<Item>, items: seq<Item>, raw: RawKey)
    requires ChargesOnly(before, items, None)
    ensures ChargesOnly(before, FailItems(items, raw), Some(raw))
  {
  }

  /** Without a fault a readable record that breaks the loop has an item by then. */
  lemma BrokenHasItem(source: seq<Record>, run: nat, dry: bool, p: Progress, position: nat)
    requires LinksInRange(p.world.content) && ItemsMatch(source, run, p.items) && position < |source|
    requires ProcessOne(run, dry, p, source[position], position, NoFault).Broke?
    ensures var s := ProcessOne(run, dry, p, source[position], position, NoFault);
            s.raw == Some(KeyOf(run, source[position])) && HasItem(s.p.items, KeyOf(run, source[position]))
  {
    hide PassOne, LinksInRange;
    var rec := source[position];
    OwnItemIsStored(source, run, p.items, position);
    StoredHasItem(p.items, KeyOf(run, rec), position);
  }

  lemma OwnItemIsStored(source: seq<Record>, run: nat, items: seq<Item>, position: nat)
    requires ItemsMatch(source, run, items) && position < |source|
    ensures StoreRaw(items, KeyOf(run, source[position]), position).Some?
  {
    if i :| 0 <= i < |items| && items[i].position == position {
      assert items[i].raw == KeyOf(run, source[position]);
    }
  }

  lemma StoredHasItem(items: seq<Item>, raw: RawKey, position: nat)
    requires StoreRaw(items, raw, position).Some?
    ensures HasItem(StoreRaw(items, raw, position).value, raw)
  {
    var stored := StoreRaw(items, raw, position).value;
    if !HasItem(items, raw) { assert stored[|items|].raw == raw; }
  }

  lemma FailedKeepRaw(items: seq<Item>, raw: RawKey)
    requires HasItem(items, raw)
    ensures HasItem(FailItems(items, raw), raw)
  {
    var i :| 0 <= i < |items| && items[i].raw == raw;
    assert FailItems(items, raw)[i].raw == raw;
  }

  /** How the loop of such a claim stands when it stops. */
  lemma LoopBreaksAt(source: seq<Record>, adapter: Adapter, origin: World, db: DB, env: Env, k: nat)
    requires Inv(source, origin, db) && db.run.Claimable() && db.run.adapter == adapter.id && OnlyFetchesFail(env)
    requires PassesUpTo(db.run.id, db.run.dry, World(db.content, db.run.counters.tally),
                        TakenRecords(source, adapter, db.run, env), k)
    requires k < |TakenRecords(source, adapter, db.run, env)|
    requires !TakenRecords(source, adapter, db.run, env)[k].raw.RawCrash?
    ensures var recs := TakenRecords(source, adapter, db.run, env);
            var p := Progress(World(db.content, db.run.counters.tally), db.run.counters.fetched, db.items);
            var s := Process(db.run.id, db.run.dry, p, recs, db.run.cursor, [], |recs|);
            && s.Broke? && s.raw == Some(KeyOf(db.run.id, recs[k])) && HasItem(s.p.items, KeyOf(db.run.id, recs[k]))
  {
    hide Pass, FetchFrom, ItemsMatch, SumAttempts, LinksInRange, FailItems, FailureIsFinal, CrashReached, ProcessOne, HasItem;
    var run := db.run;
    var recs := TakenRecords(source, adapter, run, env);
    TodoIsSlice(source, adapter, run, env);
    var w := World(db.content, run.counters.tally);
    var p := Progress(w, run.counters.fetched, db.items);
    CalmLoop(source, run.id, run.dry, p, recs, run.cursor, k);
    CalmLoop(source, run.id, run.dry, p, recs, run.cursor, k + 1);
    CrashesOnlyAt(run.id, run.dry, w, recs, k);
    StoppedStays(run.id, run.dry, p, recs, run.cursor, [], k + 1, |recs|);
    assert recs[k] == source[run.cursor + k];
    BrokenHasItem(source, run.id, run.dry, Process(run.id, run.dry, p, recs, run.cursor, [], k).p, run.cursor + k);
  }

  /**
    A claim that is only interrupted and meets a readable record that does not get through charges
    that record's item one failure, and no other item any.
   */
  lemma FailureIsCharged(source: seq<Record>, adapter: Adapter, origin: World, db: DB, env: Env, k: nat)
    requires Inv(source, origin, db) && db.run.Claimable()
    requires adapter.Approved() && db.run.adapter == adapter.id && OnlyFetchesFail(env)
    requires PassesUpTo(db.run.id, db.run.dry, World(db.content, db.run.counters.tally),
                        TakenRecords(source, adapter, db.run, env), k)
    requires k < |TakenRecords(source, adapter, db.run, env)|
    requires !TakenRecords(source, adapter, db.run, env)[k].raw.RawCrash?
    ensures var key := KeyOf(db.run.id, TakenRecords(source, adapter, db.run, env)[k]);
            var next := RunBatch(source, adapter, db, env);
            ChargesOnly(db.items, next.items, Some(key)) && HasItem(next.items, key)
  {
    hide Process, Pass, FetchFrom, ItemsMatch, SumAttempts, LinksInRange, FailItems, FailureIsFinal, PassesUpTo,
         ChargesOnly, HasItem;
    LoopBreaksAt(source, adapter, origin, db, env, k);
    var recs := TakenRecords(source, adapter, db.run, env);
    var p := Progress(World(db.content, db.run.counters.tally), db.run.counters.fetched, db.items);
    LoopChargesNothing(db.run.id, db.run.dry, p, recs, db.run.cursor, [], |recs|);
    var items, key := Process(db.run.id, db.run.dry, p, recs, db.run.cursor, [], |recs|).p.items, KeyOf(db.run.id, recs[k]);
    FailItemsCharges(db.items, items, key);
    FailedKeepRaw(items, key);
  }

  /******* Who may claim what *******/

  /** The source has permitted fetching, its robots file allows it, and the adapter stays within the limits. */
  predicate MayFetch(adapter: Adapter) {
    && adapter.permissionGranted && adapter.robotsAllowed && adapter.knownAgent
    && adapter.timeoutSeconds > 0.0 && adapter.timeoutSeconds <= 60.0 && adapter.maxRetries < 6
  }

  /**
    A call claims the run exactly when the adapter may fetch, the claim is committed and the run is
    queued or partial; it is charged an attempt then, and nothing at all changes otherwise. A run of
    another adapter or version is claimed too, but only to fail.
   */
  lemma ClaimsExactly(source: seq<Record>, adapter: Adapter, db: DB, env: Env)
    requires LinksInRange(db.content)
    ensures var next := RunBatch(source, adapter, db, env);
            if MayFetch(adapter) && !env.claimFails && db.run.status in {Queued, Partial} then
              && next.run.attempts == db.run.attempts + 1
              && next.run.id == db.run.id && next.run.batchSize == db.run.batchSize && next.run.dry == db.run.dry
              && (db.run.adapter != adapter.id ==>
                    && next.content == db.content && next.items == db.items
                    && next.run.cursor == db.run.cursor && next.run.counters == db.run.counters
                    && next.run.status == if env.advanceFails then Running else Failed)
            else next == db
  {
    hide Process, FetchFrom, EndStatus, LinksInRange, FailItems, FailureIsFinal;
  }

  /******* Rejected records *******/

  /** Only a report is added: with the rejection's code and summary, and with the raw record if there is one. */
  ghost predicate OnlyReported(before: World, after: World, run: nat, rec: Record, stored: bool, code: string, summary: string) {
    && after.content == before.content.(quarantine := after.content.quarantine)
    && before.content.quarantine <= after.content.quarantine
    && |after.content.quarantine| == |before.content.quarantine| + 1
    && var report := after.content.quarantine[|before.content.quarantine|];
       && report.run == run && report.code == code && report.summary == summary && report.candidates == {}
       && (stored ==> report.raw.Some? && report.raw.value.run == run
                      && report.raw.value.recordId == rec.recordId && report.raw.value.digest == rec.digest)
       && (!stored ==> report.raw.None?)
  }

  /** A rejected record is reported and counted as rejected, dry run or not, and nothing else changes. */
  lemma RejectionIsReported(run: nat, dry: bool, w: World, rec: Record)
    requires LinksInRange(w.content)
    ensures rec.raw.RawRejected? ==>
              && PassOne(run, dry, w, rec).Some?
              && OnlyReported(w, PassOne(run, dry, w, rec).value, run, rec, false, rec.raw.code, rec.raw.summary)
              && PassOne(run, dry, w, rec).value.tally == w.tally.(rejected := w.tally.rejected + 1)
    ensures rec.raw.RawOk? && rec.norm.NormRejected? ==>
              && PassOne(run, dry, w, rec).Some?
              && OnlyReported(w, PassOne(run, dry, w, rec).value, run, rec, true, rec.norm.code, rec.norm.summary)
              && PassOne(run, dry, w, rec).value.tally == w.tally.(rejected := w.tally.rejected + 1)
  {
    hide LinksInRange, Apply;
  }

  /** An accepted record is counted under the outcome it was told, and nowhere else. */
  lemma OutcomeIsCounted(run: nat, dry: bool, w: World, rec: Record)
    requires LinksInRange(w.content) && rec.raw.RawOk? && rec.norm.NormOk? && PassOne(run, dry, w, rec).Some?
    ensures var r, after := Apply(w.content, run, KeyOf(run, rec), rec.norm.n, dry), PassOne(run, dry, w, rec).value;
            && r == Applied(after.content, r.outcome)
            && after.tally.created == w.tally.created + (if r.outcome == Created then 1 else 0)
            && after.tally.updated == w.tally.updated + (if r.outcome == Updated then 1 else 0)
            && after.tally.untouched == w.tally.untouched + (if r.outcome == Unchanged then 1 else 0)
            && after.tally.duplicates == w.tally.duplicates + (if r.outcome == Duplicate then 1 else 0)
            && after.tally.rejected == w.tally.rejected
  {
    hide LinksInRange, Apply;
  }
}
