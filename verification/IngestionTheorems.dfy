/** What every ingestion run keeps, whatever the adversary does. */
module IngestionTheorems {
  import opened Prelude
  import opened Catalogue
  import opened IngestionRuns

  /******* The invariant of a run *******/

  function SumAttempts(items: seq<Item>): nat {
    if items == [] then 0 else SumAttempts(items[..|items| - 1]) + items[|items| - 1].attempts
  }

  /** Every item sits at a position that holds its record; no record has two items. */
  ghost predicate ItemsMatch(source: seq<Record>, run: nat, items: seq<Item>) {
    && (forall i | 0 <= i < |items| ::
          && items[i].position < |source|
          && items[i].raw == KeyOf(run, source[items[i].position])
          && (items[i].status == DeadLetter ==> items[i].attempts >= 3))
    && (forall i, j | 0 <= i < j < |items| :: items[i].raw != items[j].raw)
  }

  /** The tables hold exactly what one pass over the records before the cursor leaves. */
  ghost predicate UpToCursor(source: seq<Record>, origin: World, db: DB) {
    && db.run.cursor <= |source|
    && LinksInRange(origin.content)
    && Pass(db.run.id, db.run.dry, origin, source[..db.run.cursor])
       == Some(World(db.content, db.run.counters.tally))
  }

  ghost predicate Inv(source: seq<Record>, origin: World, db: DB) {
    && LinksInRange(origin.content) && LinksInRange(db.content)
    && db.run.batchSize >= 1
    && db.run.cursor <= |source|
    && ItemsMatch(source, db.run.id, db.items)
    && SumAttempts(db.items) <= db.run.attempts <= |source| + 3
    && (db.run.status != Running ==> UpToCursor(source, origin, db))
    && (db.run.status == Completed ==> db.run.cursor == |source|)
    && (db.run.Claimable() ==> db.run.attempts <= db.run.cursor + 2)
  }

  ghost predicate Fresh(db: DB) {
    && LinksInRange(db.content)
    && db.items == []
    && db.run.batchSize >= 1
    && db.run.status == Queued
    && db.run.cursor == 0 && db.run.attempts == 0
    && db.run.counters == Counters(0, NO_TALLY)
  }

  ghost predicate SameRun(a: Run, b: Run) {
    a.id == b.id && a.adapter == b.adapter && a.dry == b.dry && a.batchSize == b.batchSize
  }

  /******* Items *******/

  lemma {:induction false} SumOfMarked(items: seq<Item>, raw: RawKey, status: ItemStatus)
    ensures SumAttempts(MarkItems(items, raw, status)) == SumAttempts(items)
  {
    if items != [] {
      var last := |items| - 1;
      SumOfMarked(items[..last], raw, status);
      assert MarkItems(items, raw, status)[..last] == MarkItems(items[..last], raw, status);
    }
  }

  lemma {:induction false} SumOfFailed(items: seq<Item>, raw: RawKey)
    requires forall i, j | 0 <= i < j < |items| :: items[i].raw != items[j].raw
    ensures SumAttempts(FailItems(items, raw))
            == SumAttempts(items) + if HasItem(items, raw) then 1 else 0
  {
    if items != [] {
      var last := |items| - 1;
      SumOfFailed(items[..last], raw);
      assert FailItems(items, raw)[..last] == FailItems(items[..last], raw);
      if items[last].raw == raw {
        assert !HasItem(items[..last], raw);
      } else if HasItem(items, raw) {
        var i :| 0 <= i < |items| && items[i].raw == raw;
        assert items[..last][i].raw == raw;
      } else {
        assert forall i | 0 <= i < last :: items[..last][i] == items[i];
      }
    }
  }

  lemma {:induction false} AttemptsOfOneItem(items: seq<Item>, i: nat)
    requires i < |items|
    ensures items[i].attempts <= SumAttempts(items)
  {
    if i < |items| - 1 {
      AttemptsOfOneItem(items[..|items| - 1], i);
    }
  }

  lemma StoreKeepsItems(source: seq<Record>, run: nat, items: seq<Item>, position: nat)
    requires ItemsMatch(source, run, items) && position < |source|
    ensures var stored := StoreRaw(items, KeyOf(run, source[position]), position);
            stored.Some? && ItemsMatch(source, run, stored.value)
            && SumAttempts(stored.value) == SumAttempts(items)
  {
    var raw := KeyOf(run, source[position]);
    if !HasItem(items, raw) {
      var stored := items + [Item(raw, position, 0, Pending)];
      assert stored[..|items|] == items;
    }
  }

  lemma FailKeepsItems(source: seq<Record>, run: nat, items: seq<Item>, raw: RawKey)
    requires ItemsMatch(source, run, items)
    ensures ItemsMatch(source, run, FailItems(items, raw))
    ensures SumAttempts(FailItems(items, raw)) <= SumAttempts(items) + 1
  {
    SumOfFailed(items, raw);
  }

  lemma MarkKeepsItems(source: seq<Record>, run: nat, items: seq<Item>, raw: RawKey, status: ItemStatus)
    requires ItemsMatch(source, run, items) && status != DeadLetter
    ensures ItemsMatch(source, run, MarkItems(items, raw, status))
    ensures SumAttempts(MarkItems(items, raw, status)) == SumAttempts(items)
  {
    SumOfMarked(items, raw, status);
  }

  /******* The pass *******/

  lemma PassStep(run: nat, dry: bool, origin: World, source: seq<Record>, k: nat)
    requires LinksInRange(origin.content) && k < |source|
    ensures Pass(run, dry, origin, source[..k + 1])
            == match Pass(run, dry, origin, source[..k])
               case None => None
               case Some(v) => PassOne(run, dry, v, source[k])
  {
    assert source[..k + 1][..k] == source[..k];
  }

  lemma {:induction false} PassPrefix(run: nat, dry: bool, origin: World, source: seq<Record>, k: nat)
    requires LinksInRange(origin.content) && k <= |source|
    requires Pass(run, dry, origin, source).Some?
    ensures Pass(run, dry, origin, source[..k]).Some?
  {
    if k == |source| {
      assert source[..k] == source;
    } else {
      assert source == source[..|source|];
      PassStep(run, dry, origin, source, |source| - 1);
      PassPrefix(run, dry, origin, source[..|source| - 1], k);
      assert source[..|source| - 1][..k] == source[..k];
    }
  }

  lemma PassOneConserves(run: nat, dry: bool, w: World, rec: Record)
    requires LinksInRange(w.content) && PassOne(run, dry, w, rec).Some?
    ensures var v := PassOne(run, dry, w, rec).value;
            && v.tally.Total() == w.tally.Total() + 1
            && |v.content.quarantine| + w.tally.duplicates + w.tally.rejected
               == |w.content.quarantine| + v.tally.duplicates + v.tally.rejected
  {
    hide Apply;
    if rec.raw.RawOk? && rec.norm.NormOk? {
      ApplyQuarantines(w.content, run, KeyOf(run, rec), rec.norm.n, dry);
    }
  }

  /** Every record is accounted for once; a quarantine row exists for each duplicate and rejection. */
  lemma {:induction false} PassConserves(run: nat, dry: bool, origin: World, recs: seq<Record>)
    requires LinksInRange(origin.content) && Pass(run, dry, origin, recs).Some?
    ensures var v := Pass(run, dry, origin, recs).value;
            && v.tally.Total() == origin.tally.Total() + |recs|
            && |v.content.quarantine| + origin.tally.duplicates + origin.tally.rejected
               == |origin.content.quarantine| + v.tally.duplicates + v.tally.rejected
  {
    hide PassOne;
    if recs != [] {
      PassConserves(run, dry, origin, recs[..|recs| - 1]);
      PassOneConserves(run, dry, Pass(run, dry, origin, recs[..|recs| - 1]).value, recs[|recs| - 1]);
    }
  }

  /******* One claim *******/

  /** Fetching yields the next records in order; without an error it yields all there is room for. */
  lemma {:induction false} FetchIsPrefix(available: seq<Record>, maximum: nat, attempts: seq<Attempt>,
                                         i: nat, last: nat)
    requires i <= last
    ensures var f := FetchFrom(available, maximum, attempts, i, last);
            && |f.records| <= |available|
            && f.records == available[..|f.records|]
            && (f.error.None? ==> |f.records| == Min(maximum, |available|))
            && (f.error.Some? ==> |f.records| < maximum)
    decreases last - i
  {
    var once := FetchOnce(available, maximum, AttemptAt(attempts, i));
    if once.error == Some(FetchFailed) && i < last {
      FetchIsPrefix(available, maximum, attempts, i + 1, last);
    }
  }

  ghost predicate LoopOk(source: seq<Record>, run: nat, dry: bool, origin: World, attempts: nat,
                         start: nat, k: nat, s: LoopState)
    requires LinksInRange(origin.content) && start + k <= |source|
  {
    && ItemsMatch(source, run, s.p.items)
    && SumAttempts(s.p.items) <= attempts
    && (s.Going? ==> Pass(run, dry, origin, source[..start + k]) == Some(s.p.world))
    && (s.Broke? ==>
          && start <= s.position < start + k
          && Pass(run, dry, origin, source[..s.position]) == Some(s.p.world))
  }

  lemma ProcessOneOk(source: seq<Record>, run: nat, dry: bool, origin: World, attempts: nat,
                     start: nat, k: nat, p: Progress, fault: Fault)
    requires LinksInRange(origin.content) && LinksInRange(p.world.content)
    requires start + k < |source|
    requires LoopOk(source, run, dry, origin, attempts, start, k, Going(p))
    ensures LoopOk(source, run, dry, origin, attempts, start, k + 1,
                   ProcessOne(run, dry, p, source[start + k], start + k, fault))
  {
    hide PassOne;
    hide Pass;
    hide ItemsMatch;
    hide SumAttempts;
    hide StoreRaw;
    hide MarkItems;
    var rec := source[start + k];
    PassStep(run, dry, origin, source, start + k);
    if rec.raw.RawOk? {
      StoreKeepsItems(source, run, p.items, start + k);
      var stored := StoreRaw(p.items, KeyOf(run, rec), start + k).value;
      MarkKeepsItems(source, run, stored, KeyOf(run, rec), ItemRejected);
      MarkKeepsItems(source, run, stored, KeyOf(run, rec), ItemCompleted);
    }
  }

  lemma {:induction false} ProcessOk(source: seq<Record>, run: nat, dry: bool, origin: World, attempts: nat,
                                     start: nat, recs: seq<Record>, p: Progress, faults: seq<Fault>, k: nat)
    requires LinksInRange(origin.content) && LinksInRange(p.world.content)
    requires k <= |recs| && start + |recs| <= |source| && recs == source[start..start + |recs|]
    requires LoopOk(source, run, dry, origin, attempts, start, 0, Going(p))
    ensures LoopOk(source, run, dry, origin, attempts, start, k,
                   Process(run, dry, p, recs, start, faults, k))
  {
    hide PassOne;
    hide ProcessOne;
    hide Pass;
    hide ItemsMatch;
    if k > 0 {
      ProcessOk(source, run, dry, origin, attempts, start, recs, p, faults, k - 1);
      var s := Process(run, dry, p, recs, start, faults, k - 1);
      if s.Going? {
        ProcessOneOk(source, run, dry, origin, attempts, start, k - 1, s.p, FaultAt(faults, k - 1));
      }
    }
  }

  /** The records a claim works on, as a slice of the source. */
  lemma TodoIsSlice(source: seq<Record>, adapter: Adapter, run: Run, env: Env)
    requires run.cursor <= |source|
    ensures var f := FetchFrom(Available(source, run.cursor), run.batchSize + 1, env.attempts,
                               0, adapter.maxRetries);
            var todo := f.records[..Min(run.batchSize, |f.records|)];
            && run.cursor + |todo| <= |source|
            && todo == source[run.cursor..run.cursor + |todo|]
            && (f.error.None? && |f.records| <= run.batchSize ==> run.cursor + |todo| == |source|)
            && (f.error.None? && |f.records| > run.batchSize ==> |todo| == run.batchSize)
            && (f.error.Some? ==> todo == f.records)
  {
    var available := Available(source, run.cursor);
    FetchIsPrefix(available, run.batchSize + 1, env.attempts, 0, adapter.maxRetries);
    var f := FetchFrom(available, run.batchSize + 1, env.attempts, 0, adapter.maxRetries);
    var k := Min(run.batchSize, |f.records|);
    hide FetchFrom;
    assert f.records[..k] == available[..k];
    assert available[..k] == source[run.cursor..run.cursor + k];
    assert f.records[..|f.records|] == f.records;
  }

  lemma WorkKeepsInv(source: seq<Record>, adapter: Adapter, origin: World, db: DB, env: Env)
    requires Inv(source, origin, db) && db.run.Claimable()
    ensures Inv(source, origin, Work(source, adapter, db, db.run.Claimed(), env))
  {
    hide Process;
    hide Pass;
    hide FetchFrom;
    hide ItemsMatch;
    hide SumAttempts;
    hide LinksInRange;
    hide FailItems;
    var run := db.run.Claimed();
    var f := FetchFrom(Available(source, run.cursor), run.batchSize + 1, env.attempts,
                       0, adapter.maxRetries);
    var todo := f.records[..Min(run.batchSize, |f.records|)];
    TodoIsSlice(source, adapter, run, env);
    var p := Progress(World(db.content, run.counters.tally), run.counters.fetched, db.items);
    ProcessOk(source, run.id, run.dry, origin, db.run.attempts, run.cursor, todo, p, env.faults, |todo|);
    var s := Process(run.id, run.dry, p, todo, run.cursor, env.faults, |todo|);
    if s.Broke? && s.raw.Some? {
      FailKeepsItems(source, run.id, s.p.items, s.raw.value);
    }
  }

  lemma WorkKeepsRun(source: seq<Record>, adapter: Adapter, db: DB, run: Run, env: Env)
    requires LinksInRange(db.content)
    ensures SameRun(run, Work(source, adapter, db, run, env).run)
    ensures Work(source, adapter, db, run, env).run.attempts == run.attempts
  {
    hide Process;
    hide FetchFrom;
    hide LinksInRange;
    hide FailItems;
  }

  lemma RunBatchKeepsInv(source: seq<Record>, adapter: Adapter, origin: World, db: DB, env: Env)
    requires Inv(source, origin, db)
    ensures Inv(source, origin, RunBatch(source, adapter, db, env))
    ensures SameRun(db.run, RunBatch(source, adapter, db, env).run)
  {
    hide Work;
    hide Pass;
    hide ItemsMatch;
    hide SumAttempts;
    hide LinksInRange;
    if db.run.Claimable() {
      WorkKeepsInv(source, adapter, origin, db, env);
      WorkKeepsRun(source, adapter, db, db.run.Claimed(), env);
    }
  }

  lemma {:induction false} RunManyKeepsInv(source: seq<Record>, adapter: Adapter, origin: World, db: DB,
                                           envs: seq<Env>)
    requires Inv(source, origin, db)
    ensures Inv(source, origin, RunMany(source, adapter, db, envs))
    ensures SameRun(db.run, RunMany(source, adapter, db, envs).run)
  {
    hide Pass;
    hide ItemsMatch;
    hide RunBatch;
    if envs != [] {
      RunManyKeepsInv(source, adapter, origin, db, envs[..|envs| - 1]);
      RunBatchKeepsInv(source, adapter, origin,
                       RunMany(source, adapter, db, envs[..|envs| - 1]), envs[|envs| - 1]);
    }
  }

  lemma FreshHasInv(source: seq<Record>, db: DB)
    requires Fresh(db)
    ensures Inv(source, World(db.content, NO_TALLY), db)
  {
  }

  /******* The main results *******/

  /**
    However a run is cut into batches, interrupted, and made to fail, completing it leaves the
    catalogue, its history, the quarantine and the outcome counters of one pass over the source.
   */
  lemma CompletedRunIsOnePass(source: seq<Record>, adapter: Adapter, db: DB, envs: seq<Env>)
    requires Fresh(db)
    ensures var end := RunMany(source, adapter, db, envs);
            end.run.status == Completed ==>
              && end.run.cursor == |source|
              && Pass(db.run.id, db.run.dry, World(db.content, NO_TALLY), source)
                 == Some(World(end.content, end.run.counters.tally))
  {
    FreshHasInv(source, db);
    RunManyKeepsInv(source, adapter, World(db.content, NO_TALLY), db, envs);
    assert source[..|source|] == source;
  }

  /******* Where a run is, also when it is stuck *******/

  /** The catalogue holds what the pass over the first `k` records leaves. */
  ghost predicate ContentAt(source: seq<Record>, run: Run, origin: World, content: Content, k: nat)
    requires LinksInRange(origin.content)
  {
    && k <= |source|
    && Pass(run.id, run.dry, origin, source[..k]).Some?
    && Pass(run.id, run.dry, origin, source[..k]).value.content == content
  }

  /** The counters are the pass's at the cursor; the tables may be ahead of them. */
  ghost predicate AtOrPastCursor(source: seq<Record>, origin: World, db: DB)
    requires LinksInRange(origin.content)
  {
    && db.run.cursor <= |source|
    && Pass(db.run.id, db.run.dry, origin, source[..db.run.cursor]).Some?
    && Pass(db.run.id, db.run.dry, origin, source[..db.run.cursor]).value.tally == db.run.counters.tally
    && (exists k: nat | db.run.cursor <= k :: ContentAt(source, db.run, origin, db.content, k))
  }

  /** However the record loop is left, its tables are those of the pass at some record. */
  lemma {:induction false} ProcessReaches(source: seq<Record>, run: nat, dry: bool, origin: World, attempts: nat,
                                          start: nat, recs: seq<Record>, p: Progress, faults: seq<Fault>, k: nat)
    returns (i: nat)
    requires LinksInRange(origin.content) && LinksInRange(p.world.content)
    requires k <= |recs| && start + |recs| <= |source| && recs == source[start..start + |recs|]
    requires LoopOk(source, run, dry, origin, attempts, start, 0, Going(p))
    ensures start <= i <= start + k
    ensures Pass(run, dry, origin, source[..i]) == Some(Process(run, dry, p, recs, start, faults, k).p.world)
  {
    hide PassOne, Pass, ItemsMatch, StoreRaw, MarkItems, SumAttempts;
    ProcessOk(source, run, dry, origin, attempts, start, recs, p, faults, k);
    if k == 0 || Process(run, dry, p, recs, start, faults, k).Going? {
      i := start + k;
    } else {
      i := ProcessReaches(source, run, dry, origin, attempts, start, recs, p, faults, k - 1);
      ProcessOk(source, run, dry, origin, attempts, start, recs, p, faults, k - 1);
      if Process(run, dry, p, recs, start, faults, k - 1).Going? { i := start + k - 1; }
    }
  }

  lemma AtCursor(source: seq<Record>, origin: World, db: DB)
    requires UpToCursor(source, origin, db)
    ensures AtOrPastCursor(source, origin, db)
  {
    hide Pass;
    assert ContentAt(source, db.run, origin, db.content, db.run.cursor);
  }

  /** A state whose run row is still the claimed one. */
  lemma StuckAt(source: seq<Record>, origin: World, db: DB, content: Content, items: seq<Item>, k: nat)
    requires UpToCursor(source, origin, db) && db.run.cursor <= k
    requires ContentAt(source, db.run.Claimed(), origin, content, k)
    ensures AtOrPastCursor(source, origin, DB(content, items, db.run.Claimed()))
  {
    hide Pass, ContentAt;
  }

  lemma WorkKeepsPlace(source: seq<Record>, adapter: Adapter, origin: World, db: DB, env: Env)
    requires Inv(source, origin, db) && db.run.Claimable()
    ensures AtOrPastCursor(source, origin, Work(source, adapter, db, db.run.Claimed(), env))
  {
    hide Process, Pass, FetchFrom, ItemsMatch, SumAttempts, LinksInRange, FailItems, AtOrPastCursor;
    var run := db.run.Claimed();
    var next := Work(source, adapter, db, run, env);
    WorkKeepsInv(source, adapter, origin, db, env);
    if next.run.status != Running {
      AtCursor(source, origin, next);
    } else {
      var f := FetchFrom(Available(source, run.cursor), run.batchSize + 1, env.attempts, 0, adapter.maxRetries);
      var todo := f.records[..Min(run.batchSize, |f.records|)];
      TodoIsSlice(source, adapter, run, env);
      var p := Progress(World(db.content, run.counters.tally), run.counters.fetched, db.items);
      var i := ProcessReaches(source, run.id, run.dry, origin, db.run.attempts, run.cursor, todo, p, env.faults, |todo|);
      StuckAt(source, origin, db, next.content, next.items, i);
    }
  }

  lemma {:induction false} RunManyKeepsPlace(source: seq<Record>, adapter: Adapter, origin: World, db: DB, envs: seq<Env>)
    requires Inv(source, origin, db) && AtOrPastCursor(source, origin, db)
    ensures AtOrPastCursor(source, origin, RunMany(source, adapter, db, envs))
  {
    hide Pass, ItemsMatch, Work, AtOrPastCursor, SumAttempts;
    if envs != [] {
      var front, env := envs[..|envs| - 1], envs[|envs| - 1];
      RunManyKeepsPlace(source, adapter, origin, db, front);
      RunManyKeepsInv(source, adapter, origin, db, front);
      var before := RunMany(source, adapter, db, front);
      if before.run.Claimable() {
        WorkKeepsPlace(source, adapter, origin, before, env);
        RunBatchKeepsInv(source, adapter, origin, before, env);
        var next := RunBatch(source, adapter, before, env);
        if before.run.Claimed().adapter != adapter.id {
          assert UpToCursor(source, origin, before);
          assert ContentAt(source, before.run.Claimed(), origin, before.content, before.run.cursor);
          StuckAt(source, origin, before, before.content, before.items, before.run.cursor);
          if next.run.status != Running { AtCursor(source, origin, next); }
        }
      }
    }
  }

  /** Duplicates and rejections only add up along a pass. */
  lemma {:induction false} QuarantineGrows(run: nat, dry: bool, origin: World, source: seq<Record>, j: nat, k: nat)
    requires LinksInRange(origin.content) && j <= k <= |source| && Pass(run, dry, origin, source[..k]).Some?
    ensures Pass(run, dry, origin, source[..j]).Some?
    ensures var u, v := Pass(run, dry, origin, source[..j]).value, Pass(run, dry, origin, source[..k]).value;
            u.tally.duplicates + u.tally.rejected <= v.tally.duplicates + v.tally.rejected
  {
    hide Pass, Apply;
    if j < k {
      PassStep(run, dry, origin, source, k - 1);
      QuarantineGrows(run, dry, origin, source, j, k - 1);
    }
  }

  /** Rows added to the quarantine since. */
  function NewQuarantine(before: Content, after: Content): int { |after.quarantine| - |before.quarantine| }

  /** No counts yet. */
  predicate Uncounted(w: World) { w.tally.Total() == 0 && w.tally.duplicates == 0 && w.tally.rejected == 0 }

  lemma NothingCounted(content: Content)
    ensures Uncounted(World(content, NO_TALLY))
  {
  }

  lemma TotalAt(run: nat, dry: bool, origin: World, source: seq<Record>, j: nat)
    requires LinksInRange(origin.content) && Uncounted(origin) && j <= |source|
    requires Pass(run, dry, origin, source[..j]).Some?
    ensures var v := Pass(run, dry, origin, source[..j]).value;
            && v.tally.Total() == j
            && NewQuarantine(origin.content, v.content) == v.tally.duplicates + v.tally.rejected
  {
    hide Pass;
    PassConserves(run, dry, origin, source[..j]);
  }

  lemma PlaceConserves(source: seq<Record>, origin: World, db: DB, k: nat)
    requires LinksInRange(origin.content) && Uncounted(origin)
    requires AtOrPastCursor(source, origin, db)
    requires db.run.cursor <= k && ContentAt(source, db.run, origin, db.content, k)
    ensures db.run.counters.tally.Total() == db.run.cursor <= k <= |source|
    ensures NewQuarantine(origin.content, db.content)
            >= db.run.counters.tally.duplicates + db.run.counters.tally.rejected
    ensures k == db.run.cursor ==>
              NewQuarantine(origin.content, db.content)
              == db.run.counters.tally.duplicates + db.run.counters.tally.rejected
  {
    hide Pass, NewQuarantine;
    TotalAt(db.run.id, db.run.dry, origin, source, db.run.cursor);
    TotalAt(db.run.id, db.run.dry, origin, source, k);
    QuarantineGrows(db.run.id, db.run.dry, origin, source, db.run.cursor, k);
  }

  lemma ContentOfSameRun(source: seq<Record>, a: Run, b: Run, origin: World, content: Content, k: nat)
    requires LinksInRange(origin.content) && SameRun(a, b)
    ensures ContentAt(source, a, origin, content, k) <==> ContentAt(source, b, origin, content, k)
  {
    hide Pass, LinksInRange;
  }

  lemma ContentAtCursor(source: seq<Record>, origin: World, db: DB)
    requires UpToCursor(source, origin, db)
    ensures ContentAt(source, db.run, origin, db.content, db.run.cursor)
  {
    hide Pass;
  }

  /**
    In every persisted state, of a stuck run too, the counters account for each record before the
    cursor exactly once. The tables are those of one pass over the source up to the cursor or some
    record behind it, so the quarantine has a row for each counted duplicate and rejection; unless
    the run is running it has no others and the pass ends at the cursor.
   */
  lemma PersistedStateConserves(source: seq<Record>, adapter: Adapter, db: DB, envs: seq<Env>)
    requires Fresh(db)
    ensures var end := RunMany(source, adapter, db, envs);
            var tally := end.run.counters.tally;
            && tally.Total() == end.run.cursor <= |source|
            && NewQuarantine(db.content, end.content) >= tally.duplicates + tally.rejected
            && (exists k: nat | end.run.cursor <= k <= |source| ::
                  ContentAt(source, db.run, World(db.content, NO_TALLY), end.content, k))
            && (end.run.status != Running ==>
                  && NewQuarantine(db.content, end.content) == tally.duplicates + tally.rejected
                  && ContentAt(source, db.run, World(db.content, NO_TALLY), end.content, end.run.cursor))
  {
    hide Pass, RunMany, ItemsMatch, SumAttempts, ContentAt, AtOrPastCursor, UpToCursor, NewQuarantine, LinksInRange,
         Uncounted;
    var origin := World(db.content, NO_TALLY);
    var end := RunMany(source, adapter, db, envs);
    NothingCounted(db.content);
    FreshHasInv(source, db);
    AtCursor(source, origin, db);
    RunManyKeepsInv(source, adapter, origin, db, envs);
    RunManyKeepsPlace(source, adapter, origin, db, envs);
    var k := PlaceOf(source, origin, end);
    ContentOfSameRun(source, end.run, db.run, origin, end.content, k);
    PlaceConserves(source, origin, end, k);
    if end.run.status != Running {
      ContentAtCursor(source, origin, end);
      ContentOfSameRun(source, end.run, db.run, origin, end.content, end.run.cursor);
      PlaceConserves(source, origin, end, end.run.cursor);
    }
  }

  lemma PlaceOf(source: seq<Record>, origin: World, db: DB) returns (k: nat)
    requires LinksInRange(origin.content) && AtOrPastCursor(source, origin, db)
    ensures db.run.cursor <= k && ContentAt(source, db.run, origin, db.content, k)
  {
    hide Pass, ContentAt;
    k :| db.run.cursor <= k && ContentAt(source, db.run, origin, db.content, k);
  }

  /** Claims are bounded by the source's length, and item failures by the claims. */
  lemma ClaimsAreBounded(source: seq<Record>, adapter: Adapter, db: DB, envs: seq<Env>)
    requires Fresh(db)
    ensures var end := RunMany(source, adapter, db, envs);
            && end.run.attempts <= |source| + 3
            && SumAttempts(end.items) <= end.run.attempts
            && (forall i | 0 <= i < |end.items| ::
                  end.items[i].status == DeadLetter ==> end.run.attempts >= 3)
  {
    var end := RunMany(source, adapter, db, envs);
    FreshHasInv(source, db);
    RunManyKeepsInv(source, adapter, World(db.content, NO_TALLY), db, envs);
    forall i | 0 <= i < |end.items| && end.items[i].status == DeadLetter
      ensures end.run.attempts >= 3
    {
      AttemptsOfOneItem(end.items, i);
    }
  }

  /** After the final claim, or an exception that leaves the run running, no call changes anything. */
  lemma {:induction false} OnlyClaimableRunsMove(source: seq<Record>, adapter: Adapter, db: DB, envs: seq<Env>)
    requires LinksInRange(db.content) && !db.run.Claimable()
    ensures RunMany(source, adapter, db, envs) == db
  {
    hide Work;
    if envs != [] {
      OnlyClaimableRunsMove(source, adapter, db, envs[..|envs| - 1]);
    }
  }

  /******* Runs that do complete *******/

  const CALM := Env(false, [], [], false, false)

  lemma {:induction false} CalmProcess(source: seq<Record>, run: nat, dry: bool, origin: World, p: Progress,
                                       recs: seq<Record>, start: nat, k: nat)
    requires LinksInRange(origin.content) && LinksInRange(p.world.content)
    requires k <= |recs| && start + |recs| <= |source| && recs == source[start..start + |recs|]
    requires LoopOk(source, run, dry, origin, SumAttempts(p.items), start, 0, Going(p))
    requires Pass(run, dry, origin, source).Some?
    ensures Process(run, dry, p, recs, start, [], k).Going?
  {
    hide PassOne, Pass, ItemsMatch, StoreRaw, ProcessOne, SumAttempts;
    if k > 0 {
      CalmProcess(source, run, dry, origin, p, recs, start, k - 1);
      ProcessOk(source, run, dry, origin, SumAttempts(p.items), start, recs, p, [], k - 1);
      var q := Process(run, dry, p, recs, start, [], k - 1).p;
      PassPrefix(run, dry, origin, source, start + k);
      PassStep(run, dry, origin, source, start + k - 1);
      CalmStep(source, run, dry, q, start + k - 1);
      assert recs[k - 1] == source[start + k - 1];
    }
  }

  /** Without faults a claim completes the run or moves its cursor a whole batch forward. */
  lemma CalmBatch(source: seq<Record>, adapter: Adapter, origin: World, db: DB)
    requires Inv(source, origin, db) && db.run.Claimable()
    requires adapter.Approved() && db.run.adapter == adapter.id
    requires Pass(db.run.id, db.run.dry, origin, source).Some?
    ensures var next := RunBatch(source, adapter, db, CALM).run;
            || next.status == Completed
            || (next.status == Partial && next.cursor == db.run.cursor + db.run.batchSize)
  {
    hide Process;
    hide Pass;
    hide FetchFrom;
    hide ItemsMatch;
    hide SumAttempts;
    hide LinksInRange;
    var run := db.run.Claimed();
    var f := FetchFrom(Available(source, run.cursor), run.batchSize + 1, CALM.attempts,
                       0, adapter.maxRetries);
    var todo := f.records[..Min(run.batchSize, |f.records|)];
    TodoIsSlice(source, adapter, run, CALM);
    CalmFetch(Available(source, run.cursor), run.batchSize + 1, adapter.maxRetries);
    var p := Progress(World(db.content, run.counters.tally), run.counters.fetched, db.items);
    CalmProcess(source, run.id, run.dry, origin, p, todo, run.cursor, |todo|);
  }

  lemma CalmFetch(available: seq<Record>, maximum: nat, last: nat)
    ensures FetchFrom(available, maximum, [], 0, last).error.None?
  {
  }

  function Calm(n: nat): seq<Env> { seq(n, i => CALM) }

  lemma {:induction false} CalmRunCompletes(source: seq<Record>, adapter: Adapter, db: DB, n: nat)
    requires Fresh(db) && adapter.Approved() && db.run.adapter == adapter.id
    requires Pass(db.run.id, db.run.dry, World(db.content, NO_TALLY), source).Some?
    ensures var run := RunMany(source, adapter, db, Calm(n)).run;
            run.status == Completed || (run.Claimable() && run.cursor >= n * db.run.batchSize)
  {
    hide RunBatch;
    hide Pass;
    if n > 0 {
      assert Calm(n)[..n - 1] == Calm(n - 1);
      CalmRunCompletes(source, adapter, db, n - 1);
      var origin := World(db.content, NO_TALLY);
      var before := RunMany(source, adapter, db, Calm(n - 1));
      FreshHasInv(source, db);
      RunManyKeepsInv(source, adapter, origin, db, Calm(n - 1));
      if before.run.status == Completed {
        OnlyClaimableRunsMove(source, adapter, before, [CALM]);
        assert [CALM][..0] == [];
        assert RunMany(source, adapter, before, []) == before;
      } else {
        CalmBatch(source, adapter, origin, before);
        assert n * db.run.batchSize == (n - 1) * db.run.batchSize + db.run.batchSize;
      }
    }
  }

  /**
    A run can complete exactly when one pass over its source meets no record that always fails:
    one that crashes the normalizer, or that the database refuses.
   */
  lemma CanCompleteExactlyWhenPassSucceeds(source: seq<Record>, adapter: Adapter, db: DB)
    requires Fresh(db) && adapter.Approved() && db.run.adapter == adapter.id
    ensures (exists envs :: RunMany(source, adapter, db, envs).run.status == Completed)
            <==> Pass(db.run.id, db.run.dry, World(db.content, NO_TALLY), source).Some?
  {
    hide Pass;
    hide RunMany;
    forall envs | RunMany(source, adapter, db, envs).run.status == Completed
      ensures Pass(db.run.id, db.run.dry, World(db.content, NO_TALLY), source).Some?
    {
      CompletedRunIsOnePass(source, adapter, db, envs);
    }
    if Pass(db.run.id, db.run.dry, World(db.content, NO_TALLY), source).Some? {
      var n := |source| + 1;
      CalmRunCompletes(source, adapter, db, n);
      FreshHasInv(source, db);
      RunManyKeepsInv(source, adapter, World(db.content, NO_TALLY), db, Calm(n));
      assert n * db.run.batchSize >= n;
      assert RunMany(source, adapter, db, Calm(n)).run.status == Completed;
    }
  }

  /******* Runs that are stranded *******/

  /** The records a claim without faults works on. */
  function NextBatch(source: seq<Record>, run: Run): seq<Record>
    requires run.cursor <= |source|
  {
    source[run.cursor..Min(run.cursor + run.batchSize, |source|)]
  }

  /** The `k`-th record raises before its raw row is built, and those before it all get through. */
  ghost predicate CrashReached(run: nat, dry: bool, w: World, recs: seq<Record>, k: nat)
    requires LinksInRange(w.content) && k < |recs|
  {
    recs[k].raw.RawCrash? && Pass(run, dry, w, recs[..k]).Some?
  }

  lemma CalmStep(source: seq<Record>, run: nat, dry: bool, p: Progress, position: nat)
    requires LinksInRange(p.world.content) && position < |source| && ItemsMatch(source, run, p.items)
    ensures var rec := source[position];
            match ProcessOne(run, dry, p, rec, position, NoFault)
            case Going(q) => PassOne(run, dry, p.world, rec) == Some(q.world) && ItemsMatch(source, run, q.items)
            case Broke(q, _, _) => PassOne(run, dry, p.world, rec).None? && !rec.raw.RawCrash?
            case Escaped(_) => rec.raw.RawCrash?
  {
    hide PassOne, ItemsMatch, StoreRaw, MarkItems, SumAttempts;
    var rec := source[position];
    if rec.raw.RawOk? {
      StoreKeepsItems(source, run, p.items, position);
      var stored := StoreRaw(p.items, KeyOf(run, rec), position).value;
      MarkKeepsItems(source, run, stored, KeyOf(run, rec), ItemRejected);
      MarkKeepsItems(source, run, stored, KeyOf(run, rec), ItemCompleted);
    }
  }

  /** Without faults the loop goes on as long as the pass does, and only a reached crash escapes it. */
  lemma {:induction false} CalmLoop(source: seq<Record>, run: nat, dry: bool, p: Progress, recs: seq<Record>,
                                    start: nat, k: nat)
    requires LinksInRange(p.world.content) && ItemsMatch(source, run, p.items)
    requires k <= |recs| && start + |recs| <= |source| && recs == source[start..start + |recs|]
    ensures var s := Process(run, dry, p, recs, start, [], k);
            && (s.Going? ==> Pass(run, dry, p.world, recs[..k]) == Some(s.p.world) && ItemsMatch(source, run, s.p.items))
            && (s.Going? <==> Pass(run, dry, p.world, recs[..k]).Some?)
            && (s.Escaped? <==> exists j | 0 <= j < k :: CrashReached(run, dry, p.world, recs, j))
  {
    hide PassOne, ProcessOne, ItemsMatch, CrashReached, Pass;
    if k == 0 {
      assert recs[..0] == [];
      EmptyPass(run, dry, p.world);
    } else {
      CalmLoop(source, run, dry, p, recs, start, k - 1);
      var s := Process(run, dry, p, recs, start, [], k - 1);
      PassStep(run, dry, p.world, recs, k - 1);
      CrashNow(run, dry, p.world, recs, k - 1);
      if s.Going? {
        assert recs[k - 1] == source[start + k - 1];
        CalmStep(source, run, dry, s.p, start + k - 1);
      }
    }
  }

  lemma EmptyPass(run: nat, dry: bool, w: World)
    requires LinksInRange(w.content)
    ensures Pass(run, dry, w, []) == Some(w)
  {
  }

  lemma CrashNow(run: nat, dry: bool, w: World, recs: seq<Record>, k: nat)
    requires LinksInRange(w.content) && k < |recs|
    ensures CrashReached(run, dry, w, recs, k) <==> recs[k].raw.RawCrash? && Pass(run, dry, w, recs[..k]).Some?
    ensures recs[k].raw.RawCrash? ==> Pass(run, dry, w, recs[..k + 1]).None?
  {
    PassStep(run, dry, w, recs, k);
    hide PassOne, Pass;
  }

  /** A fault-free claim works on exactly the next batch. */
  lemma CalmTodo(source: seq<Record>, run: Run, retries: nat)
    requires run.cursor <= |source|
    ensures var f := FetchFrom(Available(source, run.cursor), run.batchSize + 1, [], 0, retries);
            f.records[..Min(run.batchSize, |f.records|)] == NextBatch(source, run)
  {
    var available := Available(source, run.cursor);
    FetchIsPrefix(available, run.batchSize + 1, [], 0, retries);
    CalmFetch(available, run.batchSize + 1, retries);
  }

  /**
    A record that raises while its raw row is built is outside the worker's error handling. A claim
    in which nothing else goes wrong leaves the run running exactly when the next batch holds such a
    record and every record of the batch before it gets through. The run then keeps the cursor and
    counters it was claimed with, whatever is called afterwards.
   */
  lemma UnreadableUrlStrandsRun(source: seq<Record>, adapter: Adapter, origin: World, db: DB, envs: seq<Env>)
    requires Inv(source, origin, db) && db.run.Claimable()
    requires adapter.Approved() && db.run.adapter == adapter.id
    ensures var batch := NextBatch(source, db.run);
            RunBatch(source, adapter, db, CALM).run.status == Running
            <==> exists k | 0 <= k < |batch| ::
                   CrashReached(db.run.id, db.run.dry, World(db.content, db.run.counters.tally), batch, k)
    ensures var stuck := RunBatch(source, adapter, db, CALM);
            stuck.run.status == Running ==>
              && stuck.run.cursor == db.run.cursor && stuck.run.counters == db.run.counters
              && RunMany(source, adapter, stuck, envs) == stuck
  {
    hide Process, Pass, FetchFrom, ItemsMatch, SumAttempts, LinksInRange, CrashReached, NextBatch, RunMany;
    if RunBatch(source, adapter, db, CALM).run.status == Running {
      OnlyClaimableRunsMove(source, adapter, RunBatch(source, adapter, db, CALM), envs);
    }
    var run := db.run.Claimed();
    var batch := NextBatch(source, db.run);
    CalmTodo(source, run, adapter.maxRetries);
    BatchIsSlice(source, db.run);
    BatchIsSlice(source, run);
    var p := Progress(World(db.content, run.counters.tally), run.counters.fetched, db.items);
    CalmLoop(source, run.id, run.dry, p, batch, run.cursor, |batch|);
    assert batch[..|batch|] == batch;
  }

  lemma BatchIsSlice(source: seq<Record>, run: Run)
    requires run.cursor <= |source|
    ensures var batch := NextBatch(source, run);
            && run.cursor + |batch| <= |source|
            && batch == source[run.cursor..run.cursor + |batch|]
            && NextBatch(source, run.Claimed()) == batch
  {
  }
}
