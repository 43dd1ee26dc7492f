/** The ingestion worker: fetches a batch and processes it record by record in units of work. */
module Orchestrator {
  import opened Prelude
  import opened Catalogue
  import opened IngestionRuns
  import opened IngestionDatabase

  /** How the processing of one record ended, as the worker sees it. */
  datatype Ending = Handled | Raised(raw: Option<RawKey>) | Unhandled

  class IngestionOrchestrator {
    const database: Database

    constructor (database: Database)
      ensures this.database == database
    {
      this.database := database;
    }

    /** One call of the adapter, read until it ends, raises, or `maximum` records are there. */
    static method ReadAdapter(available: seq<Record>, maximum: nat, attempt: Attempt) returns (f: Fetched)
      requires maximum > 0
      ensures f == FetchOnce(available, maximum, attempt)
    {
      var records: seq<Record> := [];
      while |records| < |available| && (attempt.Ends? || |records| < attempt.after)
        invariant |records| <= |available| && records == available[..|records|]
        invariant |records| < maximum
        invariant attempt.Ends? || |records| <= attempt.after
      {
        records := records + [available[|records|]];
        if |records| >= maximum { return Fetched(records, None); }
      }
      match attempt
      case Ends => return Fetched(records, None);
      case Interrupted(_) => return Fetched(records, Some(FetchFailed));
      case Breaks(_) => return Fetched(records, Some(ParseFailed));
    }

    static method FetchWithRetries(adapter: Adapter, source: seq<Record>, start: nat, maximum: nat,
                                   attempts: seq<Attempt>) returns (f: Fetched)
      requires maximum > 0
      ensures f == FetchFrom(Available(source, start), maximum, attempts, 0, adapter.maxRetries)
    {
      var available := Available(source, start);
      f := ReadAdapter(available, maximum, AttemptAt(attempts, 0));
      var i := 0;
      while f.error == Some(FetchFailed) && i < adapter.maxRetries
        invariant i <= adapter.maxRetries
        invariant f == FetchOnce(available, maximum, AttemptAt(attempts, i))
        invariant FetchFrom(available, maximum, attempts, 0, adapter.maxRetries)
                  == FetchFrom(available, maximum, attempts, i, adapter.maxRetries)
      {
        i := i + 1;
        f := ReadAdapter(available, maximum, AttemptAt(attempts, i));
      }
    }

    /** Normalization result into the tables, in one unit of work; `None` when it raised. */
    method Settle(raw: RawKey, norm: NormStage, dry: bool, tally: Tally) returns (result: Option<Tally>)
      requires LinksInRange(database.Tables())
      modifies database
      ensures database.run == old(database.run)
      ensures var run := old(database.run).id;
              var w := World(old(database.Tables()), tally);
              var rec := Record(raw.recordId, raw.digest, RawOk, norm);
              raw.run == run ==>
                && (result.None? <==> PassOne(run, dry, w, rec).None?)
                && (result.Some? ==>
                      && World(database.Tables(), result.value) == PassOne(run, dry, w, rec).value
                      && database.items == MarkItems(old(database.items), raw,
                                                     OutcomeStatus(w, PassOne(run, dry, w, rec).value)))
      ensures result.Some? ==> LinksInRange(database.Tables())
    {
      hide Apply;
      match norm {
        case NormCrash => return None;
        case NormRejected(code, summary) =>
          database.Reject(Some(raw), code, summary, None, {});
          return Some(tally.PlusRejected());
        case NormOk(n) =>
          ghost var before := database.Tables();
          ApplyKeepsLinksInRange(before, database.run.id, raw, n, dry);
          var outcome := database.ApplyNormalized(raw, n, dry);
          if outcome.None? { return None; }
          ApplyQuarantines(before, database.run.id, raw, n, dry);
          return Some(tally.Plus(outcome.value));
      }
    }

    /** The body of the record loop up to, but not including, the handling of a failure. */
    method ProcessRecord(rec: Record, position: nat, dry: bool, fault: Fault, counters: Counters)
      returns (ending: Ending, counters': Counters)
      requires LinksInRange(database.Tables())
      modifies database
      ensures database.run == old(database.run)
      ensures LinksInRange(database.Tables())
      ensures var s := ProcessOne(old(database.run).id, dry,
                                  Progress(World(old(database.Tables()), counters.tally),
                                           counters.fetched, old(database.items)),
                                  rec, position, fault);
              && s.p == Progress(World(database.Tables(), counters'.tally), counters'.fetched, database.items)
              && (ending.Handled? <==> s.Going?)
              && (ending.Unhandled? <==> s.Escaped?)
              && (ending.Raised? <==> s.Broke?)
              && (s.Broke? ==> s.position == position && s.raw == ending.raw)
    {
      hide MarkItems;
      hide IngestionRuns.StoreRaw;
      hide LinksInRange;
      counters' := counters;
      var raw := KeyOf(database.run.id, rec);
      if rec.raw.RawCrash? { return Unhandled, counters; }
      if rec.raw.RawRejected? {
        if fault != NoFault { return Unhandled, counters; }
        database.Reject(None, rec.raw.code, rec.raw.summary, None, {});
        counters' := counters.(tally := counters.tally.PlusRejected());
        RejectKeepsLinks(old(database.Tables()), database.Tables());
        return Handled, counters';
      }
      if fault == StoreRaises { return Ending.Raised(None), counters; }
      var saved := database.Snapshot();
      var ok := database.StoreRaw(raw, position);
      if !ok { return Ending.Raised(None), counters; }
      if fault == StoreCommitFails {
        database.Restore(saved);
        return Ending.Raised(Some(raw)), counters;
      }
      counters' := counters.(fetched := counters.fetched + 1);
      saved := database.Snapshot();
      SettledRecord(rec);
      var tally := Settle(raw, rec.norm, dry, counters.tally);
      if fault == WorkFails || tally.None? {
        database.Restore(saved);
        return Ending.Raised(Some(raw)), counters';
      }
      counters' := counters'.(tally := tally.value);
      return Handled, counters';
    }

    /** Charges the failed record's item and stops the run at its position. */
    method HandleFailure(position: nat, raw: Option<RawKey>, counters: Counters, env: Env)
      returns (reply: Option<Run>)
      modifies database
      ensures database.Tables() == old(database.Tables())
      ensures database.Snapshot()
              == IngestionRuns.HandleFailure(
                   old(database.run),
                   Progress(World(old(database.Tables()), counters.tally), counters.fetched, old(database.items)),
                   position, raw, env)
      ensures reply.Some? ==> reply.value == database.run
    {
      hide FailItems;
      hide FailureIsFinal;
      var run := database.run;
      var final := false;
      if raw.Some? {
        if env.failItemFails { return None; }
        final := database.FailItem(raw.value);
      }
      if env.advanceFails { return None; }
      database.Advance(position, counters, if final || run.attempts >= 3 then DeadLettered else Partial);
      return Some(database.run);
    }

    /** The work of a run that has been claimed. */
    method WorkOn(source: seq<Record>, adapter: Adapter, env: Env) returns (reply: Option<Run>)
      requires LinksInRange(database.Tables())
      modifies database
      ensures database.Snapshot()
              == Work(source, adapter, old(database.Snapshot()), old(database.run), env)
      ensures reply.Some? ==> reply.value == database.run
    {
      hide ProcessOne;
      hide LinksInRange;
      hide FetchFrom;
      hide IngestionRuns.HandleFailure;
      var run := database.run;
      var counters := run.counters;
      ghost var p := Progress(World(database.Tables(), counters.tally), counters.fetched, database.items);
      var fetched := FetchWithRetries(adapter, source, run.cursor, run.batchSize + 1, env.attempts);
      var todo := fetched.records[..Min(run.batchSize, |fetched.records|)];
      var offset := 0;
      while offset < |todo|
        invariant offset <= |todo|
        invariant LinksInRange(database.Tables())
        invariant database.run == run
        invariant Process(run.id, run.dry, p, todo, run.cursor, env.faults, offset)
                  == Going(Progress(World(database.Tables(), counters.tally), counters.fetched, database.items))
      {
        var position := run.cursor + offset;
        var ending;
        ending, counters := ProcessRecord(todo[offset], position, run.dry, FaultAt(env.faults, offset), counters);
        offset := offset + 1;
        match ending {
          case Handled =>
          case Unhandled =>
            StoppedStays(run.id, run.dry, p, todo, run.cursor, env.faults, offset, |todo|);
            return None;
          case Raised(raw) =>
            StoppedStays(run.id, run.dry, p, todo, run.cursor, env.faults, offset, |todo|);
            reply := HandleFailure(position, raw, counters, env);
            return;
        }
      }
      if env.advanceFails { return None; }
      database.Advance(run.cursor + |todo|, counters, EndStatus(run, fetched, |todo|));
      return Some(database.run);
    }

    /** One call of the worker; `None` is an exception. */
    method RunBatch(source: seq<Record>, adapter: Adapter, env: Env) returns (reply: Option<Run>)
      requires LinksInRange(database.Tables())
      modifies database
      ensures database.Snapshot() == IngestionRuns.RunBatch(source, adapter, old(database.Snapshot()), env)
      ensures reply.Some? ==> reply.value == database.run
    {
      hide Work;
      if !adapter.Approved() || env.claimFails { return None; }
      var claimed := database.Claim();
      if claimed.None? { return None; }
      if claimed.value.adapter != adapter.id {
        if env.advanceFails { return None; }
        database.Advance(claimed.value.cursor, claimed.value.counters, RunStatus.Failed);
        return Some(database.run);
      }
      ghost var before := database.Snapshot();
      reply := WorkOn(source, adapter, env);
      WorkIgnoresRunRow(source, adapter, old(database.Snapshot()), before, claimed.value, env);
    }
  }

  lemma RejectKeepsLinks(before: Content, after: Content)
    requires LinksInRange(before) && after.rows == before.rows && after.links == before.links
    ensures LinksInRange(after)
  {
  }

  lemma SettledRecord(rec: Record)
    requires rec.raw.RawOk?
    ensures Record(rec.recordId, rec.digest, RawOk, rec.norm) == rec
  {
  }

  lemma WorkIgnoresRunRow(source: seq<Record>, adapter: Adapter, a: DB, b: DB, run: Run, env: Env)
    requires LinksInRange(a.content) && a.content == b.content && a.items == b.items
    ensures Work(source, adapter, a, run, env) == Work(source, adapter, b, run, env)
  {
    hide Process;
    hide FetchFrom;
    hide IngestionRuns.HandleFailure;
  }
}
