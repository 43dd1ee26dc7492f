/**
  Records as an adapter delivers them: a payload that cannot be serialized and a URL that cannot be
  split make building the raw row raise, and that strands a run.
 */
module RawRecords {
  import opened Prelude
  import opened Catalogue
  import opened IngestionRuns
  import opened IngestionTheorems
  import opened SourceUrl
  import SourceUrlTheorems

  /** The digest of the serialized payload is missing when serializing raises, as for keys of mixed types. */
  datatype Delivered = Delivered(recordId: string, digest: Option<string>, url: string, norm: NormStage)

  ghost predicate OctetUrls(source: seq<Delivered>) { forall i | 0 <= i < |source| :: Octets(source[i].url) }

  function RawStageOf(url: string): RawStage
    requires Octets(url)
  {
    match Canonical(url)
    case Read(_) => RawOk
    case Invalid => RawRejected("INVALID_SOURCE_URL", "Source URL must be an absolute HTTPS URL.")
    case Raises => RawCrash
  }

  /** The payload is serialized before the URL is looked at. */
  function RecordOf(d: Delivered): Record
    requires Octets(d.url)
  {
    match d.digest
    case None => Record(d.recordId, "", RawCrash, d.norm)
    case Some(digest) => Record(d.recordId, digest, RawStageOf(d.url), d.norm)
  }

  predicate Unreadable(d: Delivered)
    requires Octets(d.url)
  {
    d.digest.None? || Canonical(d.url) == Raises
  }

  function Records(source: seq<Delivered>): seq<Record>
    requires OctetUrls(source)
  {
    seq(|source|, i requires 0 <= i < |source| => RecordOf(source[i]))
  }

  lemma CrashesExactly(d: Delivered)
    requires Octets(d.url)
    ensures RecordOf(d).raw.RawCrash? <==> Unreadable(d)
  {
    hide Canonical;
  }

  /** The record at `position` cannot be read, and the records from the cursor to it get through. */
  ghost predicate UnreadableReached(source: seq<Delivered>, db: DB, position: nat)
    requires OctetUrls(source) && LinksInRange(db.content) && db.run.cursor <= position < |source|
  {
    && Unreadable(source[position])
    && Pass(db.run.id, db.run.dry, World(db.content, db.run.counters.tally),
            Records(source)[db.run.cursor..position]).Some?
  }

  lemma ReachedAlike(source: seq<Delivered>, db: DB, position: nat)
    requires OctetUrls(source) && LinksInRange(db.content)
    requires db.run.cursor <= position < Min(db.run.cursor + db.run.batchSize, |source|)
    ensures var batch := NextBatch(Records(source), db.run);
            && position - db.run.cursor < |batch|
            && (CrashReached(db.run.id, db.run.dry, World(db.content, db.run.counters.tally), batch,
                             position - db.run.cursor)
                <==> UnreadableReached(source, db, position))
  {
    hide Pass, Canonical, LinksInRange, Octets, RecordOf, Unreadable;
    var batch := NextBatch(Records(source), db.run);
    var k := position - db.run.cursor;
    CrashesExactly(source[position]);
    assert batch[k] == RecordOf(source[position]);
    assert batch == Records(source)[db.run.cursor..db.run.cursor + |batch|];
    assert batch[..k] == Records(source)[db.run.cursor..position];
  }

  /**
    A claim without faults strands its run exactly when the next batch reaches a payload that cannot
    be serialized or a URL that cannot be split; a URL that is merely not an absolute HTTPS one never
    does. The run then stays as it is.
   */
  lemma UnsplittableUrlStrandsRun(source: seq<Delivered>, adapter: Adapter, origin: World, db: DB, envs: seq<Env>)
    requires OctetUrls(source) && Inv(Records(source), origin, db) && db.run.Claimable()
    requires adapter.Approved() && db.run.adapter == adapter.id
    ensures RunBatch(Records(source), adapter, db, CALM).run.status == Running
            <==> exists position | db.run.cursor <= position < Min(db.run.cursor + db.run.batchSize, |source|) ::
                   UnreadableReached(source, db, position)
    ensures var stuck := RunBatch(Records(source), adapter, db, CALM);
            stuck.run.status == Running ==>
              stuck.run.cursor == db.run.cursor && RunMany(Records(source), adapter, stuck, envs) == stuck
  {
    hide RunMany, Pass, RunBatch, Canonical, LinksInRange, OctetUrls, CrashReached, UnreadableReached, ItemsMatch,
         SumAttempts, UpToCursor, Unreadable;
    var cursor, w := db.run.cursor, World(db.content, db.run.counters.tally);
    var batch := NextBatch(Records(source), db.run);
    UnreadableUrlStrandsRun(Records(source), adapter, origin, db, envs);
    BatchIsSlice(Records(source), db.run);
    forall position | cursor <= position < Min(cursor + db.run.batchSize, |source|)
      ensures position - cursor < |batch|
      ensures CrashReached(db.run.id, db.run.dry, w, batch, position - cursor)
              <==> UnreadableReached(source, db, position)
    {
      ReachedAlike(source, db, position);
    }
    if k :| 0 <= k < |batch| && CrashReached(db.run.id, db.run.dry, w, batch, k) {
      assert UnreadableReached(source, db, cursor + k);
    }
  }

  /** One record with the URL `https://[::1` first in a source, and its run never leaves `running`. */
  lemma OneBracketStrandsRun(source: seq<Delivered>, adapter: Adapter, db: DB, envs: seq<Env>)
    requires OctetUrls(source) && source != [] && source[0].url == SourceUrlTheorems.UNSPLITTABLE
    requires Fresh(db) && adapter.Approved() && db.run.adapter == adapter.id
    ensures var stuck := RunBatch(Records(source), adapter, db, CALM);
            && stuck.run.status == Running && stuck.run.cursor == 0
            && RunMany(Records(source), adapter, stuck, envs) == stuck
  {
    hide Inv, RunBatch, RunMany, Pass, Canonical, LinksInRange, UnreadableReached, Records, OctetUrls;
    FreshHasInv(Records(source), db);
    FirstIsReached(source, db);
    UnsplittableUrlStrandsRun(source, adapter, World(db.content, NO_TALLY), db, envs);
  }

  lemma FirstIsReached(source: seq<Delivered>, db: DB)
    requires OctetUrls(source) && source != [] && source[0].url == SourceUrlTheorems.UNSPLITTABLE
    requires LinksInRange(db.content) && db.run.cursor == 0
    ensures UnreadableReached(source, db, 0)
  {
    hide Pass, Canonical, LinksInRange;
    SourceUrlTheorems.UnsplittableRaises();
    EmptyPass(db.run.id, db.run.dry, World(db.content, db.run.counters.tally));
    assert Records(source)[0..0] == [];
  }
}
