/**
  Resumable ingestion runs: the run and item tables, fetching, one worker claim (`RunBatch`) under
  an adversary that interrupts fetches and fails units of work, and the pass it must agree with.
 */
module IngestionRuns {
  import opened Prelude
  import opened Catalogue

  /******* The source *******/

  /** What building the raw row does: a plain exception there is not handled by the worker. */
  datatype RawStage = RawOk | RawRejected(code: string, summary: string) | RawCrash

  /** What normalization does; `NormCrash` is any exception other than a normalization error. */
  datatype NormStage = NormOk(n: Normalized) | NormRejected(code: string, summary: string) | NormCrash

  datatype Record = Record(recordId: string, digest: string, raw: RawStage, norm: NormStage)

  datatype AdapterId = AdapterId(name: string, version: string, sourceVersion: string)

  datatype Adapter = Adapter(
    id: AdapterId,
    permissionGranted: bool,
    robotsAllowed: bool,
    timeoutSeconds: real,
    maxRetries: nat,
    knownAgent: bool)
  {
    predicate Approved() {
      && permissionGranted && robotsAllowed
      && 0.0 < timeoutSeconds <= 60.0
      && maxRetries <= 5
      && knownAgent
    }
  }

  /******* Run and item tables *******/

  datatype RunStatus = Queued | Running | Partial | Completed | Failed | DeadLettered | Cancelled

  datatype Tally = Tally(created: nat, updated: nat, untouched: nat, duplicates: nat, rejected: nat) {
    function Plus(o: Outcome): Tally {
      match o
      case Created => this.(created := created + 1)
      case Updated => this.(updated := updated + 1)
      case Unchanged => this.(untouched := untouched + 1)
      case Duplicate => this.(duplicates := duplicates + 1)
    }

    function PlusRejected(): Tally { this.(rejected := rejected + 1) }

    function Total(): nat { created + updated + untouched + duplicates + rejected }
  }

  const NO_TALLY := Tally(0, 0, 0, 0, 0)

  datatype Counters = Counters(fetched: nat, tally: Tally)

  datatype Run = Run(
    id: nat,
    adapter: AdapterId,
    dry: bool,
    batchSize: nat,
    status: RunStatus,
    cursor: nat,
    counters: Counters,
    attempts: nat)
  {
    predicate Claimable() { status == Queued || status == Partial }

    function Claimed(): Run { this.(status := Running, attempts := attempts + 1) }

    function Advanced(cursor': nat, counters': Counters, status': RunStatus): Run {
      this.(cursor := cursor', counters := counters', status := status')
    }
  }

  datatype ItemStatus = Pending | ItemCompleted | ItemRejected | DeadLetter

  datatype Item = Item(raw: RawKey, position: nat, attempts: nat, status: ItemStatus)

  predicate HasItem(items: seq<Item>, raw: RawKey) {
    exists i | 0 <= i < |items| :: items[i].raw == raw
  }

  predicate PositionTaken(items: seq<Item>, position: nat) {
    exists i | 0 <= i < |items| :: items[i].position == position
  }

  /** The item of a stored raw record, or none when its position belongs to another record. */
  function StoreRaw(items: seq<Item>, raw: RawKey, position: nat): Option<seq<Item>> {
    if HasItem(items, raw) then Some(items)
    else if PositionTaken(items, position) then None
    else Some(items + [Item(raw, position, 0, Pending)])
  }

  function Marked(item: Item, raw: RawKey, status: ItemStatus): Item {
    if item.raw == raw then item.(status := status) else item
  }

  function MarkItems(items: seq<Item>, raw: RawKey, status: ItemStatus): seq<Item> {
    seq(|items|, i requires 0 <= i < |items| => Marked(items[i], raw, status))
  }

  function FailedItem(item: Item, raw: RawKey): Item {
    if item.raw == raw then
      item.(attempts := item.attempts + 1,
            status := if item.attempts + 1 >= 3 then DeadLetter else Pending)
    else item
  }

  function FailItems(items: seq<Item>, raw: RawKey): seq<Item> {
    seq(|items|, i requires 0 <= i < |items| => FailedItem(items[i], raw))
  }

  predicate FailureIsFinal(items: seq<Item>, raw: RawKey) {
    exists i | 0 <= i < |items| :: items[i].raw == raw && items[i].attempts + 1 >= 3
  }

  /******* One left-to-right pass: what a run is meant to compute *******/

  datatype World = World(content: Content, tally: Tally)

  function KeyOf(run: nat, rec: Record): RawKey { RawKey(run, rec.recordId, rec.digest) }

  function RejectedRow(run: nat, raw: Option<RawKey>, code: string, summary: string): QuarantineRow {
    QuarantineRow(run, raw, code, summary, None, {})
  }

  function Quarantined(w: World, row: QuarantineRow): World {
    World(w.content.(quarantine := w.content.quarantine + [row]), w.tally.PlusRejected())
  }

  /** One record processed without faults; none when it cannot be processed at all. */
  function PassOne(run: nat, dry: bool, w: World, rec: Record): (r: Option<World>)
    requires LinksInRange(w.content)
    ensures r.Some? ==> LinksInRange(r.value.content)
    ensures rec.raw.RawRejected? ==> r.Some?
    ensures rec.raw.RawCrash? ==> r.None?
  {
    match rec.raw
    case RawCrash => None
    case RawRejected(code, summary) => Some(Quarantined(w, RejectedRow(run, None, code, summary)))
    case RawOk =>
      match rec.norm
      case NormCrash => None
      case NormRejected(code, summary) =>
        Some(Quarantined(w, RejectedRow(run, Some(KeyOf(run, rec)), code, summary)))
      case NormOk(n) =>
        ApplyKeepsLinksInRange(w.content, run, KeyOf(run, rec), n, dry);
        match Apply(w.content, run, KeyOf(run, rec), n, dry)
        case Raised => None
        case Applied(content, outcome) => Some(World(content, w.tally.Plus(outcome)))
  }

  /** The records in order, each exactly once. */
  function Pass(run: nat, dry: bool, w: World, recs: seq<Record>): (r: Option<World>)
    requires LinksInRange(w.content)
    ensures r.Some? ==> LinksInRange(r.value.content)
  {
    if recs == [] then Some(w) else
      match Pass(run, dry, w, recs[..|recs| - 1])
      case None => None
      case Some(v) => PassOne(run, dry, v, recs[|recs| - 1])
  }

  /******* Fetching *******/

  /** One call of the adapter: how many records it yields before it ends or raises. */
  datatype Attempt = Ends | Interrupted(after: nat) | Breaks(after: nat)

  datatype FetchError = FetchFailed | ParseFailed

  datatype Fetched = Fetched(records: seq<Record>, error: Option<FetchError>)

  function AttemptAt(attempts: seq<Attempt>, i: nat): Attempt {
    if i < |attempts| then attempts[i] else Ends
  }

  function Min(a: nat, b: nat): nat { if a < b then a else b }

  function Available(source: seq<Record>, start: nat): seq<Record> {
    if start <= |source| then source[start..] else []
  }

  /** The records and the exception of one attempt; reaching `maximum` leaves the loop first. */
  function FetchOnce(available: seq<Record>, maximum: nat, attempt: Attempt): Fetched {
    if attempt.Ends? || maximum <= Min(attempt.after, |available|) then
      Fetched(available[..Min(maximum, |available|)], None)
    else
      Fetched(available[..Min(attempt.after, |available|)],
              Some(if attempt.Interrupted? then FetchFailed else ParseFailed))
  }

  /** Attempts `i`, `i + 1`, ... until one is not interrupted or the retries are used up. */
  function FetchFrom(available: seq<Record>, maximum: nat, attempts: seq<Attempt>, i: nat, last: nat)
    : Fetched
    requires i <= last
    decreases last - i
  {
    var once := FetchOnce(available, maximum, AttemptAt(attempts, i));
    if once.error == Some(FetchFailed) && i < last
    then FetchFrom(available, maximum, attempts, i + 1, last) else once
  }

  /******* One claim *******/

  /**
    What goes wrong for one record. `StoreCommitFails` differs from `StoreRaises` in that the
    worker already knows the raw record's id when the transaction is rolled back.
   */
  datatype Fault = NoFault | StoreRaises | StoreCommitFails | WorkFails

  /** The adversary's choices for one claim; failed units of work are rolled back. */
  datatype Env = Env(
    claimFails: bool,
    attempts: seq<Attempt>,
    faults: seq<Fault>,
    failItemFails: bool,
    advanceFails: bool)

  function FaultAt(faults: seq<Fault>, i: nat): Fault { if i < |faults| then faults[i] else NoFault }

  /** The worker's state between two records: tables, counters of this claim, items. */
  datatype Progress = Progress(world: World, fetched: nat, items: seq<Item>)

  /** How the record loop leaves a record: handled, failed at a position, or with an exception. */
  datatype LoopState =
    | Going(p: Progress)
    | Broke(p: Progress, position: nat, raw: Option<RawKey>)
    | Escaped(p: Progress)

  function OutcomeStatus(before: World, after: World): ItemStatus {
    if |after.content.quarantine| > |before.content.quarantine| then ItemRejected else ItemCompleted
  }

  function ProcessOne(run: nat, dry: bool, p: Progress, rec: Record, position: nat, fault: Fault)
    : (r: LoopState)
    requires LinksInRange(p.world.content)
    ensures LinksInRange(r.p.world.content)
  {
    var raw := KeyOf(run, rec);
    match rec.raw
    case RawCrash => Escaped(p)
    case RawRejected(_, _) =>
      if fault != NoFault then Escaped(p)
      else Going(p.(world := PassOne(run, dry, p.world, rec).value))
    case RawOk =>
      var stored := StoreRaw(p.items, raw, position);
      if fault == StoreRaises || stored.None? then Broke(p, position, None)
      else if fault == StoreCommitFails then Broke(p, position, Some(raw))
      else
        var q := p.(items := stored.value, fetched := p.fetched + 1);
        var world := PassOne(run, dry, p.world, rec);
        if fault == WorkFails || world.None? then Broke(q, position, Some(raw))
        else
          Going(q.(world := world.value,
                   items := MarkItems(q.items, raw, OutcomeStatus(p.world, world.value))))
  }

  /** The loop after the first `k` records of the batch. */
  function Process(run: nat, dry: bool, p: Progress, recs: seq<Record>, start: nat,
                   faults: seq<Fault>, k: nat): (r: LoopState)
    requires LinksInRange(p.world.content)
    requires k <= |recs|
    ensures LinksInRange(r.p.world.content)
  {
    if k == 0 then Going(p) else
      match Process(run, dry, p, recs, start, faults, k - 1)
      case Going(q) => ProcessOne(run, dry, q, recs[k - 1], start + k - 1, FaultAt(faults, k - 1))
      case stopped => stopped
  }

  /** Once the record loop has stopped, the records behind it do not matter. */
  lemma {:induction false} StoppedStays(run: nat, dry: bool, p: Progress, recs: seq<Record>, start: nat,
                                        faults: seq<Fault>, k: nat, m: nat)
    requires LinksInRange(p.world.content) && k <= m <= |recs|
    requires !Process(run, dry, p, recs, start, faults, k).Going?
    ensures Process(run, dry, p, recs, start, faults, m) == Process(run, dry, p, recs, start, faults, k)
  {
    hide ProcessOne;
    if k < m {
      StoppedStays(run, dry, p, recs, start, faults, k, m - 1);
    }
  }

  datatype DB = DB(content: Content, items: seq<Item>, run: Run)

  function EndStatus(run: Run, fetched: Fetched, processed: nat): RunStatus {
    if fetched.error.Some? then
      if run.attempts >= 3 && processed == 0 then DeadLettered else Partial
    else if |fetched.records| > run.batchSize then Partial
    else Completed
  }

  /** Handling of a failed record: its item is charged, the run stops at its position. */
  function HandleFailure(run: Run, p: Progress, position: nat, raw: Option<RawKey>, env: Env): DB {
    if raw.Some? && env.failItemFails then DB(p.world.content, p.items, run)
    else
      var items := if raw.Some? then FailItems(p.items, raw.value) else p.items;
      var final := raw.Some? && FailureIsFinal(p.items, raw.value);
      if env.advanceFails then DB(p.world.content, items, run)
      else
        DB(p.world.content, items,
           run.Advanced(position, Counters(p.fetched, p.world.tally),
                        if final || run.attempts >= 3 then DeadLettered else Partial))
  }

  /** What a claimed run does with a source. `run` is the row as the claim left it. */
  function Work(source: seq<Record>, adapter: Adapter, db: DB, run: Run, env: Env): (r: DB)
    requires LinksInRange(db.content)
    ensures LinksInRange(r.content)
  {
    var fetched := FetchFrom(Available(source, run.cursor), run.batchSize + 1, env.attempts,
                             0, adapter.maxRetries);
    var todo := fetched.records[..Min(run.batchSize, |fetched.records|)];
    var p := Progress(World(db.content, run.counters.tally), run.counters.fetched, db.items);
    match Process(run.id, run.dry, p, todo, run.cursor, env.faults, |todo|)
    case Escaped(q) => DB(q.world.content, q.items, run)
    case Broke(q, position, raw) => HandleFailure(run, q, position, raw, env)
    case Going(q) =>
      DB(q.world.content, q.items,
         if env.advanceFails then run else
           run.Advanced(run.cursor + |todo|, Counters(q.fetched, q.world.tally),
                        EndStatus(run, fetched, |todo|)))
  }

  /** One call of the worker on the run. */
  function RunBatch(source: seq<Record>, adapter: Adapter, db: DB, env: Env): (r: DB)
    requires LinksInRange(db.content)
    ensures LinksInRange(r.content)
  {
    if !adapter.Approved() || env.claimFails || !db.run.Claimable() then db
    else
      var run := db.run.Claimed();
      if run.adapter != adapter.id then
        db.(run := if env.advanceFails then run else run.(status := Failed))
      else
        Work(source, adapter, db, run, env)
  }

  /** Any number of calls, each under its own faults. */
  function RunMany(source: seq<Record>, adapter: Adapter, db: DB, envs: seq<Env>): (r: DB)
    requires LinksInRange(db.content)
    ensures LinksInRange(r.content)
  {
    if envs == [] then db else
      RunBatch(source, adapter, RunMany(source, adapter, db, envs[..|envs| - 1]), envs[|envs| - 1])
  }
}
