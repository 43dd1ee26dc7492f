/** What survives every interleaving of administrators and ingestion. */
module LifecycleTheorems {
  import opened Prelude
  import opened Rules
  import opened Catalogue
  import opened Lifecycle
  import CatalogueTheorems

  /******* Reading the log *******/

  /** A recorded review, or a trusted source creating the scholarship. */
  predicate Vouches(e: Event) {
    e.kind == ByAction(Review) || (e.kind == ByIngestion(true) && e.before.None?)
  }

  /** The scholarship (re-)enters review with this write. */
  predicate Reenters(e: Event) {
    && e.after.status == InReview
    && (|| e.kind == ByAction(SubmitForReview)
        || e.kind == ByIngestion(false)
        || (e.kind == ByEdit && e.before.Some? && e.before.value.status == Published))
  }

  ghost predicate VouchedAt(log: seq<Event>, id: nat, j: nat) {
    && j < |log| && log[j].id == id && Vouches(log[j])
    && (forall k | j < k < |log| && log[k].id == id :: !Reenters(log[k]))
  }

  /** Vouched for since it last entered review. */
  ghost predicate Vouched(log: seq<Event>, id: nat) {
    exists j: nat :: VouchedAt(log, id, j)
  }

  predicate BecomesPublished(e: Event) {
    e.after.status == Published && (e.before.None? || e.before.value.status != Published)
  }

  /** What must hold of a write, given the log before it. */
  ghost predicate Proper(log: seq<Event>, e: Event) {
    && (BecomesPublished(e) ==>
          || (e.kind == ByIngestion(true) && e.before.None?)
          || (&& e.kind == ByAction(Publish)
              && e.before.Some? && e.before.value.status == InReview
              && e.after.verified && e.after.requirements != []
              && Vouched(log, e.id)))
    && (e.before.Some? ==> e.after.version == e.before.value.version + 1)
    && (e.before.Some? && e.before.value.status == Archived ==>
          e.kind.ByIngestion? && e.after.status == if e.kind.trusted then Archived else InReview)
  }

  ghost predicate ProperLog(log: seq<Event>) {
    forall m | 0 <= m < |log| :: Proper(log[..m], log[m])
  }

  /******* The invariant *******/

  /** What every stored row satisfies. */
  predicate Coherent(row: Scholarship) {
    && (row.status == Published ==> row.verified)
    && ((row.fields[Amount] == Null) == (row.fields[Currency] == Null))
    && (row.fields[DeadlineAt] != Null ==> row.fields[Deadline] != Null)
  }

  ghost predicate RowsOk(rows: seq<Scholarship>, log: seq<Event>) {
    forall i | 0 <= i < |rows| ::
      Coherent(rows[i]) && (rows[i].verified ==> Vouched(log, i))
  }

  ghost predicate Admitted(seen: Scholarship, request: Request) {
    exists today: Date :: Refusal(seen, request, today).None?
  }

  /** A request in flight: unless its row has moved on, the row is still what the request read. */
  ghost predicate PendingOk(rows: seq<Scholarship>, p: Pending) {
    && p.id < |rows|
    && p.expected <= p.seen.version <= rows[p.id].version
    && (rows[p.id].version == p.seen.version ==>
          && rows[p.id] == p.seen
          && (p.requirementsSeen ==> p.seen.requirements != []))
    && Admitted(p.seen, p.request)
  }

  ghost predicate AllPendingOk(s: State) {
    forall c | c in s.pending :: PendingOk(s.content.rows, s.pending[c])
  }

  ghost predicate Safe(s: State) {
    && LinksInRange(s.content)
    && RowsOk(s.content.rows, s.log)
    && AllPendingOk(s)
    && ProperLog(s.log)
  }

  /******* How rows move *******/

  /** Rows are never removed, and a row that changes gets a higher version. */
  ghost predicate Evolves(a: seq<Scholarship>, b: seq<Scholarship>) {
    && |a| <= |b|
    && (forall i | 0 <= i < |a| :: b[i] == a[i] || b[i].version > a[i].version)
  }

  lemma ApplyEvolves(t: Content, run: nat, raw: RawKey, n: Normalized, dry: bool)
    requires LinksInRange(t) && Apply(t, run, raw, n, dry).Applied?
    ensures Evolves(t.rows, Apply(t, run, raw, n, dry).content.rows)
  {
    hide UpdateHistory;
    hide CreatedRow;
    hide Overwrite;
    hide Differs;
    hide UrlTaken;
    hide RecordTaken;
    hide Candidates;
  }

  lemma NextEvolves(s: State, step: Step)
    requires LinksInRange(s.content)
    ensures Evolves(s.content.rows, Next(s, step).content.rows)
  {
    hide Apply;
    hide UrlTaken;
    hide Refusal;
    hide UpsertProvider;
    if step.Ingest? && Apply(s.content, step.run, step.raw, step.n, step.dry).Applied? {
      ApplyEvolves(s.content, step.run, step.raw, step.n, step.dry);
    }
  }

  /** Along any run, one version of a scholarship is one row: nothing changes without a new version. */
  lemma {:induction false} VersionFixesRow(s: State, steps: seq<Step>, id: nat)
    requires LinksInRange(s.content) && id < |s.content.rows|
    ensures var t := After(s, steps);
            && id < |t.content.rows|
            && t.content.rows[id].version >= s.content.rows[id].version
            && (t.content.rows[id].version == s.content.rows[id].version ==>
                  t.content.rows[id] == s.content.rows[id])
  {
    hide Next;
    if steps != [] {
      VersionFixesRow(s, steps[..|steps| - 1], id);
      NextEvolves(After(s, steps[..|steps| - 1]), steps[|steps| - 1]);
    }
  }

  /******* Logging a write *******/

  lemma VouchedKept(log: seq<Event>, e: Event, id: nat)
    requires Vouched(log, id) && (e.id != id || !Reenters(e))
    ensures Vouched(log + [e], id)
  {
    var j: nat :| VouchedAt(log, id, j);
    assert VouchedAt(log + [e], id, j);
  }

  lemma VouchedNow(log: seq<Event>, e: Event)
    requires Vouches(e)
    ensures Vouched(log + [e], e.id)
  {
    assert VouchedAt(log + [e], e.id, |log|);
  }

  lemma ProperLogKept(log: seq<Event>, e: Event)
    requires ProperLog(log) && Proper(log, e)
    ensures ProperLog(log + [e])
  {
    forall m | 0 <= m <= |log|
      ensures Proper((log + [e])[..m], (log + [e])[m])
    {
      assert (log + [e])[..m] == log[..m];
      assert log[..|log|] == log;
    }
  }

  /** A row may be written with this event. */
  ghost predicate GoodWrite(log: seq<Event>, e: Event) {
    && Proper(log, e)
    && Coherent(e.after)
    && (e.after.verified ==> Vouches(e) || (e.before.Some? && e.before.value.verified && !Reenters(e)))
  }

  lemma WriteKeepsRows(rows: seq<Scholarship>, log: seq<Event>, e: Event)
    requires RowsOk(rows, log) && ProperLog(log) && GoodWrite(log, e)
    requires e.id <= |rows|
    requires e.id < |rows| ==> e.before == Some(rows[e.id])
    requires e.id == |rows| ==> e.before.None?
    ensures RowsOk(if e.id < |rows| then rows[e.id := e.after] else rows + [e.after], log + [e])
    ensures ProperLog(log + [e])
  {
    hide Proper;
    hide Coherent;
    hide Vouched;
    hide Reenters;
    hide Vouches;
    ProperLogKept(log, e);
    var rows' := if e.id < |rows| then rows[e.id := e.after] else rows + [e.after];
    forall i | 0 <= i < |rows'|
      ensures Coherent(rows'[i]) && (rows'[i].verified ==> Vouched(log + [e], i))
    {
      if i != e.id {
        if rows'[i].verified { VouchedKept(log, e, i); }
      } else if e.after.verified {
        if Vouches(e) { VouchedNow(log, e); } else { VouchedKept(log, e, i); }
      }
    }
  }

  lemma PendingKept(s: State, s': State)
    requires AllPendingOk(s) && Evolves(s.content.rows, s'.content.rows)
    requires forall c | c in s'.pending :: c in s.pending && s'.pending[c] == s.pending[c]
    ensures AllPendingOk(s')
  {
    hide Admitted;
    forall c | c in s'.pending ensures PendingOk(s'.content.rows, s'.pending[c]) {
      assert PendingOk(s.content.rows, s.pending[c]);
    }
  }

  /******* Each step is safe *******/

  /** A version the client has seen pins the row: what is written over is what was checked. */
  lemma CommitIsGood(s: State, p: Pending)
    requires Safe(s) && PendingOk(s.content.rows, p) && CanCommit(s, p)
    ensures var row := s.content.rows[p.id];
            GoodWrite(s.log, Event(p.id, KindOf(p.request), Some(row), Written(row, p.request)))
  {
    hide Vouched;
    var row := s.content.rows[p.id];
    assert row == p.seen;
    var today: Date :| Refusal(row, p.request, today).None?;
    match p.request {
      case Edit(changes) => EditIsGood(s.log, p.id, row, changes, today);
      case Act(action, notes) => ActionIsGood(s.log, p.id, row, action, notes, today);
    }
  }

  lemma EditIsGood(log: seq<Event>, id: nat, row: Scholarship, changes: map<Column, Value>, today: Date)
    requires Coherent(row) && Refusal(row, Edit(changes), today).None? && row.status != Archived
    ensures GoodWrite(log, Event(id, ByEdit, Some(row), Written(row, Edit(changes))))
  {
    hide Vouched;
    hide Cents;
  }

  lemma ActionIsGood(log: seq<Event>, id: nat, row: Scholarship, action: Action, notes: Option<string>, today: Date)
    requires Coherent(row) && Refusal(row, Act(action, notes), today).None?
    requires row.verified ==> Vouched(log, id)
    requires action == Publish ==> row.requirements != []
    ensures GoodWrite(log, Event(id, ByAction(action), Some(row), Written(row, Act(action, notes))))
  {
    hide Vouched;
  }

  lemma CommitShape(s: State, client: nat)
    ensures var s' := DoCommit(s, client);
            && Evolves(s.content.rows, s'.content.rows)
            && (forall c | c in s'.pending :: c in s.pending && s'.pending[c] == s.pending[c])
  {
    hide Matches;
    hide Refusal;
  }

  lemma CommitKeepsPending(s: State, client: nat)
    requires LinksInRange(s.content) && AllPendingOk(s)
    ensures AllPendingOk(DoCommit(s, client))
  {
    CommitShape(s, client);
    hide Evolves;
    hide DoCommit;
    hide AllPendingOk;
    PendingKept(s, DoCommit(s, client));
  }

  lemma CommitKeepsLog(s: State, client: nat)
    requires Safe(s)
    ensures var s' := DoCommit(s, client);
            LinksInRange(s'.content) && RowsOk(s'.content.rows, s'.log) && ProperLog(s'.log)
  {
    NextKeepsLinks(s, Commit(client));
    hide Vouched;
    hide ProperLog;
    hide RowsOk;
    hide GoodWrite;
    hide Written;
    hide PendingOk;
    hide LinksInRange;
    if client in s.pending && CanCommit(s, s.pending[client]) {
      var p := s.pending[client];
      CommitIsGood(s, p);
      var row := s.content.rows[p.id];
      WriteKeepsRows(s.content.rows, s.log, Event(p.id, KindOf(p.request), Some(row), Written(row, p.request)));
    }
  }

  lemma CreateShape(s: State, provider: string, website: Option<string>, fields: Fields,
                    requirements: seq<Requirement>)
    ensures var s' := DoCreate(s, provider, website, fields, requirements);
            && Evolves(s.content.rows, s'.content.rows)
            && s'.pending == s.pending
            && s'.content.links == s.content.links
            && (s' == s ||
                (var row := DraftRow(provider, fields, requirements);
                 && WellFormed(fields)
                 && s'.content.rows == s.content.rows + [row]
                 && s'.log == s.log + [Event(|s.content.rows|, ByCreate, None, row)]))
  {
    hide UrlTaken;
    hide DraftRow;
    hide UpsertProvider;
    hide WellFormed;
  }

  lemma CreateIsSafe(s: State, provider: string, website: Option<string>, fields: Fields,
                     requirements: seq<Requirement>)
    requires Safe(s)
    ensures Safe(DoCreate(s, provider, website, fields, requirements))
  {
    var s' := DoCreate(s, provider, website, fields, requirements);
    CreateShape(s, provider, website, fields, requirements);
    assert LinksInRange(s'.content);
    hide DoCreate;
    hide Evolves;
    hide AllPendingOk;
    hide ProperLog;
    hide RowsOk;
    hide LinksInRange;
    hide DraftRow;
    hide WellFormed;
    PendingKept(s, s');
    if s' != s {
      DraftIsGood(s.log, |s.content.rows|, provider, fields, requirements);
      hide GoodWrite;
      WriteKeepsRows(s.content.rows, s.log,
                     Event(|s.content.rows|, ByCreate, None, DraftRow(provider, fields, requirements)));
    }
  }

  lemma DraftIsGood(log: seq<Event>, id: nat, provider: string, fields: Fields, requirements: seq<Requirement>)
    requires WellFormed(fields)
    ensures GoodWrite(log, Event(id, ByCreate, None, DraftRow(provider, fields, requirements)))
  {
    StoredIsNull(fields);
    hide StoredFields, Vouched;
  }

  lemma BeginIsSafe(s: State, client: nat, id: nat, expected: nat, request: Request, today: Date)
    requires Safe(s) && Honest(s, Begin(client, id, expected, request, today))
    ensures Safe(DoBegin(s, client, id, expected, request, today))
  {
    hide ProperLog;
    hide RowsOk;
    hide LinksInRange;
    hide Refusal;
  }

  lemma ReadIsSafe(s: State, client: nat)
    requires Safe(s)
    ensures Safe(DoReadRequirements(s, client))
  {
    hide ProperLog;
    hide RowsOk;
    hide LinksInRange;
    hide Admitted;
  }

  /** The shape of the one event a record's write is logged as. */
  ghost predicate EventFits(rows: seq<Scholarship>, rows': seq<Scholarship>, e: Event) {
    && e.id <= |rows|
    && (e.id < |rows| ==> e.before == Some(rows[e.id]) && rows' == rows[e.id := e.after])
    && (e.id == |rows| ==> e.before.None? && rows' == rows + [e.after])
  }

  lemma ApplyRows(t: Content, run: nat, raw: RawKey, n: Normalized, dry: bool)
    requires LinksInRange(t) && Apply(t, run, raw, n, dry).Applied?
    ensures var r := Apply(t, run, raw, n, dry);
            && (dry ==> r.content.rows == t.rows)
            && (!dry && r.outcome == Created ==> r.content.rows == t.rows + [CreatedRow(n)])
            && (!dry && r.outcome == Updated ==>
                  && n.url in t.links
                  && var id := t.links[n.url].scholarship;
                  r.content.rows == t.rows[id := UpdatedRow(t.rows[id], n)])
            && (r.outcome == Unchanged || r.outcome == Duplicate ==> r.content.rows == t.rows)
  {
    hide UpdateHistory;
    hide CreatedRow;
    hide UpdatedRow;
    hide Differs;
    hide UrlTaken;
    hide RecordTaken;
    hide Candidates;
    hide UpsertProvider;
  }

  lemma IngestShape(t: Content, run: nat, raw: RawKey, n: Normalized, dry: bool)
    requires LinksInRange(t) && Apply(t, run, raw, n, dry).Applied?
    ensures var r := Apply(t, run, raw, n, dry);
            && |r.content.rows| >= |t.rows|
            && match IngestEvent(t, r.content, n, r.outcome, dry)
               case None => r.content.rows == t.rows
               case Some(e) =>
                 && EventFits(t.rows, r.content.rows, e)
                 && e.kind == ByIngestion(n.trusted)
                 && e.after == (if e.id < |t.rows| then UpdatedRow(t.rows[e.id], n) else CreatedRow(n))
  {
    ApplyRows(t, run, raw, n, dry);
    hide Apply;
    hide CreatedRow;
    hide UpdatedRow;
  }

  lemma StoredIsNull(fields: Fields)
    ensures forall c: Column :: StoredFields(fields)[c] == Null <==> fields[c] == Null
  {
    hide Cents;
  }

  lemma CreatedIsGood(log: seq<Event>, id: nat, n: Normalized)
    requires n.FromNormalizer()
    ensures GoodWrite(log, Event(id, ByIngestion(n.trusted), None, CreatedRow(n)))
  {
    StoredIsNull(n.fields);
    hide StoredFields, Vouched;
  }

  lemma UpdatedIsGood(log: seq<Event>, id: nat, row: Scholarship, n: Normalized)
    requires Coherent(row) && n.FromNormalizer()
    ensures GoodWrite(log, Event(id, ByIngestion(n.trusted), Some(row), UpdatedRow(row, n)))
  {
    hide Cents;
    hide Vouched;
    hide Overwrite;
    hide ChangedColumns;
    OverwrittenIsNull(row.fields, n.fields);
  }

  /** After an update a column is null exactly when the record leaves it null. */
  lemma OverwrittenIsNull(was: Fields, now: Fields)
    ensures var after := Overwrite(was, now, ChangedColumns(was, now));
            forall c: Column :: after[c] == Null <==> now[c] == Null
  {
    forall c: Column
      ensures Overwrite(was, now, ChangedColumns(was, now))[c] == Null <==> now[c] == Null
    {
      CatalogueTheorems.OverwrittenColumn(was, now, c);
    }
  }

  lemma IngestIsSafe(s: State, run: nat, raw: RawKey, n: Normalized, dry: bool)
    requires Safe(s) && n.FromNormalizer()
    ensures Safe(DoIngest(s, run, raw, n, dry))
  {
    var r := Apply(s.content, run, raw, n, dry);
    if r.Applied? {
      ApplyKeepsLinksInRange(s.content, run, raw, n, dry);
      ApplyEvolves(s.content, run, raw, n, dry);
      IngestShape(s.content, run, raw, n, dry);
      hide Apply;
      hide Evolves;
      hide AllPendingOk;
      hide ProperLog;
      hide LinksInRange;
      hide Coherent;
      hide Vouched;
      hide CreatedRow;
      hide UpdatedRow;
      hide GoodWrite;
      var event := IngestEvent(s.content, r.content, n, r.outcome, dry);
      hide IngestEvent;
      PendingKept(s, DoIngest(s, run, raw, n, dry));
      if event.Some? {
        var e := event.value;
        if e.id < |s.content.rows| {
          UpdatedIsGood(s.log, e.id, s.content.rows[e.id], n);
        } else {
          CreatedIsGood(s.log, e.id, n);
        }
        hide RowsOk;
        WriteKeepsRows(s.content.rows, s.log, e);
      }
    }
  }

  lemma NextIsSafe(s: State, step: Step)
    requires Safe(s) && Honest(s, step)
    ensures Safe(Next(s, step))
  {
    match step {
      case Create(provider, website, fields, requirements) =>
        CreateIsSafe(s, provider, website, fields, requirements);
      case Begin(client, id, expected, request, today) =>
        BeginIsSafe(s, client, id, expected, request, today);
      case ReadRequirements(client) => ReadIsSafe(s, client);
      case Commit(client) =>
        CommitKeepsPending(s, client);
        CommitKeepsLog(s, client);
      case Abort(client) => assert Safe(s.(pending := s.pending - {client}));
      case Ingest(run, raw, n, dry) => IngestIsSafe(s, run, raw, n, dry);
    }
  }

  lemma {:induction false} HonestRunsStaySafe(s: State, steps: seq<Step>)
    requires Safe(s) && HonestRun(s, steps)
    ensures Safe(After(s, steps))
  {
    hide Next;
    hide RowsOk;
    hide AllPendingOk;
    hide ProperLog;
    hide Honest;
    if steps != [] {
      var front := steps[..|steps| - 1];
      forall k | 0 <= k < |front| ensures Honest(After(s, front[..k]), front[k]) {
        assert front[..k] == steps[..k];
      }
      HonestRunsStaySafe(s, front);
      assert steps[..|front|] == front;
      NextIsSafe(After(s, front), steps[|front|]);
    }
  }

  lemma EmptyIsSafe()
    ensures Safe(EMPTY)
  {
  }

  /**
    In every interleaving of administrators and ingestion in which expected versions come from
    earlier responses: a published scholarship is verified; amounts come with currencies and
    deadline instants with deadlines; and the log is proper, so a scholarship becomes published
    only by a trusted source creating it, or by an administrator, with at least one requirement
    and a review recorded since it last entered review; and only ingestion moves an archived one.
   */
  lemma EveryReachableStateIsSafe(steps: seq<Step>)
    requires HonestRun(EMPTY, steps)
    ensures var s := After(EMPTY, steps);
            && (forall i | 0 <= i < |s.content.rows| ::
                  && Coherent(s.content.rows[i])
                  && (s.content.rows[i].verified ==> Vouched(s.log, i)))
            && ProperLog(s.log)
  {
    EmptyIsSafe();
    HonestRunsStaySafe(EMPTY, steps);
  }

  /******* What the safety rests on *******/

  lemma {:induction false} AfterAppend(s: State, a: seq<Step>, b: seq<Step>)
    requires LinksInRange(s.content)
    ensures After(s, a + b) == After(After(s, a), b)
  {
    hide Next;
    if b == [] {
      assert a + b == a;
    } else {
      assert (a + b)[..|a + b| - 1] == a + b[..|b| - 1];
      AfterAppend(s, a, b[..|b| - 1]);
    }
  }

  lemma AfterOne(s: State, step: Step)
    requires LinksInRange(s.content)
    ensures After(s, [step]) == Next(s, step)
  {
    hide Next;
    assert [step][..0] == [];
    assert After(s, []) == s;
  }

  /** A scholarship an untrusted source can update: linked by its own URL, which no other row has. */
  ghost predicate Updatable(t: Content, id: nat, url: string) {
    && LinksInRange(t) && id < |t.rows|
    && url in t.links && t.links[url].scholarship == id
    && t.rows[id].fields[SourceUrl] == Text(url)
    && !UrlTaken(t.rows, Text(url), id)
  }

  /** A record that retitles the row and changes nothing a history row would refuse. */
  function Retitled(row: Scholarship, url: string): Normalized {
    var fields := row.fields[Title := Text(if row.fields[Title] == Text("a") then "b" else "a")];
    Normalized(row.provider, None,
               fields[SourceUrl := Text(url)][ReviewerNotes := Null][DeadlineAt := Null]
                     [DeadlineTimezone := Null][Amount := Null][Currency := Null],
               [], "source", "record", url, "", false)
  }

  lemma UpdateApplies(t: Content, run: nat, raw: RawKey, n: Normalized)
    requires LinksInRange(t) && n.url in t.links
    requires var id := t.links[n.url].scholarship;
             && Differs(t.rows[id], t.providers, n) && !HistoryRefused(t.rows[id], t.providers, n)
             && UpdateFits(t.rows[id], t.providers, n) && !UrlTaken(t.rows, n.fields[SourceUrl], id)
    ensures var r := Apply(t, run, raw, n, false);
            var id := t.links[n.url].scholarship;
            && r.Applied? && r.outcome == Updated
            && r.content.rows == t.rows[id := UpdatedRow(t.rows[id], n)]
            && n.url in r.content.links && r.content.links[n.url].scholarship == id
            && LinksInRange(r.content)
  {
    hide UpdateHistory;
    hide UrlTaken;
    hide UpdatedRow;
    hide Differs;
    hide HistoryRefused, UpdateFits;
    hide ProviderChanged;
    hide UpsertProvider;
  }

  lemma RetitledApplies(t: Content, run: nat, raw: RawKey, id: nat, url: string)
    requires Updatable(t, id, url)
    ensures var n := Retitled(t.rows[id], url);
            var r := Apply(t, run, raw, n, false);
            && n.FromNormalizer()
            && r.Applied? && r.outcome == Updated
            && Updatable(r.content, id, url)
            && r.content.rows[id].version == t.rows[id].version + 1
            && r.content.rows[id].status == InReview
            && !r.content.rows[id].verified
  {
    hide Retitled, Apply, UpdatedRow, Differs, HistoryRefused, UpdateFits, UrlTaken;
    var n := Retitled(t.rows[id], url);
    RetitledDiffers(t.rows[id], t.providers, url);
    RetitledRow(t.rows[id], url);
    OneRowUrls(t.rows, id, UpdatedRow(t.rows[id], n), Text(url));
    UpdateApplies(t, run, raw, n);
  }

  lemma RetitledDiffers(row: Scholarship, providers: map<string, Option<string>>, url: string)
    ensures var n := Retitled(row, url);
            && n.FromNormalizer() && n.url == url && n.fields[SourceUrl] == Text(url)
            && Differs(row, providers, n) && !HistoryRefused(row, providers, n) && UpdateFits(row, providers, n)
  {
    var n := Retitled(row, url);
    assert row.fields[Title] != n.fields[Title];
    CatalogueTheorems.SettledRow(row, providers, n);
    hide ChangedColumns;
  }

  lemma RetitledRow(row: Scholarship, url: string)
    ensures var r := UpdatedRow(row, Retitled(row, url));
            && r.version == row.version + 1 && r.status == InReview && !r.verified
            && r.fields[SourceUrl] == Text(url)
  {
    CatalogueTheorems.OverwrittenColumn(row.fields, Retitled(row, url).fields, SourceUrl);
    hide Overwrite;
    hide ChangedColumns;
  }

  lemma OneRowUrls(rows: seq<Scholarship>, id: nat, row: Scholarship, url: Value)
    requires id < |rows| && !UrlTaken(rows, url, id)
    ensures !UrlTaken(rows[id := row], url, id)
  {
  }

  const ANY_RAW := RawKey(0, "record", "digest")

  ghost predicate OnlyIngestion(steps: seq<Step>) {
    forall i | 0 <= i < |steps| :: steps[i].Ingest? && steps[i].n.FromNormalizer()
  }

  /** One such update, as a step of the machine. */
  lemma UpdateStep(s: State, id: nat, url: string) returns (step: Step)
    requires Updatable(s.content, id, url)
    ensures step.Ingest? && step.n.FromNormalizer()
    ensures var t := Next(s, step);
            && Updatable(t.content, id, url)
            && t.pending == s.pending
            && t.content.rows[id].version == s.content.rows[id].version + 1
            && t.content.rows[id].status == InReview && !t.content.rows[id].verified
  {
    RetitledApplies(s.content, 0, ANY_RAW, id, url);
    var n := Retitled(s.content.rows[id], url);
    step := Ingest(0, ANY_RAW, n, false);
    IngestContent(s, 0, ANY_RAW, n, false);
    hide Apply;
    hide Retitled;
    hide Next;
    hide UrlTaken;
    hide LinksInRange;
  }

  lemma IngestContent(s: State, run: nat, raw: RawKey, n: Normalized, dry: bool)
    requires LinksInRange(s.content) && Apply(s.content, run, raw, n, dry).Applied?
    ensures var t := Next(s, Ingest(run, raw, n, dry));
            t.content == Apply(s.content, run, raw, n, dry).content && t.pending == s.pending
  {
    hide Apply;
    hide IngestEvent;
  }

  /** `k` updates of the scholarship by an untrusted source. */
  lemma {:induction false} Updates(s: State, id: nat, url: string, k: nat) returns (r: seq<Step>)
    requires Updatable(s.content, id, url)
    ensures OnlyIngestion(r)
    ensures var t := After(s, r);
            && Updatable(t.content, id, url)
            && t.pending == s.pending
            && t.content.rows[id].version == s.content.rows[id].version + k
            && (k > 0 ==> t.content.rows[id].status == InReview && !t.content.rows[id].verified)
  {
    if k == 0 {
      r := [];
    } else {
      var front := Updates(s, id, url, k - 1);
      var t := After(s, front);
      hide UrlTaken;
      var step := UpdateStep(t, id, url);
      hide Next;
      r := front + [step];
      AfterAppend(s, front, [step]);
      AfterOne(t, step);
      hide After;
    }
  }

  /** A publish request with ingestion between its checks and its update. */
  function PublishAround(client: nat, id: nat, expected: nat, today: Date, between: seq<Step>): seq<Step> {
    [Begin(client, id, expected, Act(Publish, None), today), ReadRequirements(client)]
    + between + [Commit(client)]
  }

  /** A reviewed scholarship that could be published. */
  ghost predicate Publishable(row: Scholarship, today: Date) {
    && row.status == InReview && row.requirements != []
    && Refusal(row, Act(Publish, None), today).None?
  }

  lemma PublishReads(s: State, client: nat, id: nat, expected: nat, today: Date)
    requires LinksInRange(s.content) && id < |s.content.rows| && client !in s.pending
    requires Publishable(s.content.rows[id], today)
    ensures var row := s.content.rows[id];
            After(s, [Begin(client, id, expected, Act(Publish, None), today), ReadRequirements(client)])
            == s.(pending := s.pending[client := Pending(id, expected, Act(Publish, None), row, true)])
  {
    var begin := Begin(client, id, expected, Act(Publish, None), today);
    var read := ReadRequirements(client);
    assert [begin] + [read] == [begin, read];
    AfterAppend(s, [begin], [read]);
    AfterOne(s, begin);
    AfterOne(After(s, [begin]), read);
  }

  lemma LastCommit(t: State, client: nat, id: nat, expected: nat)
    requires LinksInRange(t.content) && id < |t.content.rows| && client in t.pending
    requires var p := t.pending[client];
             p.id == id && p.expected == expected && p.request == Act(Publish, None)
             && p.requirementsSeen && p.seen.status == InReview
    requires t.content.rows[id].version == expected && t.content.rows[id].status == InReview
    ensures var u := After(t, [Commit(client)]);
            && id < |u.content.rows| && u.content.rows[id].status == Published
            && u.content.rows[id].verified == t.content.rows[id].verified
  {
    AfterOne(t, Commit(client));
  }

  ghost predicate PublishedUnverified(s: State, id: nat) {
    id < |s.content.rows| && s.content.rows[id].status == Published && !s.content.rows[id].verified
  }

  /** If the version is a guess above the current one, updates can slip in until it is right. */
  lemma GuessedVersionPublishesUnverified(s: State, client: nat, id: nat, url: string, expected: nat, today: Date)
    returns (between: seq<Step>)
    requires Updatable(s.content, id, url) && client !in s.pending
    requires Publishable(s.content.rows[id], today)
    requires expected > s.content.rows[id].version
    ensures OnlyIngestion(between)
    ensures PublishedUnverified(After(s, PublishAround(client, id, expected, today, between)), id)
  {
    var opening := [Begin(client, id, expected, Act(Publish, None), today), ReadRequirements(client)];
    PublishReads(s, client, id, expected, today);
    var s2 := After(s, opening);
    between := Updates(s2, id, url, expected - s.content.rows[id].version);
    hide Refusal;
    var t := After(s2, between);
    AfterAppend(s, opening, between);
    AfterAppend(s, opening + between, [Commit(client)]);
    LastCommit(t, client, id, expected);
  }

  lemma IngestionIsHonest(s: State, client: nat, id: nat, expected: nat, today: Date, between: seq<Step>)
    requires LinksInRange(s.content) && OnlyIngestion(between)
    requires id < |s.content.rows| && expected <= s.content.rows[id].version
    ensures HonestRun(s, PublishAround(client, id, expected, today, between))
  {
    hide Next;
    var steps := PublishAround(client, id, expected, today, between);
    forall k | 0 <= k < |steps| ensures Honest(After(s, steps[..k]), steps[k]) {
      if k == 0 {
        assert steps[..0] == [];
      } else if 2 <= k < |steps| - 1 {
        assert steps[k] == between[k - 2];
      }
    }
  }

  /**
    Publishing is safe against every interleaved ingestion exactly when the expected version is
    not above the version of the row that was read.
   */
  lemma PublishIsSafeExactlyForSeenVersions(s: State, client: nat, id: nat, url: string, expected: nat, today: Date)
    requires Safe(s) && Updatable(s.content, id, url) && client !in s.pending
    requires Publishable(s.content.rows[id], today)
    ensures (forall between | OnlyIngestion(between) ::
               !PublishedUnverified(After(s, PublishAround(client, id, expected, today, between)), id))
            <==> expected <= s.content.rows[id].version
  {
    hide After;
    hide PublishAround;
    hide OnlyIngestion;
    if expected <= s.content.rows[id].version {
      forall between | OnlyIngestion(between)
        ensures !PublishedUnverified(After(s, PublishAround(client, id, expected, today, between)), id)
      {
        IngestionIsHonest(s, client, id, expected, today, between);
        HonestRunsStaySafe(s, PublishAround(client, id, expected, today, between));
      }
    } else {
      var between := GuessedVersionPublishesUnverified(s, client, id, url, expected, today);
    }
  }

  /******* What the guarantees do not include *******/

  /**
    A review leaves a note, and ingestion writes "no note" over it: whatever an untrusted source
    sends next for a scholarship with a note, even the record it was created from, counts as a
    change, sends the scholarship back to review and takes its verification away.
   */
  lemma NextIngestionDemotesReviewed(t: Content, run: nat, raw: RawKey, n: Normalized)
    requires LinksInRange(t) && n.FromNormalizer() && !n.trusted && n.url in t.links
    requires t.rows[t.links[n.url].scholarship].fields[ReviewerNotes] != Null
    requires Apply(t, run, raw, n, false).Applied?
    ensures var r := Apply(t, run, raw, n, false);
            && r.outcome == Updated
            && t.links[n.url].scholarship < |r.content.rows|
            && var row := r.content.rows[t.links[n.url].scholarship];
            && row.status == InReview && !row.verified && row.fields[ReviewerNotes] == Null
  {
    hide UpdateHistory;
    hide Overwrite;
    hide UrlTaken;
    hide ProviderChanged;
    var row := t.rows[t.links[n.url].scholarship];
    CatalogueTheorems.SettledRow(row, t.providers, n);
    hide ChangedColumns;
    CatalogueTheorems.OverwrittenColumn(row.fields, n.fields, ReviewerNotes);
  }

  /** The row and the record say the same, leaving aside the reviewer notes. */
  ghost predicate AgreesButForNotes(row: Scholarship, providers: map<string, Option<string>>, n: Normalized) {
    && (forall c: Column | c != ReviewerNotes :: row.fields[c] == n.fields[c])
    && row.requirements == n.requirements && !ProviderChanged(row, providers, n)
  }

  lemma NotesDecide(row: Scholarship, providers: map<string, Option<string>>, n: Normalized)
    requires n.FromNormalizer() && AgreesButForNotes(row, providers, n)
    ensures !Differs(row, providers, n) <==> row.fields[ReviewerNotes] == Null
  {
    hide ChangedColumns, ProviderChanged;
    CatalogueTheorems.SettledRow(row, providers, n);
  }

  /**
    For the record of an untrusted source that says what the row says: the row stays as it is
    exactly when it has no reviewer notes, and keeps status and verification exactly when it has
    none or has nothing to lose, being in review and unverified.
   */
  lemma RepeatKeepsReviewExactlyWithoutNotes(t: Content, run: nat, raw: RawKey, n: Normalized)
    requires LinksInRange(t) && n.FromNormalizer() && !n.trusted && n.url in t.links
    requires AgreesButForNotes(t.rows[t.links[n.url].scholarship], t.providers, n)
    requires Apply(t, run, raw, n, false).Applied?
    ensures t.links[n.url].scholarship < |Apply(t, run, raw, n, false).content.rows|
    ensures var id := t.links[n.url].scholarship;
            var row, row' := t.rows[id], Apply(t, run, raw, n, false).content.rows[id];
            && (row' == row <==> row.fields[ReviewerNotes] == Null)
            && (row'.status == row.status && row'.verified == row.verified
                <==> row.fields[ReviewerNotes] == Null || (row.status == InReview && !row.verified))
  {
    var row := t.rows[t.links[n.url].scholarship];
    NotesDecide(row, t.providers, n);
    CatalogueTheorems.ExistingShape(t, run, raw, n);
    DemotedRow(row, n);
    hide Apply, Differs, UpdatedRow, AgreesButForNotes, UrlTaken, HistoryRefused, UpdateFits, UpsertProvider;
  }

  lemma DemotedRow(row: Scholarship, n: Normalized)
    requires !n.trusted
    ensures var r := UpdatedRow(row, n); r.status == InReview && !r.verified && r != row
  {
    hide Overwrite, ChangedColumns;
  }
}
