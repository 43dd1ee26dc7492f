/** Whether what is published is what was reviewed: the log of every run, read row by row. */
module ReviewedContent {
  import opened Prelude
  import opened Rules
  import opened Catalogue
  import opened Lifecycle
  import opened LifecycleTheorems

  /******* The log tells each row's history *******/

  /** What a review is about: everything but the reviewer's notes and the lifecycle columns. */
  ghost predicate SameContent(a: Scholarship, b: Scholarship) {
    && a.provider == b.provider && a.requirements == b.requirements
    && (forall c: Column | c != ReviewerNotes :: a.fields[c] == b.fields[c])
  }

  /** The row the log last wrote for a scholarship. */
  function LastAfter(log: seq<Event>, id: nat): Option<Scholarship> {
    if log == [] then None
    else if log[|log| - 1].id == id then Some(log[|log| - 1].after)
    else LastAfter(log[..|log| - 1], id)
  }

  /** What the kind of a write says about its rows. */
  ghost predicate EventFitsKind(e: Event) {
    match e.kind
    case ByCreate => e.before.None?
    case ByEdit => e.before.Some?
    case ByAction(action) =>
      e.before.Some? && SameContent(e.before.value, e.after) && (action == SubmitForReview ==> e.after.status == InReview)
    case ByIngestion(trusted) => e.before.Some? && !trusted ==> e.after.status == InReview
  }

  /** Every write is logged with the row it replaced, and nothing else writes rows. */
  ghost predicate Chained(rows: seq<Scholarship>, log: seq<Event>) {
    && (forall m | 0 <= m < |log| :: EventFitsKind(log[m]) && log[m].before == LastAfter(log[..m], log[m].id))
    && (forall id: nat :: LastAfter(log, id) == if id < |rows| then Some(rows[id]) else None)
  }

  lemma LastAfterOneMore(log: seq<Event>, e: Event, id: nat)
    ensures LastAfter(log + [e], id) == if e.id == id then Some(e.after) else LastAfter(log, id)
  {
    assert (log + [e])[..|log|] == log;
  }

  lemma WriteKeepsChain(rows: seq<Scholarship>, rows': seq<Scholarship>, log: seq<Event>, e: Event)
    requires Chained(rows, log) && EventFits(rows, rows', e) && EventFitsKind(e)
    ensures Chained(rows', log + [e])
  {
    hide EventFitsKind, LastAfter;
    var log' := log + [e];
    forall m | 0 <= m < |log'|
      ensures EventFitsKind(log'[m]) && log'[m].before == LastAfter(log'[..m], log'[m].id)
    {
      if m < |log| {
        assert log'[..m] == log[..m];
        assert log'[m] == log[m];
      } else {
        assert log'[..m] == log;
      }
    }
    forall id: nat ensures LastAfter(log', id) == if id < |rows'| then Some(rows'[id]) else None {
      LastAfterOneMore(log, e, id);
    }
  }

  lemma ActionKeepsContent(row: Scholarship, action: Action, notes: Option<string>)
    requires Target(row.status, action).Some?
    ensures SameContent(row, Written(row, Act(action, notes)))
  {
    hide Target;
  }

  lemma ActionFitsKind(id: nat, row: Scholarship, action: Action, notes: Option<string>)
    requires Target(row.status, action).Some?
    ensures EventFitsKind(Event(id, ByAction(action), Some(row), Written(row, Act(action, notes))))
  {
    hide SameContent;
    ActionKeepsContent(row, action, notes);
  }

  lemma CommitKeepsChain(s: State, client: nat)
    requires Chained(s.content.rows, s.log)
    ensures Chained(DoCommit(s, client).content.rows, DoCommit(s, client).log)
  {
    hide Chained, Written, EventFitsKind, Matches;
    if client in s.pending && CanCommit(s, s.pending[client]) {
      var p := s.pending[client];
      var row := s.content.rows[p.id];
      var e := Event(p.id, KindOf(p.request), Some(row), Written(row, p.request));
      assert EventFitsKind(e) by {
        match p.request {
          case Edit(_) => EditFitsKind(e);
          case Act(action, notes) => ActionFitsKind(p.id, row, action, notes);
        }
      }
      WriteKeepsChain(s.content.rows, DoCommit(s, client).content.rows, s.log, e);
    }
  }

  lemma EditFitsKind(e: Event)
    requires e.kind == ByEdit && e.before.Some?
    ensures EventFitsKind(e)
  {
  }

  lemma IngestFitsKind(rows: seq<Scholarship>, rows': seq<Scholarship>, e: Event, n: Normalized)
    requires EventFits(rows, rows', e) && e.kind == ByIngestion(n.trusted)
    requires e.id < |rows| ==> e.after == UpdatedRow(rows[e.id], n)
    ensures EventFitsKind(e)
  {
    hide Overwrite, ChangedColumns;
  }

  lemma IngestKeepsChain(s: State, run: nat, raw: RawKey, n: Normalized, dry: bool)
    requires LinksInRange(s.content) && Chained(s.content.rows, s.log)
    ensures Chained(DoIngest(s, run, raw, n, dry).content.rows, DoIngest(s, run, raw, n, dry).log)
  {
    hide Apply, Chained, EventFits, EventFitsKind, IngestEvent, CreatedRow, UpdatedRow;
    var r := Apply(s.content, run, raw, n, dry);
    if r.Applied? {
      IngestShape(s.content, run, raw, n, dry);
      var event := IngestEvent(s.content, r.content, n, r.outcome, dry);
      if event.Some? {
        IngestFitsKind(s.content.rows, r.content.rows, event.value, n);
        WriteKeepsChain(s.content.rows, r.content.rows, s.log, event.value);
      }
    }
  }

  lemma NextKeepsChain(s: State, step: Step)
    requires LinksInRange(s.content) && Chained(s.content.rows, s.log)
    ensures Chained(Next(s, step).content.rows, Next(s, step).log)
  {
    hide Chained, DoCommit, DoIngest, DraftRow, UrlTaken, WellFormed, Refusal;
    match step {
      case Create(provider, website, fields, requirements) =>
        CreateShape(s, provider, website, fields, requirements);
        hide DoCreate;
        var row := DraftRow(provider, fields, requirements);
        if Next(s, step) != s {
          WriteKeepsChain(s.content.rows, s.content.rows + [row], s.log, Event(|s.content.rows|, ByCreate, None, row));
        }
      case Commit(client) => CommitKeepsChain(s, client);
      case Ingest(run, raw, n, dry) => IngestKeepsChain(s, run, raw, n, dry);
      case _ =>
    }
  }

  lemma {:induction false} RunsAreChained(steps: seq<Step>)
    ensures Chained(After(EMPTY, steps).content.rows, After(EMPTY, steps).log)
  {
    hide Next;
    if steps != [] {
      RunsAreChained(steps[..|steps| - 1]);
      hide Chained;
      NextKeepsChain(After(EMPTY, steps[..|steps| - 1]), steps[|steps| - 1]);
    }
  }

  /******* Between a review and a publication *******/

  /** The latest write before `m` that vouched for the scholarship written at `m`. */
  ghost predicate LatestVouch(log: seq<Event>, m: nat, j: nat) {
    && j < m < |log| && log[j].id == log[m].id && Vouches(log[j])
    && (forall k | j < k < m && log[k].id == log[m].id :: !Vouches(log[k]))
  }

  predicate PublishedAt(log: seq<Event>, m: nat) {
    m < |log| && BecomesPublished(log[m]) && log[m].before.Some?
  }

  /** A later write of the same scholarship, up to and including `m`. */
  predicate Since(log: seq<Event>, m: nat, j: nat, k: nat) {
    j < k <= m < |log| && log[k].id == log[m].id
  }

  ghost predicate ChangesContent(e: Event) {
    e.before.Some? && !SameContent(e.before.value, e.after)
  }

  /** Where the row that write `k` replaced was written. */
  lemma {:induction false} LastWriteBefore(log: seq<Event>, id: nat, j: nat, k: nat)
    requires j < k <= |log| && log[j].id == id
    ensures exists i :: j <= i < k && log[i].id == id && LastAfter(log[..k], id) == Some(log[i].after)
                        && forall l | i < l < k :: log[l].id != id
  {
    assert log[..k][..k - 1] == log[..k - 1];
    if log[k - 1].id == id {
      assert LastAfter(log[..k], id) == Some(log[k - 1].after);
    } else {
      LastWriteBefore(log, id, j, k - 1);
      var i :| j <= i < k - 1 && log[i].id == id && LastAfter(log[..k - 1], id) == Some(log[i].after)
               && forall l | i < l < k - 1 :: log[l].id != id;
      assert LastAfter(log[..k], id) == Some(log[i].after);
    }
  }

  lemma ReplacedRow(rows: seq<Scholarship>, log: seq<Event>, m: nat, j: nat, k: nat) returns (i: nat)
    requires Chained(rows, log) && Since(log, m, j, k) && log[j].id == log[m].id
    ensures j <= i < k && log[i].id == log[m].id && log[k].before == Some(log[i].after)
    ensures forall l | i < l < k :: log[l].id != log[m].id
  {
    LastWriteBefore(log, log[m].id, j, k);
    hide EventFitsKind;
    i :| j <= i < k && log[i].id == log[m].id && LastAfter(log[..k], log[m].id) == Some(log[i].after)
         && forall l | i < l < k :: log[l].id != log[m].id;
  }

  /** From write `j` up to the publication, every write of the scholarship shows the same content. */
  ghost predicate ShownAsVouched(log: seq<Event>, m: nat, j: nat)
    requires j < |log|
  {
    forall k: nat | Since(log, m, j, k) :: SameContent(log[j].after, log[k].after)
  }

  /** Writes that can change content without sending the scholarship back to review. */
  predicate MayChangeContent(e: Event) { e.kind == ByEdit || e.kind == ByIngestion(true) }

  /** No edit and no trusted source changes a value of the content in between. */
  ghost predicate NoContentWritten(log: seq<Event>, m: nat, j: nat) {
    forall k: nat | Since(log, m, j, k) && MayChangeContent(log[k]) :: !ChangesContent(log[k])
  }

  /** If no write in between changes the content, every one of them shows what the first one did. */
  lemma {:induction false} UnchangedContent(rows: seq<Scholarship>, log: seq<Event>, m: nat, j: nat, k: nat)
    requires Chained(rows, log) && Since(log, m, j, k) && log[j].id == log[m].id
    requires forall l: nat | Since(log, m, j, l) && l <= k :: !ChangesContent(log[l])
    ensures SameContent(log[j].after, log[k].after)
    decreases k
  {
    hide Chained;
    var i := ReplacedRow(rows, log, m, j, k);
    assert !ChangesContent(log[k]);
    if i > j {
      assert Since(log, m, j, i);
      UnchangedContent(rows, log, m, j, i);
    }
  }

  lemma ContentStandsStill(rows: seq<Scholarship>, log: seq<Event>, m: nat, j: nat, k: nat)
    requires Chained(rows, log) && Since(log, m, j, k) && log[j].id == log[m].id && ShownAsVouched(log, m, j)
    ensures !ChangesContent(log[k])
  {
    hide Chained;
    var i := ReplacedRow(rows, log, m, j, k);
    assert SameContent(log[j].after, log[k].after);
    if i > j { assert Since(log, m, j, i); }
  }

  lemma {:induction false} LatestOf(log: seq<Event>, m: nat, j: nat, n: nat) returns (r: nat)
    requires j < n <= m < |log| && log[j].id == log[m].id && Vouches(log[j])
    ensures j <= r < n && log[r].id == log[m].id && Vouches(log[r])
    ensures forall k | r < k < n && log[k].id == log[m].id :: !Vouches(log[k])
    decreases n
  {
    if log[n - 1].id == log[m].id && Vouches(log[n - 1]) {
      r := n - 1;
    } else {
      r := LatestOf(log, m, j, n - 1);
    }
  }

  lemma PublicationIsProper(log: seq<Event>, m: nat)
    requires ProperLog(log) && PublishedAt(log, m)
    ensures log[m].kind == ByAction(Publish) && Vouched(log[..m], log[m].id)
  {
    hide Vouched;
    assert Proper(log[..m], log[m]);
  }

  lemma VouchedInFront(log: seq<Event>, m: nat, i: nat)
    requires m < |log| && VouchedAt(log[..m], log[m].id, i)
    ensures i < m && log[i].id == log[m].id && Vouches(log[i])
    ensures forall k | i < k < m && log[k].id == log[m].id :: !Reenters(log[k])
  {
    hide Reenters, Vouches;
    forall k | 0 <= k < m ensures log[..m][k] == log[k] {}
  }

  /** A publication by an administrator has a latest vouching write, and no re-entry into review since. */
  lemma PublicationIsVouched(log: seq<Event>, m: nat)
    requires ProperLog(log) && PublishedAt(log, m)
    ensures exists j: nat :: LatestVouch(log, m, j)
    ensures forall j: nat, k: nat | LatestVouch(log, m, j) && Since(log, m, j, k) && k < m :: !Reenters(log[k])
  {
    PublicationIsProper(log, m);
    var i: nat :| VouchedAt(log[..m], log[m].id, i);
    hide Reenters, Vouches, ProperLog, BecomesPublished;
    VouchedInFront(log, m, i);
    hide VouchedAt;
    var r := LatestOf(log, m, i, m);
    assert LatestVouch(log, m, r);
  }

  lemma KindOfChange(e: Event)
    requires EventFitsKind(e) && ChangesContent(e)
    ensures MayChangeContent(e) || Reenters(e)
    ensures !e.kind.ByAction?
  {
    hide SameContent;
  }

  lemma FitsKindAt(rows: seq<Scholarship>, log: seq<Event>, k: nat)
    requires Chained(rows, log) && k < |log|
    ensures EventFitsKind(log[k])
  {
    hide EventFitsKind;
  }

  lemma OnlyTheseChange(rows: seq<Scholarship>, log: seq<Event>, m: nat, j: nat, k: nat)
    requires Chained(rows, log) && ProperLog(log) && PublishedAt(log, m) && LatestVouch(log, m, j)
    requires Since(log, m, j, k) && ChangesContent(log[k])
    ensures MayChangeContent(log[k])
  {
    hide Chained, ChangesContent, ProperLog, BecomesPublished, LatestVouch, Reenters, EventFitsKind, MayChangeContent;
    FitsKindAt(rows, log, k);
    KindOfChange(log[k]);
    PublicationIsProper(log, m);
    PublicationIsVouched(log, m);
  }

  lemma ShownAsVouchedExactly(rows: seq<Scholarship>, log: seq<Event>, m: nat, j: nat)
    requires Chained(rows, log) && ProperLog(log) && PublishedAt(log, m) && LatestVouch(log, m, j)
    ensures ShownAsVouched(log, m, j) <==> NoContentWritten(log, m, j)
  {
    hide Chained, ProperLog, PublishedAt, Vouches, SameContent, ChangesContent, MayChangeContent;
    if ShownAsVouched(log, m, j) {
      forall k: nat | Since(log, m, j, k) ensures !ChangesContent(log[k]) {
        ContentStandsStill(rows, log, m, j, k);
      }
    }
    if NoContentWritten(log, m, j) {
      forall k: nat | Since(log, m, j, k) ensures !ChangesContent(log[k]) {
        if ChangesContent(log[k]) { OnlyTheseChange(rows, log, m, j, k); }
      }
      forall k: nat | Since(log, m, j, k) ensures SameContent(log[j].after, log[k].after) {
        UnchangedContent(rows, log, m, j, k);
      }
    }
  }

  /**
    Along any honest run from the empty catalogue: a scholarship that an administrator publishes has
    shown nothing but the content it was last vouched for with, exactly when no edit and no trusted
    source has changed a value of it in between. Nothing else can: the content stands still under
    every action, and an untrusted source sends the scholarship back to review.
   */
  lemma PublishedAsReviewedExactly(steps: seq<Step>, m: nat)
    requires HonestRun(EMPTY, steps) && PublishedAt(After(EMPTY, steps).log, m)
    ensures var log := After(EMPTY, steps).log;
            && (exists j: nat :: LatestVouch(log, m, j))
            && forall j: nat | LatestVouch(log, m, j) :: ShownAsVouched(log, m, j) <==> NoContentWritten(log, m, j)
  {
    var s := After(EMPTY, steps);
    EveryReachableStateIsSafe(steps);
    RunsAreChained(steps);
    hide After, Chained, ProperLog, PublishedAt, ShownAsVouched, NoContentWritten, LatestVouch;
    PublicationIsVouched(s.log, m);
    forall j: nat | LatestVouch(s.log, m, j) ensures ShownAsVouched(s.log, m, j) <==> NoContentWritten(s.log, m, j) {
      ShownAsVouchedExactly(s.content.rows, s.log, m, j);
    }
  }

  /******* Column by column *******/

  predicate ChangesColumn(e: Event, c: Column) {
    e.before.Some? && e.before.value.fields[c] != e.after.fields[c]
  }

  /** The last write since `j` that changed the column. */
  ghost predicate LastChange(log: seq<Event>, m: nat, j: nat, c: Column, k: nat) {
    && Since(log, m, j, k) && ChangesColumn(log[k], c)
    && (forall l: nat | k < l && Since(log, m, j, l) :: !ChangesColumn(log[l], c))
  }

  lemma {:induction false} UnchangedColumn(rows: seq<Scholarship>, log: seq<Event>, m: nat, j: nat, c: Column, k: nat)
    requires Chained(rows, log) && Since(log, m, j, k) && log[j].id == log[m].id
    requires forall l: nat | Since(log, m, j, l) && l <= k :: !ChangesColumn(log[l], c)
    ensures log[k].after.fields[c] == log[j].after.fields[c]
    decreases k
  {
    hide Chained;
    var i := ReplacedRow(rows, log, m, j, k);
    assert !ChangesColumn(log[k], c);
    if i > j {
      assert Since(log, m, j, i);
      UnchangedColumn(rows, log, m, j, c, i);
    }
  }

  /** Looks for the last change of a column at or before `n`. */
  lemma {:induction false} FindChange(log: seq<Event>, m: nat, j: nat, c: Column, n: nat) returns (r: Option<nat>)
    requires j <= n <= m < |log|
    ensures r.None? ==> forall l: nat | Since(log, m, j, l) && l <= n :: !ChangesColumn(log[l], c)
    ensures r.Some? ==> Since(log, m, j, r.value) && r.value <= n && ChangesColumn(log[r.value], c)
                        && forall l: nat | r.value < l <= n && Since(log, m, j, l) :: !ChangesColumn(log[l], c)
    decreases n
  {
    hide ChangesColumn;
    if n == j {
      r := None;
    } else if Since(log, m, j, n) && ChangesColumn(log[n], c) {
      r := Some(n);
    } else {
      r := FindChange(log, m, j, c, n - 1);
    }
  }

  lemma LastChangeIsUnique(log: seq<Event>, m: nat, j: nat, c: Column, k: nat, l: nat)
    requires LastChange(log, m, j, c, k) && LastChange(log, m, j, c, l)
    ensures k == l
  {
    hide ChangesColumn;
  }

  lemma ColumnInTheEnd(rows: seq<Scholarship>, log: seq<Event>, m: nat, j: nat, c: Column)
    requires Chained(rows, log) && j < m < |log| && log[j].id == log[m].id
    ensures log[m].after.fields[c] == log[j].after.fields[c]
            <==> forall k: nat | LastChange(log, m, j, c, k) :: log[k].after.fields[c] == log[j].after.fields[c]
  {
    hide Chained, ChangesColumn;
    var r := FindChange(log, m, j, c, m);
    if r.None? {
      UnchangedColumn(rows, log, m, j, c, m);
    } else {
      assert LastChange(log, m, j, c, r.value);
      if r.value < m {
        forall l: nat | Since(log, m, r.value, l) ensures !ChangesColumn(log[l], c) {
          assert Since(log, m, j, l);
        }
        UnchangedColumn(rows, log, m, r.value, c, m);
      }
      forall k: nat | LastChange(log, m, j, c, k) ensures k == r.value {
        LastChangeIsUnique(log, m, j, c, k, r.value);
      }
    }
  }

  lemma ColumnChangeIsContent(e: Event, c: Column)
    requires c != ReviewerNotes && ChangesColumn(e, c)
    ensures ChangesContent(e)
  {
  }

  /**
    Column by column: every change of a value between the vouching write and the publication is an
    edit's or a trusted source's, and a column is published as the last of them left it.
   */
  lemma PublishedColumnExactly(steps: seq<Step>, m: nat, j: nat, c: Column)
    requires HonestRun(EMPTY, steps) && PublishedAt(After(EMPTY, steps).log, m)
    requires LatestVouch(After(EMPTY, steps).log, m, j) && c != ReviewerNotes
    ensures var log := After(EMPTY, steps).log;
            && (log[m].after.fields[c] == log[j].after.fields[c]
                <==> forall k: nat | LastChange(log, m, j, c, k) :: log[k].after.fields[c] == log[j].after.fields[c])
            && (forall k: nat | Since(log, m, j, k) && ChangesColumn(log[k], c) :: MayChangeContent(log[k]))
  {
    var s := After(EMPTY, steps);
    EveryReachableStateIsSafe(steps);
    RunsAreChained(steps);
    hide After, Chained, ProperLog, PublishedAt, ChangesColumn, MayChangeContent, ChangesContent;
    ColumnInTheEnd(s.content.rows, s.log, m, j, c);
    forall k: nat | Since(s.log, m, j, k) && ChangesColumn(s.log[k], c) ensures MayChangeContent(s.log[k]) {
      ColumnChangeIsContent(s.log[k], c);
      OnlyTheseChange(s.content.rows, s.log, m, j, k);
    }
  }

  /******* A run that publishes what nobody reviewed *******/

  /** One request with nothing in between. */
  function Alone(client: nat, id: nat, expected: nat, request: Request, today: Date): seq<Step> {
    [Begin(client, id, expected, request, today)]
    + (if NeedsRequirements(request) then [ReadRequirements(client)] else [])
    + [Commit(client)]
  }

  /** The request is admitted and its UPDATE finds the row. */
  ghost predicate Goes(s: State, id: nat, request: Request, today: Date) {
    && LinksInRange(s.content) && id < |s.content.rows|
    && Refusal(s.content.rows[id], request, today).None?
    && (NeedsRequirements(request) ==> s.content.rows[id].requirements != [])
    && (request.Edit? ==> s.content.rows[id].status != Archived)
  }

  function Wrote(s: State, id: nat, request: Request): State
    requires id < |s.content.rows|
    requires request.Act? ==> Target(s.content.rows[id].status, request.action).Some?
  {
    var row := s.content.rows[id];
    var row' := Written(row, request);
    State(s.content.(rows := s.content.rows[id := row']), s.pending,
          s.log + [Event(id, KindOf(request), Some(row), row')])
  }

  lemma NextAlone(s: State, client: nat, id: nat, expected: nat, request: Request, today: Date)
    requires Goes(s, id, request, today) && client !in s.pending && expected == s.content.rows[id].version
    ensures var read := DoReadRequirements(DoBegin(s, client, id, expected, request, today), client);
            var begun := if NeedsRequirements(request) then read else DoBegin(s, client, id, expected, request, today);
            DoCommit(begun, client) == Wrote(s, id, request)
  {
    hide Written;
    assert s.pending[client := Pending(id, expected, request, s.content.rows[id], false)] - {client} == s.pending;
    assert s.pending[client := Pending(id, expected, request, s.content.rows[id], true)] - {client} == s.pending;
  }

  lemma RunOn(before: seq<Step>, s: State, client: nat, id: nat, request: Request, today: Date)
    requires HonestRun(EMPTY, before) && After(EMPTY, before) == s && client !in s.pending && Goes(s, id, request, today)
    ensures var steps := before + Alone(client, id, s.content.rows[id].version, request, today);
            HonestRun(EMPTY, steps) && After(EMPTY, steps) == Wrote(s, id, request)
  {
    hide After, HonestRun, Next, DoBegin, DoCommit, DoReadRequirements, Wrote, Refusal, Alone;
    var expected := s.content.rows[id].version;
    NextAlone(s, client, id, expected, request, today);
    AfterAppend(EMPTY, before, Alone(client, id, expected, request, today));
    AfterAlone(s, client, id, expected, request, today);
    StillHonest(before, s, client, id, request, today);
  }

  lemma StillHonest(before: seq<Step>, s: State, client: nat, id: nat, request: Request, today: Date)
    requires HonestRun(EMPTY, before) && After(EMPTY, before) == s && id < |s.content.rows|
    ensures HonestRun(EMPTY, before + Alone(client, id, s.content.rows[id].version, request, today))
  {
    hide After;
    var steps := before + Alone(client, id, s.content.rows[id].version, request, today);
    forall k | 0 <= k < |steps| ensures Honest(After(EMPTY, steps[..k]), steps[k]) {
      if k < |before| {
        assert steps[..k] == before[..k];
      } else if k == |before| {
        assert steps[..k] == before;
      }
    }
  }

  lemma AfterAlone(s: State, client: nat, id: nat, expected: nat, request: Request, today: Date)
    requires LinksInRange(s.content)
    ensures var begun := DoBegin(s, client, id, expected, request, today);
            var read := if NeedsRequirements(request) then DoReadRequirements(begun, client) else begun;
            After(s, Alone(client, id, expected, request, today)) == DoCommit(read, client)
  {
    hide DoBegin, DoCommit, DoReadRequirements;
    var begin := Begin(client, id, expected, request, today);
    var begun := DoBegin(s, client, id, expected, request, today);
    NextKeepsLinks(s, begin);
    AfterOne(s, begin);
    if NeedsRequirements(request) {
      NextKeepsLinks(begun, ReadRequirements(client));
      AfterOne(begun, ReadRequirements(client));
      AfterAppend(s, [begin], [ReadRequirements(client)]);
      AfterOne(DoReadRequirements(begun, client), Commit(client));
      AfterAppend(s, [begin] + [ReadRequirements(client)], [Commit(client)]);
      hide After;
    } else {
      AfterOne(begun, Commit(client));
      AfterAppend(s, [begin], [Commit(client)]);
      hide After;
      assert [begin] + [] + [Commit(client)] == [begin] + [Commit(client)];
    }
  }

  /** Created, submitted, reviewed, retitled and published, by one administrator at a time. */
  function RetitledAfterReview(fields: Fields, requirements: seq<Requirement>, title: string, today: Date): seq<Step> {
    [Create("Foundation", None, fields, requirements)]
    + Alone(0, 0, 1, Act(SubmitForReview, None), today)
    + Alone(0, 0, 2, Act(Review, Some("Checked.")), today)
    + Alone(0, 0, 3, Edit(map[Title := Text(title)]), today)
    + Alone(0, 0, 4, Act(Publish, None), today)
  }

  lemma CreatedAlone(fields: Fields, requirements: seq<Requirement>)
    requires WellFormed(fields)
    ensures var s := After(EMPTY, [Create("Foundation", None, fields, requirements)]);
            && HonestRun(EMPTY, [Create("Foundation", None, fields, requirements)])
            && s.content.rows == [DraftRow("Foundation", fields, requirements)]
            && s.pending == map[] && |s.log| == 1
  {
    AfterOne(EMPTY, Create("Foundation", None, fields, requirements));
    hide After, DraftRow, UpsertProvider, WellFormed;
  }

  /** How far the scholarship of that run is. */
  ghost predicate Stands(row: Scholarship, draft: Scholarship, title: Value, status: Status, verified: bool, version: nat) {
    && row.status == status && row.verified == verified && row.version == version
    && row.requirements == draft.requirements && row.fields[Title] == title
    && (forall c: Column | c != ReviewerNotes && c != Title :: row.fields[c] == draft.fields[c])
  }

  lemma ActionMoves(row: Scholarship, action: Action, notes: Option<string>)
    requires Target(row.status, action).Some?
    ensures var row' := Written(row, Act(action, notes));
            && row'.status == Target(row.status, action).value && row'.version == row.version + 1
            && row'.verified == (action == Review || (row.verified && action != SubmitForReview))
  {
    hide Target;
  }

  lemma ActionStands(row: Scholarship, draft: Scholarship, title: Value, status: Status, verified: bool, version: nat,
                     action: Action, notes: Option<string>)
    requires Stands(row, draft, title, status, verified, version) && Target(status, action).Some?
    ensures Stands(Written(row, Act(action, notes)), draft, title, Target(status, action).value,
                   action == Review || (verified && action != SubmitForReview), version + 1)
  {
    hide Target, Written;
    ActionMoves(row, action, notes);
    ActionKeepsContent(row, action, notes);
  }

  lemma EditStands(row: Scholarship, draft: Scholarship, was: Value, title: string, version: nat)
    requires Stands(row, draft, was, InReview, true, version)
    ensures Stands(Written(row, Edit(map[Title := Text(title)])), draft, Text(title), InReview, true, version + 1)
  {
  }

  lemma StandsMeans(row: Scholarship, draft: Scholarship, title: Value, status: Status, verified: bool, version: nat)
    requires Stands(row, draft, title, status, verified, version)
    ensures row.status == status && row.verified == verified && row.version == version
    ensures row.requirements == draft.requirements && row.fields[Title] == title
    ensures row.fields[Deadline] == draft.fields[Deadline] && row.fields[DeadlineAt] == draft.fields[DeadlineAt]
    ensures row.fields[Amount] == draft.fields[Amount] && row.fields[Currency] == draft.fields[Currency]
  {
  }

  lemma ActionGoes(s: State, draft: Scholarship, title: Value, status: Status, verified: bool, version: nat,
                   action: Action, notes: Option<string>, today: Date)
    requires LinksInRange(s.content) && s.content.rows != []
    requires Stands(s.content.rows[0], draft, title, status, verified, version) && Target(status, action).Some?
    requires action == Review ==> notes.Some? && notes.value != ""
    requires action == Publish ==> verified && draft.requirements != []
                                   && !(draft.fields[Deadline].Day? && draft.fields[Deadline].date.Before(today))
    ensures Goes(s, 0, Act(action, notes), today)
  {
    hide LinksInRange, Stands, Target;
    StandsMeans(s.content.rows[0], draft, title, status, verified, version);
  }

  lemma EditGoes(s: State, draft: Scholarship, was: Value, title: string, version: nat, today: Date)
    requires LinksInRange(s.content) && s.content.rows != []
    requires Stands(s.content.rows[0], draft, was, InReview, true, version)
    requires (draft.fields[Amount] == Null) == (draft.fields[Currency] == Null)
    requires draft.fields[DeadlineAt] != Null ==> draft.fields[Deadline] != Null
    ensures Goes(s, 0, Edit(map[Title := Text(title)]), today)
  {
    hide LinksInRange, Stands;
    StandsMeans(s.content.rows[0], draft, was, InReview, true, version);
    var changes := map[Title := Text(title)];
    assert Title in changes;
  }

  lemma DraftStands(fields: Fields, requirements: seq<Requirement>)
    requires WellFormed(fields)
    ensures var draft := DraftRow("Foundation", fields, requirements);
            && Stands(draft, draft, draft.fields[Title], Draft, false, 1)
            && draft.requirements == requirements && draft.fields[Title] == fields[Title]
            && draft.fields[Deadline] == fields[Deadline]
            && ((draft.fields[Amount] == Null) == (draft.fields[Currency] == Null))
            && (draft.fields[DeadlineAt] != Null ==> draft.fields[Deadline] != Null)
  {
    StoredIsNull(fields);
  }

  /**
    The review is not tied to what was reviewed: any scholarship that can be published can be
    published under a title that was put in after its review.
   */
  lemma UnreviewedTitleIsPublished(fields: Fields, requirements: seq<Requirement>, title: string, today: Date)
    requires WellFormed(fields) && requirements != [] && fields[Title] != Text(title)
    requires !(fields[Deadline].Day? && fields[Deadline].date.Before(today))
    ensures var steps := RetitledAfterReview(fields, requirements, title, today);
            var log := After(EMPTY, steps).log;
            && HonestRun(EMPTY, steps) && PublishedAt(log, 4) && LatestVouch(log, 4, 2)
            && log[2].after.fields[Title] == fields[Title] && log[4].after.fields[Title] == Text(title)
  {
    hide After, DraftRow, Written, Goes, Stands, Alone, Refusal;
    var draft, was := DraftRow("Foundation", fields, requirements), fields[Title];
    var steps1 := [Create("Foundation", None, fields, requirements)];
    CreatedAlone(fields, requirements);
    DraftStands(fields, requirements);
    var s1 := After(EMPTY, steps1);
    var s2 := ActOn(steps1, s1, draft, was, Draft, false, 1, SubmitForReview, None, today);
    var steps2 := steps1 + Alone(0, 0, 1, Act(SubmitForReview, None), today);
    var s3 := ActOn(steps2, s2, draft, was, InReview, false, 2, Review, Some("Checked."), today);
    var steps3 := steps2 + Alone(0, 0, 2, Act(Review, Some("Checked.")), today);
    var s4 := EditOn(steps3, s3, draft, was, 3, title, today);
    var steps4 := steps3 + Alone(0, 0, 3, Edit(map[Title := Text(title)]), today);
    var s5 := ActOn(steps4, s4, draft, Text(title), InReview, true, 4, Publish, None, today);
    StandsMeans(s3.content.rows[0], draft, was, InReview, true, 3);
    StandsMeans(s4.content.rows[0], draft, Text(title), InReview, true, 4);
    StandsMeans(s5.content.rows[0], draft, Text(title), Published, true, 5);
  }

  /** One more action in the run, on the one scholarship there is. */
  lemma ActOn(before: seq<Step>, s: State, draft: Scholarship, title: Value, status: Status, verified: bool, version: nat,
              action: Action, notes: Option<string>, today: Date) returns (t: State)
    requires HonestRun(EMPTY, before) && After(EMPTY, before) == s && s.pending == map[] && |s.content.rows| == 1
    requires Stands(s.content.rows[0], draft, title, status, verified, version) && Target(status, action).Some?
    requires action == Review ==> notes.Some? && notes.value != ""
    requires action == Publish ==> verified && draft.requirements != []
                                   && !(draft.fields[Deadline].Day? && draft.fields[Deadline].date.Before(today))
    ensures var steps := before + Alone(0, 0, version, Act(action, notes), today);
            HonestRun(EMPTY, steps) && After(EMPTY, steps) == t
    ensures t.pending == map[] && |t.content.rows| == 1
    ensures Stands(t.content.rows[0], draft, title, Target(status, action).value,
                   action == Review || (verified && action != SubmitForReview), version + 1)
    ensures t.log == s.log + [Event(0, ByAction(action), Some(s.content.rows[0]), t.content.rows[0])]
  {
    hide After, Goes, Stands, Alone, Refusal, Written, LinksInRange;
    var row := s.content.rows[0];
    StandsMeans(row, draft, title, status, verified, version);
    ActionGoes(s, draft, title, status, verified, version, action, notes, today);
    RunOn(before, s, 0, 0, Act(action, notes), today);
    ActionStands(row, draft, title, status, verified, version, action, notes);
    t := Wrote(s, 0, Act(action, notes));
  }

  lemma EditOn(before: seq<Step>, s: State, draft: Scholarship, was: Value, version: nat, title: string, today: Date)
    returns (t: State)
    requires HonestRun(EMPTY, before) && After(EMPTY, before) == s && s.pending == map[] && |s.content.rows| == 1
    requires Stands(s.content.rows[0], draft, was, InReview, true, version)
    requires (draft.fields[Amount] == Null) == (draft.fields[Currency] == Null)
    requires draft.fields[DeadlineAt] != Null ==> draft.fields[Deadline] != Null
    ensures var steps := before + Alone(0, 0, version, Edit(map[Title := Text(title)]), today);
            HonestRun(EMPTY, steps) && After(EMPTY, steps) == t
    ensures t.pending == map[] && |t.content.rows| == 1
    ensures Stands(t.content.rows[0], draft, Text(title), InReview, true, version + 1)
    ensures t.log == s.log + [Event(0, ByEdit, Some(s.content.rows[0]), t.content.rows[0])]
  {
    hide After, Goes, Stands, Alone, Refusal, Written, LinksInRange;
    var row, request := s.content.rows[0], Edit(map[Title := Text(title)]);
    StandsMeans(row, draft, was, InReview, true, version);
    EditGoes(s, draft, was, title, version, today);
    RunOn(before, s, 0, 0, request, today);
    EditStands(row, draft, was, title, version);
    t := Wrote(s, 0, request);
  }
}
