/** The life of a scholarship: which action leads where, and what administrators can bring back. */
module StatusHistory {
  import opened Prelude
  import opened Rules
  import opened Catalogue
  import opened Lifecycle
  import opened LifecycleTheorems
  import opened ReviewedContent

  /******* The lifecycle as it is documented *******/

  /** The status an action is named after. */
  function Named(action: Action): Status {
    match action
    case SubmitForReview => InReview
    case Review => InReview
    case Publish => Published
    case Unpublish => Unpublished
    case Expire => Expired
    case Archive => Archived
  }

  /** What a scholarship must be for the action to make sense. */
  predicate Admits(action: Action, status: Status) {
    match action
    case SubmitForReview => status == Draft || status == Unpublished
    case Review => status == InReview
    case Publish => status == InReview
    case Unpublish => status == Published
    case Expire => status == Published
    case Archive => status != Archived
  }

  lemma TableIsLifecycle(status: Status, action: Action)
    ensures Target(status, action) == if Admits(action, status) then Some(Named(action)) else None
  {
  }

  /** What an action does to the row besides: verification, notes, version. */
  predicate ActedOn(e: Event, action: Action) {
    && e.before.Some?
    && Admits(action, e.before.value.status) && e.after.status == Named(action)
    && e.after.verified == (action == Review || (action != SubmitForReview && e.before.value.verified))
    && e.after.version == e.before.value.version + 1
  }

  /**
    What any write does to status and verification: only trusted sources publish what they create, an
    untrusted one sends what it updates back to review, and an edit can do no more than that.
   */
  predicate FollowsLifecycle(e: Event) {
    match e.kind
    case ByAction(action) => ActedOn(e, action)
    case ByCreate => e.before.None? && e.after.status == Draft && !e.after.verified && e.after.version == 1
    case ByEdit =>
      && e.before.Some? && e.after.version == e.before.value.version + 1
      && (|| (e.after.status == e.before.value.status && e.after.verified == e.before.value.verified)
          || (e.before.value.status == Published && e.after.status == InReview && !e.after.verified))
    case ByIngestion(trusted) =>
      match e.before
      case None =>
        e.after.status == (if trusted then Published else Draft) && e.after.verified == trusted && e.after.version == 1
      case Some(row) =>
        && e.after.version == row.version + 1
        && if trusted then e.after.status == row.status && e.after.verified == row.verified
           else e.after.status == InReview && !e.after.verified
  }

  ghost predicate AllFollow(log: seq<Event>) {
    forall m | 0 <= m < |log| :: FollowsLifecycle(log[m])
  }

  lemma ActionFits(id: nat, row: Scholarship, action: Action, notes: Option<string>)
    requires Target(row.status, action).Some?
    ensures ActedOn(Event(id, ByAction(action), Some(row), Written(row, Act(action, notes))), action)
  {
    TableIsLifecycle(row.status, action);
    hide Target;
  }

  lemma EditFits(id: nat, row: Scholarship, changes: map<Column, Value>)
    ensures FollowsLifecycle(Event(id, ByEdit, Some(row), Written(row, Edit(changes))))
  {
    hide Stored;
  }

  lemma CommitFits(s: State, client: nat)
    requires AllFollow(s.log)
    ensures AllFollow(DoCommit(s, client).log)
  {
    hide Written, Matches, ActedOn;
    if client in s.pending && CanCommit(s, s.pending[client]) {
      var p := s.pending[client];
      match p.request {
        case Act(action, notes) => ActionFits(p.id, s.content.rows[p.id], action, notes);
        case Edit(changes) => EditFits(p.id, s.content.rows[p.id], changes);
      }
    }
  }

  lemma CreatedFits(id: nat, n: Normalized)
    ensures FollowsLifecycle(Event(id, ByIngestion(n.trusted), None, CreatedRow(n)))
  {
    hide StoredFields;
  }

  lemma UpdatedFits(id: nat, row: Scholarship, n: Normalized)
    ensures FollowsLifecycle(Event(id, ByIngestion(n.trusted), Some(row), UpdatedRow(row, n)))
  {
    hide Overwrite, ChangedColumns;
  }

  lemma IngestFits(s: State, run: nat, raw: RawKey, n: Normalized, dry: bool)
    requires LinksInRange(s.content) && AllFollow(s.log)
    ensures AllFollow(DoIngest(s, run, raw, n, dry).log)
  {
    hide Apply, CreatedRow, UpdatedRow, FollowsLifecycle, IngestEvent, LinksInRange;
    var r := Apply(s.content, run, raw, n, dry);
    if r.Applied? {
      IngestShape(s.content, run, raw, n, dry);
      var event := IngestEvent(s.content, r.content, n, r.outcome, dry);
      if event.Some? {
        var e := event.value;
        if e.id < |s.content.rows| {
          UpdatedFits(e.id, s.content.rows[e.id], n);
        } else {
          CreatedFits(e.id, n);
        }
        assert FollowsLifecycle(e);
        OneMoreFollows(s.log, e);
      }
    }
  }

  lemma OneMoreFollows(log: seq<Event>, e: Event)
    requires AllFollow(log) && FollowsLifecycle(e)
    ensures AllFollow(log + [e])
  {
    hide FollowsLifecycle;
  }

  lemma NextFits(s: State, step: Step)
    requires LinksInRange(s.content) && AllFollow(s.log)
    ensures AllFollow(Next(s, step).log)
  {
    hide AllFollow, DoCommit, DoIngest, DoCreate, Refusal, StoredFields;
    match step {
      case Create(provider, website, fields, requirements) =>
        CreateShape(s, provider, website, fields, requirements);
        OneMoreFollows(s.log, Event(|s.content.rows|, ByCreate, None, DraftRow(provider, fields, requirements)));
      case Commit(client) => CommitFits(s, client);
      case Ingest(run, raw, n, dry) => IngestFits(s, run, raw, n, dry);
      case _ =>
    }
  }

  /**
    Along every run from the empty catalogue: each action that is written starts from a status that
    admits it and ends in the one it is named after; a review verifies, a submission withdraws the
    verification, and every other action leaves it; and creations, edits and ingestion move status
    and verification in no other way than the one they are allowed.
   */
  lemma {:induction false} WritesFollowLifecycle(steps: seq<Step>)
    ensures var log := After(EMPTY, steps).log;
            forall m | 0 <= m < |log| :: FollowsLifecycle(log[m])
  {
    hide Next, FollowsLifecycle;
    if steps != [] {
      WritesFollowLifecycle(steps[..|steps| - 1]);
      assert AllFollow(After(EMPTY, steps[..|steps| - 1]).log);
      NextFits(After(EMPTY, steps[..|steps| - 1]), steps[|steps| - 1]);
    }
  }

  /******* When an action gets through *******/

  /** What the action asks for besides the status. */
  predicate Granted(row: Scholarship, action: Action, notes: Option<string>, today: Date) {
    match action
    case Review => notes.Some? && notes.value != ""
    case Publish =>
      && row.verified && row.requirements != []
      && (row.fields[Deadline].Day? ==> !row.fields[Deadline].date.Before(today))
    case _ => true
  }

  lemma GoesExactly(s: State, id: nat, action: Action, notes: Option<string>, today: Date)
    requires LinksInRange(s.content) && id < |s.content.rows|
    ensures var row := s.content.rows[id];
            Goes(s, id, Act(action, notes), today) <==> Admits(action, row.status) && Granted(row, action, notes, today)
  {
    TableIsLifecycle(s.content.rows[id].status, action);
    hide Target, LinksInRange;
  }

  lemma RefusedAlone(s: State, client: nat, id: nat, expected: nat, request: Request, today: Date)
    requires LinksInRange(s.content) && id < |s.content.rows| && client !in s.pending
    requires request.Act? && !Goes(s, id, request, today)
    ensures After(s, Alone(client, id, expected, request, today)) == s
  {
    hide After, Alone, LinksInRange, Target;
    AfterAlone(s, client, id, expected, request, today);
    assert s.pending[client := Pending(id, expected, request, s.content.rows[id], false)] - {client} == s.pending;
  }

  lemma StaleAlone(s: State, client: nat, id: nat, expected: nat, request: Request, today: Date)
    requires Goes(s, id, request, today) && client !in s.pending && expected != s.content.rows[id].version
    ensures After(s, Alone(client, id, expected, request, today)) == s
  {
    hide After, Alone, LinksInRange, Target, Written, Refusal;
    AfterAlone(s, client, id, expected, request, today);
    assert s.pending[client := Pending(id, expected, request, s.content.rows[id], false)] - {client} == s.pending;
    assert s.pending[client := Pending(id, expected, request, s.content.rows[id], true)] - {client} == s.pending;
  }

  lemma CurrentAlone(s: State, client: nat, id: nat, request: Request, today: Date)
    requires Goes(s, id, request, today) && client !in s.pending
    ensures After(s, Alone(client, id, s.content.rows[id].version, request, today)) == Wrote(s, id, request)
  {
    NextAlone(s, client, id, s.content.rows[id].version, request, today);
    AfterAlone(s, client, id, s.content.rows[id].version, request, today);
    hide After, Alone, LinksInRange, Target, Written, DoBegin, DoCommit, DoReadRequirements, Wrote;
  }

  /** The notes an action brings are set, and no other column. */
  ghost predicate OnlyNotes(was: Fields, now: Fields, notes: Option<string>) {
    && (forall c: Column | c != ReviewerNotes :: now[c] == was[c])
    && now[ReviewerNotes] == if notes.Some? then Text(notes.value) else was[ReviewerNotes]
  }

  /** The row after an action, told apart from the statement that writes it. */
  ghost predicate ActedTo(row: Scholarship, action: Action, notes: Option<string>, after: Scholarship) {
    && after.status == Named(action) && after.version == row.version + 1
    && after.verified == (action == Review || (action != SubmitForReview && row.verified))
    && after.provider == row.provider && after.requirements == row.requirements && after.fingerprint == row.fingerprint
    && OnlyNotes(row.fields, after.fields, notes)
  }

  lemma ActionWrites(row: Scholarship, action: Action, notes: Option<string>)
    requires Target(row.status, action).Some?
    ensures ActedTo(row, action, notes, Written(row, Act(action, notes)))
  {
    ActionFits(0, row, action, notes);
    ActionKeepsRest(row, action, notes);
    NotesOnly(row.fields, notes);
    hide Target, Written, Named, OnlyNotes;
  }

  function Noted(was: Fields, notes: Option<string>): Fields {
    if notes.Some? then was[ReviewerNotes := Text(notes.value)] else was
  }

  lemma NotesOnly(was: Fields, notes: Option<string>)
    ensures OnlyNotes(was, Noted(was, notes), notes)
  {
    forall c: Column | c != ReviewerNotes ensures Noted(was, notes)[c] == was[c] { NotedAt(was, notes, c); }
    NotedAt(was, notes, ReviewerNotes);
    hide Noted;
  }

  lemma NotedAt(was: Fields, notes: Option<string>, c: Column)
    ensures Noted(was, notes)[c] == if c == ReviewerNotes && notes.Some? then Text(notes.value) else was[c]
  {
  }

  lemma ActionKeepsRest(row: Scholarship, action: Action, notes: Option<string>)
    requires Target(row.status, action).Some?
    ensures var after := Written(row, Act(action, notes));
            && after.provider == row.provider && after.requirements == row.requirements && after.fingerprint == row.fingerprint
            && after.fields == Noted(row.fields, notes)
  {
    hide Target, Stored;
  }

  /**
    An undisturbed action changes the row exactly when its status admits the action, the version is
    the current one, and: for a review, there are notes; for a publication, the scholarship is
    verified, has a requirement, and its deadline has not passed. It sets the notes if it brings any
    and no other column. Otherwise nothing changes.
   */
  lemma ActionGetsThroughExactly(s: State, client: nat, id: nat, expected: nat, action: Action, notes: Option<string>,
                                 today: Date)
    requires LinksInRange(s.content) && id < |s.content.rows| && client !in s.pending
    ensures var row := s.content.rows[id];
            var t := After(s, Alone(client, id, expected, Act(action, notes), today));
            if expected == row.version && Admits(action, row.status) && Granted(row, action, notes, today)
            then id < |t.content.rows| && ActedTo(row, action, notes, t.content.rows[id])
            else t == s
  {
    hide After, Alone, Goes, Granted, Admits, Target, Refusal, Named, LinksInRange, ActedTo, Written;
    GoesExactly(s, id, action, notes, today);
    if !Goes(s, id, Act(action, notes), today) {
      RefusedAlone(s, client, id, expected, Act(action, notes), today);
    } else if expected != s.content.rows[id].version {
      StaleAlone(s, client, id, expected, Act(action, notes), today);
    } else {
      CurrentAlone(s, client, id, Act(action, notes), today);
      TableIsLifecycle(s.content.rows[id].status, action);
      ActionWrites(s.content.rows[id], action, notes);
    }
  }

  /******* When an edit gets through *******/

  /** What the schema and the service demand of an edit of this row. */
  predicate EditAllowed(row: Scholarship, changes: map<Column, Value>) {
    && changes != map[] && SourceUrl !in changes && row.status != Archived
    && ((Changed(row, changes, Amount) == Null) == (Changed(row, changes, Currency) == Null))
    && (Changed(row, changes, DeadlineAt) != Null ==> Changed(row, changes, Deadline) != Null)
  }

  /** The row after an edit, told apart from the statement that writes it. */
  ghost predicate EditedTo(row: Scholarship, changes: map<Column, Value>, after: Scholarship) {
    && (forall c: Column :: after.fields[c] == if c in changes then Stored(c, changes[c]) else row.fields[c])
    && after.provider == row.provider && after.requirements == row.requirements && after.version == row.version + 1
    && (if row.status == Published && !(forall c: Column | c in changes :: c == ReviewerNotes)
        then after.status == InReview && !after.verified
        else after.status == row.status && after.verified == row.verified)
  }

  lemma EditGoesExactly(s: State, id: nat, changes: map<Column, Value>, today: Date)
    requires LinksInRange(s.content) && id < |s.content.rows|
    ensures Goes(s, id, Edit(changes), today) <==> EditAllowed(s.content.rows[id], changes)
  {
    hide LinksInRange;
  }

  lemma ArchivedAlone(s: State, client: nat, id: nat, expected: nat, changes: map<Column, Value>, today: Date)
    requires LinksInRange(s.content) && id < |s.content.rows| && client !in s.pending
    requires !Goes(s, id, Edit(changes), today)
    ensures After(s, Alone(client, id, expected, Edit(changes), today)) == s
  {
    hide After, Alone, LinksInRange, Written, Refusal;
    AfterAlone(s, client, id, expected, Edit(changes), today);
    assert s.pending[client := Pending(id, expected, Edit(changes), s.content.rows[id], false)] - {client} == s.pending;
  }

  lemma EditWrites(row: Scholarship, changes: map<Column, Value>)
    ensures EditedTo(row, changes, Written(row, Edit(changes)))
  {
    hide Stored;
  }

  /**
    An undisturbed edit is written exactly when it is allowed and the version is the current one. It
    sets the columns given and no others, and sends a published scholarship back to review,
    unverified, exactly when it touches more than the notes.
   */
  lemma EditGetsThroughExactly(s: State, client: nat, id: nat, expected: nat, changes: map<Column, Value>, today: Date)
    requires LinksInRange(s.content) && id < |s.content.rows| && client !in s.pending
    ensures var row := s.content.rows[id];
            var t := After(s, Alone(client, id, expected, Edit(changes), today));
            if expected == row.version && EditAllowed(row, changes)
            then id < |t.content.rows| && EditedTo(row, changes, t.content.rows[id])
            else t == s
  {
    hide After, Alone, Goes, EditAllowed, EditedTo, Refusal, Written, LinksInRange;
    EditGoesExactly(s, id, changes, today);
    if !Goes(s, id, Edit(changes), today) {
      ArchivedAlone(s, client, id, expected, changes, today);
    } else if expected != s.content.rows[id].version {
      StaleAlone(s, client, id, expected, Edit(changes), today);
    } else {
      EditWrites(s.content.rows[id], changes);
      CurrentAlone(s, client, id, Edit(changes), today);
      WroteRow(s, id, Edit(changes));
    }
  }

  lemma WroteRow(s: State, id: nat, request: Request)
    requires id < |s.content.rows| && request.Edit?
    ensures Wrote(s, id, request).content.rows == s.content.rows[id := Written(s.content.rows[id], request)]
  {
    hide Written;
  }

  /******* When a creation gets through *******/

  /** What the schema and the columns demand of an administrator's new scholarship. */
  predicate CreationAllowed(s: State, provider: string, fields: Fields) {
    && fields[SourceUrl].Text? && |provider| <= 300
    && ((fields[Amount] == Null) <==> (fields[Currency] == Null))
    && (fields[Deadline] == Null ==> fields[DeadlineAt] == Null)
    && forall i | 0 <= i < |s.content.rows| :: s.content.rows[i].fields[SourceUrl] != fields[SourceUrl]
  }

  /** A creation appends an unverified draft with what was given, or changes nothing. */
  lemma CreationGetsThroughExactly(s: State, provider: string, website: Option<string>, fields: Fields,
                                   requirements: seq<Requirement>)
    ensures var t := DoCreate(s, provider, website, fields, requirements);
            if CreationAllowed(s, provider, fields) then
              var id := |s.content.rows|;
              && |t.content.rows| == id + 1 && t.content.rows[..id] == s.content.rows
              && var row := t.content.rows[id];
                 && row.status == Draft && !row.verified && row.version == 1 && row.fingerprint == None
                 && row.provider == provider && row.requirements == requirements
                 && (forall c: Column :: row.fields[c] == Stored(c, fields[c]))
                 && provider in t.content.providers
                 && (website.Some? ==> t.content.providers[provider] == website)
                 && t.content.links == s.content.links && t.content.history == s.content.history
            else t == s
  {
    hide Stored;
  }

  /******* What administrators can bring back *******/

  predicate OnlyAdministrators(steps: seq<Step>) { forall i | 0 <= i < |steps| :: !steps[i].Ingest? }

  predicate Over(status: Status) { status == Expired || status == Archived }

  lemma WrittenStaysOver(row: Scholarship, request: Request, seen: Scholarship)
    requires Over(row.status) && Matches(row, row.version, request, seen)
    requires request.Act? ==> Target(row.status, request.action).Some?
    ensures Over(Written(row, request).status)
  {
    if request.Act? { TableIsLifecycle(row.status, request.action); }
    hide Target, Stored;
  }

  lemma StepStaysOver(s: State, step: Step, id: nat)
    requires LinksInRange(s.content) && !step.Ingest?
    requires id < |s.content.rows| && Over(s.content.rows[id].status)
    ensures id < |Next(s, step).content.rows| && Over(Next(s, step).content.rows[id].status)
  {
    hide Written, Refusal, Over, DraftRow, UrlTaken, WellFormed, Target;
    if step.Commit? && step.client in s.pending && CanCommit(s, s.pending[step.client]) {
      var p := s.pending[step.client];
      if p.id == id { WrittenStaysOver(s.content.rows[id], p.request, p.seen); }
    }
  }

  /** Without ingestion an expired scholarship stays expired, or is archived, whatever administrators do. */
  lemma {:induction false} ExpiredStaysOver(s: State, steps: seq<Step>, id: nat)
    requires LinksInRange(s.content) && OnlyAdministrators(steps)
    requires id < |s.content.rows| && Over(s.content.rows[id].status)
    ensures id < |After(s, steps).content.rows| && Over(After(s, steps).content.rows[id].status)
  {
    hide Next, Over;
    if steps != [] {
      ExpiredStaysOver(s, steps[..|steps| - 1], id);
      StepStaysOver(After(s, steps[..|steps| - 1]), steps[|steps| - 1], id);
    }
  }

  /** Submitted, reviewed and published again. */
  function Republishing(client: nat, id: nat, version: nat, notes: string, today: Date): seq<Step> {
    Alone(client, id, version, Act(SubmitForReview, None), today)
    + Alone(client, id, version + 1, Act(Review, Some(notes)), today)
    + Alone(client, id, version + 2, Act(Publish, None), today)
  }

  /** What an action leaves as it was. */
  ghost predicate ActsOn(s: State, id: nat, action: Action, t: State) {
    && LinksInRange(t.content) && t.pending == s.pending && id < |s.content.rows| && id < |t.content.rows|
    && ActedOn(Event(id, ByAction(action), Some(s.content.rows[id]), t.content.rows[id]), action)
    && SameContent(s.content.rows[id], t.content.rows[id])
  }

  lemma OneAction(s: State, client: nat, id: nat, action: Action, notes: Option<string>, today: Date) returns (t: State)
    requires LinksInRange(s.content) && id < |s.content.rows| && client !in s.pending
    requires Admits(action, s.content.rows[id].status) && Granted(s.content.rows[id], action, notes, today)
    ensures t == After(s, Alone(client, id, s.content.rows[id].version, Act(action, notes), today))
    ensures ActsOn(s, id, action, t)
  {
    hide After, Alone, Goes, Granted, Admits, Target, Refusal, Written, LinksInRange, SameContent, ActedOn;
    var row := s.content.rows[id];
    t := After(s, Alone(client, id, row.version, Act(action, notes), today));
    GoesExactly(s, id, action, notes, today);
    CurrentAlone(s, client, id, Act(action, notes), today);
    TableIsLifecycle(row.status, action);
    ActionFits(id, row, action, notes);
    ActionKeepsContent(row, action, notes);
    assert t == Wrote(s, id, Act(action, notes));
  }

  lemma ActsOnMeans(s: State, id: nat, action: Action, t: State)
    requires ActsOn(s, id, action, t)
    ensures LinksInRange(t.content) && t.pending == s.pending && id < |t.content.rows| && id < |s.content.rows|
    ensures var row, row' := s.content.rows[id], t.content.rows[id];
            && row'.status == Named(action) && row'.version == row.version + 1
            && row'.verified == (action == Review || (action != SubmitForReview && row.verified))
            && row'.requirements == row.requirements && row'.fields[Deadline] == row.fields[Deadline]
  {
    hide LinksInRange, Named, Admits;
  }

  /**
    An unpublished scholarship with a requirement and a deadline to come can be published again by
    administrators alone; a draft likewise.
   */
  lemma UnpublishedCanReturn(s: State, client: nat, id: nat, notes: string, today: Date)
    requires LinksInRange(s.content) && id < |s.content.rows| && client !in s.pending && notes != ""
    requires s.content.rows[id].status == Unpublished || s.content.rows[id].status == Draft
    requires s.content.rows[id].requirements != []
    requires s.content.rows[id].fields[Deadline].Day? ==> !s.content.rows[id].fields[Deadline].date.Before(today)
    ensures var steps := Republishing(client, id, s.content.rows[id].version, notes, today);
            var t := After(s, steps);
            && OnlyAdministrators(steps)
            && id < |t.content.rows| && t.content.rows[id].status == Published && t.content.rows[id].verified
  {
    hide After, Alone, LinksInRange, ActsOn, OnlyAdministrators;
    var v := s.content.rows[id].version;
    var t1 := OneAction(s, client, id, SubmitForReview, None, today);
    ActsOnMeans(s, id, SubmitForReview, t1);
    var t2 := OneAction(t1, client, id, Review, Some(notes), today);
    ActsOnMeans(t1, id, Review, t2);
    var t3 := OneAction(t2, client, id, Publish, None, today);
    ActsOnMeans(t2, id, Publish, t3);
    var a := Alone(client, id, v, Act(SubmitForReview, None), today);
    var b := Alone(client, id, v + 1, Act(Review, Some(notes)), today);
    var c := Alone(client, id, v + 2, Act(Publish, None), today);
    AfterAppend(s, a, b);
    AfterAppend(s, a + b, c);
    RepublishingIsAdministrative(client, id, v, notes, today);
  }

  lemma RepublishingIsAdministrative(client: nat, id: nat, version: nat, notes: string, today: Date)
    ensures OnlyAdministrators(Republishing(client, id, version, notes, today))
  {
  }
}
