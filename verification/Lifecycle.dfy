/**
  The catalogue under concurrent writers: administrators' requests, which read a row and write it
  later under an optimistic version check, interleaved with each other and with ingestion.
 */
module Lifecycle {
  import opened Prelude
  import opened Rules
  import opened Catalogue

  /******* Requests *******/

  datatype Action = SubmitForReview | Review | Publish | Unpublish | Expire | Archive

  datatype Request =
    | Edit(changes: map<Column, Value>)
    | Act(action: Action, notes: Option<string>)

  /** The lifecycle table. */
  function Target(status: Status, action: Action): Option<Status> {
    match (status, action)
    case (Draft, SubmitForReview) => Some(InReview)
    case (Draft, Archive) => Some(Archived)
    case (InReview, Review) => Some(InReview)
    case (InReview, Publish) => Some(Published)
    case (InReview, Archive) => Some(Archived)
    case (Published, Unpublish) => Some(Unpublished)
    case (Published, Expire) => Some(Expired)
    case (Published, Archive) => Some(Archived)
    case (Unpublished, SubmitForReview) => Some(InReview)
    case (Unpublished, Archive) => Some(Archived)
    case (Expired, Archive) => Some(Archived)
    case _ => None
  }

  datatype Error =
    | NotFound | EmptyUpdate | InvalidRequest | InvalidFunding | InvalidDeadline | InvalidTransition
    | ReviewRequired | DeadlineExpired | VersionConflict

  function Changed(row: Scholarship, changes: map<Column, Value>, c: Column): Value {
    if c in changes then changes[c] else row.fields[c]
  }

  /** The checks on the row as read; the presence of requirements is read separately. */
  function Refusal(row: Scholarship, request: Request, today: Date): Option<Error> {
    match request
    case Edit(changes) =>
      if changes == map[] then Some(EmptyUpdate)
      else if SourceUrl in changes then Some(InvalidRequest)
      else if (Changed(row, changes, Amount) == Null) != (Changed(row, changes, Currency) == Null)
      then Some(InvalidFunding)
      else if Changed(row, changes, DeadlineAt) != Null && Changed(row, changes, Deadline) == Null
      then Some(InvalidDeadline)
      else None
    case Act(action, notes) =>
      if action == Review && (notes.None? || notes.value == "") then Some(InvalidRequest)
      else if Target(row.status, action).None? then Some(InvalidTransition)
      else if action == Publish && !row.verified then Some(ReviewRequired)
      else if action == Publish && row.fields[Deadline].Day? && row.fields[Deadline].date.Before(today)
      then Some(DeadlineExpired)
      else None
  }

  /** The condition of the UPDATE statement that a request ends with. */
  predicate Matches(row: Scholarship, expected: nat, request: Request, seen: Scholarship) {
    row.version == expected
    && match request
       case Edit(_) => row.status != Archived
       case Act(_, _) => row.status == seen.status
  }

  /** The row that UPDATE statement writes. */
  function Written(row: Scholarship, request: Request): Scholarship
    requires request.Act? ==> Target(row.status, request.action).Some?
  {
    match request
    case Edit(changes) =>
      var content := exists c: Column :: c in changes && c != ReviewerNotes;
      var demote := content && row.status == Published;
      row.(fields := map c: Column | true :: if c in changes then Stored(c, changes[c]) else row.fields[c],
           status := if demote then InReview else row.status,
           verified := !demote && row.verified,
           version := row.version + 1)
    case Act(action, notes) =>
      row.(status := Target(row.status, action).value,
           fields := if notes.Some? then row.fields[ReviewerNotes := Text(notes.value)] else row.fields,
           verified := if action == Review then true
                       else if action == SubmitForReview then false else row.verified,
           version := row.version + 1)
  }

  /******* The state machine *******/

  datatype Kind = ByCreate | ByEdit | ByAction(action: Action) | ByIngestion(trusted: bool)

  /** One committed write of one scholarship. */
  datatype Event = Event(id: nat, kind: Kind, before: Option<Scholarship>, after: Scholarship)

  /** A request in flight: what it read, and whether it has seen requirements since. */
  datatype Pending = Pending(id: nat, expected: nat, request: Request, seen: Scholarship, requirementsSeen: bool)

  datatype State = State(content: Content, pending: map<nat, Pending>, log: seq<Event>)

  const EMPTY := State(Content([], map[], map[], [], []), map[], [])

  datatype Step =
    | Create(provider: string, website: Option<string>, fields: Fields, requirements: seq<Requirement>)
    | Begin(client: nat, id: nat, expected: nat, request: Request, today: Date)
    | ReadRequirements(client: nat)
    | Commit(client: nat)
    | Abort(client: nat)
    | Ingest(run: nat, raw: RawKey, n: Normalized, dry: bool)

  function KindOf(request: Request): Kind {
    match request case Edit(_) => ByEdit case Act(action, _) => ByAction(action)
  }

  function DraftRow(provider: string, fields: Fields, requirements: seq<Requirement>): Scholarship {
    Scholarship(provider, StoredFields(fields), None, requirements, Draft, false, 1)
  }

  /** What the schema demands of an administrator's new scholarship. */
  predicate WellFormed(fields: Fields) {
    && fields[SourceUrl].Text?
    && ((fields[Amount] == Null) == (fields[Currency] == Null))
    && (fields[DeadlineAt] != Null ==> fields[Deadline] != Null)
  }

  function DoCreate(s: State, provider: string, website: Option<string>, fields: Fields,
                    requirements: seq<Requirement>): State
  {
    if !WellFormed(fields) || !NameFits(provider) || UrlTaken(s.content.rows, fields[SourceUrl], -1) then s else
      var row := DraftRow(provider, fields, requirements);
      s.(content := s.content.(rows := s.content.rows + [row],
                               providers := UpsertProvider(s.content.providers, provider, website)),
         log := s.log + [Event(|s.content.rows|, ByCreate, None, row)])
  }

  function DoBegin(s: State, client: nat, id: nat, expected: nat, request: Request, today: Date): State {
    if client in s.pending || id >= |s.content.rows|
       || Refusal(s.content.rows[id], request, today).Some? then s
    else s.(pending := s.pending[client := Pending(id, expected, request, s.content.rows[id], false)])
  }

  predicate NeedsRequirements(request: Request) { request.Act? && request.action == Publish }

  function DoReadRequirements(s: State, client: nat): State {
    if client !in s.pending then s else
      var p := s.pending[client];
      if p.id >= |s.content.rows| || s.content.rows[p.id].requirements == []
      then s.(pending := s.pending - {client})
      else s.(pending := s.pending[client := p.(requirementsSeen := true)])
  }

  /** The check for requirements has passed, or is not needed, and the UPDATE finds its row. */
  predicate CanCommit(s: State, p: Pending) {
    && p.id < |s.content.rows|
    && (NeedsRequirements(p.request) ==> p.requirementsSeen)
    && Matches(s.content.rows[p.id], p.expected, p.request, p.seen)
    && (p.request.Act? ==> Target(s.content.rows[p.id].status, p.request.action).Some?)
  }

  function DoCommit(s: State, client: nat): State {
    if client !in s.pending then s else
      var p := s.pending[client];
      var rest := s.pending - {client};
      if !CanCommit(s, p) then s.(pending := rest) else
        var row := s.content.rows[p.id];
        var row' := Written(row, p.request);
        State(s.content.(rows := s.content.rows[p.id := row']), rest,
              s.log + [Event(p.id, KindOf(p.request), Some(row), row')])
  }

  /** The write an accepted record made, if any. */
  function IngestEvent(before: Content, after: Content, n: Normalized, outcome: Outcome, dry: bool): Option<Event>
    requires LinksInRange(before)
    requires |after.rows| >= |before.rows|
  {
    if dry then None
    else if outcome == Created && |after.rows| > |before.rows| then
      Some(Event(|before.rows|, ByIngestion(n.trusted), None, after.rows[|before.rows|]))
    else if outcome == Updated && n.url in before.links then
      var id := before.links[n.url].scholarship;
      Some(Event(id, ByIngestion(n.trusted), Some(before.rows[id]), after.rows[id]))
    else None
  }

  function DoIngest(s: State, run: nat, raw: RawKey, n: Normalized, dry: bool): State
    requires LinksInRange(s.content)
  {
    match Apply(s.content, run, raw, n, dry)
    case Raised => s
    case Applied(content, outcome) =>
      RowsOnlyGrow(s.content, run, raw, n, dry);
      var event := IngestEvent(s.content, content, n, outcome, dry);
      s.(content := content, log := if event.Some? then s.log + [event.value] else s.log)
  }

  lemma RowsOnlyGrow(t: Content, run: nat, raw: RawKey, n: Normalized, dry: bool)
    requires LinksInRange(t) && Apply(t, run, raw, n, dry).Applied?
    ensures |Apply(t, run, raw, n, dry).content.rows| >= |t.rows|
  {
    hide UpdatedRow;
    hide UpdateHistory;
    hide CreatedRow;
    hide Differs;
    hide UrlTaken;
    hide RecordTaken;
    hide Candidates;
  }

  /** A step that is not enabled changes nothing. */
  function Next(s: State, step: Step): (s': State)
    requires LinksInRange(s.content)
  {
    match step
    case Create(provider, website, fields, requirements) => DoCreate(s, provider, website, fields, requirements)
    case Begin(client, id, expected, request, today) => DoBegin(s, client, id, expected, request, today)
    case ReadRequirements(client) => DoReadRequirements(s, client)
    case Commit(client) => DoCommit(s, client)
    case Abort(client) => s.(pending := s.pending - {client})
    case Ingest(run, raw, n, dry) => DoIngest(s, run, raw, n, dry)
  }

  lemma NextKeepsLinks(s: State, step: Step)
    requires LinksInRange(s.content)
    ensures LinksInRange(Next(s, step).content)
  {
    hide Apply;
    hide Written;
    hide UpsertProvider;
    hide UrlTaken;
    hide Refusal;
    if step.Ingest? {
      ApplyKeepsLinksInRange(s.content, step.run, step.raw, step.n, step.dry);
    }
  }

  function After(s: State, steps: seq<Step>): (r: State)
    requires LinksInRange(s.content)
    ensures LinksInRange(r.content)
  {
    if steps == [] then s else
      var before := After(s, steps[..|steps| - 1]);
      NextKeepsLinks(before, steps[|steps| - 1]);
      Next(before, steps[|steps| - 1])
  }

  /**
    What the interleavings assume: records come from the normalizer, and a client's expected
    version comes from an earlier response, so it is not above the row's version.
   */
  ghost predicate Honest(s: State, step: Step) {
    && (step.Begin? && step.id < |s.content.rows| ==> step.expected <= s.content.rows[step.id].version)
    && (step.Ingest? ==> step.n.FromNormalizer())
  }

  ghost predicate HonestRun(s: State, steps: seq<Step>)
    requires LinksInRange(s.content)
  {
    forall k | 0 <= k < |steps| :: Honest(After(s, steps[..k]), steps[k])
  }
}
