/**
  The scholarship catalogue: its tables as values, and what one ingested record or one
  administrator's statement does to them. `Database` executes the same steps on mutable tables.
 */
module Catalogue {
  import opened Prelude
  import opened Rules

  /******* Rows *******/

  datatype Value = Null | Text(text: string) | Texts(items: seq<string>) | Number(n: real) | Day(date: Date)

  datatype Column =
    | Title | Description | Amount | Currency | FundingType | FundingSummary | StudyLevels
    | FieldsOfStudy | DestinationCountries | NationalityRequirements | ResidencyRequirements
    | RequiredDocuments | Deadline | DeadlineAt | DeadlineTimezone | EligibilitySummary
    | SourceUrl | ApplicationUrl | ReviewerNotes

  /** The columns in the order in which a change to them is recorded. */
  const COLUMNS: seq<Column> := [
    Title, Description, Amount, Currency, FundingType, FundingSummary, StudyLevels,
    FieldsOfStudy, DestinationCountries, NationalityRequirements, ResidencyRequirements,
    RequiredDocuments, Deadline, DeadlineAt, DeadlineTimezone, EligibilitySummary,
    SourceUrl, ApplicationUrl, ReviewerNotes]

  type Fields = m: map<Column, Value> | forall c: Column :: c in m
    ghost witness map c: Column | true :: Null

  datatype Status = Draft | InReview | Published | Unpublished | Expired | Archived

  /** The hash of a normalized record: `head` stands for everything hashed but the requirements. */
  datatype Fingerprint = Fingerprint(head: string, requirements: seq<Requirement>)

  datatype Scholarship = Scholarship(
    provider: string,
    fields: Fields,
    fingerprint: Option<Fingerprint>,
    requirements: seq<Requirement>,
    status: Status,
    verified: bool,
    version: nat)

  /** Identity of a raw source record within one run: what its unique index compares. */
  datatype RawKey = RawKey(run: nat, recordId: string, digest: string)

  datatype Link = Link(
    scholarship: nat,
    raw: RawKey,
    source: string,
    recordId: string,
    fingerprint: Fingerprint,
    trusted: bool,
    active: bool)

  datatype Change =
    | ColumnChange(column: Column, was: Value, becomes: Value)
    | ProviderChange(oldProvider: string, newProvider: string)
    | RequirementsChange(oldRequirements: seq<Requirement>, newRequirements: seq<Requirement>)

  datatype HistoryRow = HistoryRow(scholarship: nat, raw: RawKey, change: Change)

  datatype QuarantineRow = QuarantineRow(
    run: nat,
    raw: Option<RawKey>,
    code: string,
    summary: string,
    fingerprint: Option<Fingerprint>,
    candidates: set<nat>)

  /**
    The tables. A scholarship's id is its index in `rows`; rows are never deleted. A provider's
    id is its canonical name. Links are keyed by the canonical URL, which is unique.
   */
  datatype Content = Content(
    rows: seq<Scholarship>,
    links: map<string, Link>,
    providers: map<string, Option<string>>,
    history: seq<HistoryRow>,
    quarantine: seq<QuarantineRow>)

  /** What `normalize_source_record` produces for one record. */
  datatype Normalized = Normalized(
    provider: string,
    website: Option<string>,
    fields: Fields,
    requirements: seq<Requirement>,
    source: string,
    recordId: string,
    url: string,
    head: string,
    trusted: bool)
  {
    function Print(): Fingerprint { Fingerprint(head, requirements) }

    /** What the normalizer guarantees about its own output. */
    ghost predicate FromNormalizer() {
      && fields[SourceUrl] == Text(url)
      && fields[ReviewerNotes] == Null
      && fields[DeadlineAt] == Null
      && fields[DeadlineTimezone] == Null
      && (fields[Amount].Number? || fields[Amount] == Null)
      && ((fields[Amount] == Null) == (fields[Currency] == Null))
      && (forall i | 0 <= i < |requirements| ::
            requirements[i].evidence.sourceUrl == Some(url))
    }
  }

  /******* Column storage *******/

  /** numeric(14, 2): rounds half away from zero; amounts are never negative. */
  function Cents(r: real): real { (r * 100.0 + 0.5).Floor as real / 100.0 }

  const AMOUNT_LIMIT := 1000000000000.0

  /** What the amount column can hold: twelve digits before the point, after rounding. */
  predicate AmountFits(v: Value) { v.Number? ==> Cents(v.n) < AMOUNT_LIMIT }

  /** The value a column holds after `v` is written to it. */
  function Stored(c: Column, v: Value): Value {
    if c == Amount && v.Number? then Number(Cents(v.n)) else v
  }

  function StoredFields(fields: Fields): Fields {
    map c: Column | true :: Stored(c, fields[c])
  }

  /******* Providers *******/

  /** Inserts the provider, or overwrites its website unless the new one is absent. */
  function UpsertProvider(providers: map<string, Option<string>>, name: string,
                          website: Option<string>): map<string, Option<string>>
  {
    providers[name := if website.Some? || name !in providers then website else providers[name]]
  }

  function WebsiteOf(providers: map<string, Option<string>>, name: string): Option<string> {
    if name in providers then providers[name] else None
  }

  /** A canonical name has at most 300 characters; folding its case can make it longer than the name. */
  predicate NameFits(name: string) { |name| <= 300 }

  /******* Comparing a stored row with a normalized record *******/

  predicate ChangedAt(was: Fields, now: Fields, k: nat)
    requires k < |COLUMNS|
  {
    was[COLUMNS[k]] != now[COLUMNS[k]]
  }

  /** Of the first `k` columns, those on which the two differ, in column order. */
  function ChangedAmong(was: Fields, now: Fields, k: nat): (r: seq<Column>)
    requires k <= |COLUMNS|
    ensures forall c :: c in r <==> c in COLUMNS[..k] && was[c] != now[c]
  {
    if k == 0 then [] else
      ChangedAmong(was, now, k - 1)
      + (if ChangedAt(was, now, k - 1) then [COLUMNS[k - 1]] else [])
  }

  function ChangedColumns(was: Fields, now: Fields): seq<Column> {
    ChangedAmong(was, now, |COLUMNS|)
  }

  predicate ProviderChanged(row: Scholarship, providers: map<string, Option<string>>, n: Normalized) {
    || row.provider != n.provider
    || (n.website.Some? && WebsiteOf(providers, row.provider) != n.website)
  }

  predicate Differs(row: Scholarship, providers: map<string, Option<string>>, n: Normalized) {
    || ChangedColumns(row.fields, n.fields) != []
    || row.requirements != n.requirements
    || ProviderChanged(row, providers, n)
  }

  /** The row's columns after the changed ones are assigned. */
  function Overwrite(was: Fields, now: Fields, changed: seq<Column>): Fields {
    map c: Column | true :: if c in changed then Stored(c, now[c]) else was[c]
  }

  function ColumnHistory(id: nat, raw: RawKey, was: Fields, now: Fields, changed: seq<Column>)
    : seq<HistoryRow>
  {
    seq(|changed|, i requires 0 <= i < |changed| =>
      HistoryRow(id, raw, ColumnChange(changed[i], was[changed[i]], now[changed[i]])))
  }

  /** The history rows one update writes: changed columns, then provider, then requirements. */
  function UpdateHistory(id: nat, raw: RawKey, row: Scholarship,
                         providers: map<string, Option<string>>, n: Normalized): seq<HistoryRow>
  {
    ColumnHistory(id, raw, row.fields, n.fields, ChangedColumns(row.fields, n.fields))
    + (if ProviderChanged(row, providers, n)
       then [HistoryRow(id, raw, ProviderChange(row.provider, n.provider))] else [])
    + (if row.requirements != n.requirements
       then [HistoryRow(id, raw, RequirementsChange(row.requirements, n.requirements))] else [])
  }

  /** The row an update leaves behind: an untrusted source sends it back to review. */
  function UpdatedRow(row: Scholarship, n: Normalized): Scholarship {
    row.(provider := n.provider,
         fields := Overwrite(row.fields, n.fields, ChangedColumns(row.fields, n.fields)),
         fingerprint := Some(n.Print()),
         requirements := n.requirements,
         status := if n.trusted then row.status else InReview,
         verified := n.trusted && row.verified,
         version := row.version + 1)
  }

  function CreatedRow(n: Normalized): Scholarship {
    Scholarship(n.provider, StoredFields(n.fields), Some(n.Print()), n.requirements,
                if n.trusted then Published else Draft, n.trusted, 1)
  }

  /******* apply_normalized *******/

  datatype Outcome = Created | Updated | Unchanged | Duplicate

  /** `Raised` is a database error: the unit of work is rolled back. */
  datatype ApplyResult = Raised | Applied(content: Content, outcome: Outcome)

  /** Scholarships that carry the record's fingerprint under another URL. */
  function Candidates(links: map<string, Link>, n: Normalized): set<nat> {
    set u | u in links && u != n.url && links[u].active && links[u].fingerprint == n.Print()
      :: links[u].scholarship
  }

  predicate UrlTaken(rows: seq<Scholarship>, url: Value, except: int) {
    exists i | 0 <= i < |rows| :: i != except && rows[i].fields[SourceUrl] == url
  }

  predicate RecordTaken(links: map<string, Link>, source: string, recordId: string) {
    exists u | u in links :: links[u].source == source && links[u].recordId == recordId
  }

  predicate CreationFits(n: Normalized) { AmountFits(n.fields[Amount]) && NameFits(n.provider) }

  function ApplyNew(t: Content, run: nat, raw: RawKey, n: Normalized, dry: bool): ApplyResult {
    var candidates := Candidates(t.links, n);
    if candidates != {} then
      Applied(t.(quarantine := t.quarantine + [DuplicateRow(run, raw, n, candidates)]), Duplicate)
    else if dry then
      Applied(t, Created)
    else if !CreationFits(n) || UrlTaken(t.rows, n.fields[SourceUrl], -1)
            || RecordTaken(t.links, n.source, n.recordId) then
      Raised
    else
      Applied(
        t.(rows := t.rows + [CreatedRow(n)],
           links := t.links[n.url := Link(|t.rows|, raw, n.source, n.recordId, n.Print(), n.trusted, true)],
           providers := UpsertProvider(t.providers, n.provider, n.website)),
        Created)
  }

  function DuplicateRow(run: nat, raw: RawKey, n: Normalized, candidates: set<nat>): QuarantineRow {
    QuarantineRow(run, Some(raw), "AMBIGUOUS_DUPLICATE",
                  "Fingerprint matched a different canonical source URL.",
                  Some(n.Print()), candidates)
  }

  /**
    A changed provider is recorded in the field history as a change of the provider's id, and
    that table refuses rows whose old and new values are equal.
   */
  predicate HistoryRefused(row: Scholarship, providers: map<string, Option<string>>, n: Normalized) {
    ProviderChanged(row, providers, n) && row.provider == n.provider
  }

  /** The changed values that are written fit their columns. */
  predicate UpdateFits(row: Scholarship, providers: map<string, Option<string>>, n: Normalized) {
    && (row.fields[Amount] != n.fields[Amount] ==> AmountFits(n.fields[Amount]))
    && (ProviderChanged(row, providers, n) ==> NameFits(n.provider))
  }

  function ApplyExisting(t: Content, raw: RawKey, n: Normalized, dry: bool): ApplyResult
    requires n.url in t.links && t.links[n.url].scholarship < |t.rows|
  {
    var link := t.links[n.url];
    var id := link.scholarship;
    var row := t.rows[id];
    var differs := Differs(row, t.providers, n);
    if dry then
      Applied(t, if differs then Updated else Unchanged)
    else if !differs then
      Applied(t.(links := t.links[n.url := Refreshed(link, raw, n)]), Unchanged)
    else if HistoryRefused(row, t.providers, n) || !UpdateFits(row, t.providers, n)
            || UrlTaken(t.rows, n.fields[SourceUrl], id) then
      Raised
    else
      Applied(
        t.(rows := t.rows[id := UpdatedRow(row, n)],
           links := t.links[n.url := Refreshed(link, raw, n)],
           providers := if ProviderChanged(row, t.providers, n)
                        then UpsertProvider(t.providers, n.provider, n.website) else t.providers,
           history := t.history + UpdateHistory(id, raw, row, t.providers, n)),
        Updated)
  }

  function Refreshed(link: Link, raw: RawKey, n: Normalized): Link {
    link.(raw := raw, fingerprint := n.Print(), active := true)
  }

  function Apply(t: Content, run: nat, raw: RawKey, n: Normalized, dry: bool): ApplyResult
    requires LinksInRange(t)
  {
    if n.url in t.links then ApplyExisting(t, raw, n, dry) else ApplyNew(t, run, raw, n, dry)
  }

  /** Foreign key of a source link. */
  ghost predicate LinksInRange(t: Content) {
    forall u | u in t.links :: t.links[u].scholarship < |t.rows|
  }

  lemma ApplyKeepsLinksInRange(t: Content, run: nat, raw: RawKey, n: Normalized, dry: bool)
    requires LinksInRange(t)
    ensures Apply(t, run, raw, n, dry).Applied? ==> LinksInRange(Apply(t, run, raw, n, dry).content)
  {
    hide CreatedRow;
    hide UpdatedRow;
    hide UpdateHistory;
    hide Differs;
    hide UpsertProvider;
    hide ProviderChanged;
    hide UrlTaken;
    hide RecordTaken;
    hide Candidates;
  }

  lemma ApplyQuarantines(t: Content, run: nat, raw: RawKey, n: Normalized, dry: bool)
    requires LinksInRange(t) && Apply(t, run, raw, n, dry).Applied?
    ensures var r := Apply(t, run, raw, n, dry);
            |r.content.quarantine| == |t.quarantine| + if r.outcome == Duplicate then 1 else 0
  {
    hide CreatedRow;
    hide UpdatedRow;
    hide UpdateHistory;
    hide Differs;
    hide UpsertProvider;
    hide ProviderChanged;
    hide UrlTaken;
    hide RecordTaken;
    hide Candidates;
  }
}
