/**
  Stored matches and when they may be reused. Profile updates read and write in two steps; matches
  are calculated from a profile and a scholarship read earlier, while the catalogue moves on under
  administrators and ingestion.
 */
module MatchCache {
  import opened Prelude
  import opened MatchingEngine
  import opened Profiles
  import opened Catalogue
  import Lifecycle

  function StringOf(v: Value): string { if v.Text? then v.text else "" }

  function ItemsOf(v: Value): seq<string> { if v.Texts? then v.items else [] }

  function DateOf(v: Value): Option<Date> { if v.Day? then Some(v.date) else None }

  /** What the engine reads of a catalogue row. */
  function OfferOf(row: Scholarship): Offer {
    Offer(StringOf(row.fields[Title]), StringOf(row.fields[Description]), ItemsOf(row.fields[FieldsOfStudy]),
          ItemsOf(row.fields[StudyLevels]), StringOf(row.fields[EligibilitySummary]),
          ItemsOf(row.fields[RequiredDocuments]), DateOf(row.fields[Deadline]), row.requirements)
  }

  /** What one match was calculated from. */
  datatype Inputs = Inputs(profile: StoredProfile, row: Scholarship, documents: seq<Document>, weights: Weights, today: Date)

  /** The calculation; an invalid requirement or a zero scale is an error. */
  function Calculated(x: Inputs): Option<Match> {
    if Typed(x.profile.profile) then CalculateMatch(x.profile.profile, OfferOf(x.row), x.documents, x.weights, x.today)
    else None
  }

  /** A stored match; `from` is kept for reasoning only. */
  datatype Cached = Cached(result: Match, profileVersion: nat, scholarshipVersion: nat, from: Inputs)

  datatype PendingUpdate = PendingUpdate(existing: Option<StoredProfile>, patch: Patch)

  /** A calculation in flight: the profile read, then also a scholarship. */
  datatype Work =
    | Reading(profile: StoredProfile, documents: seq<Document>)
    | Ready(id: nat, from: Inputs)

  datatype State = State(
    library: Lifecycle.State,
    profile: Option<StoredProfile>,
    updates: map<nat, PendingUpdate>,
    work: map<nat, Work>,
    matches: map<nat, Cached>)

  const EMPTY := State(Lifecycle.EMPTY, None, map[], map[], map[])

  datatype Step =
    | Library(step: Lifecycle.Step)
    | BeginUpdate(client: nat, patch: Patch)
    | FinishUpdate(client: nat)
    | BeginMatching(client: nat, documents: seq<Document>)
    | ReadRow(client: nat, id: nat, weights: Weights, today: Date)
    | StoreMatch(client: nat)
    | Drop(client: nat)

  function DoFinishUpdate(s: State, client: nat): State {
    if client !in s.updates then s
    else
      var u := s.updates[client];
      var rest := s.(updates := s.updates - {client});
      match Plan(u.existing, u.patch)
      case Saved(row) => rest.(profile := Some(row))
      case _ => rest
  }

  function DoReadRow(s: State, client: nat, id: nat, weights: Weights, today: Date): State {
    if client !in s.work || id >= |s.library.content.rows| then s
    else
      var w := s.work[client];
      var profile, documents := if w.Reading? then w.profile else w.from.profile,
                                if w.Reading? then w.documents else w.from.documents;
      s.(work := s.work[client := Ready(id, Inputs(profile, s.library.content.rows[id], documents, weights, today))])
  }

  /** The upsert leaves the calculation ready for the next scholarship. */
  function DoStoreMatch(s: State, client: nat): State {
    if client !in s.work || !s.work[client].Ready? then s
    else
      var w := s.work[client];
      match Calculated(w.from)
      case None => s.(work := s.work - {client})
      case Some(m) =>
        s.(matches := s.matches[w.id := Cached(m, w.from.profile.version, w.from.row.version, w.from)])
  }

  function Next(s: State, step: Step): State
    requires LinksInRange(s.library.content)
  {
    match step
    case Library(l) => s.(library := Lifecycle.Next(s.library, l))
    case BeginUpdate(client, patch) => s.(updates := s.updates[client := PendingUpdate(s.profile, patch)])
    case FinishUpdate(client) => DoFinishUpdate(s, client)
    case BeginMatching(client, documents) =>
      if s.profile.None? then s else s.(work := s.work[client := Reading(s.profile.value, documents)])
    case ReadRow(client, id, weights, today) => DoReadRow(s, client, id, weights, today)
    case StoreMatch(client) => DoStoreMatch(s, client)
    case Drop(client) => s.(updates := s.updates - {client}, work := s.work - {client})
  }

  lemma NextKeepsLinks(s: State, step: Step)
    requires LinksInRange(s.library.content)
    ensures LinksInRange(Next(s, step).library.content)
  {
    hide Lifecycle.Next, Plan, Calculated, LinksInRange;
    if step.Library? { Lifecycle.NextKeepsLinks(s.library, step.step); }
  }

  function After(s: State, steps: seq<Step>): (r: State)
    requires LinksInRange(s.library.content)
    ensures LinksInRange(r.library.content)
  {
    if steps == [] then s else
      var before := After(s, steps[..|steps| - 1]);
      NextKeepsLinks(before, steps[|steps| - 1]);
      Next(before, steps[|steps| - 1])
  }

  /** What `list_current` asks of a stored match. */
  predicate Current(s: State, id: nat) {
    && id in s.matches && id < |s.library.content.rows| && s.profile.Some?
    && s.matches[id].profileVersion == s.profile.value.version
    && s.matches[id].scholarshipVersion == s.library.content.rows[id].version
  }

  /******* One version, one content *******/

  /** A row read earlier: it has moved on to a higher version, or it is still the row. */
  predicate RowSeen(s: State, id: nat, row: Scholarship) {
    && id < |s.library.content.rows|
    && row.version <= s.library.content.rows[id].version
    && (row.version == s.library.content.rows[id].version ==> s.library.content.rows[id] == row)
  }

  /** A profile read earlier: it has moved on, or what matching reads of it is unchanged. */
  predicate ProfileSeen(now: Option<StoredProfile>, seen: StoredProfile) {
    && now.Some? && WellStored(seen)
    && seen.version <= now.value.version
    && (seen.version == now.value.version ==> MatchingPart(seen.profile) == MatchingPart(now.value.profile))
  }

  predicate InputsSeen(s: State, id: nat, x: Inputs) {
    RowSeen(s, id, x.row) && ProfileSeen(s.profile, x.profile)
  }

  predicate WorkSeen(s: State, w: Work) {
    match w
    case Reading(profile, _) => ProfileSeen(s.profile, profile)
    case Ready(id, from) => InputsSeen(s, id, from)
  }

  predicate CachedOk(s: State, id: nat, c: Cached) {
    && InputsSeen(s, id, c.from)
    && Calculated(c.from) == Some(c.result)
    && c.profileVersion == c.from.profile.version
    && c.scholarshipVersion == c.from.row.version
  }

  ghost predicate Sound(s: State) {
    && LinksInRange(s.library.content)
    && (s.profile.Some? ==> WellStored(s.profile.value))
    && (forall c | c in s.updates && s.updates[c].existing.Some? :: ProfileSeen(s.profile, s.updates[c].existing.value))
    && (forall c | c in s.work :: WorkSeen(s, s.work[c]))
    && (forall id | id in s.matches :: CachedOk(s, id, s.matches[id]))
  }

  predicate SameVersion(a: Option<StoredProfile>, b: Option<StoredProfile>) {
    if a.None? then b.None? else b.Some? && a.value.version == b.value.version
  }

  /** The update writes over the version it has read. */
  predicate WritesOverWhatItRead(s: State, step: Step) {
    step.FinishUpdate? && step.client in s.updates ==> SameVersion(s.updates[step.client].existing, s.profile)
  }
}
