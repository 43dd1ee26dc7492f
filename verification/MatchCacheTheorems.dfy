/** A stored match may be reused, as long as no profile update is lost. */
module MatchCacheTheorems {
  import opened Prelude
  import opened Rules
  import opened MatchingEngine
  import opened MatchingTheorems
  import opened Profiles
  import opened Catalogue
  import opened MatchCache
  import Lifecycle
  import LifecycleTheorems

  /** Both sides of the cache key only move forward. */
  ghost predicate MovesForward(s: State, t: State) {
    && LifecycleTheorems.Evolves(s.library.content.rows, t.library.content.rows)
    && (s.profile.Some? ==> ProfileSeen(t.profile, s.profile.value))
  }

  lemma SeenStaysSeen(s: State, t: State, id: nat, x: Inputs)
    requires InputsSeen(s, id, x) && MovesForward(s, t)
    ensures InputsSeen(t, id, x)
  {
    hide WellStored, MatchingPart;
  }

  lemma ProfileStaysSeen(s: State, t: State, p: StoredProfile)
    requires ProfileSeen(s.profile, p) && MovesForward(s, t)
    ensures ProfileSeen(t.profile, p)
  {
    hide WellStored, MatchingPart, LifecycleTheorems.Evolves;
  }

  lemma WorkStaysSeen(s: State, t: State, w: Work)
    requires WorkSeen(s, w) && MovesForward(s, t)
    ensures WorkSeen(t, w)
  {
    hide InputsSeen, ProfileSeen, MovesForward;
    match w
    case Reading(profile, _) => ProfileStaysSeen(s, t, profile);
    case Ready(id, from) => SeenStaysSeen(s, t, id, from);
  }

  lemma CachedStaysOk(s: State, t: State, id: nat, c: Cached)
    requires CachedOk(s, id, c) && MovesForward(s, t)
    ensures CachedOk(t, id, c)
  {
    hide InputsSeen, MovesForward, Calculated;
    SeenStaysSeen(s, t, id, c.from);
  }

  /** A step that adds nothing new to remember keeps soundness when both sides move forward. */
  lemma ForwardKeepsSound(s: State, t: State)
    requires Sound(s) && MovesForward(s, t) && LinksInRange(t.library.content)
    requires t.profile.Some? ==> WellStored(t.profile.value)
    requires t.matches == s.matches
    requires forall c | c in t.work :: c in s.work && t.work[c] == s.work[c]
    requires forall c | c in t.updates :: c in s.updates && t.updates[c] == s.updates[c]
    ensures Sound(t)
  {
    hide MovesForward, ProfileSeen, WorkSeen, CachedOk, LinksInRange, WellStored;
    forall c | c in t.updates && t.updates[c].existing.Some?
      ensures ProfileSeen(t.profile, t.updates[c].existing.value)
    {
      ProfileStaysSeen(s, t, s.updates[c].existing.value);
    }
    forall c | c in t.work ensures WorkSeen(t, t.work[c]) { WorkStaysSeen(s, t, s.work[c]); }
    forall id | id in t.matches ensures CachedOk(t, id, t.matches[id]) { CachedStaysOk(s, t, id, s.matches[id]); }
  }

  lemma StandingStill(s: State)
    requires Sound(s)
    ensures MovesForward(s, s)
  {
    hide WellStored;
  }

  /** The row written over the version that was read. */
  lemma SavedMovesForward(s: State, client: nat)
    requires Sound(s) && client in s.updates && WritesOverWhatItRead(s, FinishUpdate(client))
    requires Plan(s.updates[client].existing, s.updates[client].patch).Saved?
    ensures var row := Plan(s.updates[client].existing, s.updates[client].patch).row;
            WellStored(row) && (s.profile.Some? ==> ProfileSeen(Some(row), s.profile.value))
  {
    var u := s.updates[client];
    SavedIsWellStored(u.existing, u.patch);
    if u.existing.Some? {
      SaveFixesMatchingPart(u.existing.value, u.patch);
      assert ProfileSeen(s.profile, u.existing.value);
    }
    hide Plan, WellStored, MatchingPart;
  }

  lemma FinishKeepsSound(s: State, client: nat)
    requires Sound(s) && WritesOverWhatItRead(s, FinishUpdate(client))
    ensures Sound(DoFinishUpdate(s, client))
  {
    hide Sound, Plan, WellStored, ProfileSeen;
    if client in s.updates {
      if Plan(s.updates[client].existing, s.updates[client].patch).Saved? { SavedMovesForward(s, client); }
      FinishForward(s, DoFinishUpdate(s, client));
    }
  }

  lemma FinishForward(s: State, t: State)
    requires Sound(s) && t.library == s.library && t.matches == s.matches && t.work == s.work
    requires forall c | c in t.updates :: c in s.updates && t.updates[c] == s.updates[c]
    requires t.profile == s.profile
             || (t.profile.Some? && WellStored(t.profile.value) && (s.profile.Some? ==> ProfileSeen(t.profile, s.profile.value)))
    ensures Sound(t)
  {
    StandingStill(s);
    hide WellStored, ProfileSeen, LinksInRange;
    ForwardKeepsSound(s, t);
  }

  lemma LibraryKeepsSound(s: State, step: Lifecycle.Step)
    requires Sound(s)
    ensures Sound(s.(library := Lifecycle.Next(s.library, step)))
  {
    var t := s.(library := Lifecycle.Next(s.library, step));
    Lifecycle.NextKeepsLinks(s.library, step);
    LifecycleTheorems.NextEvolves(s.library, step);
    StandingStill(s);
    hide Lifecycle.Next, WellStored, LinksInRange;
    ForwardKeepsSound(s, t);
  }

  lemma BeginUpdateKeepsSound(s: State, client: nat, patch: Patch)
    requires Sound(s)
    ensures Sound(s.(updates := s.updates[client := PendingUpdate(s.profile, patch)]))
  {
    hide WellStored, MatchingPart, LinksInRange, Calculated;
    var t := s.(updates := s.updates[client := PendingUpdate(s.profile, patch)]);
    forall c | c in t.work ensures WorkSeen(t, t.work[c]) { assert WorkSeen(s, s.work[c]); }
    forall id | id in t.matches ensures CachedOk(t, id, t.matches[id]) { assert CachedOk(s, id, s.matches[id]); }
  }

  /** A calculation may take note of what is seen. */
  lemma NotedWorkKeepsSound(s: State, client: nat, w: Work)
    requires Sound(s) && WorkSeen(s, w)
    ensures Sound(s.(work := s.work[client := w]))
  {
    hide WellStored, MatchingPart, LinksInRange, Calculated;
    var t := s.(work := s.work[client := w]);
    forall c | c in t.work ensures WorkSeen(t, t.work[c]) {
      assert c != client ==> WorkSeen(s, s.work[c]);
    }
    forall id | id in t.matches ensures CachedOk(t, id, t.matches[id]) { assert CachedOk(s, id, s.matches[id]); }
  }

  lemma ReadRowKeepsSound(s: State, client: nat, id: nat, weights: Weights, today: Date)
    requires Sound(s)
    ensures Sound(DoReadRow(s, client, id, weights, today))
  {
    if client in s.work && id < |s.library.content.rows| {
      var w := s.work[client];
      assert WorkSeen(s, w);
      var t := DoReadRow(s, client, id, weights, today);
      hide Sound, WellStored, MatchingPart;
      NotedWorkKeepsSound(s, client, t.work[client]);
    }
  }

  lemma StoredMatchKeepsSound(s: State, id: nat, c: Cached)
    requires Sound(s) && CachedOk(s, id, c)
    ensures Sound(s.(matches := s.matches[id := c]))
  {
    hide WellStored, MatchingPart, LinksInRange, Calculated;
    var t := s.(matches := s.matches[id := c]);
    forall k | k in t.work ensures WorkSeen(t, t.work[k]) { assert WorkSeen(s, s.work[k]); }
    forall k | k in t.matches ensures CachedOk(t, k, t.matches[k]) {
      assert k != id ==> CachedOk(s, k, s.matches[k]);
    }
  }

  lemma FewerKeepsSound(s: State, t: State)
    requires Sound(s) && t.library == s.library && t.profile == s.profile && t.matches == s.matches
    requires forall c | c in t.work :: c in s.work && t.work[c] == s.work[c]
    requires forall c | c in t.updates :: c in s.updates && t.updates[c] == s.updates[c]
    ensures Sound(t)
  {
    StandingStill(s);
    hide WellStored, ProfileSeen, LinksInRange;
    ForwardKeepsSound(s, t);
  }

  lemma StoreMatchKeepsSound(s: State, client: nat)
    requires Sound(s)
    ensures Sound(DoStoreMatch(s, client))
  {
    if client in s.work && s.work[client].Ready? {
      var w := s.work[client];
      assert WorkSeen(s, w);
      hide Sound, WellStored, MatchingPart, Calculated, InputsSeen;
      match Calculated(w.from)
      case None => FewerKeepsSound(s, DoStoreMatch(s, client));
      case Some(m) =>
        StoredMatchKeepsSound(s, w.id, Cached(m, w.from.profile.version, w.from.row.version, w.from));
    }
  }

  lemma NextKeepsSound(s: State, step: Step)
    requires Sound(s) && WritesOverWhatItRead(s, step)
    ensures Sound(Next(s, step))
  {
    if step.BeginMatching? && s.profile.Some? {
      assert ProfileSeen(s.profile, s.profile.value);
    }
    assert LinksInRange(s.library.content);
    hide Sound, WellStored, MatchingPart, Lifecycle.Next, LinksInRange, ProfileSeen;
    match step
    case Library(l) => LibraryKeepsSound(s, l);
    case BeginUpdate(client, patch) => BeginUpdateKeepsSound(s, client, patch);
    case FinishUpdate(client) => FinishKeepsSound(s, client);
    case BeginMatching(client, documents) => {
      if s.profile.Some? { NotedWorkKeepsSound(s, client, Reading(s.profile.value, documents)); }
    }
    case ReadRow(client, id, weights, today) => ReadRowKeepsSound(s, client, id, weights, today);
    case StoreMatch(client) => StoreMatchKeepsSound(s, client);
    case Drop(client) => FewerKeepsSound(s, Next(s, step));
  }

  /** No update of the run is lost: each writes over the version it read. */
  ghost predicate NoLostUpdate(s: State, steps: seq<Step>)
    requires LinksInRange(s.library.content)
  {
    forall k | 0 <= k < |steps| :: WritesOverWhatItRead(After(s, steps[..k]), steps[k])
  }

  lemma {:induction false} EveryRunIsSound(s: State, steps: seq<Step>)
    requires Sound(s) && NoLostUpdate(s, steps)
    ensures Sound(After(s, steps))
  {
    assert LinksInRange(s.library.content);
    hide Sound, Next, WritesOverWhatItRead, LinksInRange;
    if steps != [] {
      var init := steps[..|steps| - 1];
      forall k | 0 <= k < |init| ensures WritesOverWhatItRead(After(s, init[..k]), init[k]) {
        assert init[..k] == steps[..k];
      }
      EveryRunIsSound(s, init);
      NextKeepsSound(After(s, init), steps[|steps| - 1]);
    }
  }

  lemma SamePartSameMatch(p: Profile, q: Profile, offer: Offer, documents: seq<Document>, w: Weights, today: Date)
    requires Typed(p) && MatchingPart(p) == MatchingPart(q)
    ensures Typed(q) && CalculateMatch(q, offer, documents, w, today) == CalculateMatch(p, offer, documents, w, today)
  {
    assert Renamed(p, q.fullName, p.requiresFinancialAid, p.willingToRelocate) == q by {
      assert MatchingPart(p).(fullName := q.fullName) == q;
    }
    hide CalculateMatch, MatchingPart;
    UnreadFieldsDoNotMatter(p, q.fullName, p.requiresFinancialAid, p.willingToRelocate, offer, documents, w, today);
  }

  lemma CurrentIsFresh(s: State, id: nat)
    requires Sound(s) && Current(s, id)
    ensures var c := s.matches[id];
            Calculated(c.from.(profile := s.profile.value, row := s.library.content.rows[id])) == Some(c.result)
  {
    assert CachedOk(s, id, s.matches[id]);
    hide Sound;
    var x := s.matches[id].from;
    hide CalculateMatch, OfferOf, WellStored;
    if Typed(x.profile.profile) {
      SamePartSameMatch(x.profile.profile, s.profile.value.profile, OfferOf(x.row), x.documents, x.weights, x.today);
    }
  }

  /**
    In every interleaving of the catalogue's writers, calculations and profile updates of which none
    is lost, each match that `list_current` returns equals a fresh calculation on the profile and the
    scholarship as they are now, with the documents, weights and date of its own calculation.
   */
  lemma CurrentMatchesAreFresh(steps: seq<Step>, id: nat)
    requires NoLostUpdate(EMPTY, steps)
    ensures var s := After(EMPTY, steps);
            Current(s, id) ==>
              var c := s.matches[id];
              Calculated(c.from.(profile := s.profile.value, row := s.library.content.rows[id])) == Some(c.result)
  {
    EveryRunIsSound(EMPTY, steps);
    var s := After(EMPTY, steps);
    hide Sound, Calculated, Current;
    if Current(s, id) { CurrentIsFresh(s, id); }
  }

  /******* Lost updates *******/

  /** The write leaves one version with one matching part. */
  predicate KeepsVersion(now: StoredProfile, written: StoredProfile) {
    written.version > now.version || MatchingPart(written.profile) == MatchingPart(now.profile)
  }

  function MoveTo(country: string): Patch { Patch({CountryField}, BLANK.(country := country)) }

  lemma MoveIsSaved(seen: StoredProfile, country: string)
    requires WellStored(seen) && country != ""
    ensures var r := Plan(Some(seen), MoveTo(country));
            && r.Saved? && r.row.profile.country == country
            && r.row.version <= seen.version + 1
  {
    var merged := Merged(seen.profile, MoveTo(country));
    assert merged == seen.profile.(country := country);
    hide Mills;
  }

  /**
    An update made from an earlier reading keeps the cache key honest, whatever it changes, exactly
    when the version it read is still the version of the row; nothing in the code checks that.
   */
  lemma UpdateIsSafeExactlyForVersionRead(now: StoredProfile, seen: StoredProfile)
    requires WellStored(now) && ProfileSeen(Some(now), seen)
    ensures (forall c :: Plan(Some(seen), c).Saved? ==> KeepsVersion(now, Plan(Some(seen), c).row))
            <==> seen.version == now.version
  {
    if seen.version == now.version {
      forall c | Plan(Some(seen), c).Saved? ensures KeepsVersion(now, Plan(Some(seen), c).row) {
        SaveFixesMatchingPart(seen, c);
      }
    } else {
      var country := if now.profile.country == "US" then "FR" else "US";
      MoveIsSaved(seen, country);
      var row := Plan(Some(seen), MoveTo(country)).row;
      assert MatchingPart(row.profile).country != MatchingPart(now.profile).country;
      assert !KeepsVersion(now, row);
    }
  }

  function Months(n: nat): Patch { Patch({MonthsField}, BLANK.(experienceMonths := Some(n))) }

  /** What saving a number of months leaves in the row. */
  function WithMonths(p: StoredProfile, n: nat): StoredProfile {
    StoredProfile(p.profile.(experienceMonths := Some(n)), p.version + 1)
  }

  lemma MonthsAreSaved(p: StoredProfile, n: nat)
    requires WellStored(p) && p.profile.experienceMonths.None?
    ensures Plan(Some(p), Months(n)) == Saved(WithMonths(p, n))
  {
    assert Merged(p.profile, Months(n)) == p.profile.(experienceMonths := Some(n));
    assert MonthsField in Months(n).fields && !SameField(p.profile, Months(n).values, MonthsField);
    assert StoredForm(p.profile) == p.profile;
    hide Mills, SameField, Merged;
  }

  /** A hard rule asking for at least a year of experience. */
  predicate AsksForAYear(r: Requirement) {
    r.strength == Hard && r.field == ExperienceMonths && r.operator == Gte && r.value == Whole(12)
  }

  lemma YearRuleDecides(row: Scholarship, p: StoredProfile, documents: seq<Document>, w: Weights, today: Date)
    requires Typed(p.profile) && p.profile.experienceMonths.Some?
    requires |row.requirements| == 1 && AsksForAYear(row.requirements[0]) && row.fields[Deadline] == Null
    ensures var m := Calculated(Inputs(p, row, documents, w, today));
            m.Some? && (m.value.outcome == Eligible <==> p.profile.experienceMonths.value >= 12)
  {
    var offer := OfferOf(row);
    var ready := ReadyKinds(documents);
    assert offer.requirements == row.requirements && offer.deadline.None?;
    assert ValidRule(offer.requirements[0]);
    EligibleExactlyWhenHardRulesPass(offer, p.profile, ready, today);
    var r := offer.requirements[0];
    assert Known(p.profile, ready, r.field) && (Passes(r, p.profile, ready, today) <==> p.profile.experienceMonths.value >= 12);
    hide Known, Passes, Results, Overall, Fits, Confidence, Components, TotalScore, ValidRule, OfferOf;
  }

  /** The first update is saved and a match calculated on it; then the second, read before, is saved. */
  function LostUpdate(id: nat, w: Weights, today: Date): (r: seq<Step>)
    ensures |r| == 7
  {
    [BeginUpdate(1, Months(24)), BeginUpdate(2, Months(0)), FinishUpdate(1), BeginMatching(3, []),
     ReadRow(3, id, w, today), StoreMatch(3), FinishUpdate(2)]
  }

  lemma AfterOne(s: State, steps: seq<Step>, n: nat)
    requires LinksInRange(s.library.content) && n < |steps|
    ensures After(s, steps[..n + 1]) == Next(After(s, steps[..n]), steps[n])
  {
    assert steps[..n + 1][..n] == steps[..n];
    hide Next, LinksInRange;
  }

  lemma BeginUpdateDoes(s: State, client: nat, patch: Patch)
    requires LinksInRange(s.library.content)
    ensures var t := Next(s, BeginUpdate(client, patch));
            && t.library == s.library && t.profile == s.profile && t.work == s.work && t.matches == s.matches
            && t.updates == s.updates[client := PendingUpdate(s.profile, patch)]
  {
    hide LinksInRange, Calculated, Plan, Lifecycle.Next, DoReadRow, DoStoreMatch, DoFinishUpdate;
  }

  lemma FinishUpdateDoes(s: State, client: nat, row: StoredProfile)
    requires LinksInRange(s.library.content) && client in s.updates
    requires Plan(s.updates[client].existing, s.updates[client].patch) == Saved(row)
    ensures var t := Next(s, FinishUpdate(client));
            && t.library == s.library && t.profile == Some(row) && t.work == s.work && t.matches == s.matches
            && t.updates == s.updates - {client}
  {
    hide LinksInRange, Calculated, Plan, Lifecycle.Next, DoReadRow, DoStoreMatch;
  }

  lemma BeginMatchingDoes(s: State, client: nat, p: StoredProfile)
    requires LinksInRange(s.library.content) && s.profile == Some(p)
    ensures var t := Next(s, BeginMatching(client, []));
            && t.library == s.library && t.profile == s.profile && t.matches == s.matches && t.updates == s.updates
            && client in t.work && t.work[client] == Reading(p, [])
  {
    hide LinksInRange, Calculated, Plan, Lifecycle.Next, DoReadRow, DoStoreMatch, DoFinishUpdate;
  }

  lemma ReadRowDoes(s: State, client: nat, p: StoredProfile, id: nat, w: Weights, today: Date)
    requires LinksInRange(s.library.content) && id < |s.library.content.rows|
    requires client in s.work && s.work[client] == Reading(p, [])
    ensures var t := Next(s, ReadRow(client, id, w, today));
            && t.library == s.library && t.profile == s.profile && t.matches == s.matches && t.updates == s.updates
            && client in t.work
            && t.work[client] == Ready(id, Inputs(p, s.library.content.rows[id], [], w, today))
  {
    hide LinksInRange, Calculated, Plan, Lifecycle.Next, DoStoreMatch, DoFinishUpdate;
  }

  lemma StoreMatchDoes(s: State, client: nat, id: nat, x: Inputs)
    requires LinksInRange(s.library.content)
    requires client in s.work && s.work[client] == Ready(id, x) && Calculated(x).Some?
    ensures var t := Next(s, StoreMatch(client));
            && t.library == s.library && t.profile == s.profile && t.updates == s.updates
            && id in t.matches
            && t.matches[id] == Cached(Calculated(x).value, x.profile.version, x.row.version, x)
  {
    hide LinksInRange, Calculated, Plan, Lifecycle.Next, DoReadRow, DoFinishUpdate;
  }

  lemma LinksStay(s: State, steps: seq<Step>)
    requires LinksInRange(s.library.content)
    ensures LinksInRange(After(s, steps).library.content)
  {
    hide Next, LinksInRange;
  }

  /** The first three steps: both updates have read the profile, and the first is saved. */
  lemma FirstIsSaved(s: State, p: StoredProfile, id: nat, w: Weights, today: Date)
    requires LinksInRange(s.library.content) && s.profile == Some(p) && WellStored(p) && p.profile.experienceMonths.None?
    ensures var t := After(s, LostUpdate(id, w, today)[..3]);
            && t.library == s.library && t.profile == Some(WithMonths(p, 24))
            && 2 in t.updates && t.updates[2] == PendingUpdate(Some(p), Months(0))
  {
    hide After, Next, Plan, WellStored, LinksInRange, Months, WithMonths;
    var steps := LostUpdate(id, w, today);
    AfterNone(s, steps);
    AfterOne(s, steps, 0);
    BeginUpdateDoes(s, 1, Months(24));
    AfterOne(s, steps, 1);
    BeginUpdateDoes(After(s, steps[..1]), 2, Months(0));
    AfterOne(s, steps, 2);
    MonthsAreSaved(p, 24);
    FinishUpdateDoes(After(s, steps[..2]), 1, WithMonths(p, 24));
  }

  lemma AfterNone(s: State, steps: seq<Step>)
    requires LinksInRange(s.library.content)
    ensures After(s, steps[..0]) == s
  {
    hide Next, LinksInRange;
  }

  lemma RowIsRead(s: State, t: State, p: StoredProfile, id: nat, w: Weights, today: Date)
    requires LinksInRange(s.library.content) && id < |s.library.content.rows|
    requires t == After(s, LostUpdate(id, w, today)[..3]) && t.library == s.library && t.profile == Some(p)
    ensures var u := After(s, LostUpdate(id, w, today)[..5]);
            && u.library == s.library && u.updates == t.updates
            && 3 in u.work && u.work[3] == Ready(id, Inputs(p, s.library.content.rows[id], [], w, today))
  {
    hide After, Next, Calculated, LinksInRange;
    var steps := LostUpdate(id, w, today);
    AfterOne(s, steps, 3);
    BeginMatchingDoes(t, 3, p);
    AfterOne(s, steps, 4);
    ReadRowDoes(After(s, steps[..4]), 3, p, id, w, today);
  }

  /** The next three: a match is calculated and stored. */
  lemma MatchIsStored(s: State, t: State, p: StoredProfile, id: nat, w: Weights, today: Date)
    requires LinksInRange(s.library.content) && id < |s.library.content.rows|
    requires t == After(s, LostUpdate(id, w, today)[..3]) && t.library == s.library && t.profile == Some(p)
    requires Calculated(Inputs(p, s.library.content.rows[id], [], w, today)).Some?
    ensures var u := After(s, LostUpdate(id, w, today)[..6]);
            var x := Inputs(p, s.library.content.rows[id], [], w, today);
            && u.library == s.library && u.updates == t.updates
            && id in u.matches && u.matches[id] == Cached(Calculated(x).value, p.version, x.row.version, x)
  {
    hide After, Next, Calculated, LinksInRange;
    RowIsRead(s, t, p, id, w, today);
    var steps := LostUpdate(id, w, today);
    AfterOne(s, steps, 5);
    StoreMatchDoes(After(s, steps[..5]), 3, id, Inputs(p, s.library.content.rows[id], [], w, today));
  }

  lemma SecondIsSaved(s: State, u: State, p: StoredProfile, id: nat, w: Weights, today: Date)
    requires LinksInRange(s.library.content) && WellStored(p) && p.profile.experienceMonths.None?
    requires u == After(s, LostUpdate(id, w, today)[..6])
    requires 2 in u.updates && u.updates[2] == PendingUpdate(Some(p), Months(0))
    ensures var t := After(s, LostUpdate(id, w, today));
            t.library == u.library && t.matches == u.matches && t.profile == Some(WithMonths(p, 0))
  {
    hide After, Next, Plan, WellStored, LinksInRange, Months, WithMonths;
    var steps := LostUpdate(id, w, today);
    MonthsAreSaved(p, 0);
    LinksStay(s, steps[..6]);
    AfterOne(s, steps, 6);
    FinishUpdateDoes(u, 2, WithMonths(p, 0));
    assert steps[..7] == steps;
  }

  /**
    Two updates that read the same version and are saved one after the other: a match calculated in
    between stays current, but a fresh calculation reverses its verdict.
   */
  lemma LostUpdateServesWrongMatch(s: State, p: StoredProfile, id: nat, w: Weights, today: Date)
    requires Sound(s) && s.profile == Some(p) && p.profile.experienceMonths.None? && id < |s.library.content.rows|
    requires var row := s.library.content.rows[id];
             |row.requirements| == 1 && AsksForAYear(row.requirements[0]) && row.fields[Deadline] == Null
    ensures var t := After(s, LostUpdate(id, w, today));
            && Current(t, id) && t.matches[id].result.outcome == Eligible
            && var again := Calculated(t.matches[id].from.(profile := t.profile.value, row := t.library.content.rows[id]));
               again.Some? && again.value.outcome != Eligible
  {
    assert LinksInRange(s.library.content) && WellStored(p);
    assert Typed(p.profile);
    hide Sound, LinksInRange, WellStored, Calculated, AsksForAYear, After, LostUpdate;
    var row := s.library.content.rows[id];
    YearRuleDecides(row, WithMonths(p, 24), [], w, today);
    YearRuleDecides(row, WithMonths(p, 0), [], w, today);
    FirstIsSaved(s, p, id, w, today);
    var t := After(s, LostUpdate(id, w, today)[..3]);
    MatchIsStored(s, t, WithMonths(p, 24), id, w, today);
    SecondIsSaved(s, After(s, LostUpdate(id, w, today)[..6]), p, id, w, today);
  }
}
