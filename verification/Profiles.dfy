/**
  Profile updates: a patch is merged into the row that was read, the version moves when a field the
  matching reads has changed, and the whole row is written back without looking at it again.
 */
module Profiles {
  import opened Prelude
  import opened MatchingEngine

  datatype Field =
    | NameField | CountryField | LevelField | StudyField | GpaField | ScaleField | NationalityField
    | ResidenceField | BirthField | InterestsField | TargetsField | GoalsField | AidField | MoveField
    | InstitutionField | MonthsField

  /** The fields a patch names, with their new values. */
  datatype Patch = Patch(fields: set<Field>, values: Profile)

  datatype StoredProfile = StoredProfile(profile: Profile, version: nat)

  const BLANK := Profile("", "", "", None, None, None, None, None, None, [], [], None, None, None, None, None)

  /** Every field but the name can change a match. */
  predicate Matching(f: Field) { f != NameField }

  predicate SameField(p: Profile, q: Profile, f: Field) {
    match f
    case NameField => p.fullName == q.fullName
    case CountryField => p.country == q.country
    case LevelField => p.studyLevel == q.studyLevel
    case StudyField => p.fieldOfStudy == q.fieldOfStudy
    case GpaField => p.gpa == q.gpa
    case ScaleField => p.gpaScale == q.gpaScale
    case NationalityField => p.nationality == q.nationality
    case ResidenceField => p.residence == q.residence
    case BirthField => p.dateOfBirth == q.dateOfBirth
    case InterestsField => p.interests == q.interests
    case TargetsField => p.targetCountries == q.targetCountries
    case GoalsField => p.goals == q.goals
    case AidField => p.requiresFinancialAid == q.requiresFinancialAid
    case MoveField => p.willingToRelocate == q.willingToRelocate
    case InstitutionField => p.institution == q.institution
    case MonthsField => p.experienceMonths == q.experienceMonths
  }

  /** The row's fields with those of the patch put over them. */
  function Merged(p: Profile, c: Patch): Profile {
    var v := c.values;
    Profile(
      if NameField in c.fields then v.fullName else p.fullName,
      if CountryField in c.fields then v.country else p.country,
      if LevelField in c.fields then v.studyLevel else p.studyLevel,
      if StudyField in c.fields then v.fieldOfStudy else p.fieldOfStudy,
      if GpaField in c.fields then v.gpa else p.gpa,
      if ScaleField in c.fields then v.gpaScale else p.gpaScale,
      if NationalityField in c.fields then v.nationality else p.nationality,
      if ResidenceField in c.fields then v.residence else p.residence,
      if BirthField in c.fields then v.dateOfBirth else p.dateOfBirth,
      if InterestsField in c.fields then v.interests else p.interests,
      if TargetsField in c.fields then v.targetCountries else p.targetCountries,
      if GoalsField in c.fields then v.goals else p.goals,
      if AidField in c.fields then v.requiresFinancialAid else p.requiresFinancialAid,
      if MoveField in c.fields then v.willingToRelocate else p.willingToRelocate,
      if InstitutionField in c.fields then v.institution else p.institution,
      if MonthsField in c.fields then v.experienceMonths else p.experienceMonths)
  }

  predicate MatchingChanged(p: Profile, c: Patch) {
    exists f | f in c.fields :: Matching(f) && !SameField(p, c.values, f)
  }

  /** numeric(6, 3) */
  function Mills(r: real): real { (r * 1000.0 + 0.5).Floor as real / 1000.0 }

  function MillsIf(r: Option<real>): Option<real> { if r.Some? then Some(Mills(r.value)) else None }

  /** What the row holds after a profile is written to it. */
  function StoredForm(p: Profile): Profile { p.(gpa := MillsIf(p.gpa), gpaScale := MillsIf(p.gpaScale)) }

  predicate Complete(p: Profile) { p.fullName != "" && p.country != "" && p.studyLevel != "" }

  /** The combined checks of the profile schema that span fields. */
  predicate Valid(p: Profile) {
    && (p.gpa.Some? <==> p.gpaScale.Some?)
    && (p.gpa.Some? ==> 0.0 <= p.gpa.value <= p.gpaScale.value && 0.0 < p.gpaScale.value <= 100.0)
  }

  datatype Reply = EmptyUpdate | IncompleteProfile | InvalidProfile | RefusedByDatabase | QueueUnavailable | Saved(row: StoredProfile)

  /** What an update writes, given the row it read; a scale that rounds to zero breaks a row check. */
  function Plan(existing: Option<StoredProfile>, c: Patch): Reply {
    if c.fields == {} then EmptyUpdate
    else
      var merged := Merged(if existing.Some? then existing.value.profile else BLANK, c);
      if !Complete(merged) then IncompleteProfile
      else if !Valid(merged) then InvalidProfile
      else if !Valid(StoredForm(merged)) then RefusedByDatabase
      else
        Saved(StoredProfile(StoredForm(merged),
                            if existing.None? then 1
                            else existing.value.version + if MatchingChanged(existing.value.profile, c) then 1 else 0))
  }

  /** The fields matching reads, and no other. */
  function MatchingPart(p: Profile): Profile { p.(fullName := "") }

  /** A row as the table can hold it. */
  predicate WellStored(row: StoredProfile) {
    Valid(row.profile) && Complete(row.profile) && StoredForm(row.profile) == row.profile
  }

  lemma WholeMills(k: int)
    ensures Mills(k as real / 1000.0) == k as real / 1000.0
  {
    var x := k as real / 1000.0 * 1000.0 + 0.5;
    assert x == k as real + 0.5;
    assert x.Floor == k;
  }

  lemma MillsIdempotent(r: real)
    ensures Mills(Mills(r)) == Mills(r)
  {
    WholeMills((r * 1000.0 + 0.5).Floor);
  }

  lemma StoredFormIdempotent(p: Profile)
    ensures StoredForm(StoredForm(p)) == StoredForm(p)
  {
    if p.gpa.Some? { MillsIdempotent(p.gpa.value); }
    if p.gpaScale.Some? { MillsIdempotent(p.gpaScale.value); }
    hide Mills;
  }

  lemma SameFieldsSamePart(p: Profile, q: Profile)
    requires forall f | Matching(f) :: SameField(p, q, f)
    ensures MatchingPart(p) == MatchingPart(q)
  {
    assert p.country == q.country by { assert SameField(p, q, CountryField); }
    assert p.studyLevel == q.studyLevel by { assert SameField(p, q, LevelField); }
    assert p.fieldOfStudy == q.fieldOfStudy by { assert SameField(p, q, StudyField); }
    assert p.gpa == q.gpa by { assert SameField(p, q, GpaField); }
    assert p.gpaScale == q.gpaScale by { assert SameField(p, q, ScaleField); }
    assert p.nationality == q.nationality by { assert SameField(p, q, NationalityField); }
    assert p.residence == q.residence by { assert SameField(p, q, ResidenceField); }
    assert p.dateOfBirth == q.dateOfBirth by { assert SameField(p, q, BirthField); }
    assert p.interests == q.interests by { assert SameField(p, q, InterestsField); }
    assert p.targetCountries == q.targetCountries by { assert SameField(p, q, TargetsField); }
    assert p.goals == q.goals by { assert SameField(p, q, GoalsField); }
    assert p.requiresFinancialAid == q.requiresFinancialAid by { assert SameField(p, q, AidField); }
    assert p.willingToRelocate == q.willingToRelocate by { assert SameField(p, q, MoveField); }
    assert p.institution == q.institution by { assert SameField(p, q, InstitutionField); }
    assert p.experienceMonths == q.experienceMonths by { assert SameField(p, q, MonthsField); }
  }

  lemma SamePartSameField(p: Profile, q: Profile, f: Field)
    requires MatchingPart(p) == MatchingPart(q) && Matching(f)
    ensures SameField(p, q, f)
  {
    assert MatchingPart(p).country == p.country;
  }

  lemma MergedField(p: Profile, c: Patch, f: Field)
    ensures SameField(p, Merged(p, c), f) <==> f !in c.fields || SameField(p, c.values, f)
  {
  }

  predicate IsMills(r: real, k: int) { r == k as real / 1000.0 }

  /** A grade is held to the nearest thousandth, upwards from halfway. */
  lemma MillsAreNearest(r: real)
    ensures -0.0005 < Mills(r) - r <= 0.0005
    ensures exists k: int :: IsMills(Mills(r), k)
  {
    var k := (r * 1000.0 + 0.5).Floor;
    assert IsMills(Mills(r), k);
    assert -0.5 < k as real - r * 1000.0 <= 0.5;
  }

  lemma StoredField(p: Profile, q: Profile, f: Field)
    requires SameField(p, q, f)
    ensures SameField(StoredForm(p), StoredForm(q), f)
  {
    hide Mills;
  }

  /** Of a saved row each field is the patch's if the patch names it, and the one it was otherwise. */
  lemma SavedFieldIs(existing: StoredProfile, c: Patch, f: Field)
    requires WellStored(existing) && Plan(Some(existing), c).Saved?
    ensures var row := Plan(Some(existing), c).row;
            && (f in c.fields ==> SameField(row.profile, StoredForm(c.values), f))
            && (f !in c.fields ==> SameField(row.profile, existing.profile, f))
  {
    var merged := Merged(existing.profile, c);
    assert f !in c.fields ==> SameField(merged, existing.profile, f);
    assert f in c.fields ==> SameField(merged, c.values, f);
    hide Merged, Mills, StoredForm, SameField;
    if f in c.fields { StoredField(merged, c.values, f); } else { StoredField(merged, existing.profile, f); }
  }

  /**
    A first save needs a name, a country and a study level, and starts at version one with nothing
    else than what the patch says.
   */
  lemma FirstSaveIs(c: Patch, f: Field)
    requires Plan(None, c).Saved?
    ensures {NameField, CountryField, LevelField} <= c.fields
    ensures var row := Plan(None, c).row;
            && row.version == 1
            && (f in c.fields ==> SameField(row.profile, StoredForm(c.values), f))
            && (f !in c.fields ==> SameField(row.profile, BLANK, f))
  {
    var merged := Merged(BLANK, c);
    assert f !in c.fields ==> SameField(merged, BLANK, f);
    assert f in c.fields ==> SameField(merged, c.values, f);
    assert StoredForm(BLANK) == BLANK;
    assert {NameField, CountryField, LevelField} <= c.fields;
    hide Merged, Mills, StoredForm, SameField;
    if f in c.fields { StoredField(merged, c.values, f); } else { StoredField(merged, BLANK, f); }
  }

  /** The version moves exactly when the update changes what matching reads. */
  lemma VersionMovesExactlyWithMatchingPart(p: Profile, c: Patch)
    ensures MatchingChanged(p, c) <==> MatchingPart(Merged(p, c)) != MatchingPart(p)
  {
    hide Merged, SameField, MatchingPart;
    var q := Merged(p, c);
    if MatchingChanged(p, c) {
      var f :| f in c.fields && Matching(f) && !SameField(p, c.values, f);
      MergedField(p, c, f);
      if MatchingPart(p) == MatchingPart(q) { SamePartSameField(p, q, f); }
    } else {
      forall f | Matching(f) ensures SameField(p, q, f) { MergedField(p, c, f); }
      SameFieldsSamePart(p, q);
    }
  }

  /** What a save keeps: a well-formed row, and one version for one matching part. */
  lemma SaveFixesMatchingPart(existing: StoredProfile, c: Patch)
    requires WellStored(existing) && Plan(Some(existing), c).Saved?
    ensures var row := Plan(Some(existing), c).row;
            && existing.version <= row.version <= existing.version + 1
            && (row.version == existing.version ==> MatchingPart(row.profile) == MatchingPart(existing.profile))
  {
    VersionMovesExactlyWithMatchingPart(existing.profile, c);
    hide MatchingChanged, Merged, Mills;
  }

  lemma SavedIsWellStored(existing: Option<StoredProfile>, c: Patch)
    requires Plan(existing, c).Saved?
    ensures WellStored(Plan(existing, c).row)
  {
    var merged := Merged(if existing.Some? then existing.value.profile else BLANK, c);
    StoredFormIdempotent(merged);
    hide MatchingChanged, Merged, Mills;
  }

  class ProfileService {
    var row: Option<StoredProfile>
    var rematches: set<nat>

    constructor ()
      ensures row.None? && rematches == {}
    {
      row, rematches := None, {};
    }

    /**
      One update in one unit of work: the row is written and a rematch queued under a key that names
      the version, or nothing happens.
     */
    method Update(c: Patch, queueUp: bool) returns (reply: Reply)
      modifies this
      ensures var plan := Plan(old(row), c);
              if !plan.Saved? then reply == plan && row == old(row) && rematches == old(rematches)
              else
                var changed := old(row).None? || plan.row.version != old(row).value.version;
                if changed && !queueUp then reply == QueueUnavailable && row == old(row) && rematches == old(rematches)
                else
                  && reply == plan && row == Some(plan.row)
                  && rematches == old(rematches) + if changed then {plan.row.version} else {}
    {
      if c.fields == {} { return EmptyUpdate; }
      var existing := row;
      var merged := Merged(if existing.Some? then existing.value.profile else BLANK, c);
      if !Complete(merged) { return IncompleteProfile; }
      if !Valid(merged) { return InvalidProfile; }
      if !Valid(StoredForm(merged)) { return RefusedByDatabase; }
      hide Merged, Complete, Valid, StoredForm;
      var matchingChanged, version := true, 1;
      if existing.Some? {
        matchingChanged := MatchingChanged(existing.value.profile, c);
        version := existing.value.version + if matchingChanged then 1 else 0;
      }
      var written := StoredProfile(StoredForm(merged), version);
      row := Some(written);
      if matchingChanged {
        if !queueUp {
          row := existing;
          return QueueUnavailable;
        }
        rematches := rematches + {version};
      }
      return Saved(written);
    }
  }
}
