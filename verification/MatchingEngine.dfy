/**
  Deterministic matching: three-valued rules over a profile, an overall verdict, and five weighted
  scores. Scores are exact reals; only the rounding the code asks for is applied.
 */
module MatchingEngine {
  import opened Prelude
  import opened Rules
  import opened MatchingText

  /******* Inputs *******/

  datatype Profile = Profile(
    fullName: string,
    country: string,
    studyLevel: string,
    fieldOfStudy: Option<string>,
    gpa: Option<real>,
    gpaScale: Option<real>,
    nationality: Option<string>,
    residence: Option<string>,
    dateOfBirth: Option<Date>,
    interests: seq<string>,
    targetCountries: seq<string>,
    goals: Option<string>,
    requiresFinancialAid: Option<bool>,
    willingToRelocate: Option<bool>,
    institution: Option<string>,
    experienceMonths: Option<nat>)

  /** Stored profiles have a positive scale. */
  predicate Typed(p: Profile) { p.gpaScale.Some? ==> p.gpaScale.value > 0.0 }

  datatype Document = Document(kind: string, ready: bool)

  /** What the engine reads of a scholarship. */
  datatype Offer = Offer(
    title: string,
    description: string,
    fieldsOfStudy: seq<string>,
    studyLevels: seq<string>,
    eligibilitySummary: string,
    requiredDocuments: seq<string>,
    deadline: Option<Date>,
    requirements: seq<Requirement>)

  datatype Weights = Weights(academic: real, eligibility: real, interests: real, experience: real, readiness: real)

  predicate ValidWeights(w: Weights) {
    && 0.0 <= w.academic <= 1.0 && 0.0 <= w.eligibility <= 1.0 && 0.0 <= w.interests <= 1.0
    && 0.0 <= w.experience <= 1.0 && 0.0 <= w.readiness <= 1.0
    && -0.000000001 <= w.academic + w.eligibility + w.interests + w.experience + w.readiness - 1.0 <= 0.000000001
  }

  /******* Rules *******/

  predicate IsTextField(f: RuleField) {
    f in {Country, Destination, Nationality, Residency, StudyLevel, FieldOfStudy, Institution, RuleField.Document}
  }

  predicate Blank(s: string) { forall c | c in s :: IsSpace(c) }

  /** The values the rule schema accepts; a rule with another value is an error. */
  predicate ValidRule(r: Requirement) {
    if r.operator == Exists then r.value == Truth(true)
    else
      match r.field
      case Gpa =>
        && r.operator in {Equals, Gte, Lte}
        && r.value.GpaTarget? && 0.0 <= r.value.score <= r.value.scale <= 100.0 && r.value.scale > 0.0
      case Age => ValidNumbers(r)
      case Experience => ValidNumbers(r)
      case ExperienceMonths => ValidNumbers(r)
      case DateOfBirth => r.operator in {Equals, Gte, Lte} && r.value.OnDate?
      case _ =>
        && IsTextField(r.field)
        && r.operator in {Equals, NotEquals, In, NotIn, Contains}
        && (match r.value
            case Phrase(t) => !Blank(t)
            case Phrases(ts) => ts != [] && forall t | t in ts :: !Blank(t)
            case _ => false)
  }

  /** Booleans pass as the numbers 0 and 1. */
  predicate ValidNumbers(r: Requirement) {
    && r.operator in {Equals, Gte, Lte, In}
    && (match r.value
        case Whole(n) => n >= 0
        case Wholes(ns) => ns != [] && forall n | n in ns :: n >= 0
        case Truth(_) => true
        case _ => false)
  }

  datatype Verdict = Ineligible | Unknown | Eligible

  /** The order in which outcomes improve. */
  function Rank(v: Verdict): nat {
    match v case Ineligible => 0 case Unknown => 1 case Eligible => 2
  }

  datatype Result = Result(field: RuleField, strength: Strength, verdict: Verdict, reason: string, missing: set<string>)

  function ProfileField(f: RuleField): string {
    match f
    case Country => "country"
    case Destination => "target_countries"
    case Nationality => "nationality_country"
    case Residency => "residence_country"
    case StudyLevel => "study_level"
    case FieldOfStudy => "field_of_study"
    case Gpa => "gpa"
    case Age => "date_of_birth"
    case DateOfBirth => "date_of_birth"
    case Institution => "institution_name"
    case Experience => "experience_months"
    case ExperienceMonths => "experience_months"
    case Document => "ready_document_types"
    case DeadlineField => "deadline"
    case OtherField => "other"
  }

  function TextOf(s: Option<string>): seq<string> {
    if s.Some? && s.value != "" then [s.value] else []
  }

  /** The texts of a text field; none when it is unknown. */
  function Texts(p: Profile, ready: seq<string>, f: RuleField): seq<string> {
    match f
    case Country => TextOf(Some(p.country))
    case Destination => p.targetCountries
    case Nationality => TextOf(p.nationality)
    case Residency => TextOf(p.residence)
    case StudyLevel => TextOf(Some(p.studyLevel))
    case FieldOfStudy => TextOf(p.fieldOfStudy)
    case Institution => TextOf(p.institution)
    case Document => ready
    case _ => []
  }

  /** Whether the profile says anything on the field a rule is about. */
  predicate Known(p: Profile, ready: seq<string>, f: RuleField) {
    match f
    case Gpa => p.gpa.Some? && p.gpaScale.Some?
    case Age => p.dateOfBirth.Some?
    case DateOfBirth => p.dateOfBirth.Some?
    case Experience => p.experienceMonths.Some?
    case ExperienceMonths => p.experienceMonths.Some?
    case _ => Texts(p, ready, f) != []
  }

  function TextCompare(values: seq<string>, op: Operator, targets: seq<string>): bool {
    var vs, ts := NormalizedSet(values), NormalizedSet(targets);
    match op
    case Equals => vs * ts != {}
    case NotEquals => vs * ts == {}
    case In => vs * ts != {}
    case NotIn => vs * ts == {}
    case Contains => exists v, t | v in vs && t in ts :: Within(t, v)
    case _ => false
  }

  function Targets(v: RuleValue): seq<string> {
    match v case Phrase(t) => [t] case Phrases(ts) => ts case _ => []
  }

  /** The number a rule value stands for, if it is one. */
  function AsNumber(v: RuleValue): Option<int> {
    match v case Whole(n) => Some(n) case Truth(b) => Some(if b then 1 else 0) case _ => None
  }

  /** A list is a target of `in` only. */
  function NumericCompare(value: int, op: Operator, target: RuleValue): bool {
    if op == In && target.Wholes? then value in target.ns
    else
      match AsNumber(target)
      case None => false
      case Some(n) =>
        match op
        case In => value == n
        case Equals => value == n
        case Gte => value >= n
        case Lte => value <= n
        case _ => false
  }

  function DateCompare(value: Date, op: Operator, target: Date): bool {
    match op
    case Equals => value == target
    case Gte => !value.Before(target)
    case Lte => !target.Before(value)
    case _ => false
  }

  function GpaCompare(gpa: real, scale: real, op: Operator, score: real, targetScale: real): bool
    requires scale > 0.0 && targetScale > 0.0
  {
    var ratio, target := gpa / scale, score / targetScale;
    match op
    case Equals => ratio == target
    case Gte => ratio >= target
    case Lte => ratio <= target
    case _ => false
  }

  function AgeOn(born: Date, today: Date): int {
    today.year - born.year
    - if today.month < born.month || (today.month == born.month && today.day < born.day) then 1 else 0
  }

  function Passes(r: Requirement, p: Profile, ready: seq<string>, today: Date): bool
    requires Typed(p) && ValidRule(r) && Known(p, ready, r.field)
  {
    if r.operator == Exists then true
    else
      match r.field
      case Gpa => GpaCompare(p.gpa.value, p.gpaScale.value, r.operator, r.value.score, r.value.scale)
      case Age => NumericCompare(AgeOn(p.dateOfBirth.value, today), r.operator, r.value)
      case DateOfBirth => DateCompare(p.dateOfBirth.value, r.operator, r.value.date)
      case Experience => NumericCompare(p.experienceMonths.value, r.operator, r.value)
      case ExperienceMonths => NumericCompare(p.experienceMonths.value, r.operator, r.value)
      case _ => TextCompare(Texts(p, ready, r.field), r.operator, Targets(r.value))
  }

  /** The fields a rule misses. */
  function MissingFields(p: Profile, f: RuleField): set<string> {
    if f == Gpa then (if p.gpa.Some? then {} else {"gpa"}) + (if p.gpaScale.Some? then {} else {"gpa_scale"})
    else {ProfileField(f)}
  }

  function EvaluateRule(r: Requirement, p: Profile, ready: seq<string>, today: Date): Result
    requires Typed(p) && ValidRule(r)
  {
    if !Known(p, ready, r.field)
    then Result(r.field, r.strength, Unknown, "PROFILE_EVIDENCE_MISSING", MissingFields(p, r.field))
    else if Passes(r, p, ready, today)
    then Result(r.field, r.strength, Eligible, "RULE_CONFIRMED_PASS", {})
    else Result(r.field, r.strength, Ineligible, "RULE_CONFIRMED_FAIL", {})
  }

  predicate AllValid(rules: seq<Requirement>) { forall i | 0 <= i < |rules| :: ValidRule(rules[i]) }

  function RuleResults(rules: seq<Requirement>, p: Profile, ready: seq<string>, today: Date): (r: seq<Result>)
    requires Typed(p) && AllValid(rules)
    ensures |r| == |rules|
    ensures forall i | 0 <= i < |rules| :: r[i] == EvaluateRule(rules[i], p, ready, today)
  {
    if rules == [] then [] else
      [EvaluateRule(rules[0], p, ready, today)] + RuleResults(rules[1..], p, ready, today)
  }

  predicate Expired(offer: Offer, today: Date) { offer.deadline.Some? && offer.deadline.value.Before(today) }

  /** One result a rule, and a failed hard one when the deadline has passed. */
  function Results(offer: Offer, p: Profile, ready: seq<string>, today: Date): seq<Result>
    requires Typed(p) && AllValid(offer.requirements)
  {
    RuleResults(offer.requirements, p, ready, today)
    + if Expired(offer, today) then [Result(DeadlineField, Hard, Ineligible, "SCHOLARSHIP_EXPIRED", {})] else []
  }

  function OfStrength(results: seq<Result>, s: Strength): seq<Result> {
    if results == [] then []
    else (if results[0].strength == s then [results[0]] else []) + OfStrength(results[1..], s)
  }

  predicate AnyVerdict(results: seq<Result>, v: Verdict) { exists i | 0 <= i < |results| :: results[i].verdict == v }

  function Overall(results: seq<Result>): Verdict {
    var hard := OfStrength(results, Hard);
    if AnyVerdict(hard, Ineligible) then Ineligible
    else if AnyVerdict(hard, Unknown) then Unknown
    else Eligible
  }

  function Reasons(results: seq<Result>): seq<string> {
    if results == [] then []
    else (if results[0].verdict != Eligible then [results[0].reason] else []) + Reasons(results[1..])
  }

  function Missing(results: seq<Result>): set<string> {
    if results == [] then {} else results[0].missing + Missing(results[1..])
  }

  /******* Scores *******/

  function OutcomeScore(v: Verdict): real {
    match v case Eligible => 1.0 case Unknown => 0.5 case Ineligible => 0.0
  }

  function Sum(values: seq<real>): real {
    if values == [] then 0.0 else values[0] + Sum(values[1..])
  }

  function Average(values: seq<real>): real {
    if values == [] then 1.0 else Sum(values) / (|values| as real)
  }

  function OutcomeScores(results: seq<Result>): (r: seq<real>)
    ensures |r| == |results| && forall i | 0 <= i < |r| :: r[i] == OutcomeScore(results[i].verdict)
  {
    seq(|results|, i requires 0 <= i < |results| => OutcomeScore(results[i].verdict))
  }

  function OnFields(results: seq<Result>, fields: set<RuleField>): seq<Result> {
    if results == [] then []
    else (if results[0].field in fields then [results[0]] else []) + OnFields(results[1..], fields)
  }

  /** Hard results first, as the fit functions receive them. */
  function Arranged(results: seq<Result>): seq<Result> { OfStrength(results, Hard) + OfStrength(results, Soft) }

  function Similarity(a: set<string>, b: set<string>): (r: real)
    ensures 0.0 <= r <= 1.0
  {
    if a + b == {} then 1.0 else Jaccard(a, b)
  }

  function FieldSimilarity(field: string, mine: set<string>): (r: real)
    ensures 0.0 <= r <= 1.0
  {
    Similarity(Tokens(field), mine)
  }

  /** The best similarity to one of the fields of study. */
  function BestSimilarity(fields: seq<string>, mine: set<string>): (r: real)
    requires fields != []
    ensures 0.0 <= r <= 1.0
  {
    var last := FieldSimilarity(fields[|fields| - 1], mine);
    if |fields| == 1 then last
    else
      var best := BestSimilarity(fields[..|fields| - 1], mine);
      if best >= last then best else last
  }

  function LevelScore(p: Profile, offer: Offer): seq<real> {
    if offer.studyLevels == [] then []
    else [if p.studyLevel == "" then 0.5 else if p.studyLevel in offer.studyLevels then 1.0 else 0.0]
  }

  function FieldScore(p: Profile, offer: Offer): seq<real> {
    if offer.fieldsOfStudy == [] then []
    else [if TextOf(p.fieldOfStudy) == [] then 0.5 else BestSimilarity(offer.fieldsOfStudy, Tokens(p.fieldOfStudy.value))]
  }

  function GpaScore(results: seq<Result>): seq<real> {
    var gpa := OnFields(Arranged(results), {Gpa});
    if gpa == [] then [] else [Average(OutcomeScores(gpa))]
  }

  function AcademicFit(p: Profile, offer: Offer, results: seq<Result>): real {
    Average(LevelScore(p, offer) + FieldScore(p, offer) + GpaScore(results))
  }

  function EligibilityFit(results: seq<Result>): real {
    var hard, soft := OfStrength(results, Hard), OfStrength(results, Soft);
    if soft == [] then Average(OutcomeScores(hard))
    else 0.7 * Average(OutcomeScores(hard)) + 0.3 * Average(OutcomeScores(soft))
  }

  function ExperienceFit(results: seq<Result>): real {
    Average(OutcomeScores(OnFields(Arranged(results), {Experience, ExperienceMonths})))
  }

  function InterestsFit(p: Profile, offer: Offer): real {
    var mine := TokensOfAll(p.interests) + TokensIf(p.goals);
    var theirs := Tokens(offer.title) + Tokens(offer.description)
                  + TokensOfAll(offer.fieldsOfStudy) + Tokens(offer.eligibilitySummary);
    if mine == {} || theirs == {} then 0.5 else Jaccard(mine, theirs)
  }

  predicate IsLeap(year: int) { year % 4 == 0 && (year % 100 != 0 || year % 400 == 0) }

  /** The proleptic Gregorian ordinal of a date. */
  function DayNumber(d: Date): int {
    var y := d.year - 1;
    var before := [0, 31, 59, 90, 120, 151, 181, 212, 243, 273, 304, 334];
    y * 365 + y / 4 - y / 100 + y / 400
    + (if 1 <= d.month <= 12 then before[d.month - 1] else 0)
    + (if d.month > 2 && IsLeap(d.year) then 1 else 0) + d.day
  }

  function TimingScore(deadline: Option<Date>, today: Date): real {
    if deadline.None? then 0.7
    else
      var days := DayNumber(deadline.value) - DayNumber(today);
      if days < 0 then 0.0 else if days < 14 then 0.4 else if days < 30 then 0.6 else if days < 90 then 0.8 else 1.0
  }

  function ReadyKinds(documents: seq<Document>): seq<string> {
    if documents == [] then []
    else (if documents[0].ready then [documents[0].kind] else []) + ReadyKinds(documents[1..])
  }

  function DocumentScore(offer: Offer, documents: seq<Document>): (r: real)
    ensures 0.0 <= r <= 1.0
  {
    var required, ready := NormalizedSet(offer.requiredDocuments), NormalizedSet(ReadyKinds(documents));
    if required == {} then 1.0
    else Share(required * ready, required)
  }

  function ReadinessFit(offer: Offer, documents: seq<Document>, today: Date): real {
    0.6 * DocumentScore(offer, documents) + 0.4 * TimingScore(offer.deadline, today)
  }

  /** Profile columns a confident match would want. */
  function RuleColumns(rules: seq<Requirement>): set<string> {
    if rules == [] then {}
    else
      RuleColumns(rules[..|rules| - 1])
      + var f := rules[|rules| - 1].field;
        if f == Gpa then {"gpa", "gpa_scale"} else if f == DeadlineField then {} else {ProfileField(f)}
  }

  /** How much of a set a part of it makes up. */
  function Share(part: set<string>, whole: set<string>): (r: real)
    requires part <= whole && whole != {}
    ensures 0.0 <= r <= 1.0
  {
    SubsetIsSmaller(part, whole);
    RatioInUnit(|part|, |whole|);
    (|part| as real) / (|whole| as real)
  }

  function Expected(offer: Offer): (r: set<string>)
    ensures r != {}
  {
    OfferColumns(offer) + RuleColumns(offer.requirements)
  }

  function OfferColumns(offer: Offer): (r: set<string>)
    ensures "study_level" in r
  {
    {"study_level"}
    + (if offer.fieldsOfStudy != [] then {"field_of_study"} else {})
    + (if offer.title != "" || offer.description != "" || offer.fieldsOfStudy != [] || offer.eligibilitySummary != ""
       then {"interests_or_goals"} else {})
  }

  predicate HasText(s: Option<string>) { s.Some? && s.value != "" }

  /** Whether a column counts as known; document types always do. */
  predicate ColumnKnown(p: Profile, column: string) {
    if column == "interests_or_goals" then p.interests != [] || HasText(p.goals)
    else if column == "ready_document_types" then true
    else if column == "country" then p.country != ""
    else if column == "target_countries" then p.targetCountries != []
    else if column == "nationality_country" then HasText(p.nationality)
    else if column == "residence_country" then HasText(p.residence)
    else if column == "study_level" then p.studyLevel != ""
    else if column == "field_of_study" then HasText(p.fieldOfStudy)
    else if column == "gpa" then p.gpa.Some?
    else if column == "gpa_scale" then p.gpaScale.Some?
    else if column == "date_of_birth" then p.dateOfBirth.Some?
    else if column == "institution_name" then HasText(p.institution)
    else if column == "experience_months" then p.experienceMonths.Some?
    else false
  }

  function KnownColumns(p: Profile, columns: set<string>): set<string> {
    set c | c in columns && ColumnKnown(p, c)
  }

  function Confidence(p: Profile, offer: Offer): (r: real)
    ensures 0.0 <= r <= 1.0
  {
    var expected := Expected(offer);
    Share(KnownColumns(p, expected), expected)
  }

  /******* Rounding *******/

  /** To the nearest whole number, ties to the even one. */
  function RoundHalfEven(x: real): int {
    var f := x.Floor;
    var rest := x - f as real;
    if rest < 0.5 then f else if rest > 0.5 then f + 1 else if f % 2 == 0 then f else f + 1
  }

  function Round5(x: real): real { RoundHalfEven(x * 100000.0) as real / 100000.0 }

  /******* A match *******/

  datatype Component = Component(score: real, weight: real, weighted: real)

  function Weigh(score: real, weight: real): real { score * weight }

  function ComponentOf(score: real, weight: real): Component {
    Component(Round5(score), weight, Round5(Weigh(score, weight)))
  }

  /** Academic, eligibility, interests, experience and readiness, in this order. */
  function Fits(p: Profile, offer: Offer, documents: seq<Document>, today: Date, results: seq<Result>): (r: seq<real>)
    ensures |r| == 5
  {
    [AcademicFit(p, offer, results), EligibilityFit(results), InterestsFit(p, offer), ExperienceFit(results),
     ReadinessFit(offer, documents, today)]
  }

  function WeightList(w: Weights): (r: seq<real>)
    ensures |r| == 5
  {
    [w.academic, w.eligibility, w.interests, w.experience, w.readiness]
  }

  function Components(fits: seq<real>, w: Weights): (r: seq<Component>)
    requires |fits| == 5
    ensures |r| == 5
  {
    seq(5, i requires 0 <= i < 5 => ComponentOf(fits[i], WeightList(w)[i]))
  }

  /** Rounded scores by their weights. */
  function ExactSum(c: seq<Component>): real
    requires |c| == 5
  {
    Weigh(c[0].score, c[0].weight) + Weigh(c[1].score, c[1].weight) + Weigh(c[2].score, c[2].weight)
    + Weigh(c[3].score, c[3].weight) + Weigh(c[4].score, c[4].weight)
  }

  function TotalScore(c: seq<Component>): real
    requires |c| == 5
  {
    Round5(ExactSum(c))
  }

  datatype Match = Match(
    outcome: Verdict,
    results: seq<Result>,
    reasons: seq<string>,
    missing: set<string>,
    components: seq<Component>,
    total: real,
    confidence: real)

  function MatchFrom(results: seq<Result>, fits: seq<real>, confidence: real, w: Weights): (m: Match)
    requires |fits| == 5
    ensures |m.components| == 5
  {
    var components := Components(fits, w);
    Match(Overall(results), Arranged(results), Reasons(results), Missing(results), components,
          TotalScore(components), Round5(confidence))
  }

  /** `None` is the error for a requirement the rule schema refuses. */
  function CalculateMatch(p: Profile, offer: Offer, documents: seq<Document>, w: Weights, today: Date): Option<Match>
    requires Typed(p)
  {
    if !AllValid(offer.requirements) then None
    else
      var results := Results(offer, p, ReadyKinds(documents), today);
      Some(MatchFrom(results, Fits(p, offer, documents, today, results), Confidence(p, offer), w))
  }

  /******* The loops *******/

  /** The loop over a scholarship's fields of study. */
  method BestField(fields: seq<string>, mine: set<string>) returns (best: real)
    requires fields != []
    ensures best == BestSimilarity(fields, mine)
    ensures forall i | 0 <= i < |fields| :: FieldSimilarity(fields[i], mine) <= best
    ensures exists i | 0 <= i < |fields| :: FieldSimilarity(fields[i], mine) == best
  {
    hide FieldSimilarity;
    best := FieldSimilarity(fields[0], mine);
    for k := 1 to |fields|
      invariant best == BestSimilarity(fields[..k], mine)
      invariant forall i | 0 <= i < k :: FieldSimilarity(fields[i], mine) <= best
      invariant exists i | 0 <= i < k :: FieldSimilarity(fields[i], mine) == best
    {
      assert fields[..k + 1][..k] == fields[..k];
      var next := FieldSimilarity(fields[k], mine);
      if best < next { best := next; }
    }
    assert fields[..|fields|] == fields;
  }

  /** The columns a confident match would want, collected rule by rule. */
  method CollectExpected(offer: Offer) returns (expected: set<string>)
    ensures expected == Expected(offer)
  {
    expected := {"study_level"};
    if offer.fieldsOfStudy != [] { expected := expected + {"field_of_study"}; }
    if offer.title != "" || offer.description != "" || offer.fieldsOfStudy != [] || offer.eligibilitySummary != "" {
      expected := expected + {"interests_or_goals"};
    }
    assert expected == OfferColumns(offer);
    hide OfferColumns;
    for k := 0 to |offer.requirements|
      invariant expected == OfferColumns(offer) + RuleColumns(offer.requirements[..k])
    {
      var f := offer.requirements[k].field;
      assert offer.requirements[..k + 1][..k] == offer.requirements[..k];
      if f == Gpa {
        expected := expected + {"gpa", "gpa_scale"};
      } else if f != DeadlineField {
        expected := expected + {ProfileField(f)};
      }
    }
    assert offer.requirements[..|offer.requirements|] == offer.requirements;
  }

  method CountKnown(p: Profile, columns: set<string>) returns (known: nat)
    ensures known == |KnownColumns(p, columns)|
  {
    known := 0;
    var left := columns;
    while left != {}
      invariant left <= columns
      invariant known == |KnownColumns(p, columns - left)|
      decreases |left|
    {
      var c :| c in left;
      var seen, more := columns - left, columns - (left - {c});
      assert more == seen + {c};
      assert KnownColumns(p, more) == KnownColumns(p, seen) + if ColumnKnown(p, c) then {c} else {};
      left := left - {c};
      if ColumnKnown(p, c) { known := known + 1; }
    }
    assert columns - left == columns;
  }

  method ComputeConfidence(p: Profile, offer: Offer) returns (confidence: real)
    ensures confidence == Confidence(p, offer)
  {
    var expected := CollectExpected(offer);
    var known := CountKnown(p, expected);
    confidence := (known as real) / (|expected| as real);
  }
}
