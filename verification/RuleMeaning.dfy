/** What passing a rule means, on the profile's own fields and the rule's own target. */
module RuleMeaning {
  import opened Prelude
  import opened Rules
  import opened MatchingText
  import opened MatchingEngine
  import opened MatchingTheorems

  function VerdictOf(r: Requirement, p: Profile, ready: seq<string>, today: Date): Verdict
    requires Typed(p) && ValidRule(r)
  {
    EvaluateRule(r, p, ready, today).verdict
  }

  /******* Numbers and dates *******/

  /** The number a rule's value stands for; `true` and `false` stand for one and zero. */
  predicate StandsFor(v: RuleValue, n: int) {
    v == Whole(n) || (v == Truth(true) && n == 1) || (v == Truth(false) && n == 0)
  }

  predicate NotAfter(a: Date, b: Date) { a == b || a.Before(b) }

  /** The `n`-th birthday has come. */
  predicate Turned(born: Date, n: int, today: Date) {
    NotAfter(Date(born.year + n, born.month, born.day), today)
  }

  lemma AgeIsBirthdays(born: Date, today: Date, n: int)
    ensures AgeOn(born, today) >= n <==> Turned(born, n, today)
  {
  }

  predicate IsMeasured(f: RuleField) { f in {Gpa, Age, DateOfBirth, Experience, ExperienceMonths} }

  /** The profile holds the number or the date that a rule on this field looks at. */
  predicate HasValue(p: Profile, f: RuleField) {
    match f
    case Gpa => p.gpa.Some? && p.gpaScale.Some?
    case Age => p.dateOfBirth.Some?
    case DateOfBirth => p.dateOfBirth.Some?
    case Experience => p.experienceMonths.Some?
    case ExperienceMonths => p.experienceMonths.Some?
    case _ => false
  }

  /** The profile's value is the rule's target or above it; grades on different scales compare by their share. */
  ghost predicate Reaches(p: Profile, r: Requirement, today: Date)
    requires HasValue(p, r.field)
  {
    match r.field
    case Gpa => r.value.GpaTarget? && p.gpa.value * r.value.scale >= r.value.score * p.gpaScale.value
    case Age => exists n :: StandsFor(r.value, n) && Turned(p.dateOfBirth.value, n, today)
    case DateOfBirth => r.value.OnDate? && NotAfter(r.value.date, p.dateOfBirth.value)
    case Experience => exists n :: StandsFor(r.value, n) && p.experienceMonths.value >= n
    case ExperienceMonths => exists n :: StandsFor(r.value, n) && p.experienceMonths.value >= n
    case _ => false
  }

  /** The profile's value is the rule's target or below it. */
  ghost predicate StaysWithin(p: Profile, r: Requirement, today: Date)
    requires HasValue(p, r.field)
  {
    match r.field
    case Gpa => r.value.GpaTarget? && p.gpa.value * r.value.scale <= r.value.score * p.gpaScale.value
    case Age => exists n :: StandsFor(r.value, n) && !Turned(p.dateOfBirth.value, n + 1, today)
    case DateOfBirth => r.value.OnDate? && NotAfter(p.dateOfBirth.value, r.value.date)
    case Experience => exists n :: StandsFor(r.value, n) && p.experienceMonths.value <= n
    case ExperienceMonths => exists n :: StandsFor(r.value, n) && p.experienceMonths.value <= n
    case _ => false
  }

  lemma SharesCompare(a: real, b: real, c: real, d: real)
    requires b > 0.0 && d > 0.0
    ensures a / b >= c / d <==> a * d >= c * b
    ensures a / b <= c / d <==> a * d <= c * b
  {
    var x, y := a / b, c / d;
    assert a == x * b && c == y * d;
    assert a * d == x * (b * d) && c * b == y * (b * d);
    assert b * d > 0.0;
    Scaled(x, y, b * d);
    Scaled(y, x, b * d);
  }

  lemma Scaled(x: real, y: real, n: real)
    requires n > 0.0
    ensures x >= y <==> x * n >= y * n
  {
    assert (x - y) * n == x * n - y * n;
    if x >= y { assert (x - y) * n >= 0.0; } else { assert (x - y) * n < 0.0; }
  }

  lemma StandsForOne(v: RuleValue, n: int, m: int)
    requires StandsFor(v, n) && StandsFor(v, m)
    ensures n == m && AsNumber(v) == Some(n)
  {
  }

  lemma NumberStands(v: RuleValue)
    ensures AsNumber(v).Some? ==> StandsFor(v, AsNumber(v).value)
    ensures AsNumber(v).None? ==> forall n :: !StandsFor(v, n)
  {
  }

  /** A rule on a number or a date, met from its target up or down. */
  lemma MeasuredRuleMet(r: Requirement, p: Profile, ready: seq<string>, today: Date)
    requires Typed(p) && ValidRule(r) && IsMeasured(r.field) && HasValue(p, r.field)
    ensures r.operator == Gte ==> (VerdictOf(r, p, ready, today) == Eligible <==> Reaches(p, r, today))
    ensures r.operator == Lte ==> (VerdictOf(r, p, ready, today) == Eligible <==> StaysWithin(p, r, today))
    ensures r.operator == Equals ==>
              (VerdictOf(r, p, ready, today) == Eligible <==> Reaches(p, r, today) && StaysWithin(p, r, today))
    ensures r.operator == Exists ==> VerdictOf(r, p, ready, today) == Eligible
    ensures VerdictOf(r, p, ready, today) != Unknown
  {
    if r.operator in {Gte, Lte, Equals} {
      match r.field
      case Gpa => SharesCompare(p.gpa.value, p.gpaScale.value, r.value.score, r.value.scale);
      case DateOfBirth =>
      case Age =>
        NumberStands(r.value);
        if AsNumber(r.value).Some? {
          var n := AsNumber(r.value).value;
          AgeIsBirthdays(p.dateOfBirth.value, today, n);
          AgeIsBirthdays(p.dateOfBirth.value, today, n + 1);
        }
        hide AgeOn;
      case _ => NumberStands(r.value);
    }
  }

  /** The number is the target of a rule that asks for one of several. */
  predicate Lists(v: RuleValue, n: int) { (v.Wholes? && n in v.ns) || StandsFor(v, n) }

  /** The number a rule on ages or months of experience looks at. */
  predicate HasNumber(p: Profile, f: RuleField, today: Date, n: int)
    requires HasValue(p, f)
  {
    match f
    case Age => Turned(p.dateOfBirth.value, n, today) && !Turned(p.dateOfBirth.value, n + 1, today)
    case Experience => p.experienceMonths.value == n
    case ExperienceMonths => p.experienceMonths.value == n
    case _ => false
  }

  lemma OneOfSeveralMet(r: Requirement, p: Profile, ready: seq<string>, today: Date)
    requires Typed(p) && ValidRule(r) && r.field in {Age, Experience, ExperienceMonths} && r.operator == In
    requires HasValue(p, r.field)
    ensures VerdictOf(r, p, ready, today) == Eligible <==>
            exists n :: Lists(r.value, n) && HasNumber(p, r.field, today, n)
  {
    if r.field == Age {
      var age := AgeOn(p.dateOfBirth.value, today);
      forall n ensures HasNumber(p, Age, today, n) <==> n == age {
        AgeIsBirthdays(p.dateOfBirth.value, today, n);
        AgeIsBirthdays(p.dateOfBirth.value, today, n + 1);
      }
      hide AgeOn;
      hide Turned;
      assert HasNumber(p, Age, today, age);
      assert VerdictOf(r, p, ready, today) == Eligible <==> Lists(r.value, age);
    } else {
      var months := p.experienceMonths.value;
      assert HasNumber(p, r.field, today, months);
      assert VerdictOf(r, p, ready, today) == Eligible <==> Lists(r.value, months);
    }
  }

  /** The second profile's value is not below the first's. */
  predicate NotBelow(p: Profile, q: Profile, f: RuleField)
    requires HasValue(p, f) && HasValue(q, f)
  {
    match f
    case Gpa => q.gpa.value * p.gpaScale.value >= p.gpa.value * q.gpaScale.value
    case Age => NotAfter(q.dateOfBirth.value, p.dateOfBirth.value)
    case DateOfBirth => NotAfter(p.dateOfBirth.value, q.dateOfBirth.value)
    case Experience => q.experienceMonths.value >= p.experienceMonths.value
    case ExperienceMonths => q.experienceMonths.value >= p.experienceMonths.value
    case _ => false
  }

  lemma OlderTurnedToo(a: Date, b: Date, n: int, today: Date)
    requires NotAfter(a, b) && Turned(b, n, today)
    ensures Turned(a, n, today)
  {
  }

  lemma SharesChain(a: real, b: real, c: real, d: real, e: real, f: real)
    requires b > 0.0 && d > 0.0 && f > 0.0
    requires a * d >= c * b && c * f >= e * d
    ensures a * f >= e * b
  {
    SharesCompare(a, b, c, d);
    SharesCompare(c, d, e, f);
    SharesCompare(a, b, e, f);
  }

  lemma RisingReaches(r: Requirement, p: Profile, q: Profile, today: Date)
    requires Typed(p) && Typed(q) && ValidRule(r) && r.operator != Exists && HasValue(p, r.field) && HasValue(q, r.field)
    requires NotBelow(p, q, r.field)
    ensures Reaches(p, r, today) ==> Reaches(q, r, today)
    ensures StaysWithin(q, r, today) ==> StaysWithin(p, r, today)
  {
    match r.field
    case Gpa =>
      var s, t := r.value.score, r.value.scale;
      if Reaches(p, r, today) {
        SharesChain(q.gpa.value, q.gpaScale.value, p.gpa.value, p.gpaScale.value, s, t);
      }
      if StaysWithin(q, r, today) {
        SharesChain(s, t, q.gpa.value, q.gpaScale.value, p.gpa.value, p.gpaScale.value);
      }
    case Age =>
      var a, b := q.dateOfBirth.value, p.dateOfBirth.value;
      if n :| StandsFor(r.value, n) && Turned(b, n, today) { OlderTurnedToo(a, b, n, today); }
      if n :| StandsFor(r.value, n) && !Turned(a, n + 1, today) {
        if Turned(b, n + 1, today) { OlderTurnedToo(a, b, n + 1, today); }
      }
    case _ =>
  }

  /**
    A profile whose value has not fallen still meets every lower bound that it met, and one whose
    value has not risen every upper bound.
   */
  lemma BoundsAreMonotone(r: Requirement, p: Profile, q: Profile, ready: seq<string>, today: Date)
    requires Typed(p) && Typed(q) && ValidRule(r) && IsMeasured(r.field) && HasValue(p, r.field) && HasValue(q, r.field)
    requires NotBelow(p, q, r.field)
    ensures r.operator == Gte && VerdictOf(r, p, ready, today) == Eligible ==> VerdictOf(r, q, ready, today) == Eligible
    ensures r.operator == Lte && VerdictOf(r, q, ready, today) == Eligible ==> VerdictOf(r, p, ready, today) == Eligible
  {
    hide Reaches, StaysWithin, VerdictOf, NotBelow, ValidRule;
    if r.operator in {Gte, Lte} { RisingReaches(r, p, q, today); }
    MeasuredRuleMet(r, p, ready, today);
    MeasuredRuleMet(r, q, ready, today);
  }

  function Asking(r: Requirement, op: Operator): Requirement { r.(operator := op) }

  lemma OneSideHolds(r: Requirement, p: Profile, today: Date)
    requires Typed(p) && ValidRule(r) && IsMeasured(r.field) && HasValue(p, r.field) && r.operator in {Gte, Lte, Equals}
    requires !r.value.Wholes?
    ensures Reaches(p, r, today) || StaysWithin(p, r, today)
  {
    match r.field
    case Age =>
      NumberStands(r.value);
      var n := AsNumber(r.value).value;
      AgeIsBirthdays(p.dateOfBirth.value, today, n);
      AgeIsBirthdays(p.dateOfBirth.value, today, n + 1);
      hide Turned;
    case DateOfBirth =>
    case Gpa =>
    case _ =>
      NumberStands(r.value);
  }

  /**
    A lower and an upper bound with one target: one of them is met by every profile that has a value,
    and both are exactly where the value is asked to equal the target. A list meets neither.
   */
  lemma BoundsMeetAtTarget(r: Requirement, p: Profile, ready: seq<string>, today: Date)
    requires Typed(p) && ValidRule(r) && IsMeasured(r.field) && HasValue(p, r.field) && r.operator in {Gte, Lte, Equals}
    ensures var low, high, same := VerdictOf(Asking(r, Gte), p, ready, today), VerdictOf(Asking(r, Lte), p, ready, today),
                                   VerdictOf(Asking(r, Equals), p, ready, today);
            && (low == Eligible || high == Eligible <==> !r.value.Wholes?)
            && (low == Eligible && high == Eligible <==> same == Eligible)
  {
    hide VerdictOf;
    MeasuredRuleMet(Asking(r, Gte), p, ready, today);
    MeasuredRuleMet(Asking(r, Lte), p, ready, today);
    MeasuredRuleMet(Asking(r, Equals), p, ready, today);
    SameTarget(r, Asking(r, Gte), p, today);
    SameTarget(r, Asking(r, Lte), p, today);
    SameTarget(r, Asking(r, Equals), p, today);
    if !r.value.Wholes? { OneSideHolds(r, p, today); }
    assert r.value.Wholes? ==> !Reaches(p, r, today) && !StaysWithin(p, r, today);
  }

  lemma SameTarget(r: Requirement, s: Requirement, p: Profile, today: Date)
    requires HasValue(p, r.field) && s.field == r.field && s.value == r.value
    ensures Reaches(p, r, today) <==> Reaches(p, s, today)
    ensures StaysWithin(p, r, today) <==> StaysWithin(p, s, today)
  {
    hide Turned;
  }

  /******* Texts *******/

  /** What a profile says on a text field. */
  predicate Says(p: Profile, ready: seq<string>, f: RuleField, t: string) {
    match f
    case Country => t == p.country && t != ""
    case Destination => t in p.targetCountries
    case Nationality => p.nationality == Some(t) && t != ""
    case Residency => p.residence == Some(t) && t != ""
    case StudyLevel => t == p.studyLevel && t != ""
    case FieldOfStudy => p.fieldOfStudy == Some(t) && t != ""
    case Institution => p.institution == Some(t) && t != ""
    case Document => t in ready
    case _ => false
  }

  predicate AsksFor(v: RuleValue, t: string) { v == Phrase(t) || (v.Phrases? && t in v.texts) }

  predicate SameText(s: string, t: string) { NormalizedText(s) == NormalizedText(t) }

  /** The second text, folded, holds the first somewhere. */
  ghost predicate IsPartOf(t: string, s: string) {
    exists a: string, b: string :: NormalizedText(s) == (a + NormalizedText(t)) + b
  }

  lemma TextsAreSaid(p: Profile, ready: seq<string>, f: RuleField, t: string)
    ensures t in Texts(p, ready, f) <==> Says(p, ready, f, t)
  {
  }

  lemma TargetsAreAskedFor(v: RuleValue, t: string)
    ensures t in Targets(v) <==> AsksFor(v, t)
  {
  }

  lemma InNormalizedSet(items: seq<string>, n: string)
    ensures n in NormalizedSet(items) <==> exists t :: t in items && NormalizedText(t) == n
  {
    hide NormalizedText;
    if t :| t in items && NormalizedText(t) == n {
      var i :| 0 <= i < |items| && items[i] == t;
    }
  }

  lemma WithinIsPart(t: string, s: string)
    ensures Within(NormalizedText(t), NormalizedText(s)) <==> IsPartOf(t, s)
  {
    var part, whole := NormalizedText(t), NormalizedText(s);
    hide NormalizedText;
    if i :| 0 <= i <= |whole| && StandsAt(part, whole, i) {
      assert whole == (whole[..i] + part) + whole[i + |part|..];
    }
    if a, b :| whole == (a + part) + b {
      assert whole[|a|..|a| + |part|] == part;
      assert StandsAt(part, whole, |a|);
    }
  }

  /** Some text of the profile is some text of the rule. */
  ghost predicate Agrees(p: Profile, ready: seq<string>, r: Requirement) {
    exists s, t :: Says(p, ready, r.field, s) && AsksFor(r.value, t) && SameText(s, t)
  }

  ghost predicate Mentions(p: Profile, ready: seq<string>, r: Requirement) {
    exists s, t :: Says(p, ready, r.field, s) && AsksFor(r.value, t) && IsPartOf(t, s)
  }

  lemma MeetingIsAgreeing(p: Profile, ready: seq<string>, r: Requirement)
    ensures NormalizedSet(Texts(p, ready, r.field)) * NormalizedSet(Targets(r.value)) != {} <==> Agrees(p, ready, r)
  {
    var vs, ts := Texts(p, ready, r.field), Targets(r.value);
    hide NormalizedSet, NormalizedText, Says, AsksFor, Texts, Targets;
    if NormalizedSet(vs) * NormalizedSet(ts) != {} {
      var n :| n in NormalizedSet(vs) * NormalizedSet(ts);
      InNormalizedSet(vs, n);
      InNormalizedSet(ts, n);
      var s :| s in vs && NormalizedText(s) == n;
      var t :| t in ts && NormalizedText(t) == n;
      TextsAreSaid(p, ready, r.field, s);
      TargetsAreAskedFor(r.value, t);
    }
    if s, t :| Says(p, ready, r.field, s) && AsksFor(r.value, t) && SameText(s, t) {
      TextsAreSaid(p, ready, r.field, s);
      TargetsAreAskedFor(r.value, t);
      InNormalizedSet(vs, NormalizedText(s));
      InNormalizedSet(ts, NormalizedText(t));
      assert NormalizedText(s) in NormalizedSet(vs) * NormalizedSet(ts);
    }
  }

  lemma HoldingIsMentioning(p: Profile, ready: seq<string>, r: Requirement)
    ensures (exists v, t | v in NormalizedSet(Texts(p, ready, r.field)) && t in NormalizedSet(Targets(r.value)) :: Within(t, v))
            <==> Mentions(p, ready, r)
  {
    var vs, ts := Texts(p, ready, r.field), Targets(r.value);
    hide NormalizedSet, NormalizedText, Says, AsksFor, Texts, Targets, Within, IsPartOf;
    if m, n :| m in NormalizedSet(vs) && n in NormalizedSet(ts) && Within(n, m) {
      InNormalizedSet(vs, m);
      InNormalizedSet(ts, n);
      var s :| s in vs && NormalizedText(s) == m;
      var t :| t in ts && NormalizedText(t) == n;
      TextsAreSaid(p, ready, r.field, s);
      TargetsAreAskedFor(r.value, t);
      WithinIsPart(t, s);
    }
    if s, t :| Says(p, ready, r.field, s) && AsksFor(r.value, t) && IsPartOf(t, s) {
      TextsAreSaid(p, ready, r.field, s);
      TargetsAreAskedFor(r.value, t);
      WithinIsPart(t, s);
      InNormalizedSet(vs, NormalizedText(s));
      InNormalizedSet(ts, NormalizedText(t));
    }
  }

  lemma SaysSomethingExactly(p: Profile, ready: seq<string>, f: RuleField)
    requires IsTextField(f)
    ensures Known(p, ready, f) <==> exists s :: Says(p, ready, f, s)
  {
    assert Known(p, ready, f) <==> Texts(p, ready, f) != [];
    forall s ensures s in Texts(p, ready, f) <==> Says(p, ready, f, s) { TextsAreSaid(p, ready, f, s); }
    hide Texts, Says;
    if Texts(p, ready, f) != [] { assert Texts(p, ready, f)[0] in Texts(p, ready, f); }
  }

  /**
    A rule on a text is undecided exactly when the profile says nothing on its field. Otherwise
    `equals` and `in` are met when some text of the profile is one of the targets, `not_equals` and
    `not_in` when none is, and `contains` when some text of the profile holds a target.
   */
  lemma TextRuleMet(r: Requirement, p: Profile, ready: seq<string>, today: Date)
    requires Typed(p) && ValidRule(r) && IsTextField(r.field)
    ensures var v := VerdictOf(r, p, ready, today);
            && (v == Unknown <==> forall s :: !Says(p, ready, r.field, s))
            && (v != Unknown ==>
                  match r.operator
                  case Equals => v == Eligible <==> Agrees(p, ready, r)
                  case In => v == Eligible <==> Agrees(p, ready, r)
                  case NotEquals => v == Eligible <==> !Agrees(p, ready, r)
                  case NotIn => v == Eligible <==> !Agrees(p, ready, r)
                  case Contains => v == Eligible <==> Mentions(p, ready, r)
                  case _ => v == Eligible)
  {
    SaysSomethingExactly(p, ready, r.field);
    MeetingIsAgreeing(p, ready, r);
    HoldingIsMentioning(p, ready, r);
    hide NormalizedSet, Says, AsksFor, Texts, Targets, Within, Agrees, Mentions;
  }

  /******* Which rules are rules *******/

  /** A text with a word in it. */
  predicate HasWord(t: string) { Words(t, "") != [] }

  lemma {:induction false} WordsOfBlank(s: string, word: string)
    ensures Words(s, word) == [] <==> word == "" && Blank(s)
  {
    if s != "" {
      WordsOfBlank(s[1..], if IsSpace(s[0]) then "" else word + [Fold(s[0])]);
      assert Blank(s) <==> IsSpace(s[0]) && Blank(s[1..]) by {
        assert forall c :: c in s <==> c == s[0] || c in s[1..];
        hide IsSpace;
      }
    }
  }

  predicate IsWhole(n: int) { n >= 0 }

  /** A target that a rule on this field can have. */
  ghost predicate HasTarget(r: Requirement) {
    match r.field
    case Gpa =>
      r.value.GpaTarget? && r.value.score >= 0.0 && r.value.scale > 0.0 && r.value.scale <= 100.0 && r.value.score <= r.value.scale
    case DateOfBirth => exists d :: r.value == OnDate(d)
    case Age => (exists n :: Lists(r.value, n)) && forall n :: Lists(r.value, n) ==> IsWhole(n)
    case Experience => (exists n :: Lists(r.value, n)) && forall n :: Lists(r.value, n) ==> IsWhole(n)
    case ExperienceMonths => (exists n :: Lists(r.value, n)) && forall n :: Lists(r.value, n) ==> IsWhole(n)
    case DeadlineField => false
    case OtherField => false
    case _ => (exists t :: AsksFor(r.value, t)) && forall t :: AsksFor(r.value, t) ==> HasWord(t)
  }

  /** The operators that compare with such a target. */
  predicate Compares(f: RuleField, op: Operator) {
    match op
    case Equals => true
    case Gte => IsMeasured(f)
    case Lte => IsMeasured(f)
    case In => f != Gpa && f != DateOfBirth
    case NotEquals => !IsMeasured(f)
    case NotIn => !IsMeasured(f)
    case Contains => !IsMeasured(f)
    case Exists => false
  }

  lemma TextTargets(v: RuleValue)
    ensures (match v
             case Phrase(t) => !Blank(t)
             case Phrases(ts) => ts != [] && forall t | t in ts :: !Blank(t)
             case _ => false)
            <==> (exists t :: AsksFor(v, t)) && forall t :: AsksFor(v, t) ==> HasWord(t)
  {
    forall t: string ensures HasWord(t) <==> !Blank(t) { WordsOfBlank(t, ""); }
    hide HasWord, Blank;
    if v.Phrase? { assert AsksFor(v, v.text); }
    if v.Phrases? && v.texts != [] { assert AsksFor(v, v.texts[0]); }
  }

  lemma NumberTargets(r: Requirement)
    requires r.operator in {Equals, Gte, Lte, In}
    ensures ValidNumbers(r) <==> (exists n :: Lists(r.value, n)) && forall n :: Lists(r.value, n) ==> IsWhole(n)
  {
    var v := r.value;
    if v.Whole? { assert Lists(v, v.n); }
    if v.Truth? { assert Lists(v, if v.b then 1 else 0); }
    if v.Wholes? {
      assert forall n :: Lists(v, n) <==> n in v.ns;
      if v.ns != [] { assert Lists(v, v.ns[0]); }
    }
  }

  /**
    A match can be calculated exactly when every rule either asks whether a field is there, with the
    value true, or compares its field with a target it can have.
   */
  lemma CalculatedExactly(p: Profile, offer: Offer, documents: seq<Document>, w: Weights, today: Date)
    requires Typed(p)
    ensures CalculateMatch(p, offer, documents, w, today).Some? <==>
            forall i | 0 <= i < |offer.requirements| ::
              var r := offer.requirements[i];
              if r.operator == Exists then r.value == Truth(true) else Compares(r.field, r.operator) && HasTarget(r)
  {
    forall i | 0 <= i < |offer.requirements|
      ensures var r := offer.requirements[i];
              ValidRule(r) <==>
              if r.operator == Exists then r.value == Truth(true) else Compares(r.field, r.operator) && HasTarget(r)
    {
      RuleAcceptedExactly(offer.requirements[i]);
    }
    hide ValidRule, Compares, HasTarget, Results, MatchFrom, Fits, Confidence, ReadyKinds;
  }

  lemma RuleAcceptedExactly(r: Requirement)
    ensures ValidRule(r) <==>
            if r.operator == Exists then r.value == Truth(true) else Compares(r.field, r.operator) && HasTarget(r)
  {
    TextTargets(r.value);
    if r.operator in {Equals, Gte, Lte, In} { NumberTargets(r); }
    hide Blank, HasWord, Lists, AsksFor, IsWhole;
    if r.value.OnDate? { assert r.value == OnDate(r.value.date); }
  }

  /******* What a match tells of its rules *******/

  lemma {:induction false} StrengthsSplit(results: seq<Result>)
    ensures multiset(OfStrength(results, Hard)) + multiset(OfStrength(results, Soft)) == multiset(results)
  {
    if results != [] {
      var first, rest := results[0], results[1..];
      StrengthsSplit(rest);
      assert results == [first] + rest;
      assert OfStrength(results, Hard) == (if first.strength == Hard then [first] else []) + OfStrength(rest, Hard);
      assert OfStrength(results, Soft) == (if first.strength == Soft then [first] else []) + OfStrength(rest, Soft);
      hide OfStrength;
      assert multiset(results) == multiset{first} + multiset(rest);
    }
  }

  lemma OfOneStrength(results: seq<Result>, s: Strength)
    ensures forall i | 0 <= i < |OfStrength(results, s)| :: OfStrength(results, s)[i].strength == s
  {
    forall i | 0 <= i < |OfStrength(results, s)| ensures OfStrength(results, s)[i].strength == s {
      StrengthMembers(results, s, OfStrength(results, s)[i]);
    }
  }

  lemma {:induction false} MissingIsTold(results: seq<Result>, c: string)
    ensures c in Missing(results) <==> exists r | r in results :: c in r.missing
  {
    if results != [] {
      MissingIsTold(results[1..], c);
      assert forall r :: r in results <==> r == results[0] || r in results[1..];
    }
  }

  lemma {:induction false} ReasonsAreTold(results: seq<Result>, reason: string)
    ensures reason in Reasons(results) <==> exists r | r in results :: r.verdict != Eligible && r.reason == reason
  {
    if results != [] {
      ReasonsAreTold(results[1..], reason);
      assert forall r :: r in results <==> r == results[0] || r in results[1..];
    }
  }

  /** One result for the rule, under its field and strength, with a reason that names the verdict. */
  predicate Tells(result: Result, r: Requirement) {
    && result.field == r.field && result.strength == r.strength
    && result.reason == (match result.verdict
                         case Eligible => "RULE_CONFIRMED_PASS"
                         case Ineligible => "RULE_CONFIRMED_FAIL"
                         case Unknown => "PROFILE_EVIDENCE_MISSING")
  }

  /** Hard results first; the fields that are missing and the reasons are those of the results. */
  ghost predicate TellsOf(m: Match, results: seq<Result>) {
    && multiset(m.results) == multiset(results)
    && (forall i, j | 0 <= i < j < |m.results| :: m.results[j].strength == Hard ==> m.results[i].strength == Hard)
    && (forall c :: c in m.missing <==> exists r | r in results :: c in r.missing)
    && (forall reason :: reason in m.reasons <==> exists r | r in results :: r.verdict != Eligible && r.reason == reason)
  }

  lemma MatchTellsOf(results: seq<Result>, fits: seq<real>, confidence: real, w: Weights)
    requires |fits| == 5
    ensures TellsOf(MatchFrom(results, fits, confidence, w), results)
  {
    StrengthsSplit(results);
    OfOneStrength(results, Hard);
    OfOneStrength(results, Soft);
    forall c ensures c in Missing(results) <==> exists r | r in results :: c in r.missing { MissingIsTold(results, c); }
    forall reason
      ensures reason in Reasons(results) <==> exists r | r in results :: r.verdict != Eligible && r.reason == reason
    {
      ReasonsAreTold(results, reason);
    }
    hide Components, TotalScore, Overall, OfStrength, Missing, Reasons;
    var hard, soft := OfStrength(results, Hard), OfStrength(results, Soft);
    var all: seq<Result> := hard + soft;
    assert forall i | 0 <= i < |all| :: all[i].strength == if i < |hard| then Hard else Soft;
  }

  /** Of every rule there is one result, and one more exactly when the deadline has passed. */
  lemma MatchTells(p: Profile, offer: Offer, documents: seq<Document>, w: Weights, today: Date)
    requires Typed(p) && AllValid(offer.requirements)
    ensures var results := Results(offer, p, ReadyKinds(documents), today);
            && TellsOf(CalculateMatch(p, offer, documents, w, today).value, results)
            && (forall i | 0 <= i < |offer.requirements| :: i < |results| && Tells(results[i], offer.requirements[i]))
            && if offer.deadline.Some? && offer.deadline.value.Before(today)
               then |results| == |offer.requirements| + 1
                    && results[|offer.requirements|] == Result(DeadlineField, Hard, Ineligible, "SCHOLARSHIP_EXPIRED", {})
               else |results| == |offer.requirements|
  {
    var ready := ReadyKinds(documents);
    var results := Results(offer, p, ready, today);
    forall i | 0 <= i < |offer.requirements| ensures i < |results| && Tells(results[i], offer.requirements[i]) {
      TellsRule(offer.requirements[i], p, ready, today);
      assert results[i] == EvaluateRule(offer.requirements[i], p, ready, today);
    }
    hide Confidence, Fits, EvaluateRule, ReadyKinds, MatchFrom, TellsOf, Tells;
    MatchTellsOf(results, Fits(p, offer, documents, today, results), Confidence(p, offer), w);
  }

  lemma TellsRule(r: Requirement, p: Profile, ready: seq<string>, today: Date)
    requires Typed(p) && ValidRule(r)
    ensures Tells(EvaluateRule(r, p, ready, today), r)
  {
    hide Known, Passes, ValidRule;
  }
}
