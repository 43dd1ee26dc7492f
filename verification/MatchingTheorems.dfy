/** What the matching engine promises about verdicts and scores. */
module MatchingTheorems {
  import opened Prelude
  import opened Rules
  import opened MatchingText
  import opened MatchingEngine

  /******* The overall verdict *******/

  lemma {:induction false} StrengthMembers(results: seq<Result>, s: Strength, x: Result)
    ensures x in OfStrength(results, s) <==> x in results && x.strength == s
  {
    if results != [] { StrengthMembers(results[1..], s, x); }
  }

  lemma AnyOfMembers(results: seq<Result>, v: Verdict)
    ensures AnyVerdict(results, v) <==> exists x | x in results :: x.verdict == v
  {
    if x :| x in results && x.verdict == v {
      var i :| 0 <= i < |results| && results[i] == x;
    }
  }

  /** The overall verdict is the worst hard verdict, or eligible when there is none. */
  lemma OverallIsMinimum(results: seq<Result>)
    ensures forall x | x in results && x.strength == Hard :: Rank(Overall(results)) <= Rank(x.verdict)
    ensures Overall(results) == Eligible
            || exists x | x in results && x.strength == Hard :: x.verdict == Overall(results)
  {
    var hard := OfStrength(results, Hard);
    AnyOfMembers(hard, Ineligible);
    AnyOfMembers(hard, Unknown);
    forall x ensures x in hard <==> x in results && x.strength == Hard { StrengthMembers(results, Hard, x); }
    hide OfStrength;
  }

  /** Neither the order of the rules nor any soft rule bears on it. */
  lemma OverallIgnoresOrderAndSoftRules(a: seq<Result>, b: seq<Result>)
    requires forall x: Result | x.strength == Hard :: x in a <==> x in b
    ensures Overall(a) == Overall(b)
  {
    OverallIsMinimum(a);
    OverallIsMinimum(b);
  }

  /** Eligible means every hard rule is satisfied and the deadline has not passed. */
  lemma EligibleExactlyWhenHardRulesPass(offer: Offer, p: Profile, ready: seq<string>, today: Date)
    requires Typed(p) && AllValid(offer.requirements)
    ensures Overall(Results(offer, p, ready, today)) == Eligible <==>
            && !Expired(offer, today)
            && forall i | 0 <= i < |offer.requirements| ::
                 var r := offer.requirements[i];
                 r.strength == Hard ==> Known(p, ready, r.field) && Passes(r, p, ready, today)
  {
    var rules := RuleResults(offer.requirements, p, ready, today);
    var results := Results(offer, p, ready, today);
    OverallIsMinimum(results);
    hide Passes, Known;
    forall i | 0 <= i < |rules| ensures rules[i] in results { assert results[i] == rules[i]; }
    if Expired(offer, today) { assert results[|rules|].verdict == Ineligible && results[|rules|] in results; }
    if Overall(results) == Eligible {
      forall i | 0 <= i < |offer.requirements| && offer.requirements[i].strength == Hard
        ensures Known(p, ready, offer.requirements[i].field) && Passes(offer.requirements[i], p, ready, today)
      {
        assert rules[i] == EvaluateRule(offer.requirements[i], p, ready, today);
        assert Rank(Eligible) <= Rank(rules[i].verdict);
      }
    }
  }

  /******* Learning facts *******/

  predicate Keeps<T(==)>(a: Option<T>, b: Option<T>) { a.Some? ==> b == a }

  predicate KeepsText(a: Option<string>, b: Option<string>) { TextOf(a) != [] ==> b == a }

  /** The second profile says everything the first says, and perhaps more; the name may differ. */
  predicate Extends(p: Profile, q: Profile) {
    && (p.country != "" ==> q.country == p.country)
    && (p.studyLevel != "" ==> q.studyLevel == p.studyLevel)
    && KeepsText(p.fieldOfStudy, q.fieldOfStudy)
    && Keeps(p.gpa, q.gpa) && Keeps(p.gpaScale, q.gpaScale)
    && KeepsText(p.nationality, q.nationality) && KeepsText(p.residence, q.residence)
    && Keeps(p.dateOfBirth, q.dateOfBirth)
    && (p.targetCountries != [] ==> q.targetCountries == p.targetCountries)
    && KeepsText(p.institution, q.institution)
    && Keeps(p.experienceMonths, q.experienceMonths)
  }

  lemma KnownStaysKnown(p: Profile, q: Profile, ready: seq<string>, f: RuleField)
    requires Extends(p, q) && Known(p, ready, f)
    ensures Known(q, ready, f) && Texts(q, ready, f) == Texts(p, ready, f)
  {
  }

  lemma DecidedRuleStands(r: Requirement, p: Profile, q: Profile, ready: seq<string>, today: Date)
    requires Typed(p) && Typed(q) && ValidRule(r) && Extends(p, q)
    requires EvaluateRule(r, p, ready, today).verdict != Unknown
    ensures EvaluateRule(r, q, ready, today) == EvaluateRule(r, p, ready, today)
  {
    KnownStaysKnown(p, q, ready, r.field);
    hide NumericCompare, DateCompare, GpaCompare, TextCompare, Texts, ValidRule;
    assert Passes(r, q, ready, today) == Passes(r, p, ready, today) by { PassesAlike(r, p, q, ready, today); }
  }

  lemma PassesAlike(r: Requirement, p: Profile, q: Profile, ready: seq<string>, today: Date)
    requires Typed(p) && Typed(q) && ValidRule(r) && Extends(p, q) && Known(p, ready, r.field)
    ensures Known(q, ready, r.field) && Passes(r, q, ready, today) == Passes(r, p, ready, today)
  {
    KnownStaysKnown(p, q, ready, r.field);
    hide NumericCompare, DateCompare, GpaCompare, TextCompare, Texts;
  }

  lemma ResultHasStrength(r: Requirement, p: Profile, ready: seq<string>, today: Date)
    requires Typed(p) && ValidRule(r)
    ensures EvaluateRule(r, p, ready, today).strength == r.strength
  {
    hide Known, Passes, Typed, ValidRule;
  }

  /** Learning facts never reverses a verdict: neither a rule's nor the overall one. */
  lemma LearningNeverReversesVerdict(offer: Offer, p: Profile, q: Profile, ready: seq<string>, today: Date)
    requires Typed(p) && Typed(q) && AllValid(offer.requirements) && Extends(p, q)
    ensures var before, after := Results(offer, p, ready, today), Results(offer, q, ready, today);
            && |before| == |after|
            && (forall i | 0 <= i < |before| :: before[i].verdict != Unknown ==> after[i] == before[i])
            && (Overall(before) != Unknown ==> Overall(after) == Overall(before))
  {
    hide Known, Passes, Typed, Extends, ValidRule, EvaluateRule, Overall;
    var rules := offer.requirements;
    var before, after := Results(offer, p, ready, today), Results(offer, q, ready, today);
    forall i | 0 <= i < |before|
      ensures before[i].verdict != Unknown ==> after[i] == before[i]
      ensures before[i].strength == after[i].strength
    {
      if i < |rules| {
        assert before[i] == EvaluateRule(rules[i], p, ready, today);
        assert after[i] == EvaluateRule(rules[i], q, ready, today);
        ResultHasStrength(rules[i], p, ready, today);
        ResultHasStrength(rules[i], q, ready, today);
        if before[i].verdict != Unknown { DecidedRuleStands(rules[i], p, q, ready, today); }
      }
    }
    hide Results, EvaluateRule;
    OverallStands(before, after);
  }

  lemma OverallStands(before: seq<Result>, after: seq<Result>)
    requires |before| == |after|
    requires forall i | 0 <= i < |before| ::
               before[i].strength == after[i].strength && (before[i].verdict != Unknown ==> after[i] == before[i])
    ensures Overall(before) != Unknown ==> Overall(after) == Overall(before)
  {
    OverallIsMinimum(before);
    OverallIsMinimum(after);
    hide Overall;
    if Overall(before) == Ineligible {
      var x :| x in before && x.strength == Hard && x.verdict == Ineligible;
      var i :| 0 <= i < |before| && before[i] == x;
      assert after[i] in after;
    } else if Overall(before) == Eligible {
      forall y | y in after && y.strength == Hard ensures y.verdict == Eligible {
        var i :| 0 <= i < |after| && after[i] == y;
        assert before[i] in before;
        assert Rank(Eligible) <= Rank(before[i].verdict);
      }
    }
  }

  /******* Fields that are not read *******/

  /** A profile with the fields the engine never reads replaced. */
  function Renamed(p: Profile, name: string, aid: Option<bool>, relocate: Option<bool>): Profile {
    p.(fullName := name, requiresFinancialAid := aid, willingToRelocate := relocate)
  }

  lemma {:induction false} SameRuleResults(rules: seq<Requirement>, p: Profile, q: Profile, ready: seq<string>, today: Date)
    requires Typed(p) && Typed(q) && AllValid(rules) && Extends(p, q) && Extends(q, p)
    requires p.gpa == q.gpa && p.gpaScale == q.gpaScale
    ensures RuleResults(rules, p, ready, today) == RuleResults(rules, q, ready, today)
  {
    if rules != [] {
      var r := rules[0];
      assert ValidRule(r);
      hide ValidRule;
      SameRuleResults(rules[1..], p, q, ready, today);
      if Known(p, ready, r.field) {
        PassesAlike(r, p, q, ready, today);
      } else if Known(q, ready, r.field) {
        PassesAlike(r, q, p, ready, today);
      }
      hide Known, Passes, Extends;
    }
  }

  lemma SameKnownColumns(p: Profile, q: Profile, columns: set<string>)
    requires forall c :: ColumnKnown(p, c) == ColumnKnown(q, c)
    ensures KnownColumns(p, columns) == KnownColumns(q, columns)
  {
    hide ColumnKnown;
  }

  lemma RenamedKnowsAlike(p: Profile, name: string, aid: Option<bool>, relocate: Option<bool>)
    ensures var q := Renamed(p, name, aid, relocate); Extends(p, q) && Extends(q, p) && Typed(p) == Typed(q)
  {
  }

  /** The match does not depend on the name, the wish for aid or the willingness to move. */
  lemma UnreadFieldsDoNotMatter(p: Profile, name: string, aid: Option<bool>, relocate: Option<bool>, offer: Offer,
                                documents: seq<Document>, w: Weights, today: Date)
    requires Typed(p)
    ensures CalculateMatch(Renamed(p, name, aid, relocate), offer, documents, w, today) ==
            CalculateMatch(p, offer, documents, w, today)
  {
    hide Confidence, AcademicFit, InterestsFit, EligibilityFit, ExperienceFit, ReadinessFit, AllValid, MatchFrom, Extends,
         Known, Passes, ValidRule, EvaluateRule;
    var q := Renamed(p, name, aid, relocate);
    RenamedKnowsAlike(p, name, aid, relocate);
    if AllValid(offer.requirements) {
      var ready := ReadyKinds(documents);
      assert Results(offer, q, ready, today) == Results(offer, p, ready, today) by {
        SameRuleResults(offer.requirements, p, q, ready, today);
      }
      hide Results;
      SameFits(p, q, offer, Results(offer, p, ready, today));
      SameConfidence(p, name, aid, relocate, offer);
    }
  }

  lemma SameConfidence(p: Profile, name: string, aid: Option<bool>, relocate: Option<bool>, offer: Offer)
    ensures Confidence(Renamed(p, name, aid, relocate), offer) == Confidence(p, offer)
  {
    var q := Renamed(p, name, aid, relocate);
    forall c ensures ColumnKnown(p, c) == ColumnKnown(q, c) {}
    SameKnownColumns(p, q, Expected(offer));
    hide ColumnKnown, Expected;
  }

  lemma SameFits(p: Profile, q: Profile, offer: Offer, results: seq<Result>)
    requires p.studyLevel == q.studyLevel && p.fieldOfStudy == q.fieldOfStudy
    requires p.interests == q.interests && p.goals == q.goals
    ensures AcademicFit(p, offer, results) == AcademicFit(q, offer, results)
    ensures InterestsFit(p, offer) == InterestsFit(q, offer)
  {
  }

  /******* Rounding *******/

  lemma RoundedIsNear(x: real)
    ensures -0.5 <= RoundHalfEven(x) as real - x <= 0.5
  {
  }

  lemma RoundingIsMonotone(x: real, y: real)
    requires x <= y
    ensures RoundHalfEven(x) <= RoundHalfEven(y)
  {
  }

  lemma Round5IsNear(x: real)
    ensures -0.000005 <= Round5(x) - x <= 0.000005
  {
    RoundedIsNear(x * 100000.0);
  }

  lemma Round5IsMonotone(x: real, y: real)
    requires x <= y
    ensures Round5(x) <= Round5(y)
  {
    RoundingIsMonotone(x * 100000.0, y * 100000.0);
  }

  /** Anything from just below zero to just above one rounds into the unit interval. */
  lemma Round5InUnit(x: real)
    requires -0.000001 <= x <= 1.000001
    ensures 0.0 <= Round5(x) <= 1.0
  {
    var n := RoundHalfEven(x * 100000.0);
    RoundedIsNear(x * 100000.0);
    assert -1.0 < n as real < 100001.0;
  }

  /******* Every score is in the unit interval *******/

  lemma {:induction false} SumBounds(values: seq<real>)
    requires forall i | 0 <= i < |values| :: 0.0 <= values[i] <= 1.0
    ensures 0.0 <= Sum(values) <= |values| as real
  {
    if values != [] { SumBounds(values[1..]); }
  }

  lemma AverageInUnit(values: seq<real>)
    requires forall i | 0 <= i < |values| :: 0.0 <= values[i] <= 1.0
    ensures 0.0 <= Average(values) <= 1.0
  {
    SumBounds(values);
  }

  lemma FitsInUnit(p: Profile, offer: Offer, documents: seq<Document>, today: Date, results: seq<Result>)
    ensures 0.0 <= AcademicFit(p, offer, results) <= 1.0
    ensures 0.0 <= EligibilityFit(results) <= 1.0
    ensures 0.0 <= InterestsFit(p, offer) <= 1.0
    ensures 0.0 <= ExperienceFit(results) <= 1.0
    ensures 0.0 <= ReadinessFit(offer, documents, today) <= 1.0
  {
    AverageInUnit(OutcomeScores(OnFields(Arranged(results), {Gpa})));
    AverageInUnit(LevelScore(p, offer) + FieldScore(p, offer) + GpaScore(results));
    AverageInUnit(OutcomeScores(OfStrength(results, Hard)));
    AverageInUnit(OutcomeScores(OfStrength(results, Soft)));
    AverageInUnit(OutcomeScores(OnFields(Arranged(results), {Experience, ExperienceMonths})));
    hide Average;
  }

  predicate InUnit(x: real) { 0.0 <= x <= 1.0 }

  lemma WeighIsMonotone(x: real, y: real, w: real)
    requires x <= y && w >= 0.0
    ensures Weigh(x, w) <= Weigh(y, w)
  {
  }

  lemma WeighInUnit(x: real, w: real)
    requires InUnit(x) && w >= 0.0
    ensures 0.0 <= Weigh(x, w) <= w
  {
    WeighIsMonotone(x, 1.0, w);
    WeighIsMonotone(0.0, x, w);
  }

  lemma WeighDifference(x: real, y: real, w: real)
    ensures Weigh(x, w) - Weigh(y, w) == Weigh(x - y, w)
  {
  }

  /** A difference of at most half a unit in the fifth place weighs at most that times the weight. */
  lemma WeighNear(x: real, y: real, w: real)
    requires -0.000005 <= x - y <= 0.000005 && w >= 0.0
    ensures -0.000005 * w <= Weigh(x, w) - Weigh(y, w) <= 0.000005 * w
  {
    WeighDifference(x, y, w);
    WeighIsMonotone(x - y, 0.000005, w);
    WeighIsMonotone(-0.000005, x - y, w);
  }

  /** A rounded score, weighed: in bounds, and near its stored rounded product. */
  lemma ComponentIsNear(score: real, weight: real)
    requires InUnit(score) && InUnit(weight)
    ensures var c := ComponentOf(score, weight);
            && InUnit(c.score) && InUnit(c.weighted)
            && NearProduct(Weigh(c.score, weight), c.weighted, weight)
  {
    hide Round5, Weigh;
    Round5IsNear(score);
    Round5InUnit(score);
    WeighInUnit(score, weight);
    WeighInUnit(Round5(score), weight);
    WeighNear(Round5(score), score, weight);
    Round5IsNear(Weigh(score, weight));
    Round5InUnit(Weigh(score, weight));
  }

  function WeightedSum(c: seq<Component>): real
    requires |c| == 5
  {
    c[0].weighted + c[1].weighted + c[2].weighted + c[3].weighted + c[4].weighted
  }

  /** One component's product, between bounds. */
  predicate NearProduct(product: real, weighted: real, weight: real) {
    && 0.0 <= product <= weight
    && -0.000005 * weight - 0.000005 <= product - weighted <= 0.000005 * weight + 0.000005
  }

  lemma SumIsNear(a: seq<real>, v: seq<real>, w: seq<real>)
    requires |a| == |v| == |w| == 5
    requires forall i | 0 <= i < 5 :: NearProduct(a[i], v[i], w[i])
    requires w[0] + w[1] + w[2] + w[3] + w[4] <= 1.000000001
    ensures 0.0 <= a[0] + a[1] + a[2] + a[3] + a[4] <= 1.000000001
    ensures -0.000031 <= a[0] + a[1] + a[2] + a[3] + a[4] - (v[0] + v[1] + v[2] + v[3] + v[4]) <= 0.000031
  {
    assert NearProduct(a[0], v[0], w[0]);
    assert NearProduct(a[1], v[1], w[1]);
    assert NearProduct(a[2], v[2], w[2]);
    assert NearProduct(a[3], v[3], w[3]);
    assert NearProduct(a[4], v[4], w[4]);
  }

  /** Fits in the unit interval make a total in it, near the sum of its weighted parts. */
  lemma TotalIsNear(fits: seq<real>, w: Weights)
    requires |fits| == 5 && ValidWeights(w) && forall i | 0 <= i < 5 :: InUnit(fits[i])
    ensures var c := Components(fits, w);
            && (forall i | 0 <= i < 5 :: InUnit(c[i].score) && InUnit(c[i].weighted))
            && InUnit(TotalScore(c))
            && -0.00004 < TotalScore(c) - WeightedSum(c) < 0.00004
  {
    hide Weigh, Round5, NearProduct;
    var c := Components(fits, w);
    var ws := WeightList(w);
    var a := seq(5, i requires 0 <= i < 5 => Weigh(c[i].score, ws[i]));
    var v := seq(5, i requires 0 <= i < 5 => c[i].weighted);
    forall i | 0 <= i < 5
      ensures NearProduct(a[i], v[i], ws[i]) && InUnit(c[i].score) && InUnit(c[i].weighted) && c[i].weight == ws[i]
    {
      ComponentIsNear(fits[i], ws[i]);
    }
    hide ComponentOf, InUnit, Components;
    SumIsNear(a, v, ws);
    TotalOfSum(c, a);
    assert WeightedSum(c) == v[0] + v[1] + v[2] + v[3] + v[4];
  }

  lemma TotalOfSum(c: seq<Component>, a: seq<real>)
    requires |c| == |a| == 5 && forall i | 0 <= i < 5 :: a[i] == Weigh(c[i].score, c[i].weight)
    requires 0.0 <= a[0] + a[1] + a[2] + a[3] + a[4] <= 1.000000001
    ensures InUnit(TotalScore(c))
    ensures -0.000005 <= TotalScore(c) - (a[0] + a[1] + a[2] + a[3] + a[4]) <= 0.000005
  {
    hide Weigh, Round5;
    var exact := ExactSum(c);
    assert exact == a[0] + a[1] + a[2] + a[3] + a[4];
    Round5IsNear(exact);
    Round5InUnit(exact);
  }

  /**
    Whatever the inputs and for all weights the settings accept, every score lies in [0, 1], and the
    total is within 4e-5 of the sum of the stored weighted scores.
   */
  lemma TotalIsBoundedAndNear(p: Profile, offer: Offer, documents: seq<Document>, w: Weights, today: Date)
    requires Typed(p) && ValidWeights(w) && CalculateMatch(p, offer, documents, w, today).Some?
    ensures var m := CalculateMatch(p, offer, documents, w, today).value;
            && |m.components| == 5 && InUnit(m.total) && InUnit(m.confidence)
            && (forall i | 0 <= i < 5 :: InUnit(m.components[i].score) && InUnit(m.components[i].weighted))
            && -0.00004 < m.total - WeightedSum(m.components) < 0.00004
  {
    hide AcademicFit, EligibilityFit, InterestsFit, ExperienceFit, ReadinessFit, Results, AllValid, MatchFrom;
    hide Confidence, WeightedSum, ValidWeights, InUnit;
    var results := Results(offer, p, ReadyKinds(documents), today);
    var fits := Fits(p, offer, documents, today, results);
    forall i | 0 <= i < 5 ensures InUnit(fits[i]) { FitInUnit(p, offer, documents, today, results, i); }
    MatchIsNear(results, fits, Confidence(p, offer), w);
  }

  lemma FitInUnit(p: Profile, offer: Offer, documents: seq<Document>, today: Date, results: seq<Result>, i: nat)
    requires i < 5
    ensures InUnit(Fits(p, offer, documents, today, results)[i])
  {
    FitsInUnit(p, offer, documents, today, results);
    hide AcademicFit, EligibilityFit, InterestsFit, ExperienceFit, ReadinessFit;
  }

  lemma MatchIsNear(results: seq<Result>, fits: seq<real>, confidence: real, w: Weights)
    requires |fits| == 5 && ValidWeights(w) && 0.0 <= confidence <= 1.0
    requires forall i | 0 <= i < 5 :: InUnit(fits[i])
    ensures var m := MatchFrom(results, fits, confidence, w);
            && InUnit(m.total) && InUnit(m.confidence)
            && (forall i | 0 <= i < 5 :: InUnit(m.components[i].score) && InUnit(m.components[i].weighted))
            && -0.00004 < m.total - WeightedSum(m.components) < 0.00004
  {
    Round5InUnit(confidence);
    TotalIsNear(fits, w);
    hide TotalScore, WeightedSum, Components, Overall, Arranged, Reasons, Missing, Round5;
  }

  /******* Better outcomes never lower a score *******/

  /** The same rules, each with the same or a better outcome. */
  predicate NoWorse(a: seq<Result>, b: seq<Result>) {
    |a| == |b| && forall i | 0 <= i < |a| ::
      a[i].field == b[i].field && a[i].strength == b[i].strength && Rank(a[i].verdict) <= Rank(b[i].verdict)
  }

  lemma NoWorseTail(a: seq<Result>, b: seq<Result>)
    requires NoWorse(a, b) && a != []
    ensures NoWorse(a[1..], b[1..])
  {
  }

  lemma NoWorseSum(a: seq<Result>, b: seq<Result>, c: seq<Result>, d: seq<Result>)
    requires NoWorse(a, b) && NoWorse(c, d)
    ensures NoWorse(a + c, b + d)
  {
  }

  lemma {:induction false} NoWorseOfStrength(a: seq<Result>, b: seq<Result>, s: Strength)
    requires NoWorse(a, b)
    ensures NoWorse(OfStrength(a, s), OfStrength(b, s))
  {
    if a != [] {
      NoWorseTail(a, b);
      NoWorseOfStrength(a[1..], b[1..], s);
      var x, y := if a[0].strength == s then [a[0]] else [], if b[0].strength == s then [b[0]] else [];
      assert NoWorse(x, y);
      NoWorseSum(x, y, OfStrength(a[1..], s), OfStrength(b[1..], s));
    }
  }

  lemma {:induction false} NoWorseOnFields(a: seq<Result>, b: seq<Result>, fields: set<RuleField>)
    requires NoWorse(a, b)
    ensures NoWorse(OnFields(a, fields), OnFields(b, fields))
  {
    if a != [] {
      NoWorseTail(a, b);
      NoWorseOnFields(a[1..], b[1..], fields);
      var x, y := if a[0].field in fields then [a[0]] else [], if b[0].field in fields then [b[0]] else [];
      assert NoWorse(x, y);
      NoWorseSum(x, y, OnFields(a[1..], fields), OnFields(b[1..], fields));
    }
  }

  predicate Below(a: seq<real>, b: seq<real>) { |a| == |b| && forall i | 0 <= i < |a| :: a[i] <= b[i] }

  lemma {:induction false} SumIsMonotone(a: seq<real>, b: seq<real>)
    requires Below(a, b)
    ensures Sum(a) <= Sum(b)
  {
    if a != [] { SumIsMonotone(a[1..], b[1..]); }
  }

  lemma AverageIsMonotone(a: seq<real>, b: seq<real>)
    requires Below(a, b)
    ensures Average(a) <= Average(b)
  {
    SumIsMonotone(a, b);
    if a != [] { Divided(Sum(a), Sum(b), |a| as real); }
  }

  lemma Divided(x: real, y: real, n: real)
    requires x <= y && n > 0.0
    ensures x / n <= y / n
  {
  }

  lemma OutcomeAverageIsMonotone(a: seq<Result>, b: seq<Result>)
    requires NoWorse(a, b)
    ensures Average(OutcomeScores(a)) <= Average(OutcomeScores(b))
  {
    AverageIsMonotone(OutcomeScores(a), OutcomeScores(b));
  }

  lemma NoWorseArranged(a: seq<Result>, b: seq<Result>, fields: set<RuleField>)
    requires NoWorse(a, b)
    ensures NoWorse(OnFields(Arranged(a), fields), OnFields(Arranged(b), fields))
  {
    NoWorseOfStrength(a, b, Hard);
    NoWorseOfStrength(a, b, Soft);
    NoWorseSum(OfStrength(a, Hard), OfStrength(b, Hard), OfStrength(a, Soft), OfStrength(b, Soft));
    NoWorseOnFields(Arranged(a), Arranged(b), fields);
  }

  lemma FitsAreMonotone(p: Profile, offer: Offer, a: seq<Result>, b: seq<Result>)
    requires NoWorse(a, b)
    ensures AcademicFit(p, offer, a) <= AcademicFit(p, offer, b)
    ensures EligibilityFit(a) <= EligibilityFit(b)
    ensures ExperienceFit(a) <= ExperienceFit(b)
  {
    NoWorseOfStrength(a, b, Hard);
    NoWorseOfStrength(a, b, Soft);
    OutcomeAverageIsMonotone(OfStrength(a, Hard), OfStrength(b, Hard));
    OutcomeAverageIsMonotone(OfStrength(a, Soft), OfStrength(b, Soft));
    NoWorseArranged(a, b, {Experience, ExperienceMonths});
    NoWorseArranged(a, b, {Gpa});
    OutcomeAverageIsMonotone(OnFields(Arranged(a), {Experience, ExperienceMonths}), OnFields(Arranged(b), {Experience, ExperienceMonths}));
    OutcomeAverageIsMonotone(OnFields(Arranged(a), {Gpa}), OnFields(Arranged(b), {Gpa}));
    AverageIsMonotone(LevelScore(p, offer) + FieldScore(p, offer) + GpaScore(a),
                      LevelScore(p, offer) + FieldScore(p, offer) + GpaScore(b));
    hide Average, OfStrength, OnFields, OutcomeScores, Arranged, LevelScore, FieldScore;
  }

  lemma ComponentIsMonotone(x: real, y: real, weight: real)
    requires x <= y && weight >= 0.0
    ensures ComponentOf(x, weight).score <= ComponentOf(y, weight).score
    ensures ComponentOf(x, weight).weighted <= ComponentOf(y, weight).weighted
    ensures Weigh(ComponentOf(x, weight).score, weight) <= Weigh(ComponentOf(y, weight).score, weight)
  {
    hide Round5, Weigh;
    Round5IsMonotone(x, y);
    WeighIsMonotone(x, y, weight);
    Round5IsMonotone(Weigh(x, weight), Weigh(y, weight));
    WeighIsMonotone(Round5(x), Round5(y), weight);
  }

  lemma ComponentsAreMonotone(a: seq<real>, b: seq<real>, w: Weights)
    requires |a| == |b| == 5 && Below(a, b) && ValidWeights(w)
    ensures var c, d := Components(a, w), Components(b, w);
            && (forall i | 0 <= i < 5 :: c[i].score <= d[i].score && c[i].weighted <= d[i].weighted)
            && TotalScore(c) <= TotalScore(d)
  {
    hide Round5, Weigh;
    var c, d := Components(a, w), Components(b, w);
    forall i | 0 <= i < 5
      ensures c[i].score <= d[i].score && c[i].weighted <= d[i].weighted
      ensures Weigh(c[i].score, c[i].weight) <= Weigh(d[i].score, d[i].weight)
    {
      ComponentIsMonotone(a[i], b[i], WeightList(w)[i]);
    }
    hide ComponentOf, Components, TotalScore;
    TotalIsMonotone(c, d);
  }

  lemma TotalIsMonotone(c: seq<Component>, d: seq<Component>)
    requires |c| == |d| == 5
    requires forall i | 0 <= i < 5 :: Weigh(c[i].score, c[i].weight) <= Weigh(d[i].score, d[i].weight)
    ensures TotalScore(c) <= TotalScore(d)
  {
    hide Round5, Weigh;
    Round5IsMonotone(ExactSum(c), ExactSum(d));
  }

  /**
    With everything but the outcomes fixed, improving outcomes lowers no component's score, no
    weighted score and not the total, through the averages and all roundings.
   */
  lemma BetterOutcomesNeverLowerScores(p: Profile, offer: Offer, documents: seq<Document>, w: Weights, today: Date,
                                       a: seq<Result>, b: seq<Result>)
    requires ValidWeights(w) && NoWorse(a, b)
    ensures var c := Components(Fits(p, offer, documents, today, a), w);
            var d := Components(Fits(p, offer, documents, today, b), w);
            && (forall i | 0 <= i < 5 :: c[i].score <= d[i].score && c[i].weighted <= d[i].weighted)
            && TotalScore(c) <= TotalScore(d)
            && Rank(Overall(a)) <= Rank(Overall(b))
  {
    hide AcademicFit, EligibilityFit, InterestsFit, ExperienceFit, ReadinessFit, Overall, NoWorse, Components, TotalScore;
    hide ValidWeights;
    FitsAreMonotone(p, offer, a, b);
    OverallIsMonotone(a, b);
    var x, y := Fits(p, offer, documents, today, a), Fits(p, offer, documents, today, b);
    assert Below(x, y);
    ComponentsAreMonotone(x, y, w);
  }

  lemma OverallIsMonotone(a: seq<Result>, b: seq<Result>)
    requires NoWorse(a, b)
    ensures Rank(Overall(a)) <= Rank(Overall(b))
  {
    OverallIsMinimum(a);
    OverallIsMinimum(b);
    hide Overall;
    if Overall(b) != Eligible {
      var y :| y in b && y.strength == Hard && y.verdict == Overall(b);
      var i :| 0 <= i < |b| && b[i] == y;
      assert a[i] in a;
    }
  }
}
