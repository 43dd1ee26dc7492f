/** What the five scores of a match are of. */
module ScoreMeaning {
  import opened Prelude
  import opened Rules
  import opened MatchingText
  import opened MatchingEngine
  import opened MatchingTheorems
  import opened TextMeaning
  import opened RuleMeaning

  /******* The calendar *******/

  function MonthLength(year: int, month: int): int {
    if month == 2 then (if year % 400 == 0 || (year % 4 == 0 && year % 100 != 0) then 29 else 28)
    else if month == 4 || month == 6 || month == 9 || month == 11 then 30
    else 31
  }

  predicate IsDate(d: Date) { 1 <= d.month <= 12 && 1 <= d.day <= MonthLength(d.year, d.month) }

  function NextDay(d: Date): Date {
    if d.day < MonthLength(d.year, d.month) then Date(d.year, d.month, d.day + 1)
    else if d.month < 12 then Date(d.year, d.month + 1, 1)
    else Date(d.year + 1, 1, 1)
  }

  function Later(d: Date, days: nat): Date {
    if days == 0 then d else NextDay(Later(d, days - 1))
  }

  function DaysBeforeYear(year: int): int {
    (year - 1) * 365 + (year - 1) / 4 - (year - 1) / 100 + (year - 1) / 400
  }

  function DaysBeforeMonth(year: int, month: int): int
    decreases if month > 0 then month else 0
  {
    if month <= 1 then 0 else DaysBeforeMonth(year, month - 1) + MonthLength(year, month - 1)
  }

  lemma QuotientsAdvance(y: int)
    ensures y / 4 - (y - 1) / 4 == if y % 4 == 0 then 1 else 0
    ensures y / 100 - (y - 1) / 100 == if y % 100 == 0 then 1 else 0
    ensures y / 400 - (y - 1) / 400 == if y % 400 == 0 then 1 else 0
    ensures (y % 400 == 0 ==> y % 100 == 0) && (y % 100 == 0 ==> y % 4 == 0)
  {
  }

  lemma YearAdvances(year: int)
    ensures DaysBeforeYear(year + 1) == DaysBeforeYear(year) + DaysBeforeMonth(year, 12) + MonthLength(year, 12)
  {
    QuotientsAdvance(year);
    MonthsAdd(year);
  }

  lemma MonthsAdd(year: int)
    ensures DaysBeforeMonth(year, 12) == 306 + MonthLength(year, 2)
  {
    assert DaysBeforeMonth(year, 5) == 92 + MonthLength(year, 2);
    assert DaysBeforeMonth(year, 9) == 215 + MonthLength(year, 2);
  }

  lemma MonthsBefore(year: int, month: int)
    requires 1 <= month <= 12
    ensures DaysBeforeMonth(year, month) ==
            [0, 31, 59, 90, 120, 151, 181, 212, 243, 273, 304, 334][month - 1] + if month > 2 && IsLeap(year) then 1 else 0
  {
    NextMonth(year, 1);
    NextMonth(year, 2);
    NextMonth(year, 3);
    NextMonth(year, 4);
    NextMonth(year, 5);
    NextMonth(year, 6);
    NextMonth(year, 7);
    NextMonth(year, 8);
    NextMonth(year, 9);
    NextMonth(year, 10);
    NextMonth(year, 11);
    assert DaysBeforeMonth(year, 1) == 0;
    hide DaysBeforeMonth, IsLeap;
  }

  lemma NextMonth(year: int, month: int)
    requires month >= 1
    ensures DaysBeforeMonth(year, month + 1) ==
            DaysBeforeMonth(year, month)
            + if month == 2 then (if IsLeap(year) then 29 else 28)
              else if month == 4 || month == 6 || month == 9 || month == 11 then 30 else 31
  {
  }

  lemma NumberParts(d: Date)
    requires 1 <= d.month <= 12
    ensures DayNumber(d) == DaysBeforeYear(d.year) + DaysBeforeMonth(d.year, d.month) + d.day
  {
    MonthsBefore(d.year, d.month);
    hide DaysBeforeMonth, IsLeap;
  }

  /** The day number counts the days of the calendar. */
  lemma NextDayIsNextNumber(d: Date)
    requires IsDate(d)
    ensures IsDate(NextDay(d)) && DayNumber(NextDay(d)) == DayNumber(d) + 1 && d.Before(NextDay(d))
  {
    hide DayNumber, DaysBeforeYear;
    NumberParts(d);
    NumberParts(NextDay(d));
    YearAdvances(d.year);
  }

  lemma {:induction false} LaterIsCounted(d: Date, days: nat)
    requires IsDate(d)
    ensures IsDate(Later(d, days)) && DayNumber(Later(d, days)) == DayNumber(d) + days
  {
    if days > 0 {
      LaterIsCounted(d, days - 1);
      NextDayIsNextNumber(Later(d, days - 1));
    }
  }

  lemma BeforeIsOrder(a: Date, b: Date, c: Date)
    ensures a.Before(b) && b.Before(c) ==> a.Before(c)
    ensures a.Before(b) || b.Before(a) || a == b
    ensures !(a.Before(b) && b.Before(a))
  {
  }

  lemma {:induction false} LaterIsNotBefore(d: Date, days: nat)
    requires IsDate(d)
    ensures !Later(d, days).Before(d)
  {
    if days > 0 {
      LaterIsNotBefore(d, days - 1);
      LaterIsCounted(d, days - 1);
      NextDayIsNextNumber(Later(d, days - 1));
      BeforeIsOrder(d, Later(d, days - 1), Later(d, days));
      BeforeIsOrder(Later(d, days), d, Later(d, days - 1));
    }
  }

  lemma {:induction false} YearsAdvance(y: int, z: int)
    requires y < z
    ensures DaysBeforeYear(y) + DaysBeforeMonth(y, 12) + MonthLength(y, 12) <= DaysBeforeYear(z)
    decreases z - y
  {
    hide DaysBeforeYear;
    YearAdvances(z - 1);
    MonthsAdd(z - 1);
    if y < z - 1 { YearsAdvance(y, z - 1); }
  }

  lemma {:induction false} MonthsAdvance(year: int, m: int, n: int)
    requires 1 <= m < n
    ensures DaysBeforeMonth(year, m) + MonthLength(year, m) <= DaysBeforeMonth(year, n)
    decreases n - m
  {
    if m < n - 1 { MonthsAdvance(year, m, n - 1); }
  }

  /** Of two dates the earlier one has the smaller number. */
  lemma NumbersFollowDates(a: Date, b: Date)
    requires IsDate(a) && IsDate(b)
    ensures DayNumber(a) < DayNumber(b) <==> a.Before(b)
  {
    BeforeIsOrder(a, b, a);
    if a.Before(b) { EarlierIsSmaller(a, b); }
    if b.Before(a) { EarlierIsSmaller(b, a); }
  }

  lemma EarlierIsSmaller(a: Date, b: Date)
    requires IsDate(a) && IsDate(b) && a.Before(b)
    ensures DayNumber(a) < DayNumber(b)
  {
    hide DayNumber, DaysBeforeYear, DaysBeforeMonth, MonthLength;
    NumberParts(a);
    NumberParts(b);
    if a.year < b.year {
      YearsAdvance(a.year, b.year);
      MonthsStart(b.year, b.month);
      if a.month < 12 {
        MonthsAdvance(a.year, a.month, 12);
        MonthsHaveDays(a.year, 12);
      }
    } else if a.month < b.month {
      MonthsAdvance(a.year, a.month, b.month);
    }
  }

  lemma MonthsHaveDays(year: int, month: int)
    ensures MonthLength(year, month) > 0
  {
  }

  lemma MonthsStart(year: int, month: int)
    requires 1 <= month
    ensures DaysBeforeMonth(year, month) >= 0
  {
    if month > 1 { MonthsAdvance(year, 1, month); }
  }

  /******* Readiness *******/

  /** A deadline that many days ahead. */
  lemma TimingStepsDown(today: Date, days: nat)
    requires IsDate(today)
    ensures TimingScore(Some(Later(today, days)), today) ==
            if days >= 90 then 1.0 else if days >= 30 then 0.8 else if days >= 14 then 0.6 else 0.4
  {
    LaterIsCounted(today, days);
    hide DayNumber, Later;
  }

  lemma PassedScoresNothing(deadline: Date, today: Date)
    requires IsDate(deadline) && IsDate(today)
    ensures TimingScore(Some(deadline), today) == 0.0 <==> deadline.Before(today)
  {
    NumbersFollowDates(deadline, today);
    hide DayNumber;
  }

  /** A ready document of this kind, case and white space aside. */
  ghost predicate HasReady(documents: seq<Document>, kind: string) {
    exists d :: d in documents && d.ready && SameText(d.kind, kind)
  }

  lemma {:induction false} ReadyKindsAreReady(documents: seq<Document>, kind: string)
    ensures kind in ReadyKinds(documents) <==> exists d :: d in documents && d.ready && d.kind == kind
  {
    if documents != [] {
      ReadyKindsAreReady(documents[1..], kind);
      if d :| d in documents && d.ready && d.kind == kind {
        if d != documents[0] { assert d in documents[1..]; }
      }
    }
  }

  lemma ReadyExactly(documents: seq<Document>, kind: string)
    ensures NormalizedText(kind) in NormalizedSet(ReadyKinds(documents)) <==> HasReady(documents, kind)
  {
    InNormalizedSet(ReadyKinds(documents), NormalizedText(kind));
    hide NormalizedText, NormalizedSet, ReadyKinds;
    if k :| k in ReadyKinds(documents) && NormalizedText(k) == NormalizedText(kind) {
      ReadyKindsAreReady(documents, k);
    }
    if d :| d in documents && d.ready && SameText(d.kind, kind) { ReadyKindsAreReady(documents, d.kind); }
  }

  lemma ShareMeans(part: set<string>, whole: set<string>)
    requires part <= whole && whole != {}
    ensures Share(part, whole) == 1.0 <==> part == whole
    ensures Share(part, whole) == 0.0 <==> part == {}
  {
    assert |whole| > 0;
    assert |part| as real == Share(part, whole) * |whole| as real;
    if |part| == |whole| { SameSize(part, whole); }
  }

  /** The documents score fully exactly when each required one is ready, and nothing exactly when none is. */
  lemma DocumentsScore(offer: Offer, documents: seq<Document>)
    ensures DocumentScore(offer, documents) == 1.0 <==>
            forall k | k in offer.requiredDocuments :: HasReady(documents, k)
    ensures DocumentScore(offer, documents) == 0.0 <==>
            offer.requiredDocuments != [] && forall k | k in offer.requiredDocuments :: !HasReady(documents, k)
  {
    var required, ready := NormalizedSet(offer.requiredDocuments), NormalizedSet(ReadyKinds(documents));
    hide NormalizedText, NormalizedSet, ReadyKinds, HasReady, Share;
    forall k | k in offer.requiredDocuments
      ensures NormalizedText(k) in required && (NormalizedText(k) in ready <==> HasReady(documents, k))
    {
      InNormalizedSet(offer.requiredDocuments, NormalizedText(k));
      ReadyExactly(documents, k);
    }
    forall n | n in required
      ensures exists k :: k in offer.requiredDocuments && NormalizedText(k) == n
    {
      InNormalizedSet(offer.requiredDocuments, n);
    }
    if offer.requiredDocuments != [] { assert NormalizedText(offer.requiredDocuments[0]) in required; }
    if required != {} {
      ShareMeans(required * ready, required);
      assert required * ready == required <==> required <= ready;
      assert offer.requiredDocuments != [] by { var n :| n in required; }
      if forall k | k in offer.requiredDocuments :: !HasReady(documents, k) {
        assert required * ready == {};
      } else {
        var k :| k in offer.requiredDocuments && HasReady(documents, k);
        assert NormalizedText(k) in required * ready;
      }
    }
  }

  /** Documents are worth six tenths of the readiness and the time left four tenths. */
  lemma ReadinessMixes(offer: Offer, documents: seq<Document>, today: Date)
    ensures DocumentScore(offer, documents) == 1.0 && TimingScore(offer.deadline, today) == 0.0
            ==> ReadinessFit(offer, documents, today) == 0.6
    ensures DocumentScore(offer, documents) == 0.0 && TimingScore(offer.deadline, today) == 1.0
            ==> ReadinessFit(offer, documents, today) == 0.4
    ensures offer.deadline.None? && DocumentScore(offer, documents) == 1.0 ==> ReadinessFit(offer, documents, today) == 0.88
  {
    hide DocumentScore, DayNumber;
  }

  /******* Rules, counted *******/

  function CountOf(results: seq<Result>, v: Verdict): nat {
    if results == [] then 0 else (if results[0].verdict == v then 1 else 0) + CountOf(results[1..], v)
  }

  lemma {:induction false} ScoresAdd(results: seq<Result>)
    ensures Sum(OutcomeScores(results)) == CountOf(results, Eligible) as real + CountOf(results, Unknown) as real / 2.0
  {
    if results != [] {
      ScoresAdd(results[1..]);
      assert OutcomeScores(results)[1..] == OutcomeScores(results[1..]);
    }
  }

  /** Rules score their share of met ones, an undecided one counting half. */
  lemma RulesScoreTheirShare(results: seq<Result>)
    requires results != []
    ensures Average(OutcomeScores(results)) * |results| as real ==
            CountOf(results, Eligible) as real + CountOf(results, Unknown) as real / 2.0
  {
    ScoresAdd(results);
    SameLength(results);
    hide Sum, OutcomeScores, CountOf;
    DivideTimes(Sum(OutcomeScores(results)), |results| as real);
  }

  lemma DivideTimes(x: real, n: real)
    requires n > 0.0
    ensures x / n * n == x
  {
  }

  ghost predicate AllOf(results: seq<Result>, s: Strength, v: Verdict) {
    forall r | r in results && r.strength == s :: r.verdict == v
  }

  lemma {:induction false} AllScoreAlike(results: seq<Result>, v: Verdict)
    requires forall r | r in results :: r.verdict == v
    ensures Sum(OutcomeScores(results)) == OutcomeScore(v) * |results| as real
  {
    if results != [] {
      AllScoreAlike(results[1..], v);
      assert OutcomeScores(results)[1..] == OutcomeScores(results[1..]);
    }
  }

  lemma AlikeAverage(results: seq<Result>, s: Strength, v: Verdict)
    requires AllOf(results, s, v)
    ensures OfStrength(results, s) != [] ==> Average(OutcomeScores(OfStrength(results, s))) == OutcomeScore(v)
  {
    forall r | r in OfStrength(results, s) ensures r.verdict == v { StrengthMembers(results, s, r); }
    hide OfStrength;
    if OfStrength(results, s) != [] { AlikeScore(OfStrength(results, s), v); }
  }

  lemma AlikeScore(results: seq<Result>, v: Verdict)
    requires results != [] && forall r | r in results :: r.verdict == v
    ensures Average(OutcomeScores(results)) == OutcomeScore(v)
  {
    AllScoreAlike(results, v);
    hide Sum, OutcomeScores, OutcomeScore;
    DivideBack(OutcomeScore(v), |results| as real);
  }

  lemma DivideBack(x: real, n: real)
    requires n > 0.0
    ensures x * n / n == x
  {
  }

  /** Met hard rules are worth seven tenths beside soft ones, and everything without; none count as met. */
  lemma HardRulesWeighMore(results: seq<Result>, hard: Verdict, soft: Verdict)
    requires AllOf(results, Hard, hard) && AllOf(results, Soft, soft)
    ensures OfStrength(results, Hard) != [] && OfStrength(results, Soft) != [] ==>
              EligibilityFit(results) == (7.0 * OutcomeScore(hard) + 3.0 * OutcomeScore(soft)) / 10.0
    ensures OfStrength(results, Hard) != [] && OfStrength(results, Soft) == [] ==> EligibilityFit(results) == OutcomeScore(hard)
    ensures OfStrength(results, Hard) == [] && OfStrength(results, Soft) != [] ==>
              EligibilityFit(results) == (7.0 + 3.0 * OutcomeScore(soft)) / 10.0
    ensures results == [] ==> EligibilityFit(results) == 1.0
  {
    AlikeAverage(results, Hard, hard);
    AlikeAverage(results, Soft, soft);
    hide OutcomeScore, OfStrength;
  }

  /******* Interests *******/

  lemma IsRunOfJoin(a: string, b: string, t: string)
    ensures t in Tokens(a + [' '] + b) <==> t in Tokens(a) || t in Tokens(b)
  {
    TokensOfParts(a, b, "", t);
  }

  lemma {:induction false} TokensOfParts(a: string, b: string, token: string, t: string)
    ensures t in TokensFrom(a + [' '] + b, token) <==> t in TokensFrom(a, token) || t in Tokens(b)
  {
    var s := a + [' '] + b;
    if a == "" {
      assert s[1..] == b;
    } else {
      assert s[1..] == a[1..] + [' '] + b;
      var c := Fold(a[0]);
      TokensOfParts(a[1..], b, if IsTokenChar(c) then token + [c] else "", t);
    }
  }

  /** The tokens of a list are the tokens of its texts. */
  lemma {:induction false} TokensOfList(items: seq<string>, t: string)
    ensures t in TokensOfAll(items) <==> exists s | s in items :: t in Tokens(s)
  {
    if |items| > 1 {
      assert Join(items) == items[0] + [' '] + Join(items[1..]);
      IsRunOfJoin(items[0], Join(items[1..]), t);
      TokensOfList(items[1..], t);
      assert forall s :: s in items <==> s == items[0] || s in items[1..];
    }
  }

  /** A word of what the user is interested in or aims at. */
  ghost predicate WordOfProfile(p: Profile, t: string) {
    (exists s | s in p.interests :: t in Tokens(s)) || (p.goals.Some? && t in Tokens(p.goals.value))
  }

  ghost predicate WordOfOffer(offer: Offer, t: string) {
    || t in Tokens(offer.title) || t in Tokens(offer.description) || t in Tokens(offer.eligibilitySummary)
    || exists s | s in offer.fieldsOfStudy :: t in Tokens(s)
  }

  /**
    Interests and offer score halfway when one of the two has no words, nothing exactly when they
    share none, and fully exactly when they have the same ones.
   */
  lemma InterestsScore(p: Profile, offer: Offer)
    ensures (forall t :: !WordOfProfile(p, t)) || (forall t :: !WordOfOffer(offer, t)) ==> InterestsFit(p, offer) == 0.5
    ensures InterestsFit(p, offer) == 0.0 <==>
            && (exists t :: WordOfProfile(p, t)) && (exists t :: WordOfOffer(offer, t))
            && (forall t :: !(WordOfProfile(p, t) && WordOfOffer(offer, t)))
    ensures InterestsFit(p, offer) == 1.0 <==>
            (exists t :: WordOfProfile(p, t)) && (forall t :: WordOfProfile(p, t) <==> WordOfOffer(offer, t))
  {
    var mine := TokensOfAll(p.interests) + TokensIf(p.goals);
    var theirs := Tokens(offer.title) + Tokens(offer.description)
                  + TokensOfAll(offer.fieldsOfStudy) + Tokens(offer.eligibilitySummary);
    hide Tokens, TokensOfAll, Jaccard;
    forall t
      ensures t in mine <==> WordOfProfile(p, t)
      ensures t in theirs <==> WordOfOffer(offer, t)
    {
      TokensOfList(p.interests, t);
      TokensOfList(offer.fieldsOfStudy, t);
    }
    assert InterestsFit(p, offer) == if mine == {} || theirs == {} then 0.5 else Jaccard(mine, theirs);
    hide InterestsFit, WordOfProfile, WordOfOffer;
    if mine != {} && theirs != {} { SimilarityMeans(mine, theirs); }
    WordsTell(mine, theirs);
  }

  lemma WordsTell(a: set<string>, b: set<string>)
    ensures a == {} <==> forall t :: t !in a
    ensures b == {} <==> forall t :: t !in b
    ensures a !! b <==> forall t :: !(t in a && t in b)
    ensures a == b <==> forall t :: t in a <==> t in b
  {
  }

  /******* Academic record and experience *******/

  /** Of the results on these fields, how many have this verdict. */
  function CountOn(results: seq<Result>, fields: set<RuleField>, v: Verdict): nat {
    if results == [] then 0
    else (if results[0].field in fields && results[0].verdict == v then 1 else 0) + CountOn(results[1..], fields, v)
  }

  lemma {:induction false} CountOnIs(results: seq<Result>, fields: set<RuleField>, v: Verdict)
    ensures CountOf(OnFields(results, fields), v) == CountOn(results, fields, v)
  {
    if results != [] {
      CountOnIs(results[1..], fields, v);
      var rest := OnFields(results[1..], fields);
      if results[0].field in fields { assert ([results[0]] + rest)[1..] == rest; } else { assert [] + rest == rest; }
    }
  }

  lemma {:induction false} CountOnSum(a: seq<Result>, b: seq<Result>, fields: set<RuleField>, v: Verdict)
    ensures CountOn(a + b, fields, v) == CountOn(a, fields, v) + CountOn(b, fields, v)
  {
    if a == [] { assert a + b == b; } else {
      assert (a + b)[1..] == a[1..] + b;
      CountOnSum(a[1..], b, fields, v);
    }
  }

  function One(r: Result, fields: set<RuleField>, v: Verdict): nat { if r.field in fields && r.verdict == v then 1 else 0 }

  lemma CountOnFirst(r: Result, rest: seq<Result>, fields: set<RuleField>, v: Verdict)
    ensures CountOn([r] + rest, fields, v) == One(r, fields, v) + CountOn(rest, fields, v)
    ensures CountOn([] + rest, fields, v) == CountOn(rest, fields, v)
  {
    assert ([r] + rest)[1..] == rest && [] + rest == rest;
  }

  lemma {:induction false} CountOnStrengths(results: seq<Result>, fields: set<RuleField>, v: Verdict)
    ensures CountOn(OfStrength(results, Hard), fields, v) + CountOn(OfStrength(results, Soft), fields, v)
            == CountOn(results, fields, v)
  {
    if results != [] {
      CountOnStrengths(results[1..], fields, v);
      CountOnFirst(results[0], OfStrength(results[1..], Hard), fields, v);
      CountOnFirst(results[0], OfStrength(results[1..], Soft), fields, v);
      CountOnFirst(results[0], results[1..], fields, v);
      hide CountOn, One;
      assert [results[0]] + results[1..] == results;
    }
  }

  /** Putting hard results first changes no count. */
  lemma CountArranged(results: seq<Result>, fields: set<RuleField>, v: Verdict)
    ensures CountOf(OnFields(Arranged(results), fields), v) == CountOn(results, fields, v)
  {
    CountOnIs(Arranged(results), fields, v);
    CountOnSum(OfStrength(results, Hard), OfStrength(results, Soft), fields, v);
    CountOnStrengths(results, fields, v);
  }

  lemma {:induction false} CountsAddUp(results: seq<Result>)
    ensures |results| == CountOf(results, Eligible) + CountOf(results, Unknown) + CountOf(results, Ineligible)
  {
    if results != [] { CountsAddUp(results[1..]); }
  }

  function AllOn(results: seq<Result>, fields: set<RuleField>): nat {
    CountOn(results, fields, Eligible) + CountOn(results, fields, Unknown) + CountOn(results, fields, Ineligible)
  }

  /** What rules on these fields score: nothing asked scores fully, an undecided rule counts half. */
  function ShareMet(results: seq<Result>, fields: set<RuleField>): real {
    if AllOn(results, fields) == 0 then 1.0
    else (CountOn(results, fields, Eligible) as real + CountOn(results, fields, Unknown) as real / 2.0)
         / AllOn(results, fields) as real
  }

  lemma AverageIsShare(results: seq<Result>, fields: set<RuleField>)
    ensures Average(OutcomeScores(OnFields(Arranged(results), fields))) == ShareMet(results, fields)
    ensures OnFields(Arranged(results), fields) == [] <==> AllOn(results, fields) == 0
  {
    CountArranged(results, fields, Eligible);
    CountArranged(results, fields, Unknown);
    CountArranged(results, fields, Ineligible);
    var rs := OnFields(Arranged(results), fields);
    CountsAddUp(rs);
    ScoresAdd(rs);
    hide CountOf, CountOn, OnFields, Arranged, Sum, OutcomeScores;
    assert |OutcomeScores(rs)| == |rs| by { SameLength(rs); }
  }

  lemma SameLength(results: seq<Result>)
    ensures |OutcomeScores(results)| == |results|
  {
  }

  lemma ExperienceScore(results: seq<Result>)
    ensures ExperienceFit(results) == ShareMet(results, {Experience, ExperienceMonths})
  {
    AverageIsShare(results, {Experience, ExperienceMonths});
    hide ShareMet, OnFields;
  }

  lemma {:induction false} BestIsReached(fields: seq<string>, mine: set<string>) returns (i: nat)
    requires fields != []
    ensures i < |fields| && BestSimilarity(fields, mine) == FieldSimilarity(fields[i], mine)
    ensures forall j | 0 <= j < |fields| :: FieldSimilarity(fields[j], mine) <= BestSimilarity(fields, mine)
  {
    hide FieldSimilarity;
    i := |fields| - 1;
    if |fields| > 1 {
      var front := fields[..|fields| - 1];
      var k := BestIsReached(front, mine);
      assert forall j | 0 <= j < |front| :: fields[j] == front[j];
      if BestSimilarity(fields, mine) == BestSimilarity(front, mine) { i := k; }
    }
  }

  /** The best similarity is reached by some field and exceeded by none. */
  lemma BestIsMaximum(fields: seq<string>, mine: set<string>)
    requires fields != []
    ensures exists f | f in fields :: BestSimilarity(fields, mine) == FieldSimilarity(f, mine)
    ensures forall f | f in fields :: FieldSimilarity(f, mine) <= BestSimilarity(fields, mine)
  {
    hide FieldSimilarity, BestSimilarity;
    var i := BestIsReached(fields, mine);
    assert fields[i] in fields;
  }

  lemma FieldSimilarityMeans(field: string, mine: set<string>)
    ensures FieldSimilarity(field, mine) == 1.0 <==> Tokens(field) == mine
    ensures FieldSimilarity(field, mine) == 0.0 <==> Tokens(field) !! mine && Tokens(field) + mine != {}
  {
    hide Tokens;
    if Tokens(field) + mine != {} { SimilarityMeans(Tokens(field), mine); }
    hide Jaccard;
  }

  /** The offer with only one of the things the academic score looks at. */
  function LevelsOnly(offer: Offer): Offer { offer.(fieldsOfStudy := []) }

  function FieldsOnly(offer: Offer): Offer { offer.(studyLevels := []) }

  function NeitherOf(offer: Offer): Offer { offer.(fieldsOfStudy := [], studyLevels := []) }

  lemma SumOfFirst(x: real, rest: seq<real>)
    ensures Sum([x] + rest) == x + Sum(rest) && Sum([]) == 0.0
  {
    assert ([x] + rest)[1..] == rest;
  }

  lemma Means(x: real, y: real, z: real)
    ensures Average([]) == 1.0 && Average([x]) == x && Average([x, y]) == (x + y) / 2.0
    ensures Average([x, y, z]) == (x + y + z) / 3.0
  {
    SumOfFirst(x, []);
    SumOfFirst(y, []);
    SumOfFirst(z, []);
    SumOfFirst(x, [y]);
    SumOfFirst(y, [z]);
    SumOfFirst(x, [y, z]);
    assert [x] + [] == [x] && [y] + [] == [y] && [z] + [] == [z];
    assert [x] + [y] == [x, y] && [y] + [z] == [y, z] && [x] + [y, z] == [x, y, z];
  }

  /** Without fields of study or rules on grades, the study level alone decides. */
  lemma LevelAlone(p: Profile, offer: Offer, results: seq<Result>)
    requires offer.fieldsOfStudy == [] && AllOn(results, {Gpa}) == 0
    ensures AcademicFit(p, offer, results) ==
            if offer.studyLevels == [] || (p.studyLevel != "" && p.studyLevel in offer.studyLevels) then 1.0
            else if p.studyLevel == "" then 0.5 else 0.0
  {
    AverageIsShare(results, {Gpa});
    hide OnFields, Arranged, AllOn, OutcomeScores, Average;
    Means(1.0, 1.0, 1.0);
    Means(0.5, 1.0, 1.0);
    Means(0.0, 1.0, 1.0);
    assert FieldScore(p, offer) == [] && GpaScore(results) == [];
    assert LevelScore(p, offer) + [] + [] == LevelScore(p, offer);
  }

  /** Without study levels or rules on grades, the best field of study decides. */
  lemma FieldAlone(p: Profile, offer: Offer, results: seq<Result>)
    requires offer.studyLevels == [] && offer.fieldsOfStudy != [] && AllOn(results, {Gpa}) == 0
    ensures !HasText(p.fieldOfStudy) ==> AcademicFit(p, offer, results) == 0.5
    ensures HasText(p.fieldOfStudy) ==>
              var mine := Tokens(p.fieldOfStudy.value);
              && (AcademicFit(p, offer, results) == 1.0 <==> exists f | f in offer.fieldsOfStudy :: Tokens(f) == mine)
              && (AcademicFit(p, offer, results) == 0.0 <==>
                    forall f | f in offer.fieldsOfStudy :: Tokens(f) !! mine && Tokens(f) + mine != {})
  {
    AverageIsShare(results, {Gpa});
    var score := FieldScore(p, offer)[0];
    hide OnFields, Arranged, AllOn, OutcomeScores, Average, Tokens, BestSimilarity, FieldSimilarity;
    Means(score, 1.0, 1.0);
    assert FieldScore(p, offer) == [score] && [] + [score] + [] == [score];
    assert AcademicFit(p, offer, results) == score;
    if HasText(p.fieldOfStudy) {
      var mine := Tokens(p.fieldOfStudy.value);
      BestIsMaximum(offer.fieldsOfStudy, mine);
      forall f | f in offer.fieldsOfStudy
        ensures FieldSimilarity(f, mine) == 1.0 <==> Tokens(f) == mine
        ensures FieldSimilarity(f, mine) == 0.0 <==> Tokens(f) !! mine && Tokens(f) + mine != {}
        ensures 0.0 <= FieldSimilarity(f, mine) <= 1.0
      {
        FieldSimilarityMeans(f, mine);
      }
    }
  }

  lemma GradesAlone(p: Profile, offer: Offer, results: seq<Result>)
    requires offer.studyLevels == [] && offer.fieldsOfStudy == []
    ensures AcademicFit(p, offer, results) == ShareMet(results, {Gpa})
  {
    AverageIsShare(results, {Gpa});
    hide OnFields, Arranged, AllOn, OutcomeScores;
    Means(ShareMet(results, {Gpa}), 1.0, 1.0);
    hide Average;
    var gpa := GpaScore(results);
    assert LevelScore(p, offer) == [] && FieldScore(p, offer) == [] && [] + [] + gpa == gpa;
  }

  /** Level, fields and grades count alike: the score is the mean of what each alone would score. */
  lemma AcademicIsMean(p: Profile, offer: Offer, results: seq<Result>)
    requires offer.studyLevels != [] && offer.fieldsOfStudy != []
    ensures var level, field, grades := AcademicFit(p, LevelsOnly(offer), []), AcademicFit(p, FieldsOnly(offer), []),
                                        AcademicFit(p, NeitherOf(offer), results);
            AcademicFit(p, offer, results) ==
            if AllOn(results, {Gpa}) == 0 then (level + field) / 2.0 else (level + field + grades) / 3.0
  {
    var gpa := GpaScore(results);
    var level, field := LevelScore(p, offer), FieldScore(p, offer);
    AverageIsShare(results, {Gpa});
    hide OnFields, Arranged, OutcomeScores, AllOn, Average, BestSimilarity, Tokens;
    assert level == [level[0]] && field == [field[0]];
    LevelsOnlyScore(p, offer);
    FieldsOnlyScore(p, offer);
    hide LevelScore, FieldScore;
    if gpa == [] {
      assert level + field + gpa == [level[0], field[0]];
      Means(level[0], field[0], 0.0);
    } else {
      NeitherScores(p, offer, results);
      Means(level[0], field[0], gpa[0]);
      assert gpa == [gpa[0]];
      assert level + field + gpa == [level[0], field[0], gpa[0]];
    }
  }

  lemma LevelsOnlyScore(p: Profile, offer: Offer)
    requires offer.studyLevels != []
    ensures AcademicFit(p, LevelsOnly(offer), []) == LevelScore(p, offer)[0]
  {
    var level := LevelScore(p, offer);
    hide Average, Tokens;
    assert GpaScore([]) == [] && FieldScore(p, LevelsOnly(offer)) == [] && LevelScore(p, LevelsOnly(offer)) == level;
    assert level + [] + [] == [level[0]];
    Means(level[0], 0.0, 0.0);
  }

  lemma FieldsOnlyScore(p: Profile, offer: Offer)
    requires offer.fieldsOfStudy != []
    ensures AcademicFit(p, FieldsOnly(offer), []) == FieldScore(p, offer)[0]
  {
    var field := FieldScore(p, offer);
    hide Average, Tokens, BestSimilarity;
    assert GpaScore([]) == [] && LevelScore(p, FieldsOnly(offer)) == [] && FieldScore(p, FieldsOnly(offer)) == field;
    assert [] + field + [] == [field[0]];
    Means(field[0], 0.0, 0.0);
  }

  lemma NeitherScores(p: Profile, offer: Offer, results: seq<Result>)
    requires GpaScore(results) != []
    ensures AcademicFit(p, NeitherOf(offer), results) == GpaScore(results)[0]
  {
    var gpa := GpaScore(results);
    hide Average, OnFields, Arranged;
    assert LevelScore(p, NeitherOf(offer)) == [] && FieldScore(p, NeitherOf(offer)) == [] && gpa == [gpa[0]];
    hide GpaScore;
    assert [] + [] + gpa == [gpa[0]];
    Means(gpa[0], 0.0, 0.0);
  }

  /******* Weights *******/

  /** Only the `k`-th of the five scores counts. */
  function OnlyOne(k: nat): Weights {
    Weights(if k == 0 then 1.0 else 0.0, if k == 1 then 1.0 else 0.0, if k == 2 then 1.0 else 0.0,
            if k == 3 then 1.0 else 0.0, if k == 4 then 1.0 else 0.0)
  }

  lemma RoundedWhole(n: int)
    ensures RoundHalfEven(n as real) == n
  {
  }

  lemma RoundedAgain(x: real)
    ensures Round5(Round5(x)) == Round5(x)
  {
    var n := RoundHalfEven(x * 100000.0);
    RoundedWhole(n);
    hide RoundHalfEven;
    assert Round5(x) * 100000.0 == n as real;
  }

  /** Halfway between two numbers the even one is taken. */
  lemma TiesGoToEven(n: int)
    ensures RoundHalfEven(n as real + 0.5) == if n % 2 == 0 then n else n + 1
  {
    assert (n as real + 0.5).Floor == n;
  }

  /** A score that has all the weight is the total. */
  lemma TotalOfOne(p: Profile, offer: Offer, documents: seq<Document>, today: Date)
    requires Typed(p) && AllValid(offer.requirements)
    ensures var results := Results(offer, p, ReadyKinds(documents), today);
            && CalculateMatch(p, offer, documents, OnlyOne(0), today).value.total == Round5(AcademicFit(p, offer, results))
            && CalculateMatch(p, offer, documents, OnlyOne(1), today).value.total == Round5(EligibilityFit(results))
            && CalculateMatch(p, offer, documents, OnlyOne(2), today).value.total == Round5(InterestsFit(p, offer))
            && CalculateMatch(p, offer, documents, OnlyOne(3), today).value.total == Round5(ExperienceFit(results))
            && CalculateMatch(p, offer, documents, OnlyOne(4), today).value.total
               == Round5(ReadinessFit(offer, documents, today))
  {
    var results := Results(offer, p, ReadyKinds(documents), today);
    hide Results, AcademicFit, EligibilityFit, InterestsFit, ExperienceFit, ReadinessFit, AllValid, Confidence, Round5, ReadyKinds;
    hide Overall, Arranged, Reasons, Missing, TotalScore, Components;
    var fits := Fits(p, offer, documents, today, results);
    hide Fits;
    OnlyOneCounts(fits, 0);
    OnlyOneCounts(fits, 1);
    OnlyOneCounts(fits, 2);
    OnlyOneCounts(fits, 3);
    OnlyOneCounts(fits, 4);
    assert fits[0] == AcademicFit(p, offer, results) && fits[1] == EligibilityFit(results) && fits[2] == InterestsFit(p, offer)
           && fits[3] == ExperienceFit(results) && fits[4] == ReadinessFit(offer, documents, today) by { FitsAre(p, offer, documents, today, results); }
  }

  /** Every total is a whole number of hundred-thousandths between none and all: the unit in which matches are listed. */
  lemma TotalIsListed(p: Profile, offer: Offer, documents: seq<Document>, w: Weights, today: Date) returns (n: int)
    requires Typed(p) && ValidWeights(w) && CalculateMatch(p, offer, documents, w, today).Some?
    ensures 0 <= n <= 100000 && CalculateMatch(p, offer, documents, w, today).value.total == n as real / 100000.0
  {
    TotalIsBoundedAndNear(p, offer, documents, w, today);
    hide CalculateMatch, ValidWeights, WeightedSum;
    n := RoundHalfEven(ExactSum(CalculateMatch(p, offer, documents, w, today).value.components) * 100000.0);
    TotalIsRounded(p, offer, documents, w, today);
    hide RoundHalfEven, ExactSum;
  }

  lemma TotalIsRounded(p: Profile, offer: Offer, documents: seq<Document>, w: Weights, today: Date)
    requires Typed(p) && CalculateMatch(p, offer, documents, w, today).Some?
    ensures var m := CalculateMatch(p, offer, documents, w, today).value;
            |m.components| == 5 && m.total == RoundHalfEven(ExactSum(m.components) * 100000.0) as real / 100000.0
  {
    hide Results, Confidence, Fits, AllValid, ReadyKinds, RoundHalfEven, ExactSum, Components, Overall, Arranged, Reasons, Missing;
  }

  lemma FitsAre(p: Profile, offer: Offer, documents: seq<Document>, today: Date, results: seq<Result>)
    ensures Fits(p, offer, documents, today, results)
            == [AcademicFit(p, offer, results), EligibilityFit(results), InterestsFit(p, offer), ExperienceFit(results),
                ReadinessFit(offer, documents, today)]
  {
    hide AcademicFit, EligibilityFit, InterestsFit, ExperienceFit, ReadinessFit;
  }

  lemma OnlyOneCounts(fits: seq<real>, k: nat)
    requires |fits| == 5 && k < 5
    ensures TotalScore(Components(fits, OnlyOne(k))) == Round5(fits[k])
  {
    var c := Components(fits, OnlyOne(k));
    hide Round5;
    forall i | 0 <= i < 5
      ensures c[i].score == Round5(fits[i]) && Weigh(c[i].score, c[i].weight) == if i == k then Round5(fits[k]) else 0.0
    {
    }
    RoundedAgain(fits[k]);
  }

  /******* Confidence *******/

  /** The profile says everything that would be looked at; documents are always taken as told. */
  ghost predicate SaysEverything(p: Profile, offer: Offer) {
    && p.studyLevel != ""
    && (offer.fieldsOfStudy != [] ==> HasText(p.fieldOfStudy))
    && (offer.title != "" || offer.description != "" || offer.fieldsOfStudy != [] || offer.eligibilitySummary != "" ==>
          p.interests != [] || HasText(p.goals))
    && forall i | 0 <= i < |offer.requirements| ::
         offer.requirements[i].field !in {RuleField.Document, DeadlineField} ==> Known(p, [], offer.requirements[i].field)
  }

  lemma TextColumns(p: Profile)
    ensures ColumnKnown(p, "country") <==> p.country != ""
    ensures ColumnKnown(p, "target_countries") <==> p.targetCountries != []
    ensures ColumnKnown(p, "nationality_country") <==> HasText(p.nationality)
    ensures ColumnKnown(p, "residence_country") <==> HasText(p.residence)
    ensures ColumnKnown(p, "study_level") <==> p.studyLevel != ""
    ensures ColumnKnown(p, "field_of_study") <==> HasText(p.fieldOfStudy)
    ensures ColumnKnown(p, "institution_name") <==> HasText(p.institution)
  {
    hide HasText;
  }

  lemma OtherColumns(p: Profile)
    ensures ColumnKnown(p, "gpa") <==> p.gpa.Some?
    ensures ColumnKnown(p, "gpa_scale") <==> p.gpaScale.Some?
    ensures ColumnKnown(p, "date_of_birth") <==> p.dateOfBirth.Some?
    ensures ColumnKnown(p, "experience_months") <==> p.experienceMonths.Some?
    ensures ColumnKnown(p, "ready_document_types") && !ColumnKnown(p, "deadline") && !ColumnKnown(p, "other")
    ensures ColumnKnown(p, "interests_or_goals") <==> p.interests != [] || HasText(p.goals)
  {
    FixedColumns(p);
    hide HasText;
  }

  lemma FixedColumns(p: Profile)
    ensures ColumnKnown(p, "ready_document_types") && !ColumnKnown(p, "deadline") && !ColumnKnown(p, "other")
  {
    hide HasText;
  }

  lemma ColumnOfField(p: Profile, f: RuleField)
    requires f !in {Gpa, RuleField.Document, DeadlineField}
    ensures ColumnKnown(p, ProfileField(f)) <==> Known(p, [], f)
  {
    TextColumns(p);
    OtherColumns(p);
    hide ColumnKnown;
  }

  /** The columns a rule on the field adds. */
  function ColumnsOf(f: RuleField): set<string> {
    if f == Gpa then {"gpa", "gpa_scale"} else if f == DeadlineField then {} else {ProfileField(f)}
  }

  lemma ColumnsOfField(p: Profile, f: RuleField)
    ensures (forall c | c in ColumnsOf(f) :: ColumnKnown(p, c)) <==>
            (f !in {RuleField.Document, DeadlineField} ==> Known(p, [], f))
  {
    OtherColumns(p);
    if f !in {Gpa, RuleField.Document, DeadlineField} { ColumnOfField(p, f); }
    hide ColumnKnown;
    assert ProfileField(RuleField.Document) == "ready_document_types";
    hide ProfileField;
  }

  lemma LastRuleColumns(rules: seq<Requirement>)
    requires rules != []
    ensures RuleColumns(rules) == RuleColumns(rules[..|rules| - 1]) + ColumnsOf(rules[|rules| - 1].field)
  {
    hide ProfileField;
  }

  lemma {:induction false} RuleColumnsKnown(p: Profile, rules: seq<Requirement>)
    ensures (forall c | c in RuleColumns(rules) :: ColumnKnown(p, c)) <==>
            forall i | 0 <= i < |rules| ::
              rules[i].field !in {RuleField.Document, DeadlineField} ==> Known(p, [], rules[i].field)
  {
    if rules != [] {
      var last := |rules| - 1;
      RuleColumnsKnown(p, rules[..last]);
      ColumnsOfField(p, rules[last].field);
      LastRuleColumns(rules);
      hide ColumnKnown, Known, RuleColumns, ColumnsOf;
      assert rules == rules[..last] + [rules[last]];
    }
  }

  /** A match is fully confident exactly when the profile says everything that would be looked at. */
  lemma ConfidentExactly(p: Profile, offer: Offer)
    ensures Confidence(p, offer) == 1.0 <==> SaysEverything(p, offer)
  {
    var expected := Expected(offer);
    RuleColumnsKnown(p, offer.requirements);
    OfferColumnsKnown(p, offer);
    hide ColumnKnown, Known, RuleColumns, OfferColumns, HasText;
    ShareMeans(KnownColumns(p, expected), expected);
    hide Share;
    assert KnownColumns(p, expected) == expected <==> forall c | c in expected :: ColumnKnown(p, c);
    assert (forall c | c in expected :: ColumnKnown(p, c)) <==>
           (forall c | c in OfferColumns(offer) :: ColumnKnown(p, c)) && (forall c | c in RuleColumns(offer.requirements) :: ColumnKnown(p, c));
  }

  lemma OfferColumnsKnown(p: Profile, offer: Offer)
    ensures (forall c | c in OfferColumns(offer) :: ColumnKnown(p, c)) <==>
            && p.studyLevel != ""
            && (offer.fieldsOfStudy != [] ==> HasText(p.fieldOfStudy))
            && (offer.title != "" || offer.description != "" || offer.fieldsOfStudy != [] || offer.eligibilitySummary != "" ==>
                  p.interests != [] || HasText(p.goals))
  {
    TextColumns(p);
    OtherColumns(p);
    hide ColumnKnown, HasText;
  }

  /** Full confidence leaves no rule undecided but those on documents and on the deadline. */
  lemma ConfidentIsDecided(p: Profile, offer: Offer, ready: seq<string>, today: Date, i: nat)
    requires Typed(p) && AllValid(offer.requirements) && Confidence(p, offer) == 1.0 && i < |offer.requirements|
    requires offer.requirements[i].field !in {RuleField.Document, DeadlineField}
    ensures EvaluateRule(offer.requirements[i], p, ready, today).verdict != Unknown
  {
    hide Confidence, Passes, HasText;
    ConfidentExactly(p, offer);
    assert Known(p, [], offer.requirements[i].field);
  }

  /** What a rule misses is what the profile does not say. */
  lemma MissingIsUnknown(r: Requirement, p: Profile, ready: seq<string>, today: Date, c: string)
    requires Typed(p) && ValidRule(r) && r.field != RuleField.Document
    ensures c in EvaluateRule(r, p, ready, today).missing ==> !ColumnKnown(p, c)
    ensures EvaluateRule(r, p, ready, today).missing == {} <==> EvaluateRule(r, p, ready, today).verdict != Unknown
  {
    hide Passes, ColumnKnown;
    OtherColumns(p);
    assert Known(p, ready, r.field) == Known(p, [], r.field);
    if r.field !in {Gpa, DeadlineField} { ColumnOfField(p, r.field); }
    if r.field != Gpa {
      hide Known;
      assert ProfileField(DeadlineField) == "deadline";
    }
  }
}
