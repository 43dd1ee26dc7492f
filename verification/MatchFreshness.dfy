/** What a recalculation serves, in the states that the interleavings of its readers and writers reach. */
module MatchFreshness {
  import opened Prelude
  import opened Rules
  import opened MatchingEngine
  import opened Profiles
  import opened Catalogue
  import opened MatchCache
  import opened Recalculation
  import MatchCacheTheorems
  import Lifecycle

  /** What a recalculation reads, and the documents, weights and date it is asked with. */
  datatype Asked = Asked(documents: seq<Document>, weights: Weights, today: Date, limit: nat, queueUp: bool)

  function ViewOf(s: State, a: Asked): View
    requires s.profile.Some?
  {
    View(Calculated, s.profile.value, s.library.content.rows, a.documents, a.weights, a.today)
  }

  function AnswerIn(s: State, a: Asked): Done
    requires s.profile.Some?
  {
    Answer(s.matches, ViewOf(s, a), a.limit, a.queueUp)
  }

  /** A published scholarship whose deadline is not behind the date. */
  ghost predicate IsOpen(s: State, today: Date, id: nat) {
    && id < |s.library.content.rows|
    && var row := s.library.content.rows[id];
       && row.status == Published
       && (forall d :: row.fields[Deadline] == Day(d) ==> d == today || today.Before(d))
  }

  /** The stored result is what a calculation gives on the profile and the row as they are now. */
  predicate ServesFresh(s: State, matches: map<nat, Cached>, id: nat)
    requires s.profile.Some? && id < |s.library.content.rows|
  {
    && id in matches
    && var c := matches[id];
       Calculated(c.from.(profile := s.profile.value, row := s.library.content.rows[id])) == Some(c.result)
  }

  /******* The join is the cache key *******/

  lemma DatesAreOrdered(a: Date, b: Date)
    ensures !a.Before(b) <==> a == b || b.Before(a)
  {
  }

  lemma OpenIsOpen(s: State, a: Asked, id: nat)
    requires s.profile.Some?
    ensures id < |s.library.content.rows| ==>
              (Open(s.library.content.rows[id], a.today) <==> IsOpen(s, a.today, id))
  {
    if id < |s.library.content.rows| {
      var v := s.library.content.rows[id].fields[Deadline];
      if v.Day? {
        DatesAreOrdered(v.date, a.today);
        assert v == Day(v.date);
      }
    }
  }

  /** The candidates are the published scholarships that the engine itself would not call expired. */
  lemma OpenIsUnexpired(s: State, today: Date, id: nat)
    requires id < |s.library.content.rows|
    ensures IsOpen(s, today, id) <==>
            s.library.content.rows[id].status == Published && !MatchingEngine.Expired(OfferOf(s.library.content.rows[id]), today)
  {
    var v := s.library.content.rows[id].fields[Deadline];
    if v.Day? {
      DatesAreOrdered(v.date, today);
      assert v == Day(v.date);
    }
  }

  /** `list_current` joins on what makes a stored match current in the interleavings. */
  lemma JoinIsCurrent(s: State, a: Asked, id: nat)
    requires s.profile.Some?
    ensures id in CurrentIds(s.matches, ViewOf(s, a)) <==> IsOpen(s, a.today, id) && Current(s, id)
  {
    OpenIsOpen(s, a, id);
    hide Open, IsOpen;
  }

  /** Listing the current matches, at any moment of such a run, lists none that a calculation would change. */
  lemma ListedAreFresh(s: State, a: Asked, id: nat)
    requires Sound(s) && s.profile.Some? && id in CurrentIds(s.matches, ViewOf(s, a))
    ensures ServesFresh(s, s.matches, id)
  {
    hide Sound, Calculated, CurrentIds;
    JoinIsCurrent(s, a, id);
    MatchCacheTheorems.CurrentIsFresh(s, id);
  }

  /******* What an answer serves *******/

  lemma KeptIsFresh(s: State, a: Asked, after: map<nat, Cached>, id: nat)
    requires Sound(s) && s.profile.Some? && Settled(s.matches, ViewOf(s, a), after, id)
    ensures id < |s.library.content.rows| && ServesFresh(s, after, id)
  {
    hide Sound, Calculated, Open;
    var v := ViewOf(s, a);
    if IsCurrent(s.matches, v, id) {
      assert Current(s, id);
      MatchCacheTheorems.CurrentIsFresh(s, id);
    } else {
      var c := after[id];
      assert c.from.(profile := s.profile.value, row := s.library.content.rows[id]) == c.from;
    }
  }

  lemma SettledByAnswer(s: State, a: Asked, id: nat)
    requires s.profile.Some? && IsOpen(s, a.today, id)
    requires AnswerIn(s, a).reply.Existing? || AnswerIn(s, a).reply.Immediate?
    ensures Settled(s.matches, ViewOf(s, a), AnswerIn(s, a).matches, id)
  {
    OpenIsOpen(s, a, id);
    var v := ViewOf(s, a);
    hide Open, IsOpen, Calculated;
    if AnswerIn(s, a).reply.Immediate? {
      ImmediateLeavesAllCurrent(s.matches, v, a.limit, a.queueUp);
    } else {
      ExistingExactlyWhenAllCurrent(s.matches, v, a.limit, a.queueUp);
      hide Fill, CurrentIds, OpenIds, IneligibleAmong, IsCurrent;
      assert IsCurrent(s.matches, v, id);
      assert AnswerIn(s, a).matches == s.matches;
    }
  }

  /**
    After `existing` and after an immediate recalculation, the stored result of every open scholarship
    is what a calculation gives on the profile and the scholarship as they are now.
   */
  lemma AnswersServeFresh(s: State, a: Asked, id: nat)
    requires Sound(s) && s.profile.Some? && IsOpen(s, a.today, id)
    requires AnswerIn(s, a).reply.Existing? || AnswerIn(s, a).reply.Immediate?
    ensures ServesFresh(s, AnswerIn(s, a).matches, id)
  {
    hide Sound, ServesFresh, AnswerIn, Settled;
    SettledByAnswer(s, a, id);
    KeptIsFresh(s, a, AnswerIn(s, a).matches, id);
  }

  /******* When it recalculates *******/

  lemma OlderVersionIsNotCurrent(s: State, t: State, id: nat)
    requires Sound(s) && s.matches == t.matches && t.profile.Some?
    requires (s.profile.Some? && t.profile.value.version > s.profile.value.version)
             || (id < |s.library.content.rows| && id < |t.library.content.rows|
                 && t.library.content.rows[id].version > s.library.content.rows[id].version)
    ensures !Current(t, id)
  {
    hide Calculated, WellStored, MatchingPart, LinksInRange;
    if id in s.matches { assert CachedOk(s, id, s.matches[id]); }
  }

  /**
    Once a profile update has moved the version, `existing` is answered exactly when nothing is open:
    no stored match is of the new version.
   */
  lemma MovedProfileIsRecalculated(s: State, client: nat, a: Asked)
    requires Sound(s) && s.profile.Some? && client in s.updates
    requires var p := Plan(s.updates[client].existing, s.updates[client].patch);
             p.Saved? && p.row.version > s.profile.value.version
    ensures var t := DoFinishUpdate(s, client);
            && t.profile.Some?
            && CurrentIds(t.matches, ViewOf(t, a)) == {}
            && (AnswerIn(t, a).reply.Existing? <==> forall id: nat :: !IsOpen(t, a.today, id))
  {
    hide Plan, Sound, AnswerIn, IsOpen;
    var t := DoFinishUpdate(s, client);
    forall id: nat ensures !Current(t, id) { OlderVersionIsNotCurrent(s, t, id); }
    forall id: nat ensures id !in CurrentIds(t.matches, ViewOf(t, a)) { JoinIsCurrent(t, a, id); }
    hide CurrentIds, Current;
    ExistingExactly(t, a);
  }

  /** `existing` is answered exactly when every open scholarship has a match of both versions. */
  lemma ExistingExactly(s: State, a: Asked)
    requires s.profile.Some?
    ensures AnswerIn(s, a).reply.Existing? <==> forall id: nat :: IsOpen(s, a.today, id) ==> Current(s, id)
  {
    ExistingExactlyWhenAllCurrent(s.matches, ViewOf(s, a), a.limit, a.queueUp);
    hide Calculated, Open, IsOpen, Current, IsCurrent, CurrentIds, Answer;
    forall id: nat
      ensures IsOpen(s, a.today, id) ==>
                (Current(s, id) <==> IsCurrent(s.matches, ViewOf(s, a), id))
      ensures id < |s.library.content.rows| ==>
                (Open(s.library.content.rows[id], a.today) <==> IsOpen(s, a.today, id))
    {
      OpenIsOpen(s, a, id);
      BothAreCurrent(s, a, id);
    }
    assert forall id: nat :: IsOpen(s, a.today, id) ==> id < |s.library.content.rows| by {
      forall id: nat ensures IsOpen(s, a.today, id) ==> id < |s.library.content.rows| { OpenIsARow(s, a.today, id); }
    }
  }

  lemma OpenIsARow(s: State, today: Date, id: nat)
    ensures IsOpen(s, today, id) ==> id < |s.library.content.rows|
  {
  }

  lemma BothAreCurrent(s: State, a: Asked, id: nat)
    requires s.profile.Some?
    ensures IsOpen(s, a.today, id) ==> (Current(s, id) <==> IsCurrent(s.matches, ViewOf(s, a), id))
  {
    OpenIsOpen(s, a, id);
    hide Open, IsOpen;
  }

  /** The same for the other side of the key: a scholarship written since its match was stored. */
  lemma MovedRowIsRecalculated(s: State, t: State, a: Asked, id: nat)
    requires Sound(s) && t.profile.Some? && t.matches == s.matches && id < |s.library.content.rows|
    requires IsOpen(t, a.today, id) && t.library.content.rows[id].version > s.library.content.rows[id].version
    ensures !AnswerIn(t, a).reply.Existing? && id !in CurrentIds(t.matches, ViewOf(t, a))
  {
    hide Sound, AnswerIn, IsOpen, CurrentIds, Current;
    OpenIsARow(t, a.today, id);
    OlderVersionIsNotCurrent(s, t, id);
    ExistingExactly(t, a);
    JoinIsCurrent(t, a, id);
  }

  /******* What the answer counts *******/

  /** The open scholarships, and among them those without a current match. */
  ghost function OpenSet(s: State, a: Asked): set<nat> {
    set id: nat | id < |s.library.content.rows| && IsOpen(s, a.today, id)
  }

  ghost function StaleSet(s: State, a: Asked): set<nat> { set id | id in OpenSet(s, a) && !Current(s, id) }

  ghost function IneligibleIn(matches: map<nat, Cached>, ids: set<nat>): set<nat> {
    set id | id in ids && id in matches && matches[id].result.outcome == Ineligible
  }

  /** The calculation of a candidate, on what was read. */
  function FreshFor(v: View, id: nat): Option<Match>
    requires id < |v.rows|
  {
    v.calculate(Inputs(v.profile, v.rows[id], v.documents, v.weights, v.today))
  }

  /** The loop breaks exactly on a candidate that has no current match and cannot be calculated. */
  lemma {:induction false} BreaksExactly(before: map<nat, Cached>, current: set<nat>, v: View, ids: seq<nat>)
    requires InRange(v, ids)
    ensures Fill(before, current, v, ids).Broken? <==>
            exists i :: 0 <= i < |ids| && ids[i] !in current && FreshFor(v, ids[i]).None?
  {
    if ids != [] {
      var last := |ids| - 1;
      var init := ids[..last];
      BreaksExactly(before, current, v, init);
      if Fill(before, current, v, init).Broken? {
        var i :| 0 <= i < last && init[i] !in current && FreshFor(v, init[i]).None?;
        assert ids[i] == init[i];
      } else {
        forall i | 0 <= i < last ensures ids[i] in current || FreshFor(v, ids[i]).Some? { assert init[i] == ids[i]; }
      }
    }
  }

  ghost function Elements(ids: seq<nat>): set<nat> { set id | id in ids }

  ghost predicate Counts(current: set<nat>, ids: seq<nat>, f: Filling) {
    && f.Filling?
    && f.calculated == |Elements(ids) - current| && f.reused == |Elements(ids) * current|
    && f.excluded == |IneligibleIn(f.matches, Elements(ids) - current)|
  }

  lemma ReusedCounts(current: set<nat>, init: seq<nat>, id: nat)
    requires id in current
    ensures Elements(init + [id]) - current == Elements(init) - current
    ensures Elements(init + [id]) * current == Elements(init) * current + {id}
  {
  }

  lemma CalculatedCounts(current: set<nat>, init: seq<nat>, id: nat)
    requires id !in current
    ensures Elements(init + [id]) - current == Elements(init) - current + {id}
    ensures Elements(init + [id]) * current == Elements(init) * current
  {
  }

  lemma OneMoreIneligible(matches: map<nat, Cached>, done: set<nat>, id: nat, c: Cached)
    requires id !in done
    ensures IneligibleIn(matches[id := c], done + {id})
            == IneligibleIn(matches, done) + if c.result.outcome == Ineligible then {id} else {}
  {
  }

  lemma FillOneCounts(current: set<nat>, v: View, init: seq<nat>, id: nat, f: Filling)
    requires id !in init && id < |v.rows| && Counts(current, init, f) && FillOne(current, v, f, id).Filling?
    ensures Counts(current, init + [id], FillOne(current, v, f, id))
  {
    if id in current {
      ReusedCounts(current, init, id);
    } else {
      CalculatedCounts(current, init, id);
      var done := Elements(init) - current;
      assert id !in done;
      var c := FillOne(current, v, f, id).matches[id];
      OneMoreIneligible(f.matches, done, id, c);
      hide IneligibleIn, Elements;
    }
  }

  lemma {:induction false} FillCounts(before: map<nat, Cached>, current: set<nat>, v: View, ids: seq<nat>)
    requires InRange(v, ids) && Distinct(ids) && Fill(before, current, v, ids).Filling?
    ensures Counts(current, ids, Fill(before, current, v, ids))
  {
    if ids == [] {
      assert Elements(ids) == {};
      assert IneligibleIn(before, {}) == {};
    } else {
      var init, id := ids[..|ids| - 1], ids[|ids| - 1];
      FillCounts(before, current, v, init);
      hide FillOne, Counts;
      assert ids == init + [id] && id !in init;
      FillOneCounts(current, v, init, id, Fill(before, current, v, init));
    }
  }

  lemma CandidatesAreOpenSet(s: State, a: Asked)
    requires s.profile.Some?
    ensures Elements(OpenIds(ViewOf(s, a))) == OpenSet(s, a) && |OpenIds(ViewOf(s, a))| == |OpenSet(s, a)|
    ensures CurrentIds(s.matches, ViewOf(s, a)) == OpenSet(s, a) - StaleSet(s, a)
  {
    hide Calculated, Open, IsOpen, CurrentIds, Current;
    var v := ViewOf(s, a);
    forall id: nat
      ensures id in OpenIds(v) <==> id in OpenSet(s, a)
      ensures id in CurrentIds(s.matches, v) <==> id in OpenSet(s, a) - StaleSet(s, a)
    {
      CandidatesAreTheOpenRows(v, |v.rows|, id);
      OpenIsOpen(s, a, id);
      OpenIsARow(s, a.today, id);
      JoinIsCurrent(s, a, id);
    }
    hide OpenIds, StaleSet;
    CandidatesAreOpen(v);
    DistinctCount(OpenIds(v));
    assert IdSet(OpenIds(v)) == Elements(OpenIds(v));
    hide OpenSet;
    assert Elements(OpenIds(v)) == OpenSet(s, a);
  }

  /** The one condition under which a requirement makes the answer an error. */
  ghost predicate SomeStaleFails(s: State, a: Asked)
    requires s.profile.Some?
  {
    exists id :: id in StaleSet(s, a) && Calculated(Inputs(s.profile.value, s.library.content.rows[id], a.documents, a.weights, a.today)).None?
  }

  lemma StaleFailsExactly(s: State, a: Asked)
    requires s.profile.Some?
    ensures var v := ViewOf(s, a);
            Fill(s.matches, CurrentIds(s.matches, v), v, OpenIds(v)).Broken? <==> SomeStaleFails(s, a)
  {
    var v := ViewOf(s, a);
    var ids, current := OpenIds(v), CurrentIds(s.matches, v);
    hide Calculated, OpenIds, CurrentIds, IsOpen, Current, OpenSet;
    BreaksExactly(s.matches, current, v, ids);
    CandidatesAreOpenSet(s, a);
    hide Fill;
    if SomeStaleFails(s, a) {
      var id :| id in StaleSet(s, a) && Calculated(Inputs(s.profile.value, s.library.content.rows[id], a.documents, a.weights, a.today)).None?;
      assert id in Elements(ids);
      var i :| 0 <= i < |ids| && ids[i] == id;
      assert ids[i] !in current && FreshFor(v, ids[i]).None?;
    }
    if i: nat :| i < |ids| && ids[i] !in current && FreshFor(v, ids[i]).None? {
      assert ids[i] in Elements(ids);
      assert ids[i] in StaleSet(s, a);
    }
  }

  /** The answer's form, from the two readings. */
  lemma AnswerShape(matches: map<nat, Cached>, v: View, limit: nat, queueUp: bool)
    ensures var done, ids, current := Answer(matches, v, limit, queueUp), OpenIds(v), CurrentIds(matches, v);
            var f := Fill(matches, current, v, ids);
            && (|current| == |ids| ==> done.reply == Existing(|ids|, |current|, |IneligibleAmong(matches, current)|))
            && (|current| != |ids| && |ids| > limit ==> done.reply == if queueUp then Accepted(|ids|) else QueueDown)
            && (|current| != |ids| && |ids| <= limit && f.Broken? ==> done.reply == InvalidRequirement)
            && (|current| != |ids| && |ids| <= limit && f.Filling? ==>
                  done.reply == Immediate(|ids|, f.calculated, f.reused, f.excluded) && done.matches == f.matches)
            && (!done.reply.Immediate? ==> done.matches == matches)
            && (done.queued <==> done.reply.Accepted?)
  {
    hide Fill, OpenIds, CurrentIds, IneligibleAmong;
  }

  lemma SetsTell(all: set<nat>, stale: set<nat>)
    requires stale <= all
    ensures |all - stale| == |all| <==> stale == {}
    ensures stale == {} ==> all - stale == all
    ensures all - (all - stale) == stale && all * (all - stale) == all - stale
  {
    assert all == stale + (all - stale);
    assert |all| == |stale| + |all - stale|;
  }

  lemma IneligibleTwice(matches: map<nat, Cached>, ids: set<nat>)
    ensures IneligibleAmong(matches, ids) == IneligibleIn(matches, ids)
  {
  }

  /**
    Which answer is given, and what its counts are of. An immediate answer excludes only what it has
    calculated; `existing` excludes every ineligible open scholarship.
   */
  lemma AnswerTells(s: State, a: Asked)
    requires s.profile.Some?
    ensures var r, after := AnswerIn(s, a).reply, AnswerIn(s, a).matches;
            var stale, all := StaleSet(s, a), OpenSet(s, a);
            && (stale == {} ==> r == Existing(|all|, |all|, |IneligibleIn(s.matches, all)|))
            && (stale != {} && |all| > a.limit ==> r == if a.queueUp then Accepted(|all|) else QueueDown)
            && (stale != {} && |all| <= a.limit && SomeStaleFails(s, a) ==> r == InvalidRequirement)
            && (stale != {} && |all| <= a.limit && !SomeStaleFails(s, a) ==>
                  r == Immediate(|all|, |stale|, |all - stale|, |IneligibleIn(after, stale)|))
            && (!r.Immediate? ==> after == s.matches)
            && (AnswerIn(s, a).queued <==> r.Accepted?)
  {
    var v := ViewOf(s, a);
    var ids, current := OpenIds(v), CurrentIds(s.matches, v);
    var stale, all := StaleSet(s, a), OpenSet(s, a);
    assert stale <= all;
    hide OpenSet, StaleSet, SomeStaleFails, OpenIds, CurrentIds, Calculated, IneligibleIn, IneligibleAmong, Fill, Elements;
    CandidatesAreOpenSet(s, a);
    SetsTell(all, stale);
    StaleFailsExactly(s, a);
    AnswerShape(s.matches, v, a.limit, a.queueUp);
    IneligibleTwice(s.matches, current);
    if Fill(s.matches, current, v, ids).Filling? {
      CandidatesAreOpen(v);
      hide Distinct, AllOpen, Answer;
      FillCounts(s.matches, current, v, ids);
    }
  }

  /** An answer's writes are such as the interleavings make: the state stays sound. */
  lemma SoundAfterAnswer(s: State, a: Asked)
    requires Sound(s) && s.profile.Some?
    ensures Sound(s.(matches := AnswerIn(s, a).matches))
  {
    if AnswerIn(s, a).reply.Immediate? {
      var t := s.(matches := AnswerIn(s, a).matches);
      forall id | id in t.matches ensures CachedOk(t, id, t.matches[id]) { AnswerCachesOk(s, a, id); }
      hide CachedOk, AnswerIn;
      OnlyMatchesChange(s, t);
    } else {
      hide Sound;
      AnswerTells(s, a);
      hide AnswerIn, OpenSet, StaleSet, IneligibleIn, SomeStaleFails;
      assert s.(matches := s.matches) == s;
    }
  }

  lemma OnlyMatchesChange(s: State, t: State)
    requires Sound(s) && t == s.(matches := t.matches) && forall id | id in t.matches :: CachedOk(t, id, t.matches[id])
    ensures Sound(t)
  {
    hide CachedOk, WellStored, MatchingPart, LinksInRange;
    forall c | c in t.work ensures WorkSeen(t, t.work[c]) { assert WorkSeen(s, s.work[c]); }
  }

  lemma CachedOkInBoth(s: State, t: State, id: nat, c: Cached)
    requires CachedOk(s, id, c) && t.library == s.library && t.profile == s.profile
    ensures CachedOk(t, id, c)
  {
    hide Calculated, WellStored, MatchingPart;
  }

  lemma AnswerCachesOk(s: State, a: Asked, id: nat)
    requires Sound(s) && s.profile.Some? && AnswerIn(s, a).reply.Immediate? && id in AnswerIn(s, a).matches
    ensures CachedOk(s.(matches := AnswerIn(s, a).matches), id, AnswerIn(s, a).matches[id])
  {
    var after, v := AnswerIn(s, a).matches, ViewOf(s, a);
    var t := s.(matches := after);
    hide Calculated, WellStored, MatchingPart, Open, Fill, OpenIds, CurrentIds;
    ImmediateLeavesAllCurrent(s.matches, v, a.limit, a.queueUp);
    if id < |v.rows| && Open(v.rows[id], v.today) {
      assert Settled(s.matches, v, after, id);
      if IsCurrent(s.matches, v, id) {
        assert CachedOk(s, id, s.matches[id]);
      } else {
        assert ProfileSeen(t.profile, s.profile.value);
      }
    } else {
      assert Untouched(s.matches, after, id);
      assert CachedOk(s, id, s.matches[id]);
      CachedOkInBoth(s, t, id, after[id]);
    }
  }

  /**
    Asking for a job of a profile version: there is one afterwards that has neither failed nor been
    cancelled. It starts over exactly when there was none, or one that had; a completed job stays
    completed, however many scholarships have changed since. No other version's job is touched.
   */
  lemma JobAfterAsking(jobs: map<nat, Job>, version: nat, candidates: nat, other: nat)
    ensures var after := Requeued(jobs, version, candidates);
            && version in after && after[version].status !in {JobFailed, JobCancelled}
            && (version !in jobs || jobs[version].status in {JobFailed, JobCancelled} ==>
                  after[version] == Job(JobQueued, candidates))
            && (version in jobs && jobs[version].status in {JobQueued, JobRunning, JobCompleted} ==>
                  after[version] == jobs[version])
            && (other != version ==> (other in after <==> other in jobs) && (other in jobs ==> after[other] == jobs[other]))
  {
  }

  /** What is matched is what the catalogue's columns hold, each under its own name. */
  lemma OfferReadsColumns(row: Scholarship, title: string, description: string, summary: string, levels: seq<string>,
                          fields: seq<string>, documents: seq<string>, deadline: Date)
    requires row.fields[Title] == Text(title) && row.fields[Description] == Text(description)
    requires row.fields[EligibilitySummary] == Text(summary) && row.fields[StudyLevels] == Texts(levels)
    requires row.fields[FieldsOfStudy] == Texts(fields) && row.fields[RequiredDocuments] == Texts(documents)
    requires row.fields[Deadline] == Day(deadline)
    ensures var offer := OfferOf(row);
            && offer.title == title && offer.description == description && offer.eligibilitySummary == summary
            && offer.studyLevels == levels && offer.fieldsOfStudy == fields && offer.requiredDocuments == documents
            && offer.deadline == Some(deadline) && offer.requirements == row.requirements
  {
  }
}
