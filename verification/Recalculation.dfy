/** Recalculating one user's matches: reuse what is current, calculate the rest, or queue a job. */
module Recalculation {
  import opened Prelude
  import opened MatchingEngine
  import opened Profiles
  import opened Catalogue
  import opened MatchCache

  /** Everything a recalculation reads, in one state, and the calculation it runs. */
  datatype View = View(
    calculate: Inputs -> Option<Match>,
    profile: StoredProfile,
    rows: seq<Scholarship>,
    documents: seq<Document>,
    weights: Weights,
    today: Date)

  /** Published and not past its deadline. */
  predicate Open(row: Scholarship, today: Date) {
    row.status == Published && (row.fields[Deadline].Day? ==> !row.fields[Deadline].date.Before(today))
  }

  /** The candidates among the first `n` scholarships, by id. */
  function OpenUpTo(v: View, n: nat): (r: seq<nat>)
    requires n <= |v.rows|
    ensures forall i | 0 <= i < |r| :: r[i] < n
  {
    if n == 0 then []
    else OpenUpTo(v, n - 1) + if Open(v.rows[n - 1], v.today) then [n - 1] else []
  }

  function OpenIds(v: View): (r: seq<nat>)
    ensures forall i | 0 <= i < |r| :: r[i] < |v.rows|
  {
    OpenUpTo(v, |v.rows|)
  }

  /** The join that finds a current match: a stored one for an open scholarship, of both versions. */
  predicate IsCurrent(matches: map<nat, Cached>, v: View, id: nat) {
    && id in matches && id < |v.rows| && Open(v.rows[id], v.today)
    && matches[id].profileVersion == v.profile.version
    && matches[id].scholarshipVersion == v.rows[id].version
  }

  /** Read from the stored matches, apart from the candidates. */
  function CurrentIds(matches: map<nat, Cached>, v: View): set<nat> {
    set id | id in matches && IsCurrent(matches, v, id)
  }

  predicate InRange(v: View, ids: seq<nat>) { forall i | 0 <= i < |ids| :: ids[i] < |v.rows| }

  function IneligibleAmong(matches: map<nat, Cached>, ids: set<nat>): set<nat> {
    set id | id in ids && id in matches && matches[id].result.outcome == Ineligible
  }

  function InputsFor(v: View, id: nat): Inputs
    requires id < |v.rows|
  {
    Inputs(v.profile, v.rows[id], v.documents, v.weights, v.today)
  }

  datatype Filling = Broken | Filling(matches: map<nat, Cached>, calculated: nat, reused: nat, excluded: nat)

  function FillOne(current: set<nat>, v: View, f: Filling, id: nat): Filling
    requires id < |v.rows| && f.Filling?
  {
    if id in current then f.(reused := f.reused + 1)
    else
      match v.calculate(InputsFor(v, id))
      case None => Broken
      case Some(m) =>
        Filling(f.matches[id := Cached(m, v.profile.version, v.rows[id].version, InputsFor(v, id))],
                f.calculated + 1, f.reused,
                f.excluded + if m.outcome == Ineligible then 1 else 0)
  }

  /** The loop over the candidates; one invalid requirement undoes it all. */
  function Fill(before: map<nat, Cached>, current: set<nat>, v: View, ids: seq<nat>): Filling
    requires InRange(v, ids)
  {
    if ids == [] then Filling(before, 0, 0, 0)
    else
      match Fill(before, current, v, ids[..|ids| - 1])
      case Broken => Broken
      case Filling(m, c, r, e) => FillOne(current, v, Filling(m, c, r, e), ids[|ids| - 1])
  }

  datatype Reply =
    | Existing(candidates: nat, reused: nat, excluded: nat)
    | Accepted(candidates: nat)
    | QueueDown
    | Immediate(candidates: nat, calculated: nat, reused: nat, excluded: nat)
    | InvalidRequirement

  datatype Done = Recalculated(reply: Reply, matches: map<nat, Cached>, queued: bool)

  function Answer(matches: map<nat, Cached>, v: View, limit: nat, queueUp: bool): Done {
    var ids := OpenIds(v);
    var current := CurrentIds(matches, v);
    if |current| == |ids| then
      Recalculated(Existing(|ids|, |current|, |IneligibleAmong(matches, current)|), matches, false)
    else if |ids| > limit then
      if queueUp then Recalculated(Accepted(|ids|), matches, true) else Recalculated(QueueDown, matches, false)
    else
      match Fill(matches, current, v, ids)
      case Broken => Recalculated(InvalidRequirement, matches, false)
      case Filling(m, c, r, e) => Recalculated(Immediate(|ids|, c, r, e), m, false)
  }

  datatype JobStatus = JobQueued | JobRunning | JobCompleted | JobFailed | JobCancelled

  datatype Job = Job(status: JobStatus, candidates: nat)

  /** The job row of a profile version: inserted, or put back in the queue if it failed or was cancelled. */
  function Requeued(jobs: map<nat, Job>, version: nat, candidates: nat): map<nat, Job> {
    if version in jobs && jobs[version].status != JobFailed && jobs[version].status != JobCancelled then jobs
    else jobs[version := Job(JobQueued, candidates)]
  }

  /******* What it promises *******/

  predicate Distinct(ids: seq<nat>) { forall i, j | 0 <= i < j < |ids| :: ids[i] != ids[j] }

  lemma {:induction false} CandidatesAreDistinct(v: View, n: nat)
    requires n <= |v.rows|
    ensures Distinct(OpenUpTo(v, n))
  {
    if n > 0 { CandidatesAreDistinct(v, n - 1); }
  }

  /** The candidates are exactly the open scholarships. */
  lemma {:induction false} CandidatesAreTheOpenRows(v: View, n: nat, id: nat)
    requires n <= |v.rows|
    ensures id in OpenUpTo(v, n) <==> id < n && Open(v.rows[id], v.today)
  {
    hide Open;
    if n > 0 { CandidatesAreTheOpenRows(v, n - 1, id); }
  }

  function IdSet(ids: seq<nat>): set<nat> { set id | id in ids }

  lemma {:induction false} DistinctCount(ids: seq<nat>)
    requires Distinct(ids)
    ensures |IdSet(ids)| == |ids|
  {
    if ids != [] {
      var last := |ids| - 1;
      DistinctCount(ids[..last]);
      assert ids[last] !in IdSet(ids[..last]);
      assert IdSet(ids) == IdSet(ids[..last]) + {ids[last]} by {
        assert ids == ids[..last] + [ids[last]];
      }
    }
  }

  lemma SubsetOfEqualSize(a: set<nat>, b: set<nat>)
    requires a <= b
    ensures |a| <= |b| && (|a| == |b| ==> a == b)
  {
    assert b == a + (b - a);
    assert |b| == |a| + |b - a|;
  }

  /** Every current match is a candidate's, whichever matches are stored. */
  lemma CurrentAreCandidates(matches: map<nat, Cached>, v: View)
    ensures CurrentIds(matches, v) <= IdSet(OpenIds(v))
  {
    hide Open;
    forall id | id in CurrentIds(matches, v) ensures id in OpenIds(v) {
      CandidatesAreTheOpenRows(v, |v.rows|, id);
    }
  }

  /**
    The candidates and the current matches are counted by separate queries over different tables.
    Equal counts still mean that the current matches are the candidates', one each.
   */
  lemma CountTellsAll(matches: map<nat, Cached>, v: View)
    ensures |CurrentIds(matches, v)| <= |OpenIds(v)|
    ensures |CurrentIds(matches, v)| == |OpenIds(v)| <==> CurrentIds(matches, v) == IdSet(OpenIds(v))
  {
    CandidatesAreDistinct(v, |v.rows|);
    CurrentAreCandidates(matches, v);
    hide IdSet, CurrentIds, OpenIds, Distinct;
    DistinctCount(OpenIds(v));
    SubsetOfEqualSize(CurrentIds(matches, v), IdSet(OpenIds(v)));
  }

  /** A candidate after the loop: what was current is kept, the rest is a fresh calculation. */
  predicate Settled(before: map<nat, Cached>, v: View, after: map<nat, Cached>, id: nat) {
    && IsCurrent(after, v, id)
    && (if IsCurrent(before, v, id) then after[id] == before[id]
        else after[id].from == InputsFor(v, id) && v.calculate(after[id].from) == Some(after[id].result))
  }

  predicate Untouched(before: map<nat, Cached>, after: map<nat, Cached>, id: nat) {
    (id in after <==> id in before) && (id in before ==> after[id] == before[id])
  }

  ghost predicate Filled(before: map<nat, Cached>, v: View, ids: seq<nat>, f: Filling)
    requires InRange(v, ids)
  {
    && f.Filling? && f.calculated + f.reused == |ids|
    && (forall i | 0 <= i < |ids| :: Settled(before, v, f.matches, ids[i]))
    && (forall id | id !in ids :: Untouched(before, f.matches, id))
  }

  predicate AllOpen(v: View, ids: seq<nat>) {
    forall i | 0 <= i < |ids| :: ids[i] < |v.rows| && Open(v.rows[ids[i]], v.today)
  }

  lemma FillOneFills(before: map<nat, Cached>, v: View, init: seq<nat>, id: nat, f: Filling)
    requires InRange(v, init + [id]) && id !in init && id < |v.rows| && InRange(v, init) && Open(v.rows[id], v.today)
    requires Filled(before, v, init, f) && FillOne(CurrentIds(before, v), v, f, id).Filling?
    ensures Filled(before, v, init + [id], FillOne(CurrentIds(before, v), v, f, id))
  {
    hide Open;
    var g := FillOne(CurrentIds(before, v), v, f, id);
    assert Untouched(before, f.matches, id);
    forall k | k != id ensures Untouched(f.matches, g.matches, k) {}
    assert Settled(before, v, g.matches, id);
    forall i | 0 <= i < |init| ensures Settled(before, v, g.matches, init[i]) {
      assert Settled(before, v, f.matches, init[i]) && Untouched(f.matches, g.matches, init[i]);
    }
    forall k | k !in init + [id] ensures Untouched(before, g.matches, k) {
      assert k !in init && k != id;
    }
  }

  /** What the loop leaves behind. */
  lemma {:induction false} FillFills(before: map<nat, Cached>, v: View, ids: seq<nat>)
    requires InRange(v, ids) && Distinct(ids) && AllOpen(v, ids) && Fill(before, CurrentIds(before, v), v, ids).Filling?
    ensures Filled(before, v, ids, Fill(before, CurrentIds(before, v), v, ids))
  {
    hide Settled, Untouched, FillOne, CurrentIds, Open;
    if ids == [] {
      assert forall id :: Untouched(before, before, id) by { NothingTouched(before); }
    } else {
      var init, id := ids[..|ids| - 1], ids[|ids| - 1];
      FillFills(before, v, init);
      hide Filled;
      assert ids == init + [id];
      assert id !in init;
      FillOneFills(before, v, init, id, Fill(before, CurrentIds(before, v), v, init));
    }
  }

  lemma CandidatesAreOpen(v: View)
    ensures AllOpen(v, OpenIds(v)) && Distinct(OpenIds(v))
  {
    CandidatesAreDistinct(v, |v.rows|);
    hide Open;
    forall i | 0 <= i < |OpenIds(v)| ensures Open(v.rows[OpenIds(v)[i]], v.today) {
      CandidatesAreTheOpenRows(v, |v.rows|, OpenIds(v)[i]);
    }
  }

  lemma NothingTouched(m: map<nat, Cached>)
    ensures forall id :: Untouched(m, m, id)
  {
  }

  /**
    After an immediate recalculation every candidate has a current match, fresh or kept, and no
    other stored match is touched; the counts add up to the candidates.
   */
  lemma ImmediateLeavesAllCurrent(matches: map<nat, Cached>, v: View, limit: nat, queueUp: bool)
    requires Answer(matches, v, limit, queueUp).reply.Immediate?
    ensures var done := Answer(matches, v, limit, queueUp);
            && done.reply.calculated + done.reply.reused == done.reply.candidates == |OpenIds(v)|
            && (forall id: nat | id < |v.rows| && Open(v.rows[id], v.today) :: Settled(matches, v, done.matches, id))
            && (forall id: nat | id >= |v.rows| || !Open(v.rows[id], v.today) :: Untouched(matches, done.matches, id))
  {
    hide Settled, Untouched, Open, CurrentIds;
    var ids := OpenIds(v);
    CandidatesAreOpen(v);
    FillFills(matches, v, ids);
    var done := Answer(matches, v, limit, queueUp);
    forall id: nat | id < |v.rows| && Open(v.rows[id], v.today) ensures Settled(matches, v, done.matches, id) {
      CandidatesAreTheOpenRows(v, |v.rows|, id);
      var i :| 0 <= i < |ids| && ids[i] == id;
    }
    forall id: nat | id >= |v.rows| || !Open(v.rows[id], v.today) ensures Untouched(matches, done.matches, id) {
      CandidatesAreTheOpenRows(v, |v.rows|, id);
    }
  }

  /** Repeating an immediate recalculation with nothing changed finds everything and writes nothing. */
  lemma RepeatIsExisting(matches: map<nat, Cached>, v: View, limit: nat, limit2: nat, queueUp: bool, queueUp2: bool)
    requires Answer(matches, v, limit, queueUp).reply.Immediate?
    ensures var done := Answer(matches, v, limit, queueUp);
            var again := Answer(done.matches, v, limit2, queueUp2);
            && again.reply.Existing? && again.reply.reused == again.reply.candidates == |OpenIds(v)|
            && again.matches == done.matches && !again.queued
  {
    hide Open, IsCurrent, Untouched, OpenIds;
    var done := Answer(matches, v, limit, queueUp);
    ImmediateLeavesAllCurrent(matches, v, limit, queueUp);
    forall id | id in OpenIds(v) ensures id in CurrentIds(done.matches, v) {
      CandidatesAreOpen(v);
      assert Settled(matches, v, done.matches, id);
      CurrentIsStored(done.matches, v, id);
    }
    CurrentAreCandidates(done.matches, v);
    assert CurrentIds(done.matches, v) == IdSet(OpenIds(v));
    CountTellsAll(done.matches, v);
  }

  lemma CurrentIsStored(matches: map<nat, Cached>, v: View, id: nat)
    requires IsCurrent(matches, v, id)
    ensures id in CurrentIds(matches, v)
  {
    hide Open;
  }

  /** `existing` is answered exactly when every open scholarship has a current match. */
  lemma ExistingExactlyWhenAllCurrent(matches: map<nat, Cached>, v: View, limit: nat, queueUp: bool)
    ensures Answer(matches, v, limit, queueUp).reply.Existing? <==>
            forall id: nat | id < |v.rows| && Open(v.rows[id], v.today) :: IsCurrent(matches, v, id)
  {
    hide Open, Fill;
    CountTellsAll(matches, v);
    CurrentAreCandidates(matches, v);
    forall id: nat ensures id in OpenIds(v) <==> id < |v.rows| && Open(v.rows[id], v.today) {
      CandidatesAreTheOpenRows(v, |v.rows|, id);
    }
    hide OpenIds, IsCurrent;
    if forall id: nat | id < |v.rows| && Open(v.rows[id], v.today) :: IsCurrent(matches, v, id) {
      forall id | id in OpenIds(v) ensures id in CurrentIds(matches, v) {
        CurrentIsStored(matches, v, id);
      }
      assert CurrentIds(matches, v) == IdSet(OpenIds(v));
    }
    if CurrentIds(matches, v) == IdSet(OpenIds(v)) {
      forall id: nat | id < |v.rows| && Open(v.rows[id], v.today) ensures IsCurrent(matches, v, id) {
        assert id in IdSet(OpenIds(v));
      }
    }
  }

  /******* The service *******/

  class MatchingService {
    const weights: Weights
    const immediateLimit: nat
    var matches: map<nat, Cached>
    /** The user's job rows, one for each profile version. */
    var jobs: map<nat, Job>

    constructor (weights: Weights, immediateLimit: nat)
      ensures this.weights == weights && this.immediateLimit == immediateLimit && matches == map[] && jobs == map[]
    {
      this.weights, this.immediateLimit := weights, immediateLimit;
      matches, jobs := map[], map[];
    }

    method ListCandidates(v: View) returns (ids: seq<nat>)
      ensures ids == OpenIds(v)
    {
      ids := [];
      for n := 0 to |v.rows|
        invariant ids == OpenUpTo(v, n)
      {
        if Open(v.rows[n], v.today) { ids := ids + [n]; }
      }
    }

    /** Goes through the stored matches, in any order. */
    method ListCurrent(v: View) returns (current: set<nat>)
      ensures current == CurrentIds(matches, v)
    {
      hide IsCurrent;
      current := {};
      var rest := matches.Keys;
      while rest != {}
        invariant rest <= matches.Keys
        invariant current == set id | id in matches.Keys - rest && IsCurrent(matches, v, id)
        decreases |rest|
      {
        var id :| id in rest;
        rest := rest - {id};
        if IsCurrent(matches, v, id) { current := current + {id}; }
      }
    }

    method CountIneligible(ids: set<nat>) returns (excluded: nat)
      ensures excluded == |IneligibleAmong(matches, ids)|
    {
      excluded := 0;
      var rest := ids;
      while rest != {}
        invariant rest <= ids
        invariant excluded == |IneligibleAmong(matches, ids - rest)|
        decreases |rest|
      {
        var id :| id in rest;
        var seen := ids - rest;
        rest := rest - {id};
        assert ids - rest == seen + {id};
        if id in matches && matches[id].result.outcome == Ineligible {
          assert IneligibleAmong(matches, seen + {id}) == IneligibleAmong(matches, seen) + {id};
          excluded := excluded + 1;
        } else {
          assert IneligibleAmong(matches, seen + {id}) == IneligibleAmong(matches, seen);
        }
      }
      assert ids - rest == ids;
    }

    /** The loop; an invalid requirement leaves the matches half written, for the caller to roll back. */
    method CalculateImmediately(v: View, ids: seq<nat>, current: set<nat>) returns (f: Filling)
      requires InRange(v, ids)
      modifies `matches
      ensures f == Fill(old(matches), current, v, ids)
      ensures f.Filling? ==> matches == f.matches
    {
      var before := matches;
      var calculated, reused, excluded := 0, 0, 0;
      for k := 0 to |ids|
        invariant Fill(before, current, v, ids[..k]) == Filling(matches, calculated, reused, excluded)
      {
        assert ids[..k + 1][..k] == ids[..k];
        var id := ids[k];
        if id in current {
          reused := reused + 1;
        } else {
          var result := v.calculate(InputsFor(v, id));
          if result.None? {
            BrokenStaysBroken(before, current, v, ids, k + 1);
            return Broken;
          }
          if result.value.outcome == Ineligible { excluded := excluded + 1; }
          matches := matches[id := Cached(result.value, v.profile.version, v.rows[id].version, InputsFor(v, id))];
          calculated := calculated + 1;
        }
      }
      assert ids[..|ids|] == ids;
      f := Filling(matches, calculated, reused, excluded);
    }

    method Recalculate(profile: Option<StoredProfile>, rows: seq<Scholarship>, documents: seq<Document>, today: Date,
                       queueUp: bool) returns (reply: Option<Reply>)
      modifies this
      ensures profile.None? ==> reply.None? && matches == old(matches) && jobs == old(jobs)
      ensures profile.Some? ==>
                var done := Answer(old(matches), View(Calculated, profile.value, rows, documents, weights, today),
                                                      immediateLimit, queueUp);
                && reply == Some(done.reply) && matches == done.matches
                && jobs == if done.queued then Requeued(old(jobs), profile.value.version, done.reply.candidates)
                           else old(jobs)
    {
      if profile.None? { return None; }
      var v := View(Calculated, profile.value, rows, documents, weights, today);
      var ids := ListCandidates(v);
      var current := ListCurrent(v);
      if |current| == |ids| {
        var excluded := CountIneligible(current);
        return Some(Existing(|ids|, |current|, excluded));
      }
      if |ids| > immediateLimit {
        if !queueUp { return Some(QueueDown); }
        jobs := Requeued(jobs, v.profile.version, |ids|);
        return Some(Accepted(|ids|));
      }
      var before := matches;
      var f := CalculateImmediately(v, ids, current);
      if f.Broken? {
        matches := before;
        return Some(InvalidRequirement);
      }
      return Some(Immediate(|ids|, f.calculated, f.reused, f.excluded));
    }
  }

  lemma {:induction false} BrokenStaysBroken(before: map<nat, Cached>, current: set<nat>, v: View, ids: seq<nat>, k: nat)
    requires InRange(v, ids) && k <= |ids| && Fill(before, current, v, ids[..k]).Broken?
    ensures Fill(before, current, v, ids).Broken?
    decreases |ids|
  {
    hide FillOne;
    if k == |ids| {
      assert ids[..k] == ids;
    } else {
      assert ids[..|ids| - 1][..k] == ids[..k];
      BrokenStaysBroken(before, current, v, ids[..|ids| - 1], k);
    }
  }
}
