/** When a scholarship that is published again under another URL is recognized. */
module Duplicates {
  import opened Prelude
  import opened Rules
  import opened Catalogue
  import opened CatalogueTheorems
  import opened IngestionRuns
  import opened Reingestion

  /** The requirements with `url` as the evidence of each. */
  function Moved(requirements: seq<Requirement>, url: string): (r: seq<Requirement>)
    ensures |r| == |requirements|
  {
    seq(|requirements|, i requires 0 <= i < |requirements| =>
      requirements[i].(evidence := requirements[i].evidence.(sourceUrl := Some(url))))
  }

  /** The same scholarship as another record under another URL. */
  function Republished(n: Normalized, url: string, recordId: string): Normalized {
    n.(url := url, recordId := recordId, fields := n.fields[SourceUrl := Text(url)],
       requirements := Moved(n.requirements, url))
  }

  lemma CandidatesHaveNoRequirements(t: Content, n: Normalized)
    requires PrintsCarryUrl(t) && n.FromNormalizer()
    ensures Candidates(t.links, n) != {} ==> n.requirements == []
  {
    if Candidates(t.links, n) != {} {
      var id :| id in Candidates(t.links, n);
      var u :| u in t.links && u != n.url && t.links[u].active && t.links[u].fingerprint == n.Print();
      EvidenceFixesUrl(n.requirements, u, n.url);
    }
  }

  /** An active link that was stored under the fingerprint `head` without requirements. */
  predicate PlainTwin(links: map<string, Link>, head: string, u: string) {
    u in links && links[u].active && links[u].fingerprint == Fingerprint(head, [])
  }

  lemma TwinIsCandidate(t: Content, n: Normalized, u: string)
    requires n.url !in t.links && u in t.links && t.links[u].active && t.links[u].fingerprint == n.Print()
    ensures t.links[u].scholarship in Candidates(t.links, n)
  {
  }

  lemma CandidateIsTwin(t: Content, n: Normalized)
    requires Candidates(t.links, n) != {} && n.requirements == []
    ensures exists u :: PlainTwin(t.links, n.head, u)
  {
    var id :| id in Candidates(t.links, n);
    var u :| u in t.links && u != n.url && t.links[u].active && t.links[u].fingerprint == n.Print();
    assert PlainTwin(t.links, n.head, u);
  }

  /**
    The fingerprint is meant to catch one scholarship published under two URLs, but it includes the
    URL inside each requirement. A record with a new URL is reported as a duplicate exactly when it
    has no requirements and an active link holds its fingerprint without requirements.
   */
  lemma DuplicateExactlyWithoutRequirements(t: Content, run: nat, raw: RawKey, n: Normalized, dry: bool)
    requires LinksInRange(t) && PrintsCarryUrl(t) && n.FromNormalizer() && n.url !in t.links
    ensures var r := Apply(t, run, raw, n, dry);
            (r.Applied? && r.outcome == Duplicate)
            <==> n.requirements == [] && exists u :: PlainTwin(t.links, n.head, u)
  {
    CandidatesHaveNoRequirements(t, n);
    if Candidates(t.links, n) != {} {
      CandidateIsTwin(t, n);
    } else if u :| PlainTwin(t.links, n.head, u) && n.requirements == [] {
      TwinIsCandidate(t, n, u);
    }
    hide Candidates, UrlTaken, RecordTaken, CreatedRow, UpsertProvider, PlainTwin;
  }

  /**
    A record whose scholarship is already linked under another URL, told from it only by that URL:
    it is reported exactly when it has no requirements, and is otherwise created a second time unless
    the schema refuses it.
   */
  lemma RepublishedIsReportedExactlyWithoutRequirements(t: Content, run: nat, raw: RawKey, n: Normalized, u: string)
    requires LinksInRange(t) && PrintsCarryUrl(t) && n.FromNormalizer() && n.url !in t.links
    requires u in t.links && t.links[u].active
    requires t.links[u].fingerprint == Fingerprint(n.head, Moved(n.requirements, u))
    ensures var r := Apply(t, run, raw, n, false);
            && (r.Applied? && r.outcome == Duplicate <==> n.requirements == [])
            && (n.requirements != [] ==>
                  && (r.Raised? <==> || !CreationFits(n)
                                     || UrlTaken(t.rows, n.fields[SourceUrl], -1)
                                     || RecordTaken(t.links, n.source, n.recordId))
                  && (r.Applied? ==> r.outcome == Created && r.content.rows == t.rows + [CreatedRow(n)]))
  {
    NewShape(t, run, raw, n);
    CandidatesHaveNoRequirements(t, n);
    if n.requirements == [] { TwinIsCandidate(t, n, u); }
    hide Candidates, UrlTaken, RecordTaken, CreatedRow, UpsertProvider, Apply, CreationFits;
  }

  lemma RepublishedIs(n: Normalized, url: string, recordId: string)
    requires n.FromNormalizer()
    ensures var m := Republished(n, url, recordId);
            && m.FromNormalizer() && m.fields[SourceUrl] == Text(url)
            && m.Print() == Fingerprint(n.head, Moved(n.requirements, url))
            && (url != n.url && n.requirements != [] ==> m.Print() != n.Print())
            && CreationFits(m) == CreationFits(n)
  {
    var m := Republished(n, url, recordId);
    if n.requirements != [] {
      assert m.requirements[0].evidence.sourceUrl == Some(url);
      assert n.requirements[0].evidence.sourceUrl == Some(n.url);
    }
  }

  /**
    From the empty catalogue, one scholarship delivered under two URLs: if its values can be stored
    at all, without requirements the second is reported, and with at least one the catalogue ends up
    with two scholarships.
   */
  lemma OneScholarshipUnderTwoUrls(run: nat, a: Record, b: Record)
    requires a.raw.RawOk? && b.raw.RawOk? && a.norm.NormOk? && a.norm.n.FromNormalizer()
    requires b.norm.NormOk? && b.norm.n == Republished(a.norm.n, b.norm.n.url, b.norm.n.recordId)
    requires b.norm.n.url != a.norm.n.url && b.norm.n.recordId != a.norm.n.recordId
    ensures var r := Pass(run, false, World(NOTHING, NO_TALLY), [a, b]);
            && (r.Some? <==> CreationFits(a.norm.n))
            && (r.Some? ==>
                  if a.norm.n.requirements == [] then
                    r.value.tally == Tally(1, 0, 0, 1, 0) && r.value.content.rows == [CreatedRow(a.norm.n)]
                  else
                    r.value.tally == Tally(2, 0, 0, 0, 0)
                    && r.value.content.rows == [CreatedRow(a.norm.n), CreatedRow(b.norm.n)])
  {
    hide Apply, Pass, CreatedRow, Unclaimed, UpsertProvider, Republished, CreationFits;
    var n, m := a.norm.n, b.norm.n;
    RepublishedIs(n, m.url, m.recordId);
    if !CreationFits(n) {
      FirstDoesNotFit(run, a, b);
    } else if n.requirements != [] {
      BothCreated(run, a, b);
    } else {
      SecondReported(run, a, b);
    }
  }

  lemma FirstDoesNotFit(run: nat, a: Record, b: Record)
    requires a.raw.RawOk? && a.norm.NormOk? && !CreationFits(a.norm.n)
    ensures Pass(run, false, World(NOTHING, NO_TALLY), [a, b]).None?
  {
    hide Apply, Pass, CreatedRow, UpsertProvider, UrlTaken, RecordTaken, CreationFits;
    PassOfTwo(run, World(NOTHING, NO_TALLY), a, b);
    NewShape(NOTHING, run, KeyOf(run, a), a.norm.n);
  }

  lemma SecondReported(run: nat, a: Record, b: Record)
    requires a.raw.RawOk? && b.raw.RawOk? && a.norm.NormOk? && b.norm.NormOk?
    requires a.norm.n.url != b.norm.n.url && a.norm.n.Print() == b.norm.n.Print() && CreationFits(a.norm.n)
    ensures var r := Pass(run, false, World(NOTHING, NO_TALLY), [a, b]);
            && r.Some? && r.value.tally == Tally(1, 0, 0, 1, 0) && r.value.content.rows == [CreatedRow(a.norm.n)]
  {
    hide Apply, Pass, CreatedRow, Unclaimed, UpsertProvider, Candidates, UrlTaken, RecordTaken, CreationFits;
    var n, m := a.norm.n, b.norm.n;
    var w := World(NOTHING, NO_TALLY);
    PassOfTwo(run, w, a, b);
    FirstIsUnclaimed(n);
    UnclaimedIsCreated(NOTHING, run, KeyOf(run, a), n);
    var u := PassOne(run, false, w, a).value;
    TwinIsCandidate(u.content, m, n.url);
    NewShape(u.content, run, KeyOf(run, b), m);
  }
}
