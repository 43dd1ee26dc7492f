/** What the tables hold after a record has been applied, told by the record's own fields. */
module AppliedRecords {
  import opened Prelude
  import opened Rules
  import opened Catalogue
  import opened CatalogueTheorems

  /** A column holds what the record says; amounts are held to the nearest cent. */
  predicate Holds(stored: Value, given: Value) {
    if given.Number? then stored.Number? && -0.005 < stored.n - given.n <= 0.005 else stored == given
  }

  ghost predicate RowFollows(row: Scholarship, n: Normalized) {
    && row.provider == n.provider && row.requirements == n.requirements
    && forall c: Column :: if c == Amount then Holds(row.fields[c], n.fields[c]) else row.fields[c] == n.fields[c]
  }

  /** The link under the record's URL names this record and what it said. */
  predicate LinkFollows(link: Link, raw: RawKey, n: Normalized) {
    link.active && link.raw == raw && link.fingerprint.head == n.head && link.fingerprint.requirements == n.requirements
  }

  /** The record's provider has the record's website if it brought one, and any it had before otherwise. */
  ghost predicate ProvidersFollow(before: map<string, Option<string>>, after: map<string, Option<string>>, n: Normalized) {
    && n.provider in after
    && (n.website.Some? ==> after[n.provider] == n.website)
    && (n.website.None? && n.provider in before ==> after[n.provider] == before[n.provider])
    && (n.website.None? && n.provider !in before ==> after[n.provider] == None)
    && forall p | p != n.provider :: (p in after <==> p in before) && (p in before ==> after[p] == before[p])
  }

  ghost predicate OtherLinksStay(before: map<string, Link>, after: map<string, Link>, url: string) {
    forall u | u != url :: (u in after <==> u in before) && (u in before ==> after[u] == before[u])
  }

  ghost predicate OtherRowsStay(before: seq<Scholarship>, after: seq<Scholarship>, id: nat) {
    |before| <= |after| && forall i | 0 <= i < |before| && i != id :: after[i] == before[i]
  }

  /** Scholarships known under another URL by the same fingerprint, while that link is active. */
  ghost predicate IsTwin(t: Content, n: Normalized, id: nat) {
    exists u | u in t.links ::
      && u != n.url && t.links[u].active && t.links[u].scholarship == id
      && t.links[u].fingerprint.head == n.head && t.links[u].fingerprint.requirements == n.requirements
  }

  /******* What is stored of a value *******/

  predicate IsCents(r: real, k: int) { r == k as real / 100.0 }

  lemma CentsAreNearest(r: real)
    ensures -0.005 < Cents(r) - r <= 0.005
    ensures exists k: int :: IsCents(Cents(r), k)
  {
    var k := (r * 100.0 + 0.5).Floor;
    assert IsCents(Cents(r), k);
    assert -0.5 < k as real - r * 100.0 <= 0.5;
  }

  lemma StoredHolds(c: Column, v: Value)
    ensures if c == Amount then Holds(Stored(c, v), v) else Stored(c, v) == v
  {
    if v.Number? { CentsAreNearest(v.n); }
    hide Cents;
  }

  lemma CreatedFollows(n: Normalized)
    ensures RowFollows(CreatedRow(n), n)
  {
    hide Stored, Holds;
    forall c: Column
      ensures if c == Amount then Holds(CreatedRow(n).fields[c], n.fields[c]) else CreatedRow(n).fields[c] == n.fields[c]
    {
      StoredHolds(c, n.fields[c]);
    }
  }

  lemma UpdatedFollows(row: Scholarship, n: Normalized)
    ensures RowFollows(UpdatedRow(row, n), n)
  {
    var now := UpdatedRow(row, n);
    forall c: Column
      ensures if c == Amount then Holds(now.fields[c], n.fields[c]) else now.fields[c] == n.fields[c]
    {
      OverwrittenColumn(row.fields, n.fields, c);
      StoredHolds(c, n.fields[c]);
      hide Stored, UpdatedRow, ChangedColumns, Overwrite;
      assert now.fields == Overwrite(row.fields, n.fields, ChangedColumns(row.fields, n.fields)) by { UpdatedFields(row, n); }
    }
  }

  lemma UpdatedFields(row: Scholarship, n: Normalized)
    ensures UpdatedRow(row, n).fields == Overwrite(row.fields, n.fields, ChangedColumns(row.fields, n.fields))
  {
    hide Overwrite, ChangedColumns;
  }

  lemma UpsertFollows(providers: map<string, Option<string>>, n: Normalized)
    ensures ProvidersFollow(providers, UpsertProvider(providers, n.provider, n.website), n)
  {
  }

  lemma CandidatesAreTwins(t: Content, n: Normalized, id: nat)
    ensures id in Candidates(t.links, n) <==> IsTwin(t, n, id)
  {
    assert n.Print().head == n.head && n.Print().requirements == n.requirements;
    if u :| u in t.links && u != n.url && t.links[u].active && t.links[u].scholarship == id
            && t.links[u].fingerprint.head == n.head && t.links[u].fingerprint.requirements == n.requirements {
      assert t.links[u].fingerprint == n.Print();
    }
  }

  /******* What applying a record does *******/

  /** A row of its own: published and verified at once from a trusted source, an unverified draft otherwise. */
  ghost predicate IsCreated(t: Content, after: Content, raw: RawKey, n: Normalized) {
    var id := |t.rows|;
    && n.url !in t.links && |after.rows| == id + 1 && OtherRowsStay(t.rows, after.rows, id)
    && RowFollows(after.rows[id], n) && after.rows[id].version == 1
    && after.rows[id].status == (if n.trusted then Published else Draft) && after.rows[id].verified == n.trusted
    && n.url in after.links && OtherLinksStay(t.links, after.links, n.url)
    && LinkFollows(after.links[n.url], raw, n) && after.links[n.url].scholarship == id
    && after.links[n.url].source == n.source && after.links[n.url].recordId == n.recordId
    && after.links[n.url].trusted == n.trusted
    && ProvidersFollow(t.providers, after.providers, n)
    && after.history == t.history && after.quarantine == t.quarantine
    && (forall i :: !IsTwin(t, n, i))
  }

  /** The link's row follows the record at the next version; only a trusted source leaves its review alone. */
  ghost predicate IsUpdated(t: Content, after: Content, raw: RawKey, n: Normalized)
    requires n.url in t.links && t.links[n.url].scholarship < |t.rows|
  {
    var link := t.links[n.url];
    var id := link.scholarship;
    var was := t.rows[id];
    && |after.rows| == |t.rows| && OtherRowsStay(t.rows, after.rows, id)
    && RowFollows(after.rows[id], n) && after.rows[id].version == was.version + 1
    && (if n.trusted then after.rows[id].status == was.status && after.rows[id].verified == was.verified
        else after.rows[id].status == InReview && !after.rows[id].verified)
    && LinkRefreshed(t, after, raw, n)
    && (ProvidersFollow(t.providers, after.providers, n) || after.providers == t.providers)
    && (was.provider != n.provider ==> ProvidersFollow(t.providers, after.providers, n))
    && after.quarantine == t.quarantine && |after.history| > |t.history| && t.history <= after.history
  }

  /** The link under the URL is active and names the latest record; what it was made for stays. */
  ghost predicate LinkRefreshed(t: Content, after: Content, raw: RawKey, n: Normalized)
    requires n.url in t.links
  {
    && n.url in after.links && OtherLinksStay(t.links, after.links, n.url)
    && LinkFollows(after.links[n.url], raw, n) && after.links[n.url].scholarship == t.links[n.url].scholarship
    && after.links[n.url].source == t.links[n.url].source && after.links[n.url].recordId == t.links[n.url].recordId
    && after.links[n.url].trusted == t.links[n.url].trusted
  }

  /** The row says all the record says already, to the letter. */
  ghost predicate IsUnchanged(t: Content, after: Content, raw: RawKey, n: Normalized)
    requires n.url in t.links && t.links[n.url].scholarship < |t.rows|
  {
    var row := t.rows[t.links[n.url].scholarship];
    && row.provider == n.provider && row.requirements == n.requirements
    && (forall c: Column :: row.fields[c] == n.fields[c])
    && LinkRefreshed(t, after, raw, n)
    && after.rows == t.rows && after.providers == t.providers && after.history == t.history && after.quarantine == t.quarantine
  }

  /** Only a report with the scholarships that look the same. */
  ghost predicate IsReported(t: Content, after: Content, run: nat, raw: RawKey, n: Normalized) {
    && n.url !in t.links
    && after == t.(quarantine := after.quarantine) && |after.quarantine| == |t.quarantine| + 1
    && t.quarantine <= after.quarantine
    && var report := after.quarantine[|t.quarantine|];
       && report.run == run && report.raw == Some(raw) && report.code == "AMBIGUOUS_DUPLICATE"
       && report.candidates != {} && (forall i: nat :: i in report.candidates <==> IsTwin(t, n, i))
  }

  lemma CreationIsStored(t: Content, run: nat, raw: RawKey, n: Normalized)
    requires LinksInRange(t) && Apply(t, run, raw, n, false).Applied? && Apply(t, run, raw, n, false).outcome == Created
    ensures IsCreated(t, Apply(t, run, raw, n, false).content, raw, n)
  {
    hide CreatedRow, UpsertProvider, Candidates, UrlTaken, RecordTaken, RowFollows, ProvidersFollow, IsTwin, Differs,
         UpdatedRow, UpdateHistory, Refreshed, HistoryRefused, UpdateFits, CreationFits;
    CreatedFollows(n);
    UpsertFollows(t.providers, n);
    forall i ensures !IsTwin(t, n, i) { CandidatesAreTwins(t, n, i); }
    CreatedStands(n);
  }

  lemma CreatedStands(n: Normalized)
    ensures CreatedRow(n).version == 1 && CreatedRow(n).verified == n.trusted
    ensures CreatedRow(n).status == if n.trusted then Published else Draft
  {
    hide StoredFields;
  }

  lemma UpdatedStands(row: Scholarship, n: Normalized)
    ensures var now := UpdatedRow(row, n);
            && now.version == row.version + 1
            && (if n.trusted then now.status == row.status && now.verified == row.verified
                else now.status == InReview && !now.verified)
  {
    hide Overwrite, ChangedColumns;
  }

  lemma ChangeIsRecorded(id: nat, raw: RawKey, row: Scholarship, providers: map<string, Option<string>>, n: Normalized)
    requires Differs(row, providers, n)
    ensures |UpdateHistory(id, raw, row, providers, n)| > 0
  {
    hide ChangedColumns, ProviderChanged;
  }

  lemma UpdateIsStored(t: Content, run: nat, raw: RawKey, n: Normalized)
    requires LinksInRange(t) && Apply(t, run, raw, n, false).Applied? && Apply(t, run, raw, n, false).outcome == Updated
    ensures n.url in t.links && IsUpdated(t, Apply(t, run, raw, n, false).content, raw, n)
  {
    hide CreatedRow, UpsertProvider, Candidates, UrlTaken, RecordTaken, RowFollows, ProvidersFollow, IsTwin, Differs,
         UpdatedRow, UpdateHistory, HistoryRefused, UpdateFits, CreationFits;
    var id := t.links[n.url].scholarship;
    UpdatedFollows(t.rows[id], n);
    UpdatedStands(t.rows[id], n);
    UpsertFollows(t.providers, n);
    ChangeIsRecorded(id, raw, t.rows[id], t.providers, n);
  }

  lemma SameIsKept(t: Content, run: nat, raw: RawKey, n: Normalized)
    requires LinksInRange(t) && Apply(t, run, raw, n, false).Applied? && Apply(t, run, raw, n, false).outcome == Unchanged
    ensures n.url in t.links && IsUnchanged(t, Apply(t, run, raw, n, false).content, raw, n)
  {
    hide CreatedRow, UpsertProvider, Candidates, UrlTaken, RecordTaken, Differs, UpdatedRow, UpdateHistory,
         HistoryRefused, UpdateFits, CreationFits;
    SettledRow(t.rows[t.links[n.url].scholarship], t.providers, n);
  }

  lemma TwinIsReported(t: Content, run: nat, raw: RawKey, n: Normalized, dry: bool)
    requires LinksInRange(t) && Apply(t, run, raw, n, dry).Applied? && Apply(t, run, raw, n, dry).outcome == Duplicate
    ensures IsReported(t, Apply(t, run, raw, n, dry).content, run, raw, n)
  {
    hide CreatedRow, UpsertProvider, Candidates, UrlTaken, RecordTaken, IsTwin, Differs, UpdatedRow, UpdateHistory,
         Refreshed, HistoryRefused, UpdateFits, CreationFits;
    forall i: nat ensures i in Candidates(t.links, n) <==> IsTwin(t, n, i) { CandidatesAreTwins(t, n, i); }
  }

  /** What a record that is not refused leaves in the tables, by the outcome it is told. */
  lemma OutcomeTellsTables(t: Content, run: nat, raw: RawKey, n: Normalized)
    requires LinksInRange(t) && Apply(t, run, raw, n, false).Applied?
    ensures var r := Apply(t, run, raw, n, false);
            && (r.outcome == Created ==> IsCreated(t, r.content, raw, n))
            && (r.outcome == Updated ==> n.url in t.links && IsUpdated(t, r.content, raw, n))
            && (r.outcome == Unchanged ==> n.url in t.links && IsUnchanged(t, r.content, raw, n))
            && (r.outcome == Duplicate ==> IsReported(t, r.content, run, raw, n))
  {
    var r := Apply(t, run, raw, n, false);
    hide Apply, IsCreated, IsUpdated, IsUnchanged, IsReported;
    match r.outcome
    case Created => CreationIsStored(t, run, raw, n);
    case Updated => UpdateIsStored(t, run, raw, n);
    case Unchanged => SameIsKept(t, run, raw, n);
    case Duplicate => TwinIsReported(t, run, raw, n, false);
  }
}
