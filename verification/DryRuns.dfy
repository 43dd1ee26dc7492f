/** When a dry run says what the real run will do. */
module DryRuns {
  import opened Prelude
  import opened Rules
  import opened Catalogue
  import opened CatalogueTheorems
  import opened IngestionRuns
  import opened IngestionTheorems
  import opened Reingestion

  /******* One record *******/

  /**
    An update that a constraint stops: a provider changing to itself, a changed amount or provider
    name too large for its column, or a URL another row has.
   */
  predicate RefusedUpdate(t: Content, n: Normalized)
    requires n.url in t.links && t.links[n.url].scholarship < |t.rows|
  {
    var id := t.links[n.url].scholarship;
    || HistoryRefused(t.rows[id], t.providers, n)
    || !UpdateFits(t.rows[id], t.providers, n)
    || (Differs(t.rows[id], t.providers, n) && UrlTaken(t.rows, n.fields[SourceUrl], id))
  }

  /**
    A new scholarship that a constraint stops: its amount or provider name is too large, or its URL
    or its id at the source is in use.
   */
  predicate RefusedCreation(t: Content, n: Normalized) {
    && Candidates(t.links, n) == {}
    && (|| !CreationFits(n)
        || UrlTaken(t.rows, n.fields[SourceUrl], -1)
        || RecordTaken(t.links, n.source, n.recordId))
  }

  predicate Refused(t: Content, n: Normalized)
    requires LinksInRange(t)
  {
    if n.url in t.links then RefusedUpdate(t, n) else RefusedCreation(t, n)
  }

  /** A dry run of one record is told the real outcome exactly when no constraint stops the record. */
  lemma DryAgreesExactlyWhenNotRefused(t: Content, run: nat, raw: RawKey, n: Normalized)
    requires LinksInRange(t)
    ensures var dry, actual := Apply(t, run, raw, n, true), Apply(t, run, raw, n, false);
            && dry.Applied?
            && (actual.Applied? && actual.outcome == dry.outcome <==> !Refused(t, n))
            && (actual.Raised? <==> Refused(t, n))
  {
    DryShape(t, run, raw, n);
    if n.url in t.links {
      ExistingShape(t, run, raw, n);
      RefusalIsDifference(t.rows[t.links[n.url].scholarship], t.providers, n);
    } else {
      NewShape(t, run, raw, n);
    }
    hide Apply, Differs, HistoryRefused, UrlTaken, RecordTaken, Candidates, UpdatedRow, CreatedRow, UpsertProvider,
         ProviderChanged, UpdateFits, CreationFits;
  }

  lemma RefusalIsDifference(row: Scholarship, providers: map<string, Option<string>>, n: Normalized)
    ensures HistoryRefused(row, providers, n) || !UpdateFits(row, providers, n) ==> Differs(row, providers, n)
  {
    SettledRow(row, providers, n);
    hide ChangedColumns, ProviderChanged, Differs, AmountFits, NameFits;
    assert HistoryRefused(row, providers, n) ==> ProviderChanged(row, providers, n);
  }

  function Priced(url: string, provider: string, amount: real): Normalized {
    var n := Bare(url, provider, url);
    n.(fields := n.fields[Amount := Number(amount)][Currency := Text("USD")])
  }

  /** Rounded to cents it has more than twelve digits before the point. */
  predicate TooLarge(v: Value) { v.Number? && v.n >= 999999999999.995 }

  predicate TooLong(name: string) { |name| > 300 }

  lemma CentsReach(amount: real)
    ensures Cents(amount) >= AMOUNT_LIMIT <==> amount >= 999999999999.995
  {
    var cents := (amount * 100.0 + 0.5).Floor;
    assert cents >= 100000000000000 <==> amount * 100.0 + 0.5 >= 100000000000000.0;
  }

  /**
    The first record of an empty catalogue is announced as created by a dry run, whatever its amount
    and its provider. A real run stops on it exactly when the amount or the name is too large.
   */
  lemma FirstRecordIsStoredExactly(run: nat, raw: RawKey, url: string, provider: string, amount: real)
    ensures var n := Priced(url, provider, amount);
            && n.FromNormalizer()
            && Apply(NOTHING, run, raw, n, true).Applied? && Apply(NOTHING, run, raw, n, true).outcome == Created
            && (Apply(NOTHING, run, raw, n, false) == Raised <==> TooLarge(Number(amount)) || TooLong(provider))
  {
    hide Apply, UrlTaken, RecordTaken, Bare, Cents;
    var n := Priced(url, provider, amount);
    BareIs(url, provider, url);
    CentsReach(amount);
    NothingIsTaken(n);
    DryShape(NOTHING, run, raw, n);
    DryAgreesExactlyWhenNotRefused(NOTHING, run, raw, n);
  }

  lemma NothingIsTaken(n: Normalized)
    ensures Candidates(NOTHING.links, n) == {} && !UrlTaken(NOTHING.rows, n.fields[SourceUrl], -1)
    ensures !RecordTaken(NOTHING.links, n.source, n.recordId) && n.url !in NOTHING.links
  {
  }

  /** Which updates a constraint stops, on the columns of the row that is stored. */
  lemma UpdateIsStoppedExactly(t: Content, n: Normalized)
    requires n.url in t.links && t.links[n.url].scholarship < |t.rows|
    ensures var id := t.links[n.url].scholarship;
            var row := t.rows[id];
            var site := if row.provider in t.providers then t.providers[row.provider] else None;
            var newSite := n.website.Some? && n.website != site;
            RefusedUpdate(t, n) <==>
            || (row.provider == n.provider && newSite)
            || (row.provider != n.provider && TooLong(n.provider))
            || (newSite && TooLong(n.provider))
            || (row.fields[Amount] != n.fields[Amount] && TooLarge(n.fields[Amount]))
            || (&& (exists i | 0 <= i < |t.rows| :: i != id && t.rows[i].fields[SourceUrl] == n.fields[SourceUrl])
                && (row.provider != n.provider || newSite || row.requirements != n.requirements
                    || exists c: Column :: row.fields[c] != n.fields[c]))
  {
    var row := t.rows[t.links[n.url].scholarship];
    SettledRow(row, t.providers, n);
    if n.fields[Amount].Number? { CentsReach(n.fields[Amount].n); }
    hide Differs, Cents;
  }

  /** The best known such record: it brings a website its provider does not have yet. */
  lemma NewWebsiteIsNeverStored(t: Content, run: nat, raw: RawKey, n: Normalized)
    requires LinksInRange(t) && n.url in t.links
    requires t.rows[t.links[n.url].scholarship].provider == n.provider && !WebsiteStored(t.providers, n)
    ensures Apply(t, run, raw, n, true).Applied? && Apply(t, run, raw, n, true).outcome == Updated
    ensures Apply(t, run, raw, n, false) == Raised
  {
    hide Apply, Differs, UrlTaken;
    RefusalIsDifference(t.rows[t.links[n.url].scholarship], t.providers, n);
    DryShape(t, run, raw, n);
    DryAgreesExactlyWhenNotRefused(t, run, raw, n);
  }

  /******* What one record decides for another *******/

  /** A linked scholarship has its link's URL: ingestion writes both, and no edit changes the column. */
  ghost predicate OwnUrls(t: Content)
    requires LinksInRange(t)
  {
    forall u | u in t.links :: t.rows[t.links[u].scholarship].fields[SourceUrl] == Text(u)
  }

  predicate Twinned(links: map<string, Link>, n: Normalized) {
    exists u :: u in links && u != n.url && links[u].active && links[u].fingerprint == n.Print()
  }

  lemma TwinnedIsCandidates(links: map<string, Link>, n: Normalized)
    ensures Twinned(links, n) <==> Candidates(links, n) != {}
  {
    if Candidates(links, n) != {} {
      var id :| id in Candidates(links, n);
    }
    if u :| u in links && u != n.url && links[u].active && links[u].fingerprint == n.Print() {
      assert links[u].scholarship in Candidates(links, n);
    }
  }

  /**
    Read off the tables before the pass: applying `m` first does not touch what decides about `n`.
    They have different URLs and source ids; `m` brings no new website for the provider of the row
    of `n`; and, if `n` is new, `m` neither takes up nor gives up its fingerprint.
   */
  predicate LeavesAlone(t: Content, m: Normalized, n: Normalized)
    requires n.url in t.links ==> t.links[n.url].scholarship < |t.rows|
  {
    && m.url != n.url && (m.source != n.source || m.recordId != n.recordId)
    && (if n.url in t.links then
          t.rows[t.links[n.url].scholarship].provider == m.provider ==> WebsiteStored(t.providers, m)
        else
          (m.Print() == n.Print()
           <==> m.url in t.links && t.links[m.url].active && t.links[m.url].fingerprint == n.Print()))
  }

  /** Tables that decide about the record in the same way. */
  ghost predicate DecidesAlike(t: Content, u: Content, n: Normalized)
    requires LinksInRange(t) && LinksInRange(u)
  {
    && (n.url in t.links <==> n.url in u.links)
    && if n.url in t.links then
         var id := t.links[n.url].scholarship;
         && u.links[n.url] == t.links[n.url] && u.rows[id] == t.rows[id]
         && WebsiteOf(u.providers, t.rows[id].provider) == WebsiteOf(t.providers, t.rows[id].provider)
         && (UrlTaken(u.rows, Text(n.url), id) <==> UrlTaken(t.rows, Text(n.url), id))
       else
         && (Twinned(u.links, n) <==> Twinned(t.links, n))
         && (UrlTaken(u.rows, Text(n.url), -1) <==> UrlTaken(t.rows, Text(n.url), -1))
         && (RecordTaken(u.links, n.source, n.recordId) <==> RecordTaken(t.links, n.source, n.recordId))
  }

  lemma AlikeRefused(t: Content, u: Content, n: Normalized)
    requires LinksInRange(t) && LinksInRange(u) && DecidesAlike(t, u, n) && n.fields[SourceUrl] == Text(n.url)
    ensures Refused(t, n) <==> Refused(u, n)
    ensures n.url in t.links ==>
              (Differs(t.rows[t.links[n.url].scholarship], t.providers, n)
               <==> Differs(u.rows[u.links[n.url].scholarship], u.providers, n))
    ensures n.url !in t.links ==> (Candidates(t.links, n) == {} <==> Candidates(u.links, n) == {})
  {
    TwinnedIsCandidates(t.links, n);
    TwinnedIsCandidates(u.links, n);
    hide Twinned, Candidates, UrlTaken, RecordTaken, ChangedColumns;
  }

  /** A website that is stored already is not changed by storing it again. */
  lemma UpsertKeepsWebsite(providers: map<string, Option<string>>, m: Normalized, name: string)
    requires name == m.provider ==> WebsiteStored(providers, m)
    ensures WebsiteOf(UpsertProvider(providers, m.provider, m.website), name) == WebsiteOf(providers, name)
  {
  }

  lemma OtherUrlStillTaken(rows: seq<Scholarship>, id: nat, row: Scholarship, url: Value, except: int)
    requires id < |rows| && rows[id].fields[SourceUrl] != url && row.fields[SourceUrl] != url
    ensures UrlTaken(rows[id := row], url, except) <==> UrlTaken(rows, url, except)
  {
    var after := rows[id := row];
    if i :| 0 <= i < |rows| && i != except && rows[i].fields[SourceUrl] == url {
      assert after[i].fields[SourceUrl] == url;
    }
    if i :| 0 <= i < |after| && i != except && after[i].fields[SourceUrl] == url {
      assert rows[i].fields[SourceUrl] == url;
    }
  }

  lemma AppendedUrlStillTaken(rows: seq<Scholarship>, row: Scholarship, url: Value, except: int)
    requires row.fields[SourceUrl] != url
    ensures UrlTaken(rows + [row], url, except) <==> UrlTaken(rows, url, except)
  {
    var after := rows + [row];
    if i :| 0 <= i < |rows| && i != except && rows[i].fields[SourceUrl] == url {
      assert after[i].fields[SourceUrl] == url;
    }
    if i :| 0 <= i < |after| && i != except && after[i].fields[SourceUrl] == url {
      assert rows[i].fields[SourceUrl] == url;
    }
  }

  lemma OneLinkTwinned(links: map<string, Link>, url: string, link: Link, n: Normalized)
    requires url != n.url && link.active
    requires link.fingerprint == n.Print()
             <==> url in links && links[url].active && links[url].fingerprint == n.Print()
    ensures Twinned(links[url := link], n) <==> Twinned(links, n)
  {
    var after := links[url := link];
    if u :| u in links && u != n.url && links[u].active && links[u].fingerprint == n.Print() {
      assert u in after && after[u].active && after[u].fingerprint == n.Print();
    }
    if u :| u in after && u != n.url && after[u].active && after[u].fingerprint == n.Print() {
      assert u in links && links[u].active && links[u].fingerprint == n.Print();
    }
  }

  lemma OneLinkRecords(links: map<string, Link>, url: string, link: Link, source: string, recordId: string)
    requires if url in links then link.source == links[url].source && link.recordId == links[url].recordId
             else link.source != source || link.recordId != recordId
    ensures RecordTaken(links[url := link], source, recordId) <==> RecordTaken(links, source, recordId)
  {
    var after := links[url := link];
    if u :| u in links && links[u].source == source && links[u].recordId == recordId {
      assert u in after && after[u].source == source && after[u].recordId == recordId;
    }
    if u :| u in after && after[u].source == source && after[u].recordId == recordId {
      assert u in links && links[u].source == source && links[u].recordId == recordId;
    }
  }

  lemma UpdatedUrl(row: Scholarship, n: Normalized)
    ensures UpdatedRow(row, n).fields[SourceUrl] == n.fields[SourceUrl]
  {
    OverwrittenColumn(row.fields, n.fields, SourceUrl);
    hide Overwrite, ChangedColumns;
  }

  /** The tables after an update of one row, as far as they decide about other records. */
  ghost predicate UpdateShape(u: Content, v: Content, m: Normalized)
    requires LinksInRange(u)
  {
    && m.url in u.links
    && var id := u.links[m.url].scholarship;
    && |v.rows| == |u.rows| && v.rows == u.rows[id := v.rows[id]]
    && v.rows[id].fields[SourceUrl] == Text(m.url)
    && m.url in v.links && v.links == u.links[m.url := v.links[m.url]]
    && v.links[m.url].active && v.links[m.url].fingerprint == m.Print()
    && v.links[m.url].scholarship == id
    && v.links[m.url].source == u.links[m.url].source && v.links[m.url].recordId == u.links[m.url].recordId
    && (v.providers == u.providers || v.providers == UpsertProvider(u.providers, m.provider, m.website))
  }

  ghost predicate CreationShape(u: Content, v: Content, m: Normalized) {
    && m.url !in u.links && |v.rows| == |u.rows| + 1 && v.rows == u.rows + [v.rows[|u.rows|]]
    && v.rows[|u.rows|].fields[SourceUrl] == Text(m.url)
    && m.url in v.links && v.links == u.links[m.url := v.links[m.url]]
    && v.links[m.url].active && v.links[m.url].fingerprint == m.Print()
    && v.links[m.url].scholarship == |u.rows|
    && v.links[m.url].source == m.source && v.links[m.url].recordId == m.recordId
    && v.providers == UpsertProvider(u.providers, m.provider, m.website)
  }

  ghost predicate SameTables(u: Content, v: Content) {
    v.rows == u.rows && v.links == u.links && v.providers == u.providers
  }

  lemma ApplyShape(u: Content, run: nat, raw: RawKey, m: Normalized)
    requires LinksInRange(u) && OwnUrls(u) && m.fields[SourceUrl] == Text(m.url)
    requires Apply(u, run, raw, m, false).Applied?
    ensures var v := Apply(u, run, raw, m, false).content;
            || UpdateShape(u, v, m) || CreationShape(u, v, m) || (m.url !in u.links && SameTables(u, v))
  {
    hide Apply, Differs, HistoryRefused, UpdateFits, CreationFits, UrlTaken, RecordTaken, Candidates, UpdatedRow,
         CreatedRow, UpsertProvider, ProviderChanged;
    var v := Apply(u, run, raw, m, false).content;
    if m.url in u.links {
      ExistingShape(u, run, raw, m);
      UpdatedUrl(u.rows[u.links[m.url].scholarship], m);
    } else {
      NewShape(u, run, raw, m);
      CreatedRowIs(m);
    }
  }

  lemma UpdateLeavesAlone(t: Content, u: Content, v: Content, m: Normalized, n: Normalized)
    requires LinksInRange(t) && LinksInRange(u) && LinksInRange(v) && OwnUrls(u) && UpdateShape(u, v, m)
    requires DecidesAlike(t, u, m) && DecidesAlike(t, u, n) && LeavesAlone(t, m, n)
    ensures DecidesAlike(t, v, n)
  {
    hide UrlTaken, RecordTaken, Twinned, UpsertProvider, WebsiteOf, WebsiteStored;
    var id := u.links[m.url].scholarship;
    var except := if n.url in t.links then t.links[n.url].scholarship else -1;
    assert u.rows[id].fields[SourceUrl] == Text(m.url);
    OtherUrlStillTaken(u.rows, id, v.rows[id], Text(n.url), except);
    if n.url in t.links {
      assert u.rows[except].fields[SourceUrl] == Text(n.url);
      WebsiteStaysAlike(t, u, v, m, t.rows[except].provider);
    } else {
      OneLinkTwinned(u.links, m.url, v.links[m.url], n);
      OneLinkRecords(u.links, m.url, v.links[m.url], n.source, n.recordId);
    }
  }

  lemma WebsiteStaysAlike(t: Content, u: Content, v: Content, m: Normalized, name: string)
    requires WebsiteOf(u.providers, name) == WebsiteOf(t.providers, name)
    requires name == m.provider ==> WebsiteStored(t.providers, m)
    requires v.providers == u.providers || v.providers == UpsertProvider(u.providers, m.provider, m.website)
    ensures WebsiteOf(v.providers, name) == WebsiteOf(t.providers, name)
  {
    UpsertKeepsWebsite(u.providers, m, name);
  }

  lemma CreationLeavesAlone(t: Content, u: Content, v: Content, m: Normalized, n: Normalized)
    requires LinksInRange(t) && LinksInRange(u) && LinksInRange(v) && OwnUrls(u) && CreationShape(u, v, m)
    requires DecidesAlike(t, u, m) && DecidesAlike(t, u, n) && LeavesAlone(t, m, n)
    ensures DecidesAlike(t, v, n)
  {
    hide UrlTaken, RecordTaken, Twinned, UpsertProvider, WebsiteOf, WebsiteStored;
    var except := if n.url in t.links then t.links[n.url].scholarship else -1;
    AppendedUrlStillTaken(u.rows, v.rows[|u.rows|], Text(n.url), except);
    if n.url in t.links {
      WebsiteStaysAlike(t, u, v, m, t.rows[except].provider);
    } else {
      OneLinkTwinned(u.links, m.url, v.links[m.url], n);
      OneLinkRecords(u.links, m.url, v.links[m.url], n.source, n.recordId);
    }
  }

  lemma SameTablesAlike(t: Content, u: Content, v: Content, n: Normalized)
    requires LinksInRange(t) && LinksInRange(u) && LinksInRange(v) && SameTables(u, v) && DecidesAlike(t, u, n)
    ensures DecidesAlike(t, v, n)
  {
    hide Twinned, UrlTaken, RecordTaken, WebsiteOf;
  }

  lemma AlikeAfter(t: Content, u: Content, run: nat, raw: RawKey, m: Normalized, n: Normalized)
    requires LinksInRange(t) && LinksInRange(u) && OwnUrls(u) && m.fields[SourceUrl] == Text(m.url)
    requires DecidesAlike(t, u, m) && DecidesAlike(t, u, n) && LeavesAlone(t, m, n)
    requires Apply(u, run, raw, m, false).Applied?
    ensures LinksInRange(Apply(u, run, raw, m, false).content)
    ensures DecidesAlike(t, Apply(u, run, raw, m, false).content, n)
  {
    ApplyKeepsLinksInRange(u, run, raw, m, false);
    ApplyShape(u, run, raw, m);
    hide Apply, UpdateShape, CreationShape, SameTables, OwnUrls, LeavesAlone, DecidesAlike, LinksInRange;
    var v := Apply(u, run, raw, m, false).content;
    if UpdateShape(u, v, m) {
      UpdateLeavesAlone(t, u, v, m, n);
    } else if CreationShape(u, v, m) {
      CreationLeavesAlone(t, u, v, m, n);
    } else {
      SameTablesAlike(t, u, v, n);
    }
  }

  lemma UpdateKeepsOwnUrls(u: Content, v: Content, m: Normalized)
    requires LinksInRange(u) && LinksInRange(v) && OwnUrls(u) && UpdateShape(u, v, m)
    ensures OwnUrls(v)
  {
    hide UpsertProvider;
    forall x | x in v.links ensures v.rows[v.links[x].scholarship].fields[SourceUrl] == Text(x) {
      if x != m.url { assert u.rows[u.links[x].scholarship].fields[SourceUrl] == Text(x); }
    }
  }

  lemma CreationKeepsOwnUrls(u: Content, v: Content, m: Normalized)
    requires LinksInRange(u) && LinksInRange(v) && OwnUrls(u) && CreationShape(u, v, m)
    ensures OwnUrls(v)
  {
    hide UpsertProvider;
    forall x | x in v.links ensures v.rows[v.links[x].scholarship].fields[SourceUrl] == Text(x) {
      if x != m.url { assert u.rows[u.links[x].scholarship].fields[SourceUrl] == Text(x); }
    }
  }

  lemma ApplyKeepsOwnUrls(u: Content, run: nat, raw: RawKey, m: Normalized)
    requires LinksInRange(u) && OwnUrls(u) && m.fields[SourceUrl] == Text(m.url)
    requires Apply(u, run, raw, m, false).Applied?
    ensures LinksInRange(Apply(u, run, raw, m, false).content)
    ensures OwnUrls(Apply(u, run, raw, m, false).content)
  {
    ApplyKeepsLinksInRange(u, run, raw, m, false);
    ApplyShape(u, run, raw, m);
    hide Apply, UpdateShape, CreationShape;
    var v := Apply(u, run, raw, m, false).content;
    if UpdateShape(u, v, m) {
      UpdateKeepsOwnUrls(u, v, m);
    } else if CreationShape(u, v, m) {
      CreationKeepsOwnUrls(u, v, m);
    }
  }

  /******* Whole runs *******/

  predicate Accepted(rec: Record) { rec.raw.RawOk? && rec.norm.NormOk? }

  /** No accepted record touches what decides about a later one. */
  ghost predicate Independent(t: Content, recs: seq<Record>)
    requires LinksInRange(t)
  {
    && (forall i | 0 <= i < |recs| && Accepted(recs[i]) :: recs[i].norm.n.fields[SourceUrl] == Text(recs[i].norm.n.url))
    && (forall i, j | 0 <= i < j < |recs| && Accepted(recs[i]) && Accepted(recs[j]) ::
          LeavesAlone(t, recs[i].norm.n, recs[j].norm.n))
  }

  ghost predicate NoneRefused(t: Content, recs: seq<Record>)
    requires LinksInRange(t)
  {
    forall i | 0 <= i < |recs| && Accepted(recs[i]) :: !Refused(t, recs[i].norm.n)
  }

  /** The tables a real pass has reached decide about the records still to come as the first ones did. */
  ghost predicate OnTrack(t: Content, u: Content, recs: seq<Record>, k: nat)
    requires LinksInRange(t) && LinksInRange(u)
  {
    && OwnUrls(u)
    && (forall j | k <= j < |recs| && Accepted(recs[j]) :: DecidesAlike(t, u, recs[j].norm.n))
  }

  lemma OnTrackAtStart(t: Content, recs: seq<Record>)
    requires LinksInRange(t) && OwnUrls(t)
    ensures OnTrack(t, t, recs, 0)
  {
    hide Twinned, UrlTaken, RecordTaken;
  }

  lemma OnTrackAfter(t: Content, u: Content, recs: seq<Record>, k: nat, run: nat)
    requires LinksInRange(t) && LinksInRange(u) && Independent(t, recs)
    requires k < |recs| && Accepted(recs[k]) && OnTrack(t, u, recs, k)
    requires Apply(u, run, KeyOf(run, recs[k]), recs[k].norm.n, false).Applied?
    ensures var v := Apply(u, run, KeyOf(run, recs[k]), recs[k].norm.n, false).content;
            LinksInRange(v) && OnTrack(t, v, recs, k + 1)
  {
    hide Apply, DecidesAlike, OwnUrls, LeavesAlone;
    var n, raw := recs[k].norm.n, KeyOf(run, recs[k]);
    ApplyKeepsOwnUrls(u, run, raw, n);
    forall j | k + 1 <= j < |recs| && Accepted(recs[j])
      ensures DecidesAlike(t, Apply(u, run, raw, n, false).content, recs[j].norm.n)
    {
      AlikeAfter(t, u, run, raw, n, recs[j].norm.n);
    }
  }

  /** What the dry and the real run do with one record, the real one having come this far. */
  lemma StepAlike(t: Content, d: Content, u: Content, raw: RawKey, raw': RawKey, run: nat, run': nat, n: Normalized)
    requires LinksInRange(t) && LinksInRange(d) && LinksInRange(u)
    requires SameTables(t, d) && DecidesAlike(t, u, n) && n.fields[SourceUrl] == Text(n.url)
    ensures var dry, actual := Apply(d, run, raw, n, true), Apply(u, run', raw', n, false);
            && dry.Applied? && SameTables(t, dry.content)
            && (actual.Applied? <==> !Refused(t, n))
            && (actual.Applied? ==> actual.outcome == dry.outcome)
  {
    hide Apply, Refused, Differs, Candidates, Twinned, UrlTaken, RecordTaken;
    DryShape(d, run, raw, n);
    DryShape(u, run', raw', n);
    DryAgreesExactlyWhenNotRefused(u, run', raw', n);
    AlikeRefused(t, u, n);
  }

  /** A dry pass leaves the tables it decides by. */
  lemma {:induction false} DryPassKeepsTables(run: nat, w: World, recs: seq<Record>)
    requires LinksInRange(w.content) && Pass(run, true, w, recs).Some?
    ensures SameTables(w.content, Pass(run, true, w, recs).value.content)
  {
    hide Apply, LinksInRange;
    if recs != [] {
      DryPassKeepsTables(run, w, recs[..|recs| - 1]);
      var last := recs[|recs| - 1];
      if Accepted(last) {
        DryShape(Pass(run, true, w, recs[..|recs| - 1]).value.content, run, KeyOf(run, last), last.norm.n);
      }
    }
  }

  lemma OnTrackQuarantined(t: Content, u: Content, v: Content, recs: seq<Record>, k: nat)
    requires LinksInRange(t) && LinksInRange(u) && LinksInRange(v) && SameTables(u, v) && OnTrack(t, u, recs, k)
    ensures OnTrack(t, v, recs, k + 1)
  {
    hide Twinned, UrlTaken, RecordTaken;
    forall j | k + 1 <= j < |recs| && Accepted(recs[j]) ensures DecidesAlike(t, v, recs[j].norm.n) {
      SameTablesAlike(t, u, v, recs[j].norm.n);
    }
  }

  lemma {:induction false} PassesAlike(run: nat, run': nat, w: World, recs: seq<Record>, k: nat)
    requires LinksInRange(w.content) && OwnUrls(w.content) && Independent(w.content, recs) && k <= |recs|
    requires Pass(run, true, w, recs[..k]).Some?
    ensures var d, r := Pass(run, true, w, recs[..k]).value, Pass(run', false, w, recs[..k]);
            && (r.Some? <==> NoneRefused(w.content, recs[..k]))
            && (r.Some? ==> r.value.tally == d.tally && OnTrack(w.content, r.value.content, recs, k))
  {
    hide Apply, Independent, OnTrack, Refused, OwnUrls, LinksInRange;
    if k == 0 {
      assert recs[..0] == [];
      OnTrackAtStart(w.content, recs);
    } else {
      PassStep(run, true, w, recs, k - 1);
      PassStep(run', false, w, recs, k - 1);
      PassesAlike(run, run', w, recs, k - 1);
      DryPassKeepsTables(run, w, recs[..k - 1]);
      NoneRefusedStep(w.content, recs, k - 1);
      hide Pass, NoneRefused, SameTables;
      var r := Pass(run', false, w, recs[..k - 1]);
      if r.Some? { NextAlike(run, run', w, recs, k - 1, Pass(run, true, w, recs[..k - 1]).value, r.value); }
    }
  }

  lemma NextAlike(run: nat, run': nat, w: World, recs: seq<Record>, k: nat, d: World, u: World)
    requires LinksInRange(w.content) && Independent(w.content, recs) && k < |recs|
    requires LinksInRange(d.content) && LinksInRange(u.content)
    requires SameTables(w.content, d.content) && OnTrack(w.content, u.content, recs, k)
    requires u.tally == d.tally && PassOne(run, true, d, recs[k]).Some?
    ensures var r := PassOne(run', false, u, recs[k]);
            && (r.Some? <==> (Accepted(recs[k]) ==> !Refused(w.content, recs[k].norm.n)))
            && (r.Some? ==> r.value.tally == PassOne(run, true, d, recs[k]).value.tally
                            && OnTrack(w.content, r.value.content, recs, k + 1))
  {
    hide Apply, Independent, OnTrack, Refused, OwnUrls, LinksInRange;
    if Accepted(recs[k]) {
      var n, raw := recs[k].norm.n, KeyOf(run', recs[k]);
      TrackedNow(w.content, u.content, recs, k);
      StepAlike(w.content, d.content, u.content, KeyOf(run, recs[k]), raw, run, run', n);
      if Apply(u.content, run', raw, n, false).Applied? { OnTrackAfter(w.content, u.content, recs, k, run'); }
    } else {
      OnTrackQuarantined(w.content, u.content, PassOne(run', false, u, recs[k]).value.content, recs, k);
    }
  }

  lemma NoneRefusedStep(t: Content, recs: seq<Record>, k: nat)
    requires LinksInRange(t) && k < |recs|
    ensures NoneRefused(t, recs[..k + 1])
            <==> NoneRefused(t, recs[..k]) && (Accepted(recs[k]) ==> !Refused(t, recs[k].norm.n))
  {
    hide Refused;
    forall i | 0 <= i < k ensures recs[..k + 1][i] == recs[..k][i] == recs[i] {}
    assert recs[..k + 1][k] == recs[k];
  }

  lemma TrackedNow(t: Content, u: Content, recs: seq<Record>, k: nat)
    requires LinksInRange(t) && LinksInRange(u) && k < |recs| && Accepted(recs[k])
    requires OnTrack(t, u, recs, k) && Independent(t, recs)
    ensures DecidesAlike(t, u, recs[k].norm.n) && recs[k].norm.n.fields[SourceUrl] == Text(recs[k].norm.n.url)
  {
    hide DecidesAlike, LeavesAlone;
  }

  /**
    For records that leave each other alone, a dry pass that gets through tells the tally of the
    real pass exactly when no constraint stops any of them; otherwise the real pass fails.
   */
  lemma DryPassPredictsExactlyWhenNoneRefused(run: nat, run': nat, w: World, recs: seq<Record>)
    requires LinksInRange(w.content) && OwnUrls(w.content) && Independent(w.content, recs)
    requires Pass(run, true, w, recs).Some?
    ensures var dry, actual := Pass(run, true, w, recs), Pass(run', false, w, recs);
            && (actual.Some? && actual.value.tally == dry.value.tally <==> NoneRefused(w.content, recs))
            && (actual.None? <==> !NoneRefused(w.content, recs))
  {
    hide Pass, OwnUrls, Independent, NoneRefused, OnTrack;
    assert recs[..|recs|] == recs;
    PassesAlike(run, run', w, recs, |recs|);
  }

  /**
    For runs: once a dry run of such a source has completed, a real run from the same tables can be
    completed exactly when no constraint stops a record, and each that is counts what the dry one did.
   */
  lemma DryRunPredictsRealRun(source: seq<Record>, adapter: Adapter, trial: DB, envs: seq<Env>, db: DB)
    requires Fresh(trial) && trial.run.dry && Fresh(db) && !db.run.dry && db.content == trial.content
    requires OwnUrls(db.content) && Independent(db.content, source)
    requires RunMany(source, adapter, trial, envs).run.status == Completed
    requires adapter.Approved() && db.run.adapter == adapter.id
    ensures (exists envs' :: RunMany(source, adapter, db, envs').run.status == Completed)
            <==> NoneRefused(db.content, source)
    ensures forall envs' | RunMany(source, adapter, db, envs').run.status == Completed ::
              RunMany(source, adapter, db, envs').run.counters.tally
              == RunMany(source, adapter, trial, envs).run.counters.tally
  {
    hide Pass, RunMany, OwnUrls, Independent, NoneRefused;
    CompletedRunIsOnePass(source, adapter, trial, envs);
    CanCompleteExactlyWhenPassSucceeds(source, adapter, db);
    DryPassPredictsExactlyWhenNoneRefused(trial.run.id, db.run.id, World(db.content, NO_TALLY), source);
    forall envs' | RunMany(source, adapter, db, envs').run.status == Completed
      ensures RunMany(source, adapter, db, envs').run.counters.tally
              == RunMany(source, adapter, trial, envs).run.counters.tally
    {
      CompletedRunIsOnePass(source, adapter, db, envs');
    }
  }
}
