/** When a source that has been ingested can be ingested again. */
module Reingestion {
  import opened Prelude
  import opened Rules
  import opened Catalogue
  import opened CatalogueTheorems
  import opened IngestionRuns
  import opened IngestionTheorems

  /******* What a created record leaves behind *******/

  /** Records that pass validation, with URLs that are distinct and not yet linked. */
  ghost predicate NewRecords(t: Content, recs: seq<Record>) {
    && (forall i | 0 <= i < |recs| ::
          recs[i].raw.RawOk? && recs[i].norm.NormOk? && recs[i].norm.n.url !in t.links)
    && (forall i, j | 0 <= i < j < |recs| :: recs[i].norm.n.url != recs[j].norm.n.url)
  }

  /** The scholarship linked by the record's URL is the record's, up to rounding, and its URL its own. */
  ghost predicate Held(t: Content, n: Normalized)
    requires LinksInRange(t)
  {
    && n.url in t.links
    && var id := t.links[n.url].scholarship;
    && t.rows[id].provider == n.provider && t.rows[id].requirements == n.requirements
    && FieldsUpToCents(t.rows[id].fields, n.fields) && AmountFits(n.fields[Amount])
    && !UrlTaken(t.rows, n.fields[SourceUrl], id)
  }

  ghost predicate AllHeld(t: Content, recs: seq<Record>)
    requires LinksInRange(t) && forall i | 0 <= i < |recs| :: recs[i].norm.NormOk?
  {
    forall i | 0 <= i < |recs| :: Held(t, recs[i].norm.n)
  }

  predicate WebsiteStored(providers: map<string, Option<string>>, n: Normalized) {
    n.website.Some? ==> WebsiteOf(providers, n.provider) == n.website
  }

  ghost predicate WebsitesStored(providers: map<string, Option<string>>, recs: seq<Record>)
    requires forall i | 0 <= i < |recs| :: recs[i].norm.NormOk?
  {
    forall i | 0 <= i < |recs| :: WebsiteStored(providers, recs[i].norm.n)
  }

  /** No two records of one provider bring different websites. */
  ghost predicate AllWebsitesAgree(recs: seq<Record>)
    requires forall i | 0 <= i < |recs| :: recs[i].norm.NormOk?
  {
    forall i, j | 0 <= i < j < |recs| :: WebsitesAgree(recs[i].norm.n, recs[j].norm.n)
  }

  ghost function UrlsOf(recs: seq<Record>): set<string>
    requires forall i | 0 <= i < |recs| :: recs[i].norm.NormOk?
  {
    set i | 0 <= i < |recs| :: recs[i].norm.n.url
  }

  lemma AppendedUrl(rows: seq<Scholarship>, row: Scholarship, url: Value, except: int)
    requires !UrlTaken(rows, url, except) && (row.fields[SourceUrl] != url || except == |rows|)
    ensures !UrlTaken(rows + [row], url, except)
  {
    hide FieldsUpToCents;
  }

  lemma AppendedIsHeld(t: Content, t': Content, row: Scholarship, n: Normalized)
    requires LinksInRange(t') && t'.rows == t.rows + [row]
    requires n.url in t'.links && t'.links[n.url].scholarship == |t.rows|
    requires row.provider == n.provider && row.requirements == n.requirements
    requires FieldsUpToCents(row.fields, n.fields) && AmountFits(n.fields[Amount])
    requires !UrlTaken(t.rows, n.fields[SourceUrl], -1)
    ensures Held(t', n)
  {
    assert !UrlTaken(t.rows, n.fields[SourceUrl], |t.rows|);
    hide UrlTaken, FieldsUpToCents, AmountFits;
    AppendedUrl(t.rows, row, n.fields[SourceUrl], |t.rows|);
  }

  lemma HeldUrl(t: Content, n: Normalized)
    requires LinksInRange(t) && Held(t, n)
    ensures t.rows[t.links[n.url].scholarship].fields[SourceUrl] == n.fields[SourceUrl]
  {
    hide UrlTaken;
  }

  lemma FreeUrlIsNew(rows: seq<Scholarship>, url: Value, i: nat)
    requires !UrlTaken(rows, url, -1) && i < |rows|
    ensures rows[i].fields[SourceUrl] != url
  {
  }

  lemma HeldBesideAppended(t: Content, t': Content, row: Scholarship, n: Normalized)
    requires LinksInRange(t) && LinksInRange(t') && t'.rows == t.rows + [row] && Held(t, n)
    requires n.url in t'.links && t'.links[n.url] == t.links[n.url]
    requires !UrlTaken(t.rows, row.fields[SourceUrl], -1)
    ensures Held(t', n)
  {
    HeldUrl(t, n);
    hide UrlTaken, FieldsUpToCents;
    FreeUrlIsNew(t.rows, row.fields[SourceUrl], t.links[n.url].scholarship);
    AppendedUrl(t.rows, row, n.fields[SourceUrl], t.links[n.url].scholarship);
  }

  lemma CreatedRowIs(n: Normalized)
    ensures var row := CreatedRow(n);
            && row.provider == n.provider && row.requirements == n.requirements
            && row.fields[SourceUrl] == n.fields[SourceUrl] && FieldsUpToCents(row.fields, n.fields)
  {
    hide Cents;
  }

  /** Creating a scholarship for a record leaves it held, and those that were held. */
  lemma CreationHolds(t: Content, run: nat, raw: RawKey, n: Normalized, recs: seq<Record>)
    requires LinksInRange(t) && n.url !in t.links
    requires forall i | 0 <= i < |recs| :: recs[i].norm.NormOk?
    requires AllHeld(t, recs)
    requires Apply(t, run, raw, n, false).Applied? && Apply(t, run, raw, n, false).outcome != Duplicate
    ensures var t' := Apply(t, run, raw, n, false).content;
            && LinksInRange(t') && Held(t', n) && AllHeld(t', recs)
            && t'.links.Keys == t.links.Keys + {n.url}
            && t'.providers == UpsertProvider(t.providers, n.provider, n.website)
  {
    hide Apply, Held, UrlTaken, RecordTaken, Candidates, CreatedRow, FieldsUpToCents, UpsertProvider;
    NewShape(t, run, raw, n);
    CreatedRowIs(n);
    ApplyKeepsLinksInRange(t, run, raw, n, false);
    var t' := Apply(t, run, raw, n, false).content;
    AppendedIsHeld(t, t', CreatedRow(n), n);
    forall i | 0 <= i < |recs| ensures Held(t', recs[i].norm.n) {
      assert Held(t, recs[i].norm.n);
      HeldIsLinked(t, recs[i].norm.n);
      HeldBesideAppended(t, t', CreatedRow(n), recs[i].norm.n);
    }
  }

  lemma HeldIsLinked(t: Content, n: Normalized)
    requires LinksInRange(t) && Held(t, n)
    ensures n.url in t.links
  {
  }

  lemma WebsiteStoredNow(providers: map<string, Option<string>>, n: Normalized)
    ensures WebsiteStored(UpsertProvider(providers, n.provider, n.website), n)
  {
  }

  lemma WebsiteStoredStill(providers: map<string, Option<string>>, m: Normalized, n: Normalized)
    requires WebsiteStored(providers, n) && WebsitesAgree(n, m)
    ensures WebsiteStored(UpsertProvider(providers, m.provider, m.website), n)
  {
  }

  lemma WebsitesStoredWith(providers: map<string, Option<string>>, recs: seq<Record>)
    requires recs != [] && (forall i | 0 <= i < |recs| :: recs[i].norm.NormOk?) && AllWebsitesAgree(recs)
    requires WebsitesStored(providers, recs[..|recs| - 1])
    ensures var n := recs[|recs| - 1].norm.n;
            WebsitesStored(UpsertProvider(providers, n.provider, n.website), recs)
  {
    hide WebsiteStored, UpsertProvider, WebsitesAgree;
    var k := |recs| - 1;
    var n := recs[k].norm.n;
    forall i | 0 <= i < |recs| ensures WebsiteStored(UpsertProvider(providers, n.provider, n.website), recs[i].norm.n) {
      if i == k {
        WebsiteStoredNow(providers, n);
      } else {
        assert recs[..k][i] == recs[i];
        WebsiteStoredStill(providers, n, recs[i].norm.n);
      }
    }
  }

  /** After a first pass that only creates, every record is held and, if they agree, every website stored. */
  lemma {:induction false} FirstPassHolds(run: nat, w: World, recs: seq<Record>)
    requires LinksInRange(w.content) && NewRecords(w.content, recs)
    requires Pass(run, false, w, recs).Some?
    ensures var v := Pass(run, false, w, recs).value;
            && v.tally.duplicates >= w.tally.duplicates
            && (v.tally.duplicates == w.tally.duplicates ==>
                  && AllHeld(v.content, recs)
                  && v.content.links.Keys == w.content.links.Keys + UrlsOf(recs)
                  && (AllWebsitesAgree(recs) ==> WebsitesStored(v.content.providers, recs)))
  {
    hide Apply, Held, AllWebsitesAgree, WebsitesStored, LinksInRange, UpsertProvider, UrlsOf;
    if recs == [] {
      NoRecords(w.content.providers);
    } else {
      var k := |recs| - 1;
      FirstPassHolds(run, w, recs[..k]);
      var u := Pass(run, false, w, recs[..k]).value;
      var v := Pass(run, false, w, recs).value;
      var n, raw := recs[k].norm.n, KeyOf(run, recs[k]);
      if v.tally.duplicates == w.tally.duplicates {
        NotYetLinked(w.content, u.content, recs);
        CreationHolds(u.content, run, raw, n, recs[..k]);
        assert AllHeld(v.content, recs) by {
          forall i | 0 <= i < |recs| ensures Held(v.content, recs[i].norm.n) {
            if i < k { assert recs[i] == recs[..k][i]; }
          }
        }
        LinkedUrls(recs);
        if AllWebsitesAgree(recs) {
          FrontAgrees(recs);
          WebsitesStoredWith(u.content.providers, recs);
        }
      }
    }
  }

  lemma NoRecords(providers: map<string, Option<string>>)
    ensures UrlsOf([]) == {} && WebsitesStored(providers, [])
  {
  }

  lemma NotYetLinked(t: Content, u: Content, recs: seq<Record>)
    requires recs != [] && NewRecords(t, recs)
    requires u.links.Keys == t.links.Keys + UrlsOf(recs[..|recs| - 1])
    ensures recs[|recs| - 1].norm.n.url !in u.links
  {
  }

  lemma FrontAgrees(recs: seq<Record>)
    requires recs != [] && (forall i | 0 <= i < |recs| :: recs[i].norm.NormOk?) && AllWebsitesAgree(recs)
    ensures AllWebsitesAgree(recs[..|recs| - 1])
  {
    hide WebsitesAgree;
  }

  lemma LinkedUrls(recs: seq<Record>)
    requires recs != [] && forall i | 0 <= i < |recs| :: recs[i].norm.NormOk?
    ensures UrlsOf(recs) == UrlsOf(recs[..|recs| - 1]) + {recs[|recs| - 1].norm.n.url}
  {
    var k := |recs| - 1;
    forall i | 0 <= i < k ensures recs[..k][i] == recs[i] {}
  }

  /******* The second pass *******/

  /** Nothing that decides whether a record is accepted has changed. */
  ghost predicate SameHoldings(a: Content, b: Content) {
    && |a.rows| == |b.rows| && a.providers == b.providers && a.links.Keys == b.links.Keys
    && (forall i | 0 <= i < |a.rows| :: SameData(a.rows[i], b.rows[i]))
    && (forall u | u in a.links :: b.links[u].scholarship == a.links[u].scholarship)
  }

  lemma StillHeld(a: Content, b: Content, n: Normalized)
    requires LinksInRange(a) && LinksInRange(b) && SameHoldings(a, b) && Held(a, n)
    ensures Held(b, n)
  {
    hide FieldsUpToCents;
    var id := a.links[n.url].scholarship;
    assert SameData(a.rows[id], b.rows[id]);
  }

  lemma HeldDiffers(row: Scholarship, providers: map<string, Option<string>>, n: Normalized)
    requires row.provider == n.provider && row.requirements == n.requirements
    requires FieldsUpToCents(row.fields, n.fields)
    ensures ProviderChanged(row, providers, n) <==> !WebsiteStored(providers, n)
    ensures Differs(row, providers, n) <==> !CentExact(n) || !WebsiteStored(providers, n)
  {
    SettledRow(row, providers, n);
    hide ChangedColumns, Cents, Differs;
    if CentExact(n) {
      forall c: Column ensures row.fields[c] == n.fields[c] { assert row.fields[c] == Stored(c, n.fields[c]); }
    } else {
      assert row.fields[Amount] != n.fields[Amount];
    }
  }

  /** Writing over a held row changes none of its data. */
  lemma HeldStays(row: Scholarship, n: Normalized)
    requires row.provider == n.provider && row.requirements == n.requirements
    requires FieldsUpToCents(row.fields, n.fields)
    ensures SameData(row, UpdatedRow(row, n))
  {
    hide ChangedColumns, Overwrite, FieldsUpToCents;
    HeldColumnsStay(row.fields, n.fields);
  }

  lemma HeldColumnsStay(was: Fields, now: Fields)
    requires FieldsUpToCents(was, now)
    ensures Overwrite(was, now, ChangedColumns(was, now)) == was
  {
    hide ChangedColumns, Stored, Overwrite;
    var after := Overwrite(was, now, ChangedColumns(was, now));
    forall c: Column ensures after[c] == was[c] {
      OverwrittenColumn(was, now, c);
      assert was[c] == Stored(c, now[c]);
    }
    assert after == was;
  }

  lemma OneRowHolds(t: Content, t': Content, id: nat, row: Scholarship, url: string, link: Link)
    requires url in t.links && id < |t.rows| && link.scholarship == t.links[url].scholarship
    requires SameData(t.rows[id], row) && t'.rows == t.rows[id := row]
    requires t'.links == t.links[url := link] && t'.providers == t.providers
    ensures SameHoldings(t, t')
  {
    hide SameData;
    SameDataReflexive(t.rows);
  }

  lemma SameDataReflexive(rows: seq<Scholarship>)
    ensures forall i | 0 <= i < |rows| :: SameData(rows[i], rows[i])
  {
  }

  lemma HeldAgain(t: Content, run: nat, raw: RawKey, n: Normalized)
    requires LinksInRange(t) && Held(t, n)
    ensures var r := Apply(t, run, raw, n, false);
            if !WebsiteStored(t.providers, n) then r == Raised
            else r.Applied? && LinksInRange(r.content) && SameHoldings(t, r.content)
                 && r.outcome == if CentExact(n) then Unchanged else Updated
  {
    hide Apply, Differs, ProviderChanged, UpdatedRow, UrlTaken, UpsertProvider, CentExact, WebsiteStored, FieldsUpToCents,
         SameHoldings, SameData;
    var id := t.links[n.url].scholarship;
    var row := t.rows[id];
    HeldDiffers(row, t.providers, n);
    HeldStays(row, n);
    ApplyKeepsLinksInRange(t, run, raw, n, false);
    ExistingShape(t, run, raw, n);
    if WebsiteStored(t.providers, n) {
      var t' := Apply(t, run, raw, n, false).content;
      var link := Refreshed(t.links[n.url], raw, n);
      SameDataReflexive(t.rows);
      if Differs(row, t.providers, n) {
        OneRowHolds(t, t', id, UpdatedRow(row, n), n.url, link);
      } else {
        assert t.rows[id := row] == t.rows;
        OneRowHolds(t, t', id, row, n.url, link);
      }
    }
  }

  /** How many of the records have an amount that the amount column rounds. */
  function Inexact(recs: seq<Record>): (k: nat)
    requires forall i | 0 <= i < |recs| :: recs[i].norm.NormOk?
    ensures k <= |recs|
  {
    if recs == [] then 0
    else Inexact(recs[..|recs| - 1]) + if CentExact(recs[|recs| - 1].norm.n) then 0 else 1
  }

  /** A pass over held records fails at the first website that is not stored, and changes no data. */
  lemma {:induction false} HeldPass(run: nat, w: World, recs: seq<Record>)
    requires LinksInRange(w.content)
    requires forall i | 0 <= i < |recs| :: recs[i].raw.RawOk? && recs[i].norm.NormOk?
    requires AllHeld(w.content, recs)
    ensures var r := Pass(run, false, w, recs);
            && (r.Some? <==> WebsitesStored(w.content.providers, recs))
            && (r.Some? ==>
                  && SameHoldings(w.content, r.value.content)
                  && r.value.tally == w.tally.(updated := w.tally.updated + Inexact(recs),
                                               untouched := w.tally.untouched + |recs| - Inexact(recs)))
  {
    hide Apply, Held, WebsiteStored, CentExact, SameData, LinksInRange;
    if recs != [] {
      var k := |recs| - 1;
      forall i | 0 <= i < k ensures Held(w.content, recs[..k][i].norm.n) { assert recs[i] == recs[..k][i]; }
      HeldPass(run, w, recs[..k]);
      StoredFront(w.content.providers, recs);
      if Pass(run, false, w, recs[..k]).Some? {
        var u := Pass(run, false, w, recs[..k]).value;
        StillHeld(w.content, u.content, recs[k].norm.n);
        HeldAgain(u.content, run, KeyOf(run, recs[k]), recs[k].norm.n);
        if WebsiteStored(u.content.providers, recs[k].norm.n) {
          SameHoldingsTransitive(w.content, u.content, Pass(run, false, w, recs).value.content);
        }
      }
    } else {
      SameHoldingsReflexive(w.content);
    }
  }

  lemma StoredFront(providers: map<string, Option<string>>, recs: seq<Record>)
    requires recs != [] && forall i | 0 <= i < |recs| :: recs[i].norm.NormOk?
    ensures WebsitesStored(providers, recs)
            <==> WebsitesStored(providers, recs[..|recs| - 1]) && WebsiteStored(providers, recs[|recs| - 1].norm.n)
  {
    hide WebsiteStored;
    var k := |recs| - 1;
    forall i | 0 <= i < k ensures recs[..k][i] == recs[i] {}
    if WebsitesStored(providers, recs[..k]) && WebsiteStored(providers, recs[k].norm.n) {
      forall i | 0 <= i < |recs| ensures WebsiteStored(providers, recs[i].norm.n) {
        if i < k { assert WebsiteStored(providers, recs[..k][i].norm.n); }
      }
    }
  }

  lemma SameHoldingsReflexive(a: Content)
    ensures SameHoldings(a, a)
  {
  }

  lemma SameHoldingsTransitive(a: Content, b: Content, c: Content)
    requires SameHoldings(a, b) && SameHoldings(b, c)
    ensures SameHoldings(a, c)
  {
    forall i | 0 <= i < |a.rows| ensures SameData(a.rows[i], c.rows[i]) {
      assert SameData(a.rows[i], b.rows[i]) && SameData(b.rows[i], c.rows[i]);
    }
  }

  lemma StoredWebsitesAgree(providers: map<string, Option<string>>, recs: seq<Record>)
    requires forall i | 0 <= i < |recs| :: recs[i].norm.NormOk?
    requires WebsitesStored(providers, recs)
    ensures AllWebsitesAgree(recs)
  {
    forall i, j | 0 <= i < j < |recs| ensures WebsitesAgree(recs[i].norm.n, recs[j].norm.n) {
      assert WebsiteStored(providers, recs[i].norm.n) && WebsiteStored(providers, recs[j].norm.n);
    }
  }

  /**
    After a pass that created a scholarship for each record, a second pass gets through exactly when
    no two records of one provider disagree on its website. It then changes no data: it updates the
    records whose amounts the column rounded and finds the others unchanged.
   */
  lemma PassRepeatsExactlyWhenWebsitesAgree(run: nat, run': nat, w: World, recs: seq<Record>)
    requires LinksInRange(w.content) && NewRecords(w.content, recs)
    requires Pass(run, false, w, recs).Some?
    requires Pass(run, false, w, recs).value.tally.duplicates == w.tally.duplicates
    ensures var v := Pass(run, false, w, recs).value;
            var again := Pass(run', false, World(v.content, NO_TALLY), recs);
            && (again.Some? <==> AllWebsitesAgree(recs))
            && (again.Some? ==>
                  && SameHoldings(v.content, again.value.content)
                  && again.value.tally == Tally(0, Inexact(recs), |recs| - Inexact(recs), 0, 0))
  {
    hide Pass, Held, AllHeld, AllWebsitesAgree, WebsitesStored, SameHoldings, Inexact, LinksInRange;
    FirstPassHolds(run, w, recs);
    var v := Pass(run, false, w, recs).value;
    HeldPass(run', World(v.content, NO_TALLY), recs);
    if WebsitesStored(v.content.providers, recs) { StoredWebsitesAgree(v.content.providers, recs); }
  }

  /** For runs: a source whose records were all created can be completed a second time exactly then. */
  lemma SourceIsReingestableExactlyWhenWebsitesAgree(source: seq<Record>, adapter: Adapter, db: DB, envs: seq<Env>,
                                                     again: DB)
    requires Fresh(db) && !db.run.dry && NewRecords(db.content, source)
    requires RunMany(source, adapter, db, envs).run.status == Completed
    requires RunMany(source, adapter, db, envs).run.counters.tally.duplicates == 0
    requires Fresh(again) && !again.run.dry && again.content == RunMany(source, adapter, db, envs).content
    requires adapter.Approved() && again.run.adapter == adapter.id
    ensures (exists envs' :: RunMany(source, adapter, again, envs').run.status == Completed)
            <==> AllWebsitesAgree(source)
  {
    hide Pass, RunMany, AllWebsitesAgree, Inexact, SameHoldings;
    CompletedRunIsOnePass(source, adapter, db, envs);
    CanCompleteExactlyWhenPassSucceeds(source, adapter, again);
    PassRepeatsExactlyWhenWebsitesAgree(db.run.id, again.run.id, World(db.content, NO_TALLY), source);
  }

  /******* A source that cannot be ingested twice *******/

  const NOTHING := Content([], map[], map[], [], [])

  function UrlColumn(c: Column, url: string): Value { if c == SourceUrl then Text(url) else Null }

  function OnlyUrl(url: string): Fields { map c: Column | true :: UrlColumn(c, url) }

  /** A record without requirements; its website is part of what its fingerprint hashes. */
  function Bare(url: string, provider: string, website: string): Normalized {
    Normalized(provider, Some(website), OnlyUrl(url), [], "source", url, url, website, false)
  }

  function BareRecord(url: string, provider: string, website: string): Record {
    Record(url, "digest", RawOk, NormOk(Bare(url, provider, website)))
  }

  /** Nothing in the catalogue stands in the record's way. */
  predicate Unclaimed(t: Content, n: Normalized) {
    && n.url !in t.links && Candidates(t.links, n) == {} && CreationFits(n)
    && !UrlTaken(t.rows, n.fields[SourceUrl], -1) && !RecordTaken(t.links, n.source, n.recordId)
  }

  lemma FirstIsUnclaimed(n: Normalized)
    requires CreationFits(n)
    ensures Unclaimed(NOTHING, n)
  {
  }

  lemma SecondIsUnclaimed(t: Content, raw: RawKey, n: Normalized, m: Normalized)
    requires t.rows == [CreatedRow(n)]
    requires t.links == map[n.url := Link(0, raw, n.source, n.recordId, n.Print(), n.trusted, true)]
    requires m.url != n.url && m.recordId != n.recordId && m.Print() != n.Print()
    requires m.fields[SourceUrl] != n.fields[SourceUrl] && CreationFits(m)
    ensures Unclaimed(t, m)
  {
    CreatedRowIs(n);
    hide CreatedRow, FieldsUpToCents, CreationFits;
  }

  /** Two records that leave each other alone are both created in the empty catalogue. */
  lemma BothCreated(run: nat, a: Record, b: Record)
    requires a.raw.RawOk? && b.raw.RawOk? && a.norm.NormOk? && b.norm.NormOk?
    requires a.norm.n.url != b.norm.n.url && a.norm.n.recordId != b.norm.n.recordId
    requires a.norm.n.Print() != b.norm.n.Print()
    requires a.norm.n.fields[SourceUrl] != b.norm.n.fields[SourceUrl]
    requires CreationFits(a.norm.n) && CreationFits(b.norm.n)
    ensures var r := Pass(run, false, World(NOTHING, NO_TALLY), [a, b]);
            r.Some? && r.value.tally == Tally(2, 0, 0, 0, 0)
            && r.value.content.rows == [CreatedRow(a.norm.n), CreatedRow(b.norm.n)]
  {
    hide Apply, Pass, CreatedRow, Unclaimed, UpsertProvider, CreationFits;
    var n, m := a.norm.n, b.norm.n;
    var w := World(NOTHING, NO_TALLY);
    PassOfTwo(run, w, a, b);
    FirstIsUnclaimed(n);
    UnclaimedIsCreated(NOTHING, run, KeyOf(run, a), n);
    var u := PassOne(run, false, w, a).value;
    assert u.content.rows == [CreatedRow(n)];
    SecondIsUnclaimed(u.content, KeyOf(run, a), n, m);
    UnclaimedIsCreated(u.content, run, KeyOf(run, b), m);
  }

  lemma UnclaimedIsCreated(t: Content, run: nat, raw: RawKey, n: Normalized)
    requires LinksInRange(t) && Unclaimed(t, n)
    ensures var r := Apply(t, run, raw, n, false);
            && r.Applied? && r.outcome == Created && r.content.rows == t.rows + [CreatedRow(n)]
            && r.content.links
               == t.links[n.url := Link(|t.rows|, raw, n.source, n.recordId, n.Print(), n.trusted, true)]
  {
    hide Candidates, UrlTaken, RecordTaken, CreatedRow, UpsertProvider, Apply, CreationFits;
    NewShape(t, run, raw, n);
  }

  /**
    Two new scholarships of one provider that disagree on its website are both created; no later
    pass over the same two records gets through.
   */
  lemma DisagreeingWebsitesCannotBeReingested(run: nat, run': nat, urls: (string, string), provider: string,
                                              websites: (string, string))
    requires urls.0 != urls.1 && websites.0 != websites.1 && NameFits(provider)
    ensures var source := [BareRecord(urls.0, provider, websites.0), BareRecord(urls.1, provider, websites.1)];
            var r := Pass(run, false, World(NOTHING, NO_TALLY), source);
            && source[0].norm.n.FromNormalizer() && source[1].norm.n.FromNormalizer()
            && r.Some? && r.value.tally == Tally(2, 0, 0, 0, 0)
            && Pass(run', false, World(r.value.content, NO_TALLY), source).None?
  {
    hide Pass, CreatedRow, Inexact, SameHoldings, Bare, AllWebsitesAgree;
    var a, b := BareRecord(urls.0, provider, websites.0), BareRecord(urls.1, provider, websites.1);
    BareIs(urls.0, provider, websites.0);
    BareIs(urls.1, provider, websites.1);
    DifferentWebsites(a, b);
    BothCreated(run, a, b);
    PassRepeatsExactlyWhenWebsitesAgree(run, run', World(NOTHING, NO_TALLY), [a, b]);
  }

  lemma BareIs(url: string, provider: string, website: string)
    ensures var n := Bare(url, provider, website);
            && n.FromNormalizer() && n.url == url && n.recordId == url && n.fields[SourceUrl] == Text(url)
            && n.provider == provider && n.website == Some(website) && n.Print() == Fingerprint(website, [])
            && AmountFits(n.fields[Amount])
  {
    var fields := OnlyUrl(url);
    assert forall c: Column :: fields[c] == UrlColumn(c, url);
  }

  lemma DifferentWebsites(a: Record, b: Record)
    requires a.norm.NormOk? && b.norm.NormOk? && a.norm.n.provider == b.norm.n.provider
    requires a.norm.n.website.Some? && b.norm.n.website.Some? && a.norm.n.website != b.norm.n.website
    ensures !AllWebsitesAgree([a, b])
  {
    assert !WebsitesAgree([a, b][0].norm.n, [a, b][1].norm.n);
  }
}
