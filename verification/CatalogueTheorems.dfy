/** What ingestion guarantees about the catalogue: history, idempotence, duplicates. */
module CatalogueTheorems {
  import opened Prelude
  import opened Rules
  import opened Catalogue
  import opened IngestionRuns

  /******* History can be undone *******/

  function UndoOne(row: Scholarship, change: Change): Scholarship {
    match change
    case ColumnChange(c, was, _) => row.(fields := row.fields[c := was])
    case ProviderChange(was, _) => row.(provider := was)
    case RequirementsChange(was, _) => row.(requirements := was)
  }

  /** Takes the history rows of scholarship `id` back, the last one first. */
  function Undo(row: Scholarship, id: nat, history: seq<HistoryRow>): Scholarship
    decreases |history|
  {
    if history == [] then row else
      var last := history[|history| - 1];
      Undo(if last.scholarship == id then UndoOne(row, last.change) else row, id,
           history[..|history| - 1])
  }

  /** The part of a row that history describes. */
  ghost predicate SameData(a: Scholarship, b: Scholarship) {
    a.provider == b.provider && a.fields == b.fields && a.requirements == b.requirements
  }

  lemma {:induction false} UndoAppend(row: Scholarship, id: nat, a: seq<HistoryRow>, b: seq<HistoryRow>)
    ensures Undo(row, id, a + b) == Undo(Undo(row, id, b), id, a)
    decreases |b|
  {
    if b == [] {
      assert a + b == a;
    } else {
      var last := b[|b| - 1];
      assert (a + b)[..|a + b| - 1] == a + b[..|b| - 1];
      UndoAppend(if last.scholarship == id then UndoOne(row, last.change) else row, id, a, b[..|b| - 1]);
    }
  }

  lemma {:induction false} UndoIgnoresOthers(row: Scholarship, id: nat, history: seq<HistoryRow>)
    requires forall i | 0 <= i < |history| :: history[i].scholarship != id
    ensures Undo(row, id, history) == row
    decreases |history|
  {
    if history != [] {
      UndoIgnoresOthers(row, id, history[..|history| - 1]);
    }
  }

  lemma {:induction false} UndoRespectsData(a: Scholarship, b: Scholarship, id: nat, history: seq<HistoryRow>)
    requires SameData(a, b)
    ensures SameData(Undo(a, id, history), Undo(b, id, history))
    decreases |history|
  {
    if history != [] {
      var last := history[|history| - 1];
      UndoRespectsData(if last.scholarship == id then UndoOne(a, last.change) else a,
                       if last.scholarship == id then UndoOne(b, last.change) else b,
                       id, history[..|history| - 1]);
    }
  }

  /** Undoing the first `k` recorded columns puts back what those columns held. */
  lemma {:induction false} UndoColumns(row: Scholarship, id: nat, raw: RawKey, was: Fields, now: Fields,
                                       changed: seq<Column>, k: nat)
    requires k <= |changed|
    ensures var r := Undo(row, id, ColumnHistory(id, raw, was, now, changed)[..k]);
            && r.provider == row.provider && r.requirements == row.requirements
            && (forall c: Column :: r.fields[c] == if c in changed[..k] then was[c] else row.fields[c])
    decreases k
  {
    var h := ColumnHistory(id, raw, was, now, changed);
    if k > 0 {
      assert h[..k][..k - 1] == h[..k - 1];
      var row' := UndoOne(row, h[k - 1].change);
      UndoColumns(row', id, raw, was, now, changed, k - 1);
      assert changed[..k] == changed[..k - 1] + [changed[k - 1]];
    }
  }

  lemma EveryColumnListed(c: Column)
    ensures c in COLUMNS
  {
    var i := match c
      case Title => 0 case Description => 1 case Amount => 2 case Currency => 3
      case FundingType => 4 case FundingSummary => 5 case StudyLevels => 6
      case FieldsOfStudy => 7 case DestinationCountries => 8
      case NationalityRequirements => 9 case ResidencyRequirements => 10
      case RequiredDocuments => 11 case Deadline => 12 case DeadlineAt => 13
      case DeadlineTimezone => 14 case EligibilitySummary => 15 case SourceUrl => 16
      case ApplicationUrl => 17 case ReviewerNotes => 18;
    assert COLUMNS[i] == c;
  }

  lemma ColumnsCoverAll(was: Fields, now: Fields)
    ensures forall c: Column :: c in ChangedColumns(was, now) <==> was[c] != now[c]
  {
    forall c: Column ensures c in COLUMNS {
      EveryColumnListed(c);
    }
    assert COLUMNS[..|COLUMNS|] == COLUMNS;
  }

  lemma UndoUpdate(id: nat, raw: RawKey, row: Scholarship, providers: map<string, Option<string>>, n: Normalized)
    ensures SameData(Undo(UpdatedRow(row, n), id, UpdateHistory(id, raw, row, providers, n)), row)
  {
    hide Undo;
    hide ChangedColumns;
    hide ColumnHistory;
    hide Overwrite;
    var changed := ChangedColumns(row.fields, n.fields);
    var columns := ColumnHistory(id, raw, row.fields, n.fields, changed);
    var provider := if ProviderChanged(row, providers, n)
      then [HistoryRow(id, raw, ProviderChange(row.provider, n.provider))] else [];
    var requirements := if row.requirements != n.requirements
      then [HistoryRow(id, raw, RequirementsChange(row.requirements, n.requirements))] else [];
    var updated := UpdatedRow(row, n);
    UndoAppend(updated, id, columns + provider, requirements);
    var a := Undo(updated, id, requirements);
    assert a == updated.(requirements := row.requirements) by { UndoSingle(updated, id, requirements); }
    UndoAppend(a, id, columns, provider);
    var b := Undo(a, id, provider);
    assert b == a.(provider := row.provider) by { UndoSingle(a, id, provider); }
    UndoAllColumns(b, id, raw, row.fields, n.fields);
  }

  lemma UndoAllColumns(row: Scholarship, id: nat, raw: RawKey, was: Fields, now: Fields)
    requires row.fields == Overwrite(was, now, ChangedColumns(was, now))
    ensures SameData(Undo(row, id, ColumnHistory(id, raw, was, now, ChangedColumns(was, now))),
                     row.(fields := was))
  {
    hide Undo;
    hide ChangedAmong;
    var changed := ChangedColumns(was, now);
    var columns := ColumnHistory(id, raw, was, now, changed);
    UndoColumns(row, id, raw, was, now, changed, |changed|);
    assert columns[..|changed|] == columns;
    assert changed[..|changed|] == changed;
    assert Undo(row, id, columns).fields == was;
  }

  lemma UndoSingle(row: Scholarship, id: nat, history: seq<HistoryRow>)
    requires |history| <= 1 && forall i | 0 <= i < |history| :: history[i].scholarship == id
    ensures Undo(row, id, history) == if history == [] then row else UndoOne(row, history[0].change)
  {
    if |history| == 1 {
      assert history[..0] == [];
    }
  }

  /** History only grows. */
  ghost predicate Extends(a: seq<HistoryRow>, b: seq<HistoryRow>) {
    |a| <= |b| && b[..|a|] == a
  }

  /** Whether this record's update hits scholarship `id`. */
  predicate Hits(t: Content, run: nat, raw: RawKey, n: Normalized, dry: bool, id: nat)
    requires LinksInRange(t)
  {
    var r := Apply(t, run, raw, n, dry);
    n.url in t.links && t.links[n.url].scholarship == id && r.Applied? && r.outcome == Updated && !dry
  }

  lemma UndoApply(t: Content, run: nat, raw: RawKey, n: Normalized, dry: bool, id: nat)
    requires LinksInRange(t) && id < |t.rows|
    requires Apply(t, run, raw, n, dry).Applied?
    ensures var t' := Apply(t, run, raw, n, dry).content;
            && id < |t'.rows|
            && Extends(t.history, t'.history)
            && SameData(Undo(t'.rows[id], id, t'.history[|t.history|..]), t.rows[id])
            && t'.rows[id].version
               == t.rows[id].version + if Hits(t, run, raw, n, dry, id) then 1 else 0
  {
    hide UpdatedRow;
    hide UpdateHistory;
    hide Undo;
    hide CreatedRow;
    hide Candidates;
    hide UrlTaken;
    hide RecordTaken;
    hide UpsertProvider;
    var t' := Apply(t, run, raw, n, dry).content;
    if n.url in t.links && t'.history != t.history {
      var hit := t.links[n.url].scholarship;
      var rows := UpdateHistory(hit, raw, t.rows[hit], t.providers, n);
      assert t'.history[|t.history|..] == rows;
      UpdateHistoryIsAbout(hit, raw, t.rows[hit], t.providers, n);
      UpdatedRowVersion(t.rows[hit], n);
      if hit == id {
        UndoUpdate(id, raw, t.rows[id], t.providers, n);
      } else {
        UndoIgnoresOthers(t.rows[id], id, rows);
      }
    } else {
      UndoNothing(t.rows[id], id);
      NoHistoryNoUpdate(t, run, raw, n, dry, id);
      assert t'.history[|t.history|..] == [];
    }
  }

  lemma UndoNothing(row: Scholarship, id: nat)
    ensures Undo(row, id, []) == row
  {
  }

  lemma UpdatedRowVersion(row: Scholarship, n: Normalized)
    ensures UpdatedRow(row, n).version == row.version + 1
  {
  }

  lemma UpdateHistoryIsAbout(id: nat, raw: RawKey, row: Scholarship, providers: map<string, Option<string>>,
                             n: Normalized)
    ensures forall i | 0 <= i < |UpdateHistory(id, raw, row, providers, n)| ::
              UpdateHistory(id, raw, row, providers, n)[i].scholarship == id
    ensures Differs(row, providers, n) ==> UpdateHistory(id, raw, row, providers, n) != []
  {
  }

  lemma NoHistoryNoUpdate(t: Content, run: nat, raw: RawKey, n: Normalized, dry: bool, id: nat)
    requires LinksInRange(t) && id < |t.rows|
    requires Apply(t, run, raw, n, dry).Applied?
    requires Apply(t, run, raw, n, dry).content.history == t.history || n.url !in t.links
    ensures !Hits(t, run, raw, n, dry, id)
    ensures id < |Apply(t, run, raw, n, dry).content.rows|
    ensures Apply(t, run, raw, n, dry).content.rows[id] == t.rows[id]
    ensures Apply(t, run, raw, n, dry).content.history == t.history
  {
    hide UpdatedRow;
    hide UpdateHistory;
    hide CreatedRow;
    hide Differs;
    hide ProviderChanged;
    hide UpsertProvider;
    hide UrlTaken;
    hide RecordTaken;
    hide Candidates;
    if n.url in t.links {
      var hit := t.links[n.url].scholarship;
      UpdateHistoryIsAbout(hit, raw, t.rows[hit], t.providers, n);
    }
  }

  /** Updates of scholarship `id` among the records, in a pass. */
  function UpdatesOf(run: nat, dry: bool, w: World, recs: seq<Record>, id: nat): nat
    requires LinksInRange(w.content)
  {
    if recs == [] then 0 else
      var last := recs[|recs| - 1];
      UpdatesOf(run, dry, w, recs[..|recs| - 1], id)
      + match Pass(run, dry, w, recs[..|recs| - 1])
        case None => 0
        case Some(u) =>
          if last.raw.RawOk? && last.norm.NormOk?
             && Hits(u.content, run, KeyOf(run, last), last.norm.n, dry, id) then 1 else 0
  }

  lemma UndoPassOne(run: nat, dry: bool, w: World, rec: Record, id: nat)
    requires LinksInRange(w.content) && id < |w.content.rows|
    requires PassOne(run, dry, w, rec).Some?
    ensures var v := PassOne(run, dry, w, rec).value.content;
            && id < |v.rows|
            && Extends(w.content.history, v.history)
            && SameData(Undo(v.rows[id], id, v.history[|w.content.history|..]), w.content.rows[id])
            && v.rows[id].version
               == w.content.rows[id].version
                  + if rec.raw.RawOk? && rec.norm.NormOk?
                       && Hits(w.content, run, KeyOf(run, rec), rec.norm.n, dry, id) then 1 else 0
  {
    hide Apply;
    hide Hits;
    hide Undo;
    if rec.raw.RawOk? && rec.norm.NormOk? {
      UndoApply(w.content, run, KeyOf(run, rec), rec.norm.n, dry, id);
    } else {
      UndoNothing(w.content.rows[id], id);
      assert w.content.history[|w.content.history|..] == [];
    }
  }

  /**
    For a scholarship changed only by ingestion: undoing the history rows written since any point,
    last first, restores the provider, columns and requirements it had at that point, and its
    version has grown by the number of records that updated it.
   */
  lemma {:induction false} HistoryUndoesIngestion(run: nat, dry: bool, w: World, recs: seq<Record>, id: nat)
    requires LinksInRange(w.content) && id < |w.content.rows|
    requires Pass(run, dry, w, recs).Some?
    ensures var v := Pass(run, dry, w, recs).value.content;
            && id < |v.rows|
            && Extends(w.content.history, v.history)
            && SameData(Undo(v.rows[id], id, v.history[|w.content.history|..]), w.content.rows[id])
            && v.rows[id].version == w.content.rows[id].version + UpdatesOf(run, dry, w, recs, id)
  {
    hide PassOne;
    hide Hits;
    hide Undo;
    if recs == [] {
      UndoNothing(w.content.rows[id], id);
    } else {
      var front := recs[..|recs| - 1];
      HistoryUndoesIngestion(run, dry, w, front, id);
      var u := Pass(run, dry, w, front).value;
      UndoPassOne(run, dry, u, recs[|recs| - 1], id);
      var v := Pass(run, dry, w, recs).value.content;
      var before, between := |w.content.history|, |u.content.history|;
      assert v.history[before..] == u.content.history[before..] + v.history[between..];
      UndoAppend(v.rows[id], id, u.content.history[before..], v.history[between..]);
      UndoRespectsData(Undo(v.rows[id], id, v.history[between..]), u.content.rows[id], id,
                       u.content.history[before..]);
    }
  }

  /******* Ingesting the same source again *******/

  /** Whether the amount survives being stored in the amount column. */
  predicate CentExact(n: Normalized) {
    Stored(Amount, n.fields[Amount]) == n.fields[Amount]
  }

  /** Every stored amount is a whole number of cents. */
  ghost predicate AmountsStored(t: Content) {
    forall i | 0 <= i < |t.rows| :: AmountStored(t.rows[i])
  }

  /** The catalogue already holds exactly what the record says. */
  ghost predicate Settled(t: Content, n: Normalized)
    requires LinksInRange(t)
  {
    n.url in t.links && !Differs(t.rows[t.links[n.url].scholarship], t.providers, n)
  }

  /** One source link per scholarship. */
  ghost predicate LinksInjective(t: Content) {
    forall u, v | u in t.links && v in t.links && u != v ::
      t.links[u].scholarship != t.links[v].scholarship
  }

  lemma WholeCents(k: int)
    ensures Cents(k as real / 100.0) == k as real / 100.0
  {
    var x := k as real / 100.0;
    assert x * 100.0 == k as real;
    assert (k as real + 0.5).Floor == k;
  }

  lemma CentsIdempotent(r: real)
    ensures Cents(Cents(r)) == Cents(r)
  {
    WholeCents((r * 100.0 + 0.5).Floor);
  }

  lemma SettledRow(row: Scholarship, providers: map<string, Option<string>>, n: Normalized)
    ensures !Differs(row, providers, n)
            <==> (forall c: Column :: row.fields[c] == n.fields[c])
                 && row.requirements == n.requirements && !ProviderChanged(row, providers, n)
  {
    ColumnsCoverAll(row.fields, n.fields);
    if ChangedColumns(row.fields, n.fields) != [] {
      assert ChangedColumns(row.fields, n.fields)[0] in ChangedColumns(row.fields, n.fields);
    }
  }

  lemma OverwrittenColumn(was: Fields, now: Fields, c: Column)
    ensures Overwrite(was, now, ChangedColumns(was, now))[c]
            == if was[c] != now[c] then Stored(c, now[c]) else now[c]
  {
    ColumnsCoverAll(was, now);
  }

  ghost predicate FieldsUpToCents(stored: Fields, given: Fields) {
    forall c: Column :: stored[c] == Stored(c, given[c])
  }

  /** The row agrees with the record, except that its amount is the stored one. */
  ghost predicate AgreesUpToCents(row: Scholarship, providers: map<string, Option<string>>, n: Normalized) {
    && FieldsUpToCents(row.fields, n.fields)
    && row.requirements == n.requirements && !ProviderChanged(row, providers, n)
  }

  lemma UpdatedAgrees(row: Scholarship, providers: map<string, Option<string>>, n: Normalized)
    requires Stored(Amount, row.fields[Amount]) == row.fields[Amount]
    requires !HistoryRefused(row, providers, n)
    ensures AgreesUpToCents(UpdatedRow(row, n),
                            if ProviderChanged(row, providers, n)
                            then UpsertProvider(providers, n.provider, n.website) else providers, n)
    ensures !Differs(row, providers, n) ==> AgreesUpToCents(row, providers, n)
  {
    hide ChangedColumns;
    hide Overwrite;
    hide FieldsUpToCents;
    OverwrittenUpToCents(row.fields, n.fields);
    SettledUpToCents(row, providers, n);
  }

  lemma OverwrittenUpToCents(was: Fields, now: Fields)
    requires Stored(Amount, was[Amount]) == was[Amount]
    ensures FieldsUpToCents(Overwrite(was, now, ChangedColumns(was, now)), now)
  {
    hide Cents;
    hide Overwrite;
    hide ChangedColumns;
    forall c: Column
      ensures Overwrite(was, now, ChangedColumns(was, now))[c] == Stored(c, now[c])
    {
      OverwrittenColumn(was, now, c);
    }
  }

  lemma SettledUpToCents(row: Scholarship, providers: map<string, Option<string>>, n: Normalized)
    requires Stored(Amount, row.fields[Amount]) == row.fields[Amount]
    ensures !Differs(row, providers, n) ==> FieldsUpToCents(row.fields, n.fields)
  {
    hide Cents;
    hide ProviderChanged;
    SettledRow(row, providers, n);
  }

  lemma CreatedAgrees(providers: map<string, Option<string>>, n: Normalized)
    ensures AgreesUpToCents(CreatedRow(n), UpsertProvider(providers, n.provider, n.website), n)
  {
    hide Stored;
  }

  /** The row an accepted record leaves behind agrees with it, except perhaps in the amount. */
  lemma LeftBehind(t: Content, run: nat, raw: RawKey, n: Normalized)
    requires LinksInRange(t) && AmountsStored(t)
    requires Apply(t, run, raw, n, false).Applied? && Apply(t, run, raw, n, false).outcome != Duplicate
    ensures var t' := Apply(t, run, raw, n, false).content;
            && LinksInRange(t') && n.url in t'.links
            && AgreesUpToCents(t'.rows[t'.links[n.url].scholarship], t'.providers, n)
  {
    hide UpdateHistory;
    hide Differs;
    hide Candidates;
    hide UrlTaken;
    hide RecordTaken;
    hide UpdatedRow;
    hide CreatedRow;
    hide UpsertProvider;
    hide AgreesUpToCents;
    hide ProviderChanged;
    ApplyKeepsLinksInRange(t, run, raw, n, false);
    if n.url in t.links {
      var row := t.rows[t.links[n.url].scholarship];
      if !Differs(row, t.providers, n) {
        NoRefusalWithoutDifference(row, t.providers, n);
      }
      UpdatedAgrees(row, t.providers, n);
    } else {
      CreatedAgrees(t.providers, n);
    }
  }

  lemma NoRefusalWithoutDifference(row: Scholarship, providers: map<string, Option<string>>, n: Normalized)
    requires !Differs(row, providers, n)
    ensures !HistoryRefused(row, providers, n)
  {
  }

  /** What a real pass over a linked record does, with its parts left unopened. */
  lemma ExistingShape(t: Content, run: nat, raw: RawKey, n: Normalized)
    requires LinksInRange(t) && n.url in t.links
    ensures var r := Apply(t, run, raw, n, false);
            var id := t.links[n.url].scholarship;
            var row := t.rows[id];
            var differs := Differs(row, t.providers, n);
            && (r.Raised? <==> differs && (|| HistoryRefused(row, t.providers, n)
                                           || !UpdateFits(row, t.providers, n)
                                           || UrlTaken(t.rows, n.fields[SourceUrl], id)))
            && (r.Applied? ==>
                  && r.outcome == (if differs then Updated else Unchanged)
                  && r.content.rows == (if differs then t.rows[id := UpdatedRow(row, n)] else t.rows)
                  && r.content.links == t.links[n.url := Refreshed(t.links[n.url], raw, n)]
                  && r.content.providers == (if differs && ProviderChanged(row, t.providers, n)
                                             then UpsertProvider(t.providers, n.provider, n.website) else t.providers))
  {
    hide Differs, HistoryRefused, UpdateFits, UrlTaken, UpdatedRow, Refreshed, ProviderChanged, UpsertProvider, UpdateHistory;
  }

  /** What a real pass over a record with a new URL does. */
  lemma NewShape(t: Content, run: nat, raw: RawKey, n: Normalized)
    requires LinksInRange(t) && n.url !in t.links
    ensures var r := Apply(t, run, raw, n, false);
            var free := Candidates(t.links, n) == {};
            && (r.Raised? <==> free && (|| !CreationFits(n)
                                        || UrlTaken(t.rows, n.fields[SourceUrl], -1)
                                        || RecordTaken(t.links, n.source, n.recordId)))
            && (r.Applied? ==>
                  && r.outcome == (if free then Created else Duplicate)
                  && r.content.rows == (if free then t.rows + [CreatedRow(n)] else t.rows)
                  && r.content.links
                     == (if free then t.links[n.url := Link(|t.rows|, raw, n.source, n.recordId, n.Print(), n.trusted, true)]
                         else t.links)
                  && r.content.providers == (if free then UpsertProvider(t.providers, n.provider, n.website) else t.providers))
  {
    hide Candidates, CreationFits, UrlTaken, RecordTaken, CreatedRow, UpsertProvider;
  }

  /** A dry record changes nothing but the quarantine. */
  lemma DryShape(t: Content, run: nat, raw: RawKey, n: Normalized)
    requires LinksInRange(t)
    ensures var r := Apply(t, run, raw, n, true);
            && r.Applied?
            && r.content.rows == t.rows && r.content.links == t.links && r.content.providers == t.providers
            && r.outcome == if n.url in t.links then
                              if Differs(t.rows[t.links[n.url].scholarship], t.providers, n) then Updated else Unchanged
                            else if Candidates(t.links, n) == {} then Created else Duplicate
  {
    hide Differs, Candidates;
  }

  predicate AmountStored(row: Scholarship) { Stored(Amount, row.fields[Amount]) == row.fields[Amount] }

  lemma StoredAmount(v: Value)
    ensures Stored(Amount, Stored(Amount, v)) == Stored(Amount, v)
  {
    if v.Number? { CentsIdempotent(v.n); }
    hide Cents;
  }

  lemma WrittenAmountsAreStored(row: Scholarship, n: Normalized)
    ensures AmountStored(CreatedRow(n))
    ensures AmountStored(row) ==> AmountStored(UpdatedRow(row, n))
  {
    StoredAmount(n.fields[Amount]);
    OverwrittenColumn(row.fields, n.fields, Amount);
    hide ChangedColumns, Overwrite, Cents;
  }

  lemma ApplyKeepsAmountsStored(t: Content, run: nat, raw: RawKey, n: Normalized, dry: bool)
    requires LinksInRange(t) && AmountsStored(t)
    ensures Apply(t, run, raw, n, dry).Applied? ==> AmountsStored(Apply(t, run, raw, n, dry).content)
  {
    hide Apply, Differs, HistoryRefused, UrlTaken, RecordTaken, Candidates, UpdatedRow, CreatedRow, UpsertProvider,
         ProviderChanged, AmountStored;
    if dry {
      DryShape(t, run, raw, n);
    } else if n.url in t.links {
      ExistingShape(t, run, raw, n);
      WrittenAmountsAreStored(t.rows[t.links[n.url].scholarship], n);
    } else {
      NewShape(t, run, raw, n);
      WrittenAmountsAreStored(CreatedRow(n), n);
    }
  }

  /**
    Once a record has been ingested, ingesting it again finds nothing to change exactly when its
    amount is a whole number of cents: the column rounds, the comparison does not.
   */
  lemma RepeatIsUnchangedExactlyForCents(t: Content, run: nat, raw: RawKey, run': nat, raw': RawKey, n: Normalized)
    requires LinksInRange(t) && AmountsStored(t)
    requires Apply(t, run, raw, n, false).Applied? && Apply(t, run, raw, n, false).outcome != Duplicate
    ensures LinksInRange(Apply(t, run, raw, n, false).content)
    ensures var again := Apply(Apply(t, run, raw, n, false).content, run', raw', n, false);
            (again.Applied? && again.outcome == Unchanged) <==> CentExact(n)
  {
    LeftBehind(t, run, raw, n);
    var t' := Apply(t, run, raw, n, false).content;
    hide Apply;
    var row := t'.rows[t'.links[n.url].scholarship];
    SettledRow(row, t'.providers, n);
    RepeatOutcome(t', run', raw', n);
  }

  lemma RepeatOutcome(t: Content, run: nat, raw: RawKey, n: Normalized)
    requires LinksInRange(t) && n.url in t.links
    ensures var again := Apply(t, run, raw, n, false);
            (again.Applied? && again.outcome == Unchanged) <==> Settled(t, n)
    ensures var again := Apply(t, run, raw, n, false);
            Settled(t, n) ==>
              again == Applied(t.(links := t.links[n.url := Refreshed(t.links[n.url], raw, n)]), Unchanged)
  {
    hide Differs;
    hide UpdatedRow;
    hide UpdateHistory;
    hide UrlTaken;
  }

  ghost predicate WebsitesAgree(a: Normalized, b: Normalized) {
    a.provider == b.provider && a.website.Some? && b.website.Some? ==> a.website == b.website
  }

  lemma ApplyKeepsLinksInjective(t: Content, run: nat, raw: RawKey, n: Normalized, dry: bool)
    requires LinksInRange(t) && LinksInjective(t)
    ensures Apply(t, run, raw, n, dry).Applied? ==> LinksInjective(Apply(t, run, raw, n, dry).content)
  {
    hide CreatedRow;
    hide UpdatedRow;
    hide UpdateHistory;
    hide Differs;
    hide UpsertProvider;
    hide ProviderChanged;
    hide UrlTaken;
    hide RecordTaken;
    hide Candidates;
  }

  /** What one record does to another record's row and provider. */
  lemma OtherRowUntouched(t: Content, run: nat, raw: RawKey, m: Normalized, url: string)
    requires LinksInRange(t) && LinksInjective(t) && url in t.links && url != m.url
    requires Apply(t, run, raw, m, false).Applied?
    ensures var t' := Apply(t, run, raw, m, false).content;
            && url in t'.links && t'.links[url] == t.links[url]
            && t'.links[url].scholarship < |t'.rows|
            && t'.rows[t'.links[url].scholarship] == t.rows[t.links[url].scholarship]
            && (t'.providers == t.providers
                || t'.providers == UpsertProvider(t.providers, m.provider, m.website))
  {
    hide CreatedRow;
    hide UpdatedRow;
    hide UpdateHistory;
    hide Differs;
    hide UpsertProvider;
    hide ProviderChanged;
    hide UrlTaken;
    hide RecordTaken;
    hide Candidates;
  }

  lemma SettledKept(t: Content, run: nat, raw: RawKey, m: Normalized, n: Normalized)
    requires LinksInRange(t) && LinksInjective(t)
    requires Settled(t, n) && m.url != n.url && WebsitesAgree(m, n)
    requires Apply(t, run, raw, m, false).Applied?
    ensures LinksInRange(Apply(t, run, raw, m, false).content)
    ensures Settled(Apply(t, run, raw, m, false).content, n)
  {
    hide Apply;
    ApplyKeepsLinksInRange(t, run, raw, m, false);
    OtherRowUntouched(t, run, raw, m, n.url);
  }

  /** Records that pass validation, name distinct URLs, and agree on each provider's website. */
  ghost predicate Consistent(recs: seq<Record>) {
    && (forall i | 0 <= i < |recs| ::
          recs[i].raw.RawOk? && recs[i].norm.NormOk? && CentExact(recs[i].norm.n))
    && (forall i, j | 0 <= i < j < |recs| ::
          recs[i].norm.n.url != recs[j].norm.n.url && WebsitesAgree(recs[j].norm.n, recs[i].norm.n))
  }

  ghost predicate AllSettled(t: Content, recs: seq<Record>)
    requires LinksInRange(t) && Consistent(recs)
  {
    forall i | 0 <= i < |recs| :: Settled(t, recs[i].norm.n)
  }

  lemma {:induction false} FirstPassSettles(run: nat, w: World, recs: seq<Record>)
    requires LinksInRange(w.content) && LinksInjective(w.content) && AmountsStored(w.content)
    requires Consistent(recs) && Pass(run, false, w, recs).Some?
    ensures var v := Pass(run, false, w, recs).value;
            && v.tally.duplicates >= w.tally.duplicates
            && LinksInjective(v.content) && AmountsStored(v.content)
            && (v.tally.duplicates == w.tally.duplicates ==> AllSettled(v.content, recs))
  {
    hide Apply, Settled, WebsitesAgree, LinksInjective, AmountsStored, CentExact, LinksInRange;
    if recs != [] {
      var k := |recs| - 1;
      FirstPassSettles(run, w, recs[..k]);
      var u := Pass(run, false, w, recs[..k]).value;
      var n, raw := recs[k].norm.n, KeyOf(run, recs[k]);
      ApplyKeepsLinksInjective(u.content, run, raw, n, false);
      ApplyKeepsAmountsStored(u.content, run, raw, n, false);
      var v := Pass(run, false, w, recs).value;
      if v.tally.duplicates == w.tally.duplicates {
        LastSettles(u.content, run, raw, n);
        forall i | 0 <= i < k ensures Settled(v.content, recs[i].norm.n) {
          assert recs[i] == recs[..k][i];
          SettledKept(u.content, run, raw, n, recs[i].norm.n);
        }
      }
    }
  }

  lemma LastSettles(t: Content, run: nat, raw: RawKey, n: Normalized)
    requires LinksInRange(t) && AmountsStored(t) && CentExact(n)
    requires Apply(t, run, raw, n, false).Applied? && Apply(t, run, raw, n, false).outcome != Duplicate
    ensures LinksInRange(Apply(t, run, raw, n, false).content)
    ensures Settled(Apply(t, run, raw, n, false).content, n)
  {
    LeftBehind(t, run, raw, n);
    var t' := Apply(t, run, raw, n, false).content;
    hide Apply;
    SettledRow(t'.rows[t'.links[n.url].scholarship], t'.providers, n);
  }

  /** Equal but for when and in which raw record a link was last seen. */
  ghost predicate SameButSightings(a: Content, b: Content) {
    && a.rows == b.rows && a.providers == b.providers
    && a.history == b.history && a.quarantine == b.quarantine
    && a.links.Keys == b.links.Keys
    && (forall u | u in a.links ::
          b.links[u].scholarship == a.links[u].scholarship && b.links[u].source == a.links[u].source
          && b.links[u].recordId == a.links[u].recordId && b.links[u].trusted == a.links[u].trusted)
  }

  lemma SightingsKeepSettled(a: Content, b: Content, n: Normalized)
    requires LinksInRange(a) && LinksInRange(b) && SameButSightings(a, b) && Settled(a, n)
    ensures Settled(b, n)
  {
    hide Differs;
  }

  lemma RefreshedIsSighting(a: Content, b: Content, raw: RawKey, n: Normalized)
    requires n.url in b.links && SameButSightings(a, b)
    ensures SameButSightings(a, b.(links := b.links[n.url := Refreshed(b.links[n.url], raw, n)]))
  {
  }

  lemma SettledFront(t: Content, recs: seq<Record>)
    requires recs != [] && LinksInRange(t) && Consistent(recs) && AllSettled(t, recs)
    ensures Consistent(recs[..|recs| - 1]) && AllSettled(t, recs[..|recs| - 1])
  {
    hide Settled, CentExact, WebsitesAgree;
    var front := recs[..|recs| - 1];
    forall i | 0 <= i < |front| ensures front[i] == recs[i] {}
  }

  lemma {:induction false} SettledPassChangesNothing(run: nat, w: World, recs: seq<Record>)
    requires LinksInRange(w.content) && Consistent(recs) && AllSettled(w.content, recs)
    ensures var r := Pass(run, false, w, recs);
            && r.Some?
            && SameButSightings(w.content, r.value.content)
            && r.value.tally == w.tally.(untouched := w.tally.untouched + |recs|)
  {
    hide Apply, Differs, SameButSightings, Settled, CentExact, WebsitesAgree, LinksInRange;
    if recs == [] {
      SameIsSameButSightings(w.content);
    } else {
      var k := |recs| - 1;
      SettledFront(w.content, recs);
      SettledPassChangesNothing(run, w, recs[..k]);
      var u, n, raw := Pass(run, false, w, recs[..k]).value, recs[k].norm.n, KeyOf(run, recs[k]);
      SightingsKeepSettled(w.content, u.content, n);
      SettledIsLinked(u.content, n);
      RepeatOutcome(u.content, run, raw, n);
      RefreshedIsSighting(w.content, u.content, raw, n);
    }
  }

  lemma SettledIsLinked(t: Content, n: Normalized)
    requires LinksInRange(t) && Settled(t, n)
    ensures n.url in t.links
  {
  }

  lemma SameIsSameButSightings(t: Content)
    ensures SameButSightings(t, t)
  {
  }

  /**
    Re-ingesting a source: after a pass over consistent records with no duplicates, a second pass,
    in another run, reports every record unchanged and leaves rows, providers, history and
    quarantine as they were.
   */
  lemma SecondPassChangesNothing(run: nat, run': nat, w: World, recs: seq<Record>)
    requires LinksInRange(w.content) && LinksInjective(w.content) && AmountsStored(w.content)
    requires Consistent(recs) && Pass(run, false, w, recs).Some?
    requires Pass(run, false, w, recs).value.tally.duplicates == w.tally.duplicates
    ensures var v := Pass(run, false, w, recs).value;
            var again := Pass(run', false, World(v.content, NO_TALLY), recs);
            && again.Some?
            && again.value.tally == Tally(0, 0, |recs|, 0, 0)
            && SameButSightings(v.content, again.value.content)
  {
    FirstPassSettles(run, w, recs);
    SettledPassChangesNothing(run', World(Pass(run, false, w, recs).value.content, NO_TALLY), recs);
  }

  lemma PassOfTwo(run: nat, w: World, a: Record, b: Record)
    requires LinksInRange(w.content)
    ensures Pass(run, false, w, [a, b])
            == match PassOne(run, false, w, a)
               case None => None
               case Some(u) => PassOne(run, false, u, b)
  {
    hide PassOne;
    assert [a, b][..1] == [a] && [a][..0] == [];
    assert Pass(run, false, w, []) == Some(w);
    assert Pass(run, false, w, [a]) == PassOne(run, false, w, a);
  }

  /******* Duplicate detection *******/

  /** Every stored fingerprint carries its own URL as the evidence of each requirement. */
  ghost predicate PrintsCarryUrl(t: Content) {
    forall u | u in t.links ::
      forall i | 0 <= i < |t.links[u].fingerprint.requirements| ::
        t.links[u].fingerprint.requirements[i].evidence.sourceUrl == Some(u)
  }

  lemma ApplyKeepsPrintsCarryUrl(t: Content, run: nat, raw: RawKey, n: Normalized, dry: bool)
    requires LinksInRange(t) && PrintsCarryUrl(t) && n.FromNormalizer()
    ensures Apply(t, run, raw, n, dry).Applied? ==> PrintsCarryUrl(Apply(t, run, raw, n, dry).content)
  {
    hide CreatedRow;
    hide UpdatedRow;
    hide UpdateHistory;
    hide Differs;
    hide UpsertProvider;
    hide ProviderChanged;
    hide UrlTaken;
    hide RecordTaken;
    hide Candidates;
  }

  lemma EvidenceFixesUrl(requirements: seq<Requirement>, u: string, v: string)
    requires forall i | 0 <= i < |requirements| :: requirements[i].evidence.sourceUrl == Some(u)
    requires forall i | 0 <= i < |requirements| :: requirements[i].evidence.sourceUrl == Some(v)
    ensures requirements != [] ==> u == v
  {
    if requirements != [] {
      assert requirements[0].evidence.sourceUrl == Some(u);
    }
  }
}
