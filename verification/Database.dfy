/**
  The tables an ingestion worker changes, and the repository methods that change them statement by
  statement. A unit of work takes a `Snapshot` first and goes back to it when anything raises.
 */
module IngestionDatabase {
  import opened Prelude
  import opened Rules
  import opened Catalogue
  import opened IngestionRuns

  class Database {
    var rows: seq<Scholarship>
    var links: map<string, Link>
    var providers: map<string, Option<string>>
    var history: seq<HistoryRow>
    var quarantine: seq<QuarantineRow>
    var items: seq<Item>
    var run: Run

    constructor (content: Content, items: seq<Item>, run: Run)
      ensures Snapshot() == DB(content, items, run)
    {
      rows, links, providers := content.rows, content.links, content.providers;
      history, quarantine := content.history, content.quarantine;
      this.items, this.run := items, run;
    }

    function Tables(): Content
      reads this
    {
      Content(rows, links, providers, history, quarantine)
    }

    function Snapshot(): DB
      reads this
    {
      DB(Tables(), items, run)
    }

    /** Rolls the current unit of work back. */
    method Restore(saved: DB)
      modifies this
      ensures Snapshot() == saved
    {
      rows, links, providers := saved.content.rows, saved.content.links, saved.content.providers;
      history, quarantine := saved.content.history, saved.content.quarantine;
      items, run := saved.items, saved.run;
    }

    /******* Runs and items *******/

    method Claim() returns (claimed: Option<Run>)
      modifies `run
      ensures claimed == if old(run).Claimable() then Some(old(run).Claimed()) else None
      ensures run == if claimed.Some? then claimed.value else old(run)
    {
      if run.status != Queued && run.status != Partial { return None; }
      run := run.(status := Running, attempts := run.attempts + 1);
      return Some(run);
    }

    method Advance(cursor: nat, counters: Counters, status: RunStatus)
      modifies `run
      ensures run == old(run).Advanced(cursor, counters, status)
    {
      run := run.(cursor := cursor, counters := counters, status := status);
    }

    method StoreRaw(raw: RawKey, position: nat) returns (ok: bool)
      modifies `items
      ensures ok == IngestionRuns.StoreRaw(old(items), raw, position).Some?
      ensures ok ==> items == IngestionRuns.StoreRaw(old(items), raw, position).value
      ensures !ok ==> items == old(items)
    {
      if HasItem(items, raw) { return true; }
      if PositionTaken(items, position) { return false; }
      items := items + [Item(raw, position, 0, Pending)];
      return true;
    }

    method MarkItem(raw: RawKey, status: ItemStatus)
      modifies `items
      ensures items == MarkItems(old(items), raw, status)
    {
      for i := 0 to |items|
        invariant |items| == |old(items)|
        invariant forall j | 0 <= j < i :: items[j] == Marked(old(items)[j], raw, status)
        invariant forall j | i <= j < |items| :: items[j] == old(items)[j]
      {
        if items[i].raw == raw { items := items[i := items[i].(status := status)]; }
      }
    }

    method FailItem(raw: RawKey) returns (final: bool)
      modifies `items
      ensures items == FailItems(old(items), raw)
      ensures final == FailureIsFinal(old(items), raw)
    {
      final := false;
      for i := 0 to |items|
        invariant |items| == |old(items)|
        invariant forall j | 0 <= j < i :: items[j] == FailedItem(old(items)[j], raw)
        invariant forall j | i <= j < |items| :: items[j] == old(items)[j]
        invariant final <==> exists j | 0 <= j < i ::
                    old(items)[j].raw == raw && old(items)[j].attempts + 1 >= 3
      {
        if items[i].raw == raw {
          var attempts := items[i].attempts + 1;
          var status := if attempts >= 3 then DeadLetter else Pending;
          items := items[i := items[i].(attempts := attempts, status := status)];
          if status == DeadLetter { final := true; }
        }
      }
    }

    method Reject(raw: Option<RawKey>, code: string, summary: string,
                  fingerprint: Option<Fingerprint>, candidates: set<nat>)
      modifies `quarantine, `items
      ensures quarantine == old(quarantine) + [QuarantineRow(run.id, raw, code, summary, fingerprint, candidates)]
      ensures items == if raw.Some? then MarkItems(old(items), raw.value, ItemRejected) else old(items)
    {
      quarantine := quarantine + [QuarantineRow(run.id, raw, code, summary, fingerprint, candidates)];
      if raw.Some? { MarkItem(raw.value, ItemRejected); }
    }

    /******* Catalogue *******/

    /** The check on the length of canonical names comes before the conflict is looked for. */
    method UpsertProvider(name: string, website: Option<string>) returns (ok: bool)
      modifies `providers
      ensures ok <==> NameFits(name)
      ensures providers == if ok then Catalogue.UpsertProvider(old(providers), name, website) else old(providers)
    {
      if !NameFits(name) { return false; }
      ok := true;
      if name !in providers {
        providers := providers[name := website];
      } else if website.Some? {
        providers := providers[name := website];
      }
    }

    /** Inserts a draft without requirements; the amount has a range, and the source URL is unique. */
    method Create(n: Normalized) returns (id: Option<nat>)
      modifies `providers, `rows
      ensures id.None? <==> !CreationFits(n) || UrlTaken(old(rows), n.fields[SourceUrl], -1)
      ensures id.Some? ==>
                && providers == Catalogue.UpsertProvider(old(providers), n.provider, n.website)
                && id.value == |old(rows)|
                && rows == old(rows) + [Scholarship(n.provider, StoredFields(n.fields), Some(n.Print()),
                                                   [], Draft, false, 1)]
    {
      var ok := UpsertProvider(n.provider, n.website);
      if !ok || !AmountFits(n.fields[Amount]) || UrlTaken(rows, n.fields[SourceUrl], -1) { return None; }
      id := Some(|rows|);
      rows := rows + [Scholarship(n.provider, StoredFields(n.fields), Some(n.Print()), [], Draft, false, 1)];
    }

    method ReplaceRequirements(id: nat, requirements: seq<Requirement>)
      requires id < |rows|
      modifies `rows
      ensures rows == old(rows)[id := old(rows)[id].(requirements := requirements)]
    {
      rows := rows[id := rows[id].(requirements := requirements)];
    }

    /** The inserts for a record nothing in the catalogue matches; on failure the caller rolls back. */
    method InsertScholarship(raw: RawKey, n: Normalized) returns (ok: bool)
      modifies `providers, `rows, `links
      ensures ok <==> && CreationFits(n)
                      && !UrlTaken(old(rows), n.fields[SourceUrl], -1)
                      && !RecordTaken(old(links), n.source, n.recordId)
      ensures ok ==>
                && rows == old(rows) + [CreatedRow(n)]
                && links == old(links)[n.url := Link(|old(rows)|, raw, n.source, n.recordId,
                                                     n.Print(), n.trusted, true)]
                && providers == Catalogue.UpsertProvider(old(providers), n.provider, n.website)
    {
      hide CreationFits, UrlTaken, RecordTaken, StoredFields, Catalogue.UpsertProvider;
      var id := Create(n);
      if id.None? { return false; }
      ReplaceRequirements(id.value, n.requirements);
      if RecordTaken(links, n.source, n.recordId) { return false; }
      links := links[n.url := Link(id.value, raw, n.source, n.recordId, n.Print(), n.trusted, true)];
      if n.trusted {
        rows := rows[id.value := rows[id.value].(status := Published, verified := true)];
      }
      return true;
    }

    method ApplyNew(raw: RawKey, n: Normalized, dry: bool) returns (outcome: Option<Outcome>)
      modifies this
      ensures run == old(run)
      ensures match Catalogue.ApplyNew(old(Tables()), run.id, raw, n, dry)
              case Raised => outcome.None?
              case Applied(t, o) =>
                && outcome == Some(o) && Tables() == t
                && items == MarkItems(old(items), raw, AppliedStatus(o))
    {
      hide CreationFits, UrlTaken, RecordTaken, CreatedRow, Candidates, MarkItems, Catalogue.UpsertProvider;
      var candidates := Candidates(links, n);
      if candidates != {} {
        Reject(Some(raw), "AMBIGUOUS_DUPLICATE",
               "Fingerprint matched a different canonical source URL.", Some(n.Print()), candidates);
        return Some(Duplicate);
      }
      if dry {
        MarkItem(raw, ItemCompleted);
        return Some(Created);
      }
      var ok := InsertScholarship(raw, n);
      if !ok { return None; }
      MarkItem(raw, ItemCompleted);
      return Some(Created);
    }

    /** The columns that differ, in column order. */
    static method CollectChanges(was: Fields, now: Fields) returns (changed: seq<Column>)
      ensures changed == ChangedColumns(was, now)
    {
      changed := [];
      for i := 0 to |COLUMNS|
        invariant changed == ChangedAmong(was, now, i)
      {
        if ChangedAt(was, now, i) { changed := changed + [COLUMNS[i]]; }
      }
    }

    method RecordColumns(id: nat, raw: RawKey, was: Fields, now: Fields, changed: seq<Column>)
      modifies `history
      ensures history == old(history) + ColumnHistory(id, raw, was, now, changed)
    {
      for i := 0 to |changed|
        invariant history == old(history) + ColumnHistory(id, raw, was, now, changed)[..i]
      {
        var c := changed[i];
        history := history + [HistoryRow(id, raw, ColumnChange(c, was[c], now[c]))];
      }
    }

    /** All history rows of one update; the table refuses a provider id that changes to itself. */
    method RecordUpdate(id: nat, raw: RawKey, n: Normalized, changed: seq<Column>, ghost before: map<string, Option<string>>,
                        providerChanged: bool, requirementsChanged: bool) returns (ok: bool)
      requires id < |rows| && changed == ChangedColumns(rows[id].fields, n.fields)
      requires providerChanged == ProviderChanged(rows[id], before, n)
      requires requirementsChanged == (rows[id].requirements != n.requirements)
      modifies `history
      ensures ok <==> !HistoryRefused(rows[id], before, n)
      ensures ok ==> history == old(history) + UpdateHistory(id, raw, rows[id], before, n)
    {
      hide ChangedColumns, ColumnHistory, ProviderChanged, UpdateHistory;
      var row := rows[id];
      HistoryWritten(id, raw, row, before, n);
      RecordColumns(id, raw, row.fields, n.fields, changed);
      if providerChanged {
        if row.provider == n.provider { return false; }
        history := history + [HistoryRow(id, raw, ProviderChange(row.provider, n.provider))];
      }
      if requirementsChanged {
        history := history + [HistoryRow(id, raw, RequirementsChange(row.requirements, n.requirements))];
      }
      return true;
    }

    /**
      Writes a record over the scholarship it is linked to. The history table refuses a provider id
      that changes to itself; the amount and the canonical name have their ranges; the URL is unique.
     */
    method WriteUpdate(id: nat, raw: RawKey, n: Normalized, changed: seq<Column>,
                       providerChanged: bool, requirementsChanged: bool) returns (ok: bool)
      requires id < |rows|
      requires changed == ChangedColumns(rows[id].fields, n.fields)
      requires providerChanged == ProviderChanged(rows[id], providers, n)
      requires requirementsChanged == (rows[id].requirements != n.requirements)
      modifies `rows, `providers, `history
      ensures ok <==> && !HistoryRefused(old(rows)[id], old(providers), n)
                      && UpdateFits(old(rows)[id], old(providers), n)
                      && !UrlTaken(old(rows), n.fields[SourceUrl], id)
      ensures ok ==>
                && rows == old(rows)[id := UpdatedRow(old(rows)[id], n)]
                && providers == (if ProviderChanged(old(rows)[id], old(providers), n)
                                 then Catalogue.UpsertProvider(old(providers), n.provider, n.website)
                                 else old(providers))
                && history == old(history) + UpdateHistory(id, raw, old(rows)[id], old(providers), n)
    {
      hide UrlTaken, Overwrite, ChangedColumns, ColumnHistory, Catalogue.UpsertProvider, ProviderChanged, UpdatedRow,
           UpdateHistory, HistoryRefused, AmountFits, NameFits;
      var row := rows[id];
      if providerChanged {
        var stored := UpsertProvider(n.provider, n.website);
        if !stored { return false; }
      }
      var recorded := RecordUpdate(id, raw, n, changed, old(providers), providerChanged, requirementsChanged);
      if !recorded { return false; }
      AmountIsListed(row.fields, n.fields);
      if Amount in changed && !AmountFits(n.fields[Amount]) { return false; }
      if UrlTaken(rows, n.fields[SourceUrl], id) { return false; }
      var provider := if providerChanged then n.provider else row.provider;
      RowWritten(row, old(providers), n);
      rows := rows[id := row.(provider := provider,
                              fields := Overwrite(row.fields, n.fields, changed),
                              fingerprint := Some(n.Print()),
                              status := if n.trusted then row.status else InReview,
                              verified := if n.trusted then row.verified else false,
                              version := row.version + 1)];
      if requirementsChanged { ReplaceRequirements(id, n.requirements); }
      return true;
    }

    method ApplyExisting(raw: RawKey, n: Normalized, dry: bool) returns (outcome: Option<Outcome>)
      requires n.url in links && links[n.url].scholarship < |rows|
      modifies this
      ensures run == old(run)
      ensures match Catalogue.ApplyExisting(old(Tables()), raw, n, dry)
              case Raised => outcome.None?
              case Applied(t, o) =>
                && outcome == Some(o) && Tables() == t
                && items == MarkItems(old(items), raw, AppliedStatus(o))
    {
      hide UpdateFits, UrlTaken, UpdatedRow, UpdateHistory, ChangedColumns, MarkItems, Catalogue.UpsertProvider,
           ProviderChanged;
      var link := links[n.url];
      var row := rows[link.scholarship];
      var changed := CollectChanges(row.fields, n.fields);
      var providerChanged := ProviderChanged(row, providers, n);
      var requirementsChanged := row.requirements != n.requirements;
      var differs := changed != [] || requirementsChanged || providerChanged;
      if dry {
        MarkItem(raw, ItemCompleted);
        return Some(if differs then Updated else Unchanged);
      }
      links := links[n.url := link.(raw := raw, fingerprint := n.Print(), active := true)];
      if differs {
        var ok := WriteUpdate(link.scholarship, raw, n, changed, providerChanged, requirementsChanged);
        if !ok { return None; }
      }
      MarkItem(raw, ItemCompleted);
      return Some(if differs then Updated else Unchanged);
    }

    /** One normalized record, inside one unit of work; `None` is a database error. */
    method ApplyNormalized(raw: RawKey, n: Normalized, dry: bool) returns (outcome: Option<Outcome>)
      requires LinksInRange(Tables())
      modifies this
      ensures run == old(run)
      ensures match Apply(old(Tables()), run.id, raw, n, dry)
              case Raised => outcome.None?
              case Applied(t, o) =>
                && outcome == Some(o) && Tables() == t
                && items == MarkItems(old(items), raw, AppliedStatus(o))
    {
      hide Catalogue.ApplyNew;
      hide Catalogue.ApplyExisting;
      if n.url in links {
        outcome := ApplyExisting(raw, n, dry);
      } else {
        outcome := ApplyNew(raw, n, dry);
      }
    }
  }

  function AppliedStatus(o: Outcome): ItemStatus {
    if o == Duplicate then ItemRejected else ItemCompleted
  }

  lemma AmountIsListed(was: Fields, now: Fields)
    ensures Amount in ChangedColumns(was, now) <==> was[Amount] != now[Amount]
  {
    assert COLUMNS[..|COLUMNS|][2] == Amount;
  }

  /** The history rows one update appends, one kind after the other. */
  lemma HistoryWritten(id: nat, raw: RawKey, row: Scholarship, providers: map<string, Option<string>>, n: Normalized)
    ensures UpdateHistory(id, raw, row, providers, n)
            == ColumnHistory(id, raw, row.fields, n.fields, ChangedColumns(row.fields, n.fields))
               + (if ProviderChanged(row, providers, n)
                  then [HistoryRow(id, raw, ProviderChange(row.provider, n.provider))] else [])
               + (if row.requirements != n.requirements
                  then [HistoryRow(id, raw, RequirementsChange(row.requirements, n.requirements))] else [])
  {
    hide ChangedColumns, ColumnHistory, ProviderChanged;
  }

  /** The row the update and the replacement of its requirements leave. */
  lemma RowWritten(row: Scholarship, providers: map<string, Option<string>>, n: Normalized)
    ensures row.(provider := if ProviderChanged(row, providers, n) then n.provider else row.provider,
                 fields := Overwrite(row.fields, n.fields, ChangedColumns(row.fields, n.fields)),
                 fingerprint := Some(n.Print()),
                 requirements := n.requirements,
                 status := if n.trusted then row.status else InReview,
                 verified := if n.trusted then row.verified else false,
                 version := row.version + 1)
            == UpdatedRow(row, n)
  {
    hide Overwrite, ChangedColumns;
  }
}
