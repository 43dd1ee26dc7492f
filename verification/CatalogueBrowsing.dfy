/**
  Browsing the catalogue: the tables are listings, filtered and sorted anew at every page. A filter on
  columns that a listing does not hold is taken to have been applied to the tables.
 */
module CatalogueBrowsing {
  import opened Prelude
  import opened Keyset
  import opened KeysetTheorems
  import opened Pagination
  import opened PaginationTheorems

  ghost predicate DistinctIds(table: seq<Listing>) {
    forall i, j | 0 <= i < j < |table| :: table[i].id != table[j].id
  }

  function At(sort: Sort, r: Listing): Position { Position(CursorValue(sort, r), r.id) }

  /** A listing that passes the filter, under this sort value. */
  ghost predicate ListedAt(sort: Sort, shown: Listing -> bool, table: seq<Listing>, p: Position) {
    exists i | 0 <= i < |table| :: shown(table[i]) && At(sort, table[i]) == p
  }

  /** The table each page reads, after the filter. */
  function Views(sort: Sort, shown: Listing -> bool, tables: seq<seq<Listing>>): seq<seq<Item<Listing>>> {
    seq(|tables|, i requires 0 <= i < |tables| => Rows(sort, shown, tables[i]))
  }

  /** Filtering a table keeps its ids distinct, whatever is shown and however it is sorted. */
  lemma {:induction false} RowsAreDistinct(sort: Sort, shown: Listing -> bool, table: seq<Listing>)
    requires DistinctIds(table)
    ensures Distinct(Rows(sort, shown, table)) && TypedRows(sort, Rows(sort, shown, table))
  {
    RowsAreTyped(sort, shown, table);
    if table != [] {
      var rest := Rows(sort, shown, table[1..]);
      forall i, j | 0 <= i < j < |table[1..]| ensures table[1..][i].id != table[1..][j].id {
        assert table[i + 1].id != table[j + 1].id;
      }
      RowsAreDistinct(sort, shown, table[1..]);
      forall k | 0 <= k < |rest| ensures rest[k].at.id != table[0].id {
        RowIsOfTable(sort, shown, table[1..], k);
      }
    }
  }

  lemma {:induction false} RowIsOfTable(sort: Sort, shown: Listing -> bool, table: seq<Listing>, k: nat)
    requires k < |Rows(sort, shown, table)|
    ensures exists i | 0 <= i < |table| :: table[i].id == Rows(sort, shown, table)[k].at.id
  {
    var rows := Rows(sort, shown, table);
    var first := if shown(table[0]) then 1 else 0;
    if k < first {
      assert table[0].id == rows[k].at.id;
    } else {
      RowIsOfTable(sort, shown, table[1..], k - first);
      var i :| 0 <= i < |table[1..]| && table[1..][i].id == Rows(sort, shown, table[1..])[k - first].at.id;
      assert table[i + 1].id == rows[k].at.id;
    }
  }

  /** What the query can list: exactly the listings that pass. */
  lemma {:induction false} RowsArePresent(sort: Sort, shown: Listing -> bool, table: seq<Listing>, p: Position)
    ensures Present(Rows(sort, shown, table), p) <==> ListedAt(sort, shown, table, p)
  {
    if table != [] {
      var first := if shown(table[0]) then [Item(At(sort, table[0]), table[0])] else [];
      var rest := Rows(sort, shown, table[1..]);
      assert Rows(sort, shown, table) == first + rest;
      assert Present(first, p) <==> shown(table[0]) && At(sort, table[0]) == p by {
        if shown(table[0]) { assert first[0].at == At(sort, table[0]); }
      }
      RowsArePresent(sort, shown, table[1..], p);
      hide Present, ListedAt, Rows;
      PresentInSum(first, rest, p);
      ListedInFront(sort, shown, table, p);
    }
  }

  lemma PresentInSum(a: seq<Item<Listing>>, b: seq<Item<Listing>>, p: Position)
    ensures Present(a + b, p) <==> Present(a, p) || Present(b, p)
  {
    if Present(b, p) {
      var i :| 0 <= i < |b| && b[i].at == p;
      assert (a + b)[|a| + i].at == p;
    }
    if Present(a, p) {
      var i :| 0 <= i < |a| && a[i].at == p;
      assert (a + b)[i].at == p;
    }
  }

  lemma ListedInFront(sort: Sort, shown: Listing -> bool, table: seq<Listing>, p: Position)
    requires table != []
    ensures ListedAt(sort, shown, table, p)
            <==> (shown(table[0]) && At(sort, table[0]) == p) || ListedAt(sort, shown, table[1..], p)
  {
    if ListedAt(sort, shown, table, p) {
      var i :| 0 <= i < |table| && shown(table[i]) && At(sort, table[i]) == p;
      if i > 0 { assert table[1..][i - 1] == table[i]; }
    }
    if ListedAt(sort, shown, table[1..], p) {
      var i :| 0 <= i < |table[1..]| && shown(table[1..][i]) && At(sort, table[1..][i]) == p;
      assert table[i + 1] == table[1..][i];
    }
  }

  lemma ViewsAreDistinct(sort: Sort, shown: Listing -> bool, tables: seq<seq<Listing>>)
    requires forall i | 0 <= i < |tables| :: DistinctIds(tables[i])
    ensures AllDistinct(Views(sort, shown, tables))
    ensures forall i | 0 <= i < |tables| :: TypedRows(sort, Views(sort, shown, tables)[i])
  {
    hide DistinctIds, Distinct, TypedRows, Rows;
    forall i | 0 <= i < |tables|
      ensures Distinct(Views(sort, shown, tables)[i]) && TypedRows(sort, Views(sort, shown, tables)[i])
    {
      RowsAreDistinct(sort, shown, tables[i]);
    }
  }

  /** A walk lists only what is there when it is read. */
  lemma {:induction false} WalkListsPresent<T>(o: Order, tables: seq<seq<Item<T>>>, start: Option<Position>,
                                               limit: nat, p: Position) returns (i: nat)
    requires AllDistinct(tables) && limit > 0 && Times(Keyset.Listed(Walk(o, tables, start, limit)), p) > 0
    ensures i < |Walk(o, tables, start, limit)| && Present(tables[i], p)
    decreases |tables|
  {
    var page := ReadPage(o, tables[0], start, limit);
    var pages := Walk(o, tables, start, limit);
    PageLists(o, tables[0], start, limit, p);
    TimesOfSum(page.data, Keyset.Listed(pages[1..]), p);
    hide ReadPage, Present, Distinct;
    if Times(page.data, p) > 0 {
      i := 0;
    } else {
      assert pages[1..] == Walk(o, tables[1..], page.next, limit);
      i := WalkListsPresent(o, tables[1..], page.next, limit, p);
      i := i + 1;
    }
  }

  /**
    The catalogue may change between pages. What a client is shown passed the filter when its page
    was read; no listing is shown twice with one sort value; and one that is there and passes at
    every page, with one sort value, is shown once when the end is reached.
   */
  lemma ClientSeesEachOnce(codec: Codec<Cursor>, sort: Sort, shown: Listing -> bool, tables: seq<seq<Listing>>,
                           limit: nat, p: Position)
    requires Faithful(codec) && limit > 0 && forall i | 0 <= i < |tables| :: DistinctIds(tables[i])
    ensures var replies := Browse(codec, sort, Views(sort, shown, tables), None, limit);
            AllServed(replies) ==>
              && Times(Shown(replies), p) <= 1
              && (Times(Shown(replies), p) == 1 ==>
                    exists i | 0 <= i < |replies| :: ListedAt(sort, shown, tables[i], p))
              && (AtEnd(replies) && (forall i | 0 <= i < |replies| :: ListedAt(sort, shown, tables[i], p)) ==>
                    Times(Shown(replies), p) == 1)
  {
    hide Faithful, DistinctIds, Distinct, TypedRows, Rows, ListedAt, Present, Walk, Browse, AllServed, AllShort, Shown,
         AtEnd, Times, Keyset.Listed, AllShown;
    var views := Views(sort, shown, tables);
    var replies := Browse(codec, sort, views, None, limit);
    ViewsAreDistinct(sort, shown, tables);
    BrowseShowsOnce(codec, sort, views, limit, p);
    forall i | 0 <= i < |tables| ensures Present(views[i], p) <==> ListedAt(sort, shown, tables[i], p) {
      RowsArePresent(sort, shown, tables[i], p);
    }
    if AllServed(replies) && Times(Shown(replies), p) == 1 {
      var pages := Walk(OrderOf(sort), views, None, limit);
      BrowseIsWalkExactlyForShortValues(codec, sort, views, None, limit);
      ShownIsListed(replies, pages);
      ShownHasLength(replies, pages);
      var i := WalkListsPresent(OrderOf(sort), views, None, limit, p);
      assert ListedAt(sort, shown, tables[i], p);
    }
  }

  lemma ShownHasLength(replies: seq<Reply>, pages: seq<Page<Listing>>)
    requires AllShown(replies, pages)
    ensures |replies| == |pages|
  {
  }

  /**
    A catalogue that does not change is shown whole: in order, exactly the listings that pass the
    filter, each once, if their sort values are short enough for a cursor.
   */
  lemma FilteredCatalogueIsShownWhole(codec: Codec<Cursor>, sort: Sort, shown: Listing -> bool, table: seq<Listing>,
                                      pages: nat, limit: nat)
    requires Faithful(codec) && limit > 0 && DistinctIds(table) && pages > |table|
    requires forall i | 0 <= i < |table| && shown(table[i]) :: Width(CursorValue(sort, table[i])) <= MAX_VALUE
    ensures var replies := Browse(codec, sort, Views(sort, shown, seq(pages, i => table)), None, limit);
            && AllServed(replies) && Ordered(OrderOf(sort), Shown(replies))
            && forall p :: Times(Shown(replies), p) == if ListedAt(sort, shown, table, p) then 1 else 0
  {
    hide Faithful, DistinctIds, Distinct, Browse, AllServed, Shown, Present, Ordered, Times, Width;
    var rows, o := Rows(sort, shown, table), OrderOf(sort);
    var views := Views(sort, shown, seq(pages, i => table));
    RowsAreDistinct(sort, shown, table);
    RowsAreFew(sort, shown, table);
    RowsAreShort(sort, shown, table);
    UnchangedCatalogueIsShownWhole(codec, sort, rows, views, limit);
    hide Rows, ListedAt;
    forall p
      ensures Times(rows, p) <= 1
      ensures Times(Sorted(o, rows), p) == if ListedAt(sort, shown, table, p) then 1 else 0
    {
      SortedTimes(o, rows, p);
      TimesInDistinct(rows, p);
      TimesOfPresent(rows, p);
      RowsArePresent(sort, shown, table, p);
    }
    SortedOrdered(o, rows);
  }

  lemma {:induction false} RowsAreFew(sort: Sort, shown: Listing -> bool, table: seq<Listing>)
    ensures |Rows(sort, shown, table)| <= |table|
  {
    if table != [] { RowsAreFew(sort, shown, table[1..]); }
  }

  lemma {:induction false} RowsAreShort(sort: Sort, shown: Listing -> bool, table: seq<Listing>)
    requires forall i | 0 <= i < |table| && shown(table[i]) :: Width(CursorValue(sort, table[i])) <= MAX_VALUE
    ensures forall i | 0 <= i < |Rows(sort, shown, table)| :: Width(Rows(sort, shown, table)[i].at.value) <= MAX_VALUE
  {
    hide Width;
    if table != [] {
      var rest := Rows(sort, shown, table[1..]);
      forall i | 0 <= i < |table[1..]| && shown(table[1..][i])
        ensures Width(CursorValue(sort, table[1..][i])) <= MAX_VALUE
      {
        assert table[1..][i] == table[i + 1];
      }
      RowsAreShort(sort, shown, table[1..]);
      var rows := Rows(sort, shown, table);
      var first := if shown(table[0]) then 1 else 0;
      forall i | 0 <= i < |rows| ensures Width(rows[i].at.value) <= MAX_VALUE {
        if i >= first { assert rows[i] == rest[i - first]; }
      }
    }
  }
}
