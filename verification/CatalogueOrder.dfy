/** In which order a client sees the catalogue, on the columns of the listings themselves. */
module CatalogueOrder {
  import opened Prelude
  import opened Keyset
  import opened KeysetTheorems
  import opened Pagination
  import opened PaginationTheorems
  import opened CatalogueBrowsing

  /** The smaller first, and what has no value last. */
  predicate SmallerFirst(a: Option<int>, b: Option<int>) {
    a.Some? && (b.None? || a.value < b.value)
  }

  predicate LargerFirst(a: Option<int>, b: Option<int>) {
    a.Some? && (b.None? || a.value > b.value)
  }

  /** Decided by the first character that differs; a proper prefix is smaller. */
  ghost predicate Alphabetical(s: string, t: string) {
    exists k: nat ::
      && k <= |s| && k < |t| && s[..k] == t[..k]
      && (k < |s| ==> s[k] < t[k])
  }

  /** What each of the four orders promises of two listings, the first of which is shown earlier. */
  ghost predicate Precedes(sort: Sort, a: Listing, b: Listing) {
    match sort
    case DeadlineAsc => SmallerFirst(a.deadline, b.deadline) || (a.deadline == b.deadline && a.id < b.id)
    case RecentlyPublished => LargerFirst(a.publishedAt, b.publishedAt) || (a.publishedAt == b.publishedAt && a.id > b.id)
    case AmountDesc => LargerFirst(a.amount, b.amount) || (a.amount == b.amount && a.id > b.id)
    case TitleAsc => Alphabetical(a.title, b.title) || (a.title == b.title && a.id < b.id)
  }

  lemma SharedFirst(s: string, t: string)
    ensures forall k | 0 < k <= |s| && k <= |t| && s[..k] == t[..k] :: s[0] == t[0]
  {
    forall k | 0 < k <= |s| && k <= |t| && s[..k] == t[..k] ensures s[0] == t[0] {
      assert s[..k][0] == t[..k][0];
    }
  }

  lemma {:induction false} BelowIsAlphabetical(s: string, t: string)
    ensures TextBelow(s, t) <==> Alphabetical(s, t)
  {
    if s != [] && t != [] && s[0] == t[0] {
      BelowIsAlphabetical(s[1..], t[1..]);
      if k: nat :| k <= |s[1..]| && k < |t[1..]| && s[1..][..k] == t[1..][..k] && (k < |s[1..]| ==> s[1..][k] < t[1..][k]) {
        assert s[..k + 1] == [s[0]] + s[1..][..k] && t[..k + 1] == [t[0]] + t[1..][..k];
        assert k < |s[1..]| ==> s[k + 1] == s[1..][k] && t[k + 1] == t[1..][k];
        assert Alphabetical(s, t);
      }
      if k: nat :| k <= |s| && k < |t| && s[..k] == t[..k] && (k < |s| ==> s[k] < t[k]) {
        assert k > 0;
        assert s[1..][..k - 1] == s[..k][1..] && t[1..][..k - 1] == t[..k][1..];
        assert k < |s| ==> s[k] == s[1..][k - 1] && t[k] == t[1..][k - 1];
        assert Alphabetical(s[1..], t[1..]);
      }
    } else {
      if t != [] && (s == [] || s[0] < t[0]) { assert s[..0] == t[..0]; }
      SharedFirst(s, t);
    }
  }

  /** The keyset order is the promised one, on the positions that listings have. */
  lemma BeforeIsPrecedes(sort: Sort, a: Listing, b: Listing)
    ensures Before(OrderOf(sort), At(sort, a), At(sort, b)) <==> Precedes(sort, a, b)
  {
    BelowIsAlphabetical(a.title, b.title);
    hide Alphabetical, TextBelow;
    if sort.TitleAsc? { TextTotal(a.title, b.title); }
  }

  /******* What is shown *******/

  /** An item is one of its table's listings, under that listing's own position. */
  ghost predicate Own(sort: Sort, shown: Listing -> bool, items: seq<Item<Listing>>) {
    forall i | 0 <= i < |items| :: items[i].at == At(sort, items[i].row) && shown(items[i].row)
  }

  lemma {:induction false} RowsAreOwn(sort: Sort, shown: Listing -> bool, table: seq<Listing>)
    ensures Own(sort, shown, Rows(sort, shown, table))
  {
    if table != [] { RowsAreOwn(sort, shown, table[1..]); }
  }

  lemma {:induction false} FilteredAreItems<T>(t: seq<Item<T>>, keep: Position -> bool, x: Item<T>)
    requires x in Filter(t, keep)
    ensures x in t && keep(x.at)
  {
    if !(keep(t[0].at) && x == t[0]) {
      assert x in Filter(t[1..], keep);
      FilteredAreItems(t[1..], keep, x);
    }
  }

  lemma PageIsOwn(sort: Sort, shown: Listing -> bool, rows: seq<Item<Listing>>, start: Option<Position>, limit: nat)
    requires Own(sort, shown, rows)
    ensures Own(sort, shown, ReadPage(OrderOf(sort), rows, start, limit).data)
  {
    var keep, o := Keyset.After(OrderOf(sort), start), OrderOf(sort);
    var page := ReadPage(o, rows, start, limit);
    hide Sorted, Filter;
    forall i | 0 <= i < |page.data|
      ensures page.data[i].at == At(sort, page.data[i].row) && shown(page.data[i].row)
    {
      SortedKeepsItems(o, Filter(rows, keep));
      var x := page.data[i];
      assert x in multiset(Sorted(o, Filter(rows, keep)));
      FilteredAreItems(rows, keep, x);
    }
  }

  lemma PageIsOrdered(o: Order, rows: seq<Item<Listing>>, start: Option<Position>, limit: nat)
    requires Distinct(rows) && limit > 0
    ensures var page := ReadPage(o, rows, start, limit);
            && Ordered(o, page.data)
            && (forall i | 0 <= i < |page.data| :: Follows(o, start, page.data[i].at))
            && (page.next.Some? ==> page.data != [] && page.next.value == page.data[|page.data| - 1].at)
  {
    var page := ReadPage(o, rows, start, limit);
    SelectionIs(o, rows, Keyset.After(o, start));
    forall i | 0 <= i < |page.data| ensures Follows(o, start, page.data[i].at) {
      TimesOfPresent(page.data, page.data[i].at);
      PageLists(o, rows, start, limit, page.data[i].at);
    }
  }

  /** Two stretches of a list, the second behind the last of the first. */
  lemma OrderedSum(o: Order, a: seq<Item<Listing>>, b: seq<Item<Listing>>, start: Option<Position>)
    requires Ordered(o, a) && Ordered(o, b) && a != []
    requires forall i | 0 <= i < |a| :: Follows(o, start, a[i].at)
    requires forall i | 0 <= i < |b| :: Before(o, a[|a| - 1].at, b[i].at)
    ensures Ordered(o, a + b) && forall i | 0 <= i < |a + b| :: Follows(o, start, (a + b)[i].at)
  {
    hide Before;
    var last := a[|a| - 1].at;
    forall i, j | 0 <= i < |a| && 0 <= j < |b| ensures Before(o, a[i].at, b[j].at) {
      if i < |a| - 1 { BeforeTransitive(o, a[i].at, last, b[j].at); }
    }
    forall j | 0 <= j < |b| ensures Follows(o, start, b[j].at) {
      if start.Some? {
        assert Follows(o, start, last);
        BeforeTransitive(o, start.value, last, b[j].at);
      }
    }
  }

  /** What is shown from a position on: in order, behind it, and under each listing's own position. */
  ghost predicate ShownInOrder(sort: Sort, shown: Listing -> bool, start: Option<Position>, items: seq<Item<Listing>>) {
    && Ordered(OrderOf(sort), items) && Own(sort, shown, items)
    && forall i | 0 <= i < |items| :: Follows(OrderOf(sort), start, items[i].at)
  }

  lemma OneMorePage(sort: Sort, shown: Listing -> bool, rows: seq<Item<Listing>>, start: Option<Position>, limit: nat,
                    rest: seq<Item<Listing>>)
    requires Distinct(rows) && limit > 0 && Own(sort, shown, rows)
    requires var next := ReadPage(OrderOf(sort), rows, start, limit).next;
             if next.None? then rest == [] else ShownInOrder(sort, shown, next, rest)
    ensures ShownInOrder(sort, shown, start, ReadPage(OrderOf(sort), rows, start, limit).data + rest)
  {
    hide Distinct, At;
    PageIsOwn(sort, shown, rows, start, limit);
    PageIsOrdered(OrderOf(sort), rows, start, limit);
    hide ReadPage, Before, OrderOf;
    var page := ReadPage(OrderOf(sort), rows, start, limit);
    if page.next.Some? { OrderedSum(OrderOf(sort), page.data, rest, start); }
    else { assert page.data + rest == page.data; }
  }

  lemma ShownStep(reply: Reply, replies: seq<Reply>)
    ensures Shown([reply] + replies) == (if reply.Listed? then reply.data else []) + Shown(replies)
  {
  }

  lemma NothingIsInOrder(sort: Sort, shown: Listing -> bool, start: Option<Position>)
    ensures ShownInOrder(sort, shown, start, [])
  {
  }

  lemma {:induction false} BrowseIsInOrder(codec: Codec<Cursor>, sort: Sort, shown: Listing -> bool,
                                           views: seq<seq<Item<Listing>>>, start: Option<Position>, limit: nat)
    requires Faithful(codec) && limit > 0 && AllDistinct(views)
    requires forall i | 0 <= i < |views| :: TypedRows(sort, views[i]) && Own(sort, shown, views[i])
    requires start.Some? ==> Typed(sort, start.value.value)
    ensures ShownInOrder(sort, shown, start, Shown(Browse(codec, sort, views, Token(codec, sort, start), limit)))
    decreases |views|
  {
    hide ReadPage, List, Token, Faithful, Typed, Distinct, Own, ShownInOrder, Shown, TypedRows, OrderOf;
    NothingIsInOrder(sort, shown, start);
    var token := Token(codec, sort, start);
    if views == [] {
      assert Shown([]) == [] by { ShownOfNothing(); }
    } else {
      ListIsPage(codec, sort, views[0], start, limit);
      ShownOfNothing();
      if start.Some? && Width(start.value.value) > MAX_VALUE {
        ShownStep(InvalidCursor, []);
      } else {
        var page := ReadPage(OrderOf(sort), views[0], start, limit);
        var reply := List(codec, sort, views[0], token, limit);
        NextPages(codec, sort, views, start, limit);
        if page.next.Some? {
          CursorIsTyped(sort, views[0], start, limit);
          BrowseIsInOrder(codec, sort, shown, views[1..], page.next, limit);
        }
        var replies := if page.next.None? then [] else Browse(codec, sort, views[1..], Token(codec, sort, page.next), limit);
        OneMorePage(sort, shown, views[0], start, limit, Shown(replies));
        ShownStep(reply, replies);
      }
    }
  }

  lemma ShownOfNothing()
    ensures Shown([]) == []
  {
  }

  lemma CursorIsTyped(sort: Sort, rows: seq<Item<Listing>>, start: Option<Position>, limit: nat)
    requires Distinct(rows) && limit > 0 && TypedRows(sort, rows)
    ensures var page := ReadPage(OrderOf(sort), rows, start, limit);
            page.next.Some? ==> Typed(sort, page.next.value.value)
  {
    CursorIsOfARow(OrderOf(sort), rows, start, limit);
    hide ReadPage;
  }

  lemma ViewsAreOwn(sort: Sort, shown: Listing -> bool, tables: seq<seq<Listing>>)
    ensures forall i | 0 <= i < |tables| :: Own(sort, shown, Views(sort, shown, tables)[i])
  {
    hide Own;
    forall i | 0 <= i < |tables| ensures Own(sort, shown, Views(sort, shown, tables)[i]) {
      RowsAreOwn(sort, shown, tables[i]);
    }
  }

  /**
    Whatever happens to the catalogue between pages, and wherever the browsing ends: of any two
    listings a client is shown, the earlier one precedes the later on its own columns.
   */
  lemma EarlierPrecedesLater(codec: Codec<Cursor>, sort: Sort, shown: Listing -> bool, tables: seq<seq<Listing>>,
                             limit: nat, i: nat, j: nat)
    requires Faithful(codec) && limit > 0 && forall k | 0 <= k < |tables| :: DistinctIds(tables[k])
    requires i < j < |Shown(Browse(codec, sort, Views(sort, shown, tables), None, limit))|
    ensures var items := Shown(Browse(codec, sort, Views(sort, shown, tables), None, limit));
            Precedes(sort, items[i].row, items[j].row)
  {
    hide Faithful, DistinctIds, Distinct, Precedes, OrderOf, TypedRows, Before, At, Browse, Shown;
    var views := Views(sort, shown, tables);
    ViewsAreDistinct(sort, shown, tables);
    ViewsAreOwn(sort, shown, tables);
    BrowseIsInOrder(codec, sort, shown, views, None, limit);
    var items := Shown(Browse(codec, sort, views, None, limit));
    assert Before(OrderOf(sort), items[i].at, items[j].at);
    BeforeIsPrecedes(sort, items[i].row, items[j].row);
  }

  /** The listings of an item list. */
  function Listings(items: seq<Item<Listing>>): (r: seq<Listing>)
    ensures |r| == |items| && forall i | 0 <= i < |r| :: r[i] == items[i].row
  {
    seq(|items|, i requires 0 <= i < |items| => items[i].row)
  }

  lemma {:induction false} RowsHoldPassing(sort: Sort, shown: Listing -> bool, table: seq<Listing>, r: Listing)
    ensures r in Listings(Rows(sort, shown, table)) <==> r in table && shown(r)
  {
    var rows := Rows(sort, shown, table);
    if table != [] {
      var rest := Rows(sort, shown, table[1..]);
      RowsHoldPassing(sort, shown, table[1..], r);
      if r in Listings(rest) {
        var k :| 0 <= k < |rest| && rest[k].row == r;
        assert rows[|rows| - |rest| + k].row == r;
      }
      assert forall k | 0 <= k < |rest| :: rest[k].row == Listings(rest)[k];
      forall k | |rows| - |rest| <= k < |rows| ensures rows[k].row in Listings(rest) {
        assert rows[k] == rest[k - (|rows| - |rest|)];
      }
      if shown(table[0]) { assert Listings(rows)[0] == table[0]; }
    }
  }

  lemma SortedHoldsRows(o: Order, rows: seq<Item<Listing>>, r: Listing)
    ensures r in Listings(Sorted(o, rows)) <==> r in Listings(rows)
  {
    SortedKeepsItems(o, rows);
    var list := Sorted(o, rows);
    if r in Listings(rows) {
      var k :| 0 <= k < |rows| && rows[k].row == r;
      assert rows[k] in multiset(list);
      var j :| 0 <= j < |list| && list[j] == rows[k];
      assert Listings(list)[j] == r;
    }
    if r in Listings(list) {
      var k :| 0 <= k < |list| && list[k].row == r;
      assert list[k] in multiset(rows);
      var j :| 0 <= j < |rows| && rows[j] == list[k];
      assert Listings(rows)[j] == r;
    }
  }

  /**
    A catalogue that does not change is shown as a list of its own listings: exactly those that pass
    the filter, and of any two the earlier precedes the later on its own columns.
   */
  lemma FilteredListingsInOrder(codec: Codec<Cursor>, sort: Sort, shown: Listing -> bool, table: seq<Listing>,
                                pages: nat, limit: nat)
    requires Faithful(codec) && limit > 0 && DistinctIds(table) && pages > |table|
    requires sort.TitleAsc? ==> forall i | 0 <= i < |table| && shown(table[i]) :: |table[i].title| <= 100
    ensures var list := Listings(Shown(Browse(codec, sort, Views(sort, shown, seq(pages, i => table)), None, limit)));
            && (forall r :: r in list <==> r in table && shown(r))
            && (forall i, j | 0 <= i < j < |list| :: Precedes(sort, list[i], list[j]))
  {
    var views := Views(sort, shown, seq(pages, i => table));
    var rows := Rows(sort, shown, table);
    var replies := Browse(codec, sort, views, None, limit);
    hide Faithful, Distinct, Precedes, OrderOf, TypedRows, Before, Browse, Shown, Sorted, AllServed;
    RowsAreDistinct(sort, shown, table);
    RowsAreFew(sort, shown, table);
    hide DistinctIds;
    RowsAreShort(sort, shown, table);
    hide Rows;
    UnchangedCatalogueIsShownWhole(codec, sort, rows, views, limit);
    var list := Listings(Shown(replies));
    forall r ensures r in list <==> r in table && shown(r) {
      RowsHoldPassing(sort, shown, table, r);
      SortedHoldsRows(OrderOf(sort), rows, r);
    }
    forall i, j | 0 <= i < j < |list| ensures Precedes(sort, list[i], list[j]) {
      EarlierPrecedesLater(codec, sort, shown, seq(pages, k => table), limit, i, j);
    }
  }

  /******* Matches *******/

  /** Of two matches a user is shown, the earlier has the higher score, or the same and the smaller id. */
  predicate ScoredHigher(p: Position, q: Position) {
    p.value.Number? && q.value.Number? && (p.value.n > q.value.n || (p.value.n == q.value.n && p.id < q.id))
  }

  /** Every match a user is shown. */
  function ShownMatches<T>(replies: seq<MatchReply<T>>): seq<Item<T>> {
    if replies == [] then []
    else (if replies[0].Matches? then replies[0].data else []) + ShownMatches(replies[1..])
  }

  lemma {:induction false} ShownAreListed<T>(replies: seq<MatchReply<T>>, pages: seq<Page<T>>)
    requires AllMatchesShown(replies, pages)
    ensures ShownMatches(replies) == Keyset.Listed(pages)
  {
    if replies != [] {
      assert AllMatchesShown(replies[1..], pages[1..]);
      ShownAreListed(replies[1..], pages[1..]);
    }
  }

  /** Scores in the unit interval, in units of a hundred-thousandth. */
  ghost predicate ScoredInUnit<T>(rows: seq<Item<T>>) {
    forall i | 0 <= i < |rows| :: rows[i].at.value.Number? && 0 <= rows[i].at.value.n <= 100000
  }

  /** A list of matches that does not change is shown whole, the higher score first. */
  lemma MatchesByScore<T>(codec: Codec<Position>, rows: seq<Item<T>>, tables: seq<seq<Item<T>>>, limit: nat)
    requires Faithful(codec) && Distinct(rows) && ScoredInUnit(rows) && limit > 0 && |tables| > |rows|
    requires forall k | 0 <= k < |tables| :: tables[k] == rows
    ensures var list := ShownMatches(BrowseMatches(codec, tables, None, limit));
            && multiset(list) == multiset(rows)
            && forall i, j | 0 <= i < j < |list| :: ScoredHigher(list[i].at, list[j].at)
  {
    assert Scored(rows);
    hide Walk, BrowseMatches, Faithful, Distinct, Before;
    WalkOfUnchangedTable(MATCH_ORDER, rows, tables, limit);
    MatchBrowseIsWalk(codec, tables, None, limit);
    hide IsScore;
    var list := Keyset.Listed(Walk(MATCH_ORDER, tables, None, limit));
    ShownAreListed(BrowseMatches(codec, tables, None, limit), Walk(MATCH_ORDER, tables, None, limit));
    hide AllMatchesShown, ShownMatches, Keyset.Listed;
    forall i, j | 0 <= i < j < |list| ensures ScoredHigher(list[i].at, list[j].at) {
      assert list[i] in multiset(rows) && list[j] in multiset(rows);
      assert Before(MATCH_ORDER, list[i].at, list[j].at);
      ScoredBefore(rows, list[i], list[j]);
    }
  }

  lemma ScoredBefore<T>(rows: seq<Item<T>>, a: Item<T>, b: Item<T>)
    requires Scored(rows) && a in rows && b in rows && Before(MATCH_ORDER, a.at, b.at)
    ensures ScoredHigher(a.at, b.at)
  {
  }
}
