/** What a client sees that follows the cursors it is given. */
module PaginationTheorems {
  import opened Prelude
  import opened Keyset
  import opened KeysetTheorems
  import opened Pagination

  /** The cursor of a page belongs to one of the rows it was read from. */
  lemma CursorIsOfARow<T>(o: Order, rows: seq<Item<T>>, start: Option<Position>, limit: nat)
    requires Distinct(rows) && limit > 0
    ensures var page := ReadPage(o, rows, start, limit); page.next.Some? ==> Present(rows, page.next.value)
  {
    var page := ReadPage(o, rows, start, limit);
    if page.next.Some? {
      var p := page.next.value;
      PageLists(o, rows, start, limit, p);
      TimesOfPresent(page.data, p);
      assert page.data[|page.data| - 1].at == p;
    }
  }

  /** The cursor of this page, if it has one, is short enough to be accepted. */
  predicate Short<T>(page: Page<T>) { page.next.Some? ==> Width(page.next.value.value) <= MAX_VALUE }

  function Token(codec: Codec<Cursor>, sort: Sort, start: Option<Position>): Option<string> {
    if start.None? then None else Some(EncodeCursor(codec, Cursor(start.value, sort)))
  }

  lemma ListIsPage(codec: Codec<Cursor>, sort: Sort, rows: seq<Item<Listing>>, start: Option<Position>, limit: nat)
    requires Faithful(codec) && TypedRows(sort, rows)
    requires start.Some? ==> Typed(sort, start.value.value)
    ensures var page := ReadPage(OrderOf(sort), rows, start, limit);
            List(codec, sort, rows, Token(codec, sort, start), limit) ==
            if start.Some? && Width(start.value.value) > MAX_VALUE then InvalidCursor
            else Listed(page.data, Token(codec, sort, page.next), page.hasMore)
  {
    if start.Some? { CursorRoundTrip(codec, Cursor(start.value, sort), sort); }
    QueryIsPage(sort, rows, start, limit);
    hide Faithful;
    hide TypedRows;
    hide DecodeCursor;
    hide EncodeCursor;
    hide Query;
  }

  /** A reply shows a page. */
  predicate Shows(reply: Reply, page: Page<Listing>) {
    reply.Listed? && reply.data == page.data && reply.hasMore == page.hasMore
  }

  ghost predicate AllShort(pages: seq<Page<Listing>>) {
    forall i | 0 <= i < |pages| - 1 :: Short(pages[i])
  }

  ghost predicate AllServed(replies: seq<Reply>) {
    forall i | 0 <= i < |replies| :: replies[i] != InvalidCursor
  }

  ghost predicate AllShown(replies: seq<Reply>, pages: seq<Page<Listing>>) {
    |replies| == |pages| && forall i | 0 <= i < |pages| :: Shows(replies[i], pages[i])
  }

  lemma ConsAgrees(reply: Reply, replies: seq<Reply>, page: Page<Listing>, pages: seq<Page<Listing>>)
    requires Shows(reply, page)
    ensures AllShort([page] + pages) <==> (pages == [] || Short(page)) && AllShort(pages)
    ensures AllServed([reply] + replies) <==> AllServed(replies)
    ensures AllShown(replies, pages) ==> AllShown([reply] + replies, [page] + pages)
  {
    if AllServed([reply] + replies) {
      forall i | 0 <= i < |replies| ensures replies[i] != InvalidCursor {
        assert ([reply] + replies)[i + 1] == replies[i];
      }
    }
    if AllShort([page] + pages) {
      forall i | 0 <= i < |pages| - 1 ensures Short(pages[i]) { assert ([page] + pages)[i + 1] == pages[i]; }
      if pages != [] { assert ([page] + pages)[0] == page; }
    }
  }

  lemma RefusedAtOnce(codec: Codec<Cursor>, sort: Sort, tables: seq<seq<Item<Listing>>>, start: Position, limit: nat)
    requires Faithful(codec) && tables != [] && TypedRows(sort, tables[0])
    requires Typed(sort, start.value) && Width(start.value) > MAX_VALUE
    ensures Browse(codec, sort, tables, Token(codec, sort, Some(start)), limit) == [InvalidCursor]
    ensures Walk(OrderOf(sort), tables, Some(start), limit) != []
  {
    ListIsPage(codec, sort, tables[0], Some(start), limit);
    hide List;
    hide ReadPage;
  }

  /** The rest of a walk and of its replies. */
  lemma NextPages(codec: Codec<Cursor>, sort: Sort, tables: seq<seq<Item<Listing>>>, start: Option<Position>, limit: nat)
    requires tables != []
    requires var page := ReadPage(OrderOf(sort), tables[0], start, limit);
             List(codec, sort, tables[0], Token(codec, sort, start), limit) ==
             Listed(page.data, Token(codec, sort, page.next), page.hasMore)
    ensures var page := ReadPage(OrderOf(sort), tables[0], start, limit);
            var pages := Walk(OrderOf(sort), tables, start, limit);
            var reply := List(codec, sort, tables[0], Token(codec, sort, start), limit);
            var replies := Browse(codec, sort, tables, Token(codec, sort, start), limit);
            && pages == [page] + (if page.next.None? then [] else Walk(OrderOf(sort), tables[1..], page.next, limit))
            && replies == [reply] + (if page.next.None? then []
                                     else Browse(codec, sort, tables[1..], Token(codec, sort, page.next), limit))
  {
    hide ReadPage;
    hide List;
  }

  ghost predicate Agrees(replies: seq<Reply>, pages: seq<Page<Listing>>) {
    && (AllServed(replies) <==> AllShort(pages))
    && (AllShort(pages) ==> AllShown(replies, pages))
  }

  lemma ConsAgreesToo(reply: Reply, replies: seq<Reply>, page: Page<Listing>, pages: seq<Page<Listing>>)
    requires Shows(reply, page)
    requires if pages == [] then replies == []
             else if Short(page) then Agrees(replies, pages)
             else replies == [InvalidCursor]
    ensures Agrees([reply] + replies, [page] + pages)
  {
    ConsAgrees(reply, replies, page, pages);
    if pages != [] && !Short(page) { assert replies[0] == InvalidCursor; }
    hide Shows, Short;
    if pages == [] { assert AllShown(replies, pages); }
  }

  /**
    Following the cursors gives the pages of the keyset walk, and no cursor is refused, exactly when
    every page that is followed ends on a row whose sort value is at most 100 characters long.
   */
  lemma {:induction false} BrowseIsWalkExactlyForShortValues(
    codec: Codec<Cursor>, sort: Sort, tables: seq<seq<Item<Listing>>>, start: Option<Position>, limit: nat)
    requires Faithful(codec) && limit > 0 && AllDistinct(tables)
    requires forall i | 0 <= i < |tables| :: TypedRows(sort, tables[i])
    requires start.Some? ==> Typed(sort, start.value.value) && Width(start.value.value) <= MAX_VALUE
    ensures var pages := Walk(OrderOf(sort), tables, start, limit);
            var replies := Browse(codec, sort, tables, Token(codec, sort, start), limit);
            && (AllServed(replies) <==> AllShort(pages))
            && (AllShort(pages) ==> AllShown(replies, pages))
    decreases |tables|
  {
    hide ReadPage, List, Token, Faithful, AllShort, AllServed, AllShown, Typed, Distinct;
    if tables == [] {
      assert Agrees([], []) by { NothingAgrees(); }
    } else {
      var o := OrderOf(sort);
      var page := ReadPage(o, tables[0], start, limit);
      ListIsPage(codec, sort, tables[0], start, limit);
      var reply := List(codec, sort, tables[0], Token(codec, sort, start), limit);
      NextPages(codec, sort, tables, start, limit);
      var replies := if page.next.None? then [] else Browse(codec, sort, tables[1..], Token(codec, sort, page.next), limit);
      var pages := if page.next.None? then [] else Walk(o, tables[1..], page.next, limit);
      if page.next.Some? {
        CursorIsOfARow(o, tables[0], start, limit);
        assert Typed(sort, page.next.value.value);
        if Short(page) {
          BrowseIsWalkExactlyForShortValues(codec, sort, tables[1..], page.next, limit);
        } else if |tables| > 1 {
          RefusedAtOnce(codec, sort, tables[1..], page.next.value, limit);
        }
      }
      ConsAgreesToo(reply, replies, page, pages);
    }
  }

  lemma NothingAgrees()
    ensures Agrees([], [])
  {
  }

  /** Everything a client is shown. */
  function Shown(replies: seq<Reply>): seq<Item<Listing>> {
    if replies == [] then []
    else (if replies[0].Listed? then replies[0].data else []) + Shown(replies[1..])
  }

  lemma {:induction false} ShownIsListed(replies: seq<Reply>, pages: seq<Page<Listing>>)
    requires AllShown(replies, pages)
    ensures Shown(replies) == Keyset.Listed(pages)
  {
    if replies != [] {
      assert Shows(replies[0], pages[0]);
      forall i | 0 <= i < |pages[1..]| ensures Shows(replies[1..][i], pages[1..][i]) {
        assert Shows(replies[i + 1], pages[i + 1]);
      }
      ShownIsListed(replies[1..], pages[1..]);
    }
  }

  /** The client has reached the end. */
  predicate AtEnd(replies: seq<Reply>) {
    replies != [] && replies[|replies| - 1].Listed? && !replies[|replies| - 1].hasMore
  }

  ghost predicate AlwaysPresent(tables: seq<seq<Item<Listing>>>, n: nat, p: Position)
    requires n <= |tables|
  {
    forall i | 0 <= i < n :: Present(tables[i], p)
  }

  lemma EndOfWalk(replies: seq<Reply>, o: Order, tables: seq<seq<Item<Listing>>>, limit: nat)
    requires limit > 0 && AllDistinct(tables) && AllShown(replies, Walk(o, tables, None, limit))
    ensures AtEnd(replies) ==> Finished(Walk(o, tables, None, limit))
  {
    if replies != [] {
      var pages := Walk(o, tables, None, limit);
      assert Shows(replies[|replies| - 1], pages[|pages| - 1]);
      LastPageIsPage(o, tables, None, limit);
      hide Walk;
    }
  }

  /**
    Rows may come, go and change between pages: no row is shown twice with the same sort value, and
    one that is there at every page with the same sort value is shown once when the end is reached.
   */
  lemma BrowseShowsOnce(codec: Codec<Cursor>, sort: Sort, tables: seq<seq<Item<Listing>>>, limit: nat, p: Position)
    requires Faithful(codec) && limit > 0 && AllDistinct(tables)
    requires forall i | 0 <= i < |tables| :: TypedRows(sort, tables[i])
    ensures var replies := Browse(codec, sort, tables, None, limit);
            AllServed(replies) ==>
              && Times(Shown(replies), p) <= 1
              && (AtEnd(replies) && AlwaysPresent(tables, |replies|, p) ==> Times(Shown(replies), p) == 1)
  {
    var o := OrderOf(sort);
    var replies := Browse(codec, sort, tables, None, limit);
    var pages := Walk(o, tables, None, limit);
    BrowseIsWalkExactlyForShortValues(codec, sort, tables, None, limit);
    hide AllServed, AllShort, TypedRows, Walk, Browse, Keyset.Listed, Shown, AtEnd, Times, Faithful, Distinct, Finished, Present;
    if AllServed(replies) {
      ShownIsListed(replies, pages);
      WalkListsOnce(o, tables, None, limit, p);
      EndOfWalk(replies, o, tables, limit);
    }
  }

  /** The last page of a walk is a page like any other: more rows mean a cursor. */
  lemma {:induction false} LastPageIsPage<T>(o: Order, tables: seq<seq<Item<T>>>, start: Option<Position>, limit: nat)
    requires tables != [] && limit > 0 && AllDistinct(tables)
    ensures var pages := Walk(o, tables, start, limit);
            pages != [] && pages[|pages| - 1].hasMore == pages[|pages| - 1].next.Some?
    decreases |tables|
  {
    var page := ReadPage(o, tables[0], start, limit);
    PageLists(o, tables[0], start, limit, Position(Null, 0));
    hide ReadPage;
    if page.next.Some? && |tables| > 1 { LastPageIsPage(o, tables[1..], page.next, limit); }
  }

  /** An unchanged catalogue of short sort values is shown whole, in order. */
  lemma UnchangedCatalogueIsShownWhole(codec: Codec<Cursor>, sort: Sort, rows: seq<Item<Listing>>,
                                       tables: seq<seq<Item<Listing>>>, limit: nat)
    requires Faithful(codec) && limit > 0 && Distinct(rows) && TypedRows(sort, rows) && |tables| > |rows|
    requires forall i | 0 <= i < |tables| :: tables[i] == rows
    requires forall i | 0 <= i < |rows| :: Width(rows[i].at.value) <= MAX_VALUE
    ensures var replies := Browse(codec, sort, tables, None, limit);
            AllServed(replies) && Shown(replies) == Sorted(OrderOf(sort), rows)
  {
    var o := OrderOf(sort);
    var replies := Browse(codec, sort, tables, None, limit);
    var pages := Walk(o, tables, None, limit);
    forall i | 0 <= i < |pages| ensures Short(pages[i]) { CursorsAreShort(o, rows, tables, None, limit, i); }
    BrowseIsWalkExactlyForShortValues(codec, sort, tables, None, limit);
    WalkOfUnchangedTable(o, rows, tables, limit);
    ShownIsListed(replies, pages);
  }

  lemma {:induction false} CursorsAreShort(o: Order, rows: seq<Item<Listing>>, tables: seq<seq<Item<Listing>>>,
                                           start: Option<Position>, limit: nat, i: nat)
    requires limit > 0 && Distinct(rows)
    requires forall k | 0 <= k < |tables| :: tables[k] == rows
    requires forall k | 0 <= k < |rows| :: Width(rows[k].at.value) <= MAX_VALUE
    requires i < |Walk(o, tables, start, limit)|
    ensures Short(Walk(o, tables, start, limit)[i])
    decreases i
  {
    CursorIsOfARow(o, rows, start, limit);
    var page := ReadPage(o, tables[0], start, limit);
    hide ReadPage;
    if i > 0 {
      assert Walk(o, tables, start, limit)[i] == Walk(o, tables[1..], page.next, limit)[i - 1];
      CursorsAreShort(o, rows, tables[1..], page.next, limit, i - 1);
    }
  }

  lemma WideTitleStopsBrowsing(codec: Codec<Cursor>, rows: seq<Item<Listing>>, tables: seq<seq<Item<Listing>>>, limit: nat)
    requires Faithful(codec) && 0 < limit < |Sorted(OrderOf(TitleAsc), rows)| && Distinct(rows) && TypedRows(TitleAsc, rows)
    requires |tables| > 1 && forall i | 0 <= i < |tables| :: tables[i] == rows
    requires Width(Sorted(OrderOf(TitleAsc), rows)[limit - 1].at.value) > MAX_VALUE
    ensures var replies := Browse(codec, TitleAsc, tables, None, limit);
            |replies| == 2 && replies[0].hasMore && replies[1] == InvalidCursor
  {
    var o := OrderOf(TitleAsc);
    PageOfList(o, rows, 0, limit);
    var page := ReadPage(o, rows, None, limit);
    var next := Sorted(o, rows)[limit - 1].at;
    CursorIsOfARow(o, rows, None, limit);
    ListIsPage(codec, TitleAsc, rows, None, limit);
    PageLists(o, rows, None, limit, next);
    assert page.next == Some(next) && Typed(TitleAsc, next.value);
    NextPages(codec, TitleAsc, tables, None, limit);
    RefusedAtOnce(codec, TitleAsc, tables[1..], next, limit);
  }

  /** A catalogue listed by title cannot be browsed past a page that ends on a title of over 100 characters. */
  lemma LongTitleStopsBrowsing(codec: Codec<Cursor>, rows: seq<Item<Listing>>, tables: seq<seq<Item<Listing>>>, limit: nat)
    requires Faithful(codec) && 0 < limit < |Sorted(OrderOf(TitleAsc), rows)| && Distinct(rows) && TypedRows(TitleAsc, rows)
    requires |tables| > 1 && forall i | 0 <= i < |tables| :: tables[i] == rows
    requires var last := Sorted(OrderOf(TitleAsc), rows)[limit - 1].at.value; last.Text? && |last.t| > 100
    ensures var replies := Browse(codec, TitleAsc, tables, None, limit);
            |replies| == 2 && replies[0].hasMore && replies[1] == InvalidCursor
  {
    hide Sorted, Browse, Faithful, TypedRows, Distinct;
    WideTitleStopsBrowsing(codec, rows, tables, limit);
  }

  /******* The match list *******/

  function MatchToken(codec: Codec<Position>, start: Option<Position>): Option<string> {
    if start.None? then None else Some(EncodeMatchCursor(codec, start.value))
  }

  predicate ShowsMatches<T(==)>(reply: MatchReply<T>, page: Page<T>) {
    reply.Matches? && reply.data == page.data && reply.hasMore == page.hasMore
  }

  ghost predicate AllMatchesShown<T>(replies: seq<MatchReply<T>>, pages: seq<Page<T>>) {
    |replies| == |pages| && forall i | 0 <= i < |pages| :: ShowsMatches(replies[i], pages[i])
  }

  lemma ConsMatches<T>(reply: MatchReply<T>, replies: seq<MatchReply<T>>, page: Page<T>, pages: seq<Page<T>>)
    requires ShowsMatches(reply, page) && AllMatchesShown(replies, pages)
    ensures AllMatchesShown([reply] + replies, [page] + pages)
  {
  }

  /** Following the match cursors gives the pages of the keyset walk; none is ever refused. */
  lemma {:induction false} MatchBrowseIsWalk<T>(codec: Codec<Position>, tables: seq<seq<Item<T>>>,
                                                start: Option<Position>, limit: nat)
    requires Faithful(codec) && limit > 0 && AllDistinct(tables)
    requires forall i | 0 <= i < |tables| :: Scored(tables[i])
    requires start.Some? ==> IsScore(start.value.value)
    ensures AllMatchesShown(BrowseMatches(codec, tables, MatchToken(codec, start), limit),
                            Walk(MATCH_ORDER, tables, start, limit))
    decreases |tables|
  {
    hide ReadPage, ListMatches, Faithful, MatchToken, IsScore, Distinct, AllMatchesShown;
    if tables == [] {
      assert AllMatchesShown<T>([], []) by { NoMatches<T>(); }
    } else {
      var page := ReadPage(MATCH_ORDER, tables[0], start, limit);
      MatchListIsPage(codec, tables[0], start, limit);
      CursorIsOfARow(MATCH_ORDER, tables[0], start, limit);
      var reply := ListMatches(codec, tables[0], MatchToken(codec, start), limit);
      if page.next.Some? {
        MatchBrowseIsWalk(codec, tables[1..], page.next, limit);
        hide Walk, BrowseMatches;
        ConsMatches(reply, BrowseMatches(codec, tables[1..], MatchToken(codec, page.next), limit),
                    page, Walk(MATCH_ORDER, tables[1..], page.next, limit));
      } else {
        NoMatches<T>();
        ConsMatches(reply, [], page, []);
      }
      NextMatches(codec, tables, start, limit);
    }
  }

  lemma NextMatches<T>(codec: Codec<Position>, tables: seq<seq<Item<T>>>, start: Option<Position>, limit: nat)
    requires tables != []
    requires var page := ReadPage(MATCH_ORDER, tables[0], start, limit);
             ListMatches(codec, tables[0], MatchToken(codec, start), limit) ==
             Matches(page.data, MatchToken(codec, page.next), page.hasMore)
    ensures var page := ReadPage(MATCH_ORDER, tables[0], start, limit);
            && Walk(MATCH_ORDER, tables, start, limit) ==
               [page] + (if page.next.None? then [] else Walk(MATCH_ORDER, tables[1..], page.next, limit))
            && BrowseMatches(codec, tables, MatchToken(codec, start), limit) ==
               [ListMatches(codec, tables[0], MatchToken(codec, start), limit)] +
               (if page.next.None? then [] else BrowseMatches(codec, tables[1..], MatchToken(codec, page.next), limit))
  {
    hide ReadPage, ListMatches;
  }

  lemma NoMatches<T>()
    ensures AllMatchesShown<T>([], [])
  {
  }

  lemma MatchListIsPage<T>(codec: Codec<Position>, rows: seq<Item<T>>, start: Option<Position>, limit: nat)
    requires Faithful(codec) && Scored(rows) && (start.Some? ==> IsScore(start.value.value))
    ensures var page := ReadPage(MATCH_ORDER, rows, start, limit);
            ListMatches(codec, rows, MatchToken(codec, start), limit) ==
            Matches(page.data, MatchToken(codec, page.next), page.hasMore)
  {
    if start.Some? { MatchCursorRoundTrip(codec, start.value); }
    MatchQueryIsPage(rows, start, limit);
    hide Faithful, Scored, DecodeMatchCursor, EncodeMatchCursor, Query;
  }
}
