/**
  The catalogue's four list orders and the match list: the cursor clause each query carries, the
  opaque tokens, and the service that turns one into the other.
 */
module Pagination {
  import opened Prelude
  import opened Base64Url
  import opened Keyset

  datatype Sort = DeadlineAsc | RecentlyPublished | AmountDesc | TitleAsc

  /** What a catalogue row is listed by; `title` is in lower case already. */
  datatype Listing = Listing(
    id: nat,
    deadline: Option<int>,
    publishedAt: Option<int>,
    amount: Option<int>,
    title: string)

  function Nullable(v: Option<int>): Value {
    if v.Some? then Number(v.value) else Null
  }

  /** The `cursor_value` column. */
  function CursorValue(sort: Sort, r: Listing): Value {
    match sort
    case DeadlineAsc => Nullable(r.deadline)
    case RecentlyPublished => Nullable(r.publishedAt)
    case AmountDesc => Nullable(r.amount)
    case TitleAsc => Text(r.title)
  }

  /** `order by … nulls last, id …`. */
  function OrderOf(sort: Sort): Order {
    match sort
    case DeadlineAsc => Order(false, false)
    case RecentlyPublished => Order(true, true)
    case AmountDesc => Order(true, true)
    case TitleAsc => Order(false, false)
  }

  /** Deadlines, instants and amounts are numbers or null; titles are text. */
  predicate Typed(sort: Sort, v: Value) { v.Text? == sort.TitleAsc? }

  /** The clause a cursor adds to the `where` of the query. */
  predicate Clause(sort: Sort, c: Position, p: Position)
    requires Typed(sort, c.value) && Typed(sort, p.value)
  {
    match sort
    case DeadlineAsc =>
      if c.value.Null? then p.value.Null? && p.id > c.id
      else p.value.Null? || p.value.n > c.value.n || (p.value.n == c.value.n && p.id > c.id)
    case RecentlyPublished =>
      if c.value.Null? then p.value.Null? && p.id < c.id
      else p.value.Null? || p.value.n < c.value.n || (p.value.n == c.value.n && p.id < c.id)
    case AmountDesc =>
      if c.value.Null? then p.value.Null? && p.id < c.id
      else p.value.Null? || p.value.n < c.value.n || (p.value.n == c.value.n && p.id < c.id)
    case TitleAsc =>
      TextBelow(c.value.t, p.value.t) || (c.value.t == p.value.t && p.id > c.id)
  }

  /** `order by m.total_score desc, m.id`; scores are in units of 1e-5. */
  const MATCH_ORDER := Order(true, false)

  predicate IsScore(v: Value) { v.Number? && 0 <= v.n <= 100000 }

  predicate MatchClause(c: Position, p: Position)
    requires c.value.Number? && p.value.Number?
  {
    p.value.n < c.value.n || (p.value.n == c.value.n && p.id > c.id)
  }

  /** Each clause selects exactly what the order puts after the cursor. */
  lemma ClauseIsOrder(sort: Sort, c: Position, p: Position)
    requires Typed(sort, c.value) && Typed(sort, p.value)
    ensures Clause(sort, c, p) <==> Before(OrderOf(sort), c, p)
  {
    if sort.TitleAsc? { TextTotal(c.value.t, p.value.t); }
  }

  lemma MatchClauseIsOrder(c: Position, p: Position)
    requires c.value.Number? && p.value.Number?
    ensures MatchClause(c, p) <==> Before(MATCH_ORDER, c, p)
  {
  }

  /******* Tokens *******/

  /** The fields of the JSON object a token holds. */
  datatype Cursor = Cursor(at: Position, sort: Sort)

  /** Reading and writing JSON; what is written can be read back. */
  datatype Codec<!C> = Codec(write: C -> seq<Byte>, read: seq<Byte> -> Option<C>)

  ghost predicate Faithful<C(!new)>(codec: Codec<C>) {
    forall c: C :: codec.read(codec.write(c)) == Some(c)
  }

  const MAX_VALUE := 100

  /** Length of a cursor value as text: `__NULL__`, at most 32 characters for a number, or the title. */
  function Width(v: Value): nat {
    match v
    case Null => 8
    case Number(_) => 32
    case Text(t) => |t|
  }

  function EncodeCursor(codec: Codec<Cursor>, c: Cursor): string { Encode(codec.write(c)) }

  /** `None` is the error for an invalid cursor. */
  function DecodeCursor(codec: Codec<Cursor>, token: string, sort: Sort): Option<Position> {
    match Decode(token)
    case None => None
    case Some(bytes) =>
      match codec.read(bytes)
      case None => None
      case Some(c) => if c.sort != sort || Width(c.at.value) > MAX_VALUE then None else Some(c.at)
  }

  function EncodeMatchCursor(codec: Codec<Position>, c: Position): string { Encode(codec.write(c)) }

  function DecodeMatchCursor(codec: Codec<Position>, token: string): Option<Position> {
    match Decode(token)
    case None => None
    case Some(bytes) =>
      match codec.read(bytes)
      case None => None
      case Some(c) => if IsScore(c.value) then Some(c) else None
  }

  /** A token is read back exactly when it is of this order and its value is at most 100 long. */
  lemma CursorRoundTrip(codec: Codec<Cursor>, c: Cursor, sort: Sort)
    requires Faithful(codec)
    ensures DecodeCursor(codec, EncodeCursor(codec, c), sort) ==
            if c.sort == sort && Width(c.at.value) <= MAX_VALUE then Some(c.at) else None
  {
    RoundTrip(codec.write(c));
  }

  lemma MatchCursorRoundTrip(codec: Codec<Position>, c: Position)
    requires Faithful(codec) && IsScore(c.value)
    ensures DecodeMatchCursor(codec, EncodeMatchCursor(codec, c)) == Some(c)
  {
    RoundTrip(codec.write(c));
  }

  /******* The service *******/

  datatype Reply = InvalidCursor | Listed(data: seq<Item<Listing>>, next: Option<string>, hasMore: bool)

  /** The rows that pass the filters, with the column the cursor is made of. */
  function Rows(sort: Sort, shown: Listing -> bool, table: seq<Listing>): seq<Item<Listing>> {
    if table == [] then []
    else
      (if shown(table[0]) then [Item(Position(CursorValue(sort, table[0]), table[0].id), table[0])] else [])
      + Rows(sort, shown, table[1..])
  }

  function Selects(sort: Sort, cursor: Option<Position>): Position -> bool
    requires cursor.Some? ==> Typed(sort, cursor.value.value)
  {
    (p: Position) => cursor.None? || (Typed(sort, p.value) && Clause(sort, cursor.value, p))
  }

  /** One page; a cursor of the wrong kind is refused by the database's cast. */
  function List(codec: Codec<Cursor>, sort: Sort, rows: seq<Item<Listing>>, token: Option<string>, limit: nat): Reply {
    var cursor := if token.None? then None else DecodeCursor(codec, token.value, sort);
    if token.Some? && (cursor.None? || !Typed(sort, cursor.value.value)) then InvalidCursor
    else
      var page := PageOf(Query(OrderOf(sort), rows, Selects(sort, cursor), limit + 1), limit);
      Listed(page.data,
             if page.next.None? then None else Some(EncodeCursor(codec, Cursor(page.next.value, sort))),
             page.hasMore)
  }

  /** A client following `next`; the table may be another one at every page. */
  function Browse(codec: Codec<Cursor>, sort: Sort, tables: seq<seq<Item<Listing>>>, token: Option<string>,
                  limit: nat): (replies: seq<Reply>)
    ensures |replies| <= |tables|
  {
    if tables == [] then []
    else
      var reply := List(codec, sort, tables[0], token, limit);
      [reply] + if reply.InvalidCursor? || reply.next.None? then []
                else Browse(codec, sort, tables[1..], reply.next, limit)
  }

  ghost predicate TypedRows(sort: Sort, rows: seq<Item<Listing>>) {
    forall i | 0 <= i < |rows| :: Typed(sort, rows[i].at.value)
  }

  lemma {:induction false} RowsAreTyped(sort: Sort, shown: Listing -> bool, table: seq<Listing>)
    ensures TypedRows(sort, Rows(sort, shown, table))
  {
    if table != [] { RowsAreTyped(sort, shown, table[1..]); }
  }

  /** The query with the clause is the page of the order. */
  lemma QueryIsPage(sort: Sort, rows: seq<Item<Listing>>, cursor: Option<Position>, limit: nat)
    requires TypedRows(sort, rows) && (cursor.Some? ==> Typed(sort, cursor.value.value))
    ensures PageOf(Query(OrderOf(sort), rows, Selects(sort, cursor), limit + 1), limit) ==
            ReadPage(OrderOf(sort), rows, cursor, limit)
  {
    forall i | 0 <= i < |rows|
      ensures Selects(sort, cursor)(rows[i].at) == After(OrderOf(sort), cursor)(rows[i].at)
    {
      if cursor.Some? { ClauseIsOrder(sort, cursor.value, rows[i].at); }
    }
    FilterAgreesOn(rows, Selects(sort, cursor), After(OrderOf(sort), cursor));
  }

  /******* The match list *******/

  datatype MatchReply<T> = InvalidMatchCursor | Matches(data: seq<Item<T>>, next: Option<string>, hasMore: bool)

  function MatchSelects(cursor: Option<Position>): Position -> bool
    requires cursor.Some? ==> cursor.value.value.Number?
  {
    (p: Position) => cursor.None? || (p.value.Number? && MatchClause(cursor.value, p))
  }

  function ListMatches<T>(codec: Codec<Position>, rows: seq<Item<T>>, token: Option<string>, limit: nat): MatchReply<T> {
    var cursor := if token.None? then None else DecodeMatchCursor(codec, token.value);
    if token.Some? && cursor.None? then InvalidMatchCursor
    else
      var page := PageOf(Query(MATCH_ORDER, rows, MatchSelects(cursor), limit + 1), limit);
      Matches(page.data,
              if page.next.None? then None else Some(EncodeMatchCursor(codec, page.next.value)),
              page.hasMore)
  }

  function BrowseMatches<T>(codec: Codec<Position>, tables: seq<seq<Item<T>>>, token: Option<string>,
                            limit: nat): (replies: seq<MatchReply<T>>)
    ensures |replies| <= |tables|
  {
    if tables == [] then []
    else
      var reply := ListMatches(codec, tables[0], token, limit);
      [reply] + if reply.InvalidMatchCursor? || reply.next.None? then []
                else BrowseMatches(codec, tables[1..], reply.next, limit)
  }

  ghost predicate Scored<T>(rows: seq<Item<T>>) {
    forall i | 0 <= i < |rows| :: IsScore(rows[i].at.value)
  }

  lemma {:induction false} FilterAgreesOn<T>(t: seq<Item<T>>, a: Position -> bool, b: Position -> bool)
    requires forall i | 0 <= i < |t| :: a(t[i].at) == b(t[i].at)
    ensures Filter(t, a) == Filter(t, b)
  {
    if t != [] {
      assert a(t[0].at) == b(t[0].at);
      FilterAgreesOn(t[1..], a, b);
    }
  }

  lemma MatchQueryIsPage<T>(rows: seq<Item<T>>, cursor: Option<Position>, limit: nat)
    requires Scored(rows) && (cursor.Some? ==> IsScore(cursor.value.value))
    ensures PageOf(Query(MATCH_ORDER, rows, MatchSelects(cursor), limit + 1), limit) ==
            ReadPage(MATCH_ORDER, rows, cursor, limit)
  {
    forall i | 0 <= i < |rows| ensures MatchSelects(cursor)(rows[i].at) == After(MATCH_ORDER, cursor)(rows[i].at) {
      if cursor.Some? { MatchClauseIsOrder(cursor.value, rows[i].at); }
    }
    FilterAgreesOn(rows, MatchSelects(cursor), After(MATCH_ORDER, cursor));
  }
}
