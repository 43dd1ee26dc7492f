/**
  Keyset pagination over a table that may change between pages: read `limit + 1` rows after a
  position, hand out `limit` of them and, if there was one more, the position of the last.
 */
module Keyset {
  import opened Prelude

  /** A sort key: numbers stand for dates, instants, amounts and scores. */
  datatype Value = Null | Number(n: int) | Text(t: string)

  datatype Position = Position(value: Value, id: nat)

  datatype Item<T> = Item(at: Position, row: T)

  /** Nulls are last either way. */
  datatype Order = Order(descending: bool, idDescending: bool)

  /** Code point order; a proper prefix comes first. */
  predicate TextBelow(s: string, t: string) {
    t != [] && (s == [] || s[0] < t[0] || (s[0] == t[0] && TextBelow(s[1..], t[1..])))
  }

  predicate Below(v: Value, w: Value) {
    match (v, w)
    case (Number(m), Number(n)) => m < n
    case (Text(s), Text(t)) => TextBelow(s, t)
    case (Number(_), Text(_)) => true
    case _ => false
  }

  predicate ValueBefore(o: Order, v: Value, w: Value) {
    if v.Null? then false
    else if w.Null? then true
    else if o.descending then Below(w, v) else Below(v, w)
  }

  /** The order of the list. */
  predicate Before(o: Order, p: Position, q: Position) {
    if p.value == q.value then (if o.idDescending then q.id < p.id else p.id < q.id)
    else ValueBefore(o, p.value, q.value)
  }

  /******* A strict total order *******/

  lemma {:induction false} TextTotal(s: string, t: string)
    ensures s == t || TextBelow(s, t) || TextBelow(t, s)
    ensures !(TextBelow(s, t) && TextBelow(t, s)) && !TextBelow(s, s)
  {
    if s != [] && t != [] && s[0] == t[0] {
      TextTotal(s[1..], t[1..]);
      assert s == [s[0]] + s[1..] && t == [t[0]] + t[1..];
    }
    if s != [] && s != t { TextTotal(s[1..], s[1..]); }
    else if s != [] { TextTotal(s[1..], t[1..]); }
  }

  lemma {:induction false} TextTransitive(s: string, t: string, u: string)
    requires TextBelow(s, t) && TextBelow(t, u)
    ensures TextBelow(s, u)
  {
    if s != [] && s[0] == t[0] == u[0] { TextTransitive(s[1..], t[1..], u[1..]); }
  }

  lemma BeforeTotal(o: Order, p: Position, q: Position)
    ensures p == q || Before(o, p, q) || Before(o, q, p)
    ensures !(Before(o, p, q) && Before(o, q, p))
  {
    if p.value.Text? && q.value.Text? { TextTotal(p.value.t, q.value.t); }
  }

  lemma BeforeTransitive(o: Order, p: Position, q: Position, r: Position)
    requires Before(o, p, q) && Before(o, q, r)
    ensures Before(o, p, r)
  {
    if p.value.Text? && q.value.Text? && r.value.Text? {
      var s, t, u := p.value.t, q.value.t, r.value.t;
      TextTotal(s, t);
      TextTotal(t, u);
      TextTotal(s, u);
      if TextBelow(s, t) && TextBelow(t, u) { TextTransitive(s, t, u); }
      if TextBelow(u, t) && TextBelow(t, s) { TextTransitive(u, t, s); }
    }
  }

  /******* The query *******/

  function Insert<T>(o: Order, x: Item<T>, s: seq<Item<T>>): seq<Item<T>> {
    if s == [] || Before(o, x.at, s[0].at) then [x] + s else [s[0]] + Insert(o, x, s[1..])
  }

  function Sorted<T>(o: Order, t: seq<Item<T>>): seq<Item<T>> {
    if t == [] then [] else Insert(o, t[0], Sorted(o, t[1..]))
  }

  function Filter<T>(t: seq<Item<T>>, keep: Position -> bool): seq<Item<T>> {
    if t == [] then [] else (if keep(t[0].at) then [t[0]] else []) + Filter(t[1..], keep)
  }

  function Take<T>(s: seq<T>, n: nat): seq<T> { if |s| <= n then s else s[..n] }

  /** `where … order by … limit …`. */
  function Query<T>(o: Order, t: seq<Item<T>>, keep: Position -> bool, n: nat): seq<Item<T>> {
    Take(Sorted(o, Filter(t, keep)), n)
  }

  predicate Follows(o: Order, start: Option<Position>, p: Position) {
    start.None? || Before(o, start.value, p)
  }

  function After(o: Order, start: Option<Position>): Position -> bool { p => Follows(o, start, p) }

  datatype Page<T> = Page(data: seq<Item<T>>, next: Option<Position>, hasMore: bool)

  function PageOf<T>(rows: seq<Item<T>>, limit: nat): Page<T> {
    var data := Take(rows, limit);
    var hasMore := |rows| > limit;
    Page(data, if hasMore && data != [] then Some(data[|data| - 1].at) else None, hasMore)
  }

  function ReadPage<T>(o: Order, t: seq<Item<T>>, start: Option<Position>, limit: nat): Page<T> {
    PageOf(Query(o, t, After(o, start), limit + 1), limit)
  }

  /** The pages a reader gets, the table being `tables[i]` when page `i` is read. */
  function Walk<T>(o: Order, tables: seq<seq<Item<T>>>, start: Option<Position>, limit: nat): (pages: seq<Page<T>>)
    ensures |pages| <= |tables|
  {
    if tables == [] then []
    else
      var page := ReadPage(o, tables[0], start, limit);
      [page] + if page.next.None? then [] else Walk(o, tables[1..], page.next, limit)
  }

  /** No further page was promised. */
  predicate Finished<T>(pages: seq<Page<T>>) { pages != [] && pages[|pages| - 1].next.None? }

  function Listed<T>(pages: seq<Page<T>>): seq<Item<T>> {
    if pages == [] then [] else pages[0].data + Listed(pages[1..])
  }

  /** How often a position is in a list. */
  function Times<T>(s: seq<Item<T>>, p: Position): nat {
    if s == [] then 0 else (if s[0].at == p then 1 else 0) + Times(s[1..], p)
  }

  /** Ids are unique in a table. */
  ghost predicate Distinct<T>(t: seq<Item<T>>) {
    forall i, j | 0 <= i < j < |t| :: t[i].at.id != t[j].at.id
  }

  ghost predicate Present<T>(t: seq<Item<T>>, p: Position) { exists i | 0 <= i < |t| :: t[i].at == p }

  ghost predicate Ordered<T>(o: Order, s: seq<Item<T>>) {
    forall i, j | 0 <= i < j < |s| :: Before(o, s[i].at, s[j].at)
  }
}
