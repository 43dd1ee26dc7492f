/** What keyset pagination guarantees, whatever happens to the table between two pages. */
module KeysetTheorems {
  import opened Prelude
  import opened Keyset

  /******* Sorting *******/

  lemma {:induction false} TimesOfSum<T>(s: seq<Item<T>>, t: seq<Item<T>>, p: Position)
    ensures Times(s + t, p) == Times(s, p) + Times(t, p)
  {
    if s == [] {
      assert s + t == t;
    } else {
      assert (s + t)[1..] == s[1..] + t;
      TimesOfSum(s[1..], t, p);
    }
  }

  lemma {:induction false} TimesOfPresent<T>(s: seq<Item<T>>, p: Position)
    ensures Times(s, p) > 0 <==> Present(s, p)
  {
    if s != [] {
      TimesOfPresent(s[1..], p);
      if Present(s, p) {
        var i :| 0 <= i < |s| && s[i].at == p;
        if i > 0 { assert s[1..][i - 1].at == p; }
      }
      if Present(s[1..], p) {
        var i :| 0 <= i < |s[1..]| && s[1..][i].at == p;
        assert s[i + 1].at == p;
      }
      if s[0].at == p { assert Present(s, p); }
    }
  }

  lemma {:induction false} TimesInDistinct<T>(t: seq<Item<T>>, p: Position)
    requires Distinct(t)
    ensures Times(t, p) <= 1
  {
    if t != [] {
      TimesInDistinct(t[1..], p);
      TimesOfPresent(t[1..], p);
      forall i | 0 <= i < |t[1..]| ensures t[1..][i].at != t[0].at {
        assert t[1..][i] == t[i + 1];
      }
    }
  }

  lemma {:induction false} InsertKeepsItems<T>(o: Order, x: Item<T>, s: seq<Item<T>>)
    ensures multiset(Insert(o, x, s)) == multiset(s) + multiset{x}
  {
    if s != [] && !Before(o, x.at, s[0].at) {
      InsertKeepsItems(o, x, s[1..]);
      assert s == [s[0]] + s[1..];
    }
  }

  lemma {:induction false} SortedKeepsItems<T>(o: Order, t: seq<Item<T>>)
    ensures multiset(Sorted(o, t)) == multiset(t)
  {
    if t != [] {
      SortedKeepsItems(o, t[1..]);
      InsertKeepsItems(o, t[0], Sorted(o, t[1..]));
      assert t == [t[0]] + t[1..];
    }
  }

  lemma {:induction false} InsertTimes<T>(o: Order, x: Item<T>, s: seq<Item<T>>, p: Position)
    ensures Times(Insert(o, x, s), p) == Times(s, p) + if x.at == p then 1 else 0
  {
    if s != [] && !Before(o, x.at, s[0].at) {
      InsertTimes(o, x, s[1..], p);
      assert Insert(o, x, s)[1..] == Insert(o, x, s[1..]);
    } else {
      assert Insert(o, x, s)[1..] == s;
    }
  }

  lemma {:induction false} SortedTimes<T>(o: Order, t: seq<Item<T>>, p: Position)
    ensures Times(Sorted(o, t), p) == Times(t, p)
  {
    if t != [] {
      SortedTimes(o, t[1..], p);
      InsertTimes(o, t[0], Sorted(o, t[1..]), p);
    }
  }

  lemma {:induction false} FilterTimes<T>(t: seq<Item<T>>, keep: Position -> bool, p: Position)
    ensures Times(Filter(t, keep), p) == if keep(p) then Times(t, p) else 0
  {
    if t != [] {
      FilterTimes(t[1..], keep, p);
      TimesOfSum(if keep(t[0].at) then [t[0]] else [], Filter(t[1..], keep), p);
    }
  }

  /** No position of `x` occurs in `s`. */
  lemma {:induction false} InsertOrdered<T>(o: Order, x: Item<T>, s: seq<Item<T>>)
    requires Ordered(o, s) && !Present(s, x.at)
    ensures Ordered(o, Insert(o, x, s))
    ensures forall i | 0 <= i < |Insert(o, x, s)| :: Insert(o, x, s)[i] == x || Insert(o, x, s)[i] in s
  {
    if s == [] {
    } else if Before(o, x.at, s[0].at) {
      var r := [x] + s;
      forall j | 0 < j < |r| ensures Before(o, x.at, r[j].at) {
        if j > 1 { BeforeTransitive(o, x.at, s[0].at, r[j].at); }
      }
    } else {
      BeforeTotal(o, x.at, s[0].at);
      assert s[0].at != x.at;
      forall i | 0 <= i < |s[1..]| ensures s[1..][i].at != x.at { assert s[i + 1].at != x.at; }
      InsertOrdered(o, x, s[1..]);
      OrderedAfter(o, s[0], Insert(o, x, s[1..]), x, s);
    }
  }

  lemma OrderedAfter<T>(o: Order, head: Item<T>, r: seq<Item<T>>, x: Item<T>, s: seq<Item<T>>)
    requires s != [] && head == s[0] && Ordered(o, s) && Ordered(o, r) && Before(o, head.at, x.at)
    requires forall i | 0 <= i < |r| :: r[i] == x || r[i] in s[1..]
    ensures Ordered(o, [head] + r)
    ensures forall i | 0 <= i < |[head] + r| :: ([head] + r)[i] == x || ([head] + r)[i] in s
  {
    forall i | 0 <= i < |r| ensures Before(o, head.at, r[i].at) {
      if r[i] != x {
        var k :| 0 <= k < |s[1..]| && s[1..][k] == r[i];
        assert s[k + 1] == r[i];
      }
    }
  }

  lemma {:induction false} SortedOrdered<T>(o: Order, t: seq<Item<T>>)
    requires forall p :: Times(t, p) <= 1
    ensures Ordered(o, Sorted(o, t))
  {
    if t != [] {
      forall p ensures Times(t[1..], p) <= 1 { assert Times(t, p) <= 1; }
      SortedOrdered(o, t[1..]);
      var s := Sorted(o, t[1..]);
      assert Times(t, t[0].at) <= 1;
      SortedTimes(o, t[1..], t[0].at);
      TimesOfPresent(s, t[0].at);
      InsertOrdered(o, t[0], s);
    }
  }

  /******* One page *******/

  /** The selected rows in order: everything kept, each once. */
  lemma SelectionIs<T>(o: Order, t: seq<Item<T>>, keep: Position -> bool)
    requires Distinct(t)
    ensures var s := Sorted(o, Filter(t, keep));
            && Ordered(o, s)
            && (forall p :: Times(s, p) == if keep(p) && Present(t, p) then 1 else 0)
  {
    var f := Filter(t, keep);
    forall p ensures Times(f, p) == if keep(p) && Present(t, p) then 1 else 0 {
      FilterTimes(t, keep, p);
      TimesInDistinct(t, p);
      TimesOfPresent(t, p);
    }
    SortedOrdered(o, f);
    forall p ensures Times(Sorted(o, f), p) == Times(f, p) { SortedTimes(o, f, p); }
  }

  /** Cutting an ordered list at `n` splits its positions at the last one kept. */
  lemma CutAt<T>(o: Order, s: seq<Item<T>>, n: nat, p: Position)
    requires Ordered(o, s) && 0 < n < |s|
    ensures Times(s[..n], p) == if Before(o, s[n - 1].at, p) then 0 else Times(s, p)
  {
    assert s == s[..n] + s[n..];
    TimesOfSum(s[..n], s[n..], p);
    TimesOfPresent(s[..n], p);
    TimesOfPresent(s[n..], p);
    if Present(s[..n], p) {
      var i :| 0 <= i < |s[..n]| && s[..n][i].at == p;
      assert s[i].at == p;
      BeforeTotal(o, s[n - 1].at, p);
    }
    if Present(s[n..], p) {
      var i :| 0 <= i < |s[n..]| && s[n..][i].at == p;
      assert s[n + i].at == p;
    }
  }

  /** A page lists exactly the rows after its start and not after its cursor, each once. */
  lemma PageLists<T>(o: Order, t: seq<Item<T>>, start: Option<Position>, limit: nat, p: Position)
    requires Distinct(t) && limit > 0
    ensures var page := ReadPage(o, t, start, limit);
            && page.hasMore == page.next.Some?
            && Times(page.data, p) ==
               if Present(t, p) && Follows(o, start, p) && (page.next.None? || !Before(o, page.next.value, p))
               then 1 else 0
  {
    var keep := After(o, start);
    var s := Sorted(o, Filter(t, keep));
    SelectionIs(o, t, keep);
    var page := ReadPage(o, t, start, limit);
    assert page == PageOf(Take(s, limit + 1), limit);
    if |s| > limit {
      assert page.data == s[..limit];
      CutAt(o, s, limit, p);
    } else {
      assert page.data == s;
    }
  }

  /** The cursor of a page lies after its start. */
  lemma CursorAdvances<T>(o: Order, t: seq<Item<T>>, start: Option<Position>, limit: nat)
    requires Distinct(t) && limit > 0
    ensures var page := ReadPage(o, t, start, limit);
            page.next.Some? ==> Follows(o, start, page.next.value)
  {
    var page := ReadPage(o, t, start, limit);
    if page.next.Some? {
      var p := page.next.value;
      PageLists(o, t, start, limit, p);
      TimesOfPresent(page.data, p);
      assert page.data[|page.data| - 1].at == p;
    }
  }

  /******* Every page *******/

  ghost predicate AllDistinct<T>(tables: seq<seq<Item<T>>>) {
    forall i | 0 <= i < |tables| :: Distinct(tables[i])
  }

  /**
    Rows may be inserted, deleted and moved between any two pages. No position is ever listed twice,
    and one that is in the table at every page is listed exactly once when the walk has finished.
   */
  lemma {:induction false} WalkListsOnce<T>(o: Order, tables: seq<seq<Item<T>>>, start: Option<Position>,
                                            limit: nat, p: Position)
    requires AllDistinct(tables) && limit > 0
    ensures var pages := Walk(o, tables, start, limit);
            && Times(Listed(pages), p) <= (if Follows(o, start, p) then 1 else 0)
            && (Finished(pages) && Follows(o, start, p) && (forall i | 0 <= i < |pages| :: Present(tables[i], p)) ==>
                  Times(Listed(pages), p) == 1)
    decreases |tables|
  {
    var pages := Walk(o, tables, start, limit);
    if tables != [] {
      var page := ReadPage(o, tables[0], start, limit);
      PageLists(o, tables[0], start, limit, p);
      CursorAdvances(o, tables[0], start, limit);
      assert pages[0] == page;
      TimesOfSum(page.data, Listed(pages[1..]), p);
      if page.next.Some? {
        WalkListsOnce(o, tables[1..], page.next, limit, p);
        assert pages[1..] == Walk(o, tables[1..], page.next, limit);
        if Follows(o, page.next, p) && start.Some? { BeforeTransitive(o, start.value, page.next.value, p); }
        RestIsPresent(tables, pages, p);
      }
    }
  }

  lemma RestIsPresent<T>(tables: seq<seq<Item<T>>>, pages: seq<Page<T>>, p: Position)
    requires 0 < |pages| <= |tables|
    ensures (forall i | 0 <= i < |pages| :: Present(tables[i], p)) ==>
              Present(tables[0], p) && forall i | 0 <= i < |pages[1..]| :: Present(tables[1..][i], p)
    ensures |pages| > 1 && Finished(pages) ==> Finished(pages[1..])
  {
  }

  /******* A table that stays as it is *******/

  lemma {:induction false} FilterOfSum<T>(s: seq<Item<T>>, t: seq<Item<T>>, keep: Position -> bool)
    ensures Filter(s + t, keep) == Filter(s, keep) + Filter(t, keep)
  {
    if s == [] {
      assert s + t == t;
    } else {
      assert (s + t)[1..] == s[1..] + t;
      FilterOfSum(s[1..], t, keep);
    }
  }

  lemma {:induction false} FilterAll<T>(s: seq<Item<T>>, keep: Position -> bool, all: bool)
    requires forall i | 0 <= i < |s| :: keep(s[i].at) == all
    ensures Filter(s, keep) == if all then s else []
  {
    if s != [] {
      assert keep(s[0].at) == all;
      FilterAll(s[1..], keep, all);
    }
  }

  lemma FilterStep<T>(s: seq<Item<T>>, keep: Position -> bool)
    requires s != []
    ensures var rest := Filter(s[1..], keep);
            && Filter(s, keep) == (if keep(s[0].at) then [s[0]] + rest else rest)
            && (keep(s[0].at) ==> Filter(s, keep)[1..] == rest)
  {
  }

  lemma {:induction false} FilterFirst<T>(o: Order, x: Position, s: seq<Item<T>>, keep: Position -> bool)
    requires forall i | 0 <= i < |s| :: Before(o, x, s[i].at)
    ensures Filter(s, keep) == [] || Before(o, x, Filter(s, keep)[0].at)
  {
    if s != [] && !keep(s[0].at) { FilterFirst(o, x, s[1..], keep); }
  }

  lemma {:induction false} FilterOfInsert<T>(o: Order, x: Item<T>, s: seq<Item<T>>, keep: Position -> bool)
    requires Ordered(o, s)
    ensures Filter(Insert(o, x, s), keep) == if keep(x.at) then Insert(o, x, Filter(s, keep)) else Filter(s, keep)
  {
    if s == [] {
    } else if Before(o, x.at, s[0].at) {
      assert ([x] + s)[1..] == s;
      forall i | 0 <= i < |s| ensures Before(o, x.at, s[i].at) {
        if i > 0 { BeforeTransitive(o, x.at, s[0].at, s[i].at); }
      }
      FilterFirst(o, x.at, s, keep);
    } else {
      FilterOfInsert(o, x, s[1..], keep);
      FilterStep(s, keep);
      FilterStep(Insert(o, x, s), keep);
      assert Insert(o, x, s)[1..] == Insert(o, x, s[1..]);
    }
  }

  /** Filtering then sorting is sorting then filtering. */
  lemma {:induction false} FilterOfSorted<T>(o: Order, t: seq<Item<T>>, keep: Position -> bool)
    requires Distinct(t)
    ensures Filter(Sorted(o, t), keep) == Sorted(o, Filter(t, keep))
  {
    if t != [] {
      FilterOfSorted(o, t[1..], keep);
      SortedOrderedOfDistinct(o, t[1..]);
      FilterOfInsert(o, t[0], Sorted(o, t[1..]), keep);
      FilterStep(t, keep);
    }
  }

  lemma SortedOrderedOfDistinct<T>(o: Order, t: seq<Item<T>>)
    requires Distinct(t)
    ensures Ordered(o, Sorted(o, t))
  {
    forall p ensures Times(t, p) <= 1 { TimesInDistinct(t, p); }
    SortedOrdered(o, t);
  }

  /** Where a walk stands after `k` rows of the sorted list. */
  function StartAt<T>(list: seq<Item<T>>, k: nat): Option<Position>
    requires k <= |list|
  {
    if k == 0 then None else Some(list[k - 1].at)
  }

  lemma AfterSplits<T>(o: Order, list: seq<Item<T>>, k: nat, i: nat)
    requires Ordered(o, list) && k <= |list| && i < |list|
    ensures After(o, StartAt(list, k))(list[i].at) <==> i >= k
  {
    hide Before;
    if 0 < k {
      BeforeTotal(o, list[i].at, list[k - 1].at);
      BeforeTotal(o, list[i].at, list[i].at);
    }
  }

  lemma FilterOfOrdered<T>(o: Order, list: seq<Item<T>>, k: nat)
    requires Ordered(o, list) && k <= |list|
    ensures Filter(list, After(o, StartAt(list, k))) == list[k..]
  {
    hide Filter;
    hide Ordered;
    hide After;
    var keep := After(o, StartAt(list, k));
    forall i | 0 <= i < |list| ensures keep(list[i].at) <==> i >= k { AfterSplits(o, list, k, i); }
    SplitFilter(list, keep, k);
  }

  lemma SplitFilter<T>(list: seq<Item<T>>, keep: Position -> bool, k: nat)
    requires k <= |list| && forall i | 0 <= i < |list| :: keep(list[i].at) <==> i >= k
    ensures Filter(list, keep) == list[k..]
  {
    hide Filter;
    assert list == list[..k] + list[k..];
    FilterOfSum(list[..k], list[k..], keep);
    FilterAll(list[k..], keep, true);
    FilterAll(list[..k], keep, false);
  }

  lemma RestOfList<T>(o: Order, t: seq<Item<T>>, k: nat)
    requires Distinct(t) && k <= |Sorted(o, t)|
    ensures var list := Sorted(o, t);
            Sorted(o, Filter(t, After(o, StartAt(list, k)))) == list[k..]
  {
    hide Filter;
    hide Before;
    var list := Sorted(o, t);
    SortedOrderedOfDistinct(o, t);
    FilterOfSorted(o, t, After(o, StartAt(list, k)));
    FilterOfOrdered(o, list, k);
  }

  lemma PageOfList<T>(o: Order, t: seq<Item<T>>, k: nat, limit: nat)
    requires Distinct(t) && limit > 0 && k <= |Sorted(o, t)|
    ensures var list := Sorted(o, t);
            var page := ReadPage(o, t, StartAt(list, k), limit);
            if k + limit < |list| then page.data == list[k..k + limit] && page.next == StartAt(list, k + limit)
            else page.data == list[k..] && page.next == None
  {
    hide Filter;
    hide Sorted;
    hide Distinct;
    hide After;
    RestOfList(o, t, k);
    var rest := Sorted(o, t)[k..];
    if |rest| > limit { assert rest[..limit + 1][..limit] == rest[..limit]; }
  }

  lemma {:induction false} RestOfWalk<T>(o: Order, t: seq<Item<T>>, tables: seq<seq<Item<T>>>, k: nat, limit: nat)
    requires Distinct(t) && limit > 0 && k <= |Sorted(o, t)| < k + |tables|
    requires forall i | 0 <= i < |tables| :: tables[i] == t
    ensures var list := Sorted(o, t);
            var pages := Walk(o, tables, StartAt(list, k), limit);
            Finished(pages) && Listed(pages) == list[k..]
    decreases |tables|
  {
    hide Sorted;
    hide ReadPage;
    hide Distinct;
    var list := Sorted(o, t);
    var pages := Walk(o, tables, StartAt(list, k), limit);
    PageOfList(o, t, k, limit);
    if k + limit < |list| {
      RestOfWalk(o, t, tables[1..], k + limit, limit);
      assert pages[1..] == Walk(o, tables[1..], StartAt(list, k + limit), limit);
      assert list[k..] == list[k..k + limit] + list[k + limit..];
    } else {
      assert pages[1..] == [];
    }
  }

  /** An unchanged table is listed whole, in order, by at most one page more than it has rows. */
  lemma WalkOfUnchangedTable<T>(o: Order, t: seq<Item<T>>, tables: seq<seq<Item<T>>>, limit: nat)
    requires Distinct(t) && limit > 0 && |tables| > |t|
    requires forall i | 0 <= i < |tables| :: tables[i] == t
    ensures var pages := Walk(o, tables, None, limit);
            && Finished(pages)
            && Ordered(o, Listed(pages)) && multiset(Listed(pages)) == multiset(t)
            && Listed(pages) == Sorted(o, t)
  {
    SortedKeepsItems(o, t);
    assert |Sorted(o, t)| == |multiset(t)| == |t|;
    SortedOrderedOfDistinct(o, t);
    RestOfWalk(o, t, tables, 0, limit);
  }
}
