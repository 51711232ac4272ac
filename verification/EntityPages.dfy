// Cursor pagination over the cached entity names (app_console.go), and whole
// traversals, the list possibly changing between pages.
module EntityPages {
  import opened Text
  import opened EntityNames

  datatype Page = Page(items: seq<string>, cursor: string, done: bool)

  function Min(a: nat, b: nat): nat {
    if a < b then a else b
  }

  // Where the page after the cursor starts.
  function Start(names: seq<string>, cursor: string): (k: nat)
    ensures k <= |names|
  {
    var c := TrimSpace(cursor);
    if c == "" then 0
    else
      var r := Rank(names, c);
      if r < |names| && names[r] == c then r + 1 else r
  }

  function Limit(limit: int): (n: nat)
    ensures n > 0
  {
    if limit <= 0 then 100 else limit
  }

  function PageOf(names: seq<string>, cursor: string, limit: int): Page {
    var start := Start(names, cursor);
    var end := Min(start + Limit(limit), |names|);
    if start >= |names| then Page([], "", true)
    else
      var items := names[start..end];
      Page(items, if end < |names| then items[|items| - 1] else "", end >= |names|)
  }

  // paginateCachedEntityNames, without the details and kinds of the page's items.
  method Paginate(lower: Lowering, items: seq<string>, pattern: string, cursor: string, limit: int)
    returns (page: Page)
    ensures page == PageOf(Filtered(lower, items, pattern), cursor, limit)
  {
    hide *;
    var filtered := FilterNames(lower, items, pattern);
    StartFacts(filtered, cursor);
    PageFacts(filtered, cursor, limit);
    FilteredIsProper(lower, items, pattern);
    ProperIncreases(filtered);
    var size := if limit <= 0 then 100 else limit;
    var start := 0;
    var trimmedCursor := TrimSpace(cursor);
    if trimmedCursor != "" {
      var idx := SearchStrings(filtered, trimmedCursor);
      if idx < |filtered| && filtered[idx] == trimmedCursor {
        start := idx + 1;
      } else {
        start := idx;
      }
    }
    if start >= |filtered| {
      return Page([], "", true);
    }
    var end := start + size;
    if end > |filtered| {
      end := |filtered|;
    }
    var pageItems := filtered[start..end];
    var done := end >= |filtered|;
    var nextCursor := "";
    if !done && |pageItems| > 0 {
      nextCursor := pageItems[|pageItems| - 1];
    }
    page := Page(pageItems, nextCursor, done);
  }

  // The start and the page in the terms of the method.
  lemma StartFacts(names: seq<string>, cursor: string)
    ensures var c := TrimSpace(cursor); var r := Rank(names, c);
            Start(names, cursor) == if c == "" then 0 else if r < |names| && names[r] == c then r + 1 else r
  {
    hide Rank, TrimSpace;
  }

  lemma PageFacts(names: seq<string>, cursor: string, limit: int)
    ensures Start(names, cursor) >= |names| ==> PageOf(names, cursor, limit) == Page([], "", true)
    ensures Start(names, cursor) < |names| ==>
              var start, size := Start(names, cursor), if limit <= 0 then 100 else limit;
              var end := if start + size > |names| then |names| else start + size;
              var items := names[start..end];
              PageOf(names, cursor, limit) ==
              Page(items, if end < |names| then items[|items| - 1] else "", end >= |names|)
  {
    hide Start;
  }

  // ---------------------------------------------------------------- one page

  // What filtering leaves: increasing, each name trimmed and not empty.
  predicate Proper(names: seq<string>) {
    Increasing(names) && forall i :: 0 <= i < |names| ==> names[i] != "" && Trimmed(names[i])
  }

  lemma ProperIncreases(names: seq<string>)
    requires Proper(names)
    ensures Increasing(names)
  {
    hide Less;
  }

  lemma FilteredIsProper(lower: Lowering, items: seq<string>, pattern: string)
    ensures Proper(Filtered(lower, items, pattern))
  {
    hide Less, MatchesPattern, Trimmed, Filtered;
    FilteredIsFiltered(lower, items, pattern);
    var names := Filtered(lower, items, pattern);
    forall i | 0 <= i < |names|
      ensures names[i] != "" && Trimmed(names[i])
    {
      assert names[i] in names;
    }
  }

  // The name stands after the cursor; a blank cursor is before every name.
  predicate After(cursor: string, x: string) {
    TrimSpace(cursor) == "" || Less(TrimSpace(cursor), x)
  }

  lemma StartSplits(names: seq<string>, cursor: string)
    requires Increasing(names)
    ensures forall i :: 0 <= i < |names| ==> (After(cursor, names[i]) <==> Start(names, cursor) <= i)
  {
    hide Less, TrimSpace;
    var c, k := TrimSpace(cursor), Start(names, cursor);
    if c != "" {
      RankSplits(names, c);
      var r := Rank(names, c);
      LessIrreflexive(c);
      forall i | 0 <= i < |names|
        ensures Less(c, names[i]) <==> k <= i
      {
        if i < r {
          LessAsymmetric(names[i], c);
        } else if i >= k {
          LessTotal(c, names[i]);
          if r < k {
            assert Less(names[r], names[i]);
          }
        }
      }
    }
  }

  // A page is the first names, up to the limit, of those after the cursor; it is
  // the last page exactly when no further one is left.
  lemma PageIsFirstAfterCursor(names: seq<string>, cursor: string, limit: int)
    requires Proper(names)
    ensures var page, k := PageOf(names, cursor, limit), Start(names, cursor);
            var n := if limit <= 0 then 100 else limit;
            && n == Limit(limit)
            && (forall i :: 0 <= i < |names| ==> (After(cursor, names[i]) <==> k <= i))
            && page.items == names[k..if k + n <= |names| then k + n else |names|]
            && (page.done <==> k + n >= |names|)
            && (page.done <==> page.cursor == "")
            && (!page.done ==>
                  |page.items| == n && page.cursor == page.items[|page.items| - 1]
                  && Trimmed(page.cursor)
                  && page.cursor == names[k + n - 1])
  {
    hide Less, TrimSpace, Trimmed;
    StartSplits(names, cursor);
  }

  // ---------------------------------------------------------------- traversals

  // What a traversal asks for on every page.
  datatype Query = Query(lower: Lowering, pattern: string, limit: int) {
    function Names(items: seq<string>): seq<string> {
      Filtered(lower, items, pattern)
    }
  }

  // The pages of a traversal that sees these cached items in turn, up to the last page.
  function Traverse(q: Query, caches: seq<seq<string>>, cursor: string): seq<Page> {
    if caches == [] then []
    else
      var page := PageOf(q.Names(caches[0]), cursor, q.limit);
      [page] + if page.done then [] else Traverse(q, caches[1..], page.cursor)
  }

  function Items(pages: seq<Page>): seq<string> {
    if pages == [] then [] else pages[0].items + Items(pages[1..])
  }

  lemma PageItems(names: seq<string>, cursor: string, limit: int)
    requires Proper(names)
    ensures var page := PageOf(names, cursor, limit);
            && Increasing(page.items)
            && (forall x :: x in page.items ==> After(cursor, x) && x in names)
            && (forall x :: x in names && After(cursor, x) && x !in page.items ==>
                  !page.done && After(page.cursor, x))
            && (!page.done ==> forall x :: x in page.items ==> x == page.cursor || Less(x, page.cursor))
            && (!page.done ==> page.cursor != "" && Trimmed(page.cursor))
  {
    hide Less, TrimSpace, Trimmed, Start, PageOf;
    PageIsFirstAfterCursor(names, cursor, limit);
    var page, k := PageOf(names, cursor, limit), Start(names, cursor);
    forall x | x in page.items
      ensures After(cursor, x) && x in names
      ensures !page.done ==> x == page.cursor || Less(x, page.cursor)
    {
      var i :| 0 <= i < |page.items| && page.items[i] == x;
      assert names[k + i] == x;
    }
    forall x | x in names && After(cursor, x) && x !in page.items
      ensures !page.done && After(page.cursor, x)
    {
      LeftForLater(names, cursor, limit, x);
    }
  }

  // What a page leaves out stands after its cursor.
  lemma LeftForLater(names: seq<string>, cursor: string, limit: int, x: string)
    requires Proper(names) && x in names && After(cursor, x) && x !in PageOf(names, cursor, limit).items
    ensures var page := PageOf(names, cursor, limit); !page.done && After(page.cursor, x)
  {
    hide Less, TrimSpace, Trimmed, Start, PageOf;
    PageIsFirstAfterCursor(names, cursor, limit);
    var page, k := PageOf(names, cursor, limit), Start(names, cursor);
    var end := Min(k + Limit(limit), |names|);
    var i :| 0 <= i < |names| && names[i] == x;
    assert TrimSpace(page.cursor) == page.cursor;
  }

  // A name is listed when it is the trimmed form of an item and matches the pattern.
  lemma ListedIff(q: Query, items: seq<string>, x: string)
    ensures x in q.Names(items) <==> IsName(items, x) && MatchesPattern(q.lower, q.pattern, x)
    ensures Proper(q.Names(items))
  {
    hide Less, MatchesPattern, IsName, Filtered, Proper;
    FilteredIsFiltered(q.lower, items, q.pattern);
    FilteredIsProper(q.lower, items, q.pattern);
  }

  // Whatever happens to the cache, the names come in increasing order over the whole
  // traversal, so none is returned twice; each is after the first cursor, matches the
  // pattern and was in the cache at one of the pages.
  lemma {:induction false} TraversalIncreasing(q: Query, caches: seq<seq<string>>, cursor: string)
    ensures var all := Items(Traverse(q, caches, cursor));
            && Increasing(all)
            && forall x :: x in all ==>
                 && After(cursor, x)
                 && MatchesPattern(q.lower, q.pattern, x)
                 && exists n :: 0 <= n < |caches| && IsName(caches[n], x)
    decreases caches
  {
    hide Less, TrimSpace, Trimmed, PageOf, Proper, After, MatchesPattern, IsName, Filtered;
    if caches != [] {
      var names := q.Names(caches[0]);
      var page := PageOf(names, cursor, q.limit);
      ListedIff(q, caches[0], "");
      PageItems(names, cursor, q.limit);
      var rest := if page.done then [] else Traverse(q, caches[1..], page.cursor);
      ItemsCons(page, rest);
      forall x | x in page.items
        ensures IsName(caches[0], x) && MatchesPattern(q.lower, q.pattern, x)
      {
        ListedIff(q, caches[0], x);
      }
      if page.done {
        assert page.items + [] == page.items;
      } else {
        TraversalIncreasing(q, caches[1..], page.cursor);
        OnwardsFromCursor(page, Items(rest));
        forall x | x in Items(rest)
          ensures After(cursor, x) && exists n :: 0 <= n < |caches| && IsName(caches[n], x)
        {
          var n :| 0 <= n < |caches[1..]| && IsName(caches[1..][n], x);
          assert IsName(caches[n + 1], x);
          LimitItems(names, cursor, q.limit);
          AfterTrans(cursor, page.cursor, x);
        }
      }
    }
  }

  lemma LimitItems(names: seq<string>, cursor: string, limit: int)
    requires Proper(names)
    ensures var page := PageOf(names, cursor, limit); !page.done ==> After(cursor, page.cursor)
  {
    hide Less, TrimSpace, Trimmed, After;
    PageIsFirstAfterCursor(names, cursor, limit);
  }

  lemma ItemsCons(page: Page, rest: seq<Page>)
    ensures Items([page] + rest) == page.items + Items(rest)
  {
    assert ([page] + rest)[1..] == rest;
  }

  lemma AfterTrans(cursor: string, next: string, x: string)
    requires After(cursor, next) && After(next, x) && next != "" && Trimmed(next)
    ensures After(cursor, x)
  {
    hide Less;
    if TrimSpace(cursor) != "" {
      LessTransitive(TrimSpace(cursor), next, x);
    }
  }

  lemma OnwardsFromCursor(page: Page, rest: seq<string>)
    requires Increasing(page.items) && Increasing(rest)
    requires page.cursor != "" && Trimmed(page.cursor)
    requires forall x :: x in page.items ==> x == page.cursor || Less(x, page.cursor)
    requires forall x :: x in rest ==> After(page.cursor, x)
    ensures Increasing(page.items + rest)
  {
    hide Less, TrimSpace;
    var all, m := page.items + rest, |page.items|;
    assert TrimSpace(page.cursor) == page.cursor;
    forall i, j | 0 <= i < j < |all|
      ensures Less(all[i], all[j])
    {
      if i < m <= j {
        assert all[i] in page.items && all[j] in rest;
        if all[i] != page.cursor {
          LessTransitive(all[i], page.cursor, all[j]);
        }
      }
    }
  }

  predicate Finished(pages: seq<Page>) {
    pages != [] && pages[|pages| - 1].done
  }

  // A name that matches and stays in the cache throughout a finished traversal is
  // returned; as the names increase, exactly once.
  lemma {:induction false} TraversalComplete(q: Query, caches: seq<seq<string>>, cursor: string, x: string)
    requires Finished(Traverse(q, caches, cursor))
    requires After(cursor, x) && MatchesPattern(q.lower, q.pattern, x)
    requires forall i :: 0 <= i < |caches| ==> IsName(caches[i], x)
    ensures x in Items(Traverse(q, caches, cursor))
    decreases caches
  {
    hide Less, TrimSpace, Trimmed, PageOf, Proper, After, MatchesPattern, IsName, Filtered;
    ListedIff(q, caches[0], x);
    var page := PageOf(q.Names(caches[0]), cursor, q.limit);
    PageItems(q.Names(caches[0]), cursor, q.limit);
    var rest := if page.done then [] else Traverse(q, caches[1..], page.cursor);
    ItemsCons(page, rest);
    if x !in page.items {
      assert Traverse(q, caches, cursor) == [page] + rest;
      TraversalComplete(q, caches[1..], page.cursor, x);
    }
  }

  lemma OccursOnce(names: seq<string>, x: string)
    requires Increasing(names) && x in names
    ensures exists i :: 0 <= i < |names| && names[i] == x && forall j :: 0 <= j < |names| && names[j] == x ==> j == i
  {
    hide Less;
    LessIrreflexive(x);
    var i :| 0 <= i < |names| && names[i] == x;
    forall j | 0 <= j < |names| && names[j] == x
      ensures j == i
    {
      assert !Less(names[i], names[j]) && !Less(names[j], names[i]);
    }
  }

  // ---------------------------------------------------------------- a fixed list

  function Repeat(items: seq<string>, n: nat): (caches: seq<seq<string>>)
    ensures |caches| == n && forall i :: 0 <= i < n ==> caches[i] == items
  {
    if n == 0 then [] else [items] + Repeat(items, n - 1)
  }

  // On a cache that does not change, a traversal of at most one page per name and
  // one more finishes, and its pages concatenate to the matching names after the
  // cursor; the number of names left strictly decreases.
  lemma {:induction false} FixedListTraversal(q: Query, items: seq<string>, cursor: string, n: nat)
    requires var names := q.Names(items); n > |names| - Start(names, cursor)
    ensures var names, pages := q.Names(items), Traverse(q, Repeat(items, n), cursor);
            Finished(pages) && Items(pages) == names[Start(names, cursor)..]
    decreases n
  {
    hide Less, TrimSpace, Trimmed, After, Proper, PageOf, Start, Items, Filtered, Query.Names, MatchesPattern, IsName;
    ListedIff(q, items, "");
    var names := q.Names(items);
    var page, k := PageOf(names, cursor, q.limit), Start(names, cursor);
    var m := Min(k + Limit(q.limit), |names|);
    PageIsFirstAfterCursor(names, cursor, q.limit);
    SliceJoin(names, k, m);
    var caches := Repeat(items, n);
    assert caches[1..] == Repeat(items, n - 1);
    if page.done {
      ItemsCons(page, []);
      NoItems();
    } else {
      NextStart(names, cursor, q.limit);
      FixedListTraversal(q, items, page.cursor, n - 1);
      ItemsCons(page, Traverse(q, caches[1..], page.cursor));
    }
  }

  lemma SliceJoin(names: seq<string>, k: nat, m: nat)
    requires k <= m <= |names|
    ensures names[k..] == names[k..m] + names[m..]
    ensures names[|names|..] == []
  {
  }

  lemma NoItems()
    ensures Items([]) == []
  {
  }

  lemma NextStart(names: seq<string>, cursor: string, limit: int)
    requires Proper(names) && !PageOf(names, cursor, limit).done
    ensures Start(names, PageOf(names, cursor, limit).cursor) == Start(names, cursor) + Limit(limit)
  {
    hide Less, Rank;
    PageIsFirstAfterCursor(names, cursor, limit);
    var page, k := PageOf(names, cursor, limit), Start(names, cursor);
    var last := k + Limit(limit) - 1;
    LessIrreflexive(page.cursor);
    RankIs(names, page.cursor, last);
  }
}
