// The cached entity names of app_console.go: trimmed, deduplicated, sorted and
// filtered, with the byte order of Go strings.
module EntityNames {
  import opened Text

  // ---------------------------------------------------------------- string order

  // a < b in Go: lexicographic by code.
  predicate Less(a: string, b: string) {
    if b == "" then false
    else if a == "" then true
    else a[0] < b[0] || (a[0] == b[0] && Less(a[1..], b[1..]))
  }

  lemma {:induction false} LessIrreflexive(a: string)
    ensures !Less(a, a)
  {
    if a != "" {
      LessIrreflexive(a[1..]);
    }
  }

  lemma {:induction false} LessTransitive(a: string, b: string, c: string)
    requires Less(a, b) && Less(b, c)
    ensures Less(a, c)
  {
    if a != "" && a[0] == b[0] && b[0] == c[0] {
      LessTransitive(a[1..], b[1..], c[1..]);
    }
  }

  lemma {:induction false} LessTotal(a: string, b: string)
    ensures a == b || Less(a, b) || Less(b, a)
  {
    if a != "" && b != "" && a[0] == b[0] {
      LessTotal(a[1..], b[1..]);
      assert a == [a[0]] + a[1..] && b == [b[0]] + b[1..];
    }
  }

  lemma LessAsymmetric(a: string, b: string)
    requires Less(a, b)
    ensures !Less(b, a) && a != b
  {
    LessIrreflexive(a);
    if Less(b, a) {
      LessTransitive(a, b, a);
    }
  }

  // ---------------------------------------------------------------- sorted lists

  // Strictly increasing.
  predicate Increasing(names: seq<string>) {
    forall i, j :: 0 <= i < j < |names| ==> Less(names[i], names[j])
  }

  // How many names of an increasing list are below x: sort.SearchStrings.
  function Rank(names: seq<string>, x: string): (r: nat)
    ensures r <= |names|
  {
    if names != [] && Less(names[0], x) then 1 + Rank(names[1..], x) else 0
  }

  lemma {:induction false} RankSplits(names: seq<string>, x: string)
    requires Increasing(names)
    ensures forall i :: 0 <= i < |names| ==> (Less(names[i], x) <==> i < Rank(names, x))
  {
    hide Less;
    if names != [] {
      var rest := names[1..];
      RankSplits(rest, x);
      forall i | 0 <= i < |names|
        ensures Less(names[i], x) <==> i < Rank(names, x)
      {
        if i > 0 {
          assert names[i] == rest[i - 1];
          if Less(names[i], x) {
            LessTransitive(names[0], names[i], x);
          }
        }
      }
    }
  }

  lemma RankIs(names: seq<string>, x: string, r: nat)
    requires Increasing(names) && r <= |names|
    requires forall i :: 0 <= i < r ==> Less(names[i], x)
    requires r < |names| ==> !Less(names[r], x)
    ensures Rank(names, x) == r
  {
    hide Less;
    RankSplits(names, x);
    assert r < |names| ==> !Less(names[r], x);
    assert r > 0 ==> Less(names[r - 1], x);
  }

  // sort.SearchStrings, the binary search of the library.
  method SearchStrings(names: seq<string>, x: string) returns (r: nat)
    requires Increasing(names)
    ensures r == Rank(names, x)
  {
    hide Less, Rank;
    var lo, hi := 0, |names|;
    while lo < hi
      invariant lo <= hi <= |names|
      invariant forall i :: 0 <= i < lo ==> Less(names[i], x)
      invariant forall i :: hi <= i < |names| ==> !Less(names[i], x)
    {
      var mid := (lo + hi) / 2;
      if Less(names[mid], x) {
        forall i | lo <= i < mid
          ensures Less(names[i], x)
        {
          LessTransitive(names[i], names[mid], x);
        }
        lo := mid + 1;
      } else {
        forall i | mid <= i < hi
          ensures !Less(names[i], x)
        {
          if i > mid && Less(names[i], x) {
            LessTransitive(names[mid], names[i], x);
          }
        }
        hi := mid;
      }
    }
    r := lo;
    RankIs(names, x, r);
  }

  // Two increasing lists of the same names are the same list.
  lemma {:induction false} IncreasingUnique(a: seq<string>, b: seq<string>)
    requires Increasing(a) && Increasing(b) && forall x :: x in a <==> x in b
    ensures a == b
  {
    hide Less;
    assert b != [] ==> b[0] in b;
    if a != [] {
      assert a[0] in b;
      HeadsAgree(a, b);
      TailMembers(a);
      TailMembers(b);
      IncreasingUnique(a[1..], b[1..]);
    }
  }

  lemma HeadsAgree(a: seq<string>, b: seq<string>)
    requires Increasing(a) && Increasing(b) && a != [] && b != [] && forall x :: x in a <==> x in b
    ensures a[0] == b[0]
  {
    hide Less;
    assert a[0] in b && b[0] in a;
    var i :| 0 <= i < |b| && b[i] == a[0];
    var j :| 0 <= j < |a| && a[j] == b[0];
    if i > 0 && j > 0 {
      LessAsymmetric(b[0], b[i]);
    }
  }

  lemma TailMembers(a: seq<string>)
    requires Increasing(a) && a != []
    ensures Increasing(a[1..]) && forall x :: x in a[1..] <==> x in a && x != a[0]
  {
    hide Less;
    forall x
      ensures x in a[1..] <==> x in a && x != a[0]
    {
      LessIrreflexive(a[0]);
      if x in a[1..] {
        var i :| 0 <= i < |a[1..]| && a[1..][i] == x;
        assert a[i + 1] == x && Less(a[0], a[i + 1]);
      }
    }
  }

  // ---------------------------------------------------------------- normalising

  // What the loop of normalizeCachedEntityNames keeps of the items.
  ghost predicate IsName(items: seq<string>, x: string) {
    x != "" && exists i :: 0 <= i < |items| && TrimSpace(items[i]) == x
  }

  // sort.Strings on distinct names: insertion by rank stands for the library sort.
  method SortStrings(names: seq<string>) returns (sorted: seq<string>)
    requires forall i, j :: 0 <= i < j < |names| ==> names[i] != names[j]
    ensures Increasing(sorted) && forall x :: x in sorted <==> x in names
  {
    hide Less, Rank;
    sorted := [];
    var n := 0;
    while n < |names|
      invariant n <= |names|
      invariant Increasing(sorted) && forall x :: x in sorted <==> x in names[..n]
    {
      var x := names[n];
      assert x !in names[..n];
      var r := SearchStrings(sorted, x);
      InsertAt(sorted, x, r);
      assert names[..n + 1] == names[..n] + [x];
      sorted := sorted[..r] + [x] + sorted[r..];
      n := n + 1;
    }
    assert names[..n] == names;
  }

  lemma InsertAt(sorted: seq<string>, x: string, r: nat)
    requires Increasing(sorted) && x !in sorted && r == Rank(sorted, x)
    ensures var more := sorted[..r] + [x] + sorted[r..];
            Increasing(more) && forall y :: y in more <==> y in sorted || y == x
  {
    hide Less, Rank;
    RankSplits(sorted, x);
    var more := sorted[..r] + [x] + sorted[r..];
    forall i, j | 0 <= i < j < |more|
      ensures Less(more[i], more[j])
    {
      assert more[i] == if i < r then sorted[..r][i] else if i == r then x else sorted[i - 1];
      assert more[j] == if j < r then sorted[j] else if j == r then x else sorted[j - 1];
      if i == r {
        assert sorted[j - 1] in sorted;
        LessTotal(x, sorted[j - 1]);
      }
    }
    forall y
      ensures y in more <==> y in sorted || y == x
    {
      assert sorted == sorted[..r] + sorted[r..];
      assert x == more[r];
    }
  }

  // The increasing list of the names kept.
  ghost predicate IsNormalized(items: seq<string>, names: seq<string>) {
    Increasing(names) && forall x :: x in names <==> IsName(items, x)
  }

  // normalizeCachedEntityNames
  method NormalizeNames(items: seq<string>) returns (names: seq<string>)
    ensures IsNormalized(items, names)
  {
    hide Less, TrimSpace;
    var seen: set<string>, out: seq<string> := {}, [];
    var n := 0;
    while n < |items|
      invariant n <= |items|
      invariant forall x :: x in seen <==> IsName(items[..n], x)
      invariant forall x :: x in out <==> x in seen
      invariant forall i, j :: 0 <= i < j < |out| ==> out[i] != out[j]
    {
      var trimmed := TrimSpace(items[n]);
      NamesSnoc(items, n);
      n := n + 1;
      if trimmed == "" || trimmed in seen {
        continue;
      }
      seen := seen + {trimmed};
      out := out + [trimmed];
    }
    assert items[..n] == items;
    names := SortStrings(out);
  }

  lemma NamesSnoc(items: seq<string>, n: nat)
    requires n < |items|
    ensures forall x ::
              IsName(items[..n + 1], x) <==> IsName(items[..n], x) || (x != "" && x == TrimSpace(items[n]))
  {
    hide TrimSpace;
    forall x
      ensures IsName(items[..n + 1], x) <==> IsName(items[..n], x) || (x != "" && x == TrimSpace(items[n]))
    {
      if IsName(items[..n + 1], x) {
        var i :| 0 <= i < n + 1 && TrimSpace(items[..n + 1][i]) == x;
        assert i < n ==> items[..n][i] == items[i];
      }
      if IsName(items[..n], x) {
        var i :| 0 <= i < n && TrimSpace(items[..n][i]) == x;
        assert items[..n + 1][i] == items[i];
      }
      assert items[..n + 1][n] == items[n];
    }
  }

  // strings.ToLower on runes.
  type Lowering = string -> string

  predicate MatchesPattern(lower: Lowering, pattern: string, name: string) {
    var p := lower(TrimSpace(pattern));
    p == "" || Contains(lower(name), p)
  }

  // The increasing list of the names kept that match.
  ghost predicate IsFiltered(lower: Lowering, items: seq<string>, pattern: string, names: seq<string>) {
    && Increasing(names)
    && forall x :: x in names <==> IsName(items, x) && MatchesPattern(lower, pattern, x)
  }

  function Insert(names: seq<string>, x: string): seq<string> {
    names[..Rank(names, x)] + [x] + names[Rank(names, x)..]
  }

  // The one list of that kind.
  function Filtered(lower: Lowering, items: seq<string>, pattern: string): seq<string> {
    if items == [] then []
    else
      var rest, x := Filtered(lower, items[..|items| - 1], pattern), TrimSpace(items[|items| - 1]);
      if x == "" || !MatchesPattern(lower, pattern, x) || x in rest then rest else Insert(rest, x)
  }

  lemma {:induction false} FilteredIsFiltered(lower: Lowering, items: seq<string>, pattern: string)
    ensures IsFiltered(lower, items, pattern, Filtered(lower, items, pattern))
  {
    hide Less, Rank, TrimSpace, MatchesPattern, IsName;
    if items == [] {
      NoNames();
    } else {
      var n := |items| - 1;
      FilteredIsFiltered(lower, items[..n], pattern);
      NamesSnoc(items, n);
      assert items[..n + 1] == items;
      var rest, x := Filtered(lower, items[..n], pattern), TrimSpace(items[n]);
      if x !in rest {
        InsertAt(rest, x, Rank(rest, x));
      }
    }
  }

  lemma NoNames()
    ensures forall x :: !IsName([], x)
  {
  }

  lemma FilteredUnique(lower: Lowering, items: seq<string>, pattern: string, names: seq<string>)
    ensures IsFiltered(lower, items, pattern, names) <==> names == Filtered(lower, items, pattern)
  {
    hide Less, Filtered, MatchesPattern, IsName;
    FilteredIsFiltered(lower, items, pattern);
    if IsFiltered(lower, items, pattern, names) {
      IncreasingUnique(names, Filtered(lower, items, pattern));
    }
  }

  // filterCachedEntityNames
  method FilterNames(lower: Lowering, items: seq<string>, pattern: string) returns (names: seq<string>)
    ensures IsFiltered(lower, items, pattern, names) && names == Filtered(lower, items, pattern)
  {
    hide Less, IsName, TrimSpace, Contains, Filtered;
    var normalized := NormalizeNames(items);
    if lower(TrimSpace(pattern)) == "" {
      FilteredUnique(lower, items, pattern, normalized);
      return normalized;
    }
    names := [];
    var n := 0;
    while n < |normalized|
      invariant n <= |normalized|
      invariant Increasing(names)
      invariant forall x :: x in names <==> x in normalized[..n] && MatchesPattern(lower, pattern, x)
    {
      var item := normalized[n];
      assert normalized[..n + 1] == normalized[..n] + [item];
      if Contains(lower(item), lower(TrimSpace(pattern))) {
        SnocIncreasing(normalized, n, names, item);
        names := names + [item];
      }
      n := n + 1;
    }
    assert normalized[..n] == normalized;
    FilteredUnique(lower, items, pattern, names);
  }

  lemma SnocIncreasing(sorted: seq<string>, n: nat, names: seq<string>, item: string)
    requires Increasing(sorted) && n < |sorted| && sorted[n] == item
    requires Increasing(names) && forall x :: x in names ==> x in sorted[..n]
    ensures Increasing(names + [item])
  {
    hide Less;
    forall i | 0 <= i < |names|
      ensures Less(names[i], item)
    {
      assert names[i] in sorted[..n];
    }
  }

  // ---------------------------------------------------------------- the order

  // The names agree before position k, where the first one ends or has the smaller rune.
  predicate PartAt(a: string, b: string, k: nat) {
    k <= |a| && k < |b| && a[..k] == b[..k] && (k == |a| || a[k] < b[k])
  }

  // Less is the order of Go strings.
  lemma {:induction false} LessIff(a: string, b: string)
    ensures Less(a, b) <==> exists k: nat | k <= |a| :: PartAt(a, b, k)
  {
    if b == "" {
      assert !Less(a, b);
    } else if a == "" {
      assert PartAt(a, b, 0);
    } else {
      LessIff(a[1..], b[1..]);
      if a[0] < b[0] {
        assert PartAt(a, b, 0);
      } else if a[0] == b[0] {
        TailsPart(a, b);
      } else {
        forall k: nat | k <= |a|
          ensures !PartAt(a, b, k)
        {
          assert 0 < k < |b| ==> a[..k][0] == a[0] && b[..k][0] == b[0];
        }
      }
    }
  }

  lemma TailsPart(a: string, b: string)
    requires a != "" && b != "" && a[0] == b[0]
    ensures (exists k: nat | k <= |a| :: PartAt(a, b, k)) <==> exists k: nat | k <= |a| - 1 :: PartAt(a[1..], b[1..], k)
  {
    forall k: nat | k < |a|
      ensures PartAt(a, b, k + 1) <==> PartAt(a[1..], b[1..], k)
    {
      if k + 1 <= |b| {
        assert a[..k + 1] == [a[0]] + a[1..][..k] && b[..k + 1] == [b[0]] + b[1..][..k];
        assert a[1..][..k] == a[..k + 1][1..] && b[1..][..k] == b[..k + 1][1..];
      }
    }
    assert !PartAt(a, b, 0);
    if k: nat :| k <= |a| && PartAt(a, b, k) {
      assert PartAt(a[1..], b[1..], k - 1);
    }
    if k: nat :| k <= |a| - 1 && PartAt(a[1..], b[1..], k) {
      assert PartAt(a, b, k + 1);
    }
  }

  // A blank pattern matches every name, any other one the names that contain it.
  lemma MatchesIff(lower: Lowering, pattern: string, name: string)
    requires lower("") == ""
    ensures TrimSpace(pattern) == "" ==> MatchesPattern(lower, pattern, name)
    ensures lower(TrimSpace(pattern)) != "" ==>
              (MatchesPattern(lower, pattern, name) <==>
                 exists x, y :: lower(name) == x + lower(TrimSpace(pattern)) + y)
  {
    hide TrimSpace;
    ContainsIff(lower(name), lower(TrimSpace(pattern)));
  }

  lemma ContainsIff(s: string, w: string)
    ensures Contains(s, w) <==> exists x, y :: s == x + w + y
  {
    if i :| 0 <= i <= |s| && At(s, i, w) {
      assert s == s[..i] + w + s[i + |w|..];
    }
    if x, y :| s == x + w + y {
      assert s[|x|..|x| + |w|] == w;
      assert At(s, |x|, w);
    }
  }
}
