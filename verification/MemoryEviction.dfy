// compactKnownPatterns (internal/aichat/memory_store.go): the coldest memory
// patterns are archived while the document is over its token budget.
module MemoryEviction {
  import opened Text
  import opened MemoryPattern

  // approximateTokenCount of the composed document.
  type Cost = seq<Pattern> -> int

  function Id(p: Pattern): string {
    TrimSpace(p.id)
  }

  // p sorts strictly before q: used less often, or as often but longer ago.
  predicate Colder(p: Pattern, q: Pattern) {
    if p.useCount == q.useCount then p.lastUsedAt < q.lastUsedAt else p.useCount < q.useCount
  }

  predicate IsColdest(ps: seq<Pattern>, c: nat) {
    c < |ps| && forall i :: 0 <= i < |ps| ==> !Colder(ps[i], ps[c])
  }

  lemma {:induction false} SomeColdest(ps: seq<Pattern>) returns (c: nat)
    requires ps != []
    ensures IsColdest(ps, c)
  {
    if |ps| == 1 {
      c := 0;
    } else {
      var rest := ps[1..];
      c := SomeColdest(rest);
      assert forall i :: 0 < i < |ps| ==> ps[i] == rest[i - 1];
      c := if Colder(ps[0], rest[c]) then 0 else c + 1;
    }
  }

  predicate DistinctIds(ps: seq<Pattern>) {
    forall i, j :: 0 <= i < j < |ps| ==> Id(ps[i]) != Id(ps[j])
  }

  predicate NamedPatterns(ps: seq<Pattern>) {
    DistinctIds(ps) && forall i :: 0 <= i < |ps| ==> Id(ps[i]) != ""
  }

  // The patterns whose id is not in the set, in order.
  function Without(ps: seq<Pattern>, ids: set<string>): (r: seq<Pattern>)
    ensures forall p :: p in r <==> p in ps && Id(p) !in ids
  {
    hide Id;
    if ps == [] then []
    else (if Id(ps[0]) in ids then [] else [ps[0]]) + Without(ps[1..], ids)
  }

  function IdSet(ps: seq<Pattern>): (ids: set<string>)
    ensures forall id :: id in ids <==> exists p :: p in ps && Id(p) == id
  {
    set p | p in ps :: Id(p)
  }

  function Archive(p: Pattern): (q: Pattern)
    ensures Id(q) == Id(p)
  {
    p.(archived := true)
  }

  // What an outcome of the compaction satisfies, whichever of several equally
  // cold patterns the sort put first.
  ghost predicate IsCompaction(
    ps: seq<Pattern>, cost: Cost, budget: int, active: seq<Pattern>, archived: seq<Pattern>)
  {
    // the patterns kept are those not archived, in their order
    && active == Without(ps, IdSet(archived))
    // each archived pattern was one of them, archived once
    && DistinctIds(archived)
    && ComeFrom(ps, archived)
    // each eviction happened over budget, with more than one pattern left
    && OverfullBefore(ps, cost, budget, archived)
    // and none was hotter than any pattern kept
    && NoneHotter(archived, active)
  }

  ghost predicate ComeFrom(ps: seq<Pattern>, archived: seq<Pattern>) {
    forall i :: 0 <= i < |archived| ==> exists p :: p in ps && archived[i] == Archive(p)
  }

  predicate OverfullBefore(ps: seq<Pattern>, cost: Cost, budget: int, archived: seq<Pattern>) {
    forall k :: 0 <= k < |archived| ==> Overfull(ps, cost, budget, archived[..k])
  }

  predicate NoneHotter(archived: seq<Pattern>, active: seq<Pattern>) {
    forall i, j :: 0 <= i < |archived| && 0 <= j < |active| ==> !Colder(active[j], archived[i])
  }

  predicate Overfull(ps: seq<Pattern>, cost: Cost, budget: int, archived: seq<Pattern>) {
    var left := Without(ps, IdSet(archived));
    cost(left) > budget && |left| > 1
  }

  // compactKnownPatterns; it gives up at a coldest pattern without an id.
  method CompactPatterns(ps: seq<Pattern>, cost: Cost, budget: int)
    returns (active: seq<Pattern>, archived: seq<Pattern>)
    ensures |active| + |archived| == |ps|
    ensures || cost(active) <= budget
            || |active| <= 1
            || exists c | 0 <= c < |active| :: IsColdest(active, c) && Id(active[c]) == ""
    ensures NamedPatterns(ps) ==>
              IsCompaction(ps, cost, budget, active, archived) && (cost(active) <= budget || |active| <= 1)
  {
    hide Id, Colder, IsCompaction, IsColdest, Without, DistinctIds;
    NothingArchived(ps, cost, budget);
    if cost(ps) <= budget || |ps| <= 1 {
      return ps, [];
    }
    active, archived := ps, [];
    while cost(active) > budget && |active| > 1
      invariant |active| + |archived| == |ps|
      invariant NamedPatterns(ps) ==> IsCompaction(ps, cost, budget, active, archived) && NamedPatterns(active)
      decreases |active|
    {
      ghost var some := SomeColdest(active);
      ColdestInRange(active, some);
      var c :| 0 <= c < |active| && IsColdest(active, c);
      var archiveId := Id(active[c]);
      if archiveId == "" {
        break;
      }
      // the first pattern with that id
      var i := 0;
      while Id(active[i]) != archiveId
        invariant i <= c
        decreases c - i
      {
        i := i + 1;
      }
      var item := Archive(active[i]);
      if NamedPatterns(ps) {
        OnlyOne(active, i, c);
        Evicted(ps, cost, budget, active, archived, i);
      }
      archived := archived + [item];
      active := active[..i] + active[i + 1..];
    }
  }

  lemma OnlyOne(ps: seq<Pattern>, i: nat, c: nat)
    requires NamedPatterns(ps) && i < |ps| && c < |ps| && Id(ps[i]) == Id(ps[c])
    ensures i == c
  {
    hide Id;
  }

  lemma ColdestInRange(ps: seq<Pattern>, c: nat)
    requires IsColdest(ps, c)
    ensures c < |ps|
  {
  }

  lemma NothingArchived(ps: seq<Pattern>, cost: Cost, budget: int)
    ensures IsCompaction(ps, cost, budget, ps, [])
  {
    WithoutNone(ps);
  }

  lemma {:induction false} WithoutNone(ps: seq<Pattern>)
    ensures Without(ps, {}) == ps && IdSet([]) == {}
  {
    hide Id;
    if ps != [] {
      WithoutNone(ps[1..]);
    }
  }

  lemma {:induction false} WithoutOne(ps: seq<Pattern>, i: nat)
    requires i < |ps| && DistinctIds(ps)
    ensures Without(ps, {Id(ps[i])}) == ps[..i] + ps[i + 1..]
  {
    hide Id;
    var rest := ps[1..];
    if i == 0 {
      NoneRemoved(rest, Id(ps[0]));
    } else {
      DistinctRest(ps, i);
      WithoutOne(rest, i - 1);
      WithoutHead(ps, i);
    }
  }

  lemma DistinctRest(ps: seq<Pattern>, i: nat)
    requires 0 < i < |ps| && DistinctIds(ps)
    ensures ps[1..][i - 1] == ps[i] && Id(ps[0]) != Id(ps[i]) && DistinctIds(ps[1..])
  {
    hide Id;
  }

  lemma WithoutHead(ps: seq<Pattern>, i: nat)
    requires 0 < i < |ps|
    ensures var rest := ps[1..]; ps[..i] + ps[i + 1..] == [ps[0]] + (rest[..i - 1] + rest[i..])
  {
  }

  lemma {:induction false} NoneRemoved(ps: seq<Pattern>, id: string)
    requires forall i :: 0 <= i < |ps| ==> Id(ps[i]) != id
    ensures Without(ps, {id}) == ps
  {
    hide Id;
    if ps != [] {
      NoneRemoved(ps[1..], id);
    }
  }

  lemma {:induction false} WithoutTwice(ps: seq<Pattern>, a: set<string>, b: set<string>)
    ensures Without(Without(ps, a), b) == Without(ps, a + b)
  {
    hide Id;
    if ps != [] {
      WithoutTwice(ps[1..], a, b);
      if Id(ps[0]) !in a {
        assert ([ps[0]] + Without(ps[1..], a))[1..] == Without(ps[1..], a);
      } else {
        assert [] + Without(ps[1..], a) == Without(ps[1..], a);
      }
    }
  }

  // Archiving the coldest active pattern keeps all of it.
  lemma Evicted(
    ps: seq<Pattern>, cost: Cost, budget: int, active: seq<Pattern>, archived: seq<Pattern>, c: nat)
    requires IsCompaction(ps, cost, budget, active, archived) && NamedPatterns(active)
    requires c < |active| && IsColdest(active, c) && cost(active) > budget && |active| > 1
    ensures var rest := active[..c] + active[c + 1..];
            NamedPatterns(rest) && IsCompaction(ps, cost, budget, rest, archived + [Archive(active[c])])
  {
    hide *;
    Unpacked(ps, cost, budget, active, archived);
    RestFacts(active, c);
    var item := Archive(active[c]);
    var rest := active[..c] + active[c + 1..];
    NowWithout(ps, active, archived, c);
    NewId(ps, active, archived, c);
    StillComeFrom(ps, archived, active[c]);
    StillOverfull(ps, cost, budget, archived, item);
    StillColder(active, archived, c, rest);
    Packed(ps, cost, budget, rest, archived + [item]);
  }

  lemma Unpacked(ps: seq<Pattern>, cost: Cost, budget: int, active: seq<Pattern>, archived: seq<Pattern>)
    requires IsCompaction(ps, cost, budget, active, archived)
    ensures active == Without(ps, IdSet(archived)) && DistinctIds(archived) && ComeFrom(ps, archived)
    ensures OverfullBefore(ps, cost, budget, archived) && NoneHotter(archived, active)
    ensures forall p :: p in active ==> p in ps
    ensures cost(active) > budget && |active| > 1 ==> Overfull(ps, cost, budget, archived)
  {
    hide Without, DistinctIds, ComeFrom, OverfullBefore, NoneHotter, Id;
  }

  lemma Packed(ps: seq<Pattern>, cost: Cost, budget: int, active: seq<Pattern>, archived: seq<Pattern>)
    requires active == Without(ps, IdSet(archived)) && DistinctIds(archived) && ComeFrom(ps, archived)
    requires OverfullBefore(ps, cost, budget, archived) && NoneHotter(archived, active)
    ensures IsCompaction(ps, cost, budget, active, archived)
  {
    hide Without, DistinctIds, ComeFrom, OverfullBefore, NoneHotter;
  }

  lemma RestFacts(active: seq<Pattern>, c: nat)
    requires IsColdest(active, c) && NamedPatterns(active)
    ensures c < |active| && active[c] in active
    ensures var rest := active[..c] + active[c + 1..]; NamedPatterns(rest) && forall p :: p in rest ==> p in active
  {
    hide Id, Colder;
    var rest := active[..c] + active[c + 1..];
    assert forall j :: 0 <= j < |rest| ==> rest[j] == if j < c then active[j] else active[j + 1];
  }

  lemma NowWithout(ps: seq<Pattern>, active: seq<Pattern>, archived: seq<Pattern>, c: nat)
    requires c < |active| && active == Without(ps, IdSet(archived)) && NamedPatterns(active)
    ensures active[..c] + active[c + 1..] == Without(ps, IdSet(archived + [Archive(active[c])]))
  {
    hide Id, Without, IdSet, DistinctIds, Archive;
    WithoutOne(active, c);
    WithoutTwice(ps, IdSet(archived), {Id(active[c])});
    IdSetSnoc(archived, Archive(active[c]));
  }

  lemma StillComeFrom(ps: seq<Pattern>, archived: seq<Pattern>, p: Pattern)
    requires ComeFrom(ps, archived) && p in ps
    ensures ComeFrom(ps, archived + [Archive(p)])
  {
    hide Archive;
  }

  // At every eviction the document was over its budget.
  lemma StillOverfull(ps: seq<Pattern>, cost: Cost, budget: int, archived: seq<Pattern>, item: Pattern)
    requires OverfullBefore(ps, cost, budget, archived) && Overfull(ps, cost, budget, archived)
    ensures OverfullBefore(ps, cost, budget, archived + [item])
  {
    hide Overfull;
    var more := archived + [item];
    forall k | 0 <= k < |more|
      ensures Overfull(ps, cost, budget, more[..k])
    {
      assert more[..k] == archived[..k];
      assert archived[..|archived|] == archived;
    }
  }

  lemma StillColder(active: seq<Pattern>, archived: seq<Pattern>, c: nat, rest: seq<Pattern>)
    requires IsColdest(active, c) && (forall p :: p in rest ==> p in active)
    requires NoneHotter(archived, active)
    ensures NoneHotter(archived + [Archive(active[c])], rest)
  {
    hide Colder, Id;
    var more := archived + [Archive(active[c])];
    forall i, j | 0 <= i < |more| && 0 <= j < |rest|
      ensures !Colder(rest[j], more[i])
    {
      assert rest[j] in active;
      ArchiveAsCold(rest[j], active[c]);
    }
  }

  lemma ArchiveAsCold(p: Pattern, q: Pattern)
    ensures Colder(p, Archive(q)) <==> Colder(p, q)
  {
  }

  lemma IdSetSnoc(archived: seq<Pattern>, item: Pattern)
    ensures IdSet(archived + [item]) == IdSet(archived) + {Id(item)}
  {
    hide Id;
  }

  lemma NewId(ps: seq<Pattern>, active: seq<Pattern>, archived: seq<Pattern>, c: nat)
    requires c < |active| && active == Without(ps, IdSet(archived)) && DistinctIds(archived)
    ensures DistinctIds(archived + [Archive(active[c])])
  {
    hide Id, Without;
    assert active[c] in active;
    forall i | 0 <= i < |archived|
      ensures Id(archived[i]) != Id(active[c])
    {
      assert archived[i] in archived;
    }
  }

  // Kept and archived patterns together are the input: every input pattern is
  // either kept or archived, never both.
  lemma EachPatternOnce(
    ps: seq<Pattern>, cost: Cost, budget: int, active: seq<Pattern>, archived: seq<Pattern>, p: Pattern)
    requires NamedPatterns(ps) && IsCompaction(ps, cost, budget, active, archived) && p in ps
    ensures p in active <==> Archive(p) !in archived
  {
    hide Id;
    assert Archive(p) in archived ==> Id(Archive(p)) in IdSet(archived);
    if p !in active {
      var q :| q in archived && Id(q) == Id(p);
      var i :| 0 <= i < |archived| && archived[i] == q;
      var r :| r in ps && q == Archive(r);
      SameIdSame(ps, p, r);
    }
  }

  lemma SameIdSame(ps: seq<Pattern>, p: Pattern, q: Pattern)
    requires DistinctIds(ps) && p in ps && q in ps && Id(p) == Id(q)
    ensures p == q
  {
    hide Id;
    var i :| 0 <= i < |ps| && ps[i] == p;
    var j :| 0 <= j < |ps| && ps[j] == q;
  }

  // ---------------------------------------------------------------- who is archived

  // No archived pattern was used more often than one that is kept, nor as often and
  // more recently; each is a pattern of the memory, marked as archived.
  lemma ArchivedAreColdest(
    ps: seq<Pattern>, cost: Cost, budget: int, active: seq<Pattern>, archived: seq<Pattern>, i: nat, j: nat)
    requires IsCompaction(ps, cost, budget, active, archived) && i < |archived| && j < |active|
    ensures archived[i].useCount <= active[j].useCount
    ensures archived[i].useCount == active[j].useCount ==> archived[i].lastUsedAt <= active[j].lastUsedAt
    ensures archived[i].archived && exists p :: p in ps && archived[i] == p.(archived := true)
  {
    hide Without, Id, OverfullBefore;
    assert !Colder(active[j], archived[i]);
    var p :| p in ps && archived[i] == Archive(p);
    assert archived[i] == p.(archived := true);
  }

  // Each eviction happened while what was left was over its budget and more than one
  // pattern.
  lemma EvictedOverBudget(
    ps: seq<Pattern>, cost: Cost, budget: int, active: seq<Pattern>, archived: seq<Pattern>, k: nat)
    requires IsCompaction(ps, cost, budget, active, archived) && k < |archived|
    ensures var left := Without(ps, IdSet(archived[..k])); cost(left) > budget && |left| >= 2
  {
    hide Without, Id, IdSet, NoneHotter, ComeFrom;
    assert Overfull(ps, cost, budget, archived[..k]);
  }
}
