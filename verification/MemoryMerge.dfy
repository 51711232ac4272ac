// mergeMemoryPattern (internal/aichat/memory_store.go): a saved pattern replaces the
// first one that has its key, or one of the keys hinted at, or is added.
module MemoryMerge {
  import opened MemoryPattern

  // normalizePatternKey
  type KeyOf = string -> string

  function HintKeys(keyOf: KeyOf, hints: seq<string>): (keys: seq<string>)
    ensures "" !in keys
  {
    if hints == [] then []
    else
      var most, k := HintKeys(keyOf, hints[..|hints| - 1]), keyOf(hints[|hints| - 1]);
      if k == "" then most else most + [k]
  }

  function Keys(keyOf: KeyOf, next: Pattern, hints: seq<string>): seq<string> {
    [keyOf(next.problem)] + HintKeys(keyOf, hints)
  }

  // containsPatternKey
  predicate HasKey(keyOf: KeyOf, keys: seq<string>, p: Pattern) {
    keyOf(p.problem) != "" && keyOf(p.problem) in keys
  }

  function FirstWith(keyOf: KeyOf, keys: seq<string>, ps: seq<Pattern>): (i: nat)
    ensures i <= |ps|
    ensures i < |ps| ==> HasKey(keyOf, keys, ps[i])
    ensures forall j :: 0 <= j < i ==> !HasKey(keyOf, keys, ps[j])
  {
    if ps == [] || HasKey(keyOf, keys, ps[0]) then 0 else 1 + FirstWith(keyOf, keys, ps[1..])
  }

  lemma FirstWithIs(keyOf: KeyOf, keys: seq<string>, ps: seq<Pattern>, i: nat)
    requires i <= |ps| && forall j :: 0 <= j < i ==> !HasKey(keyOf, keys, ps[j])
    requires i < |ps| ==> HasKey(keyOf, keys, ps[i])
    ensures FirstWith(keyOf, keys, ps) == i
  {
    hide FirstWith, HasKey;
  }

  // The new pattern in the place of an old one: counted once more, at least as
  // confident, and keeping what it does not state itself.
  function Combined(known: Pattern, next: Pattern): (p: Pattern)
    ensures p.problem == next.problem
  {
    next.(
      id := known.id,
      useCount := if known.useCount + 1 < 1 then 1 else known.useCount + 1,
      confidence := if next.confidence < known.confidence then known.confidence else next.confidence,
      signals := if next.signals == [] then known.signals else next.signals,
      avoid := if next.avoid == [] then known.avoid else next.avoid,
      advice := if next.advice == [] then known.advice else next.advice,
      why := if next.why == "" then known.why else next.why)
  }

  function Merged(keyOf: KeyOf, existing: seq<Pattern>, next: Pattern, hints: seq<string>): (seq<Pattern>, Pattern) {
    var i := FirstWith(keyOf, Keys(keyOf, next, hints), existing);
    if i == |existing| then (existing + [next], next)
    else (existing[i := Combined(existing[i], next)], Combined(existing[i], next))
  }

  method MergeMemoryPattern(keyOf: KeyOf, existing: seq<Pattern>, next: Pattern, hints: seq<string>)
    returns (out: seq<Pattern>, merged: Pattern)
    ensures (out, merged) == Merged(keyOf, existing, next, hints)
  {
    hide FirstWith, HasKey;
    var keys := [keyOf(next.problem)];
    var h := 0;
    while h < |hints|
      invariant h <= |hints| && keys == Keys(keyOf, next, hints[..h])
    {
      assert hints[..h + 1][..h] == hints[..h];
      var normalized := keyOf(hints[h]);
      if normalized != "" {
        keys := keys + [normalized];
      }
      h := h + 1;
    }
    assert hints[..h] == hints;
    out := existing;
    var i := 0;
    while i < |out|
      invariant i <= |out| && out == existing
      invariant forall j :: 0 <= j < i ==> !HasKey(keyOf, keys, out[j])
    {
      if HasKey(keyOf, keys, out[i]) {
        FirstWithIs(keyOf, keys, existing, i);
        merged := next.(id := out[i].id, useCount := out[i].useCount + 1);
        if merged.useCount < 1 {
          merged := merged.(useCount := 1);
        }
        if merged.confidence < out[i].confidence {
          merged := merged.(confidence := out[i].confidence);
        }
        if |merged.signals| == 0 {
          merged := merged.(signals := out[i].signals);
        }
        if |merged.avoid| == 0 {
          merged := merged.(avoid := out[i].avoid);
        }
        if |merged.advice| == 0 {
          merged := merged.(advice := out[i].advice);
        }
        if merged.why == "" {
          merged := merged.(why := out[i].why);
        }
        out := out[i := merged];
        return;
      }
      i := i + 1;
    }
    FirstWithIs(keyOf, keys, existing, i);
    out := out + [next];
    merged := next;
  }

  // ---------------------------------------------------------------- one pattern a key

  predicate DistinctKeys(keyOf: KeyOf, ps: seq<Pattern>) {
    forall i, j :: 0 <= i < j < |ps| && keyOf(ps[i].problem) == keyOf(ps[j].problem) ==> keyOf(ps[i].problem) == ""
  }

  // A hint matched a pattern that comes before the one with the new pattern's own key.
  predicate HintOvertakes(keyOf: KeyOf, existing: seq<Pattern>, next: Pattern, hints: seq<string>) {
    var i := FirstWith(keyOf, Keys(keyOf, next, hints), existing);
    && keyOf(next.problem) != ""
    && exists j :: i < j < |existing| && keyOf(existing[j].problem) == keyOf(next.problem)
  }

  // Saving keeps at most one pattern a key, unless a hint overtakes the key: then two
  // patterns carry it.
  lemma DistinctKeysIff(keyOf: KeyOf, existing: seq<Pattern>, next: Pattern, hints: seq<string>)
    requires DistinctKeys(keyOf, existing)
    ensures DistinctKeys(keyOf, Merged(keyOf, existing, next, hints).0)
       <==> !HintOvertakes(keyOf, existing, next, hints)
  {
    hide FirstWith, Keys, Combined;
    var keys, key := Keys(keyOf, next, hints), keyOf(next.problem);
    var i, out := FirstWith(keyOf, keys, existing), Merged(keyOf, existing, next, hints).0;
    OwnKeyFirst(keyOf, next, hints);
    assert out[i].problem == next.problem;
    assert forall j :: 0 <= j < |existing| && j != i ==> out[j] == existing[j];
    forall j | 0 <= j < i
      ensures key == "" || keyOf(existing[j].problem) != key
    {
      assert !HasKey(keyOf, keys, existing[j]);
    }
    if HintOvertakes(keyOf, existing, next, hints) {
      var j :| i < j < |existing| && keyOf(existing[j].problem) == key;
      assert keyOf(out[i].problem) == keyOf(out[j].problem) != "";
    }
  }

  lemma OwnKeyFirst(keyOf: KeyOf, next: Pattern, hints: seq<string>)
    ensures keyOf(next.problem) in Keys(keyOf, next, hints)
  {
    assert Keys(keyOf, next, hints)[0] == keyOf(next.problem);
  }

  // Without hints no key is ever doubled.
  lemma NoHintsNoDoubles(keyOf: KeyOf, existing: seq<Pattern>, next: Pattern)
    requires DistinctKeys(keyOf, existing)
    ensures DistinctKeys(keyOf, Merged(keyOf, existing, next, []).0)
  {
    hide FirstWith, Combined;
    DistinctKeysIff(keyOf, existing, next, []);
  }

  // Saving the same pattern again adds none and counts it once more.
  lemma SavedAgain(keyOf: KeyOf, existing: seq<Pattern>, next: Pattern)
    requires keyOf(next.problem) != ""
    ensures var (once, first) := Merged(keyOf, existing, next, []);
            var (twice, second) := Merged(keyOf, once, next, []);
            && |twice| == |once| && second.id == first.id
            && second.useCount == if first.useCount + 1 < 1 then 1 else first.useCount + 1
  {
    hide FirstWith;
    var (once, first) := Merged(keyOf, existing, next, []);
    var i := FirstWith(keyOf, Keys(keyOf, next, []), existing);
    SameFirst(keyOf, Keys(keyOf, next, []), existing, once, i);
  }

  lemma SameFirst(keyOf: KeyOf, keys: seq<string>, before: seq<Pattern>, after: seq<Pattern>, i: nat)
    requires i == FirstWith(keyOf, keys, before) && i < |after| && HasKey(keyOf, keys, after[i])
    requires forall j :: 0 <= j < i ==> after[j] == before[j]
    ensures FirstWith(keyOf, keys, after) == i
  {
    hide FirstWith;
    forall j | 0 <= j < i
      ensures !HasKey(keyOf, keys, after[j])
    {
      assert after[j] == before[j];
    }
  }

  // ---------------------------------------------------------------- what is merged

  // The field of the saved pattern if it states one, else that of the known one.
  predicate Keeps<T(==)>(merged: seq<T>, next: seq<T>, known: seq<T>) {
    if next == [] then merged == known else merged == next
  }

  // A pattern saved over a known one keeps its id and what is not stated anew, is at
  // least as confident as either, is counted once more and is as fresh as the save.
  lemma MergedFields(keyOf: KeyOf, existing: seq<Pattern>, next: Pattern, hints: seq<string>)
    ensures var (out, merged) := Merged(keyOf, existing, next, hints);
            var i := FirstWith(keyOf, Keys(keyOf, next, hints), existing);
            && (i == |existing| ==> out == existing + [next] && merged == next)
            && (i < |existing| ==>
                  && |out| == |existing| && out[i] == merged
                  && (forall j :: 0 <= j < |out| && j != i ==> out[j] == existing[j])
                  && merged.id == existing[i].id && merged.problem == next.problem
                  && Keeps(merged.signals, next.signals, existing[i].signals)
                  && Keeps(merged.avoid, next.avoid, existing[i].avoid)
                  && Keeps(merged.advice, next.advice, existing[i].advice)
                  && Keeps(merged.why, next.why, existing[i].why)
                  && merged.confidence >= next.confidence && merged.confidence >= existing[i].confidence
                  && merged.confidence in {next.confidence, existing[i].confidence}
                  && merged.useCount >= 1
                  && (existing[i].useCount >= 0 ==> merged.useCount == existing[i].useCount + 1)
                  && merged.lastUsedAt == next.lastUsedAt && merged.archived == next.archived)
  {
    hide FirstWith, Keys;
  }

  // The pattern saved over is the first one whose key is that of the problem or of a
  // hint; a pattern without a key is never saved over.
  lemma FirstWithKey(keyOf: KeyOf, existing: seq<Pattern>, next: Pattern, hints: seq<string>, j: nat)
    requires j < |existing|
    ensures var key := keyOf(existing[j].problem);
            HasKey(keyOf, Keys(keyOf, next, hints), existing[j]) <==>
              key != "" && (key == keyOf(next.problem) || exists h :: 0 <= h < |hints| && keyOf(hints[h]) == key)
  {
    HintKeysAre(keyOf, hints, keyOf(existing[j].problem));
  }

  lemma {:induction false} HintKeysAre(keyOf: KeyOf, hints: seq<string>, key: string)
    ensures key in HintKeys(keyOf, hints) <==> key != "" && exists h :: 0 <= h < |hints| && keyOf(hints[h]) == key
  {
    if hints != [] {
      var n := |hints| - 1;
      HintKeysAre(keyOf, hints[..n], key);
      assert forall h :: 0 <= h < n ==> hints[..n][h] == hints[h];
    }
  }
}
