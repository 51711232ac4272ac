// The wrangler.toml upsert of app_datasource.go: one [[d1_databases]] block is
// rewritten, found by database id or binding, or one is appended.
module Wrangler {
  import opened Text
  import opened TomlText
  import opened Wrappers

  datatype Entry = Entry(binding: string, databaseName: string, databaseId: string, migrationsDir: string)

  const HEADER := "[[d1_databases]]"
  const DATABASE_ID := "database_id"
  const BINDING := "binding"

  // ---------------------------------------------------------------- finding a key in a block

  // The regular expression class \s.
  predicate IsReSpace(c: char) {
    c == ' ' || c == '\t' || c == '\n' || c == '\r' || c == '\U{c}'
  }

  // Past \s*, and past the part of it on the current line.
  function SkipRe(b: string, i: nat): (p: nat)
    requires i <= |b|
    ensures i <= p <= |b|
    ensures p < |b| ==> !IsReSpace(b[p])
    ensures i < |b| && !IsReSpace(b[i]) ==> p == i
    decreases |b| - i
  {
    if i < |b| && IsReSpace(b[i]) then SkipRe(b, i + 1) else i
  }

  function SkipOnLine(b: string, i: nat): (p: nat)
    requires i <= |b|
    ensures i <= p <= |b|
    decreases |b| - i
  {
    if i < |b| && IsReSpace(b[i]) && b[i] != '\n' then SkipOnLine(b, i + 1) else i
  }

  predicate AtLineStart(b: string, i: nat) {
    i == 0 || (i <= |b| && b[i - 1] == '\n')
  }

  // \s*$ from i on.
  predicate EndsLine(b: string, i: nat) {
    i <= |b| && var q := SkipOnLine(b, i); q == |b| || b[q] == '\n'
  }

  // ^\s*key\s*=\s*literal\s*$ from i on, and its tails; neither key nor literal
  // starts with a space.
  predicate MatchesFrom(b: string, i: nat, key: string, literal: string) {
    i <= |b| && AtLineStart(b, i) && KeyFrom(b, SkipRe(b, i), key, literal)
  }

  predicate KeyFrom(b: string, p: nat, key: string, literal: string) {
    At(b, p, key) && EqualsFrom(b, SkipRe(b, p + |key|), literal)
  }

  predicate EqualsFrom(b: string, q: nat, literal: string) {
    At(b, q, "=") && LiteralFrom(b, SkipRe(b, q + 1), literal)
  }

  predicate LiteralFrom(b: string, r: nat, literal: string) {
    At(b, r, literal) && EndsLine(b, r + |literal|)
  }

  // d1WranglerBlockHasTomlString
  predicate BlockHas(b: string, key: string, value: string) {
    var trimmed := TrimSpace(value);
    trimmed != "" && exists i | 0 <= i <= |b| :: MatchesFrom(b, i, key, TomlString(trimmed))
  }

  // ---------------------------------------------------------------- blocks

  predicate IsHeader(line: string) {
    TrimSpace(line) == HEADER
  }

  predicate OpensSection(line: string) {
    var t := TrimSpace(line);
    t != "" && t[0] == '['
  }

  // Where the block body that starts at j ends.
  function BlockEnd(lines: seq<string>, j: nat): (e: nat)
    requires j <= |lines|
    ensures j <= e <= |lines|
    ensures e < |lines| ==> OpensSection(lines[e])
    ensures forall k :: j <= k < e ==> !OpensSection(lines[k])
    decreases |lines| - j
  {
    if j < |lines| && !OpensSection(lines[j]) then BlockEnd(lines, j + 1) else j
  }

  function BlockText(lines: seq<string>, i: nat): string
    requires i < |lines|
  {
    Join(lines[i..BlockEnd(lines, i + 1)])
  }

  predicate IsMatch(lines: seq<string>, i: nat, key: string, value: string)
    requires i < |lines|
  {
    IsHeader(lines[i]) && BlockHas(BlockText(lines, i), key, value)
  }

  // The first matching block at or after i.
  function FirstMatch(lines: seq<string>, i: nat, key: string, value: string): (m: nat)
    requires i <= |lines|
    ensures i <= m <= |lines|
    decreases |lines| - i
  {
    if i < |lines| && !IsMatch(lines, i, key, value) then FirstMatch(lines, i + 1, key, value) else i
  }

  lemma {:induction false} FirstMatchFacts(lines: seq<string>, i: nat, key: string, value: string)
    requires i <= |lines|
    ensures var m := FirstMatch(lines, i, key, value);
            && (m < |lines| ==> IsMatch(lines, m, key, value))
            && forall k :: i <= k < m ==> !IsMatch(lines, k, key, value)
    decreases |lines| - i
  {
    hide IsMatch;
    if i < |lines| && !IsMatch(lines, i, key, value) {
      FirstMatchFacts(lines, i + 1, key, value);
    }
  }

  // d1WranglerToml
  function EntryLines(entry: Entry): seq<string> {
    [
      HEADER,
      "binding = " + TomlString(entry.binding),
      "database_name = " + TomlString(entry.databaseName),
      "database_id = " + TomlString(entry.databaseId)
    ] + if TrimSpace(entry.migrationsDir) != "" then ["migrations_dir = " + TomlString(entry.migrationsDir)] else []
  }

  function Toml(entry: Entry): string {
    Join(EntryLines(entry) + [""])
  }

  function Replacement(entry: Entry): seq<string> {
    Split(TrimNewlines(Toml(entry)))
  }

  // The lines with the block at i replaced.
  function Rewritten(lines: seq<string>, i: nat, entry: Entry): seq<string>
    requires i < |lines|
  {
    lines[..i] + Replacement(entry) + lines[BlockEnd(lines, i + 1)..]
  }

  function ReplacedByKey(content: string, entry: Entry, key: string, value: string): Option<string> {
    var lines := Split(content);
    var i := FirstMatch(lines, 0, key, value);
    if i == |lines| then None else Some(TrimNewlines(Join(Rewritten(lines, i, entry))) + "\n")
  }

  lemma HeaderOpensSection(line: string)
    requires IsHeader(line)
    ensures OpensSection(line)
  {
  }

  // What the scan learns at line i about the first match m.
  lemma ScanFacts(lines: seq<string>, i: nat, key: string, value: string)
    requires i < |lines|
    ensures var m := FirstMatch(lines, 0, key, value);
            i <= m ==>
              if !IsHeader(lines[i]) then i < m
              else if BlockHas(BlockText(lines, i), key, value) then i == m
              else BlockEnd(lines, i + 1) <= m
  {
    hide IsHeader, OpensSection, BlockHas, BlockText;
    var m := FirstMatch(lines, 0, key, value);
    FirstMatchFacts(lines, 0, key, value);
    assert i < m ==> !IsMatch(lines, i, key, value);
    if i < m < |lines| {
      HeaderOpensSection(lines[m]);
    }
  }

  lemma BlockFacts(lines: seq<string>, j: nat)
    requires j < |lines|
    ensures BlockEnd(lines, j) == if OpensSection(lines[j]) then j else BlockEnd(lines, j + 1)
    ensures BlockEnd(lines, |lines|) == |lines|
  {
  }

  lemma Extend(head: seq<string>, lines: seq<string>, k: nat, i: nat, j: nat)
    requires k <= i <= j <= |lines|
    ensures (head + lines[k..i]) + lines[i..j] == head + lines[k..j]
  {
    assert lines[k..j] == lines[k..i] + lines[i..j];
  }

  // What the scan has copied before line i.
  ghost function Copied(lines: seq<string>, m: nat, i: nat, entry: Entry): seq<string>
    requires i <= |lines| && (m < i ==> BlockEnd(lines, m + 1) <= i)
  {
    if i <= m then [] + lines[0..i]
    else lines[..m] + Replacement(entry) + lines[BlockEnd(lines, m + 1)..i]
  }

  lemma CopiedMore(lines: seq<string>, m: nat, i: nat, j: nat, entry: Entry)
    requires i <= j <= |lines| && (m < i ==> BlockEnd(lines, m + 1) <= i) && (i <= m ==> j <= m)
    ensures Copied(lines, m, j, entry) == Copied(lines, m, i, entry) + lines[i..j]
  {
    hide BlockEnd, Replacement;
    if i <= m {
      Extend([], lines, 0, i, j);
    } else {
      Extend(lines[..m] + Replacement(entry), lines, BlockEnd(lines, m + 1), i, j);
    }
  }

  lemma CopiedEdges(lines: seq<string>, m: nat, entry: Entry)
    requires m <= |lines|
    ensures Copied(lines, m, 0, entry) == []
    ensures Copied(lines, m, m, entry) == lines[..m]
    ensures m < |lines| ==>
              && Copied(lines, m, BlockEnd(lines, m + 1), entry) == lines[..m] + Replacement(entry)
              && Copied(lines, m, |lines|, entry) == Rewritten(lines, m, entry)
  {
    hide *;
    CopiedHead(lines, m, 0, entry);
    CopiedHead(lines, m, m, entry);
    if m < |lines| {
      CopiedTail(lines, m, BlockEnd(lines, m + 1), entry);
      CopiedTail(lines, m, |lines|, entry);
      CutNothing(lines, lines[..m] + Replacement(entry), BlockEnd(lines, m + 1));
      RewrittenIsCut(lines, m, entry);
    }
  }

  lemma CopiedHead(lines: seq<string>, m: nat, i: nat, entry: Entry)
    requires i <= m && i <= |lines|
    ensures Copied(lines, m, i, entry) == lines[..i]
  {
    hide BlockEnd, Replacement;
  }

  lemma CopiedTail(lines: seq<string>, m: nat, i: nat, entry: Entry)
    requires m < i <= |lines| && BlockEnd(lines, m + 1) <= i
    ensures Copied(lines, m, i, entry) == (lines[..m] + Replacement(entry)) + lines[BlockEnd(lines, m + 1)..i]
  {
    hide BlockEnd, Replacement;
  }

  lemma CutNothing(lines: seq<string>, head: seq<string>, j: nat)
    requires j <= |lines|
    ensures head + lines[j..j] == head && lines[j..|lines|] == lines[j..]
  {
  }

  lemma RewrittenIsCut(lines: seq<string>, m: nat, entry: Entry)
    requires m < |lines|
    ensures Rewritten(lines, m, entry) == (lines[..m] + Replacement(entry)) + lines[BlockEnd(lines, m + 1)..]
  {
    hide BlockEnd, Replacement;
  }

  // d1WranglerReplaceDatabaseEntry, for one key and value.
  method ReplaceDatabaseEntry(content: string, entry: Entry, key: string, value: string)
    returns (r: Option<string>)
    ensures r == ReplacedByKey(content, entry, key, value)
  {
    hide *;
    var lines := Split(content);
    var out, replaced, i := [], false, 0;
    ghost var m := FirstMatch(lines, 0, key, value);
    CopiedEdges(lines, m, entry);
    while i < |lines|
      invariant i <= |lines|
      invariant replaced <==> m < i
      invariant m < i ==> BlockEnd(lines, m + 1) <= i
      invariant out == Copied(lines, m, i, entry)
    {
      ScanFacts(lines, i, key, value);
      if !IsHeader(lines[i]) {
        CopiedMore(lines, m, i, i + 1, entry);
        out := out + lines[i..i + 1];
        i := i + 1;
        continue;
      }
      var j := i + 1;
      while j < |lines| && !OpensSection(lines[j])
        invariant i < j <= |lines|
        invariant BlockEnd(lines, j) == BlockEnd(lines, i + 1)
      {
        BlockFacts(lines, j);
        j := j + 1;
      }
      BlockStops(lines, i, j);
      var block := Join(lines[i..j]);
      if !replaced && BlockHas(block, key, value) {
        out := out + Replacement(entry);
        replaced := true;
      } else {
        CopiedMore(lines, m, i, j, entry);
        out := out + lines[i..j];
      }
      i := j;
    }
    ReplacedFacts(content, entry, key, value);
    if !replaced {
      return None;
    }
    return Some(TrimNewlines(Join(out)) + "\n");
  }

  lemma BlockStops(lines: seq<string>, i: nat, j: nat)
    requires i < j <= |lines| && BlockEnd(lines, j) == BlockEnd(lines, i + 1)
    requires j < |lines| ==> OpensSection(lines[j])
    ensures j == BlockEnd(lines, i + 1) && Join(lines[i..j]) == BlockText(lines, i)
  {
    hide OpensSection, Join;
    BlockFacts(lines, if j < |lines| then j else i);
  }

  lemma ReplacedFacts(content: string, entry: Entry, key: string, value: string)
    ensures var lines := Split(content);
            var m := FirstMatch(lines, 0, key, value);
            ReplacedByKey(content, entry, key, value) ==
            if m == |lines| then None else Some(TrimNewlines(Join(Rewritten(lines, m, entry))) + "\n")
  {
  }

  // ---------------------------------------------------------------- the upsert

  // d1WranglerAppendDatabaseEntry
  function Appended(content: string, entry: Entry): string {
    var trimmed := TrimNewlines(content);
    if TrimSpace(trimmed) == "" then Toml(entry)
    else trimmed + ("\n\n" + (TrimNewlines(Toml(entry)) + "\n"))
  }

  datatype Attempt = Attempt(key: string, value: string)

  function Attempts(entry: Entry, previousId: string, previousBinding: string): seq<Attempt> {
    [
      Attempt(DATABASE_ID, entry.databaseId),
      Attempt(DATABASE_ID, previousId),
      Attempt(BINDING, entry.binding),
      Attempt(BINDING, previousBinding)
    ]
  }

  function AttemptResult(content: string, entry: Entry, attempt: Attempt): Option<string> {
    if TrimSpace(attempt.value) == "" then None
    else ReplacedByKey(content, entry, attempt.key, TrimSpace(attempt.value))
  }

  // The first attempt that finds a block decides; without one the entry is appended.
  function FirstResult(content: string, entry: Entry, attempts: seq<Attempt>): string {
    if attempts == [] then Appended(content, entry)
    else match AttemptResult(content, entry, attempts[0])
      case Some(next) => next
      case None => FirstResult(content, entry, attempts[1..])
  }

  function Upserted(content: string, entry: Entry, previousId: string, previousBinding: string): string {
    FirstResult(content, entry, Attempts(entry, previousId, previousBinding))
  }

  function Signature(a: Attempt): string {
    a.key + (":" + TrimSpace(a.value))
  }

  lemma SignatureInjective(a: Attempt, b: Attempt)
    requires a.key == DATABASE_ID || a.key == BINDING
    requires b.key == DATABASE_ID || b.key == BINDING
    requires Signature(a) == Signature(b)
    ensures a.key == b.key && TrimSpace(a.value) == TrimSpace(b.value)
  {
    hide TrimSpace;
    var s, t := Signature(a), Signature(b);
    assert s[0] == a.key[0] && t[0] == b.key[0];
    assert s[|a.key| + 1..] == TrimSpace(a.value);
    assert t[|b.key| + 1..] == TrimSpace(b.value);
  }

  lemma AttemptDependsOnTrimmed(content: string, entry: Entry, a: Attempt, b: Attempt)
    requires a.key == b.key && TrimSpace(a.value) == TrimSpace(b.value)
    ensures AttemptResult(content, entry, a) == AttemptResult(content, entry, b)
  {
    hide TrimSpace, ReplacedByKey;
  }

  // d1WranglerUpsertDatabaseEntryWithFallback
  method Upsert(content: string, entry: Entry, previousId: string, previousBinding: string)
    returns (next: string, changed: bool)
    ensures next == Upserted(content, entry, previousId, previousBinding)
    ensures changed <==> next != content
  {
    hide ReplacedByKey, TrimSpace, Signature, AttemptResult, Appended;
    var attempts := Attempts(entry, previousId, previousBinding);
    var seen: set<string> := {};
    var n := 0;
    while n < |attempts|
      invariant n <= |attempts|
      invariant FirstResult(content, entry, attempts[n..])
             == Upserted(content, entry, previousId, previousBinding)
      invariant forall s :: s in seen ==> exists k :: 0 <= k < n && Signature(attempts[k]) == s
      invariant forall k :: 0 <= k < n ==> AttemptResult(content, entry, attempts[k]) == None
    {
      var attempt := attempts[n];
      assert attempts[n..][1..] == attempts[n + 1..];
      AttemptFacts(content, entry, attempt);
      n := n + 1;
      var trimmedValue := TrimSpace(attempt.value);
      if trimmedValue == "" {
        continue;
      }
      var signature := attempt.key + (":" + trimmedValue);
      if signature in seen {
        var k :| 0 <= k < n - 1 && Signature(attempts[k]) == signature;
        SignatureInjective(attempts[k], attempt);
        AttemptDependsOnTrimmed(content, entry, attempts[k], attempt);
        continue;
      }
      seen := seen + {signature};
      var replaced := ReplaceDatabaseEntry(content, entry, attempt.key, trimmedValue);
      if replaced.Some? {
        return replaced.value, replaced.value != content;
      }
    }
    next := Appended(content, entry);
    changed := next != content;
  }

  lemma AttemptFacts(content: string, entry: Entry, a: Attempt)
    ensures AttemptResult(content, entry, a) ==
            if TrimSpace(a.value) == "" then None
            else ReplacedByKey(content, entry, a.key, TrimSpace(a.value))
    ensures Signature(a) == a.key + (":" + TrimSpace(a.value))
  {
    hide ReplacedByKey, TrimSpace;
  }
}

