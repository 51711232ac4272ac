// Which block of wrangler.toml an upsert rewrites, and which lines name it
// (app_datasource.go).
module WranglerLookups {
  import opened Text
  import opened TomlText
  import opened Wrangler
  import opened WranglerUpsert
  import opened Wrappers

  // ---------------------------------------------------------------- the four lookups

  // Some block of the file assigns the value to the key.
  predicate Names(content: string, key: string, value: string) {
    var lines := Split(content);
    TrimSpace(value) != "" && exists i :: 0 <= i < |lines| && IsMatch(lines, i, key, TrimSpace(value))
  }

  // The file with the first such block rewritten.
  function WithFirst(content: string, entry: Entry, key: string, value: string): string {
    var lines := Split(content);
    var i := FirstMatch(lines, 0, key, TrimSpace(value));
    if i == |lines| then content else TrimNewlines(Join(Rewritten(lines, i, entry))) + "\n"
  }

  lemma AttemptIs(content: string, entry: Entry, key: string, value: string)
    ensures AttemptResult(content, entry, Attempt(key, value)) ==
            if Names(content, key, value) then Some(WithFirst(content, entry, key, value)) else None
  {
    hide TrimSpace, Split, Join, TrimNewlines, IsMatch, Rewritten, FirstMatch;
    var lines := Split(content);
    FirstMatchFacts(lines, 0, key, TrimSpace(value));
  }

  // The block is looked for by the database id, the previous id, the binding and the
  // previous binding, in this order; an entry that no block names is appended.
  lemma UpsertLooksUp(content: string, entry: Entry, previousId: string, previousBinding: string)
    ensures Upserted(content, entry, previousId, previousBinding) ==
            if Names(content, "database_id", entry.databaseId)
            then WithFirst(content, entry, "database_id", entry.databaseId)
            else if Names(content, "database_id", previousId)
            then WithFirst(content, entry, "database_id", previousId)
            else if Names(content, "binding", entry.binding)
            then WithFirst(content, entry, "binding", entry.binding)
            else if Names(content, "binding", previousBinding)
            then WithFirst(content, entry, "binding", previousBinding)
            else Appended(content, entry)
  {
    hide AttemptResult, Names, WithFirst, Appended, FirstResult;
    var all := Attempts(entry, previousId, previousBinding);
    AttemptIs(content, entry, "database_id", entry.databaseId);
    AttemptIs(content, entry, "database_id", previousId);
    AttemptIs(content, entry, "binding", entry.binding);
    AttemptIs(content, entry, "binding", previousBinding);
    assert all[1..][1..] == all[2..] && all[2..][1..] == all[3..] && all[3..][1..] == [];
    OneAttempt(content, entry, all);
    OneAttempt(content, entry, all[1..]);
    OneAttempt(content, entry, all[2..]);
    OneAttempt(content, entry, all[3..]);
    OneAttempt(content, entry, []);
  }

  lemma OneAttempt(content: string, entry: Entry, attempts: seq<Attempt>)
    ensures FirstResult(content, entry, attempts) ==
            if attempts == [] then Appended(content, entry)
            else if AttemptResult(content, entry, attempts[0]).Some?
            then AttemptResult(content, entry, attempts[0]).value
            else FirstResult(content, entry, attempts[1..])
  {
    hide AttemptResult, Appended;
  }

  // ---------------------------------------------------------------- lines that name a block

  predicate OnlySpaces(s: string) {
    forall i :: 0 <= i < |s| ==> s[i] in {' ', '\t', '\r', '\U{c}'}
  }

  lemma {:induction false} SkipSpaces(b: string, i: nat, e: nat)
    requires i <= e <= |b| && (forall k :: i <= k < e ==> IsReSpace(b[k])) && (e < |b| ==> !IsReSpace(b[e]))
    ensures SkipRe(b, i) == e
    decreases e - i
  {
    hide IsReSpace;
    if i < e {
      SkipSpaces(b, i + 1, e);
    }
  }

  lemma {:induction false} SkipToLineEnd(b: string, i: nat, e: nat)
    requires i <= e <= |b| && (forall k :: i <= k < e ==> IsReSpace(b[k]) && b[k] != '\n') && (e < |b| ==> b[e] == '\n')
    ensures SkipOnLine(b, i) == e
    decreases e - i
  {
    hide IsReSpace;
    if i < e {
      SkipToLineEnd(b, i + 1, e);
    }
  }

  lemma SpacesAre()
    ensures forall c :: c in {' ', '\t', '\r', '\U{c}'} ==> IsReSpace(c) && c != '\n'
    ensures !IsReSpace('=') && !IsReSpace('"') && !IsReSpace('b') && !IsReSpace('d')
  {
  }

  // Spaces at p, and what follows them.
  lemma AfterSpaces(b: string, p: nat, spaces: string, rest: string)
    requires At(b, p, spaces + rest) && OnlySpaces(spaces) && rest != "" && !IsReSpace(rest[0])
    ensures var q := p + |spaces|; q <= |b| && SkipRe(b, p) == q && At(b, q, rest)
  {
    hide IsReSpace, SkipRe;
    AtConcat(b, p, spaces, rest);
    Characters(b, p, spaces);
    Characters(b, p + |spaces|, rest);
    SpacesAre();
    SkipSpaces(b, p, p + |spaces|);
  }

  lemma Characters(b: string, p: nat, w: string)
    requires At(b, p, w)
    ensures p + |w| <= |b| && forall k :: p <= k < p + |w| ==> b[k] == w[k - p]
  {
    forall k | p <= k < p + |w|
      ensures b[k] == w[k - p]
    {
      assert b[p..p + |w|][k - p] == b[k];
    }
  }

  // An assignment, however it is spaced and indented.
  function Spaced(indent: string, key: string, before: string, after: string, literal: string, end: string): string {
    indent + (key + (before + ("=" + (after + (literal + end)))))
  }

  // A block is named by any of its lines that assigns the TOML string of the value,
  // with any spaces around its parts.
  lemma SpacedLineNames(
    lines: seq<string>, x: nat, indent: string, key: string, before: string, after: string, value: string, end: string)
    requires x < |lines| && IsKey(key) && Trimmed(value) && value != ""
    requires OnlySpaces(indent) && OnlySpaces(before) && OnlySpaces(after) && OnlySpaces(end)
    requires lines[x] == Spaced(indent, key, before, after, TomlString(value), end)
    ensures BlockHas(Join(lines), key, value)
  {
    hide *;
    var b, lit := Join(lines), TomlString(value);
    TrimmedFacts(value);
    var s := LineInPlace(lines, x);
    TomlStringStarts(value);
    SpacesAre();
    var p := s + |indent|;
    var tail := before + ("=" + (after + (lit + end)));
    SpacedIs(indent, key, tail, before, after, lit, end);
    KeyStarts(key, tail);
    AfterSpaces(b, s, indent, key + tail);
    AtConcat(b, p, key, tail);
    SpacedLength(indent, key, before, after, lit, end);
    SpacedEquals(b, p + |key|, before, after, lit, end);
    MatchIntro(b, s, p, key, lit, value);
  }

  lemma SpacedIs(
    indent: string, key: string, tail: string, before: string, after: string, literal: string, end: string)
    requires tail == before + ("=" + (after + (literal + end)))
    ensures Spaced(indent, key, before, after, literal, end) == indent + (key + tail)
  {
  }

  lemma SpacedLength(indent: string, key: string, before: string, after: string, literal: string, end: string)
    ensures |Spaced(indent, key, before, after, literal, end)|
         == |indent| + |key| + |before| + 1 + |after| + |literal| + |end|
  {
  }

  lemma KeyStarts(key: string, rest: string)
    requires IsKey(key)
    ensures key + rest != "" && !IsReSpace((key + rest)[0])
  {
  }

  lemma MatchIntro(b: string, s: nat, p: nat, key: string, lit: string, value: string)
    requires s <= |b| && AtLineStart(b, s) && SkipRe(b, s) == p && At(b, p, key) && lit == TomlString(TrimSpace(value))
    requires p + |key| <= |b| && EqualsFrom(b, SkipRe(b, p + |key|), lit) && TrimSpace(value) != ""
    ensures BlockHas(b, key, value)
  {
    hide TrimSpace, TomlString, AtLineStart, EqualsFrom, SkipRe, At;
    assert MatchesFrom(b, s, key, TomlString(TrimSpace(value)));
  }

  lemma SpacedEquals(b: string, p: nat, before: string, after: string, lit: string, end: string)
    requires At(b, p, before + ("=" + (after + (lit + end)))) && lit != "" && lit[0] == '"'
    requires OnlySpaces(before) && OnlySpaces(after) && OnlySpaces(end)
    requires var e := p + |before| + 1 + |after| + |lit| + |end|; e == |b| || (e < |b| && b[e] == '\n')
    ensures p <= |b| && EqualsFrom(b, SkipRe(b, p), lit)
  {
    hide *;
    SpacesAre();
    var q := p + |before|;
    var r := q + 1 + |after|;
    var rest := after + (lit + end);
    Starts("=", rest);
    Starts(lit, end);
    AfterSpaces(b, p, before, "=" + rest);
    AtConcat(b, q, "=", rest);
    AfterSpaces(b, q + 1, after, lit + end);
    AtConcat(b, r, lit, end);
    SpacesEndLine(b, r + |lit|, end);
    EqualsIntro(b, q, r, lit);
  }

  lemma SpacesEndLine(b: string, p: nat, end: string)
    requires At(b, p, end) && OnlySpaces(end) && (p + |end| == |b| || (p + |end| < |b| && b[p + |end|] == '\n'))
    ensures p <= |b| && SkipOnLine(b, p) == p + |end|
  {
    hide At, IsReSpace;
    SpacesAre();
    Characters(b, p, end);
    SkipToLineEnd(b, p, p + |end|);
  }

  lemma Starts(w: string, rest: string)
    requires w != ""
    ensures w + rest != "" && (w + rest)[0] == w[0]
  {
  }

  lemma EqualsIntro(b: string, q: nat, r: nat, lit: string)
    requires q + 1 <= |b| && At(b, q, "=") && SkipRe(b, q + 1) == r && At(b, r, lit) && r + |lit| <= |b|
    requires var e := SkipOnLine(b, r + |lit|); e == |b| || (e < |b| && b[e] == '\n')
    ensures EqualsFrom(b, q, lit)
  {
    hide SkipRe, SkipOnLine, At;
  }

  // ---------------------------------------------------------------- blocks

  // The first character of the line, white space aside.
  predicate StartsSection(line: string) {
    TrimSpace(line) != "" && TrimSpace(line)[0] == '['
  }

  // A block starts with its header and ends before the next line that opens a section of
  // whatever name.
  lemma BlockSpan(lines: seq<string>, i: nat, key: string, value: string)
    requires i < |lines| && IsMatch(lines, i, key, value)
    ensures TrimSpace(lines[i]) == "[[d1_databases]]"
    ensures var e := BlockEnd(lines, i + 1);
            && i < e <= |lines|
            && (forall k :: i < k < e ==> !StartsSection(lines[k]))
            && (e < |lines| ==> StartsSection(lines[e]))
  {
    hide TrimSpace, BlockHas, BlockText;
    EndOfBlock(lines, i + 1);
  }

  lemma EndOfBlock(lines: seq<string>, j: nat)
    requires j <= |lines|
    ensures var e := BlockEnd(lines, j);
            && j <= e <= |lines|
            && (forall k :: j <= k < e ==> !OpensSection(lines[k]))
            && (e < |lines| ==> OpensSection(lines[e]))
  {
    hide OpensSection;
  }

  // The block written for an entry, line by line.
  lemma EntryWritten(entry: Entry)
    ensures var e := EntryLines(entry);
            && |e| == (if TrimSpace(entry.migrationsDir) == "" then 4 else 5)
            && e[0] == "[[d1_databases]]"
            && e[1] == "binding = " + TomlString(entry.binding)
            && e[2] == "database_name = " + TomlString(entry.databaseName)
            && e[3] == "database_id = " + TomlString(entry.databaseId)
            && (|e| == 5 ==> e[4] == "migrations_dir = " + TomlString(entry.migrationsDir))
  {
    hide TomlString, TrimSpace;
  }
}
