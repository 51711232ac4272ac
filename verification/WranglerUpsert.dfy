// The upsert settles: a second run changes nothing, and one run touches one block.
module WranglerUpsert {
  import opened Text
  import opened TomlText
  import opened Wrangler
  import opened Wrappers

  predicate Clean(entry: Entry) {
    IsLine(entry.binding) && IsLine(entry.databaseName) && IsLine(entry.databaseId) && IsLine(entry.migrationsDir)
  }

  // ---------------------------------------------------------------- lines of an entry

  lemma PrefixedLine(prefix: string, value: string)
    requires IsLine(prefix) && IsLine(value)
    ensures IsLine(prefix + TomlString(value))
  {
    hide TomlString;
    EscapeKeepsLine(value);
  }

  lemma EntryIsLines(entry: Entry)
    requires Clean(entry)
    ensures AreLines(EntryLines(entry))
    ensures 4 <= |EntryLines(entry)| <= 5 && EntryLines(entry)[|EntryLines(entry)| - 1] != ""
  {
    hide TomlString, TrimSpace;
    PrefixedLine("binding = ", entry.binding);
    PrefixedLine("database_name = ", entry.databaseName);
    PrefixedLine("database_id = ", entry.databaseId);
    PrefixedLine("migrations_dir = ", entry.migrationsDir);
  }

  lemma Unindented(line: string, c: char)
    requires line != "" && line[0] == c && !IsSpace(c) && c != '['
    ensures !OpensSection(line)
  {
    assert TrimLeft(line) == line;
    assert !IsSpace(line[0]);
    assert TrimSpace(line) == TrimRight(line);
    assert TrimRight(line) != "";
    assert TrimSpace(line)[0] == line[0];
    AtChar(TrimSpace(line), 0, '[');
  }

  lemma EntryOpens(entry: Entry)
    ensures var e := EntryLines(entry);
            && IsHeader(e[0]) && OpensSection(e[0])
            && forall k :: 1 <= k < |e| ==> !OpensSection(e[k])
  {
    hide TomlString, OpensSection, IsSpace, IsHeader, TrimSpace;
    HeaderIsHeader();
    Letters();
    Unindented("binding = " + TomlString(entry.binding), 'b');
    Unindented("database_name = " + TomlString(entry.databaseName), 'd');
    Unindented("database_id = " + TomlString(entry.databaseId), 'd');
    Unindented("migrations_dir = " + TomlString(entry.migrationsDir), 'm');
  }

  lemma Letters()
    ensures !IsSpace('b') && !IsSpace('d') && !IsSpace('m')
  {
  }

  lemma HeaderIsHeader()
    ensures IsHeader(HEADER) && OpensSection(HEADER) && !OpensSection("") && !IsHeader("")
  {
    assert Trimmed(HEADER);
    AtChar(HEADER, 0, '[');
  }

  // ---------------------------------------------------------------- joins

  lemma {:induction false} JoinConcat(a: seq<string>, b: seq<string>)
    requires a != [] && b != []
    ensures Join(a + b) == Join(a) + ("\n" + Join(b))
  {
    assert (a + b)[0] == a[0] && (a + b)[1..] == a[1..] + b;
    if |a| > 1 {
      JoinConcat(a[1..], b);
      Assoc("\n", Join(a[1..]), "\n" + Join(b));
      Assoc(a[0], "\n" + Join(a[1..]), "\n" + Join(b));
    } else {
      assert a[1..] + b == b;
    }
  }

  lemma TrimLinesFacts(lines: seq<string>)
    requires lines != []
    ensures lines[|lines| - 1] != "" ==> TrimLines(lines) == lines
    ensures TrimLines(lines + [""]) == TrimLines(lines)
  {
    assert (lines + [""])[..|lines|] == lines;
  }

  lemma ReplacementIsEntry(entry: Entry)
    requires Clean(entry)
    ensures Replacement(entry) == EntryLines(entry)
    ensures TrimNewlines(Toml(entry)) == Join(EntryLines(entry))
    ensures Toml(entry) == Join(EntryLines(entry)) + "\n"
  {
    hide EntryLines, Join, Split, TrimNewlines, IsLine;
    var e := EntryLines(entry);
    EntryIsLines(entry);
    EmptyIsLine();
    assert AreLines(e + [""]);
    TrimNewlinesIsTrimLines(e + [""]);
    TrimLinesFacts(e);
    SplitJoin(e);
    JoinSnoc(e, "");
  }

  lemma EmptyIsLine()
    ensures IsLine("")
  {
  }

  // Where line x of a joined text stands.
  lemma {:induction false} LineInPlace(lines: seq<string>, x: nat) returns (start: nat)
    requires x < |lines|
    ensures var b := Join(lines);
            && At(b, start, lines[x]) && AtLineStart(b, start)
            && (start + |lines[x]| == |b| || b[start + |lines[x]|] == '\n')
  {
    var b := Join(lines);
    if x == 0 {
      start := 0;
      assert b[..|lines[0]|] == lines[0];
    } else {
      var rest := Join(lines[1..]);
      var s := LineInPlace(lines[1..], x - 1);
      start := |lines[0]| + 1 + s;
      assert b == lines[0] + ("\n" + rest);
      ShiftedAt(lines[0], rest, s, lines[x]);
    }
  }

  lemma ShiftedAt(first: string, rest: string, s: nat, w: string)
    requires At(rest, s, w)
    ensures var b := first + ("\n" + rest);
            var n := |first| + 1;
            && At(b, n + s, w) && |b| == n + |rest|
            && (s > 0 ==> b[n + s - 1] == rest[s - 1]) && (s == 0 ==> b[n - 1] == '\n')
            && (s + |w| < |rest| ==> b[n + s + |w|] == rest[s + |w|])
  {
    var b := first + ("\n" + rest);
    var n := |first| + 1;
    assert b[n..] == rest;
    assert b[n + s..n + s + |w|] == b[n..][s..s + |w|];
  }

  // ---------------------------------------------------------------- matching

  predicate IsKey(key: string) {
    key == DATABASE_ID || key == BINDING
  }

  // A line that assigns the value is found.
  lemma LineMatches(lines: seq<string>, x: nat, key: string, value: string)
    requires x < |lines| && IsKey(key) && Trimmed(value) && value != ""
    requires lines[x] == key + (" = " + TomlString(value))
    ensures BlockHas(Join(lines), key, value)
  {
    hide Join, TrimSpace, Trimmed, At, TomlString, AtLineStart, EqualsFrom, SkipRe;
    var b, lit := Join(lines), TomlString(value);
    var s := LineInPlace(lines, x);
    AtConcat(b, s, key, " = " + lit);
    TomlStringStarts(value);
    AssignInPlace(b, s + |key|, lit);
    AtKeyStart(b, s, key);
    InRange(b, s, key);
    assert MatchesFrom(b, s, key, TomlString(TrimSpace(value)));
  }

  lemma TomlStringStarts(value: string)
    ensures TomlString(value) != "" && TomlString(value)[0] == '"'
  {
  }

  lemma AtKeyStart(b: string, s: nat, key: string)
    requires IsKey(key) && At(b, s, key)
    ensures SkipRe(b, s) == s
  {
    assert b[s] == b[s..s + |key|][0];
  }

  lemma AssignInPlace(b: string, p: nat, lit: string)
    requires lit != "" && lit[0] == '"' && At(b, p, " = " + lit)
    requires var e := p + 3 + |lit|; e == |b| || b[e] == '\n'
    ensures EqualsFrom(b, SkipRe(b, p), lit)
  {
    AtConcat(b, p, " = ", lit);
    assert b[p..p + 3] == " = ";
    assert b[p] == ' ' && b[p + 1] == '=' && b[p + 2] == ' ' by {
      assert b[p..p + 3][0] == b[p] && b[p..p + 3][1] == b[p + 1] && b[p..p + 3][2] == b[p + 2];
    }
    assert b[p + 3] == b[p + 3..p + 3 + |lit|][0];
    AtChar(b, p + 1, '=');
    assert SkipRe(b, p) == p + 1 && SkipRe(b, p + 2) == p + 3;
    assert EndsLine(b, p + 3 + |lit|);
  }

  // A newline at the end of a block changes nothing.
  lemma {:induction false} SkipReNewline(b: string, i: nat)
    requires i <= |b|
    ensures SkipRe(b + "\n", i) == if SkipRe(b, i) == |b| then |b| + 1 else SkipRe(b, i)
    decreases |b| - i
  {
    if i < |b| {
      SkipReNewline(b, i + 1);
    }
  }

  lemma {:induction false} SkipOnLineNewline(b: string, i: nat)
    requires i <= |b|
    ensures SkipOnLine(b + "\n", i) == SkipOnLine(b, i)
    decreases |b| - i
  {
    if i < |b| {
      SkipOnLineNewline(b, i + 1);
    }
  }

  lemma AtNewline(b: string, p: nat, w: string)
    requires w != "" && IsLine(w)
    ensures At(b + "\n", p, w) <==> At(b, p, w)
  {
    var c := b + "\n";
    assert w[|w| - 1] in w && w[|w| - 1] != '\n';
    if p + |w| <= |b| {
      assert c[p..p + |w|] == b[p..p + |w|];
    } else if p + |w| == |c| {
      assert c[p..p + |w|][|w| - 1] == '\n';
    }
  }

  lemma LiteralFromNewline(b: string, r: nat, lit: string)
    requires lit != "" && IsLine(lit)
    ensures LiteralFrom(b + "\n", r, lit) <==> LiteralFrom(b, r, lit)
  {
    hide At;
    AtNewline(b, r, lit);
    if At(b, r, lit) {
      InRange(b, r, lit);
      SkipOnLineNewline(b, r + |lit|);
    }
  }

  lemma InRange(b: string, p: nat, w: string)
    requires At(b, p, w)
    ensures p + |w| <= |b|
  {
  }

  lemma EqualsFromNewline(b: string, q: nat, lit: string)
    requires lit != "" && IsLine(lit)
    ensures EqualsFrom(b + "\n", q, lit) <==> EqualsFrom(b, q, lit)
  {
    hide At, LiteralFrom, SkipRe;
    AtNewline(b, q, "=");
    if At(b, q, "=") {
      InRange(b, q, "=");
      AfterSkip(b, q + 1, lit);
    }
  }

  lemma AfterSkip(b: string, i: nat, lit: string)
    requires lit != "" && IsLine(lit) && i <= |b|
    ensures LiteralFrom(b + "\n", SkipRe(b + "\n", i), lit) <==> LiteralFrom(b, SkipRe(b, i), lit)
  {
    hide SkipRe, EndsLine;
    SkipReNewline(b, i);
    LiteralFromNewline(b, SkipRe(b, i), lit);
  }

  lemma AfterSkipEquals(b: string, i: nat, lit: string)
    requires lit != "" && IsLine(lit) && i <= |b|
    ensures EqualsFrom(b + "\n", SkipRe(b + "\n", i), lit) <==> EqualsFrom(b, SkipRe(b, i), lit)
  {
    hide SkipRe, LiteralFrom;
    SkipReNewline(b, i);
    EqualsFromNewline(b, SkipRe(b, i), lit);
  }

  lemma KeyFromNewline(b: string, p: nat, key: string, lit: string)
    requires IsKey(key) && lit != "" && IsLine(lit)
    ensures KeyFrom(b + "\n", p, key, lit) <==> KeyFrom(b, p, key, lit)
  {
    hide At, EqualsFrom, SkipRe;
    KeyIsLine(key);
    AtNewline(b, p, key);
    if At(b, p, key) {
      InRange(b, p, key);
      AfterSkipEquals(b, p + |key|, lit);
    }
  }

  lemma KeyIsLine(key: string)
    requires IsKey(key)
    ensures key != "" && IsLine(key)
  {
  }

  lemma MatchesFromNewline(b: string, i: nat, key: string, lit: string)
    requires IsKey(key) && lit != "" && IsLine(lit) && i <= |b|
    ensures MatchesFrom(b + "\n", i, key, lit) <==> MatchesFrom(b, i, key, lit)
  {
    hide KeyFrom, SkipRe;
    SkipReNewline(b, i);
    KeyFromNewline(b, SkipRe(b, i), key, lit);
    BeyondEnd(b, key, lit);
  }

  lemma BeyondEnd(b: string, key: string, lit: string)
    requires IsKey(key)
    ensures !KeyFrom(b, |b|, key, lit) && !KeyFrom(b + "\n", |b| + 1, key, lit)
    ensures !MatchesFrom(b + "\n", |b| + 1, key, lit)
  {
  }

  lemma BlockHasNewline(b: string, key: string, value: string)
    requires IsKey(key) && IsLine(TrimSpace(value))
    ensures BlockHas(b + "\n", key, value) <==> BlockHas(b, key, value)
  {
    hide MatchesFrom, TrimSpace, IsLine;
    var lit := TomlString(TrimSpace(value));
    EscapeKeepsLine(TrimSpace(value));
    BeyondEnd(b, key, lit);
    forall i | 0 <= i <= |b|
      ensures MatchesFrom(b + "\n", i, key, lit) <==> MatchesFrom(b, i, key, lit)
    {
      MatchesFromNewline(b, i, key, lit);
    }
  }

  // Empty lines at the end of a block change nothing.
  lemma {:induction false} BlockHasEmptyLines(lines: seq<string>, m: nat, key: string, value: string)
    requires IsKey(key) && IsLine(TrimSpace(value)) && 0 < m <= |lines|
    requires forall k :: m <= k < |lines| ==> lines[k] == ""
    ensures BlockHas(Join(lines), key, value) <==> BlockHas(Join(lines[..m]), key, value)
    decreases |lines|
  {
    hide BlockHas, IsLine;
    if m == |lines| {
      assert lines[..m] == lines;
    } else {
      var most := lines[..|lines| - 1];
      BlockHasEmptyLines(most, m, key, value);
      assert most[..m] == lines[..m] && lines == most + [""];
      JoinSnoc(most, "");
      assert Join(lines) == Join(most) + "\n";
      BlockHasNewline(Join(most), key, value);
    }
  }

  // ---------------------------------------------------------------- settled contents

  // The block end, and so a match, depends only on the lines up to a section that
  // both line lists open at i.
  lemma {:induction false} SameBlockEnd(a: seq<string>, b: seq<string>, i: nat, p: nat)
    requires i < |a| && i < |b| && a[..i] == b[..i] && OpensSection(a[i]) && OpensSection(b[i]) && p <= i
    ensures BlockEnd(a, p) == BlockEnd(b, p) <= i
    decreases i - p
  {
    hide OpensSection;
    if p < i {
      SameBlockEnd(a, b, i, p + 1);
      assert a[p] == a[..i][p] == b[..i][p] == b[p];
    }
  }

  lemma SameMatch(a: seq<string>, b: seq<string>, i: nat, p: nat, key: string, value: string)
    requires i < |a| && i < |b| && a[..i] == b[..i] && OpensSection(a[i]) && OpensSection(b[i]) && p < i
    ensures IsMatch(a, p, key, value) <==> IsMatch(b, p, key, value)
  {
    hide OpensSection, BlockHas, IsHeader, Join, BlockEnd;
    SameBlockEnd(a, b, i, p + 1);
    var e := BlockEnd(a, p + 1);
    assert a[p] == a[..i][p] == b[..i][p] == b[p];
    assert a[p..e] == a[..i][p..e] == b[..i][p..e] == b[p..e];
  }

  // The contents are these lines; the entry's own lines stand at i, as one block,
  // and no block before them carries its own value of the key.
  predicate Settled(c: string, entry: Entry, key: string, lines: seq<string>, i: nat) {
    var e := EntryLines(entry);
    && AreLines(lines) && lines != [] && lines[|lines| - 1] != ""
    && c == Join(lines) + "\n"
    && i + |e| <= |lines| && lines[i..i + |e|] == e
    && (i + |e| < |lines| ==> OpensSection(lines[i + |e|]))
    && NoneBefore(lines + [""], i, key, Own(entry, key))
  }

  // No block before line i carries the value.
  predicate NoneBefore(lines: seq<string>, i: nat, key: string, value: string)
    requires i <= |lines|
  {
    forall p :: 0 <= p < i ==> !IsMatch(lines, p, key, value)
  }

  // What the entry itself is found by.
  function Own(entry: Entry, key: string): string {
    if key == DATABASE_ID then entry.databaseId else entry.binding
  }

  predicate HasOwn(entry: Entry, key: string) {
    IsKey(key) && Own(entry, key) != "" && Trimmed(Own(entry, key))
  }

  // Where the block of lines e that stands at i ends.
  lemma {:induction false} OwnBlockEnd(lines: seq<string>, i: nat, e: seq<string>, k: nat)
    requires 1 <= k <= |e| && i + |e| < |lines| && lines[i..i + |e|] == e
    requires forall n :: 1 <= n < |e| ==> !OpensSection(e[n])
    ensures BlockEnd(lines, i + k) == BlockEnd(lines, i + |e|)
    decreases |e| - k
  {
    hide OpensSection;
    if k < |e| {
      assert lines[i + k] == lines[i..i + |e|][k];
      OwnBlockEnd(lines, i, e, k + 1);
    }
  }

  lemma EndAtSection(lines: seq<string>, j: nat)
    requires j < |lines|
    ensures OpensSection(lines[j]) ==> BlockEnd(lines, j) == j
    ensures j + 1 == |lines| && !OpensSection(lines[j]) ==> BlockEnd(lines, j) == |lines|
  {
    hide OpensSection;
    BlockFacts(lines, j);
  }

  lemma SliceSnoc(lines: seq<string>, i: nat, n: nat)
    requires i <= n <= |lines|
    ensures (lines + [""])[i..n] == lines[i..n]
    ensures (lines + [""])[n] == if n < |lines| then lines[n] else ""
  {
  }

  lemma SettledBlock(c: string, entry: Entry, key: string, lines: seq<string>, i: nat)
    requires Settled(c, entry, key, lines, i)
    ensures var all, n := lines + [""], i + |EntryLines(entry)|;
            i < |lines| && n <= |lines|
            && BlockEnd(all, i + 1) == if n < |lines| then n else |all|
  {
    hide *;
    var all, e := lines + [""], EntryLines(entry);
    SettledFacts(c, entry, key, lines, i);
    EntryOpens(entry);
    HeaderIsHeader();
    EntryNotEmpty(entry);
    SliceSnoc(lines, i, i + |e|);
    OwnBlockEnd(all, i, e, 1);
    EndAtSection(all, i + |e|);
  }

  lemma SettledFacts(c: string, entry: Entry, key: string, lines: seq<string>, i: nat)
    requires Settled(c, entry, key, lines, i)
    ensures var e := EntryLines(entry);
            && i + |e| <= |lines| && lines[i..i + |e|] == e
            && (i + |e| < |lines| ==> OpensSection(lines[i + |e|]))
  {
    hide OpensSection, EntryLines, IsMatch, Join, AreLines;
  }

  // Where an entry's lines assign the key.
  function OwnLine(key: string): nat {
    if key == DATABASE_ID then 3 else 1
  }

  lemma EntryNotEmpty(entry: Entry)
    ensures EntryLines(entry) != [] && |EntryLines(entry)| >= 4
    ensures forall key :: IsKey(key) ==> EntryLines(entry)[OwnLine(key)] == key + (" = " + TomlString(Own(entry, key)))
  {
    hide TomlString, TrimSpace;
    assert "database_id = " == DATABASE_ID + " = " && "binding = " == BINDING + " = ";
    Assoc(DATABASE_ID, " = ", TomlString(entry.databaseId));
    Assoc(BINDING, " = ", TomlString(entry.binding));
  }

  lemma OwnBlockMatches(c: string, entry: Entry, key: string, lines: seq<string>, i: nat)
    requires Settled(c, entry, key, lines, i) && HasOwn(entry, key)
    ensures i < |lines| && IsMatch(lines + [""], i, key, Own(entry, key))
  {
    hide OpensSection, BlockEnd, EntryLines, Join, AreLines, BlockHas, IsHeader, Trimmed, TomlString;
    var all, e := lines + [""], EntryLines(entry);
    SettledBlock(c, entry, key, lines, i);
    EntryOpens(entry);
    EntryNotEmpty(entry);
    assert all[i..i + |e|] == lines[i..i + |e|] == e;
    assert all[i] == all[i..i + |e|][0] == e[0];
    var block := all[i..BlockEnd(all, i + 1)];
    var x := OwnLine(key);
    assert block[x] == all[i..i + |e|][x] == e[x];
    LineMatches(block, x, key, Own(entry, key));
  }

  // Upserting into settled contents gives them back.
  lemma SettledIsFixpoint(
    c: string, entry: Entry, key: string, lines: seq<string>, i: nat, previousId: string, previousBinding: string)
    requires Settled(c, entry, key, lines, i) && AnchoredBy(entry, key, previousId, previousBinding) && Clean(entry)
    ensures Upserted(c, entry, previousId, previousBinding) == c
  {
    hide OpensSection, BlockEnd, EntryLines, Join, AreLines, Split, TrimNewlines, IsMatch, FirstMatch, TrimLines,
      Clean, Replacement, TrimSpace, Trimmed;
    var all, e := lines + [""], EntryLines(entry);
    JoinSnoc(lines, "");
    EmptyIsLine();
    LinesSnoc(lines);
    SplitJoin(all);
    assert "\n" + "" == "\n";
    assert Split(c) == all;
    OwnBlockMatches(c, entry, key, lines, i);
    FirstMatchIs(all, i, key, Own(entry, key));
    SettledBlock(c, entry, key, lines, i);
    ReplacementIsEntry(entry);
    var written := Rewritten(all, i, entry);
    assert written == if i + |e| < |lines| then all else lines by {
      Reassemble(lines, i, e);
    }
    TrimNewlinesIsTrimLines(written);
    TrimLinesFacts(lines);
    FirstAttempt(c, entry, key, previousId, previousBinding);
    ReplacedFacts(c, entry, key, Own(entry, key));
  }

  lemma LinesSnoc(lines: seq<string>)
    requires AreLines(lines)
    ensures AreLines(lines + [""])
  {
    hide IsLine;
    EmptyIsLine();
  }

  lemma FirstMatchIs(lines: seq<string>, i: nat, key: string, value: string)
    requires i < |lines| && IsMatch(lines, i, key, value)
    requires forall p :: 0 <= p < i ==> !IsMatch(lines, p, key, value)
    ensures FirstMatch(lines, 0, key, value) == i
  {
    hide IsMatch, FirstMatch;
    FirstMatchFacts(lines, 0, key, value);
  }

  lemma Reassemble(lines: seq<string>, i: nat, e: seq<string>)
    requires i + |e| <= |lines| && lines[i..i + |e|] == e
    ensures var all := lines + [""];
            && all[..i] + e + all[i + |e|..] == all
            && (i + |e| == |lines| ==> all[..i] + e + all[|all|..] == lines)
  {
    var all := lines + [""];
    assert all[..i] == lines[..i] && all[i..i + |e|] == e;
    assert lines == lines[..i] + e + lines[i + |e|..];
  }

  // ---------------------------------------------------------------- attempts

  // The attempts from the first one that is set.
  function Live(attempts: seq<Attempt>): (live: seq<Attempt>)
    ensures live != [] ==> TrimSpace(live[0].value) != ""
  {
    if attempts != [] && TrimSpace(attempts[0].value) == "" then Live(attempts[1..]) else attempts
  }

  lemma {:induction false} BlankAttempts(content: string, entry: Entry, attempts: seq<Attempt>)
    ensures FirstResult(content, entry, attempts) == FirstResult(content, entry, Live(attempts))
  {
    hide ReplacedByKey, TrimSpace, Appended;
    if attempts != [] && TrimSpace(attempts[0].value) == "" {
      BlankAttempts(content, entry, attempts[1..]);
    }
  }

  // The first attempt that is set looks for the entry's own value.
  predicate AnchoredBy(entry: Entry, key: string, previousId: string, previousBinding: string) {
    var live := Live(Attempts(entry, previousId, previousBinding));
    live != [] && live[0] == Attempt(key, Own(entry, key)) && HasOwn(entry, key)
  }

  predicate Anchored(entry: Entry, previousId: string, previousBinding: string) {
    || AnchoredBy(entry, DATABASE_ID, previousId, previousBinding)
    || AnchoredBy(entry, BINDING, previousId, previousBinding)
  }

  // That is, by its database id, or by its binding if it has no id and had none.
  lemma AnchoredIff(entry: Entry, previousId: string, previousBinding: string)
    ensures Anchored(entry, previousId, previousBinding) <==>
            || HasOwn(entry, DATABASE_ID)
            || (TrimSpace(entry.databaseId) == "" && TrimSpace(previousId) == "" && HasOwn(entry, BINDING))
  {
    hide TrimSpace, Trimmed;
    var all := Attempts(entry, previousId, previousBinding);
    assert all[1..][1..] == all[2..] && all[2..][1..] == all[3..] && all[3..][1..] == [];
    TrimmedFacts(entry.databaseId);
    TrimmedFacts(entry.binding);
    LiveIs(all);
    LiveIs(all[1..]);
    LiveIs(all[2..]);
    LiveIs(all[3..]);
    LiveIs([]);
  }

  lemma LiveIs(attempts: seq<Attempt>)
    ensures Live(attempts) ==
            if attempts != [] && TrimSpace(attempts[0].value) == "" then Live(attempts[1..]) else attempts
  {
    hide TrimSpace;
  }

  // The first attempt that is set, when it finds a block.
  lemma FirstAttempt(content: string, entry: Entry, key: string, previousId: string, previousBinding: string)
    requires AnchoredBy(entry, key, previousId, previousBinding)
    ensures var first := ReplacedByKey(content, entry, key, Own(entry, key));
            first.Some? ==> Upserted(content, entry, previousId, previousBinding) == first.value
  {
    hide ReplacedByKey, Live;
    BlankAttempts(content, entry, Attempts(entry, previousId, previousBinding));
  }

  // ---------------------------------------------------------------- one run settles

  // What replacing the block at i makes of the lines.
  lemma RewrittenSettles(lines: seq<string>, i: nat, entry: Entry, key: string) returns (settled: seq<string>)
    requires AreLines(lines) && i < |lines| && OpensSection(lines[i]) && Clean(entry)
    requires forall p :: 0 <= p < i ==> !IsMatch(lines, p, key, Own(entry, key))
    ensures Settled(TrimNewlines(Join(Rewritten(lines, i, entry))) + "\n", entry, key, settled, i)
  {
    hide *;
    var e, j := EntryLines(entry), BlockEnd(lines, i + 1);
    EntryIsLines(entry);
    EntryNotEmpty(entry);
    ReplacementIsEntry(entry);
    var written := RewrittenIs(lines, i, entry);
    EntryOpens(entry);
    settled := Retrimmed(lines, i, e, j, written);
    EndOpens(lines, i);
    NoEarlierMatch(lines, settled, i, entry, key);
    SettledIntro(Join(settled) + "\n", entry, key, settled, i);
  }

  lemma EndOpens(lines: seq<string>, i: nat)
    requires i < |lines|
    ensures var j := BlockEnd(lines, i + 1); j < |lines| ==> OpensSection(lines[j])
  {
    hide OpensSection;
  }

  // The lines written, without the empty ones at the end.
  lemma Retrimmed(lines: seq<string>, i: nat, e: seq<string>, j: nat, written: seq<string>)
    returns (settled: seq<string>)
    requires AreLines(lines) && AreLines(e) && |e| > 1 && e[|e| - 1] != "" && i <= j <= |lines|
    requires written == lines[..i] + e + lines[j..]
    ensures TrimNewlines(Join(written)) == Join(settled)
    ensures AreLines(settled) && settled != [] && settled[|settled| - 1] != ""
    ensures i + |e| <= |settled| && settled[i..i + |e|] == e && settled[i] == e[0]
    ensures settled[..i] == lines[..i]
    ensures i + |e| < |settled| ==> j < |lines| && settled[i + |e|] == lines[j]
  {
    hide *;
    RewrittenLines(lines, i, e, j);
    TrimNewlinesIsTrimLines(written);
    settled := TrimLines(written);
    TrimmedRewriting(written, i, e);
    PrefixFacts(lines, written, settled, i, e);
    TrimmedAreLines(written, settled);
  }

  lemma RewrittenIs(lines: seq<string>, i: nat, entry: Entry) returns (written: seq<string>)
    requires i < |lines|
    ensures written == Rewritten(lines, i, entry) == lines[..i] + Replacement(entry) + lines[BlockEnd(lines, i + 1)..]
  {
    hide Replacement, BlockEnd;
    written := Rewritten(lines, i, entry);
  }

  lemma PrefixFacts(lines: seq<string>, written: seq<string>, settled: seq<string>, i: nat, e: seq<string>)
    requires settled <= written && e != [] && i + |e| <= |settled| && settled[i..i + |e|] == e
    requires i <= |lines| && written[..i] == lines[..i]
    ensures settled[..i] == lines[..i] && settled[i] == e[0]
    ensures i + |e| < |settled| ==> settled[i + |e|] == written[i + |e|]
  {
    hide *;
    assert settled[..i] == written[..i];
    assert settled[i] == settled[i..i + |e|][0];
  }

  lemma TrimmedAreLines(written: seq<string>, settled: seq<string>)
    requires AreLines(written) && settled <= written
    ensures AreLines(settled)
  {
    hide IsLine;
  }

  lemma SettledIntro(c: string, entry: Entry, key: string, lines: seq<string>, i: nat)
    requires AreLines(lines) && lines != [] && lines[|lines| - 1] != ""
    requires c == Join(lines) + "\n"
    requires i + |EntryLines(entry)| <= |lines| && lines[i..i + |EntryLines(entry)|] == EntryLines(entry)
    requires i + |EntryLines(entry)| < |lines| ==> OpensSection(lines[i + |EntryLines(entry)|])
    requires NoneBefore(lines + [""], i, key, Own(entry, key))
    ensures Settled(c, entry, key, lines, i)
  {
    hide OpensSection, EntryLines, NoneBefore, Join, AreLines;
  }

  lemma TrimmedRewriting(written: seq<string>, i: nat, e: seq<string>)
    requires e != [] && e[|e| - 1] != "" && i + |e| <= |written| && written[i..i + |e|] == e
    requires i + |e| > 1
    ensures var settled := TrimLines(written);
            && i + |e| <= |settled| && settled <= written
            && settled[i..i + |e|] == e && settled[|settled| - 1] != ""
  {
    var settled, n := TrimLines(written), i + |e|;
    assert written[n - 1] == written[i..n][|e| - 1];
    assert n <= |settled|;
    assert settled[i..n] == written[i..n];
  }

  lemma NoEarlierMatch(lines: seq<string>, settled: seq<string>, i: nat, entry: Entry, key: string)
    requires i < |lines| && OpensSection(lines[i])
    requires i < |settled| && settled[..i] == lines[..i] && OpensSection(settled[i])
    requires forall p :: 0 <= p < i ==> !IsMatch(lines, p, key, Own(entry, key))
    ensures NoneBefore(settled + [""], i, key, Own(entry, key))
  {
    hide OpensSection, IsMatch;
    var all := settled + [""];
    SliceSnoc(settled, 0, i);
    forall p | 0 <= p < i
      ensures !IsMatch(all, p, key, Own(entry, key))
    {
      SameMatch(all, lines, i, p, key, Own(entry, key));
    }
  }

  lemma RewrittenLines(lines: seq<string>, i: nat, e: seq<string>, j: nat)
    requires AreLines(lines) && AreLines(e) && i <= j <= |lines|
    ensures var written := lines[..i] + e + lines[j..];
            && AreLines(written)
            && written[..i] == lines[..i]
            && written[i..i + |e|] == e
            && (i + |e| < |written| ==> j < |lines| && written[i + |e|] == lines[j])
  {
    hide IsLine;
  }

  // What appending makes of contents in which no block carries the value.
  lemma AppendedSettles(content: string, entry: Entry, key: string) returns (settled: seq<string>, i: nat)
    requires Clean(entry) && HasOwn(entry, key)
    requires forall p :: 0 <= p < |Split(content)| ==> !IsMatch(Split(content), p, key, Own(entry, key))
    ensures Settled(Appended(content, entry), entry, key, settled, i)
  {
    hide OpensSection, BlockEnd, EntryLines, Join, IsLine, TrimNewlines, IsMatch, TrimLines, Clean, TrimSpace,
      Split, Toml, HasOwn;
    var e := EntryLines(entry);
    EntryIsLines(entry);
    ReplacementIsEntry(entry);
    if TrimSpace(TrimNewlines(content)) == "" {
      settled, i := e, 0;
      assert e[0..0 + |e|] == e;
    } else {
      var lines := Split(content);
      var kept := TrimLines(lines);
      JoinSplit(content);
      TrimNewlinesIsTrimLines(lines);
      i := |kept| + 1;
      settled := kept + [""] + e;
      JoinSnoc(kept, "");
      JoinConcat(kept + [""], e);
      AppendedText(Join(kept), Join(e));
      AppendedLines(lines, kept, e);
      AppendedMatches(lines, kept, entry, key);
    }
  }

  lemma AppendedText(kept: string, e: string)
    ensures kept + ("\n\n" + (e + "\n")) == ((kept + ("\n" + "")) + ("\n" + e)) + "\n"
  {
    assert "\n\n" == "\n" + "\n";
    assert "\n" + "" == "\n";
    assert kept + ("\n\n" + (e + "\n")) == kept + "\n" + "\n" + e + "\n";
    assert ((kept + "\n") + ("\n" + e)) + "\n" == kept + "\n" + "\n" + e + "\n";
  }

  lemma AppendedLines(lines: seq<string>, kept: seq<string>, e: seq<string>)
    requires AreLines(lines) && AreLines(e) && kept <= lines && e != []
    ensures var settled, i := kept + [""] + e, |kept| + 1;
            && AreLines(settled) && settled[|settled| - 1] == e[|e| - 1]
            && i + |e| == |settled| && settled[i..i + |e|] == e
  {
    hide IsLine;
    EmptyIsLine();
  }

  lemma AppendedMatches(lines: seq<string>, kept: seq<string>, entry: Entry, key: string)
    requires kept == TrimLines(lines) && lines != [] && Clean(entry) && HasOwn(entry, key)
    requires forall p :: 0 <= p < |lines| ==> !IsMatch(lines, p, key, Own(entry, key))
    ensures forall p :: 0 <= p <= |kept| ==>
              !IsMatch(kept + [""] + EntryLines(entry) + [""], p, key, Own(entry, key))
  {
    hide *;
    EntryNotEmpty(entry);
    EntryOpens(entry);
    var e := EntryLines(entry);
    var all := kept + [""] + e + [""];
    AfterKept(kept, e);
    forall p | 0 <= p <= |kept|
      ensures !IsMatch(all, p, key, Own(entry, key))
    {
      if p == |kept| {
        EmptyNoMatch(all, p, key, Own(entry, key));
      } else {
        KeptMatch(lines, kept, all, p, entry, key);
      }
    }
  }

  lemma AfterKept(kept: seq<string>, e: seq<string>)
    requires e != []
    ensures var all := kept + [""] + e + [""];
            && kept + [""] <= all && |kept| + 1 < |all| && all[|kept|] == "" && all[|kept| + 1] == e[0]
  {
    hide *;
    var head := kept + [""];
    assert (head + e + [""])[..|head|] == head;
  }

  lemma EmptyNoMatch(lines: seq<string>, p: nat, key: string, value: string)
    requires p < |lines| && lines[p] == ""
    ensures !IsMatch(lines, p, key, value)
  {
    hide BlockHas;
    HeaderIsHeader();
  }

  // A block keeps its text, or only its trailing empty lines change.
  lemma KeptMatch(lines: seq<string>, kept: seq<string>, all: seq<string>, p: nat, entry: Entry, key: string)
    requires p < |kept| && kept <= lines && Clean(entry) && HasOwn(entry, key)
    requires forall k :: |kept| <= k < |lines| ==> lines[k] == ""
    requires kept + [""] <= all && |kept| + 1 < |all| && OpensSection(all[|kept| + 1])
    ensures IsMatch(all, p, key, Own(entry, key)) <==> IsMatch(lines, p, key, Own(entry, key))
  {
    hide OpensSection, Join, IsLine, TrimSpace, BlockHas, IsHeader;
    var e, f, n := BlockEnd(lines, p + 1), BlockEnd(all, p + 1), |kept|;
    HeaderIsHeader();
    assert forall k :: 0 <= k < n ==> all[k] == kept[k] == lines[k];
    assert all[n] == (kept + [""])[n] == "";
    if e < n {
      assert f == e by { EndsAgree(lines, all, p + 1, n); }
      assert all[p..f] == lines[p..e];
    } else {
      EndsLate(lines, all, p + 1, n);
      assert e == |lines| && f == n + 1;
      var a, b := all[p..f], lines[p..e];
      SameSlices(lines, all, p, n, e, f);
      OwnIsLine(entry, key);
      BlockHasEmptyLines(a, n - p, key, Own(entry, key));
      BlockHasEmptyLines(b, n - p, key, Own(entry, key));
    }
  }

  lemma SameSlices(lines: seq<string>, all: seq<string>, p: nat, n: nat, e: nat, f: nat)
    requires p <= n <= e <= |lines| && n <= f <= |all| && forall k :: 0 <= k < n ==> all[k] == lines[k]
    ensures all[p..f][..n - p] == lines[p..e][..n - p]
  {
    assert all[p..f][..n - p] == all[p..n] && lines[p..e][..n - p] == lines[p..n];
    assert forall k :: 0 <= k < n - p ==> all[p..n][k] == all[p + k] && lines[p..n][k] == lines[p + k];
  }

  lemma OwnIsLine(entry: Entry, key: string)
    requires Clean(entry) && HasOwn(entry, key)
    ensures IsLine(TrimSpace(Own(entry, key))) && IsKey(key)
  {
    hide IsLine;
  }

  lemma {:induction false} EndsAgree(a: seq<string>, b: seq<string>, p: nat, n: nat)
    requires p <= n <= |a| && n <= |b| && forall k :: 0 <= k < n ==> a[k] == b[k]
    requires BlockEnd(a, p) < n
    ensures BlockEnd(b, p) == BlockEnd(a, p)
    decreases n - p
  {
    hide OpensSection;
    if p < n && !OpensSection(a[p]) {
      EndsAgree(a, b, p + 1, n);
    }
  }

  lemma {:induction false} EndsLate(lines: seq<string>, all: seq<string>, p: nat, n: nat)
    requires p <= n <= |lines| && n + 1 < |all|
    requires forall k :: p <= k < n ==> lines[k] == all[k] && !OpensSection(lines[k])
    requires forall k :: n <= k < |lines| ==> !OpensSection(lines[k])
    requires !OpensSection(all[n]) && OpensSection(all[n + 1])
    ensures BlockEnd(lines, p) == |lines| && BlockEnd(all, p) == n + 1
    decreases n - p
  {
    hide OpensSection;
    if p < n {
      EndsLate(lines, all, p + 1, n);
    } else {
      NoSection(lines, n);
    }
  }

  lemma {:induction false} NoSection(lines: seq<string>, p: nat)
    requires p <= |lines| && forall k :: p <= k < |lines| ==> !OpensSection(lines[k])
    ensures BlockEnd(lines, p) == |lines|
    decreases |lines| - p
  {
    hide OpensSection;
    if p < |lines| {
      NoSection(lines, p + 1);
    }
  }

  // ---------------------------------------------------------------- the theorem

  // The attempts from n on, the first one having failed if n > 0.
  lemma {:induction false} AttemptsSettle(
    content: string, entry: Entry, key: string, attempts: seq<Attempt>, first: bool)
    returns (settled: seq<string>, i: nat)
    requires Clean(entry) && HasOwn(entry, key)
    requires first ==> attempts != [] && attempts[0] == Attempt(key, Own(entry, key))
    requires !first ==> ReplacedByKey(content, entry, key, Own(entry, key)) == None
    ensures Settled(FirstResult(content, entry, attempts), entry, key, settled, i)
    decreases attempts
  {
    hide Settled, ReplacedByKey, Appended, Clean, TrimSpace, Split, IsMatch, FirstMatch, Trimmed;
    ReplacedFacts(content, entry, key, Own(entry, key));
    var lines := Split(content);
    if attempts == [] {
      NoneMatches(lines, key, Own(entry, key));
      settled, i := AppendedSettles(content, entry, key);
    } else {
      var a := attempts[0];
      if AttemptResult(content, entry, a) == None {
        settled, i := AttemptsSettle(content, entry, key, attempts[1..], false);
      } else {
        ReplacedFacts(content, entry, a.key, TrimSpace(a.value));
        i := FirstMatch(lines, 0, a.key, TrimSpace(a.value));
        FirstMatchFacts(lines, 0, a.key, TrimSpace(a.value));
        MatchOpens(lines, i, a.key, TrimSpace(a.value));
        NoneMatches(lines, key, Own(entry, key));
        settled := RewrittenSettles(lines, i, entry, key);
      }
    }
  }

  lemma MatchOpens(lines: seq<string>, i: nat, key: string, value: string)
    requires i < |lines| && IsMatch(lines, i, key, value)
    ensures OpensSection(lines[i])
  {
    hide BlockHas, OpensSection, IsHeader;
    HeaderOpensSection(lines[i]);
  }

  lemma NoneMatches(lines: seq<string>, key: string, value: string)
    ensures var m := FirstMatch(lines, 0, key, value);
            forall p :: 0 <= p < m ==> !IsMatch(lines, p, key, value)
  {
    hide IsMatch, FirstMatch;
    FirstMatchFacts(lines, 0, key, value);
  }

  // The upsert is idempotent, whichever key matched the first time or none did.
  lemma UpsertIdempotent(content: string, entry: Entry, previousId: string, previousBinding: string)
    requires Clean(entry) && Anchored(entry, previousId, previousBinding)
    ensures var once := Upserted(content, entry, previousId, previousBinding);
            Upserted(once, entry, previousId, previousBinding) == once
  {
    hide Settled, Clean, FirstResult, Live, HasOwn;
    var attempts := Attempts(entry, previousId, previousBinding);
    var live := Live(attempts);
    BlankAttempts(content, entry, attempts);
    var key := live[0].key;
    var settled, i := AttemptsSettle(content, entry, key, live, true);
    SettledIsFixpoint(FirstResult(content, entry, live), entry, key, settled, i, previousId, previousBinding);
  }

  // ---------------------------------------------------------------- one block only

  // Replace the block whose header is line i, add a block after the last line that
  // is not empty, or give the file its first block.
  datatype Edit = Replace(i: nat) | Append | Fill

  predicate IsEdit(lines: seq<string>, edit: Edit) {
    match edit
    case Replace(i) => i < |lines| && IsHeader(lines[i])
    case Append => true
    case Fill => TrimSpace(TrimNewlines(Join(lines))) == ""
  }

  function Edited(lines: seq<string>, entry: Entry, edit: Edit): seq<string>
    requires edit.Replace? ==> edit.i < |lines|
  {
    match edit
    case Replace(i) => lines[..i] + EntryLines(entry) + lines[BlockEnd(lines, i + 1)..]
    case Append => TrimLines(lines) + [""] + EntryLines(entry)
    case Fill => EntryLines(entry)
  }

  // Every upsert is one such edit, up to empty lines at the end of the file: all
  // lines outside the one block stay, in order.
  lemma UpsertIsOneEdit(content: string, entry: Entry, previousId: string, previousBinding: string)
    returns (edit: Edit)
    requires Clean(entry)
    ensures IsEdit(Split(content), edit)
    ensures Upserted(content, entry, previousId, previousBinding)
         == Join(TrimLines(Edited(Split(content), entry, edit))) + "\n"
  {
    hide Clean, FirstResult, Edited, TrimSpace, TrimLines;
    edit := AttemptsEdit(content, entry, Attempts(entry, previousId, previousBinding));
  }

  lemma {:induction false} AttemptsEdit(content: string, entry: Entry, attempts: seq<Attempt>)
    returns (edit: Edit)
    requires Clean(entry)
    ensures IsEdit(Split(content), edit)
    ensures FirstResult(content, entry, attempts) == Join(TrimLines(Edited(Split(content), entry, edit))) + "\n"
    decreases attempts
  {
    hide ReplacedByKey, Appended, Clean, TrimSpace, Split, IsMatch, FirstMatch, TrimLines, Join, Edited,
      TrimNewlines, IsHeader;
    if attempts == [] {
      edit := AppendedEdit(content, entry);
    } else {
      var a := attempts[0];
      if AttemptResult(content, entry, a) == None {
        edit := AttemptsEdit(content, entry, attempts[1..]);
      } else {
        var lines := Split(content);
        ReplacedFacts(content, entry, a.key, TrimSpace(a.value));
        edit := Replace(FirstMatch(lines, 0, a.key, TrimSpace(a.value)));
        FirstMatchFacts(lines, 0, a.key, TrimSpace(a.value));
        MatchIsHeader(lines, edit.i, a.key, TrimSpace(a.value));
        ReplacedEdit(lines, entry, edit.i);
      }
    }
  }

  lemma MatchIsHeader(lines: seq<string>, i: nat, key: string, value: string)
    requires i < |lines| && IsMatch(lines, i, key, value)
    ensures IsHeader(lines[i])
  {
    hide BlockHas, IsHeader;
  }

  lemma ReplacedEdit(lines: seq<string>, entry: Entry, i: nat)
    requires i < |lines| && AreLines(lines) && Clean(entry)
    ensures TrimNewlines(Join(Rewritten(lines, i, entry))) == Join(TrimLines(Edited(lines, entry, Replace(i))))
  {
    hide Clean, TrimLines, Join, TrimNewlines, EntryLines, Replacement, BlockEnd, IsLine;
    ReplacementIsEntry(entry);
    EntryIsLines(entry);
    RewrittenLines(lines, i, EntryLines(entry), BlockEnd(lines, i + 1));
    TrimNewlinesIsTrimLines(Rewritten(lines, i, entry));
  }

  lemma AppendedEdit(content: string, entry: Entry) returns (edit: Edit)
    requires Clean(entry)
    ensures IsEdit(Split(content), edit) && !edit.Replace?
    ensures Appended(content, entry) == Join(TrimLines(Edited(Split(content), entry, edit))) + "\n"
  {
    hide Clean, TrimSpace, TrimLines, Join, TrimNewlines, EntryLines, IsLine, Split, Toml;
    var lines, e := Split(content), EntryLines(entry);
    EntryIsLines(entry);
    ReplacementIsEntry(entry);
    JoinSplit(content);
    if TrimSpace(TrimNewlines(content)) == "" {
      edit := Fill;
      TrimLinesFacts(e);
    } else {
      edit := Append;
      TrimNewlinesIsTrimLines(lines);
      var kept := TrimLines(lines);
      TrimLinesFacts(kept + [""] + e);
      JoinSnoc(kept, "");
      JoinConcat(kept + [""], e);
      AppendedText(Join(kept), Join(e));
    }
  }
}

