// When a second upsert changes nothing, whatever the file (app_datasource.go): exactly
// when the entry is first looked up by what it is itself found by.
module WranglerRepeat {
  import opened Text
  import opened TomlText
  import opened Wrangler
  import opened WranglerUpsert
  import opened Wrappers

  // ---------------------------------------------------------------- an entry is found by its own values only

  // A line start is where a line is.
  lemma {:induction false} LineAt(lines: seq<string>, i: nat) returns (k: nat)
    requires lines != [] && AreLines(lines) && i <= |Join(lines)| && AtLineStart(Join(lines), i)
    ensures k < |lines| && At(Join(lines), i, lines[k])
    ensures var e := i + |lines[k]|; e == |Join(lines)| || Join(lines)[e] == '\n'
  {
    hide IsLine, At;
    var b, first := Join(lines), lines[0];
    if i == 0 {
      k := 0;
      FirstLine(lines);
    } else {
      var rest := Join(lines[1..]);
      PastFirst(lines, i);
      var j := LineAt(lines[1..], i - |first| - 1);
      k := j + 1;
      WholeAt(rest, i - |first| - 1, lines[k]);
      ShiftedAt(first, rest, i - |first| - 1, lines[k]);
    }
  }

  lemma FirstLine(lines: seq<string>)
    requires lines != []
    ensures At(Join(lines), 0, lines[0])
    ensures |lines[0]| == |Join(lines)| || Join(lines)[|lines[0]|] == '\n'
  {
  }

  lemma WholeAt(s: string, i: nat, w: string)
    ensures At(s, i, w) ==> i + |w| <= |s|
  {
  }

  lemma PastFirst(lines: seq<string>, i: nat)
    requires lines != [] && AreLines(lines) && 0 < i <= |Join(lines)| && Join(lines)[i - 1] == '\n'
    ensures |lines| > 1 && |lines[0]| < i && Join(lines) == lines[0] + ("\n" + Join(lines[1..]))
    ensures var p := i - |lines[0]| - 1; p <= |Join(lines[1..])| && AtLineStart(Join(lines[1..]), p)
  {
    var b, first := Join(lines), lines[0];
    assert forall k :: 0 <= k < |first| ==> b[k] == first[k] && first[k] in first;
    assert i > |first| && |lines| > 1;
    var rest := Join(lines[1..]);
    var p := i - |first| - 1;
    if p > 0 {
      assert b[i - 1] == rest[p - 1];
    }
  }

  lemma {:induction false} SkipOnLineSpaces(b: string, i: nat)
    requires i <= |b|
    ensures var q := SkipOnLine(b, i); forall k :: i <= k < q ==> IsReSpace(b[k])
    decreases |b| - i
  {
    hide IsReSpace;
    if i < |b| && IsReSpace(b[i]) && b[i] != '\n' {
      SkipOnLineSpaces(b, i + 1);
    }
  }

  // Two literals at one place, either ending its line, are one.
  lemma OneLiteral(b: string, r: nat, own: string, other: string)
    requires At(b, r, own) && At(b, r, other) && IsLine(own) && IsLine(other)
    requires own != "" && own[|own| - 1] == '"' && (r + |own| == |b| || b[r + |own|] == '\n')
    requires EndsLine(b, r + |other|)
    ensures own == other
  {
    hide EndsLine;
    var e, f := r + |own|, r + |other|;
    InPlace(b, r, own);
    InPlace(b, r, other);
    assert forall k :: r <= k < e ==> b[k] == own[k - r] && own[k - r] in own;
    assert forall k :: r <= k < f ==> b[k] == other[k - r] && other[k - r] in other;
    assert b[e - 1] == own[|own| - 1];
    if f < e {
      NoEndBefore(b, f, e);
    }
    assert f == e && b[r..e] == own && b[r..f] == other;
  }

  lemma NoEndBefore(b: string, f: nat, e: nat)
    requires f < e <= |b| && b[e - 1] == '"' && forall k :: f <= k < e ==> b[k] != '\n'
    ensures !EndsLine(b, f)
  {
    hide IsReSpace;
    SkipOnLineSpaces(b, f);
    QuoteIsNoSpace();
  }

  lemma QuoteIsNoSpace()
    ensures !IsReSpace('"')
  {
  }

  lemma InPlace(b: string, r: nat, w: string)
    requires At(b, r, w)
    ensures r + |w| <= |b| && forall k :: r <= k < r + |w| ==> b[k] == w[k - r]
  {
    forall k | r <= k < r + |w|
      ensures b[k] == w[k - r]
    {
      assert b[r..r + |w|][k - r] == b[k];
    }
  }

  const NAMES := {"binding", "database_name", "database_id", "migrations_dir"}

  // Names of which none begins another.
  lemma NamesApart(b: string, s: nat, name: string, key: string)
    requires name in NAMES && IsKey(key) && At(b, s, name) && At(b, s, key)
    ensures name == key
  {
    hide At;
    InPlace(b, s, name);
    InPlace(b, s, key);
    assert b[s] == name[0] == key[0];
    if |name| > 9 && |key| > 9 {
      assert b[s + 9] == name[9] == key[9];
    }
  }

  lemma NameStarts(name: string)
    requires name in NAMES
    ensures name != "" && !IsReSpace(name[0]) && name[0] != '['
  {
  }

  // A line that assigns to a name matches that key and value only.
  lemma AssignmentMatches(b: string, s: nat, name: string, v: string, key: string, value: string)
    requires name in NAMES && IsKey(key) && IsLine(v) && IsLine(value)
    requires At(b, s, name + (" = " + TomlString(v)))
    requires var e := s + |name + (" = " + TomlString(v))|; e == |b| || b[e] == '\n'
    requires MatchesFrom(b, s, key, TomlString(value))
    ensures name == key && v == value
  {
    hide At, IsLine, TomlString, EndsLine, SkipRe, IsReSpace;
    var own, other := TomlString(v), TomlString(value);
    AtConcat(b, s, name, " = " + own);
    NameStarts(name);
    InPlace(b, s, name);
    assert b[s] == name[0];
    StaysAt(b, s);
    NamesApart(b, s, name, key);
    var p := s + |key|;
    AtConcat(b, p, " = ", own);
    InPlace(b, p, " = ");
    TomlStringEnds(v);
    InPlace(b, p + 3, own);
    assert b[p + 3] == own[0];
    BetweenAssignment(b, p);
    EscapeKeepsLine(v);
    EscapeKeepsLine(value);
    OneLiteral(b, p + 3, own, other);
    TomlStringInjective(v, value);
  }

  lemma StaysAt(b: string, s: nat)
    requires s < |b| && !IsReSpace(b[s])
    ensures SkipRe(b, s) == s
  {
  }

  lemma TomlStringEnds(v: string)
    ensures TomlString(v) != "" && TomlString(v)[0] == '"' && TomlString(v)[|TomlString(v)| - 1] == '"'
  {
  }

  lemma BetweenAssignment(b: string, p: nat)
    requires p + 3 < |b| && b[p] == ' ' && b[p + 1] == '=' && b[p + 2] == ' ' && b[p + 3] == '"'
    ensures SkipRe(b, p) == p + 1 && SkipRe(b, p + 2) == p + 3
  {
    assert SkipRe(b, p + 1) == p + 1 && SkipRe(b, p + 3) == p + 3;
  }

  lemma HeaderMatchesNot(b: string, s: nat, key: string, literal: string)
    requires IsKey(key) && At(b, s, HEADER)
    ensures !MatchesFrom(b, s, key, literal)
  {
    InPlace(b, s, HEADER);
    assert b[s] == '[';
    NotInPlace(b, s, key);
  }

  lemma NotInPlace(b: string, s: nat, w: string)
    requires s < |b| && w != "" && b[s] != w[0]
    ensures !At(b, s, w)
  {
    assert s + |w| <= |b| ==> b[s..s + |w|][0] == b[s];
  }

  function NameOf(k: nat): string {
    if k == 1 then "binding" else if k == 2 then "database_name" else if k == 3 then "database_id" else "migrations_dir"
  }

  function ValueAt(entry: Entry, k: nat): string {
    if k == 1 then entry.binding
    else if k == 2 then entry.databaseName
    else if k == 3 then entry.databaseId
    else entry.migrationsDir
  }

  lemma EntryAssigns(entry: Entry, k: nat)
    requires k < |EntryLines(entry)|
    ensures k == 0 ==> EntryLines(entry)[k] == HEADER
    ensures k > 0 ==> EntryLines(entry)[k] == NameOf(k) + (" = " + TomlString(ValueAt(entry, k)))
    ensures NameOf(k) in NAMES && (Clean(entry) ==> IsLine(ValueAt(entry, k)))
  {
    hide TomlString, TrimSpace, IsLine;
    var v := TomlString(ValueAt(entry, k));
    Assoc(NameOf(k), " = ", v);
    assert "binding = " == "binding" + " = " && "database_name = " == "database_name" + " = ";
    assert "database_id = " == "database_id" + " = " && "migrations_dir = " == "migrations_dir" + " = ";
  }

  lemma OwnIs(entry: Entry, key: string, k: nat)
    requires IsKey(key) && 0 < k <= 4 && NameOf(k) == key
    ensures ValueAt(entry, k) == Own(entry, key)
  {
  }

  lemma FoundByOwnOnly(entry: Entry, key: string, value: string)
    requires Clean(entry) && IsKey(key) && IsLine(value) && Trimmed(value)
    requires BlockHas(Join(EntryLines(entry)), key, value)
    ensures value == Own(entry, key)
  {
    hide *;
    EntryIsLines(entry);
    TrimmedFacts(value);
    var i := MatchOf(Join(EntryLines(entry)), key, value);
    EntryNotEmpty(entry);
    StartOf(Join(EntryLines(entry)), i, key, TomlString(value));
    var k := LineAt(EntryLines(entry), i);
    EntryAssigns(entry, k);
    if k == 0 {
      HeaderMatchesNot(Join(EntryLines(entry)), i, key, TomlString(value));
    } else {
      AssignmentMatches(Join(EntryLines(entry)), i, NameOf(k), ValueAt(entry, k), key, value);
      OwnIs(entry, key, k);
    }
  }

  lemma MatchOf(b: string, key: string, value: string) returns (i: nat)
    requires BlockHas(b, key, value)
    ensures i <= |b| && MatchesFrom(b, i, key, TomlString(TrimSpace(value)))
  {
    hide MatchesFrom, TrimSpace, TomlString;
    i :| i <= |b| && MatchesFrom(b, i, key, TomlString(TrimSpace(value)));
  }

  lemma StartOf(b: string, i: nat, key: string, literal: string)
    requires MatchesFrom(b, i, key, literal)
    ensures i <= |b| && AtLineStart(b, i)
  {
    hide KeyFrom;
  }

  // ---------------------------------------------------------------- two blocks with one value

  function Assignment(key: string, value: string): string {
    key + (" = " + TomlString(value))
  }

  function Block(key: string, value: string): seq<string> {
    [HEADER, Assignment(key, value)]
  }

  lemma AssignmentFacts(key: string, value: string)
    requires IsKey(key) && IsLine(value)
    ensures var a := Assignment(key, value);
            IsLine(a) && a != "" && !OpensSection(a) && !IsHeader(a) && IsLine(HEADER)
  {
    hide TomlString, IsSpace, OpensSection, IsHeader, TrimSpace;
    EscapeKeepsLine(value);
    Letters();
    var a := Assignment(key, value);
    assert a[0] == key[0];
    Unindented(a, key[0]);
    if IsHeader(a) {
      HeaderOpensSection(a);
    }
  }

  // The block at p, two lines long but for empty ones, is found by its value.
  lemma BlockFound(lines: seq<string>, p: nat, n: nat, key: string, value: string)
    requires IsKey(key) && IsLine(value) && Trimmed(value) && value != ""
    requires p + 2 <= n <= |lines| && BlockEnd(lines, p + 1) == n
    requires lines[p] == HEADER && lines[p + 1] == Assignment(key, value)
    ensures IsMatch(lines, p, key, value)
  {
    hide *;
    HeaderIsHeader();
    SecondLine(lines, p, n, key, value);
    LineMatches(lines[p..n], 1, key, value);
    MatchIs(lines, p, n, key, value);
  }

  lemma SecondLine(lines: seq<string>, p: nat, n: nat, key: string, value: string)
    requires p + 2 <= n <= |lines| && lines[p + 1] == Assignment(key, value)
    ensures |lines[p..n]| >= 2 && lines[p..n][1] == key + (" = " + TomlString(value))
  {
    hide TomlString;
  }

  lemma MatchIs(lines: seq<string>, p: nat, n: nat, key: string, value: string)
    requires p < n <= |lines| && BlockEnd(lines, p + 1) == n
    ensures IsMatch(lines, p, key, value) <==> IsHeader(lines[p]) && BlockHas(Join(lines[p..n]), key, value)
  {
    hide BlockEnd, BlockHas, IsHeader, Join;
  }

  lemma ShortBlock(lines: seq<string>, p: nat, n: nat)
    requires p <= n <= |lines| && (n < |lines| ==> OpensSection(lines[n]))
    requires forall k :: p <= k < n ==> !OpensSection(lines[k])
    ensures BlockEnd(lines, p) == n
  {
    hide OpensSection, BlockEnd;
    BlockEndIs(lines, p, n);
  }

  lemma {:induction false} BlockEndIs(lines: seq<string>, p: nat, n: nat)
    requires p <= n <= |lines| && (n < |lines| ==> OpensSection(lines[n]))
    requires forall k :: p <= k < n ==> !OpensSection(lines[k])
    ensures BlockEnd(lines, p) == n
    decreases n - p
  {
    hide OpensSection;
    if p < n {
      BlockEndIs(lines, p + 1, n);
    }
  }

  // One replacement, in lines that end in none that is empty.
  lemma ReplacedAt(lines: seq<string>, m: nat, entry: Entry, key: string, value: string, written: seq<string>)
    requires lines != [] && AreLines(lines) && Clean(entry) && m < |lines| && IsMatch(lines, m, key, value)
    requires forall p :: 0 <= p < m ==> !IsMatch(lines, p, key, value)
    requires written == lines[..m] + EntryLines(entry) + lines[BlockEnd(lines, m + 1)..]
    requires AreLines(written) && written != [] && written[|written| - 1] != ""
    ensures ReplacedByKey(Join(lines), entry, key, value) == Some(Join(written) + "\n")
  {
    hide *;
    SplitJoin(lines);
    FirstMatchIs(lines, m, key, value);
    ReplacedFacts(Join(lines), entry, key, value);
    ReplacementIsEntry(entry);
    var w := RewrittenIs(lines, m, entry);
    TrimNewlinesIsTrimLines(written);
    TrimLinesFacts(written);
  }

  lemma FirstDecides(content: string, entry: Entry, previousId: string, previousBinding: string)
    ensures var live := Live(Attempts(entry, previousId, previousBinding));
            && (live == [] ==> Upserted(content, entry, previousId, previousBinding) == Appended(content, entry))
            && (live != [] ==>
                  var first := ReplacedByKey(content, entry, live[0].key, TrimSpace(live[0].value));
                  first.Some? ==> Upserted(content, entry, previousId, previousBinding) == first.value)
  {
    hide ReplacedByKey, Live, Appended, TrimSpace;
    BlankAttempts(content, entry, Attempts(entry, previousId, previousBinding));
  }

  // A file with two blocks of the value: the first run rewrites the one, the second
  // run, which does not find the entry's own block by it, the other.
  lemma TwoBlocks(entry: Entry, key: string, value: string)
    requires Clean(entry) && IsKey(key) && IsLine(value) && Trimmed(value) && value != "" && value != Own(entry, key)
    ensures var e, block := EntryLines(entry), Block(key, value);
            && ReplacedByKey(Join(block + block), entry, key, value) == Some(Join(e + block) + "\n")
            && ReplacedByKey(Join(e + block) + "\n", entry, key, value) == Some(Join(e + e) + "\n")
            && Join(e + block) + "\n" != Join(e + e) + "\n"
  {
    hide *;
    FirstOfTwo(entry, key, value);
    SecondOfTwo(entry, key, value);
    NotTheSame(entry, key, value);
  }

  lemma FirstOfTwo(entry: Entry, key: string, value: string)
    requires Clean(entry) && IsKey(key) && IsLine(value) && Trimmed(value) && value != ""
    ensures var e, block := EntryLines(entry), Block(key, value);
            ReplacedByKey(Join(block + block), entry, key, value) == Some(Join(e + block) + "\n")
  {
    hide *;
    AssignmentFacts(key, value);
    HeaderIsHeader();
    EntryIsLines(entry);
    var e := EntryLines(entry);
    var lines := BlockTwice(key, value);
    ShortBlock(lines, 1, 2);
    BlockFound(lines, 0, 2, key, value);
    var written := BlockAfter(e, key, value);
    assert lines[..0] + e + lines[2..] == written;
    LinesOf(lines);
    ReplacedAt(lines, 0, entry, key, value, written);
  }

  lemma LinesOf(lines: seq<string>)
    requires forall k :: 0 <= k < |lines| ==> IsLine(lines[k])
    ensures AreLines(lines)
  {
    hide IsLine;
  }

  lemma BlockTwice(key: string, value: string) returns (lines: seq<string>)
    ensures lines == Block(key, value) + Block(key, value)
         == [HEADER, Assignment(key, value), HEADER, Assignment(key, value)]
    ensures lines[2..] == Block(key, value)
  {
    hide Assignment;
    lines := Block(key, value) + Block(key, value);
  }

  // A block of the value after other lines.
  lemma BlockAfter(e: seq<string>, key: string, value: string) returns (lines: seq<string>)
    ensures lines == e + Block(key, value) && |lines| == |e| + 2 && lines[..|e|] == e
    ensures lines[|e|] == HEADER && lines[|e| + 1] == Assignment(key, value)
    ensures forall k :: 0 <= k < |e| ==> lines[k] == e[k]
    ensures AreLines(e) && IsLine(HEADER) && IsLine(Assignment(key, value)) ==> AreLines(lines)
  {
    hide Assignment, IsLine;
    lines := e + Block(key, value);
  }

  lemma SecondOfTwo(entry: Entry, key: string, value: string)
    requires Clean(entry) && IsKey(key) && IsLine(value) && Trimmed(value) && value != "" && value != Own(entry, key)
    ensures var e, block := EntryLines(entry), Block(key, value);
            ReplacedByKey(Join(e + block) + "\n", entry, key, value) == Some(Join(e + e) + "\n")
  {
    hide *;
    AssignmentFacts(key, value);
    HeaderIsHeader();
    EntryIsLines(entry);
    EntryOpens(entry);
    EmptyIsLine();
    var e := EntryLines(entry);
    var n := |e|;
    var most := BlockAfter(e, key, value);
    var lines := most + [""];
    JoinSnoc(most, "");
    NoMore("\n");
    LinesSnoc(most);
    ShortBlock(lines, n + 1, n + 3);
    BlockFound(lines, n, n + 3, key, value);
    forall p | 0 <= p < n
      ensures !IsMatch(lines, p, key, value)
    {
      if p == 0 {
        ShortBlock(lines, 1, n);
        OwnNotFound(entry, lines, key, value);
      } else {
        NotAHeader(lines, p, key, value);
      }
    }
    var written := e + e;
    assert lines[..n] == e && lines[n + 3..] == [];
    assert lines[..n] + e + lines[n + 3..] == written;
    Doubled(e);
    ReplacedAt(lines, n, entry, key, value, written);
  }

  lemma NoMore(s: string)
    ensures s + "" == s
  {
  }

  lemma Doubled(e: seq<string>)
    requires AreLines(e) && e != []
    ensures AreLines(e + e) && (e + e)[|e + e| - 1] == e[|e| - 1]
  {
    hide IsLine;
  }

  lemma NotAHeader(lines: seq<string>, p: nat, key: string, value: string)
    requires p < |lines| && !OpensSection(lines[p])
    ensures !IsMatch(lines, p, key, value)
  {
    hide OpensSection, BlockHas, IsHeader;
    if IsHeader(lines[p]) {
      HeaderOpensSection(lines[p]);
    }
  }

  lemma OwnNotFound(entry: Entry, lines: seq<string>, key: string, value: string)
    requires Clean(entry) && IsKey(key) && IsLine(value) && Trimmed(value) && value != Own(entry, key)
    requires |EntryLines(entry)| <= |lines| && lines[..|EntryLines(entry)|] == EntryLines(entry)
    requires lines != [] && BlockEnd(lines, 1) == |EntryLines(entry)|
    ensures !IsMatch(lines, 0, key, value)
  {
    hide BlockHas, IsHeader, Join, EntryLines, Clean, Own, Trimmed, BlockEnd;
    if BlockHas(Join(EntryLines(entry)), key, value) {
      FoundByOwnOnly(entry, key, value);
    }
    assert lines[0..|EntryLines(entry)|] == EntryLines(entry);
  }

  lemma NotTheSame(entry: Entry, key: string, value: string)
    requires Clean(entry) && IsKey(key) && IsLine(value)
    ensures var e, block := EntryLines(entry), Block(key, value);
            Join(e + block) + "\n" != Join(e + e) + "\n"
  {
    hide *;
    AssignmentFacts(key, value);
    EntryIsLines(entry);
    var e := EntryLines(entry);
    var a := BlockAfter(e, key, value);
    Doubled(e);
    SplitJoin(a);
    SplitJoin(e + e);
    SameStart(Join(a), Join(e + e), "\n");
  }

  // ---------------------------------------------------------------- nothing to look for

  // Without ids and bindings every run appends.
  lemma AppendsAgain(entry: Entry)
    requires Clean(entry)
    ensures Appended(Appended("", entry), entry) != Appended("", entry)
  {
    hide TrimSpace, Join, EntryLines, Toml, Clean;
    ReplacementIsEntry(entry);
    BlankText();
    EntryNotBlank(entry);
    assert TrimNewlines("") == "";
    assert Appended("", entry) == Toml(entry);
    assert |Appended(Toml(entry), entry)| > |Toml(entry)|;
  }

  lemma BlankText()
    ensures TrimSpace("") == ""
  {
  }

  lemma EntryNotBlank(entry: Entry)
    requires Clean(entry)
    ensures TrimSpace(Join(EntryLines(entry))) != ""
  {
    hide EntryLines, Join, TrimSpace, At, Clean;
    EntryNotEmpty(entry);
    EntryAssigns(entry, 0);
    FirstLine(EntryLines(entry));
    InPlace(Join(EntryLines(entry)), 0, HEADER);
    OpensWith(Join(EntryLines(entry)));
  }

  lemma OpensWith(b: string)
    requires b != "" && b[0] == '['
    ensures TrimSpace(b) != ""
  {
    assert TrimLeft(b) == b;
    assert !IsSpace(b[0]);
    assert TrimRight(b) != "";
  }

  // ---------------------------------------------------------------- the theorem

  lemma OtherValue(entry: Entry, previousId: string, previousBinding: string)
    requires Live(Attempts(entry, previousId, previousBinding)) != [] && !Anchored(entry, previousId, previousBinding)
    ensures var first := Live(Attempts(entry, previousId, previousBinding))[0];
            && IsKey(first.key)
            && TrimSpace(first.value) != "" && TrimSpace(first.value) != Own(entry, first.key)
  {
    hide TrimSpace, Trimmed;
    var all := Attempts(entry, previousId, previousBinding);
    assert all[1..][1..] == all[2..] && all[2..][1..] == all[3..] && all[3..][1..] == [];
    forall v: string
      ensures Trimmed(v) <==> TrimSpace(v) == v
      ensures Trimmed(TrimSpace(v))
    {
      TrimmedFacts(v);
    }
    LiveIs(all);
    LiveIs(all[1..]);
    LiveIs(all[2..]);
    LiveIs(all[3..]);
    LiveIs([]);
  }

  lemma FirstIsLine(entry: Entry, previousId: string, previousBinding: string)
    requires Clean(entry) && IsLine(previousId) && IsLine(previousBinding)
    requires Live(Attempts(entry, previousId, previousBinding)) != []
    ensures IsLine(TrimSpace(Live(Attempts(entry, previousId, previousBinding))[0].value))
  {
    hide TrimSpace, IsLine;
    var all := Attempts(entry, previousId, previousBinding);
    assert all[1..][1..] == all[2..] && all[2..][1..] == all[3..] && all[3..][1..] == [];
    LiveIs(all);
    LiveIs(all[1..]);
    LiveIs(all[2..]);
    LiveIs(all[3..]);
    LiveIs([]);
    TrimKeepsLine(Live(all)[0].value);
  }

  lemma TrimKeepsLine(v: string)
    requires IsLine(v)
    ensures IsLine(TrimSpace(v))
  {
    var left := TrimLeft(v);
    assert forall c :: c in left ==> c in v;
    assert forall c :: c in TrimRight(left) ==> c in left;
  }

  // A file on which a second run changes what the first one wrote.
  function Unsettled(entry: Entry, previousId: string, previousBinding: string): string {
    var live := Live(Attempts(entry, previousId, previousBinding));
    if live == [] then ""
    else
      var block := Block(live[0].key, TrimSpace(live[0].value));
      Join(block + block)
  }

  lemma UnsettledChanges(entry: Entry, previousId: string, previousBinding: string)
    requires Clean(entry) && IsLine(previousId) && IsLine(previousBinding)
    requires !Anchored(entry, previousId, previousBinding)
    ensures var once := Upserted(Unsettled(entry, previousId, previousBinding), entry, previousId, previousBinding);
            Upserted(once, entry, previousId, previousBinding) != once
  {
    hide *;
    var content := Unsettled(entry, previousId, previousBinding);
    var once := Upserted(content, entry, previousId, previousBinding);
    FirstDecides(content, entry, previousId, previousBinding);
    FirstDecides(once, entry, previousId, previousBinding);
    UnsettledIs(entry, previousId, previousBinding);
    var live := Live(Attempts(entry, previousId, previousBinding));
    if live == [] {
      AppendsAgain(entry);
    } else {
      OtherValue(entry, previousId, previousBinding);
      FirstIsLine(entry, previousId, previousBinding);
      TrimmedFacts(live[0].value);
      TwoBlocks(entry, live[0].key, TrimSpace(live[0].value));
    }
  }

  lemma UnsettledIs(entry: Entry, previousId: string, previousBinding: string)
    ensures var live := Live(Attempts(entry, previousId, previousBinding));
            && (live == [] ==> Unsettled(entry, previousId, previousBinding) == "")
            && (live != [] ==>
                  var block := Block(live[0].key, TrimSpace(live[0].value));
                  Unsettled(entry, previousId, previousBinding) == Join(block + block))
  {
    hide Live, TrimSpace, Block, Join;
  }

  // The upsert is idempotent on every file exactly when the entry has a trimmed
  // database id, or a trimmed binding and neither a database id nor a previous one.
  lemma UpsertIdempotentIff(entry: Entry, previousId: string, previousBinding: string)
    requires Clean(entry) && IsLine(previousId) && IsLine(previousBinding)
    ensures (forall content ::
               (var once := Upserted(content, entry, previousId, previousBinding);
                Upserted(once, entry, previousId, previousBinding) == once))
       <==> || HasOwn(entry, DATABASE_ID)
            || (TrimSpace(entry.databaseId) == "" && TrimSpace(previousId) == "" && HasOwn(entry, BINDING))
  {
    hide *;
    AnchoredIff(entry, previousId, previousBinding);
    if Anchored(entry, previousId, previousBinding) {
      forall content
        ensures var once := Upserted(content, entry, previousId, previousBinding);
                Upserted(once, entry, previousId, previousBinding) == once
      {
        UpsertIdempotent(content, entry, previousId, previousBinding);
      }
    } else {
      UnsettledChanges(entry, previousId, previousBinding);
    }
  }
}
