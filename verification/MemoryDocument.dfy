// The composed memory document, line by line: what the parser makes of each line,
// and the round trip of the whole document.
module MemoryDocument {
  import opened Text
  import opened TomlText
  import D = Decimal
  import opened Wrappers
  import opened MemoryMarkdown
  import opened MemoryFields

  // ---------------------------------------------------------------- fixed lines

  // A line the parser passes over.
  predicate Inert(line: string) {
    && Tidy(line)
    && !At(line, 0, TITLE)
    && !At(line, 0, SIGNALS) && !At(line, 0, AVOID) && !At(line, 0, DO)
    && !At(line, 0, WHY) && !At(line, 0, USE)
  }

  predicate AllInert(lines: seq<string>) {
    forall i :: 0 <= i < |lines| ==> Inert(lines[i])
  }

  lemma NotAt(line: string, w: string, k: nat)
    requires k < |w| && k < |line| && line[k] != w[k]
    ensures !At(line, 0, w)
  {
    AtRune(line, w, k);
  }

  lemma AtRune(line: string, w: string, k: nat)
    requires k < |w|
    ensures At(line, 0, w) ==> k < |line| && line[k] == w[k]
  {
    if At(line, 0, w) {
      assert line[k] == line[0..|w|][k];
    }
  }

  lemma HeadingInert(line: string)
    requires Tidy(line) && |line| > 3 && line[0] == '#' && (line[1] != '#' || line[2] != '#')
    ensures Inert(line)
  {
    hide Tidy, At;
    NotAt(line, TITLE, if line[1] != '#' then 1 else 2);
    NotAt(line, SIGNALS, 0);
    NotAt(line, AVOID, 0);
    NotAt(line, DO, 0);
    NotAt(line, WHY, 0);
    NotAt(line, USE, 0);
  }

  lemma BulletInert(line: string)
    requires Tidy(line) && |line| > 3 && line[0] == '-'
    requires line[2] != 'S' && line[2] != 'D' && line[2] != 'W' && line[2] != 'U'
    requires line[2] != 'A' || line[3] != 'v'
    ensures Inert(line)
  {
    hide Tidy, At;
    NotAt(line, TITLE, 0);
    NotAt(line, SIGNALS, 2);
    NotAt(line, AVOID, if line[2] != 'A' then 2 else 3);
    NotAt(line, DO, 2);
    NotAt(line, WHY, 2);
    NotAt(line, USE, 2);
  }

  lemma EmptyInert()
    ensures Inert("")
  {
  }

  // The two pieces a fixed bullet is written in.
  predicate Opening(a: string) {
    && IsLine(a) && |a| > 3 && a[0] == '-'
    && a[2] != 'S' && a[2] != 'D' && a[2] != 'W' && a[2] != 'U' && (a[2] != 'A' || a[3] != 'v')
  }

  predicate Closing(b: string) {
    IsLine(b) && b != "" && b[|b| - 1] == '.'
  }

  lemma PieceBullet(a: string, b: string)
    requires Opening(a) && Closing(b)
    ensures Inert(a + b)
  {
    hide Inert, IsSpace;
    OneBlank();
    BulletInert(a + b);
  }

  lemma PatternsOpening()
    ensures Opening("- Keep long-term memory as reusable ")
  {
  }

  lemma PatternsClosing()
    ensures Closing("patterns, not raw event logs.")
  {
  }

  lemma PatternsBullet()
    ensures Inert(PATTERNS_BULLET)
  {
    hide Inert, Opening, Closing;
    PatternsOpening();
    PatternsClosing();
    PieceBullet("- Keep long-term memory as reusable ", "patterns, not raw event logs.");
  }

  lemma EvidenceOpening()
    ensures Opening("- Prefer the minimal sufficient evidence ")
  {
  }

  lemma EvidenceClosing()
    ensures Closing("source before using higher-cost tools.")
  {
  }

  lemma EvidenceBullet()
    ensures Inert(EVIDENCE_BULLET)
  {
    hide Inert, Opening, Closing;
    EvidenceOpening();
    EvidenceClosing();
    PieceBullet("- Prefer the minimal sufficient evidence ", "source before using higher-cost tools.");
  }

  lemma EvolutionOpening()
    ensures Opening("- Automatic memory ")
  {
  }

  lemma EvolutionClosing()
    ensures Closing("evolution is active.")
  {
  }

  lemma EvolutionBullet()
    ensures Inert(EVOLUTION_BULLET)
  {
    hide Inert, Opening, Closing;
    EvolutionOpening();
    EvolutionClosing();
    PieceBullet("- Automatic memory ", "evolution is active.");
  }

  lemma ArchiveOpening()
    ensures Opening("- Cold patterns may be moved to memory/")
  {
  }

  lemma ArchiveClosing()
    ensures Closing("*.md when the active budget is exceeded.")
  {
  }

  lemma ArchiveBullet()
    ensures Inert(ARCHIVE_BULLET)
  {
    hide Inert, Opening, Closing;
    ArchiveOpening();
    ArchiveClosing();
    PieceBullet("- Cold patterns may be moved to memory/", "*.md when the active budget is exceeded.");
  }

  lemma HeadHeadings()
    ensures Inert("# MEMORY") && Inert("## Core Principles") && Inert("## Active Patterns")
  {
    hide Inert;
    HeadingInert("# MEMORY");
    HeadingInert("## Core Principles");
    HeadingInert("## Active Patterns");
  }

  lemma FootHeadings()
    ensures Inert("## Recent Adjustments") && Inert("## Archive Hints")
  {
    hide Inert;
    HeadingInert("## Recent Adjustments");
    HeadingInert("## Archive Hints");
  }

  lemma HeadInert()
    ensures AllInert(HEAD)
  {
    hide Inert, PATTERNS_BULLET, EVIDENCE_BULLET;
    EmptyInert();
    HeadHeadings();
    PatternsBullet();
    EvidenceBullet();
  }

  lemma FootInert()
    ensures AllInert(FOOT)
  {
    hide Inert, EVOLUTION_BULLET, ARCHIVE_BULLET;
    EmptyInert();
    FootHeadings();
    EvolutionBullet();
    ArchiveBullet();
  }

  lemma NoneYetInert()
    ensures AllInert([NONE_YET])
  {
    hide Inert;
    BulletInert(NONE_YET);
  }

  lemma InertRead(norm: Sanitizer, st: State, line: string)
    requires Inert(line)
    ensures ReadLine(norm, st, line) == st
  {
    hide At, SplitList, After;
    assert TrimSpace(line) == line;
  }

  lemma {:induction false} InertsRead(norm: Sanitizer, st: State, lines: seq<string>)
    requires AllInert(lines)
    ensures ReadLines(norm, st, lines) == st
  {
    hide Inert, ReadLine;
    if lines != [] {
      InertsRead(norm, st, lines[..|lines| - 1]);
      InertRead(norm, st, lines[|lines| - 1]);
    }
  }

  // ---------------------------------------------------------------- pattern lines

  lemma {:induction false} NormalizeGoodList(norm: Sanitizer, values: seq<string>)
    requires forall i :: 0 <= i < |values| ==> GoodText(norm, values[i])
    ensures NormalizeList(norm, values) == values
  {
    hide IsLine, Trimmed;
    if values != [] {
      assert GoodText(norm, values[0]);
      NormalizeGoodList(norm, values[1..]);
      assert [values[0]] + values[1..] == values;
    }
  }

  lemma FinalizeGood(norm: Sanitizer, p: Printed)
    requires Good(norm, p)
    ensures Finalize(norm, NoteOf(p)) == NoteOf(p)
    ensures TrimSpace(p.pattern.problem) != ""
  {
    hide NormalizeList, IsLine, TrimSpace;
    NormalizeGoodList(norm, p.pattern.signals);
    NormalizeGoodList(norm, p.pattern.avoid);
    NormalizeGoodList(norm, p.pattern.advice);
  }

  lemma FlushGood(norm: Sanitizer, notes: seq<Note>, p: Printed)
    requires Good(norm, p)
    ensures Flush(norm, State(notes, Some(NoteOf(p)))) == notes + [NoteOf(p)]
  {
    hide TrimSpace, Good, Finalize;
    FinalizeGood(norm, p);
  }

  // The line of a label and a trimmed text is itself, and After gives the text.
  lemma LabelLine(mark: string, text: string)
    requires mark != "" && !IsSpace(mark[0]) && text != "" && Trimmed(text)
    ensures |mark| <= |mark + text| && After(mark + text, mark) == text
    ensures TrimSpace(mark + text) == mark + text && At(mark + text, 0, mark)
  {
    hide IsSpace;
    LabelTrimmed(mark, text);
  }

  lemma LabelsDiffer(a: string, b: string, text: string, k: nat)
    requires k < |a| && k < |b| && a[k] != b[k]
    ensures !At(a + text, 0, b)
  {
    NotAt(a + text, b, k);
  }

  lemma TitleRead(norm: Sanitizer, st: State, text: string)
    requires text != "" && Trimmed(text)
    ensures ReadLine(norm, st, TITLE + text) == State(Flush(norm, st), Some(Note(text, [], [], [], "", 0)))
  {
    hide At, After, TrimSpace, Flush, IsSpace, Trimmed;
    OneBlank();
    LabelLine(TITLE, text);
  }

  lemma SignalsRead(norm: Sanitizer, notes: seq<Note>, n: Note, values: seq<string>)
    requires GoodList(norm, values)
    ensures ReadLine(norm, State(notes, Some(n)), SIGNALS + JoinList(values))
         == State(notes, Some(n.(signals := values)))
  {
    hide At, After, TrimSpace, Flush, IsSpace, Trimmed, JoinList, SplitList, GoodList;
    OneBlank();
    ListRoundTrip(norm, values);
    LabelLine(SIGNALS, JoinList(values));
    LabelsDiffer(SIGNALS, TITLE, JoinList(values), 0);
  }

  lemma AvoidRead(norm: Sanitizer, notes: seq<Note>, n: Note, values: seq<string>)
    requires GoodList(norm, values)
    ensures ReadLine(norm, State(notes, Some(n)), AVOID + JoinList(values))
         == State(notes, Some(n.(avoid := values)))
  {
    hide At, After, TrimSpace, Flush, IsSpace, Trimmed, JoinList, SplitList, GoodList;
    OneBlank();
    ListRoundTrip(norm, values);
    LabelLine(AVOID, JoinList(values));
    LabelsDiffer(AVOID, TITLE, JoinList(values), 0);
    LabelsDiffer(AVOID, SIGNALS, JoinList(values), 2);
  }

  lemma DoRead(norm: Sanitizer, notes: seq<Note>, n: Note, values: seq<string>)
    requires GoodList(norm, values)
    ensures ReadLine(norm, State(notes, Some(n)), DO + JoinList(values))
         == State(notes, Some(n.(advice := values)))
  {
    hide At, After, TrimSpace, Flush, IsSpace, Trimmed, JoinList, SplitList, GoodList;
    OneBlank();
    ListRoundTrip(norm, values);
    LabelLine(DO, JoinList(values));
    LabelsDiffer(DO, TITLE, JoinList(values), 0);
    LabelsDiffer(DO, SIGNALS, JoinList(values), 2);
    LabelsDiffer(DO, AVOID, JoinList(values), 2);
  }

  lemma WhyRead(norm: Sanitizer, notes: seq<Note>, n: Note, p: Printed)
    requires GoodText(norm, p.pattern.why)
    ensures ReadLine(norm, State(notes, Some(n)), WHY + WhyText(p)) == State(notes, Some(n.(why := p.pattern.why)))
  {
    hide At, After, TrimSpace, Flush, IsSpace, IsLine, Trimmed;
    OneBlank();
    assert WhyText(p) == p.pattern.why;
    LabelLine(WHY, p.pattern.why);
    LabelsDiffer(WHY, TITLE, p.pattern.why, 0);
    LabelsDiffer(WHY, SIGNALS, p.pattern.why, 2);
    LabelsDiffer(WHY, AVOID, p.pattern.why, 2);
    LabelsDiffer(WHY, DO, p.pattern.why, 2);
  }

  lemma UseRead(norm: Sanitizer, notes: seq<Note>, n: Note, p: Printed)
    requires PlainText(p.confidence) && PlainText(p.lastUsed) && p.pattern.useCount <= D.INT64_MAX && n.useCount == 0
    ensures ReadLine(norm, State(notes, Some(n)), USE + UseText(p))
         == State(notes, Some(n.(useCount := Count(p))))
  {
    hide At, After, TrimSpace, Flush, IsSpace, Trimmed, UseText, UseCount, PlainText;
    OneBlank();
    UseRoundTrip(p);
    var text := UseText(p);
    LabelLine(USE, text);
    LabelsDiffer(USE, TITLE, text, 0);
    LabelsDiffer(USE, SIGNALS, text, 2);
    LabelsDiffer(USE, AVOID, text, 2);
    LabelsDiffer(USE, DO, text, 2);
    LabelsDiffer(USE, WHY, text, 2);
  }

  lemma ReadCons(norm: Sanitizer, st: State, line: string, rest: seq<string>)
    ensures ReadLines(norm, st, [line] + rest) == ReadLines(norm, ReadLine(norm, st, line), rest)
  {
    hide ReadLine, ReadLines;
    ReadConcat(norm, st, [line], rest);
    ReadOne(norm, st, line);
  }

  // The seven lines of a pattern close the one before and leave this one current.
  lemma PatternRead(norm: Sanitizer, st: State, p: Printed)
    requires Good(norm, p)
    ensures ReadLines(norm, st, PatternLines(p)) == State(Flush(norm, st), Some(NoteOf(p)))
  {
    hide ReadLine, ReadLines, Flush, JoinList, WhyText, UseText, GoodText, GoodList, PlainText, Count;
    hide TITLE, SIGNALS, AVOID, DO, WHY, USE;
    var lines := PatternLines(p);
    var notes := Flush(norm, st);
    ProblemTrimmed(norm, p.pattern.problem);
    TitleRead(norm, st, p.pattern.problem);
    var n := Note(p.pattern.problem, [], [], [], "", 0);
    SignalsRead(norm, notes, n, p.pattern.signals);
    n := n.(signals := p.pattern.signals);
    AvoidRead(norm, notes, n, p.pattern.avoid);
    n := n.(avoid := p.pattern.avoid);
    DoRead(norm, notes, n, p.pattern.advice);
    n := n.(advice := p.pattern.advice);
    WhyRead(norm, notes, n, p);
    n := n.(why := p.pattern.why);
    UseRead(norm, notes, n, p);
    n := n.(useCount := Count(p));
    EmptyInert();
    InertRead(norm, State(notes, Some(n)), "");
    ReadSeven(norm, st, lines);
  }

  lemma ProblemTrimmed(norm: Sanitizer, t: string)
    requires GoodText(norm, t)
    ensures t != "" && Trimmed(t)
  {
  }

  lemma ReadSeven(norm: Sanitizer, st: State, l: seq<string>)
    requires |l| == 7
    ensures var s1 := ReadLine(norm, st, l[0]);
            var s2 := ReadLine(norm, s1, l[1]);
            var s3 := ReadLine(norm, s2, l[2]);
            var s4 := ReadLine(norm, s3, l[3]);
            var s5 := ReadLine(norm, s4, l[4]);
            var s6 := ReadLine(norm, s5, l[5]);
            ReadLines(norm, st, l) == ReadLine(norm, s6, l[6])
  {
    hide ReadLine, ReadLines;
    var s1 := ReadLine(norm, st, l[0]);
    var s2 := ReadLine(norm, s1, l[1]);
    var s3 := ReadLine(norm, s2, l[2]);
    var s4 := ReadLine(norm, s3, l[3]);
    var s5 := ReadLine(norm, s4, l[4]);
    var s6 := ReadLine(norm, s5, l[5]);
    ReadNext(norm, st, l, 0);
    ReadNext(norm, s1, l, 1);
    ReadNext(norm, s2, l, 2);
    ReadNext(norm, s3, l, 3);
    ReadNext(norm, s4, l, 4);
    ReadNext(norm, s5, l, 5);
    assert l[0..] == l;
    assert l[6..] == [l[6]];
    ReadOne(norm, s6, l[6]);
  }

  lemma ReadNext(norm: Sanitizer, st: State, l: seq<string>, k: nat)
    requires k < |l|
    ensures ReadLines(norm, st, l[k..]) == ReadLines(norm, ReadLine(norm, st, l[k]), l[k + 1..])
  {
    hide ReadLine, ReadLines;
    ReadCons(norm, st, l[k], l[k + 1..]);
    assert l[k..] == [l[k]] + l[k + 1..];
  }

  // Reading the lines of good patterns adds their notes, the last one still current.
  lemma {:induction false} PatternsRead(norm: Sanitizer, st: State, ps: seq<Printed>)
    requires AllGood(norm, ps)
    ensures Flush(norm, ReadLines(norm, st, AllLines(ps))) == Flush(norm, st) + NotesOf(ps)
    decreases |ps|
  {
    hide ReadLines, Flush, Good, PatternLines, NoteOf;
    if ps == [] {
      ReadNothing(norm, st);
      assert Flush(norm, st) + [] == Flush(norm, st);
    } else {
      var p, rest := ps[0], ps[1..];
      var next := State(Flush(norm, st), Some(NoteOf(p)));
      PatternRead(norm, st, p);
      ReadConcat(norm, st, PatternLines(p), AllLines(rest));
      PatternsRead(norm, next, rest);
      FlushGood(norm, Flush(norm, st), p);
      AppendNote(Flush(norm, st), NoteOf(p), NotesOf(rest));
    }
  }

  lemma ReadNothing(norm: Sanitizer, st: State)
    ensures ReadLines(norm, st, []) == st
  {
  }

  lemma AppendNote(notes: seq<Note>, n: Note, rest: seq<Note>)
    ensures (notes + [n]) + rest == notes + ([n] + rest)
  {
  }

  // ---------------------------------------------------------------- the document

  lemma BodyRead(norm: Sanitizer, ps: seq<Printed>)
    requires AllGood(norm, ps)
    ensures Flush(norm, ReadLines(norm, START, BodyLines(ps))) == NotesOf(ps)
  {
    hide ReadLines, AllGood, AllLines;
    assert Flush(norm, START) == [];
    if ps == [] {
      NoneYetInert();
      InertsRead(norm, START, [NONE_YET]);
    } else {
      PatternsRead(norm, START, ps);
      assert [] + NotesOf(ps) == NotesOf(ps);
    }
  }

  // Reading the document's lines and the empty text after the last newline.
  lemma DocumentRead(norm: Sanitizer, ps: seq<Printed>)
    requires AllGood(norm, ps)
    ensures Flush(norm, ReadLines(norm, START, DocumentLines(ps) + [""])) == NotesOf(ps)
  {
    hide *;
    var body := BodyLines(ps);
    LinesAre(ps);
    HeadInert();
    FootInert();
    InertsRead(norm, START, HEAD);
    ReadConcat(norm, START, HEAD, body);
    var st := ReadLines(norm, START, body);
    ReadConcat(norm, START, HEAD + body, FOOT);
    InertsRead(norm, st, FOOT);
    ReadConcat(norm, START, DocumentLines(ps), [""]);
    EmptyInert();
    ReadOne(norm, st, "");
    InertRead(norm, st, "");
    BodyRead(norm, ps);
  }

  lemma LinesAre(ps: seq<Printed>)
    ensures DocumentLines(ps) == HEAD + BodyLines(ps) + FOOT
  {
  }

  // Every line of the document is tidy.
  lemma PatternTidy(norm: Sanitizer, p: Printed)
    requires Good(norm, p)
    ensures AllTidy(PatternLines(p))
  {
    hide Tidy, GoodText, GoodList, PlainText, JoinList, WhyText, UseText;
    hide TITLE, SIGNALS, AVOID, DO, WHY, USE;
    TitleTidy(norm, p.pattern.problem);
    ListTidy(norm, p.pattern.signals);
    ListTidy(norm, p.pattern.avoid);
    ListTidy(norm, p.pattern.advice);
    WhyTidy(norm, p);
    UseTidy(p);
    EmptyInert();
  }

  lemma MarkedTidy(mark: string, text: string)
    requires mark != "" && !IsSpace(mark[0]) && IsLine(mark) && text != "" && Trimmed(text) && IsLine(text)
    ensures Tidy(mark + text)
  {
    hide IsSpace;
  }

  lemma MarksAreLines()
    ensures IsLine(TITLE) && IsLine(SIGNALS) && IsLine(AVOID) && IsLine(DO) && IsLine(WHY) && IsLine(USE)
  {
  }

  lemma TitleTidy(norm: Sanitizer, text: string)
    requires GoodText(norm, text)
    ensures Tidy(TITLE + text)
  {
    hide Tidy, IsLine, IsSpace, Trimmed;
    OneBlank();
    MarksAreLines();
    MarkedTidy(TITLE, text);
  }

  lemma WhyTidy(norm: Sanitizer, p: Printed)
    requires GoodText(norm, p.pattern.why)
    ensures Tidy(WHY + WhyText(p))
  {
    hide Tidy, IsLine, IsSpace, Trimmed;
    OneBlank();
    MarksAreLines();
    MarkedTidy(WHY, p.pattern.why);
  }

  lemma {:induction false} BarsAreLine(norm: Sanitizer, values: seq<string>)
    requires forall i :: 0 <= i < |values| ==> GoodText(norm, values[i])
    ensures IsLine(JoinBars(values))
  {
    hide Trimmed;
    if |values| > 1 {
      BarsAreLine(norm, values[1..]);
    }
    if values != [] {
      assert GoodText(norm, values[0]);
    }
  }

  lemma ListTidy(norm: Sanitizer, values: seq<string>)
    requires GoodList(norm, values)
    ensures Tidy(SIGNALS + JoinList(values)) && Tidy(AVOID + JoinList(values)) && Tidy(DO + JoinList(values))
  {
    hide Tidy, IsSpace, Trimmed, GoodText, JoinBars;
    OneBlank();
    ListRoundTrip(norm, values);
    BarsAreLine(norm, values);
    MarksAreLines();
    var text := JoinList(values);
    MarkedTidy(SIGNALS, text);
    MarkedTidy(AVOID, text);
    MarkedTidy(DO, text);
  }

  lemma UseIsLine(p: Printed)
    requires PlainText(p.confidence) && PlainText(p.lastUsed) && p.pattern.useCount <= D.INT64_MAX
    ensures IsLine(UseText(p))
  {
    hide *;
    UseTextShape(p);
    ConfidenceIsLine(p);
    TimesIsLine(p);
    LastUsedIsLine(p);
    CommasAreLine(UseConfidence(p), UseTimes(p), UseLast(p));
  }

  lemma ConfidenceIsLine(p: Printed)
    requires PlainText(p.confidence)
    ensures IsLine(UseConfidence(p))
  {
    hide Trimmed;
  }

  lemma TimesIsLine(p: Printed)
    requires p.pattern.useCount <= D.INT64_MAX
    ensures IsLine(UseTimes(p))
  {
    hide *;
    CountInRange(p);
    ScanFormatted(Count(p));
    TimesAre(p);
    LabelIsLine(D.FormatInt(Count(p)));
  }

  lemma CountInRange(p: Printed)
    requires p.pattern.useCount <= D.INT64_MAX
    ensures 1 <= Count(p) <= D.INT64_MAX
  {
  }

  lemma TimesAre(p: Printed)
    ensures UseTimes(p) == " " + (COUNT_KEY + D.FormatInt(Count(p)))
  {
    hide D.FormatInt;
  }

  lemma LabelIsLine(n: string)
    requires IsLine(n)
    ensures IsLine(" " + (COUNT_KEY + n))
  {
  }

  lemma LastUsedIsLine(p: Printed)
    requires PlainText(p.lastUsed)
    ensures IsLine(UseLast(p))
  {
    hide Trimmed;
  }

  lemma CommasAreLine(a: string, b: string, c: string)
    requires IsLine(a) && IsLine(b) && IsLine(c)
    ensures IsLine(a + ("," + (b + ("," + c))))
  {
  }

  lemma UseTidy(p: Printed)
    requires PlainText(p.confidence) && PlainText(p.lastUsed) && p.pattern.useCount <= D.INT64_MAX
    ensures Tidy(USE + UseText(p))
  {
    hide Tidy, IsLine, IsSpace, Trimmed, PlainText, UseText;
    OneBlank();
    UseRoundTrip(p);
    UseIsLine(p);
    MarksAreLines();
    MarkedTidy(USE, UseText(p));
  }

  lemma {:induction false} PatternsTidy(norm: Sanitizer, ps: seq<Printed>)
    requires AllGood(norm, ps)
    ensures AllTidy(AllLines(ps))
  {
    hide Tidy, PatternLines, Good;
    if ps != [] {
      PatternTidy(norm, ps[0]);
      PatternsTidy(norm, ps[1..]);
    }
  }

  lemma InertIsTidy(lines: seq<string>)
    requires AllInert(lines)
    ensures AllTidy(lines)
  {
    hide Tidy, At;
  }

  lemma TidyConcat(a: seq<string>, b: seq<string>)
    requires AllTidy(a) && AllTidy(b)
    ensures AllTidy(a + b)
  {
    hide Tidy;
  }

  lemma DocumentTidy(norm: Sanitizer, ps: seq<Printed>)
    requires AllGood(norm, ps)
    ensures AllTidy(DocumentLines(ps))
  {
    hide Tidy, Inert, AllLines, AllTidy, AllInert, AllGood, HEAD, FOOT, NONE_YET;
    HeadInert();
    FootInert();
    NoneYetInert();
    InertIsTidy(HEAD);
    InertIsTidy(FOOT);
    InertIsTidy([NONE_YET]);
    PatternsTidy(norm, ps);
    TidyConcat(HEAD, BodyLines(ps));
    TidyConcat(HEAD + BodyLines(ps), FOOT);
  }

  // The document begins with '#', ends with '.' and has more than one line.
  lemma DocumentEnds(ps: seq<Printed>)
    ensures var lines := DocumentLines(ps);
            |lines| > 1 && lines[0] == "# MEMORY" && lines[|lines| - 1] == ARCHIVE_BULLET
  {
    hide BodyLines;
  }

  lemma ArchiveEnds()
    ensures ARCHIVE_BULLET != "" && ARCHIVE_BULLET[|ARCHIVE_BULLET| - 1] == '.'
  {
    ArchiveClosing();
  }

  lemma JoinBegins(lines: seq<string>)
    requires |lines| > 1 && lines[0] != ""
    ensures Join(lines) != "" && Join(lines)[0] == lines[0][0]
  {
  }

  lemma JoinedTrimmed(ps: seq<Printed>)
    ensures var s := Join(DocumentLines(ps)); s != "" && Trimmed(s)
  {
    hide Join, DocumentLines, IsSpace, ARCHIVE_BULLET;
    OneBlank();
    DocumentEnds(ps);
    ArchiveEnds();
    JoinEndsLikeLast(DocumentLines(ps));
    JoinBegins(DocumentLines(ps));
  }

  lemma TrimLastNewline(s: string)
    requires s != "" && Trimmed(s)
    ensures TrimSpace(s + "\n") == s
  {
    hide *;
    OneBlank();
    TrimPadded("", s, "\n");
    assert "" + (s + "\n") == s + "\n";
  }

  lemma JoinEmpty(lines: seq<string>)
    requires lines != []
    ensures Join(lines + [""]) == Join(lines) + "\n"
  {
    hide *;
    JoinSnoc(lines, "");
    assert "\n" + "" == "\n";
  }

  // The composed text is the lines, each with its newline.
  lemma ComposeIsJoin(ps: seq<Printed>)
    ensures Compose(ps) == Join(DocumentLines(ps) + [""])
  {
    hide Join, DocumentLines, Trimmed, TrimSpace;
    JoinedTrimmed(ps);
    TrimLastNewline(Join(DocumentLines(ps)));
    DocumentEnds(ps);
    JoinEmpty(DocumentLines(ps));
  }

  // Composing and parsing the memory document gives every pattern back, in order,
  // with its problem, lists, reason and use count.
  lemma ParseCompose(norm: Sanitizer, ps: seq<Printed>)
    requires AllGood(norm, ps)
    ensures Parse(norm, Compose(ps)) == NotesOf(ps)
  {
    hide *;
    var lines := DocumentLines(ps) + [""];
    DocumentTidy(norm, ps);
    AddEmpty(DocumentLines(ps));
    ComposeIsJoin(ps);
    JoinedKeeps(lines);
    UnixNewlinesKeeps(Join(lines));
    SplitJoin(lines);
    DocumentRead(norm, ps);
    ParseIs(norm, Compose(ps));
  }

  lemma AddEmpty(lines: seq<string>)
    requires AllTidy(lines)
    ensures AllTidy(lines + [""]) && AreLines(lines + [""]) && lines + [""] != []
  {
    hide IsSpace;
  }

  lemma ParseIs(norm: Sanitizer, raw: string)
    ensures Parse(norm, raw) == Flush(norm, ReadLines(norm, START, Split(UnixNewlines(raw))))
  {
  }

  // ---------------------------------------------------------------- whatever is read

  // A text that the sanitiser has produced.
  ghost predicate Sanitized(norm: Sanitizer, t: string) {
    exists raw :: t == norm(raw)
  }

  ghost predicate AllSanitized(norm: Sanitizer, values: seq<string>) {
    forall i :: 0 <= i < |values| ==> values[i] != "" && Sanitized(norm, values[i])
  }

  // A problem, sanitised texts and a count of at least one.
  ghost predicate Usable(norm: Sanitizer, n: Note) {
    && TrimSpace(n.problem) != "" && Sanitized(norm, n.problem) && Sanitized(norm, n.why)
    && AllSanitized(norm, n.signals) && AllSanitized(norm, n.avoid) && AllSanitized(norm, n.advice)
    && n.useCount >= 1
  }

  lemma {:induction false} NormalizedList(norm: Sanitizer, values: seq<string>)
    ensures AllSanitized(norm, NormalizeList(norm, values))
  {
    if values != [] {
      NormalizedList(norm, values[1..]);
      assert Sanitized(norm, norm(values[0]));
    }
  }

  lemma FinalizedUsable(norm: Sanitizer, n: Note)
    requires TrimSpace(Finalize(norm, n).problem) != ""
    ensures Usable(norm, Finalize(norm, n))
  {
    hide TrimSpace, AllSanitized, NormalizeList;
    NormalizedList(norm, n.signals);
    NormalizedList(norm, n.avoid);
    NormalizedList(norm, n.advice);
    assert Sanitized(norm, norm(n.problem)) && Sanitized(norm, norm(n.why));
  }

  ghost predicate AllUsable(norm: Sanitizer, notes: seq<Note>) {
    forall i :: 0 <= i < |notes| ==> Usable(norm, notes[i])
  }

  lemma FlushUsable(norm: Sanitizer, st: State)
    requires AllUsable(norm, st.notes)
    ensures AllUsable(norm, Flush(norm, st))
  {
    hide TrimSpace, Usable, Finalize;
    if st.current.Some? && TrimSpace(Finalize(norm, st.current.value).problem) != "" {
      FinalizedUsable(norm, st.current.value);
    }
  }

  lemma {:induction false} LinesUsable(norm: Sanitizer, lines: seq<string>)
    ensures AllUsable(norm, ReadLines(norm, START, lines).notes)
  {
    hide TrimSpace, Usable, Flush, At, ReadField, AllUsable;
    if lines == [] {
      NoneUsable(norm);
    } else {
      LinesUsable(norm, lines[..|lines| - 1]);
      FlushUsable(norm, ReadLines(norm, START, lines[..|lines| - 1]));
    }
  }

  lemma NoneUsable(norm: Sanitizer)
    ensures AllUsable(norm, [])
  {
  }

  // Whatever the document holds, the notes read have a problem, sanitised texts without
  // empty items, and a count.
  lemma ParsedUsable(norm: Sanitizer, raw: string)
    ensures AllUsable(norm, Parse(norm, raw))
  {
    hide AllUsable, ReadLines, Flush, Split, UnixNewlines;
    LinesUsable(norm, Split(UnixNewlines(raw)));
    FlushUsable(norm, ReadLines(norm, START, Split(UnixNewlines(raw))));
  }

  // A pattern of which only the title is there has no lists and counts once.
  lemma TitleOnly(norm: Sanitizer, problem: string)
    requires GoodText(norm, problem)
    ensures Flush(norm, ReadLine(norm, START, "### Pattern: " + problem)) ==
            [Note(problem, [], [], [], norm(""), 1)]
  {
    hide IsSpace, Trimmed, TrimSpace, IsLine;
    OneBlank();
    TrimmedFacts(problem);
    LabelTrimmed("### Pattern: ", problem);
  }
}
