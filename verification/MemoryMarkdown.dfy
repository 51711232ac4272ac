// The MEMORY.md document (internal/aichat/memory_store.go): composing it from
// patterns and parsing it back.
module MemoryMarkdown {
  import opened Text
  import opened TomlText
  import opened Decimal
  import opened Wrappers
  import opened MemoryPattern

  // A pattern as it is written: its confidence and time are the texts that fmt and
  // time produce, and are not read back here.
  datatype Printed = Printed(pattern: Pattern, confidence: string, lastUsed: string)

  // What is read back.
  datatype Note = Note(
    problem: string,
    signals: seq<string>,
    avoid: seq<string>,
    advice: seq<string>,
    why: string,
    useCount: int)

  // normalizePatternText, the regular-expression sanitiser.
  type Sanitizer = string -> string

  const TITLE := "### Pattern: "
  const SIGNALS := "- Signals: "
  const AVOID := "- Avoid: "
  const DO := "- Do: "
  const WHY := "- Why: "
  const USE := "- Use: "
  const DEFAULT_WHY := "Reusable troubleshooting guidance."

  // ---------------------------------------------------------------- composing

  // joinPatternList
  function JoinList(values: seq<string>): string {
    if values == [] then "-" else JoinBars(values)
  }

  function JoinBars(values: seq<string>): string {
    if values == [] then ""
    else if |values| == 1 then values[0]
    else values[0] + (" " + ("|" + (" " + JoinBars(values[1..]))))
  }

  // The three segments of the last line of a pattern.
  function UseConfidence(p: Printed): string {
    "confidence=" + p.confidence
  }

  function UseTimes(p: Printed): string {
    " " + (COUNT_KEY + FormatInt(if p.pattern.useCount < 1 then 1 else p.pattern.useCount))
  }

  function UseLast(p: Printed): string {
    " " + ("last_used=" + p.lastUsed)
  }

  function UseText(p: Printed): string {
    UseConfidence(p) + ("," + (UseTimes(p) + ("," + UseLast(p))))
  }

  // firstNonEmpty(pattern.Why, default)
  function WhyText(p: Printed): string {
    if TrimSpace(p.pattern.why) != "" then TrimSpace(p.pattern.why) else DEFAULT_WHY
  }

  // renderMemoryPattern, as lines.
  function PatternLines(p: Printed): seq<string> {
    [
      TITLE + p.pattern.problem,
      SIGNALS + JoinList(p.pattern.signals),
      AVOID + JoinList(p.pattern.avoid),
      DO + JoinList(p.pattern.advice),
      WHY + WhyText(p),
      USE + UseText(p),
      ""
    ]
  }

  function AllLines(ps: seq<Printed>): seq<string> {
    if ps == [] then [] else PatternLines(ps[0]) + AllLines(ps[1..])
  }

  // The fixed bullets.
  const PATTERNS_BULLET := "- Keep long-term memory as reusable " + "patterns, not raw event logs."
  const EVIDENCE_BULLET := "- Prefer the minimal sufficient evidence " + "source before using higher-cost tools."
  const NONE_YET := "- No active patterns yet."
  const EVOLUTION_BULLET := "- Automatic memory " + "evolution is active."
  const ARCHIVE_BULLET := "- Cold patterns may be moved to memory/" + "*.md when the active budget is exceeded."

  const HEAD := ["# MEMORY", "", "## Core Principles", PATTERNS_BULLET, EVIDENCE_BULLET, "", "## Active Patterns"]

  const FOOT := ["", "## Recent Adjustments", EVOLUTION_BULLET, "", "## Archive Hints", ARCHIVE_BULLET]

  function BodyLines(ps: seq<Printed>): seq<string> {
    if ps == [] then [NONE_YET] else AllLines(ps)
  }

  function DocumentLines(ps: seq<Printed>): seq<string> {
    HEAD + BodyLines(ps) + FOOT
  }

  // composeMemoryMarkdown: each line written with its newline, the whole trimmed,
  // and one newline put back.
  function Compose(ps: seq<Printed>): string {
    TrimSpace(Join(DocumentLines(ps)) + "\n") + "\n"
  }

  // ---------------------------------------------------------------- parsing

  // strings.ReplaceAll(raw, "\r\n", "\n")
  function UnixNewlines(s: string): string {
    if |s| < 2 then s
    else if s[0] == '\r' && s[1] == '\n' then "\n" + UnixNewlines(s[2..])
    else [s[0]] + UnixNewlines(s[1..])
  }

  // strings.Split(s, "|"), each part trimmed and the blank ones dropped.
  function SplitBars(s: string, i: nat, start: nat): seq<string>
    requires start <= i <= |s|
    decreases |s| - i
  {
    if i == |s| then KeepPart(s[start..i])
    else if s[i] == '|' then KeepPart(s[start..i]) + SplitBars(s, i + 1, i + 1)
    else SplitBars(s, i + 1, start)
  }

  function KeepPart(part: string): seq<string> {
    if TrimSpace(part) == "" then [] else [TrimSpace(part)]
  }

  // splitPatternList
  function SplitList(raw: string): seq<string> {
    var t := TrimSpace(raw);
    if t == "" || t == "-" then [] else SplitBars(t, 0, 0)
  }

  // The number that Sscanf with %d reads: an optional sign and the digits after it.
  function DigitsEnd(s: string, i: nat): (e: nat)
    requires i <= |s|
    ensures i <= e <= |s|
    ensures forall k :: i <= k < e ==> IsDigit(s[k])
    decreases |s| - i
  {
    if i < |s| && IsDigit(s[i]) then DigitsEnd(s, i + 1) else i
  }

  function ScanInt(s: string): Option<int> {
    var t := TrimLeft(s);
    ParseInt64(t[..DigitsEnd(t, if t != "" && (t[0] == '-' || t[0] == '+') then 1 else 0)])
  }

  // parsePatternUseLine, as far as the use count: the last segment that sets it
  // decides.
  function UseCount(raw: string, i: nat, start: nat, count: int): int
    requires start <= i <= |raw|
    decreases |raw| - i
  {
    if i == |raw| then SegmentCount(raw[start..i], count)
    else if raw[i] == ',' then UseCount(raw, i + 1, i + 1, SegmentCount(raw[start..i], count))
    else UseCount(raw, i + 1, start, count)
  }

  const COUNT_KEY := "use_count="

  function SegmentCount(segment: string, count: int): int {
    var s := TrimSpace(segment);
    if At(s, 0, COUNT_KEY) then
      match ScanInt(s[|COUNT_KEY|..])
      case Some(n) => n
      case None => count
    else count
  }

  // normalizePatternList
  function NormalizeList(norm: Sanitizer, values: seq<string>): seq<string> {
    if values == [] then []
    else (if norm(values[0]) == "" then [] else [norm(values[0])]) + NormalizeList(norm, values[1..])
  }

  // finalizeParsedPattern, without the id and the confidence.
  function Finalize(norm: Sanitizer, n: Note): Note {
    Note(norm(n.problem), NormalizeList(norm, n.signals), NormalizeList(norm, n.avoid),
         NormalizeList(norm, n.advice), norm(n.why), if n.useCount < 1 then 1 else n.useCount)
  }

  // The parser between lines: the notes done and the current one.
  datatype State = State(notes: seq<Note>, current: Option<Note>)

  function Flush(norm: Sanitizer, st: State): seq<Note> {
    if st.current.Some? && TrimSpace(st.current.value.problem) != ""
       && TrimSpace(Finalize(norm, st.current.value).problem) != ""
    then st.notes + [Finalize(norm, st.current.value)]
    else st.notes
  }

  function After(line: string, prefix: string): string
    requires |prefix| <= |line|
  {
    TrimSpace(line[|prefix|..])
  }

  // The fields of a pattern, one line.
  function ReadField(n: Note, line: string): Note {
    if At(line, 0, SIGNALS) then n.(signals := SplitList(After(line, SIGNALS)))
    else if At(line, 0, AVOID) then n.(avoid := SplitList(After(line, AVOID)))
    else if At(line, 0, DO) then n.(advice := SplitList(After(line, DO)))
    else if At(line, 0, WHY) then n.(why := After(line, WHY))
    else if At(line, 0, USE) then n.(useCount := UseCount(After(line, USE), 0, 0, n.useCount))
    else n
  }

  function ReadLine(norm: Sanitizer, st: State, raw: string): State {
    var line := TrimSpace(raw);
    if At(line, 0, TITLE) then
      State(Flush(norm, st), Some(Note(After(line, TITLE), [], [], [], "", 0)))
    else if st.current == None then st
    else st.(current := Some(ReadField(st.current.value, line)))
  }

  function ReadLines(norm: Sanitizer, st: State, lines: seq<string>): State {
    if lines == [] then st
    else ReadLine(norm, ReadLines(norm, st, lines[..|lines| - 1]), lines[|lines| - 1])
  }

  const START := State([], None)

  function Parse(norm: Sanitizer, raw: string): seq<Note> {
    Flush(norm, ReadLines(norm, START, Split(UnixNewlines(raw))))
  }

  // parseMemoryMarkdown
  method ParseMemoryMarkdown(norm: Sanitizer, raw: string) returns (notes: seq<Note>)
    ensures notes == Parse(norm, raw)
  {
    hide TrimSpace, Split, At, UnixNewlines, Finalize, ReadField;
    var lines := Split(UnixNewlines(raw));
    notes := [];
    var current: Option<Note> := None;
    var n := 0;
    assert lines[..0] == [];
    while n < |lines|
      invariant n <= |lines|
      invariant State(notes, current) == ReadLines(norm, START, lines[..n])
    {
      assert lines[..n + 1][..n] == lines[..n];
      var trimmed := TrimSpace(lines[n]);
      n := n + 1;
      if At(trimmed, 0, TITLE) {
        if current.Some? && TrimSpace(current.value.problem) != "" {
          var finalized := Finalize(norm, current.value);
          if TrimSpace(finalized.problem) != "" {
            notes := notes + [finalized];
          }
        }
        AtInRange(trimmed, TITLE);
        current := Some(Note(After(trimmed, TITLE), [], [], [], "", 0));
      } else if current.Some? {
        current := Some(ReadField(current.value, trimmed));
      }
    }
    assert lines[..n] == lines;
    if current.Some? && TrimSpace(current.value.problem) != "" {
      var finalized := Finalize(norm, current.value);
      if TrimSpace(finalized.problem) != "" {
        notes := notes + [finalized];
      }
    }
  }

  lemma AtInRange(s: string, w: string)
    requires At(s, 0, w)
    ensures |w| <= |s|
  {
  }

  // The lines of a pattern as they stand in the document.
  lemma PatternWritten(p: Printed)
    ensures var lines := PatternLines(p);
            var why := TrimSpace(p.pattern.why);
            var uses := if p.pattern.useCount < 1 then 1 else p.pattern.useCount;
            && |lines| == 7
            && lines[0] == "### Pattern: " + p.pattern.problem
            && lines[1] == "- Signals: " + JoinList(p.pattern.signals)
            && lines[2] == "- Avoid: " + JoinList(p.pattern.avoid)
            && lines[3] == "- Do: " + JoinList(p.pattern.advice)
            && lines[4] == "- Why: " + (if why != "" then why else "Reusable troubleshooting guidance.")
            && lines[5] == "- Use: confidence=" + p.confidence + ", use_count=" + FormatInt(uses)
                           + ", last_used=" + p.lastUsed
            && lines[6] == ""
  {
    hide TrimSpace, FormatInt, JoinList;
    UseWritten(p);
  }

  lemma UseWritten(p: Printed)
    ensures var uses := if p.pattern.useCount < 1 then 1 else p.pattern.useCount;
            USE + UseText(p) == "- Use: confidence=" + p.confidence + ", use_count=" + FormatInt(uses)
                                + ", last_used=" + p.lastUsed
  {
    hide FormatInt;
    var n := FormatInt(if p.pattern.useCount < 1 then 1 else p.pattern.useCount);
    assert "- Use: confidence=" == USE + "confidence=" && ", use_count=" == "," + (" " + COUNT_KEY);
    assert ", last_used=" == "," + (" " + "last_used=");
    var a, b, c := "confidence=" + p.confidence, " " + (COUNT_KEY + n), " " + ("last_used=" + p.lastUsed);
    assert UseText(p) == a + ("," + (b + ("," + c)));
    assert USE + (a + ("," + (b + ("," + c)))) == (USE + "confidence=") + p.confidence + ("," + (" " + COUNT_KEY)) + n
                                                  + ("," + (" " + "last_used=")) + p.lastUsed;
  }

  // A list is written with bars between its items, an empty one as a dash.
  lemma ListWritten(a: string, rest: seq<string>)
    ensures JoinList([]) == "-" && JoinList([a]) == a
    ensures rest != [] ==> JoinList([a] + rest) == a + " | " + JoinList(rest)
  {
    assert rest != [] ==> ([a] + rest)[1..] == rest && " | " == " " + ("|" + " ");
    if rest != [] {
      assert JoinBars([a] + rest) == a + (" " + ("|" + (" " + JoinBars(rest))));
    }
  }
}
