// The fields of a memory pattern, each written and read back: lists joined with bars
// and the use line.
module MemoryFields {
  import opened Text
  import opened TomlText
  import D = Decimal
  import opened Wrappers
  import opened MemoryMarkdown

  // ---------------------------------------------------------------- conditions

  // A text that is one trimmed line and that the sanitiser leaves alone.
  predicate GoodText(norm: Sanitizer, t: string) {
    t != "" && Trimmed(t) && IsLine(t) && norm(t) == t
  }

  predicate GoodList(norm: Sanitizer, values: seq<string>) {
    && (forall i :: 0 <= i < |values| ==> GoodText(norm, values[i]) && '|' !in values[i])
    && values != ["-"]
  }

  predicate PlainText(t: string) {
    t != "" && Trimmed(t) && IsLine(t) && ',' !in t
  }

  predicate Good(norm: Sanitizer, p: Printed) {
    && GoodText(norm, p.pattern.problem) && GoodText(norm, p.pattern.why)
    && GoodList(norm, p.pattern.signals) && GoodList(norm, p.pattern.avoid) && GoodList(norm, p.pattern.advice)
    && p.pattern.useCount <= D.INT64_MAX
    && PlainText(p.confidence) && PlainText(p.lastUsed)
  }

  predicate AllGood(norm: Sanitizer, ps: seq<Printed>) {
    forall i :: 0 <= i < |ps| ==> Good(norm, ps[i])
  }

  function Count(p: Printed): (n: int)
    ensures n >= 1
  {
    if p.pattern.useCount < 1 then 1 else p.pattern.useCount
  }

  function NoteOf(p: Printed): Note {
    Note(p.pattern.problem, p.pattern.signals, p.pattern.avoid, p.pattern.advice, p.pattern.why, Count(p))
  }

  function NotesOf(ps: seq<Printed>): seq<Note> {
    if ps == [] then [] else [NoteOf(ps[0])] + NotesOf(ps[1..])
  }

  // ---------------------------------------------------------------- trimming

  lemma OneBlank()
    ensures Blanks(" ") && Blanks("\n") && Blanks("")
    ensures !IsSpace('-') && !IsSpace('#') && !IsSpace('c') && !IsSpace('u') && !IsSpace('l')
    ensures !IsSpace('.')
  {
  }

  // A prefix and a trimmed text make a trimmed line.
  lemma LabelTrimmed(prefix: string, text: string)
    requires prefix != "" && !IsSpace(prefix[0]) && text != "" && Trimmed(text)
    ensures Trimmed(prefix + text) && TrimSpace(prefix + text) == prefix + text
    ensures At(prefix + text, 0, prefix) && (prefix + text)[|prefix|..] == text
  {
    hide IsSpace;
    var s := prefix + text;
    assert s[0] == prefix[0] && s[|s| - 1] == text[|text| - 1];
    assert s[0..|prefix|] == prefix;
  }

  // ---------------------------------------------------------------- lists

  lemma {:induction false} BarsTrimmed(norm: Sanitizer, values: seq<string>)
    requires values != [] && forall i :: 0 <= i < |values| ==> GoodText(norm, values[i])
    ensures var t := JoinBars(values); t != "" && Trimmed(t) && |t| >= |values[0]| && t[0] == values[0][0]
    ensures |values| > 1 ==> |JoinBars(values)| > 3
  {
    hide IsSpace, IsLine;
    assert GoodText(norm, values[0]);
    if |values| > 1 {
      BarsTrimmed(norm, values[1..]);
      var t, rest := JoinBars(values), JoinBars(values[1..]);
      assert t[|t| - 1] == rest[|rest| - 1];
    }
  }

  lemma {:induction false} SkipToBar(s: string, i: nat, e: nat, start: nat)
    requires start <= i <= e <= |s| && forall k :: i <= k < e ==> s[k] != '|'
    ensures SplitBars(s, i, start) == SplitBars(s, e, start)
    decreases e - i
  {
    if i < e {
      SkipToBar(s, i + 1, e, start);
    }
  }

  lemma KeepPadded(a: string, s: string, b: string)
    requires Blanks(a) && Blanks(b) && s != "" && Trimmed(s)
    ensures KeepPart(a + (s + b)) == [s]
  {
    hide TrimSpace, IsSpace;
    TrimPadded(a, s, b);
  }

  // The first part of a joined list, and where the rest starts.
  lemma FirstPart(v: string, s: string, start: nat, lead: string, tail: string)
    requires start <= |s| && Blanks(lead) && v != "" && Trimmed(v) && '|' !in v && '|' !in lead
    requires s[start..] == lead + (v + (" " + ("|" + tail)))
    ensures var e := start + |lead| + |v| + 2;
            e <= |s| && s[e..] == tail && SplitBars(s, start, start) == [v] + SplitBars(s, e, e)
  {
    hide *;
    OneBlank();
    var part := lead + (v + " ");
    var e := start + |part|;
    Assoc(v, " ", "|" + tail);
    Assoc(lead, v + " ", "|" + tail);
    SplitTail(s, start, part, tail);
    PartHasNoBar(lead, v);
    NoBarBefore(s, start, e, part);
    SkipToBar(s, start, e, start);
    KeepPadded(lead, v, " ");
    AtBar(s, e, start);
  }

  lemma GoodIsTrimmed(norm: Sanitizer, t: string)
    requires GoodText(norm, t)
    ensures t != "" && Trimmed(t)
  {
  }

  lemma LeadHasNoBar()
    ensures '|' !in "" && '|' !in " "
  {
  }

  lemma BarsUnfold(values: seq<string>)
    requires values != []
    ensures |values| == 1 ==> JoinBars(values) == values[0]
    ensures |values| > 1 ==> JoinBars(values) == values[0] + (" " + ("|" + (" " + JoinBars(values[1..]))))
  {
  }

  lemma PartHasNoBar(lead: string, v: string)
    requires '|' !in v && '|' !in lead
    ensures '|' !in lead + (v + " ")
  {
  }

  lemma AtBar(s: string, e: nat, start: nat)
    requires start <= e < |s| && s[e] == '|'
    ensures SplitBars(s, e, start) == KeepPart(s[start..e]) + SplitBars(s, e + 1, e + 1)
  {
  }

  lemma LastPart(v: string, s: string, start: nat, lead: string)
    requires start <= |s| && Blanks(lead) && v != "" && Trimmed(v) && '|' !in v && '|' !in lead
    requires s[start..] == lead + v
    ensures SplitBars(s, start, start) == [v]
  {
    hide TrimSpace, IsSpace, Trimmed, KeepPart;
    OneBlank();
    NoBarBefore(s, start, |s|, lead + v);
    SkipToBar(s, start, |s|, start);
    KeepPadded(lead, v, "");
    assert s[start..|s|] == lead + (v + "");
  }

  // From a part's start on, splitting gives the values left.
  lemma {:induction false} SplitJoined(norm: Sanitizer, values: seq<string>, s: string, start: nat, lead: string)
    requires values != []
    requires forall i :: 0 <= i < |values| ==> GoodText(norm, values[i]) && '|' !in values[i]
    requires start <= |s| && s[start..] == lead + JoinBars(values) && (lead == "" || lead == " ")
    ensures SplitBars(s, start, start) == values
    decreases |values|
  {
    hide *;
    OneBlank();
    var v := values[0];
    GoodIsTrimmed(norm, v);
    LeadHasNoBar();
    BarsUnfold(values);
    if |values| == 1 {
      assert values == [v];
      LastPart(v, s, start, lead);
    } else {
      FirstPart(v, s, start, lead, " " + JoinBars(values[1..]));
      SplitJoined(norm, values[1..], s, start + |lead| + |v| + 2, " ");
      assert [v] + values[1..] == values;
    }
  }

  lemma SplitTail(s: string, start: nat, part: string, tail: string)
    requires start <= |s| && s[start..] == part + ("|" + tail)
    ensures var e := start + |part|;
            e < |s| && s[start..e] == part && s[e] == '|' && s[e + 1..] == tail
  {
    var e := start + |part|;
    assert s[start..e] == s[start..][..|part|];
    assert s[e] == s[start..][|part|];
    assert s[e + 1..] == s[start..][|part| + 1..];
  }

  lemma NoBarBefore(s: string, start: nat, e: nat, part: string)
    requires start <= e <= |s| && s[start..e] == part && '|' !in part
    ensures forall k :: start <= k < e ==> s[k] != '|'
  {
    forall k | start <= k < e
      ensures s[k] != '|'
    {
      assert s[k] == part[k - start];
    }
  }

  lemma ListRoundTrip(norm: Sanitizer, values: seq<string>)
    requires GoodList(norm, values)
    ensures JoinList(values) != "" && Trimmed(JoinList(values))
    ensures SplitList(JoinList(values)) == values
  {
    hide TrimSpace, IsSpace, SplitBars, GoodText, JoinBars;
    OneBlank();
    if values == [] {
      DashTrimmed();
    } else {
      BarsTrimmed(norm, values);
      var t := JoinBars(values);
      assert TrimSpace(t) == t;
      NotDash(values);
      assert t[0..] == "" + t;
      SplitJoined(norm, values, t, 0, "");
    }
  }

  lemma DashTrimmed()
    ensures TrimSpace("-") == "-" && Trimmed("-")
  {
    hide TrimSpace, IsSpace;
    OneBlank();
  }

  lemma NotDash(values: seq<string>)
    requires values != [] && values != ["-"] && (|values| > 1 ==> |JoinBars(values)| > 3)
    ensures JoinBars(values) != "-"
  {
    if |values| == 1 {
      assert values == [values[0]];
    }
  }

  // ---------------------------------------------------------------- the use line

  lemma {:induction false} SkipToComma(s: string, i: nat, e: nat, start: nat, count: int)
    requires start <= i <= e <= |s| && forall k :: i <= k < e ==> s[k] != ','
    ensures UseCount(s, i, start, count) == UseCount(s, e, start, count)
    decreases e - i
  {
    if i < e {
      SkipToComma(s, i + 1, e, start, count);
    }
  }

  lemma {:induction false} AllDigitsEnd(s: string, i: nat)
    requires i <= |s| && forall k :: i <= k < |s| ==> D.IsDigit(s[k])
    ensures DigitsEnd(s, i) == |s|
    decreases |s| - i
  {
    if i < |s| {
      AllDigitsEnd(s, i + 1);
    }
  }

  lemma ScanFormatted(n: int)
    requires 1 <= n <= D.INT64_MAX
    ensures ScanInt(D.FormatInt(n)) == Some(n)
    ensures D.FormatInt(n) != "" && Trimmed(D.FormatInt(n)) && ',' !in D.FormatInt(n)
    ensures IsLine(D.FormatInt(n))
  {
    hide D.FormatNat, D.ParseInt64, D.DigitsValue;
    var s := D.FormatInt(n);
    assert D.AllDigits(s);
    assert D.IsDigit(s[0]) && D.IsDigit(s[|s| - 1]);
    DigitsAreNotSpaces();
    assert TrimLeft(s) == s;
    AllDigitsEnd(s, 0);
    assert s[..|s|] == s;
    D.ParseFormat(n);
  }

  lemma DigitsAreNotSpaces()
    ensures forall c :: D.IsDigit(c) ==> !IsSpace(c)
  {
  }

  lemma AtHead(s: string, w: string)
    requires w != ""
    ensures At(s, 0, w) ==> s != "" && s[0] == w[0]
  {
    if At(s, 0, w) {
      assert s[0] == s[0..|w|][0];
    }
  }

  lemma SegmentOther(a: string, s: string, count: int)
    requires Blanks(a) && s != "" && Trimmed(s) && s[0] != 'u'
    ensures SegmentCount(a + s, count) == count
  {
    hide TrimSpace, IsSpace, ScanInt;
    TrimPadded(a, s, "");
    assert s + "" == s;
    AtHead(s, COUNT_KEY);
  }

  lemma SegmentUse(n: int, count: int)
    requires 1 <= n <= D.INT64_MAX
    ensures SegmentCount(" " + (COUNT_KEY + D.FormatInt(n)), count) == n
  {
    hide TrimSpace, IsSpace, ScanInt, D.FormatInt;
    OneBlank();
    ScanFormatted(n);
    var s := COUNT_KEY + D.FormatInt(n);
    LabelTrimmed(COUNT_KEY, D.FormatInt(n));
    TrimPadded(" ", s, "");
    assert s + "" == s;
  }

  lemma NoCommaBefore(s: string, start: nat, e: nat, part: string)
    requires start <= e <= |s| && s[start..e] == part && ',' !in part
    ensures forall k :: start <= k < e ==> s[k] != ','
  {
    forall k | start <= k < e
      ensures s[k] != ','
    {
      assert s[k] == part[k - start];
    }
  }

  // One segment and the comma after it.
  lemma UseSegment(s: string, start: nat, part: string, tail: string, count: int)
    requires start <= |s| && s[start..] == part + ("," + tail) && ',' !in part
    ensures var e := start + |part| + 1;
            && e <= |s| && s[e..] == tail
            && UseCount(s, start, start, count) == UseCount(s, e, e, SegmentCount(part, count))
  {
    hide SegmentCount;
    var e := start + |part|;
    assert s[start..e] == s[start..][..|part|] == part;
    assert s[e] == s[start..][|part|];
    assert s[e + 1..] == s[start..][|part| + 1..] == tail;
    NoCommaBefore(s, start, e, part);
    SkipToComma(s, start, e, start, count);
  }

  lemma LastSegment(s: string, start: nat, part: string, count: int)
    requires start <= |s| && s[start..] == part && ',' !in part
    ensures UseCount(s, start, start, count) == SegmentCount(part, count)
  {
    hide SegmentCount;
    assert s[start..|s|] == part;
    NoCommaBefore(s, start, |s|, part);
    SkipToComma(s, start, |s|, start, count);
  }

  lemma UseRoundTrip(p: Printed)
    requires PlainText(p.confidence) && PlainText(p.lastUsed) && p.pattern.useCount <= D.INT64_MAX
    ensures UseText(p) != "" && Trimmed(UseText(p))
    ensures UseCount(UseText(p), 0, 0, 0) == Count(p)
  {
    hide *;
    OneBlank();
    var s, n := UseText(p), Count(p);
    var first, second, third := UseConfidence(p), UseTimes(p), UseLast(p);
    UseParts(p);
    assert s[0..] == s;
    UseSegment(s, 0, first, second + ("," + third), 0);
    UseSegment(s, |first| + 1, second, third, SegmentCount(first, 0));
    LastSegment(s, |first| + 1 + |second| + 1, third, SegmentCount(second, SegmentCount(first, 0)));
    UseTextTrimmed(p);
  }

  lemma UseTextTrimmed(p: Printed)
    requires PlainText(p.lastUsed)
    ensures UseText(p) != "" && Trimmed(UseText(p))
  {
    hide IsSpace, UseTimes;
    OneBlank();
    var s := UseText(p);
    assert s[0] == 'c' && s[|s| - 1] == p.lastUsed[|p.lastUsed| - 1];
  }

  lemma UseParts(p: Printed)
    requires PlainText(p.confidence) && PlainText(p.lastUsed) && p.pattern.useCount <= D.INT64_MAX
    ensures var first, second, third := UseConfidence(p), UseTimes(p), UseLast(p);
            && UseText(p) == first + ("," + (second + ("," + third)))
            && ',' !in first && ',' !in second && ',' !in third
            && SegmentCount(first, 0) == 0
            && SegmentCount(second, 0) == Count(p)
            && SegmentCount(third, Count(p)) == Count(p)
  {
    hide *;
    UseTextShape(p);
    ConfidencePart(p);
    TimesPart(p);
    LastUsedPart(p);
  }

  lemma UseTextShape(p: Printed)
    ensures UseText(p) == UseConfidence(p) + ("," + (UseTimes(p) + ("," + UseLast(p))))
  {
  }

  lemma ConfidencePart(p: Printed)
    requires PlainText(p.confidence)
    ensures ',' !in UseConfidence(p) && SegmentCount(UseConfidence(p), 0) == 0
  {
    hide *;
    OneBlank();
    ConfidenceText(p);
    SegmentOther("", UseConfidence(p), 0);
    assert "" + UseConfidence(p) == UseConfidence(p);
  }

  lemma ConfidenceText(p: Printed)
    requires PlainText(p.confidence)
    ensures var s := UseConfidence(p); ',' !in s && s != "" && s[0] == 'c' && Trimmed(s)
  {
    hide TrimSpace, IsSpace, IsLine;
    OneBlank();
    LabelTrimmed("confidence=", p.confidence);
  }

  lemma TimesPart(p: Printed)
    requires p.pattern.useCount <= D.INT64_MAX
    ensures ',' !in UseTimes(p) && SegmentCount(UseTimes(p), 0) == Count(p)
  {
    hide TrimSpace, IsSpace, SegmentCount, D.FormatInt, IsLine;
    ScanFormatted(Count(p));
    SegmentUse(Count(p), 0);
  }

  lemma LastUsedPart(p: Printed)
    requires PlainText(p.lastUsed)
    ensures ',' !in UseLast(p) && SegmentCount(UseLast(p), Count(p)) == Count(p)
  {
    hide TrimSpace, IsSpace, SegmentCount, IsLine;
    OneBlank();
    LabelTrimmed("last_used=", p.lastUsed);
    SegmentOther(" ", "last_used=" + p.lastUsed, Count(p));
  }

  // ---------------------------------------------------------------- lines

  // A line that stands in the document as it is written.
  predicate Tidy(line: string) {
    IsLine(line) && Trimmed(line)
  }

  predicate AllTidy(lines: seq<string>) {
    forall i :: 0 <= i < |lines| ==> Tidy(lines[i])
  }

  predicate NoCarriageReturn(s: string) {
    forall i :: 0 <= i < |s| - 1 ==> s[i] == '\r' ==> s[i + 1] != '\n'
  }

  lemma {:induction false} UnixNewlinesKeeps(s: string)
    requires NoCarriageReturn(s)
    ensures UnixNewlines(s) == s
  {
    if |s| >= 2 {
      assert s[0] == '\r' ==> s[0 + 1] != '\n';
      assert NoCarriageReturn(s[1..]) by {
        forall i | 0 <= i < |s| - 2
          ensures s[1..][i] == '\r' ==> s[1..][i + 1] != '\n'
        {
          assert s[i + 1] == '\r' ==> s[i + 1 + 1] != '\n';
        }
      }
      UnixNewlinesKeeps(s[1..]);
    }
  }

  lemma FirstLineKeeps(line: string, rest: string)
    requires Tidy(line) && NoCarriageReturn(rest)
    ensures NoCarriageReturn(line) && NoCarriageReturn(line + ("\n" + rest))
  {
    var s := line + ("\n" + rest);
    forall i | 0 <= i < |s| - 1
      ensures s[i] == '\r' ==> s[i + 1] != '\n'
    {
      if i + 1 < |line| {
        assert s[i + 1] == line[i + 1];
      } else if i > |line| {
        var k := i - |line| - 1;
        assert s[i] == rest[k] && s[i + 1] == rest[k + 1];
      }
    }
  }

  lemma {:induction false} JoinedKeeps(lines: seq<string>)
    requires AllTidy(lines)
    ensures NoCarriageReturn(Join(lines))
  {
    hide Tidy, NoCarriageReturn;
    EmptyKeeps();
    if lines != [] {
      JoinedKeeps(lines[1..]);
      FirstLineKeeps(lines[0], Join(lines[1..]));
    }
  }

  lemma EmptyKeeps()
    ensures NoCarriageReturn("")
  {
  }

  lemma {:induction false} ReadConcat(norm: Sanitizer, st: State, a: seq<string>, b: seq<string>)
    ensures ReadLines(norm, st, a + b) == ReadLines(norm, ReadLines(norm, st, a), b)
    decreases |b|
  {
    hide ReadLine;
    if b == [] {
      assert a + b == a;
    } else {
      ReadConcat(norm, st, a, b[..|b| - 1]);
      assert (a + b)[..|a + b| - 1] == a + b[..|b| - 1];
    }
  }

  lemma ReadOne(norm: Sanitizer, st: State, line: string)
    ensures ReadLines(norm, st, [line]) == ReadLine(norm, st, line)
  {
    hide ReadLine;
    assert [line][..0] == [];
  }

  // ---------------------------------------------------------------- numbers

  // Blanks before the number and anything but a digit after it are passed over, a sign
  // belongs to it.
  lemma ScanForms(blanks: string, digits: string, rest: string)
    requires Blanks(blanks) && digits != "" && D.AllDigits(digits) && (rest != "" ==> !D.IsDigit(rest[0]))
    ensures var n := D.DigitsValue(digits);
            && ScanInt(blanks + (digits + rest)) == (if n <= D.INT64_MAX then Some(n) else None)
            && ScanInt(blanks + ("+" + (digits + rest))) == (if n <= D.INT64_MAX then Some(n) else None)
            && ScanInt(blanks + ("-" + (digits + rest))) == (if n <= D.INT64_MAX + 1 then Some(-n) else None)
  {
    hide *;
    D.ParseForms(digits);
    NoDigitIsBlank(digits[0]);
    DigitAtStart(digits);
    ScanUnsigned(blanks, digits, rest);
    ScanSigned(blanks, "+", digits, rest);
    ScanSigned(blanks, "-", digits, rest);
  }

  lemma DigitAtStart(digits: string)
    requires digits != "" && D.AllDigits(digits)
    ensures D.IsDigit(digits[0])
  {
  }

  lemma NoDigitIsBlank(c: char)
    ensures D.IsDigit(c) ==> !IsSpace(c) && c != '-' && c != '+'
    ensures !IsSpace('-') && !IsSpace('+')
  {
  }

  lemma {:induction false} DigitsUntil(s: string, i: nat, e: nat)
    requires i <= e <= |s| && (forall k :: i <= k < e ==> D.IsDigit(s[k])) && (e < |s| ==> !D.IsDigit(s[e]))
    ensures DigitsEnd(s, i) == e
    decreases e - i
  {
    if i < e {
      DigitsUntil(s, i + 1, e);
    }
  }

  lemma ScanUnsigned(blanks: string, digits: string, rest: string)
    requires Blanks(blanks) && digits != "" && D.AllDigits(digits) && (rest != "" ==> !D.IsDigit(rest[0]))
    ensures ScanInt(blanks + (digits + rest)) == D.ParseInt64(digits)
  {
    hide IsSpace, Blanks, TrimLeft, D.ParseInt64;
    var t := digits + rest;
    NoDigitIsBlank(digits[0]);
    assert t[0] == digits[0];
    TrimLeftBlanks(blanks, t);
    DigitsUntil(t, 0, |digits|);
    assert t[..|digits|] == digits;
  }

  lemma ScanSigned(blanks: string, sign: string, digits: string, rest: string)
    requires Blanks(blanks) && digits != "" && D.AllDigits(digits) && (rest != "" ==> !D.IsDigit(rest[0]))
    requires sign == "+" || sign == "-"
    ensures ScanInt(blanks + (sign + (digits + rest))) == D.ParseInt64(sign + digits)
  {
    hide IsSpace, Blanks, TrimLeft, D.ParseInt64;
    var t := sign + (digits + rest);
    NoDigitIsBlank('0');
    assert t[0] == sign[0];
    TrimLeftBlanks(blanks, t);
    assert forall k :: 1 <= k < 1 + |digits| ==> t[k] == digits[k - 1];
    assert rest != "" ==> t[1 + |digits|] == rest[0];
    DigitsUntil(t, 1, 1 + |digits|);
    assert t[..1 + |digits|] == sign + digits;
  }
}
