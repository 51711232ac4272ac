// Lines and TOML basic strings, as the wrangler.toml editor of app_datasource.go
// uses them: strings.Split and strings.Join on newlines, trimming of trailing
// newlines, and d1TomlString.
module TomlText {
  import opened Text

  predicate IsLine(s: string) {
    '\n' !in s
  }

  predicate AreLines(lines: seq<string>) {
    forall i :: 0 <= i < |lines| ==> IsLine(lines[i])
  }

  // Where the first newline at or after i is, or the end.
  function LineEnd(s: string, i: nat): (e: nat)
    requires i <= |s|
    ensures i <= e <= |s|
    ensures e < |s| ==> s[e] == '\n'
    ensures forall k :: i <= k < e ==> s[k] != '\n'
    decreases |s| - i
  {
    if i < |s| && s[i] != '\n' then LineEnd(s, i + 1) else i
  }

  // strings.Split(s, "\n")
  function Split(s: string): (lines: seq<string>)
    ensures lines != [] && AreLines(lines)
    decreases |s|
  {
    var e := LineEnd(s, 0);
    if e == |s| then [s] else [s[..e]] + Split(s[e + 1..])
  }

  // strings.Join(lines, "\n")
  function Join(lines: seq<string>): string {
    if lines == [] then ""
    else if |lines| == 1 then lines[0]
    else lines[0] + ("\n" + Join(lines[1..]))
  }

  lemma LineEndOfFirst(line: string, rest: string)
    requires IsLine(line)
    ensures LineEnd(line + ("\n" + rest), 0) == |line|
    ensures LineEnd(line, 0) == |line|
  {
    var s := line + ("\n" + rest);
    var e := LineEnd(s, 0);
    assert s[|line|] == '\n';
    assert forall k :: 0 <= k < |line| ==> line[k] in line && s[k] == line[k];
  }

  lemma {:induction false} SplitJoin(lines: seq<string>)
    requires lines != [] && AreLines(lines)
    ensures Split(Join(lines)) == lines
  {
    hide IsLine, LineEnd;
    var rest := Join(lines[1..]);
    LineEndOfFirst(lines[0], rest);
    if |lines| > 1 {
      SplitJoin(lines[1..]);
      CutFirst(lines[0], rest);
    }
  }

  lemma CutFirst(line: string, rest: string)
    ensures var s := line + ("\n" + rest); s[..|line|] == line && s[|line| + 1..] == rest
  {
  }

  lemma {:induction false} JoinSplit(s: string)
    ensures Join(Split(s)) == s
    decreases |s|
  {
    hide *;
    SplitUnfold(s);
    var e := LineEnd(s, 0);
    if e == |s| {
      JoinOne(s);
    } else {
      JoinSplit(s[e + 1..]);
      SplitUnfold(s[e + 1..]);
      JoinFirst(s[..e], Split(s[e + 1..]));
      CutAt(s, e);
    }
  }

  lemma SplitUnfold(s: string)
    ensures var e := LineEnd(s, 0);
            && e <= |s| && Split(s) != [] && (e < |s| ==> s[e] == '\n')
            && Split(s) == if e == |s| then [s] else [s[..e]] + Split(s[e + 1..])
  {
    hide LineEnd, IsLine;
  }

  lemma CutAt(s: string, e: nat)
    requires e < |s| && s[e] == '\n'
    ensures s == s[..e] + ("\n" + s[e + 1..])
  {
  }

  lemma JoinOne(line: string)
    ensures Join([line]) == line
  {
  }

  lemma JoinFirst(first: string, rest: seq<string>)
    requires rest != []
    ensures Join([first] + rest) == first + ("\n" + Join(rest))
  {
    assert ([first] + rest)[1..] == rest;
  }

  // strings.TrimRight(s, "\n")
  function TrimNewlines(s: string): string {
    if s != "" && s[|s| - 1] == '\n' then TrimNewlines(s[..|s| - 1]) else s
  }

  // The lines without the empty ones at the end, one line at least remaining.
  function TrimLines(lines: seq<string>): (r: seq<string>)
    ensures |r| <= |lines| && r == lines[..|r|]
    ensures lines != [] ==> r != []
    ensures |r| > 1 ==> r[|r| - 1] != ""
    ensures forall i :: |r| <= i < |lines| ==> lines[i] == ""
  {
    if |lines| > 1 && lines[|lines| - 1] == "" then TrimLines(lines[..|lines| - 1]) else lines
  }

  lemma {:induction false} JoinSnoc(lines: seq<string>, line: string)
    requires lines != []
    ensures Join(lines + [line]) == Join(lines) + ("\n" + line)
  {
    if |lines| == 1 {
      assert (lines + [line])[1..] == [line];
    } else {
      JoinSnoc(lines[1..], line);
      assert (lines + [line])[1..] == lines[1..] + [line];
      Assoc("\n", Join(lines[1..]), "\n" + line);
      Assoc(lines[0], "\n" + Join(lines[1..]), "\n" + line);
    }
  }

  lemma {:induction false} JoinEndsLikeLast(lines: seq<string>)
    requires lines != []
    ensures lines[|lines| - 1] != "" ==>
              Join(lines) != "" && Join(lines)[|Join(lines)| - 1] == lines[|lines| - 1][|lines[|lines| - 1]| - 1]
  {
    if |lines| > 1 {
      JoinEndsLikeLast(lines[1..]);
    }
  }

  // Trimming trailing newlines is dropping trailing empty lines.
  lemma {:induction false} TrimNewlinesIsTrimLines(lines: seq<string>)
    requires lines != [] && AreLines(lines)
    ensures TrimNewlines(Join(lines)) == Join(TrimLines(lines))
  {
    hide IsLine;
    var last := lines[|lines| - 1];
    if |lines| > 1 && last == "" {
      var most := lines[..|lines| - 1];
      JoinSnoc(most, "");
      assert lines == most + [""];
      TrimNewlinesIsTrimLines(most);
      assert Join(lines) == Join(most) + "\n";
      assert Join(lines)[..|Join(lines)| - 1] == Join(most);
    } else if last != "" {
      JoinEndsLikeLast(lines);
      LastOfLine(last);
    } else {
      assert Join(lines) == "";
    }
  }

  lemma LastOfLine(line: string)
    requires IsLine(line) && line != ""
    ensures line[|line| - 1] != '\n'
  {
    assert line[|line| - 1] in line;
  }

  // ---------------------------------------------------------------- basic strings

  // strings.ReplaceAll of one character.
  function ReplaceChar(s: string, c: char, text: string): string {
    if s == "" then "" else (if s[0] == c then text else [s[0]]) + ReplaceChar(s[1..], c, text)
  }

  // What d1TomlString puts between the quotes: backslashes doubled, then quotes
  // escaped.
  function Escape(value: string): string {
    ReplaceChar(ReplaceChar(value, '\\', "\\\\"), '"', "\\\"")
  }

  function TomlString(value: string): string {
    "\"" + Escape(value) + "\""
  }

  function EscapeChar(c: char): string {
    if c == '\\' then "\\\\" else if c == '"' then "\\\"" else [c]
  }

  function Escaped(value: string): string {
    if value == "" then "" else EscapeChar(value[0]) + Escaped(value[1..])
  }

  lemma {:induction false} ReplaceConcat(s: string, t: string, c: char, text: string)
    ensures ReplaceChar(s + t, c, text) == ReplaceChar(s, c, text) + ReplaceChar(t, c, text)
  {
    hide ReplaceChar;
    if s == "" {
      assert s + t == t;
      ReplaceNothing(t, c, text);
    } else {
      ReplaceConcat(s[1..], t, c, text);
      assert (s + t)[1..] == s[1..] + t;
      ReplaceFirst(s, c, text);
      ReplaceFirst(s + t, c, text);
      Assoc(if s[0] == c then text else [s[0]], ReplaceChar(s[1..], c, text), ReplaceChar(t, c, text));
    }
  }

  lemma ReplaceNothing(t: string, c: char, text: string)
    ensures ReplaceChar("", c, text) + ReplaceChar(t, c, text) == ReplaceChar(t, c, text)
  {
  }

  lemma ReplaceFirst(s: string, c: char, text: string)
    requires s != ""
    ensures ReplaceChar(s, c, text) == (if s[0] == c then text else [s[0]]) + ReplaceChar(s[1..], c, text)
  {
  }

  // The two passes together escape each character on its own.
  lemma {:induction false} EscapeIsEscaped(value: string)
    ensures Escape(value) == Escaped(value)
  {
    if value != "" {
      EscapeIsEscaped(value[1..]);
      var first := if value[0] == '\\' then "\\\\" else [value[0]];
      ReplaceConcat(first, ReplaceChar(value[1..], '\\', "\\\\"), '"', "\\\"");
      assert ReplaceChar(first, '"', "\\\"") == EscapeChar(value[0]) by {
        assert first[1..] == "\\" || first[1..] == "";
        if value[0] == '\\' {
          assert first[1..][1..] == "";
          assert ReplaceChar("\\", '"', "\\\"") == "\\";
        }
      }
    }
  }

  // Reading a basic string back, TOML v1.0.0: a backslash escapes what follows.
  function Unescape(s: string): string {
    if s == "" then ""
    else if s[0] == '\\' && |s| > 1 then [s[1]] + Unescape(s[2..])
    else [s[0]] + Unescape(s[1..])
  }

  lemma {:induction false} UnescapeEscape(value: string)
    ensures Unescape(Escape(value)) == value
  {
    hide Escape;
    EscapeIsEscaped(value);
    if value != "" {
      UnescapeEscape(value[1..]);
      EscapeIsEscaped(value[1..]);
      var head, tail := EscapeChar(value[0]), Escaped(value[1..]);
      assert (head + tail)[|head|..] == tail;
    }
  }

  // So different values never share a literal.
  lemma TomlStringInjective(a: string, b: string)
    requires TomlString(a) == TomlString(b)
    ensures a == b
  {
    hide Escape;
    assert TomlString(a)[1..|TomlString(a)| - 1] == Escape(a);
    assert TomlString(b)[1..|TomlString(b)| - 1] == Escape(b);
    UnescapeEscape(a);
    UnescapeEscape(b);
  }

  lemma {:induction false} EscapeKeepsLine(value: string)
    requires IsLine(value)
    ensures IsLine(TomlString(value))
  {
    EscapeIsEscaped(value);
    EscapedKeepsLine(value);
  }

  lemma {:induction false} EscapedKeepsLine(value: string)
    requires IsLine(value)
    ensures IsLine(Escaped(value))
  {
    if value != "" {
      assert value[0] in value;
      EscapedKeepsLine(value[1..]);
    }
  }

  // A backslash and a quote are written with a backslash before them, every other
  // character as it is, between quotes.
  lemma TomlStringIs(a: string, c: char, b: string)
    ensures TomlString("") == "\"\""
    ensures TomlString(a) == "\"" + Escape(a) + "\""
    ensures Escape(a + b) == Escape(a) + Escape(b)
    ensures Escape([c]) == if c == '\\' then "\\\\" else if c == '"' then "\\\"" else [c]
  {
    hide Escape, Escaped;
    EscapeIsEscaped("");
    EscapeIsEscaped(a);
    EscapeIsEscaped(b);
    EscapeIsEscaped(a + b);
    EscapeIsEscaped([c]);
    EscapedConcat(a, b);
    EscapedOne(c);
  }

  lemma EscapedOne(c: char)
    ensures Escaped([c]) == EscapeChar(c) && Escaped("") == ""
  {
    assert [c][1..] == "";
  }

  lemma {:induction false} EscapedConcat(a: string, b: string)
    ensures Escaped(a + b) == Escaped(a) + Escaped(b)
  {
    hide Escaped, EscapeChar;
    if a == "" {
      EscapedOne(' ');
      assert a + b == b;
    } else {
      EscapedConcat(a[1..], b);
      assert (a + b)[1..] == a[1..] + b && (a + b)[0] == a[0];
      EscapedFirst(a);
      EscapedFirst(a + b);
      Assoc(EscapeChar(a[0]), Escaped(a[1..]), Escaped(b));
    }
  }

  lemma EscapedFirst(a: string)
    requires a != ""
    ensures Escaped(a) == EscapeChar(a[0]) + Escaped(a[1..])
  {
    hide EscapeChar;
  }
}
