// Where literals and bracketed names end (internal/aichat/runtime_eino.go), by what may
// stand in them.
module StatementLiterals {
  import opened Text
  import opened StatementLexer
  import opened StatementKey

  // A part of a literal: a character other than its quote and the backslash, a
  // backslash and any character, or, but in backticks, the quote doubled.
  datatype Part = Itself(c: char) | Escaped(c: char) | Doubled

  predicate ValidPart(q: char, p: Part) {
    match p
    case Itself(c) => c != q && c != '\\'
    case Escaped(_) => true
    case Doubled => q != '`'
  }

  predicate ValidParts(q: char, ps: seq<Part>) {
    forall k :: 0 <= k < |ps| ==> ValidPart(q, ps[k])
  }

  function PartText(q: char, p: Part): string {
    match p
    case Itself(c) => [c]
    case Escaped(c) => ['\\', c]
    case Doubled => [q, q]
  }

  function Body(q: char, ps: seq<Part>): string {
    if ps == [] then "" else PartText(q, ps[0]) + Body(q, ps[1..])
  }

  lemma InPlace(s: string, i: nat, w: string)
    requires At(s, i, w)
    ensures i + |w| <= |s| && forall k :: 0 <= k < |w| ==> s[i + k] == w[k]
    ensures (w != "" ==> s[i] == w[0]) && (|w| > 1 ==> s[i + 1] == w[1])
  {
    forall k | 0 <= k < |w|
      ensures s[i + k] == w[k]
    {
      assert s[i..i + |w|][k] == s[i + k];
    }
  }

  lemma {:induction false} PartsRead(q: char, ps: seq<Part>, s: string, i: nat)
    requires IsQuote(q) && ValidParts(q, ps) && At(s, i, Body(q, ps))
    ensures var e := i + |Body(q, ps)|; e <= |s| && LiteralEnd(q, s, i) == LiteralEnd(q, s, e)
    decreases ps
  {
    hide LiteralEnd, At;
    InPlace(s, i, Body(q, ps));
    if ps != [] {
      var text := PartText(q, ps[0]);
      AtConcat(s, i, text, Body(q, ps[1..]));
      InPlace(s, i, text);
      PartsRead(q, ps[1..], s, i + |text|);
      LiteralStep(q, s, i);
    }
  }

  // A literal ends with the first quote after such parts that is not doubled.
  lemma LiteralRead(q: char, ps: seq<Part>, s: string, i: nat)
    requires IsQuote(q) && ValidParts(q, ps) && At(s, i, Body(q, ps) + [q])
    requires var e := i + |Body(q, ps)| + 1; q == '`' || e == |s| || (e < |s| && s[e] != q)
    ensures LiteralEnd(q, s, i) == i + |Body(q, ps)| + 1
  {
    hide LiteralEnd, At;
    AtConcat(s, i, Body(q, ps), [q]);
    InPlace(s, i, Body(q, ps));
    InPlace(s, i + |Body(q, ps)|, [q]);
    PartsRead(q, ps, s, i);
    LiteralStep(q, s, i + |Body(q, ps)|);
    QuoteIsNoBackslash(q);
  }

  lemma QuoteIsNoBackslash(q: char)
    ensures IsQuote(q) ==> q != '\\'
  {
  }

  // One that is never closed ends with the text.
  lemma UnclosedLiteral(q: char, ps: seq<Part>, s: string, i: nat)
    requires IsQuote(q) && ValidParts(q, ps) && At(s, i, Body(q, ps)) && i + |Body(q, ps)| == |s|
    ensures LiteralEnd(q, s, i) == |s|
  {
    hide LiteralEnd, At;
    PartsRead(q, ps, s, i);
    LiteralEndsAtEnd(q, s);
  }

  // In a bracketed name the closing bracket is doubled, and nothing else is special.
  function Name(cs: string): string {
    if cs == "" then "" else (if cs[0] == ']' then "]]" else [cs[0]]) + Name(cs[1..])
  }

  lemma {:induction false} NameRead(cs: string, s: string, i: nat)
    requires At(s, i, Name(cs))
    ensures var e := i + |Name(cs)|; e <= |s| && BracketEnd(s, i) == BracketEnd(s, e)
    decreases cs
  {
    hide BracketEnd, At;
    InPlace(s, i, Name(cs));
    if cs != "" {
      var text := if cs[0] == ']' then "]]" else [cs[0]];
      AtConcat(s, i, text, Name(cs[1..]));
      InPlace(s, i, text);
      NameRead(cs[1..], s, i + |text|);
      BracketFacts(s, i);
    }
  }

  // Any name can stand in brackets, and ends there.
  lemma BracketRead(cs: string, s: string, i: nat)
    requires At(s, i, Name(cs) + "]")
    requires var e := i + |Name(cs)| + 1; e == |s| || (e < |s| && s[e] != ']')
    ensures BracketEnd(s, i) == i + |Name(cs)| + 1
  {
    hide BracketEnd, At;
    AtConcat(s, i, Name(cs), "]");
    InPlace(s, i + |Name(cs)|, "]");
    NameRead(cs, s, i);
    BracketFacts(s, i + |Name(cs)|);
  }

  // Three characters quote, six separate, and words are of ASCII letters, digits and
  // underscores.
  lemma CharacterClasses(c: char)
    ensures IsQuote(c) <==> c in {'\'', '"', '`'}
    ensures IsGapChar(c) <==> c in {'\U{20}', '\U{9}', '\U{a}', '\U{d}', '\U{c}', '\U{b}'}
    ensures IsIdentPart(c) <==> IsIdentStart(c) || c in {'0', '1', '2', '3', '4', '5', '6', '7', '8', '9'}
  {
  }

  // What a piece and a token are by their first character.
  lemma Kinds(s: string, i: nat)
    requires i < |s|
    ensures PieceAt(s, i).Gap? <==> IsGapChar(s[i])
    ensures PieceAt(s, i).Literal? <==> s[i] in {'\'', '"', '`'}
    ensures TokenAt(s, i).Region? <==> s[i] in {'\'', '"', '`', '['}
    ensures TokenAt(s, i).Word? <==> IsIdentStart(s[i])
  {
    hide PieceEnd, TokenEnd;
  }
}
