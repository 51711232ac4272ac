// canonicalizeExecuteStatementKeywords and the duplicate-execute key built from
// it (internal/aichat/runtime_eino.go): lower-casing unquoted keywords.
module StatementKey {
  import opened Text
  import opened LetterCase
  import opened StatementLexer

  const KEYWORDS_A_D := {
    "all", "alter", "analyze", "and", "as", "asc", "between", "by", "case", "create", "cross",
    "delete", "desc", "describe", "distinct", "drop"
  }

  const KEYWORDS_E_I := {
    "else", "end", "exists", "explain", "false", "from", "full", "group", "having", "in", "inner",
    "insert", "into", "is"
  }

  const KEYWORDS_J_O := {
    "join", "left", "like", "limit", "max", "min", "not", "null", "offset", "on", "or", "order",
    "outer"
  }

  const KEYWORDS_P_Z := {
    "replace", "right", "select", "set", "show", "sum", "table", "then", "true", "truncate",
    "union", "update", "use", "values", "when", "where"
  }

  const KEYWORDS := KEYWORDS_A_D + KEYWORDS_E_I + KEYWORDS_J_O + KEYWORDS_P_Z

  predicate IsKeyword(w: string) { w in KEYWORDS }

  predicate IsIdentStart(c: char) { c == '_' || IsUpper(c) || IsLower(c) }

  predicate IsIdentPart(c: char) { IsIdentStart(c) || '0' <= c <= '9' }

  // Where a bracketed identifier ends, i being inside it.
  function BracketEnd(s: string, i: nat): (e: nat)
    requires i <= |s|
    ensures i <= e <= |s|
    ensures i < |s| ==> i < e
    decreases |s| - i
  {
    if i == |s| then i
    else if s[i] == ']' then
      if i + 1 < |s| && s[i + 1] == ']' then BracketEnd(s, i + 2) else i + 1
    else BracketEnd(s, i + 1)
  }

  function WordEnd(s: string, i: nat): (e: nat)
    requires i <= |s|
    ensures i <= e <= |s|
    ensures e < |s| ==> !IsIdentPart(s[e])
    ensures forall k :: i <= k < e ==> IsIdentPart(s[k])
    decreases |s| - i
  {
    if i < |s| && IsIdentPart(s[i]) then WordEnd(s, i + 1) else i
  }

  datatype Token =
    | Word(text: string)
    | Region(text: string)
    | Other(text: string)

  function TokenEnd(s: string, i: nat): (e: nat)
    requires i < |s|
    ensures i < e <= |s|
  {
    if IsQuote(s[i]) then LiteralEnd(s[i], s, i + 1)
    else if s[i] == '[' then BracketEnd(s, i + 1)
    else if IsIdentStart(s[i]) then WordEnd(s, i + 1)
    else i + 1
  }

  // A word, a quoted, backticked or bracketed region, or any other character.
  function TokenAt(s: string, i: nat): (t: Token)
    requires i < |s|
    ensures t.text == s[i..TokenEnd(s, i)]
  {
    var text := s[i..TokenEnd(s, i)];
    if IsQuote(s[i]) || s[i] == '[' then Region(text)
    else if IsIdentStart(s[i]) then Word(text)
    else Other(text)
  }

  function Tokens(s: string, i: nat): seq<Token>
    requires i <= |s|
    decreases |s| - i
  {
    if i == |s| then [] else [TokenAt(s, i)] + Tokens(s, TokenEnd(s, i))
  }

  // The token with its case forgotten if it is a keyword, and only then.
  function Fold(t: Token): (r: Token)
    ensures |r.text| == |t.text|
    ensures !t.Word? ==> r == t
  {
    if t.Word? && IsKeyword(Lower(t.text)) then Word(Lower(t.text)) else t
  }

  function FoldAll(ts: seq<Token>): seq<Token> {
    if ts == [] then [] else [Fold(ts[0])] + FoldAll(ts[1..])
  }

  function Join(ts: seq<Token>): string {
    if ts == [] then "" else ts[0].text + Join(ts[1..])
  }

  lemma FoldCons(t: Token, rest: seq<Token>)
    ensures FoldAll([t] + rest) == [Fold(t)] + FoldAll(rest)
    ensures Join([t] + rest) == t.text + Join(rest)
  {
    assert ([t] + rest)[1..] == rest;
  }

  lemma FoldIdempotent(t: Token)
    ensures Fold(Fold(t)) == Fold(t)
  {
    hide IsKeyword;
    LowerIdempotent(t.text);
  }

  // What canonicalising makes of s from i on.
  function Canonical(s: string, i: nat): (r: string)
    requires i <= |s|
    ensures |r| == |s| - i
    decreases |s| - i
  {
    if i == |s| then "" else Fold(TokenAt(s, i)).text + Canonical(s, TokenEnd(s, i))
  }

  lemma {:induction false} CanonicalIsFold(s: string, i: nat)
    requires i <= |s|
    ensures Canonical(s, i) == Join(FoldAll(Tokens(s, i)))
    decreases |s| - i
  {
    hide TokenAt, TokenEnd, Fold;
    if i < |s| {
      var t, rest := TokenAt(s, i), Tokens(s, TokenEnd(s, i));
      CanonicalIsFold(s, TokenEnd(s, i));
      FoldCons(t, rest);
      FoldCons(Fold(t), FoldAll(rest));
    }
  }

  // ---------------------------------------------------------------- letter case

  // Equal up to the case of letters.
  predicate SameChar(a: char, b: char) {
    a == b || (LowerChar(a) == LowerChar(b) && IsIdentStart(a) && IsIdentStart(b))
  }

  predicate SameText(s: string, t: string) {
    |s| == |t| && forall i :: 0 <= i < |s| ==> SameChar(s[i], t[i])
  }

  lemma SameClass(a: char, b: char)
    requires SameChar(a, b)
    ensures IsGapChar(a) ==> a == b
    ensures IsSpace(a) <==> IsSpace(b)
  {
  }

  // The scanners find the same pieces and tokens whatever the case of a letter and
  // whatever the separator.
  predicate Alike(a: char, b: char) {
    SameChar(a, b) || (IsGapChar(a) && IsGapChar(b))
  }

  predicate AlikeText(s: string, t: string) {
    |s| == |t| && forall i :: 0 <= i < |s| ==> Alike(s[i], t[i])
  }

  lemma AlikeClass(a: char, b: char)
    requires Alike(a, b)
    ensures IsGapChar(a) <==> IsGapChar(b)
    ensures IsQuote(a) || IsQuote(b) || a == '\\' || b == '\\' ==> a == b
    ensures a == '[' || b == '[' || a == ']' || b == ']' ==> a == b
    ensures IsIdentStart(a) <==> IsIdentStart(b)
    ensures IsIdentPart(a) <==> IsIdentPart(b)
  {
  }

  lemma SameIsAlike(s: string, t: string)
    requires SameText(s, t)
    ensures AlikeText(s, t)
  {
    hide SameChar, IsGapChar;
  }

  lemma {:induction false} AlikeLiteralEnd(q: char, s: string, t: string, i: nat)
    requires AlikeText(s, t) && i <= |s| && IsQuote(q)
    ensures LiteralEnd(q, s, i) == LiteralEnd(q, t, i)
    decreases |s| - i
  {
    hide IsQuote, IsGapChar, IsSpace, IsIdentStart, IsIdentPart, Alike;
    if i < |s| {
      AlikeClass(s[i], t[i]);
      AlikeLiteralEnd(q, s, t, i + 1);
      if i + 1 < |s| {
        AlikeClass(s[i + 1], t[i + 1]);
        AlikeLiteralEnd(q, s, t, i + 2);
      }
    }
  }

  lemma {:induction false} AlikeBracketEnd(s: string, t: string, i: nat)
    requires AlikeText(s, t) && i <= |s|
    ensures BracketEnd(s, i) == BracketEnd(t, i)
    decreases |s| - i
  {
    hide IsQuote, IsGapChar, IsSpace, IsIdentStart, IsIdentPart, Alike;
    if i < |s| {
      AlikeClass(s[i], t[i]);
      AlikeBracketEnd(s, t, i + 1);
      if i + 1 < |s| {
        AlikeClass(s[i + 1], t[i + 1]);
        AlikeBracketEnd(s, t, i + 2);
      }
    }
  }

  lemma {:induction false} AlikeWordEnd(s: string, t: string, i: nat)
    requires AlikeText(s, t) && i <= |s|
    ensures WordEnd(s, i) == WordEnd(t, i)
    decreases |s| - i
  {
    hide IsQuote, IsGapChar, IsSpace, IsIdentStart, IsIdentPart, Alike;
    if i < |s| {
      AlikeClass(s[i], t[i]);
      AlikeWordEnd(s, t, i + 1);
    }
  }

  lemma {:induction false} AlikeGapEnd(s: string, t: string, i: nat)
    requires AlikeText(s, t) && i <= |s|
    ensures GapEnd(s, i) == GapEnd(t, i)
    decreases |s| - i
  {
    hide IsQuote, IsGapChar, IsSpace, IsIdentStart, IsIdentPart, Alike;
    if i < |s| {
      AlikeClass(s[i], t[i]);
      AlikeGapEnd(s, t, i + 1);
    }
  }

  lemma AlikeTokenEnd(s: string, t: string, i: nat)
    requires AlikeText(s, t) && i < |s|
    ensures TokenEnd(s, i) == TokenEnd(t, i)
    ensures TokenAt(s, i).Word? == TokenAt(t, i).Word? && TokenAt(s, i).Region? == TokenAt(t, i).Region?
  {
    hide IsQuote, IsGapChar, IsSpace, IsIdentStart, IsIdentPart, Alike, LiteralEnd, BracketEnd, WordEnd;
    AlikeClass(s[i], t[i]);
    if IsQuote(s[i]) {
      AlikeLiteralEnd(s[i], s, t, i + 1);
    }
    AlikeBracketEnd(s, t, i + 1);
    AlikeWordEnd(s, t, i + 1);
  }

  // ---------------------------------------------------------------- canonicalising

  lemma SameFolded(t: Token)
    requires forall k :: 0 <= k < |t.text| && t.Word? ==> IsIdentPart(t.text[k])
    ensures SameText(t.text, Fold(t).text)
  {
    hide IsKeyword;
    forall k | 0 <= k < |t.text|
      ensures SameChar(t.text[k], Fold(t).text[k])
    {
    }
  }

  lemma WordIsIdent(s: string, i: nat)
    requires i < |s|
    ensures forall k :: 0 <= k < |TokenAt(s, i).text| && TokenAt(s, i).Word? ==> IsIdentPart(TokenAt(s, i).text[k])
  {
    var t := TokenAt(s, i);
    if t.Word? {
      forall k | 0 <= k < |t.text|
        ensures IsIdentPart(t.text[k])
      {
        assert t.text[k] == s[i + k];
      }
    }
  }

  // Canonicalising keeps the length and changes nothing but the case of letters.
  lemma {:induction false} CanonicalSame(s: string, i: nat)
    requires i <= |s|
    ensures SameText(s[i..], Canonical(s, i))
    decreases |s| - i
  {
    hide TokenAt, TokenEnd, Fold, SameChar;
    if i < |s| {
      var t, e := TokenAt(s, i), TokenEnd(s, i);
      WordIsIdent(s, i);
      SameFolded(t);
      CanonicalSame(s, e);
      SameConcat(s[i..e], s[e..], Fold(t).text, Canonical(s, e));
      assert s[i..] == s[i..e] + s[e..];
    }
  }

  lemma SameConcat(a: string, b: string, c: string, d: string)
    requires SameText(a, c) && SameText(b, d)
    ensures SameText(a + b, c + d)
  {
    hide SameChar;
  }

  lemma CanonicalRest(s: string, t: string, i: nat)
    requires SameText(s, t) && i < |s| && t[i..] == Canonical(s, i)
    ensures t[i..TokenEnd(s, i)] == Fold(TokenAt(s, i)).text
    ensures t[TokenEnd(s, i)..] == Canonical(s, TokenEnd(s, i))
  {
    hide TokenAt, TokenEnd, Fold, SameText;
    SameLength(s, t);
    var text, e := Fold(TokenAt(s, i)).text, TokenEnd(s, i);
    assert t[i..] == text + Canonical(s, e);
    assert t[i..e] == t[i..][..e - i] == text;
    assert t[e..] == t[i..][e - i..] == Canonical(s, e);
  }

  // Reading a canonical text gives the folded tokens of the original.
  lemma {:induction false} ReadCanonical(s: string, t: string, i: nat)
    requires SameText(s, t) && i <= |s| && t[i..] == Canonical(s, i)
    ensures Tokens(t, i) == FoldAll(Tokens(s, i))
    decreases |s| - i
  {
    hide TokenAt, TokenEnd, Fold, SameText, AlikeText, Canonical, FoldAll;
    SameLength(s, t);
    if i == |s| {
      NothingFolded();
    } else {
      SameIsAlike(s, t);
      AlikeTokenEnd(s, t, i);
      CanonicalRest(s, t, i);
      ReadCanonical(s, t, TokenEnd(s, i));
      FoldCons(TokenAt(s, i), Tokens(s, TokenEnd(s, i)));
      FoldedToken(s, t, i);
    }
  }

  lemma NothingFolded()
    ensures FoldAll([]) == []
  {
  }

  lemma SameLength(s: string, t: string)
    requires SameText(s, t)
    ensures |s| == |t|
  {
  }

  lemma FoldedToken(s: string, t: string, i: nat)
    requires SameText(s, t) && i < |s| && TokenEnd(t, i) == TokenEnd(s, i)
    requires t[i..TokenEnd(s, i)] == Fold(TokenAt(s, i)).text
    requires TokenAt(s, i).Word? == TokenAt(t, i).Word? && TokenAt(s, i).Region? == TokenAt(t, i).Region?
    ensures TokenAt(t, i) == Fold(TokenAt(s, i))
  {
    hide TokenEnd, Lower, SameText, IsQuote, IsIdentStart, IsKeyword;
  }

  // Canonical texts agree exactly when the tokens agree up to the case of whole
  // unquoted keywords; regions and all other words count character for character.
  lemma CanonicalEqualIff(s: string, t: string)
    ensures Canonical(s, 0) == Canonical(t, 0) <==> FoldAll(Tokens(s, 0)) == FoldAll(Tokens(t, 0))
  {
    hide Canonical, Tokens, FoldAll, SameText;
    CanonicalTokens(s);
    CanonicalTokens(t);
    CanonicalIsFold(s, 0);
    CanonicalIsFold(t, 0);
  }

  lemma CanonicalTokens(s: string)
    ensures SameText(s, Canonical(s, 0))
    ensures Tokens(Canonical(s, 0), 0) == FoldAll(Tokens(s, 0))
  {
    hide Canonical, Tokens, FoldAll, SameText;
    CanonicalSame(s, 0);
    assert s[0..] == s;
    var t := Canonical(s, 0);
    assert t[0..] == t;
    ReadCanonical(s, t, 0);
  }

  lemma CanonicalIdempotent(s: string)
    ensures Canonical(Canonical(s, 0), 0) == Canonical(s, 0)
  {
    hide Canonical, Tokens, FoldAll, SameText;
    CanonicalTokens(s);
    CanonicalIsFold(s, 0);
    CanonicalIsFold(Canonical(s, 0), 0);
    FoldAllIdempotent(Tokens(s, 0));
  }

  lemma {:induction false} FoldAllIdempotent(ts: seq<Token>)
    ensures FoldAll(FoldAll(ts)) == FoldAll(ts)
  {
    hide Fold;
    if ts != [] {
      FoldAllIdempotent(ts[1..]);
      FoldIdempotent(ts[0]);
      FoldCons(Fold(ts[0]), FoldAll(ts[1..]));
    }
  }

  // A change of letter case leaves a collapsed text collapsed.
  lemma {:induction false} CaseKeepsCollapsed(s: string, t: string, i: nat)
    requires SameText(s, t) && i <= |s| && Collapsed(s, i) == s[i..]
    ensures Collapsed(t, i) == t[i..]
    decreases |s| - i
  {
    hide SameChar, AlikeText, PieceAt, PieceEnd, Squeeze, Collapsed;
    if i < |s| {
      SameIsAlike(s, t);
      AlikePieceEnd(s, t, i);
      SplitOff(s, i);
      CaseKeepsCollapsed(s, t, PieceEnd(s, i));
      SqueezedPiece(s, t, i);
      PutBack(t, i);
    } else {
      CollapsedEnd(t);
    }
  }

  lemma CollapsedEnd(s: string)
    ensures Collapsed(s, |s|) == ""
  {
  }

  // The first piece of a collapsed text is as it was, and the rest is collapsed.
  lemma SplitOff(s: string, i: nat)
    requires i < |s| && Collapsed(s, i) == s[i..]
    ensures var e := PieceEnd(s, i); Squeeze(PieceAt(s, i)).text == s[i..e] && Collapsed(s, e) == s[e..]
  {
    hide IsGapChar, IsQuote, LiteralEnd, GapEnd;
    var e := PieceEnd(s, i);
    var text := Squeeze(PieceAt(s, i)).text;
    assert s[i..] == text + Collapsed(s, e);
    assert |text| == e - i;
    assert Collapsed(s, e) == s[i..][e - i..] == s[e..];
    assert text == s[i..][..e - i] == s[i..e];
  }

  lemma PutBack(t: string, i: nat)
    requires i < |t| && Squeeze(PieceAt(t, i)).text == t[i..PieceEnd(t, i)]
    requires Collapsed(t, PieceEnd(t, i)) == t[PieceEnd(t, i)..]
    ensures Collapsed(t, i) == t[i..]
  {
    hide IsGapChar, PieceAt, PieceEnd, Squeeze;
    assert t[i..] == t[i..PieceEnd(t, i)] + t[PieceEnd(t, i)..];
  }

  lemma AlikePieceEnd(s: string, t: string, i: nat)
    requires AlikeText(s, t) && i < |s|
    ensures PieceEnd(s, i) == PieceEnd(t, i)
    ensures PieceAt(s, i).Gap? == PieceAt(t, i).Gap?
  {
    hide Alike, IsGapChar, IsQuote, LiteralEnd, GapEnd, IsSpace, IsIdentStart, IsIdentPart;
    AlikeClass(s[i], t[i]);
    AlikeGapEnd(s, t, i);
    if IsQuote(s[i]) {
      AlikeLiteralEnd(s[i], s, t, i + 1);
    }
  }

  lemma SqueezedPiece(s: string, t: string, i: nat)
    requires SameText(s, t) && i < |s| && PieceEnd(s, i) == PieceEnd(t, i)
    requires PieceAt(s, i).Gap? == PieceAt(t, i).Gap?
    requires Squeeze(PieceAt(s, i)).text == s[i..PieceEnd(s, i)]
    ensures Squeeze(PieceAt(t, i)).text == t[i..PieceEnd(t, i)]
  {
    hide SameChar, IsSpace, IsIdentStart, IsIdentPart, LiteralEnd, GapEnd;
    if PieceAt(s, i).Gap? {
      assert s[i..PieceEnd(s, i)] == " ";
      assert s[i] == s[i..PieceEnd(s, i)][0];
      SameClass(s[i], t[i]);
      assert t[i..i + 1] == [t[i]];
    }
  }

  // ---------------------------------------------------------------- the scanner

  // What is still to be written inside a region that ends at e.
  ghost function InRegion(s: string, i: nat, e: nat): string
    requires i <= e <= |s|
  {
    s[i..e] + Canonical(s, e)
  }

  lemma RegionStep(s: string, i: nat, n: nat, e: nat)
    requires i <= n <= e <= |s|
    ensures InRegion(s, i, e) == s[i..n] + InRegion(s, n, e)
    ensures InRegion(s, e, e) == Canonical(s, e)
  {
    hide Canonical;
    assert s[i..e] == s[i..n] + s[n..e];
    Assoc(s[i..n], s[n..e], Canonical(s, e));
  }

  lemma OpenRegion(s: string, i: nat)
    requires i < |s| && (IsQuote(s[i]) || s[i] == '[')
    ensures Canonical(s, i) == InRegion(s, i, TokenEnd(s, i))
  {
    hide TokenEnd, IsQuote;
  }

  lemma WordFacts(s: string, i: nat)
    requires i < |s| && !IsQuote(s[i]) && s[i] != '['
    ensures TokenEnd(s, i) == if IsIdentStart(s[i]) then WordEnd(s, i + 1) else i + 1
    ensures Canonical(s, i) == Fold(TokenAt(s, i)).text + Canonical(s, TokenEnd(s, i))
    ensures !IsIdentStart(s[i]) ==> Fold(TokenAt(s, i)).text == [s[i]]
    ensures IsIdentStart(s[i]) ==>
              var w := s[i..TokenEnd(s, i)];
              Fold(TokenAt(s, i)).text == if IsKeyword(Lower(w)) then Lower(w) else w
  {
    hide WordEnd, Lower, IsIdentStart, IsQuote, IsKeyword;
  }

  lemma BracketFacts(s: string, i: nat)
    requires i < |s|
    ensures BracketEnd(s, i) ==
            if s[i] != ']' then BracketEnd(s, i + 1)
            else if i + 1 < |s| && s[i + 1] == ']' then BracketEnd(s, i + 2)
            else i + 1
  {
  }

  lemma OpenFacts(s: string, i: nat)
    requires i < |s|
    ensures IsQuote(s[i]) ==> TokenEnd(s, i) == LiteralEnd(s[i], s, i + 1)
    ensures s[i] == '[' ==> TokenEnd(s, i) == BracketEnd(s, i + 1)
  {
  }

  lemma WordEndFacts(s: string, i: nat)
    requires i <= |s|
    ensures i < |s| && IsIdentPart(s[i]) ==> WordEnd(s, i) == WordEnd(s, i + 1)
    ensures !(i < |s| && IsIdentPart(s[i])) ==> WordEnd(s, i) == i
  {
  }

  function CanonicalizeKeywords(statement: string): string {
    Canonical(TrimSpace(statement), 0)
  }

  lemma CanonicalIsTrimmed(statement: string)
    ensures var s := TrimSpace(statement); TrimSpace(Canonical(s, 0)) == Canonical(s, 0)
    ensures TrimSpace(statement) == "" ==> CanonicalizeKeywords(statement) == ""
  {
    hide Canonical, IsSpace, SameChar, IsGapChar, IsQuote, IsIdentStart, IsIdentPart;
    var s := TrimSpace(statement);
    CanonicalTokens(s);
    if s != "" {
      SameClass(s[0], Canonical(s, 0)[0]);
      SameClass(s[|s| - 1], Canonical(s, 0)[|s| - 1]);
    }
  }

  lemma CanonicalEnd(s: string)
    ensures Canonical(s, |s|) == ""
  {
  }

  // The word or other character outside regions at i, as it is written.
  method ReadWord(s: string, i: nat) returns (word: string, n: nat)
    requires i < |s| && !IsQuote(s[i]) && s[i] != '['
    ensures i < n <= |s| && Canonical(s, i) == word + Canonical(s, n)
  {
    hide IsQuote, IsIdentStart, IsIdentPart, Canonical, WordEnd, TokenEnd, Lower, IsKeyword, Fold, TokenAt;
    WordFacts(s, i);
    n := i + 1;
    if !IsIdentStart(s[i]) {
      return [s[i]], n;
    }
    WordEndFacts(s, n);
    while n < |s| && IsIdentPart(s[n])
      invariant i < n <= |s|
      invariant WordEnd(s, n) == WordEnd(s, i + 1)
    {
      WordEndFacts(s, n);
      n := n + 1;
    }
    WordEndFacts(s, n);
    var token := s[i..n];
    var lower := Lower(token);
    word := if IsKeyword(lower) then lower else token;
  }

  // canonicalizeExecuteStatementKeywords. `quote` is the one of its three
  // in-literal flags that is set, if any; e is where the current region ends.
  method Canonicalize(statement: string) returns (r: string)
    ensures r == CanonicalizeKeywords(statement)
  {
    hide IsSpace, IsQuote, IsIdentStart, IsIdentPart, Canonical, LiteralEnd, BracketEnd, WordEnd, TokenEnd,
      InRegion, Written, Lower, Trimmed, TrimSpace, IsKeyword, Fold, TokenAt;
    CanonicalIsTrimmed(statement);
    var s := TrimSpace(statement);
    if s == "" {
      return "";
    }
    var b, i := "", 0;
    var inLiteral, quote, inBracket := false, '"', false;
    ghost var total, e := Canonical(s, 0), 0;
    WrittenEnds(b, total, total);
    while i < |s|
      invariant i <= |s|
      invariant !(inLiteral && inBracket)
      invariant inLiteral ==> i <= e <= |s| && e == LiteralEnd(quote, s, i)
      invariant inBracket ==> i <= e <= |s| && e == BracketEnd(s, i)
      invariant Written(b, if inLiteral || inBracket then InRegion(s, i, e) else Canonical(s, i), total)
    {
      var ch, n := s[i], i + 1;
      if inLiteral {
        LiteralStep(quote, s, i);
        if (ch == '\\' && n < |s|) || (ch == quote && quote != '`' && n < |s| && s[n] == quote) {
          n := n + 1;
        } else if ch == quote {
          inLiteral := false;
        }
        RegionStep(s, i, n, e);
        Write(b, s[i..n], InRegion(s, n, e), total);
        b, i := b + s[i..n], n;
      } else if inBracket {
        BracketFacts(s, i);
        if ch == ']' {
          if n < |s| && s[n] == ']' {
            n := n + 1;
          } else {
            inBracket := false;
          }
        }
        RegionStep(s, i, n, e);
        Write(b, s[i..n], InRegion(s, n, e), total);
        b, i := b + s[i..n], n;
      } else if IsQuote(ch) || ch == '[' {
        OpenRegion(s, i);
        OpenFacts(s, i);
        e := TokenEnd(s, i);
        RegionStep(s, i, n, e);
        if IsQuote(ch) {
          inLiteral, quote := true, ch;
        } else {
          inBracket := true;
        }
        OneChar(s, i);
        Write(b, [ch], InRegion(s, n, e), total);
        b, i := b + [ch], n;
      } else {
        var word;
        word, n := ReadWord(s, i);
        Write(b, word, Canonical(s, n), total);
        b, i := b + word, n;
      }
    }
    if inLiteral || inBracket {
      RegionStep(s, i, i, e);
    }
    CanonicalEnd(s);
    WrittenEnds(b, "", total);
    r := TrimSpace(b);
  }

  // ---------------------------------------------------------------- the key

  // normalizeExecuteStatementSignature, after sanitizeStatementForTool.
  function Normalize(sanitized: string): string {
    var collapsed := Collapse(sanitized);
    if collapsed == "" then "" else CanonicalizeKeywords(collapsed)
  }

  method NormalizeSignature(sanitized: string) returns (r: string)
    ensures r == Normalize(sanitized)
  {
    if sanitized == "" {
      CollapseIdempotent("");
      return "";
    }
    var collapsed := CollapseWhitespace(sanitized);
    if collapsed == "" {
      return "";
    }
    r := Canonicalize(collapsed);
  }

  lemma NormalizeIs(s: string)
    ensures Normalize(s) == Canonical(Collapse(s), 0)
    ensures TrimSpace(Collapse(s)) == Collapse(s)
  {
    hide Canonical, Collapsed, IsSpace;
    CollapseIdempotent(s);
    CanonicalEnd("");
  }

  // Two statements get the same key exactly when, read with their gaps squeezed,
  // they have the same tokens up to the case of whole unquoted keywords.
  lemma SameKeyIff(s: string, t: string)
    ensures Normalize(s) == Normalize(t)
       <==> FoldAll(Tokens(Collapse(s), 0)) == FoldAll(Tokens(Collapse(t), 0))
  {
    hide *;
    NormalizeIs(s);
    NormalizeIs(t);
    CanonicalEqualIff(Collapse(s), Collapse(t));
  }

  // Statements that differ only in white space outside literals share a key.
  lemma SameShapeSameKey(s: string, t: string)
    requires Shape(Pieces(TrimSpace(s), 0)) == Shape(Pieces(TrimSpace(t), 0))
    ensures Normalize(s) == Normalize(t)
  {
    hide *;
    CollapseEqualIffSameShape(s, t);
    NormalizeIs(s);
    NormalizeIs(t);
  }

  // The key is a fixpoint of both scanners, and so of the normaliser.
  lemma NormalizeIdempotent(s: string)
    ensures Collapse(Normalize(s)) == Normalize(s)
    ensures Normalize(Normalize(s)) == Normalize(s)
  {
    hide Canonical, Collapsed, IsSpace, SameText, Tokens, FoldAll, TrimSpace;
    var c := Collapse(s);
    NormalizeIs(s);
    CollapseIdempotent(s);
    CanonicalTokens(c);
    var key := Canonical(c, 0);
    CanonicalIsTrimmed(c);
    assert c[0..] == c && key[0..] == key;
    CaseKeepsCollapsed(c, key, 0);
    NormalizeIs(key);
    CanonicalIdempotent(c);
  }
}
