// When the duplicate-execute key (internal/aichat/runtime_eino.go) is right: it
// stands for the statement exactly when its two scanners see the same gaps.
module StatementMeaning {
  import opened Text
  import opened LetterCase
  import opened StatementLexer
  import opened StatementKey
  import opened StatementGaps

  // ---------------------------------------------------------------- the meaning

  // A gap between words, or a token of the statement: a word, a character, or a
  // literal or bracketed name as one region.
  datatype Lexeme = Blank | Mark(token: Token)

  // The statement as written from i on: brackets and quotes both protect what they
  // hold, gaps outside count only as gaps and keywords have no case.
  function Reading(s: string, i: nat): seq<Lexeme>
    requires i <= |s|
    decreases |s| - i
  {
    if i == |s| then []
    else if IsGapChar(s[i]) then [Blank] + Reading(s, GapEnd(s, i))
    else [Mark(Fold(TokenAt(s, i)))] + Reading(s, TokenEnd(s, i))
  }

  function Meaning(statement: string): seq<Lexeme> {
    Reading(TrimSpace(statement), 0)
  }

  // ---------------------------------------------------------------- the squeezed text is the meaning

  function AsLexeme(t: Token): Lexeme {
    if t == Other(" ") then Blank else Mark(t)
  }

  function Lexemes(ts: seq<Token>): seq<Lexeme> {
    if ts == [] then [] else [AsLexeme(ts[0])] + Lexemes(ts[1..])
  }

  lemma {:induction false} LexemesInjective(ts: seq<Token>, us: seq<Token>)
    requires Lexemes(ts) == Lexemes(us)
    ensures ts == us
  {
    if ts != [] && us != [] {
      assert Lexemes(ts)[1..] == Lexemes(ts[1..]) && Lexemes(us)[1..] == Lexemes(us[1..]);
      assert AsLexeme(ts[0]) == Lexemes(ts)[0] == Lexemes(us)[0] == AsLexeme(us[0]);
      LexemesInjective(ts[1..], us[1..]);
      assert ts == [ts[0]] + ts[1..] && us == [us[0]] + us[1..];
    }
  }

  lemma LexemesCons(t: Token, ts: seq<Token>)
    ensures Lexemes(FoldAll([t] + ts)) == [AsLexeme(Fold(t))] + Lexemes(FoldAll(ts))
  {
    hide Fold, FoldAll;
    FoldCons(t, ts);
    assert ([Fold(t)] + FoldAll(ts))[1..] == FoldAll(ts);
  }

  lemma TokensStep(t: string, k: nat)
    requires k < |t|
    ensures Tokens(t, k) == [TokenAt(t, k)] + Tokens(t, TokenEnd(t, k))
  {
    hide TokenAt, TokenEnd;
  }

  lemma SpaceToken(t: string, k: nat)
    requires k < |t| && t[k] == ' '
    ensures TokenEnd(t, k) == k + 1 && AsLexeme(Fold(TokenAt(t, k))) == Blank
  {
    hide LiteralEnd, BracketEnd, WordEnd, Lower, IsKeyword;
    assert t[k..k + 1] == " ";
  }

  lemma MarkedToken(s: string, i: nat, t: string, k: nat)
    requires i < |s| && k < |t| && s[i] == t[k] && !IsGapChar(s[i])
    requires t[k..TokenEnd(t, k)] == s[i..TokenEnd(s, i)]
    ensures AsLexeme(Fold(TokenAt(t, k))) == Mark(Fold(TokenAt(s, i)))
  {
    hide TokenEnd, IsIdentStart, IsQuote, IsKeyword, Lower;
    SpaceIsAGap(' ');
    var text := s[i..TokenEnd(s, i)];
    assert text[0] == s[i];
  }

  lemma ReadingStep(s: string, i: nat)
    requires i < |s|
    ensures IsGapChar(s[i]) ==> Reading(s, i) == [Blank] + Reading(s, GapEnd(s, i))
    ensures !IsGapChar(s[i]) ==> Reading(s, i) == [Mark(Fold(TokenAt(s, i)))] + Reading(s, TokenEnd(s, i))
  {
    hide TokenAt, TokenEnd, GapEnd, IsGapChar, Fold;
  }

  // Squeezed outside all regions, a text reads as its meaning.
  lemma {:induction false} ReadSqueezed(s: string, i: nat, t: string, k: nat)
    requires i <= |s| && k <= |t| && t[k..] == Squeezed(true, s, i)
    ensures Lexemes(FoldAll(Tokens(t, k))) == Reading(s, i)
    decreases |s| - i
  {
    hide *;
    FirstSqueezed(true, s, i);
    FirstOfRest(t, k);
    if i == |s| {
      NothingRead(s, t);
    } else {
      TokensStep(t, k);
      ReadingStep(s, i);
      if IsGapChar(s[i]) {
        GapSqueezed(true, s, i, t, k);
        SpaceToken(t, k);
        ReadSqueezed(s, GapEnd(s, i), t, k + 1);
      } else {
        SqueezedUnit(true, s, i, t, k);
        MarkedToken(s, i, t, k);
        ReadSqueezed(s, TokenEnd(s, i), t, TokenEnd(t, k));
      }
      LexemesCons(TokenAt(t, k), Tokens(t, TokenEnd(t, k)));
    }
  }

  lemma NothingRead(s: string, t: string)
    ensures Lexemes(FoldAll(Tokens(t, |t|))) == Reading(s, |s|)
  {
    hide *;
    EmptyTokens(t);
    EmptyReading(s);
    NothingFolded();
    NoLexemes();
  }

  lemma EmptyTokens(t: string)
    ensures Tokens(t, |t|) == []
  {
    hide TokenAt, TokenEnd;
  }

  lemma EmptyReading(s: string)
    ensures Reading(s, |s|) == []
  {
    hide TokenAt, TokenEnd, GapEnd, IsGapChar, Fold;
  }

  lemma NoLexemes()
    ensures Lexemes([]) == []
  {
  }

  lemma SqueezedUnit(brackets: bool, s: string, i: nat, t: string, k: nat)
    requires i < |s| && !IsGapChar(s[i]) && k < |t| && t[k..] == Squeezed(brackets, s, i)
    ensures var e, f := UnitEnd(brackets, s, i), UnitEnd(brackets, t, k);
            && t[k] == s[i] && !IsGapChar(t[k])
            && i < e <= |s| && k < f <= |t|
            && t[k..f] == s[i..e] && t[f..] == Squeezed(brackets, s, e)
            && (brackets ==> e == TokenEnd(s, i) && f == TokenEnd(t, k))
  {
    hide *;
    UnitFacts(brackets, s, i);
    var e := UnitEnd(brackets, s, i);
    var f := k + (e - i);
    SliceLength(s, i, e);
    SplitRest(t, k, s[i..e], Squeezed(brackets, s, e));
    SliceEqual(s, i, e, t, k);
    FirstSqueezed(brackets, s, e);
    FirstOfRest(t, f);
    if e < |s| {
      SpaceIsAGap(s[e]);
    }
    BothNext(s, e, t, f);
    UnitEndCopied(brackets, s, i, t, k);
    UnitFacts(brackets, t, k);
  }

  // Two statements mean the same exactly when, squeezed outside all regions, they
  // are written the same up to the case of keywords.
  lemma SameMeaningIff(s: string, t: string)
    ensures Meaning(s) == Meaning(t)
       <==> Canonical(Squeezed(true, TrimSpace(s), 0), 0) == Canonical(Squeezed(true, TrimSpace(t), 0), 0)
  {
    hide *;
    var x, y := Squeezed(true, TrimSpace(s), 0), Squeezed(true, TrimSpace(t), 0);
    MeaningIs(s, x);
    MeaningIs(t, y);
    CanonicalEqualIff(x, y);
    if Meaning(s) == Meaning(t) {
      LexemesInjective(FoldAll(Tokens(x, 0)), FoldAll(Tokens(y, 0)));
    }
  }

  lemma MeaningIs(s: string, x: string)
    requires x == Squeezed(true, TrimSpace(s), 0)
    ensures Meaning(s) == Lexemes(FoldAll(Tokens(x, 0)))
  {
    hide Lexemes, FoldAll, Tokens, Reading, Squeezed, TrimSpace;
    assert x[0..] == x;
    ReadSqueezed(TrimSpace(s), 0, x, 0);
  }

  lemma KeyIs(s: string)
    ensures Normalize(s) == Canonical(Squeezed(false, TrimSpace(s), 0), 0)
  {
    hide Normalize, Canonical, Collapsed, Squeezed, TrimSpace;
    NormalizeIs(s);
    CollapsedIsSqueezed(TrimSpace(s), 0);
  }

  // ---------------------------------------------------------------- when the key is the meaning

  // The statement with the separator on which the scanners part exchanged.
  function Partner(statement: string): (t: string)
    requires !SameGaps(TrimSpace(statement), 0)
  {
    var s := TrimSpace(statement);
    s[Parting(s, 0) := if s[Parting(s, 0)] == ' ' then '\t' else ' ']
  }

  lemma PartnerFacts(statement: string)
    requires !SameGaps(TrimSpace(statement), 0)
    ensures var s, t := TrimSpace(statement), Partner(statement);
            OtherGap(s, Parting(s, 0), t) && TrimSpace(t) == t
  {
    hide Parting, SameGaps, IsGapChar, IsSpace;
    var s := TrimSpace(statement);
    PartingBounds(s, 0);
    NotAGap(s[0]);
    NotAGap(s[|s| - 1]);
    TwoGaps();
  }

  lemma TwoGaps()
    ensures IsGapChar(' ') && IsGapChar('\t')
  {
  }

  // A statement on which the scanners part has a partner with the wrong key: one
  // that shares its key and means something else, or means the same and has another.
  lemma PartnerIsWrong(statement: string)
    requires !SameGaps(TrimSpace(statement), 0)
    ensures var merged := !SeenWithBrackets(TrimSpace(statement), 0);
            && (Normalize(statement) == Normalize(Partner(statement)) <==> merged)
            && (Meaning(statement) == Meaning(Partner(statement)) <==> !merged)
  {
    hide *;
    var s, t := TrimSpace(statement), Partner(statement);
    PartnerFacts(statement);
    KeyIs(statement);
    KeyIs(t);
    SameMeaningIff(statement, t);
    SeeingOne(s, Parting(s, 0), t, 0);
    BlindOne(s, Parting(s, 0), t, 0);
    var b := !SeenWithBrackets(s, 0);
    if Canonical(Squeezed(b, s, 0), 0) == Canonical(Squeezed(b, t, 0), 0) {
      CanonicalSameText(Squeezed(b, s, 0), Squeezed(b, t, 0));
    }
  }

  lemma CanonicalSameText(x: string, y: string)
    requires Canonical(x, 0) == Canonical(y, 0)
    ensures SameText(x, y)
  {
    hide SameChar, Canonical;
    CanonicalTokens(x);
    CanonicalTokens(y);
    var c := Canonical(x, 0);
    forall i | 0 <= i < |x|
      ensures SameChar(x[i], y[i])
    {
      SameThrough(x[i], c[i], y[i]);
    }
  }

  lemma SameThrough(a: char, c: char, b: char)
    requires SameChar(a, c) && SameChar(b, c)
    ensures SameChar(a, b)
  {
  }

  // Texts of one key, or of one meaning, are squeezed to the same letters.
  lemma SameSqueezedGaps(b: bool, s: string, t: string)
    requires Canonical(Squeezed(b, s, 0), 0) == Canonical(Squeezed(b, t, 0), 0)
    ensures SameGaps(s, 0) <==> SameGaps(t, 0)
  {
    hide *;
    var x, y := Squeezed(b, s, 0), Squeezed(b, t, 0);
    CanonicalSameText(x, y);
    SameIsAlike(x, y);
    AlikeSameGaps(x, y, 0);
    assert x[0..] == x && y[0..] == y;
    SqueezedKeepsGaps(b, s, 0, x, 0);
    SqueezedKeepsGaps(b, t, 0, y, 0);
  }

  // Where the scanners agree, the key is the meaning, whatever the other statement.
  lemma KeyIsMeaning(s: string, t: string)
    requires SameGaps(TrimSpace(s), 0)
    ensures Normalize(s) == Normalize(t) <==> Meaning(s) == Meaning(t)
  {
    hide *;
    var u, v := TrimSpace(s), TrimSpace(t);
    KeyIs(s);
    KeyIs(t);
    SameMeaningIff(s, t);
    SameGapsSqueezed(u, 0);
    if Normalize(s) == Normalize(t) {
      SameSqueezedGaps(false, u, v);
      SameGapsSqueezed(v, 0);
    }
    if Meaning(s) == Meaning(t) {
      SameSqueezedGaps(true, u, v);
      SameGapsSqueezed(v, 0);
    }
  }

  // A statement's key stands for its meaning among all statements exactly when the
  // two scanners see the same gaps in it.
  lemma KeyIsMeaningIff(s: string)
    ensures (forall t :: Normalize(s) == Normalize(t) <==> Meaning(s) == Meaning(t))
       <==> SameGaps(TrimSpace(s), 0)
  {
    hide *;
    if SameGaps(TrimSpace(s), 0) {
      forall t
        ensures Normalize(s) == Normalize(t) <==> Meaning(s) == Meaning(t)
      {
        KeyIsMeaning(s, t);
      }
    } else {
      PartnerIsWrong(s);
      var t := Partner(s);
      assert !(Normalize(s) == Normalize(t) <==> Meaning(s) == Meaning(t));
    }
  }

  // ---------------------------------------------------------------- plain bracketed names

  predicate PlainChar(c: char) { !IsGapChar(c) && !IsQuote(c) }

  // If it is a bracketed name, no separator and no quote stands in it.
  predicate PlainName(l: Lexeme) {
    l.Mark? && l.token.Region? && l.token.text != "" && l.token.text[0] == '[' ==>
      forall k :: 0 <= k < |l.token.text| ==> PlainChar(l.token.text[k])
  }

  predicate PlainBrackets(ls: seq<Lexeme>) {
    forall k :: 0 <= k < |ls| ==> PlainName(ls[k])
  }

  // Characters that are neither separators nor quotes lead to the same first gap.
  lemma {:induction false} PlainRun(s: string, i: nat, n: nat)
    requires i <= n <= |s| && forall k :: i <= k < n ==> PlainChar(s[k])
    ensures FirstGap(false, s, i) == FirstGap(false, s, n)
    decreases n - i
  {
    hide PlainChar, FirstGap, UnitEnd, IsGapChar, IsQuote, GapEnd;
    if i < n {
      PlainUnit(s, i);
      PlainRun(s, i + 1, n);
    }
  }

  lemma PlainUnit(s: string, i: nat)
    requires i < |s| && PlainChar(s[i])
    ensures FirstGap(false, s, i) == FirstGap(false, s, i + 1)
  {
    hide IsGapChar, IsQuote, GapEnd, LiteralEnd;
  }

  // A token read with brackets leads the other scanner to the same first gap.
  lemma PlainToken(s: string, i: nat)
    requires i < |s| && !IsGapChar(s[i]) && PlainName(Mark(Fold(TokenAt(s, i))))
    ensures FirstGap(false, s, i) == FirstGap(false, s, TokenEnd(s, i))
  {
    hide *;
    if IsQuote(s[i]) {
      UnitIs(false, s, i);
      UnitIs(true, s, i);
      UnitFacts(true, s, i);
      UnitFacts(false, s, i);
    } else {
      PlainTokenChars(s, i);
      PlainRun(s, i, TokenEnd(s, i));
    }
  }

  lemma PlainTokenChars(s: string, i: nat)
    requires i < |s| && !IsGapChar(s[i]) && !IsQuote(s[i]) && PlainName(Mark(Fold(TokenAt(s, i))))
    ensures i <= TokenEnd(s, i) <= |s| && forall k :: i <= k < TokenEnd(s, i) ==> PlainChar(s[k])
  {
    hide IsGapChar, IsQuote, IsIdentPart, IsIdentStart, PlainChar, IsKeyword, BracketEnd, WordEnd;
    var e := TokenEnd(s, i);
    var t := TokenAt(s, i);
    WordIsIdent(s, i);
    forall k | i <= k < e
      ensures PlainChar(s[k])
    {
      assert t.text[k - i] == s[k];
      PlainPart(s[k]);
      PlainPart(s[i]);
      assert t.text[0] == s[i];
    }
  }

  lemma PlainPart(c: char)
    ensures IsIdentPart(c) || (!IsGapChar(c) && !IsQuote(c)) ==> PlainChar(c)
  {
  }

  lemma {:induction false} PlainGaps(s: string, i: nat)
    requires i <= |s| && PlainBrackets(Reading(s, i))
    ensures FirstGap(false, s, i) == FirstGap(true, s, i) && SameGaps(s, i)
    decreases |s| - i
  {
    hide *;
    if i == |s| {
      EndOfText(false, s);
      EndOfText(true, s);
    } else {
      ReadingStep(s, i);
      SameGapsFacts(s, i);
      if IsGapChar(s[i]) {
        GapFacts(false, s, i);
        GapFacts(true, s, i);
        PlainTail(Blank, Reading(s, GapEnd(s, i)));
        PlainGaps(s, GapEnd(s, i));
      } else {
        UnitFacts(true, s, i);
        PlainTail(Mark(Fold(TokenAt(s, i))), Reading(s, TokenEnd(s, i)));
        PlainToken(s, i);
        PlainGaps(s, TokenEnd(s, i));
        SameGapsFacts(s, TokenEnd(s, i));
      }
    }
  }

  lemma PlainTail(l: Lexeme, ls: seq<Lexeme>)
    requires PlainBrackets([l] + ls)
    ensures PlainName(l) && PlainBrackets(ls)
  {
    hide PlainName;
    assert ([l] + ls)[0] == l;
    forall k | 0 <= k < |ls|
      ensures PlainName(ls[k])
    {
      assert ([l] + ls)[k + 1] == ls[k];
    }
  }

  // Without separators and quotes in its bracketed names a statement shares its key
  // with the statements of its meaning and with no other.
  lemma PlainKeyIsMeaning(s: string, t: string)
    requires PlainBrackets(Meaning(s))
    ensures Normalize(s) == Normalize(t) <==> Meaning(s) == Meaning(t)
  {
    hide *;
    MeaningReads(s);
    PlainGaps(TrimSpace(s), 0);
    KeyIsMeaning(s, t);
  }

  lemma MeaningReads(s: string)
    ensures Meaning(s) == Reading(TrimSpace(s), 0)
  {
  }

  // ---------------------------------------------------------------- wrong keys

  lemma SqueezedAs(s: string, squeezed: string, read: string)
    requires s != "" && s[0] == '[' && (s[|s| - 1] in "]'" || IsIdentStart(s[|s| - 1]))
    requires Squeezed(false, s, 0) == squeezed && Squeezed(true, s, 0) == read
    ensures Normalize(s) == Canonical(squeezed, 0) && |Normalize(s)| == |squeezed|
    ensures Meaning(s) == Lexemes(FoldAll(Tokens(read, 0))) && |Canonical(read, 0)| == |read|
    ensures TrimSpace(s) == s
  {
    hide TrimSpace, Squeezed, Canonical, Lexemes, FoldAll, Tokens, Meaning, Normalize;
    assert Trimmed(s);
    KeyIs(s);
    MeaningIs(s, read);
  }

  lemma DifferentLengths(s: string, t: string)
    requires |Squeezed(true, TrimSpace(s), 0)| != |Squeezed(true, TrimSpace(t), 0)|
    ensures Meaning(s) != Meaning(t)
  {
    hide TrimSpace, Squeezed, Canonical, Meaning;
    SameMeaningIff(s, t);
  }

  lemma PlainStep(s: string, i: nat)
    requires i < |s| && PlainChar(s[i])
    ensures UnitEnd(false, s, i) == i + 1 && Squeezed(false, s, i) == [s[i]] + Squeezed(false, s, i + 1)
  {
    hide Squeezed, IsGapChar, IsQuote, GapEnd, LiteralEnd, UnitEnd;
    UnitIs(false, s, i);
    UnitFacts(false, s, i);
    OneChar(s, i);
  }

  // The white space of a bracketed name is squeezed like any other.
  lemma GapsInName()
    ensures Normalize("[a  b]") == Normalize("[a b]") && Meaning("[a  b]") != Meaning("[a b]")
  {
    hide Normalize, Meaning, TrimSpace, Squeezed, Canonical, Lexemes, FoldAll, Tokens;
    SqueezedName("[a  b]", 4);
    SqueezedName("[a b]", 3);
    SqueezedAs("[a  b]", "[a b]", "[a  b]");
    SqueezedAs("[a b]", "[a b]", "[a b]");
    DifferentLengths("[a  b]", "[a b]");
  }

  lemma SqueezedName(s: string, e: nat)
    requires (s == "[a  b]" && e == 4) || (s == "[a b]" && e == 3)
    ensures Squeezed(false, s, 0) == "[a b]" && Squeezed(true, s, 0) == s
  {
    hide Squeezed, UnitEnd, FirstGap, BracketEnd, GapEnd;
    PlainStep(s, 0);
    PlainStep(s, 1);
    GapFacts(false, s, 2);
    GapUntil(s, 2, e);
    PlainStep(s, e);
    PlainStep(s, e + 1);
    EndOfText(false, s);
    BracketUntil(s, 1, |s|);
    Unit(true, s, 0, |s|);
    EndOfText(true, s);
  }

  lemma Unit(brackets: bool, s: string, i: nat, e: nat)
    requires i < |s| && !IsGapChar(s[i])
    requires e == if IsQuote(s[i]) then LiteralEnd(s[i], s, i + 1)
                  else if brackets && s[i] == '[' then BracketEnd(s, i + 1)
                  else if brackets && IsIdentStart(s[i]) then WordEnd(s, i + 1)
                  else i + 1
    ensures i < e <= |s| && Squeezed(brackets, s, i) == s[i..e] + Squeezed(brackets, s, e)
  {
    hide *;
    UnitIs(brackets, s, i);
    UnitFacts(brackets, s, i);
  }

  lemma {:induction false} GapUntil(s: string, i: nat, e: nat)
    requires i <= e < |s| && !IsGapChar(s[e]) && forall k :: i <= k < e ==> IsGapChar(s[k])
    ensures GapEnd(s, i) == e
    decreases e - i
  {
    if i < e {
      GapUntil(s, i + 1, e);
    }
  }

  lemma {:induction false} BracketUntil(s: string, i: nat, e: nat)
    requires i < e <= |s| && s[e - 1] == ']' && (e < |s| ==> s[e] != ']')
    requires forall k :: i <= k < e - 1 ==> s[k] != ']'
    ensures BracketEnd(s, i) == e
    decreases e - i
  {
    if i < e - 1 {
      BracketUntil(s, i + 1, e);
    }
  }

  lemma {:induction false} LiteralUntil(q: char, s: string, i: nat, e: nat)
    requires i <= e <= |s| && forall k :: i <= k < e - 1 ==> s[k] != q && s[k] != '\\'
    requires (i == e == |s|) || (i < e && q != '\\' && s[e - 1] == q && (e < |s| ==> s[e] != q))
             || (e == |s| && i < e && s[e - 1] != q && s[e - 1] != '\\')
    ensures LiteralEnd(q, s, i) == e
    decreases e - i
  {
    if i < e - 1 {
      LiteralUntil(q, s, i + 1, e);
    }
  }

  // A quote in a bracketed name opens a literal for the first scanner, which ends at
  // the quote that opens the real one, so the white space of that one is squeezed.
  lemma QuoteInNameMerges()
    ensures Normalize("[a'b]'x y'") == Normalize("[a'b]'x  y'")
    ensures Meaning("[a'b]'x y'") != Meaning("[a'b]'x  y'")
  {
    hide Normalize, Meaning, TrimSpace, Squeezed, Canonical, Lexemes, FoldAll, Tokens;
    MergedByQuotes("[a'b]'x y'", 8);
    MergedByQuotes("[a'b]'x  y'", 9);
    ApartByBrackets("[a'b]'x y'");
    ApartByBrackets("[a'b]'x  y'");
    SqueezedAs("[a'b]'x y'", "[a'b]'x y'", "[a'b]'x y'");
    SqueezedAs("[a'b]'x  y'", "[a'b]'x y'", "[a'b]'x  y'");
    DifferentLengths("[a'b]'x y'", "[a'b]'x  y'");
  }

  lemma MergedByQuotes(s: string, e: nat)
    requires (s == "[a'b]'x y'" && e == 8) || (s == "[a'b]'x  y'" && e == 9)
    ensures Squeezed(false, s, 0) == "[a'b]'x y'"
  {
    hide Squeezed, UnitEnd, FirstGap, BracketEnd, LiteralEnd, GapEnd;
    PlainStep(s, 0);
    PlainStep(s, 1);
    LiteralUntil('\'', s, 3, 6);
    Unit(false, s, 2, 6);
    PlainStep(s, 6);
    GapFacts(false, s, 7);
    GapUntil(s, 7, e);
    PlainStep(s, e);
    LiteralUntil('\'', s, |s|, |s|);
    Unit(false, s, e + 1, |s|);
    EndOfText(false, s);
  }

  lemma ApartByBrackets(s: string)
    requires s == "[a'b]'x y'" || s == "[a'b]'x  y'"
    ensures Squeezed(true, s, 0) == s
  {
    hide Squeezed, UnitEnd, FirstGap, BracketEnd, LiteralEnd, GapEnd;
    BracketUntil(s, 1, 5);
    Unit(true, s, 0, 5);
    LiteralUntil('\'', s, 6, |s|);
    Unit(true, s, 5, |s|);
    EndOfText(true, s);
  }

  // Or it opens a literal that takes in the gaps after the name.
  lemma QuoteInNameSplits()
    ensures Normalize("[it's]  b") != Normalize("[it's] b")
    ensures Meaning("[it's]  b") == Meaning("[it's] b")
  {
    hide Normalize, Meaning, TrimSpace, Squeezed, Canonical, Lexemes, FoldAll, Tokens;
    ApartByQuotes("[it's]  b");
    ApartByQuotes("[it's] b");
    MergedByBrackets("[it's]  b", 8);
    MergedByBrackets("[it's] b", 7);
    SqueezedAs("[it's]  b", "[it's]  b", "[it's] b");
    SqueezedAs("[it's] b", "[it's] b", "[it's] b");
  }

  lemma ApartByQuotes(s: string)
    requires s == "[it's]  b" || s == "[it's] b"
    ensures Squeezed(false, s, 0) == s
  {
    hide Squeezed, UnitEnd, FirstGap, BracketEnd, LiteralEnd, GapEnd;
    PlainStep(s, 0);
    PlainStep(s, 1);
    PlainStep(s, 2);
    LiteralUntil('\'', s, 4, |s|);
    Unit(false, s, 3, |s|);
    EndOfText(false, s);
  }

  lemma MergedByBrackets(s: string, e: nat)
    requires (s == "[it's]  b" && e == 8) || (s == "[it's] b" && e == 7)
    ensures Squeezed(true, s, 0) == "[it's] b"
  {
    hide Squeezed, UnitEnd, FirstGap, BracketEnd, GapEnd, WordEnd;
    BracketUntil(s, 1, 6);
    Unit(true, s, 0, 6);
    GapFacts(true, s, 6);
    GapUntil(s, 6, e);
    BracketEndsAtEnd(s);
    Unit(true, s, e, |s|);
    EndOfText(true, s);
  }
}
