// The two scanners behind the duplicate-execute key (internal/aichat/runtime_eino.go)
// and the gaps they see: the first knows quotes but not brackets, the second both.
module StatementGaps {
  import opened Text
  import opened StatementLexer
  import opened StatementKey

  // What a scanner steps over at i: a gap, a literal, or, if it knows brackets, a
  // bracketed name or a word, and otherwise one character.
  function UnitEnd(brackets: bool, s: string, i: nat): (e: nat)
    requires i < |s|
    ensures i < e <= |s|
  {
    if IsGapChar(s[i]) then GapEnd(s, i) else if brackets then TokenEnd(s, i) else PieceEnd(s, i)
  }

  // The first separator outside the regions, or the end of the text.
  function FirstGap(brackets: bool, s: string, i: nat): (e: nat)
    requires i <= |s|
    ensures i <= e <= |s|
    ensures e < |s| ==> IsGapChar(s[e])
    decreases |s| - i
  {
    if i == |s| || IsGapChar(s[i]) then i else FirstGap(brackets, s, UnitEnd(brackets, s, i))
  }

  // The text with every gap a scanner sees squeezed to one space.
  function Squeezed(brackets: bool, s: string, i: nat): (r: string)
    requires i <= |s|
    ensures i < |s| && IsGapChar(s[i]) ==> r != "" && r[0] == ' '
    ensures i < |s| && !IsGapChar(s[i]) ==> r != "" && r[0] == s[i]
    decreases |s| - i
  {
    if i == |s| then ""
    else
      var e := UnitEnd(brackets, s, i);
      (if IsGapChar(s[i]) then " " else s[i..e]) + Squeezed(brackets, s, e)
  }

  // Both scanners see the same gaps from i on.
  predicate SameGaps(s: string, i: nat)
    requires i <= |s|
    decreases |s| - i
  {
    var e := FirstGap(false, s, i);
    && e == FirstGap(true, s, i)
    && (e < |s| ==> SameGaps(s, GapEnd(s, e)))
  }

  // ---------------------------------------------------------------- unfolding

  lemma GapFacts(brackets: bool, s: string, i: nat)
    requires i < |s| && IsGapChar(s[i])
    ensures i < GapEnd(s, i) <= |s| && (GapEnd(s, i) < |s| ==> !IsGapChar(s[GapEnd(s, i)]))
    ensures UnitEnd(brackets, s, i) == GapEnd(s, i) && FirstGap(brackets, s, i) == i
    ensures Squeezed(brackets, s, i) == " " + Squeezed(brackets, s, GapEnd(s, i))
  {
  }

  lemma UnitFacts(brackets: bool, s: string, i: nat)
    requires i < |s| && !IsGapChar(s[i])
    ensures var e := UnitEnd(brackets, s, i);
            && i < e <= |s|
            && e == (if brackets then TokenEnd(s, i) else PieceEnd(s, i))
            && FirstGap(brackets, s, i) == FirstGap(brackets, s, e) && e <= FirstGap(brackets, s, e)
            && Squeezed(brackets, s, i) == s[i..e] + Squeezed(brackets, s, e)
  {
    hide GapEnd, TokenEnd, PieceEnd;
  }

  lemma EndOfText(brackets: bool, s: string)
    ensures Squeezed(brackets, s, |s|) == "" && FirstGap(brackets, s, |s|) == |s| && SameGaps(s, |s|)
  {
  }

  lemma FirstGapBounds(brackets: bool, s: string, i: nat)
    requires i <= |s|
    ensures var e := FirstGap(brackets, s, i); i <= e <= |s| && (e < |s| ==> IsGapChar(s[e]))
  {
    hide UnitEnd, IsGapChar;
  }

  lemma SameGapsFacts(s: string, i: nat)
    requires i <= |s|
    ensures var e := FirstGap(false, s, i);
            && i <= e <= |s|
            && (SameGaps(s, i) <==>
                  e == FirstGap(true, s, i) && (e < |s| ==> e < GapEnd(s, e) <= |s| && SameGaps(s, GapEnd(s, e))))
  {
    hide FirstGap, UnitEnd, IsGapChar, GapEnd;
    FirstGapBounds(false, s, i);
    FirstGapBounds(true, s, i);
    if FirstGap(false, s, i) < |s| {
      GapFacts(false, s, FirstGap(false, s, i));
    }
  }

  // Up to its first gap a text is copied.
  lemma {:induction false} Stretch(brackets: bool, s: string, i: nat)
    requires i <= |s|
    ensures var e := FirstGap(brackets, s, i);
            i <= e <= |s| && Squeezed(brackets, s, i) == s[i..e] + Squeezed(brackets, s, e)
    decreases |s| - i
  {
    hide *;
    FirstGapBounds(brackets, s, i);
    var e := FirstGap(brackets, s, i);
    if i == |s| {
      EndOfText(brackets, s);
      Nothing(s[i..e], Squeezed(brackets, s, e));
    } else if IsGapChar(s[i]) {
      GapFacts(brackets, s, i);
      Nothing(s[i..e], Squeezed(brackets, s, e));
    } else {
      UnitFacts(brackets, s, i);
      var n := UnitEnd(brackets, s, i);
      Stretch(brackets, s, n);
      Assoc(s[i..n], s[n..e], Squeezed(brackets, s, e));
      SliceJoin(s, i, n, e);
    }
  }

  lemma Nothing(a: string, b: string)
    requires a == ""
    ensures b == a + b
  {
  }

  lemma SliceJoin(s: string, i: nat, n: nat, e: nat)
    requires i <= n <= e <= |s|
    ensures s[i..e] == s[i..n] + s[n..e]
  {
  }

  // The whitespace scanner sees what is outside literals, whatever the brackets.
  lemma {:induction false} CollapsedIsSqueezed(s: string, i: nat)
    requires i <= |s|
    ensures Collapsed(s, i) == Squeezed(false, s, i)
    decreases |s| - i
  {
    hide GapEnd, LiteralEnd, IsQuote, IsGapChar;
    if i < |s| {
      CollapsedIsSqueezed(s, PieceEnd(s, i));
    }
  }

  // ---------------------------------------------------------------- copying

  // The texts go on alike: both end, or the next characters are of one class.
  predicate SameNext(s: string, e: nat, t: string, f: nat) {
    e <= |s| && f <= |t| && (e == |s| <==> f == |t|) && (e < |s| && f < |t| ==> Alike(s[e], t[f]))
  }

  lemma BracketEndsAtEnd(s: string)
    ensures BracketEnd(s, |s|) == |s| && WordEnd(s, |s|) == |s|
  {
  }

  lemma {:induction false} BracketEndCopied(s: string, i: nat, t: string, k: nat, e: nat)
    requires i <= |s| && e == BracketEnd(s, i) && CopiedTo(s, i, e, t, k)
    requires var f := k + (e - i); (e == |s| <==> f == |t|) && (e < |s| ==> (t[f] == ']' <==> s[e] == ']'))
    ensures BracketEnd(t, k) == k + (e - i)
    decreases |s| - i
  {
    hide CopiedTo, BracketEnd;
    if i < |s| {
      BracketFacts(s, i);
      CopiedFrom(s, i, e, t, k, 1);
      BracketFacts(t, k);
      assert t[k + (i - i)] == s[i];
      if e > i + 1 {
        CopiedFrom(s, i, e, t, k, 2);
        assert t[k + (i + 1 - i)] == s[i + 1];
        if s[i] == ']' {
          BracketEndCopied(s, i + 2, t, k + 2, e);
        } else {
          BracketEndCopied(s, i + 1, t, k + 1, e);
        }
      } else if s[i] != ']' {
        BracketEndCopied(s, i + 1, t, k + 1, e);
      }
    } else {
      CopiedFrom(s, i, e, t, k, 0);
      BracketEndsAtEnd(t);
    }
  }

  lemma {:induction false} WordEndCopied(s: string, i: nat, t: string, k: nat, e: nat)
    requires i <= |s| && e == WordEnd(s, i) && CopiedTo(s, i, e, t, k)
    requires var f := k + (e - i); (e == |s| <==> f == |t|) && (e < |s| ==> (IsIdentPart(t[f]) <==> IsIdentPart(s[e])))
    ensures WordEnd(t, k) == k + (e - i)
    decreases |s| - i
  {
    hide CopiedTo, WordEnd, IsIdentPart;
    if i < |s| {
      WordEndFacts(s, i);
      if IsIdentPart(s[i]) {
        CopiedFrom(s, i, e, t, k, 1);
        assert t[k + (i - i)] == s[i];
        WordEndFacts(t, k);
        WordEndCopied(s, i + 1, t, k + 1, e);
      } else {
        CopiedFrom(s, i, e, t, k, 0);
        WordEndFacts(t, k);
      }
    } else {
      CopiedFrom(s, i, e, t, k, 0);
      BracketEndsAtEnd(t);
    }
  }

  lemma NextClass(s: string, e: nat, t: string, f: nat)
    requires SameNext(s, e, t, f)
    ensures e <= |s| && f <= |t| && (e == |s| <==> f == |t|)
    ensures e < |s| ==> (IsGapChar(s[e]) <==> IsGapChar(t[f])) && (s[e] == ']' <==> t[f] == ']')
    ensures e < |s| ==> (IsIdentPart(s[e]) <==> IsIdentPart(t[f]))
    ensures forall q :: e < |s| && IsQuote(q) ==> (t[f] == q <==> s[e] == q)
  {
    hide IsGapChar, IsQuote, IsIdentStart, IsIdentPart, Alike;
    if e < |s| {
      AlikeClass(s[e], t[f]);
    }
  }

  lemma UnitIs(brackets: bool, s: string, i: nat)
    requires i < |s| && !IsGapChar(s[i])
    ensures UnitEnd(brackets, s, i) ==
            if IsQuote(s[i]) then LiteralEnd(s[i], s, i + 1)
            else if brackets && s[i] == '[' then BracketEnd(s, i + 1)
            else if brackets && IsIdentStart(s[i]) then WordEnd(s, i + 1)
            else i + 1
  {
    hide IsGapChar, IsQuote, IsIdentStart, LiteralEnd, BracketEnd, WordEnd, GapEnd;
  }

  // A copied unit ends where it ended.
  lemma UnitEndCopied(brackets: bool, s: string, i: nat, t: string, k: nat)
    requires i < |s| && !IsGapChar(s[i])
    requires var e := UnitEnd(brackets, s, i); CopiedTo(s, i, e, t, k) && SameNext(s, e, t, k + (e - i))
    ensures var e := UnitEnd(brackets, s, i);
            k < |t| && t[k] == s[i] && UnitEnd(brackets, t, k) == k + (e - i) && t[k..k + (e - i)] == s[i..e]
  {
    hide *;
    UnitFacts(brackets, s, i);
    var e := UnitEnd(brackets, s, i);
    NextClass(s, e, t, k + (e - i));
    CopiedFrom(s, i, e, t, k, 1);
    assert t[k + (i - i)] == s[i];
    UnitIs(brackets, s, i);
    UnitIs(brackets, t, k);
    if IsQuote(s[i]) {
      LiteralEndCopied(s[i], s, i + 1, t, k + 1, e);
    } else if brackets && s[i] == '[' {
      BracketEndCopied(s, i + 1, t, k + 1, e);
    } else if brackets && IsIdentStart(s[i]) {
      WordEndCopied(s, i + 1, t, k + 1, e);
    }
    CopiedSlice(s, i, e, t, k);
  }

  lemma CopiedSlice(s: string, i: nat, e: nat, t: string, k: nat)
    requires CopiedTo(s, i, e, t, k)
    ensures i <= e <= |s| && k + (e - i) <= |t| && t[k..k + (e - i)] == s[i..e]
  {
    var a, b := t[k..k + (e - i)], s[i..e];
    forall n | 0 <= n < e - i
      ensures a[n] == b[n]
    {
      assert t[k + (i + n - i)] == s[i + n];
    }
  }

  lemma CopiedPart(s: string, i: nat, n: nat, e: nat, t: string, k: nat)
    requires CopiedTo(s, i, e, t, k) && i <= n <= e
    requires SameNext(s, e, t, k + (e - i))
    ensures CopiedTo(s, i, n, t, k) && CopiedTo(s, n, e, t, k + (n - i)) && SameNext(s, n, t, k + (n - i))
  {
    CopiedFrom(s, i, e, t, k, n - i);
    if n < e {
      assert t[k + (n - i)] == s[n];
    }
  }

  // A stretch copied up to its first gap has its first gap there.
  lemma {:induction false} FirstGapCopied(brackets: bool, s: string, i: nat, t: string, k: nat)
    requires i <= |s|
    requires var e := FirstGap(brackets, s, i); CopiedTo(s, i, e, t, k) && SameNext(s, e, t, k + (e - i))
    ensures k <= |t| && FirstGap(brackets, t, k) == k + (FirstGap(brackets, s, i) - i)
    decreases |s| - i
  {
    hide *;
    FirstGapBounds(brackets, s, i);
    var e := FirstGap(brackets, s, i);
    NextClass(s, e, t, k + (e - i));
    if i == |s| {
      EndOfText(brackets, s);
      EndOfText(brackets, t);
    } else if IsGapChar(s[i]) {
      GapFacts(brackets, s, i);
      GapFacts(brackets, t, k);
    } else {
      UnitFacts(brackets, s, i);
      var n := UnitEnd(brackets, s, i);
      CopiedPart(s, i, n, e, t, k);
      UnitEndCopied(brackets, s, i, t, k);
      UnitFacts(brackets, t, k);
      FirstGapCopied(brackets, s, n, t, k + (n - i));
    }
  }

  // ---------------------------------------------------------------- squeezing keeps the gaps

  lemma FirstSqueezed(brackets: bool, s: string, i: nat)
    requires i <= |s|
    ensures Squeezed(brackets, s, i) == "" <==> i == |s|
    ensures i < |s| ==> Squeezed(brackets, s, i)[0] == if IsGapChar(s[i]) then ' ' else s[i]
  {
    hide UnitEnd, IsGapChar;
  }

  lemma SplitRest(t: string, k: nat, a: string, b: string)
    requires k <= |t| && t[k..] == a + b
    ensures k + |a| <= |t| && t[k..k + |a|] == a && t[k + |a|..] == b
  {
    assert t[k..k + |a|] == t[k..][..|a|] == a;
    assert t[k + |a|..] == t[k..][|a|..] == b;
  }

  lemma FirstOfRest(t: string, k: nat)
    requires k <= |t|
    ensures t[k..] == "" <==> k == |t|
    ensures k < |t| ==> t[k] == t[k..][0]
  {
  }

  lemma SpaceIsAGap(c: char)
    ensures IsGapChar(' ') && (IsGapChar(c) ==> Alike(c, ' ')) && Alike(c, c)
  {
  }

  // Up to the first gap the squeezed text is the text, and then goes on alike.
  lemma CopiedStretch(brackets: bool, s: string, i: nat, t: string, k: nat)
    requires i <= |s| && k <= |t| && t[k..] == Squeezed(brackets, s, i)
    ensures var e := FirstGap(brackets, s, i);
            var f := k + (e - i);
            && i <= e <= |s|
            && f <= |t|
            && t[f..] == Squeezed(brackets, s, e)
            && CopiedTo(s, i, e, t, k)
            && SameNext(s, e, t, f)
            && CopiedTo(t, k, f, s, i)
            && SameNext(t, f, s, e)
  {
    hide *;
    Stretch(brackets, s, i);
    FirstGapBounds(brackets, s, i);
    var e := FirstGap(brackets, s, i);
    var f := k + (e - i);
    SliceLength(s, i, e);
    SplitRest(t, k, s[i..e], Squeezed(brackets, s, e));
    SliceEqual(s, i, e, t, k);
    SliceEqual(t, k, f, s, i);
    FirstSqueezed(brackets, s, e);
    FirstOfRest(t, f);
    if e < |s| {
      SpaceIsAGap(s[e]);
    }
    BothNext(s, e, t, f);
  }

  lemma SliceLength(s: string, i: nat, e: nat)
    requires i <= e <= |s|
    ensures |s[i..e]| == e - i
  {
  }

  lemma BothNext(s: string, e: nat, t: string, f: nat)
    requires e <= |s| && f <= |t| && (e == |s| <==> f == |t|) && (e < |s| && f < |t| ==> Alike(s[e], t[f]))
    ensures SameNext(s, e, t, f) && SameNext(t, f, s, e)
  {
  }

  // The first gaps agree before squeezing exactly when they agree after.
  lemma FirstGapsTransfer(brackets: bool, s: string, i: nat, t: string, k: nat)
    requires i <= |s| && k <= |t| && t[k..] == Squeezed(brackets, s, i)
    ensures var e := FirstGap(brackets, s, i);
            && FirstGap(brackets, t, k) == k + (e - i)
            && (FirstGap(!brackets, s, i) == e <==> FirstGap(!brackets, t, k) == k + (e - i))
  {
    hide *;
    CopiedStretch(brackets, s, i, t, k);
    FirstGapCopied(brackets, s, i, t, k);
    var e := FirstGap(brackets, s, i);
    if FirstGap(!brackets, s, i) == e {
      FirstGapCopied(!brackets, s, i, t, k);
    }
    if FirstGap(!brackets, t, k) == k + (e - i) {
      FirstGapCopied(!brackets, t, k, s, i);
    }
  }

  // The squeezed gap is one space.
  lemma GapSqueezed(brackets: bool, s: string, e: nat, t: string, f: nat)
    requires e < |s| && IsGapChar(s[e]) && f < |t| && t[f..] == Squeezed(brackets, s, e)
    ensures t[f] == ' ' && IsGapChar(t[f])
    ensures e < GapEnd(s, e) <= |s| && GapEnd(t, f) == f + 1 && t[f + 1..] == Squeezed(brackets, s, GapEnd(s, e))
  {
    hide *;
    GapFacts(brackets, s, e);
    var n := GapEnd(s, e);
    SplitRest(t, f, " ", Squeezed(brackets, s, n));
    FirstOfRest(t, f);
    SpaceIsAGap(' ');
    FirstSqueezed(brackets, s, n);
    FirstOfRest(t, f + 1);
    OneGap(t, f);
  }

  lemma OneGap(t: string, f: nat)
    requires f < |t| && IsGapChar(t[f]) && (f + 1 < |t| ==> !IsGapChar(t[f + 1]))
    ensures GapEnd(t, f) == f + 1
  {
    assert GapEnd(t, f) == GapEnd(t, f + 1);
  }

  // Squeezing, by either scanner, neither makes the scanners agree nor disagree.
  lemma {:induction false} SqueezedKeepsGaps(brackets: bool, s: string, i: nat, t: string, k: nat)
    requires i <= |s| && k <= |t| && t[k..] == Squeezed(brackets, s, i)
    ensures SameGaps(s, i) <==> SameGaps(t, k)
    decreases |s| - i
  {
    hide *;
    FirstGapsTransfer(brackets, s, i, t, k);
    CopiedStretch(brackets, s, i, t, k);
    SameGapsFacts(s, i);
    SameGapsFacts(t, k);
    var e := FirstGap(brackets, s, i);
    var f := k + (e - i);
    NextClass(s, e, t, f);
    FirstGapBounds(brackets, s, i);
    if e < |s| && FirstGap(!brackets, s, i) == e {
      GapSqueezed(brackets, s, e, t, f);
      SqueezedKeepsGaps(brackets, s, GapEnd(s, e), t, f + 1);
    }
  }

  // ---------------------------------------------------------------- one class of text

  lemma AlikeUnitEnd(brackets: bool, s: string, t: string, i: nat)
    requires AlikeText(s, t) && i < |s|
    ensures UnitEnd(brackets, s, i) == UnitEnd(brackets, t, i) && (IsGapChar(s[i]) <==> IsGapChar(t[i]))
  {
    hide IsGapChar, IsQuote, IsIdentStart, IsIdentPart, Alike, TokenEnd, PieceEnd, GapEnd;
    AlikeClass(s[i], t[i]);
    AlikeGapEnd(s, t, i);
    AlikeTokenEnd(s, t, i);
    AlikePieceEnd(s, t, i);
  }

  lemma {:induction false} AlikeFirstGap(brackets: bool, s: string, t: string, i: nat)
    requires AlikeText(s, t) && i <= |s|
    ensures FirstGap(brackets, s, i) == FirstGap(brackets, t, i)
    decreases |s| - i
  {
    hide IsGapChar, Alike, UnitEnd;
    if i < |s| {
      AlikeUnitEnd(brackets, s, t, i);
      AlikeFirstGap(brackets, s, t, UnitEnd(brackets, s, i));
    }
  }

  lemma {:induction false} AlikeSameGaps(s: string, t: string, i: nat)
    requires AlikeText(s, t) && i <= |s|
    ensures SameGaps(s, i) == SameGaps(t, i)
    decreases |s| - i
  {
    hide IsGapChar, Alike, UnitEnd, FirstGap, GapEnd, SameGaps;
    AlikeFirstGap(false, s, t, i);
    AlikeFirstGap(true, s, t, i);
    SameGapsFacts(s, i);
    SameGapsFacts(t, i);
    var e := FirstGap(false, s, i);
    if e < |s| {
      AlikeGapEnd(s, t, e);
      if e < GapEnd(s, e) {
        AlikeSameGaps(s, t, GapEnd(s, e));
      }
    }
  }

  // ---------------------------------------------------------------- where the scanners agree

  lemma {:induction false} SameGapsSqueezed(s: string, i: nat)
    requires i <= |s| && SameGaps(s, i)
    ensures Squeezed(false, s, i) == Squeezed(true, s, i)
    decreases |s| - i
  {
    hide *;
    SameGapsFacts(s, i);
    Stretch(false, s, i);
    Stretch(true, s, i);
    var e := FirstGap(false, s, i);
    FirstGapBounds(false, s, i);
    if e < |s| {
      GapFacts(false, s, e);
      GapFacts(true, s, e);
      SameGapsSqueezed(s, GapEnd(s, e));
    } else {
      EndOfText(false, s);
      EndOfText(true, s);
    }
  }

  // ---------------------------------------------------------------- where they part

  // The first separator that one scanner sees and the other does not.
  function Parting(s: string, i: nat): (p: nat)
    requires i <= |s| && !SameGaps(s, i)
    ensures i <= p < |s| && IsGapChar(s[p])
    decreases |s| - i
  {
    var e, f := FirstGap(false, s, i), FirstGap(true, s, i);
    if e < f then e else if f < e then f else Parting(s, GapEnd(s, e))
  }

  // Whether it is the scanner that knows brackets that sees it.
  predicate SeenWithBrackets(s: string, i: nat)
    requires i <= |s| && !SameGaps(s, i)
    decreases |s| - i
  {
    var e, f := FirstGap(false, s, i), FirstGap(true, s, i);
    if e < f then false else if f < e then true else SeenWithBrackets(s, GapEnd(s, e))
  }

  lemma PartingFacts(s: string, i: nat)
    requires i <= |s| && !SameGaps(s, i)
    ensures var e, f := FirstGap(false, s, i), FirstGap(true, s, i);
            && i <= e <= |s| && i <= f <= |s|
            && (e < f ==> Parting(s, i) == e && !SeenWithBrackets(s, i))
            && (f < e ==> Parting(s, i) == f && SeenWithBrackets(s, i))
            && (e == f ==>
                  && e < GapEnd(s, e) <= |s|
                  && !SameGaps(s, GapEnd(s, e))
                  && Parting(s, i) == Parting(s, GapEnd(s, e))
                  && SeenWithBrackets(s, i) == SeenWithBrackets(s, GapEnd(s, e)))
  {
    hide FirstGap, GapEnd, IsGapChar, SameGaps;
    SameGapsFacts(s, i);
    FirstGapBounds(true, s, i);
  }

  lemma PartingBounds(s: string, i: nat)
    requires i <= |s| && !SameGaps(s, i)
    ensures i <= Parting(s, i) < |s| && IsGapChar(s[Parting(s, i)])
  {
    hide FirstGap, GapEnd, IsGapChar, SameGaps;
  }

  // t is s but for one separator in the place of another.
  predicate OtherGap(s: string, p: nat, t: string) {
    && p < |s| == |t|
    && IsGapChar(s[p]) && IsGapChar(t[p]) && s[p] != t[p]
    && forall k :: 0 <= k < |s| && k != p ==> s[k] == t[k]
  }

  lemma OtherGapAlike(s: string, p: nat, t: string)
    requires OtherGap(s, p, t)
    ensures AlikeText(s, t)
  {
    hide IsGapChar;
    forall k | 0 <= k < |s|
      ensures Alike(s[k], t[k])
    {
    }
  }

  lemma OtherGapSlice(s: string, p: nat, t: string, i: nat, e: nat)
    requires OtherGap(s, p, t) && i <= e <= |s| && (e <= p || p < i)
    ensures e <= |t| && s[i..e] == t[i..e]
  {
  }

  // Past the separator nothing differs.
  lemma {:induction false} SqueezedPast(brackets: bool, s: string, p: nat, t: string, i: nat)
    requires OtherGap(s, p, t) && p < i <= |s|
    ensures i <= |t| && Squeezed(brackets, s, i) == Squeezed(brackets, t, i)
    decreases |s| - i
  {
    hide *;
    OtherGapAlike(s, p, t);
    AlikeLength(s, t);
    if i == |s| {
      EndOfText(brackets, s);
      EndOfText(brackets, t);
    } else {
      AlikeUnitEnd(brackets, s, t, i);
      if IsGapChar(s[i]) {
        GapFacts(brackets, s, i);
        GapFacts(brackets, t, i);
        SqueezedPast(brackets, s, p, t, GapEnd(s, i));
      } else {
        UnitFacts(brackets, s, i);
        UnitFacts(brackets, t, i);
        OtherGapSlice(s, p, t, i, UnitEnd(brackets, s, i));
        SqueezedPast(brackets, s, p, t, UnitEnd(brackets, s, i));
      }
    }
  }

  lemma AlikeLength(s: string, t: string)
    requires AlikeText(s, t)
    ensures |s| == |t|
  {
  }

  // The scanner that sees the separator squeezes both texts to the same.
  lemma {:induction false} SeeingOne(s: string, p: nat, t: string, i: nat)
    requires i <= |s| && !SameGaps(s, i) && p == Parting(s, i) && OtherGap(s, p, t)
    ensures i <= |t|
    ensures var b := SeenWithBrackets(s, i); Squeezed(b, s, i) == Squeezed(b, t, i)
    decreases |s| - i
  {
    hide *;
    PartingFacts(s, i);
    PartingBounds(s, i);
    OtherGapAlike(s, p, t);
    AlikeLength(s, t);
    var b := SeenWithBrackets(s, i);
    var e := FirstGap(b, s, i);
    AlikeFirstGap(b, s, t, i);
    Stretch(b, s, i);
    Stretch(b, t, i);
    FirstGapBounds(b, s, i);
    FirstGapBounds(b, t, i);
    AlikeGapEnd(s, t, e);
    GapFacts(b, s, e);
    GapFacts(b, t, e);
    var n := GapEnd(s, e);
    if FirstGap(false, s, i) == FirstGap(true, s, i) {
      PartingBounds(s, n);
      SeeingOne(s, p, t, n);
    } else {
      SqueezedPast(b, s, p, t, n);
    }
    OtherGapSlice(s, p, t, i, e);
  }

  // The other one does not, and not even up to letter case.
  lemma {:induction false} BlindOne(s: string, p: nat, t: string, i: nat)
    requires i <= |s| && !SameGaps(s, i) && p == Parting(s, i) && OtherGap(s, p, t)
    ensures i <= |t|
    ensures var b := !SeenWithBrackets(s, i); !SameText(Squeezed(b, s, i), Squeezed(b, t, i))
    decreases |s| - i
  {
    hide *;
    PartingFacts(s, i);
    PartingBounds(s, i);
    OtherGapAlike(s, p, t);
    AlikeLength(s, t);
    var b := !SeenWithBrackets(s, i);
    var e := FirstGap(b, s, i);
    AlikeFirstGap(b, s, t, i);
    Stretch(b, s, i);
    Stretch(b, t, i);
    FirstGapBounds(b, s, i);
    if FirstGap(false, s, i) == FirstGap(true, s, i) {
      AlikeGapEnd(s, t, e);
      FirstGapBounds(b, t, i);
      GapFacts(b, s, e);
      GapFacts(b, t, e);
      var n := GapEnd(s, e);
      PartingBounds(s, n);
      BlindOne(s, p, t, n);
      SameTail(s[i..e], t[i..e], Squeezed(b, s, e), Squeezed(b, t, e));
      SameTail(" ", " ", Squeezed(b, s, n), Squeezed(b, t, n));
    } else {
      SameTail(s[i..e], t[i..e], Squeezed(b, s, e), Squeezed(b, t, e));
      GapsDiffer(s, p, t, i, e);
    }
  }

  lemma SameTail(a: string, b: string, c: string, d: string)
    requires |a| == |b|
    ensures SameText(a + c, b + d) ==> SameText(a, b) && SameText(c, d)
  {
    hide SameChar;
    var x, y := a + c, b + d;
    if SameText(x, y) {
      assert forall k :: 0 <= k < |a| ==> a[k] == x[k] && b[k] == y[k];
      forall k | 0 <= k < |c|
        ensures SameChar(c[k], d[k])
      {
        assert c[k] == x[|a| + k] && d[k] == y[|a| + k];
      }
    }
  }

  lemma GapsDiffer(s: string, p: nat, t: string, i: nat, e: nat)
    requires OtherGap(s, p, t) && i <= p < e <= |s|
    ensures e <= |t| && |s[i..e]| == |t[i..e]| && !SameText(s[i..e], t[i..e])
  {
    hide SameChar, IsGapChar;
    var a, b := s[i..e], t[i..e];
    assert a[p - i] == s[p] && b[p - i] == t[p];
    if SameText(a, b) {
      SameClass(a[p - i], b[p - i]);
      assert false;
    }
  }
}
