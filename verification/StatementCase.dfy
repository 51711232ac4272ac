// The two scanners of the statement key (internal/aichat/runtime_eino.go) commute, so
// the key does not see the case of whole unquoted keywords of the statement.
module StatementCase {
  import opened Text
  import opened LetterCase
  import opened StatementLexer
  import opened StatementKey
  import opened StatementGaps

  // ---------------------------------------------------------------- one ending, one reading

  lemma SameRest(s: string, i: nat, e: nat, t: string, k: nat)
    requires i <= e <= |s| && k <= |t| && s[i..] == t[k..]
    ensures CopiedTo(s, i, e, t, k) && SameNext(s, e, t, k + (e - i))
    ensures |s| - i == |t| - k && s[e..] == t[k + (e - i)..]
  {
    forall n | i <= n < |s|
      ensures k + (n - i) < |t| && t[k + (n - i)] == s[n]
    {
      assert s[i..][n - i] == t[k..][n - i];
    }
    assert s[e..] == s[i..][e - i..] && t[k + (e - i)..] == t[k..][e - i..];
    if e < |s| {
      SpaceIsAGap(s[e]);
    }
  }

  lemma {:induction false} SameRestGapEnd(s: string, i: nat, t: string, k: nat)
    requires i <= |s| && k <= |t| && s[i..] == t[k..]
    ensures GapEnd(t, k) - k == GapEnd(s, i) - i
    decreases |s| - i
  {
    hide IsGapChar;
    SameRest(s, i, i, t, k);
    if i < |s| {
      SameRest(s, i, i + 1, t, k);
      assert t[k + (i - i)] == s[i];
      SameRestGapEnd(s, i + 1, t, k + 1);
    }
  }

  lemma SameRestUnit(brackets: bool, s: string, i: nat, t: string, k: nat)
    requires i < |s| && k <= |t| && s[i..] == t[k..]
    ensures k < |t| && t[k] == s[i] && UnitEnd(brackets, t, k) - k == UnitEnd(brackets, s, i) - i
    ensures t[k..UnitEnd(brackets, t, k)] == s[i..UnitEnd(brackets, s, i)]
    ensures s[UnitEnd(brackets, s, i)..] == t[UnitEnd(brackets, t, k)..]
  {
    hide *;
    FirstOfBoth(s, i, t, k);
    if IsGapChar(s[i]) {
      GapFacts(brackets, s, i);
      GapFacts(brackets, t, k);
      SameRestGapEnd(s, i, t, k);
    } else {
      UnitFacts(brackets, s, i);
      SameRest(s, i, UnitEnd(brackets, s, i), t, k);
      UnitEndCopied(brackets, s, i, t, k);
    }
    SameRest(s, i, UnitEnd(brackets, s, i), t, k);
    CopiedSlice(s, i, UnitEnd(brackets, s, i), t, k);
  }

  lemma FirstOfBoth(s: string, i: nat, t: string, k: nat)
    requires i < |s| && k <= |t| && s[i..] == t[k..]
    ensures k < |t| && t[k] == s[i]
  {
    assert s[i..][0] == t[k..][0];
  }

  lemma {:induction false} SameRestCollapsed(s: string, i: nat, t: string, k: nat)
    requires i <= |s| && k <= |t| && s[i..] == t[k..]
    ensures Collapsed(s, i) == Collapsed(t, k)
    decreases |s| - i
  {
    hide *;
    CollapsedIsSqueezed(s, i);
    CollapsedIsSqueezed(t, k);
    if i == |s| {
      EmptyRest(s, t, k);
      EndOfText(false, s);
      EndOfText(false, t);
    } else {
      SameRestUnit(false, s, i, t, k);
      var e, f := UnitEnd(false, s, i), UnitEnd(false, t, k);
      UnitBounds(false, s, i);
      UnitBounds(false, t, k);
      SameRestCollapsed(s, e, t, f);
      CollapsedIsSqueezed(s, e);
      CollapsedIsSqueezed(t, f);
      if IsGapChar(s[i]) {
        GapFacts(false, s, i);
        GapFacts(false, t, k);
      } else {
        UnitFacts(false, s, i);
        UnitFacts(false, t, k);
      }
    }
  }

  lemma EmptyRest(s: string, t: string, k: nat)
    requires k <= |t| && s[|s|..] == t[k..]
    ensures k == |t|
  {
  }

  lemma UnitBounds(brackets: bool, s: string, i: nat)
    requires i < |s|
    ensures i < UnitEnd(brackets, s, i) <= |s|
  {
    hide GapEnd, TokenEnd, PieceEnd, IsGapChar;
  }

  // A separator is a token of its own, written as it is.
  lemma GapToken(s: string, i: nat)
    requires i < |s| && IsGapChar(s[i])
    ensures TokenEnd(s, i) == i + 1 && Canonical(s, i) == [s[i]] + Canonical(s, i + 1)
  {
    hide LiteralEnd, BracketEnd, WordEnd, Canonical;
    CanonicalUnfold(s, i);
    OneChar(s, i);
  }

  lemma CanonicalUnfold(s: string, i: nat)
    requires i < |s|
    ensures i < TokenEnd(s, i) <= |s|
    ensures Canonical(s, i) == Fold(TokenAt(s, i)).text + Canonical(s, TokenEnd(s, i))
    ensures |Fold(TokenAt(s, i)).text| == TokenEnd(s, i) - i
    ensures TokenAt(s, i).text == s[i..TokenEnd(s, i)]
  {
    hide TokenEnd, TokenAt, Fold;
  }

  lemma SameToken(s: string, i: nat, t: string, k: nat)
    requires i < |s| && k < |t| && s[i] == t[k] && t[k..TokenEnd(t, k)] == s[i..TokenEnd(s, i)]
    ensures TokenAt(t, k) == TokenAt(s, i)
  {
    hide TokenEnd, IsQuote, IsIdentStart;
  }

  lemma {:induction false} SameRestCanonical(s: string, i: nat, t: string, k: nat)
    requires i <= |s| && k <= |t| && s[i..] == t[k..]
    ensures Canonical(s, i) == Canonical(t, k)
    decreases |s| - i
  {
    hide *;
    if i == |s| {
      EmptyRest(s, t, k);
      CanonicalEnd(s);
      CanonicalEnd(t);
    } else {
      FirstOfBoth(s, i, t, k);
      CanonicalUnfold(s, i);
      CanonicalUnfold(t, k);
      if IsGapChar(s[i]) {
        GapToken(s, i);
        GapToken(t, k);
        SameRest(s, i, i + 1, t, k);
        SameRestCanonical(s, i + 1, t, k + 1);
      } else {
        SameRestUnit(true, s, i, t, k);
        UnitFacts(true, s, i);
        UnitFacts(true, t, k);
        SameToken(s, i, t, k);
        SameRestCanonical(s, TokenEnd(s, i), t, TokenEnd(t, k));
      }
    }
  }

  // ---------------------------------------------------------------- pressing a gap

  // Only separators from p to n.
  predicate GapRun(s: string, p: nat, n: nat) {
    p < n <= |s| && forall k :: p <= k < n ==> IsGapChar(s[k])
  }

  // The separators from p to n pressed to one space.
  function Pressed(s: string, p: nat, n: nat): string
    requires p <= n <= |s|
  {
    s[..p] + " " + s[n..]
  }

  lemma PressedFacts(s: string, p: nat, n: nat)
    requires p < n <= |s|
    ensures var t := Pressed(s, p, n);
            && |t| + n == |s| + p + 1 && p < |t|
            && (forall k :: 0 <= k < p ==> t[k] == s[k])
            && t[p] == ' '
            && t[p + 1..] == s[n..]
  {
  }

  // Where the end at e of s is in the pressed text.
  function Moved(p: nat, n: nat, e: nat): int {
    if e <= p then e else e - (n - p - 1)
  }

  lemma {:induction false} LiteralAcross(q: char, s: string, i: nat, n: nat)
    requires IsQuote(q) && i <= n <= |s| && forall k :: i <= k < n ==> IsGapChar(s[k])
    ensures LiteralEnd(q, s, i) == LiteralEnd(q, s, n)
    decreases n - i
  {
    if i < n {
      LiteralAcross(q, s, i + 1, n);
    }
  }

  lemma {:induction false} BracketAcross(s: string, i: nat, n: nat)
    requires i <= n <= |s| && forall k :: i <= k < n ==> IsGapChar(s[k])
    ensures BracketEnd(s, i) == BracketEnd(s, n)
    decreases n - i
  {
    if i < n {
      BracketAcross(s, i + 1, n);
    }
  }

  lemma GapIsPlain(c: char)
    ensures IsGapChar(c) ==> !IsQuote(c) && c != '\\' && c != ']' && c != '[' && !IsIdentStart(c) && !IsIdentPart(c)
    ensures IsGapChar(' ')
  {
  }

  lemma SameRestLiteral(q: char, s: string, i: nat, t: string, k: nat)
    requires i <= |s| && k <= |t| && s[i..] == t[k..]
    ensures LiteralEnd(q, t, k) - k == LiteralEnd(q, s, i) - i
  {
    hide *;
    LiteralBounds(q, s, i);
    var e := LiteralEnd(q, s, i);
    SameRest(s, i, e, t, k);
    RestNext(s, i, e, t, k);
    LiteralEndCopied(q, s, i, t, k, e);
  }

  lemma RestNext(s: string, i: nat, e: nat, t: string, k: nat)
    requires i <= e <= |s| && k <= |t| && s[i..] == t[k..] && |s| - i == |t| - k
    ensures e < |s| ==> t[k + (e - i)] == s[e]
  {
    if e < |s| {
      assert s[i..][e - i] == t[k..][e - i];
    }
  }

  lemma LiteralBounds(q: char, s: string, i: nat)
    requires i <= |s|
    ensures i <= LiteralEnd(q, s, i) <= |s| && i <= BracketEnd(s, i) <= |s|
  {
  }

  lemma SameRestBracket(s: string, i: nat, t: string, k: nat)
    requires i <= |s| && k <= |t| && s[i..] == t[k..]
    ensures BracketEnd(t, k) - k == BracketEnd(s, i) - i
  {
    hide *;
    LiteralBounds('"', s, i);
    var e := BracketEnd(s, i);
    SameRest(s, i, e, t, k);
    RestNext(s, i, e, t, k);
    BracketEndCopied(s, i, t, k, e);
  }

  lemma {:induction false} PressedLiteral(q: char, s: string, p: nat, n: nat, i: nat)
    requires IsQuote(q) && GapRun(s, p, n) && i <= p
    ensures var e := LiteralEnd(q, s, i);
            (e <= p || n <= e) && LiteralEnd(q, Pressed(s, p, n), i) == Moved(p, n, e)
    decreases p - i
  {
    hide LiteralEnd, IsGapChar, IsQuote, Pressed;
    var t := Pressed(s, p, n);
    PressedFacts(s, p, n);
    LiteralStep(q, s, i);
    LiteralStep(q, t, i);
    if i == p {
      GapIsPlain(' ');
      LiteralAcross(q, s, p, n);
      LiteralAcross(q, t, p, p + 1);
      SameRestLiteral(q, s, n, t, p + 1);
      LiteralBounds(q, s, n);
    } else if i + 1 < p {
      PressedLiteral(q, s, p, n, i + 1);
      PressedLiteral(q, s, p, n, i + 2);
    } else {
      PressedLiteral(q, s, p, n, p);
      GapIsPlain(s[p]);
      GapIsPlain(' ');
      LiteralAcross(q, s, p + 1, n);
      LiteralAcross(q, s, p, n);
      SameRestLiteral(q, s, n, t, p + 1);
      LiteralBounds(q, s, n);
    }
  }

  lemma {:induction false} PressedBracket(s: string, p: nat, n: nat, i: nat)
    requires GapRun(s, p, n) && i <= p
    ensures var e := BracketEnd(s, i);
            (e <= p || n <= e) && BracketEnd(Pressed(s, p, n), i) == Moved(p, n, e)
    decreases p - i
  {
    hide BracketEnd, IsGapChar, Pressed;
    var t := Pressed(s, p, n);
    PressedFacts(s, p, n);
    BracketFacts(s, i);
    BracketFacts(t, i);
    if i == p {
      GapIsPlain(' ');
      BracketAcross(s, p, n);
      BracketAcross(t, p, p + 1);
      SameRestBracket(s, n, t, p + 1);
      LiteralBounds('"', s, n);
    } else if i + 1 < p {
      PressedBracket(s, p, n, i + 1);
      PressedBracket(s, p, n, i + 2);
    } else {
      PressedBracket(s, p, n, p);
      GapIsPlain(s[p]);
      GapIsPlain(' ');
    }
  }

  lemma {:induction false} PressedWord(s: string, p: nat, n: nat, i: nat)
    requires GapRun(s, p, n) && i <= p
    ensures WordEnd(s, i) <= p && WordEnd(Pressed(s, p, n), i) == WordEnd(s, i)
    decreases p - i
  {
    hide IsGapChar, IsIdentPart, Pressed;
    PressedFacts(s, p, n);
    GapIsPlain(s[p]);
    GapIsPlain(' ');
    if i < p {
      PressedWord(s, p, n, i + 1);
    }
  }

  // A token before the gap ends where it did, and one around it is a region.
  lemma PressedToken(s: string, p: nat, n: nat, i: nat)
    requires GapRun(s, p, n) && i < p
    ensures var t, e := Pressed(s, p, n), TokenEnd(s, i);
            && i < |t| && t[i] == s[i]
            && (e <= p || n <= e) && TokenEnd(t, i) == Moved(p, n, e)
            && (e > p ==> TokenAt(s, i).Region? && TokenAt(t, i).Region?)
  {
    hide IsGapChar, IsQuote, IsIdentStart, LiteralEnd, BracketEnd, WordEnd, Pressed;
    PressedFacts(s, p, n);
    if IsQuote(s[i]) {
      PressedLiteral(s[i], s, p, n, i + 1);
    }
    PressedBracket(s, p, n, i + 1);
    PressedWord(s, p, n, i + 1);
  }

  lemma {:induction false} GapsCanonical(s: string, i: nat, n: nat)
    requires i <= n <= |s| && forall k :: i <= k < n ==> IsGapChar(s[k])
    ensures Canonical(s, i) == s[i..n] + Canonical(s, n)
    decreases n - i
  {
    hide Canonical, IsGapChar;
    if i < n {
      GapToken(s, i);
      GapsCanonical(s, i + 1, n);
      assert s[i..n] == [s[i]] + s[i + 1..n];
    }
  }

  // Canonicalising the pressed text is pressing the canonical text.
  lemma {:induction false} PressedCanonical(s: string, p: nat, n: nat, i: nat)
    requires GapRun(s, p, n) && i <= p
    ensures |Canonical(s, i)| == |s| - i
    ensures Canonical(Pressed(s, p, n), i) == Pressed(Canonical(s, i), p - i, n - i)
    decreases p - i
  {
    hide *;
    RunFacts(s, p, n);
    var t := Pressed(s, p, n);
    PressedFacts(s, p, n);
    CanonicalLength(s, i);
    if i == p {
      GapsCanonical(s, p, n);
      GapToken(t, p);
      SameRestCanonical(s, n, t, p + 1);
      PressedAtStart(s[p..n], Canonical(s, n));
    } else {
      PressedToken(s, p, n, i);
      CanonicalUnfold(s, i);
      CanonicalUnfold(t, i);
      var e := TokenEnd(s, i);
      CanonicalLength(s, e);
      MovedIs(p, n, e);
      if e <= p {
        SameBefore(s, p, n, i, e);
        SameToken(s, i, t, i);
        PressedCanonical(s, p, n, e);
        PressedLater(Fold(TokenAt(s, i)).text, Canonical(s, e), p - e, n - e);
      } else {
        RegionsFold(s, i);
        RegionsFold(t, i);
        PressedInside(s, p, n, i, e);
        SameRestCanonical(s, e, t, Moved(p, n, e));
        PressedFirst(s[i..e], Canonical(s, e), p - i, n - i);
      }
    }
  }

  lemma MovedIs(p: nat, n: nat, e: nat)
    ensures Moved(p, n, e) == if e <= p then e else e - (n - p - 1)
  {
  }

  lemma RunFacts(s: string, p: nat, n: nat)
    requires GapRun(s, p, n)
    ensures p < n <= |s| && (forall k :: p <= k < n ==> IsGapChar(s[k])) && IsGapChar(' ')
  {
  }

  lemma CanonicalLength(s: string, i: nat)
    requires i <= |s|
    ensures |Canonical(s, i)| == |s| - i
  {
    hide TokenAt, TokenEnd, Fold;
  }

  lemma PressedAtStart(gap: string, rest: string)
    requires gap != ""
    ensures [' '] + rest == Pressed(gap + rest, 0, |gap|)
  {
  }

  lemma SameBefore(s: string, p: nat, n: nat, i: nat, e: nat)
    requires p < n <= |s| && i <= e <= p
    ensures e <= |Pressed(s, p, n)| && Pressed(s, p, n)[i..e] == s[i..e]
  {
  }

  lemma PressedLater(first: string, rest: string, p: nat, n: nat)
    requires p <= n <= |rest|
    ensures first + Pressed(rest, p, n) == Pressed(first + rest, |first| + p, |first| + n)
  {
    assert (first + rest)[..|first| + p] == first + rest[..p];
    assert (first + rest)[|first| + n..] == rest[n..];
  }

  lemma PressedFirst(first: string, rest: string, p: nat, n: nat)
    requires p <= n <= |first|
    ensures Pressed(first, p, n) + rest == Pressed(first + rest, p, n)
  {
    assert (first + rest)[..p] == first[..p];
    assert (first + rest)[n..] == first[n..] + rest;
  }

  lemma PressedInside(s: string, p: nat, n: nat, i: nat, e: nat)
    requires i <= p < n <= e <= |s|
    ensures var t, f := Pressed(s, p, n), e - (n - p - 1);
            i <= f <= |t| && t[i..f] == Pressed(s[i..e], p - i, n - i) && s[e..] == t[f..] && f == Moved(p, n, e)
  {
    var t, f := Pressed(s, p, n), e - (n - p - 1);
    assert s[i..e][..p - i] == s[i..p] && s[i..e][n - i..] == s[n..e];
    assert t == s[..p] + " " + s[n..];
    assert t[i..f] == s[i..p] + " " + s[n..e];
    assert t[f..] == s[e..];
  }

  lemma RegionsFold(s: string, i: nat)
    requires i < |s| && TokenAt(s, i).Region?
    ensures Fold(TokenAt(s, i)).text == s[i..TokenEnd(s, i)]
  {
    hide TokenEnd;
  }

  // ---------------------------------------------------------------- pressing gap by gap

  // The first gap outside literals that is not one space, or the end.
  function BadGap(s: string, i: nat): (p: nat)
    requires i <= |s|
    ensures i <= p <= |s|
    decreases |s| - i
  {
    if i == |s| then i
    else if IsGapChar(s[i]) && !(s[i] == ' ' && GapEnd(s, i) == i + 1) then i
    else BadGap(s, PieceEnd(s, i))
  }

  lemma BadGapFacts(s: string, i: nat)
    requires i <= |s|
    ensures i <= BadGap(s, i) <= |s|
    ensures i < |s| ==> i < PieceEnd(s, i) <= |s|
    ensures i < |s| ==> BadGap(s, i) == if IsGapChar(s[i]) && !(s[i] == ' ' && GapEnd(s, i) == i + 1) then i
                                        else BadGap(s, PieceEnd(s, i))
  {
    hide IsGapChar, GapEnd, PieceEnd;
  }

  lemma {:induction false} BadGapIsGap(s: string, i: nat)
    requires i <= |s| && BadGap(s, i) < |s|
    ensures GapRun(s, BadGap(s, i), GapEnd(s, BadGap(s, i)))
    decreases |s| - i
  {
    hide IsGapChar, PieceEnd, BadGap;
    BadGapFacts(s, i);
    if BadGap(s, i) != i {
      BadGapIsGap(s, PieceEnd(s, i));
    }
  }

  lemma {:induction false} NoBadGap(s: string, i: nat)
    requires i <= |s| && BadGap(s, i) == |s|
    ensures Collapsed(s, i) == s[i..]
    decreases |s| - i
  {
    hide *;
    BadGapFacts(s, i);
    CollapsedIsSqueezed(s, i);
    if i == |s| {
      EndOfText(false, s);
      Nothing(s[i..], "");
      EmptySlice(s);
    } else {
      NoBadGap(s, PieceEnd(s, i));
      CollapsedIsSqueezed(s, PieceEnd(s, i));
      SliceTail(s, i, PieceEnd(s, i));
      if IsGapChar(s[i]) {
        GapFacts(false, s, i);
        UnitIsPiece(s, i);
        OneChar(s, i);
      } else {
        UnitFacts(false, s, i);
      }
    }
  }

  lemma EmptySlice(s: string)
    ensures s[|s|..] == ""
  {
  }

  lemma SliceTail(s: string, i: nat, e: nat)
    requires i <= e <= |s|
    ensures s[i..] == s[i..e] + s[e..]
  {
  }

  lemma UnitIsPiece(s: string, i: nat)
    requires i < |s|
    ensures UnitEnd(false, s, i) == PieceEnd(s, i)
  {
    hide GapEnd, LiteralEnd;
  }

  // Pressing the first gap that is not one space leaves the collapsed text.
  lemma {:induction false} PressedCollapsed(s: string, i: nat)
    requires i <= |s| && BadGap(s, i) < |s|
    ensures var p := BadGap(s, i); var n := GapEnd(s, p);
            p < n <= |s| && i <= |Pressed(s, p, n)| && Collapsed(Pressed(s, p, n), i) == Collapsed(s, i)
    decreases |s| - i
  {
    hide *;
    BadGapFacts(s, i);
    BadGapIsGap(s, i);
    var p := BadGap(s, i);
    var n := GapEnd(s, p);
    RunFacts(s, p, n);
    var t := Pressed(s, p, n);
    PressedFacts(s, p, n);
    CollapsedIsSqueezed(s, i);
    CollapsedIsSqueezed(t, i);
    if p == i {
      GapFacts(false, s, p);
      GapFacts(false, t, p);
      GapStops(s, p, t);
      SameRestCollapsed(s, n, t, p + 1);
      CollapsedIsSqueezed(s, n);
      CollapsedIsSqueezed(t, p + 1);
    } else {
      var e := PieceEnd(s, i);
      PressedCollapsed(s, e);
      PressedUnit(s, p, n, i);
      CollapsedIsSqueezed(s, e);
      CollapsedIsSqueezed(t, e);
      UnitIsPiece(s, i);
      UnitIsPiece(t, i);
      SameBefore(s, p, n, i, e);
      if IsGapChar(s[i]) {
        GapFacts(false, s, i);
        GapFacts(false, t, i);
      } else {
        UnitFacts(false, s, i);
        UnitFacts(false, t, i);
      }
    }
  }

  lemma GapStops(s: string, p: nat, t: string)
    requires p < |s| && IsGapChar(s[p]) && p < |t| && t[p] == ' ' && GapEnd(s, p) <= |s|
    requires t[p + 1..] == s[GapEnd(s, p)..]
    ensures GapEnd(t, p) == p + 1
  {
    hide IsGapChar;
    var n := GapEnd(s, p);
    GapIsPlain(' ');
    if p + 1 < |t| {
      assert t[p + 1] == t[p + 1..][0] == s[n..][0];
    }
    OneGap(t, p);
  }

  // A piece that ends before the pressed gap is as it was.
  lemma PressedUnit(s: string, p: nat, n: nat, i: nat)
    requires GapRun(s, p, n) && i < p && PieceEnd(s, i) <= p
    requires IsGapChar(s[i]) ==> GapEnd(s, i) == i + 1
    ensures var t := Pressed(s, p, n); i < |t| && t[i] == s[i] && PieceEnd(t, i) == PieceEnd(s, i)
  {
    hide IsGapChar, IsQuote, LiteralEnd, Pressed, GapEnd;
    PressedFacts(s, p, n);
    if IsGapChar(s[i]) {
      SingleGap(s, p, n, i);
    } else if IsQuote(s[i]) {
      PressedLiteral(s[i], s, p, n, i + 1);
    }
  }

  lemma SingleGap(s: string, p: nat, n: nat, i: nat)
    requires GapRun(s, p, n) && i < p && IsGapChar(s[i]) && GapEnd(s, i) == i + 1
    ensures i < |Pressed(s, p, n)| && GapEnd(Pressed(s, p, n), i) == i + 1
  {
    hide IsGapChar, Pressed;
    PressedFacts(s, p, n);
    assert i + 1 < |s| && !IsGapChar(s[i + 1]);
    assert i + 1 < p;
    OneGap(Pressed(s, p, n), i);
  }

  // The case of letters leaves the gaps as they are.
  lemma {:induction false} SameBadGap(s: string, f: string, i: nat)
    requires SameText(s, f) && i <= |s|
    ensures BadGap(f, i) == BadGap(s, i)
    decreases |s| - i
  {
    hide *;
    SameLength(s, f);
    SameIsAlike(s, f);
    BadGapFacts(s, i);
    BadGapFacts(f, i);
    if i < |s| {
      SameGapChar(s, f, i);
      AlikeGapEnd(s, f, i);
      AlikePieceEnd(s, f, i);
      SameBadGap(s, f, PieceEnd(s, i));
    }
  }

  lemma SameGapChar(s: string, f: string, i: nat)
    requires SameText(s, f) && i < |s|
    ensures (IsGapChar(s[i]) <==> IsGapChar(f[i])) && (IsGapChar(s[i]) ==> s[i] == f[i])
  {
    hide SameChar, IsGapChar, IsSpace;
    SameClass(s[i], f[i]);
    AlikeClass(s[i], f[i]);
  }

  // Pressing moves the first bad gap on.
  lemma {:induction false} BadGapMoves(s: string, i: nat)
    requires i <= |s| && BadGap(s, i) < |s|
    ensures var p := BadGap(s, i); var n := GapEnd(s, p);
            p < n <= |s| && i <= |Pressed(s, p, n)| && BadGap(Pressed(s, p, n), i) > p
    decreases |s| - i
  {
    hide *;
    BadGapFacts(s, i);
    BadGapIsGap(s, i);
    var p := BadGap(s, i);
    var n := GapEnd(s, p);
    RunFacts(s, p, n);
    var t := Pressed(s, p, n);
    PressedFacts(s, p, n);
    BadGapFacts(t, i);
    if p == i {
      GapStops(s, p, t);
      BadGapFacts(t, p + 1);
      GapFacts(false, t, p);
      UnitIsPiece(t, p);
    } else {
      PressedUnit(s, p, n, i);
      BadGapMoves(s, PieceEnd(s, i));
      SmallGapStays(s, p, n, i);
    }
  }

  lemma SmallGapStays(s: string, p: nat, n: nat, i: nat)
    requires GapRun(s, p, n) && i < p
    requires !(IsGapChar(s[i]) && !(s[i] == ' ' && GapEnd(s, i) == i + 1))
    ensures var t := Pressed(s, p, n);
            i < |t| && !(IsGapChar(t[i]) && !(t[i] == ' ' && GapEnd(t, i) == i + 1))
  {
    hide IsGapChar, GapEnd, Pressed;
    PressedFacts(s, p, n);
    if IsGapChar(s[i]) {
      SingleGap(s, p, n, i);
    }
  }

  // ---------------------------------------------------------------- the scanners commute

  // Collapsing and then lower-casing keywords is lower-casing keywords and then
  // collapsing, whatever the brackets and quotes hold.
  lemma {:induction false} ScannersCommute(s: string)
    ensures Canonical(Collapsed(s, 0), 0) == Collapsed(Canonical(s, 0), 0)
    decreases |s| - BadGap(s, 0)
  {
    hide *;
    var f := Canonical(s, 0);
    CanonicalTokens(s);
    SameBadGap(s, f, 0);
    SameLength(s, f);
    BadGapFacts(s, 0);
    var p := BadGap(s, 0);
    if p == |s| {
      NoBadGap(s, 0);
      NoBadGap(f, 0);
      WholeSlice(s);
      WholeSlice(f);
    } else {
      var n := GapEnd(s, p);
      BadGapIsGap(s, 0);
      RunFacts(s, p, n);
      PressedFacts(s, p, n);
      PressedCollapsed(s, 0);
      PressedCollapsed(f, 0);
      SameIsAlike(s, f);
      AlikeGapEnd(s, f, p);
      PressedCanonical(s, p, n, 0);
      BadGapMoves(s, 0);
      ScannersCommute(Pressed(s, p, n));
    }
  }

  lemma WholeSlice(s: string)
    ensures s[0..] == s
  {
  }

  lemma KeyCommutes(statement: string)
    ensures Normalize(statement) == Collapse(CanonicalizeKeywords(statement))
  {
    hide *;
    NormalizeIs(statement);
    var s := TrimSpace(statement);
    CanonicalIsTrimmed(statement);
    ScannersCommute(s);
    KeyParts(statement);
  }

  lemma KeyParts(statement: string)
    ensures Collapse(statement) == Collapsed(TrimSpace(statement), 0)
    ensures CanonicalizeKeywords(statement) == Canonical(TrimSpace(statement), 0)
    ensures Collapse(CanonicalizeKeywords(statement)) == Collapsed(TrimSpace(CanonicalizeKeywords(statement)), 0)
  {
    hide Collapsed, Canonical, TrimSpace;
  }

  // ---------------------------------------------------------------- keywords in any case

  predicate NoCapitals(words: set<string>) {
    forall w, i :: w in words && 0 <= i < |w| ==> !IsUpper(w[i])
  }

  lemma NoCapitalsAD()
    ensures NoCapitals(KEYWORDS_A_D)
  {
  }

  lemma NoCapitalsEI()
    ensures NoCapitals(KEYWORDS_E_I)
  {
  }

  lemma NoCapitalsJO()
    ensures NoCapitals(KEYWORDS_J_O)
  {
  }

  lemma NoCapitalsPZ()
    ensures NoCapitals(KEYWORDS_P_Z)
  {
  }

  lemma KeywordsAreLower()
    ensures NoCapitals(KEYWORDS)
  {
    hide KEYWORDS_A_D, KEYWORDS_E_I, KEYWORDS_J_O, KEYWORDS_P_Z, IsUpper;
    NoCapitalsAD();
    NoCapitalsEI();
    NoCapitalsJO();
    NoCapitalsPZ();
  }

  // A word is written as the keyword it is, in whatever case, and otherwise as it is.
  lemma WordWritten(v: string)
    ensures forall w :: w in KEYWORDS && Capitalized(v, w) ==> Fold(Word(v)) == Word(w)
    ensures (forall w :: w in KEYWORDS ==> !Capitalized(v, w)) ==> Fold(Word(v)) == Word(v)
  {
    hide KEYWORDS, Lower, Capitalized;
    KeywordsAreLower();
    forall w | w in KEYWORDS && Capitalized(v, w)
      ensures Lower(v) == w
    {
      LowerOfCapitalized(v, w);
    }
    CapitalizedOfLower(v);
  }

  // The same token, or the same unquoted keyword in any two cases.
  ghost predicate SameButCase(a: Token, b: Token) {
    || a == b
    || (a.Word? && b.Word? && exists w :: w in KEYWORDS && Capitalized(a.text, w) && Capitalized(b.text, w))
  }

  ghost predicate SameButKeywordCase(s: string, t: string) {
    var a, b := Tokens(TrimSpace(s), 0), Tokens(TrimSpace(t), 0);
    |a| == |b| && forall k :: 0 <= k < |a| ==> SameButCase(a[k], b[k])
  }

  lemma SameFold(a: Token, b: Token)
    requires SameButCase(a, b)
    ensures Fold(a) == Fold(b)
  {
    hide KEYWORDS, Fold, Capitalized;
    if a != b {
      WordWritten(a.text);
      WordWritten(b.text);
    }
  }

  lemma {:induction false} SameFolds(a: seq<Token>, b: seq<Token>)
    requires |a| == |b| && forall k :: 0 <= k < |a| ==> SameButCase(a[k], b[k])
    ensures FoldAll(a) == FoldAll(b)
  {
    hide SameButCase, Fold;
    if a != [] {
      SameFold(a[0], b[0]);
      SameFolds(a[1..], b[1..]);
    }
  }

  // Statements that differ only in the case of whole unquoted keywords share a key.
  lemma KeywordCaseIsIgnored(s: string, t: string)
    requires SameButKeywordCase(s, t)
    ensures Normalize(s) == Normalize(t)
  {
    hide Normalize, Tokens, FoldAll, Canonical, Collapse, TrimSpace, SameButCase;
    SameFolds(Tokens(TrimSpace(s), 0), Tokens(TrimSpace(t), 0));
    CanonicalEqualIff(TrimSpace(s), TrimSpace(t));
    KeyCommutes(s);
    KeyCommutes(t);
  }

  // "SELECT 1", and every other way to write it, has the key of "select 1".
  lemma SelectInAnyCase(v: string)
    requires Capitalized(v, "select")
    ensures Normalize(v + " 1") == "select 1"
  {
    hide Normalize, Canonical, Collapsed, TrimSpace, Collapse, Capitalized, Lower, Fold, TokenAt, TokenEnd, KEYWORDS;
    var s := v + " 1";
    LowerOfCapitalized(v, "select");
    WordChars(v, "select");
    SelectTokens(v);
    CanonicalUnfold(s, 0);
    SelectIsKeyword(v);
    CanonicalUnfold(s, 6);
    GapToken(s, 6);
    CanonicalUnfold(s, 7);
    CanonicalEnd(s);
    assert s[0..6] == v && s[7..8] == "1";
    assert Canonical(s, 0) == "select 1";
    TrimmedFacts(s);
    SelectCollapsed();
    KeyCommutes(s);
    KeyParts(s);
    CanonicalIsTrimmed(s);
  }

  lemma SelectIsKeyword(v: string)
    requires Capitalized(v, "select")
    ensures Fold(Word(v)) == Word("select")
  {
    hide Fold, Capitalized;
    assert "select" in KEYWORDS_P_Z;
    WordWritten(v);
  }

  lemma WordChars(v: string, w: string)
    requires Lower(v) == w && forall i :: 0 <= i < |w| ==> IsLower(w[i])
    ensures |v| == |w| && forall i :: 0 <= i < |v| ==> IsUpper(v[i]) || IsLower(v[i])
  {
  }

  lemma SelectTokens(v: string)
    requires |v| == 6 && forall i :: 0 <= i < |v| ==> IsUpper(v[i]) || IsLower(v[i])
    ensures var s := v + " 1";
            && |s| == 8 && s[6] == ' ' && IsGapChar(s[6]) && Trimmed(s)
            && TokenEnd(s, 0) == 6 && TokenAt(s, 0) == Word(v)
            && TokenEnd(s, 7) == 8 && Fold(TokenAt(s, 7)).text == "1"
  {
    var s := v + " 1";
    assert s[0..6] == v && s[7..8] == "1";
    WordEndIs(s, 1, 6);
  }

  lemma {:induction false} WordEndIs(s: string, i: nat, e: nat)
    requires i <= e <= |s| && (forall k :: i <= k < e ==> IsIdentPart(s[k])) && (e < |s| ==> !IsIdentPart(s[e]))
    ensures WordEnd(s, i) == e
    decreases e - i
  {
    hide IsIdentPart;
    if i < e {
      WordEndIs(s, i + 1, e);
    }
  }

  lemma SelectCollapsed()
    ensures Collapsed("select 1", 0) == "select 1"
  {
    hide Collapsed, BadGap, PieceEnd;
    var s := "select 1";
    NoGapBetween(s, 0, 6);
    GapIsPlain(' ');
    OneGap(s, 6);
    BadGapFacts(s, 6);
    UnitIsPiece(s, 6);
    NoGapBetween(s, 7, 8);
    BadGapFacts(s, 8);
    NoBadGap(s, 0);
    WholeSlice(s);
  }

  lemma {:induction false} NoGapBetween(s: string, i: nat, e: nat)
    requires i <= e <= |s| && forall k :: i <= k < e ==> !IsGapChar(s[k]) && !IsQuote(s[k])
    ensures BadGap(s, i) == BadGap(s, e)
    decreases e - i
  {
    hide IsGapChar, IsQuote, BadGap, GapEnd;
    if i < e {
      BadGapFacts(s, i);
      NoGapBetween(s, i + 1, e);
    }
  }

  // White space around the statement is ignored, of whatever kind.
  lemma OuterSpaceIsIgnored(before: string, statement: string, after: string)
    requires Blanks(before) && Blanks(after) && statement != "" && Trimmed(statement)
    ensures Normalize(before + (statement + after)) == Normalize(statement)
  {
    hide *;
    TrimPadded(before, statement, after);
    TrimmedFacts(statement);
    NormalizeIs(before + (statement + after));
    NormalizeIs(statement);
    KeyParts(before + (statement + after));
    KeyParts(statement);
  }
}
