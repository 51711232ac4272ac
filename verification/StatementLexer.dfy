// collapseExecuteStatementWhitespace (internal/aichat/runtime_eino.go): the
// quote-aware scanner that squeezes unquoted white space, against a lexical
// reading of the statement.
module StatementLexer {
  import opened Text

  predicate IsQuote(c: char) {
    c == '\'' || c == '"' || c == '`'
  }

  // The six ASCII characters the scanners treat as separators.
  predicate IsGapChar(c: char) {
    c == ' ' || c == '\t' || c == '\n' || c == '\r' || c == '\U{c}' || c == '\U{b}'
  }

  // Where a literal ends, i being inside it: after the closing quote, or at the
  // end of the text. A backslash takes the next character along; a doubled single
  // or double quote stays inside.
  function LiteralEnd(q: char, s: string, i: nat): (e: nat)
    requires i <= |s|
    ensures i <= e <= |s|
    ensures i < |s| ==> i < e
    decreases |s| - i
  {
    if i == |s| then i
    else if s[i] == '\\' && i + 1 < |s| then LiteralEnd(q, s, i + 2)
    else if s[i] == q then
      if q != '`' && i + 1 < |s| && s[i + 1] == q then LiteralEnd(q, s, i + 2) else i + 1
    else LiteralEnd(q, s, i + 1)
  }

  // Where the run of separators at i ends.
  function GapEnd(s: string, i: nat): (e: nat)
    requires i <= |s|
    ensures i <= e <= |s|
    ensures i < |s| && IsGapChar(s[i]) ==> i < e
    ensures i == |s| || !IsGapChar(s[i]) ==> e == i
    ensures e < |s| ==> !IsGapChar(s[e])
    ensures forall k :: i <= k < e ==> IsGapChar(s[k])
    decreases |s| - i
  {
    if i < |s| && IsGapChar(s[i]) then GapEnd(s, i + 1) else i
  }

  datatype Piece =
    | Gap(text: string)
    | Literal(text: string)
    | Plain(text: string)

  function PieceEnd(s: string, i: nat): (e: nat)
    requires i < |s|
    ensures i < e <= |s|
  {
    if IsGapChar(s[i]) then GapEnd(s, i)
    else if IsQuote(s[i]) then LiteralEnd(s[i], s, i + 1)
    else i + 1
  }

  function PieceAt(s: string, i: nat): (p: Piece)
    requires i < |s|
    ensures p.text == s[i..PieceEnd(s, i)]
  {
    var text := s[i..PieceEnd(s, i)];
    if IsGapChar(s[i]) then Gap(text) else if IsQuote(s[i]) then Literal(text) else Plain(text)
  }

  // The lexical reading of s from i on.
  function Pieces(s: string, i: nat): seq<Piece>
    requires i <= |s|
    decreases |s| - i
  {
    if i == |s| then [] else [PieceAt(s, i)] + Pieces(s, PieceEnd(s, i))
  }

  // The piece, whatever the white space in a gap.
  function Squeeze(p: Piece): Piece {
    if p.Gap? then Gap(" ") else p
  }

  function Flatten(ps: seq<Piece>): string {
    if ps == [] then "" else ps[0].text + Flatten(ps[1..])
  }

  function Shape(ps: seq<Piece>): seq<Piece> {
    if ps == [] then [] else [Squeeze(ps[0])] + Shape(ps[1..])
  }

  lemma ShapeCons(p: Piece, rest: seq<Piece>)
    ensures Shape([p] + rest) == [Squeeze(p)] + Shape(rest)
    ensures Flatten([p] + rest) == p.text + Flatten(rest)
  {
    assert ([p] + rest)[1..] == rest;
  }

  // The reading loses nothing.
  lemma {:induction false} PiecesCover(s: string, i: nat)
    requires i <= |s|
    ensures Flatten(Pieces(s, i)) == s[i..]
    decreases |s| - i
  {
    if i < |s| {
      var e := PieceEnd(s, i);
      PiecesCover(s, e);
      ShapeCons(PieceAt(s, i), Pieces(s, e));
      assert s[i..] == s[i..e] + s[e..];
    }
  }

  // What collapsing leaves of s from i on: every gap becomes one space.
  function Collapsed(s: string, i: nat): (r: string)
    requires i <= |s|
    ensures |r| <= |s| - i
    ensures i < |s| ==> r != "" && r[0] == if IsGapChar(s[i]) then ' ' else s[i]
    decreases |s| - i
  {
    if i == |s| then "" else Squeeze(PieceAt(s, i)).text + Collapsed(s, PieceEnd(s, i))
  }

  lemma {:induction false} CollapsedIsShape(s: string, i: nat)
    requires i <= |s|
    ensures Collapsed(s, i) == Flatten(Shape(Pieces(s, i)))
    decreases |s| - i
  {
    hide PieceAt, PieceEnd, Squeeze;
    if i < |s| {
      var p, rest := PieceAt(s, i), Pieces(s, PieceEnd(s, i));
      CollapsedIsShape(s, PieceEnd(s, i));
      ShapeCons(p, rest);
      ShapeCons(Squeeze(p), Shape(rest));
    }
  }

  // t holds at k what s holds from i to e.
  predicate CopiedTo(s: string, i: nat, e: nat, t: string, k: nat) {
    i <= e <= |s| && k + (e - i) <= |t| && forall n :: i <= n < e ==> t[k + (n - i)] == s[n]
  }

  lemma CopiedFrom(s: string, i: nat, e: nat, t: string, k: nat, d: nat)
    requires CopiedTo(s, i, e, t, k) && i + d <= e
    ensures CopiedTo(s, i + d, e, t, k + d) && k + (e - i) <= |t|
    ensures forall n :: i <= n < i + d ==> t[k + (n - i)] == s[n]
  {
    forall n | i + d <= n < e
      ensures t[k + d + (n - (i + d))] == s[n]
    {
      assert t[k + (n - i)] == s[n];
    }
  }

  lemma LiteralStep(q: char, s: string, i: nat)
    requires i < |s|
    ensures s[i] == '\\' && i + 1 < |s| ==> LiteralEnd(q, s, i) == LiteralEnd(q, s, i + 2)
    ensures s[i] != '\\' || i + 1 == |s| ==>
              LiteralEnd(q, s, i) ==
              if s[i] != q then LiteralEnd(q, s, i + 1)
              else if q != '`' && i + 1 < |s| && s[i + 1] == q then LiteralEnd(q, s, i + 2) else i + 1
  {
  }

  // A copied literal ends where it ended, if the character after it is still a
  // closing-quote continuation or still is not.
  lemma {:induction false} LiteralEndCopied(q: char, s: string, i: nat, t: string, k: nat, e: nat)
    requires i <= |s| && e == LiteralEnd(q, s, i) && CopiedTo(s, i, e, t, k)
    requires var f := k + (e - i); (e == |s| <==> f == |t|) && (e < |s| ==> (t[f] == q <==> s[e] == q))
    ensures LiteralEnd(q, t, k) == k + (e - i)
    decreases |s| - i
  {
    hide CopiedTo, LiteralEnd;
    if i < |s| {
      LiteralStep(q, s, i);
      CopiedFrom(s, i, e, t, k, 1);
      LiteralStep(q, t, k);
      assert t[k + (i - i)] == s[i];
      if e > i + 1 {
        CopiedFrom(s, i, e, t, k, 2);
        assert t[k + (i + 1 - i)] == s[i + 1];
        if (s[i] == '\\' && i + 1 < |s|) || (s[i] == q && q != '`' && i + 1 < |s| && s[i + 1] == q) {
          LiteralEndCopied(q, s, i + 2, t, k + 2, e);
        } else if s[i] != q {
          LiteralEndCopied(q, s, i + 1, t, k + 1, e);
        }
      } else if s[i] != q {
        LiteralEndCopied(q, s, i + 1, t, k + 1, e);
      }
    } else {
      CopiedFrom(s, i, e, t, k, 0);
      LiteralEndsAtEnd(q, t);
    }
  }

  lemma LiteralEndsAtEnd(q: char, t: string)
    ensures LiteralEnd(q, t, |t|) == |t|
  {
  }

  // The first character left by collapsing is a given quote exactly when it was.
  lemma FirstLeft(s: string, i: nat, t: string, k: nat)
    requires i <= |s| && k <= |t| && t[k..] == Collapsed(s, i)
    ensures i == |s| <==> k == |t|
    ensures i < |s| ==> t[k] == if IsGapChar(s[i]) then ' ' else s[i]
  {
    hide IsGapChar, PieceAt, PieceEnd, Squeeze;
    if i < |s| {
      assert t[k] == t[k..][0];
    }
  }

  lemma ReadRest(s: string, i: nat, t: string, k: nat, f: nat)
    requires i < |s| && k <= |t| && t[k..] == Collapsed(s, i)
    requires f == k + |Squeeze(PieceAt(s, i)).text|
    ensures f <= |t| && t[k..f] == Squeeze(PieceAt(s, i)).text && t[f..] == Collapsed(s, PieceEnd(s, i))
  {
    hide PieceAt, PieceEnd, Squeeze, IsGapChar;
    var text, rest := Squeeze(PieceAt(s, i)).text, Collapsed(s, PieceEnd(s, i));
    assert t[k..] == text + rest;
    assert t[k..f] == t[k..][..f - k] == text;
    assert t[f..] == t[k..][f - k..] == rest;
  }

  lemma SliceEqual(s: string, i: nat, e: nat, t: string, k: nat)
    requires i <= e <= |s| && k + (e - i) <= |t| && t[k..k + (e - i)] == s[i..e]
    ensures CopiedTo(s, i, e, t, k)
  {
    forall n | i <= n < e
      ensures t[k + (n - i)] == s[n]
    {
      assert t[k + (n - i)] == t[k..k + (e - i)][n - i] && s[n] == s[i..e][n - i];
    }
  }

  lemma ReadLiteral(s: string, i: nat, t: string, k: nat)
    requires i < |s| && k < |t| && t[k..] == Collapsed(s, i) && IsQuote(s[i]) && !IsGapChar(s[i])
    ensures t[k] == s[i] && LiteralEnd(s[i], t, k + 1) == k + PieceEnd(s, i) - i
  {
    hide *;
    LiteralPiece(s, i);
    var e := LiteralEnd(s[i], s, i + 1);
    var f := k + (e - i);
    FirstLeft(s, i, t, k);
    ReadRest(s, i, t, k, f);
    SliceEqual(s, i, e, t, k);
    FirstLeft(s, e, t, f);
    CopiedFrom(s, i, e, t, k, 1);
    NextIsQuote(s, e, t, f, s[i]);
    LiteralEndCopied(s[i], s, i + 1, t, k + 1, e);
  }

  lemma LiteralPiece(s: string, i: nat)
    requires i < |s| && IsQuote(s[i]) && !IsGapChar(s[i])
    ensures var e := LiteralEnd(s[i], s, i + 1);
            i < e <= |s| && PieceEnd(s, i) == e && Squeeze(PieceAt(s, i)).text == s[i..e] && |s[i..e]| == e - i
  {
    hide LiteralEnd, IsGapChar, IsQuote;
  }

  lemma NextIsQuote(s: string, e: nat, t: string, f: nat, q: char)
    requires IsQuote(q) && e <= |s| && f <= |t| && (e == |s| <==> f == |t|)
    requires e < |s| ==> t[f] == if IsGapChar(s[e]) then ' ' else s[e]
    ensures e < |s| ==> (t[f] == q <==> s[e] == q)
  {
  }

  lemma ReadPiece(s: string, i: nat, t: string, k: nat)
    requires i < |s| && k < |t| && t[k..] == Collapsed(s, i)
    ensures PieceAt(t, k) == Squeeze(PieceAt(s, i))
    ensures PieceEnd(t, k) == k + |Squeeze(PieceAt(s, i)).text|
  {
    hide Collapsed, LiteralEnd;
    FirstLeft(s, i, t, k);
    ReadRest(s, i, t, k, k + |Squeeze(PieceAt(s, i)).text|);
    if IsGapChar(s[i]) {
      var e := GapEnd(s, i);
      FirstLeft(s, e, t, k + 1);
      assert GapEnd(t, k) == GapEnd(t, k + 1) == k + 1;
    } else if IsQuote(s[i]) {
      ReadLiteral(s, i, t, k);
    }
  }

  // Reading a collapsed text gives back the shape of the original.
  lemma {:induction false} ReadCollapsed(s: string, i: nat, t: string, k: nat)
    requires i <= |s| && k <= |t| && t[k..] == Collapsed(s, i)
    ensures Pieces(t, k) == Shape(Pieces(s, i))
    decreases |s| - i
  {
    hide IsGapChar, Collapsed, PieceAt, PieceEnd, Squeeze;
    FirstLeft(s, i, t, k);
    if i < |s| {
      ReadPiece(s, i, t, k);
      ReadRest(s, i, t, k, PieceEnd(t, k));
      ReadCollapsed(s, PieceEnd(s, i), t, PieceEnd(t, k));
      ShapeCons(PieceAt(s, i), Pieces(s, PieceEnd(s, i)));
    }
  }

  // ---------------------------------------------------------------- collapsing

  function Collapse(statement: string): string {
    Collapsed(TrimSpace(statement), 0)
  }

  lemma {:induction false} LastLeft(s: string, i: nat)
    requires i < |s| && !IsGapChar(s[|s| - 1])
    ensures Collapsed(s, i) != "" && Collapsed(s, i)[|Collapsed(s, i)| - 1] == s[|s| - 1]
    decreases |s| - i
  {
    hide LiteralEnd;
    var e := PieceEnd(s, i);
    if e < |s| {
      LastLeft(s, e);
    }
  }

  lemma CollapsedIsTrimmed(s: string)
    requires Trimmed(s)
    ensures Trimmed(Collapsed(s, 0))
  {
    hide IsGapChar, IsSpace;
    if s != "" {
      NotAGap(s[0]);
      NotAGap(s[|s| - 1]);
      LastLeft(s, 0);
    }
  }

  lemma NotAGap(c: char)
    ensures !IsSpace(c) ==> !IsGapChar(c)
  {
  }

  // What is still to be written, a separator being pending or not.
  ghost function Pending(s: string, i: nat, pendingSpace: bool): string
    requires i <= |s|
  {
    if pendingSpace then " " + Collapsed(s, GapEnd(s, i)) else Collapsed(s, i)
  }

  // What is still to be written inside a literal.
  ghost function Inside(q: char, s: string, i: nat): string
    requires i <= |s|
  {
    s[i..LiteralEnd(q, s, i)] + Collapsed(s, LiteralEnd(q, s, i))
  }

  // The text b has been written of the total and the rest is still to come.
  ghost predicate Written(b: string, rest: string, total: string) {
    b + rest == total
  }

  lemma Write(b: string, text: string, rest: string, total: string)
    requires Written(b, text + rest, total)
    ensures Written(b + text, rest, total)
  {
    Assoc(b, text, rest);
  }

  lemma InsideStep(q: char, s: string, i: nat, n: nat)
    requires i < n <= |s| && LiteralEnd(q, s, i) == LiteralEnd(q, s, n)
    ensures Inside(q, s, i) == s[i..n] + Inside(q, s, n)
  {
    hide Collapsed, LiteralEnd;
    var e := LiteralEnd(q, s, i);
    assert s[i..e] == s[i..n] + s[n..e];
    Assoc(s[i..n], s[n..e], Collapsed(s, e));
  }

  lemma InsideEnds(q: char, s: string, i: nat)
    requires i < |s| && LiteralEnd(q, s, i) == i + 1
    ensures Inside(q, s, i) == [s[i]] + Collapsed(s, i + 1)
  {
    hide Collapsed, LiteralEnd;
    assert s[i..i + 1] == [s[i]];
  }

  lemma OpenLiteral(s: string, i: nat)
    requires i < |s| && IsQuote(s[i]) && !IsGapChar(s[i])
    ensures Collapsed(s, i) == [s[i]] + Inside(s[i], s, i + 1)
  {
    hide LiteralEnd, IsGapChar, IsQuote, Collapsed;
    var e := LiteralEnd(s[i], s, i + 1);
    LiteralCollapsed(s, i);
    SliceCons(s, i, e);
    Assoc([s[i]], s[i + 1..e], Collapsed(s, e));
  }

  lemma SliceCons(s: string, i: nat, e: nat)
    requires i < e <= |s|
    ensures s[i..e] == [s[i]] + s[i + 1..e]
  {
  }

  lemma LiteralCollapsed(s: string, i: nat)
    requires i < |s| && IsQuote(s[i]) && !IsGapChar(s[i])
    ensures var e := LiteralEnd(s[i], s, i + 1); Collapsed(s, i) == s[i..e] + Collapsed(s, e)
  {
    hide LiteralEnd, IsGapChar, IsQuote;
  }

  // The scanner itself. `quote` is the one of its three in-literal flags that is
  // set, if any.
  method CollapseWhitespace(statement: string) returns (r: string)
    ensures r == Collapse(statement)
  {
    hide *;
    var s := TrimSpace(statement);
    TrimFacts(statement);
    if s == "" {
      EndFacts(s, '"');
      return "";
    }
    var b, i, pendingSpace := "", 0, false;
    var inLiteral, quote := false, '"';
    ghost var total := Collapsed(s, 0);
    PendingFacts(s, 0);
    WrittenEnds(b, total, total);
    while i < |s|
      invariant i <= |s|
      invariant i > 0 ==> b != ""
      invariant pendingSpace ==> !inLiteral && i > 0 && IsGapChar(s[i - 1])
      invariant inLiteral ==> i > 0 && Written(b, Inside(quote, s, i), total)
      invariant !inLiteral ==> Written(b, Pending(s, i, pendingSpace), total)
    {
      var ch := s[i];
      CharFacts(s, i);
      PendingFacts(s, i);
      PendingFacts(s, i + 1);
      if inLiteral {
        LiteralStep(quote, s, i);
        if (ch == '\\' && i + 1 < |s|)
          || (ch == quote && quote != '`' && i + 1 < |s| && s[i + 1] == quote) {
          InsideStep(quote, s, i, i + 2);
          Write(b, s[i..i + 2], Inside(quote, s, i + 2), total);
          b := b + s[i..i + 2];
          i := i + 2;
        } else {
          if ch == quote {
            InsideEnds(quote, s, i);
            Write(b, [ch], Collapsed(s, i + 1), total);
            inLiteral := false;
          } else {
            InsideStep(quote, s, i, i + 1);
            OneChar(s, i);
            Write(b, [ch], Inside(quote, s, i + 1), total);
          }
          b := b + [ch];
          i := i + 1;
        }
      } else if IsGapChar(ch) {
        pendingSpace := b != "";
        i := i + 1;
      } else {
        if pendingSpace && b != "" {
          Write(b, " ", Collapsed(s, i), total);
          b := b + " ";
        }
        pendingSpace := false;
        if IsQuote(ch) {
          OpenLiteral(s, i);
          inLiteral, quote := true, ch;
          Write(b, [ch], Inside(ch, s, i + 1), total);
        } else {
          Write(b, [ch], Collapsed(s, i + 1), total);
        }
        b := b + [ch];
        i := i + 1;
      }
    }
    EndFacts(s, quote);
    PendingFacts(s, |s|);
    WrittenEnds(b, "", total);
    r := TrimSpace(b);
  }

  lemma TrimFacts(statement: string)
    ensures var s := TrimSpace(statement);
            && Collapse(statement) == Collapsed(s, 0)
            && TrimSpace(Collapsed(s, 0)) == Collapsed(s, 0)
            && (s != "" ==> !IsGapChar(s[0]) && !IsGapChar(s[|s| - 1]))
  {
    hide IsSpace, IsGapChar, Collapsed;
    var s := TrimSpace(statement);
    if s != "" {
      NotAGap(s[0]);
      NotAGap(s[|s| - 1]);
    }
    CollapsedIsTrimmed(s);
  }

  lemma PendingFacts(s: string, i: nat)
    requires i <= |s|
    ensures Pending(s, i, false) == Collapsed(s, i)
    ensures Pending(s, i, true) == " " + Collapsed(s, GapEnd(s, i))
  {
  }

  lemma WrittenEnds(b: string, rest: string, total: string)
    ensures b == "" && rest == total ==> Written(b, rest, total)
    ensures rest == "" && Written(b, rest, total) ==> b == total
  {
  }

  lemma EndFacts(s: string, q: char)
    ensures Inside(q, s, |s|) == "" && Collapsed(s, |s|) == ""
  {
  }

  lemma OneChar(s: string, i: nat)
    requires i < |s|
    ensures s[i..i + 1] == [s[i]]
  {
  }

  lemma CharFacts(s: string, i: nat)
    requires i < |s|
    ensures IsGapChar(s[i]) ==> !IsQuote(s[i]) && GapEnd(s, i) == GapEnd(s, i + 1)
    ensures IsGapChar(s[i]) ==> Collapsed(s, i) == " " + Collapsed(s, GapEnd(s, i + 1))
    ensures !IsGapChar(s[i]) ==> GapEnd(s, i) == i
    ensures !IsGapChar(s[i]) && !IsQuote(s[i]) ==> Collapsed(s, i) == [s[i]] + Collapsed(s, i + 1)
  {
  }

  // Two statements collapse to the same text exactly when they have the same
  // literals, character for character, and the same other characters, with gaps
  // at the same places.
  lemma CollapseEqualIffSameShape(s: string, t: string)
    ensures Collapse(s) == Collapse(t)
       <==> Shape(Pieces(TrimSpace(s), 0)) == Shape(Pieces(TrimSpace(t), 0))
  {
    hide Collapsed, Pieces, Shape, TrimSpace;
    var u, v := TrimSpace(s), TrimSpace(t);
    CollapsedIsShape(u, 0);
    CollapsedIsShape(v, 0);
    assert Collapse(s)[0..] == Collapse(s);
    ReadCollapsed(u, 0, Collapse(s), 0);
    if Collapse(s) == Collapse(t) {
      ReadCollapsed(v, 0, Collapse(t), 0);
    }
  }

  lemma CollapseIdempotent(s: string)
    ensures Trimmed(Collapse(s)) && Collapse(Collapse(s)) == Collapse(s)
  {
    hide Collapsed, Pieces, Shape, IsSpace;
    var u := TrimSpace(s);
    var c := Collapse(s);
    CollapsedIsTrimmed(u);
    assert c[0..] == c;
    ReadCollapsed(u, 0, c, 0);
    CollapsedIsShape(u, 0);
    CollapsedIsShape(c, 0);
    ShapeIdempotent(Pieces(u, 0));
  }

  lemma {:induction false} ShapeIdempotent(ps: seq<Piece>)
    ensures Shape(Shape(ps)) == Shape(ps)
  {
    if ps != [] {
      ShapeIdempotent(ps[1..]);
      ShapeCons(Squeeze(ps[0]), Shape(ps[1..]));
    }
  }
}
