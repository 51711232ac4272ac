// Go string helpers used throughout the repository, on strings as sequences of
// runes: white space and trimming, containment, splitting and joining.
module Text {
  // unicode.IsSpace
  predicate IsSpace(c: char) {
    || '\t' <= c <= '\r'
    || c == ' '
    || c == '\U{85}'
    || c == '\U{A0}'
    || c == '\U{1680}'
    || '\U{2000}' <= c <= '\U{200a}'
    || c == '\U{2028}'
    || c == '\U{2029}'
    || c == '\U{202f}'
    || c == '\U{205f}'
    || c == '\U{3000}'
  }

  // No white space at either end.
  predicate Trimmed(s: string) {
    s != "" ==> !IsSpace(s[0]) && !IsSpace(s[|s| - 1])
  }

  function TrimLeft(s: string): (r: string)
    ensures r != "" ==> !IsSpace(r[0])
    ensures |r| <= |s| && r == s[|s| - |r|..]
    ensures forall i :: 0 <= i < |s| - |r| ==> IsSpace(s[i])
  {
    if s != "" && IsSpace(s[0]) then TrimLeft(s[1..]) else s
  }

  function TrimRight(s: string): (r: string)
    ensures r != "" ==> !IsSpace(r[|r| - 1])
    ensures |r| <= |s| && r == s[..|r|]
    ensures forall i :: |r| <= i < |s| ==> IsSpace(s[i])
  {
    if s != "" && IsSpace(s[|s| - 1]) then TrimRight(s[..|s| - 1]) else s
  }

  // strings.TrimSpace
  function TrimSpace(s: string): (r: string)
    ensures Trimmed(r)
    ensures Trimmed(s) ==> r == s
    ensures |r| <= |s|
  {
    TrimRight(TrimLeft(s))
  }

  lemma TrimmedFacts(s: string)
    ensures Trimmed(s) <==> TrimSpace(s) == s
    ensures Trimmed(TrimSpace(s))
  {
  }

  predicate HasPrefix(s: string, w: string) {
    |w| <= |s| && s[..|w|] == w
  }

  // The text w stands in s at position i.
  predicate At(s: string, i: nat, w: string) {
    i + |w| <= |s| && s[i..i + |w|] == w
  }

  // strings.Contains
  predicate Contains(s: string, w: string) {
    exists i | 0 <= i <= |s| :: At(s, i, w)
  }

  lemma AtConcat(s: string, i: nat, u: string, v: string)
    ensures At(s, i, u + v) <==> At(s, i, u) && At(s, i + |u|, v)
  {
    if i + |u| + |v| <= |s| {
      var w := s[i..i + |u| + |v|];
      assert w == s[i..i + |u|] + s[i + |u|..i + |u| + |v|];
      assert w[..|u|] == s[i..i + |u|] && w[|u|..] == s[i + |u|..i + |u| + |v|];
      assert (u + v)[..|u|] == u && (u + v)[|u|..] == v;
    }
  }

  lemma Assoc<T>(a: seq<T>, b: seq<T>, c: seq<T>)
    ensures a + (b + c) == (a + b) + c
  {
  }

  lemma SameStart<T>(x: seq<T>, y: seq<T>, end: seq<T>)
    ensures x + end == y + end <==> x == y
  {
    if x + end == y + end {
      assert |x| == |y|;
      assert x == (x + end)[..|x|] && y == (y + end)[..|y|];
    }
  }

  lemma AtChar(s: string, i: nat, c: char)
    ensures At(s, i, [c]) <==> i < |s| && s[i] == c
  {
    if i < |s| {
      assert s[i..i + 1] == [s[i]];
    }
  }

  // ---------------------------------------------------------------- padding

  predicate Blanks(s: string) {
    forall i :: 0 <= i < |s| ==> IsSpace(s[i])
  }

  lemma {:induction false} TrimLeftBlanks(a: string, s: string)
    requires Blanks(a) && s != "" && !IsSpace(s[0])
    ensures TrimLeft(a + s) == s
  {
    hide IsSpace, Blanks, TrimLeft;
    TrimLeftDone(s);
    if a == "" {
      assert a + s == s;
    } else {
      BlankTail(a);
      TrimLeftBlanks(a[1..], s);
      assert (a + s)[1..] == a[1..] + s;
      TrimLeftStep(a + s);
    }
  }

  lemma BlankTail(a: string)
    requires Blanks(a) && a != ""
    ensures IsSpace(a[0]) && Blanks(a[1..])
  {
    hide IsSpace;
  }

  lemma TrimLeftStep(s: string)
    requires s != "" && IsSpace(s[0])
    ensures TrimLeft(s) == TrimLeft(s[1..])
  {
    hide IsSpace;
  }

  lemma TrimLeftDone(s: string)
    requires s != "" && !IsSpace(s[0])
    ensures TrimLeft(s) == s
  {
    hide IsSpace;
  }

  lemma {:induction false} TrimRightBlanks(s: string, b: string)
    requires Blanks(b) && s != "" && !IsSpace(s[|s| - 1])
    ensures TrimRight(s + b) == s
  {
    hide IsSpace;
    if b == "" {
      assert s + b == s;
    } else {
      assert IsSpace(b[|b| - 1]);
      TrimRightBlanks(s, b[..|b| - 1]);
      assert (s + b)[..|s + b| - 1] == s + b[..|b| - 1];
    }
  }

  lemma TrimPadded(a: string, s: string, b: string)
    requires Blanks(a) && Blanks(b) && s != "" && Trimmed(s)
    ensures TrimSpace(a + (s + b)) == s
  {
    hide IsSpace;
    TrimLeftBlanks(a, s + b);
    TrimRightBlanks(s, b);
  }
}
