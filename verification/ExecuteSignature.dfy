// executeStatementSignature (internal/aichat/runtime_eino.go): the key under which an
// execution is remembered.
module ExecuteSignature {
  import opened Text
  import Decimal
  import StatementKey

  // sanitizeStatementForTool
  type Sanitizer = string -> string

  const SEPARATOR := '\U{1f}'

  // What identifies an execution.
  datatype Request = Request(
    datasource: string,
    database: string,
    statement: string,
    pagingToken: string,
    pageSize: int)

  // normalizeExecuteStatementPageSize
  function PageSize(n: int): (r: nat)
    ensures 1 <= r <= 500
    ensures 1 <= n <= 500 ==> r == n
  {
    if n < 1 then 100 else if n > 500 then 500 else n
  }

  function StatementPart(sanitize: Sanitizer, r: Request): string {
    StatementKey.Normalize(sanitize(r.statement))
  }

  // The five parts, joined.
  function Fields(datasource: string, database: string, key: string, token: string, size: string): string {
    datasource + ([SEPARATOR] + (database + ([SEPARATOR] + (key + ([SEPARATOR] + (token + ([SEPARATOR] + size)))))))
  }

  function Signature(sanitize: Sanitizer, r: Request): string {
    var key := StatementPart(sanitize, r);
    if key == "" then ""
    else Fields(TrimSpace(r.datasource), TrimSpace(r.database), key, TrimSpace(r.pagingToken),
                Decimal.FormatNat(PageSize(r.pageSize)))
  }

  // ---------------------------------------------------------------- injectivity

  // The first part does not reach past the first separator of the other reading.
  lemma NotLonger(c: char, a: string, x: string, b: string, y: string)
    requires c !in b && a + ([c] + x) == b + ([c] + y)
    ensures |b| <= |a|
  {
    var s := a + ([c] + x);
    assert s[|a|] == c;
    assert forall k :: 0 <= k < |b| ==> s[k] == b[k];
  }

  // Cut at the first separator.
  lemma CutFirst(c: char, a: string, x: string, b: string, y: string)
    requires c !in a && c !in b && a + ([c] + x) == b + ([c] + y)
    ensures a == b && x == y
  {
    NotLonger(c, a, x, b, y);
    NotLonger(c, b, y, a, x);
    var s := a + ([c] + x);
    assert a == s[..|a|] && b == s[..|b|];
    assert x == s[|a| + 1..] && y == s[|b| + 1..];
  }

  lemma NotShorter(c: char, x: string, a: string, y: string, b: string)
    requires c !in b && x + ([c] + a) == y + ([c] + b)
    ensures |x| <= |y|
  {
    var s := x + ([c] + a);
    assert s[|x|] == c;
    assert forall k :: 0 <= k < |b| ==> s[|y| + 1 + k] == b[k];
    assert forall k :: |y| < k < |s| ==> s[k] == b[k - |y| - 1];
  }

  // Cut at the last separator.
  lemma CutLast(c: char, x: string, a: string, y: string, b: string)
    requires c !in a && c !in b && x + ([c] + a) == y + ([c] + b)
    ensures x == y && a == b
  {
    NotShorter(c, x, a, y, b);
    NotShorter(c, y, b, x, a);
    var s := x + ([c] + a);
    assert x == s[..|x|] && y == s[..|y|];
    assert a == s[|x| + 1..] && b == s[|y| + 1..];
  }

  lemma {:induction false} DigitsHaveNoSeparator(s: string)
    requires Decimal.AllDigits(s)
    ensures SEPARATOR !in s
  {
  }

  // The two parts before and the two after the statement decide where it lies, so it
  // may hold the separator itself.
  lemma FieldsInjective(a: string, b: string, k: string, t: string, n: string,
                        a': string, b': string, k': string, t': string, n': string)
    requires Fields(a, b, k, t, n) == Fields(a', b', k', t', n')
    requires SEPARATOR !in a && SEPARATOR !in b && SEPARATOR !in t && SEPARATOR !in n
    requires SEPARATOR !in a' && SEPARATOR !in b' && SEPARATOR !in t' && SEPARATOR !in n'
    ensures a == a' && b == b' && k == k' && t == t' && n == n'
  {
    var c := [SEPARATOR];
    var end, end' := k + (c + (t + (c + n))), k' + (c + (t' + (c + n')));
    CutFirst(SEPARATOR, a, b + (c + end), a', b' + (c + end'));
    CutFirst(SEPARATOR, b, end, b', end');
    Assoc(c, t, c + n);
    Assoc(k, c + t, c + n);
    Assoc(c, t', c + n');
    Assoc(k', c + t', c + n');
    CutLast(SEPARATOR, k + (c + t), n, k' + (c + t'), n');
    CutLast(SEPARATOR, k, t, k', t');
  }

  predicate SeparatorFree(r: Request) {
    && SEPARATOR !in TrimSpace(r.datasource)
    && SEPARATOR !in TrimSpace(r.database)
    && SEPARATOR !in TrimSpace(r.pagingToken)
  }

  predicate SameParts(sanitize: Sanitizer, r: Request, q: Request) {
    && TrimSpace(r.datasource) == TrimSpace(q.datasource)
    && TrimSpace(r.database) == TrimSpace(q.database)
    && StatementPart(sanitize, r) == StatementPart(sanitize, q)
    && TrimSpace(r.pagingToken) == TrimSpace(q.pagingToken)
    && PageSize(r.pageSize) == PageSize(q.pageSize)
  }

  lemma SignatureIs(sanitize: Sanitizer, r: Request)
    requires StatementPart(sanitize, r) != ""
    ensures Signature(sanitize, r) ==
            Fields(TrimSpace(r.datasource), TrimSpace(r.database), StatementPart(sanitize, r),
                   TrimSpace(r.pagingToken), Decimal.FormatNat(PageSize(r.pageSize)))
    ensures SEPARATOR !in Decimal.FormatNat(PageSize(r.pageSize))
    ensures Decimal.DigitsValue(Decimal.FormatNat(PageSize(r.pageSize))) == PageSize(r.pageSize)
  {
    hide TrimSpace, Fields, StatementPart, PageSize;
    Decimal.FormatNatValue(PageSize(r.pageSize));
    DigitsHaveNoSeparator(Decimal.FormatNat(PageSize(r.pageSize)));
  }

  // Two executions share a signature exactly when they have the same trimmed ids and
  // token, the same clamped page size and the same statement key.
  lemma SameSignatureIff(sanitize: Sanitizer, r: Request, q: Request)
    requires SeparatorFree(r) && SeparatorFree(q)
    requires StatementPart(sanitize, r) != "" && StatementPart(sanitize, q) != ""
    ensures Signature(sanitize, r) == Signature(sanitize, q) <==> SameParts(sanitize, r, q)
  {
    hide TrimSpace, Fields, StatementPart, PageSize, Signature;
    SignatureIs(sanitize, r);
    SignatureIs(sanitize, q);
    if Signature(sanitize, r) == Signature(sanitize, q) {
      FieldsInjective(
        TrimSpace(r.datasource), TrimSpace(r.database), StatementPart(sanitize, r),
        TrimSpace(r.pagingToken), Decimal.FormatNat(PageSize(r.pageSize)),
        TrimSpace(q.datasource), TrimSpace(q.database), StatementPart(sanitize, q),
        TrimSpace(q.pagingToken), Decimal.FormatNat(PageSize(q.pageSize)));
    }
  }

  // ---------------------------------------------------------------- counting separators

  function Separators(s: string): nat {
    multiset(s)[SEPARATOR]
  }

  lemma SeparatorsOf(s: string, t: string)
    ensures Separators(s) == 0 <==> SEPARATOR !in s
    ensures Separators(s + t) == Separators(s) + Separators(t)
    ensures Separators([SEPARATOR] + t) == 1 + Separators(t)
  {
    assert multiset(s + t) == multiset(s) + multiset(t);
    assert multiset([SEPARATOR] + t) == multiset{SEPARATOR} + multiset(t);
  }

  lemma FieldSeparators(a: string, b: string, k: string, t: string, n: string)
    ensures Separators(Fields(a, b, k, t, n)) ==
            4 + Separators(a) + Separators(b) + Separators(k) + Separators(t) + Separators(n)
  {
    hide Separators;
    var c := [SEPARATOR];
    SeparatorsOf(t, c + n);
    SeparatorsOf(t, n);
    SeparatorsOf(k, c + (t + (c + n)));
    SeparatorsOf(k, t + (c + n));
    SeparatorsOf(b, c + (k + (c + (t + (c + n)))));
    SeparatorsOf(b, k + (c + (t + (c + n))));
    SeparatorsOf(a, c + (b + (c + (k + (c + (t + (c + n)))))));
    SeparatorsOf(a, b + (c + (k + (c + (t + (c + n))))));
  }

  // An execution none of whose parts holds a separator shares its signature with the
  // executions of the same parts, and with no other whatever their parts hold.
  lemma SignatureTellsApart(sanitize: Sanitizer, r: Request, q: Request)
    requires SeparatorFree(r) && StatementPart(sanitize, r) != "" && SEPARATOR !in StatementPart(sanitize, r)
    ensures Signature(sanitize, r) == Signature(sanitize, q) <==> SameParts(sanitize, r, q)
  {
    hide TrimSpace, Fields, StatementPart, PageSize, Signature, Separators;
    SignatureBlankIff(sanitize, r);
    SignatureBlankIff(sanitize, q);
    if StatementPart(sanitize, q) != "" {
      NoSeparators(sanitize, r);
      SignatureIs(sanitize, q);
      if Signature(sanitize, r) == Signature(sanitize, q) {
        NoSeparators(sanitize, q);
        SameSignatureIff(sanitize, r, q);
      }
      if SameParts(sanitize, r, q) {
        SameSignatureIff(sanitize, r, q);
      }
    }
  }

  lemma NoSeparators(sanitize: Sanitizer, r: Request)
    requires StatementPart(sanitize, r) != ""
    ensures Separators(Signature(sanitize, r)) == 4
       <==> SeparatorFree(r) && SEPARATOR !in StatementPart(sanitize, r)
  {
    hide TrimSpace, Fields, StatementPart, PageSize, Signature, Separators;
    SignatureIs(sanitize, r);
    var a, b, t := TrimSpace(r.datasource), TrimSpace(r.database), TrimSpace(r.pagingToken);
    var k := StatementPart(sanitize, r);
    var n := Decimal.FormatNat(PageSize(r.pageSize));
    FieldSeparators(a, b, k, t, n);
    SeparatorsOf(a, "");
    SeparatorsOf(b, "");
    SeparatorsOf(k, "");
    SeparatorsOf(t, "");
    SeparatorsOf(n, "");
  }

  // ---------------------------------------------------------------- one statement, two targets

  // A separator stands in the id between two parts that are themselves trimmed.
  predicate SplitAt(id: string, i: nat) {
    i < |id| && id[i] == SEPARATOR && Trimmed(id[..i]) && Trimmed(id[i + 1..])
  }

  predicate Splits(id: string) {
    exists i: nat | i < |id| :: SplitAt(id, i)
  }

  lemma FieldsOfTarget(a: string, b: string, a': string, b': string, k: string, t: string, n: string)
    ensures Fields(a, b, k, t, n) == Fields(a', b', k, t, n)
       <==> a + ([SEPARATOR] + b) == a' + ([SEPARATOR] + b')
  {
    var c := [SEPARATOR];
    var end := c + (k + (c + (t + (c + n))));
    Assoc(c, b, end);
    Assoc(a, c + b, end);
    Assoc(c, b', end);
    Assoc(a', c + b', end);
    SameStart(a + (c + b), a' + (c + b'), end);
  }

  // Joined ids can be cut elsewhere only at a separator inside one of them.
  lemma ShorterCut(a: string, b: string, a': string, b': string)
    requires Trimmed(a) && Trimmed(a') && Trimmed(b')
    requires a + ([SEPARATOR] + b) == a' + ([SEPARATOR] + b') && |a'| < |a|
    ensures Splits(a)
  {
    hide IsSpace;
    var s := a + ([SEPARATOR] + b);
    var i := |a'|;
    assert a[i] == s[i] == SEPARATOR;
    assert a[..i] == s[..i] == a';
    if i + 1 < |a| {
      assert b'[0] == s[i + 1] == a[i + 1];
    }
    assert SplitAt(a, i);
  }

  lemma LongerCut(a: string, b: string, a': string, b': string)
    requires Trimmed(b) && Trimmed(a') && Trimmed(b')
    requires a + ([SEPARATOR] + b) == a' + ([SEPARATOR] + b') && |a'| > |a|
    ensures Splits(b)
  {
    hide IsSpace;
    var s := a + ([SEPARATOR] + b);
    var i := |a'| - |a| - 1;
    assert b[i] == s[|a'|] == SEPARATOR;
    assert forall j :: 0 <= j < |b| ==> s[|a| + 1 + j] == b[j];
    assert forall j :: 0 <= j < |b'| ==> s[|a'| + 1 + j] == b'[j];
    assert b[i + 1..] == b';
    if i > 0 {
      assert b[..i][i - 1] == s[|a'| - 1] == a'[|a'| - 1];
    }
    assert SplitAt(b, i);
  }

  // The same execution with the two ids cut elsewhere.
  function Retargeted(r: Request, datasource: string, database: string): Request {
    r.(datasource := datasource, database := database)
  }

  lemma RetargetedIff(sanitize: Sanitizer, r: Request, x: string, y: string)
    requires StatementPart(sanitize, r) != ""
    ensures Signature(sanitize, Retargeted(r, x, y)) == Signature(sanitize, r)
       <==> TrimSpace(x) + ([SEPARATOR] + TrimSpace(y)) ==
            TrimSpace(r.datasource) + ([SEPARATOR] + TrimSpace(r.database))
  {
    hide TrimSpace, Fields, PageSize, Signature;
    SignatureIs(sanitize, r);
    SignatureIs(sanitize, Retargeted(r, x, y));
    FieldsOfTarget(TrimSpace(x), TrimSpace(y), TrimSpace(r.datasource), TrimSpace(r.database),
                   StatementPart(sanitize, r), TrimSpace(r.pagingToken), Decimal.FormatNat(PageSize(r.pageSize)));
  }

  // A separator between the parts of an id lets the executions of one statement on
  // two different targets share a signature.
  lemma SeparatorInIdCollides(sanitize: Sanitizer, r: Request, x: string, y: string, d: string)
    requires StatementPart(sanitize, r) != "" && Trimmed(x) && Trimmed(y) && Trimmed(d)
    ensures var p, q := Retargeted(r, x + [SEPARATOR] + y, d), Retargeted(r, x, y + [SEPARATOR] + d);
            && Signature(sanitize, p) == Signature(sanitize, q)
            && TrimSpace(p.datasource) != TrimSpace(q.datasource)
            && TrimSpace(p.database) != TrimSpace(q.database)
  {
    hide TrimSpace, Signature, StatementPart, IsSpace, Trimmed;
    var c := [SEPARATOR];
    JoinTrimmed(x, y);
    JoinTrimmed(y, d);
    TrimmedFacts(x);
    TrimmedFacts(d);
    TrimmedFacts(x + c + y);
    TrimmedFacts(y + c + d);
    var p, q := Retargeted(r, x + c + y, d), Retargeted(r, x, y + c + d);
    SamePart(sanitize, r, x, y + c + d);
    RetargetedIff(sanitize, q, p.datasource, p.database);
    assert (x + c + y) + (c + d) == x + (c + (y + c + d));
    assert |x + c + y| > |x| && |y + c + d| > |d|;
  }

  lemma SamePart(sanitize: Sanitizer, r: Request, x: string, y: string)
    ensures StatementPart(sanitize, Retargeted(r, x, y)) == StatementPart(sanitize, r)
    ensures var q := Retargeted(r, x, y);
            Retargeted(q, r.datasource, r.database) == r && (forall a, b :: Retargeted(q, a, b) == Retargeted(r, a, b))
  {
  }

  lemma JoinTrimmed(x: string, y: string)
    requires Trimmed(x) && Trimmed(y)
    ensures Trimmed(x + [SEPARATOR] + y)
  {
    var s := x + [SEPARATOR] + y;
    assert s[0] == if x == "" then SEPARATOR else x[0];
    assert s[|s| - 1] == if y == "" then SEPARATOR else y[|y| - 1];
  }

  // Another target with the signature of r.
  predicate Collides(sanitize: Sanitizer, r: Request, x: string, y: string) {
    Signature(sanitize, Retargeted(r, x, y)) == Signature(sanitize, r) && TrimSpace(x) != TrimSpace(r.datasource)
  }

  lemma SplitParts(id: string, i: nat)
    requires SplitAt(id, i)
    ensures i < |id| && Trimmed(id[..i]) && Trimmed(id[i + 1..]) && id == id[..i] + [SEPARATOR] + id[i + 1..]
  {
    hide Trimmed;
  }

  lemma Recut(a: string, b: string, x: string, m: string)
    ensures a == x + [SEPARATOR] + m ==> x + ([SEPARATOR] + (m + [SEPARATOR] + b)) == a + ([SEPARATOR] + b)
    ensures b == m + [SEPARATOR] + x ==> (a + [SEPARATOR] + m) + ([SEPARATOR] + x) == a + ([SEPARATOR] + b)
    ensures |a + [SEPARATOR] + m| > |a| && (a == x + [SEPARATOR] + m ==> |x| < |a|)
  {
  }

  lemma SplitCollides(sanitize: Sanitizer, r: Request)
    requires StatementPart(sanitize, r) != "" && (Splits(TrimSpace(r.datasource)) || Splits(TrimSpace(r.database)))
    ensures exists x, y :: Collides(sanitize, r, x, y)
  {
    hide *;
    var c := [SEPARATOR];
    var a, b := TrimSpace(r.datasource), TrimSpace(r.database);
    TrimmedFacts(r.datasource);
    TrimmedFacts(r.database);
    if Splits(a) {
      var i := SplitOf(a);
      SplitParts(a, i);
      Recut(a, b, a[..i], a[i + 1..]);
      JoinTrimmed(a[i + 1..], b);
      CollidesBy(sanitize, r, a[..i], a[i + 1..] + c + b);
    } else {
      var i := SplitOf(b);
      SplitParts(b, i);
      Recut(a, b, b[i + 1..], b[..i]);
      JoinTrimmed(a, b[..i]);
      CollidesBy(sanitize, r, a + c + b[..i], b[i + 1..]);
    }
  }

  lemma SplitOf(id: string) returns (i: nat)
    requires Splits(id)
    ensures SplitAt(id, i)
  {
    hide SplitAt;
    i :| i < |id| && SplitAt(id, i);
  }

  lemma CollidesBy(sanitize: Sanitizer, r: Request, x: string, y: string)
    requires StatementPart(sanitize, r) != "" && Trimmed(x) && Trimmed(y) && |x| != |TrimSpace(r.datasource)|
    requires x + ([SEPARATOR] + y) == TrimSpace(r.datasource) + ([SEPARATOR] + TrimSpace(r.database))
    ensures Collides(sanitize, r, x, y)
  {
    hide TrimSpace, Signature, StatementPart, Trimmed, Retargeted;
    TrimmedFacts(x);
    TrimmedFacts(y);
    RetargetedIff(sanitize, r, x, y);
  }

  // The signature tells the targets of one statement apart exactly when neither id
  // can be split at a separator.
  lemma TargetsToldApartIff(sanitize: Sanitizer, r: Request)
    requires StatementPart(sanitize, r) != ""
    ensures (forall x, y ::
               Signature(sanitize, Retargeted(r, x, y)) == Signature(sanitize, r) <==>
               TrimSpace(x) == TrimSpace(r.datasource) && TrimSpace(y) == TrimSpace(r.database))
       <==> !Splits(TrimSpace(r.datasource)) && !Splits(TrimSpace(r.database))
  {
    hide TrimSpace, Signature, StatementPart, IsSpace, Trimmed, Splits;
    var a, b := TrimSpace(r.datasource), TrimSpace(r.database);
    if Splits(a) || Splits(b) {
      SplitCollides(sanitize, r);
      var x, y :| Collides(sanitize, r, x, y);
      assert !(Signature(sanitize, Retargeted(r, x, y)) == Signature(sanitize, r) <==>
               TrimSpace(x) == a && TrimSpace(y) == b);
    } else {
      forall x, y
        ensures Signature(sanitize, Retargeted(r, x, y)) == Signature(sanitize, r) <==>
                TrimSpace(x) == a && TrimSpace(y) == b
      {
        RetargetedIff(sanitize, r, x, y);
        TrimmedFacts(r.datasource);
        TrimmedFacts(r.database);
        TrimmedFacts(x);
        TrimmedFacts(y);
        if Signature(sanitize, Retargeted(r, x, y)) == Signature(sanitize, r) {
          OneCut(a, b, TrimSpace(x), TrimSpace(y));
        }
      }
    }
  }

  lemma OneCut(a: string, b: string, a': string, b': string)
    requires Trimmed(a) && Trimmed(b) && Trimmed(a') && Trimmed(b') && !Splits(a) && !Splits(b)
    requires a' + ([SEPARATOR] + b') == a + ([SEPARATOR] + b)
    ensures a == a' && b == b'
  {
    hide Trimmed, Splits;
    if |a'| < |a| {
      ShorterCut(a, b, a', b');
    } else if |a'| > |a| {
      LongerCut(a, b, a', b');
    } else {
      var s := a + ([SEPARATOR] + b);
      assert a == s[..|a|] && a' == s[..|a|];
      assert b == s[|a| + 1..] && b' == s[|a| + 1..];
    }
  }

  lemma FieldsNotEmpty(a: string, b: string, k: string, t: string, n: string)
    ensures Fields(a, b, k, t, n) != ""
  {
  }

  // Only a blank statement has no signature.
  lemma SignatureBlankIff(sanitize: Sanitizer, r: Request)
    ensures Signature(sanitize, r) == "" <==> StatementPart(sanitize, r) == ""
  {
    hide TrimSpace, Fields, StatementPart, PageSize;
    FieldsNotEmpty(TrimSpace(r.datasource), TrimSpace(r.database), StatementPart(sanitize, r), TrimSpace(r.pagingToken),
                   Decimal.FormatNat(PageSize(r.pageSize)));
  }

  // ---------------------------------------------------------------- page sizes

  // A page size below one is the default of a hundred, one above five hundred is five
  // hundred, and any other counts as it is.
  lemma PageSizeForms(sanitize: Sanitizer, r: Request, size: int)
    requires StatementPart(sanitize, r) != ""
    ensures Signature(sanitize, r.(pageSize := size)) ==
            Signature(sanitize, r.(pageSize := if size < 1 then 100 else if size > 500 then 500 else size))
    ensures 1 <= size <= 500 && 1 <= r.pageSize <= 500 && SeparatorFree(r) ==>
              (Signature(sanitize, r.(pageSize := size)) == Signature(sanitize, r) <==> size == r.pageSize)
  {
    hide TrimSpace, Fields, Signature, Trimmed;
    var q := r.(pageSize := size);
    var n := r.(pageSize := if size < 1 then 100 else if size > 500 then 500 else size);
    SignatureIs(sanitize, q);
    SignatureIs(sanitize, n);
    if SeparatorFree(r) {
      SameSignatureIff(sanitize, q, r);
    }
  }
}
