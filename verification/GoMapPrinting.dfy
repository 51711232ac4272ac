// fmt's print format for nested maps and slices, and its inverse: GoMap parses a
// printed value back, exactly up to its end.
module GoMapPrinting {
  import opened Decimal
  import opened Wrappers
  import opened GoMap
  import opened LetterCase
  import Text

  // A value as it is printed: fmt prints nil as "<nil>" and other tools as "nil" or
  // "null", a float in one of several forms, and a map prints its entries in some order.
  datatype Doc =
    | NilDoc(word: string)
    | BoolDoc(flag: bool)
    | IntDoc(number: int)
    | FloatDoc(token: string)
    | TextDoc(text: string)
    | ListDoc(items: seq<Doc>)
    | MapDoc(entries: seq<Entry>)

  datatype Entry = Entry(key: string, value: Doc)

  function Print(d: Doc): string {
    match d
    case NilDoc(word) => word
    case BoolDoc(flag) => if flag then "true" else "false"
    case IntDoc(n) => FormatInt(n)
    case FloatDoc(token) => token
    case TextDoc(text) => text
    case ListDoc(items) => "[" + PrintItems(items)
    case MapDoc(entries) => "map[" + PrintEntries(entries)
  }

  // The items or entries, with a space between them, and the closing bracket.
  function PrintItems(ds: seq<Doc>): string {
    if ds == [] then "]"
    else Print(ds[0]) + (if |ds| == 1 then "]" else " " + PrintItems(ds[1..]))
  }

  function PrintEntries(es: seq<Entry>): string {
    if es == [] then "]"
    else es[0].key + (":" + (Print(es[0].value) + (if |es| == 1 then "]" else " " + PrintEntries(es[1..]))))
  }

  function ValueOf(d: Doc): GoValue {
    match d
    case NilDoc(_) => Nil
    case BoolDoc(flag) => Bool(flag)
    case IntDoc(n) => Int(n)
    case FloatDoc(token) => Float(token)
    case TextDoc(text) => Str(text)
    case ListDoc(items) => List(ValuesOf(items))
    case MapDoc(entries) => Map(EntriesOf(entries, map[]))
  }

  function ValuesOf(ds: seq<Doc>): seq<GoValue> {
    if ds == [] then [] else [ValueOf(ds[0])] + ValuesOf(ds[1..])
  }

  function EntriesOf(es: seq<Entry>, out: map<string, GoValue>): map<string, GoValue>
    decreases es
  {
    if es == [] then out else EntriesOf(es[1..], out[es[0].key := ValueOf(es[0].value)])
  }

  // A token the lexer takes whole.
  predicate PlainToken(token: string) {
    token != "" && Text.Trimmed(token) && forall i :: 0 <= i < |token| ==> !EndsToken(token[i])
  }

  predicate PlainKey(key: string) {
    key != "" && Text.Trimmed(key) && forall i :: 0 <= i < |key| ==> !EndsKey(key[i])
  }

  // A token that opens no map or list, is none of the fixed words and no integer.
  predicate FreeToken(token: string) {
    && PlainToken(token) && token[0] != '[' && !Text.At(token, 0, "map[")
    && token !in {"<nil>", "nil", "null", "true", "false"}
    && ParseInt64(token) == None
  }

  // The texts a printed value can carry: no delimiter in a key or token, and no
  // text that reads as something else.
  predicate Printable(isFloat: FloatTest, d: Doc) {
    match d
    case NilDoc(word) => word in {"<nil>", "nil", "null"}
    case BoolDoc(_) => true
    case IntDoc(n) => INT64_MIN <= n <= INT64_MAX
    case FloatDoc(token) => FreeToken(token) && isFloat(token)
    case TextDoc(text) => FreeToken(text) && !isFloat(text)
    case ListDoc(items) => forall i :: 0 <= i < |items| ==> Printable(isFloat, items[i])
    case MapDoc(entries) =>
      forall i :: 0 <= i < |entries| ==> PlainKey(entries[i].key) && Printable(isFloat, entries[i].value)
  }

  // What may follow a printed value.
  predicate Closed(s: string, e: nat) {
    e <= |s| && (e < |s| ==> EndsToken(s[e]))
  }

  // ---------------------------------------------------------------- lexing

  lemma {:induction false} TokenEndAt(s: string, i: nat, e: nat)
    requires i <= e && Closed(s, e) && forall k :: i <= k < e ==> !EndsToken(s[k])
    ensures TokenEnd(s, i) == e
    decreases e - i
  {
    hide EndsToken;
    if i < e {
      TokenEndAt(s, i + 1, e);
    }
  }

  lemma {:induction false} KeyEndAt(s: string, i: nat, e: nat)
    requires i <= e < |s| && EndsKey(s[e]) && forall k :: i <= k < e ==> !EndsKey(s[k])
    ensures KeyEnd(s, i) == e
    decreases e - i
  {
    hide EndsKey;
    if i < e {
      KeyEndAt(s, i + 1, e);
    }
  }

  lemma CharAt(s: string, i: nat, w: string)
    requires Text.At(s, i, w)
    ensures i + |w| <= |s| && forall k :: i <= k < i + |w| ==> s[k] == w[k - i]
  {
    forall k | i <= k < i + |w|
      ensures s[k] == w[k - i]
    {
      assert s[i..i + |w|][k - i] == s[k];
    }
  }

  lemma BlankEnds(c: char)
    ensures IsBlank(c) ==> EndsToken(c)
    ensures EndsToken(c) ==> EndsKey(c)
    ensures EndsKey(':') && EndsToken(']') && EndsToken(' ') && IsBlank(' ') && !IsBlank(']')
    ensures !EndsToken('[') && !EndsToken('m') && !EndsToken('a') && !EndsToken('p')
  {
  }

  // A plain token in place lexes as itself and classifies.
  lemma TokenParses(isFloat: FloatTest, s: string, i: nat, token: string)
    requires Text.At(s, i, token) && PlainToken(token) && Closed(s, i + |token|)
    ensures SkipSpaces(s, i) == i < |s| && s[i] == token[0]
    ensures TokenAt(isFloat, s, i) == Ok(Classify(isFloat, token), i + |token|)
  {
    hide EndsToken, IsBlank, Classify, Text.Trimmed, Text.TrimSpace, Text.At;
    CharAt(s, i, token);
    BlankEnds(s[i]);
    TokenEndAt(s, i, i + |token|);
    TokenText(s, i, token);
  }

  lemma TokenText(s: string, i: nat, token: string)
    requires Text.At(s, i, token)
    ensures i + |token| <= |s| && s[i..i + |token|] == token
  {
  }

  // Such a token is a value unless it opens a map or a list.
  lemma TokenIsValue(isFloat: FloatTest, s: string, i: nat, token: string)
    requires Text.At(s, i, token) && PlainToken(token) && Closed(s, i + |token|)
    requires token[0] != '[' && !Text.At(token, 0, "map[")
    ensures ValueAt(isFloat, s, i) == Ok(Classify(isFloat, token), i + |token|)
  {
    hide EndsToken, IsBlank, Classify, Text.Trimmed, TokenAt, TokenEnd;
    TokenParses(isFloat, s, i, token);
    NotAMap(s, i, token);
  }

  lemma NotAMap(s: string, i: nat, token: string)
    requires Text.At(s, i, token) && Closed(s, i + |token|) && !Text.At(token, 0, "map[")
    ensures !Text.At(s, i, "map[")
  {
    hide EndsToken;
    if Text.At(s, i, "map[") {
      CharAt(s, i, "map[");
      CharAt(s, i, token);
      BlankEnds(' ');
    }
  }

  // ---------------------------------------------------------------- scalars

  lemma IntIsPlain(isFloat: FloatTest, n: int)
    requires INT64_MIN <= n <= INT64_MAX
    ensures var s := FormatInt(n);
            && PlainToken(s) && s[0] != '[' && !Text.At(s, 0, "map[") && Classify(isFloat, s) == Int(n)
  {
    hide FormatNat;
    var s := FormatInt(n);
    if n < 0 {
      assert s[0] == '-';
      forall i | 0 <= i < |s|
        ensures s[i] == '-' || IsDigit(s[i])
      {
        assert i > 0 ==> s[i] == FormatNat(-n)[i - 1];
      }
    }
    NumberIsPlain(s);
    ParseFormat(n);
    NumberClassified(isFloat, s, n);
  }

  lemma NumberIsPlain(s: string)
    requires s != "" && forall i :: 0 <= i < |s| ==> s[i] == '-' || IsDigit(s[i])
    ensures PlainToken(s) && s[0] != '[' && !Text.At(s, 0, "map[")
  {
    if Text.At(s, 0, "map[") {
      CharAt(s, 0, "map[");
    }
  }

  lemma NumberClassified(isFloat: FloatTest, s: string, n: int)
    requires s != "" && (s[0] == '-' || IsDigit(s[0])) && ParseInt64(s) == Some(n)
    ensures Classify(isFloat, s) == Int(n)
  {
    hide ParseInt64;
  }

  lemma WordIsPlain(w: string)
    requires w in {"<nil>", "nil", "null", "true", "false"}
    ensures PlainToken(w) && w[0] != '[' && !Text.At(w, 0, "map[")
  {
  }

  lemma WordsClassified(isFloat: FloatTest)
    ensures Classify(isFloat, "<nil>") == Classify(isFloat, "nil") == Classify(isFloat, "null") == Nil
    ensures Classify(isFloat, "true") == Bool(true)
    ensures Classify(isFloat, "false") == Bool(false)
  {
    hide ParseInt64;
  }

  predicate IsScalar(d: Doc) {
    !d.ListDoc? && !d.MapDoc?
  }

  lemma ScalarToken(isFloat: FloatTest, d: Doc)
    requires IsScalar(d) && Printable(isFloat, d)
    ensures var w := Print(d);
            && PlainToken(w) && w[0] != '[' && !Text.At(w, 0, "map[")
            && Classify(isFloat, w) == ValueOf(d)
  {
    hide Classify, PlainToken, Text.At, ParseInt64;
    WordsClassified(isFloat);
    if d.IntDoc? {
      IntIsPlain(isFloat, d.number);
    } else if d.TextDoc? || d.FloatDoc? {
      FreeClassified(isFloat, Print(d));
    } else {
      WordIsPlain(Print(d));
    }
  }

  lemma FreeClassified(isFloat: FloatTest, token: string)
    requires FreeToken(token)
    ensures Classify(isFloat, token) == if isFloat(token) then Float(token) else Str(token)
  {
    hide ParseInt64, PlainToken, Text.At;
  }

  // A token in place is read as the text it is exactly when it is none of the fixed
  // words and no number; else as what the word or number stands for.
  lemma TokenReads(isFloat: FloatTest, s: string, i: nat, token: string)
    requires Text.At(s, i, token) && PlainToken(token) && Closed(s, i + |token|)
    requires token[0] != '[' && !Text.At(token, 0, "map[")
    ensures var r := ValueAt(isFloat, s, i);
            && r.Ok? && r.next == i + |token|
            && (r.value == Str(token) <==> FreeToken(token) && !isFloat(token))
            && (r.value == Float(token) <==> FreeToken(token) && isFloat(token))
            && (r.value == Nil <==> token in {"<nil>", "nil", "null"})
            && (r.value == Bool(true) <==> token == "true")
            && (r.value == Bool(false) <==> token == "false")
            && (forall n :: r.value == Int(n) <==> ParseInt64(token) == Some(n))
  {
    hide Classify, PlainToken, Text.At, ParseInt64, ValueAt, Closed;
    TokenIsValue(isFloat, s, i, token);
    WordsClassified(isFloat);
    WordsAreNoNumbers();
    if token !in {"<nil>", "nil", "null", "true", "false"} {
      OtherClassified(isFloat, token);
    }
  }

  lemma OtherClassified(isFloat: FloatTest, token: string)
    requires token !in {"<nil>", "nil", "null", "true", "false"}
    ensures Classify(isFloat, token) ==
            if ParseInt64(token).Some? then Int(ParseInt64(token).value)
            else if isFloat(token) then Float(token)
            else Str(token)
  {
    hide ParseInt64;
  }

  lemma WordsAreNoNumbers()
    ensures forall w :: w in {"<nil>", "nil", "null", "true", "false"} ==> ParseInt64(w) == None
  {
    NoNumber("<nil>");
    NoNumber("nil");
    NoNumber("null");
    NoNumber("true");
    NoNumber("false");
  }

  lemma NoNumber(w: string)
    requires w != "" && !IsDigit(w[0]) && w[0] != '-' && w[0] != '+'
    ensures ParseInt64(w) == None
  {
  }

  // ---------------------------------------------------------------- nesting

  // A printed value starts with a character that neither is blank nor closes.
  lemma FirstChar(isFloat: FloatTest, d: Doc)
    requires Printable(isFloat, d)
    ensures Print(d) != "" && !EndsToken(Print(d)[0])
  {
    hide Classify, EndsToken, Text.At, FormatInt;
    BlankEnds('[');
    if IsScalar(d) {
      ScalarToken(isFloat, d);
    }
  }

  // Skipping from a position whose character is not blank, or is one space
  // before such a one.
  lemma SkipHere(s: string, i: nat)
    requires i < |s| && !EndsToken(s[i])
    ensures SkipSpaces(s, i) == i && s[i] != ']'
    ensures i > 0 && s[i - 1] == ' ' ==> SkipSpaces(s, i - 1) == i
  {
    hide EndsToken, IsBlank;
    BlankEnds(s[i]);
    assert i > 0 && s[i - 1] == ' ' ==> SkipSpaces(s, i - 1) == SkipSpaces(s, i);
  }

  lemma SkipClose(s: string, i: nat)
    requires i < |s| && s[i] == ']'
    ensures SkipSpaces(s, i) == i
  {
  }

  // The round trip: a printed value in place, followed by the end, a blank or a
  // closing bracket, parses to its value with the position exactly at its end.
  lemma {:induction false} PrintedValueParses(isFloat: FloatTest, d: Doc, s: string, i: nat)
    requires Printable(isFloat, d) && Text.At(s, i, Print(d)) && Closed(s, i + |Print(d)|)
    ensures ValueAt(isFloat, s, i) == Ok(ValueOf(d), i + |Print(d)|)
    decreases d, 1
  {
    hide EndsToken, IsBlank, Classify, Text.At, EntriesAt, ItemsAt, PlainToken, Closed, PlainKey;
    if IsScalar(d) {
      ScalarToken(isFloat, d);
      TokenIsValue(isFloat, s, i, Print(d));
    } else if d.ListDoc? {
      var tail := PrintItems(d.items);
      Text.AtConcat(s, i, "[", tail);
      CharAt(s, i, "[");
      BlankEnds('[');
      SkipHere(s, i);
      NotMapHere(s, i);
      PrintedItemsParse(isFloat, d.items, s, i + 1, []);
      assert [] + ValuesOf(d.items) == ValuesOf(d.items);
    } else {
      var tail := PrintEntries(d.entries);
      Text.AtConcat(s, i, "map[", tail);
      CharAt(s, i, "map[");
      BlankEnds('m');
      SkipHere(s, i);
      PrintedEntriesParse(isFloat, d.entries, s, i + 4, map[]);
    }
  }

  lemma NotMapHere(s: string, i: nat)
    requires i < |s| && s[i] == '['
    ensures !Text.At(s, i, "map[")
  {
    if Text.At(s, i, "map[") {
      CharAt(s, i, "map[");
    }
  }

  // One round of parseArray's loop, and the round that closes it.
  lemma ItemsStep(isFloat: FloatTest, s: string, i: nat, out: seq<GoValue>, value: GoValue, e: nat)
    requires i < |s| && SkipSpaces(s, i) == i && s[i] != ']'
    requires ValueAt(isFloat, s, i) == Ok(value, e)
    ensures e < |s| && s[e] == ']' ==> ItemsAt(isFloat, s, i, out) == Ok(out + [value], e + 1)
    ensures e < |s| && SkipSpaces(s, e) == e + 1 < |s| && s[e + 1] != ']' ==>
              ItemsAt(isFloat, s, i, out) == ItemsAt(isFloat, s, e + 1, out + [value])
  {
    hide ValueAt, IsBlank;
    if e < |s| && s[e] == ']' {
      SkipClose(s, e);
    }
  }

  lemma ItemsClose(isFloat: FloatTest, s: string, i: nat, out: seq<GoValue>)
    requires i < |s| && s[i] == ']'
    ensures ItemsAt(isFloat, s, i, out) == Ok(out, i + 1)
  {
    hide ValueAt;
    SkipClose(s, i);
  }

  lemma {:induction false} PrintedItemsParse(
    isFloat: FloatTest, ds: seq<Doc>, s: string, i: nat, out: seq<GoValue>)
    requires forall k :: 0 <= k < |ds| ==> Printable(isFloat, ds[k])
    requires Text.At(s, i, PrintItems(ds))
    ensures i <= |s|
    ensures ItemsAt(isFloat, s, i, out) == Ok(out + ValuesOf(ds), i + |PrintItems(ds)|)
    decreases ds, 0
  {
    hide EndsToken, IsBlank, Text.At, Printable, ValueAt, Print, ValueOf, ItemsAt, SkipSpaces;
    CharAt(s, i, PrintItems(ds));
    if ds == [] {
      ItemsClose(isFloat, s, i, out);
      assert out + ValuesOf(ds) == out;
    } else {
      var d, w, value := ds[0], Print(ds[0]), ValueOf(ds[0]);
      var e := i + |w|;
      FirstChar(isFloat, d);
      if |ds| == 1 {
        Text.AtConcat(s, i, w, "]");
        ItemInPlace(s, i, w, e, "]");
        PrintedValueParses(isFloat, d, s, i);
        ItemsStep(isFloat, s, i, out, value, e);
        assert ds[1..] == [] && ValuesOf(ds) == [value];
      } else {
        var rest := PrintItems(ds[1..]);
        Text.AtConcat(s, i, w, " " + rest);
        ItemInPlace(s, i, w, e, " " + rest);
        assert (" " + rest)[1..] == rest;
        PrintedValueParses(isFloat, d, s, i);
        FirstItem(isFloat, ds[1..]);
        CharAt(s, e + 1, rest);
        SkipHere(s, e + 1);
        ItemsStep(isFloat, s, i, out, value, e);
        PrintedItemsParse(isFloat, ds[1..], s, e + 1, out + [value]);
        assert out + [value] + ValuesOf(ds[1..]) == out + ValuesOf(ds);
      }
    }
  }

  // A printed item followed by a blank or the closing bracket.
  lemma ItemInPlace(s: string, i: nat, w: string, e: nat, tail: string)
    requires w != "" && !EndsToken(w[0]) && e == i + |w|
    requires Text.At(s, i, w) && Text.At(s, e, tail)
    requires tail != "" && (tail[0] == ']' || tail[0] == ' ')
    ensures i < |s| && SkipSpaces(s, i) == i && s[i] != ']'
    ensures Closed(s, e) && e < |s| && s[e] == tail[0]
    ensures Text.At(s, e + 1, tail[1..])
  {
    hide EndsToken, IsBlank, Text.At, SkipSpaces;
    BlankEnds(' ');
    CharAt(s, i, w);
    SkipHere(s, i);
    assert tail == [tail[0]] + tail[1..];
    Text.AtConcat(s, e, [tail[0]], tail[1..]);
    CharAt(s, e, [tail[0]]);
  }

  lemma FirstItem(isFloat: FloatTest, ds: seq<Doc>)
    requires ds != [] && Printable(isFloat, ds[0])
    ensures PrintItems(ds) != "" && !EndsToken(PrintItems(ds)[0])
  {
    hide EndsToken, Printable, Print;
    FirstChar(isFloat, ds[0]);
  }

  lemma KeyInPlace(s: string, i: nat, key: string)
    requires PlainKey(key) && Text.At(s, i, key) && i + |key| < |s| && s[i + |key|] == ':'
    ensures SkipSpaces(s, i) == i && s[i] != ']'
    ensures KeyEnd(s, i) == i + |key| && Text.TrimSpace(s[i..i + |key|]) == key
  {
    hide EndsToken, EndsKey, IsBlank, Text.Trimmed, Text.TrimSpace, Text.At;
    CharAt(s, i, key);
    BlankEnds(s[i]);
    SkipHere(s, i);
    KeyEndAt(s, i, i + |key|);
    TokenText(s, i, key);
  }

  lemma KeyFirst(key: string)
    requires PlainKey(key)
    ensures key != "" && !EndsToken(key[0])
  {
    hide EndsToken, EndsKey, Text.Trimmed;
    BlankEnds(key[0]);
  }

  // One round of parseMap's loop, and the round that closes it.
  lemma EntriesStep(
    isFloat: FloatTest, s: string, i: nat, out: map<string, GoValue>, key: string, value: GoValue, e: nat)
    requires i < |s| && SkipSpaces(s, i) == i && s[i] != ']'
    requires KeyEnd(s, i) == i + |key| < |s| && s[i + |key|] == ':'
    requires key != "" && Text.TrimSpace(s[i..i + |key|]) == key
    requires ValueAt(isFloat, s, i + |key| + 1) == Ok(value, e)
    ensures e < |s| && s[e] == ']' ==> EntriesAt(isFloat, s, i, out) == Ok(out[key := value], e + 1)
    ensures e < |s| && SkipSpaces(s, e) == e + 1 < |s| && s[e + 1] != ']' ==>
              EntriesAt(isFloat, s, i, out) == EntriesAt(isFloat, s, e + 1, out[key := value])
  {
    hide ValueAt, IsBlank, EndsKey, Text.TrimSpace;
    if e < |s| && s[e] == ']' {
      SkipClose(s, e);
    }
  }

  lemma EntriesClose(isFloat: FloatTest, s: string, i: nat, out: map<string, GoValue>)
    requires i < |s| && s[i] == ']'
    ensures EntriesAt(isFloat, s, i, out) == Ok(out, i + 1)
  {
    hide ValueAt, Text.TrimSpace;
    SkipClose(s, i);
  }

  // The last entry of a map, its value parsed.
  lemma LastEntryParses(isFloat: FloatTest, e: Entry, s: string, i: nat, out: map<string, GoValue>)
    requires PlainKey(e.key) && Printable(isFloat, e.value)
    requires var first := i + |e.key| + 1; var end := first + |Print(e.value)|;
             && Text.At(s, i, e.key + (":" + (Print(e.value) + "]")))
             && (Text.At(s, first, Print(e.value)) && Closed(s, end) ==>
                   ValueAt(isFloat, s, first) == Ok(ValueOf(e.value), end))
    ensures EntriesAt(isFloat, s, i, out)
         == Ok(out[e.key := ValueOf(e.value)], i + |e.key| + 1 + |Print(e.value)| + 1)
  {
    hide *;
    var key, w := e.key, Print(e.value);
    var first := i + |key| + 1;
    KeyFirst(key);
    FirstChar(isFloat, e.value);
    EntryInPlace(s, i, key, w, "]");
    KeyInPlace(s, i, key);
    ItemInPlace(s, first, w, first + |w|, "]");
    EntriesStep(isFloat, s, i, out, key, ValueOf(e.value), first + |w|);
  }

  // An entry with others after it: parsing goes on at the next one.
  lemma NextEntryParses(isFloat: FloatTest, e: Entry, rest: string, s: string, i: nat, out: map<string, GoValue>)
    requires PlainKey(e.key) && Printable(isFloat, e.value) && rest != "" && !EndsToken(rest[0])
    requires var first := i + |e.key| + 1; var end := first + |Print(e.value)|;
             && Text.At(s, i, e.key + (":" + (Print(e.value) + (" " + rest))))
             && (Text.At(s, first, Print(e.value)) && Closed(s, end) ==>
                   ValueAt(isFloat, s, first) == Ok(ValueOf(e.value), end))
    ensures var next := i + |e.key| + 1 + |Print(e.value)| + 1;
            && Text.At(s, next, rest) && next <= |s|
            && EntriesAt(isFloat, s, i, out) == EntriesAt(isFloat, s, next, out[e.key := ValueOf(e.value)])
  {
    hide *;
    var key, w := e.key, Print(e.value);
    var first := i + |key| + 1;
    var end := first + |w|;
    KeyFirst(key);
    FirstChar(isFloat, e.value);
    EntryInPlace(s, i, key, w, " " + rest);
    KeyInPlace(s, i, key);
    ItemInPlace(s, first, w, end, " " + rest);
    assert (" " + rest)[1..] == rest;
    CharAt(s, end + 1, rest);
    SkipHere(s, end + 1);
    EntriesStep(isFloat, s, i, out, key, ValueOf(e.value), end);
  }

  lemma EntriesUnfold(es: seq<Entry>, out: map<string, GoValue>)
    ensures es == [] ==> PrintEntries(es) == "]" && EntriesOf(es, out) == out
    ensures |es| == 1 ==> EntriesOf(es, out) == out[es[0].key := ValueOf(es[0].value)]
    ensures |es| == 1 ==> PrintEntries(es) == es[0].key + (":" + (Print(es[0].value) + "]"))
    ensures |es| > 1 ==> EntriesOf(es, out) == EntriesOf(es[1..], out[es[0].key := ValueOf(es[0].value)])
    ensures |es| > 1 ==> PrintEntries(es) == es[0].key + (":" + (Print(es[0].value) + (" " + PrintEntries(es[1..]))))
  {
    hide Print, ValueOf;
  }

  lemma {:induction false} PrintedEntriesParse(
    isFloat: FloatTest, es: seq<Entry>, s: string, i: nat, out: map<string, GoValue>)
    requires forall k :: 0 <= k < |es| ==> PlainKey(es[k].key) && Printable(isFloat, es[k].value)
    requires Text.At(s, i, PrintEntries(es))
    ensures i <= |s|
    ensures EntriesAt(isFloat, s, i, out) == Ok(EntriesOf(es, out), i + |PrintEntries(es)|)
    decreases es, 0
  {
    hide *;
    EntriesUnfold(es, out);
    CharAt(s, i, PrintEntries(es));
    if es == [] {
      EntriesClose(isFloat, s, i, out);
    } else {
      var first := i + |es[0].key| + 1;
      if Text.At(s, first, Print(es[0].value)) && Closed(s, first + |Print(es[0].value)|) {
        PrintedValueParses(isFloat, es[0].value, s, first);
      }
      if |es| == 1 {
        LastEntryParses(isFloat, es[0], s, i, out);
      } else {
        var rest := PrintEntries(es[1..]);
        FirstEntry(es[1..]);
        NextEntryParses(isFloat, es[0], rest, s, i, out);
        var more := out[es[0].key := ValueOf(es[0].value)];
        PrintedEntriesParse(isFloat, es[1..], s, first + |Print(es[0].value)| + 1, more);
      }
    }
  }

  lemma EntryInPlace(s: string, i: nat, key: string, w: string, tail: string)
    requires Text.At(s, i, key + (":" + (w + tail)))
    ensures Text.At(s, i, key) && i + |key| < |s| && s[i + |key|] == ':'
    ensures Text.At(s, i + |key| + 1, w) && Text.At(s, i + |key| + 1 + |w|, tail)
  {
    hide Text.At;
    Text.AtConcat(s, i, key, ":" + (w + tail));
    Text.AtConcat(s, i + |key|, ":", w + tail);
    Text.AtConcat(s, i + |key| + 1, w, tail);
    CharAt(s, i + |key|, ":");
  }

  lemma FirstEntry(es: seq<Entry>)
    requires es != [] && PlainKey(es[0].key)
    ensures PrintEntries(es) != "" && !EndsToken(PrintEntries(es)[0])
  {
    hide EndsToken, PlainKey, Print;
    KeyFirst(es[0].key);
  }

  // ---------------------------------------------------------------- what is no printed map

  // Nothing but blanks is left.
  predicate BlankFrom(s: string, i: nat) {
    i <= |s| && forall k :: i <= k < |s| ==> s[k] in {' ', '\n', '\r', '\t'}
  }

  lemma {:induction false} SkipToEnd(s: string, i: nat)
    requires BlankFrom(s, i)
    ensures SkipSpaces(s, i) == |s|
    decreases |s| - i
  {
    if i < |s| {
      SkipToEnd(s, i + 1);
    }
  }

  // A map or list that is read ends with a closing bracket.
  lemma {:induction false} EntriesClosed(isFloat: FloatTest, s: string, i: nat, out: map<string, GoValue>)
    requires i <= |s|
    ensures var r := EntriesAt(isFloat, s, i, out); r.Ok? ==> 0 < r.next <= |s| && s[r.next - 1] == ']'
    decreases |s| - i
  {
    hide EntriesAt, ValueAt, KeyEnd, Text.TrimSpace, IsBlank, SkipSpaces;
    EntriesHead(isFloat, s, i, out);
    SkipBounds(s, i);
    var p := SkipSpaces(s, i);
    if p < |s| && s[p] != ']' {
      KeyBounds(s, p);
      var end := KeyEnd(s, p);
      EntriesKey(isFloat, s, p, out);
      if end < |s| {
        var v := ValueAt(isFloat, s, end + 1);
        if v.Ok? {
          SkipBounds(s, v.next);
          EntriesClosed(isFloat, s, SkipSpaces(s, v.next), out[Text.TrimSpace(s[p..end]) := v.value]);
        }
      }
    }
  }

  lemma SkipBounds(s: string, i: nat)
    requires i <= |s|
    ensures i <= SkipSpaces(s, i) <= |s| && (SkipSpaces(s, i) < |s| ==> !IsBlank(s[SkipSpaces(s, i)]))
  {
    hide IsBlank;
  }

  lemma KeyBounds(s: string, i: nat)
    requires i <= |s|
    ensures i <= KeyEnd(s, i) <= |s|
  {
    hide EndsKey;
  }

  lemma ItemsUnfold(isFloat: FloatTest, s: string, i: nat, out: seq<GoValue>)
    requires i <= |s|
    ensures var p := SkipSpaces(s, i); var r := ItemsAt(isFloat, s, i, out);
            && (p == |s| ==> r.Err?)
            && (p < |s| && s[p] == ']' ==> r == Ok(out, p + 1))
            && (p < |s| && s[p] != ']' ==>
                  var v := ValueAt(isFloat, s, p);
                  && (v.Err? ==> r.Err?)
                  && (v.Ok? ==>
                        var q := SkipSpaces(s, v.next);
                        && (q == |s| ==> r.Err?)
                        && (q < |s| && s[q] == ']' ==> r == Ok(out + [v.value], q + 1))
                        && (q < |s| && s[q] != ']' ==> r == ItemsAt(isFloat, s, q, out + [v.value]))))
  {
    hide ValueAt, SkipSpaces;
  }

  lemma {:induction false} ItemsClosed(isFloat: FloatTest, s: string, i: nat, out: seq<GoValue>)
    requires i <= |s|
    ensures var r := ItemsAt(isFloat, s, i, out); r.Ok? ==> 0 < r.next <= |s| && s[r.next - 1] == ']'
    decreases |s| - i
  {
    hide ItemsAt, ValueAt, SkipSpaces, IsBlank;
    ItemsUnfold(isFloat, s, i, out);
    SkipBounds(s, i);
    var p := SkipSpaces(s, i);
    if p < |s| && s[p] != ']' {
      var v := ValueAt(isFloat, s, p);
      if v.Ok? {
        SkipBounds(s, v.next);
        ItemsClosed(isFloat, s, SkipSpaces(s, v.next), out + [v.value]);
      }
    }
  }

  // Where the text ends before a map, a list or a value does.
  lemma EndedTooSoon(
    isFloat: FloatTest, s: string, i: nat, fields: map<string, GoValue>, items: seq<GoValue>)
    requires BlankFrom(s, i)
    ensures EntriesAt(isFloat, s, i, fields) == Err(UnterminatedMap)
    ensures ItemsAt(isFloat, s, i, items) == Err(UnterminatedArray)
    ensures ValueAt(isFloat, s, i) == Err(MissingValue)
  {
    hide IsBlank;
    SkipToEnd(s, i);
  }

  // An entry starts with a key and a colon right behind it, and goes on with a value.
  lemma EntryRefused(isFloat: FloatTest, s: string, i: nat, key: string, out: map<string, GoValue>)
    requires i < |s| && (key != "" ==> PlainKey(key)) && Text.At(s, i, key)
    ensures key == "" && s[i] == ':' ==> EntriesAt(isFloat, s, i, out) == Err(MissingKey)
    ensures var e := i + |key|;
            key != "" && (e == |s| || s[e] in {' ', '\n', '\r', '\t', ']'}) ==>
              EntriesAt(isFloat, s, i, out) == Err(ExpectedColon)
    ensures var e := i + |key|;
            key != "" && e + 1 < |s| && s[e] == ':' && s[e + 1] == ']' ==>
              EntriesAt(isFloat, s, i, out) == Err(MissingToken)
  {
    hide Text.TrimSpace, Text.Trimmed, Text.At, EntriesAt, EndsKey, EndsToken, IsBlank, TokenAt, ValueAt;
    var e := i + |key|;
    Enders();
    CharAt(s, i, key);
    TokenText(s, i, key);
    BlankEnds(s[i]);
    if key == "" && s[i] == ':' {
      EntriesKey(isFloat, s, i, out);
      KeyEndHere(s, i);
      EmptyKey(s, i);
    } else if key != "" && (e == |s| || s[e] in {' ', '\n', '\r', '\t', ':', ']'}) {
      KeyEndReached(s, i, e);
      EntriesKey(isFloat, s, i, out);
      TrimmedKey(key);
      if e + 1 < |s| && s[e] == ':' && s[e + 1] == ']' {
        NoTokenAt(isFloat, s, e + 1);
      }
    }
  }

  lemma Enders()
    ensures forall c :: EndsKey(c) <==> c in {' ', '\n', '\r', '\t', ']', ':'}
    ensures forall c :: IsBlank(c) <==> c in {' ', '\n', '\r', '\t'}
  {
  }

  lemma EmptyKey(s: string, i: nat)
    requires i <= |s|
    ensures Text.TrimSpace(s[i..i]) == ""
  {
  }

  lemma KeyEndHere(s: string, i: nat)
    requires i < |s| && EndsKey(s[i])
    ensures KeyEnd(s, i) == i
  {
  }

  lemma {:induction false} KeyEndReached(s: string, i: nat, e: nat)
    requires i <= e <= |s| && (e < |s| ==> EndsKey(s[e])) && forall k :: i <= k < e ==> !EndsKey(s[k])
    ensures KeyEnd(s, i) == e
    decreases e - i
  {
    hide EndsKey;
    if i < e {
      KeyEndReached(s, i + 1, e);
    }
  }

  lemma TrimmedKey(key: string)
    requires PlainKey(key)
    ensures Text.TrimSpace(key) == key && key != ""
    ensures forall k :: 0 <= k < |key| ==> !EndsKey(key[k])
  {
    hide EndsKey, Text.TrimSpace, Text.Trimmed;
    Text.TrimmedFacts(key);
  }

  // No value starts with a closing bracket.
  lemma NoTokenAt(isFloat: FloatTest, s: string, i: nat)
    requires i < |s| && s[i] == ']'
    ensures ValueAt(isFloat, s, i) == Err(MissingToken)
  {
    hide Text.TrimSpace;
    SkipClose(s, i);
    EmptyKey(s, i);
    assert TokenEnd(s, i) == i;
    NoMapHere(s, i);
  }

  lemma NoMapHere(s: string, i: nat)
    requires i < |s| && s[i] == ']'
    ensures !Text.At(s, i, "map[")
  {
    assert i + 4 <= |s| ==> s[i..i + 4][0] == s[i];
  }

  // ---------------------------------------------------------------- the tool's statement

  // parseGoStyleValue
  function ParseGoStyle(isFloat: FloatTest, text: string): Parsed<GoValue> {
    var s := Text.TrimSpace(text);
    var p := SkipSpaces(s, 0);
    if Text.At(s, p, "map[") then
      match MapAt(isFloat, s, p)
      case Ok(entries, next) => Ok(Map(entries), next)
      case Err(e) => Err(e)
    else if p < |s| && s[p] == '[' then
      match ListAt(isFloat, s, p)
      case Ok(items, next) => Ok(List(items), next)
      case Err(e) => Err(e)
    else TokenAt(isFloat, s, p)
  }

  // The value that json.Marshal writes: an array with no items was never allocated
  // and is written as null.
  function Encoded(v: GoValue): GoValue {
    match v
    case List(items) =>
      if items == [] then Nil else List(seq(|items|, i requires 0 <= i < |items| => Encoded(items[i])))
    case Map(entries) => Map(map k | k in entries :: Encoded(entries[k]))
    case _ => v
  }

  predicate NoEmptyList(v: GoValue) {
    match v
    case List(items) => items != [] && forall i :: 0 <= i < |items| ==> NoEmptyList(items[i])
    case Map(entries) => forall k :: k in entries ==> NoEmptyList(entries[k])
    case _ => true
  }

  // The statement's value reaches the database exactly when no array in it is empty.
  lemma {:induction false} EncodedIff(v: GoValue)
    ensures Encoded(v) == v <==> NoEmptyList(v)
  {
    match v
    case List(items) =>
      forall i | 0 <= i < |items|
        ensures Encoded(items[i]) == items[i] <==> NoEmptyList(items[i])
      {
        EncodedIff(items[i]);
      }
    case Map(entries) =>
      forall k | k in entries
        ensures Encoded(entries[k]) == entries[k] <==> NoEmptyList(entries[k])
      {
        EncodedIff(entries[k]);
      }
    case _ =>
  }

  // json.Marshal refuses the floats that are no number.
  predicate NonFinite(token: string) {
    Lower(token) in {"nan", "inf", "+inf", "-inf", "infinity", "+infinity", "-infinity"}
  }

  predicate Finite(v: GoValue) {
    match v
    case Float(token) => !NonFinite(token)
    case List(items) => forall i :: 0 <= i < |items| ==> Finite(items[i])
    case Map(entries) => forall k :: k in entries ==> Finite(entries[k])
    case _ => true
  }

  datatype Normalized =
    | Required
    | Unchanged(statement: string)
    | Object(json: GoValue)
    | NotAnObject
    | Malformed(error: ParseError)
    | Unencodable

  function EncodedObject(fields: map<string, GoValue>): Normalized {
    if Finite(Map(fields)) then Object(Encoded(Map(fields))) else Unencodable
  }

  // normalizeMongoStatementForTool, up to the text of the JSON.
  method NormalizeMongoStatement(isFloat: FloatTest, statement: string) returns (r: Normalized)
    ensures r == NormalizedOf(isFloat, statement)
  {
    var trimmed := Text.TrimSpace(statement);
    if trimmed == "" {
      return Required;
    }
    if !Text.At(trimmed, 0, "map[") {
      return Unchanged(statement);
    }
    hide *;
    var p := new GoStyleParser(Text.TrimSpace(trimmed), isFloat);
    MapPrefix(statement);
    p.SkipBlanks();
    var parsed := p.ParseMap();
    NormalizedMap(isFloat, statement);
    FollowsFacts(parsed, p.pos, MapAt(isFloat, trimmed, 0));
    r := match parsed case Success(entries) => EncodedObject(entries) case Failure(e) => Malformed(e);
  }

  lemma FollowsFacts<T>(r: Result<T>, pos: nat, spec: Parsed<T>)
    requires Follows(r, pos, spec)
    ensures spec.Ok? ==> r == Success(spec.value) && pos == spec.next
    ensures spec.Err? ==> r == Failure(spec.error)
  {
  }

  function NormalizedOf(isFloat: FloatTest, statement: string): Normalized {
    var trimmed := Text.TrimSpace(statement);
    if trimmed == "" then Required
    else if !Text.At(trimmed, 0, "map[") then Unchanged(statement)
    else match ParseGoStyle(isFloat, trimmed)
      case Err(e) => Malformed(e)
      case Ok(Map(fields), _) => EncodedObject(fields)
      case Ok(_, _) => NotAnObject
  }

  lemma MapPrefix(statement: string)
    ensures var t := Text.TrimSpace(statement);
            && Text.TrimSpace(t) == t
            && (Text.At(t, 0, "map[") ==> 0 < |t| && SkipSpaces(t, 0) == 0)
  {
    hide Text.TrimSpace, Text.Trimmed;
    var t := Text.TrimSpace(statement);
    if Text.At(t, 0, "map[") {
      CharAt(t, 0, "map[");
    }
  }

  lemma NormalizedMap(isFloat: FloatTest, statement: string)
    requires Text.TrimSpace(statement) != "" && Text.At(Text.TrimSpace(statement), 0, "map[")
    ensures NormalizedOf(isFloat, statement) ==
            match MapAt(isFloat, Text.TrimSpace(statement), 0)
            case Ok(entries, _) => EncodedObject(entries)
            case Err(e) => Malformed(e)
  {
    hide Text.TrimSpace, Text.At, MapAt, SkipSpaces, EncodedObject;
    MapPrefix(statement);
  }

  // A printed map whose floats are numbers is normalised to the object with its entries,
  // except that its empty arrays become null, and whatever follows it in the statement
  // is ignored.
  lemma PrintedMapNormalizes(isFloat: FloatTest, entries: seq<Entry>, rest: string, statement: string)
    requires Printable(isFloat, MapDoc(entries))
    requires Text.TrimSpace(statement) == Print(MapDoc(entries)) + rest
    ensures var v := ValueOf(MapDoc(entries));
            && NormalizedOf(isFloat, statement) == (if Finite(v) then Object(Encoded(v)) else Unencodable)
            && (NormalizedOf(isFloat, statement) == Object(v) <==> Finite(v) && NoEmptyList(v))
  {
    hide Finite, Text.TrimSpace, Text.At, Encoded, NoEmptyList, NormalizedOf, MapAt, EntriesAt, PrintEntries,
      PlainKey, Printable;
    var s, tail := Text.TrimSpace(statement), PrintEntries(entries);
    assert s == ("map[" + tail) + rest;
    WholeInPlace("map[" + tail, rest);
    Text.AtConcat(s, 0, "map[", tail);
    CharAt(s, 0, "map[");
    EntriesPrintable(isFloat, entries);
    PrintedEntriesParse(isFloat, entries, s, 4, map[]);
    NormalizedMap(isFloat, statement);
    MapFacts(isFloat, s, entries);
    EncodedIff(ValueOf(MapDoc(entries)));
  }

  lemma MapFacts(isFloat: FloatTest, s: string, entries: seq<Entry>)
    requires Text.At(s, 0, "map[")
    ensures 4 <= |s| && MapAt(isFloat, s, 0) == EntriesAt(isFloat, s, 4, map[])
    ensures ValueOf(MapDoc(entries)) == Map(EntriesOf(entries, map[]))
  {
    hide EntriesAt, EntriesOf;
  }

  lemma EntriesPrintable(isFloat: FloatTest, entries: seq<Entry>)
    requires Printable(isFloat, MapDoc(entries))
    ensures forall k :: 0 <= k < |entries| ==> PlainKey(entries[k].key) && Printable(isFloat, entries[k].value)
  {
  }

  // An empty array is such a statement: null reaches the database in its place.
  lemma EmptyPipelineIsNull(isFloat: FloatTest)
    ensures NormalizedOf(isFloat, "map[pipeline:[]]") == Object(Map(map["pipeline" := Nil]))
  {
    hide *;
    var entries := [Entry("pipeline", ListDoc([]))];
    var s := "map[pipeline:[]]";
    PipelinePrints(isFloat);
    PrintedMapNormalizes(isFloat, entries, "", s);
    PipelineValue();
  }

  lemma PipelinePrints(isFloat: FloatTest)
    ensures var s, d := "map[pipeline:[]]", MapDoc([Entry("pipeline", ListDoc([]))]);
            Text.TrimSpace(s) == s && Print(d) + "" == s && Printable(isFloat, d)
  {
    hide PrintEntries, PlainKey, Text.TrimSpace, Text.Trimmed;
    PipelineEntry();
    PipelineTrimmed();
  }

  lemma PipelineEntry()
    ensures PrintEntries([Entry("pipeline", ListDoc([]))]) == "pipeline:[]]"
  {
    hide Print;
    EmptyPrints();
  }

  lemma EmptyPrints()
    ensures Print(ListDoc([])) == "[]"
  {
  }

  lemma PipelineTrimmed()
    ensures Text.TrimSpace("map[pipeline:[]]") == "map[pipeline:[]]" && PlainKey("pipeline")
  {
    hide Text.TrimSpace;
    assert Text.Trimmed("map[pipeline:[]]");
  }

  lemma PipelineValue()
    ensures var v := ValueOf(MapDoc([Entry("pipeline", ListDoc([]))]));
            Encoded(v) == Map(map["pipeline" := Nil]) && Finite(v)
  {
    assert EntriesOf([], map["pipeline" := List([])]) == map["pipeline" := List([])];
    assert EntriesOf([Entry("pipeline", ListDoc([]))], map[]) == map["pipeline" := List([])];
  }

  // A name reaches the database as a text.
  lemma NameIsText(isFloat: FloatTest)
    requires !isFloat("users")
    ensures NormalizedOf(isFloat, "map[find:users]") == Object(Map(map["find" := Str("users")]))
  {
    hide *;
    OneFieldPrints("find", "users", "map[find:users]");
    FindIsPlain();
    FreeIsPrintable(isFloat, "users");
    OneField(isFloat, "find", TextDoc("users"));
    PrintedMapNormalizes(isFloat, [Entry("find", TextDoc("users"))], "", "map[find:users]");
    NoMore("map[find:users]");
    TextFinite(Str("users"));
    OneEncoded("find", Str("users"));
  }

  // One that reads as a float that is no number makes the statement fail.
  lemma NanIsRefused(isFloat: FloatTest)
    requires isFloat("NaN")
    ensures NormalizedOf(isFloat, "map[find:NaN]") == Unencodable
  {
    hide *;
    OneFieldPrints("find", "NaN", "map[find:NaN]");
    FindIsPlain();
    FreeIsPrintable(isFloat, "NaN");
    OneField(isFloat, "find", FloatDoc("NaN"));
    PrintedMapNormalizes(isFloat, [Entry("find", FloatDoc("NaN"))], "", "map[find:NaN]");
    NoMore("map[find:NaN]");
    NanIsNonFinite();
    OneEncoded("find", Float("NaN"));
  }

  lemma FreeIsPrintable(isFloat: FloatTest, token: string)
    requires FreeToken(token)
    ensures Printable(isFloat, if isFloat(token) then FloatDoc(token) else TextDoc(token))
  {
    hide FreeToken;
  }

  lemma NanIsNonFinite()
    ensures !Finite(Float("NaN"))
  {
    assert Lower("NaN") == "nan";
  }

  lemma TextFinite(v: GoValue)
    requires v.Str?
    ensures Finite(v) && Encoded(v) == v
  {
  }

  lemma NoMore(s: string)
    ensures s + "" == s
  {
  }

  lemma OneFieldPrints(key: string, text: string, s: string)
    requires s == "map[" + (key + (":" + (text + "]"))) && text != ""
    ensures Print(MapDoc([Entry(key, TextDoc(text))])) == s && Print(MapDoc([Entry(key, FloatDoc(text))])) == s
    ensures Text.TrimSpace(s) == s
  {
    hide Text.TrimSpace;
    assert s[0] == 'm' && s[|s| - 1] == ']';
    assert PrintEntries([Entry(key, TextDoc(text))]) == key + (":" + (text + "]"));
    assert PrintEntries([Entry(key, FloatDoc(text))]) == key + (":" + (text + "]"));
  }

  lemma FindIsPlain()
    ensures PlainKey("find") && FreeToken("users") && FreeToken("NaN")
  {
    hide ParseInt64, Text.At;
    NoNumber("users");
    NoNumber("NaN");
    NoMapAt("users");
    NoMapAt("NaN");
  }

  lemma NoMapAt(w: string)
    requires w != "" && w[0] != 'm'
    ensures !Text.At(w, 0, "map[")
  {
    assert 4 <= |w| ==> w[0..4][0] == w[0];
  }

  lemma OneField(isFloat: FloatTest, key: string, d: Doc)
    requires PlainKey(key) && Printable(isFloat, d)
    ensures Printable(isFloat, MapDoc([Entry(key, d)]))
    ensures ValueOf(MapDoc([Entry(key, d)])) == Map(map[key := ValueOf(d)])
    ensures d.TextDoc? ==> ValueOf(d) == Str(d.text)
    ensures d.FloatDoc? ==> ValueOf(d) == Float(d.token)
  {
    hide PlainKey, FreeToken;
    EntriesUnfold([Entry(key, d)], map[]);
    OneEntry(key, d);
  }

  lemma OneEntry(key: string, d: Doc)
    ensures EntriesOf([Entry(key, d)], map[]) == map[key := ValueOf(d)]
  {
    hide ValueOf;
  }

  lemma OneEncoded(key: string, v: GoValue)
    ensures Encoded(Map(map[key := v])) == Map(map[key := Encoded(v)])
    ensures Finite(Map(map[key := v])) <==> Finite(v)
  {
    var m := map[key := v];
    assert m[key] == v;
  }

  lemma WholeInPlace(w: string, rest: string)
    ensures Text.At(w + rest, 0, w)
  {
  }

  // So printing is injective up to the value.
  lemma PrintInjective(isFloat: FloatTest, a: Doc, b: Doc)
    requires Printable(isFloat, a) && Printable(isFloat, b) && Print(a) == Print(b)
    ensures ValueOf(a) == ValueOf(b)
  {
    hide Printable, ValueAt, ValueOf;
    var s := Print(a);
    WholeInPlace(s, "");
    assert s + "" == s;
    PrintedValueParses(isFloat, a, s, 0);
    PrintedValueParses(isFloat, b, s, 0);
  }

  // parseGoStyleValue reads any printed value, not only maps.
  lemma RootParses(isFloat: FloatTest, d: Doc)
    requires Printable(isFloat, d)
    ensures ParseGoStyle(isFloat, Print(d)) == Ok(ValueOf(d), |Print(d)|)
  {
    hide Printable, ValueAt, ValueOf, TokenAt, MapAt, ListAt, Text.Trimmed, Text.At, SkipSpaces, EndsToken;
    var s := Print(d);
    PrintTrimmed(isFloat, d);
    NoMore(s);
    WholeInPlace(s, "");
    PrintedValueParses(isFloat, d, s, 0);
    FirstChar(isFloat, d);
    SkipHere(s, 0);
    ValueAtIs(isFloat, s, 0);
  }

  lemma ValueAtIs(isFloat: FloatTest, s: string, p: nat)
    requires p < |s| && SkipSpaces(s, p) == p
    ensures ValueAt(isFloat, s, p) ==
            if Text.At(s, p, "map[") then
              (match MapAt(isFloat, s, p) case Ok(m, n) => Ok(Map(m), n) case Err(e) => Err(e))
            else if s[p] == '[' then
              (match ListAt(isFloat, s, p) case Ok(l, n) => Ok(List(l), n) case Err(e) => Err(e))
            else TokenAt(isFloat, s, p)
  {
    hide MapAt, ListAt, TokenAt, SkipSpaces, Text.At;
  }

  lemma PrintTrimmed(isFloat: FloatTest, d: Doc)
    requires Printable(isFloat, d)
    ensures Text.TrimSpace(Print(d)) == Print(d)
  {
    hide Printable, Text.Trimmed, Text.TrimSpace;
    Text.TrimmedFacts(Print(d));
    if IsScalar(d) {
      ScalarToken(isFloat, d);
    } else {
      PrintEnds(d);
    }
  }

  lemma {:induction false} ItemsEnd(ds: seq<Doc>)
    ensures PrintItems(ds) != "" && PrintItems(ds)[|PrintItems(ds)| - 1] == ']'
    decreases ds
  {
    hide Print;
    if |ds| > 1 {
      ItemsEnd(ds[1..]);
    }
  }

  lemma {:induction false} EntriesEnd(es: seq<Entry>)
    ensures PrintEntries(es) != "" && PrintEntries(es)[|PrintEntries(es)| - 1] == ']'
    decreases es
  {
    hide Print;
    if |es| > 1 {
      EntriesEnd(es[1..]);
    }
  }

  lemma PrintEnds(d: Doc)
    requires !IsScalar(d)
    ensures Text.Trimmed(Print(d))
  {
    if d.ListDoc? {
      ItemsEnd(d.items);
    } else {
      EntriesEnd(d.entries);
    }
  }

  // They are the words for these, in any case, with a sign only before an infinity.
  lemma NonFiniteIff(token: string)
    ensures NonFinite(token) <==>
            exists w ::
              w in {"nan", "inf", "+inf", "-inf", "infinity", "+infinity", "-infinity"} && Capitalized(token, w)
  {
    hide Lower, Capitalized, CAPITALS, LETTERS;
    CapitalizedOfLower(token);
    forall w | w in {"nan", "inf", "+inf", "-inf", "infinity", "+infinity", "-infinity"} && Capitalized(token, w)
      ensures Lower(token) == w
    {
      WordsHaveNoCapitals(w);
      LowerOfCapitalized(token, w);
    }
  }

  lemma WordsHaveNoCapitals(w: string)
    requires w in {"nan", "inf", "+inf", "-inf", "infinity", "+infinity", "-infinity"}
    ensures forall i :: 0 <= i < |w| ==> !IsUpper(w[i])
  {
  }
}
