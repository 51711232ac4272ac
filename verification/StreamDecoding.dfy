// What the streaming extractor computes: chunking does not matter, the sliding
// window finds the key where the whole text first contains it, and an encoded
// message comes out decoded.
module StreamDecoding {
  import opened Text
  import opened MessageStream

  // ---------------------------------------------------------------- chunks

  function Flatten(chunks: seq<string>): string {
    if chunks == [] then "" else chunks[0] + Flatten(chunks[1..])
  }

  // The concatenation of what Feed returns for each chunk in turn.
  function Outputs(e: State, chunks: seq<string>): string
    requires Valid(e)
    decreases |chunks|
  {
    if chunks == [] then ""
    else
      RunValid(e, chunks[0]);
      var next := Run(e, chunks[0]);
      next.decoded[|e.decoded|..] + Outputs(next, chunks[1..])
  }

  function AfterChunks(e: State, chunks: seq<string>): State
    decreases |chunks|
  {
    if chunks == [] then e else AfterChunks(Run(e, chunks[0]), chunks[1..])
  }

  // However a text is cut into chunks, the outputs concatenate to the same string
  // and the extractor ends in the same state.
  lemma {:induction false} ChunkInvariance(e: State, chunks: seq<string>)
    requires Valid(e)
    ensures AfterChunks(e, chunks) == Run(e, Flatten(chunks))
    ensures e.decoded + Outputs(e, chunks) == Run(e, Flatten(chunks)).decoded
    decreases |chunks|
  {
    hide Run, Valid;
    if chunks == [] {
      RunNothing(e);
    } else {
      var next := Run(e, chunks[0]);
      RunValid(e, chunks[0]);
      ChunkInvariance(next, chunks[1..]);
      RunConcat(e, chunks[0], Flatten(chunks[1..]));
      Rejoin(e.decoded, next.decoded, Outputs(next, chunks[1..]));
    }
  }

  lemma Rejoin(a: string, b: string, rest: string)
    requires a <= b
    ensures a + (b[|a|..] + rest) == b + rest
  {
  }

  // ---------------------------------------------------------------- the key window

  // The text contains a key, and no shorter prefix does.
  predicate EndsFirstKey(pre: string) {
    pre != "" && ContainsKey(pre) && !ContainsKey(pre[..|pre| - 1])
  }

  // One more rune completes a word in the whole text exactly when it does in the
  // last runes, as long as the word fits the window and had not occurred before.
  lemma WindowSees(h: string, r: char, w: string)
    requires w != "" && |w| <= WINDOW && !Contains(h, w)
    ensures Contains(h + [r], w) <==> Contains(LastRunes(h + [r], WINDOW), w)
  {
    var t := h + [r];
    var last := LastRunes(t, WINDOW);
    var shift := |t| - |last|;
    if Contains(t, w) {
      var i :| 0 <= i <= |t| && At(t, i, w);
      if i + |w| <= |h| {
        assert t[i..i + |w|] == h[i..i + |w|];
        assert At(h, i, w);
      }
      assert last[i - shift..i - shift + |w|] == t[i..i + |w|];
      assert At(last, i - shift, w);
    }
    if Contains(last, w) {
      var i :| 0 <= i <= |last| && At(last, i, w);
      assert t[i + shift..i + shift + |w|] == last[i..i + |w|];
      assert At(t, i + shift, w);
    }
  }

  lemma LastOfLast(h: string, r: char)
    ensures LastRunes(LastRunes(h, WINDOW) + [r], WINDOW) == LastRunes(h + [r], WINDOW)
  {
  }

  lemma {:induction false} ContainsGrows(s: string, t: string, w: string)
    requires Contains(s, w)
    ensures Contains(s + t, w)
  {
    var i :| 0 <= i <= |s| && At(s, i, w);
    assert (s + t)[i..i + |w|] == s[i..i + |w|];
    assert At(s + t, i, w);
  }

  // Before the key, the extractor remembers the last runes and nothing else.
  lemma {:induction false} BeforeKey(h: string)
    requires !ContainsKey(h)
    ensures Run(INITIAL, h) == INITIAL.(window := LastRunes(h, WINDOW))
  {
    if h != "" {
      var front, r := h[..|h| - 1], h[|h| - 1];
      assert h == front + [r];
      if ContainsKey(front) {
        KeyGrows(front, [r]);
      }
      BeforeKey(front);
      KeyWindow(front, r);
    }
  }

  lemma KeyGrows(s: string, t: string)
    requires ContainsKey(s)
    ensures ContainsKey(s + t)
  {
    hide Contains;
    if Contains(s, KEY) {
      ContainsGrows(s, t, KEY);
    } else {
      ContainsGrows(s, t, SNAKE_KEY);
    }
  }

  lemma KeyWindow(h: string, r: char)
    requires !ContainsKey(h)
    ensures ContainsKey(LastRunes(LastRunes(h, WINDOW) + [r], WINDOW)) <==> ContainsKey(h + [r])
  {
    hide Contains, LastRunes;
    LastOfLast(h, r);
    WindowSees(h, r, KEY);
    WindowSees(h, r, SNAKE_KEY);
  }

  // The key is found at the rune at which the whole text first contains it.
  lemma AtKey(pre: string)
    requires EndsFirstKey(pre)
    ensures Run(INITIAL, pre) == INITIAL.(window := LastRunes(pre, WINDOW), keyFound := true)
  {
    hide ContainsKey, LastRunes;
    var front, r := pre[..|pre| - 1], pre[|pre| - 1];
    assert pre == front + [r];
    BeforeKey(front);
    KeyWindow(front, r);
    LastOfLast(front, r);
  }

  // After any text, the key has been found exactly when the text contains it.
  lemma {:induction false} KeyFoundIff(h: string)
    ensures Run(INITIAL, h).keyFound <==> ContainsKey(h)
  {
    hide ContainsKey, LastRunes, Step;
    if !ContainsKey(h) {
      BeforeKey(h);
    } else if h == "" {
      EmptyHasNoKey();
    } else {
      var front, r := h[..|h| - 1], h[|h| - 1];
      assert h == front + [r];
      if ContainsKey(front) {
        KeyFoundIff(front);
        KeyStays(Run(INITIAL, front), r);
      } else {
        AtKey(h);
      }
    }
  }

  lemma EmptyHasNoKey()
    ensures !ContainsKey("")
  {
  }

  lemma KeyStays(e: State, r: char)
    requires e.keyFound
    ensures Step(e, r).keyFound
  {
  }

  // ---------------------------------------------------------------- the encoding

  // One encoded unit of a JSON string, section 7 of RFC 8259: a character as it
  // is, a two-character escape, or a \u escape of four hexadecimal digits.
  datatype Unit = Raw(c: char) | Short(letter: char) | Hex(digits: string)

  predicate ValidUnit(u: Unit) {
    match u
    case Raw(c) => c != '"' && c != '\\'
    case Short(letter) => letter in {'"', '\\', '/', 'b', 'f', 'n', 'r', 't'}
    case Hex(digits) => IsHexQuad(digits)
  }

  function PrintUnit(u: Unit): string {
    match u
    case Raw(c) => [c]
    case Short(letter) => ['\\', letter]
    case Hex(digits) => "\\u" + digits
  }

  function Meaning(u: Unit): char
    requires ValidUnit(u)
  {
    match u
    case Raw(c) => c
    case Short(letter) => Unescape(letter)
    case Hex(digits) => WriteRune(CodeUnit(digits))
  }

  predicate ValidUnits(us: seq<Unit>) {
    forall i :: 0 <= i < |us| ==> ValidUnit(us[i])
  }

  function Print(us: seq<Unit>): string {
    if us == [] then "" else PrintUnit(us[0]) + Print(us[1..])
  }

  function Meanings(us: seq<Unit>): (r: string)
    requires ValidUnits(us)
    ensures |r| == |us|
  {
    if us == [] then "" else [Meaning(us[0])] + Meanings(us[1..])
  }

  // The extractor is inside the string, between units.
  predicate InBody(e: State) {
    && e.keyFound && e.colonFound && e.inString
    && !e.escape && !e.unicodeMode && e.unicodeDigits == "" && !e.done
  }

  lemma UnitDecoded(e: State, u: Unit)
    requires InBody(e) && ValidUnit(u)
    ensures Run(e, PrintUnit(u)) == e.(decoded := e.decoded + [Meaning(u)])
  {
    match u
    case Raw(c) =>
      RunOne(e, c);
    case Short(letter) =>
      RunTwo(e, '\\', letter);
    case Hex(digits) =>
      HexDecoded(e, digits);
  }

  lemma RunTwo(e: State, a: char, b: char)
    ensures Run(e, [a, b]) == Step(Step(e, a), b)
  {
    hide Step;
    RunConcat(e, [a], [b]);
    assert [a] + [b] == [a, b];
    RunOne(e, a);
    RunOne(Step(e, a), b);
  }

  lemma HexDecoded(e: State, ds: string)
    requires InBody(e) && IsHexQuad(ds)
    ensures Run(e, "\\u" + ds) == e.(decoded := e.decoded + [WriteRune(CodeUnit(ds))])
  {
    hide Run, CodeUnit, WriteRune, IsHex;
    var open := e.(unicodeMode := true);
    RunTwo(e, '\\', 'u');
    assert Run(e, "\\u") == open;
    RunConcat(e, "\\u", ds);
    HexDigits(open, ds, 3);
    RunNext(open, ds, 3);
    assert ds[..4] == ds;
    assert ds[..3] + [ds[3]] == ds;
  }

  lemma {:induction false} HexDigits(e: State, ds: string, n: nat)
    requires e.keyFound && e.colonFound && e.inString && e.unicodeMode && e.unicodeDigits == "" && !e.done
    requires IsHexQuad(ds) && n <= 3
    ensures Run(e, ds[..n]) == e.(unicodeDigits := ds[..n])
  {
    hide CodeUnit, WriteRune, IsHex, Run;
    RunNothing(e);
    if n == 0 {
      assert ds[..0] == "";
    } else {
      HexDigits(e, ds, n - 1);
      RunNext(e, ds, n - 1);
      assert ds[..n - 1] + [ds[n - 1]] == ds[..n];
    }
  }

  lemma {:induction false} UnitsDecoded(e: State, us: seq<Unit>)
    requires InBody(e) && ValidUnits(us)
    ensures Run(e, Print(us)) == e.(decoded := e.decoded + Meanings(us))
    decreases |us|
  {
    hide Run, Meaning, PrintUnit, ValidUnit;
    if us == [] {
      RunNothing(e);
    } else {
      UnitDecoded(e, us[0]);
      var next := e.(decoded := e.decoded + [Meaning(us[0])]);
      UnitsDecoded(next, us[1..]);
      RunConcat(e, PrintUnit(us[0]), Print(us[1..]));
      assert next.decoded + Meanings(us[1..]) == e.decoded + Meanings(us);
    }
  }

  // ---------------------------------------------------------------- the round trip

  lemma {:induction false} SkipToColon(e: State, gap: string)
    requires e.keyFound && !e.colonFound && !e.done && ':' !in gap
    ensures Run(e, gap) == e
  {
    if gap != "" {
      SkipToColon(e, gap[..|gap| - 1]);
      assert gap[|gap| - 1] in gap;
    }
  }

  lemma {:induction false} SkipToQuote(e: State, gap: string)
    requires e.keyFound && e.colonFound && !e.inString && !e.done && '"' !in gap
    ensures Run(e, gap) == e
  {
    if gap != "" {
      SkipToQuote(e, gap[..|gap| - 1]);
      assert gap[|gap| - 1] in gap;
    }
  }

  // A reply: text up to the first key, a colon, the opening quote, the encoded
  // message, the closing quote and anything.
  function Reply(pre: string, gap1: string, gap2: string, us: seq<Unit>, rest: string): string {
    pre + (gap1 + (":" + (gap2 + ("\"" + (Print(us) + ("\"" + rest))))))
  }

  // The state in which the extractor enters the string.
  lemma OpensString(e: State, gap1: string, gap2: string, tail: string)
    requires e.keyFound && !e.colonFound && !e.inString && !e.done
    requires ':' !in gap1 && '"' !in gap2
    ensures Run(e, gap1 + (":" + (gap2 + ("\"" + tail))))
         == Run(e.(colonFound := true, inString := true), tail)
  {
    hide Run;
    RunConcat(e, gap1, ":" + (gap2 + ("\"" + tail)));
    SkipToColon(e, gap1);
    RunConcat(e, ":", gap2 + ("\"" + tail));
    RunOne(e, ':');
    var colon := e.(colonFound := true);
    RunConcat(colon, gap2, "\"" + tail);
    SkipToQuote(colon, gap2);
    RunConcat(colon, "\"", tail);
    RunOne(colon, '"');
  }

  lemma ReplyDecoded(pre: string, gap1: string, gap2: string, us: seq<Unit>, rest: string)
    requires EndsFirstKey(pre) && ':' !in gap1 && '"' !in gap2 && ValidUnits(us)
    ensures var e := Run(INITIAL, Reply(pre, gap1, gap2, us, rest)); e.done && e.decoded == Meanings(us)
  {
    hide Run, EndsFirstKey, Meanings, LastRunes, Print;
    var found := INITIAL.(window := LastRunes(pre, WINDOW), keyFound := true);
    var tail := Print(us) + ("\"" + rest);
    RunConcat(INITIAL, pre, gap1 + (":" + (gap2 + ("\"" + tail))));
    AtKey(pre);
    OpensString(found, gap1, gap2, tail);
    var body := found.(colonFound := true, inString := true);
    RunConcat(body, Print(us), "\"" + rest);
    UnitsDecoded(body, us);
    var full := body.(decoded := body.decoded + Meanings(us));
    assert full.decoded == Meanings(us);
    RunConcat(full, "\"", rest);
    RunOne(full, '"');
    RunDone(Step(full, '"'), rest);
  }

  // However the reply is cut into chunks, the outputs concatenate to the message.
  lemma StreamRoundTrip(
    chunks: seq<string>, pre: string, gap1: string, gap2: string, us: seq<Unit>, rest: string)
    requires EndsFirstKey(pre) && ':' !in gap1 && '"' !in gap2 && ValidUnits(us)
    requires Flatten(chunks) == Reply(pre, gap1, gap2, us, rest)
    ensures Outputs(INITIAL, chunks) == Meanings(us)
    ensures AfterChunks(INITIAL, chunks).done
  {
    hide Run, EndsFirstKey, Meanings, Outputs, AfterChunks, Reply, Flatten;
    ChunkInvariance(INITIAL, chunks);
    ReplyDecoded(pre, gap1, gap2, us, rest);
    assert INITIAL.decoded + Outputs(INITIAL, chunks) == Outputs(INITIAL, chunks);
  }

  // ---------------------------------------------------------------- surrogate pairs

  predicate IsHigh(u: Unit) {
    u.Hex? && IsHexQuad(u.digits) && 0xD800 <= CodeUnit(u.digits) < 0xDC00
  }

  predicate IsLow(u: Unit) {
    u.Hex? && IsHexQuad(u.digits) && 0xDC00 <= CodeUnit(u.digits) < 0xE000
  }

  predicate IsPair(us: seq<Unit>, i: nat) {
    i + 1 < |us| && IsHigh(us[i]) && IsLow(us[i + 1])
  }

  // The message as RFC 8259 encodes it and encoding/json decodes it: a surrogate
  // pair is one character, a lone surrogate the replacement character.
  function FullMeaning(us: seq<Unit>): (r: string)
    requires ValidUnits(us)
    ensures |r| <= |us|
  {
    if us == [] then ""
    else if IsPair(us, 0) then
      [PairValue(us[0], us[1])] + FullMeaning(us[2..])
    else [Meaning(us[0])] + FullMeaning(us[1..])
  }

  function PairValue(high: Unit, low: Unit): char
    requires IsHigh(high) && IsLow(low)
  {
    (0x1_0000 + (CodeUnit(high.digits) - 0xD800) * 0x400 + (CodeUnit(low.digits) - 0xDC00)) as char
  }

  lemma {:induction false} PairShortens(us: seq<Unit>, i: nat)
    requires ValidUnits(us) && IsPair(us, i)
    ensures |FullMeaning(us)| < |us|
    decreases |us|
  {
    hide ValidUnit, Meaning, PairValue, CodeUnit;
    if !IsPair(us, 0) {
      assert us[1..][i - 1] == us[i] && us[1..][i] == us[i + 1];
      PairShortens(us[1..], i - 1);
    }
  }

  lemma {:induction false} NoPairSame(us: seq<Unit>)
    requires ValidUnits(us) && forall i :: !IsPair(us, i)
    ensures FullMeaning(us) == Meanings(us)
  {
    hide ValidUnit, Meaning, PairValue, CodeUnit, IsHigh, IsLow;
    if us != [] {
      forall i: nat
        ensures !IsPair(us[1..], i)
      {
        assert !IsPair(us, i + 1);
      }
      NoPairSame(us[1..]);
    }
  }

  // What is streamed is the decoded message exactly when no two adjacent escapes
  // form a surrogate pair.
  lemma StreamIsMessageIff(us: seq<Unit>)
    requires ValidUnits(us)
    ensures Meanings(us) == FullMeaning(us) <==> forall i :: !IsPair(us, i)
  {
    hide Meanings, FullMeaning, IsPair;
    if i: nat :| IsPair(us, i) {
      PairShortens(us, i);
    } else {
      NoPairSame(us);
    }
  }

  // U+1F600, written as its surrogate pair, is streamed as two replacements.
  lemma EmojiIsLost()
    ensures var us := [Hex("d83d"), Hex("de00")];
            ValidUnits(us) && FullMeaning(us) == ['\U{1F600}'] && Meanings(us) == [REPLACEMENT, REPLACEMENT]
  {
    var high, low := Hex("d83d"), Hex("de00");
    assert CodeUnit(high.digits) == 0xd83d && CodeUnit(low.digits) == 0xde00;
    var us := [high, low];
    assert us[1..] == [low] && us[2..] == [];
    assert Meanings([low]) == [REPLACEMENT];
  }

  // ---------------------------------------------------------------- how a character may be written

  // The two-character escapes of section 7 of RFC 8259; any other letter stands for
  // itself.
  lemma ShortEscapes(letter: char)
    ensures Unescape('b') == '\U{8}' && Unescape('t') == '\U{9}' && Unescape('n') == '\U{a}'
    ensures Unescape('f') == '\U{c}' && Unescape('r') == '\U{d}'
    ensures Unescape('"') == '"' && Unescape('\\') == '\\' && Unescape('/') == '/'
    ensures letter !in {'b', 't', 'n', 'f', 'r'} ==> Unescape(letter) == letter
  {
  }

  const HEX_DIGITS := "0123456789abcdef"
  const HEX_CAPITALS := "0123456789ABCDEF"

  lemma HexDigitAt(k: nat)
    requires k < 16
    ensures IsHex(HEX_DIGITS[k]) && HexValue(HEX_DIGITS[k]) == k
    ensures IsHex(HEX_CAPITALS[k]) && HexValue(HEX_CAPITALS[k]) == k
  {
  }

  // The number in four hexadecimal digits, each in either case.
  function FourDigits(v: nat, capitals: bool): string
    requires v < 0x1_0000
  {
    var digits := if capitals then HEX_CAPITALS else HEX_DIGITS;
    [digits[v / 0x1000], digits[v / 0x100 % 0x10], digits[v / 0x10 % 0x10], digits[v % 0x10]]
  }

  lemma FourDigitsRead(v: nat, capitals: bool)
    requires v < 0x1_0000
    ensures IsHexQuad(FourDigits(v, capitals)) && CodeUnit(FourDigits(v, capitals)) == v
  {
    hide IsHex, HexValue, HEX_DIGITS, HEX_CAPITALS, CodeUnit;
    var a, b, c, d := v / 0x1000, v / 0x100 % 0x10, v / 0x10 % 0x10, v % 0x10;
    HexDigitAt(a);
    HexDigitAt(b);
    HexDigitAt(c);
    HexDigitAt(d);
    CodeUnitOf(FourDigits(v, capitals), a, b, c, d);
    Positions(v);
  }

  lemma CodeUnitOf(ds: string, a: nat, b: nat, c: nat, d: nat)
    requires IsHexQuad(ds)
    requires HexValue(ds[0]) == a && HexValue(ds[1]) == b && HexValue(ds[2]) == c && HexValue(ds[3]) == d
    ensures CodeUnit(ds) == ((a * 0x10 + b) * 0x10 + c) * 0x10 + d
  {
    hide IsHex, HexValue;
  }

  lemma Positions(v: nat)
    requires v < 0x1_0000
    ensures ((v / 0x1000 * 0x10 + v / 0x100 % 0x10) * 0x10 + v / 0x10 % 0x10) * 0x10 + v % 0x10 == v
  {
    assert v / 0x1000 * 0x10 + v / 0x100 % 0x10 == v / 0x100;
    assert v / 0x100 * 0x10 + v / 0x10 % 0x10 == v / 0x10;
  }

  // Every character below U+10000 comes out of its \\u escape, and half a surrogate
  // pair as the replacement character.
  lemma EscapedCharacter(e: State, v: nat, capitals: bool)
    requires InBody(e) && v < 0x1_0000
    ensures Run(e, "\\u" + FourDigits(v, capitals)).decoded ==
            e.decoded + [if 0xD800 <= v <= 0xDFFF then '\U{FFFD}' else v as char]
  {
    hide FourDigits, Run, CodeUnit, IsHexQuad;
    FourDigitsRead(v, capitals);
    HexDecoded(e, FourDigits(v, capitals));
  }

  // An escape of too few hexadecimal digits is dropped, and what follows is read as
  // usual.
  lemma BrokenEscape(e: State, digits: string, r: char)
    requires InBody(e) && |digits| < 4 && (forall i :: 0 <= i < |digits| ==> IsHex(digits[i])) && !IsHex(r)
    ensures Run(e, "\\u" + digits + [r]) == Run(e, [r])
  {
    hide Run, IsHex, CodeUnit, WriteRune;
    var open := e.(unicodeMode := true);
    RunTwo(e, '\\', 'u');
    RunConcat(e, "\\u" + digits, [r]);
    RunConcat(e, "\\u", digits);
    FewDigits(open, digits);
    RunOne(open.(unicodeDigits := digits), r);
    RunOne(e, r);
  }

  lemma {:induction false} FewDigits(e: State, digits: string)
    requires e.keyFound && e.colonFound && e.inString && e.unicodeMode && e.unicodeDigits == "" && !e.done
    requires |digits| < 4 && forall i :: 0 <= i < |digits| ==> IsHex(digits[i])
    ensures Run(e, digits) == e.(unicodeDigits := digits)
  {
    hide CodeUnit, WriteRune, IsHex;
    if digits != "" {
      FewDigits(e, digits[..|digits| - 1]);
      assert digits == digits[..|digits| - 1] + [digits[|digits| - 1]];
    }
  }

  // An unknown escape is the character itself.
  lemma UnknownEscape(e: State, letter: char)
    requires InBody(e) && letter !in {'b', 't', 'n', 'f', 'r', 'u'}
    ensures Run(e, ['\\', letter]).decoded == e.decoded + [letter] && InBody(Run(e, ['\\', letter]))
  {
    RunTwo(e, '\\', letter);
  }

  lemma KeysAre(s: string)
    ensures ContainsKey(s) <==> Contains(s, "\"assistantMessage\"") || Contains(s, "\"assistant_message\"")
  {
    hide Contains;
  }
}
