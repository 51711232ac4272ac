// assistantMessageExtractor (internal/aichat/service_stream.go): the incremental
// decoder of one JSON string member out of a streamed model reply.
module MessageStream {
  import opened Text

  const KEY := "\"assistantMessage\""
  const SNAKE_KEY := "\"assistant_message\""
  const WINDOW := 80
  const REPLACEMENT: char := '\U{FFFD}'

  datatype State = State(
    keyFound: bool,
    colonFound: bool,
    inString: bool,
    escape: bool,
    unicodeMode: bool,
    unicodeDigits: string,
    window: string,
    decoded: string,
    done: bool)

  const INITIAL := State(false, false, false, false, false, "", "", "", false)

  predicate ContainsKey(s: string) {
    Contains(s, KEY) || Contains(s, SNAKE_KEY)
  }

  function LastRunes(s: string, n: nat): string {
    if |s| > n then s[|s| - n..] else s
  }

  predicate IsHex(c: char) {
    '0' <= c <= '9' || 'a' <= c <= 'f' || 'A' <= c <= 'F'
  }

  function HexValue(c: char): (v: nat)
    requires IsHex(c)
    ensures v < 16
  {
    if '0' <= c <= '9' then c as int - '0' as int
    else if 'a' <= c <= 'f' then c as int - 'a' as int + 10
    else c as int - 'A' as int + 10
  }

  predicate IsHexQuad(ds: string) {
    |ds| == 4 && forall i :: 0 <= i < 4 ==> IsHex(ds[i])
  }

  function CodeUnit(ds: string): (v: nat)
    requires IsHexQuad(ds)
    ensures v < 0x1_0000
  {
    ((HexValue(ds[0]) * 16 + HexValue(ds[1])) * 16 + HexValue(ds[2])) * 16 + HexValue(ds[3])
  }

  // strings.Builder.WriteRune: a surrogate is written as the replacement rune.
  function WriteRune(v: nat): char
    requires v < 0x1_0000
  {
    if 0xD800 <= v < 0xE000 then REPLACEMENT else v as char
  }

  function Unescape(c: char): char {
    match c
    case 'b' => '\U{8}'
    case 'f' => '\U{c}'
    case 'n' => '\n'
    case 'r' => '\r'
    case 't' => '\t'
    case _ => c
  }

  // One rune inside the string, outside a unicode escape.
  function StringStep(e: State, r: char): State {
    if e.escape then
      if r == 'u' then e.(unicodeMode := true, unicodeDigits := "", escape := false)
      else e.(decoded := e.decoded + [Unescape(r)], escape := false)
    else if r == '\\' then e.(escape := true)
    else if r == '"' then e.(done := true, inString := false)
    else e.(decoded := e.decoded + [r])
  }

  function Step(e: State, r: char): State {
    if e.done then e
    else if !e.keyFound then
      var window := LastRunes(e.window + [r], WINDOW);
      e.(window := window, keyFound := ContainsKey(window))
    else if !e.colonFound then e.(colonFound := r == ':')
    else if !e.inString then e.(inString := r == '"')
    else if e.unicodeMode then
      if IsHex(r) then
        var digits := e.unicodeDigits + [r];
        if IsHexQuad(digits)
        then e.(decoded := e.decoded + [WriteRune(CodeUnit(digits))], unicodeDigits := "", unicodeMode := false)
        else e.(unicodeDigits := digits)
      else StringStep(e.(unicodeDigits := "", unicodeMode := false, escape := false), r)
    else StringStep(e, r)
  }

  // What the fields satisfy between runes.
  predicate Valid(e: State) {
    && |e.unicodeDigits| < 4
    && (forall i :: 0 <= i < |e.unicodeDigits| ==> IsHex(e.unicodeDigits[i]))
    && |e.window| <= WINDOW
  }

  lemma StepValid(e: State, r: char)
    requires Valid(e)
    ensures Valid(Step(e, r)) && e.decoded <= Step(e, r).decoded
  {
    hide ContainsKey;
  }

  function Run(e: State, text: string): State {
    if text == "" then e else Step(Run(e, text[..|text| - 1]), text[|text| - 1])
  }

  lemma {:induction false} RunValid(e: State, text: string)
    requires Valid(e)
    ensures Valid(Run(e, text)) && e.decoded <= Run(e, text).decoded
  {
    hide Step, Valid;
    if text != "" {
      RunValid(e, text[..|text| - 1]);
      StepValid(Run(e, text[..|text| - 1]), text[|text| - 1]);
    }
  }

  // Feeding a text in two parts is feeding it whole.
  lemma {:induction false} RunConcat(e: State, a: string, b: string)
    ensures Run(e, a + b) == Run(Run(e, a), b)
  {
    hide Step;
    if b == "" {
      assert a + b == a;
    } else {
      RunConcat(e, a, b[..|b| - 1]);
      assert (a + b)[..|a + b| - 1] == a + b[..|b| - 1];
    }
  }

  lemma RunOne(e: State, r: char)
    ensures Run(e, [r]) == Step(e, r)
  {
    hide Step;
    assert Run(e, [r][..0]) == e;
  }

  lemma {:induction false} RunDone(e: State, text: string)
    requires e.done
    ensures Run(e, text) == e
  {
    if text != "" {
      RunDone(e, text[..|text| - 1]);
    }
  }

  // ---------------------------------------------------------------- the object

  class AssistantMessageExtractor {
    var keyFound: bool
    var colonFound: bool
    var inString: bool
    var escape: bool
    var unicodeMode: bool
    var unicodeDigits: string
    var window: string
    var decoded: string
    var emitted: nat
    var done: bool

    // The fields but `emitted`.
    ghost function Fields(): State
      reads this
    {
      State(keyFound, colonFound, inString, escape, unicodeMode, unicodeDigits, window, decoded, done)
    }

    // Everything decoded has been handed out.
    ghost predicate Ready()
      reads this
    {
      emitted == |decoded| && Valid(Fields())
    }

    constructor ()
      ensures Ready() && Fields() == INITIAL
    {
      keyFound, colonFound, inString, escape, unicodeMode := false, false, false, false, false;
      unicodeDigits, window, decoded, emitted, done := "", "", "", 0, false;
    }

    // Inside the string: the runes after the opening quote.
    method FeedString(r: char)
      requires Valid(Fields()) && !done && keyFound && colonFound && inString
      modifies this
      ensures Fields() == Step(old(Fields()), r)
      ensures emitted == old(emitted)
    {
      if unicodeMode {
        if IsHex(r) {
          unicodeDigits := unicodeDigits + [r];
          if |unicodeDigits| == 4 {
            var value := 0;
            for k := 0 to 4
              invariant k == 1 ==> value == HexValue(unicodeDigits[0])
              invariant k == 2 ==> value == HexValue(unicodeDigits[0]) * 16 + HexValue(unicodeDigits[1])
              invariant k == 3 ==>
                value == (HexValue(unicodeDigits[0]) * 16 + HexValue(unicodeDigits[1])) * 16
                         + HexValue(unicodeDigits[2])
              invariant k == 4 ==> value == CodeUnit(unicodeDigits)
              invariant k == 0 ==> value == 0
            {
              value := value * 16 + HexValue(unicodeDigits[k]);
            }
            decoded := decoded + [WriteRune(value)];
            unicodeDigits, unicodeMode := "", false;
          }
          return;
        }
        unicodeDigits, unicodeMode, escape := "", false, false;
      }
      if escape {
        if r == 'u' {
          unicodeMode, unicodeDigits := true, "";
        } else {
          decoded := decoded + [Unescape(r)];
        }
        escape := false;
        return;
      }
      if r == '\\' {
        escape := true;
      } else if r == '"' {
        done, inString := true, false;
      } else {
        decoded := decoded + [r];
      }
    }

    method FeedRune(r: char)
      requires Valid(Fields()) && !done
      modifies this
      ensures Fields() == Step(old(Fields()), r)
      ensures emitted == old(emitted)
    {
      hide ContainsKey, StringStep;
      if !keyFound {
        window := window + [r];
        if |window| > WINDOW {
          window := window[|window| - WINDOW..];
        }
        if ContainsKey(window) {
          keyFound := true;
        }
      } else if !colonFound {
        if r == ':' {
          colonFound := true;
        }
      } else if !inString {
        if r == '"' {
          inString := true;
        }
      } else {
        FeedString(r);
      }
    }

    method Feed(rawDelta: string) returns (delta: string)
      requires Ready()
      modifies this
      ensures Ready() && Fields() == Run(old(Fields()), rawDelta)
      ensures decoded == old(decoded) + delta
    {
      hide Step, Valid, Run;
      ghost var start := Fields();
      RunValid(start, rawDelta);
      RunNothing(start);
      if done || rawDelta == "" {
        if done {
          RunDone(start, rawDelta);
        }
        return "";
      }
      var n := 0;
      assert rawDelta[..0] == "";
      while n < |rawDelta| && !done
        invariant n <= |rawDelta|
        invariant Fields() == Run(start, rawDelta[..n])
        invariant Valid(Fields()) && emitted == old(emitted)
      {
        StepValid(Fields(), rawDelta[n]);
        RunNext(start, rawDelta, n);
        FeedRune(rawDelta[n]);
        n := n + 1;
      }
      RunConcat(start, rawDelta[..n], rawDelta[n..]);
      assert rawDelta == rawDelta[..n] + rawDelta[n..];
      if done {
        RunDone(Fields(), rawDelta[n..]);
      } else {
        RunNothing(Fields());
      }
      if |decoded| <= emitted {
        return "";
      }
      delta := decoded[emitted..];
      emitted := |decoded|;
    }
  }

  lemma RunNothing(e: State)
    ensures Run(e, "") == e
  {
  }

  lemma RunNext(e: State, text: string, n: nat)
    requires n < |text|
    ensures Run(e, text[..n + 1]) == Step(Run(e, text[..n]), text[n])
  {
    hide Step;
    assert text[..n + 1][..n] == text[..n];
  }
}
