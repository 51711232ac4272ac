// goStyleParser (internal/aichat/mongo_statement_normalize.go): the
// recursive-descent parser for Go's `map[k:v ...]` print format.
module GoMap {
  import opened Decimal
  import opened Wrappers
  import Text

  datatype GoValue =
    | Nil
    | Bool(flag: bool)
    | Int(number: int)
    | Float(token: string)  // the float that this token denotes
    | Str(text: string)
    | List(items: seq<GoValue>)
    | Map(entries: map<string, GoValue>)

  datatype ParseError =
    | ExpectedMap
    | UnterminatedMap
    | MissingKey
    | ExpectedColon
    | ExpectedArray
    | UnterminatedArray
    | MissingValue
    | MissingToken

  datatype Parsed<+T> = Ok(value: T, next: nat) | Err(error: ParseError)

  // strconv.ParseFloat(token, 64) succeeds.
  type FloatTest = string -> bool

  // ---------------------------------------------------------------- grammar

  predicate IsBlank(c: char) {
    c == ' ' || c == '\n' || c == '\r' || c == '\t'
  }

  predicate EndsToken(c: char) {
    IsBlank(c) || c == ']'
  }

  predicate EndsKey(c: char) {
    EndsToken(c) || c == ':'
  }

  function SkipSpaces(s: string, pos: nat): (p: nat)
    requires pos <= |s|
    ensures pos <= p <= |s|
    ensures p < |s| ==> !IsBlank(s[p])
    decreases |s| - pos
  {
    if pos < |s| && IsBlank(s[pos]) then SkipSpaces(s, pos + 1) else pos
  }

  function TokenEnd(s: string, pos: nat): (p: nat)
    requires pos <= |s|
    ensures pos <= p <= |s|
    ensures p < |s| ==> EndsToken(s[p])
    decreases |s| - pos
  {
    if pos < |s| && !EndsToken(s[pos]) then TokenEnd(s, pos + 1) else pos
  }

  function KeyEnd(s: string, pos: nat): (p: nat)
    requires pos <= |s|
    ensures pos <= p <= |s|
    ensures p < |s| ==> EndsKey(s[p])
    decreases |s| - pos
  {
    if pos < |s| && !EndsKey(s[pos]) then KeyEnd(s, pos + 1) else pos
  }

  function Classify(isFloat: FloatTest, token: string): GoValue {
    if token == "<nil>" || token == "nil" || token == "null" then Nil
    else if token == "true" then Bool(true)
    else if token == "false" then Bool(false)
    else match ParseInt64(token)
      case Some(n) => Int(n)
      case None => if isFloat(token) then Float(token) else Str(token)
  }

  function TokenAt(isFloat: FloatTest, s: string, pos: nat): (r: Parsed<GoValue>)
    requires pos <= |s|
    ensures r.Ok? ==> pos < r.next <= |s|
  {
    var start := SkipSpaces(s, pos);
    if start == |s| then Err(MissingToken)
    else
      var end := TokenEnd(s, start);
      var token := Text.TrimSpace(s[start..end]);
      if token == "" then Err(MissingToken) else Ok(Classify(isFloat, token), end)
  }

  function ValueAt(isFloat: FloatTest, s: string, pos: nat): (r: Parsed<GoValue>)
    requires pos <= |s|
    ensures r.Ok? ==> pos < r.next <= |s|
    decreases |s| - pos, 3
  {
    var p := SkipSpaces(s, pos);
    if p == |s| then Err(MissingValue)
    else if Text.At(s, p, "map[") then
      match MapAt(isFloat, s, p)
      case Ok(entries, next) => Ok(Map(entries), next)
      case Err(e) => Err(e)
    else if s[p] == '[' then
      match ListAt(isFloat, s, p)
      case Ok(items, next) => Ok(List(items), next)
      case Err(e) => Err(e)
    else TokenAt(isFloat, s, p)
  }

  function MapAt(isFloat: FloatTest, s: string, pos: nat): (r: Parsed<map<string, GoValue>>)
    requires pos <= |s|
    ensures r.Ok? ==> pos < r.next <= |s|
    decreases |s| - pos, 2
  {
    if !Text.At(s, pos, "map[") then Err(ExpectedMap) else EntriesAt(isFloat, s, pos + 4, map[])
  }

  function EntriesAt(isFloat: FloatTest, s: string, pos: nat, out: map<string, GoValue>)
    : (r: Parsed<map<string, GoValue>>)
    requires pos <= |s|
    ensures r.Ok? ==> pos < r.next <= |s|
    decreases |s| - pos, 4
  {
    var p := SkipSpaces(s, pos);
    if p == |s| then Err(UnterminatedMap)
    else if s[p] == ']' then Ok(out, p + 1)
    else
      var end := KeyEnd(s, p);
      var key := Text.TrimSpace(s[p..end]);
      if key == "" then Err(MissingKey)
      else if end == |s| || s[end] != ':' then Err(ExpectedColon)
      else
        match ValueAt(isFloat, s, end + 1)
        case Err(e) => Err(e)
        case Ok(value, next) =>
          var q := SkipSpaces(s, next);
          if q == |s| then Err(UnterminatedMap)
          else if s[q] == ']' then Ok(out[key := value], q + 1)
          else EntriesAt(isFloat, s, q, out[key := value])
  }

  function ListAt(isFloat: FloatTest, s: string, pos: nat): (r: Parsed<seq<GoValue>>)
    requires pos <= |s|
    ensures r.Ok? ==> pos < r.next <= |s|
    decreases |s| - pos, 2
  {
    if pos == |s| || s[pos] != '[' then Err(ExpectedArray) else ItemsAt(isFloat, s, pos + 1, [])
  }

  function ItemsAt(isFloat: FloatTest, s: string, pos: nat, out: seq<GoValue>): (r: Parsed<seq<GoValue>>)
    requires pos <= |s|
    ensures r.Ok? ==> pos < r.next <= |s|
    decreases |s| - pos, 4
  {
    var p := SkipSpaces(s, pos);
    if p == |s| then Err(UnterminatedArray)
    else if s[p] == ']' then Ok(out, p + 1)
    else
      match ValueAt(isFloat, s, p)
      case Err(e) => Err(e)
      case Ok(value, next) =>
        var q := SkipSpaces(s, next);
        if q == |s| then Err(UnterminatedArray)
        else if s[q] == ']' then Ok(out + [value], q + 1)
        else ItemsAt(isFloat, s, q, out + [value])
  }

  // ---------------------------------------------------------------- the parser object

  datatype Result<+T> = Success(value: T) | Failure(error: ParseError)

  // The method's outcome and final position are those of the grammar.
  predicate Follows<T(==)>(r: Result<T>, pos: nat, spec: Parsed<T>) {
    match spec
    case Ok(value, next) => r == Success(value) && pos == next
    case Err(e) => r == Failure(e)
  }

  class GoStyleParser {
    const s: string
    const isFloat: FloatTest
    var pos: nat

    constructor (s: string, isFloat: FloatTest)
      ensures this.s == s && this.isFloat == isFloat && pos == 0
    {
      this.s, this.isFloat, pos := s, isFloat, 0;
    }

    method SkipBlanks()
      requires pos <= |s|
      modifies this
      ensures pos == SkipSpaces(s, old(pos))
    {
      while pos < |s| && IsBlank(s[pos])
        invariant pos <= |s|
        invariant SkipSpaces(s, pos) == SkipSpaces(s, old(pos))
      {
        pos := pos + 1;
      }
    }

    method ReadKey() returns (key: string)
      requires pos <= |s|
      modifies this
      ensures pos == KeyEnd(s, old(pos)) && key == Text.TrimSpace(s[old(pos)..pos])
    {
      var start := pos;
      while pos < |s| && !EndsKey(s[pos])
        invariant start <= pos <= |s|
        invariant KeyEnd(s, pos) == KeyEnd(s, start)
      {
        pos := pos + 1;
      }
      key := Text.TrimSpace(s[start..pos]);
    }

    method ParseToken() returns (r: Result<GoValue>)
      requires pos <= |s|
      modifies this
      ensures pos <= |s| && Follows(r, pos, TokenAt(isFloat, s, old(pos)))
    {
      SkipBlanks();
      if pos == |s| {
        return Failure(MissingToken);
      }
      var start := pos;
      while pos < |s| && !EndsToken(s[pos])
        invariant start <= pos <= |s|
        invariant TokenEnd(s, pos) == TokenEnd(s, start)
      {
        pos := pos + 1;
      }
      var token := Text.TrimSpace(s[start..pos]);
      if token == "" {
        return Failure(MissingToken);
      }
      return Success(Classify(isFloat, token));
    }

    method ParseValue() returns (r: Result<GoValue>)
      requires pos <= |s|
      modifies this
      ensures pos <= |s| && Follows(r, pos, ValueAt(isFloat, s, old(pos)))
      decreases |s| - pos, 3
    {
      SkipBlanks();
      if pos == |s| {
        return Failure(MissingValue);
      }
      if Text.At(s, pos, "map[") {
        var m := ParseMap();
        r := match m case Success(entries) => Success(Map(entries)) case Failure(e) => Failure(e);
      } else if s[pos] == '[' {
        var a := ParseArray();
        r := match a case Success(items) => Success(List(items)) case Failure(e) => Failure(e);
      } else {
        ghost var p := pos;
        SkipTwice(s, p);
        r := ParseToken();
      }
    }

    method ParseMap() returns (r: Result<map<string, GoValue>>)
      requires pos <= |s|
      modifies this
      ensures pos <= |s| && Follows(r, pos, MapAt(isFloat, s, old(pos)))
      decreases |s| - pos, 2
    {
      hide EntriesAt, ValueAt, KeyEnd, SkipSpaces, Text.TrimSpace, IsBlank, EndsKey;
      if !Text.At(s, pos, "map[") {
        return Failure(ExpectedMap);
      }
      pos := pos + 4;
      var out := map[];
      while true
        invariant old(pos) < pos <= |s|
        invariant EntriesAt(isFloat, s, pos, out) == MapAt(isFloat, s, old(pos))
        decreases |s| - pos
      {
        EntriesHead(isFloat, s, pos, out);
        SkipBlanks();
        if pos == |s| {
          return Failure(UnterminatedMap);
        }
        if s[pos] == ']' {
          pos := pos + 1;
          break;
        }
        EntriesKey(isFloat, s, pos, out);
        var key := ReadKey();
        if key == "" {
          return Failure(MissingKey);
        }
        if pos == |s| || s[pos] != ':' {
          return Failure(ExpectedColon);
        }
        pos := pos + 1;
        var val := ParseValue();
        if val.Failure? {
          return Failure(val.error);
        }
        out := out[key := val.value];
        SkipBlanks();
        if pos == |s| {
          return Failure(UnterminatedMap);
        }
        if s[pos] == ']' {
          pos := pos + 1;
          break;
        }
      }
      return Success(out);
    }

    method ParseArray() returns (r: Result<seq<GoValue>>)
      requires pos <= |s|
      modifies this
      ensures pos <= |s| && Follows(r, pos, ListAt(isFloat, s, old(pos)))
      decreases |s| - pos, 2
    {
      hide IsBlank, SkipSpaces, ValueAt;
      if pos == |s| || s[pos] != '[' {
        return Failure(ExpectedArray);
      }
      pos := pos + 1;
      var out := [];
      while true
        invariant old(pos) < pos <= |s|
        invariant ItemsAt(isFloat, s, pos, out) == ListAt(isFloat, s, old(pos))
        decreases |s| - pos
      {
        SkipBlanks();
        if pos == |s| {
          return Failure(UnterminatedArray);
        }
        if s[pos] == ']' {
          pos := pos + 1;
          break;
        }
        var val := ParseValue();
        if val.Failure? {
          return Failure(val.error);
        }
        out := out + [val.value];
        SkipBlanks();
        if pos == |s| {
          return Failure(UnterminatedArray);
        }
        if s[pos] == ']' {
          pos := pos + 1;
          break;
        }
      }
      return Success(out);
    }
  }

  lemma SkipTwice(s: string, p: nat)
    requires p < |s| && !IsBlank(s[p])
    ensures SkipSpaces(s, p) == p
  {
  }

  // The two halves of a round of the map loop.
  lemma EntriesHead(isFloat: FloatTest, s: string, pos: nat, out: map<string, GoValue>)
    requires pos <= |s|
    ensures var p := SkipSpaces(s, pos);
            EntriesAt(isFloat, s, pos, out) ==
            if p == |s| then Err(UnterminatedMap)
            else if s[p] == ']' then Ok(out, p + 1)
            else EntriesAt(isFloat, s, p, out)
  {
    hide ValueAt, KeyEnd, Text.TrimSpace, IsBlank;
    var p := SkipSpaces(s, pos);
    if p < |s| {
      SkipTwice(s, p);
    }
  }

  lemma EntriesKey(isFloat: FloatTest, s: string, p: nat, out: map<string, GoValue>)
    requires p < |s| && !IsBlank(s[p]) && s[p] != ']'
    ensures var end := KeyEnd(s, p);
            var key := Text.TrimSpace(s[p..end]);
            EntriesAt(isFloat, s, p, out) ==
            if key == "" then Err(MissingKey)
            else if end == |s| || s[end] != ':' then Err(ExpectedColon)
            else match ValueAt(isFloat, s, end + 1)
              case Err(e) => Err(e)
              case Ok(value, next) =>
                var q := SkipSpaces(s, next);
                if q == |s| then Err(UnterminatedMap)
                else if s[q] == ']' then Ok(out[key := value], q + 1)
                else EntriesAt(isFloat, s, q, out[key := value])
  {
    hide ValueAt, KeyEnd, Text.TrimSpace, IsBlank, SkipSpaces;
    SkipTwice(s, p);
  }
}
