// AuditStore.List (internal/agentaudit/audit_store.go): the matching entries, newest
// first, up to a limit.
module AuditList {
  import opened Decimal
  import opened Wrappers
  import opened AuditChain
  import opened Reversal
  import Text

  datatype Filter = Filter(accessKey: string, protocol: string, keyword: string, limit: int)

  // json.Unmarshal of a line into an entry, which does not ask what the strict decoder
  // asks of it, and strings.ToLower.
  datatype Reader = Reader(decode: Line -> Option<AuditEntry>, lower: string -> string)

  // The texts a keyword is looked for in.
  function Searched(e: AuditEntry): seq<string> {
    [e.accessKey, e.toolName, e.protocol, e.summary, e.statement, e.datasourceName, e.datasourceType, e.target,
     e.status, e.message]
  }

  // strings.Join(fields, " ")
  function Spaced(fields: seq<string>): string {
    if fields == [] then ""
    else if |fields| == 1 then fields[0]
    else Spaced(fields[..|fields| - 1]) + " " + fields[|fields| - 1]
  }

  function Haystack(e: AuditEntry): string {
    Spaced(Searched(e))
  }

  // matchesAuditFilter
  predicate Matches(reader: Reader, e: AuditEntry, filter: Filter) {
    && (filter.accessKey != "" ==> e.accessKey == filter.accessKey)
    && (filter.protocol != "" ==> e.protocol == filter.protocol)
    && var keyword := reader.lower(Text.TrimSpace(filter.keyword));
       keyword == "" || Text.Contains(reader.lower(Haystack(e)), keyword)
  }

  // The entry of a line, if it has one that matches.
  function Listed(reader: Reader, line: Line, filter: Filter): seq<AuditEntry> {
    if line == Blank || line == TooLong then []
    else match reader.decode(line)
      case Some(e) => if Matches(reader, e, filter) then [e] else []
      case None => []
  }

  function Matching(reader: Reader, lines: seq<Line>, filter: Filter): seq<AuditEntry> {
    if lines == [] then []
    else Matching(reader, lines[..|lines| - 1], filter) + Listed(reader, lines[|lines| - 1], filter)
  }

  function Limited(items: seq<AuditEntry>, limit: int): seq<AuditEntry> {
    if limit > 0 && |items| > limit then items[..limit] else items
  }

  // Nothing is listed from a file with a line the scanner gives up on.
  function Listing(reader: Reader, lines: seq<Line>, filter: Filter): Option<seq<AuditEntry>> {
    if TooLong in lines then None
    else Some(Limited(Reversed(Matching(reader, lines, filter)), filter.limit))
  }

  method List(reader: Reader, lines: seq<Line>, filter: Filter) returns (r: Option<seq<AuditEntry>>)
    ensures r == Listing(reader, lines, filter)
  {
    hide Matches;
    var items: seq<AuditEntry> := [];
    var n := 0;
    while n < |lines|
      invariant n <= |lines|
      invariant items == Matching(reader, lines[..n], filter)
      invariant TooLong !in lines[..n]
    {
      assert lines[..n + 1][..n] == lines[..n];
      var line := lines[n];
      n := n + 1;
      if line == TooLong {
        return None;
      }
      if line == Blank {
        continue;
      }
      var entry := reader.decode(line);
      if entry == None {
        continue;
      }
      if !Matches(reader, entry.value, filter) {
        continue;
      }
      items := items + [entry.value];
    }
    assert lines[..n] == lines;
    items := Turned(items);
    if filter.limit > 0 && |items| > filter.limit {
      items := items[..filter.limit];
    }
    return Some(items);
  }

  // A new line comes first when it matches, and pushes out what is over the limit.
  lemma NewestFirst(reader: Reader, lines: seq<Line>, line: Line, filter: Filter)
    requires TooLong !in lines && line != TooLong
    ensures Listing(reader, lines + [line], filter)
         == Some(Limited(Listed(reader, line, filter) + Reversed(Matching(reader, lines, filter)), filter.limit))
  {
    hide Matches;
    var most := Matching(reader, lines, filter);
    assert (lines + [line])[..|lines|] == lines;
    if Listed(reader, line, filter) == [] {
      assert most + [] == most && [] + Reversed(most) == Reversed(most);
    } else {
      ReversedSnoc(most, Listed(reader, line, filter)[0]);
    }
  }

  // Listing with a limit is the beginning of listing without.
  lemma LimitCutsListing(reader: Reader, lines: seq<Line>, filter: Filter)
    requires TooLong !in lines
    ensures var all := Listing(reader, lines, filter.(limit := 0)).value;
            Listing(reader, lines, filter).value <= all
            && |Listing(reader, lines, filter).value| == if 0 < filter.limit < |all| then filter.limit else |all|
  {
    SameMatching(reader, lines, filter);
  }

  lemma {:induction false} SameMatching(reader: Reader, lines: seq<Line>, filter: Filter)
    ensures Matching(reader, lines, filter.(limit := 0)) == Matching(reader, lines, filter)
  {
    hide Text.Contains, Text.TrimSpace;
    if lines != [] {
      SameMatching(reader, lines[..|lines| - 1], filter);
    }
  }

  // Appending to a log that verifies keeps it listable exactly when the stored row
  // stays within the line limit; an oversized row hides every entry.
  lemma AppendKeepsListable(lib: Library, reader: Reader, rows: seq<Line>, entry: AuditEntry, filter: Filter)
    requires IsAuditLog(lib, rows) && |rows| < INT64_MAX
    ensures Listing(reader, AppendRow(lib, rows, entry), filter).Some? <==> Fits(lib, rows, entry)
  {
    hide Reversed, Matching, IsAuditLog, Fits, AppendRow;
    AppendKeepsLog(lib, rows, entry);
    LogHasNoLongLine(lib, rows);
    AppendedLine(lib, rows, entry);
  }

  lemma LogHasNoLongLine(lib: Library, rows: seq<Line>)
    requires IsAuditLog(lib, rows)
    ensures TooLong !in rows
  {
    hide Classify, IsLegacy, IsSealed;
    var k := LegacyCount(rows);
    forall i | 0 <= i < |rows|
      ensures rows[i] != TooLong
    {
      if i < k {
        LegacyIsRow(rows[i]);
      } else {
        SealedIsRow(lib, rows[i], i + 1, PrevHash(lib, rows, k, i));
      }
    }
  }

  lemma LegacyIsRow(line: Line)
    requires IsLegacy(line)
    ensures line.Row?
  {
    hide Classify;
  }

  lemma SealedIsRow(lib: Library, line: Line, position: nat, prevHash: string)
    requires IsSealed(lib, line, position, prevHash)
    ensures line.Row?
  {
    hide Classify;
  }

  lemma AppendedLine(lib: Library, rows: seq<Line>, entry: AuditEntry)
    requires IsAuditLog(lib, rows) && |AppendRow(lib, rows, entry)| == |rows| + 1
    ensures var more := AppendRow(lib, rows, entry);
            more == rows + [more[|rows|]] && (more[|rows|] == TooLong <==> !Fits(lib, rows, entry))
  {
    hide IsAuditLog, Marshal, SealNext;
  }

  // ---------------------------------------------------------------- the filter

  // An entry matches when it has the access key and the protocol asked for, if any, and
  // the keyword, if any, occurs in one of these texts.
  lemma MatchesByKeyword(reader: Reader, e: AuditEntry, filter: Filter, text: string)
    requires filter.accessKey == "" || e.accessKey == filter.accessKey
    requires filter.protocol == "" || e.protocol == filter.protocol
    requires forall s, t :: reader.lower(s + t) == reader.lower(s) + reader.lower(t)
    requires text in {e.accessKey, e.toolName, e.protocol, e.summary, e.statement, e.datasourceName, e.datasourceType,
                      e.target, e.status, e.message}
    requires Text.Contains(reader.lower(text), reader.lower(Text.TrimSpace(filter.keyword)))
    ensures Matches(reader, e, filter)
  {
    hide Spaced, SpacedBefore, SpacedAfter, Searched, Text.TrimSpace, Text.Contains;
    var k := PlaceOf(e, text);
    var before, after := SpacedBefore(Searched(e), k), SpacedAfter(Searched(e), k);
    SpacedAround(Searched(e), k);
    var w := reader.lower(Text.TrimSpace(filter.keyword));
    assert reader.lower(Haystack(e)) == reader.lower(before) + reader.lower(text) + reader.lower(after);
    ContainsInside(reader.lower(before), reader.lower(text), reader.lower(after), w);
  }

  lemma PlaceOf(e: AuditEntry, text: string) returns (k: nat)
    requires text in {e.accessKey, e.toolName, e.protocol, e.summary, e.statement, e.datasourceName, e.datasourceType,
                      e.target, e.status, e.message}
    ensures k < |Searched(e)| && Searched(e)[k] == text
  {
    k := if text == e.accessKey then 0
         else if text == e.toolName then 1
         else if text == e.protocol then 2
         else if text == e.summary then 3
         else if text == e.statement then 4
         else if text == e.datasourceName then 5
         else if text == e.datasourceType then 6
         else if text == e.target then 7
         else if text == e.status then 8
         else 9;
  }

  function SpacedBefore(fields: seq<string>, k: nat): string
    requires k < |fields|
  {
    if k == 0 then "" else Spaced(fields[..k]) + " "
  }

  function SpacedAfter(fields: seq<string>, k: nat): string
    requires k < |fields|
    decreases |fields|
  {
    if k == |fields| - 1 then "" else SpacedAfter(fields[..|fields| - 1], k) + " " + fields[|fields| - 1]
  }

  lemma {:induction false} SpacedAround(fields: seq<string>, k: nat)
    requires k < |fields|
    ensures Spaced(fields) == SpacedBefore(fields, k) + fields[k] + SpacedAfter(fields, k)
    decreases |fields|
  {
    var n := |fields| - 1;
    if k == n {
      assert fields[..k] == fields[..n];
    } else {
      SpacedAround(fields[..n], k);
      assert fields[..n][..k] == fields[..k] && fields[..n][k] == fields[k];
    }
  }

  lemma ContainsInside(a: string, s: string, b: string, w: string)
    requires Text.Contains(s, w)
    ensures Text.Contains(a + s + b, w)
  {
    var i :| 0 <= i <= |s| && Text.At(s, i, w);
    var t := a + s + b;
    assert t[|a| + i..|a| + i + |w|] == s[i..i + |w|];
    assert Text.At(t, |a| + i, w);
  }

  // Only entries of that access key and protocol are listed, and without a keyword all
  // of them.
  lemma MatchesOnly(reader: Reader, e: AuditEntry, filter: Filter)
    requires reader.lower("") == ""
    ensures Matches(reader, e, filter) ==>
              && (filter.accessKey == "" || e.accessKey == filter.accessKey)
              && (filter.protocol == "" || e.protocol == filter.protocol)
    ensures Text.TrimSpace(filter.keyword) == "" ==>
              (Matches(reader, e, filter) <==>
                 && (filter.accessKey == "" || e.accessKey == filter.accessKey)
                 && (filter.protocol == "" || e.protocol == filter.protocol))
  {
    hide Haystack, Text.TrimSpace, Text.Contains;
  }

  // What is listed without a limit is what the lines hold that matches.
  lemma ListedIff(reader: Reader, lines: seq<Line>, filter: Filter, e: AuditEntry)
    requires TooLong !in lines && filter.limit <= 0
    ensures e in Listing(reader, lines, filter).value <==>
            exists i :: 0 <= i < |lines| && lines[i] != Blank && reader.decode(lines[i]) == Some(e)
                        && Matches(reader, e, filter)
  {
    hide Matches;
    MatchingIff(reader, lines, filter, e);
    ReversedMembers(Matching(reader, lines, filter), e);
  }

  lemma {:induction false} MatchingIff(reader: Reader, lines: seq<Line>, filter: Filter, e: AuditEntry)
    requires TooLong !in lines
    ensures e in Matching(reader, lines, filter) <==>
            exists i :: 0 <= i < |lines| && lines[i] != Blank && reader.decode(lines[i]) == Some(e)
                        && Matches(reader, e, filter)
  {
    hide Matches;
    if lines != [] {
      var n := |lines| - 1;
      MatchingIff(reader, lines[..n], filter, e);
      assert forall i :: 0 <= i < n ==> lines[..n][i] == lines[i];
      assert lines[n] in lines;
    }
  }

  lemma {:induction false} ReversedMembers(items: seq<AuditEntry>, e: AuditEntry)
    ensures e in Reversed(items) <==> e in items
  {
    if items != [] {
      var n := |items| - 1;
      ReversedMembers(items[..n], e);
      ReversedSnoc(items[..n], items[n]);
      assert items == items[..n] + [items[n]];
    }
  }
}
