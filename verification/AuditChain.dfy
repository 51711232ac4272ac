// The hash-chained agent audit log (internal/agentaudit/hash_chain.go) and the
// store that appends to it (internal/agentaudit/audit_store.go).
//
// A log file is a sequence of lines. A line that decodes as a JSON object is a
// Row of fields; SHA-256 over the canonical JSON of an object is the parameter
// `digest`, about which nothing is assumed but its result type.
module AuditChain {
  import opened Decimal
  import opened Wrappers
  import Text

  // ---------------------------------------------------------------- values

  predicate IsHexDigest(s: string) {
    |s| == 64 && forall i :: 0 <= i < 64 ==> Decimal.IsDigit(s[i]) || 'a' <= s[i] <= 'f'
  }

  const CHAIN_VERSION := "local-sha256-v1"
  function Zeros(n: nat): (s: string)
    ensures |s| == n && forall i :: 0 <= i < n ==> s[i] == '0'
  {
    if n == 0 then "" else Zeros(n - 1) + "0"
  }

  const GENESIS_HASH := Zeros(64)

  type HexDigest = s: string | IsHexDigest(s) witness GENESIS_HASH

  datatype Json =
    | Null
    | Bool(flag: bool)
    | Number(literal: string)
    | String(text: string)
    | Array(items: seq<Json>)
    | Object(fields: Fields)

  type Fields = map<string, Json>

  // What the standard library does: sha256Hex of the canonical encoding,
  // fmt.Sprint of a decoded value, the length of a marshalled row, and the size of
  // the scanner's buffer, which has to hold a row and its newline.
  datatype Library = Library(
    digest: Fields -> HexDigest,
    sprint: Json -> string,
    size: Fields -> nat,
    buffer: nat)
  {
    predicate Scans(fields: Fields) {
      size(fields) < buffer
    }
  }

  // One scanned line. Malformed is one that the strict decoder rejects, TooLong one
  // at which the scanner gives up.
  datatype Line = Blank | Malformed(raw: string) | TooLong | Row(fields: Fields)

  // The lines that are not blank.
  function Records(lines: seq<Line>): (r: seq<Line>)
    ensures Blank !in r
    ensures |r| <= |lines|
  {
    if lines == [] then []
    else
      var last := lines[|lines| - 1];
      Records(lines[..|lines| - 1]) + if last == Blank then [] else [last]
  }

  lemma {:induction false} RecordsPrefix(lines: seq<Line>, n: nat)
    requires n <= |lines|
    ensures Records(lines[..n]) <= Records(lines)
  {
    if n < |lines| {
      var front := lines[..|lines| - 1];
      RecordsPrefix(front, n);
      assert front[..n] == lines[..n];
    } else {
      assert lines[..n] == lines;
    }
  }

  // ---------------------------------------------------------------- rows

  const CHAIN_FIELDS := {"seq", "prev_hash", "payload_hash", "chain_hash", "chain_version"}

  datatype LineKind = Legacy | Chained | Partial

  function Classify(fields: Fields): LineKind {
    var present := fields.Keys * CHAIN_FIELDS;
    if present == {} then Legacy else if present == CHAIN_FIELDS then Chained else Partial
  }

  function StringValue(lib: Library, fields: Fields, key: string): string {
    if key !in fields then ""
    else match fields[key]
      case Null => ""
      case String(text) => text
      case Number(literal) => literal
      case other => lib.sprint(other)
  }

  function TrimmedValue(lib: Library, fields: Fields, key: string): string {
    Text.TrimSpace(StringValue(lib, fields, key))
  }

  function IntValue(fields: Fields, key: string): Option<int> {
    if key !in fields then None
    else match fields[key]
      case Number(literal) => ParseInt64(literal)
      case String(text) => ParseInt64(Text.TrimSpace(text))
      case _ => None
  }

  // The row without its chain fields: what the payload hash covers.
  function Payload(fields: Fields): Fields {
    fields - CHAIN_FIELDS
  }

  // The object whose digest is the chain hash.
  function ChainInput(seqNo: int, prevHash: string, payloadHash: string, version: string): Fields {
    map[
      "chain_version" := String(Text.TrimSpace(version)),
      "payload_hash" := String(Text.TrimSpace(payloadHash)),
      "prev_hash" := String(Text.TrimSpace(prevHash)),
      "seq" := Number(FormatInt(seqNo))
    ]
  }

  lemma DigestIsTrimmed(d: string)
    requires IsHexDigest(d)
    ensures Text.Trimmed(d) && Text.TrimSpace(d) == d && d != ""
  {
  }

  lemma GenesisIsDigest()
    ensures IsHexDigest(GENESIS_HASH)
  {
  }

  lemma ChainInputInjective(n: int, p: string, h: string, n': int, p': string, h': string)
    requires 0 < n <= INT64_MAX && 0 < n' <= INT64_MAX
    requires IsHexDigest(p) && IsHexDigest(h) && IsHexDigest(p') && IsHexDigest(h')
    requires ChainInput(n, p, h, CHAIN_VERSION) == ChainInput(n', p', h', CHAIN_VERSION)
    ensures n == n' && p == p' && h == h'
  {
    hide Text.TrimSpace, FormatInt, ParseInt64, IsHexDigest;
    var left, right := ChainInput(n, p, h, CHAIN_VERSION), ChainInput(n', p', h', CHAIN_VERSION);
    assert left["seq"] == right["seq"] && left["prev_hash"] == right["prev_hash"];
    assert left["payload_hash"] == right["payload_hash"];
    ParseFormat(n);
    ParseFormat(n');
    DigestIsTrimmed(p);
    DigestIsTrimmed(p');
    DigestIsTrimmed(h);
    DigestIsTrimmed(h');
  }

  // ---------------------------------------------------------------- a valid log

  predicate IsLegacy(line: Line) {
    line.Row? && Classify(line.fields) == Legacy
  }

  // The line is a chained row for this position, linked to this previous hash.
  predicate IsSealed(lib: Library, line: Line, position: nat, prevHash: string) {
    && line.Row?
    && Classify(line.fields) == Chained
    && IntValue(line.fields, "seq") == Some(position)
    && position > 0
    && TrimmedValue(lib, line.fields, "chain_version") == CHAIN_VERSION
    && TrimmedValue(lib, line.fields, "prev_hash") == prevHash
    && TrimmedValue(lib, line.fields, "payload_hash") == lib.digest(Payload(line.fields))
    && TrimmedValue(lib, line.fields, "chain_hash")
         == lib.digest(ChainInput(position, prevHash, lib.digest(Payload(line.fields)), CHAIN_VERSION))
  }

  // The length of the longest prefix of legacy rows.
  function LegacyCount(rows: seq<Line>): (k: nat)
    ensures k <= |rows|
    ensures forall i :: 0 <= i < k ==> IsLegacy(rows[i])
    ensures k < |rows| ==> !IsLegacy(rows[k])
  {
    if rows != [] && IsLegacy(rows[0]) then 1 + LegacyCount(rows[1..]) else 0
  }

  function ChainHash(lib: Library, line: Line): string {
    if line.Row? then TrimmedValue(lib, line.fields, "chain_hash") else ""
  }

  // The hash row i must name as its predecessor when the first k rows are legacy rows.
  function PrevHash(lib: Library, rows: seq<Line>, k: nat, i: nat): string
    requires k <= i <= |rows|
  {
    if i == k then GENESIS_HASH else ChainHash(lib, rows[i - 1])
  }

  predicate SealedFrom(lib: Library, rows: seq<Line>, k: nat)
    requires k <= |rows|
  {
    forall i :: k <= i < |rows| ==> IsSealed(lib, rows[i], i + 1, PrevHash(lib, rows, k, i))
  }

  // Legacy rows, then rows each sealed at its own position over its predecessor.
  predicate IsAuditLog(lib: Library, rows: seq<Line>) {
    SealedFrom(lib, rows, LegacyCount(rows))
  }

  lemma LegacyCountIs(rows: seq<Line>, k: nat)
    requires k <= |rows|
    requires forall i :: 0 <= i < k ==> IsLegacy(rows[i])
    requires k < |rows| ==> !IsLegacy(rows[k])
    ensures LegacyCount(rows) == k
  {
    hide IsLegacy;
  }

  lemma SealedFromSnoc(lib: Library, rows: seq<Line>, line: Line, k: nat)
    requires k <= |rows|
    ensures SealedFrom(lib, rows + [line], k)
       <==> SealedFrom(lib, rows, k) && IsSealed(lib, line, |rows| + 1, PrevHash(lib, rows, k, |rows|))
  {
    hide IsSealed, ChainHash;
    var more := rows + [line];
    forall i | k <= i <= |rows|
      ensures PrevHash(lib, more, k, i) == PrevHash(lib, rows, k, i)
    {
      assert i > k ==> more[i - 1] == rows[i - 1];
    }
    assert forall i :: k <= i < |rows| ==> more[i] == rows[i];
    assert more[|rows|] == line;
  }

  // Cutting a log short, or extending it by a row, in terms of the whole.
  lemma LegacyCountPrefix(rows: seq<Line>, p: nat)
    requires p <= |rows|
    ensures LegacyCount(rows[..p]) == if p <= LegacyCount(rows) then p else LegacyCount(rows)
  {
    LegacyCountIs(rows[..p], if p <= LegacyCount(rows) then p else LegacyCount(rows));
  }

  // Verification is prefix-closed.
  lemma PrefixIsAuditLog(lib: Library, rows: seq<Line>, p: nat)
    requires IsAuditLog(lib, rows) && p <= |rows|
    ensures IsAuditLog(lib, rows[..p])
  {
    LegacyCountPrefix(rows, p);
  }

  // One more row is accepted exactly when it is a legacy row after legacy rows
  // only, or sealed over what stands before it.
  predicate Extends(lib: Library, rows: seq<Line>, line: Line) {
    var k := LegacyCount(rows);
    || (k == |rows| && IsLegacy(line))
    || IsSealed(lib, line, |rows| + 1, PrevHash(lib, rows, k, |rows|))
  }

  lemma ExtendAuditLog(lib: Library, rows: seq<Line>, line: Line)
    requires IsAuditLog(lib, rows)
    ensures IsAuditLog(lib, rows + [line]) <==> Extends(lib, rows, line)
    ensures LegacyCount(rows + [line])
         == LegacyCount(rows) + if LegacyCount(rows) == |rows| && IsLegacy(line) then 1 else 0
    ensures PrevHash(lib, rows + [line], LegacyCount(rows + [line]), |rows| + 1)
         == if LegacyCount(rows) == |rows| && IsLegacy(line)
            then PrevHash(lib, rows, |rows|, |rows|) else ChainHash(lib, line)
  {
    hide IsSealed, IsLegacy, ChainHash;
    var k, more := LegacyCount(rows), rows + [line];
    LegacyCountIs(more, k + if k == |rows| && IsLegacy(line) then 1 else 0);
    SealedFromSnoc(lib, rows, line, k);
  }

  // ---------------------------------------------------------------- verification

  datatype Reason =
    | NoReason
    | InvalidJson
    | LegacyAfterChain
    | IncompleteChainFields
    | InvalidSequence
    | UnexpectedSequence
    | UnsupportedVersion
    | PreviousHashMismatch
    | PayloadHashMismatch
    | ChainHashMismatch
    | LineTooLong

  datatype VerifyResult = VerifyResult(
    pass: bool,
    verifiedRecords: nat,
    legacyRecords: nat,
    totalRecords: nat,
    firstBrokenPosition: nat,
    reason: Reason,
    expectedHash: string,
    actualHash: string)
  {
    function Fail(position: nat, reason: Reason, expected: string, actual: string): VerifyResult {
      this.(pass := false, firstBrokenPosition := position, reason := reason,
            expectedHash := expected, actualHash := actual)
    }
  }

  // The checks on one chained row, in order, against the expected previous hash.
  datatype Verdict =
    | Accepted(chainHash: string)
    | Rejected(reason: Reason, expected: string, actual: string)

  // Reported hashes, when there are any, differ.
  predicate Explains(expected: string, actual: string) {
    expected != actual || expected == actual == ""
  }

  function CheckChained(lib: Library, line: Line, position: nat, expectedPrev: string): Verdict
    requires line.Row? && Classify(line.fields) == Chained
  {
    var raw := line.fields;
    var seqNo := IntValue(raw, "seq");
    if seqNo == None || seqNo.value <= 0 then Rejected(InvalidSequence, "", "")
    else if seqNo.value != position then Rejected(UnexpectedSequence, "", "")
    else
      var version := TrimmedValue(lib, raw, "chain_version");
      if version != CHAIN_VERSION then Rejected(UnsupportedVersion, "", "")
      else
        var prevHash := TrimmedValue(lib, raw, "prev_hash");
        if prevHash != expectedPrev then Rejected(PreviousHashMismatch, expectedPrev, prevHash)
        else
          var expectedPayload := lib.digest(Payload(raw));
          var actualPayload := TrimmedValue(lib, raw, "payload_hash");
          if actualPayload != expectedPayload
          then Rejected(PayloadHashMismatch, expectedPayload, actualPayload)
          else
            var expectedChain := lib.digest(ChainInput(seqNo.value, prevHash, expectedPayload, version));
            var actualChain := TrimmedValue(lib, raw, "chain_hash");
            if actualChain != expectedChain then Rejected(ChainHashMismatch, expectedChain, actualChain)
            else Accepted(actualChain)
  }

  // A chained row is accepted exactly when it is sealed for its position.
  lemma CheckChainedIff(lib: Library, line: Line, position: nat, expectedPrev: string)
    requires line.Row? && Classify(line.fields) == Chained
    ensures var v := CheckChained(lib, line, position, expectedPrev);
            && (v.Accepted? <==> IsSealed(lib, line, position, expectedPrev))
            && (v.Accepted? ==> v.chainHash == ChainHash(lib, line))
            && (v.Rejected? ==> Explains(v.expected, v.actual))
  {
    hide Classify, TrimmedValue, IntValue, Payload, ChainInput;
  }

  // The counters of a scan that has accepted these rows.
  ghost predicate Counts(result: VerifyResult, rows: seq<Line>) {
    && result.legacyRecords == LegacyCount(rows)
    && result.verifiedRecords == |rows| - LegacyCount(rows)
  }

  // What a failed verification reports: the shortest prefix that is not a log.
  ghost predicate Reports(lib: Library, rows: seq<Line>, result: VerifyResult) {
    var p := result.firstBrokenPosition;
    && 1 <= p <= |rows|
    && IsAuditLog(lib, rows[..p - 1])
    && !IsAuditLog(lib, rows[..p])
    && Counts(result, rows[..p - 1])
    && result.totalRecords == (if rows[p - 1] == TooLong then p - 1 else p)
    && Rejected(result.reason, result.expectedHash, result.actualHash) == Complaint(lib, rows[..p - 1], rows[p - 1])
    && Explains(result.expectedHash, result.actualHash)
  }

  // What is wrong with a line after a log that verifies, if it does not extend it.
  function Complaint(lib: Library, rows: seq<Line>, line: Line): Verdict {
    match line
    case TooLong => Rejected(LineTooLong, "", "")
    case Row(fields) =>
      (match Classify(fields)
       case Legacy => Rejected(LegacyAfterChain, "", "")
       case Partial => Rejected(IncompleteChainFields, "", "")
       case Chained => CheckChained(lib, line, |rows| + 1, PrevHash(lib, rows, LegacyCount(rows), |rows|)))
    case _ => Rejected(InvalidJson, "", "")
  }

  lemma RecordsNext(lines: seq<Line>, n: nat)
    requires n < |lines|
    ensures Records(lines[..n + 1])
         == Records(lines[..n]) + if lines[n] == Blank then [] else [lines[n]]
    ensures Records(lines[..n + 1]) <= Records(lines)
  {
    assert lines[..n + 1][..n] == lines[..n];
    RecordsPrefix(lines, n + 1);
  }

  lemma BrokenAt(lib: Library, rows: seq<Line>, n: nat, result: VerifyResult)
    requires n < |rows|
    requires IsAuditLog(lib, rows[..n])
    requires !Extends(lib, rows[..n], rows[n])
    requires Counts(result, rows[..n])
    requires result.firstBrokenPosition == n + 1
    requires result.totalRecords == n + if rows[n] == TooLong then 0 else 1
    requires Rejected(result.reason, result.expectedHash, result.actualHash) == Complaint(lib, rows[..n], rows[n])
    requires Explains(result.expectedHash, result.actualHash)
    ensures Reports(lib, rows, result)
    ensures !IsAuditLog(lib, rows)
  {
    hide IsAuditLog, Extends, LegacyCount, Complaint;
    ExtendAuditLog(lib, rows[..n], rows[n]);
    assert rows[..n] + [rows[n]] == rows[..n + 1];
    if IsAuditLog(lib, rows) {
      PrefixIsAuditLog(lib, rows, n + 1);
    }
  }

  // verifyAuditData: passes exactly the audit logs, counts their rows, and
  // otherwise reports the end of the shortest prefix that is not one.
  method VerifyAuditData(lib: Library, lines: seq<Line>) returns (result: VerifyResult)
    ensures result.pass <==> IsAuditLog(lib, Records(lines))
    ensures result.pass ==> Counts(result, Records(lines)) && result.totalRecords == |Records(lines)|
    ensures !result.pass ==> Reports(lib, Records(lines), result)
  {
    hide IsAuditLog, IsSealed, Reports, ChainHash, Extends, Classify, IsLegacy, CheckChained,
      Records, LegacyCount, PrevHash, Complaint;
    result := VerifyResult(true, 0, 0, 0, 0, NoReason, "", "");
    var position: nat, chainStarted, expectedPrev := 0, false, GENESIS_HASH;
    var n := 0;
    ghost var all, rows: seq<Line> := Records(lines), [];
    EmptyIsAuditLog(lib, lines);
    while n < |lines|
      invariant n <= |lines|
      invariant rows == Records(lines[..n]) <= all
      invariant position == |rows| == result.totalRecords
      invariant IsAuditLog(lib, rows)
      invariant Counts(result, rows)
      invariant chainStarted == (LegacyCount(rows) < position)
      invariant expectedPrev == PrevHash(lib, rows, LegacyCount(rows), position)
      invariant result.pass && result.expectedHash == result.actualHash == ""
    {
      var line := lines[n];
      RecordsNext(lines, n);
      n := n + 1;
      if line == Blank {
        continue;
      }
      assert rows == all[..position] && all[position] == line;
      ExtendAuditLog(lib, rows, line);
      ExtendsByKind(lib, rows, line);
      ComplaintByKind(lib, rows, line);
      if line == TooLong {
        result := result.Fail(position + 1, LineTooLong, "", "");
        BrokenAt(lib, all, position, result);
        return;
      }
      result := result.(totalRecords := position + 1);
      if line.Malformed? {
        result := result.Fail(position + 1, InvalidJson, "", "");
        BrokenAt(lib, all, position, result);
        return;
      }
      var kind := Classify(line.fields);
      if kind == Legacy {
        if chainStarted {
          result := result.Fail(position + 1, LegacyAfterChain, "", "");
          BrokenAt(lib, all, position, result);
          return;
        }
        result := result.(legacyRecords := result.legacyRecords + 1);
      } else if kind == Partial {
        result := result.Fail(position + 1, IncompleteChainFields, "", "");
        BrokenAt(lib, all, position, result);
        return;
      } else {
        CheckChainedIff(lib, line, position + 1, expectedPrev);
        var verdict := CheckChained(lib, line, position + 1, expectedPrev);
        if verdict.Rejected? {
          result := result.Fail(position + 1, verdict.reason, verdict.expected, verdict.actual);
          BrokenAt(lib, all, position, result);
          return;
        }
        chainStarted, expectedPrev := true, verdict.chainHash;
        result := result.(verifiedRecords := result.verifiedRecords + 1);
      }
      position, rows := position + 1, rows + [line];
    }
    assert lines[..n] == lines;
  }

  lemma EmptyIsAuditLog(lib: Library, lines: seq<Line>)
    ensures IsAuditLog(lib, [])
    ensures Records(lines[..0]) == [] && LegacyCount([]) == 0
    ensures PrevHash(lib, [], 0, 0) == GENESIS_HASH
  {
  }

  lemma ComplaintByKind(lib: Library, rows: seq<Line>, line: Line)
    ensures line == TooLong ==> Complaint(lib, rows, line) == Rejected(LineTooLong, "", "")
    ensures line.Malformed? ==> Complaint(lib, rows, line) == Rejected(InvalidJson, "", "")
    ensures line.Row? ==>
              Complaint(lib, rows, line) ==
              match Classify(line.fields)
              case Legacy => Rejected(LegacyAfterChain, "", "")
              case Partial => Rejected(IncompleteChainFields, "", "")
              case Chained => CheckChained(lib, line, |rows| + 1, PrevHash(lib, rows, LegacyCount(rows), |rows|))
  {
    hide Classify, CheckChained, PrevHash, LegacyCount;
  }

  lemma ExtendsByKind(lib: Library, rows: seq<Line>, line: Line)
    ensures Extends(lib, rows, line) ==
            if !line.Row? then false
            else match Classify(line.fields)
              case Legacy => LegacyCount(rows) == |rows|
              case Partial => false
              case Chained => IsSealed(lib, line, |rows| + 1, PrevHash(lib, rows, LegacyCount(rows), |rows|))
    ensures IsLegacy(line) <==> line.Row? && Classify(line.fields) == Legacy
  {
    hide LegacyCount;
  }

  // ---------------------------------------------------------------- appending

  datatype AppendState = AppendState(totalRecords: nat, chainStarted: bool, lastChainHash: string)

  lemma RowOfAuditLog(lib: Library, rows: seq<Line>, i: nat)
    requires IsAuditLog(lib, rows) && i < |rows|
    ensures rows[i].Row?
    ensures Classify(rows[i].fields) == if i < LegacyCount(rows) then Legacy else Chained
  {
    if i < LegacyCount(rows) {
      assert IsLegacy(rows[i]);
    } else {
      assert IsSealed(lib, rows[i], i + 1, PrevHash(lib, rows, LegacyCount(rows), i));
    }
  }

  // scanAuditChainForAppend: refuses a log that does not verify, otherwise finds
  // its length and the chain hash a further row must link to.
  method ScanAuditChainForAppend(lib: Library, lines: seq<Line>) returns (state: Option<AppendState>)
    ensures state.Some? <==> IsAuditLog(lib, Records(lines))
    ensures state.Some? ==>
              var rows, k := Records(lines), LegacyCount(Records(lines));
              && state.value.totalRecords == |rows|
              && state.value.chainStarted == (k < |rows|)
              && (if state.value.chainStarted then state.value.lastChainHash else GENESIS_HASH)
                   == PrevHash(lib, rows, k, |rows|)
  {
    hide IsAuditLog, IsSealed, Reports, TrimmedValue, Records, LegacyCount;
    var result := VerifyAuditData(lib, lines);
    if !result.pass {
      return None;
    }
    var started, last := false, "";
    var n := 0;
    ghost var all, k, m := Records(lines), LegacyCount(Records(lines)), 0;
    while n < |lines|
      invariant n <= |lines|
      invariant m == |Records(lines[..n])| && Records(lines[..n]) <= all
      invariant started == (k < m)
      invariant started ==> last == ChainHash(lib, all[m - 1])
    {
      RecordsNext(lines, n);
      var line := lines[n];
      n := n + 1;
      if line != Blank {
        assert all[m] == line;
        RowOfAuditLog(lib, all, m);
        m := m + 1;
        if Classify(line.fields) == Chained {
          started := true;
          last := TrimmedValue(lib, line.fields, "chain_hash");
        }
      }
    }
    assert lines[..n] == lines;
    return Some(AppendState(result.totalRecords, started, last));
  }

  // An audit entry, with the JSON names and the omitted empties of its struct.
  datatype AuditEntry = AuditEntry(
    id: string,
    accessKey: string,
    protocol: string,
    toolName: string,
    summary: string,
    statement: string,
    datasourceId: string,
    datasourceName: string,
    datasourceType: string,
    target: string,
    status: string,
    message: string,
    riskAttribution: Option<Json>,
    executedAt: string,
    seqNo: int,
    prevHash: string,
    payloadHash: string,
    chainHash: string,
    chainVersion: string)

  function Always(key: string, value: string): (f: Fields)
    ensures f.Keys == {key}
  {
    map[key := String(value)]
  }

  // omitempty
  function NonEmpty(key: string, value: string): (f: Fields)
    ensures f.Keys <= {key}
  {
    if value == "" then map[] else map[key := String(value)]
  }

  const PAYLOAD_FIELDS := {
    "id", "accessKey", "protocol", "toolName", "summary", "statement", "datasourceId", "datasourceName",
    "datasourceType", "target", "status", "message", "riskAttribution", "executedAt"
  }

  lemma PayloadFieldsAreNotChainFields()
    ensures PAYLOAD_FIELDS !! CHAIN_FIELDS
  {
  }

  function MarshalCaller(e: AuditEntry): (f: Fields)
    ensures f.Keys <= PAYLOAD_FIELDS
  {
    Always("id", e.id) + Always("accessKey", e.accessKey) + Always("protocol", e.protocol)
    + Always("toolName", e.toolName) + Always("summary", e.summary)
  }

  function MarshalTarget(e: AuditEntry): (f: Fields)
    ensures f.Keys <= PAYLOAD_FIELDS
  {
    NonEmpty("statement", e.statement) + NonEmpty("datasourceId", e.datasourceId)
    + NonEmpty("datasourceName", e.datasourceName) + NonEmpty("datasourceType", e.datasourceType)
    + NonEmpty("target", e.target)
  }

  function MarshalOutcome(e: AuditEntry): (f: Fields)
    ensures f.Keys <= PAYLOAD_FIELDS
  {
    Always("status", e.status) + NonEmpty("message", e.message)
    + (if e.riskAttribution.Some? then map["riskAttribution" := e.riskAttribution.value] else map[])
    + Always("executedAt", e.executedAt)
  }

  function MarshalPayload(e: AuditEntry): (f: Fields)
    ensures f.Keys <= PAYLOAD_FIELDS
  {
    MarshalCaller(e) + MarshalTarget(e) + MarshalOutcome(e)
  }

  function MarshalChain(e: AuditEntry): (f: Fields)
    ensures f.Keys <= CHAIN_FIELDS
  {
    (if e.seqNo == 0 then map[] else map["seq" := Number(FormatInt(e.seqNo))])
    + NonEmpty("prev_hash", e.prevHash) + NonEmpty("payload_hash", e.payloadHash)
    + NonEmpty("chain_hash", e.chainHash) + NonEmpty("chain_version", e.chainVersion)
  }

  // json.Marshal of an entry, as the fields it decodes to.
  function Marshal(e: AuditEntry): Fields {
    MarshalPayload(e) + MarshalChain(e)
  }

  lemma StripUnion(payload: Fields, chain: Fields)
    requires payload.Keys !! CHAIN_FIELDS && chain.Keys <= CHAIN_FIELDS
    ensures Payload(payload + chain) == payload
  {
  }

  // Whatever chain fields an entry carries, stripping them leaves its payload.
  lemma StrippedIsPayload(e: AuditEntry)
    ensures Payload(Marshal(e)) == MarshalPayload(e)
    ensures MarshalPayload(e).Keys !! CHAIN_FIELDS
  {
    hide MarshalPayload, MarshalChain;
    PayloadFieldsAreNotChainFields();
    StripUnion(MarshalPayload(e), MarshalChain(e));
  }

  // addHashChain
  function AddHashChain(lib: Library, entry: AuditEntry, seqNo: int, prevHash: string): Option<AuditEntry> {
    if seqNo <= 0 then None
    else
      var trimmed := Text.TrimSpace(prevHash);
      var linked := entry.(
        seqNo := seqNo,
        prevHash := if trimmed == "" then GENESIS_HASH else trimmed,
        chainVersion := CHAIN_VERSION,
        payloadHash := "",
        chainHash := "");
      var hashed := linked.(payloadHash := lib.digest(Payload(Marshal(linked))));
      Some(hashed.(chainHash :=
        lib.digest(ChainInput(hashed.seqNo, hashed.prevHash, hashed.payloadHash, hashed.chainVersion))))
  }

  lemma MarshalledChainFields(e: AuditEntry)
    requires e.seqNo != 0 && e.prevHash != "" && e.payloadHash != "" && e.chainHash != ""
    requires e.chainVersion != ""
    ensures var f := MarshalChain(e);
            && f.Keys == CHAIN_FIELDS
            && f["seq"] == Number(FormatInt(e.seqNo))
            && f["prev_hash"] == String(e.prevHash)
            && f["payload_hash"] == String(e.payloadHash)
            && f["chain_hash"] == String(e.chainHash)
            && f["chain_version"] == String(e.chainVersion)
  {
    hide FormatInt;
  }

  lemma TextReadBack(lib: Library, payload: Fields, chain: Fields, key: string, value: string)
    requires key in chain && chain[key] == String(value) && Text.Trimmed(value)
    ensures TrimmedValue(lib, payload + chain, key) == value
  {
  }

  lemma AllChainFieldsIsChained(payload: Fields, chain: Fields)
    requires chain.Keys == CHAIN_FIELDS
    ensures Classify(payload + chain) == Chained
  {
    assert (payload + chain).Keys * CHAIN_FIELDS == CHAIN_FIELDS;
  }

  lemma NumberReadBack(payload: Fields, chain: Fields, key: string, text: string)
    requires key in chain && chain[key] == Number(text)
    ensures IntValue(payload + chain, key) == ParseInt64(text)
  {
    hide ParseInt64;
  }

  lemma MarshalIs(e: AuditEntry)
    ensures Marshal(e) == MarshalPayload(e) + MarshalChain(e)
    ensures Text.Trimmed(CHAIN_VERSION) && CHAIN_VERSION != ""
  {
    hide MarshalPayload, MarshalChain;
  }

  lemma ReadBack(lib: Library, e: AuditEntry)
    requires 0 < e.seqNo <= INT64_MAX && e.chainVersion == CHAIN_VERSION
    requires IsHexDigest(e.prevHash) && IsHexDigest(e.payloadHash) && IsHexDigest(e.chainHash)
    ensures var f := Marshal(e);
            && Classify(f) == Chained
            && IntValue(f, "seq") == Some(e.seqNo)
            && TrimmedValue(lib, f, "prev_hash") == e.prevHash
            && TrimmedValue(lib, f, "payload_hash") == e.payloadHash
            && TrimmedValue(lib, f, "chain_hash") == e.chainHash
            && TrimmedValue(lib, f, "chain_version") == CHAIN_VERSION
  {
    hide MarshalPayload, MarshalChain, Marshal, FormatInt, ParseInt64, TrimmedValue, IsHexDigest, Classify, IntValue,
      Text.TrimSpace, Text.Trimmed;
    MarshalIs(e);
    DigestIsTrimmed(e.prevHash);
    DigestIsTrimmed(e.payloadHash);
    DigestIsTrimmed(e.chainHash);
    MarshalledChainFields(e);
    ParseFormat(e.seqNo);
    var payload, chain := MarshalPayload(e), MarshalChain(e);
    AllChainFieldsIsChained(payload, chain);
    NumberReadBack(payload, chain, "seq", FormatInt(e.seqNo));
    TextReadBack(lib, payload, chain, "prev_hash", e.prevHash);
    TextReadBack(lib, payload, chain, "payload_hash", e.payloadHash);
    TextReadBack(lib, payload, chain, "chain_hash", e.chainHash);
    TextReadBack(lib, payload, chain, "chain_version", e.chainVersion);
  }

  // Sealing an entry yields a row that verifies at that position over that
  // previous hash: the payload hash taken before sealing is the hash of the
  // stored row stripped of its chain fields.
  lemma SealedRowVerifies(lib: Library, entry: AuditEntry, seqNo: int, prevHash: string)
    requires 0 < seqNo <= INT64_MAX && IsHexDigest(prevHash)
    ensures var sealed := AddHashChain(lib, entry, seqNo, prevHash);
            && sealed.Some?
            && IsSealed(lib, Row(Marshal(sealed.value)), seqNo, prevHash)
            && Payload(Marshal(sealed.value)) == MarshalPayload(entry)
            && IsHexDigest(ChainHash(lib, Row(Marshal(sealed.value))))
  {
    hide MarshalCaller, MarshalTarget, MarshalOutcome, MarshalChain, Marshal, Payload, Classify,
      IntValue, TrimmedValue, ChainInput;
    DigestIsTrimmed(prevHash);
    var sealed := AddHashChain(lib, entry, seqNo, prevHash).value;
    var linked := sealed.(payloadHash := "", chainHash := "");
    StrippedIsPayload(linked);
    StrippedIsPayload(sealed);
    assert MarshalPayload(linked) == MarshalPayload(sealed) == MarshalPayload(entry) by {
      SamePayload(linked, sealed);
      SamePayload(sealed, entry);
    }
    ReadBack(lib, sealed);
  }

  lemma SamePayload(a: AuditEntry, b: AuditEntry)
    requires a == b.(seqNo := a.seqNo, prevHash := a.prevHash, payloadHash := a.payloadHash,
                     chainHash := a.chainHash, chainVersion := a.chainVersion)
    ensures MarshalPayload(a) == MarshalPayload(b)
  {
  }

  // The row Append stores for an entry over a log of these rows, and the line
  // it becomes in the file.
  function SealNext(lib: Library, rows: seq<Line>, entry: AuditEntry): Option<AuditEntry> {
    AddHashChain(lib, entry, |rows| + 1, PrevHash(lib, rows, LegacyCount(rows), |rows|))
  }

  function StoredLine(lib: Library, fields: Fields): Line {
    if lib.Scans(fields) then Row(fields) else TooLong
  }

  lemma LastHashIsDigest(lib: Library, rows: seq<Line>)
    requires IsAuditLog(lib, rows)
    ensures IsHexDigest(PrevHash(lib, rows, LegacyCount(rows), |rows|))
  {
    GenesisIsDigest();
    var k := LegacyCount(rows);
    if k < |rows| {
      assert IsSealed(lib, rows[|rows| - 1], |rows|, PrevHash(lib, rows, k, |rows| - 1));
    }
  }

  predicate Fits(lib: Library, rows: seq<Line>, entry: AuditEntry) {
    var sealed := SealNext(lib, rows, entry);
    sealed.Some? && lib.Scans(Marshal(sealed.value))
  }

  // The records after one Append: unchanged when the log does not verify.
  function AppendRow(lib: Library, rows: seq<Line>, entry: AuditEntry): seq<Line> {
    var sealed := SealNext(lib, rows, entry);
    if !IsAuditLog(lib, rows) || sealed == None then rows
    else rows + [StoredLine(lib, Marshal(sealed.value))]
  }

  // One append to a log that verifies: the result verifies exactly when the
  // stored row stays within the scanner's line limit (Append itself never checks
  // it), and then there is one more chained row and no other change.
  lemma AppendKeepsLog(lib: Library, rows: seq<Line>, entry: AuditEntry)
    requires IsAuditLog(lib, rows) && |rows| < INT64_MAX
    ensures var more := AppendRow(lib, rows, entry);
            && |more| == |rows| + 1 && rows <= more
            && LegacyCount(more) == LegacyCount(rows)
            && (IsAuditLog(lib, more) <==> Fits(lib, rows, entry))
            && (Fits(lib, rows, entry) ==> Holds(more[|rows|], entry))
  {
    hide IsAuditLog, IsSealed, LegacyCount, Marshal, MarshalPayload, Classify, PrevHash, Payload, AddHashChain;
    LastHashIsDigest(lib, rows);
    SealedRowVerifies(lib, entry, |rows| + 1, PrevHash(lib, rows, LegacyCount(rows), |rows|));
    var sealed := SealNext(lib, rows, entry).value;
    var line := StoredLine(lib, Marshal(sealed));
    ExtendAuditLog(lib, rows, line);
    ExtendsByKind(lib, rows, line);
    SealedIsChained(lib, Row(Marshal(sealed)), |rows| + 1, PrevHash(lib, rows, LegacyCount(rows), |rows|));
  }

  lemma SealedIsChained(lib: Library, line: Line, position: nat, prevHash: string)
    requires IsSealed(lib, line, position, prevHash)
    ensures line.Row? && Classify(line.fields) == Chained
  {
  }

  // A marshalled row is at least as long as the statement in it.
  ghost predicate CountsStatement(lib: Library) {
    forall f: Fields, text: string :: Carries(f, "statement", String(text)) ==> |text| <= lib.size(f)
  }

  // An entry whose statement alone fills the scanner's buffer: over any log that
  // verifies the append goes through, and the log no longer verifies.
  lemma OversizedAppendBreaksLog(lib: Library, rows: seq<Line>, entry: AuditEntry)
    requires IsAuditLog(lib, rows) && |rows| < INT64_MAX
    requires CountsStatement(lib) && |entry.statement| >= lib.buffer
    ensures !Fits(lib, rows, entry)
    ensures AppendRow(lib, rows, entry) == rows + [TooLong] && !IsAuditLog(lib, rows + [TooLong])
  {
    hide *;
    AppendKeepsLog(lib, rows, entry);
    StatementTooLong(lib, rows, entry);
  }

  lemma StatementTooLong(lib: Library, rows: seq<Line>, entry: AuditEntry)
    requires CountsStatement(lib) && |entry.statement| >= lib.buffer && IsAuditLog(lib, rows)
    requires |AppendRow(lib, rows, entry)| == |rows| + 1
    ensures !Fits(lib, rows, entry) && AppendRow(lib, rows, entry) == rows + [TooLong]
  {
    hide IsAuditLog, PrevHash, LegacyCount, Marshal, AddHashChain, CountsStatement;
    var sealed := SealNext(lib, rows, entry).value;
    SealedStatement(lib, rows, entry);
    TooLongRow(lib, sealed);
  }

  lemma SealedStatement(lib: Library, rows: seq<Line>, entry: AuditEntry)
    ensures var sealed := SealNext(lib, rows, entry); sealed.Some? ==> sealed.value.statement == entry.statement
  {
    hide PrevHash, LegacyCount, Marshal, Payload, ChainInput;
  }

  lemma TooLongRow(lib: Library, sealed: AuditEntry)
    requires CountsStatement(lib) && |sealed.statement| >= lib.buffer
    ensures !lib.Scans(Marshal(sealed))
  {
    hide Marshal;
    if sealed.statement != "" {
      StatementMarshalled(sealed);
    }
  }

  // The key is in the union as the first map has it.
  predicate Carries(f: Fields, key: string, value: Json) {
    key in f && f[key] == value
  }

  lemma CarriedOn(f: Fields, g: Fields, key: string, value: Json)
    requires Carries(f, key, value) && key !in g
    ensures Carries(f + g, key, value)
  {
  }

  lemma CarriedOver(f: Fields, g: Fields, key: string, value: Json)
    requires Carries(g, key, value)
    ensures Carries(f + g, key, value)
  {
  }

  lemma StatementMarshalled(e: AuditEntry)
    requires e.statement != ""
    ensures Carries(Marshal(e), "statement", String(e.statement))
  {
    hide Carries, MarshalCaller, MarshalTarget, MarshalOutcome, MarshalChain;
    var value := String(e.statement);
    StatementInTarget(e);
    StatementNotInOutcome(e);
    CarriedOver(MarshalCaller(e), MarshalTarget(e), "statement", value);
    CarriedOn(MarshalCaller(e) + MarshalTarget(e), MarshalOutcome(e), "statement", value);
    CarriedOn(MarshalPayload(e), MarshalChain(e), "statement", value);
  }

  lemma StatementInTarget(e: AuditEntry)
    requires e.statement != ""
    ensures Carries(MarshalTarget(e), "statement", String(e.statement))
  {
    var value := String(e.statement);
    assert Carries(NonEmpty("statement", e.statement), "statement", value);
    hide Carries, NonEmpty;
    var f := NonEmpty("statement", e.statement);
    CarriedOn(f, NonEmpty("datasourceId", e.datasourceId), "statement", value);
    f := f + NonEmpty("datasourceId", e.datasourceId);
    CarriedOn(f, NonEmpty("datasourceName", e.datasourceName), "statement", value);
    f := f + NonEmpty("datasourceName", e.datasourceName);
    CarriedOn(f, NonEmpty("datasourceType", e.datasourceType), "statement", value);
    f := f + NonEmpty("datasourceType", e.datasourceType);
    CarriedOn(f, NonEmpty("target", e.target), "statement", value);
  }

  lemma StatementNotInOutcome(e: AuditEntry)
    ensures "statement" !in MarshalOutcome(e)
  {
    hide NonEmpty, Always;
  }

  function AppendAll(lib: Library, rows: seq<Line>, entries: seq<AuditEntry>): seq<Line> {
    if entries == [] then rows
    else AppendRow(lib, AppendAll(lib, rows, entries[..|entries| - 1]), entries[|entries| - 1])
  }

  predicate Holds(line: Line, entry: AuditEntry) {
    line.Row? && Payload(line.fields) == MarshalPayload(entry)
  }

  // The rows, and then one row for each entry in order, holding its payload.
  predicate AddedRows(rows: seq<Line>, final: seq<Line>, entries: seq<AuditEntry>) {
    if entries == [] then final == rows
    else
      && final != []
      && Holds(final[|final| - 1], entries[|entries| - 1])
      && AddedRows(rows, final[..|final| - 1], entries[..|entries| - 1])
  }

  // Each stored row of the run fitted when its turn came.
  predicate AllFit(lib: Library, rows: seq<Line>, entries: seq<AuditEntry>) {
    entries == [] ||
    var most := entries[..|entries| - 1];
    AllFit(lib, rows, most) && Fits(lib, AppendAll(lib, rows, most), entries[|entries| - 1])
  }

  // Every run of appends over a log that verifies (an empty or legacy-only file
  // is one): what was there is never touched, and the log still verifies exactly
  // when every stored row fitted; then each entry has added one chained row
  // holding its payload.
  lemma {:induction false} RunOfAppends(lib: Library, rows: seq<Line>, entries: seq<AuditEntry>)
    requires IsAuditLog(lib, rows) && |rows| + |entries| <= INT64_MAX
    ensures var final := AppendAll(lib, rows, entries);
            && rows <= final && |final| <= |rows| + |entries|
            && (IsAuditLog(lib, final) ==> AddedRows(rows, final, entries) && LegacyCount(final) == LegacyCount(rows))
            && (IsAuditLog(lib, final) <==> AllFit(lib, rows, entries))
  {
    hide IsAuditLog, LegacyCount, Fits, AppendRow, Holds;
    if entries != [] {
      var most, entry := entries[..|entries| - 1], entries[|entries| - 1];
      RunOfAppends(lib, rows, most);
      var before := AppendAll(lib, rows, most);
      if IsAuditLog(lib, before) {
        AppendKeepsLog(lib, before, entry);
        if Fits(lib, before, entry) {
          assert AppendRow(lib, before, entry)[..|before|] == before;
        }
      } else {
        AppendRefused(lib, before, entry);
      }
    }
  }

  lemma AppendRefused(lib: Library, rows: seq<Line>, entry: AuditEntry)
    requires !IsAuditLog(lib, rows)
    ensures AppendRow(lib, rows, entry) == rows
  {
    hide IsAuditLog, SealNext;
  }

  // ---------------------------------------------------------------- the store

  datatype AppendOutcome = Stored | ChainBroken | SealFailed

  // The store over one file. Ids and times that the entry leaves blank come from
  // the caller, who stands for the clock.
  class AuditStore {
    var lines: seq<Line>

    constructor (lines: seq<Line>)
      ensures this.lines == lines
    {
      this.lines := lines;
    }

    method Append(lib: Library, entry: AuditEntry, newId: string, now: string) returns (outcome: AppendOutcome)
      modifies this
      ensures Records(lines) == AppendRow(lib, Records(old(lines)), WithDefaults(entry, newId, now))
      ensures outcome.ChainBroken? <==> !IsAuditLog(lib, Records(old(lines)))
      ensures !outcome.Stored? ==> lines == old(lines)
      ensures old(lines) <= lines
    {
      hide *;
      var complete := WithDefaults(entry, newId, now);
      AppendFacts(lib, Records(lines), complete);
      var state := ScanAuditChainForAppend(lib, lines);
      if state == None {
        return ChainBroken;
      }
      var prevHash := if state.value.chainStarted then state.value.lastChainHash else GENESIS_HASH;
      var sealed := AddHashChain(lib, complete, state.value.totalRecords + 1, prevHash);
      if sealed == None {
        return SealFailed;
      }
      var line := StoredLine(lib, Marshal(sealed.value));
      RecordsSnoc(lines, line);
      lines := lines + [line];
      return Stored;
    }
  }

  // AppendRow in terms of what the scan reports.
  lemma AppendFacts(lib: Library, rows: seq<Line>, entry: AuditEntry)
    ensures var prevHash := PrevHash(lib, rows, LegacyCount(rows), |rows|);
            var sealed := AddHashChain(lib, entry, |rows| + 1, prevHash);
            AppendRow(lib, rows, entry) ==
            if !IsAuditLog(lib, rows) || sealed == None then rows
            else rows + [StoredLine(lib, Marshal(sealed.value))]
    ensures forall f :: StoredLine(lib, f) != Blank
  {
    hide IsAuditLog, LegacyCount, Marshal, PrevHash, AddHashChain;
  }

  lemma RecordsSnoc(lines: seq<Line>, line: Line)
    requires line != Blank
    ensures Records(lines + [line]) == Records(lines) + [line]
  {
    assert (lines + [line])[..|lines|] == lines;
  }

  function WithDefaults(entry: AuditEntry, newId: string, now: string): AuditEntry {
    var named := if Text.TrimSpace(entry.id) == "" then entry.(id := newId) else entry;
    if Text.TrimSpace(named.executedAt) == "" then named.(executedAt := now) else named
  }
}
