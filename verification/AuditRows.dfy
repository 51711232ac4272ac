// What makes a line of the audit log legacy, chained or broken, by the names and values
// of its fields (internal/agentaudit/hash_chain.go), and what a stored row holds.
module AuditRows {
  import opened Decimal
  import opened Wrappers
  import opened AuditChain
  import Text

  const SEQ := "seq"
  const PREV := "prev_hash"
  const PAYLOAD := "payload_hash"
  const CHAIN := "chain_hash"
  const VERSION := "chain_version"

  predicate NoChainField(f: Fields) {
    SEQ !in f && PREV !in f && PAYLOAD !in f && CHAIN !in f && VERSION !in f
  }

  predicate AllChainFields(f: Fields) {
    SEQ in f && PREV in f && PAYLOAD in f && CHAIN in f && VERSION in f
  }

  lemma ByFields(f: Fields)
    ensures Classify(f) == Legacy <==> NoChainField(f)
    ensures Classify(f) == Chained <==> AllChainFields(f)
    ensures Classify(f) == Partial <==> !NoChainField(f) && !AllChainFields(f)
  {
    var present := f.Keys * CHAIN_FIELDS;
    assert present == {} ==> NoChainField(f) by {
      assert forall k :: k in CHAIN_FIELDS && k in f ==> k in present;
    }
    assert AllChainFields(f) ==> present == CHAIN_FIELDS;
  }

  // ---------------------------------------------------------------- kinds of lines

  // A log of rows without any of the five fields verifies, all of it legacy.
  lemma PlainRowsVerify(lib: Library, rows: seq<Line>)
    requires forall i :: 0 <= i < |rows| ==> rows[i].Row? && NoChainField(rows[i].fields)
    ensures IsAuditLog(lib, rows) && LegacyCount(rows) == |rows|
  {
    hide Classify, NoChainField, LegacyCount;
    forall i | 0 <= i < |rows|
      ensures IsLegacy(rows[i])
    {
      ByFields(rows[i].fields);
    }
    LegacyCountIs(rows, |rows|);
  }

  // The verifier stops at the first line that does not extend the log before it.
  lemma StopsAt(lib: Library, rows: seq<Line>, line: Line, tail: seq<Line>, result: VerifyResult)
    requires IsAuditLog(lib, rows) && !IsAuditLog(lib, rows + [line])
    requires Reports(lib, rows + [line] + tail, result)
    ensures result.firstBrokenPosition == |rows| + 1
    ensures Rejected(result.reason, result.expectedHash, result.actualHash) == Complaint(lib, rows, line)
    ensures result.legacyRecords == LegacyCount(rows) && result.verifiedRecords == |rows| - LegacyCount(rows)
    ensures result.totalRecords == |rows| + if line == TooLong then 0 else 1
  {
    hide IsAuditLog, LegacyCount, Complaint;
    Cut(rows, line, tail);
    FirstBreak(lib, rows + [line] + tail, |rows|, result.firstBrokenPosition);
  }

  lemma Cut(rows: seq<Line>, line: Line, tail: seq<Line>)
    ensures var all, n := rows + [line] + tail, |rows|;
            n < |all| && all[..n] == rows && all[..n + 1] == rows + [line] && all[n] == line
  {
    hide *;
  }

  // There is one first break only.
  lemma FirstBreak(lib: Library, all: seq<Line>, n: nat, p: nat)
    requires n < |all| && IsAuditLog(lib, all[..n]) && !IsAuditLog(lib, all[..n + 1])
    requires 1 <= p <= |all| && IsAuditLog(lib, all[..p - 1]) && !IsAuditLog(lib, all[..p])
    ensures p == n + 1
  {
    hide IsAuditLog;
    if p <= n {
      ShorterLog(lib, all, n, p);
    } else {
      ShorterLog(lib, all, p - 1, if n + 1 <= p - 1 then n + 1 else 0);
    }
  }

  lemma ShorterLog(lib: Library, all: seq<Line>, n: nat, p: nat)
    requires p <= n <= |all| && IsAuditLog(lib, all[..n])
    ensures IsAuditLog(lib, all[..p])
  {
    hide IsAuditLog;
    assert all[..n][..p] == all[..p];
    PrefixIsAuditLog(lib, all[..n], p);
  }

  // The verdict on a line that no log can go on with.
  ghost predicate Breaks(lib: Library, rows: seq<Line>, line: Line, verdict: Verdict) {
    !IsAuditLog(lib, rows + [line]) && Complaint(lib, rows, line) == verdict
  }

  // A row with some of the five fields and not all.
  lemma PartialRowBreaks(lib: Library, rows: seq<Line>, f: Fields)
    requires IsAuditLog(lib, rows) && !NoChainField(f) && !AllChainFields(f)
    ensures Breaks(lib, rows, Row(f), Rejected(IncompleteChainFields, "", ""))
  {
    hide IsAuditLog, Classify, NoChainField, AllChainFields;
    ByFields(f);
    ExtendAuditLog(lib, rows, Row(f));
    ExtendsByKind(lib, rows, Row(f));
    ComplaintByKind(lib, rows, Row(f));
  }

  // A row without the five fields, after one that has them, or anywhere before.
  lemma PlainRowBreaksIff(lib: Library, rows: seq<Line>, f: Fields)
    requires IsAuditLog(lib, rows) && NoChainField(f)
    ensures var started := exists i :: 0 <= i < |rows| && rows[i].Row? && AllChainFields(rows[i].fields);
            && (IsAuditLog(lib, rows + [Row(f)]) <==> !started)
            && (started ==> Breaks(lib, rows, Row(f), Rejected(LegacyAfterChain, "", "")))
  {
    hide IsAuditLog, Classify, NoChainField, AllChainFields, LegacyCount;
    ByFields(f);
    ExtendAuditLog(lib, rows, Row(f));
    ExtendsByKind(lib, rows, Row(f));
    ComplaintByKind(lib, rows, Row(f));
    forall i | 0 <= i < |rows|
      ensures rows[i].Row? && (AllChainFields(rows[i].fields) <==> i >= LegacyCount(rows))
    {
      RowOfAuditLog(lib, rows, i);
      ByFields(rows[i].fields);
    }
    if LegacyCount(rows) < |rows| {
      assert AllChainFields(rows[LegacyCount(rows)].fields);
    }
  }

  lemma OtherLineBreaks(lib: Library, rows: seq<Line>, raw: string)
    requires IsAuditLog(lib, rows)
    ensures Breaks(lib, rows, Malformed(raw), Rejected(InvalidJson, "", ""))
    ensures Breaks(lib, rows, TooLong, Rejected(LineTooLong, "", ""))
  {
    hide IsAuditLog;
    ExtendAuditLog(lib, rows, Malformed(raw));
    ExtendAuditLog(lib, rows, TooLong);
    ExtendsByKind(lib, rows, Malformed(raw));
    ExtendsByKind(lib, rows, TooLong);
  }

  // ---------------------------------------------------------------- broken rows

  // The hash a further row must name: that of the last row, or the genesis hash.
  ghost predicate Expects(lib: Library, rows: seq<Line>, prev: string) {
    prev == PrevHash(lib, rows, LegacyCount(rows), |rows|)
  }

  // Which check a row with all five fields fails first, in the verifier's order.
  lemma ChainedRowBreaks(lib: Library, rows: seq<Line>, f: Fields, prev: string)
    requires IsAuditLog(lib, rows) && AllChainFields(f) && Expects(lib, rows, prev)
    ensures var seqNo, version := IntValue(f, SEQ), TrimmedValue(lib, f, VERSION);
            var named, payload, chain :=
              TrimmedValue(lib, f, PREV), TrimmedValue(lib, f, PAYLOAD), TrimmedValue(lib, f, CHAIN);
            var position, actual := |rows| + 1, lib.digest(f - {SEQ, PREV, PAYLOAD, CHAIN, VERSION});
            var numbered := seqNo == Some(position);
            var versioned := numbered && version == "local-sha256-v1";
            var linked := versioned && named == prev;
            var expected := lib.digest(
              map[
                "seq" := Number(FormatInt(position)),
                "prev_hash" := String(Text.TrimSpace(prev)),
                "payload_hash" := String(Text.TrimSpace(actual)),
                "chain_version" := String("local-sha256-v1")]);
            && (seqNo == None || seqNo.value <= 0 ==> Breaks(lib, rows, Row(f), Rejected(InvalidSequence, "", "")))
            && (seqNo.Some? && seqNo.value > 0 && !numbered ==>
                  Breaks(lib, rows, Row(f), Rejected(UnexpectedSequence, "", "")))
            && (numbered && !versioned ==> Breaks(lib, rows, Row(f), Rejected(UnsupportedVersion, "", "")))
            && (versioned && !linked ==> Breaks(lib, rows, Row(f), Rejected(PreviousHashMismatch, prev, named)))
            && (linked && payload != actual ==>
                  Breaks(lib, rows, Row(f), Rejected(PayloadHashMismatch, actual, payload)))
            && (linked && payload == actual && chain != expected ==>
                  Breaks(lib, rows, Row(f), Rejected(ChainHashMismatch, expected, chain)))
            && (linked && payload == actual && chain == expected ==> IsAuditLog(lib, rows + [Row(f)]))
  {
    hide IsAuditLog, Classify, AllChainFields, LegacyCount, PrevHash, TrimmedValue, IntValue, ChainInput, FormatInt,
      Text.TrimSpace;
    ByFields(f);
    ExtendAuditLog(lib, rows, Row(f));
    ExtendsByKind(lib, rows, Row(f));
    ComplaintByKind(lib, rows, Row(f));
    HashedObject(|rows| + 1, prev, lib.digest(Payload(f)));
    PayloadOf(f);
  }

  lemma PayloadOf(f: Fields)
    ensures Payload(f) == f - {SEQ, PREV, PAYLOAD, CHAIN, VERSION}
  {
    assert CHAIN_FIELDS == {SEQ, PREV, PAYLOAD, CHAIN, VERSION};
  }

  // The object whose digest is the chain hash.
  lemma HashedObject(n: int, prev: string, payload: string)
    ensures ChainInput(n, prev, payload, CHAIN_VERSION) ==
            map[
              "seq" := Number(FormatInt(n)),
              "prev_hash" := String(Text.TrimSpace(prev)),
              "payload_hash" := String(Text.TrimSpace(payload)),
              "chain_version" := String("local-sha256-v1")]
    ensures CHAIN_VERSION == "local-sha256-v1"
  {
    hide FormatInt, Text.TrimSpace;
    TextIsTrimmed("local-sha256-v1");
  }

  lemma TextIsTrimmed(s: string)
    requires Text.Trimmed(s)
    ensures Text.TrimSpace(s) == s
  {
  }

  // ---------------------------------------------------------------- forms of a value

  // White space around a text is ignored, a number stands for its digits, and null for
  // the empty text, like a field that is not there; only numbers and texts are integers.
  lemma ValueForms(lib: Library, f: Fields, key: string, text: string, pad: string)
    requires Text.TrimSpace(pad) == Text.TrimSpace(text)
    ensures TrimmedValue(lib, f[key := String(pad)], key) == Text.TrimSpace(text)
    ensures TrimmedValue(lib, f[key := Number(pad)], key) == Text.TrimSpace(text)
    ensures TrimmedValue(lib, f[key := Null], key) == TrimmedValue(lib, f - {key}, key) == ""
    ensures forall v: Json :: v.Bool? || v.Array? || v.Object? ==>
              TrimmedValue(lib, f[key := v], key) == Text.TrimSpace(lib.sprint(v)) && IntValue(f[key := v], key) == None
    ensures IntValue(f[key := String(pad)], key) == ParseInt64(Text.TrimSpace(text))
    ensures IntValue(f[key := Number(text)], key) == ParseInt64(text)
    ensures IntValue(f[key := Null], key) == IntValue(f - {key}, key) == None
  {
    hide Text.TrimSpace, ParseInt64;
    NothingToTrim();
  }

  lemma NothingToTrim()
    ensures Text.TrimSpace("") == ""
  {
  }

  // ---------------------------------------------------------------- what is stored

  // omitempty: the key is there exactly when there is a value.
  predicate Omittable(f: Fields, key: string, value: string) {
    if value == "" then key !in f else key in f && f[key] == String(value)
  }

  predicate Present(f: Fields, key: string, value: string) {
    key in f && f[key] == String(value)
  }

  // The one map has the key as the other has it.
  predicate SameAt(f: Fields, g: Fields, key: string) {
    (key in f <==> key in g) && (key in f && key in g ==> f[key] == g[key])
  }

  lemma AtUnion(f: Fields, g: Fields, h: Fields, key: string)
    ensures key !in g && key !in h ==> SameAt(f + g + h, f, key)
    ensures key !in f && key !in h ==> SameAt(f + g + h, g, key)
    ensures key !in f && key !in g ==> SameAt(f + g + h, h, key)
  {
  }

  lemma StoredAs(f: Fields, g: Fields, key: string, value: string)
    requires SameAt(f, g, key)
    ensures Present(f, key, value) <==> Present(g, key, value)
    ensures Omittable(f, key, value) <==> Omittable(g, key, value)
  {
  }

  const CALLER := {"id", "accessKey", "protocol", "toolName", "summary"}
  const TARGET := {"statement", "datasourceId", "datasourceName", "datasourceType", "target"}
  const OUTCOME := {"status", "message", "riskAttribution", "executedAt"}

  lemma ThreeParts(e: AuditEntry)
    ensures MarshalCaller(e).Keys <= CALLER && MarshalTarget(e).Keys <= TARGET && MarshalOutcome(e).Keys <= OUTCOME
  {
    hide MarshalCaller, MarshalTarget, MarshalOutcome, CALLER, TARGET, OUTCOME;
    CallerKeys(e);
    TargetKeys(e);
    OutcomeKeys(e);
  }

  lemma CallerKeys(e: AuditEntry)
    ensures MarshalCaller(e).Keys <= CALLER
  {
    hide Always;
  }

  lemma TargetKeys(e: AuditEntry)
    ensures MarshalTarget(e).Keys <= TARGET
  {
    hide NonEmpty;
  }

  lemma OutcomeKeys(e: AuditEntry)
    ensures MarshalOutcome(e).Keys <= OUTCOME
  {
    hide NonEmpty, Always;
  }

  lemma PartsApart()
    ensures CALLER !! TARGET && CALLER !! OUTCOME && TARGET !! OUTCOME
  {
  }

  lemma PartOf(e: AuditEntry, key: string)
    ensures key in CALLER ==> SameAt(MarshalPayload(e), MarshalCaller(e), key)
    ensures key in TARGET ==> SameAt(MarshalPayload(e), MarshalTarget(e), key)
    ensures key in OUTCOME ==> SameAt(MarshalPayload(e), MarshalOutcome(e), key)
  {
    hide MarshalCaller, MarshalTarget, MarshalOutcome, SameAt, CALLER, TARGET, OUTCOME;
    ThreeParts(e);
    PartsApart();
    AtUnion(MarshalCaller(e), MarshalTarget(e), MarshalOutcome(e), key);
  }

  lemma CallerPart(e: AuditEntry)
    ensures var f := MarshalCaller(e);
            && Present(f, "id", e.id) && Present(f, "accessKey", e.accessKey) && Present(f, "protocol", e.protocol)
            && Present(f, "toolName", e.toolName) && Present(f, "summary", e.summary)
  {
  }

  lemma TargetPart(e: AuditEntry)
    ensures var f := MarshalTarget(e);
            && Omittable(f, "statement", e.statement) && Omittable(f, "datasourceId", e.datasourceId)
            && Omittable(f, "datasourceName", e.datasourceName) && Omittable(f, "datasourceType", e.datasourceType)
            && Omittable(f, "target", e.target)
  {
  }

  lemma OutcomePart(e: AuditEntry)
    ensures var f := MarshalOutcome(e);
            && Present(f, "status", e.status) && Omittable(f, "message", e.message)
            && Present(f, "executedAt", e.executedAt)
            && (if e.riskAttribution.Some?
                then "riskAttribution" in f && f["riskAttribution"] == e.riskAttribution.value
                else "riskAttribution" !in f)
  {
  }

  // The names under which an entry's values are stored.
  lemma CallerStored(e: AuditEntry)
    ensures var f := MarshalPayload(e);
            && Present(f, "id", e.id) && Present(f, "accessKey", e.accessKey) && Present(f, "protocol", e.protocol)
            && Present(f, "toolName", e.toolName) && Present(f, "summary", e.summary)
  {
    hide MarshalPayload, MarshalCaller, SameAt, Present;
    CallerPart(e);
    forall key, value | key in CALLER
      ensures Present(MarshalPayload(e), key, value) <==> Present(MarshalCaller(e), key, value)
    {
      PartOf(e, key);
      StoredAs(MarshalPayload(e), MarshalCaller(e), key, value);
    }
  }

  lemma TargetStored(e: AuditEntry)
    ensures var f := MarshalPayload(e);
            && Omittable(f, "statement", e.statement) && Omittable(f, "datasourceId", e.datasourceId)
            && Omittable(f, "datasourceName", e.datasourceName) && Omittable(f, "datasourceType", e.datasourceType)
            && Omittable(f, "target", e.target)
  {
    hide MarshalPayload, MarshalTarget, SameAt, Omittable;
    TargetPart(e);
    forall key, value | key in TARGET
      ensures Omittable(MarshalPayload(e), key, value) <==> Omittable(MarshalTarget(e), key, value)
    {
      PartOf(e, key);
      StoredAs(MarshalPayload(e), MarshalTarget(e), key, value);
    }
  }

  lemma OutcomeStored(e: AuditEntry)
    ensures var f := MarshalPayload(e);
            && Present(f, "status", e.status) && Omittable(f, "message", e.message)
            && Present(f, "executedAt", e.executedAt)
            && (if e.riskAttribution.Some?
                then "riskAttribution" in f && f["riskAttribution"] == e.riskAttribution.value
                else "riskAttribution" !in f)
  {
    hide MarshalPayload, MarshalOutcome, Omittable, Present;
    OutcomePart(e);
    forall key | key in OUTCOME
      ensures SameAt(MarshalPayload(e), MarshalOutcome(e), key)
    {
      PartOf(e, key);
    }
    assert SameAt(MarshalPayload(e), MarshalOutcome(e), "riskAttribution");
    StoredAs(MarshalPayload(e), MarshalOutcome(e), "status", e.status);
    StoredAs(MarshalPayload(e), MarshalOutcome(e), "message", e.message);
    StoredAs(MarshalPayload(e), MarshalOutcome(e), "executedAt", e.executedAt);
  }

  // The chain fields of the row that an append stores.
  lemma ChainStored(lib: Library, rows: seq<Line>, entry: AuditEntry)
    requires IsAuditLog(lib, rows) && |rows| < INT64_MAX && Fits(lib, rows, entry)
    ensures var more := AppendRow(lib, rows, entry);
            && |more| == |rows| + 1 && more[|rows|].Row?
            && var f, prev := more[|rows|].fields, PrevHash(lib, rows, LegacyCount(rows), |rows|);
            && IntValue(f, "seq") == Some(|rows| + 1)
            && TrimmedValue(lib, f, "prev_hash") == prev
            && TrimmedValue(lib, f, "chain_version") == "local-sha256-v1"
            && TrimmedValue(lib, f, "payload_hash") == lib.digest(MarshalPayload(entry))
  {
    hide Marshal, AddHashChain, LegacyCount, PrevHash, IsAuditLog, IntValue, TrimmedValue, Classify, ChainInput,
      Payload, MarshalPayload;
    LastHashIsDigest(lib, rows);
    SealedRowVerifies(lib, entry, |rows| + 1, PrevHash(lib, rows, LegacyCount(rows), |rows|));
  }

  // A chain that starts links to 64 zeros.
  lemma ChainStarts(lib: Library, rows: seq<Line>)
    requires forall i :: 0 <= i < |rows| ==> rows[i].Row? && NoChainField(rows[i].fields)
    ensures Expects(lib, rows, GENESIS_HASH)
    ensures |GENESIS_HASH| == 64 && forall i :: 0 <= i < 64 ==> GENESIS_HASH[i] == '0'
  {
    PlainRowsVerify(lib, rows);
  }

  // A blank id or time is filled in, everything else stays.
  lemma DefaultsFilled(entry: AuditEntry, newId: string, now: string)
    ensures WithDefaults(entry, newId, now) ==
            entry.(id := if Text.TrimSpace(entry.id) != "" then entry.id else newId,
                   executedAt := if Text.TrimSpace(entry.executedAt) != "" then entry.executedAt else now)
  {
    hide Text.TrimSpace;
  }
}
