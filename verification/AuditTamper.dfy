// What the audit chain detects: edits that move a record, with no assumption on
// the hash, and every other edit up to an explicit digest collision.
module AuditTamper {
  import opened Decimal
  import opened AuditChain

  // ---------------------------------------------------------------- moved records

  // A chained record verifies at one position only.
  lemma PositionIsFixed(lib: Library, a: seq<Line>, b: seq<Line>, i: nat, j: nat)
    requires IsAuditLog(lib, a) && IsAuditLog(lib, b)
    requires i < |a| && j < |b| && a[i] == b[j] && LegacyCount(a) <= i
    ensures i == j && LegacyCount(b) <= j
  {
    hide LegacyCount, TrimmedValue, ChainInput, Payload, Classify, IntValue;
    RowOfAuditLog(lib, a, i);
    RowOfAuditLog(lib, b, j);
    assert IsSealed(lib, a[i], i + 1, PrevHash(lib, a, LegacyCount(a), i));
    assert IsSealed(lib, b[j], j + 1, PrevHash(lib, b, LegacyCount(b), j));
  }

  function Deleted(rows: seq<Line>, p: nat): seq<Line>
    requires p < |rows|
  {
    rows[..p] + rows[p + 1..]
  }

  function Inserted(rows: seq<Line>, p: nat, line: Line): seq<Line>
    requires p <= |rows|
  {
    rows[..p] + [line] + rows[p..]
  }

  function Swapped(rows: seq<Line>, i: nat, j: nat): seq<Line>
    requires i < |rows| && j < |rows|
  {
    rows[i := rows[j]][j := rows[i]]
  }

  lemma AllLegacy(lib: Library, rows: seq<Line>)
    requires forall i :: 0 <= i < |rows| ==> IsLegacy(rows[i])
    ensures IsAuditLog(lib, rows) && LegacyCount(rows) == |rows|
  {
    hide IsLegacy, IsSealed;
    LegacyCountIs(rows, |rows|);
  }

  lemma LegacyRows(rows: seq<Line>)
    requires LegacyCount(rows) == |rows|
    ensures forall i :: 0 <= i < |rows| ==> IsLegacy(rows[i])
  {
    hide IsLegacy;
  }

  // Deleting a record goes unnoticed exactly when it is the last one, or when
  // nothing in the log is chained.
  lemma DeletionDetected(lib: Library, rows: seq<Line>, p: nat)
    requires IsAuditLog(lib, rows) && p < |rows|
    ensures IsAuditLog(lib, Deleted(rows, p)) <==> p == |rows| - 1 || LegacyCount(rows) == |rows|
  {
    hide IsAuditLog, LegacyCount, IsLegacy;
    var edited := Deleted(rows, p);
    if p == |rows| - 1 {
      PrefixIsAuditLog(lib, rows, p);
      assert edited == rows[..p];
    } else if LegacyCount(rows) == |rows| {
      LegacyRows(rows);
      AllLegacy(lib, edited);
    } else if IsAuditLog(lib, edited) {
      assert edited[|rows| - 2] == rows[|rows| - 1];
      PositionIsFixed(lib, rows, edited, |rows| - 1, |rows| - 2);
    }
  }

  // Inserting a record before the end goes unnoticed exactly when nothing in the
  // log is chained and the new record is not either.
  lemma InsertionDetected(lib: Library, rows: seq<Line>, p: nat, line: Line)
    requires IsAuditLog(lib, rows) && p < |rows|
    ensures IsAuditLog(lib, Inserted(rows, p, line)) <==> LegacyCount(rows) == |rows| && IsLegacy(line)
  {
    hide *;
    if LegacyCount(rows) < |rows| {
      InsertedBeforeChained(lib, rows, p, line);
    } else if IsLegacy(line) {
      InsertedLegacy(lib, rows, p, line);
    } else {
      InsertedAmongLegacy(lib, rows, p, line);
    }
  }

  lemma InsertedBeforeChained(lib: Library, rows: seq<Line>, p: nat, line: Line)
    requires IsAuditLog(lib, rows) && p < |rows| && LegacyCount(rows) < |rows|
    ensures !IsAuditLog(lib, Inserted(rows, p, line))
  {
    hide IsAuditLog, LegacyCount, IsLegacy;
    var edited := Inserted(rows, p, line);
    assert edited[|rows|] == rows[|rows| - 1];
    if IsAuditLog(lib, edited) {
      PositionIsFixed(lib, rows, edited, |rows| - 1, |rows|);
    }
  }

  lemma InsertedLegacy(lib: Library, rows: seq<Line>, p: nat, line: Line)
    requires p < |rows| && LegacyCount(rows) == |rows| && IsLegacy(line)
    ensures IsAuditLog(lib, Inserted(rows, p, line))
  {
    hide IsAuditLog, LegacyCount, IsLegacy;
    LegacyRows(rows);
    AllLegacy(lib, Inserted(rows, p, line));
  }

  lemma InsertedAmongLegacy(lib: Library, rows: seq<Line>, p: nat, line: Line)
    requires p < |rows| && LegacyCount(rows) == |rows| && !IsLegacy(line)
    ensures !IsAuditLog(lib, Inserted(rows, p, line))
  {
    hide IsAuditLog, LegacyCount, IsLegacy;
    var edited := Inserted(rows, p, line);
    LegacyRows(rows);
    LegacyCountIs(edited, p);
    assert edited[p + 1] == rows[p];
    LegacyClassified(rows[p]);
    if IsAuditLog(lib, edited) {
      RowOfAuditLog(lib, edited, p + 1);
    }
  }

  lemma LegacyClassified(line: Line)
    ensures IsLegacy(line) <==> line.Row? && Classify(line.fields) == Legacy
  {
  }

  // Swapping two records goes unnoticed exactly when both are legacy rows.
  lemma SwapDetected(lib: Library, rows: seq<Line>, i: nat, j: nat)
    requires IsAuditLog(lib, rows) && i < j < |rows|
    ensures IsAuditLog(lib, Swapped(rows, i, j)) <==> j < LegacyCount(rows)
  {
    hide IsAuditLog, LegacyCount;
    var edited, k := Swapped(rows, i, j), LegacyCount(rows);
    if j < k {
      SwapLegacy(lib, rows, i, j);
    } else if IsAuditLog(lib, edited) {
      PositionIsFixed(lib, rows, edited, j, i);
    }
  }

  lemma SwapLegacy(lib: Library, rows: seq<Line>, i: nat, j: nat)
    requires IsAuditLog(lib, rows) && i < j < LegacyCount(rows)
    ensures IsAuditLog(lib, Swapped(rows, i, j))
  {
    hide IsLegacy, IsSealed, ChainHash;
    var edited, k := Swapped(rows, i, j), LegacyCount(rows);
    LegacyCountIs(edited, k);
    forall n | k <= n < |edited|
      ensures IsSealed(lib, edited[n], n + 1, PrevHash(lib, edited, k, n))
    {
      assert edited[n] == rows[n];
      assert n > k ==> edited[n - 1] == rows[n - 1];
    }
  }

  // ---------------------------------------------------------------- tamper evidence

  datatype Evidence =
    | Agree
    | Collision(left: Fields, right: Fields)
    | GenesisPreimage(input: Fields)

  // Evidence that the digest has been broken.
  ghost predicate Breaks(lib: Library, e: Evidence) {
    match e
    case Agree => false
    case Collision(left, right) => left != right && lib.digest(left) == lib.digest(right)
    case GenesisPreimage(input) => lib.digest(input) == GENESIS_HASH
  }

  function PayloadAt(rows: seq<Line>, i: nat): Fields
    requires i < |rows|
  {
    if rows[i].Row? then Payload(rows[i].fields) else map[]
  }

  // The digest input of the chain hash of record i, k being the legacy count.
  function InputAt(lib: Library, rows: seq<Line>, k: nat, i: nat): Fields
    requires k <= i < |rows|
  {
    ChainInput(i + 1, PrevHash(lib, rows, k, i), lib.digest(PayloadAt(rows, i)), CHAIN_VERSION)
  }

  lemma SealedRow(lib: Library, line: Line, position: nat, prevHash: string)
    requires IsSealed(lib, line, position, prevHash)
    ensures line.Row? && IsHexDigest(ChainHash(lib, line))
    ensures ChainHash(lib, line)
         == lib.digest(ChainInput(position, prevHash, lib.digest(Payload(line.fields)), CHAIN_VERSION))
  {
    hide TrimmedValue, ChainInput, Payload, Classify, IntValue;
  }

  lemma SealedAt(lib: Library, rows: seq<Line>, i: nat)
    requires IsAuditLog(lib, rows) && LegacyCount(rows) <= i < |rows|
    ensures ChainHash(lib, rows[i]) == lib.digest(InputAt(lib, rows, LegacyCount(rows), i))
    ensures IsHexDigest(PrevHash(lib, rows, LegacyCount(rows), i))
  {
    hide *;
    var k := LegacyCount(rows);
    SealedInLog(lib, rows, i);
    SealedRow(lib, rows[i], i + 1, PrevHash(lib, rows, k, i));
    LinkFacts(lib, rows, k, i);
    if i > k {
      SealedInLog(lib, rows, i - 1);
      SealedRow(lib, rows[i - 1], i, PrevHash(lib, rows, k, i - 1));
    } else {
      GenesisIsDigest();
    }
  }

  lemma SealedInLog(lib: Library, rows: seq<Line>, i: nat)
    requires IsAuditLog(lib, rows) && LegacyCount(rows) <= i < |rows|
    ensures IsSealed(lib, rows[i], i + 1, PrevHash(lib, rows, LegacyCount(rows), i))
  {
    hide LegacyCount, IsSealed, PrevHash;
  }

  lemma LinkFacts(lib: Library, rows: seq<Line>, k: nat, i: nat)
    requires k <= i < |rows| && rows[i].Row?
    ensures PrevHash(lib, rows, k, i) == if i == k then GENESIS_HASH else ChainHash(lib, rows[i - 1])
    ensures InputAt(lib, rows, k, i)
         == ChainInput(i + 1, PrevHash(lib, rows, k, i), lib.digest(Payload(rows[i].fields)), CHAIN_VERSION)
  {
    hide ChainHash, ChainInput, Payload;
  }

  // Walks two chains back from record i of one and record j of the other, and
  // returns what it finds; k and l are the legacy counts.
  function Compare(lib: Library, a: seq<Line>, k: nat, i: nat, b: seq<Line>, l: nat, j: nat): Evidence
    requires k <= i < |a| && l <= j < |b|
    decreases i
  {
    if InputAt(lib, a, k, i) != InputAt(lib, b, l, j)
    then Collision(InputAt(lib, a, k, i), InputAt(lib, b, l, j))
    else if PayloadAt(a, i) != PayloadAt(b, j) then Collision(PayloadAt(a, i), PayloadAt(b, j))
    else if i == k && j == l then Agree
    else if i == k then GenesisPreimage(InputAt(lib, b, l, j - 1))
    else if j == l then GenesisPreimage(InputAt(lib, a, k, i - 1))
    else Compare(lib, a, k, i - 1, b, l, j - 1)
  }

  lemma {:induction false} CompareFindsEvidence(lib: Library, a: seq<Line>, i: nat, b: seq<Line>, j: nat)
    requires IsAuditLog(lib, a) && IsAuditLog(lib, b)
    requires LegacyCount(a) <= i < |a| <= INT64_MAX && LegacyCount(b) <= j < |b| <= INT64_MAX
    requires ChainHash(lib, a[i]) == ChainHash(lib, b[j])
    ensures var e := Compare(lib, a, LegacyCount(a), i, b, LegacyCount(b), j);
            if e.Agree? then
              i == j && LegacyCount(a) == LegacyCount(b)
              && forall n :: LegacyCount(a) <= n <= i ==> PayloadAt(a, n) == PayloadAt(b, n)
            else Breaks(lib, e)
    decreases i
  {
    hide IsAuditLog, LegacyCount, ChainHash, PayloadAt, ChainInput, IsHexDigest;
    var k, l := LegacyCount(a), LegacyCount(b);
    SealedAt(lib, a, i);
    SealedAt(lib, b, j);
    if InputAt(lib, a, k, i) == InputAt(lib, b, l, j) {
      ChainInputInjective(
        i + 1, PrevHash(lib, a, k, i), lib.digest(PayloadAt(a, i)),
        j + 1, PrevHash(lib, b, l, j), lib.digest(PayloadAt(b, j)));
      if j > l {
        SealedAt(lib, b, j - 1);
      }
      if i > k {
        SealedAt(lib, a, i - 1);
        if j > l {
          CompareFindsEvidence(lib, a, i - 1, b, j - 1);
        }
      }
    }
  }

  // Two logs that verify and end in the same chain hash have the same length and
  // the same legacy prefix length and hold the same chained payloads, or the walk
  // back exhibits a digest collision or a preimage of the genesis hash.
  lemma TamperEvidence(lib: Library, a: seq<Line>, b: seq<Line>)
    requires IsAuditLog(lib, a) && LegacyCount(a) < |a| <= INT64_MAX
    requires IsAuditLog(lib, b) && LegacyCount(b) < |b| <= INT64_MAX
    requires ChainHash(lib, a[|a| - 1]) == ChainHash(lib, b[|b| - 1])
    ensures var e := Compare(lib, a, LegacyCount(a), |a| - 1, b, LegacyCount(b), |b| - 1);
            if e.Agree? then
              |a| == |b| && LegacyCount(a) == LegacyCount(b)
              && forall n :: LegacyCount(a) <= n < |a| ==> PayloadAt(a, n) == PayloadAt(b, n)
            else Breaks(lib, e)
  {
    hide *;
    CompareFindsEvidence(lib, a, |a| - 1, b, |b| - 1);
  }

  // Legacy rows carry no evidence: any legacy row may replace any other.
  lemma LegacyRowsAreNotCovered(lib: Library, rows: seq<Line>, p: nat, line: Line)
    requires IsAuditLog(lib, rows) && p < LegacyCount(rows) && IsLegacy(line)
    ensures IsAuditLog(lib, rows[p := line])
  {
    hide IsLegacy, IsSealed, ChainHash;
    var edited, k := rows[p := line], LegacyCount(rows);
    LegacyCountIs(edited, k);
    forall n | k <= n < |edited|
      ensures IsSealed(lib, edited[n], n + 1, PrevHash(lib, edited, k, n))
    {
      assert n > k ==> edited[n - 1] == rows[n - 1];
    }
  }
}
