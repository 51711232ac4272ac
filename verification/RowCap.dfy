// capRowsByJSONBytes (internal/aichat/result_analysis.go): as many leading rows as fit
// a byte limit once encoded as a JSON array.
module RowCap {
  import opened Wrappers

  // The length of a row's encoding, unless it cannot be encoded.
  type Encoder<!Row> = Row -> Option<nat>

  // The encoded array of the first n rows: brackets, rows and the commas between them.
  function Size<Row>(encode: Encoder<Row>, rows: seq<Row>, n: nat): Option<nat>
    requires n <= |rows|
  {
    if n == 0 then Some(2)
    else
      match (Size(encode, rows, n - 1), encode(rows[n - 1]))
      case (Some(before), Some(row)) => Some(before + row + if n == 1 then 0 else 1)
      case _ => None
  }

  predicate Fits<Row>(encode: Encoder<Row>, rows: seq<Row>, max: int, n: nat)
    requires n <= |rows|
  {
    Size(encode, rows, n).Some? && Size(encode, rows, n).value <= max
  }

  // Fewer rows of a list that fits fit as well.
  lemma {:induction false} FewerFit<Row>(encode: Encoder<Row>, rows: seq<Row>, max: int, m: nat, n: nat)
    requires m <= n <= |rows| && Fits(encode, rows, max, n)
    ensures Fits(encode, rows, max, m)
    decreases n - m
  {
    if m < n {
      FewerFit(encode, rows, max, m, n - 1);
    }
  }

  // The longest fitting prefix of at least one row, found by going through the
  // prefixes one by one; one row when none fits.
  function LongestFit<Row>(encode: Encoder<Row>, rows: seq<Row>, max: int, n: nat): (r: nat)
    requires 1 <= n <= |rows|
    ensures 1 <= r <= n
    ensures r > 1 ==> Fits(encode, rows, max, r)
    ensures forall k :: r < k <= n ==> !Fits(encode, rows, max, k)
  {
    if n == 1 || Fits(encode, rows, max, n) then n else LongestFit(encode, rows, max, n - 1)
  }

  // The size of a prefix decides alone: a prefix that fits while the next one does not
  // is the longest.
  lemma BoundaryIsLongest<Row>(encode: Encoder<Row>, rows: seq<Row>, max: int, best: nat)
    requires 1 <= best <= |rows|
    requires best > 1 ==> Fits(encode, rows, max, best)
    requires best < |rows| ==> !Fits(encode, rows, max, best + 1)
    ensures LongestFit(encode, rows, max, |rows|) == best
  {
    hide Fits, LongestFit;
    var longest := LongestFit(encode, rows, max, |rows|);
    if longest > best {
      FewerFit(encode, rows, max, best + 1, longest);
    }
  }

  method CapRows<Row>(encode: Encoder<Row>, rows: seq<Row>, maxBytes: int)
    returns (kept: seq<Row>, bytes: nat, truncated: bool)
    ensures maxBytes <= 0 ==> kept == [] && bytes == 0 && truncated == (rows != [])
    ensures maxBytes > 0 && rows == [] ==> kept == [] && bytes == 0 && !truncated
    ensures maxBytes > 0 && rows != [] ==>
              && kept == rows[..LongestFit(encode, rows, maxBytes, |rows|)]
              && (truncated <==> !Fits(encode, rows, maxBytes, |rows|))
              && match Size(encode, rows, |kept|) { case Some(n) => bytes == n case None => bytes == 0 }
  {
    hide Fits, LongestFit, Size;
    if maxBytes <= 0 {
      return [], 0, |rows| > 0;
    }
    if |rows| == 0 {
      return rows, 0, false;
    }
    FitsIs(encode, rows, maxBytes, |rows|);
    var encoded := Size(encode, rows, |rows|);
    if encoded.Some? && encoded.value <= maxBytes {
      BoundaryIsLongest(encode, rows, maxBytes, |rows|);
      assert rows[..|rows|] == rows;
      return rows, encoded.value, false;
    }
    var lo, hi, best := 1, |rows|, 1;
    while lo <= hi
      invariant 1 <= lo <= hi + 1 <= |rows| + 1
      invariant best == if lo == 1 then 1 else lo - 1
      invariant lo > 1 ==> Fits(encode, rows, maxBytes, lo - 1)
      invariant hi < |rows| ==> !Fits(encode, rows, maxBytes, hi + 1)
      decreases hi - lo
    {
      var mid := (lo + hi) / 2;
      FitsIs(encode, rows, maxBytes, mid);
      var part := Size(encode, rows, mid);
      if part.None? {
        hi := mid - 1;
      } else if part.value <= maxBytes {
        best := mid;
        lo := mid + 1;
      } else {
        hi := mid - 1;
      }
    }
    if lo == 1 {
      NoneFits(encode, rows, maxBytes);
    } else {
      BoundaryIsLongest(encode, rows, maxBytes, best);
    }
    encoded := Size(encode, rows, best);
    if encoded.None? {
      UnencodableIsFirst(encode, rows, maxBytes, best);
      return rows[..1], 0, true;
    }
    return rows[..best], encoded.value, true;
  }

  lemma FitsIs<Row>(encode: Encoder<Row>, rows: seq<Row>, max: int, n: nat)
    requires n <= |rows|
    ensures Fits(encode, rows, max, n) <==> Size(encode, rows, n).Some? && Size(encode, rows, n).value <= max
  {
  }

  // When not even one row fits, one row is kept.
  lemma NoneFits<Row>(encode: Encoder<Row>, rows: seq<Row>, max: int)
    requires rows != [] && !Fits(encode, rows, max, 1)
    ensures LongestFit(encode, rows, max, |rows|) == 1
  {
    hide Fits, LongestFit;
    var longest := LongestFit(encode, rows, max, |rows|);
    if longest > 1 {
      FewerFit(encode, rows, max, 1, longest);
    }
  }

  lemma UnencodableIsFirst<Row>(encode: Encoder<Row>, rows: seq<Row>, max: int, best: nat)
    requires 1 <= best <= |rows| && best == LongestFit(encode, rows, max, |rows|)
    requires Size(encode, rows, best).None?
    ensures best == 1
  {
    hide LongestFit;
  }

  // Rows are dropped exactly when there are several and they do not all fit. A single
  // row is never dropped, yet reported as truncated when it does not fit.
  lemma DroppedIff<Row>(encode: Encoder<Row>, rows: seq<Row>, max: int)
    requires max > 0 && rows != []
    ensures LongestFit(encode, rows, max, |rows|) < |rows| <==> |rows| > 1 && !Fits(encode, rows, max, |rows|)
  {
    hide Fits;
  }

  // What is kept stays within the limit unless the first row alone exceeds it.
  lemma KeptWithinLimitIff<Row>(encode: Encoder<Row>, rows: seq<Row>, max: int)
    requires max > 0 && rows != []
    ensures Fits(encode, rows, max, LongestFit(encode, rows, max, |rows|)) <==> Fits(encode, rows, max, 1)
  {
    hide Fits, LongestFit;
    var longest := LongestFit(encode, rows, max, |rows|);
    if longest > 1 {
      FewerFit(encode, rows, max, 1, longest);
    }
  }

  // ---------------------------------------------------------------- the size of an array

  function Lengths<Row>(encode: Encoder<Row>, rows: seq<Row>): nat {
    if rows == [] then 0
    else Lengths(encode, rows[1..]) + match encode(rows[0]) { case Some(n) => n case None => 0 }
  }

  // The encoded array is as long as its rows, two brackets and the commas between; it
  // cannot be encoded when one of its rows cannot.
  lemma {:induction false} SizeIs<Row>(encode: Encoder<Row>, rows: seq<Row>)
    ensures Size(encode, rows, |rows|) ==
            if exists i :: 0 <= i < |rows| && encode(rows[i]) == None then None
            else Some(Lengths(encode, rows) + 2 + if rows == [] then 0 else |rows| - 1)
  {
    if rows != [] {
      var n := |rows| - 1;
      SizeIs(encode, rows[..n]);
      SizeOfPrefix(encode, rows, n, n);
      LengthsSnoc(encode, rows[..n], rows[n]);
      assert rows == rows[..n] + [rows[n]];
      assert forall i :: 0 <= i < n ==> rows[..n][i] == rows[i];
    }
  }

  lemma {:induction false} SizeOfPrefix<Row>(encode: Encoder<Row>, rows: seq<Row>, n: nat, k: nat)
    requires k <= n <= |rows|
    ensures Size(encode, rows[..n], k) == Size(encode, rows, k)
    decreases k
  {
    if k > 0 {
      SizeOfPrefix(encode, rows, n, k - 1);
    }
  }

  lemma {:induction false} LengthsSnoc<Row>(encode: Encoder<Row>, rows: seq<Row>, row: Row)
    ensures Lengths(encode, rows + [row]) ==
            Lengths(encode, rows) + match encode(row) { case Some(n) => n case None => 0 }
  {
    if rows == [] {
      assert rows + [row] == [row];
    } else {
      LengthsSnoc(encode, rows[1..], row);
      assert (rows + [row])[1..] == rows[1..] + [row];
    }
  }

  // What is kept is at most as long as the limit allows, one row apart, and one more row
  // would be too long or could not be encoded.
  lemma KeptBySize<Row>(encode: Encoder<Row>, rows: seq<Row>, max: int)
    requires rows != []
    ensures var n := LongestFit(encode, rows, max, |rows|);
            && 1 <= n <= |rows|
            && (n > 1 ==> Size(encode, rows, n).Some? && Size(encode, rows, n).value <= max)
            && (forall k :: n < k <= |rows| ==> Size(encode, rows, k) == None || Size(encode, rows, k).value > max)
  {
    hide Size, LongestFit;
    var n := LongestFit(encode, rows, max, |rows|);
    forall k | n < k <= |rows|
      ensures Size(encode, rows, k) == None || Size(encode, rows, k).value > max
    {
      assert !Fits(encode, rows, max, k);
    }
  }
}
