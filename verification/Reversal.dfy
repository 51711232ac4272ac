// Reversing a list in place: reverseAuditEntries of internal/agentaudit/audit_store.go
// and the reversals of internal/aichat/thread_working_set.go.
module Reversal {
  function Reversed<T>(s: seq<T>): (r: seq<T>)
    ensures |r| == |s| && forall i :: 0 <= i < |s| ==> r[i] == s[|s| - 1 - i]
  {
    seq(|s|, i requires 0 <= i < |s| => s[|s| - 1 - i])
  }

  lemma ReversedSnoc<T>(s: seq<T>, x: T)
    ensures Reversed(s + [x]) == [x] + Reversed(s)
  {
  }

  method ReverseInPlace<T>(items: array<T>)
    modifies items
    ensures items[..] == Reversed(old(items[..]))
  {
    var left, right := 0, items.Length - 1;
    while left < right
      invariant 0 <= left && right == items.Length - 1 - left && left <= right + 1
      invariant forall k :: 0 <= k < left ==> items[k] == old(items[items.Length - 1 - k])
      invariant forall k :: right < k < items.Length ==> items[k] == old(items[items.Length - 1 - k])
      invariant forall k :: left <= k <= right ==> items[k] == old(items[k])
    {
      items[left], items[right] := items[right], items[left];
      left, right := left + 1, right - 1;
    }
  }

  // The items, reversed through an array.
  method Turned<T>(items: seq<T>) returns (r: seq<T>)
    ensures r == Reversed(items)
  {
    var a := new T[|items|](i requires 0 <= i < |items| => items[i]);
    assert a[..] == items;
    ReverseInPlace(a);
    r := a[..];
  }
}
