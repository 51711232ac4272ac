// The stores of pending approvals, keyed by conversation and then by approval
// (approvalStore in internal/aichat/service.go, einoApprovalResumeStore in
// internal/aichat/runtime_eino.go): the two-level map stands for one map on pairs.
module ApprovalStore {
  import opened Wrappers

  // A conversation and an approval in it.
  type Key = (string, string)

  type Nested<T> = map<string, map<string, T>>

  // The pairs a two-level map holds.
  function Pending<T>(items: Nested<T>): map<Key, T> {
    map c, a | c in items && a in items[c] :: (c, a) := items[c][a]
  }

  // No conversation is kept once it has nothing pending.
  ghost predicate NoEmptyConversation<T>(items: Nested<T>) {
    forall c :: c in items ==> items[c] != map[]
  }

  // Membership and value, one pair at a time.
  lemma PendingAt<T>(items: Nested<T>, k: Key)
    ensures k in Pending(items) <==> k.0 in items && k.1 in items[k.0]
    ensures k in Pending(items) ==> Pending(items)[k] == items[k.0][k.1]
  {
    var (c, a) := k;
    assert k == (c, a);
  }

  function Inner<T>(items: Nested<T>, c: string): map<string, T> {
    if c in items then items[c] else map[]
  }

  predicate SameAt<T(==)>(left: map<Key, T>, right: map<Key, T>, k: Key) {
    (k in left <==> k in right) && (k in left ==> left[k] == right[k])
  }

  lemma SameEverywhere<T>(left: map<Key, T>, right: map<Key, T>)
    requires forall k: Key :: SameAt(left, right, k)
    ensures left == right
  {
    forall k: Key
      ensures k in left <==> k in right
      ensures k in left ==> left[k] == right[k]
    {
      assert SameAt(left, right, k);
    }
  }

  lemma PutAt<T>(items: Nested<T>, c: string, a: string, v: T, k: Key)
    ensures SameAt(Pending(items[c := Inner(items, c)[a := v]]), Pending(items)[(c, a) := v], k)
  {
    hide Pending;
    PendingAt(items, k);
    PendingAt(items[c := Inner(items, c)[a := v]], k);
    assert k == (k.0, k.1);
  }

  // The conversation without the approval, gone with its last one.
  function Without<T>(items: Nested<T>, c: string, a: string): Nested<T> {
    if c !in items then items
    else if items[c] - {a} == map[] then items - {c}
    else items[c := items[c] - {a}]
  }

  lemma WithoutAt<T>(items: Nested<T>, c: string, a: string, k: Key)
    ensures SameAt(Pending(Without(items, c, a)), Pending(items) - {(c, a)}, k)
  {
    hide Pending;
    PendingAt(items, k);
    PendingAt(Without(items, c, a), k);
    assert k == (k.0, k.1);
    if c in items && k.0 == c {
      assert k.1 in items[c] - {a} <==> k.1 in items[c] && k.1 != a;
    }
  }

  class Store<T> {
    var items: Nested<T>

    constructor ()
      ensures Pending(items) == map[] && NoEmptyConversation(items)
    {
      items := map[];
    }

    method Put(conversation: string, approval: string, value: T)
      requires NoEmptyConversation(items)
      modifies this
      ensures NoEmptyConversation(items)
      ensures Pending(items) == old(Pending(items))[(conversation, approval) := value]
    {
      hide Pending, SameAt;
      ghost var after := items[conversation := Inner(items, conversation)[approval := value]];
      ghost var left, right := Pending(after), Pending(items)[(conversation, approval) := value];
      forall k: Key
        ensures SameAt(left, right, k)
      {
        PutAt(items, conversation, approval, value, k);
      }
      SameEverywhere(left, right);
      if conversation !in items {
        items := items[conversation := map[]];
      }
      items := items[conversation := items[conversation][approval := value]];
      assert items == after;
      assert approval in items[conversation];
    }

    method Get(conversation: string, approval: string) returns (found: Option<T>)
      ensures found == if (conversation, approval) in Pending(items)
                       then Some(Pending(items)[(conversation, approval)]) else None
    {
      if conversation !in items {
        return None;
      }
      if approval !in items[conversation] {
        return None;
      }
      return Some(items[conversation][approval]);
    }

    method Take(conversation: string, approval: string) returns (found: Option<T>)
      requires NoEmptyConversation(items)
      modifies this
      ensures NoEmptyConversation(items)
      ensures Pending(items) == old(Pending(items)) - {(conversation, approval)}
      ensures found == if (conversation, approval) in old(Pending(items))
                       then Some(old(Pending(items))[(conversation, approval)]) else None
    {
      found := Get(conversation, approval);
      if found.Some? {
        Delete(conversation, approval);
      }
    }

    method Delete(conversation: string, approval: string)
      requires NoEmptyConversation(items)
      modifies this
      ensures NoEmptyConversation(items)
      ensures Pending(items) == old(Pending(items)) - {(conversation, approval)}
    {
      hide Pending, SameAt;
      ghost var after := Without(items, conversation, approval);
      ghost var left, right := Pending(after), Pending(items) - {(conversation, approval)};
      forall k: Key
        ensures SameAt(left, right, k)
      {
        WithoutAt(items, conversation, approval, k);
      }
      SameEverywhere(left, right);
      if conversation !in items {
        return;
      }
      var others := items[conversation] - {approval};
      items := if others == map[] then items - {conversation} else items[conversation := others];
    }
  }
}
