// The collectors of internal/aichat/thread_working_set.go: what a turn sees of the
// retained events is collected from the newest backwards and then reversed in place.
module RecentEvents {
  import opened Text
  import opened Wrappers
  import opened ThreadLog
  import opened Reversal

  // What a collector makes of an event, if anything.
  type Pick<!Item> = Event -> Option<Item>

  function Picked<Item>(pick: Pick<Item>, events: seq<Event>): seq<Item> {
    if events == [] then []
    else
      var most, item := Picked(pick, events[..|events| - 1]), pick(events[|events| - 1]);
      if item.Some? then most + [item.value] else most
  }

  function Last<Item>(items: seq<Item>, max: int): seq<Item> {
    if max <= 0 then [] else if |items| <= max then items else items[|items| - max..]
  }

  // collectRecentMessages, collectToolSummaries and collectApprovalSummaries
  method Collect<Item>(pick: Pick<Item>, events: seq<Event>, max: int) returns (items: seq<Item>)
    ensures items == Last(Picked(pick, events), max)
  {
    if |events| == 0 || max <= 0 {
      return [];
    }
    items := [];
    var i := |events|;
    assert events[..i] == events;
    while i > 0 && |items| < max
      invariant i <= |events| && |items| <= max
      invariant Picked(pick, events) == Picked(pick, events[..i]) + Reversed(items)
    {
      i := i - 1;
      assert events[..i + 1][..i] == events[..i];
      var item := pick(events[i]);
      if item.Some? {
        PickedMore(Picked(pick, events[..i]), item.value, items);
        items := items + [item.value];
      }
    }
    assert i == 0 ==> events[..i] == [];
    LastOf(Picked(pick, events[..i]), Reversed(items), max);
    items := Turned(items);
  }

  lemma PickedMore<Item>(most: seq<Item>, item: Item, items: seq<Item>)
    ensures (most + [item]) + Reversed(items) == most + Reversed(items + [item])
  {
    ReversedSnoc(items, item);
  }

  lemma LastOf<Item>(before: seq<Item>, found: seq<Item>, max: int)
    requires |found| <= max && (before == [] || |found| == max) && max > 0
    ensures Last(before + found, max) == found
  {
  }

  // The kinds that carry a message, with the role it gets.
  function Role(kind: string): Option<string> {
    if kind == "user_message" then Some("user")
    else if kind == "assistant_message" then Some("assistant")
    else if kind == "memory_snapshot_seeded" then Some("system")
    else None
  }

  datatype Message = Message(role: string, content: string)

  // The text of an event: its content or text, or else its summary.
  datatype Texts = Texts(content: Event -> string, summary: Event -> string)

  function MessageOf(texts: Texts, e: Event): Option<Message> {
    var content :=
      if TrimSpace(texts.content(e)) != "" then TrimSpace(texts.content(e)) else TrimSpace(texts.summary(e));
    if content == "" || Role(e.kind) == None then None else Some(Message(Role(e.kind).value, content))
  }

  // The messages of the working set: those of the retained events, or the request's
  // own when these have none.
  method RecentMessages(texts: Texts, retained: seq<Event>, requested: seq<Message>, max: int) returns (r: seq<Message>)
    ensures var found := Last(Picked(e => MessageOf(texts, e), retained), max);
            r == if found == [] then Last(requested, max) else found
  {
    hide MessageOf;
    r := Collect(e => MessageOf(texts, e), retained, max);
    if |r| == 0 {
      r := Last(requested, max);
    }
  }

  lemma {:induction false} PickedConcat<Item>(pick: Pick<Item>, a: seq<Event>, b: seq<Event>)
    ensures Picked(pick, a + b) == Picked(pick, a) + Picked(pick, b)
    decreases |b|
  {
    if b == [] {
      assert a + b == a;
    } else {
      PickedConcat(pick, a, b[..|b| - 1]);
      assert (a + b)[..|a + b| - 1] == a + b[..|b| - 1];
    }
  }

  // Compaction loses a collected item exactly when fewer than the limit are found among
  // the retained events and some event it dropped had one.
  lemma CompactionKeepsRecentIff<Item>(pick: Pick<Item>, enc: Encoding, events: seq<Event>, cfg: Config, max: int)
    requires max > 0
    ensures var n := Cutoff(enc, events, cfg);
            Last(Picked(pick, Compacted(enc, events, cfg).retained), max) == Last(Picked(pick, events), max) <==>
            |Picked(pick, events[n..])| >= max || Picked(pick, events[..n]) == []
  {
    hide Picked, Cutoff;
    var n := Cutoff(enc, events, cfg);
    assert events[..n] + events[n..] == events;
    PickedConcat(pick, events[..n], events[n..]);
    RetainedIs(enc, events, cfg);
    LastConcatIff(Picked(pick, events[..n]), Picked(pick, events[n..]), max);
  }

  lemma RetainedIs(enc: Encoding, events: seq<Event>, cfg: Config)
    ensures Compacted(enc, events, cfg).retained == events[Cutoff(enc, events, cfg)..]
  {
    hide Cutoff;
  }

  lemma LastConcatIff<Item>(a: seq<Item>, b: seq<Item>, max: int)
    requires max > 0
    ensures Last(b, max) == Last(a + b, max) <==> |b| >= max || a == []
  {
    if a == [] {
      assert a + b == b;
    }
  }

  // ---------------------------------------------------------------- messages

  // Three kinds of events carry a message, if they have a text: the trimmed content, or
  // the trimmed summary where the content is blank.
  lemma MessageForms(texts: Texts, e: Event)
    ensures var content, summary := TrimSpace(texts.content(e)), TrimSpace(texts.summary(e));
            var text := if content != "" then content else summary;
            && (e.kind == "user_message" && text != "" ==> MessageOf(texts, e) == Some(Message("user", text)))
            && (e.kind == "assistant_message" && text != "" ==> MessageOf(texts, e) == Some(Message("assistant", text)))
            && (e.kind == "memory_snapshot_seeded" && text != "" ==>
                  MessageOf(texts, e) == Some(Message("system", text)))
            && (e.kind !in {"user_message", "assistant_message", "memory_snapshot_seeded"} || text == "" ==>
                  MessageOf(texts, e) == None)
  {
    hide TrimSpace;
  }
}
