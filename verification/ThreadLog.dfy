// Thread event compaction: thread_compactor.go, the summary merge of
// thread_working_set.go and persistThreadWorkingSet of thread_context.go.
module ThreadLog {
  import opened Text

  // An event as LoadEvents returns it: a trimmed, non-blank id and a kind.
  datatype Event = Event(id: string, kind: string, at: int, payload: string)

  predicate ValidEvent(e: Event) {
    e.id != "" && Trimmed(e.id) && TrimSpace(e.kind) != ""
  }

  predicate ValidEvents(events: seq<Event>) {
    forall i :: 0 <= i < |events| ==> ValidEvent(events[i])
  }

  datatype Block = Block(id: string, startAt: int, endAt: int, eventRefs: seq<string>, eventCount: nat)

  datatype Config = Config(maxRecentEvents: int, maxEventsBeforeCompact: int, maxSerializedBytes: int)

  // The length of the JSON of an event list, and the stamp of a time in an id.
  datatype Encoding = Encoding(size: seq<Event> -> nat, stamp: int -> string)

  function Ids(events: seq<Event>): (ids: seq<string>)
    ensures |ids| == |events| && forall i :: 0 <= i < |events| ==> ids[i] == events[i].id
  {
    seq(|events|, i requires 0 <= i < |events| => events[i].id)
  }

  // ---------------------------------------------------------------- compaction

  // normalizeThreadCompactorConfig
  function Normalized(cfg: Config): (c: Config)
    ensures 1 <= c.maxRecentEvents < c.maxEventsBeforeCompact && 0 <= c.maxSerializedBytes
  {
    var recent := if cfg.maxRecentEvents < 1 then 6 else cfg.maxRecentEvents;
    var before := if cfg.maxEventsBeforeCompact < recent + 1 then recent + 4 else cfg.maxEventsBeforeCompact;
    Config(recent, before, if cfg.maxSerializedBytes < 0 then 0 else cfg.maxSerializedBytes)
  }

  // shouldCompactThreadEvents
  predicate ShouldCompact(enc: Encoding, events: seq<Event>, cfg: Config) {
    || |events| > cfg.maxEventsBeforeCompact
    || (cfg.maxSerializedBytes != 0 && enc.size(events) > cfg.maxSerializedBytes)
  }

  function Earliest(events: seq<Event>): (t: int)
    requires events != []
    ensures forall i :: 0 <= i < |events| ==> t <= events[i].at
    ensures exists i :: 0 <= i < |events| && t == events[i].at
  {
    if |events| == 1 then events[0].at
    else
      var t := Earliest(events[..|events| - 1]);
      if events[|events| - 1].at < t then events[|events| - 1].at else t
  }

  function Latest(events: seq<Event>): (t: int)
    requires events != []
    ensures forall i :: 0 <= i < |events| ==> events[i].at <= t
    ensures exists i :: 0 <= i < |events| && t == events[i].at
  {
    if |events| == 1 then events[0].at
    else
      var t := Latest(events[..|events| - 1]);
      if events[|events| - 1].at > t then events[|events| - 1].at else t
  }

  // buildThreadSummaryBlockID
  function BlockId(enc: Encoding, startAt: int, endAt: int, refs: seq<string>): string {
    var first := if refs == [] then "" else "_" + TrimSpace(refs[0]);
    "summary_" + (enc.stamp(startAt) + ("_" + (enc.stamp(endAt) + first)))
  }

  function BlockOf(enc: Encoding, events: seq<Event>): Block
    requires events != []
  {
    var startAt, endAt := Earliest(events), Latest(events);
    Block(BlockId(enc, startAt, endAt, Ids(events)), startAt, endAt, Ids(events), |events|)
  }

  // summarizeCompactedThreadEvents, without the text of the summary.
  method Summarize(enc: Encoding, events: seq<Event>) returns (block: Block)
    requires events != [] && ValidEvents(events)
    ensures block == BlockOf(enc, events)
  {
    hide *;
    var refs: seq<string> := [];
    var startAt, endAt := events[0].at, events[0].at;
    var n := 0;
    SummaryStart(enc, events);
    while n < |events|
      invariant n <= |events|
      invariant refs == Ids(events[..n])
      invariant n == 0 ==> startAt == endAt == events[0].at
      invariant n > 0 ==> startAt == Earliest(events[..n]) && endAt == Latest(events[..n])
    {
      var e := events[n];
      SummaryNext(events, n);
      var id := TrimSpace(e.id);
      if id != "" {
        refs := refs + [id];
      }
      if e.at < startAt {
        startAt := e.at;
      }
      if e.at > endAt {
        endAt := e.at;
      }
      n := n + 1;
    }
    assert events[..n] == events;
    block := Block(BlockId(enc, startAt, endAt, refs), startAt, endAt, refs, |events|);
  }

  lemma SummaryStart(enc: Encoding, events: seq<Event>)
    requires events != []
    ensures Ids(events[..0]) == []
    ensures var s, e := Earliest(events), Latest(events);
            BlockOf(enc, events) == Block(BlockId(enc, s, e, Ids(events)), s, e, Ids(events), |events|)
  {
  }

  lemma SummaryNext(events: seq<Event>, n: nat)
    requires n < |events| && ValidEvents(events)
    ensures TrimSpace(events[n].id) == events[n].id != ""
    ensures Ids(events[..n + 1]) == Ids(events[..n]) + [events[n].id]
    ensures n == 0 ==> Earliest(events[..1]) == Latest(events[..1]) == events[0].at
    ensures n > 0 ==>
              && var first, last := Earliest(events[..n]), Latest(events[..n]);
              && Earliest(events[..n + 1]) == (if events[n].at < first then events[n].at else first)
              && Latest(events[..n + 1]) == (if events[n].at > last then events[n].at else last)
  {
    hide TrimSpace, Trimmed;
    assert ValidEvent(events[n]);
    assert events[..n + 1][..n] == events[..n];
  }

  datatype Compaction = Compaction(retained: seq<Event>, blocks: seq<Block>, compacted: bool)

  // How many events compaction drops.
  function Cutoff(enc: Encoding, events: seq<Event>, cfg: Config): (n: nat)
    ensures n <= |events|
  {
    var c := Normalized(cfg);
    if events == [] || !ShouldCompact(enc, events, c) || |events| <= c.maxRecentEvents then 0
    else |events| - c.maxRecentEvents
  }

  function Compacted(enc: Encoding, events: seq<Event>, cfg: Config): Compaction {
    var n := Cutoff(enc, events, cfg);
    if n == 0 then Compaction(events, [], false)
    else Compaction(events[n..], [BlockOf(enc, events[..n])], true)
  }

  lemma CompactedIs(enc: Encoding, events: seq<Event>, cfg: Config)
    ensures var c := Normalized(cfg); var n := |events| - c.maxRecentEvents;
            Compacted(enc, events, cfg) ==
            if events == [] || !ShouldCompact(enc, events, c) || n <= 0 then Compaction(events, [], false)
            else Compaction(events[n..], [BlockOf(enc, events[..n])], true)
  {
    hide BlockOf, Normalized, ShouldCompact;
  }

  lemma FirstEventsValid(events: seq<Event>, n: nat)
    requires n <= |events| && ValidEvents(events)
    ensures ValidEvents(events[..n])
  {
    hide ValidEvent;
  }

  lemma BlockIdNotEmpty(enc: Encoding, events: seq<Event>)
    requires events != []
    ensures BlockOf(enc, events).id != ""
  {
    hide TrimSpace, Earliest, Latest;
  }

  // compactThreadEvents
  method Compact(enc: Encoding, events: seq<Event>, cfg: Config) returns (r: Compaction)
    requires ValidEvents(events)
    ensures r == Compacted(enc, events, cfg)
  {
    hide *;
    CompactedIs(enc, events, cfg);
    if |events| == 0 {
      return Compaction([], [], false);
    }
    var normalized := Normalized(cfg);
    if !ShouldCompact(enc, events, normalized) {
      return Compaction(events, [], false);
    }
    var cutoff := |events| - normalized.maxRecentEvents;
    if cutoff <= 0 {
      return Compaction(events, [], false);
    }
    FirstEventsValid(events, cutoff);
    var block := Summarize(enc, events[..cutoff]);
    BlockIdNotEmpty(enc, events[..cutoff]);
    if block.id == "" {
      assert false;
    }
    return Compaction(events[cutoff..], [block], true);
  }

  // ---------------------------------------------------------------- merging summaries

  function LastBlocks(blocks: seq<Block>, max: nat): seq<Block> {
    if |blocks| <= max then blocks else blocks[|blocks| - max..]
  }

  predicate HasId(blocks: seq<Block>, id: string) {
    exists i | 0 <= i < |blocks| :: TrimSpace(blocks[i].id) == id
  }

  // The existing blocks and then the generated ones whose id is new.
  function Joined(existing: seq<Block>, generated: seq<Block>): seq<Block> {
    if generated == [] then existing
    else
      var most := Joined(existing, generated[..|generated| - 1]);
      var block := generated[|generated| - 1];
      var id := TrimSpace(block.id);
      if id != "" && HasId(most, id) then most else most + [block]
  }

  function Merged(existing: seq<Block>, generated: seq<Block>, max: int): seq<Block> {
    if max <= 0 then [] else LastBlocks(Joined(existing, generated), max)
  }

  lemma HasIdSnoc(blocks: seq<Block>, block: Block)
    ensures forall id :: HasId(blocks + [block], id) <==> HasId(blocks, id) || TrimSpace(block.id) == id
  {
    hide TrimSpace;
    var more := blocks + [block];
    forall id
      ensures HasId(more, id) <==> HasId(blocks, id) || TrimSpace(block.id) == id
    {
      if HasId(blocks, id) {
        var i :| 0 <= i < |blocks| && TrimSpace(blocks[i].id) == id;
        assert more[i] == blocks[i];
      }
      assert more[|blocks|] == block;
    }
  }

  // mergeThreadSummaryBlocks
  method MergeBlocks(existing: seq<Block>, generated: seq<Block>, max: int) returns (merged: seq<Block>)
    ensures merged == Merged(existing, generated, max)
  {
    hide TrimSpace, HasId;
    if max <= 0 {
      return [];
    }
    merged := [];
    var seen: set<string> := {};
    NoIds();
    var n := 0;
    while n < |existing|
      invariant n <= |existing| && merged == existing[..n]
      invariant forall id :: id in seen <==> id != "" && HasId(merged, id)
    {
      var id := TrimSpace(existing[n].id);
      HasIdSnoc(merged, existing[n]);
      if id != "" {
        seen := seen + {id};
      }
      merged := merged + [existing[n]];
      n := n + 1;
    }
    assert merged == existing;
    n := 0;
    while n < |generated|
      invariant n <= |generated| && merged == Joined(existing, generated[..n])
      invariant forall id :: id in seen <==> id != "" && HasId(merged, id)
    {
      assert generated[..n + 1][..n] == generated[..n];
      var block := generated[n];
      var id := TrimSpace(block.id);
      HasIdSnoc(merged, block);
      n := n + 1;
      if id != "" {
        if id in seen {
          continue;
        }
        seen := seen + {id};
      }
      merged := merged + [block];
    }
    assert generated[..n] == generated;
    if |merged| > max {
      merged := merged[|merged| - max..];
    }
  }

  lemma NoIds()
    ensures forall id :: !HasId([], id)
  {
  }

  // ---------------------------------------------------------------- load and persist

  datatype WorkingSet = WorkingSet(
    retained: seq<Event>,
    blocks: seq<Block>,
    compacted: bool,
    loadedIds: seq<string>)

  function MaxThreadSummaries(max: int): (n: nat)
    ensures n > 0
  {
    if max < 1 then 3 else max
  }

  // The part of buildWorkingSet that is persisted.
  function Loaded(enc: Encoding, events: seq<Event>, blocks: seq<Block>, cfg: Config, max: int): WorkingSet {
    var c := Compacted(enc, events, Normalized(cfg));
    WorkingSet(c.retained, Merged(blocks, c.blocks, MaxThreadSummaries(max)), c.compacted, Ids(events))
  }

  // The events whose id was not loaded.
  function NotLoaded(current: seq<Event>, loadedIds: seq<string>): seq<Event> {
    if current == [] then []
    else
      var e := current[|current| - 1];
      NotLoaded(current[..|current| - 1], loadedIds) + if e.id in loadedIds then [] else [e]
  }

  lemma AlreadyTrimmed(s: string)
    requires Trimmed(s)
    ensures TrimSpace(s) == s
  {
  }

  lemma ValidId(e: Event)
    requires ValidEvent(e)
    ensures e.id != "" && Trimmed(e.id)
  {
    hide Trimmed, TrimSpace;
  }

  // eventsAppendedAfterWorkingSetLoad
  method EventsAppendedAfterLoad(current: seq<Event>, loadedIds: seq<string>) returns (appended: seq<Event>)
    requires ValidEvents(current)
    requires forall i :: 0 <= i < |loadedIds| ==> loadedIds[i] != "" && Trimmed(loadedIds[i])
    ensures appended == NotLoaded(current, loadedIds)
  {
    hide Trimmed, TrimSpace, ValidEvent;
    var loaded: set<string> := {};
    var n := 0;
    while n < |loadedIds|
      invariant n <= |loadedIds|
      invariant forall id :: id in loaded <==> id in loadedIds[..n]
    {
      assert loadedIds[..n + 1] == loadedIds[..n] + [loadedIds[n]];
      AlreadyTrimmed(loadedIds[n]);
      var trimmed := TrimSpace(loadedIds[n]);
      if trimmed != "" {
        loaded := loaded + {trimmed};
      }
      n := n + 1;
    }
    assert loadedIds[..n] == loadedIds;
    appended := [];
    n := 0;
    while n < |current|
      invariant n <= |current|
      invariant appended == NotLoaded(current[..n], loadedIds)
    {
      assert current[..n + 1][..n] == current[..n];
      ValidId(current[n]);
      AlreadyTrimmed(current[n].id);
      if TrimSpace(current[n].id) !in loaded {
        appended := appended + [current[n]];
      }
      n := n + 1;
    }
    assert current[..n] == current;
  }

  // The files of one thread.
  class ThreadStore {
    var events: seq<Event>
    var blocks: seq<Block>

    ghost predicate Valid()
      reads this
    {
      ValidEvents(events)
    }

    constructor ()
      ensures Valid() && events == [] && blocks == []
    {
      events, blocks := [], [];
    }

    // AppendEvent; the id is the caller's, who stands for the clock.
    method AppendEvent(e: Event) returns (stored: bool)
      requires Valid() && e.id != "" && Trimmed(e.id)
      modifies this
      ensures Valid() && blocks == old(blocks)
      ensures stored <==> TrimSpace(e.kind) != ""
      ensures events == old(events) + if stored then [e] else []
    {
      stored := TrimSpace(e.kind) != "";
      if stored {
        events := events + [e];
      }
    }

    method Load(enc: Encoding, cfg: Config, max: int) returns (ws: WorkingSet)
      requires Valid()
      ensures ws == Loaded(enc, events, blocks, cfg, max)
    {
      hide TrimSpace, Cutoff, Joined;
      var c := Compact(enc, events, Normalized(cfg));
      var merged := MergeBlocks(blocks, c.blocks, MaxThreadSummaries(max));
      ws := WorkingSet(c.retained, merged, c.compacted, Ids(events));
    }

    // persistThreadWorkingSet
    method Persist(ws: WorkingSet)
      requires Valid() && ValidEvents(ws.retained)
      requires forall i :: 0 <= i < |ws.loadedIds| ==> ws.loadedIds[i] != "" && Trimmed(ws.loadedIds[i])
      modifies this
      ensures Valid()
      ensures events == PersistedEvents(old(events), ws)
      ensures blocks == PersistedBlocks(old(blocks), ws)
    {
      hide ValidEvent, NotLoaded;
      if ws.compacted {
        var next := ws.retained;
        var appended := EventsAppendedAfterLoad(events, ws.loadedIds);
        NotLoadedValid(events, ws.loadedIds);
        if |appended| > 0 {
          next := next + appended;
        }
        events := next;
      }
      if |ws.blocks| > 0 {
        blocks := ws.blocks;
      }
    }
  }

  function PersistedEvents(events: seq<Event>, ws: WorkingSet): seq<Event> {
    if ws.compacted then ws.retained + NotLoaded(events, ws.loadedIds) else events
  }

  function PersistedBlocks(blocks: seq<Block>, ws: WorkingSet): seq<Block> {
    if ws.blocks != [] then ws.blocks else blocks
  }

  lemma {:induction false} NotLoadedValid(events: seq<Event>, ids: seq<string>)
    requires ValidEvents(events)
    ensures ValidEvents(NotLoaded(events, ids))
  {
    hide ValidEvent;
    if events != [] {
      NotLoadedValid(events[..|events| - 1], ids);
    }
  }
}
