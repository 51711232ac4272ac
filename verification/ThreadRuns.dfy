// What compaction conserves across turns: events, their naming in summaries, and
// the size of the log.
module ThreadRuns {
  import opened Text
  import opened ThreadLog

  // ---------------------------------------------------------------- one persist

  lemma {:induction false} NotLoadedConcat(a: seq<Event>, b: seq<Event>, ids: seq<string>)
    ensures NotLoaded(a + b, ids) == NotLoaded(a, ids) + NotLoaded(b, ids)
  {
    if b == [] {
      assert a + b == a;
    } else {
      NotLoadedConcat(a, b[..|b| - 1], ids);
      assert (a + b)[..|a + b| - 1] == a + b[..|b| - 1];
    }
  }

  lemma {:induction false} AllLoaded(a: seq<Event>, ids: seq<string>)
    requires forall i :: 0 <= i < |a| ==> a[i].id in ids
    ensures NotLoaded(a, ids) == []
  {
    if a != [] {
      AllLoaded(a[..|a| - 1], ids);
    }
  }

  predicate Fresh(b: seq<Event>, ids: seq<string>) {
    forall i :: 0 <= i < |b| ==> b[i].id !in ids
  }

  // The events kept are fresh, and they are all of them exactly when all were.
  lemma {:induction false} FreshKept(b: seq<Event>, ids: seq<string>)
    ensures |NotLoaded(b, ids)| <= |b| && Fresh(NotLoaded(b, ids), ids)
    ensures NotLoaded(b, ids) == b <==> Fresh(b, ids)
  {
    if b != [] {
      var most := b[..|b| - 1];
      FreshKept(most, ids);
      if Fresh(b, ids) {
        assert forall i :: 0 <= i < |most| ==> most[i] == b[i];
      }
    }
  }

  lemma OwnIds(events: seq<Event>, n: nat)
    requires n <= |events|
    ensures forall i :: 0 <= i < |events[n..]| ==> events[n..][i].id in Ids(events)
    ensures forall i :: 0 <= i < |events| ==> events[i].id in Ids(events)
  {
    forall i | 0 <= i < |events|
      ensures events[i].id in Ids(events)
    {
      assert Ids(events)[i] == events[i].id;
    }
  }

  // After loading a log and persisting once more events have been appended, the
  // log holds what compaction retained and then the events appended, in order and
  // with nothing lost, exactly when no appended event reuses a loaded id.
  lemma PersistConserves(
    enc: Encoding, events: seq<Event>, blocks: seq<Block>, cfg: Config, max: int, appended: seq<Event>)
    ensures var n := Cutoff(enc, events, Normalized(cfg));
            PersistedEvents(events + appended, Loaded(enc, events, blocks, cfg, max)) == events[n..] + appended
            <==> n == 0 || Fresh(appended, Ids(events))
  {
    hide Cutoff, Merged, BlockOf, NotLoaded, Fresh;
    var n, ids := Cutoff(enc, events, Normalized(cfg)), Ids(events);
    OwnIds(events, 0);
    AllLoaded(events, ids);
    NotLoadedConcat(events, appended, ids);
    FreshKept(appended, ids);
    var kept := NotLoaded(appended, ids);
    assert [] + kept == kept;
    if n != 0 && events[n..] + kept == events[n..] + appended {
      assert kept == (events[n..] + kept)[|events[n..]|..];
      assert appended == (events[n..] + appended)[|events[n..]|..];
    }
  }

  // Persisting the same working set again changes nothing, whatever was appended.
  lemma PersistAgain(
    enc: Encoding, events: seq<Event>, blocks: seq<Block>, cfg: Config, max: int, appended: seq<Event>)
    ensures var ws := Loaded(enc, events, blocks, cfg, max);
            var once := PersistedEvents(events + appended, ws);
            && PersistedEvents(once, ws) == once
            && PersistedBlocks(PersistedBlocks(blocks, ws), ws) == PersistedBlocks(blocks, ws)
  {
    hide Cutoff, Merged, BlockOf, NotLoaded, Fresh;
    var n, ids := Cutoff(enc, events, Normalized(cfg)), Ids(events);
    OwnIds(events, 0);
    OwnIds(events, n);
    AllLoaded(events, ids);
    AllLoaded(events[n..], ids);
    NotLoadedConcat(events, appended, ids);
    var kept := NotLoaded(appended, ids);
    FreshKept(appended, ids);
    FreshKept(kept, ids);
    assert [] + kept == kept;
    NotLoadedConcat(events[n..], kept, ids);
  }

  // The block that a compacting load generates names exactly the events dropped,
  // and a persist saves it last, unless a saved block already has its id.
  lemma DroppedEventsNamed(enc: Encoding, events: seq<Event>, blocks: seq<Block>, cfg: Config, max: int)
    requires Cutoff(enc, events, Normalized(cfg)) > 0
    ensures var dropped := events[..Cutoff(enc, events, Normalized(cfg))];
            var block := BlockOf(enc, dropped);
            var saved := PersistedBlocks(blocks, Loaded(enc, events, blocks, cfg, max));
            && block.eventRefs == Ids(dropped) && block.eventCount == |dropped|
            && (!HasId(blocks, TrimSpace(block.id)) ==>
                  && saved == LastBlocks(blocks + [block], MaxThreadSummaries(max))
                  && saved != [] && saved[|saved| - 1] == block)
  {
    hide Cutoff, BlockId, HasId, TrimSpace;
    var block := BlockOf(enc, events[..Cutoff(enc, events, Normalized(cfg))]);
    assert [block][..0] == [];
    if !HasId(blocks, TrimSpace(block.id)) {
      assert Joined(blocks, [block]) == blocks + [block];
    }
  }

  // ---------------------------------------------------------------- whole runs

  // One turn: events appended between load and persist, and after the persist.
  datatype Turn = Turn(during: seq<Event>, after: seq<Event>)

  datatype Thread = Thread(events: seq<Event>, blocks: seq<Block>)

  const EMPTY := Thread([], [])

  datatype Setup = Setup(enc: Encoding, cfg: Config, max: int)

  function NextThread(s: Setup, t: Thread, turn: Turn): Thread {
    var ws := Loaded(s.enc, t.events, t.blocks, s.cfg, s.max);
    Thread(PersistedEvents(t.events + turn.during, ws) + turn.after, PersistedBlocks(t.blocks, ws))
  }

  function Run(s: Setup, turns: seq<Turn>): Thread {
    if turns == [] then EMPTY else NextThread(s, Run(s, turns[..|turns| - 1]), turns[|turns| - 1])
  }

  // Everything ever appended, in order.
  function History(turns: seq<Turn>): seq<Event> {
    if turns == [] then []
    else History(turns[..|turns| - 1]) + (turns[|turns| - 1].during + turns[|turns| - 1].after)
  }

  predicate DistinctIds(events: seq<Event>) {
    forall i, j :: 0 <= i < j < |events| ==> events[i].id != events[j].id
  }

  // Stamps have the fixed width of their layout.
  ghost predicate FixedWidth(enc: Encoding) {
    forall t :: |enc.stamp(t)| == 15
  }

  // A saved block carries the id built from its own times and first reference,
  // and that reference has been dropped.
  predicate BlockOfDropped(enc: Encoding, b: Block, history: seq<Event>, d: nat)
    requires d <= |history|
  {
    && b.eventRefs != [] && b.eventRefs[0] in Ids(history[..d])
    && b.id == BlockId(enc, b.startAt, b.endAt, b.eventRefs)
  }

  // The first d events of the history have been dropped and the log holds the rest.
  predicate Conserved(s: Setup, t: Thread, history: seq<Event>, d: nat) {
    && d <= |history| && t.events == history[d..]
    && forall i :: 0 <= i < |t.blocks| ==> BlockOfDropped(s.enc, t.blocks[i], history, d)
  }

  predicate Names(blocks: seq<Block>, dropped: seq<Event>) {
    exists i | 0 <= i < |blocks| :: blocks[i].eventRefs == Ids(dropped)
  }

  lemma BlockIdFirstRef(enc: Encoding, s: int, e: int, refs: seq<string>, s': int, e': int, refs': seq<string>)
    requires FixedWidth(enc) && refs != [] && refs' != []
    requires refs[0] != "" && Trimmed(refs[0]) && refs'[0] != "" && Trimmed(refs'[0])
    requires TrimSpace(BlockId(enc, s, e, refs)) == TrimSpace(BlockId(enc, s', e', refs'))
    ensures refs[0] == refs'[0]
  {
    hide TrimSpace, Trimmed;
    BlockIdTrimmed(enc, s, e, refs);
    BlockIdTrimmed(enc, s', e', refs');
    BlockIdSuffix(enc, s, e, refs);
    BlockIdSuffix(enc, s', e', refs');
  }

  lemma BlockIdSuffix(enc: Encoding, s: int, e: int, refs: seq<string>)
    requires FixedWidth(enc) && refs != [] && Trimmed(refs[0])
    ensures |BlockId(enc, s, e, refs)| >= 40 && BlockId(enc, s, e, refs)[40..] == refs[0]
  {
    hide TrimSpace, Trimmed;
    var a, b, r := enc.stamp(s), enc.stamp(e), refs[0];
    assert |a| == 15 && |b| == 15;
    assert TrimSpace(r) == r;
    var head := "summary_" + a + "_" + b + "_";
    assert BlockId(enc, s, e, refs) == head + r;
  }

  lemma BlockIdTrimmed(enc: Encoding, s: int, e: int, refs: seq<string>)
    requires FixedWidth(enc) && refs != [] && refs[0] != "" && Trimmed(refs[0])
    ensures TrimSpace(BlockId(enc, s, e, refs)) == BlockId(enc, s, e, refs)
  {
    hide TrimSpace;
    var id := BlockId(enc, s, e, refs);
    BlockIdSuffix(enc, s, e, refs);
    assert id[0] == 's';
    assert id[|id| - 1] == id[40..][|refs[0]| - 1];
    NotSpace();
  }

  lemma NotSpace()
    ensures !IsSpace('s')
  {
  }

  // A compaction's block is new: its first reference had not been dropped before.
  lemma BlockIsNew(s: Setup, t: Thread, history: seq<Event>, d: nat, n: nat)
    requires Conserved(s, t, history, d) && FixedWidth(s.enc)
    requires ValidEvents(history) && DistinctIds(history) && 0 < n <= |t.events|
    ensures !HasId(t.blocks, TrimSpace(BlockOf(s.enc, t.events[..n]).id))
  {
    hide Trimmed, TrimSpace, BlockId, Earliest, Latest;
    var block := BlockOf(s.enc, t.events[..n]);
    assert block.eventRefs[0] == t.events[0].id == history[d].id;
    assert ValidEvent(history[d]);
    forall i | 0 <= i < |t.blocks|
      ensures TrimSpace(t.blocks[i].id) != TrimSpace(block.id)
    {
      var b := t.blocks[i];
      assert BlockOfDropped(s.enc, b, history, d);
      var k :| 0 <= k < |Ids(history[..d])| && Ids(history[..d])[k] == b.eventRefs[0];
      assert history[..d][k] == history[k] && ValidEvent(history[k]);
      if TrimSpace(b.id) == TrimSpace(block.id) {
        BlockIdFirstRef(s.enc, b.startAt, b.endAt, b.eventRefs, block.startAt, block.endAt, block.eventRefs);
      }
    }
  }

  lemma HistoryFresh(history: seq<Event>, d: nat, more: seq<Event>)
    requires d <= |history| && DistinctIds(history + more)
    ensures Fresh(more, Ids(history[d..]))
  {
    var all, kept := history + more, history[d..];
    forall i, k | 0 <= i < |more| && 0 <= k < |kept|
      ensures Ids(kept)[k] != more[i].id
    {
      assert all[d + k] == kept[k] && all[|history| + i] == more[i];
    }
  }

  // Each turn keeps the log a suffix of the history: it drops the oldest events it
  // held or none, and what it drops it names in a block it saves.
  lemma TurnConserves(s: Setup, t: Thread, history: seq<Event>, d: nat, turn: Turn) returns (d': nat)
    requires Conserved(s, t, history, d) && FixedWidth(s.enc)
    requires ValidEvents(history) && DistinctIds(history + (turn.during + turn.after))
    ensures d <= d' <= |history|
    ensures Conserved(s, NextThread(s, t, turn), history + (turn.during + turn.after), d')
    ensures d < d' ==> Names(NextThread(s, t, turn).blocks, history[d..d'])
  {
    hide *;
    var n := Cutoff(s.enc, t.events, Normalized(s.cfg));
    var next := NextThread(s, t, turn);
    var more := turn.during + turn.after;
    ConservedFacts(s, t, history, d);
    DistinctPart(history, turn.during, turn.after);
    HistoryFresh(history, d, turn.during);
    PersistConserves(s.enc, t.events, t.blocks, s.cfg, s.max, turn.during);
    d' := d + n;
    EventsAfter(s, t, history, d, n, turn);
    if n > 0 {
      BlockIsNew(s, t, history, d, n);
      DroppedEventsNamed(s.enc, t.events, t.blocks, s.cfg, s.max);
      NextBlocks(s, t, turn);
      SavedNames(next.blocks, BlockOf(s.enc, t.events[..n]), history, d, d', t.events, n);
    }
    BlocksAfter(s, t, turn, n);
    BlocksConserved(s, t, next, history, d, n, more);
  }

  lemma ConservedFacts(s: Setup, t: Thread, history: seq<Event>, d: nat)
    requires Conserved(s, t, history, d)
    ensures d <= |history| && t.events == history[d..]
  {
  }

  lemma DistinctPart(history: seq<Event>, during: seq<Event>, after: seq<Event>)
    requires DistinctIds(history + (during + after))
    ensures DistinctIds(history + during) && DistinctIds(history)
  {
    var all := history + (during + after);
    assert all == (history + during) + after;
    assert forall i :: 0 <= i < |history + during| ==> all[i] == (history + during)[i];
    assert forall i :: 0 <= i < |history| ==> all[i] == history[i];
  }

  lemma EventsAfter(s: Setup, t: Thread, history: seq<Event>, d: nat, n: nat, turn: Turn)
    requires d + n <= |history| && t.events == history[d..]
    requires PersistedEvents(t.events + turn.during, Loaded(s.enc, t.events, t.blocks, s.cfg, s.max))
          == t.events[n..] + turn.during
    ensures NextThread(s, t, turn).events == (history + (turn.during + turn.after))[d + n..]
  {
    hide PersistedEvents, Loaded, PersistedBlocks;
    assert t.events[n..] == history[d + n..];
    assert (history + (turn.during + turn.after))[d + n..] == history[d + n..] + turn.during + turn.after;
  }

  lemma NextBlocks(s: Setup, t: Thread, turn: Turn)
    ensures NextThread(s, t, turn).blocks
         == PersistedBlocks(t.blocks, Loaded(s.enc, t.events, t.blocks, s.cfg, s.max))
  {
    hide PersistedEvents, Loaded, PersistedBlocks;
  }

  lemma SavedNames(
    blocks: seq<Block>, block: Block, history: seq<Event>, d: nat, d': nat, events: seq<Event>, n: nat)
    requires blocks != [] && blocks[|blocks| - 1] == block
    requires d' == d + n <= |history| && events == history[d..] && block.eventRefs == Ids(events[..n])
    ensures Names(blocks, history[d..d'])
  {
    assert events[..n] == history[d..d'];
    assert blocks[|blocks| - 1].eventRefs == Ids(history[d..d']);
  }

  // Saved blocks are old ones, or the one just generated.
  lemma BlocksAfter(s: Setup, t: Thread, turn: Turn, n: nat)
    requires n == Cutoff(s.enc, t.events, Normalized(s.cfg))
    ensures forall b :: b in NextThread(s, t, turn).blocks ==>
              b in t.blocks || (n > 0 && b == BlockOf(s.enc, t.events[..n]))
  {
    hide Cutoff, BlockOf, TrimSpace, HasId, PersistedEvents, LastBlocks, Joined;
    var generated := Compacted(s.enc, t.events, Normalized(s.cfg)).blocks;
    JoinedFrom(t.blocks, generated);
    LastBlocksFrom(Joined(t.blocks, generated), MaxThreadSummaries(s.max));
  }

  lemma LastBlocksFrom(blocks: seq<Block>, max: nat)
    ensures forall b :: b in LastBlocks(blocks, max) ==> b in blocks
  {
  }

  lemma {:induction false} JoinedFrom(existing: seq<Block>, generated: seq<Block>)
    ensures forall b :: b in Joined(existing, generated) ==> b in existing || b in generated
  {
    hide TrimSpace, HasId;
    if generated != [] {
      JoinedFrom(existing, generated[..|generated| - 1]);
    }
  }

  lemma BlocksConserved(
    s: Setup, t: Thread, next: Thread, history: seq<Event>, d: nat, n: nat, more: seq<Event>)
    requires Conserved(s, t, history, d) && n <= |t.events| && d + n <= |history|
    requires next.events == (history + more)[d + n..]
    requires forall b :: b in next.blocks ==> b in t.blocks || (n > 0 && b == BlockOf(s.enc, t.events[..n]))
    ensures Conserved(s, next, history + more, d + n)
  {
    hide BlockId, Earliest, Latest;
    var all, m := history + more, d + n;
    assert all[..m] == history[..m];
    forall i | 0 <= i < |next.blocks|
      ensures BlockOfDropped(s.enc, next.blocks[i], all, m)
    {
      var b := next.blocks[i];
      assert b in next.blocks;
      if b in t.blocks {
        var k :| 0 <= k < |t.blocks| && t.blocks[k] == b;
        assert BlockOfDropped(s.enc, b, history, d);
        IdsGrow(history, d, m, b.eventRefs[0]);
      } else {
        assert b.eventRefs[0] == t.events[..n][0].id == history[d].id;
        IdAt(history, d, m);
      }
    }
  }

  lemma IdsGrow(history: seq<Event>, d: nat, m: nat, id: string)
    requires d <= m <= |history| && id in Ids(history[..d])
    ensures id in Ids(history[..m])
  {
    var k :| 0 <= k < |Ids(history[..d])| && Ids(history[..d])[k] == id;
    assert Ids(history[..m])[k] == id;
  }

  lemma IdAt(history: seq<Event>, k: nat, m: nat)
    requires k < m <= |history|
    ensures history[k].id in Ids(history[..m])
  {
    assert Ids(history[..m])[k] == history[k].id;
  }

  // Over every run of turns whose events have distinct ids, the log is what is
  // left of everything ever appended after dropping the oldest events.
  lemma {:induction false} RunConserves(s: Setup, turns: seq<Turn>) returns (d: nat)
    requires FixedWidth(s.enc) && ValidEvents(History(turns)) && DistinctIds(History(turns))
    ensures Conserved(s, Run(s, turns), History(turns), d)
    decreases |turns|
  {
    hide Conserved, FixedWidth, NextThread, ValidEvent;
    if turns == [] {
      d := 0;
      EmptyConserved(s);
    } else {
      var most, turn := turns[..|turns| - 1], turns[|turns| - 1];
      var before := History(most);
      assert History(turns) == before + (turn.during + turn.after);
      assert forall i :: 0 <= i < |before| ==> before[i] == History(turns)[i];
      d := RunConserves(s, most);
      d := TurnConserves(s, Run(s, most), before, d, turn);
    }
  }

  lemma EmptyConserved(s: Setup)
    ensures Conserved(s, EMPTY, [], 0)
  {
  }

  // A log that every turn extends by at most k events never exceeds the compaction
  // threshold by more than k, whatever the byte limit is.
  lemma {:induction false} RunBounded(s: Setup, turns: seq<Turn>, k: nat)
    requires forall i :: 0 <= i < |turns| ==> |turns[i].during| + |turns[i].after| <= k
    ensures |Run(s, turns).events| <= Normalized(s.cfg).maxEventsBeforeCompact + k
    decreases |turns|
  {
    hide NextThread;
    if turns != [] {
      var most, turn := turns[..|turns| - 1], turns[|turns| - 1];
      RunBounded(s, most, k);
      TurnBounded(s, Run(s, most), turn);
    }
  }

  lemma TurnBounded(s: Setup, t: Thread, turn: Turn)
    ensures |NextThread(s, t, turn).events|
         <= Normalized(s.cfg).maxEventsBeforeCompact + |turn.during| + |turn.after|
  {
    hide Merged, BlockOf, NotLoaded;
    var ids := Ids(t.events);
    OwnIds(t.events, 0);
    AllLoaded(t.events, ids);
    NotLoadedConcat(t.events, turn.during, ids);
    FreshKept(turn.during, ids);
  }

  // ---------------------------------------------------------------- the thresholds

  // The number of events that stay and the number that is tolerated, as configured or
  // by default.
  predicate Thresholds(cfg: Config, recent: nat, before: nat) {
    && recent == (if cfg.maxRecentEvents >= 1 then cfg.maxRecentEvents else 6)
    && before == (if cfg.maxEventsBeforeCompact > recent then cfg.maxEventsBeforeCompact else recent + 4)
  }

  // Within both thresholds all events stay and nothing is summarised; beyond either,
  // the configured number of newest events stay and one block names the others.
  lemma CompactionByThreshold(enc: Encoding, events: seq<Event>, cfg: Config, recent: nat, before: nat)
    requires Thresholds(cfg, recent, before)
    ensures var over := |events| > before || (cfg.maxSerializedBytes > 0 && enc.size(events) > cfg.maxSerializedBytes);
            var c := Compacted(enc, events, cfg);
            if over && |events| > recent then
              var n := |events| - recent;
              && c.compacted && c.retained == events[n..] && |c.retained| == recent
              && |c.blocks| == 1 && c.blocks[0].eventRefs == Ids(events[..n]) && c.blocks[0].eventCount == n
              && forall i :: 0 <= i < n ==> c.blocks[0].startAt <= events[i].at <= c.blocks[0].endAt
            else !c.compacted && c.retained == events && c.blocks == []
  {
    hide Ids, BlockId;
    CompactedIs(enc, events, cfg);
    var n := |events| - recent;
    if n > 0 {
      assert forall i :: 0 <= i < n ==> events[..n][i] == events[i];
    }
  }

  // What is saved of the blocks: those there were, then the new one unless its id is
  // taken, and of these the last ones, three by default.
  lemma SavedBlocks(existing: seq<Block>, block: Block, max: int)
    requires TrimSpace(block.id) != ""
    ensures var n := if max < 1 then 3 else max;
            var taken := exists i :: 0 <= i < |existing| && TrimSpace(existing[i].id) == TrimSpace(block.id);
            var all := if taken then existing else existing + [block];
            && MaxThreadSummaries(max) == n
            && Merged(existing, [block], n) == (if |all| <= n then all else all[|all| - n..])
            && Merged(existing, [], n) == (if |existing| <= n then existing else existing[|existing| - n..])
  {
    hide *;
    JoinedOne(existing, block);
    MergedIs(existing, [block], max);
    MergedIs(existing, [], max);
  }

  lemma JoinedOne(existing: seq<Block>, block: Block)
    requires TrimSpace(block.id) != ""
    ensures var taken := exists i :: 0 <= i < |existing| && TrimSpace(existing[i].id) == TrimSpace(block.id);
            Joined(existing, [block]) == if taken then existing else existing + [block]
    ensures Joined(existing, []) == existing
  {
    hide TrimSpace;
    assert [block][..0] == [];
    assert Joined(existing, []) == existing;
  }

  lemma MergedIs(existing: seq<Block>, generated: seq<Block>, max: int)
    ensures var n := if max < 1 then 3 else max; var all := Joined(existing, generated);
            && MaxThreadSummaries(max) == n
            && Merged(existing, generated, n) == if |all| <= n then all else all[|all| - n..]
  {
    hide Joined;
  }
}
