// Every run of the approval protocol: what each step keeps, how often an approval
// leads to a tool run, and where checkpoints are left behind.
module ApprovalRuns {
  import opened Wrappers
  import opened ApprovalStore
  import opened ApprovalProtocol

  datatype Step =
    | NewTurn(conversation: string, checkpoint: string, events: seq<Event>, end: End)
    | Decision(key: Key, choice: string, world: World)

  function Next(s: State, step: Step): State {
    match step
    case NewTurn(conversation, checkpoint, es, end) => Turn(s, conversation, checkpoint, es, end)
    case Decision(key, choice, w) => Decide(s, key, choice, w).0
  }

  function After(steps: seq<Step>): State {
    if steps == [] then EMPTY else Next(After(steps[..|steps| - 1]), steps[|steps| - 1])
  }

  // ---------------------------------------------------------------- fresh ids

  // Approval ids and checkpoint ids are taken from the clock and are not used twice; a
  // call asked for is no repair yet.
  predicate FreshTool(s: State, t: Tool) {
    t.RunFailed? && t.repair.Retry? ==> t.repair.id !in s.log.issued
  }

  predicate FreshEvent(s: State, e: Event) {
    && e.id !in s.log.issued
    && e.call.repairAttempt == 0
    && (e.RunNow? ==> FreshTool(s, e.tool) && (e.tool.RunFailed? && e.tool.repair.Retry? ==> e.tool.repair.id != e.id))
  }

  predicate FreshEvents(s: State, conversation: string, es: seq<Event>) {
    es == [] ||
    (var most := es[..|es| - 1];
     FreshEvents(s, conversation, most) && FreshEvent(Events(s, conversation, most), es[|es| - 1]))
  }

  predicate FreshTurn(s: State, conversation: string, es: seq<Event>, end: End) {
    && FreshEvents(s, conversation, es)
    && (end.Interrupted? ==> end.id !in Events(s, conversation, es).log.issued)
  }

  predicate NewCheckpoint(s: State, checkpoint: string) {
    && checkpoint !in s.checkpoints
    && forall k :: k in s.resumes ==> s.resumes[k].checkpoint != checkpoint
  }

  predicate Fresh(s: State, step: Step) {
    match step
    case NewTurn(conversation, checkpoint, es, end) =>
      NewCheckpoint(s, checkpoint) && FreshTurn(s, conversation, es, end)
    case Decision(key, _, w) =>
      FreshTool(s, w.tool) && FreshTurn(s, key.0, w.events, w.end)
  }

  predicate FreshRun(steps: seq<Step>) {
    steps == [] ||
    (FreshRun(steps[..|steps| - 1]) && Fresh(After(steps[..|steps| - 1]), steps[|steps| - 1]))
  }

  // ---------------------------------------------------------------- what is kept

  // An id names one pending approval at most.
  predicate IdsOk(s: State) {
    && (forall k :: k in s.calls ==> k.1 in s.log.issued && k.1 !in s.log.rejected)
    && (forall k :: k in s.resumes ==> k.1 in s.log.issued && k.1 !in s.log.rejected)
    && (forall k, l :: k in s.calls && l in s.calls && k.1 == l.1 ==> k == l)
    && (forall k, l :: k in s.resumes && l in s.resumes && k.1 == l.1 ==> k == l)
    && (forall k, l :: k in s.calls && l in s.resumes ==> k.1 != l.1)
    && s.log.rejected <= s.log.issued
  }

  // Every pending checkpoint approval has its checkpoint, and its own one.
  predicate CheckpointsOk(s: State) {
    && (forall k :: k in s.resumes ==> s.resumes[k].checkpoint in s.checkpoints)
    && (forall k, l :: k in s.resumes && l in s.resumes && s.resumes[k].checkpoint == s.resumes[l].checkpoint ==>
          k == l)
  }

  // An approval runs once at most: not while it is pending and not once it is rejected.
  predicate RunsOk(s: State) {
    && (forall i :: 0 <= i < |s.log.runs| ==> s.log.runs[i].approval in s.log.issued - s.log.rejected)
    && (forall i, j :: 0 <= i < j < |s.log.runs| ==> s.log.runs[i].approval != s.log.runs[j].approval)
    && (forall i, k :: 0 <= i < |s.log.runs| && k in s.calls ==> s.log.runs[i].approval != k.1)
    && (forall i, k :: 0 <= i < |s.log.runs| && k in s.resumes ==> s.log.runs[i].approval != k.1)
  }

  function RunsOf(runs: seq<Run>, origin: string): nat {
    if runs == [] then 0
    else RunsOf(runs[..|runs| - 1], origin) + if runs[|runs| - 1].origin == origin then 1 else 0
  }

  // A pending call's attempt counts the runs of its chain.
  predicate CallOk(s: State, k: Key)
    requires k in s.calls
  {
    && k.1 in s.log.origin && s.log.origin[k.1] in s.log.issued
    && 0 <= s.calls[k].repairAttempt <= 1
    && RunsOf(s.log.runs, s.log.origin[k.1]) == s.calls[k].repairAttempt
  }

  // A chain of repairs has one pending call at most.
  predicate OneOfChain(s: State, k: Key, l: Key)
    requires k in s.calls && l in s.calls
  {
    k.1 in s.log.origin && l.1 in s.log.origin && s.log.origin[k.1] == s.log.origin[l.1] ==> k == l
  }

  predicate ChainBound(s: State, origin: string) {
    RunsOf(s.log.runs, origin) <= if origin in s.log.issued then 2 else 0
  }

  ghost predicate ChainsOk(s: State) {
    && (forall k :: k in s.calls ==> CallOk(s, k))
    && (forall k, l :: k in s.calls && l in s.calls ==> OneOfChain(s, k, l))
    && (forall o :: ChainBound(s, o))
  }

  ghost predicate Inv(s: State) {
    IdsOk(s) && CheckpointsOk(s) && RunsOk(s) && ChainsOk(s)
  }

  // ---------------------------------------------------------------- stored calls

  lemma PutKeepsIds(s: State, key: Key, call: Call, origin: string)
    requires IdsOk(s) && key.1 !in s.log.issued
    ensures IdsOk(PutCall(s, key, call, origin))
  {
  }

  lemma PutKeepsRuns(s: State, key: Key, call: Call, origin: string)
    requires RunsOk(s) && key.1 !in s.log.issued
    ensures RunsOk(PutCall(s, key, call, origin))
  {
  }

  // A new call of a chain: the first one, or the next one of a chain with none pending.
  predicate MayPut(s: State, key: Key, call: Call, origin: string) {
    && key.1 !in s.log.issued && origin in s.log.issued + {key.1}
    && 0 <= call.repairAttempt <= 1 && RunsOf(s.log.runs, origin) == call.repairAttempt
    && forall k :: k in s.calls ==> k.1 in s.log.issued && k.1 in s.log.origin && s.log.origin[k.1] != origin
  }

  lemma PutKeepsCall(s: State, key: Key, call: Call, origin: string, k: Key)
    requires MayPut(s, key, call, origin) && (k in s.calls ==> CallOk(s, k))
    requires k in PutCall(s, key, call, origin).calls
    ensures CallOk(PutCall(s, key, call, origin), k)
  {
    hide RunsOf;
  }

  lemma PutKeepsOne(s: State, key: Key, call: Call, origin: string, k: Key, l: Key)
    requires MayPut(s, key, call, origin) && (k in s.calls && l in s.calls ==> OneOfChain(s, k, l))
    requires k in PutCall(s, key, call, origin).calls && l in PutCall(s, key, call, origin).calls
    ensures OneOfChain(PutCall(s, key, call, origin), k, l)
  {
    hide RunsOf;
  }

  lemma PutKeepsBound(s: State, key: Key, call: Call, origin: string, o: string)
    requires ChainBound(s, o)
    ensures ChainBound(PutCall(s, key, call, origin), o)
  {
    hide RunsOf;
  }

  lemma PutKeepsChains(s: State, key: Key, call: Call, origin: string)
    requires ChainsOk(s) && MayPut(s, key, call, origin)
    ensures ChainsOk(PutCall(s, key, call, origin))
  {
    hide RunsOf, CallOk, OneOfChain, ChainBound, MayPut, PutCall;
    var after := PutCall(s, key, call, origin);
    forall k | k in after.calls
      ensures CallOk(after, k)
    {
      PutKeepsCall(s, key, call, origin, k);
    }
    forall k, l | k in after.calls && l in after.calls
      ensures OneOfChain(after, k, l)
    {
      PutKeepsOne(s, key, call, origin, k, l);
    }
    forall o
      ensures ChainBound(after, o)
    {
      PutKeepsBound(s, key, call, origin, o);
    }
  }

  lemma MayPutFirst(s: State, key: Key, call: Call)
    requires IdsOk(s) && ChainsOk(s) && key.1 !in s.log.issued && call.repairAttempt == 0
    ensures MayPut(s, key, call, key.1)
  {
    hide RunsOf;
    assert ChainBound(s, key.1);
    forall k | k in s.calls
      ensures k.1 in s.log.issued && k.1 in s.log.origin && s.log.origin[k.1] != key.1
    {
      assert CallOk(s, k);
    }
  }

  lemma PutFirst(s: State, key: Key, call: Call)
    requires Inv(s) && key.1 !in s.log.issued && call.repairAttempt == 0
    ensures Inv(PutCall(s, key, call, key.1))
  {
    hide IdsOk, RunsOk, ChainsOk, MayPut;
    PutKeepsIds(s, key, call, key.1);
    PutKeepsRuns(s, key, call, key.1);
    MayPutFirst(s, key, call);
    PutKeepsChains(s, key, call, key.1);
  }

  lemma RunsOfSnoc(runs: seq<Run>, r: Run, o: string)
    ensures RunsOf(runs + [r], o) == RunsOf(runs, o) + if r.origin == o then 1 else 0
  {
    assert (runs + [r])[..|runs|] == runs;
  }

  // The call taken out of its store and run.
  function TakenAndRun(s: State, key: Key): State
    requires key in s.calls
  {
    Ran(s.(calls := s.calls - {key}), key.1, s.calls[key])
  }

  lemma RunKeepsIds(s: State, key: Key)
    requires IdsOk(s) && RunsOk(s) && key in s.calls
    ensures IdsOk(TakenAndRun(s, key)) && RunsOk(TakenAndRun(s, key))
  {
  }

  lemma RunCounts(s: State, key: Key, o: string)
    requires key in s.calls && CallOk(s, key)
    ensures RunsOf(TakenAndRun(s, key).log.runs, o)
         == RunsOf(s.log.runs, o) + if s.log.origin[key.1] == o then 1 else 0
  {
    hide RunsOf;
    RunsOfSnoc(s.log.runs, Run(key.1, s.log.origin[key.1], s.calls[key]), o);
  }

  lemma RunKeepsCall(s: State, key: Key, k: Key)
    requires key in s.calls && CallOk(s, key) && k in s.calls && k != key && CallOk(s, k) && OneOfChain(s, k, key)
    ensures CallOk(TakenAndRun(s, key), k) && s.log.origin[k.1] != s.log.origin[key.1]
  {
    hide RunsOf;
    RunCounts(s, key, s.log.origin[k.1]);
  }

  lemma RunKeepsBound(s: State, key: Key, o: string)
    requires key in s.calls && CallOk(s, key) && ChainBound(s, o)
    ensures ChainBound(TakenAndRun(s, key), o)
  {
    hide RunsOf;
    RunCounts(s, key, o);
  }

  lemma RunKeepsChains(s: State, key: Key)
    requires ChainsOk(s) && key in s.calls
    ensures ChainsOk(TakenAndRun(s, key))
  {
    hide RunsOf, CallOk, OneOfChain, ChainBound;
    var after := TakenAndRun(s, key);
    forall k | k in after.calls
      ensures CallOk(after, k)
    {
      RunKeepsCall(s, key, k);
    }
    forall k, l | k in after.calls && l in after.calls
      ensures OneOfChain(after, k, l)
    {
      SameLog(s, after, k, l);
    }
    forall o
      ensures ChainBound(after, o)
    {
      RunKeepsBound(s, key, o);
    }
  }

  lemma SameLog(s: State, after: State, k: Key, l: Key)
    requires k in s.calls && l in s.calls && k in after.calls && l in after.calls
    requires OneOfChain(s, k, l) && after.log.origin == s.log.origin
    ensures OneOfChain(after, k, l)
  {
  }

  lemma RunKeeps(s: State, key: Key)
    requires Inv(s) && key in s.calls
    ensures Inv(TakenAndRun(s, key))
  {
    hide IdsOk, RunsOk, ChainsOk;
    RunKeepsIds(s, key);
    RunKeepsChains(s, key);
  }

  // After the first run of a chain, its repaired call may be stored.
  lemma MayPutRetry(s: State, key: Key, id: string, call: Call)
    requires IdsOk(s) && ChainsOk(s) && key in s.calls && id !in s.log.issued
    requires s.calls[key].repairAttempt < 1 && call.repairAttempt == s.calls[key].repairAttempt + 1
    ensures MayPut(TakenAndRun(s, key), (key.0, id), call, OriginOf(s.log, key.1))
  {
    hide RunsOf;
    assert CallOk(s, key);
    RunCounts(s, key, s.log.origin[key.1]);
    forall k | k in s.calls && k != key
      ensures k.1 in s.log.origin && s.log.origin[k.1] != s.log.origin[key.1]
    {
      assert CallOk(s, k);
      assert OneOfChain(s, k, key);
    }
  }

  lemma RetryKeeps(s: State, key: Key, id: string, statement: string)
    requires Inv(s) && key in s.calls && s.calls[key].repairAttempt < 1 && id !in s.log.issued
    ensures var call := Call(EXECUTE, statement, s.calls[key].repairAttempt + 1);
            Inv(PutCall(TakenAndRun(s, key), (key.0, id), call, OriginOf(s.log, key.1)))
  {
    hide IdsOk, RunsOk, ChainsOk, MayPut;
    var after := TakenAndRun(s, key);
    var call := Call(EXECUTE, statement, s.calls[key].repairAttempt + 1);
    RunKeepsIds(s, key);
    RunKeepsChains(s, key);
    MayPutRetry(s, key, id, call);
    var o := OriginOf(s.log, key.1);
    PutKeepsIds(after, (key.0, id), call, o);
    PutKeepsRuns(after, (key.0, id), call, o);
    PutKeepsChains(after, (key.0, id), call, o);
  }

  function Taken(s: State, key: Key): State {
    s.(calls := s.calls - {key})
  }

  function TakenAndRejected(s: State, key: Key): State {
    Taken(s, key).(log := s.log.(rejected := s.log.rejected + {key.1}))
  }

  lemma TakeKeepsIds(s: State, key: Key)
    requires IdsOk(s) && RunsOk(s) && key in s.calls
    ensures IdsOk(Taken(s, key)) && RunsOk(Taken(s, key))
  {
  }

  lemma RejectKeepsIds(s: State, key: Key)
    requires IdsOk(s) && key in s.calls
    ensures IdsOk(TakenAndRejected(s, key))
  {
  }

  lemma RejectKeepsRuns(s: State, key: Key)
    requires RunsOk(s) && key in s.calls
    ensures RunsOk(TakenAndRejected(s, key))
  {
  }

  // Fewer calls and the same log, but for rejections, keep the chains.
  lemma FewerKeepsChains(s: State, after: State)
    requires ChainsOk(s) && (forall k :: k in after.calls ==> k in s.calls && after.calls[k] == s.calls[k])
    requires after.log.origin == s.log.origin && after.log.runs == s.log.runs && s.log.issued <= after.log.issued
    ensures ChainsOk(after)
  {
    hide RunsOf;
    forall k | k in after.calls
      ensures CallOk(after, k)
    {
      assert CallOk(s, k);
    }
    forall k, l | k in after.calls && l in after.calls
      ensures OneOfChain(after, k, l)
    {
      assert OneOfChain(s, k, l);
    }
    forall o
      ensures ChainBound(after, o)
    {
      assert ChainBound(s, o);
    }
  }

  lemma TakeKeeps(s: State, key: Key)
    requires Inv(s) && key in s.calls
    ensures Inv(Taken(s, key)) && Inv(TakenAndRejected(s, key))
  {
    hide IdsOk, RunsOk, ChainsOk;
    TakeKeepsIds(s, key);
    RejectKeepsIds(s, key);
    RejectKeepsRuns(s, key);
    FewerKeepsChains(s, Taken(s, key));
    FewerKeepsChains(s, TakenAndRejected(s, key));
  }

  lemma DecideKeeps(s: State, key: Key, approve: bool, t: Tool)
    requires Inv(s) && key in s.calls && FreshTool(s, t)
    ensures Inv(DecideCall(s, key, approve, t))
  {
    hide Inv;
    TakeKeeps(s, key);
    RunKeeps(s, key);
    if Retries(s.calls[key], t) {
      RetryKeeps(s, key, t.repair.id, t.repair.statement);
    }
  }

  // ---------------------------------------------------------------- turns

  lemma EventKeeps(s: State, conversation: string, e: Event)
    requires Inv(s) && FreshEvent(s, e)
    ensures Inv(Happen(s, conversation, e))
  {
    hide Inv, DecideCall, FreshTool;
    var key := (conversation, e.id);
    PutFirst(s, key, e.call);
    if e.RunNow? {
      ToolStaysFresh(s, key, e);
      DecideKeeps(PutCall(s, key, e.call, e.id), key, true, e.tool);
    }
  }

  lemma ToolStaysFresh(s: State, key: Key, e: Event)
    requires FreshEvent(s, e) && e.RunNow? && key.1 == e.id
    ensures FreshTool(PutCall(s, key, e.call, e.id), e.tool)
  {
  }

  lemma {:induction false} EventsKeep(s: State, conversation: string, es: seq<Event>)
    requires Inv(s) && FreshEvents(s, conversation, es)
    ensures Inv(Events(s, conversation, es))
  {
    hide Inv, Happen, FreshEvent;
    if es != [] {
      EventsKeep(s, conversation, es[..|es| - 1]);
      EventKeeps(Events(s, conversation, es[..|es| - 1]), conversation, es[|es| - 1]);
    }
  }

  // Events touch neither the resumable approvals nor the checkpoints.
  lemma {:induction false} EventsFrame(s: State, conversation: string, es: seq<Event>)
    ensures Events(s, conversation, es).resumes == s.resumes
    ensures Events(s, conversation, es).checkpoints == s.checkpoints
    ensures Events(s, conversation, es).log.rejected == s.log.rejected
    ensures s.log.issued <= Events(s, conversation, es).log.issued
  {
    if es != [] {
      EventsFrame(s, conversation, es[..|es| - 1]);
    }
  }

  // What an interrupt stores, apart from the log of ids.
  lemma InterruptKeepsIds(s: State, conversation: string, checkpoint: string, end: End)
    requires IdsOk(s) && RunsOk(s) && end.Interrupted? && end.id !in s.log.issued
    ensures IdsOk(EndTurn(s, conversation, checkpoint, end))
  {
  }

  lemma InterruptKeepsRuns(s: State, conversation: string, checkpoint: string, end: End)
    requires RunsOk(s) && end.Interrupted? && end.id !in s.log.issued
    ensures RunsOk(EndTurn(s, conversation, checkpoint, end))
  {
  }

  // The same approvals and log, and no checkpoint lost.
  lemma SavedKeeps(s: State, after: State)
    requires Inv(s) && after.calls == s.calls && after.resumes == s.resumes && after.log == s.log
    requires s.checkpoints.Keys <= after.checkpoints.Keys
    ensures Inv(after)
  {
    FewerKeepsChains(s, after);
  }

  lemma NewTurnEnds(s: State, conversation: string, checkpoint: string, end: End)
    requires Inv(s) && NewCheckpoint(s, checkpoint) && (end.Interrupted? ==> end.id !in s.log.issued)
    ensures Inv(EndTurn(s, conversation, checkpoint, end))
  {
    hide IdsOk, RunsOk, ChainsOk;
    var after := EndTurn(s, conversation, checkpoint, end);
    if end.Interrupted? {
      InterruptKeepsIds(s, conversation, checkpoint, end);
      InterruptKeepsRuns(s, conversation, checkpoint, end);
      FewerKeepsChains(s, after);
    } else {
      SavedKeeps(s, after);
    }
  }

  lemma NewTurnKeeps(s: State, conversation: string, checkpoint: string, es: seq<Event>, end: End)
    requires Inv(s) && NewCheckpoint(s, checkpoint) && FreshTurn(s, conversation, es, end)
    ensures Inv(Turn(s, conversation, checkpoint, es, end))
  {
    hide Inv, Events, FreshEvents, EndTurn;
    EventsKeep(s, conversation, es);
    EventsFrame(s, conversation, es);
    NewTurnEnds(Events(s, conversation, es), conversation, checkpoint, end);
  }

  // ---------------------------------------------------------------- decisions

  lemma DropKeepsIds(s: State, key: Key)
    requires IdsOk(s) && RunsOk(s) && key in s.resumes
    ensures IdsOk(DropItem(s, key, s.resumes[key])) && RunsOk(DropItem(s, key, s.resumes[key]))
  {
  }

  lemma DropKeeps(s: State, key: Key)
    requires Inv(s) && key in s.resumes
    ensures Inv(DropItem(s, key, s.resumes[key]))
  {
    hide IdsOk, RunsOk, ChainsOk;
    DropKeepsIds(s, key);
    FewerKeepsChains(s, DropItem(s, key, s.resumes[key]));
  }

  // The end of a resumed turn and the writes after it, in one.
  function ResumeEnds(s: State, key: Key, checkpoint: string, end: End): State {
    var after := EndTurn(s, key.0, checkpoint, end);
    if end.TurnFailed? then after else Close(after, key, checkpoint, Shown(end))
  }

  lemma ResumeKeepsIds(s: State, key: Key, end: End)
    requires IdsOk(s) && RunsOk(s) && key in s.resumes && (end.Interrupted? ==> end.id !in s.log.issued)
    ensures var after := ResumeEnds(s, key, s.resumes[key].checkpoint, end); IdsOk(after) && RunsOk(after)
  {
    hide IdsOk, RunsOk;
    var checkpoint := s.resumes[key].checkpoint;
    var ended := EndTurn(s, key.0, checkpoint, end);
    if end.Interrupted? {
      InterruptKeepsIds(s, key.0, checkpoint, end);
      InterruptKeepsRuns(s, key.0, checkpoint, end);
    } else {
      SavedKeepsIds(s, ended);
    }
    CloseKeepsIds(ended, key, checkpoint, Shown(end));
  }

  lemma SavedKeepsIds(s: State, after: State)
    requires IdsOk(s) && RunsOk(s)
    requires after.calls == s.calls && after.resumes == s.resumes && after.log == s.log
    ensures IdsOk(after) && RunsOk(after)
  {
  }

  lemma CloseKeepsIds(s: State, key: Key, checkpoint: string, shown: Option<string>)
    requires IdsOk(s) && RunsOk(s)
    ensures IdsOk(Close(s, key, checkpoint, shown)) && RunsOk(Close(s, key, checkpoint, shown))
  {
  }

  // The new approval takes the place of the old one at the checkpoint.
  lemma ResumeKeepsCheckpoints(s: State, key: Key, end: End)
    requires CheckpointsOk(s) && key in s.resumes && (end.Interrupted? ==> (key.0, end.id) !in s.resumes)
    ensures CheckpointsOk(ResumeEnds(s, key, s.resumes[key].checkpoint, end))
  {
    var c := s.resumes[key].checkpoint;
    match end
    case Finished(shown) => RemovedKeeps(s, ResumeEnds(s, key, c, end), key);
    case Interrupted(id, interrupt, _) => MovedKeeps(s, ResumeEnds(s, key, c, end), key, (key.0, id), interrupt);
    case TurnFailed(_) =>
  }

  lemma RemovedKeeps(s: State, after: State, key: Key)
    requires CheckpointsOk(s) && key in s.resumes && after.resumes == s.resumes - {key}
    requires forall c :: c in s.checkpoints && c != s.resumes[key].checkpoint ==> c in after.checkpoints
    ensures CheckpointsOk(after)
  {
  }

  lemma MovedKeeps(s: State, after: State, key: Key, next: Key, interrupt: string)
    requires CheckpointsOk(s) && key in s.resumes && next !in s.resumes
    requires after.resumes == s.resumes[next := Item(s.resumes[key].checkpoint, interrupt)] - {key}
    requires s.checkpoints.Keys <= after.checkpoints.Keys
    ensures CheckpointsOk(after)
  {
  }

  lemma NewKey(s: State, key: Key, end: End)
    requires IdsOk(s) && (end.Interrupted? ==> end.id !in s.log.issued)
    ensures end.Interrupted? ==> (key.0, end.id) !in s.resumes
  {
  }

  lemma ResumeEndsKeeps(s: State, key: Key, end: End)
    requires Inv(s) && key in s.resumes && (end.Interrupted? ==> end.id !in s.log.issued)
    ensures Inv(ResumeEnds(s, key, s.resumes[key].checkpoint, end))
  {
    hide IdsOk, RunsOk, ChainsOk, CheckpointsOk;
    ResumeKeepsIds(s, key, end);
    NewKey(s, key, end);
    ResumeKeepsCheckpoints(s, key, end);
    FewerKeepsChains(s, ResumeEnds(s, key, s.resumes[key].checkpoint, end));
  }

  lemma ResumeKeeps(s: State, key: Key, w: World)
    requires Inv(s) && key in s.resumes && FreshTurn(s, key.0, w.events, w.end)
    ensures Inv(Resume(s, key, s.resumes[key], w).0)
  {
    hide Inv, Events, FreshEvents, EndTurn, Close;
    EventsKeep(s, key.0, w.events);
    EventsFrame(s, key.0, w.events);
    ResumeEndsKeeps(Events(s, key.0, w.events), key, w.end);
  }

  lemma DecisionKeeps(s: State, key: Key, choice: string, w: World)
    requires Inv(s) && FreshTool(s, w.tool) && FreshTurn(s, key.0, w.events, w.end)
    ensures Inv(Decide(s, key, choice, w).0)
  {
    hide Inv, FreshTool, FreshTurn, DropItem, Resume, DecideCall;
    if key in s.resumes {
      DropKeeps(s, key);
      ResumeKeeps(s, key, w);
    } else if key in s.calls {
      DecideKeeps(s, key, choice == "approve", w.tool);
    }
  }

  // ---------------------------------------------------------------- runs

  lemma EmptyInv()
    ensures Inv(EMPTY)
  {
  }

  // Every run keeps the protocol's invariant.
  lemma {:induction false} RunKeepsInv(steps: seq<Step>)
    requires FreshRun(steps)
    ensures Inv(After(steps))
  {
    hide Inv, NewCheckpoint, FreshTurn, FreshTool, Turn, Decide;
    if steps == [] {
      EmptyInv();
    } else {
      var most, last := steps[..|steps| - 1], steps[|steps| - 1];
      RunKeepsInv(most);
      match last
      case NewTurn(conversation, checkpoint, es, end) => NewTurnKeeps(After(most), conversation, checkpoint, es, end);
      case Decision(key, choice, w) => DecisionKeeps(After(most), key, choice, w);
    }
  }

  // In every run an approval leads to one run of its call at most, and a rejected one
  // to none, then or later.
  lemma RunsAtMostOnce(steps: seq<Step>)
    requires FreshRun(steps)
    ensures var log := After(steps).log;
            && (forall i, j :: 0 <= i < j < |log.runs| ==> log.runs[i].approval != log.runs[j].approval)
            && (forall i :: 0 <= i < |log.runs| ==> log.runs[i].approval !in log.rejected)
  {
    RunKeepsInv(steps);
  }

  // In every run the calls of one chain of repairs are run twice at most.
  lemma ChainRunsAtMostTwice(steps: seq<Step>, origin: string)
    requires FreshRun(steps)
    ensures RunsOf(After(steps).log.runs, origin) <= 2
  {
    hide RunsOf;
    RunKeepsInv(steps);
    assert ChainBound(After(steps), origin);
  }

  // In every run each pending checkpoint approval has a checkpoint no other one has.
  lemma PendingHaveCheckpoints(steps: seq<Step>)
    requires FreshRun(steps)
    ensures CheckpointsOk(After(steps))
  {
    RunKeepsInv(steps);
  }
}
