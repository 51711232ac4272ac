// Checkpoints of interrupted turns: what a decision leaves of an approval and its
// checkpoint, and which steps leave a checkpoint behind that nothing can resume.
module ApprovalCheckpoints {
  import opened Wrappers
  import opened ApprovalStore
  import opened ApprovalProtocol
  import opened ApprovalRuns

  // The approval can be resumed: its checkpoint and interrupt are known.
  predicate Resumable(item: Item) {
    item.checkpoint != "" && item.interrupt != ""
  }

  // Apart from the resumed one, the same checkpoints.
  ghost predicate SameOthers(before: map<string, Blob>, after: map<string, Blob>, checkpoint: string) {
    forall c :: c != checkpoint ==> (c in before <==> c in after)
  }

  // A resumed turn is the events and its end with the writes after it.
  lemma ResumeIs(s: State, key: Key, w: World)
    requires key in s.resumes && key.0 != "" && key.1 != "" && Resumable(s.resumes[key])
    ensures Decide(s, key, "approve", w)
         == (ResumeEnds(Events(s, key.0, w.events), key, s.resumes[key].checkpoint, w.end),
             if w.end.TurnFailed? then Error else Done(Shown(w.end)))
  {
    hide Events, EndTurn, Close;
  }

  lemma EndsApprovals(s: State, key: Key, checkpoint: string, end: End)
    requires key in s.resumes && (end.Interrupted? ==> (key.0, end.id) !in s.resumes)
    ensures var after := ResumeEnds(s, key, checkpoint, end);
            && (key in after.resumes <==> end.TurnFailed?)
            && (end.TurnFailed? ==> after.resumes == s.resumes)
            && (end.Finished? ==> after.resumes == s.resumes - {key})
            && (end.Interrupted? ==>
                  after.resumes == (s.resumes - {key})[(key.0, end.id) := Item(checkpoint, end.interrupt)])
  {
  }

  lemma EndsCheckpoints(s: State, key: Key, checkpoint: string, end: End)
    requires checkpoint in s.checkpoints
    ensures var after := ResumeEnds(s, key, checkpoint, end);
            && (checkpoint in after.checkpoints <==> end.TurnFailed? || Shown(end).Some?)
            && SameOthers(s.checkpoints, after.checkpoints, checkpoint)
  {
  }

  // A resumed turn that fails leaves its approval and checkpoint in place, and every
  // other one; one that succeeds removes the approval, whatever else is pending, and
  // an interrupt hands the checkpoint on to the new approval.
  lemma ResumeOutcome(s: State, key: Key, w: World)
    requires Inv(s) && key in s.resumes && key.0 != "" && key.1 != ""
    requires Resumable(s.resumes[key]) && FreshTurn(s, key.0, w.events, w.end)
    ensures var (after, reply) := Decide(s, key, "approve", w); var checkpoint := s.resumes[key].checkpoint;
            && (key in after.resumes <==> w.end.TurnFailed?)
            && (reply == Error <==> w.end.TurnFailed?)
            && (w.end.TurnFailed? ==> after.resumes == s.resumes)
            && (w.end.Finished? ==> after.resumes == s.resumes - {key})
            && (w.end.Interrupted? ==>
                  after.resumes == (s.resumes - {key})[(key.0, w.end.id) := Item(checkpoint, w.end.interrupt)])
            && (checkpoint in after.checkpoints <==> reply != Done(None))
            && SameOthers(s.checkpoints, after.checkpoints, checkpoint)
  {
    hide Events, Inv, FreshTurn, Decide, ResumeEnds, SameOthers;
    EventsFrame(s, key.0, w.events);
    CheckpointPresent(s, key);
    NewIdIsNew(s, key, w);
    ResumeIs(s, key, w);
    var happened := Events(s, key.0, w.events);
    EndsApprovals(happened, key, s.resumes[key].checkpoint, w.end);
    EndsCheckpoints(happened, key, s.resumes[key].checkpoint, w.end);
  }

  // A rejected checkpoint approval is gone with its checkpoint, the others stay.
  lemma RejectOutcome(s: State, key: Key, w: World)
    requires Inv(s) && key in s.resumes && key.0 != "" && key.1 != ""
    ensures var (after, reply) := Decide(s, key, "reject", w);
            && reply == Done(None)
            && after.resumes == s.resumes - {key}
            && after.checkpoints == s.checkpoints - {s.resumes[key].checkpoint}
            && after.calls == s.calls && after.log.runs == s.log.runs
            && CheckpointsOk(after)
  {
    hide Inv, CheckpointsOk;
    DropKeeps(s, key);
    InvCheckpoints(DropItem(s, key, s.resumes[key]));
  }

  lemma InvCheckpoints(s: State)
    requires Inv(s)
    ensures CheckpointsOk(s)
  {
  }

  // ---------------------------------------------------------------- left behind

  // A pending approval can resume the checkpoint.
  predicate Owned(s: State, checkpoint: string) {
    exists k :: k in s.resumes && s.resumes[k].checkpoint == checkpoint
  }

  ghost predicate AllOwned(s: State) {
    forall c :: c in s.checkpoints ==> Owned(s, c)
  }

  // A new turn that fails after its checkpoint was saved; a resumed turn whose response
  // carries an approval of another kind, asked for on the way.
  predicate LeavesCheckpoint(s: State, step: Step) {
    match step
    case NewTurn(_, _, _, end) => end.TurnFailed? && end.left.Some?
    case Decision(key, choice, w) =>
      && key.0 != "" && key.1 != "" && choice == "approve"
      && key in s.resumes && Resumable(s.resumes[key])
      && w.end.Finished? && w.end.shown.Some?
  }

  lemma OwnedBy(s: State, k: Key)
    requires k in s.resumes
    ensures Owned(s, s.resumes[k].checkpoint)
  {
  }

  // The checkpoints stay owned when those kept keep their owners.
  lemma StayOwned(s: State, after: State, gone: set<Key>)
    requires AllOwned(s)
    requires forall k :: k in s.resumes && k !in gone ==> k in after.resumes && after.resumes[k] == s.resumes[k]
    requires forall c :: c in after.checkpoints ==> Owned(after, c) || c in s.checkpoints
    requires forall k :: k in gone && k in s.resumes ==>
               s.resumes[k].checkpoint !in after.checkpoints || Owned(after, s.resumes[k].checkpoint)
    ensures AllOwned(after)
  {
    forall c | c in after.checkpoints
      ensures Owned(after, c)
    {
      if c in s.checkpoints {
        assert Owned(s, c);
        var k :| k in s.resumes && s.resumes[k].checkpoint == c;
        if k !in gone {
          OwnedBy(after, k);
        }
      }
    }
  }

  lemma NewTurnOwned(s: State, conversation: string, checkpoint: string, es: seq<Event>, end: End)
    requires AllOwned(s) && IdsOk(s) && NewCheckpoint(s, checkpoint) && FreshTurn(s, conversation, es, end)
    ensures var after := Turn(s, conversation, checkpoint, es, end);
            AllOwned(after) <==> !(end.TurnFailed? && end.left.Some?)
  {
    hide Events, FreshEvents, Owned, AllOwned;
    EventsFrame(s, conversation, es);
    var after := Turn(s, conversation, checkpoint, es, end);
    match end
    case Finished(_) => StayOwned(s, after, {});
    case Interrupted(id, _, _) =>
      OwnedBy(after, (conversation, id));
      StayOwned(s, after, {});
    case TurnFailed(left) =>
      if left.None? {
        StayOwned(s, after, {});
      } else {
        NotOwned(s, after, checkpoint);
      }
  }

  lemma NotOwned(s: State, after: State, checkpoint: string)
    requires NewCheckpoint(s, checkpoint) && after.resumes == s.resumes && checkpoint in after.checkpoints
    ensures !AllOwned(after)
  {
    assert !Owned(after, checkpoint);
  }

  lemma ResumeOwned(s: State, key: Key, w: World)
    requires AllOwned(s) && Inv(s) && key in s.resumes && key.0 != "" && key.1 != ""
    requires Resumable(s.resumes[key]) && FreshTurn(s, key.0, w.events, w.end)
    ensures AllOwned(Decide(s, key, "approve", w).0) <==> !(w.end.Finished? && w.end.shown.Some?)
  {
    hide Events, FreshTurn, Owned, AllOwned, Decide, ChainsOk, RunsOk, CheckpointsOk, IdsOk;
    var (after, reply) := Decide(s, key, "approve", w);
    var checkpoint := s.resumes[key].checkpoint;
    ResumeOutcome(s, key, w);
    ReplyIs(s, key, w);
    CheckpointPresent(s, key);
    if w.end.TurnFailed? {
      StayOwned(s, after, {});
    } else if w.end.Interrupted? {
      NewIdIsNew(s, key, w);
      OwnedBy(after, (key.0, w.end.id));
      StayOwned(s, after, {key});
    } else if w.end.shown.None? {
      StayOwned(s, after, {key});
    } else {
      OwnerGone(s, after, key);
    }
  }

  lemma ReplyIs(s: State, key: Key, w: World)
    requires key in s.resumes && key.0 != "" && key.1 != "" && Resumable(s.resumes[key])
    ensures Decide(s, key, "approve", w).1 == if w.end.TurnFailed? then Error else Done(Shown(w.end))
  {
  }

  lemma CheckpointPresent(s: State, key: Key)
    requires Inv(s) && key in s.resumes
    ensures s.resumes[key].checkpoint in s.checkpoints
  {
  }

  lemma NewIdIsNew(s: State, key: Key, w: World)
    requires Inv(s) && FreshTurn(s, key.0, w.events, w.end)
    ensures w.end.Interrupted? ==> (key.0, w.end.id) !in s.resumes
  {
    hide Events, FreshEvents, ChainsOk, RunsOk, CheckpointsOk;
    EventsFrame(s, key.0, w.events);
  }

  lemma OwnerGone(s: State, after: State, key: Key)
    requires Inv(s) && key in s.resumes && after.resumes == s.resumes - {key}
    requires s.resumes[key].checkpoint in after.checkpoints
    ensures !AllOwned(after)
  {
    hide IdsOk, ChainsOk, RunsOk;
    assert !Owned(after, s.resumes[key].checkpoint);
  }

  lemma DropOwned(s: State, key: Key)
    requires AllOwned(s) && Inv(s) && key in s.resumes
    ensures AllOwned(DropItem(s, key, s.resumes[key]))
  {
    hide Owned, AllOwned, ChainsOk, RunsOk, CheckpointsOk, IdsOk;
    StayOwned(s, DropItem(s, key, s.resumes[key]), {key});
  }

  lemma CallsOwned(s: State, key: Key, approve: bool, t: Tool)
    requires AllOwned(s) && key in s.calls
    ensures AllOwned(DecideCall(s, key, approve, t))
  {
    var after := DecideCall(s, key, approve, t);
    assert after.resumes == s.resumes && after.checkpoints == s.checkpoints;
    StayOwned(s, after, {});
  }

  // A step leaves a checkpoint behind in exactly those two cases.
  lemma OwnedIff(s: State, step: Step)
    requires Inv(s) && AllOwned(s) && Fresh(s, step)
    ensures AllOwned(Next(s, step)) <==> !LeavesCheckpoint(s, step)
  {
    hide Inv, AllOwned, Events, FreshEvents, Turn, Resume, DropItem, DecideCall;
    match step
    case NewTurn(conversation, checkpoint, es, end) =>
      InvIds(s);
      NewTurnOwned(s, conversation, checkpoint, es, end);
    case Decision(key, choice, w) =>
      if key.0 != "" && key.1 != "" {
        if key in s.resumes {
          if choice == "reject" {
            DropOwned(s, key);
          } else if choice == "approve" {
            if Resumable(s.resumes[key]) {
              ResumeOwned(s, key, w);
            } else {
              Unresumable(s, key, w);
            }
          }
        } else if key in s.calls {
          CallsOwned(s, key, choice == "approve", w.tool);
        }
      }
  }

  lemma InvIds(s: State)
    requires Inv(s)
    ensures IdsOk(s)
  {
  }

  lemma Unresumable(s: State, key: Key, w: World)
    requires key in s.resumes && !Resumable(s.resumes[key])
    ensures Resume(s, key, s.resumes[key], w) == (s, Error)
  {
  }

  // ---------------------------------------------------------------- run again

  // The runs of the calls that a turn approves on its way.
  function RunsIn(es: seq<Event>): seq<Run> {
    if es == [] then [] else RunsIn(es[..|es| - 1]) + RunIn(es[|es| - 1])
  }

  function RunIn(e: Event): seq<Run> {
    if e.RunNow? && !e.tool.NotRun? then [Run(e.id, e.id, e.call)] else []
  }

  lemma HappenRuns(s: State, conversation: string, e: Event)
    ensures Happen(s, conversation, e).log.runs == s.log.runs + RunIn(e)
  {
  }

  lemma {:induction false} EventsRuns(s: State, conversation: string, es: seq<Event>)
    ensures Events(s, conversation, es).log.runs == s.log.runs + RunsIn(es)
  {
    hide Happen, RunIn;
    if es != [] {
      EventsRuns(s, conversation, es[..|es| - 1]);
      HappenRuns(Events(s, conversation, es[..|es| - 1]), conversation, es[|es| - 1]);
    }
  }

  lemma ResumeRuns(s: State, key: Key, w: World)
    requires key in s.resumes && key.0 != "" && key.1 != "" && Resumable(s.resumes[key])
    ensures Decide(s, key, "approve", w).0.log.runs == s.log.runs + RunsIn(w.events)
    ensures Decide(s, key, "approve", w).0.calls == Events(s, key.0, w.events).calls
  {
    hide Events, Decide;
    ResumeIs(s, key, w);
    EventsRuns(s, key.0, w.events);
  }

  lemma NotStored(s: State, key: Key, w: World)
    requires Inv(s) && key in s.resumes && FreshTurn(s, key.0, w.events, w.end)
    ensures key !in Events(s, key.0, w.events).calls
  {
    hide Events, FreshEvents, ChainsOk, RunsOk, CheckpointsOk;
    EventsKeep(s, key.0, w.events);
    EventsFrame(s, key.0, w.events);
  }

  // At most one run is the rule of stored calls only: approving an approval of a turn
  // a second time runs the turn's calls a second time exactly when the first resumed
  // turn failed, and otherwise is refused and changes nothing.
  lemma SecondApproval(s: State, key: Key, first: World, second: World)
    requires Inv(s) && key in s.resumes && key.0 != "" && key.1 != "" && Resumable(s.resumes[key])
    requires FreshTurn(s, key.0, first.events, first.end)
    ensures var after := Decide(s, key, "approve", first).0;
            var (again, reply) := Decide(after, key, "approve", second);
            && after.log.runs == s.log.runs + RunsIn(first.events)
            && (first.end.TurnFailed? ==>
                  && again.log.runs == after.log.runs + RunsIn(second.events)
                  && (reply == Error <==> second.end.TurnFailed?))
            && (!first.end.TurnFailed? ==> again == after && reply == Error)
  {
    hide Inv, FreshTurn, Decide, Events, RunsIn, SameOthers;
    var after := Decide(s, key, "approve", first).0;
    ResumeOutcome(s, key, first);
    ResumeRuns(s, key, first);
    NotStored(s, key, first);
    if first.end.TurnFailed? {
      ResumeRuns(after, key, second);
      ReplyIs(after, key, second);
    } else {
      Unknown(after, key, second);
    }
  }

  lemma Unknown(s: State, key: Key, w: World)
    requires key !in s.resumes && key !in s.calls
    ensures Decide(s, key, "approve", w) == (s, Error)
  {
  }

  // One such run from the start.
  lemma FailedResumeRunsAgain(call: Call)
    requires call.repairAttempt == 0
    ensures var steps := [Interrupting(), Approving("b", call, TurnFailed(None)), Approving("d", call, Finished(None))];
            FreshRun(steps) && After(steps).log.runs == [Run("b", "b", call), Run("d", "d", call)]
  {
    hide *;
    var s1, s2, s3 := Interrupting(), Approving("b", call, TurnFailed(None)), Approving("d", call, Finished(None));
    assert [] + [s1] == [s1] && [s1] + [s2] == [s1, s2] && [s1, s2] + [s3] == [s1, s2, s3];
    TwoRuns(call);
    RunOfNone();
    FirstStep();
    RunOneMore([], s1);
    ResumedRun(Stopped(), "b", call, TurnFailed(None));
    RunOneMore([s1], s2);
    ResumedRun(RunBy(Stopped(), "b", call), "d", call, Finished(None));
    RunOneMore([s1, s2], s3);
  }

  lemma RunOfNone()
    ensures FreshRun([]) && After([]) == EMPTY
  {
  }

  lemma RunOneMore(steps: seq<Step>, step: Step)
    requires FreshRun(steps) && Fresh(After(steps), step)
    ensures FreshRun(steps + [step]) && After(steps + [step]) == Next(After(steps), step)
  {
    hide Fresh, Next;
    assert (steps + [step])[..|steps|] == steps;
  }

  const PENDING: Key := ("c", "a")

  // A turn interrupted for an approval, and a decision that runs the call on the way.
  function Interrupting(): Step {
    NewTurn("c", "p", [], Interrupted("a", "i", []))
  }

  function Approving(id: string, call: Call, end: End): Step {
    Decision(PENDING, "approve", World(NotRun(false), [RunNow(id, call, Succeeded)], end))
  }

  function RunBy(s: State, id: string, call: Call): State {
    s.(log := s.log.(issued := s.log.issued + {id}, origin := s.log.origin[id := id],
                     runs := s.log.runs + [Run(id, id, call)]))
  }

  // The state with that one approval pending.
  function Stopped(): State {
    State(map[], map[PENDING := Item("p", "i")], map["p" := []], Log({"a"}, {}, map[], []))
  }

  lemma FirstStep()
    ensures Fresh(EMPTY, Interrupting()) && Next(EMPTY, Interrupting()) == Stopped()
  {
  }

  lemma OneEvent(s: State, conversation: string, e: Event)
    requires FreshEvent(s, e)
    ensures FreshEvents(s, conversation, [e]) && Events(s, conversation, [e]) == Happen(s, conversation, e)
  {
    hide FreshEvent, Happen;
    assert [e][..0] == [];
    assert FreshEvents(s, conversation, []) && Events(s, conversation, []) == s;
  }

  predicate OnlyPending(s: State) {
    s.calls == map[] && s.resumes == map[PENDING := Item("p", "i")]
  }

  lemma ResumedRun(s: State, id: string, call: Call, end: End)
    requires OnlyPending(s) && id !in s.log.issued
    requires call.repairAttempt == 0 && (end == TurnFailed(None) || end == Finished(None))
    ensures Fresh(s, Approving(id, call, end))
    ensures end == TurnFailed(None) ==> Next(s, Approving(id, call, end)) == RunBy(s, id, call)
    ensures Next(s, Approving(id, call, end)).log.runs == s.log.runs + [Run(id, id, call)]
  {
    hide Events, FreshEvents;
    var e := RunNow(id, call, Succeeded);
    OneEvent(s, "c", e);
    assert s.calls[("c", id) := call] - {("c", id)} == s.calls;
  }

  lemma TwoRuns(call: Call)
    ensures OnlyPending(Stopped()) && "b" !in Stopped().log.issued
    ensures var s := RunBy(Stopped(), "b", call);
            OnlyPending(s) && "d" !in s.log.issued
            && s.log.runs + [Run("d", "d", call)] == [Run("b", "b", call), Run("d", "d", call)]
  {
  }
}
