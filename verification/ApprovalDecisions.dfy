// What a decision on a stored call does, field by field, and what it rules out or
// brings about in every later state of a run.
module ApprovalDecisions {
  import opened Wrappers
  import opened ApprovalStore
  import opened ApprovalProtocol
  import opened ApprovalRuns

  // A stored call is pending under the key, and no approval of a turn is.
  predicate StoredAt(s: State, key: Key) {
    key.0 != "" && key.1 != "" && key in s.calls && key !in s.resumes
  }

  // A rejected call is taken out of the store and recorded; it is not run, and nothing
  // else changes.
  lemma StoredRejectOutcome(s: State, key: Key, w: World)
    requires StoredAt(s, key)
    ensures var (after, reply) := Decide(s, key, "reject", w);
            && reply == Done(None)
            && after.calls == s.calls - {key}
            && after.resumes == s.resumes && after.checkpoints == s.checkpoints
            && after.log.runs == s.log.runs
            && after.log.rejected == s.log.rejected + {key.1}
            && after.log.issued == s.log.issued && after.log.origin == s.log.origin
  {
  }

  // The failed execution of the call is answered with a repaired statement.
  predicate Repaired(call: Call, t: Tool) {
    call.tool == "execute_statement" && call.repairAttempt < 1 && t.RunFailed? && t.repair.Retry?
  }

  // An approved call is taken out of the store and run once, unless its tool was not
  // reached; a repaired statement waits under its new id with the next attempt's
  // number, as part of the same chain.
  lemma StoredApproveOutcome(s: State, key: Key, w: World)
    requires StoredAt(s, key)
    ensures var (after, reply) := Decide(s, key, "approve", w);
            var call := s.calls[key];
            var origin := if key.1 in s.log.origin then s.log.origin[key.1] else key.1;
            && after.log.runs == s.log.runs + (if w.tool.NotRun? then [] else [Run(key.1, origin, call)])
            && after.log.rejected == s.log.rejected
            && after.resumes == s.resumes && after.checkpoints == s.checkpoints
            && (if Repaired(call, w.tool) then
                  var id := w.tool.repair.id;
                  && reply == Done(Some(id))
                  && after.calls == (s.calls - {key})[
                       (key.0, id) := Call("execute_statement", w.tool.repair.statement, call.repairAttempt + 1)]
                  && after.log.issued == s.log.issued + {id} && after.log.origin == s.log.origin[id := origin]
                else
                  && reply == (if w.tool == NotRun(true) then Error else Done(None))
                  && after.calls == s.calls - {key}
                  && after.log.issued == s.log.issued && after.log.origin == s.log.origin)
  {
  }

  // Anything else is refused and changes nothing: no such approval, a blank id, or a
  // choice that is neither of the two.
  lemma RefusedDecision(s: State, key: Key, choice: string, w: World)
    requires || key.0 == "" || key.1 == "" || choice !in {"approve", "reject"}
             || (key !in s.resumes && key !in s.calls)
             || (key in s.resumes && choice == "approve"
                 && (s.resumes[key].checkpoint == "" || s.resumes[key].interrupt == ""))
    ensures Decide(s, key, choice, w) == (s, Error)
  {
  }

  // ---------------------------------------------------------------- on the way of a turn

  // A call asked for is pending afterwards and has not run.
  lemma AskedIsPending(s: State, conversation: string, id: string, call: Call)
    ensures var after := Happen(s, conversation, Ask(id, call));
            && after.calls == s.calls[(conversation, id) := call]
            && after.resumes == s.resumes && after.checkpoints == s.checkpoints
            && after.log.runs == s.log.runs && after.log.rejected == s.log.rejected
            && after.log.issued == s.log.issued + {id} && after.log.origin == s.log.origin[id := id]
  {
  }

  // A call a resumed tool runs is one asked for and approved at once.
  lemma RunNowIsApproved(s: State, conversation: string, id: string, call: Call, t: Tool, w: World)
    requires conversation != "" && id != "" && (conversation, id) !in s.resumes && w.tool == t
    ensures Happen(s, conversation, RunNow(id, call, t))
         == Decide(Happen(s, conversation, Ask(id, call)), (conversation, id), "approve", w).0
  {
  }

  // How a turn on a new checkpoint ends.
  lemma TurnOutcome(s: State, conversation: string, checkpoint: string, es: seq<Event>, end: End)
    ensures var (happened, after) := (Events(s, conversation, es), Turn(s, conversation, checkpoint, es, end));
            && after.calls == happened.calls && after.log.runs == happened.log.runs
            && happened.resumes == s.resumes && happened.checkpoints == s.checkpoints
            && (end.Finished? ==> after == happened)
            && (end.Interrupted? ==>
                  && after.resumes == s.resumes[(conversation, end.id) := Item(checkpoint, end.interrupt)]
                  && after.checkpoints == s.checkpoints[checkpoint := end.saved])
            && (end == TurnFailed(None) ==> after == happened)
            && (end.TurnFailed? && end.left.Some? ==>
                  after == happened.(checkpoints := s.checkpoints[checkpoint := end.left.value]))
  {
    hide Events;
    EventsFrame(s, conversation, es);
  }

  // ---------------------------------------------------------------- over runs

  predicate NeverRun(log: Log, id: string) {
    forall i :: 0 <= i < |log.runs| ==> log.runs[i].approval != id
  }

  // The approval is pending, stored or of a turn.
  predicate PendingAt(s: State, key: Key) {
    key.0 != "" && key.1 != "" && (key in s.calls || key in s.resumes)
  }

  lemma RejectedIsRecorded(s: State, key: Key, w: World)
    requires PendingAt(s, key)
    ensures key.1 in Decide(s, key, "reject", w).0.log.rejected
  {
  }

  // What is rejected stays rejected.
  lemma DecidedStaysRejected(s: State, key: Key, approve: bool, t: Tool)
    requires key in s.calls
    ensures s.log.rejected <= DecideCall(s, key, approve, t).log.rejected
  {
  }

  lemma StaysRejected(s: State, step: Step)
    ensures s.log.rejected <= Next(s, step).log.rejected
  {
    hide Events, DecideCall;
    match step
    case NewTurn(conversation, _, es, _) => EventsFrame(s, conversation, es);
    case Decision(key, choice, w) =>
      EventsFrame(s, key.0, w.events);
      if key in s.calls {
        DecidedStaysRejected(s, key, choice == "approve", w.tool);
      }
  }

  lemma {:induction false} RejectedStays(steps: seq<Step>, n: nat)
    requires n <= |steps|
    ensures After(steps[..n]).log.rejected <= After(steps).log.rejected
    decreases |steps|
  {
    hide Next;
    if n < |steps| {
      var most := steps[..|steps| - 1];
      assert most[..n] == steps[..n];
      RejectedStays(most, n);
      StaysRejected(After(most), steps[|steps| - 1]);
    } else {
      assert steps[..n] == steps;
    }
  }

  // Once a step has rejected a pending approval, no call of that id is run in any later
  // state.
  lemma RejectedNeverRuns(steps: seq<Step>, n: nat, key: Key, w: World)
    requires FreshRun(steps) && n < |steps| && steps[n] == Decision(key, "reject", w)
    requires PendingAt(After(steps[..n]), key)
    ensures NeverRun(After(steps).log, key.1)
  {
    hide Next, FreshRun, PendingAt;
    StepAt(steps, n);
    RejectedIsRecorded(After(steps[..n]), key, w);
    assert Next(After(steps[..n]), Decision(key, "reject", w)) == Decide(After(steps[..n]), key, "reject", w).0 by {
      NextDecision(After(steps[..n]), key, "reject", w);
    }
    RejectedStays(steps, n + 1);
    RunsAtMostOnce(steps);
  }

  lemma NextDecision(s: State, key: Key, choice: string, w: World)
    ensures Next(s, Decision(key, choice, w)) == Decide(s, key, choice, w).0
  {
  }

  lemma StepAt(steps: seq<Step>, n: nat)
    requires n < |steps|
    ensures After(steps[..n + 1]) == Next(After(steps[..n]), steps[n])
  {
    hide Next;
    assert steps[..n + 1][..n] == steps[..n];
  }

  // The runs only grow.
  lemma {:induction false} EventsGrow(s: State, conversation: string, es: seq<Event>)
    ensures s.log.runs <= Events(s, conversation, es).log.runs
  {
    if es != [] {
      EventsGrow(s, conversation, es[..|es| - 1]);
    }
  }

  lemma RunsGrow(s: State, step: Step)
    ensures s.log.runs <= Next(s, step).log.runs
  {
    hide Events;
    match step
    case NewTurn(conversation, _, es, _) => EventsGrow(s, conversation, es);
    case Decision(key, _, w) => EventsGrow(s, key.0, w.events);
  }

  lemma {:induction false} RunsStay(steps: seq<Step>, n: nat)
    requires n <= |steps|
    ensures After(steps[..n]).log.runs <= After(steps).log.runs
    decreases |steps|
  {
    hide Next;
    if n < |steps| {
      var most := steps[..|steps| - 1];
      assert most[..n] == steps[..n];
      RunsStay(most, n);
      RunsGrow(After(most), steps[|steps| - 1]);
    } else {
      assert steps[..n] == steps;
    }
  }

  // Once a step has approved a stored call and its tool was reached, every later state
  // has exactly one run of that id, and it is of the call that was stored.
  lemma ApprovedRunsOnce(steps: seq<Step>, n: nat, key: Key, w: World)
    returns (i: nat)
    requires FreshRun(steps) && n < |steps| && steps[n] == Decision(key, "approve", w)
    requires StoredAt(After(steps[..n]), key) && !w.tool.NotRun?
    ensures var runs := After(steps).log.runs;
            && i < |runs| && runs[i].approval == key.1 && runs[i].call == After(steps[..n]).calls[key]
            && forall j :: 0 <= j < |runs| && runs[j].approval == key.1 ==> j == i
  {
    hide Next, FreshRun;
    var s := After(steps[..n]);
    StepAt(steps, n);
    NextDecision(s, key, "approve", w);
    StoredApproveOutcome(s, key, w);
    RunsStay(steps, n + 1);
    RunsAtMostOnce(steps);
    i := |s.log.runs|;
  }
}
