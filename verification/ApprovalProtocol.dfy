// The approval protocol (internal/aichat/service.go and internal/aichat/runtime_eino.go):
// what a turn may leave pending and what a decision on a pending approval does.
//
// Two kinds of approvals are pending side by side. A stored call is taken out of its
// store by the decision and then run. A checkpoint approval resumes an interrupted
// turn and is deleted only when the resumed turn succeeded. What tools, the model and
// the turn graph do in a step is given with the step.
module ApprovalProtocol {
  import opened Text
  import opened Wrappers
  import opened ApprovalStore

  const EXECUTE := "execute_statement"

  // pendingToolCall: the tool and, of its arguments, the statement and the number of
  // the repair attempt that produced it.
  datatype Call = Call(tool: string, statement: string, repairAttempt: int)

  // einoApprovalResumeItem
  datatype Item = Item(checkpoint: string, interrupt: string)

  // The bytes of a checkpoint.
  type Blob = seq<int>

  // The run of an approved call. Its origin is the approval the chain of repairs began
  // with.
  datatype Run = Run(approval: string, origin: string, call: Call)

  // What has happened: the service itself keeps no record of it.
  datatype Log = Log(
    issued: set<string>,
    rejected: set<string>,
    origin: map<string, string>,
    runs: seq<Run>)

  datatype State = State(
    calls: map<Key, Call>,
    resumes: map<Key, Item>,
    checkpoints: map<string, Blob>,
    log: Log)

  const EMPTY := State(map[], map[], map[], Log({}, {}, map[], []))

  // ---------------------------------------------------------------- surroundings

  // After a failed execution the model may propose a statement to retry, which is
  // stored under a new id.
  datatype Repair = NoRetry | Retry(id: string, statement: string)

  // The tool of an approved call: it was not reached (with or without an error to
  // report), it succeeded, or it failed.
  datatype Tool = NotRun(error: bool) | Succeeded | RunFailed(repair: Repair)

  // What a turn does to the stores on its way: ask for an approval of a call, or store
  // a call and approve it at once on behalf of the resumed tool.
  datatype Event = Ask(id: string, call: Call) | RunNow(id: string, call: Call, tool: Tool)

  // How a turn ends: with a response, which may carry an approval asked for on the way;
  // with an interrupt, its checkpoint saved; or with an error, a checkpoint possibly
  // saved.
  datatype End =
    | Finished(shown: Option<string>)
    | Interrupted(id: string, interrupt: string, saved: Blob)
    | TurnFailed(left: Option<Blob>)

  datatype World = World(tool: Tool, events: seq<Event>, end: End)

  datatype Reply = Error | Done(approval: Option<string>)

  // ---------------------------------------------------------------- stored calls

  function OriginOf(log: Log, id: string): string {
    if id in log.origin then log.origin[id] else id
  }

  function PutCall(s: State, key: Key, call: Call, origin: string): State {
    s.(calls := s.calls[key := call],
       log := s.log.(issued := s.log.issued + {key.1}, origin := s.log.origin[key.1 := origin]))
  }

  function Ran(s: State, id: string, call: Call): State {
    s.(log := s.log.(runs := s.log.runs + [Run(id, OriginOf(s.log, id), call)]))
  }

  // A failed execute_statement is repaired at most once.
  predicate Retries(call: Call, t: Tool) {
    call.tool == EXECUTE && call.repairAttempt < 1 && t.RunFailed? && t.repair.Retry?
  }

  function RunCall(s: State, key: Key, call: Call, t: Tool): State {
    if t.NotRun? then s
    else if Retries(call, t) then
      PutCall(Ran(s, key.1, call), (key.0, t.repair.id),
              Call(EXECUTE, t.repair.statement, call.repairAttempt + 1), OriginOf(s.log, key.1))
    else Ran(s, key.1, call)
  }

  function RunReply(call: Call, t: Tool): Reply {
    if t.NotRun? && t.error then Error
    else Done(if Retries(call, t) then Some(t.repair.id) else None)
  }

  function DecideCall(s: State, key: Key, approve: bool, t: Tool): State
    requires key in s.calls
  {
    var taken := s.(calls := s.calls - {key});
    if approve then RunCall(taken, key, s.calls[key], t)
    else taken.(log := s.log.(rejected := s.log.rejected + {key.1}))
  }

  // ---------------------------------------------------------------- turns

  function Happen(s: State, conversation: string, e: Event): State {
    match e
    case Ask(id, call) => PutCall(s, (conversation, id), call, id)
    case RunNow(id, call, t) => DecideCall(PutCall(s, (conversation, id), call, id), (conversation, id), true, t)
  }

  function Events(s: State, conversation: string, es: seq<Event>): State {
    if es == [] then s
    else Happen(Events(s, conversation, es[..|es| - 1]), conversation, es[|es| - 1])
  }

  function EndTurn(s: State, conversation: string, checkpoint: string, end: End): State {
    match end
    case Finished(_) => s
    case Interrupted(id, interrupt, saved) =>
      s.(checkpoints := s.checkpoints[checkpoint := saved],
         resumes := s.resumes[(conversation, id) := Item(checkpoint, interrupt)],
         log := s.log.(issued := s.log.issued + {id}))
    case TurnFailed(left) =>
      if left.Some? then s.(checkpoints := s.checkpoints[checkpoint := left.value]) else s
  }

  function Turn(s: State, conversation: string, checkpoint: string, es: seq<Event>, end: End): State {
    EndTurn(Events(s, conversation, es), conversation, checkpoint, end)
  }

  function Shown(end: End): Option<string> {
    match end
    case Finished(shown) => shown
    case Interrupted(id, _, _) => Some(id)
    case TurnFailed(_) => None
  }

  // ---------------------------------------------------------------- decisions

  // The two writes after a resumed turn that succeeded.
  function Close(s: State, key: Key, checkpoint: string, shown: Option<string>): State {
    s.(resumes := s.resumes - {key},
       checkpoints := if shown == None then s.checkpoints - {checkpoint} else s.checkpoints)
  }

  function Resume(s: State, key: Key, item: Item, w: World): (State, Reply) {
    if item.checkpoint == "" || item.interrupt == "" then (s, Error)
    else
      var after := Turn(s, key.0, item.checkpoint, w.events, w.end);
      if w.end.TurnFailed? then (after, Error)
      else (Close(after, key, item.checkpoint, Shown(w.end)), Done(Shown(w.end)))
  }

  function DropItem(s: State, key: Key, item: Item): State {
    s.(resumes := s.resumes - {key},
       checkpoints := s.checkpoints - {item.checkpoint},
       log := s.log.(rejected := s.log.rejected + {key.1}))
  }

  // A decision, its texts already trimmed and lower-cased.
  function Decide(s: State, key: Key, decision: string, w: World): (State, Reply) {
    if key.0 == "" || key.1 == "" || (decision != "approve" && decision != "reject") then (s, Error)
    else if key in s.resumes then
      if decision == "reject" then (DropItem(s, key, s.resumes[key]), Done(None))
      else Resume(s, key, s.resumes[key], w)
    else if key in s.calls then
      (DecideCall(s, key, decision == "approve", w.tool),
       if decision == "approve" then RunReply(s.calls[key], w.tool) else Done(None))
    else (s, Error)
  }

  // ---------------------------------------------------------------- the service

  class Service {
    const calls: Store<Call>
    const resumes: Store<Item>
    var checkpoints: map<string, Blob>
    ghost var log: Log

    ghost predicate Valid()
      reads this, calls, resumes
    {
      && (calls as object) != (resumes as object)
      && (calls as object) != this && (resumes as object) != this
      && NoEmptyConversation(calls.items) && NoEmptyConversation(resumes.items)
    }

    // The stores as one state.
    ghost function View(): State
      reads this, calls, resumes
    {
      State(Pending(calls.items), Pending(resumes.items), checkpoints, log)
    }

    constructor ()
      ensures Valid() && fresh(calls) && fresh(resumes)
      ensures View() == EMPTY
    {
      calls := new Store<Call>();
      resumes := new Store<Item>();
      checkpoints := map[];
      log := EMPTY.log;
    }

    method StoreCall(conversation: string, id: string, call: Call, ghost origin: string)
      requires Valid()
      modifies this`log, calls
      ensures Valid() && View() == PutCall(old(View()), (conversation, id), call, origin)
    {
      hide Pending;
      calls.Put(conversation, id, call);
      log := log.(issued := log.issued + {id}, origin := log.origin[id := origin]);
    }

    // The cases of Approve for a call that was approved.
    method RunTool(conversation: string, id: string, call: Call, t: Tool) returns (reply: Reply)
      requires Valid()
      modifies this`log, calls
      ensures Valid() && View() == RunCall(old(View()), (conversation, id), call, t)
      ensures reply == RunReply(call, t)
    {
      hide Pending;
      if t.NotRun? {
        return if t.error then Error else Done(None);
      }
      ghost var origin := OriginOf(log, id);
      log := log.(runs := log.runs + [Run(id, origin, call)]);
      reply := Done(None);
      if call.tool == EXECUTE && t.RunFailed? {
        if call.repairAttempt < 1 && t.repair.Retry? {
          StoreCall(conversation, t.repair.id, Call(EXECUTE, t.repair.statement, call.repairAttempt + 1), origin);
          reply := Done(Some(t.repair.id));
        }
      }
    }

    method ApproveCall(conversation: string, id: string, approve: bool, t: Tool) returns (reply: Reply)
      requires Valid()
      modifies this`log, calls
      ensures Valid()
      ensures (conversation, id) !in old(View()).calls ==> View() == old(View()) && reply == Error
      ensures (conversation, id) in old(View()).calls ==>
                && View() == DecideCall(old(View()), (conversation, id), approve, t)
                && reply == if approve then RunReply(old(View()).calls[(conversation, id)], t) else Done(None)
    {
      hide Pending, RunCall, RunReply;
      var found := calls.Take(conversation, id);
      if found.None? {
        return Error;
      }
      if !approve {
        log := log.(rejected := log.rejected + {id});
        return Done(None);
      }
      reply := RunTool(conversation, id, found.value, t);
    }

    method TurnEvents(conversation: string, es: seq<Event>)
      requires Valid()
      modifies this`log, calls
      ensures Valid() && View() == Events(old(View()), conversation, es)
    {
      hide Pending, DecideCall, PutCall, View, Valid;
      var n := 0;
      assert es[..0] == [];
      while n < |es|
        invariant n <= |es|
        invariant Valid() && View() == Events(old(View()), conversation, es[..n])
      {
        assert es[..n + 1][..n] == es[..n];
        var e := es[n];
        StoreCall(conversation, e.id, e.call, e.id);
        if e.RunNow? {
          CallStored(Events(old(View()), conversation, es[..n]), (conversation, e.id), e.call, e.id);
          var _ := ApproveCall(conversation, e.id, true, e.tool);
        }
        n := n + 1;
      }
      assert es[..n] == es;
    }

    // A turn on the given checkpoint, as far as the stores see it.
    method RunTurn(conversation: string, checkpoint: string, es: seq<Event>, end: End)
      requires Valid()
      modifies this, calls, resumes
      ensures Valid() && View() == Turn(old(View()), conversation, checkpoint, es, end)
    {
      hide Pending, Events;
      TurnEvents(conversation, es);
      match end
      case Finished(_) =>
      case Interrupted(id, interrupt, saved) =>
        checkpoints := checkpoints[checkpoint := saved];
        resumes.Put(conversation, id, Item(checkpoint, interrupt));
        log := log.(issued := log.issued + {id});
      case TurnFailed(left) =>
        if left.Some? {
          checkpoints := checkpoints[checkpoint := left.value];
        }
    }

    // approveWithEinoCheckpoint
    method ApproveCheckpoint(conversation: string, id: string, decision: string, w: World)
      returns (handled: bool, reply: Reply)
      requires Valid() && (decision == "approve" || decision == "reject")
      modifies this, calls, resumes
      ensures Valid()
      ensures handled == ((conversation, id) in old(View()).resumes)
      ensures !handled ==> View() == old(View())
      ensures handled ==>
                (View(), reply) == var item := old(View()).resumes[(conversation, id)];
                                   if decision == "reject"
                                   then (DropItem(old(View()), (conversation, id), item), Done(None))
                                   else Resume(old(View()), (conversation, id), item, w)
    {
      hide Pending, Turn;
      var found := resumes.Get(conversation, id);
      if found.None? {
        return false, Error;
      }
      var item := found.value;
      if decision == "reject" {
        resumes.Delete(conversation, id);
        checkpoints := checkpoints - {item.checkpoint};
        log := log.(rejected := log.rejected + {id});
        return true, Done(None);
      }
      if item.checkpoint == "" || item.interrupt == "" {
        return true, Error;
      }
      RunTurn(conversation, item.checkpoint, w.events, w.end);
      if w.end.TurnFailed? {
        return true, Error;
      }
      resumes.Delete(conversation, id);
      if Shown(w.end) == None {
        checkpoints := checkpoints - {item.checkpoint};
      }
      return true, Done(Shown(w.end));
    }

    // Approve
    method Approve(lower: string -> string, conversation: string, approval: string, choice: string, w: World)
      returns (reply: Reply)
      requires Valid()
      modifies this, calls, resumes
      ensures Valid()
      ensures (View(), reply)
           == Decide(old(View()), (TrimSpace(conversation), TrimSpace(approval)), lower(TrimSpace(choice)), w)
    {
      hide Pending, DropItem, Resume, DecideCall, RunReply, TrimSpace;
      var c := TrimSpace(conversation);
      if c == "" {
        return Error;
      }
      var a := TrimSpace(approval);
      if a == "" {
        return Error;
      }
      var decision := lower(TrimSpace(choice));
      if decision == "" {
        return Error;
      }
      if decision != "approve" && decision != "reject" {
        return Error;
      }
      var handled;
      handled, reply := ApproveCheckpoint(c, a, decision, w);
      if !handled {
        reply := ApproveCall(c, a, decision == "approve", w.tool);
      }
    }
  }

  lemma CallStored(s: State, key: Key, call: Call, origin: string)
    ensures key in PutCall(s, key, call, origin).calls
  {
  }
}
