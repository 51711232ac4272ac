// parseWithRecovery (internal/aichat/runtime_eino.go): a model's reply is parsed and,
// where a guard objects, asked for again; each stage checks its own guard only.
module Recovery {
  import opened Text
  import opened Wrappers
  import opened RecoveryGuards

  // parseModelOutput and looksLikeToolProtocolJSON
  datatype Protocol = Protocol(parse: string -> Option<Output>, looksLike: string -> bool)

  // What the model would reply to each of the four further requests, if it replies.
  datatype Replies = Replies(
    repair: Option<string>,
    finalize: Option<string>,
    replan: Option<string>,
    dedup: Option<string>)

  // The answers given in place of an output that is refused.
  datatype Answers = Answers(webSearch: string, replan: string, dedup: string)

  function Fallback(answer: string): Output {
    Output(answer, [], None)
  }

  // What is accepted so far: the output, if any, and the reply it was read from.
  datatype Attempt = Attempt(output: Option<Output>, raw: string)

  // ---------------------------------------------------------------- stages

  function Repaired(p: Protocol, replies: Replies, raw: string): Attempt {
    if p.parse(raw).Some? || !p.looksLike(raw) then Attempt(p.parse(raw), raw)
    else
      match replies.repair
      case Some(again) => if p.parse(again).Some? then Attempt(p.parse(again), again) else Attempt(None, raw)
      case None => Attempt(None, raw)
  }

  // The reply to a further request, if it can be read and is accepted; else the answer.
  ghost function AskAgain(
    p: Protocol, reply: Option<string>, accept: Output -> bool, answer: string, a: Attempt): Attempt {
    if reply.Some? && p.parse(reply.value).Some? && accept(p.parse(reply.value).value)
    then Attempt(p.parse(reply.value), reply.value)
    else Attempt(Some(Fallback(answer)), a.raw)
  }

  predicate IsAnswer(out: Output) {
    out.toolCalls == [] && TrimSpace(out.assistantMessage) != ""
  }

  // The streak of web searches after an output, and whether it is to be finalized.
  function Streak(streak: nat, out: Output, messages: seq<Message>): nat {
    if WebLoop(out, messages) then streak + 1 else 0
  }

  ghost function Finalized(
    p: Protocol, replies: Replies, answers: Answers, messages: seq<Message>, streak: nat, a: Attempt): Attempt {
    if a.output.Some? && Streak(streak, a.output.value, messages) >= 2
    then AskAgain(p, replies.finalize, IsAnswer, answers.webSearch, a) else a
  }

  function NextStreak(messages: seq<Message>, streak: nat, a: Attempt): nat {
    if a.output.None? then streak
    else if Streak(streak, a.output.value, messages) >= 2 then 0
    else Streak(streak, a.output.value, messages)
  }

  ghost function Replanned(
    env: Env, p: Protocol, replies: Replies, answers: Answers, messages: seq<Message>, a: Attempt): Attempt {
    if a.output.Some? && Replan(env, a.output.value, messages)
    then AskAgain(p, replies.replan, out => !Replan(env, out, messages), answers.replan, a) else a
  }

  ghost function Deduplicated(
    env: Env, p: Protocol, replies: Replies, answers: Answers, messages: seq<Message>, a: Attempt): Attempt {
    if a.output.Some? && Duplicate(env, a.output.value, messages)
    then AskAgain(p, replies.dedup, out => !Duplicate(env, out, messages), answers.dedup, a) else a
  }

  ghost function Recovered(
    env: Env, p: Protocol, replies: Replies, answers: Answers, messages: seq<Message>, streak: nat, raw: string)
    : Attempt
  {
    Deduplicated(env, p, replies, answers, messages,
      Replanned(env, p, replies, answers, messages,
        Finalized(p, replies, answers, messages, streak,
          Repaired(p, replies, raw))))
  }

  // ---------------------------------------------------------------- the model

  class ToolCallingModel {
    const env: Env
    const protocol: Protocol
    const answers: Answers
    var webSearchLoopStreak: nat

    constructor (env: Env, protocol: Protocol, answers: Answers)
      ensures this.env == env && this.protocol == protocol && this.answers == answers
      ensures webSearchLoopStreak == 0
    {
      this.env, this.protocol, this.answers := env, protocol, answers;
      webSearchLoopStreak := 0;
    }

    method ShouldForceWebSearchFinalization(parsed: Output, messages: seq<Message>) returns (r: bool)
      modifies this
      ensures webSearchLoopStreak == Streak(old(webSearchLoopStreak), parsed, messages)
      ensures r == (webSearchLoopStreak >= 2)
    {
      hide CallsOnly, ContainsResult, TrimSpace;
      if TrimSpace(parsed.assistantMessage) != "" {
        webSearchLoopStreak := 0;
        return false;
      }
      var all := AllToolCallsAre(parsed.toolCalls, WEB_SEARCH);
      var found := FindResult(messages, WEB_RESULT);
      if !all || !found {
        webSearchLoopStreak := 0;
        return false;
      }
      webSearchLoopStreak := webSearchLoopStreak + 1;
      return webSearchLoopStreak >= 2;
    }

    method ParseWithRecovery(replies: Replies, messages: seq<Message>, reply: string)
      returns (parsed: Option<Output>, didRepair: bool, didForceToolCalls: bool, raw: string)
      modifies this
      ensures Attempt(parsed, raw)
           == Recovered(env, protocol, replies, answers, messages, old(webSearchLoopStreak), reply)
      ensures webSearchLoopStreak == NextStreak(messages, old(webSearchLoopStreak), Repaired(protocol, replies, reply))
      ensures didRepair == (protocol.parse(reply).None? && protocol.looksLike(reply))
      ensures !didForceToolCalls
    {
      hide Replan, Duplicate, IsAnswer, WebLoop;
      didRepair, didForceToolCalls, raw := false, false, reply;
      parsed := protocol.parse(raw);
      if parsed.None? && !didRepair && protocol.looksLike(raw) {
        didRepair := true;
        if replies.repair.Some? {
          var repaired := protocol.parse(replies.repair.value);
          if repaired.Some? {
            raw := replies.repair.value;
            parsed := repaired;
          }
        }
      }
      ghost var first := Attempt(parsed, raw);
      assert first == Repaired(protocol, replies, reply);

      var finalize := false;
      if parsed.Some? {
        finalize := ShouldForceWebSearchFinalization(parsed.value, messages);
      }
      if finalize {
        if replies.finalize.Some? {
          var forced := protocol.parse(replies.finalize.value);
          if forced.Some? && IsAnswer(forced.value) {
            raw := replies.finalize.value;
            parsed := forced;
          } else {
            parsed := Some(Fallback(answers.webSearch));
          }
        } else {
          parsed := Some(Fallback(answers.webSearch));
        }
        webSearchLoopStreak := 0;
      }
      ghost var second := Attempt(parsed, raw);
      assert second == Finalized(protocol, replies, answers, messages, old(webSearchLoopStreak), first);

      var replan := false;
      if parsed.Some? {
        replan := ShouldForceReplan(env, parsed.value, messages);
      }
      if replan {
        if replies.replan.Some? {
          var forced := protocol.parse(replies.replan.value);
          var again := true;
          if forced.Some? {
            again := ShouldForceReplan(env, forced.value, messages);
          }
          if forced.Some? && !again {
            raw := replies.replan.value;
            parsed := forced;
          } else {
            parsed := Some(Fallback(answers.replan));
          }
        } else {
          parsed := Some(Fallback(answers.replan));
        }
      }
      ghost var third := Attempt(parsed, raw);
      assert third == Replanned(env, protocol, replies, answers, messages, second);

      var duplicate := false;
      if parsed.Some? {
        duplicate := ShouldBlockDuplicate(env, parsed.value, messages);
      }
      if duplicate {
        if replies.dedup.Some? {
          var forced := protocol.parse(replies.dedup.value);
          var again := true;
          if forced.Some? {
            again := ShouldBlockDuplicate(env, forced.value, messages);
          }
          if forced.Some? && !again {
            raw := replies.dedup.value;
            parsed := forced;
          } else {
            parsed := Some(Fallback(answers.dedup));
          }
        } else {
          parsed := Some(Fallback(answers.dedup));
        }
      }
    }
  }

  // ---------------------------------------------------------------- the result

  // An answer without calls triggers no guard.
  lemma NoCallsNoGuard(env: Env, out: Output, messages: seq<Message>)
    requires out.toolCalls == []
    ensures !Replan(env, out, messages) && !Duplicate(env, out, messages) && !WebLoop(out, messages)
  {
  }

  // The two guards on executions never object at the same time: a duplicate has an
  // execution among the messages, which rules the other guard out for every output.
  lemma DuplicateRulesOutReplan(env: Env, out: Output, other: Output, messages: seq<Message>)
    requires Duplicate(env, out, messages)
    ensures !Replan(env, other, messages)
  {
    hide Executed, Requested, Latest, ContainsResult;
    var defaults := env.defaults(out.intent);
    ExecutedHasResult(env, messages, Latest(env, messages, defaults), Requested(env, out.toolCalls[0], defaults));
  }

  lemma ReplannedSafe(env: Env, p: Protocol, replies: Replies, answers: Answers, messages: seq<Message>, a: Attempt)
    ensures var r := Replanned(env, p, replies, answers, messages, a);
            (r.output.Some? <==> a.output.Some?) && (r.output.Some? ==> !Replan(env, r.output.value, messages))
  {
    hide Replan, Duplicate, WebLoop;
    NoCallsNoGuard(env, Fallback(answers.replan), messages);
  }

  lemma DeduplicatedSafe(env: Env, p: Protocol, replies: Replies, answers: Answers, messages: seq<Message>, a: Attempt)
    requires a.output.Some? ==> !Replan(env, a.output.value, messages)
    ensures var r := Deduplicated(env, p, replies, answers, messages, a);
            && (r.output.Some? <==> a.output.Some?)
            && (r.output.Some? ==> !Duplicate(env, r.output.value, messages) && !Replan(env, r.output.value, messages))
  {
    hide Replan, Duplicate, WebLoop;
    NoCallsNoGuard(env, Fallback(answers.dedup), messages);
    if a.output.Some? && Duplicate(env, a.output.value, messages) {
      var r := Deduplicated(env, p, replies, answers, messages, a);
      DuplicateRulesOutReplan(env, a.output.value, r.output.value, messages);
    }
  }

  // Whenever recovery reports an output, the output triggers neither guard on
  // executions; and it reports one exactly when the reply or its repair can be read.
  lemma RecoveredSafe(
    env: Env, p: Protocol, replies: Replies, answers: Answers, messages: seq<Message>, streak: nat, raw: string)
    ensures var r := Recovered(env, p, replies, answers, messages, streak, raw);
            && (r.output.Some? <==>
                  || p.parse(raw).Some?
                  || (p.looksLike(raw) && replies.repair.Some? && p.parse(replies.repair.value).Some?))
            && (r.output.Some? ==> !Duplicate(env, r.output.value, messages) && !Replan(env, r.output.value, messages))
  {
    hide Replan, Duplicate, WebLoop, IsAnswer, Replanned, Deduplicated;
    var second := Finalized(p, replies, answers, messages, streak, Repaired(p, replies, raw));
    ReplannedSafe(env, p, replies, answers, messages, second);
    DeduplicatedSafe(env, p, replies, answers, messages, Replanned(env, p, replies, answers, messages, second));
  }

  // The output was read from the reply reported with it, or is one of the answers and
  // calls no tool.
  predicate FromReply(p: Protocol, a: Attempt) {
    a.output.Some? ==> p.parse(a.raw).Some? && (p.parse(a.raw) == a.output || a.output.value.toolCalls == [])
  }

  lemma RecoveredFromReply(
    env: Env, p: Protocol, replies: Replies, answers: Answers, messages: seq<Message>, streak: nat, raw: string)
    ensures var r := Recovered(env, p, replies, answers, messages, streak, raw);
            && FromReply(p, r)
            && (r.raw == raw || Some(r.raw) in {replies.repair, replies.finalize, replies.replan, replies.dedup})
  {
    hide Replan, Duplicate, WebLoop, IsAnswer;
  }

  // A reply no guard objects to is kept as it is.
  lemma UnobjectedIsKept(
    env: Env, p: Protocol, replies: Replies, answers: Answers, messages: seq<Message>, streak: nat, raw: string)
    requires p.parse(raw).Some?
    ensures var out := p.parse(raw).value;
            !Replan(env, out, messages) && !Duplicate(env, out, messages) && Streak(streak, out, messages) < 2 ==>
              Recovered(env, p, replies, answers, messages, streak, raw) == Attempt(Some(out), raw)
  {
    hide Replan, Duplicate, WebLoop, IsAnswer;
  }

  // ---------------------------------------------------------------- web search loops

  lemma NotBoth(calls: seq<ToolCall>)
    ensures !(CallsOnly(calls, EXECUTE) && CallsOnly(calls, WEB_SEARCH))
  {
    if calls != [] && CallsOnly(calls, WEB_SEARCH) {
      var name := TrimSpace(calls[0].name);
      assert |name| == |WEB_SEARCH|;
    }
  }

  lemma WebLoopNoOther(env: Env, out: Output, messages: seq<Message>)
    requires WebLoop(out, messages)
    ensures !Replan(env, out, messages) && !Duplicate(env, out, messages)
  {
    hide CallsOnly, ContainsResult;
    NotBoth(out.toolCalls);
  }

  predicate RepliesWebLoop(p: Protocol, reply: Option<string>, messages: seq<Message>) {
    reply.Some? && p.parse(reply.value).Some? && WebLoop(p.parse(reply.value).value, messages)
  }

  lemma ReplanTurnsWebLoop(
    env: Env, p: Protocol, replies: Replies, answers: Answers, messages: seq<Message>, a: Attempt)
    requires a.output.Some? && Replan(env, a.output.value, messages)
    ensures var r := Replanned(env, p, replies, answers, messages, a);
            r.output.Some? && (WebLoop(r.output.value, messages) <==> RepliesWebLoop(p, replies.replan, messages))
  {
    hide Replan, Duplicate, WebLoop;
    NoCallsNoGuard(env, Fallback(answers.replan), messages);
    if RepliesWebLoop(p, replies.replan, messages) {
      WebLoopNoOther(env, p.parse(replies.replan.value).value, messages);
    }
  }

  lemma DedupTurnsWebLoop(env: Env, p: Protocol, replies: Replies, answers: Answers, messages: seq<Message>, a: Attempt)
    requires a.output.Some? && Duplicate(env, a.output.value, messages)
    ensures var r := Deduplicated(env, p, replies, answers, messages, a);
            r.output.Some? && (WebLoop(r.output.value, messages) <==> RepliesWebLoop(p, replies.dedup, messages))
  {
    hide Replan, Duplicate, WebLoop;
    NoCallsNoGuard(env, Fallback(answers.dedup), messages);
    if RepliesWebLoop(p, replies.dedup, messages) {
      WebLoopNoOther(env, p.parse(replies.dedup.value).value, messages);
    }
  }

  // An output that came through the first two stages without a loop, in the last two.
  lemma LaterStages(env: Env, p: Protocol, replies: Replies, answers: Answers, messages: seq<Message>, a: Attempt)
    requires a.output.Some? && !WebLoop(a.output.value, messages)
    ensures var r := Deduplicated(env, p, replies, answers, messages, Replanned(env, p, replies, answers, messages, a));
            r.output.Some? && (WebLoop(r.output.value, messages) <==>
              || (Replan(env, a.output.value, messages) && RepliesWebLoop(p, replies.replan, messages))
              || (Duplicate(env, a.output.value, messages) && RepliesWebLoop(p, replies.dedup, messages)))
  {
    hide Replan, Duplicate, WebLoop, RepliesWebLoop;
    if Replan(env, a.output.value, messages) {
      ReplanTurnsWebLoop(env, p, replies, answers, messages, a);
      var third := Replanned(env, p, replies, answers, messages, a);
      NeverBoth(env, a.output.value, third.output.value, messages);
      NeverBoth(env, a.output.value, a.output.value, messages);
    } else if Duplicate(env, a.output.value, messages) {
      DedupTurnsWebLoop(env, p, replies, answers, messages, a);
    }
  }

  lemma NeverBoth(env: Env, out: Output, other: Output, messages: seq<Message>)
    requires Replan(env, out, messages)
    ensures !Duplicate(env, other, messages)
  {
    hide Replan, Duplicate;
    if Duplicate(env, other, messages) {
      DuplicateRulesOutReplan(env, other, out, messages);
    }
  }

  lemma NoCallsAreKept(env: Env, p: Protocol, replies: Replies, answers: Answers, messages: seq<Message>, a: Attempt)
    requires a.output.Some? && a.output.value.toolCalls == []
    ensures Deduplicated(env, p, replies, answers, messages, Replanned(env, p, replies, answers, messages, a)) == a
    ensures !WebLoop(a.output.value, messages)
  {
    hide Replan, Duplicate, WebLoop;
    NoCallsNoGuard(env, a.output.value, messages);
  }

  lemma FinalizedHasNoCalls(
    p: Protocol, replies: Replies, answers: Answers, messages: seq<Message>, streak: nat, a: Attempt)
    requires a.output.Some? && WebLoop(a.output.value, messages) && streak >= 1
    ensures var r := Finalized(p, replies, answers, messages, streak, a);
            r.output.Some? && r.output.value.toolCalls == []
  {
    hide WebLoop;
  }

  // Once a web search was let through, the next output searches the web again exactly
  // when the request of another guard was answered with that: its answer is not
  // checked for it.
  lemma SecondWebSearchIff(
    env: Env, p: Protocol, replies: Replies, answers: Answers, messages: seq<Message>, streak: nat, raw: string)
    requires streak >= 1 && Repaired(p, replies, raw).output.Some?
    ensures var first := Repaired(p, replies, raw).output.value;
            var r := Recovered(env, p, replies, answers, messages, streak, raw);
            r.output.Some? && (WebLoop(r.output.value, messages) <==>
              || (Replan(env, first, messages) && RepliesWebLoop(p, replies.replan, messages))
              || (Duplicate(env, first, messages) && RepliesWebLoop(p, replies.dedup, messages)))
  {
    hide Replan, Duplicate, WebLoop, RepliesWebLoop, Replanned, Deduplicated, Repaired;
    var a := Repaired(p, replies, raw);
    if WebLoop(a.output.value, messages) {
      WebLoopNoOther(env, a.output.value, messages);
      FinalizedHasNoCalls(p, replies, answers, messages, streak, a);
      NoCallsAreKept(env, p, replies, answers, messages, Finalized(p, replies, answers, messages, streak, a));
    } else {
      LaterStages(env, p, replies, answers, messages, a);
    }
  }

  // A web search let through while no other guard objects is counted.
  lemma FirstWebSearchCounted(
    env: Env, p: Protocol, replies: Replies, answers: Answers, messages: seq<Message>, streak: nat, raw: string)
    requires var a := Repaired(p, replies, raw);
             a.output.Some? && !Replan(env, a.output.value, messages) && !Duplicate(env, a.output.value, messages)
    requires Recovered(env, p, replies, answers, messages, streak, raw).output.Some?
    requires WebLoop(Recovered(env, p, replies, answers, messages, streak, raw).output.value, messages)
    ensures streak == 0 && NextStreak(messages, streak, Repaired(p, replies, raw)) == 1
  {
    hide Replan, Duplicate, WebLoop, RepliesWebLoop, Replanned, Deduplicated, Repaired;
    var a := Repaired(p, replies, raw);
    if streak >= 1 {
      SecondWebSearchIff(env, p, replies, answers, messages, streak, raw);
    } else {
      LaterStagesKeep(env, p, replies, answers, messages, a);
    }
  }

  lemma LaterStagesKeep(env: Env, p: Protocol, replies: Replies, answers: Answers, messages: seq<Message>, a: Attempt)
    requires a.output.Some? && !Replan(env, a.output.value, messages) && !Duplicate(env, a.output.value, messages)
    ensures Deduplicated(env, p, replies, answers, messages, Replanned(env, p, replies, answers, messages, a)) == a
  {
    hide Replan, Duplicate;
  }

  // ---------------------------------------------------------------- one stage

  // A reply that cannot be read but looks like one is replaced by its repair, if that
  // can be read.
  lemma RepairOutcome(p: Protocol, replies: Replies, raw: string)
    ensures var r := Repaired(p, replies, raw);
            && (p.parse(raw).Some? ==> r == Attempt(p.parse(raw), raw))
            && (p.parse(raw).None? && p.looksLike(raw)
                && replies.repair.Some? && p.parse(replies.repair.value).Some? ==>
                  r == Attempt(p.parse(replies.repair.value), replies.repair.value))
            && (p.parse(raw).None? && !p.looksLike(raw) ==> r == Attempt(None, raw))
            && (replies.repair == None && p.parse(raw).None? ==> r == Attempt(None, raw))
  {
  }

  // The last stage in which a guard objected decides: the reply to its request if it can
  // be read and the same guard does not object to it, else the answer.
  lemma DuplicateOutcome(
    env: Env, p: Protocol, replies: Replies, answers: Answers, messages: seq<Message>, streak: nat, raw: string)
    requires p.parse(raw).Some? && Duplicate(env, p.parse(raw).value, messages)
    ensures var r := Recovered(env, p, replies, answers, messages, streak, raw);
            var reply := replies.dedup;
            if reply.Some? && p.parse(reply.value).Some? && !Duplicate(env, p.parse(reply.value).value, messages)
            then r == Attempt(p.parse(reply.value), reply.value)
            else r == Attempt(Some(Output(answers.dedup, [], None)), raw)
  {
    hide Replan, Duplicate, WebLoop, IsAnswer;
    var out := p.parse(raw).value;
    DuplicateRulesOutReplan(env, out, out, messages);
    NoLoopOfOther(env, out, messages);
  }

  lemma NoLoopOfOther(env: Env, out: Output, messages: seq<Message>)
    ensures Duplicate(env, out, messages) || Replan(env, out, messages) ==> !WebLoop(out, messages)
  {
    hide Replan, Duplicate, WebLoop;
    if WebLoop(out, messages) {
      WebLoopNoOther(env, out, messages);
    }
  }

  lemma ReplanOutcome(
    env: Env, p: Protocol, replies: Replies, answers: Answers, messages: seq<Message>, streak: nat, raw: string)
    requires p.parse(raw).Some? && Replan(env, p.parse(raw).value, messages)
    ensures var r := Recovered(env, p, replies, answers, messages, streak, raw);
            var reply := replies.replan;
            if reply.Some? && p.parse(reply.value).Some? && !Replan(env, p.parse(reply.value).value, messages)
            then r == Attempt(p.parse(reply.value), reply.value)
            else r == Attempt(Some(Output(answers.replan, [], None)), raw)
  {
    hide Replan, Duplicate, WebLoop, IsAnswer;
    var out := p.parse(raw).value;
    NoLoopOfOther(env, out, messages);
    NeverBoth(env, out, out, messages);
    NeverBoth(env, out, Fallback(answers.replan), messages);
    if replies.replan.Some? && p.parse(replies.replan.value).Some? {
      NeverBoth(env, out, p.parse(replies.replan.value).value, messages);
    }
  }

  // From the second web search in a row on, an answer is asked for: a reply with a text
  // and no calls, or else the answer there is for that.
  lemma WebLoopOutcome(
    env: Env, p: Protocol, replies: Replies, answers: Answers, messages: seq<Message>, streak: nat, raw: string)
    requires p.parse(raw).Some? && WebLoop(p.parse(raw).value, messages)
    ensures var r := Recovered(env, p, replies, answers, messages, streak, raw);
            var reply := replies.finalize;
            && NextStreak(messages, streak, Attempt(p.parse(raw), raw)) == (if streak == 0 then 1 else 0)
            && (if streak == 0 then r == Attempt(p.parse(raw), raw)
                else if reply.Some? && p.parse(reply.value).Some? && p.parse(reply.value).value.toolCalls == []
                        && TrimSpace(p.parse(reply.value).value.assistantMessage) != ""
                then r == Attempt(p.parse(reply.value), reply.value)
                else r == Attempt(Some(Output(answers.webSearch, [], None)), raw))
  {
    hide Replan, Duplicate, WebLoop, Replanned, Deduplicated, TrimSpace;
    var a := Repaired(p, replies, raw);
    WebLoopNoOther(env, p.parse(raw).value, messages);
    var second := Finalized(p, replies, answers, messages, streak, a);
    if streak == 0 {
      LaterStagesKeep(env, p, replies, answers, messages, a);
    } else {
      NoCallsAreKept(env, p, replies, answers, messages, second);
    }
  }

  // The output does nothing but search the web, after it has been searched.
  lemma WebLoopIff(out: Output, messages: seq<Message>)
    ensures WebLoop(out, messages) <==>
            && TrimSpace(out.assistantMessage) == ""
            && CallsOnly(out.toolCalls, "web_search")
            && exists i :: 0 <= i < |messages| && HasPrefix(TrimSpace(messages[i].content), "[tool_result] web_search")
  {
    hide TrimSpace, CallsOnly, HasPrefix;
    assert WEB_RESULT == "[tool_result] web_search" && WEB_SEARCH == "web_search";
    forall i | 0 <= i < |messages|
      ensures IsResult(messages[i], WEB_RESULT) <==>
              HasPrefix(TrimSpace(messages[i].content), "[tool_result] web_search")
    {
    }
  }
}
