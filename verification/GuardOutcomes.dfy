// When the guards object, in terms of the messages, the decoded results and the calls
// (internal/aichat/runtime_eino.go).
module GuardOutcomes {
  import opened Text
  import opened Wrappers
  import opened LetterCase
  import opened ExecuteSignature
  import opened RecoveryGuards

  // ---------------------------------------------------------------- results

  // The message is an execution result, and its JSON reports no error.
  predicate Succeeded(env: Env, m: Message, p: Payload) {
    && HasPrefix(TrimSpace(m.content), "[tool_result] execute_statement")
    && env.decode(PayloadText(TrimSpace(m.content))) == Some(p)
    && !p.error
  }

  // The message is no execution result, or cannot be decoded, or reports an error.
  ghost predicate NoSuccess(env: Env, m: Message) {
    forall p :: !Succeeded(env, m, p)
  }

  lemma {:induction false} NewlineAt(s: string, i: nat, n: nat)
    requires i <= n < |s| && s[n] == '\n' && forall k :: i <= k < n ==> s[k] != '\n'
    ensures Newline(s, i) == n
    decreases n - i
  {
    if i < n {
      NewlineAt(s, i + 1, n);
    }
  }

  lemma {:induction false} NoNewline(s: string, i: nat)
    requires i <= |s| && '\n' !in s
    ensures Newline(s, i) == |s|
    decreases |s| - i
  {
    if i < |s| {
      NoNewline(s, i + 1);
    }
  }

  // The JSON is what follows the first line, or the one line there is.
  lemma PayloadTextIs(head: string, json: string)
    requires '\n' !in head
    ensures PayloadText(head + "\n" + json) == TrimSpace(json)
    ensures PayloadText(head) == TrimSpace(head)
  {
    hide TrimSpace;
    var s := head + "\n" + json;
    assert forall k :: 0 <= k < |head| ==> s[k] == head[k] && head[k] in head;
    NewlineAt(s, 0, |head|);
    assert s[|head| + 1..] == json;
    NoNewline(head, 0);
  }

  lemma PayloadIs(env: Env, m: Message, p: Payload)
    ensures Succeeded(env, m, p) ==> ExecutedPayload(env, m) == Some(p)
    ensures NoSuccess(env, m) ==> ExecutedPayload(env, m) == None
    ensures ExecutedPayload(env, m).Some? ==> Succeeded(env, m, ExecutedPayload(env, m).value)
  {
    hide TrimSpace, HasPrefix, PayloadText;
    var d := env.decode(PayloadText(TrimSpace(m.content)));
    if d.Some? {
      assert NoSuccess(env, m) ==> !Succeeded(env, m, d.value);
    }
  }

  // ---------------------------------------------------------------- targets

  // The first of the texts that is not blank, trimmed; the last one as it is.
  predicate Chooses(r: string, first: string, second: string, last: string) {
    if TrimSpace(first) != "" then r == TrimSpace(first)
    else if TrimSpace(second) != "" then r == TrimSpace(second)
    else r == last
  }

  // The target of an execution is named beside its console result only if not in it,
  // and is the fallback where neither names it.
  lemma TargetOf(p: Payload, fallback: Context)
    ensures Chooses(PayloadContext(p, fallback).datasource, p.console.datasource, p.top.datasource, fallback.datasource)
    ensures Chooses(PayloadContext(p, fallback).database, p.console.database, p.top.database, fallback.database)
  {
    hide TrimSpace;
  }

  // The latest target is that of the last success.
  lemma {:induction false} LatestIs(env: Env, messages: seq<Message>, fallback: Context, n: nat, p: Payload)
    requires n < |messages| && Succeeded(env, messages[n], p)
    requires forall i :: n < i < |messages| ==> NoSuccess(env, messages[i])
    ensures Latest(env, messages, fallback) == PayloadContext(p, fallback)
    decreases |messages|
  {
    hide Succeeded, NoSuccess, ExecutedPayload, PayloadContext;
    var last := |messages| - 1;
    PayloadIs(env, messages[last], p);
    if n < last {
      LatestIs(env, messages[..last], fallback, n, p);
    }
  }

  lemma {:induction false} LatestIsFallback(env: Env, messages: seq<Message>, fallback: Context)
    requires forall i :: 0 <= i < |messages| ==> NoSuccess(env, messages[i])
    ensures Latest(env, messages, fallback) == fallback
    decreases |messages|
  {
    hide NoSuccess, ExecutedPayload, PayloadContext;
    if messages != [] {
      var last := |messages| - 1;
      PayloadIs(env, messages[last], Payload(false, NOTHING, NOTHING));
      LatestIsFallback(env, messages[..last], fallback);
    }
  }

  const NOTHING := Request("", "", "", "", 0)

  // ---------------------------------------------------------------- executed statements

  // What an execution is remembered as: its target, the statement of its console
  // result or else the one beside it, and the paging beside it.
  predicate RememberedAs(env: Env, p: Payload, defaults: Context, signature: string) {
    var target := PayloadContext(p, defaults);
    var console := Request(target.datasource, target.database, p.console.statement, p.top.pagingToken, p.top.pageSize);
    var top := Request(target.datasource, target.database, p.top.statement, p.top.pagingToken, p.top.pageSize);
    if StatementPart(env.sanitize, console) != "" then signature == Signature(env.sanitize, console)
    else StatementPart(env.sanitize, top) != "" && signature == Signature(env.sanitize, top)
  }

  // A signature is remembered exactly when a success among the messages has it.
  lemma ExecutedIff(env: Env, messages: seq<Message>, defaults: Context, signature: string)
    ensures Executed(env, messages, defaults, signature) <==>
            exists i, p ::
              0 <= i < |messages| && Succeeded(env, messages[i], p) && RememberedAs(env, p, defaults, signature)
  {
    hide Succeeded, RememberedAs, ExecutedSignature;
    forall i | 0 <= i < |messages|
      ensures signature != "" && ExecutedSignature(env, defaults, messages[i]) == signature <==>
              exists p :: Succeeded(env, messages[i], p) && RememberedAs(env, p, defaults, signature)
    {
      RememberedIff(env, messages[i], defaults, signature);
    }
  }

  lemma RememberedIff(env: Env, m: Message, defaults: Context, signature: string)
    ensures signature != "" && ExecutedSignature(env, defaults, m) == signature <==>
            exists p :: Succeeded(env, m, p) && RememberedAs(env, p, defaults, signature)
  {
    hide Succeeded, ExecutedPayload, RememberedAs, Signature, PayloadContext;
    var e := ExecutedPayload(env, m);
    PayloadIs(env, m, Payload(false, NOTHING, NOTHING));
    forall p | Succeeded(env, m, p)
      ensures e == Some(p)
    {
      PayloadIs(env, m, p);
    }
    if e.Some? {
      RememberedSignature(env, e.value, defaults, signature);
    }
  }

  lemma RememberedSignature(env: Env, p: Payload, defaults: Context, signature: string)
    ensures RememberedAs(env, p, defaults, signature) <==>
            signature != "" && signature ==
              FirstNonEmpty(Signature(env.sanitize, Execution(p, defaults, p.console.statement)),
                            Signature(env.sanitize, Execution(p, defaults, p.top.statement)))
  {
    hide Signature, PayloadContext, StatementPart;
    SignatureBlankIff(env.sanitize, Execution(p, defaults, p.console.statement));
    SignatureBlankIff(env.sanitize, Execution(p, defaults, p.top.statement));
  }

  // ---------------------------------------------------------------- the duplicate guard

  // While no execution has succeeded no output is a duplicate, and the latest target is
  // the fallback: a failed execution may be tried again.
  lemma FailuresAllowRetry(env: Env, messages: seq<Message>, out: Output, fallback: Context)
    requires forall i :: 0 <= i < |messages| ==> NoSuccess(env, messages[i])
    ensures !Duplicate(env, out, messages) && Latest(env, messages, fallback) == fallback
  {
    hide Succeeded, Executed, Latest;
    LatestIsFallback(env, messages, fallback);
    if Duplicate(env, out, messages) {
      var defaults := env.defaults(out.intent);
      var latest, signature := Latest(env, messages, defaults), Requested(env, out.toolCalls[0], defaults);
      assert Executed(env, messages, latest, signature);
      ExecutedIff(env, messages, latest, signature);
      assert false;
    }
  }

  // The call asks for what the success reports: the same target, named by both, the
  // same statement key, token and page size.
  predicate AsksAgain(env: Env, call: ToolCall, p: Payload) {
    && TrimSpace(call.args.datasource) == TrimSpace(p.console.datasource) != ""
    && TrimSpace(call.args.database) == TrimSpace(p.console.database) != ""
    && StatementPart(env.sanitize, call.args) == StatementPart(env.sanitize, p.console) != ""
    && TrimSpace(call.args.pagingToken) == TrimSpace(p.top.pagingToken)
    && PageSize(call.args.pageSize) == PageSize(p.top.pageSize)
  }

  // An output that asks for nothing but executions that succeeded is a duplicate,
  // whatever other messages there are.
  lemma SuccessBlocksRepeat(env: Env, messages: seq<Message>, out: Output)
    requires CallsOnly(out.toolCalls, "execute_statement")
    requires forall k :: 0 <= k < |out.toolCalls| ==>
               exists i, p ::
                 0 <= i < |messages| && Succeeded(env, messages[i], p) && AsksAgain(env, out.toolCalls[k], p)
    ensures Duplicate(env, out, messages)
  {
    hide Succeeded, AsksAgain, Executed, Requested, Latest, CallsOnly;
    var defaults := env.defaults(out.intent);
    var latest := Latest(env, messages, defaults);
    forall k | 0 <= k < |out.toolCalls|
      ensures Executed(env, messages, latest, Requested(env, out.toolCalls[k], defaults))
    {
      var i, p :| 0 <= i < |messages| && Succeeded(env, messages[i], p) && AsksAgain(env, out.toolCalls[k], p);
      AskedIsRemembered(env, out.toolCalls[k], p, defaults, latest);
      ExecutedIff(env, messages, latest, Requested(env, out.toolCalls[k], defaults));
    }
  }

  lemma AskedIsRemembered(env: Env, call: ToolCall, p: Payload, defaults: Context, latest: Context)
    requires AsksAgain(env, call, p)
    ensures RememberedAs(env, p, latest, Requested(env, call, defaults))
  {
    hide TrimSpace, PayloadContext, PageSize, Signature, Trimmed;
    TargetOf(p, latest);
    var target := PayloadContext(p, latest);
    var console := Request(target.datasource, target.database, p.console.statement, p.top.pagingToken, p.top.pageSize);
    var asked := Request(FirstNonEmpty(TrimSpace(call.args.datasource), defaults.datasource),
                         FirstNonEmpty(TrimSpace(call.args.database), defaults.database),
                         call.args.statement, call.args.pagingToken, call.args.pageSize);
    SameStatementPart(env.sanitize, console, p.console);
    SameStatementPart(env.sanitize, asked, call.args);
    PartsDecide(env.sanitize, console, asked);
  }

  lemma SameStatementPart(sanitize: Sanitizer, r: Request, q: Request)
    requires r.statement == q.statement
    ensures StatementPart(sanitize, r) == StatementPart(sanitize, q)
  {
  }

  lemma PartsDecide(sanitize: Sanitizer, r: Request, q: Request)
    requires SameParts(sanitize, r, q)
    ensures Signature(sanitize, r) == Signature(sanitize, q)
  {
    hide TrimSpace, StatementPart, PageSize;
  }

  // ---------------------------------------------------------------- the replan guard

  // How many of the messages are results of a discovery tool.
  predicate ReportsDiscovery(m: Message) {
    exists name | name in
      {"list_datasources", "get_datasource", "list_databases", "list_entities", "describe_entity",
       "search_knowledge", "get_schema_knowledge", "get_er_knowledge"}
      :: HasPrefix(TrimSpace(m.content), "[tool_result] " + name)
  }

  lemma DiscoveryIs(m: Message)
    ensures IsDiscovery(m) <==> ReportsDiscovery(m)
  {
    hide HasPrefix, TrimSpace;
  }

  function Discoveries(messages: seq<Message>): set<nat> {
    set i: nat | i < |messages| && ReportsDiscovery(messages[i])
  }

  lemma {:induction false} DiscoveryCountIs(messages: seq<Message>)
    ensures DiscoveryCount(messages) == |Discoveries(messages)|
  {
    hide IsDiscovery, ReportsDiscovery;
    if messages != [] {
      var n := |messages| - 1;
      DiscoveryCountIs(messages[..n]);
      DiscoveryIs(messages[n]);
      assert Discoveries(messages) == Discoveries(messages[..n]) + if ReportsDiscovery(messages[n]) then {n} else {};
    }
  }

  // The text is blank, or the same as the other.
  predicate BlankOr(a: string, b: string) {
    TrimSpace(a) == "" || TrimSpace(a) == TrimSpace(b)
  }

  // The guard asks for another plan exactly when nothing was executed after three or
  // more discoveries, the page has a datasource, no other target is established and
  // the page is not preferred, and there are calls, all of them executions on the
  // page's target or on none that they name.
  lemma ReplanIff(env: Env, out: Output, messages: seq<Message>)
    ensures Replan(env, out, messages) <==>
            && CallsOnly(out.toolCalls, "execute_statement")
            && (forall i :: 0 <= i < |messages| ==>
                  !HasPrefix(TrimSpace(messages[i].content), "[tool_result] execute_statement"))
            && |Discoveries(messages)| >= 3
            && out.intent != Some(Intent("prefer_current"))
            && !env.established
            && TrimSpace(env.focus.datasource) != ""
            && (forall i :: 0 <= i < |out.toolCalls| ==>
                  && BlankOr(out.toolCalls[i].args.datasource, env.focus.datasource)
                  && BlankOr(out.toolCalls[i].args.database, env.focus.database))
  {
    hide CallsOnly, TrimSpace, HasPrefix, DiscoveryCount, Discoveries;
    DiscoveryCountIs(messages);
    ResultIs(messages);
    forall i | 0 <= i < |out.toolCalls|
      ensures Target(out.toolCalls[i], env.focus) ==
              Context(TrimSpace(env.focus.datasource), TrimSpace(env.focus.database)) <==>
              && BlankOr(out.toolCalls[i].args.datasource, env.focus.datasource)
              && BlankOr(out.toolCalls[i].args.database, env.focus.database)
    {
    }
  }

  lemma ResultIs(messages: seq<Message>)
    ensures ContainsResult(messages, EXECUTE_RESULT) <==>
            exists i :: 0 <= i < |messages|
              && HasPrefix(TrimSpace(messages[i].content), "[tool_result] execute_statement")
  {
    hide TrimSpace, HasPrefix;
    assert EXECUTE_RESULT == "[tool_result] execute_statement";
    forall i | 0 <= i < |messages|
      ensures IsResult(messages[i], EXECUTE_RESULT) <==>
              HasPrefix(TrimSpace(messages[i].content), "[tool_result] execute_statement")
    {
    }
  }

  // ---------------------------------------------------------------- names

  // A character that strings.EqualFold takes for the letter: the letter, its capital, or
  // one of two characters beyond ASCII.
  predicate TakenFor(c: char, letter: char) {
    || c == letter
    || CapitalOf(c, letter)
    || (letter == 's' && c == '\U{17f}')
    || (letter == 'k' && c == '\U{212a}')
  }

  lemma FoldIs(c: char, letter: char)
    requires !IsUpper(letter) && letter != '\U{17f}' && letter != '\U{212a}'
    ensures FoldChar(c) == letter <==> TakenFor(c, letter)
  {
    hide CAPITALS, LETTERS;
    AlphabetLength();
    LowerCharIs(c);
  }

  // All calls have the name exactly when there is a call and each name, trimmed, is
  // that one in any case.
  lemma CallsOnlyIff(calls: seq<ToolCall>, w: string)
    requires w == "execute_statement" || w == "web_search"
    ensures CallsOnly(calls, w) <==>
            && calls != []
            && forall i :: 0 <= i < |calls| ==>
                 var name := TrimSpace(calls[i].name);
                 |name| == |w| && forall k :: 0 <= k < |w| ==> TakenFor(name[k], w[k])
  {
    hide TrimSpace, FoldChar, TakenFor;
    forall c, k | 0 <= k < |w|
      ensures FoldChar(c) == w[k] <==> TakenFor(c, w[k])
    {
      NoCapitalIn(w, k);
      FoldIs(c, w[k]);
    }
  }

  lemma NoCapitalIn(w: string, k: nat)
    requires (w == "execute_statement" || w == "web_search") && k < |w|
    ensures !IsUpper(w[k]) && w[k] != '\U{17f}' && w[k] != '\U{212a}'
  {
  }
}
