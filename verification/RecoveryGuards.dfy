// The guards on a model's output (internal/aichat/runtime_eino.go): what they read out
// of the messages and when they hold.
module RecoveryGuards {
  import opened Text
  import opened Wrappers
  import opened ExecuteSignature
  import LetterCase

  datatype Message = Message(role: string, content: string)

  // A tool call with its arguments as the argument readers give them.
  datatype ToolCall = ToolCall(name: string, args: Request)

  datatype Intent = Intent(currentFocus: string)

  datatype Output = Output(assistantMessage: string, toolCalls: seq<ToolCall>, intent: Option<Intent>)

  datatype Context = Context(datasource: string, database: string)

  // The JSON object of a tool result: whether it reports an error, and the fields
  // found in its consoleResult and beside it.
  datatype Payload = Payload(error: bool, console: Request, top: Request)

  // The turn the guards work for: the JSON decoder, the statement sanitiser, the
  // default target under an intent, the page's target and whether a different working
  // target is established.
  datatype Env = Env(
    decode: string -> Option<Payload>,
    sanitize: Sanitizer,
    defaults: Option<Intent> -> Context,
    focus: Context,
    established: bool)

  const EXECUTE := "execute_statement"
  const WEB_SEARCH := "web_search"
  const EXECUTE_RESULT := "[tool_result] execute_statement"
  const WEB_RESULT := "[tool_result] web_search"
  const RESULT := "[tool_result] "
  const PREFER_CURRENT := "prefer_current"

  // ---------------------------------------------------------------- names

  // Two runes beyond ASCII fold to ASCII letters.
  function FoldChar(c: char): char {
    if c == '\U{17f}' then 's' else if c == '\U{212a}' then 'k' else LetterCase.LowerChar(c)
  }

  // strings.EqualFold of a trimmed name and a lower-case ASCII name.
  predicate EqualFold(name: string, w: string) {
    |name| == |w| && forall i :: 0 <= i < |w| ==> FoldChar(name[i]) == w[i]
  }

  predicate CallsOnly(calls: seq<ToolCall>, w: string) {
    calls != [] && forall i :: 0 <= i < |calls| ==> EqualFold(TrimSpace(calls[i].name), w)
  }

  // allToolCallsAreExecuteStatement and allToolCallsAreWebSearch
  method AllToolCallsAre(calls: seq<ToolCall>, w: string) returns (r: bool)
    ensures r == CallsOnly(calls, w)
  {
    if |calls| == 0 {
      return false;
    }
    var i := 0;
    while i < |calls|
      invariant i <= |calls|
      invariant forall k :: 0 <= k < i ==> EqualFold(TrimSpace(calls[k].name), w)
    {
      if !EqualFold(TrimSpace(calls[i].name), w) {
        return false;
      }
      i := i + 1;
    }
    return true;
  }

  // ---------------------------------------------------------------- tool results

  predicate IsResult(m: Message, tag: string) {
    HasPrefix(TrimSpace(m.content), tag)
  }

  // containsExecuteStatementToolResult and containsWebSearchToolResult
  predicate ContainsResult(messages: seq<Message>, tag: string) {
    exists i :: 0 <= i < |messages| && IsResult(messages[i], tag)
  }

  method FindResult(messages: seq<Message>, tag: string) returns (r: bool)
    ensures r == ContainsResult(messages, tag)
  {
    var i := 0;
    while i < |messages|
      invariant i <= |messages|
      invariant forall k :: 0 <= k < i ==> !IsResult(messages[k], tag)
    {
      if IsResult(messages[i], tag) {
        return true;
      }
      i := i + 1;
    }
    return false;
  }

  function Newline(s: string, i: nat): (e: nat)
    requires i <= |s|
    ensures i <= e <= |s| && (e < |s| ==> s[e] == '\n')
    decreases |s| - i
  {
    if i < |s| && s[i] != '\n' then Newline(s, i + 1) else i
  }

  // The JSON text of a tool result: what follows the first line, or all of it.
  function PayloadText(content: string): string {
    var e := Newline(content, 0);
    TrimSpace(if e < |content| then content[e + 1..] else content)
  }

  // The payload of a successful execution.
  function ExecutedPayload(env: Env, m: Message): Option<Payload> {
    if !IsResult(m, EXECUTE_RESULT) then None
    else
      match env.decode(PayloadText(TrimSpace(m.content)))
      case Some(p) => if p.error then None else Some(p)
      case None => None
  }

  function FirstNonEmpty(a: string, b: string): string {
    if a != "" then a else b
  }

  // The target a payload names, the fallback filling in.
  function PayloadContext(p: Payload, fallback: Context): Context {
    Context(FirstNonEmpty(FirstNonEmpty(TrimSpace(p.console.datasource), TrimSpace(p.top.datasource)),
                          fallback.datasource),
            FirstNonEmpty(FirstNonEmpty(TrimSpace(p.console.database), TrimSpace(p.top.database)), fallback.database))
  }

  // latestExecuteStatementContext: the target of the last successful execution.
  function Latest(env: Env, messages: seq<Message>, fallback: Context): Context {
    if messages == [] then fallback
    else
      match ExecutedPayload(env, messages[|messages| - 1])
      case Some(p) => PayloadContext(p, fallback)
      case None => Latest(env, messages[..|messages| - 1], fallback)
  }

  method LatestExecuteStatementContext(env: Env, messages: seq<Message>, fallback: Context) returns (ctx: Context)
    ensures ctx == Latest(env, messages, fallback)
  {
    hide ExecutedPayload, PayloadContext;
    var i := |messages|;
    assert messages[..i] == messages;
    while i > 0
      invariant i <= |messages|
      invariant Latest(env, messages, fallback) == Latest(env, messages[..i], fallback)
    {
      i := i - 1;
      assert messages[..i + 1][..i] == messages[..i];
      var payload := ExecutedPayload(env, messages[i]);
      if payload.Some? {
        ctx := ReadContext(payload.value, fallback);
        return;
      }
    }
    ctx := fallback;
  }

  method ReadContext(p: Payload, fallback: Context) returns (ctx: Context)
    ensures ctx == PayloadContext(p, fallback)
  {
    hide TrimSpace;
    ctx := fallback;
    if TrimSpace(p.console.datasource) != "" {
      ctx := ctx.(datasource := TrimSpace(p.console.datasource));
    } else if TrimSpace(p.top.datasource) != "" {
      ctx := ctx.(datasource := TrimSpace(p.top.datasource));
    }
    if TrimSpace(p.console.database) != "" {
      ctx := ctx.(database := TrimSpace(p.console.database));
    } else if TrimSpace(p.top.database) != "" {
      ctx := ctx.(database := TrimSpace(p.top.database));
    }
  }

  // The execution a payload reports, with the statement given.
  function Execution(p: Payload, defaults: Context, statement: string): Request {
    Request(PayloadContext(p, defaults).datasource, PayloadContext(p, defaults).database,
            statement, p.top.pagingToken, p.top.pageSize)
  }

  function ExecutedSignature(env: Env, defaults: Context, m: Message): string {
    match ExecutedPayload(env, m)
    case None => ""
    case Some(p) =>
      FirstNonEmpty(Signature(env.sanitize, Execution(p, defaults, p.console.statement)),
                    Signature(env.sanitize, Execution(p, defaults, p.top.statement)))
  }

  // The signatures of the successful executions among the messages.
  predicate Executed(env: Env, messages: seq<Message>, defaults: Context, signature: string) {
    signature != "" && exists i :: 0 <= i < |messages| && ExecutedSignature(env, defaults, messages[i]) == signature
  }

  // executedStatementsFromMessages
  method ExecutedStatements(env: Env, messages: seq<Message>, defaults: Context) returns (out: set<string>)
    ensures forall s :: s in out <==> Executed(env, messages, defaults, s)
  {
    hide ExecutedPayload, Signature, TrimSpace;
    out := {};
    var i := 0;
    while i < |messages|
      invariant i <= |messages|
      invariant forall s :: s in out <==>
                  s != "" && exists k :: 0 <= k < i && ExecutedSignature(env, defaults, messages[k]) == s
    {
      var payload := ExecutedPayload(env, messages[i]);
      if payload.Some? {
        var p := payload.value;
        var datasource := TrimSpace(p.console.datasource);
        if datasource == "" {
          datasource := TrimSpace(p.top.datasource);
        }
        if datasource == "" {
          datasource := defaults.datasource;
        }
        var database := TrimSpace(p.console.database);
        if database == "" {
          database := TrimSpace(p.top.database);
        }
        if database == "" {
          database := defaults.database;
        }
        var signature := Signature(env.sanitize,
          Request(datasource, database, p.console.statement, p.top.pagingToken, p.top.pageSize));
        if signature == "" {
          signature := Signature(env.sanitize,
            Request(datasource, database, p.top.statement, p.top.pagingToken, p.top.pageSize));
        }
        assert signature == ExecutedSignature(env, defaults, messages[i]);
        if signature != "" {
          out := out + {signature};
        }
      }
      i := i + 1;
    }
  }

  // An executed signature comes from an execute_statement result.
  lemma ExecutedHasResult(env: Env, messages: seq<Message>, defaults: Context, signature: string)
    requires Executed(env, messages, defaults, signature)
    ensures ContainsResult(messages, EXECUTE_RESULT)
  {
    hide Signature, IsResult, PayloadText;
    var i :| 0 <= i < |messages| && ExecutedSignature(env, defaults, messages[i]) == signature;
    assert IsResult(messages[i], EXECUTE_RESULT);
  }

  // ---------------------------------------------------------------- duplicate guard

  function Requested(env: Env, call: ToolCall, defaults: Context): string {
    Signature(env.sanitize,
      Request(FirstNonEmpty(TrimSpace(call.args.datasource), defaults.datasource),
              FirstNonEmpty(TrimSpace(call.args.database), defaults.database),
              call.args.statement, call.args.pagingToken, call.args.pageSize))
  }

  // Every call of the output asks again for an execution that succeeded.
  predicate Duplicate(env: Env, out: Output, messages: seq<Message>) {
    var defaults := env.defaults(out.intent);
    && CallsOnly(out.toolCalls, EXECUTE)
    && forall i :: 0 <= i < |out.toolCalls| ==>
         Executed(env, messages, Latest(env, messages, defaults), Requested(env, out.toolCalls[i], defaults))
  }

  // requestedExecuteStatements: none when a call has no statement.
  method RequestedExecuteStatements(env: Env, calls: seq<ToolCall>, defaults: Context) returns (out: seq<string>)
    ensures (exists i :: 0 <= i < |calls| && Requested(env, calls[i], defaults) == "") ==> out == []
    ensures (forall i :: 0 <= i < |calls| ==> Requested(env, calls[i], defaults) != "") ==>
              |out| == |calls| && forall i :: 0 <= i < |calls| ==> out[i] == Requested(env, calls[i], defaults)
  {
    hide Signature, TrimSpace;
    out := [];
    var i := 0;
    while i < |calls|
      invariant i <= |calls| && |out| == i
      invariant forall k :: 0 <= k < i ==> out[k] == Requested(env, calls[k], defaults) && out[k] != ""
    {
      var datasource := TrimSpace(calls[i].args.datasource);
      if datasource == "" {
        datasource := defaults.datasource;
      }
      var database := TrimSpace(calls[i].args.database);
      if database == "" {
        database := defaults.database;
      }
      var signature := Signature(env.sanitize,
        Request(datasource, database, calls[i].args.statement, calls[i].args.pagingToken, calls[i].args.pageSize));
      assert signature == Requested(env, calls[i], defaults);
      if signature == "" {
        return [];
      }
      out := out + [signature];
      i := i + 1;
    }
  }

  // shouldBlockDuplicateExecuteStatement
  method ShouldBlockDuplicate(env: Env, parsed: Output, messages: seq<Message>) returns (r: bool)
    ensures r == Duplicate(env, parsed, messages)
  {
    hide CallsOnly, Requested, ExecutedSignature, Latest;
    var all := AllToolCallsAre(parsed.toolCalls, EXECUTE);
    if !all {
      return false;
    }
    var calls, defaults := parsed.toolCalls, env.defaults(parsed.intent);
    CallsExist(calls, EXECUTE);
    var requested := RequestedExecuteStatements(env, calls, defaults);
    if |requested| == 0 {
      return false;
    }
    var latest := LatestExecuteStatementContext(env, messages, defaults);
    var seen := ExecutedStatements(env, messages, latest);
    if seen == {} {
      assert !Executed(env, messages, latest, Requested(env, calls[0], defaults));
      return false;
    }
    var i := 0;
    while i < |requested|
      invariant i <= |requested|
      invariant forall k :: 0 <= k < i ==> Executed(env, messages, latest, Requested(env, calls[k], defaults))
    {
      if requested[i] !in seen {
        assert !Executed(env, messages, latest, Requested(env, calls[i], defaults));
        return false;
      }
      i := i + 1;
    }
    return true;
  }

  lemma CallsExist(calls: seq<ToolCall>, w: string)
    requires CallsOnly(calls, w)
    ensures calls != []
  {
  }

  // ---------------------------------------------------------------- replan guard

  predicate IsDiscovery(m: Message) {
    var content := TrimSpace(m.content);
    || HasPrefix(content, RESULT + "list_datasources")
    || HasPrefix(content, RESULT + "get_datasource")
    || HasPrefix(content, RESULT + "list_databases")
    || HasPrefix(content, RESULT + "list_entities")
    || HasPrefix(content, RESULT + "describe_entity")
    || HasPrefix(content, RESULT + "search_knowledge")
    || HasPrefix(content, RESULT + "get_schema_knowledge")
    || HasPrefix(content, RESULT + "get_er_knowledge")
  }

  function DiscoveryCount(messages: seq<Message>): nat {
    if messages == [] then 0
    else DiscoveryCount(messages[..|messages| - 1]) + if IsDiscovery(messages[|messages| - 1]) then 1 else 0
  }

  // discoveryToolResultCount
  method CountDiscovery(messages: seq<Message>) returns (count: nat)
    ensures count == DiscoveryCount(messages)
  {
    hide IsDiscovery;
    count := 0;
    var i := 0;
    while i < |messages|
      invariant i <= |messages| && count == DiscoveryCount(messages[..i])
    {
      assert messages[..i + 1][..i] == messages[..i];
      if IsDiscovery(messages[i]) {
        count := count + 1;
      }
      i := i + 1;
    }
    assert messages[..i] == messages;
  }

  // Where a call would run, the page's target filling in.
  function Target(call: ToolCall, focus: Context): Context {
    Context(FirstNonEmpty(TrimSpace(call.args.datasource), TrimSpace(focus.datasource)),
            FirstNonEmpty(TrimSpace(call.args.database), TrimSpace(focus.database)))
  }

  predicate PrefersCurrent(intent: Option<Intent>) {
    intent.Some? && intent.value.currentFocus == PREFER_CURRENT
  }

  // After three discoveries and no execution, every call would run on the page's
  // target, which nobody asked for.
  predicate Replan(env: Env, out: Output, messages: seq<Message>) {
    && CallsOnly(out.toolCalls, EXECUTE)
    && !ContainsResult(messages, EXECUTE_RESULT)
    && DiscoveryCount(messages) >= 3
    && !PrefersCurrent(out.intent)
    && !env.established
    && TrimSpace(env.focus.datasource) != ""
    && forall i :: 0 <= i < |out.toolCalls| ==>
         Target(out.toolCalls[i], env.focus) == Context(TrimSpace(env.focus.datasource), TrimSpace(env.focus.database))
  }

  // shouldForceDiscoveryReplanBeforeFocusExecute with requestedExecuteTargets
  method ShouldForceReplan(env: Env, parsed: Output, messages: seq<Message>) returns (r: bool)
    ensures r == Replan(env, parsed, messages)
  {
    hide CallsOnly, ContainsResult, DiscoveryCount, TrimSpace;
    var all := AllToolCallsAre(parsed.toolCalls, EXECUTE);
    if !all {
      return false;
    }
    var ran := FindResult(messages, EXECUTE_RESULT);
    if ran {
      return false;
    }
    var discoveries := CountDiscovery(messages);
    if discoveries < 3 {
      return false;
    }
    if PrefersCurrent(parsed.intent) || env.established || TrimSpace(env.focus.datasource) == "" {
      return false;
    }
    var i := 0;
    while i < |parsed.toolCalls|
      invariant i <= |parsed.toolCalls|
      invariant forall k :: 0 <= k < i ==>
        Target(parsed.toolCalls[k], env.focus) ==
        Context(TrimSpace(env.focus.datasource), TrimSpace(env.focus.database))
    {
      var target := Target(parsed.toolCalls[i], env.focus);
      if TrimSpace(target.datasource) != TrimSpace(env.focus.datasource) {
        return false;
      }
      if TrimSpace(target.database) != TrimSpace(env.focus.database) {
        return false;
      }
      i := i + 1;
    }
    return true;
  }

  // ---------------------------------------------------------------- web search

  // The output does nothing but search the web again.
  predicate WebLoop(out: Output, messages: seq<Message>) {
    && TrimSpace(out.assistantMessage) == ""
    && CallsOnly(out.toolCalls, WEB_SEARCH)
    && ContainsResult(messages, WEB_RESULT)
  }
}
