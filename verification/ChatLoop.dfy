/** One turn of the chat assistant: a bounded loop between an arbitrary model and arbitrary tools. */
module ChatLoop {
  import opened Wrappers
  import opened Sequences

  // ---- text ----

  /** The characters that `strip` removes. */
  predicate IsSpace(c: char) {
    var n := c as int;
    9 <= n <= 13 || 28 <= n <= 32 || n == 0x85 || n == 0xA0 || n == 0x1680 || 0x2000 <= n <= 0x200A
    || n == 0x2028 || n == 0x2029 || n == 0x202F || n == 0x205F || n == 0x3000
  }

  function Strip(s: string): (r: string)
    ensures r != [] ==> !IsSpace(r[0]) && !IsSpace(r[|r| - 1])
    ensures |r| <= |s|
    ensures r == [] <==> forall c :: c in s ==> IsSpace(c)
  {
    if s == [] then []
    else if IsSpace(s[0]) then Strip(s[1..])
    else if IsSpace(s[|s| - 1]) then
      assert s == s[..|s| - 1] + [s[|s| - 1]];
      Strip(s[..|s| - 1])
    else s
  }

  predicate AllSpace(s: string) {
    forall c :: c in s ==> IsSpace(c)
  }

  /** What is stripped is only space, at both ends. */
  lemma {:induction false} StripExact(s: string) returns (before: string, after: string)
    ensures s == before + Strip(s) + after && AllSpace(before) && AllSpace(after)
  {
    hide IsSpace;
    before, after := "", "";
    if s == [] {
    } else if IsSpace(s[0]) {
      before, after := StripExact(s[1..]);
      Longer([s[0]], before, Strip(s[1..]), after, []);
      before := [s[0]] + before;
    } else if IsSpace(s[|s| - 1]) {
      before, after := StripExact(s[..|s| - 1]);
      Longer([], before, Strip(s[..|s| - 1]), after, [s[|s| - 1]]);
      after := after + [s[|s| - 1]];
    }
  }

  lemma Longer(a: string, before: string, middle: string, after: string, b: string)
    ensures a + (before + middle + after) + b == (a + before) + middle + (after + b)
    ensures a == "" ==> a + before == before
    ensures b == "" ==> after + b == after
    ensures AllSpace(a) && AllSpace(before) ==> AllSpace(a + before)
    ensures AllSpace(after) && AllSpace(b) ==> AllSpace(after + b)
  {
  }

  // ---- the model and the tools ----

  /** A call without an id or a name has the empty text there. */
  datatype Call = Call(id: string, name: string)

  /** What one completion does. */
  datatype Reply = Reply(content: string, calls: seq<Call>) | NotConfigured | Failed(error: string)

  datatype Outcome = Outcome(ok: bool, content: string, sources: seq<string>, data: Option<string>)

  /** Completion number i and tool run number k, counted from 0, may do anything. */
  type Model = nat -> Reply
  type Tools = nat -> Outcome

  datatype Message =
    | System
    | User(content: string)
    | Assistant(content: string)
    | ToolCalls(content: string, calls: seq<Call>)
    | ToolReply(id: string, name: string, content: string)

  datatype Answer = NotConfiguredText | CouldNotRetrieve | NoAnswerText | Prose(text: string) | ErrorText(text: string)

  datatype ErrorCode = NoError | NotConfiguredCode | AllToolsFailed | LlmError

  datatype ChatResult = ChatResult(
    answer: Answer, ok: bool, toolsUsed: seq<string>, sources: seq<string>, data: map<string, string>,
    partial: bool, error: ErrorCode, iterations: nat)

  // ---- the history ----

  datatype Role = UserRole | AssistantRole | OtherRole

  datatype Turn = Turn(role: Role, content: Option<string>)

  /** The slice `history[-limit:]`; a limit of 0 slices from the start. */
  function LastTurns(history: seq<Turn>, limit: nat): seq<Turn> {
    if limit == 0 || |history| <= limit then history else history[|history| - limit..]
  }

  predicate Kept(t: Turn) {
    !t.role.OtherRole? && Strip(t.content.GetOr("")) != ""
  }

  function AsMessage(t: Turn): Message {
    if t.role.UserRole? then User(Strip(t.content.GetOr(""))) else Assistant(Strip(t.content.GetOr("")))
  }

  /** The kept turns, in order. */
  function Cleaned(turns: seq<Turn>): seq<Message> {
    if turns == [] then []
    else if Kept(turns[0]) then [AsMessage(turns[0])] + Cleaned(turns[1..])
    else Cleaned(turns[1..])
  }

  method SanitizeHistory(history: seq<Turn>, limit: nat) returns (clean: seq<Message>)
    ensures clean == Cleaned(LastTurns(history, limit))
  {
    var turns := LastTurns(history, limit);
    clean := [];
    for i := 0 to |turns|
      invariant clean + Cleaned(turns[i..]) == Cleaned(turns)
    {
      assert turns[i..][1..] == turns[i + 1..];
      if Kept(turns[i]) { clean := clean + [AsMessage(turns[i])]; }
    }
  }

  predicate Spoken(m: Message) {
    (m.User? || m.Assistant?) && m.content != "" && !IsSpace(m.content[0]) && !IsSpace(m.content[|m.content| - 1])
  }

  /** What reaches the model of the history: exactly the user and assistant turns with text, trimmed. */
  lemma {:induction false} HistoryIsClean(turns: seq<Turn>)
    ensures |Cleaned(turns)| <= |turns|
    ensures forall m :: m in Cleaned(turns) <==> exists t :: t in turns && Kept(t) && m == AsMessage(t)
    ensures forall m :: m in Cleaned(turns) ==> Spoken(m)
  {
    if turns != [] {
      HistoryIsClean(turns[1..]);
      assert turns == [turns[0]] + turns[1..];
    }
  }

  /** Turn by turn: a user or assistant turn with text is kept, under its own role, and any other dropped. */
  lemma HistoryTurnByTurn(before: seq<Turn>, t: Turn, after: seq<Turn>)
    ensures var text := Strip(if t.content.Some? then t.content.value else "");
            Cleaned(before + [t] + after) ==
              Cleaned(before)
              + (if text == "" || t.role.OtherRole? then []
                  else [if t.role.UserRole? then User(text) else Assistant(text)])
              + Cleaned(after)
  {
    CleanedSplit(before + [t], after);
    CleanedSplit(before, [t]);
    assert [t][1..] == [] && Cleaned([t]) == (if Kept(t) then [AsMessage(t)] else []) + Cleaned([]);
  }

  lemma {:induction false} CleanedSplit(a: seq<Turn>, b: seq<Turn>)
    ensures Cleaned(a + b) == Cleaned(a) + Cleaned(b)
  {
    if a == [] { assert a + b == b; }
    else {
      assert (a + b)[1..] == a[1..] + b;
      CleanedSplit(a[1..], b);
    }
  }

  /** The turns looked at are the last ones, as many as the limit says, and all of them for a limit
      of 0: the history sent is within the limit exactly when the limit is not 0 or the whole
      history holds nothing to send. */
  lemma HistoryIsBounded(history: seq<Turn>, limit: nat)
    ensures LastTurns(history, 0) == history
    ensures limit > 0 ==> exists dropped :: 0 <= dropped <= |history| && LastTurns(history, limit) == history[dropped..]
                            && |LastTurns(history, limit)| == if limit < |history| then limit else |history|
    ensures |Cleaned(LastTurns(history, limit))| <= if limit > 0 && limit < |history| then limit else |history|
    ensures |Cleaned(LastTurns(history, limit))| <= limit <==> limit > 0 || forall t :: t in history ==> !Kept(t)
  {
    var turns := LastTurns(history, limit);
    assert Cleaned(turns) == [] || Cleaned(turns)[0] in Cleaned(turns);
    HistoryIsClean(turns);
    assert turns == history[if limit == 0 || |history| <= limit then 0 else |history| - limit..];
    if limit == 0 && |Cleaned(turns)| == 0 {
      forall t | t in history ensures !Kept(t) {
        assert Kept(t) ==> AsMessage(t) in Cleaned(turns);
      }
    }
  }

  // ---- what a turn has done after n completions ----

  predicate Continues(r: Reply) {
    r.Reply? && r.calls != []
  }

  /** The number of completions that answered with tool calls before the last one, at most the limit. */
  function Last(model: Model, i: nat, limit: nat): nat
    requires i <= limit
    decreases limit - i
  {
    if i == limit || !Continues(model(i)) then i else Last(model, i + 1, limit)
  }

  /** The tool calls of the first n completions, in order. */
  function Calls(model: Model, n: nat): seq<Call> {
    if n == 0 then []
    else if model(n - 1).Reply? then Calls(model, n - 1) + model(n - 1).calls
    else Calls(model, n - 1)
  }

  function Names(calls: seq<Call>): seq<string> {
    seq(|calls|, i requires 0 <= i < |calls| => calls[i].name)
  }

  /** The reply to a call carries its id, or its name when it has none. */
  function ReplyTo(c: Call, o: Outcome): Message {
    ToolReply(if c.id != "" then c.id else c.name, c.name, o.content)
  }

  /** One reply per call; the first of these calls was tool run number k. */
  function Replies(calls: seq<Call>, tools: Tools, k: nat): seq<Message> {
    seq(|calls|, i requires 0 <= i < |calls| => ReplyTo(calls[i], tools(k + i)))
  }

  /** What the first n completions and their tool runs add to the conversation. */
  function Transcript(model: Model, tools: Tools, n: nat): seq<Message> {
    if n == 0 then []
    else if model(n - 1).Reply? then
      Transcript(model, tools, n - 1) + [ToolCalls(model(n - 1).content, model(n - 1).calls)]
      + Replies(model(n - 1).calls, tools, |Calls(model, n - 1)|)
    else Transcript(model, tools, n - 1)
  }

  function AddNew(sources: seq<string>, more: seq<string>): seq<string>
    decreases |more|
  {
    if more == [] then sources
    else AddNew(if more[0] in sources then sources else sources + [more[0]], more[1..])
  }

  /** The sources of the first k tool runs that succeeded. */
  function Sources(tools: Tools, k: nat): seq<string> {
    if k == 0 then [] else AddNew(Sources(tools, k - 1), if tools(k - 1).ok then tools(k - 1).sources else [])
  }

  /** The data of the first k tool runs that succeeded, by tool name. */
  function Data(calls: seq<Call>, tools: Tools, k: nat): map<string, string>
    requires k <= |calls|
  {
    if k == 0 then map[]
    else if tools(k - 1).ok && tools(k - 1).data.Some? then
      Data(calls, tools, k - 1)[calls[k - 1].name := tools(k - 1).data.value]
    else Data(calls, tools, k - 1)
  }

  predicate AnyOk(tools: Tools, k: nat) {
    exists j :: 0 <= j < k && tools(j).ok
  }

  predicate AnyFailed(tools: Tools, k: nat) {
    exists j :: 0 <= j < k && !tools(j).ok
  }

  /** The outcome of a turn: n completions led to tool runs, then completion n ended it. */
  function Outcomes(model: Model, tools: Tools, n: nat, limit: nat): ChatResult {
    var calls := Calls(model, n);
    var k := |calls|;
    var base := ChatResult(CouldNotRetrieve, false, Names(calls), Sources(tools, k), Data(calls, tools, k),
                           false, AllToolsFailed, if n == limit then limit else n + 1);
    match model(n)
    case NotConfigured => ChatResult(NotConfiguredText, false, [], [], map[], false, NotConfiguredCode, 0)
    case Failed(error) =>
      base.(answer := if AnyOk(tools, k) then ErrorText(error) else CouldNotRetrieve,
            partial := AnyOk(tools, k), error := LlmError, iterations := 0)
    case Reply(content, _) =>
      if k > 0 && !AnyOk(tools, k) then base
      else base.(answer := if Strip(content) == "" then NoAnswerText else Prose(Strip(content)),
                 ok := true, partial := AnyOk(tools, k) && AnyFailed(tools, k), error := NoError)
  }

  // ---- the loop ----

  method Finalize(text: string, toolsUsed: seq<string>, sources: seq<string>, data: map<string, string>,
                  attempted: bool, ok: bool, failed: bool, iterations: nat) returns (r: ChatResult)
    ensures r.ok <==> !attempted || ok
    ensures r.answer.Prose? <==> r.ok && text != ""
    ensures r == ChatResult(if !r.ok then CouldNotRetrieve else if text == "" then NoAnswerText else Prose(text), r.ok,
                            toolsUsed, sources, data, r.ok && ok && failed,
                            if r.ok then NoError else AllToolsFailed, iterations)
  {
    if attempted && !ok {
      return ChatResult(CouldNotRetrieve, false, toolsUsed, sources, data, false, AllToolsFailed, iterations);
    }
    r := ChatResult(if text == "" then NoAnswerText else Prose(text), true,
                    toolsUsed, sources, data, ok && failed, NoError, iterations);
  }

  /** The local variables of a turn. */
  datatype Progress = Progress(
    messages: seq<Message>, runs: nat, toolsUsed: seq<string>, sources: seq<string>, data: map<string, string>,
    attempted: bool, anyOk: bool, anyFailed: bool)

  /** They say what running these calls gave. */
  ghost predicate Reached(p: Progress, calls: seq<Call>, tools: Tools) {
    && p.runs == |calls| && p.toolsUsed == Names(calls)
    && p.sources == Sources(tools, |calls|) && p.data == Data(calls, tools, |calls|)
    && p.attempted == (|calls| > 0) && p.anyOk == AnyOk(tools, |calls|) && p.anyFailed == AnyFailed(tools, |calls|)
  }

  method RunCall(p: Progress, call: Call, tools: Tools, ghost earlier: seq<Call>) returns (q: Progress)
    requires Reached(p, earlier, tools)
    ensures Reached(q, earlier + [call], tools)
    ensures q.messages == p.messages + [ReplyTo(call, tools(p.runs))]
  {
    DataPrefix(earlier, [call], tools, p.runs);
    var outcome := tools(p.runs);
    q := p.(attempted := true, toolsUsed := p.toolsUsed + [call.name]);
    if outcome.ok {
      q := q.(anyOk := true);
      var sources := q.sources;
      for j := 0 to |outcome.sources|
        invariant AddNew(sources, outcome.sources[j..]) == AddNew(p.sources, outcome.sources)
      {
        assert outcome.sources[j..][1..] == outcome.sources[j + 1..];
        if outcome.sources[j] !in sources { sources := sources + [outcome.sources[j]]; }
      }
      q := q.(sources := sources);
      if outcome.data.Some? { q := q.(data := q.data[call.name := outcome.data.value]); }
    } else {
      q := q.(anyFailed := true);
    }
    q := q.(messages := q.messages + [ReplyTo(call, outcome)], runs := q.runs + 1);
    OneMoreRun(tools, p.runs);
  }

  lemma OneMoreRun(tools: Tools, k: nat)
    ensures AnyOk(tools, k + 1) <==> AnyOk(tools, k) || tools(k).ok
    ensures AnyFailed(tools, k + 1) <==> AnyFailed(tools, k) || !tools(k).ok
  {
  }

  /** The calls of one reply, in order. */
  method RunCalls(p: Progress, calls: seq<Call>, tools: Tools, ghost earlier: seq<Call>) returns (q: Progress)
    requires Reached(p, earlier, tools)
    ensures Reached(q, earlier + calls, tools)
    ensures q.messages == p.messages + Replies(calls, tools, |earlier|)
  {
    hide Reached;
    q := p;
    assert earlier + calls[..0] == earlier;
    for i := 0 to |calls|
      invariant Reached(q, earlier + calls[..i], tools)
      invariant q.messages == p.messages + Replies(calls[..i], tools, |earlier|)
    {
      assert earlier + calls[..i] + [calls[i]] == earlier + calls[..i + 1];
      CountedRuns(q, earlier + calls[..i], tools);
      q := RunCall(q, calls[i], tools, earlier + calls[..i]);
    }
    assert calls[..|calls|] == calls;
  }

  lemma CountedRuns(p: Progress, calls: seq<Call>, tools: Tools)
    requires Reached(p, calls, tools)
    ensures p.runs == |calls|
  {
  }

  /** How a turn ends: completion n answered with prose, with an error, or was the last one allowed. */
  method EndTurn(p: Progress, reply: Reply, model: Model, tools: Tools, n: nat, limit: nat) returns (r: ChatResult)
    requires Reached(p, Calls(model, n), tools) && reply == model(n)
    ensures r == Outcomes(model, tools, n, limit)
  {
    match reply {
      case NotConfigured =>
        r := ChatResult(NotConfiguredText, false, [], [], map[], false, NotConfiguredCode, 0);
      case Failed(error) =>
        r := ChatResult(if !p.anyOk then CouldNotRetrieve else ErrorText(error), false,
                        p.toolsUsed, p.sources, p.data, p.anyOk, LlmError, 0);
      case Reply(content, _) =>
        r := Finalize(Strip(content), p.toolsUsed, p.sources, p.data, p.attempted, p.anyOk, p.anyFailed,
            if n == limit then limit else n + 1);
    }
  }

  /** One turn. The conversation as it was last sent and the number of completions are given back too. */
  method AnswerTurn(enabled: bool, limit: nat, historyLimit: nat, message: string, history: seq<Turn>, model: Model,
      tools: Tools)
    returns (r: ChatResult, messages: seq<Message>, completions: nat)
    ensures !enabled ==> completions == 0 && r.answer == NotConfiguredText && !r.ok
    ensures enabled ==>
              var n := Last(model, 0, limit);
              && completions == n + 1
              && r == Outcomes(model, tools, n, limit)
              && messages == [System] + Cleaned(LastTurns(history, historyLimit)) + [User(Strip(message))]
                  + Transcript(model, tools, n)
  {
    hide Outcomes, Reached, Strip, Cleaned, LastTurns, Replies, Transcript, Calls;
    if !enabled {
      return ChatResult(NotConfiguredText, false, [], [], map[], false, NotConfiguredCode, 0), [], 0;
    }
    var clean := SanitizeHistory(history, historyLimit);
    var prompt := [System] + clean + [User(Strip(message))];
    var p := Progress(prompt, 0, [], [], map[], false, false, false);
    NothingReached(p, tools);
    NoRoundYet(model, tools);
    completions := 0;
    while completions < limit
      invariant completions <= limit && Last(model, 0, limit) == Last(model, completions, limit)
      invariant Reached(p, Calls(model, completions), tools)
      invariant p.messages == prompt + Transcript(model, tools, completions)
    {
      var reply := model(completions);
      completions := completions + 1;
      if !reply.Reply? || reply.calls == [] {
        r := EndTurn(p, reply, model, tools, completions - 1, limit);
        return r, p.messages, completions;
      }
      CountedRuns(p, Calls(model, completions - 1), tools);
      ghost var before := p;
      p := p.(messages := p.messages + [ToolCalls(reply.content, reply.calls)]);
      MessagesApart(before, p, Calls(model, completions - 1), tools);
      p := RunCalls(p, reply.calls, tools, Calls(model, completions - 1));
      OneMoreRound(model, tools, completions);
    }
    r := EndTurn(p, model(completions), model, tools, completions, limit);
    return r, p.messages, completions + 1;
  }

  lemma OneMoreRound(model: Model, tools: Tools, n: nat)
    requires n > 0 && model(n - 1).Reply?
    ensures Calls(model, n) == Calls(model, n - 1) + model(n - 1).calls
    ensures Transcript(model, tools, n) ==
              Transcript(model, tools, n - 1) + [ToolCalls(model(n - 1).content, model(n - 1).calls)]
              + Replies(model(n - 1).calls, tools, |Calls(model, n - 1)|)
  {
  }

  lemma NoRoundYet(model: Model, tools: Tools)
    ensures Calls(model, 0) == [] && Transcript(model, tools, 0) == []
  {
  }

  lemma MessagesApart(p: Progress, q: Progress, calls: seq<Call>, tools: Tools)
    requires Reached(p, calls, tools) && q == p.(messages := q.messages)
    ensures Reached(q, calls, tools)
  {
  }

  lemma NothingReached(p: Progress, tools: Tools)
    requires p.runs == 0 && p.toolsUsed == p.sources == [] && p.data == map[] && !p.attempted && !p.anyOk
            && !p.anyFailed
    ensures Reached(p, [], tools)
  {
  }

  lemma {:induction false} DataPrefix(calls: seq<Call>, more: seq<Call>, tools: Tools, k: nat)
    requires k <= |calls|
    ensures Data(calls + more, tools, k) == Data(calls, tools, k)
  {
    if k > 0 { DataPrefix(calls, more, tools, k - 1); }
  }

  // ---- what holds of every turn, whatever the model and the tools do ----

  /** The loop stops at the first completion without tool calls, or after the limit with one more. */
  lemma {:induction false} LastExact(model: Model, i: nat, limit: nat)
    requires i <= limit
    ensures var n := Last(model, i, limit);
            && i <= n <= limit
            && (forall j :: i <= j < n ==> model(j).Reply? && model(j).calls != [])
            && (n < limit ==> !(model(n).Reply? && model(n).calls != []))
    decreases limit - i
  {
    if i < limit && Continues(model(i)) { LastExact(model, i + 1, limit); }
  }

  lemma {:induction false} AddNewExact(sources: seq<string>, more: seq<string>)
    requires Distinct(sources)
    ensures Distinct(AddNew(sources, more)) && |sources| <= |AddNew(sources, more)|
    ensures AddNew(sources, more)[..|sources|] == sources
    ensures forall x :: x in AddNew(sources, more) <==> x in sources || x in more
    decreases |more|
  {
    if more != [] {
      assert more == [more[0]] + more[1..];
      var next := if more[0] in sources then sources else sources + [more[0]];
      AddNewExact(next, more[1..]);
      assert AddNew(sources, more)[..|next|][..|sources|] == sources;
    }
  }

  /** Run j succeeded and names x as a source. */
  predicate Supplies(tools: Tools, j: nat, x: string) {
    tools(j).ok && x in tools(j).sources
  }

  /** The sources have no duplicates and are exactly those of the tool runs that succeeded. */
  lemma {:induction false} SourcesExact(tools: Tools, k: nat)
    ensures Distinct(Sources(tools, k))
    ensures forall x :: x in Sources(tools, k) <==> exists j: nat :: j < k && Supplies(tools, j, x)
  {
    if k > 0 {
      var m := k - 1;
      SourcesExact(tools, m);
      AddNewExact(Sources(tools, m), if tools(m).ok then tools(m).sources else []);
      forall x ensures x in Sources(tools, k) <==> x in Sources(tools, m) || Supplies(tools, m, x) {}
      forall x | exists j: nat :: j < k && Supplies(tools, j, x) ensures x in Sources(tools, k) {
        var j: nat :| j < k && Supplies(tools, j, x);
        assert j < m || j == m;
      }
    }
  }

  /** Run j is the last of the first k that gave data under this name. */
  predicate LastData(calls: seq<Call>, tools: Tools, k: nat, j: nat, name: string)
    requires k <= |calls|
  {
    && j < k && calls[j].name == name && tools(j).ok && tools(j).data.Some?
    && forall i :: j < i < k && calls[i].name == name ==> !(tools(i).ok && tools(i).data.Some?)
  }

  /** The data kept under a tool's name is that of its last run that succeeded with data. */
  lemma {:induction false} DataExact(calls: seq<Call>, tools: Tools, k: nat)
    requires k <= |calls|
    ensures forall name :: name in Data(calls, tools, k) <==> exists j: nat :: LastData(calls, tools, k, j, name)
    ensures forall j: nat, name :: LastData(calls, tools, k, j, name) ==>
              Data(calls, tools, k)[name] == tools(j).data.value
  {
    if k > 0 {
      var m: nat := k - 1;
      DataExact(calls, tools, m);
      var now := tools(k - 1).ok && tools(k - 1).data.Some?;
      forall j: nat, name | LastData(calls, tools, k, j, name)
        ensures name in Data(calls, tools, k) && Data(calls, tools, k)[name] == tools(j).data.value
      {
        if j < k - 1 { assert LastData(calls, tools, m, j, name); }
      }
      forall name | name in Data(calls, tools, k) ensures exists j: nat :: LastData(calls, tools, k, j, name) {
        if now && name == calls[k - 1].name {
          assert LastData(calls, tools, k, k - 1, name);
        } else {
          assert name in Data(calls, tools, m);
          var j: nat :| LastData(calls, tools, m, j, name);
          assert LastData(calls, tools, k, j, name);
        }
      }
    }
  }

  /** Every tool-call message is followed, in order, by exactly one reply for each of its calls. */
  predicate Answered(messages: seq<Message>)
    decreases |messages|
  {
    messages == [] ||
    (&& messages[0].ToolCalls? && |messages| > |messages[0].calls|
     && (forall i :: 0 <= i < |messages[0].calls| ==> AnswersCall(messages[1 + i], messages[0].calls[i]))
     && Answered(messages[1 + |messages[0].calls|..]))
  }

  predicate AnswersCall(m: Message, c: Call) {
    m.ToolReply? && m.name == c.name && m.id == if c.id != "" then c.id else c.name
  }

  lemma {:induction false} AnsweredJoins(a: seq<Message>, b: seq<Message>)
    requires Answered(a) && Answered(b)
    ensures Answered(a + b)
    decreases |a|
  {
    if a == [] { assert a + b == b; }
    else {
      var k := 1 + |a[0].calls|;
      assert (a + b)[k..] == a[k..] + b;
      AnsweredJoins(a[k..], b);
    }
  }

  /** In the whole conversation no tool call is left without its reply and no reply is without a call. */
  lemma {:induction false} EveryCallAnswered(model: Model, tools: Tools, n: nat)
    ensures Answered(Transcript(model, tools, n))
  {
    if n > 0 {
      EveryCallAnswered(model, tools, n - 1);
      if model(n - 1).Reply? {
        var calls := model(n - 1).calls;
        var block := [ToolCalls(model(n - 1).content, calls)] + Replies(calls, tools, |Calls(model, n - 1)|);
        assert block[1 + |calls|..] == [];
        AnsweredJoins(Transcript(model, tools, n - 1), block);
        assert Transcript(model, tools, n) == Transcript(model, tools, n - 1) + block;
      }
    }
  }

  function RepliesIn(messages: seq<Message>): seq<Message> {
    if messages == [] then []
    else if messages[0].ToolReply? then [messages[0]] + RepliesIn(messages[1..])
    else RepliesIn(messages[1..])
  }

  function RequestsIn(messages: seq<Message>): seq<Message> {
    if messages == [] then []
    else if messages[0].ToolCalls? then [messages[0]] + RequestsIn(messages[1..])
    else RequestsIn(messages[1..])
  }

  lemma {:induction false} InSplit(a: seq<Message>, b: seq<Message>)
    ensures RepliesIn(a + b) == RepliesIn(a) + RepliesIn(b) && RequestsIn(a + b) == RequestsIn(a) + RequestsIn(b)
  {
    if a == [] { assert a + b == b; }
    else {
      assert (a + b)[1..] == a[1..] + b;
      InSplit(a[1..], b);
    }
  }

  lemma {:induction false} OnlyReplies(messages: seq<Message>)
    requires forall m :: m in messages ==> m.ToolReply?
    ensures RepliesIn(messages) == messages && RequestsIn(messages) == []
  {
    if messages != [] { OnlyReplies(messages[1..]); }
  }

  lemma OneMoreBlock(model: Model, tools: Tools, n: nat)
    requires n > 0 && Continues(model(n - 1))
    ensures RepliesIn(Transcript(model, tools, n))
            == RepliesIn(Transcript(model, tools, n - 1)) + Replies(model(n - 1).calls, tools, |Calls(model, n - 1)|)
    ensures RequestsIn(Transcript(model, tools, n))
            == RequestsIn(Transcript(model, tools, n - 1)) + [ToolCalls(model(n - 1).content, model(n - 1).calls)]
  {
    hide Replies, Calls;
    var before := Transcript(model, tools, n - 1);
    var head := [ToolCalls(model(n - 1).content, model(n - 1).calls)];
    var tail := Replies(model(n - 1).calls, tools, |Calls(model, n - 1)|);
    InSplit(before + head, tail);
    InSplit(before, head);
    RepliesAreReplies(model(n - 1).calls, tools, |Calls(model, n - 1)|);
    OnlyReplies(tail);
    assert head[1..] == [] && RepliesIn([]) == RequestsIn([]) == [];
  }

  lemma RepliesAreReplies(calls: seq<Call>, tools: Tools, k: nat)
    ensures forall m :: m in Replies(calls, tools, k) ==> m.ToolReply?
  {
  }

  lemma RepliesSplit(a: seq<Call>, b: seq<Call>, tools: Tools)
    ensures Replies(a + b, tools, 0) == Replies(a, tools, 0) + Replies(b, tools, |a|)
  {
  }

  lemma {:induction false} RepliesTogether(model: Model, tools: Tools, n: nat)
    requires forall i :: 0 <= i < n ==> Continues(model(i))
    ensures RepliesIn(Transcript(model, tools, n)) == Replies(Calls(model, n), tools, 0)
  {
    hide Transcript, Replies, Continues;
    if n > 0 {
      ContinuesIsReply(model(n - 1));
      RepliesTogether(model, tools, n - 1);
      OneMoreBlock(model, tools, n);
      RepliesSplit(Calls(model, n - 1), model(n - 1).calls, tools);
    } else {
      NoRoundYet(model, tools);
      NoReplies(tools);
    }
  }

  lemma ContinuesIsReply(r: Reply)
    ensures Continues(r) ==> r.Reply?
  {
  }

  lemma NoReplies(tools: Tools)
    ensures Replies([], tools, 0) == [] && RepliesIn([]) == []
  {
  }

  /** The model reads what the tools said: reply number k is for call number k and carries the content
      of tool run number k. */
  lemma RepliesExact(model: Model, tools: Tools, n: nat)
    requires forall i :: 0 <= i < n ==> Continues(model(i))
    ensures var calls, replies := Calls(model, n), RepliesIn(Transcript(model, tools, n));
            && |replies| == |calls|
            && forall k :: 0 <= k < |calls| ==>
                 replies[k] ==
                 ToolReply(if calls[k].id == "" then calls[k].name else calls[k].id, calls[k].name, tools(k).content)
  {
    hide Calls, Transcript, RepliesIn;
    RepliesTogether(model, tools, n);
  }

  /** And it reads its own calls back, completion by completion. */
  lemma {:induction false} RequestsExact(model: Model, tools: Tools, n: nat)
    requires forall i :: 0 <= i < n ==> Continues(model(i))
    ensures var requests := RequestsIn(Transcript(model, tools, n));
            && |requests| == n
            && forall i :: 0 <= i < n ==> model(i).Reply? && requests[i] == ToolCalls(model(i).content, model(i).calls)
  {
    hide Transcript;
    if n > 0 {
      RequestsExact(model, tools, n - 1);
      OneMoreBlock(model, tools, n);
    } else {
      NoRoundYet(model, tools);
    }
  }

  /** The calls that are run are those of the completions, one after the other. */
  lemma {:induction false} CallsExact(model: Model, i: nat, n: nat)
    requires i < n && model(i).Reply?
    ensures var start := |Calls(model, i)|;
            && start + |model(i).calls| <= |Calls(model, n)|
            && Calls(model, n)[start..start + |model(i).calls|] == model(i).calls
    ensures Calls(model, 0) == [] && |Calls(model, i + 1)| == |Calls(model, i)| + |model(i).calls|
    decreases n
  {
    if i < n - 1 { CallsExact(model, i, n - 1); }
  }

  /** Prose of the model is returned exactly when the last completion gave some and the turn either
      needed no tool or had one that succeeded; the text of an error only after a tool succeeded;
      and an answer counts as partial exactly when data came back but something failed. */
  lemma AnswersAreBacked(model: Model, tools: Tools, limit: nat)
    ensures var n := Last(model, 0, limit);
            var r, k := Outcomes(model, tools, n, limit), |Calls(model, n)|;
            && (r.answer.Prose? <==> model(n).Reply? && Strip(model(n).content) != "" && (k == 0 || AnyOk(tools, k)))
            && (r.answer.Prose? ==> r.answer.text == Strip(model(n).content))
            && (r.answer.ErrorText? ==> AnyOk(tools, k))
            && (r.ok <==> model(n).Reply? && (k == 0 || AnyOk(tools, k)))
            && (r.partial <==> AnyOk(tools, k) && (model(n).Failed? || (model(n).Reply? && AnyFailed(tools, k))))
            && (model(n).NotConfigured? ==> r.sources == [] && r.toolsUsed == [])
            && (!model(n).NotConfigured? ==>
                  && r.sources == Sources(tools, k) && r.data == Data(Calls(model, n), tools, k)
                  && |r.toolsUsed| == k && forall j :: 0 <= j < k ==> r.toolsUsed[j] == Calls(model, n)[j].name)
            && (r.answer.NoAnswerText? <==> r.ok && Strip(model(n).content) == "")
            && (r.answer.NotConfiguredText? <==> model(n).NotConfigured?)
            && r.error == (if model(n).NotConfigured? then NotConfiguredCode else if model(n).Failed? then LlmError
                           else if r.ok then NoError else AllToolsFailed)
            && r.iterations == (if !model(n).Reply? then 0 else if n == limit then limit else n + 1)
            && (r.answer.ErrorText? ==> model(n).Failed? && r.answer.text == model(n).error)
            && (model(n).Failed? && AnyOk(tools, k) ==> r.answer.ErrorText?)
  {
    hide Calls, Sources, Data;
    var n := Last(model, 0, limit);
    var k := |Calls(model, n)|;
    assert AnyOk(tools, k) ==> k > 0;
  }
}
