/** The ReAct agent loop: context overflows and refusals, and the history rewrite that removes the submit tool. */
module React {
  import opened Wrappers

  datatype Call = Call(id: string, function_: string)

  datatype Item = Reasoning(uid: nat) | OtherItem(uid: nat)

  datatype Content = Text(text: string) | Items(items: seq<Item>)

  datatype Message =
    | System(uid: nat)
    | User(uid: nat)
    | Assistant(calls: Option<seq<Call>>, content: Content, uid: nat)
    | ToolResult(callId: string, function_: string, failed: bool, uid: nat)

  // ----- removing the submit tool ------------------------------------------------------------------------------

  function WithoutCalls(calls: seq<Call>, submit: string): seq<Call> {
    if calls == [] then []
    else (if calls[0].function_ != submit then [calls[0]] else []) + WithoutCalls(calls[1..], submit)
  }

  /** The position of the last reasoning item. */
  function LastReasoning(items: seq<Item>): (k: Option<nat>)
    ensures k.Some? ==> k.value < |items| && items[k.value].Reasoning? &&
                        forall j :: k.value < j < |items| ==> !items[j].Reasoning?
    ensures k.None? ==> forall j :: 0 <= j < |items| ==> !items[j].Reasoning?
  {
    var n := |items| - 1;
    if items == [] then None else if items[n].Reasoning? then Some(n) else LastReasoning(items[..n])
  }

  function DropLastReasoning(c: Content): Content {
    match c
    case Text(_) => c
    case Items(items) =>
      match LastReasoning(items)
      case Some(k) => Items(items[..k] + items[k + 1..])
      case None => c
  }

  /** What becomes of one message; None when it is dropped. */
  function Rewritten(m: Message, submit: string): Option<Message> {
    match m
    case ToolResult(_, f, _, _) => if f == submit then None else Some(m)
    case Assistant(Some(calls), content, uid) =>
      var kept := WithoutCalls(calls, submit);
      Some(if |kept| < |calls| then Assistant(Some(kept), DropLastReasoning(content), uid) else m)
    case _ => Some(m)
  }

  function RemoveSubmit(messages: seq<Message>, submit: string): seq<Message> {
    if messages == [] then []
    else
      var n := |messages| - 1;
      RemoveSubmit(messages[..n], submit) + match Rewritten(messages[n], submit) case Some(m) => [m] case None => []
  }

  /** `_remove_submit_tool`. */
  method RemoveSubmitTool(messages: seq<Message>, submit: string) returns (filtered: seq<Message>)
    ensures filtered == RemoveSubmit(messages, submit)
  {
    filtered := [];
    for i := 0 to |messages|
      invariant filtered == RemoveSubmit(messages[..i], submit)
    {
      var message := messages[i];
      assert messages[..i + 1][..i] == messages[..i];
      if message.ToolResult? && message.function_ == submit { continue; }
      if message.Assistant? && message.calls.Some? && message.calls.value != [] {
        var calls := message.calls.value;
        var kept: seq<Call> := [];
        for j := 0 to |calls|
          invariant kept == WithoutCalls(calls[..j], submit)
        {
          CallsAppend(calls[..j], calls[j], submit);
          assert calls[..j + 1] == calls[..j] + [calls[j]];
          if calls[j].function_ != submit { kept := kept + [calls[j]]; }
        }
        assert calls[..|calls|] == calls;
        if |kept| < |calls| {
          var content := message.content;
          if content.Items? {
            var last := LastReasoning(content.items);
            if last.Some? {
              content := Items(content.items[..last.value] + content.items[last.value + 1..]);
            }
          }
          message := message.(calls := Some(kept), content := content);
        }
      }
      filtered := filtered + [message];
    }
    assert messages[..|messages|] == messages;
  }

  lemma {:induction false} CallsAppend(calls: seq<Call>, c: Call, submit: string)
    ensures WithoutCalls(calls + [c], submit)
            == WithoutCalls(calls, submit) + if c.function_ != submit then [c] else []
  {
    if calls == [] {
      assert calls + [c] == [c];
    } else {
      assert (calls + [c])[1..] == calls[1..] + [c];
      CallsAppend(calls[1..], c, submit);
    }
  }

  // ----- what the rewrite keeps: the calls and results of a history, in order --------------------------------------

  datatype Act = Called(call: Call) | Answered(callId: string, tool: string) {
    function Tool(): string { if Called? then call.function_ else tool }
  }

  function CallActs(calls: seq<Call>): seq<Act> {
    seq(|calls|, i requires 0 <= i < |calls| => Called(calls[i]))
  }

  function ActsOf(m: Message): seq<Act> {
    match m
    case Assistant(Some(calls), _, _) => CallActs(calls)
    case ToolResult(id, f, _, _) => [Answered(id, f)]
    case _ => []
  }

  function Acts(messages: seq<Message>): seq<Act> {
    if messages == [] then [] else Acts(messages[..|messages| - 1]) + ActsOf(messages[|messages| - 1])
  }

  function OtherActs(acts: seq<Act>, submit: string): seq<Act> {
    if acts == [] then []
    else
      var n := |acts| - 1;
      OtherActs(acts[..n], submit) + if acts[n].Tool() != submit then [acts[n]] else []
  }

  /** Every result answers an earlier call of the same tool. */
  ghost predicate Paired(acts: seq<Act>) {
    forall i :: 0 <= i < |acts| && acts[i].Answered? ==> AnsweredBefore(acts, i)
  }

  ghost predicate AnsweredBefore(acts: seq<Act>, i: nat)
    requires i < |acts| && acts[i].Answered?
  {
    Called(Call(acts[i].callId, acts[i].tool)) in acts[..i]
  }

  lemma {:induction false} OtherConcat(a: seq<Act>, b: seq<Act>, submit: string)
    ensures OtherActs(a + b, submit) == OtherActs(a, submit) + OtherActs(b, submit)
  {
    if b == [] {
      assert a + b == a;
    } else {
      var n := |b| - 1;
      assert (a + b)[..|a + b| - 1] == a + b[..n];
      OtherConcat(a, b[..n], submit);
    }
  }

  /** Dropping calls from a message drops their acts; an unchanged number means that nothing was dropped. */
  lemma {:induction false} CallActsOther(calls: seq<Call>, submit: string)
    ensures OtherActs(CallActs(calls), submit) == CallActs(WithoutCalls(calls, submit))
  {
    if calls != [] {
      var c, rest := calls[0], calls[1..];
      CallActsOther(rest, submit);
      CallActsFirst(c, rest);
      assert calls == [c] + rest;
      OtherConcat([Called(c)], CallActs(rest), submit);
      OneAct(c, submit);
      var kept := WithoutCalls(rest, submit);
      CallActsFirst(c, kept);
      assert [] + kept == kept && [] + CallActs(kept) == CallActs(kept);
    }
  }

  lemma CallActsFirst(c: Call, rest: seq<Call>)
    ensures CallActs([c] + rest) == [Called(c)] + CallActs(rest)
  {
  }

  lemma OneAct(c: Call, submit: string)
    ensures OtherActs([Called(c)], submit) == if c.function_ != submit then [Called(c)] else []
  {
    var acts := [Called(c)];
    assert acts[..0] == [];
    assert OtherActs(acts[..0], submit) == [];
  }

  lemma {:induction false} CallsKept(calls: seq<Call>, submit: string)
    ensures |WithoutCalls(calls, submit)| <= |calls|
    ensures |WithoutCalls(calls, submit)| == |calls| ==> WithoutCalls(calls, submit) == calls
    ensures forall c :: c in WithoutCalls(calls, submit) <==> c in calls && c.function_ != submit
  {
    if calls != [] {
      CallsKept(calls[1..], submit);
      assert calls == [calls[0]] + calls[1..];
    }
  }

  lemma ActsRewritten(m: Message, submit: string)
    ensures (match Rewritten(m, submit) case Some(m') => ActsOf(m') case None => []) == OtherActs(ActsOf(m), submit)
  {
    match m
    case Assistant(Some(calls), _, _) =>
      CallActsOther(calls, submit);
      CallsKept(calls, submit);
    case ToolResult(id, f, _, _) =>
      assert ActsOf(m)[..0] == [];
    case _ =>
  }

  /** The rewritten history has no call and no result of the submit tool, and all others in their order. */
  lemma {:induction false} ActsKept(messages: seq<Message>, submit: string)
    ensures Acts(RemoveSubmit(messages, submit)) == OtherActs(Acts(messages), submit)
  {
    if messages != [] {
      var n := |messages| - 1;
      var before := RemoveSubmit(messages[..n], submit);
      ActsKept(messages[..n], submit);
      ActsRewritten(messages[n], submit);
      OtherConcat(Acts(messages[..n]), ActsOf(messages[n]), submit);
      match Rewritten(messages[n], submit) {
        case Some(m) => ActsAppend(before, m);
        case None =>
          assert before + [] == before;
          assert Acts(before) + [] == Acts(before);
      }
    }
  }

  lemma ActsAppend(messages: seq<Message>, m: Message)
    ensures Acts(messages + [m]) == Acts(messages) + ActsOf(m)
  {
    assert (messages + [m])[..|messages|] == messages;
  }

  lemma {:induction false} OtherMembers(acts: seq<Act>, submit: string)
    ensures forall a :: a in OtherActs(acts, submit) <==> a in acts && a.Tool() != submit
  {
    if acts != [] {
      var n := |acts| - 1;
      OtherMembers(acts[..n], submit);
      assert acts == acts[..n] + [acts[n]];
    }
  }

  /** Results still answer earlier calls once all acts of one tool are gone. */
  lemma {:induction false} PairedOther(acts: seq<Act>, submit: string)
    requires Paired(acts)
    ensures Paired(OtherActs(acts, submit))
  {
    if acts != [] {
      var n := |acts| - 1;
      var p := acts[..n];
      forall i | 0 <= i < n && p[i].Answered? ensures AnsweredBefore(p, i) {
        assert AnsweredBefore(acts, i) && p[..i] == acts[..i];
      }
      PairedOther(p, submit);
      OtherMembers(p, submit);
      var q, r := OtherActs(p, submit), OtherActs(acts, submit);
      forall i | 0 <= i < |r| && r[i].Answered? ensures AnsweredBefore(r, i) {
        if i < |q| {
          assert AnsweredBefore(q, i) && r[..i] == q[..i];
        } else {
          assert AnsweredBefore(acts, n) && r[..i] == q;
        }
      }
    }
  }

  /** For every history whose results answer earlier calls, so do those of the rewritten history. */
  lemma PairingKept(messages: seq<Message>, submit: string)
    requires Paired(Acts(messages))
    ensures Paired(Acts(RemoveSubmit(messages, submit)))
    ensures forall a <- Acts(RemoveSubmit(messages, submit)) :: a.Tool() != submit
  {
    ActsKept(messages, submit);
    PairedOther(Acts(messages), submit);
    OtherMembers(Acts(messages), submit);
  }

  predicate FreeOf(m: Message, submit: string) {
    Rewritten(m, submit) == Some(m)
  }

  lemma RewrittenIsFree(m: Message, submit: string)
    ensures Rewritten(m, submit).Some? ==> FreeOf(Rewritten(m, submit).value, submit)
  {
    match m
    case Assistant(Some(calls), _, _) =>
      CallsKept(calls, submit);
      NothingToRemove(WithoutCalls(calls, submit), submit);
    case _ =>
  }

  lemma {:induction false} NothingToRemove(calls: seq<Call>, submit: string)
    requires forall c <- calls :: c.function_ != submit
    ensures WithoutCalls(calls, submit) == calls
  {
    if calls != [] {
      assert calls[0] in calls;
      NothingToRemove(calls[1..], submit);
    }
  }

  /** Messages without the submit tool are left alone, whatever stands around them. */
  lemma {:induction false} FreeStays(messages: seq<Message>, submit: string)
    requires forall m <- messages :: FreeOf(m, submit)
    ensures RemoveSubmit(messages, submit) == messages
  {
    if messages != [] {
      var n := |messages| - 1;
      assert messages[n] in messages && messages == messages[..n] + [messages[n]];
      FreeStays(messages[..n], submit);
    }
  }

  lemma {:induction false} AllFree(messages: seq<Message>, submit: string)
    ensures forall m <- RemoveSubmit(messages, submit) :: FreeOf(m, submit)
  {
    if messages != [] {
      var n := |messages| - 1;
      AllFree(messages[..n], submit);
      RewrittenIsFree(messages[n], submit);
    }
  }

  /** A second pass changes nothing. */
  lemma RemoveSubmitTwice(messages: seq<Message>, submit: string)
    ensures RemoveSubmit(RemoveSubmit(messages, submit), submit) == RemoveSubmit(messages, submit)
  {
    AllFree(messages, submit);
    FreeStays(RemoveSubmit(messages, submit), submit);
  }

  function WithoutResults(messages: seq<Message>, submit: string): seq<Message> {
    if messages == [] then []
    else
      var n := |messages| - 1;
      var m := messages[n];
      WithoutResults(messages[..n], submit) + if m.ToolResult? && m.function_ == submit then [] else [m]
  }

  predicate CallsSubmit(m: Message, submit: string) {
    m.Assistant? && m.calls.Some? && exists c <- m.calls.value :: c.function_ == submit
  }

  /** Only results of the submit tool disappear, in place, and only messages that call it change. */
  lemma {:induction false} MessagesKept(messages: seq<Message>, submit: string)
    ensures |RemoveSubmit(messages, submit)| == |WithoutResults(messages, submit)|
    ensures forall i :: 0 <= i < |RemoveSubmit(messages, submit)| ==>
              var m, m' := WithoutResults(messages, submit)[i], RemoveSubmit(messages, submit)[i];
              m'.uid == m.uid && (m' == m <==> !CallsSubmit(m, submit)) && (CallsSubmit(m, submit) ==> LosesReasoning(m, m'))
  {
    if messages != [] {
      var n := |messages| - 1;
      MessagesKept(messages[..n], submit);
      ChangedIfSubmits(messages[n], submit);
    }
  }

  lemma ChangedIfSubmits(m: Message, submit: string)
    ensures Rewritten(m, submit).None? <==> m.ToolResult? && m.function_ == submit
    ensures Rewritten(m, submit).Some? ==>
              var m' := Rewritten(m, submit).value;
              m'.uid == m.uid && (m' == m <==> !CallsSubmit(m, submit)) && (CallsSubmit(m, submit) ==> LosesReasoning(m, m'))
  {
    if m.Assistant? && m.calls.Some? {
      CallsKept(m.calls.value, submit);
      if !CallsSubmit(m, submit) { NothingToRemove(m.calls.value, submit); }
    }
  }

  /** The content of the new message: text as it was, and of items all but the last reasoning item, in order. */
  ghost predicate LosesReasoning(m: Message, m': Message) {
    && m.Assistant? && m'.Assistant?
    && (m.content.Text? ==> m'.content == m.content)
    && (m.content.Items? ==>
        && m'.content.Items?
        && var items, items' := m.content.items, m'.content.items;
           if forall i :: 0 <= i < |items| ==> !items[i].Reasoning? then items' == items
           else exists k :: IsLastReasoning(items, k) && items' == items[..k] + items[k + 1..])
  }

  predicate IsLastReasoning(items: seq<Item>, k: int) {
    0 <= k < |items| && items[k].Reasoning? && forall j :: k < j < |items| ==> !items[j].Reasoning?
  }

  // ----- refusals and overflows ---------------------------------------------------------------------------------------

  datatype StopReason = Stop | ToolCalls | ModelLength | ContentFilter | OtherReason

  datatype Output = Output(stop: StopReason, message: Message)

  /** The answers of the model to its successive calls, whatever they depend on. */
  type Model = nat -> Output

  /** A message filter; it may behave differently on each call. */
  type MessageFilter = (nat, seq<Message>) -> seq<Message>

  function Retries(retryRefusals: Option<int>): nat {
    if retryRefusals.Some? && retryRefusals.value > 0 then retryRefusals.value else 0
  }

  /** The generate of `_model_generate` without compaction: refusals are retried, boundedly often. */
  method Generate(model: Model, messages: seq<Message>, retryRefusals: Option<int>, from: nat)
    returns (messages': seq<Message>, output: Output, next: nat)
    ensures var retries := if retryRefusals.Some? && retryRefusals.value > 0 then retryRefusals.value else 0;
            from < next <= from + 1 + retries && (output.stop == ContentFilter ==> next == from + 1 + retries)
    ensures output == model(next - 1) && messages' == messages + [output.message]
    ensures forall k :: from <= k < next - 1 ==> model(k).stop == ContentFilter
  {
    var attempts := 0;
    next := from;
    while true
      invariant next == from + attempts && 0 <= attempts <= Retries(retryRefusals)
      invariant forall k :: from <= k < next ==> model(k).stop == ContentFilter
      decreases Retries(retryRefusals) - attempts
    {
      output := model(next);
      next := next + 1;
      if output.stop == ContentFilter {
        if retryRefusals.Some? && attempts < retryRefusals.value {
          attempts := attempts + 1;
          continue;
        }
      }
      messages' := messages + [output.message];
      break;
    }
  }

  function ButLast(messages: seq<Message>): seq<Message> {
    if messages == [] then [] else messages[..|messages| - 1]
  }

  /** `_handle_overflow`: drop the last message and filter; handled only if the filter made the history shorter. */
  method HandleOverflow(messages: seq<Message>, overflow: Option<MessageFilter>, call: nat)
    returns (messages': seq<Message>, handled: bool)
    ensures overflow.None? ==> !handled && messages' == messages
    ensures overflow.Some? ==> messages' == overflow.value(call, ButLast(messages))
    ensures handled <==> overflow.Some? && |messages'| < |ButLast(messages)|
  {
    messages', handled := messages, false;
    if overflow.Some? {
      var previous := ButLast(messages);
      messages' := overflow.value(call, previous);
      if |messages'| < |previous| { handled := true; }
    }
  }

  /** The history before round k of a run of handled overflows: the filter saw what the round before generated. */
  ghost predicate OverflowRun(histories: seq<seq<Message>>, overflow: MessageFilter) {
    forall k :: 0 <= k < |histories| - 1 ==> OverflowRound(histories, overflow, k)
  }

  ghost predicate OverflowRound(histories: seq<seq<Message>>, overflow: MessageFilter, k: nat)
    requires k + 1 < |histories|
  {
    && histories[k + 1] == overflow(k, histories[k])
    && |histories[k + 1]| < |histories[k]|
  }

  /** However the filter behaves, a history of n messages sees at most n handled overflows in a row. */
  lemma {:induction false} OverflowsEnd(histories: seq<seq<Message>>, overflow: MessageFilter)
    requires histories != [] && OverflowRun(histories, overflow)
    ensures |histories| - 1 + |histories[|histories| - 1]| <= |histories[0]|
  {
    var n := |histories| - 1;
    if n > 0 {
      var p := histories[..n];
      forall k | 0 <= k < n - 1 ensures OverflowRound(p, overflow, k) {
        assert OverflowRound(histories, overflow, k);
      }
      OverflowsEnd(p, overflow);
      assert OverflowRound(histories, overflow, n - 1);
    }
  }

  /**
   The head of the main loop, up to an answer that is not a context overflow: generate, and on an overflow handle it and
   go on, or end. It ends for every model and every filter, after at most as many handled overflows as there were
   messages. `histories` records the history at the start of each round.
   */
  method UntilAnswer(model: Model, messages: seq<Message>, overflow: Option<MessageFilter>, retryRefusals: Option<int>)
    returns (messages': seq<Message>, output: Output, over: bool, ghost histories: seq<seq<Message>>)
    ensures 0 < |histories| <= |messages| + 1 && histories[0] == messages
    ensures overflow.None? ==> |histories| == 1
    ensures overflow.Some? ==> OverflowRun(histories, overflow.value)
    ensures over <==> output.stop == ModelLength
    ensures !over ==> messages' == histories[|histories| - 1] + [output.message]
    ensures over ==>
      var last := histories[|histories| - 1];
      if overflow.Some? then messages' == overflow.value(|histories| - 1, last) && |messages'| >= |last|
      else messages' == last + [output.message]
    ensures exists call :: output == model(call)
  {
    messages' := messages;
    histories := [messages];
    var calls, rounds := 0, 0;
    while true
      invariant |histories| == rounds + 1 && histories[0] == messages && histories[rounds] == messages'
      invariant rounds + |messages'| <= |messages|
      invariant overflow.None? ==> rounds == 0
      invariant overflow.Some? ==> OverflowRun(histories, overflow.value)
      decreases |messages'|
    {
      var generated, out, next := Generate(model, messages', retryRefusals, calls);
      output, calls := out, next;
      if output.stop != ModelLength {
        return generated, output, false, histories;
      }
      assert ButLast(generated) == messages';
      var kept, handled := HandleOverflow(generated, overflow, rounds);
      if !handled {
        return kept, output, true, histories;
      }
      ghost var longer := histories + [kept];
      forall k | 0 <= k < |longer| - 1 ensures OverflowRound(longer, overflow.value, k) {
        if k < rounds { assert OverflowRound(histories, overflow.value, k); }
      }
      messages', rounds, histories := kept, rounds + 1, longer;
    }
  }

  // ----- the whole loop -------------------------------------------------------------------------------------------------

  datatype ToolRun = ToolRun(results: seq<Message>, output: Option<Output>)

  /** What the continue hook decides. */
  datatype Reply = GoOn | Say(text: Message) | Become(messages: seq<Message>, output: Output) | Halt

  /** The outside world during one turn of the loop. */
  datatype Turn = Turn(model: Model, overflow: Option<MessageFilter>, tools: seq<Message> -> ToolRun,
                       correct: bool, incorrectMessage: Message, urge: Message, reply: Reply)

  datatype Ending = LimitReached | Overflowed | AttemptsUsed | Correct | Halted

  predicate CallsTools(output: Output) {
    output.message.Assistant? && output.message.calls.Some? && output.message.calls.value != []
  }

  /** A result of the submit tool that is not an error. */
  predicate Submitted(results: seq<Message>, submit: string) {
    exists m <- results :: m.ToolResult? && m.function_ == submit && !m.failed
  }

  /**
   What happened in one turn: the history when it began, the history that the answer was generated from, the answer, whether
   that was an overflow which could not be handled, what the tools gave if they were called, whether there was a submission,
   the history before the hook or the loop spoke, and the history when the turn ended.
   */
  datatype TurnRecord = TurnRecord(before: seq<Message>, head: seq<Message>, answer: Output, over: bool,
                                   run: Option<ToolRun>, submitted: bool, said: seq<Message>, after: seq<Message>)

  /** The history from which the answer was generated comes from the one before by handled overflows alone. */
  ghost predicate ReachedBy(turn: Turn, before: seq<Message>, head: seq<Message>) {
    exists histories: seq<seq<Message>> ::
      && histories != [] && histories[0] == before && histories[|histories| - 1] == head
      && (turn.overflow.None? ==> |histories| == 1)
      && (turn.overflow.Some? ==> OverflowRun(histories, turn.overflow.value))
  }

  /** The turn went as this record says, and ended the loop in this way, or not at all. */
  ghost predicate Follows(turn: Turn, t: TurnRecord, ending: Option<Ending>, submissions: nat, submissions': nat,
                          submit: string, attempts: int, hooked: bool)
  {
    && ReachedBy(turn, t.before, t.head)
    && (exists call :: t.answer == turn.model(call))
    && (t.over <==> t.answer.stop == ModelLength)
    && (t.over && turn.overflow.None? ==> t.after == t.head + [t.answer.message])
    && (t.over && turn.overflow.Some? ==> exists call :: t.after == turn.overflow.value(call, t.head) && |t.after| >= |t.head|)
    && Acted(turn, t, submit)
    && submissions' == submissions + (if t.submitted then 1 else 0)
    && Stopped(turn, t, ending, submissions', attempts, hooked)
    && (!t.over ==> Said(turn, t, ending) && Ended(turn, t, ending, hooked))
  }

  /** The tools were called if the answer asked for it, on the history with the answer, and submitted or not. */
  ghost predicate Acted(turn: Turn, t: TurnRecord, submit: string) {
    && (t.run.Some? <==>
        !t.over && t.answer.message.Assistant? && t.answer.message.calls.Some? && t.answer.message.calls.value != [])
    && (t.run.Some? ==> t.run.value == turn.tools(t.head + [t.answer.message]))
    && (t.submitted <==>
        t.run.Some? && exists r <- t.run.value.results :: r.ToolResult? && r.function_ == submit && !r.failed)
  }

  /** Why the loop ended, if it did. */
  predicate Stopped(turn: Turn, t: TurnRecord, ending: Option<Ending>, submissions: nat, attempts: int, hooked: bool) {
    && (ending == Some(Overflowed) <==> t.over)
    && (ending == Some(AttemptsUsed) <==> t.submitted && submissions >= attempts)
    && (ending == Some(Correct) <==> t.submitted && submissions < attempts && turn.correct)
    && (ending == Some(Halted) <==>
        !t.over && hooked && turn.reply.Halt? && !(t.submitted && (submissions >= attempts || turn.correct)))
    && ending != Some(LimitReached)
  }

  /** The answer, then exactly the tool results, then the message for a submission that did not end the loop. */
  predicate Said(turn: Turn, t: TurnRecord, ending: Option<Ending>) {
    t.said == t.head + [t.answer.message]
              + (match t.run case Some(run) => run.results case None => [])
              + (if t.submitted && ending != Some(AttemptsUsed) && ending != Some(Correct) then [turn.incorrectMessage] else [])
  }

  /** Then what the hook says, or the urge to call tools. */
  predicate Ended(turn: Turn, t: TurnRecord, ending: Option<Ending>, hooked: bool) {
    && (ending.Some? ==> t.after == t.said)
    && (ending.None? && hooked && turn.reply.Become? ==> t.after == turn.reply.messages)
    && (ending.None? && hooked && turn.reply.Say? ==> t.after == t.said + [turn.reply.text])
    && (ending.None? && (hooked ==> turn.reply.GoOn?) ==>
        var last := if t.run.Some? && t.run.value.output.Some? then t.run.value.output.value.message else t.answer.message;
        t.after == if last.Assistant? && last.calls.Some? && last.calls.value != [] then t.said else t.said + [turn.urge])
  }

  /** The turns among the first n that submitted. */
  function SubmittedTurns(trace: seq<TurnRecord>, n: nat): set<nat>
    requires n <= |trace|
  {
    set k: nat | k < n && trace[k].submitted
  }

  /** The history goes through the turns one after the other; only the last one ends the loop, in this way or not at all. */
  ghost predicate Traced(turns: nat -> Turn, start: seq<Message>, trace: seq<TurnRecord>, ending: Option<Ending>,
                         submit: string, attempts: int, hooked: bool)
  {
    && (trace != [] ==> trace[0].before == start)
    && (forall k :: 0 < k < |trace| ==> trace[k].before == trace[k - 1].after)
    && (forall k :: 0 <= k < |trace| ==>
          TurnAt(turns, trace, k, ending, submit, attempts, hooked))
    && (trace == [] ==> ending.None?)
  }

  /** The k-th turn went as recorded, with the submissions up to it; the last one ended as given. */
  ghost predicate TurnAt(turns: nat -> Turn, trace: seq<TurnRecord>, k: nat, ending: Option<Ending>,
                         submit: string, attempts: int, hooked: bool)
    requires k < |trace|
  {
    Follows(turns(k), trace[k], if k == |trace| - 1 then ending else None,
            |SubmittedTurns(trace, k)|, |SubmittedTurns(trace, k + 1)|, submit, attempts, hooked)
  }

  function LastHistory(start: seq<Message>, trace: seq<TurnRecord>): seq<Message> {
    if trace == [] then start else trace[|trace| - 1].after
  }

  lemma SubmittedStep(trace: seq<TurnRecord>, t: TurnRecord)
    ensures forall n :: 0 <= n <= |trace| ==> SubmittedTurns(trace + [t], n) == SubmittedTurns(trace, n)
    ensures |SubmittedTurns(trace + [t], |trace| + 1)| == |SubmittedTurns(trace, |trace|)| + if t.submitted then 1 else 0
  {
    var n, trace' := |trace|, trace + [t];
    forall m | 0 <= m <= n ensures SubmittedTurns(trace', m) == SubmittedTurns(trace, m) {
      assert forall k :: 0 <= k < m ==> trace'[k] == trace[k];
    }
    assert trace'[n] == t;
    assert SubmittedTurns(trace', n + 1) == SubmittedTurns(trace, n) + if t.submitted then {n} else {};
  }

  lemma TraceGrows(turns: nat -> Turn, start: seq<Message>, trace: seq<TurnRecord>, t: TurnRecord, ending: Option<Ending>,
                   submit: string, attempts: int, hooked: bool)
    requires Traced(turns, start, trace, None, submit, attempts, hooked) && t.before == LastHistory(start, trace)
    requires var n := |SubmittedTurns(trace, |trace|)|;
             Follows(turns(|trace|), t, ending, n, n + if t.submitted then 1 else 0, submit, attempts, hooked)
    ensures Traced(turns, start, trace + [t], ending, submit, attempts, hooked)
  {
    var trace' := trace + [t];
    NewTurn(turns, trace, t, ending, submit, attempts, hooked);
    forall k | 0 <= k < |trace| ensures TurnAt(turns, trace', k, ending, submit, attempts, hooked) {
      OldTurn(turns, trace, t, k, ending, submit, attempts, hooked);
    }
    ChainGrows(trace, t, start);
  }

  lemma ChainGrows(trace: seq<TurnRecord>, t: TurnRecord, start: seq<Message>)
    requires trace != [] ==> trace[0].before == start
    requires (forall k :: 0 < k < |trace| ==> trace[k].before == trace[k - 1].after) && t.before == LastHistory(start, trace)
    ensures (trace + [t])[0].before == start
    ensures forall k :: 0 < k < |trace + [t]| ==> (trace + [t])[k].before == (trace + [t])[k - 1].after
  {
  }

  lemma NewTurn(turns: nat -> Turn, trace: seq<TurnRecord>, t: TurnRecord, ending: Option<Ending>, submit: string,
                attempts: int, hooked: bool)
    requires var n := |SubmittedTurns(trace, |trace|)|;
             Follows(turns(|trace|), t, ending, n, n + if t.submitted then 1 else 0, submit, attempts, hooked)
    ensures TurnAt(turns, trace + [t], |trace|, ending, submit, attempts, hooked)
  {
    SubmittedStep(trace, t);
    assert (trace + [t])[|trace|] == t;
  }

  lemma OldTurn(turns: nat -> Turn, trace: seq<TurnRecord>, t: TurnRecord, k: nat, ending: Option<Ending>, submit: string,
                attempts: int, hooked: bool)
    requires k < |trace| && TurnAt(turns, trace, k, None, submit, attempts, hooked)
    ensures TurnAt(turns, trace + [t], k, ending, submit, attempts, hooked)
  {
    SubmittedStep(trace, t);
    assert (trace + [t])[k] == trace[k];
  }

  /** A turn without an overflow filter, whose hook does not put another history in place, only adds to the history. */
  predicate OnlyAdds(turn: Turn, hooked: bool) {
    turn.overflow.None? && !(hooked && turn.reply.Become?)
  }

  lemma TurnAdds(turns: nat -> Turn, trace: seq<TurnRecord>, k: nat, ending: Option<Ending>, submit: string, attempts: int,
                 hooked: bool)
    requires k < |trace| && TurnAt(turns, trace, k, ending, submit, attempts, hooked) && OnlyAdds(turns(k), hooked)
    ensures trace[k].before + [trace[k].answer.message] <= trace[k].after
    ensures trace[k].run.Some? ==> trace[k].before + [trace[k].answer.message] + trace[k].run.value.results <= trace[k].after
  {
  }

  /** In such turns nothing that was ever said is lost: the answer of turn k and all its tool results stand in the last history
      where they were added, and so does everything before them. */
  lemma {:induction false} NothingIsLost(turns: nat -> Turn, start: seq<Message>, trace: seq<TurnRecord>,
                                         ending: Option<Ending>, submit: string, attempts: int, hooked: bool, k: nat, n: nat)
    requires Traced(turns, start, trace, ending, submit, attempts, hooked) && k <= n < |trace|
    requires forall i :: 0 <= i < |trace| ==> OnlyAdds(turns(i), hooked)
    ensures trace[k].before + [trace[k].answer.message] <= trace[n].after
    ensures trace[k].run.Some? ==>
              && trace[k].run.value == turns(k).tools(trace[k].before + [trace[k].answer.message])
              && trace[k].before + [trace[k].answer.message] + trace[k].run.value.results <= trace[n].after
    decreases n
  {
    assert TurnAt(turns, trace, n, ending, submit, attempts, hooked);
    TurnAdds(turns, trace, n, ending, submit, attempts, hooked);
    if k < n { NothingIsLost(turns, start, trace, ending, submit, attempts, hooked, k, n - 1); }
  }

  /** The head of a turn: an answer, from a history that handled overflows have led to. */
  method Answer(turn: Turn, before: seq<Message>, retryRefusals: Option<int>)
    returns (answered: seq<Message>, answer: Output, over: bool, ghost head: seq<Message>)
    ensures ReachedBy(turn, before, head) && exists call :: answer == turn.model(call)
    ensures over <==> answer.stop == ModelLength
    ensures !over || turn.overflow.None? ==> answered == head + [answer.message]
    ensures over && turn.overflow.Some? ==> exists call :: answered == turn.overflow.value(call, head) && |answered| >= |head|
    ensures KeepsPairing(turn) && Paired(Acts(before)) ==> Paired(Acts(answered))
  {
    ghost var histories;
    answered, answer, over, histories := UntilAnswer(turn.model, before, turn.overflow, retryRefusals);
    head := histories[|histories| - 1];
    assert ReachedBy(turn, before, head);
    if KeepsPairing(turn) && Paired(Acts(before)) { AnswerPaired(turn, histories, answered, answer, over); }
  }

  /** The tool calls of an answer. */
  method UseTools(turn: Turn, messages: seq<Message>, answer: Output, submit: string)
    returns (messages': seq<Message>, output: Output, run: Option<ToolRun>, submitted: bool)
    ensures run.Some? <==> answer.message.Assistant? && answer.message.calls.Some? && answer.message.calls.value != []
    ensures run.Some? ==> run.value == turn.tools(messages)
    ensures messages' == messages + match run case Some(r) => r.results case None => []
    ensures output == if run.Some? && run.value.output.Some? then run.value.output.value else answer
    ensures submitted <==>
              run.Some? && exists r <- run.value.results :: r.ToolResult? && r.function_ == submit && !r.failed
    ensures KeepsPairing(turn) && messages != [] && Paired(Acts(messages)) ==> Paired(Acts(messages'))
  {
    messages', output, run, submitted := messages, answer, None, false;
    if CallsTools(answer) {
      var r := turn.tools(messages);
      if KeepsPairing(turn) && messages != [] && Paired(Acts(messages)) { ResultsPaired(messages, r.results); }
      messages' := messages + r.results;
      if r.output.Some? { output := r.output.value; }
      run, submitted := Some(r), Submitted(r.results, submit);
    }
  }

  /** The end of a turn that no submission has ended: the hook, or else the urge to call tools. */
  method GoOnWith(turn: Turn, messages: seq<Message>, output: Output, hooked: bool)
    returns (after: seq<Message>, halted: bool)
    ensures halted <==> hooked && turn.reply.Halt?
    ensures halted ==> after == messages
    ensures hooked && turn.reply.Become? ==> after == turn.reply.messages
    ensures hooked && turn.reply.Say? ==> after == messages + [turn.reply.text]
    ensures (hooked ==> turn.reply.GoOn?) ==>
      after == if output.message.Assistant? && output.message.calls.Some? && output.message.calls.value != [] then messages
               else messages + [turn.urge]
    ensures KeepsPairing(turn) && Paired(Acts(messages)) ==> Paired(Acts(after))
  {
    after, halted := messages, false;
    ghost var sound := KeepsPairing(turn) && Paired(Acts(messages));
    if hooked {
      match turn.reply
      case GoOn =>
        if !CallsTools(output) {
          if sound { QuietPaired(messages, turn.urge); }
          after := messages + [turn.urge];
        }
      case Say(text) =>
        if sound { QuietPaired(messages, text); }
        after := messages + [text];
      case Become(other, _) => after := other;
      case Halt => halted := true;
    } else if !CallsTools(output) {
      if sound { QuietPaired(messages, turn.urge); }
      after := messages + [turn.urge];
    }
  }

  /**
   One round of the main loop, up to an answer that is not an overflow and what follows it. The history grows by the answer,
   then by exactly the tool results, then by the message for a wrong submission, then by what the hook or the loop says.
   */
  method OneTurn(turn: Turn, before: seq<Message>, submit: string, attempts: int, retryRefusals: Option<int>, hooked: bool,
                 submissions: nat)
    returns (after: seq<Message>, ending: Option<Ending>, submissions': nat, ghost t: TurnRecord)
    // the answer
    ensures t.before == before && t.after == after && ReachedBy(turn, before, t.head)
    ensures exists call :: t.answer == turn.model(call)
    ensures t.over <==> t.answer.stop == ModelLength
    ensures t.over && turn.overflow.None? ==> after == t.head + [t.answer.message]
    ensures t.over && turn.overflow.Some? ==>
              exists call :: after == turn.overflow.value(call, t.head) && |after| >= |t.head|
    // the tools
    ensures t.run.Some? <==>
              !t.over && t.answer.message.Assistant? && t.answer.message.calls.Some? && t.answer.message.calls.value != []
    ensures t.run.Some? ==> t.run.value == turn.tools(t.head + [t.answer.message])
    ensures t.submitted <==>
              t.run.Some? && exists r <- t.run.value.results :: r.ToolResult? && r.function_ == submit && !r.failed
    ensures submissions' == submissions + if t.submitted then 1 else 0
    // how it ends
    ensures ending == Some(Overflowed) <==> t.over
    ensures ending == Some(AttemptsUsed) <==> t.submitted && submissions' >= attempts
    ensures ending == Some(Correct) <==> t.submitted && submissions' < attempts && turn.correct
    ensures ending == Some(Halted) <==>
              !t.over && hooked && turn.reply.Halt? && !(t.submitted && (submissions' >= attempts || turn.correct))
    ensures ending != Some(LimitReached)
    // what is added to the history
    ensures !t.over ==> t.said == t.head + [t.answer.message]
                                  + (match t.run case Some(run) => run.results case None => [])
                                  + (if t.submitted && ending != Some(AttemptsUsed) && ending != Some(Correct)
                                     then [turn.incorrectMessage] else [])
    ensures ending == Some(AttemptsUsed) || ending == Some(Correct) || ending == Some(Halted) ==> after == t.said
    ensures ending.None? && hooked && turn.reply.Become? ==> after == turn.reply.messages
    ensures ending.None? && hooked && turn.reply.Say? ==> after == t.said + [turn.reply.text]
    ensures ending.None? && (hooked ==> turn.reply.GoOn?) ==>
      var last := if t.run.Some? && t.run.value.output.Some? then t.run.value.output.value.message else t.answer.message;
      after == if last.Assistant? && last.calls.Some? && last.calls.value != [] then t.said else t.said + [turn.urge]
    ensures Follows(turn, t, ending, submissions, submissions', submit, attempts, hooked)
    ensures KeepsPairing(turn) && Paired(Acts(before)) ==> Paired(Acts(after))
  {
    ghost var sound := KeepsPairing(turn) && Paired(Acts(before));
    var answered, answer, over;
    ghost var head;
    answered, answer, over, head := Answer(turn, before, retryRefusals);
    if over {
      return answered, Some(Overflowed), submissions, TurnRecord(before, head, answer, true, None, false, answered, answered);
    }
    var messages, output, run, submitted := UseTools(turn, answered, answer, submit);
    submissions' := submissions;
    if submitted {
      submissions' := submissions + 1;
      if submissions' >= attempts || turn.correct {
        ending := Some(if submissions' >= attempts then AttemptsUsed else Correct);
        return messages, ending, submissions', TurnRecord(before, head, answer, false, run, true, messages, messages);
      }
      if sound { QuietPaired(messages, turn.incorrectMessage); }
      messages := messages + [turn.incorrectMessage];
    }
    var halted;
    after, halted := GoOnWith(turn, messages, output, hooked);
    ending := if halted then Some(Halted) else None;
    t := TurnRecord(before, head, answer, false, run, submitted, messages, after);
  }

  /** One turn, recorded. */
  method NextTurn(turns: nat -> Turn, n: nat, ghost start: seq<Message>, ghost trace: seq<TurnRecord>, before: seq<Message>,
                  submit: string, attempts: int, retryRefusals: Option<int>, hooked: bool, submissions: nat)
    returns (after: seq<Message>, ending: Option<Ending>, submissions': nat, ghost trace': seq<TurnRecord>)
    requires |trace| == n && Traced(turns, start, trace, None, submit, attempts, hooked)
    requires before == LastHistory(start, trace) && submissions == |SubmittedTurns(trace, n)|
    requires submissions == 0 || submissions < attempts
    ensures |trace'| == n + 1 && Traced(turns, start, trace', ending, submit, attempts, hooked)
    ensures after == LastHistory(start, trace') && submissions' == |SubmittedTurns(trace', n + 1)|
    ensures submissions' <= submissions + 1 && (ending.None? ==> submissions' == 0 || submissions' < attempts)
    ensures ending != Some(LimitReached) && (ending == Some(Halted) ==> hooked)
    ensures KeepsPairing(turns(n)) && Paired(Acts(before)) ==> Paired(Acts(after))
  {
    ghost var t;
    after, ending, submissions', t := OneTurn(turns(n), before, submit, attempts, retryRefusals, hooked, submissions);
    TraceGrows(turns, start, trace, t, ending, submit, attempts, hooked);
    SubmittedStep(trace, t);
    trace' := trace + [t];
  }

  lemma WhyItEnded(turns: nat -> Turn, start: seq<Message>, trace: seq<TurnRecord>, ending: Option<Ending>,
                   submit: string, attempts: int, hooked: bool)
    requires Traced(turns, start, trace, ending, submit, attempts, hooked)
    ensures ending == Some(Correct) <==> trace != [] && trace[|trace| - 1].submitted && turns(|trace| - 1).correct
                                         && |SubmittedTurns(trace, |trace|)| < attempts
    ensures ending == Some(AttemptsUsed) <==>
              trace != [] && trace[|trace| - 1].submitted && |SubmittedTurns(trace, |trace|)| >= attempts
    ensures ending == Some(Overflowed) <==> trace != [] && trace[|trace| - 1].over
  {
    if trace != [] {
      var k := |trace| - 1;
      assert TurnAt(turns, trace, k, ending, submit, attempts, hooked);
    }
  }

  /**
   The `execute` loop of the agent. A message or token limit, which raises an exception out of the loop, is the number
   of turns after which it strikes. The submit tool is removed from the history unless it is kept or a limit struck.
   `trace` records the turns.
   */
  method Execute(turns: nat -> Turn, start: seq<Message>, submit: string, attempts: int, retryRefusals: Option<int>,
                 hooked: bool, keep: bool, limit: nat)
    returns (messages: seq<Message>, ending: Ending, submissions: nat, ghost trace: seq<TurnRecord>)
    ensures Traced(turns, start, trace, if ending == LimitReached then None else Some(ending), submit, attempts, hooked)
    ensures |trace| <= limit && (ending == LimitReached ==> |trace| == limit)
    ensures submissions == |SubmittedTurns(trace, |trace|)|
    ensures messages == if keep || ending == LimitReached then LastHistory(start, trace)
                        else RemoveSubmit(LastHistory(start, trace), submit)
    ensures ending == Correct <==>
              trace != [] && trace[|trace| - 1].submitted && turns(|trace| - 1).correct && submissions < attempts
    ensures ending == AttemptsUsed <==> trace != [] && trace[|trace| - 1].submitted && submissions >= attempts
    ensures ending == Overflowed <==> trace != [] && trace[|trace| - 1].over
    ensures submissions <= if attempts > 1 then attempts else 1
    ensures ending == LimitReached ==> submissions == 0 || submissions < attempts
    ensures ending == Halted ==> hooked
    ensures ending != LimitReached && !keep ==> forall a <- Acts(messages) :: a.Tool() != submit
    ensures Paired(Acts(start)) && (forall k :: KeepsPairing(turns(k))) ==> Paired(Acts(messages))
  {
    messages, submissions, ending, trace := start, 0, LimitReached, [];
    var n := 0;
    ghost var sound := Paired(Acts(start)) && forall k :: KeepsPairing(turns(k));
    while n < limit
      invariant n <= limit && ending == LimitReached && |trace| == n
      invariant Traced(turns, start, trace, None, submit, attempts, hooked)
      invariant messages == LastHistory(start, trace) && submissions == |SubmittedTurns(trace, n)|
      invariant submissions == 0 || submissions < attempts
      invariant sound ==> Paired(Acts(messages))
    {
      var stop;
      messages, stop, submissions, trace :=
        NextTurn(turns, n, start, trace, messages, submit, attempts, retryRefusals, hooked, submissions);
      if stop.Some? { ending := stop.value; break; }
      n := n + 1;
    }
    WhyItEnded(turns, start, trace, if ending == LimitReached then None else Some(ending), submit, attempts, hooked);
    if ending != LimitReached && !keep {
      messages := Finish(messages, submit);
    }
  }

  /** The removal of the submit tool at the end. */
  method Finish(messages: seq<Message>, submit: string) returns (filtered: seq<Message>)
    ensures filtered == RemoveSubmit(messages, submit)
    ensures forall a <- Acts(filtered) :: a.Tool() != submit
    ensures Paired(Acts(messages)) ==> Paired(Acts(filtered))
  {
    filtered := RemoveSubmitTool(messages, submit);
    ActsKept(messages, submit);
    OtherMembers(Acts(messages), submit);
    if Paired(Acts(messages)) { PairedOther(Acts(messages), submit); }
  }

  /** What is asked of the world so that results stay paired: none of it concerns the loop's own steps. */
  ghost predicate KeepsPairing(turn: Turn) {
    && (forall k :: turn.model(k).message.Assistant?)
    && (turn.overflow.Some? ==> FilterPairs(turn.overflow.value))
    && (forall ms: seq<Message> :: ResultsAnswer(ms, turn.tools(ms).results))
    && Quiet(turn.incorrectMessage) && Quiet(turn.urge)
    && (turn.reply.Say? ==> Quiet(turn.reply.text))
    && (turn.reply.Become? ==> Paired(Acts(turn.reply.messages)))
  }

  ghost predicate FilterPairs(overflow: MessageFilter) {
    forall k, ms :: Paired(Acts(ms)) ==> Paired(Acts(overflow(k, ms)))
  }

  /** Every tool result answers a call of the last message. */
  predicate ResultsAnswer(messages: seq<Message>, results: seq<Message>) {
    messages != [] ==>
      forall r <- results ::
        Quiet(r) || (r.ToolResult? && Called(Call(r.callId, r.function_)) in ActsOf(messages[|messages| - 1]))
  }

  predicate Quiet(m: Message) {
    ActsOf(m) == []
  }

  lemma {:induction false} ActsConcat(a: seq<Message>, b: seq<Message>)
    ensures Acts(a + b) == Acts(a) + Acts(b)
    decreases |b|
  {
    if b == [] {
      ActsConcatNone(a);
    } else {
      var c, m := b[..|b| - 1], b[|b| - 1];
      ActsConcat(a, c);
      ActsConcatStep(a, c, m);
      assert c + [m] == b;
    }
  }

  lemma ActsConcatNone(a: seq<Message>)
    ensures Acts(a + []) == Acts(a) + Acts([])
  {
    assert a + [] == a;
    assert Acts(a) + [] == Acts(a);
  }

  lemma AppendLater(a: seq<Message>, b: seq<Message>, m: Message)
    ensures a + (b + [m]) == (a + b) + [m]
  {
  }

  lemma ActsConcatStep(a: seq<Message>, b: seq<Message>, m: Message)
    requires Acts(a + b) == Acts(a) + Acts(b)
    ensures Acts(a + (b + [m])) == Acts(a) + Acts(b + [m])
  {
    AppendLater(a, b, m);
    ActsAppend(a + b, m);
    ActsAppend(b, m);
    Regroup(Acts(a), Acts(b), ActsOf(m));
  }

  lemma Regroup(a: seq<Act>, b: seq<Act>, c: seq<Act>)
    ensures a + b + c == a + (b + c)
  {
  }

  lemma QuietPaired(messages: seq<Message>, m: Message)
    requires Paired(Acts(messages)) && Quiet(m)
    ensures Paired(Acts(messages + [m]))
  {
    ActsAppend(messages, m);
    AddPaired(Acts(messages), []);
  }

  /** Calls and answers to earlier calls may be added to a paired history. */
  lemma AddPaired(acts: seq<Act>, more: seq<Act>)
    requires Paired(acts)
    requires forall a <- more :: a.Answered? ==> Called(Call(a.callId, a.tool)) in acts
    ensures Paired(acts + more)
  {
    var all := acts + more;
    forall i | 0 <= i < |all| && all[i].Answered? ensures AnsweredBefore(all, i) {
      if i < |acts| {
        assert AnsweredBefore(acts, i) && all[..i] == acts[..i];
      } else {
        assert more[i - |acts|] in more;
        assert all[..i] == acts + more[..i - |acts|];
      }
    }
  }

  lemma {:induction false} ResultsPaired(messages: seq<Message>, results: seq<Message>)
    requires messages != [] && Paired(Acts(messages)) && ResultsAnswer(messages, results)
    ensures Paired(Acts(messages + results))
  {
    ActsConcat(messages, results);
    var n := |messages| - 1;
    forall a <- Acts(results) ensures a.Answered? ==> Called(Call(a.callId, a.tool)) in Acts(messages) {
      ActFrom(results, a);
      var r :| r in results && a in ActsOf(r);
      assert Quiet(r) || Called(Call(r.callId, r.function_)) in ActsOf(messages[n]);
    }
    AddPaired(Acts(messages), Acts(results));
  }

  lemma {:induction false} ActFrom(messages: seq<Message>, a: Act)
    requires a in Acts(messages)
    ensures exists m :: m in messages && a in ActsOf(m)
  {
    var n := |messages| - 1;
    if a in ActsOf(messages[n]) {
      assert messages[n] in messages;
    } else {
      ActFrom(messages[..n], a);
      var m :| m in messages[..n] && a in ActsOf(m);
      assert m in messages;
    }
  }

  lemma {:induction false} HistoriesPaired(histories: seq<seq<Message>>, overflow: MessageFilter, k: nat)
    requires k < |histories| && OverflowRun(histories, overflow)
    requires FilterPairs(overflow) && Paired(Acts(histories[0]))
    ensures Paired(Acts(histories[k]))
  {
    if k > 0 {
      HistoriesPaired(histories, overflow, k - 1);
      assert OverflowRound(histories, overflow, k - 1);
    }
  }

  lemma CallPaired(messages: seq<Message>, m: Message)
    requires Paired(Acts(messages)) && m.Assistant?
    ensures Paired(Acts(messages + [m]))
  {
    ActsAppend(messages, m);
    forall a <- ActsOf(m) ensures a.Called? {}
    AddPaired(Acts(messages), ActsOf(m));
  }

  /** The history after the head of a turn is paired, however many overflows it handled. */
  lemma AnswerPaired(turn: Turn, histories: seq<seq<Message>>, messages: seq<Message>, output: Output, over: bool)
    requires KeepsPairing(turn) && histories != [] && Paired(Acts(histories[0]))
    requires turn.overflow.None? ==> |histories| == 1
    requires turn.overflow.Some? ==> OverflowRun(histories, turn.overflow.value)
    requires exists call :: output == turn.model(call)
    requires var last := histories[|histories| - 1];
             messages == if over && turn.overflow.Some? then turn.overflow.value(|histories| - 1, last)
                         else last + [output.message]
    ensures Paired(Acts(messages))
  {
    var n := |histories| - 1;
    if turn.overflow.Some? { HistoriesPaired(histories, turn.overflow.value, n); }
    if !over || turn.overflow.None? {
      assert output.message.Assistant?;
      CallPaired(histories[n], output.message);
    }
  }
}
