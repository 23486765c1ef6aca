/**
 The agentic loop: ask the model, resolve the tool calls it makes, append both to the
 conversation and ask again, until it makes none or the rounds run out.
 */
module AgenticLooping {
  import opened Wrappers
  import opened Sequences

  datatype ToolCall = ToolCall(id: string, name: string, arguments: string)

  datatype ChatMessage =
    ChatMessage(role: string, content: string, toolCalls: seq<ToolCall>, toolCallId: Option<string>)

  datatype Completion = Completion(choices: seq<ChatMessage>)

  // Token counts of one round, where reported.
  datatype Usage = Usage(prompt: Option<int>, completion: Option<int>)

  const NO_USAGE := Usage(None, None)

  // --------------------------------------------------------------- resolving calls

  // resolve_tool_calls: whatever the tool does, each call gets one message with its id.
  function ToolMessage(call: ToolCall, resolve: ToolCall -> string): ChatMessage {
    ChatMessage("tool", resolve(call), [], Some(call.id))
  }

  function ToolMessages(calls: seq<ToolCall>, resolve: ToolCall -> string): (r: seq<ChatMessage>)
    ensures |r| == |calls| && forall i | 0 <= i < |calls| :: r[i] == ToolMessage(calls[i], resolve)
  {
    if calls == [] then [] else ToolMessages(calls[..|calls| - 1], resolve) + [ToolMessage(calls[|calls| - 1], resolve)]
  }

  // A tool message that answers the call with this content.
  predicate AnswersWith(m: ChatMessage, call: ToolCall, content: string) {
    m.role == "tool" && m.content == content && m.toolCallId == Some(call.id) && m.toolCalls == []
  }

  method ResolveToolCalls(calls: seq<ToolCall>, resolve: ToolCall -> string) returns (out: seq<ChatMessage>)
    ensures |out| == |calls| && forall i | 0 <= i < |calls| :: AnswersWith(out[i], calls[i], resolve(calls[i]))
    ensures out == ToolMessages(calls, resolve)
  {
    out := [];
    for i := 0 to |calls|
      invariant out == ToolMessages(calls[..i], resolve)
    {
      assert calls[..i + 1][..i] == calls[..i];
      out := out + [ToolMessage(calls[i], resolve)];
    }
    assert calls[..|calls|] == calls;
  }

  function CallsOf(choices: seq<ChatMessage>): seq<ToolCall> {
    if choices == [] then [] else choices[0].toolCalls + CallsOf(choices[1..])
  }

  // What one round adds to the conversation: the first choice and the answers to all calls.
  function Exchange(c: Completion, resolve: ToolCall -> string): seq<ChatMessage> {
    (if c.choices == [] then [] else [c.choices[0]]) + ToolMessages(CallsOf(c.choices), resolve)
  }

  // ------------------------------------------------------------------------- usage

  function Add(a: Option<int>, b: Option<int>): Option<int> {
    if a.Some? && b.Some? then Some(a.value + b.value) else if b.None? then a else b
  }

  function Accumulate(acc: Usage, u: Usage): Usage {
    Usage(Add(acc.prompt, u.prompt), Add(acc.completion, u.completion))
  }

  function Reported(x: Option<int>): int {
    if x.Some? then x.value else 0
  }

  // -------------------------------------------------------------------------- runs

  datatype Round = Round(sent: seq<ChatMessage>, completion: Completion, usage: Usage)

  // The provider, by round and conversation (an error may be a timeout), the check of the
  // first choice against a response format, and the tools.
  datatype World<!E> = World(ask: (nat, seq<ChatMessage>) -> Result<(Completion, Usage), E>,
                            valid: Completion -> bool,
                            resolve: ToolCall -> string)

  datatype LoopError<E> = Failed(error: E) | InvalidResponse | Exceeded

  function Total(rounds: seq<Round>): Usage {
    if rounds == [] then NO_USAGE else Accumulate(Total(rounds[..|rounds| - 1]), rounds[|rounds| - 1].usage)
  }

  // The conversation after a number of rounds.
  function Conversation(initial: seq<ChatMessage>, rounds: seq<Round>, resolve: ToolCall -> string): seq<ChatMessage> {
    if rounds == [] then initial
    else Conversation(initial, rounds[..|rounds| - 1], resolve) + Exchange(rounds[|rounds| - 1].completion, resolve)
  }

  // Each round asks with the conversation so far and keeps what it gets.
  ghost predicate Faithful<E>(w: World<E>, initial: seq<ChatMessage>, rounds: seq<Round>) {
    forall i | 0 <= i < |rounds| :: IsRound(w, initial, rounds, i)
  }

  ghost predicate IsRound<E>(w: World<E>, initial: seq<ChatMessage>, rounds: seq<Round>, i: nat)
    requires i < |rounds|
  {
    && rounds[i].sent == Conversation(initial, rounds[..i], w.resolve)
    && w.ask(i, rounds[i].sent) == Ok((rounds[i].completion, rounds[i].usage))
  }

  ghost predicate CallsTools(r: Round) {
    CallsOf(r.completion.choices) != []
  }

  // Rounds after which the loop goes on: valid ones that called tools.
  ghost predicate AllContinue<E>(w: World<E>, rounds: seq<Round>) {
    forall i | 0 <= i < |rounds| :: CallsTools(rounds[i]) && w.valid(rounds[i].completion)
  }

  /** The whole run: at most maxIterations rounds, each continuing the conversation; success
      only with a valid completion that calls no tool, after rounds that all did, and with the
      usage of all rounds; the exit for resolving to no messages is never taken. */
  method Execute<E>(w: World<E>, maxIterations: nat, initial: seq<ChatMessage>)
    returns (r: Result<(Completion, Usage), LoopError<E>>, rounds: seq<Round>)
    ensures |rounds| <= maxIterations && Faithful(w, initial, rounds)
    ensures AllContinue(w, rounds[..if rounds == [] then 0 else |rounds| - 1])
    ensures match r
            case Ok((completion, usage)) =>
              && rounds != [] && completion == rounds[|rounds| - 1].completion && usage == Total(rounds)
              && w.valid(completion) && !CallsTools(rounds[|rounds| - 1])
            case Err(Exceeded) => |rounds| == maxIterations && AllContinue(w, rounds)
            case Err(InvalidResponse) => rounds != [] && !w.valid(rounds[|rounds| - 1].completion)
            case Err(Failed(e)) =>
              && |rounds| < maxIterations && AllContinue(w, rounds)
              && w.ask(|rounds|, Conversation(initial, rounds, w.resolve)) == Err(e)
  {
    rounds := [];
    var messages, totalUsage := initial, NO_USAGE;
    for iteration := 0 to maxIterations
      invariant |rounds| == iteration && Faithful(w, initial, rounds)
      invariant messages == Conversation(initial, rounds, w.resolve) && totalUsage == Total(rounds)
      invariant AllContinue(w, rounds)
    {
      var asked := w.ask(iteration, messages);
      if asked.Err? {
        AllContinuePrefix(w, rounds);
        return Err(Failed(asked.error)), rounds;
      }
      var (completion, usage) := asked.value;
      totalUsage := Accumulate(totalUsage, usage);
      FaithfulAppend(w, initial, rounds, Round(messages, completion, usage));
      rounds := rounds + [Round(messages, completion, usage)];
      if !w.valid(completion) {
        return Err(InvalidResponse), rounds;
      }
      var toolCalls := CallsOf(completion.choices);
      if toolCalls == [] {
        return Ok((completion, totalUsage)), rounds;
      }
      ExchangeParts(messages, completion, w.resolve);
      if completion.choices != [] {
        messages := messages + [completion.choices[0]];
      }
      var results := ResolveToolCalls(toolCalls, w.resolve);
      if results == [] {
        // The early return of the program at this point.
        assert false;
      }
      messages := messages + results;
    }
    AllContinuePrefix(w, rounds);
    r := Err(Exceeded);
  }

  lemma AllContinuePrefix<E>(w: World<E>, rounds: seq<Round>)
    requires AllContinue(w, rounds)
    ensures AllContinue(w, rounds[..if rounds == [] then 0 else |rounds| - 1])
  {
  }

  lemma {:induction false} ExchangeParts(messages: seq<ChatMessage>, c: Completion, resolve: ToolCall -> string)
    ensures messages + Exchange(c, resolve)
            == (if c.choices == [] then messages else messages + [c.choices[0]])
               + ToolMessages(CallsOf(c.choices), resolve)
  {
    var answers := ToolMessages(CallsOf(c.choices), resolve);
    if c.choices == [] {
      Concat0(answers);
    } else {
      Concat3(messages, [c.choices[0]], answers);
    }
  }

  lemma {:induction false} FaithfulAppend<E>(w: World<E>, initial: seq<ChatMessage>, rounds: seq<Round>, round: Round)
    requires Faithful(w, initial, rounds) && round.sent == Conversation(initial, rounds, w.resolve)
    requires w.ask(|rounds|, round.sent) == Ok((round.completion, round.usage))
    ensures Faithful(w, initial, rounds + [round]) && (rounds + [round])[..|rounds|] == rounds
    ensures Total(rounds + [round]) == Accumulate(Total(rounds), round.usage)
    ensures Conversation(initial, rounds + [round], w.resolve) == round.sent + Exchange(round.completion, w.resolve)
  {
    var all := rounds + [round];
    assert all[..|rounds|] == rounds;
    forall i | 0 <= i < |all|
      ensures IsRound(w, initial, all, i)
    {
      assert all[..i] == rounds[..i];
      if i < |rounds| {
        assert IsRound(w, initial, rounds, i);
      } else {
        assert rounds[..i] == rounds;
      }
    }
  }

  function Sum(rounds: seq<Round>, f: Usage -> Option<int>): int {
    if rounds == [] then 0 else Sum(rounds[..|rounds| - 1], f) + Reported(f(rounds[|rounds| - 1].usage))
  }

  /** Usage is the sum over the rounds, and is missing only if no round reported any. */
  lemma {:induction false} UsageIsSum(rounds: seq<Round>)
    ensures Reported(Total(rounds).prompt) == Sum(rounds, (u: Usage) => u.prompt)
    ensures Reported(Total(rounds).completion) == Sum(rounds, (u: Usage) => u.completion)
    ensures Total(rounds).prompt.None? <==> forall i | 0 <= i < |rounds| :: rounds[i].usage.prompt.None?
    ensures Total(rounds).completion.None? <==> forall i | 0 <= i < |rounds| :: rounds[i].usage.completion.None?
    decreases |rounds|
  {
    if rounds != [] {
      UsageIsSum(rounds[..|rounds| - 1]);
    }
  }

  // ---------------------------------------------------------- a paired conversation

  // How tool messages have to answer: in any way, or with the result of the tool.
  type Answering = Option<ToolCall -> string>

  // Every message with tool calls is followed by exactly one tool message per call, in order
  // and with its id, and no tool message stands anywhere else.
  ghost predicate Paired(ms: seq<ChatMessage>, how: Answering)
    decreases |ms|
  {
    ms == [] ||
    (&& ms[0].role != "tool"
     && var n := |ms[0].toolCalls|;
     && n < |ms| && AnswersAll(ms[1..n + 1], ms[0].toolCalls, how) && Paired(ms[n + 1..], how))
  }

  ghost predicate AnswersAll(ms: seq<ChatMessage>, calls: seq<ToolCall>, how: Answering) {
    |ms| == |calls| && forall i | 0 <= i < |calls| :: Answers(ms[i], calls[i], how)
  }

  predicate Answers(m: ChatMessage, call: ToolCall, how: Answering) {
    AnswersWith(m, call, if how.Some? then how.value(call) else m.content)
  }

  // Behind a paired conversation, what follows is judged on its own.
  lemma {:induction false} PairedAppend(a: seq<ChatMessage>, b: seq<ChatMessage>, how: Answering)
    requires Paired(a, how)
    ensures Paired(a + b, how) <==> Paired(b, how)
    decreases |a|
  {
    if a == [] {
      Concat0(b);
    } else {
      var n := |a[0].toolCalls|;
      PairedAppend(a[n + 1..], b, how);
      CutAppend(a, b, n + 1);
      assert (a + b)[1..n + 1] == a[1..n + 1];
    }
  }

  // All the calls of a completion are in its first choice, which is not itself a tool message.
  predicate Clean(c: Completion) {
    c.choices == [] || (c.choices[0].role != "tool" && CallsOf(c.choices[1..]) == [])
  }

  /** What a round adds is paired iff the provider's answer is clean: the calls of every choice
      are answered, but only the first choice enters the conversation. */
  lemma {:induction false} ExchangeIsPairedIff(c: Completion, resolve: ToolCall -> string, how: Answering)
    requires how == None || how == Some(resolve)
    ensures Paired(Exchange(c, resolve), how) <==> Clean(c)
  {
    if c.choices == [] {
      assert Exchange(c, resolve) == [];
    } else {
      AnsweredMessage(c.choices[0], CallsOf(c.choices[1..]), resolve, how);
    }
  }

  // A message, the answers to its calls, and answers to more.
  lemma {:induction false} AnsweredMessage(m: ChatMessage, more: seq<ToolCall>, resolve: ToolCall -> string,
                                           how: Answering)
    requires how == None || how == Some(resolve)
    ensures Paired([m] + ToolMessages(m.toolCalls + more, resolve), how) <==> m.role != "tool" && more == []
  {
    var n, answers := |m.toolCalls|, ToolMessages(m.toolCalls + more, resolve);
    AnswersCalls(m.toolCalls, more, resolve, how);
    PairedHead(m, answers, how);
    if more == [] {
      assert answers[n..] == [];
    } else {
      assert answers[n..][0] == answers[n] == ToolMessage(more[0], resolve);
    }
  }

  lemma {:induction false} AnswersCalls(calls: seq<ToolCall>, more: seq<ToolCall>, resolve: ToolCall -> string,
                                        how: Answering)
    requires how == None || how == Some(resolve)
    ensures AnswersAll(ToolMessages(calls + more, resolve)[..|calls|], calls, how)
  {
    var answers := ToolMessages(calls + more, resolve);
    forall i | 0 <= i < |calls|
      ensures Answers(answers[..|calls|][i], calls[i], how)
    {
      assert answers[i] == ToolMessage((calls + more)[i], resolve);
    }
  }

  lemma {:induction false} PairedHead(m: ChatMessage, answers: seq<ChatMessage>, how: Answering)
    requires |m.toolCalls| <= |answers| && AnswersAll(answers[..|m.toolCalls|], m.toolCalls, how)
    ensures Paired([m] + answers, how) <==> m.role != "tool" && Paired(answers[|m.toolCalls|..], how)
  {
    SlicesOfCons(m, answers, |m.toolCalls|);
  }

  // What a run adds to the initial messages does not depend on them.
  lemma {:induction false} ConversationGrows(initial: seq<ChatMessage>, rounds: seq<Round>, resolve: ToolCall -> string)
    ensures Conversation(initial, rounds, resolve) == initial + Conversation([], rounds, resolve)
    decreases |rounds|
  {
    if rounds == [] {
      Concat0(initial);
    } else {
      var before := rounds[..|rounds| - 1];
      ConversationGrows(initial, before, resolve);
      Concat3(initial, Conversation([], before, resolve), Exchange(rounds[|rounds| - 1].completion, resolve));
    }
  }

  /** From one request to the next, said of the messages alone: the earlier ones stay, the first
      choice follows unchanged, and then one tool message per call of any choice, in order, with
      its id and the result of its tool. */
  lemma {:induction false} NextRequest<E>(w: World<E>, initial: seq<ChatMessage>, rounds: seq<Round>, i: nat)
    requires i + 1 < |rounds| && Faithful(w, initial, rounds)
    ensures var now, next, choices := rounds[i].sent, rounds[i + 1].sent, rounds[i].completion.choices;
            var first, calls := if choices == [] then [] else [choices[0]], CallsOf(choices);
            && |next| == |now| + |first| + |calls|
            && var answers := next[|now| + |first|..];
            && next == now + first + answers
            && forall k | 0 <= k < |calls| :: AnswersWith(answers[k], calls[k], w.resolve(calls[k]))
  {
    var c := rounds[i].completion;
    var first := if c.choices == [] then [] else [c.choices[0]];
    var answers := ToolMessages(CallsOf(c.choices), w.resolve);
    NextConversation(w, initial, rounds, i);
    Concat3(rounds[i].sent, first, answers);
    CutAppend(rounds[i].sent + first, answers, |rounds[i].sent + first|);
    Concat0(answers);
  }

  lemma {:induction false} NextConversation<E>(w: World<E>, initial: seq<ChatMessage>, rounds: seq<Round>, i: nat)
    requires i + 1 < |rounds| && Faithful(w, initial, rounds)
    ensures rounds[i + 1].sent == rounds[i].sent + Exchange(rounds[i].completion, w.resolve)
  {
    assert IsRound(w, initial, rounds, i) && IsRound(w, initial, rounds, i + 1);
    assert rounds[..i + 1][..i] == rounds[..i];
  }

  /** The calls of all choices, one choice after the other. */
  lemma {:induction false} CallsOfAppend(a: seq<ChatMessage>, m: ChatMessage)
    ensures CallsOf(a + [m]) == CallsOf(a) + m.toolCalls
  {
    if a == [] {
      Concat0([m]);
      assert [m][1..] == [];
      Concat0(m.toolCalls);
    } else {
      TailOfAppend(a, [m]);
      CallsOfAppend(a[1..], m);
      Concat3(a[0].toolCalls, CallsOf(a[1..]), m.toolCalls);
    }
  }

  function AllButLast(rounds: seq<Round>): seq<Round> {
    if rounds == [] then [] else rounds[..|rounds| - 1]
  }

  ghost predicate AllClean(rounds: seq<Round>) {
    forall i | 0 <= i < |rounds| :: Clean(rounds[i].completion)
  }

  // One more round keeps a conversation paired iff its completion is clean.
  lemma {:induction false} PairedNextIff(initial: seq<ChatMessage>, rounds: seq<Round>, resolve: ToolCall -> string,
                                         how: Answering)
    requires rounds != [] && (how == None || how == Some(resolve))
    requires Paired(Conversation(initial, rounds[..|rounds| - 1], resolve), how)
    ensures Paired(Conversation(initial, rounds, resolve), how) <==> Clean(rounds[|rounds| - 1].completion)
  {
    var before, last := rounds[..|rounds| - 1], rounds[|rounds| - 1].completion;
    PairedAppend(Conversation(initial, before, resolve), Exchange(last, resolve), how);
    ExchangeIsPairedIff(last, resolve, how);
  }

  lemma {:induction false} CleanIsPaired(initial: seq<ChatMessage>, rounds: seq<Round>, resolve: ToolCall -> string,
                                         how: Answering)
    requires Paired(initial, how) && AllClean(rounds) && (how == None || how == Some(resolve))
    ensures Paired(Conversation(initial, rounds, resolve), how)
    decreases |rounds|
  {
    if rounds != [] {
      CleanIsPaired(initial, rounds[..|rounds| - 1], resolve, how);
      PairedNextIff(initial, rounds, resolve, how);
    }
  }

  // The conversation is paired after every number of rounds up to n.
  ghost predicate PairedUpTo(initial: seq<ChatMessage>, rounds: seq<Round>, resolve: ToolCall -> string, how: Answering,
                             n: nat)
    requires n <= |rounds|
  {
    forall i | 0 <= i <= n :: Paired(Conversation(initial, rounds[..i], resolve), how)
  }

  lemma {:induction false} PairedUpToIff(initial: seq<ChatMessage>, rounds: seq<Round>, resolve: ToolCall -> string,
                                         how: Answering, n: nat)
    requires n <= |rounds| && Paired(initial, how) && (how == None || how == Some(resolve))
    ensures PairedUpTo(initial, rounds, resolve, how, n) <==> AllClean(rounds[..n])
  {
    if AllClean(rounds[..n]) {
      forall i | 0 <= i <= n
        ensures Paired(Conversation(initial, rounds[..i], resolve), how)
      {
        CleanPrefix(rounds, i, n);
        CleanIsPaired(initial, rounds[..i], resolve, how);
      }
    }
    if PairedUpTo(initial, rounds, resolve, how, n) {
      forall i | 0 <= i < n
        ensures Clean(rounds[i].completion)
      {
        PairedIsClean(initial, rounds, resolve, how, n, i);
      }
    }
  }

  lemma CleanPrefix(rounds: seq<Round>, i: nat, n: nat)
    requires i <= n <= |rounds| && AllClean(rounds[..n])
    ensures AllClean(rounds[..i])
  {
    assert forall k | 0 <= k < i :: rounds[..i][k] == rounds[..n][k];
  }

  lemma {:induction false} PairedIsClean(initial: seq<ChatMessage>, rounds: seq<Round>, resolve: ToolCall -> string,
                                         how: Answering, n: nat, i: nat)
    requires i < n <= |rounds| && (how == None || how == Some(resolve))
    requires PairedUpTo(initial, rounds, resolve, how, n)
    ensures Clean(rounds[i].completion)
  {
    var upTo := rounds[..i + 1];
    assert upTo[..i] == rounds[..i];
    assert Paired(Conversation(initial, upTo, resolve), how);
    assert Paired(Conversation(initial, rounds[..i], resolve), how);
    PairedNextIff(initial, upTo, resolve, how);
  }

  lemma {:induction false} SentIs<E>(w: World<E>, initial: seq<ChatMessage>, rounds: seq<Round>, i: nat)
    requires i < |rounds| && Faithful(w, initial, rounds)
    ensures rounds[i].sent == Conversation(initial, rounds[..i], w.resolve)
    ensures initial <= rounds[i].sent && rounds[i].sent[|initial|..] == Conversation([], rounds[..i], w.resolve)
  {
    assert IsRound(w, initial, rounds, i);
    ConversationGrows(initial, rounds[..i], w.resolve);
  }

  /** Every request of a run extends the initial messages; and every request answers each tool call
      exactly once, in order and with its id, iff the completions before the last are clean; and
      then whatever the run added answers each call with the result of its own tool. */
  lemma {:induction false} EveryRequestIsPairedIff<E>(w: World<E>, initial: seq<ChatMessage>, rounds: seq<Round>)
    requires Paired(initial, None) && Faithful(w, initial, rounds)
    ensures forall i | 0 <= i < |rounds| :: initial <= rounds[i].sent
    ensures (forall i | 0 <= i < |rounds| :: Paired(rounds[i].sent, None)) <==> AllClean(AllButLast(rounds))
    ensures (forall i | 0 <= i < |rounds| :: Paired(rounds[i].sent[|initial|..], Some(w.resolve)))
            <==> AllClean(AllButLast(rounds))
  {
    if rounds == [] {
      return;
    }
    var n := |rounds| - 1;
    forall i | 0 <= i < |rounds|
      ensures rounds[i].sent == Conversation(initial, rounds[..i], w.resolve)
      ensures initial <= rounds[i].sent && rounds[i].sent[|initial|..] == Conversation([], rounds[..i], w.resolve)
    {
      SentIs(w, initial, rounds, i);
    }
    PairedUpToIff(initial, rounds, w.resolve, None, n);
    PairedUpToIff([], rounds, w.resolve, Some(w.resolve), n);
    if PairedUpTo(initial, rounds, w.resolve, None, n) {
      assert forall i | 0 <= i < |rounds| :: Paired(Conversation(initial, rounds[..i], w.resolve), None);
    }
  }

  /** So a second choice that calls a tool leaves an answer without a call. */
  lemma {:induction false} SecondChoiceLeavesOrphans(first: ChatMessage, second: ChatMessage,
                                                     resolve: ToolCall -> string)
    requires second.toolCalls != []
    ensures !Paired(Exchange(Completion([first, second]), resolve), None)
  {
    var choices := [first, second];
    assert choices[1..] == [second];
    assert CallsOf([second]) == second.toolCalls + CallsOf([second][1..]);
    ExchangeIsPairedIff(Completion(choices), resolve, None);
  }
}
