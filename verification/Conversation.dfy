/**
 The conversation and the multi-round agent loop. A chat completion API refuses a history in which
 a tool call lacks its result or a result its call, so every way out of a turn and every truncation
 is examined for what it does to that pairing.
 */
module Conversation {
  import opened Search
  import opened ToolCalls
  import opened Wrappers

  datatype Role = System | User | Assistant | Tool | OtherRole(name: string)

  datatype Message = Message(role: Role, content: string, toolCallId: string, name: string, toolCalls: seq<ToolCall>)

  function UserMessage(content: string): Message
  {
    Message(User, content, [], [], [])
  }

  function AssistantMessage(content: string): Message
  {
    Message(Assistant, content, [], [], [])
  }

  function CallMessage(calls: seq<ToolCall>): Message
  {
    Message(Assistant, [], [], [], calls)
  }

  function ResultMessage(callId: string, name: string, result: string): Message
  {
    Message(Tool, result, callId, name, [])
  }

  predicate IsResult(m: Message)
  {
    m.role == Tool
  }

  predicate IsRequest(m: Message)
  {
    m.role == Assistant && m.toolCalls != []
  }

  predicate IsPlain(m: Message)
  {
    !IsResult(m) && !IsRequest(m)
  }

  /** As many results as calls, in the same order, each with the id and the name of its call. */
  predicate Answers(results: seq<Message>, calls: seq<ToolCall>)
  {
    && |results| == |calls|
    && forall k | 0 <= k < |calls| ::
         IsResult(results[k]) && results[k].toolCallId == calls[k].id && results[k].name == calls[k].name
  }

  /** Each request is followed by exactly its results, and no result stands anywhere else. */
  predicate Paired(msgs: seq<Message>)
    decreases |msgs|
  {
    msgs == []
    || (if IsRequest(msgs[0]) then
          var n := 1 + |msgs[0].toolCalls|;
          n <= |msgs| && Answers(msgs[1..n], msgs[0].toolCalls) && Paired(msgs[n..])
        else !IsResult(msgs[0]) && Paired(msgs[1..]))
  }

  lemma {:induction false} PairedAppend(a: seq<Message>, b: seq<Message>)
    requires Paired(a)
    ensures Paired(a + b) <==> Paired(b)
    decreases |a|
  {
    hide IsRequest;
    hide IsResult;
    hide Answers;
    if a == [] {
      assert a + b == b;
    } else {
      var n := if IsRequest(a[0]) then 1 + |a[0].toolCalls| else 1;
      PairedAppend(a[n..], b);
      SplitInFirst(a, b, n);
    }
  }

  lemma SplitInFirst(a: seq<Message>, b: seq<Message>, n: nat)
    requires 1 <= n <= |a|
    ensures (a + b)[0] == a[0] && (a + b)[n..] == a[n..] + b && (a + b)[1..n] == a[1..n]
  {
  }

  // ---------- Truncation ----------

  function WithoutOrphans(msgs: seq<Message>): seq<Message>
  {
    if msgs == [] || IsPlain(msgs[0]) then msgs else WithoutOrphans(msgs[1..])
  }

  function LastOf(msgs: seq<Message>, max: int): seq<Message>
  {
    if max >= |msgs| then msgs else if max < 0 then [] else msgs[|msgs| - max..]
  }

  function Truncated(msgs: seq<Message>, max: int): seq<Message>
  {
    if |msgs| <= max then msgs else WithoutOrphans(LastOf(msgs, max))
  }

  predicate StartsPlain(msgs: seq<Message>)
  {
    msgs == [] || IsPlain(msgs[0])
  }

  lemma {:induction false} WithoutOrphansLongest(msgs: seq<Message>, k: nat)
    requires k <= |msgs|
    ensures var r := WithoutOrphans(msgs);
      && StartsPlain(r) && |r| <= |msgs| && r == msgs[|msgs| - |r|..]
      && (StartsPlain(msgs[k..]) ==> |msgs[k..]| <= |r|)
    decreases |msgs|
  {
    hide IsPlain;
    if msgs != [] && !IsPlain(msgs[0]) {
      var rest := msgs[1..];
      WithoutOrphansLongest(rest, if k == 0 then 0 else k - 1);
      SuffixOfSuffix(msgs, 1, |rest| - |WithoutOrphans(rest)|);
      if k > 0 {
        SuffixOfSuffix(msgs, 1, k - 1);
      } else {
        assert msgs[0..] == msgs;
      }
    }
  }

  /**
   When it cuts, truncation leaves the longest suffix within the last `max` messages that is empty
   or starts with a message that is neither a result nor a request.
   */
  lemma TruncatedIsLongest(msgs: seq<Message>, max: int, k: nat)
    requires |msgs| > max && k <= |msgs|
    ensures var r := Truncated(msgs, max);
      && StartsPlain(r) && |r| <= (if max < 0 then 0 else max) && r == msgs[|msgs| - |r|..]
      && (StartsPlain(msgs[k..]) && |msgs[k..]| <= max ==> |msgs[k..]| <= |r|)
  {
    var last := LastOf(msgs, max);
    var from := |msgs| - |last|;
    assert last == msgs[from..];
    WithoutOrphansLongest(last, if k >= from then k - from else 0);
    assert k >= from ==> last[k - from..] == msgs[k..];
  }

  lemma {:induction false} SuffixPaired(msgs: seq<Message>, k: nat)
    requires Paired(msgs) && k <= |msgs| && StartsPlain(msgs[k..])
    ensures Paired(msgs[k..])
    decreases |msgs|
  {
    if k > 0 {
      var n := if IsRequest(msgs[0]) then 1 + |msgs[0].toolCalls| else 1;
      forall i | 1 <= i < n ensures !StartsPlain(msgs[i..]) {
        assert msgs[i] == msgs[1..n][i - 1];
      }
      if k >= n {
        assert msgs[n..][k - n..] == msgs[k..];
        SuffixPaired(msgs[n..], k - n);
      }
    }
  }

  /** A history that is short enough stays as it is. */
  lemma ShortKept(msgs: seq<Message>, max: int)
    requires |msgs| <= max
    ensures Truncated(msgs, max) == msgs
  {
  }

  /** Truncation never separates a call from its results. */
  lemma TruncationKeepsPairing(msgs: seq<Message>, max: int)
    requires Paired(msgs)
    ensures Paired(Truncated(msgs, max))
  {
    if |msgs| > max {
      TruncatedIsLongest(msgs, max, |msgs|);
      SuffixPaired(msgs, |msgs| - |Truncated(msgs, max)|);
    }
  }

  // ---------- One turn ----------

  datatype Reply = Response(text: string) | Failed(what: string) | FailedUnknown

  /**
   What a turn calls. `None` stands for an exception that the caller of `agent_turn` gets. The model's
   answers and the tools' results may depend on the round, and a result on the position of its call.
   */
  datatype World = World(
    request: seq<Message> -> Option<string>,
    infer: (nat, string) -> Reply,
    toolCalls: string -> Option<seq<ToolCall>>,
    content: string -> Option<string>,
    dispatch: (nat, nat, ToolCall) -> Option<string>)

  datatype Site = AtRequest | AtToolCalls | AtContent | AtDispatch
  datatype Outcome = Said(text: string) | Exhausted | Threw(site: Site)

  const MAX_RESULT: nat := 4000
  const TRUNCATED := "...(truncated)"
  const NO_RESPONSE := "[No response from inference engine]"

  function Clipped(result: string): (r: string)
    ensures |r| <= MAX_RESULT + |TRUNCATED|
  {
    if |result| > MAX_RESULT then result[..MAX_RESULT] + TRUNCATED else result
  }

  function ErrorText(reply: Reply): string
    requires !reply.Response?
  {
    "[Inference error: " + (if reply.Failed? then reply.what else "unknown") + "]"
  }

  function FinalText(content: string): string
  {
    var text := Stripped(content);
    if text == [] then NO_RESPONSE else text
  }

  /** The results up to the first dispatch that throws. */
  function Results(w: World, round: nat, calls: seq<ToolCall>, from: nat): seq<Message>
    requires from <= |calls|
    decreases |calls| - from
  {
    if from == |calls| then []
    else
      match w.dispatch(round, from, calls[from])
      case None => []
      case Some(result) =>
        [ResultMessage(calls[from].id, calls[from].name, Clipped(result))] + Results(w, round, calls, from + 1)
  }

  datatype Turn = Turn(added: seq<Message>, outcome: Outcome, inferences: nat)

  function Preceded(added: seq<Message>, rest: Turn): Turn
  {
    rest.(added := added + rest.added)
  }

  /** One round either ends the turn or adds a request with all its results. */
  datatype Round = Ends(turn: Turn) | GoesOn(added: seq<Message>)

  function RoundOf(w: World, msgs: seq<Message>, round: nat): Round
  {
    match w.request(msgs)
    case None => Ends(Turn([], Threw(AtRequest), round))
    case Some(request) =>
      match w.infer(round, request)
      case Response(text) => Answered(w, round, text)
      case failure =>
        Ends(Turn([AssistantMessage(ErrorText(failure))], Said(ErrorText(failure)), round + 1))
  }

  function Answered(w: World, round: nat, response: string): Round
  {
    match w.toolCalls(response)
    case None => Ends(Turn([], Threw(AtToolCalls), round + 1))
    case Some(calls) =>
      if calls == [] then
        match w.content(response)
        case None => Ends(Turn([], Threw(AtContent), round + 1))
        case Some(content) =>
          Ends(Turn([AssistantMessage(FinalText(content))], Said(FinalText(content)), round + 1))
      else
        var added := [CallMessage(calls)] + Results(w, round, calls, 0);
        if |added| <= |calls| then Ends(Turn(added, Threw(AtDispatch), round + 1)) else GoesOn(added)
  }

  /** A turn that has been through `round` rounds, on top of the messages there are. */
  function TurnFrom(w: World, msgs: seq<Message>, round: nat, maxRounds: int): Turn
    decreases maxRounds - round
  {
    if round >= maxRounds then Turn([], Exhausted, round)
    else
      match RoundOf(w, msgs, round)
      case Ends(turn) => turn
      case GoesOn(added) => Preceded(added, TurnFrom(w, msgs + added, round + 1, maxRounds))
  }

  class ConversationState {
    var messages: seq<Message>

    constructor ()
      ensures messages == []
    {
      messages := [];
    }

    method AddUserMessage(content: string)
      modifies this
      ensures messages == old(messages) + [Message(User, content, [], [], [])]
    {
      messages := messages + [Message(User, content, [], [], [])];
    }

    method AddAssistantMessage(content: string)
      modifies this
      ensures messages == old(messages) + [Message(Assistant, content, [], [], [])]
    {
      messages := messages + [Message(Assistant, content, [], [], [])];
    }

    method AddAssistantToolCalls(calls: seq<ToolCall>)
      modifies this
      ensures messages == old(messages) + [Message(Assistant, [], [], [], calls)]
    {
      messages := messages + [Message(Assistant, [], [], [], calls)];
    }

    method AddToolResult(callId: string, name: string, result: string)
      modifies this
      ensures messages == old(messages) + [Message(Tool, result, callId, name, [])]
    {
      messages := messages + [Message(Tool, result, callId, name, [])];
    }

    method Truncate(maxMessages: int)
      modifies this
      ensures messages == Truncated(old(messages), maxMessages)
    {
      var max := if maxMessages < 0 then 0 else maxMessages;
      if |messages| <= max {
        return;
      }
      messages := messages[|messages| - max..];
      assert messages == LastOf(old(messages), maxMessages);
      while messages != []
        invariant WithoutOrphans(messages) == Truncated(old(messages), maxMessages)
        decreases |messages|
      {
        if messages[0].role == Tool {
          messages := messages[1..];
        } else if messages[0].role == Assistant && messages[0].toolCalls != [] {
          messages := messages[1..];
          ghost var n := |messages|;
          while messages != [] && messages[0].role == Tool
            invariant WithoutOrphans(messages) == Truncated(old(messages), maxMessages)
            invariant |messages| <= n
            decreases |messages|
          {
            messages := messages[1..];
          }
        } else {
          break;
        }
      }
    }

    /** The inner loop of a round: every call is dispatched and its result added. */
    method DispatchAll(w: World, round: nat, calls: seq<ToolCall>) returns (all: bool)
      modifies this
      ensures messages == old(messages) + Results(w, round, calls, 0)
      ensures all <==> |Results(w, round, calls, 0)| == |calls|
    {
      hide TRUNCATED;
      ghost var whole := messages + Results(w, round, calls, 0);
      for k := 0 to |calls|
        invariant whole == messages + Results(w, round, calls, k)
        invariant |messages| == |old(messages)| + k
      {
        var dispatched := w.dispatch(round, k, calls[k]);
        if dispatched == None {
          assert messages + [] == messages;
          return false;
        }
        var result := dispatched.value;
        if |result| > MAX_RESULT {
          result := result[..MAX_RESULT] + TRUNCATED;
        }
        OneMore(messages, ResultMessage(calls[k].id, calls[k].name, result), Results(w, round, calls, k + 1));
        AddToolResult(calls[k].id, calls[k].name, result);
      }
      assert messages + [] == messages;
      return true;
    }

    /** The body of the outer loop; none means that the loop goes on. */
    method TakeRound(w: World, round: nat) returns (ended: Option<Outcome>, ghost inferences: nat)
      modifies this
      ensures match RoundOf(w, old(messages), round)
        case Ends(turn) =>
          messages == old(messages) + turn.added && ended == Some(turn.outcome) && inferences == turn.inferences
        case GoesOn(added) =>
          messages == old(messages) + added && ended == None && inferences == round + 1
    {
      hide Stripped;
      hide Results;
      hide ErrorText;
      hide NO_RESPONSE;
      inferences := round;
      ghost var start := messages;
      assert start + [] == start;
      var request := w.request(messages);
      if request == None {
        return Some(Threw(AtRequest)), inferences;
      }
      inferences := inferences + 1;
      var reply := w.infer(round, request.value);
      if !reply.Response? {
        var text := ErrorText(reply);
        AddAssistantMessage(text);
        return Some(Said(text)), inferences;
      }
      var toolCalls := w.toolCalls(reply.text);
      if toolCalls == None {
        return Some(Threw(AtToolCalls)), inferences;
      }
      var calls := toolCalls.value;
      if calls == [] {
        var content := w.content(reply.text);
        if content == None {
          return Some(Threw(AtContent)), inferences;
        }
        var text := StripToolCallResidue(content.value);
        if text == [] {
          text := NO_RESPONSE;
        }
        AddAssistantMessage(text);
        return Some(Said(text)), inferences;
      }
      ResultsAnswer(w, round, calls, 0);
      OneMore(start, CallMessage(calls), Results(w, round, calls, 0));
      AddAssistantToolCalls(calls);
      var all := DispatchAll(w, round, calls);
      if !all {
        return Some(Threw(AtDispatch)), inferences;
      }
      return None, inferences;
    }

    method AgentTurn(w: World, maxRounds: int) returns (outcome: Outcome, ghost inferences: nat)
      modifies this
      ensures var turn := TurnFrom(w, old(messages), 0, maxRounds);
        messages == old(messages) + turn.added && outcome == turn.outcome && inferences == turn.inferences
    {
      hide RoundOf;
      hide TurnFrom;
      hide Preceded;
      ghost var whole := TurnFrom(w, messages, 0, maxRounds);
      ghost var sofar: seq<Message> := [];
      inferences := 0;
      var round := 0;
      PrecededMore([], [], whole);
      while round < maxRounds
        invariant round >= 0 && inferences == round && messages == old(messages) + sofar
        invariant whole == Preceded(sofar, TurnFrom(w, messages, round, maxRounds))
      {
        TurnNext(w, messages, round, maxRounds);
        ghost var start, step := messages, RoundOf(w, messages, round);
        var ended;
        ended, inferences := TakeRound(w, round);
        ghost var added := if step.Ends? then step.turn.added else step.added;
        PrecededMore(sofar, added, TurnFrom(w, start + added, round + 1, maxRounds));
        if ended.Some? {
          PrecededMore(sofar, [], step.turn);
          return ended.value, inferences;
        }
        sofar := sofar + added;
        round := round + 1;
      }
      TurnNext(w, messages, round, maxRounds);
      PrecededMore(sofar, [], Turn([], Exhausted, round));
      return Exhausted, inferences;
    }
  }

  lemma TurnNext(w: World, msgs: seq<Message>, round: nat, maxRounds: int)
    ensures round >= maxRounds ==> TurnFrom(w, msgs, round, maxRounds) == Turn([], Exhausted, round)
    ensures round < maxRounds ==> TurnFrom(w, msgs, round, maxRounds) == match RoundOf(w, msgs, round)
      case Ends(turn) => turn
      case GoesOn(added) => Preceded(added, TurnFrom(w, msgs + added, round + 1, maxRounds))
  {
    hide RoundOf;
    hide Preceded;
  }

  lemma PrecededMore(sofar: seq<Message>, added: seq<Message>, rest: Turn)
    ensures Preceded(sofar, Preceded(added, rest)) == Preceded(sofar + added, rest) && Preceded([], rest) == rest
    ensures Preceded(sofar, rest) == rest.(added := sofar + rest.added)
  {
    assert sofar + (added + rest.added) == sofar + added + rest.added && [] + rest.added == rest.added;
  }

  lemma OneMore(before: seq<Message>, m: Message, after: seq<Message>)
    ensures before + ([m] + after) == (before + [m]) + after
  {
  }

  // ---------- What a turn does to the history ----------

  lemma {:induction false} ResultsAnswer(w: World, round: nat, calls: seq<ToolCall>, from: nat)
    requires from <= |calls|
    ensures var r := Results(w, round, calls, from);
      && |r| <= |calls| - from
      && (forall k | 0 <= k < |r| :: IsResult(r[k]) && r[k].toolCallId == calls[from + k].id
                                     && r[k].name == calls[from + k].name
                                     && |r[k].content| <= MAX_RESULT + |TRUNCATED|)
    decreases |calls| - from
  {
    hide TRUNCATED;
    hide Clipped;
    if from < |calls| && w.dispatch(round, from, calls[from]).Some? {
      ResultsAnswer(w, round, calls, from + 1);
      var r, rest := Results(w, round, calls, from), Results(w, round, calls, from + 1);
      assert forall k | 1 <= k < |r| :: r[k] == rest[k - 1];
    }
  }

  /** A request with fewer results than calls is not paired, one with all of them is. */
  lemma ExchangePaired(w: World, round: nat, calls: seq<ToolCall>)
    requires calls != []
    ensures var added := [CallMessage(calls)] + Results(w, round, calls, 0);
      Paired(added) <==> |added| > |calls|
  {
    ResultsAnswer(w, round, calls, 0);
    var results := Results(w, round, calls, 0);
    var added := [CallMessage(calls)] + results;
    assert |added| > |calls| ==> added[1..1 + |calls|] == results && added[1 + |calls|..] == [];
  }

  lemma PairedOne(m: Message)
    requires IsPlain(m)
    ensures Paired([m])
  {
    assert [m][1..] == [];
  }

  lemma RoundPaired(w: World, msgs: seq<Message>, round: nat)
    ensures match RoundOf(w, msgs, round)
      case Ends(turn) => Paired(turn.added) <==> turn.outcome != Threw(AtDispatch)
      case GoesOn(added) => added != [] && Paired(added) && IsResult(added[|added| - 1])
  {
    hide Stripped;
    hide Results;
    hide Paired;
    assert Paired([]) by { PairedNone(); }
    if w.request(msgs).Some? {
      var reply := w.infer(round, w.request(msgs).value);
      if !reply.Response? {
        PairedOne(AssistantMessage(ErrorText(reply)));
      } else if w.toolCalls(reply.text).Some? {
        var calls := w.toolCalls(reply.text).value;
        if calls != [] {
          ExchangePaired(w, round, calls);
          ResultsAnswer(w, round, calls, 0);
        } else if w.content(reply.text).Some? {
          PairedOne(AssistantMessage(FinalText(w.content(reply.text).value)));
        }
      }
    }
  }

  lemma PairedNone()
    ensures Paired([])
  {
  }

  /**
   On every way out of a turn the history is paired again, unless a dispatch threw: then the request
   is left behind with the results so far.
   */
  lemma {:induction false} TurnKeepsPairing(w: World, msgs: seq<Message>, round: nat, maxRounds: int)
    requires Paired(msgs)
    ensures var turn := TurnFrom(w, msgs, round, maxRounds);
      Paired(msgs + turn.added) <==> turn.outcome != Threw(AtDispatch)
    decreases maxRounds - round
  {
    hide RoundOf;
    hide Paired;
    var turn := TurnFrom(w, msgs, round, maxRounds);
    PairedAppend(msgs, turn.added);
    PairedNone();
    if round < maxRounds {
      RoundPaired(w, msgs, round);
      match RoundOf(w, msgs, round)
      case Ends(_) =>
      case GoesOn(added) =>
        PairedAppend(msgs, added);
        TurnKeepsPairing(w, msgs + added, round + 1, maxRounds);
        assert msgs + turn.added == msgs + added + TurnFrom(w, msgs + added, round + 1, maxRounds).added;
    }
  }

  /** Whatever is called and whenever, a dispatch returns: it reports a failing tool, it does not throw. */
  ghost predicate NeverThrows(dispatch: (nat, nat, ToolCall) -> Option<string>)
  {
    forall round: nat, k: nat, call: ToolCall :: dispatch(round, k, call) != None
  }

  lemma {:induction false} AllResults(w: World, round: nat, calls: seq<ToolCall>, from: nat)
    requires NeverThrows(w.dispatch) && from <= |calls|
    ensures |Results(w, round, calls, from)| == |calls| - from
    decreases |calls| - from
  {
    hide Clipped;
    if from < |calls| {
      assert w.dispatch(round, from, calls[from]) != None;
      AllResults(w, round, calls, from + 1);
    }
  }

  lemma {:induction false} SafeTurn(w: World, msgs: seq<Message>, round: nat, maxRounds: int)
    requires NeverThrows(w.dispatch)
    ensures TurnFrom(w, msgs, round, maxRounds).outcome != Threw(AtDispatch)
    decreases maxRounds - round
  {
    hide Stripped;
    hide Results;
    hide ErrorText;
    if round < maxRounds {
      SafeRound(w, msgs, round);
      match RoundOf(w, msgs, round)
      case Ends(_) =>
      case GoesOn(added) => SafeTurn(w, msgs + added, round + 1, maxRounds);
    }
  }

  lemma SafeRound(w: World, msgs: seq<Message>, round: nat)
    requires NeverThrows(w.dispatch)
    ensures RoundOf(w, msgs, round).Ends? ==> RoundOf(w, msgs, round).turn.outcome != Threw(AtDispatch)
  {
    hide Stripped;
    hide Results;
    hide ErrorText;
    if w.request(msgs).Some? && w.infer(round, w.request(msgs).value).Response? {
      var calls := w.toolCalls(w.infer(round, w.request(msgs).value).text);
      if calls.Some? {
        AllResults(w, round, calls.value, 0);
      }
    }
  }

  /** A model that never stops calling the same tool, that many times a round. */
  function Caller(dispatch: (nat, nat, ToolCall) -> Option<string>, calls: seq<ToolCall>): World
  {
    World(_ => Some([]), (_, _) => Response([]), _ => Some(calls), _ => None, dispatch)
  }

  lemma {:induction false} ResultsStop(w: World, round: nat, calls: seq<ToolCall>, from: nat, k: nat)
    requires from <= k < |calls| && w.dispatch(round, k, calls[k]) == None
    ensures |Results(w, round, calls, from)| <= k - from
    decreases k - from
  {
    hide Clipped;
    if from < k && w.dispatch(round, from, calls[from]).Some? {
      ResultsStop(w, round, calls, from + 1, k);
    }
  }

  /** In the round in question, or in one before it, a dispatch throws. */
  lemma {:induction false} CallerThrows(dispatch: (nat, nat, ToolCall) -> Option<string>, calls: seq<ToolCall>,
                                        msgs: seq<Message>, round: nat, last: nat, k: nat)
    requires k < |calls| && dispatch(last, k, calls[k]) == None && round <= last
    ensures TurnFrom(Caller(dispatch, calls), msgs, round, last + 1).outcome == Threw(AtDispatch)
    decreases last - round
  {
    hide Results;
    var w := Caller(dispatch, calls);
    var added := [CallMessage(calls)] + Results(w, round, calls, 0);
    assert RoundOf(w, msgs, round) ==
        if |added| <= |calls| then Ends(Turn(added, Threw(AtDispatch), round + 1)) else GoesOn(added);
    if round == last {
      ResultsStop(w, round, calls, 0, k);
    } else if |added| > |calls| {
      CallerThrows(dispatch, calls, msgs + added, round + 1, last, k);
    }
  }

  /**
   The tools alone decide: whatever the model answers and however many rounds it is given, turns keep
   every paired history paired if and only if no dispatch can throw.
   */
  lemma PairingKeptExactlyIf(dispatch: (nat, nat, ToolCall) -> Option<string>)
    ensures NeverThrows(dispatch) <==>
      forall w: World, msgs: seq<Message>, maxRounds: int | w.dispatch == dispatch && Paired(msgs) ::
        Paired(msgs + TurnFrom(w, msgs, 0, maxRounds).added)
  {
    hide TurnFrom;
    hide Paired;
    if NeverThrows(dispatch) {
      forall w: World, msgs: seq<Message>, maxRounds: int | w.dispatch == dispatch && Paired(msgs)
        ensures Paired(msgs + TurnFrom(w, msgs, 0, maxRounds).added)
      {
        SafeTurn(w, msgs, 0, maxRounds);
        TurnKeepsPairing(w, msgs, 0, maxRounds);
      }
    } else {
      var round: nat, k: nat, call: ToolCall :| dispatch(round, k, call) == None;
      var calls := seq(k + 1, _ => call);
      PairedNone();
      CallerThrows(dispatch, calls, [], 0, round, k);
      TurnKeepsPairing(Caller(dispatch, calls), [], 0, round + 1);
      assert !Paired([] + TurnFrom(Caller(dispatch, calls), [], 0, round + 1).added);
    }
  }

  /** One call to a tool that throws is enough to leave a request without its result. */
  lemma ThrowingDispatchUnpairs(call: ToolCall)
    ensures var w := World(_ => Some([]), (_, _) => Response([]), _ => Some([call]), _ => None, (_, _, _) => None);
      TurnFrom(w, [], 0, 1) == Turn([CallMessage([call])], Threw(AtDispatch), 1) && !Paired([CallMessage([call])])
  {
  }

  /**
   A turn asks the model at most `max_rounds` times. When it returns a text of its own, that text is
   not empty and is the last message; when the rounds are used up, the last message is a result.
   */
  lemma {:induction false} TurnEnds(w: World, msgs: seq<Message>, round: nat, maxRounds: int)
    ensures var turn := TurnFrom(w, msgs, round, maxRounds);
      && turn.inferences <= (if round >= maxRounds then round else maxRounds)
      && (turn.outcome.Said? ==> turn.added != [] && turn.outcome.text != []
                                 && turn.added[|turn.added| - 1] == AssistantMessage(turn.outcome.text))
      && (turn.outcome == Exhausted && round < maxRounds ==>
            turn.inferences == maxRounds && turn.added != [] && IsResult(turn.added[|turn.added| - 1]))
    decreases maxRounds - round
  {
    hide RoundOf;
    hide IsResult;
    if round < maxRounds {
      RoundPaired(w, msgs, round);
      match RoundOf(w, msgs, round)
      case Ends(turn) =>
        RoundEnds(w, msgs, round);
      case GoesOn(added) =>
        TurnEnds(w, msgs + added, round + 1, maxRounds);
        LastOfBoth(added, TurnFrom(w, msgs + added, round + 1, maxRounds).added);
    }
  }

  lemma LastOfBoth(a: seq<Message>, b: seq<Message>)
    ensures b != [] ==> (a + b)[|a + b| - 1] == b[|b| - 1]
    ensures a != [] && b == [] ==> (a + b)[|a + b| - 1] == a[|a| - 1]
  {
  }

  lemma RoundEnds(w: World, msgs: seq<Message>, round: nat)
    requires RoundOf(w, msgs, round).Ends?
    ensures var turn := RoundOf(w, msgs, round).turn;
      && turn.inferences <= round + 1 && turn.outcome != Exhausted
      && (turn.outcome.Said? ==> turn.outcome.text != [] && turn.added == [AssistantMessage(turn.outcome.text)])
  {
    hide Stripped;
    hide Results;
  }

  // ---------- Runs ----------

  datatype Operation = Ask(content: string) | TakeTurn(w: World, maxRounds: int) | Shorten(max: int)

  function After(msgs: seq<Message>, op: Operation): seq<Message>
  {
    match op
    case Ask(content) => msgs + [UserMessage(content)]
    case TakeTurn(w, maxRounds) => msgs + TurnFrom(w, msgs, 0, maxRounds).added
    case Shorten(max) => Truncated(msgs, max)
  }

  function Run(msgs: seq<Message>, ops: seq<Operation>): seq<Message>
    decreases |ops|
  {
    if ops == [] then msgs else Run(After(msgs, ops[0]), ops[1..])
  }

  /** One operation more: a question, what a turn adds, or what truncation leaves. */
  lemma {:induction false} RunNext(msgs: seq<Message>, ops: seq<Operation>, op: Operation)
    ensures var h := Run(msgs, ops);
      Run(msgs, ops + [op]) == match op
        case Ask(content) => h + [Message(User, content, [], [], [])]
        case TakeTurn(w, maxRounds) => h + TurnFrom(w, h, 0, maxRounds).added
        case Shorten(max) => Truncated(h, max)
    decreases |ops|
  {
    hide TurnFrom;
    hide Truncated;
    if ops == [] {
      assert ops + [op] == [op] && [op][1..] == [];
    } else {
      assert (ops + [op])[1..] == ops[1..] + [op];
      RunNext(After(msgs, ops[0]), ops[1..], op);
    }
  }

  /** With tools that never throw, the history stays paired over every run of questions, turns and truncations. */
  lemma {:induction false} RunKeepsPairing(msgs: seq<Message>, ops: seq<Operation>)
    requires Paired(msgs) && forall i | 0 <= i < |ops| && ops[i].TakeTurn? :: NeverThrows(ops[i].w.dispatch)
    ensures Paired(Run(msgs, ops))
    decreases |ops|
  {
    hide TurnFrom;
    hide Truncated;
    hide NeverThrows;
    if ops != [] {
      match ops[0] {
        case Ask(content) =>
          PairedOne(UserMessage(content));
          PairedAppend(msgs, [UserMessage(content)]);
        case TakeTurn(w, maxRounds) =>
          SafeTurn(w, msgs, 0, maxRounds);
          TurnKeepsPairing(w, msgs, 0, maxRounds);
        case Shorten(max) =>
          TruncationKeepsPairing(msgs, max);
      }
      RunKeepsPairing(After(msgs, ops[0]), ops[1..]);
    }
  }
}
