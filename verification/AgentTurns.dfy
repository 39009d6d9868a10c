/**
 What a turn of the agent says, as a transcript: rounds in which the model calls tools, one after the
 other, and one of the ways to end. Whatever the model, the tools and the history are, there is exactly one.
 */
module AgentTurns {
  import opened Search
  import opened Wrappers
  import opened ToolCalls
  import opened Conversation

  /** A round of calls: what the model was asked, what it answered, what it called and what came of it. */
  datatype Exchange = Exchange(request: string, response: string, calls: seq<ToolCall>, outputs: seq<string>)

  /** That is what happens in this round, on top of these messages. */
  predicate Held(w: World, msgs: seq<Message>, round: nat, x: Exchange)
  {
    && w.request(msgs) == Some(x.request)
    && w.infer(round, x.request) == Response(x.response)
    && w.toolCalls(x.response) == Some(x.calls)
    && x.calls != [] && |x.outputs| == |x.calls|
    && forall k | 0 <= k < |x.calls| :: w.dispatch(round, k, x.calls[k]) == Some(x.outputs[k])
  }

  /** An output as the model gets to see it. */
  function Shown(output: string): string
  {
    if |output| <= 4000 then output else output[..4000] + "...(truncated)"
  }

  /** The request and the results so far. */
  function Logged(calls: seq<ToolCall>, outputs: seq<string>): seq<Message>
    requires |outputs| <= |calls|
  {
    [Message(Assistant, [], [], [], calls)]
    + seq(|outputs|, k requires 0 <= k < |outputs| =>
        Message(Tool, Shown(outputs[k]), calls[k].id, calls[k].name, []))
  }

  predicate Complete(xs: seq<Exchange>)
  {
    forall i | 0 <= i < |xs| :: |xs[i].outputs| == |xs[i].calls|
  }

  function Log(xs: seq<Exchange>): seq<Message>
    requires Complete(xs)
  {
    if xs == [] then [] else Logged(xs[0].calls, xs[0].outputs) + Log(xs[1..])
  }

  predicate AllHeld(w: World, msgs: seq<Message>, round: nat, xs: seq<Exchange>)
    decreases |xs|
  {
    xs == []
    || (Held(w, msgs, round, xs[0])
        && AllHeld(w, msgs + Logged(xs[0].calls, xs[0].outputs), round + 1, xs[1..]))
  }

  lemma {:induction false} HeldComplete(w: World, msgs: seq<Message>, round: nat, xs: seq<Exchange>)
    requires AllHeld(w, msgs, round, xs)
    ensures Complete(xs)
    decreases |xs|
  {
    hide Held;
    hide Logged;
    if xs != [] {
      assert |xs[0].outputs| == |xs[0].calls| by { HeldOne(w, msgs, round, xs[0]); }
      HeldComplete(w, msgs + Logged(xs[0].calls, xs[0].outputs), round + 1, xs[1..]);
      assert forall i | 1 <= i < |xs| :: xs[i] == xs[1..][i - 1];
    }
  }

  lemma HeldOne(w: World, msgs: seq<Message>, round: nat, x: Exchange)
    requires Held(w, msgs, round, x)
    ensures |x.outputs| == |x.calls|
  {
  }

  /** How a turn can end: after its last round, without another inference, or in the midst of one. */
  datatype Ending =
    | RoundsUsedUp
    | RequestThrew
    | InferenceThrew(what: string)
    | InferenceThrewUnknown
    | CallsThrew
    | ContentThrew
    | Answer(content: string)
    | DispatchThrew(calls: seq<ToolCall>, outputs: seq<string>)

  /** That is what happens instead of another round of calls. */
  predicate Ended(w: World, msgs: seq<Message>, round: nat, maxRounds: int, e: Ending)
  {
    if round >= maxRounds then e == RoundsUsedUp
    else
      match w.request(msgs)
      case None => e == RequestThrew
      case Some(request) =>
        match w.infer(round, request)
        case Failed(what) => e == InferenceThrew(what)
        case FailedUnknown => e == InferenceThrewUnknown
        case Response(response) =>
          match w.toolCalls(response)
          case None => e == CallsThrew
          case Some(calls) =>
            if calls == [] then
              match w.content(response)
              case None => e == ContentThrew
              case Some(content) => e == Answer(content)
            else
              && e.DispatchThrew? && e.calls == calls && |e.outputs| < |calls|
              && (forall k | 0 <= k < |e.outputs| :: w.dispatch(round, k, calls[k]) == Some(e.outputs[k]))
              && w.dispatch(round, |e.outputs|, calls[|e.outputs|]) == None
  }

  /** The messages that this adds, what the caller gets, and whether the model was asked once more. */
  predicate Told(e: Ending, added: seq<Message>, outcome: Conversation.Outcome, asked: nat)
  {
    match e
    case RoundsUsedUp => added == [] && outcome == Exhausted && asked == 0
    case RequestThrew => added == [] && outcome == Threw(AtRequest) && asked == 0
    case InferenceThrew(what) =>
      var text := "[Inference error: " + what + "]";
      added == [Message(Assistant, text, [], [], [])] && outcome == Said(text) && asked == 1
    case InferenceThrewUnknown =>
      added == [Message(Assistant, "[Inference error: unknown]", [], [], [])]
      && outcome == Said("[Inference error: unknown]") && asked == 1
    case CallsThrew => added == [] && outcome == Threw(AtToolCalls) && asked == 1
    case ContentThrew => added == [] && outcome == Threw(AtContent) && asked == 1
    case Answer(content) =>
      var text := if Stripped(content) == [] then "[No response from inference engine]" else Stripped(content);
      added == [Message(Assistant, text, [], [], [])] && outcome == Said(text) && asked == 1
    case DispatchThrew(calls, outputs) =>
      |outputs| <= |calls| && added == Logged(calls, outputs) && outcome == Threw(AtDispatch) && asked == 1
  }

  // ---------- The transcript decides the turn ----------

  lemma {:induction false} ResultsLogged(w: World, round: nat, calls: seq<ToolCall>, outputs: seq<string>, from: nat)
    requires from <= |outputs| <= |calls|
    requires forall k | 0 <= k < |outputs| :: w.dispatch(round, k, calls[k]) == Some(outputs[k])
    requires |outputs| == |calls| || w.dispatch(round, |outputs|, calls[|outputs|]) == None
    ensures Results(w, round, calls, from)
         == seq(|outputs| - from, k requires 0 <= k < |outputs| - from =>
              Message(Tool, Shown(outputs[from + k]), calls[from + k].id, calls[from + k].name, []))
    decreases |outputs| - from
  {
    hide Clipped;
    hide Shown;
    if from < |outputs| {
      ShownClipped(outputs[from]);
      ResultsLogged(w, round, calls, outputs, from + 1);
    }
  }

  lemma ShownClipped(output: string)
    ensures Clipped(output) == Shown(output)
  {
  }

  lemma LoggedResults(w: World, round: nat, calls: seq<ToolCall>, outputs: seq<string>)
    requires |outputs| <= |calls|
    requires forall k | 0 <= k < |outputs| :: w.dispatch(round, k, calls[k]) == Some(outputs[k])
    requires |outputs| == |calls| || w.dispatch(round, |outputs|, calls[|outputs|]) == None
    ensures [CallMessage(calls)] + Results(w, round, calls, 0) == Logged(calls, outputs)
    ensures |Logged(calls, outputs)| == |outputs| + 1
  {
    hide Shown;
    ResultsLogged(w, round, calls, outputs, 0);
  }

  lemma HeldRound(w: World, msgs: seq<Message>, round: nat, x: Exchange)
    requires Held(w, msgs, round, x)
    ensures RoundOf(w, msgs, round) == GoesOn(Logged(x.calls, x.outputs))
  {
    hide Results;
    hide Logged;
    LoggedResults(w, round, x.calls, x.outputs);
  }

  lemma EndedRound(w: World, msgs: seq<Message>, round: nat, maxRounds: int, e: Ending)
    requires round < maxRounds && Ended(w, msgs, round, maxRounds, e)
    ensures RoundOf(w, msgs, round).Ends?
    ensures var turn := RoundOf(w, msgs, round).turn;
      round <= turn.inferences && Told(e, turn.added, turn.outcome, turn.inferences - round)
  {
    hide Results;
    hide Logged;
    hide Stripped;
    hide FinalText;
    hide ErrorText;
    match e {
      case InferenceThrew(what) => ErrorTexts(what);
      case InferenceThrewUnknown => ErrorTexts([]);
      case Answer(content) => FinalTextIs(content);
      case DispatchThrew(calls, outputs) => LoggedResults(w, round, calls, outputs);
      case _ =>
    }
  }

  lemma ErrorTexts(what: string)
    ensures ErrorText(Failed(what)) == "[Inference error: " + what + "]"
    ensures ErrorText(FailedUnknown) == "[Inference error: unknown]"
  {
  }

  lemma FinalTextIs(content: string)
    ensures FinalText(content)
         == if Stripped(content) == [] then "[No response from inference engine]" else Stripped(content)
  {
    hide Stripped;
  }

  /** The rounds that were held, and the ending: that is what the turn adds, says and costs. */
  lemma {:induction false} TurnTold(w: World, msgs: seq<Message>, round: nat, maxRounds: int, xs: seq<Exchange>,
                                    e: Ending)
    requires AllHeld(w, msgs, round, xs) && Complete(xs) && (xs != [] ==> round + |xs| <= maxRounds)
    requires Ended(w, msgs + Log(xs), round + |xs|, maxRounds, e)
    ensures var turn := TurnFrom(w, msgs, round, maxRounds);
      exists last, asked: nat ::
        && turn.added == Log(xs) + last && turn.inferences == round + |xs| + asked
        && Told(e, last, turn.outcome, asked)
    decreases |xs|
  {
    hide Held;
    hide Ended;
    hide Told;
    hide RoundOf;
    hide Logged;
    var turn := TurnFrom(w, msgs, round, maxRounds);
    TurnNext(w, msgs, round, maxRounds);
    if xs == [] {
      assert msgs + Log(xs) == msgs && Log(xs) + turn.added == turn.added;
      if round >= maxRounds {
        UsedUp(w, msgs, round, maxRounds, e);
        assert Told(e, turn.added, turn.outcome, 0);
      } else {
        EndedRound(w, msgs, round, maxRounds, e);
        assert Told(e, turn.added, turn.outcome, turn.inferences - round);
      }
    } else {
      var added := Logged(xs[0].calls, xs[0].outputs);
      HeldRound(w, msgs, round, xs[0]);
      assert msgs + Log(xs) == msgs + added + Log(xs[1..]);
      assert forall i | 0 <= i < |xs[1..]| :: xs[1..][i] == xs[i + 1];
      TurnTold(w, msgs + added, round + 1, maxRounds, xs[1..], e);
      var rest := TurnFrom(w, msgs + added, round + 1, maxRounds);
      var last, asked: nat :| rest.added == Log(xs[1..]) + last && rest.inferences == round + |xs| + asked
        && Told(e, last, rest.outcome, asked);
      assert turn.added == Log(xs) + last;
    }
  }

  lemma UsedUp(w: World, msgs: seq<Message>, round: nat, maxRounds: int, e: Ending)
    requires round >= maxRounds && Ended(w, msgs, round, maxRounds, e)
    ensures Told(e, [], Exhausted, 0)
  {
  }

  // ---------- Every turn has one ----------

  lemma {:induction false} Outputs(w: World, round: nat, calls: seq<ToolCall>, from: nat) returns (outputs: seq<string>)
    requires from <= |calls|
    ensures |outputs| <= |calls| - from
    ensures forall k | 0 <= k < |outputs| :: w.dispatch(round, from + k, calls[from + k]) == Some(outputs[k])
    ensures from + |outputs| == |calls| || w.dispatch(round, from + |outputs|, calls[from + |outputs|]) == None
    decreases |calls| - from
  {
    if from == |calls| || w.dispatch(round, from, calls[from]) == None {
      outputs := [];
    } else {
      var rest := Outputs(w, round, calls, from + 1);
      outputs := [w.dispatch(round, from, calls[from]).value] + rest;
    }
  }

  /** A round holds calls with all their results, or ends the turn. */
  lemma OneRound(w: World, msgs: seq<Message>, round: nat, maxRounds: int) returns (xs: seq<Exchange>, e: Ending)
    ensures |xs| <= 1 && (xs == [] ==> Ended(w, msgs, round, maxRounds, e))
    ensures xs != [] ==> round < maxRounds && Held(w, msgs, round, xs[0])
  {
    xs, e := [], RoundsUsedUp;
    if round < maxRounds {
      match w.request(msgs)
      case None => e := RequestThrew;
      case Some(request) =>
        match w.infer(round, request)
        case Failed(what) => e := InferenceThrew(what);
        case FailedUnknown => e := InferenceThrewUnknown;
        case Response(response) =>
          match w.toolCalls(response)
          case None => e := CallsThrew;
          case Some(calls) =>
            if calls == [] {
              match w.content(response)
              case None => e := ContentThrew;
              case Some(content) => e := Answer(content);
            } else {
              var outputs := Outputs(w, round, calls, 0);
              if |outputs| == |calls| {
                xs := [Exchange(request, response, calls, outputs)];
              } else {
                e := DispatchThrew(calls, outputs);
              }
            }
    }
  }

  lemma {:induction false} TranscriptExists(w: World, msgs: seq<Message>, round: nat, maxRounds: int)
    returns (xs: seq<Exchange>, e: Ending)
    ensures AllHeld(w, msgs, round, xs) && Complete(xs) && (xs != [] ==> round + |xs| <= maxRounds)
    ensures Ended(w, msgs + Log(xs), round + |xs|, maxRounds, e)
    decreases maxRounds - round
  {
    hide Held;
    hide Ended;
    hide Logged;
    xs, e := OneRound(w, msgs, round, maxRounds);
    if xs == [] {
      assert msgs + Log(xs) == msgs;
    } else {
      var x := xs[0];
      HeldOne(w, msgs, round, x);
      var added := Logged(x.calls, x.outputs);
      var rest;
      rest, e := TranscriptExists(w, msgs + added, round + 1, maxRounds);
      xs := [x] + rest;
      assert xs[1..] == rest;
      assert msgs + Log(xs) == msgs + added + Log(rest);
    }
  }

  // ---------- What the user is told ----------

  /**
   After any number of rounds of calls, a response without calls: what it says between blanks is what
   the turn says and stores, and the fallback is said exactly if that is nothing.
   */
  lemma AnswerIsSaid(w: World, msgs: seq<Message>, maxRounds: int, xs: seq<Exchange>, request: string,
                     response: string, before: string, core: string, after: string)
    requires AllHeld(w, msgs, 0, xs) && Complete(xs) && |xs| < maxRounds
    requires w.request(msgs + Log(xs)) == Some(request) && w.infer(|xs|, request) == Response(response)
    requires w.toolCalls(response) == Some([]) && w.content(response) == Some(before + core + after)
    requires AllBlank(before) && AllBlank(after) && (core == [] || Solid(core))
    requires Avoids(core, START) && Avoids(core, END)
    ensures var turn := TurnFrom(w, msgs, 0, maxRounds);
      var text := if core == [] then "[No response from inference engine]" else core;
      && turn.outcome == Said(text) && turn.inferences == |xs| + 1
      && turn.added == Log(xs) + [Message(Assistant, text, [], [], [])]
  {
    hide Held;
    hide Stripped;
    hide Avoids;
    hide AllBlank;
    CoreKept(before, core, after);
    TurnTold(w, msgs, 0, maxRounds, xs, Answer(before + core + after));
  }

  /** The same without calls before: the first response is the answer. */
  lemma FirstAnswerIsSaid(w: World, msgs: seq<Message>, maxRounds: int, request: string, response: string,
                          before: string, core: string, after: string)
    requires maxRounds >= 1 && w.request(msgs) == Some(request) && w.infer(0, request) == Response(response)
    requires w.toolCalls(response) == Some([]) && w.content(response) == Some(before + core + after)
    requires AllBlank(before) && AllBlank(after) && (core == [] || Solid(core))
    requires Avoids(core, START) && Avoids(core, END)
    ensures var text := if core == [] then "[No response from inference engine]" else core;
      TurnFrom(w, msgs, 0, maxRounds) == Turn([Message(Assistant, text, [], [], [])], Said(text), 1)
  {
    hide Avoids;
    hide AllBlank;
    hide TurnFrom;
    assert msgs + Log([]) == msgs;
    AnswerIsSaid(w, msgs, maxRounds, [], request, response, before, core, after);
    assert forall m: Message :: [] + [m] == [m];
  }
}
