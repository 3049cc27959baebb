/**
 * `conversational_ai/chat.py`: an interactive chat with the model. The user's
 * turn is appended to the history, a prompt is built from a window of the
 * history, the model's predictions are post-processed into a reply, and the
 * whole conversation is saved once it is long enough.
 */
module Chat {
  import opened Wrappers
  import opened Py
  import opened PyStr
  import opened PySlice
  import opened Chitchat
  import opened ConvoUtils

  /** The arguments of `chat_interactively` that shape prompts, replies and the transcript. */
  datatype Settings = Settings(
    conversationPrefix: string,
    turnPrefixes: seq<string>,
    turnSuffix: string,
    contextWindow: int,
    saveThreshold: int,
    outputTurnPrefixes: seq<string>)

  /** `prepend_cycle` is only defined for a non-empty list of prefixes. */
  predicate WellFormed(s: Settings) {
    |s.turnPrefixes| > 0 && |s.outputTurnPrefixes| > 0
  }

  /** `history[-context_window:]` */
  function Window(history: seq<string>, contextWindow: int): seq<string> {
    From(history, -contextWindow)
  }

  /** A positive window keeps the last `min(k, |history|)` turns, in order. */
  lemma WindowKeepsLast(history: seq<string>, k: int)
    requires k > 0
    ensures var m := if k <= |history| then k else |history|;
            Window(history, k) == history[|history| - m..] && |Window(history, k)| == m
  {
  }

  /** A window of 0 is the whole history, since `history[-0:]` is `history[0:]`. */
  lemma WindowZeroIsWhole(history: seq<string>)
    ensures Window(history, 0) == history
  {
  }

  /** A negative window drops the first `-k` turns instead. */
  lemma WindowNegativeDropsFirst(history: seq<string>, k: int)
    requires k < 0
    ensures var m := if -k <= |history| then -k else |history|;
            Window(history, k) == history[m..]
  {
  }

  /** The one prompt of the batch sent to the model. */
  function Prompt(s: Settings, history: seq<string>): string
    requires |s.turnPrefixes| > 0
  {
    s.conversationPrefix + Join(s.turnSuffix, PrependCycle(Window(history, s.contextWindow), s.turnPrefixes))
  }

  /** The prompt is the window rendered as `convo_as_str` renders a conversation, with an empty suffix. */
  lemma PromptIsConvoAsStr(s: Settings, history: seq<string>)
    requires |s.turnPrefixes| > 0
    ensures Prompt(s, history) ==
            ConvoAsStr(Window(history, s.contextWindow), s.conversationPrefix, "", s.turnPrefixes, s.turnSuffix)
  {
  }

  /**
   * Prefixes go by position in the window: with an odd history and an even
   * window shorter than it, the first windowed turn is a model turn and still
   * carries `turn_prefixes[0]`.
   */
  lemma PrefixByWindowPosition(s: Settings, history: seq<string>)
    requires |s.turnPrefixes| > 0
    requires |history| % 2 == 1 && s.contextWindow % 2 == 0 && 0 < s.contextWindow < |history|
    ensures var w := PrependCycle(Window(history, s.contextWindow), s.turnPrefixes);
            var first := |history| - s.contextWindow;
            first % 2 == 1 && |w| == s.contextWindow && w[0] == s.turnPrefixes[0] + history[first]
  {
    WindowKeepsLast(history, s.contextWindow);
  }

  /** Lines 57-60: join the predictions, cut at the first human prefix, remove every model prefix, strip. */
  function Postprocess(predictions: seq<string>, turnPrefixes: seq<string>): (r: Result<string, PyError>)
    ensures |turnPrefixes| == 0 ==> r == Err(IndexError)
    ensures |turnPrefixes| >= 1 && turnPrefixes[0] == "" ==> r.Err? && r.error.ValueError?
    ensures |turnPrefixes| == 1 && turnPrefixes[0] != "" ==> r == Err(IndexError)
    ensures |turnPrefixes| >= 2 && turnPrefixes[0] != "" ==> r.Ok? && IsStripped(r.value)
  {
    var prediction := Join("\n", predictions);
    if |turnPrefixes| == 0 then Err(IndexError)
    else if turnPrefixes[0] == "" then Err(ValueError("empty separator"))
    else
      var cut := Split(prediction, turnPrefixes[0])[0];
      if |turnPrefixes| < 2 then Err(IndexError)
      else Ok(Strip(Replace(cut, turnPrefixes[1], "")))
  }

  /** `cut` is the prefix of `joined` that stops where `human` first occurs, or all of it when `human` does not. */
  predicate IsCut(joined: string, human: string, cut: string) {
    |cut| <= |joined| && cut == joined[..|cut|] && !Contains(cut, human) &&
    (|cut| < |joined| ==> OccursAt(joined, human, |cut|))
  }

  /**
   * The reply is made from the longest prefix of the joined predictions
   * without the human prefix, the one that stops where the human prefix first occurs.
   */
  lemma PostprocessCutsAtHumanPrefix(predictions: seq<string>, turnPrefixes: seq<string>)
    requires |turnPrefixes| >= 2 && turnPrefixes[0] != ""
    ensures exists cut :: IsCut(Join("\n", predictions), turnPrefixes[0], cut) &&
              Postprocess(predictions, turnPrefixes) == Ok(Strip(Replace(cut, turnPrefixes[1], "")))
  {
    var joined := Join("\n", predictions);
    FirstPieceOfSplit(joined, turnPrefixes[0]);
    assert IsCut(joined, turnPrefixes[0], Split(joined, turnPrefixes[0])[0]);
  }

  /** A reply holding neither prefix is only stripped. */
  lemma PostprocessWithoutMarkers(predictions: seq<string>, turnPrefixes: seq<string>)
    requires |turnPrefixes| >= 2 && turnPrefixes[0] != "" && turnPrefixes[1] != ""
    requires !Contains(Join("\n", predictions), turnPrefixes[0])
    requires !Contains(Join("\n", predictions), turnPrefixes[1])
    ensures Postprocess(predictions, turnPrefixes) == Ok(Strip(Join("\n", predictions)))
  {
    var joined := Join("\n", predictions);
    SplitAbsent(joined, turnPrefixes[0]);
    ReplaceAbsent(joined, turnPrefixes[0 + 1], "");
  }

  const SpeakerPrefixes: seq<string> := ["speaker1>", "speaker2>"]

  /** With one prediction, the reply is what precedes the first human prefix, without model prefixes, stripped. */
  lemma PostprocessCutAt(t: string, turnPrefixes: seq<string>, i: nat)
    requires |turnPrefixes| >= 2 && turnPrefixes[0] != ""
    requires OccursAt(t, turnPrefixes[0], i)
    requires forall j :: 0 <= j < i ==> !OccursAt(t, turnPrefixes[0], j)
    ensures Postprocess([t], turnPrefixes) == Ok(Strip(Replace(t[..i], turnPrefixes[1], "")))
  {
    assert Join("\n", [t]) == t;
    FindFirst(t, turnPrefixes[0], i);
    SplitAt(t, turnPrefixes[0], i);
  }

  /** A marker-free reply comes back unchanged (the second case of `test_postprocess_response`). */
  lemma PostprocessKeepsPlainReply()
    ensures Postprocess(["I don't think so. Dang it."], SpeakerPrefixes) == Ok("I don't think so. Dang it.")
  {
    var t := "I don't think so. Dang it.";
    assert '>' !in t;
    assert IsStripped(t) by {
      assert t[0] == 'I' && t[|t| - 1] == '.';
    }
    PlainSpeakerReply(t);
  }

  /** A stripped reply without `>` holds neither speaker prefix, so it comes back as it is. */
  lemma PlainSpeakerReply(t: string)
    requires '>' !in t && IsStripped(t)
    ensures Postprocess([t], SpeakerPrefixes) == Ok(t)
  {
    assert Join("\n", [t]) == t;
    MissingCharNotContained(t, SpeakerPrefixes[0], 8);
    MissingCharNotContained(t, SpeakerPrefixes[1], 8);
    StripStripped(t);
    PostprocessWithoutMarkers([t], SpeakerPrefixes);
  }

  /**
   * A model turn followed by a human turn: the model prefix goes, the reply
   * is cut where the human prefix starts, and the padding is stripped. The
   * character `human[k]` must not occur before its place in that human prefix,
   * and `model[m]` not at all in the padded reply.
   */
  lemma PostprocessModelTurn(model: string, core: string, human: string, tail: string, k: nat, m: nat)
    requires k < |human| && human[k] !in model + " " + core + " " + human[..k]
    requires m < |model| && model[m] !in " " + core + " "
    requires IsStripped(core) && core != ""
    ensures Postprocess([model + " " + core + " " + human + tail], [human, model]) == Ok(core)
  {
    var before := model + " " + core + " ";
    PostprocessCutAfter(before, human, tail, model, k);
    CleanModelTurn(model, core, m);
  }

  /** The reply is what precedes the human prefix when that prefix first occurs right after `before`. */
  lemma PostprocessCutAfter(before: string, human: string, tail: string, model: string, k: nat)
    requires k < |human| && human[k] !in before + human[..k]
    ensures Postprocess([before + human + tail], [human, model]) == Ok(Strip(Replace(before, model, "")))
  {
    var t := before + human + tail;
    HumanFirstAfter(before, human, tail, k);
    PostprocessCutAt(t, [human, model], |before|);
    assert t[..|before|] == before;
  }

  /**
   * The human prefix first occurs right after `before` when one of its
   * characters, `human[k]`, occurs neither in `before` nor earlier in the prefix.
   */
  lemma HumanFirstAfter(before: string, human: string, tail: string, k: nat)
    requires k < |human| && human[k] !in before + human[..k]
    ensures OccursAt(before + human + tail, human, |before|)
    ensures forall j :: 0 <= j < |before| ==> !OccursAt(before + human + tail, human, j)
  {
    var t := before + human + tail;
    assert t[|before|..|before| + |human|] == human;
    forall j | 0 <= j < |before| + k && j < |t|
      ensures t[j] != human[k]
    {
      assert t[j] == (before + human[..k])[j];
    }
    NoOccurrenceBefore(t, human, k, |before|);
  }

  /** Removing the model prefix from a padded reply and stripping leaves the reply. */
  lemma CleanModelTurn(model: string, core: string, m: nat)
    requires m < |model| && model[m] !in " " + core + " "
    requires IsStripped(core) && core != ""
    ensures Strip(Replace(model + " " + core + " ", model, "")) == core
  {
    var rest := " " + core + " ";
    assert model + " " + core + " " == model + rest;
    ReplaceLeading(model, rest, "");
    MissingCharNotContained(rest, model, m);
    ReplaceAbsent(rest, model, "");
    assert "" + rest == rest;
    StripPadded(" ", core, " ");
  }

  /** The reply of the fourth case of `test_postprocess_response`. */
  const CoolReply := "So what a " + "cool-me-do " + "would you say that?"

  /** The fourth case of `test_postprocess_response`: the reply between the model's prefix and the human's. */
  lemma PostprocessCutsHumanTurn()
    ensures Postprocess(["speaker2>" + " " + CoolReply + " " + "speaker1>" + " I'm not that familiar with LesCola"],
                        SpeakerPrefixes)
            == Ok(CoolReply)
  {
    PlainReplyText();
    SpeakerReplyCut(CoolReply, " I'm not that familiar with LesCola");
  }

  /** That reply names neither speaker and starts and ends with text. */
  lemma PlainReplyText()
    ensures '1' !in CoolReply && '2' !in CoolReply && IsStripped(CoolReply) && CoolReply != ""
  {
    var x, y, z := "So what a ", "cool-me-do ", "would you say that?";
    assert '1' !in x && '2' !in x;
    assert '1' !in y && '2' !in y;
    assert '1' !in z && '2' !in z;
    assert CoolReply == x + y + z;
    assert CoolReply[0] == x[0] && CoolReply[|CoolReply| - 1] == z[|z| - 1];
  }

  /** With the speaker prefixes, a padded reply after the model's prefix is cut at the human's. */
  lemma SpeakerReplyCut(core: string, tail: string)
    requires '1' !in core && '2' !in core && IsStripped(core) && core != ""
    ensures Postprocess(["speaker2>" + " " + core + " " + "speaker1>" + tail], SpeakerPrefixes) == Ok(core)
  {
    HumanMarkAbsent(core);
    ModelMarkAbsent(core);
    PostprocessModelTurn("speaker2>", core, "speaker1>", tail, 7, 7);
  }

  /** The digit of the human prefix occurs neither in a reply without it nor in what precedes the digit. */
  lemma HumanMarkAbsent(core: string)
    requires '1' !in core
    ensures '1' !in "speaker2>" + " " + core + " " + "speaker1>"[..7]
  {
    assert "speaker1>"[..7] == "speaker";
  }

  /** The digit of the model prefix does not occur in a padded reply without it. */
  lemma ModelMarkAbsent(core: string)
    requires '2' !in core
    ensures '2' !in " " + core + " "
  {
  }

  /**
   * Removing a one-character model prefix can bring the two halves of a
   * human prefix together, so the reply may contain the human prefix.
   */
  lemma ReplyMayHoldHumanPrefix(a: string, x: string, b: string)
    requires |x| == 1 && !Contains(a, x) && !Contains(b, x)
    requires !Contains(a + x + b, a + b) && a + b != ""
    requires IsStripped(a + b)
    ensures Postprocess([a + x + b], [a + b, x]) == Ok(a + b)
    ensures Contains(a + b, a + b)
  {
    var t := a + x + b;
    assert Join("\n", [t]) == t;
    SplitAbsent(t, a + b);
    RemoveOneChar(a, x, b);
    StripStripped(a + b);
    assert OccursAt(a + b, a + b, 0);
  }

  /** Removing a one-character pattern that occurs once brings its two sides together. */
  lemma RemoveOneChar(a: string, x: string, b: string)
    requires |x| == 1 && !Contains(a, x) && !Contains(b, x)
    ensures Replace(a + x + b, x, "") == a + b
  {
    var t := a + x + b;
    FindAfterFree(a, x, b);
    assert t[..|a|] == a && t[|a| + |x|..] == b;
    RemoveOnly(t, x, |a|, a, b);
  }

  /** For instance `"aXb"` with prefixes `["ab", "X"]` gives the reply `"ab"`. */
  lemma ReplyMayHoldHumanPrefixExample()
    ensures Postprocess(["a" + "X" + "b"], ["a" + "b", "X"]) == Ok("a" + "b")
  {
    MissingCharNotContained("a", "X", 0);
    MissingCharNotContained("b", "X", 0);
    assert !Contains("a" + "X" + "b", "a" + "b") by {
      var t := "a" + "X" + "b";
      assert t[0..2][1] != 'b' && t[1..3][0] != 'a';
    }
    assert IsStripped("a" + "b");
    ReplyMayHoldHumanPrefix("a", "X", "b");
  }

  /** One line read by `input`, or Ctrl-C; the end of the sequence is the end of input. */
  datatype ConsoleEvent = Line(text: string) | Interrupt

  /**
   * What `t5_model.predict` does for one batch: replies, a Ctrl-C while it
   * runs, or an exception. A predictor `predict` is given the number of turns
   * so far first: `predict(n)` is the model as it answers the call made
   * after `n` turns, so that each call may meet a different model:
   * `step="latest"` is looked up again on every call, and a checkpoint written
   * during the session can answer the same prompt differently.
   */
  datatype Prediction = Predicted(lines: seq<string>) | PredictInterrupted | PredictFailed(error: PyError)

  /** How `chat_interactively` ends: returning the history, or raising with the history as it stood. */
  datatype Exit = Returned(history: seq<string>) | Raised(error: PyError, history: seq<string>)

  /** What one model turn after `history` gives: a reply, Ctrl-C, or an exception. */
  datatype Response = Reply(text: string) | Interrupted | Failed(error: PyError)

  /** Lines 53-60 for the history with the user's turn appended. */
  function Respond(s: Settings, predict: nat -> seq<string> -> Prediction, history: seq<string>): Response
    requires |s.turnPrefixes| > 0
  {
    match predict(|history|)([Prompt(s, history)])
    case PredictInterrupted => Interrupted
    case PredictFailed(e) => Failed(e)
    case Predicted(lines) =>
      match Postprocess(lines, s.turnPrefixes)
      case Ok(reply) => Reply(reply)
      case Err(e) => Failed(e)
  }

  /**
   * What a model turn answers to the prediction `p`: Ctrl-C and exceptions of
   * `predict` pass through; an empty human prefix fails as `split` does and a
   * lone prefix as `turn_prefixes[1]` does; otherwise the reply is stripped and
   * is the joined predictions cut before the first human prefix, with every
   * model prefix removed.
   */
  ghost predicate Answers(s: Settings, p: Prediction, response: Response)
    requires |s.turnPrefixes| > 0
  {
    (p.PredictInterrupted? ==> response == Interrupted) &&
    (p.PredictFailed? ==> response == Failed(p.error)) &&
    (p.Predicted? && s.turnPrefixes[0] == "" ==> response.Failed? && response.error.ValueError?) &&
    (p.Predicted? && |s.turnPrefixes| == 1 && s.turnPrefixes[0] != "" ==> response == Failed(IndexError)) &&
    (p.Predicted? && |s.turnPrefixes| >= 2 && s.turnPrefixes[0] != "" ==>
       response.Reply? && IsStripped(response.text) &&
       exists cut :: IsCut(Join("\n", p.lines), s.turnPrefixes[0], cut) &&
         response.text == Strip(Replace(cut, s.turnPrefixes[1], "")))
  }

  /** How the model answers any history is what `Answers` describes for the prediction on its prompt. */
  lemma RespondAnswers(s: Settings, predict: nat -> seq<string> -> Prediction, history: seq<string>)
    requires |s.turnPrefixes| > 0
    ensures Answers(s, predict(|history|)([Prompt(s, history)]), Respond(s, predict, history))
  {
    var p := predict(|history|)([Prompt(s, history)]);
    if p.Predicted? && |s.turnPrefixes| >= 2 && s.turnPrefixes[0] != "" {
      PostprocessCutsAtHumanPrefix(p.lines, s.turnPrefixes);
    }
  }

  /**
   * One model turn of the loop: the one prompt sent renders the window as
   * `convo_as_str` does with an empty suffix, and the response is what
   * `Answers` describes for the prediction on it.
   */
  method Exchange(s: Settings, predict: nat -> seq<string> -> Prediction, history: seq<string>) returns (response: Response)
    requires |s.turnPrefixes| > 0
    ensures response == Respond(s, predict, history)
    ensures Prompt(s, history) == ConvoAsStr(Window(history, s.contextWindow), s.conversationPrefix, "", s.turnPrefixes, s.turnSuffix)
    ensures Answers(s, predict(|history|)([Prompt(s, history)]), response)
  {
    var prompt := Prompt(s, history);
    PromptIsConvoAsStr(s, history);
    var prediction := predict(|history|)([prompt]);
    match prediction {
      case PredictInterrupted =>
        response := Interrupted;
      case PredictFailed(e) =>
        response := Failed(e);
      case Predicted(lines) =>
        var reply := Postprocess(lines, s.turnPrefixes);
        response := if reply.Ok? then Reply(reply.value) else Failed(reply.error);
    }
    RespondAnswers(s, predict, history);
  }

  /** `Respond` as a function value: how the model answers any history. */
  function Responder(s: Settings, predict: nat -> seq<string> -> Prediction): seq<string> -> Response
    requires |s.turnPrefixes| > 0
  {
    h => Respond(s, predict, h)
  }

  /** The session from `history` on, as a function of the remaining console events and of how the model answers. */
  function Converse(events: seq<ConsoleEvent>, respond: seq<string> -> Response, history: seq<string>): Exit
    decreases |events|
  {
    if |events| == 0 then Returned(history)
    else
      match events[0]
      case Interrupt => Returned(history)
      case Line(inp) =>
        var h := history + [inp];
        match respond(h)
        case Interrupted => Returned(h)
        case Failed(e) => Raised(e, h)
        case Reply(reply) => Converse(events[1..], respond, h + [reply])
  }

  /** The history is never cut: it only grows, by at most two turns per console event. */
  lemma {:induction false} ConverseGrows(events: seq<ConsoleEvent>, respond: seq<string> -> Response,
                                         history: seq<string>)
    ensures var r := Converse(events, respond, history).history;
            |history| <= |r| <= |history| + 2 * |events| && r[..|history|] == history
    decreases |events|
  {
    if |events| > 0 && events[0].Line? {
      var h := history + [events[0].text];
      match respond(h)
      case Reply(reply) =>
        var h2 := h + [reply];
        ConverseGrows(events[1..], respond, h2);
        var r := Converse(events[1..], respond, h2).history;
        assert r[..|history|] == r[..|h2|][..|history|];
      case Interrupted =>
      case Failed(_) =>
    }
  }

  /** Ctrl-C at the prompt ends the session with the history as it stands. */
  lemma ConverseInterrupt(events: seq<ConsoleEvent>, respond: seq<string> -> Response, history: seq<string>)
    requires |events| > 0 && events[0] == Interrupt
    ensures Converse(events, respond, history) == Returned(history)
  {
  }

  /** A line that the model answers adds the exchange and moves on to the next event. */
  lemma ConverseReplyStep(events: seq<ConsoleEvent>, i: nat, respond: seq<string> -> Response, history: seq<string>,
                          inp: string, reply: string)
    requires i < |events| && events[i] == Line(inp) && respond(history + [inp]) == Reply(reply)
    ensures Converse(events[i..], respond, history) == Converse(events[i + 1..], respond, history + [inp] + [reply])
  {
    assert events[i..][0] == events[i];
    assert events[i..][1..] == events[i + 1..];
  }

  /** A line that the model does not answer ends the session with that line pending. */
  lemma ConverseStops(events: seq<ConsoleEvent>, respond: seq<string> -> Response, history: seq<string>,
                      inp: string)
    requires |events| > 0 && events[0] == Line(inp) && !respond(history + [inp]).Reply?
    ensures Converse(events, respond, history) ==
            if respond(history + [inp]).Interrupted? then Returned(history + [inp])
            else Raised(respond(history + [inp]).error, history + [inp])
  {
  }

  /** The user turns, at even distances from the start, are the lines typed, in order. */
  lemma {:induction false} ConverseUserTurns(events: seq<ConsoleEvent>, respond: seq<string> -> Response,
                                             history: seq<string>)
    ensures var r := Converse(events, respond, history).history;
            forall j :: 0 <= j && |history| + 2 * j < |r| ==> j < |events| && events[j] == Line(r[|history| + 2 * j])
    decreases |events|
  {
    ConverseGrows(events, respond, history);
    if |events| > 0 && events[0].Line? {
      var h := history + [events[0].text];
      match respond(h)
      case Reply(reply) =>
        var h2 := h + [reply];
        ConverseUserTurns(events[1..], respond, h2);
        ConverseGrows(events[1..], respond, h2);
        var r := Converse(events[1..], respond, h2).history;
        forall j | 0 <= j && |history| + 2 * j < |r|
          ensures j < |events| && events[j] == Line(r[|history| + 2 * j])
        {
          if j > 0 {
            assert events[1..][j - 1] == Line(r[|h2| + 2 * (j - 1)]);
          } else {
            assert r[|history|] == r[..|h2|][|history|];
          }
        }
      case Interrupted =>
      case Failed(_) =>
    }
  }

  /** Every model turn, at odd distances from the start, is the reply to the history before it. */
  lemma {:induction false} ConverseReplies(events: seq<ConsoleEvent>, respond: seq<string> -> Response,
                                           history: seq<string>)
    ensures var r := Converse(events, respond, history).history;
            forall j :: 0 <= j && |history| + 2 * j + 1 < |r| ==>
              respond(r[..|history| + 2 * j + 1]) == Reply(r[|history| + 2 * j + 1])
    decreases |events|
  {
    ConverseGrows(events, respond, history);
    if |events| > 0 && events[0].Line? {
      var h := history + [events[0].text];
      match respond(h)
      case Reply(reply) =>
        var h2 := h + [reply];
        ConverseReplies(events[1..], respond, h2);
        ConverseGrows(events[1..], respond, h2);
        var r := Converse(events[1..], respond, h2).history;
        forall j | 0 <= j && |history| + 2 * j + 1 < |r|
          ensures respond(r[..|history| + 2 * j + 1]) == Reply(r[|history| + 2 * j + 1])
        {
          var k := |history| + 2 * j + 1;
          if j > 0 {
            assert k == |h2| + 2 * (j - 1) + 1;
          } else {
            assert r[..k] == h by {
              assert r[..k] == r[..|h2|][..k];
            }
            assert r[k] == reply by {
              assert r[k] == r[..|h2|][k];
            }
          }
        }
      case Interrupted =>
      case Failed(_) =>
    }
  }

  /**
   * `x` stopped the session after `n` whole exchanges: with nothing more, at
   * the end of input or at Ctrl-C before the next turn; or with the user turn
   * of exchange `n` unanswered, at Ctrl-C during `predict` or when `predict`
   * or post-processing raised.
   */
  predicate StoppedAt(events: seq<ConsoleEvent>, respond: seq<string> -> Response, history: seq<string>,
                      x: Exit, n: nat)
  {
    n <= |events| &&
    ((|x.history| == |history| + 2 * n && x.Returned? && (n == |events| || events[n] == Interrupt)) ||
     (|x.history| == |history| + 2 * n + 1 && n < |events| &&
      ((respond(x.history) == Interrupted && x.Returned?) ||
       (respond(x.history).Failed? && x == Raised(respond(x.history).error, x.history)))))
  }

  /** Every session stops in one of the ways `StoppedAt` lists. */
  lemma {:induction false} ConverseEnds(events: seq<ConsoleEvent>, respond: seq<string> -> Response,
                                        history: seq<string>)
    ensures exists n :: StoppedAt(events, respond, history, Converse(events, respond, history), n)
    decreases |events|
  {
    var x := Converse(events, respond, history);
    if |events| > 0 && events[0].Line? {
      var h := history + [events[0].text];
      match respond(h)
      case Reply(reply) =>
        var h2 := h + [reply];
        ConverseEnds(events[1..], respond, h2);
        var m: nat :| StoppedAt(events[1..], respond, h2, x, m);
        if m < |events[1..]| {
          assert events[1..][m] == events[m + 1];
        }
        assert StoppedAt(events, respond, history, x, m + 1);
      case Interrupted =>
        assert StoppedAt(events, respond, history, x, 0);
      case Failed(_) =>
        assert StoppedAt(events, respond, history, x, 0);
    }
    else {
      assert StoppedAt(events, respond, history, x, 0);
    }
  }

  /** The history up to the last completed exchange. */
  function Completed(history: seq<string>): seq<string> {
    if |history| % 2 == 0 then history else history[..|history| - 1]
  }

  /** After `i` whole exchanges nothing is pending; one user turn more is pending. */
  lemma CompletedAfter(history: seq<string>, i: nat, inp: string)
    requires |history| == 2 * i
    ensures Completed(history) == history
    ensures Completed(history + [inp]) == history
  {
    assert |history + [inp]| % 2 == 1;
    assert (history + [inp])[..|history|] == history;
  }

  /** The transcript: the history with `output_turn_prefixes` cycled in front, one turn per line. */
  function Render(s: Settings, history: seq<string>): string
    requires |s.outputTurnPrefixes| > 0
  {
    Join("\n", PrependCycle(history, s.outputTurnPrefixes))
  }

  /** After `history` is complete, the transcript is saved iff there was a turn and it is long enough. */
  predicate Saves(s: Settings, history: seq<string>) {
    |history| >= 2 && |history| >= s.saveThreshold
  }

  class ChatSession {
    const settings: Settings
    /** The transcript path, `None` when `output_file` is `None`; it is formatted once, before the loop. */
    const outputFile: Option<string>
    /** `config_log_file` as given: `None` and `""` both disable the config log. */
    const configLogFile: Option<string>
    var history: seq<string>
    /** What the session last wrote to `outputFile`. */
    var transcript: Option<string>
    /** What the session wrote to the config log in `finally`. */
    var configLog: Option<string>

    constructor (settings: Settings, outputFile: Option<string>, configLogFile: Option<string>)
      requires WellFormed(settings)
      ensures this.settings == settings && this.outputFile == outputFile && this.configLogFile == configLogFile
      ensures history == [] && transcript == None && configLog == None
    {
      this.settings := settings;
      this.outputFile := outputFile;
      this.configLogFile := configLogFile;
      history := [];
      transcript := None;
      configLog := None;
    }

    /**
     * One pass of the loop body, for the event after `i` whole exchanges: the
     * history after it, and how the session ended if it did. `saved` is what
     * the transcript held before the session.
     */
    method Turn(events: seq<ConsoleEvent>, predict: nat -> seq<string> -> Prediction, i: nat, h: seq<string>,
                ghost saved: Option<string>)
      returns (next: seq<string>, outcome: Option<Exit>)
      requires WellFormed(settings)
      requires i < |events| && |h| == 2 * i
      requires Converse(events, Responder(settings, predict), []) == Converse(events[i..], Responder(settings, predict), h)
      requires transcript == if outputFile.Some? && Saves(settings, Completed(h))
                             then Some(Render(settings, Completed(h))) else saved
      modifies this
      ensures outcome.None? ==> |next| == 2 * (i + 1)
      ensures outcome.None? ==> Converse(events, Responder(settings, predict), []) == Converse(events[i + 1..], Responder(settings, predict), next)
      ensures outcome.Some? ==> outcome.value == Converse(events, Responder(settings, predict), []) &&
                                next == outcome.value.history
      ensures transcript == if outputFile.Some? && Saves(settings, Completed(next))
                            then Some(Render(settings, Completed(next))) else saved
      ensures history == old(history) && configLog == old(configLog)
    {
      ghost var respond := Responder(settings, predict);
      next := h;
      match events[i] {
        case Interrupt =>
          ConverseInterrupt(events[i..], respond, h);
          outcome := Some(Returned(h));
        case Line(inp) =>
          var response := Exchange(settings, predict, h + [inp]);
          next, outcome := Record(events, respond, i, h, inp, response, saved);
      }
    }

    /**
     * The rest of the loop body once the model has answered the user's turn
     * `inp` with `response`: a reply is appended, printed and saved once the
     * history is long enough; Ctrl-C returns and an exception propagates.
     */
    method Record(ghost events: seq<ConsoleEvent>, ghost respond: seq<string> -> Response, i: nat, h: seq<string>,
                  inp: string, response: Response, ghost saved: Option<string>)
      returns (next: seq<string>, outcome: Option<Exit>)
      requires WellFormed(settings)
      requires i < |events| && |h| == 2 * i && events[i] == Line(inp) && respond(h + [inp]) == response
      requires Converse(events, respond, []) == Converse(events[i..], respond, h)
      requires transcript == if outputFile.Some? && Saves(settings, Completed(h))
                             then Some(Render(settings, Completed(h))) else saved
      modifies this
      ensures outcome.None? ==> |next| == 2 * (i + 1)
      ensures outcome.None? ==> Converse(events, respond, []) == Converse(events[i + 1..], respond, next)
      ensures outcome.Some? ==> outcome.value == Converse(events, respond, []) && next == outcome.value.history
      ensures transcript == if outputFile.Some? && Saves(settings, Completed(next))
                            then Some(Render(settings, Completed(next))) else saved
      ensures history == old(history) && configLog == old(configLog)
    {
      next := h + [inp];
      CompletedAfter(h, i, inp);
      if response.Reply? {
        ConverseReplyStep(events, i, respond, h, inp, response.text);
        next := next + [response.text];
        CompletedAfter(next, i + 1, "");
        if outputFile.Some? && |next| >= settings.saveThreshold {
          transcript := Some(Render(settings, next));
        }
        outcome := None;
      } else {
        ConverseStops(events[i..], respond, h, inp);
        outcome := Some(if response.Interrupted? then Returned(next) else Raised(response.error, next));
      }
    }

    /**
     * The `try`/`while True` loop and its `finally`. `events` are the console
     * inputs, `predict` stands for `t5_model.predict` with this session's
     * model directory and step, and `configText` is `gin.config_str()`.
     */
    method Run(events: seq<ConsoleEvent>, predict: nat -> seq<string> -> Prediction, configText: string)
      returns (exit: Exit)
      requires WellFormed(settings)
      modifies this
      ensures exit == Converse(events, Responder(settings, predict), []) && history == exit.history
      ensures transcript == if outputFile.Some? && Saves(settings, Completed(history))
                            then Some(Render(settings, Completed(history))) else old(transcript)
      ensures configLog == if configLogFile.Some? && configLogFile.value != "" && |history| >= settings.saveThreshold
                           then Some(configText) else old(configLog)
    {
      ghost var respond := Responder(settings, predict);
      var h: seq<string> := [];
      var i := 0;
      var outcome: Option<Exit> := None;
      while outcome.None? && i < |events|
        invariant 0 <= i <= |events|
        invariant outcome.None? ==> |h| == 2 * i && Converse(events, respond, []) == Converse(events[i..], respond, h)
        invariant outcome.Some? ==> outcome.value == Converse(events, respond, []) && h == outcome.value.history
        invariant transcript == if outputFile.Some? && Saves(settings, Completed(h))
                                then Some(Render(settings, Completed(h))) else old(transcript)
        invariant configLog == old(configLog)
        decreases |events| - i, if outcome.None? then 1 else 0
      {
        h, outcome := Turn(events, predict, i, h, old(transcript));
        if outcome.None? {
          i := i + 1;
        }
      }
      if outcome.None? {
        outcome := Some(Returned(h));
      }
      history := h;
      exit := outcome.value;
      if configLogFile.Some? && configLogFile.value != "" && |h| >= settings.saveThreshold {
        configLog := Some(configText);
      }
    }
  }
}
