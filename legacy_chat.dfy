/**
 * `chat.py`: the first chat script. The prompt is the whole history joined
 * with `<TURN>`, the reply is the model's predictions joined with newlines and
 * used as it is, and the transcript file holds only the latest exchange.
 */
module LegacyChat {
  import opened Wrappers
  import opened Py
  import opened PyStr
  import opened Numerals
  import Chat

  const ConversationPrefix := "conversation: "
  const TurnSep := "<TURN>"

  /** The one prompt of the batch: every turn so far, model replies included, with no window. */
  function Prompt(history: seq<string>): (r: string)
    ensures |r| >= |ConversationPrefix| && r[..|ConversationPrefix|] == ConversationPrefix
    ensures |history| == 1 ==> r == ConversationPrefix + history[0]
  {
    ConversationPrefix + Join(TurnSep, history)
  }

  /** Each new turn extends the prompt by the separator and that turn. */
  lemma PromptGrows(history: seq<string>, t: string)
    requires |history| >= 1
    ensures Prompt(history + [t]) == Prompt(history) + TurnSep + t
  {
    JoinSnoc(TurnSep, history, t);
    var j := Join(TurnSep, history);
    assert ConversationPrefix + (j + TurnSep + t) == ConversationPrefix + j + TurnSep + t;
  }

  /** The keyword arguments of the `m.predict` call. */
  const PredictKwargs: map<string, PyValue> := map["temperature" := PyFloat(0.0)]

  /**
   * How the model answers `history`: the predictions joined by newlines, with
   * no post-processing. As in `Chat`, the predictor also takes the number of
   * turns so far, since `checkpoint_steps=-1` is looked up again on every call.
   */
  function Respond(predict: nat -> (seq<string>, map<string, PyValue>) -> Chat.Prediction, history: seq<string>): Chat.Response {
    match predict(|history|)([Prompt(history)], PredictKwargs)
    case Predicted(lines) => Chat.Reply(Join("\n", lines))
    case PredictInterrupted => Chat.Interrupted
    case PredictFailed(e) => Chat.Failed(e)
  }

  /** `Respond` as a function value, so that the session is `Chat.Converse` with this responder. */
  function Responder(predict: nat -> (seq<string>, map<string, PyValue>) -> Chat.Prediction): seq<string> -> Chat.Response {
    h => Respond(predict, h)
  }

  /** A reply is exactly the joined predictions, blank lines and prefixes included. */
  lemma RespondIsJoin(predict: nat -> (seq<string>, map<string, PyValue>) -> Chat.Prediction, history: seq<string>,
                      lines: seq<string>)
    requires predict(|history|)([Prompt(history)], PredictKwargs) == Chat.Predicted(lines)
    ensures Responder(predict)(history) == Chat.Reply(Join("\n", lines))
    ensures Join("\n", lines) == "" <==> |lines| == 0 || (|lines| == 1 && lines[0] == "")
  {
    if |lines| >= 2 {
      JoinCons("\n", lines[0], lines[1..]);
      assert lines == [lines[0]] + lines[1..];
    }
  }

  /** The transcript file: the directory and the name `{run_name}__{int(time.time())}`. */
  datatype OutputPath = OutputPath(dir: string, name: string)

  /** Lines 19-23: a file only when `output_dir` is truthy; `now` is `int(time.time())`. */
  function OutputFile(outputDir: Option<string>, runName: string, now: int): (r: Option<OutputPath>)
    ensures r.Some? <==> outputDir.Some? && outputDir.value != ""
    ensures r.Some? ==> r.value.dir == outputDir.value && |r.value.name| > |runName| + 2 &&
                        r.value.name[..|runName| + 2] == runName + "__" &&
                        ParseInt(r.value.name[|runName| + 2..]) == Some(now)
  {
    if outputDir.Some? && outputDir.value != "" then
      var name := runName + "__" + IntStr(now);
      assert name[..|runName| + 2] == runName + "__" && name[|runName| + 2..] == IntStr(now);
      ParseIntStr(now);
      Some(OutputPath(outputDir.value, name))
    else None
  }

  /** What the file holds after an exchange ending a complete history: the prompt, that user turn, a newline, the reply. */
  function LastExchange(prompt: string, history: seq<string>): string
    requires |history| >= 2
  {
    prompt + history[|history| - 2] + "\n" + history[|history| - 1]
  }

  class Session {
    /** The `prompt` argument of `interactive`, printed before each input and written into the transcript. */
    const prompt: string
    const outputFile: Option<OutputPath>
    var history: seq<string>
    /** What the session last wrote to `outputFile`. */
    var transcript: Option<string>

    constructor (runName: string, outputDir: Option<string>, prompt: string, now: int)
      ensures this.prompt == prompt && outputFile == OutputFile(outputDir, runName, now)
      ensures history == [] && transcript == None
    {
      this.prompt := prompt;
      outputFile := OutputFile(outputDir, runName, now);
      history := [];
      transcript := None;
    }

    /** One model turn: build the prompt, call `predict` with temperature 0, join the predictions. */
    static method Exchange(predict: nat -> (seq<string>, map<string, PyValue>) -> Chat.Prediction, history: seq<string>)
      returns (response: Chat.Response)
      ensures response == Respond(predict, history)
      ensures var p := predict(|history|)([Prompt(history)], PredictKwargs);
              (p.Predicted? ==> response == Chat.Reply(Join("\n", p.lines))) &&
              (p.PredictInterrupted? ==> response == Chat.Interrupted) &&
              (p.PredictFailed? ==> response == Chat.Failed(p.error))
    {
      var modelInput := [Prompt(history)];
      var predictions := predict(|history|)(modelInput, PredictKwargs);
      match predictions {
        case Predicted(lines) =>
          response := Chat.Reply(Join("\n", lines));
        case PredictInterrupted =>
          response := Chat.Interrupted;
        case PredictFailed(e) =>
          response := Chat.Failed(e);
      }
    }

    /**
     * One pass of the loop body, for the event after `i` whole exchanges: the
     * history after it, and how the session ended if it did. `saved` is what
     * the transcript held before the session.
     */
    method Turn(events: seq<Chat.ConsoleEvent>, predict: nat -> (seq<string>, map<string, PyValue>) -> Chat.Prediction,
                i: nat, h: seq<string>, ghost saved: Option<string>)
      returns (next: seq<string>, outcome: Option<Chat.Exit>)
      requires i < |events| && |h| == 2 * i
      requires Chat.Converse(events, Responder(predict), []) == Chat.Converse(events[i..], Responder(predict), h)
      requires transcript == if outputFile.Some? && |Chat.Completed(h)| >= 2
                             then Some(LastExchange(prompt, Chat.Completed(h))) else saved
      modifies this
      ensures outcome.None? ==> |next| == 2 * (i + 1)
      ensures outcome.None? ==> Chat.Converse(events, Responder(predict), []) == Chat.Converse(events[i + 1..], Responder(predict), next)
      ensures outcome.Some? ==> outcome.value == Chat.Converse(events, Responder(predict), []) &&
                                next == outcome.value.history
      ensures transcript == if outputFile.Some? && |Chat.Completed(next)| >= 2
                            then Some(LastExchange(prompt, Chat.Completed(next))) else saved
      ensures history == old(history)
    {
      ghost var respond := Responder(predict);
      next := h;
      match events[i] {
        case Interrupt =>
          Chat.ConverseInterrupt(events[i..], respond, h);
          outcome := Some(Chat.Returned(h));
        case Line(inp) =>
          var response := Exchange(predict, h + [inp]);
          next, outcome := Record(events, respond, i, h, inp, response, saved);
      }
    }

    /**
     * The rest of the loop body once the model has answered the user's turn
     * `inp` with `response`: a reply is appended, printed and written over the
     * transcript file; Ctrl-C returns and an exception propagates.
     */
    method Record(ghost events: seq<Chat.ConsoleEvent>, ghost respond: seq<string> -> Chat.Response, i: nat,
                  h: seq<string>, inp: string, response: Chat.Response, ghost saved: Option<string>)
      returns (next: seq<string>, outcome: Option<Chat.Exit>)
      requires i < |events| && |h| == 2 * i && events[i] == Chat.Line(inp) && respond(h + [inp]) == response
      requires Chat.Converse(events, respond, []) == Chat.Converse(events[i..], respond, h)
      requires transcript == if outputFile.Some? && |Chat.Completed(h)| >= 2
                             then Some(LastExchange(prompt, Chat.Completed(h))) else saved
      modifies this
      ensures outcome.None? ==> |next| == 2 * (i + 1)
      ensures outcome.None? ==> Chat.Converse(events, respond, []) == Chat.Converse(events[i + 1..], respond, next)
      ensures outcome.Some? ==> outcome.value == Chat.Converse(events, respond, []) && next == outcome.value.history
      ensures transcript == if outputFile.Some? && |Chat.Completed(next)| >= 2
                            then Some(LastExchange(prompt, Chat.Completed(next))) else saved
      ensures history == old(history)
    {
      next := h + [inp];
      Chat.CompletedAfter(h, i, inp);
      if response.Reply? {
        Chat.ConverseReplyStep(events, i, respond, h, inp, response.text);
        next := next + [response.text];
        Chat.CompletedAfter(next, i + 1, "");
        if outputFile.Some? {
          transcript := Some(prompt + inp + "\n" + response.text);
        }
        outcome := None;
      } else {
        Chat.ConverseStops(events[i..], respond, h, inp);
        outcome := Some(if response.Interrupted? then Chat.Returned(next) else Chat.Raised(response.error, next));
      }
    }

    /**
     * The `try`/`while True` loop: `events` are the console inputs and
     * `predict` stands for `models.T5.predict` on the checkpoint. EOF and
     * Ctrl-C return the history; any other exception propagates.
     */
    method Interactive(events: seq<Chat.ConsoleEvent>, predict: nat -> (seq<string>, map<string, PyValue>) -> Chat.Prediction)
      returns (exit: Chat.Exit)
      modifies this
      ensures exit == Chat.Converse(events, Responder(predict), []) && history == exit.history
      ensures transcript == if outputFile.Some? && |Chat.Completed(history)| >= 2
                            then Some(LastExchange(prompt, Chat.Completed(history))) else old(transcript)
    {
      ghost var respond := Responder(predict);
      var h: seq<string> := [];
      var i := 0;
      var outcome: Option<Chat.Exit> := None;
      while outcome.None? && i < |events|
        invariant 0 <= i <= |events|
        invariant outcome.None? ==> |h| == 2 * i && Chat.Converse(events, respond, []) == Chat.Converse(events[i..], respond, h)
        invariant outcome.Some? ==> outcome.value == Chat.Converse(events, respond, []) && h == outcome.value.history
        invariant transcript == if outputFile.Some? && |Chat.Completed(h)| >= 2
                                then Some(LastExchange(prompt, Chat.Completed(h))) else old(transcript)
        decreases |events| - i, if outcome.None? then 1 else 0
      {
        h, outcome := Turn(events, predict, i, h, old(transcript));
        if outcome.None? {
          i := i + 1;
        }
      }
      if outcome.None? {
        outcome := Some(Chat.Returned(h));
      }
      history := h;
      exit := outcome.value;
    }
  }

  /** Every completed exchange adds the line typed and the joined predictions for the prompt of the full history. */
  lemma ExchangesAreJoinedPredictions(events: seq<Chat.ConsoleEvent>,
                                      predict: nat -> (seq<string>, map<string, PyValue>) -> Chat.Prediction)
    ensures var r := Chat.Converse(events, Responder(predict), []).history;
            forall j :: 0 <= 2 * j + 1 < |r| ==>
              j < |events| && events[j] == Chat.Line(r[2 * j]) &&
              predict(2 * j + 1)([Prompt(r[..2 * j + 1])], PredictKwargs).Predicted? &&
              r[2 * j + 1] == Join("\n", predict(2 * j + 1)([Prompt(r[..2 * j + 1])], PredictKwargs).lines)
  {
    var respond := Responder(predict);
    Chat.ConverseUserTurns(events, respond, []);
    Chat.ConverseReplies(events, respond, []);
    var r := Chat.Converse(events, respond, []).history;
    forall j | 0 <= 2 * j + 1 < |r|
      ensures j < |events| && events[j] == Chat.Line(r[2 * j]) &&
              predict(2 * j + 1)([Prompt(r[..2 * j + 1])], PredictKwargs).Predicted? &&
              r[2 * j + 1] == Join("\n", predict(2 * j + 1)([Prompt(r[..2 * j + 1])], PredictKwargs).lines)
    {
      var none: seq<string> := [];
      assert |none| + 2 * j + 1 < |r|;
      assert respond(r[..2 * j + 1]) == Chat.Reply(r[2 * j + 1]);
    }
  }
}
