/**
 * `conversational_ai/t5_model.py`, `predict`: checkpoint resolution, the gin
 * bindings for one inference run, prompt serialisation and the decoding of
 * the output files into one reply per non-blank line.
 */
module T5Gateway {
  import opened Wrappers
  import opened Py
  import opened PyStr
  import opened Chitchat
  import Gin

  /** `step == -1 or step == "latest"`, with Python's numeric equality (`-1.0 == -1` holds). */
  predicate SelectsLatest(step: PyValue) {
    step == PyInt(-1) || step == PyFloat(-1.0) || step == PyStr("latest")
  }

  /** The value bound to `utils.run.eval_checkpoint_step`; `checkpoints` are the steps saved in the model directory. */
  function ResolveStep(step: PyValue, checkpoints: seq<nat>): (r: Result<PyValue, PyError>)
    ensures !SelectsLatest(step) ==> r == Ok(step)
    ensures SelectsLatest(step) && |checkpoints| == 0 ==> r == Err(NoCheckpoint)
    ensures SelectsLatest(step) && |checkpoints| > 0 ==>
              r.Ok? && r.value.PyInt? && r.value.i in checkpoints &&
              forall k :: 0 <= k < |checkpoints| ==> checkpoints[k] <= r.value.i
  {
    if SelectsLatest(step) then
      match LatestCheckpoint(checkpoints)
      case None => Err(NoCheckpoint)
      case Some(n) => Ok(PyInt(n))
    else Ok(step)
  }

  /** The input file's text: one prompt per line. */
  function Serialise(modelInput: seq<string>): string {
    Join("\n", modelInput)
  }

  /** Reading the input file back line by line recovers the prompts exactly when there is at least one and none spans lines. */
  lemma SerialiseRoundTrip(modelInput: seq<string>)
    ensures Split(Serialise(modelInput), "\n") == modelInput <==>
            |modelInput| >= 1 && forall k :: 0 <= k < |modelInput| ==> !Contains(modelInput[k], "\n")
  {
    if |modelInput| >= 1 && forall k :: 0 <= k < |modelInput| ==> !Contains(modelInput[k], "\n") {
      SplitJoin(modelInput, "\n");
    } else if |modelInput| >= 1 {
      var k :| 0 <= k < |modelInput| && Contains(modelInput[k], "\n");
      SplitPiecesLackSep(Serialise(modelInput), "\n");
      assert modelInput[k] in modelInput;
    }
  }

  /** `filter(lambda x: x.strip(), "\n".join(all_outputs).split("\n"))` */
  function OutputLines(fragments: seq<string>): seq<string> {
    DropBlank(Split(Join("\n", fragments), "\n"))
  }

  /** The non-blank lines of every fragment on its own, fragment after fragment. */
  function FragmentLines(fragments: seq<string>): seq<string>
    decreases |fragments|
  {
    if |fragments| == 0 then [] else DropBlank(Split(fragments[0], "\n")) + FragmentLines(fragments[1..])
  }

  lemma {:induction false} DropBlankSplitEach(fragments: seq<string>)
    ensures DropBlank(SplitEach(fragments, "\n")) == FragmentLines(fragments)
    decreases |fragments|
  {
    if |fragments| > 0 {
      DropBlankSplitEach(fragments[1..]);
      DropBlankConcat(Split(fragments[0], "\n"), SplitEach(fragments[1..], "\n"));
    }
  }

  /**
   * The lines kept are the non-blank lines of the fragments, in fragment order
   * and in order within each fragment; no fragment gives no line at all.
   */
  lemma OutputsPerFragment(fragments: seq<string>)
    ensures OutputLines(fragments) == FragmentLines(fragments)
  {
    if |fragments| == 0 {
      assert Find("", "\n") == None;
      assert Split("", "\n") == [""];
    } else {
      SplitJoinIsSplitEach(fragments, "\n");
      DropBlankSplitEach(fragments);
    }
  }

  /** Zero output files give an empty list of replies. */
  lemma NoFragmentsNoOutputs()
    ensures OutputLines([]) == []
  {
    OutputsPerFragment([]);
  }

  predicate IsQuote(c: char) {
    c == '\'' || c == '"'
  }

  /**
   * The body of a bytes literal without escapes: ASCII characters other than
   * the quote, the backslash, NUL and line breaks.
   */
  predicate PlainBytes(body: string, quote: char) {
    forall i :: 0 <= i < |body| ==>
      body[i] as int < 128 && body[i] != quote && body[i] != '\\' &&
      body[i] != '\n' && body[i] != '\r' && body[i] != '\0'
  }

  /** `ast.literal_eval(line.strip()).decode("utf-8")` for a line holding a bytes literal. */
  function DecodeLine(line: string): (r: Result<string, PyError>)
    ensures r.Err? ==> r.error == SyntaxError
    ensures r.Ok? ==> |r.value| + 3 <= |line|
  {
    var t := Strip(line);
    if |t| >= 3 && (t[0] == 'b' || t[0] == 'B') && IsQuote(t[1]) && t[|t| - 1] == t[1]
       && PlainBytes(t[2..|t| - 1], t[1])
    then Ok(t[2..|t| - 1])
    else Err(SyntaxError)
  }

  /**
   * A line decodes exactly when, stripped, it is a `b` or `B`, a quote, a
   * plain body and the same quote; the decoding is that body.
   */
  lemma DecodeLineFormat(line: string)
    ensures DecodeLine(line).Ok? ==>
              var t := Strip(line);
              |t| >= 3 && (t[0] == 'b' || t[0] == 'B') && IsQuote(t[1]) &&
              t == t[..2] + DecodeLine(line).value + [t[1]] && PlainBytes(DecodeLine(line).value, t[1])
  {
    var t := Strip(line);
    if DecodeLine(line).Ok? {
      Enclosed(t);
    }
  }

  /** A string of at least three characters is its first two, its middle and its last. */
  lemma Enclosed(t: string)
    requires |t| >= 3
    ensures t == t[..2] + t[2..|t| - 1] + [t[|t| - 1]]
  {
  }

  /** `repr` of a bytes value without escapes, as the model writes it. */
  function EncodeLine(s: string): string {
    "b'" + s + "'"
  }

  /** Decoding the written form of a plain bytes value gives the value back. */
  lemma DecodeEncode(s: string)
    requires PlainBytes(s, '\'')
    ensures DecodeLine(EncodeLine(s)) == Ok(s)
  {
    var t := EncodeLine(s);
    StripStripped(t);
    assert t[2..|t| - 1] == s;
  }

  /** Every line decoded, or the first failure: `predict` never returns part of the replies. */
  function DecodeAll(lines: seq<string>): (r: Result<seq<string>, PyError>)
    ensures r.Ok? ==> |r.value| == |lines|
  {
    TryEach(DecodeLine, lines)
  }

  /** The lines decode together exactly when each decodes alone, and then to their decodings, in order. */
  lemma DecodeAllLines(lines: seq<string>)
    ensures DecodeAll(lines).Ok? <==> forall k :: 0 <= k < |lines| ==> DecodeLine(lines[k]).Ok?
    ensures DecodeAll(lines).Ok? ==>
              forall k :: 0 <= k < |lines| ==> DecodeAll(lines).value[k] == DecodeLine(lines[k]).value
    ensures DecodeAll(lines).Err? ==> DecodeAll(lines).error == SyntaxError
  {
    TryEachAll(DecodeLine, lines);
    if DecodeAll(lines).Err? {
      var k :| 0 <= k < |lines| && DecodeLine(lines[k]).Err? && DecodeAll(lines).error == DecodeLine(lines[k]).error;
    }
  }

  /** A list comprehension whose item expression may raise: `f` on every item in turn, stopping at the first error. */
  function TryEach<T>(f: string -> Result<T, PyError>, xs: seq<string>): (r: Result<seq<T>, PyError>)
    ensures r.Ok? ==> |r.value| == |xs|
    decreases |xs|
  {
    if |xs| == 0 then Ok([])
    else
      match f(xs[0])
      case Err(e) => Err(e)
      case Ok(x) =>
        match TryEach(f, xs[1..])
        case Err(e) => Err(e)
        case Ok(ys) => Ok([x] + ys)
  }

  /** `TryEach` succeeds exactly when `f` succeeds on every item, and gives its results in order; an error is one `f` raised. */
  lemma {:induction false} TryEachAll<T>(f: string -> Result<T, PyError>, xs: seq<string>)
    ensures TryEach(f, xs).Ok? <==> forall k :: 0 <= k < |xs| ==> f(xs[k]).Ok?
    ensures TryEach(f, xs).Ok? ==> forall k :: 0 <= k < |xs| ==> TryEach(f, xs).value[k] == f(xs[k]).value
    ensures TryEach(f, xs).Err? ==> exists k :: 0 <= k < |xs| && f(xs[k]).Err? && TryEach(f, xs).error == f(xs[k]).error
    decreases |xs|
  {
    if |xs| > 0 {
      var rest := xs[1..];
      TryEachAll(f, rest);
      forall k | 1 <= k < |xs|
        ensures xs[k] == rest[k - 1]
      {
      }
      if f(xs[0]).Ok? && TryEach(f, rest).Ok? {
        assert TryEach(f, xs).value == [f(xs[0]).value] + TryEach(f, rest).value;
      } else if f(xs[0]).Err? {
        assert f(xs[0]).Err?;
      } else {
        var k :| 0 <= k < |rest| && f(rest[k]).Err? && TryEach(f, rest).error == f(rest[k]).error;
        assert xs[k + 1] == rest[k];
      }
    }
  }

  /** What the external run leaves behind: the output files' texts, in glob order, or the exception it raised. */
  datatype ModelRun = Outputs(fragments: seq<string>) | RunFailed(reason: string)

  /** The parameters `predict` binds before the run; `tmp` is the temporary directory. */
  function InferBindings(modelDir: string, step: PyValue, tmp: string): map<string, PyValue> {
    map[
      "utils.run.mode" := PyStr("infer"),
      "utils.run.model_dir" := PyStr(modelDir),
      "utils.run.eval_checkpoint_step" := step,
      "infer_model.input_filename" := PyStr(tmp + "/input.txt"),
      "infer_model.output_filename" := PyStr(tmp + "/output.txt")
    ]
  }

  /** Binding the five parameters one after another is overriding them all at once. */
  lemma InferBindingsInOrder(m: map<string, PyValue>, modelDir: string, step: PyValue, tmp: string)
    ensures m["utils.run.mode" := PyStr("infer")]["utils.run.model_dir" := PyStr(modelDir)]
             ["utils.run.eval_checkpoint_step" := step]["infer_model.input_filename" := PyStr(tmp + "/input.txt")]
             ["infer_model.output_filename" := PyStr(tmp + "/output.txt")]
            == m + InferBindings(modelDir, step, tmp)
  {
  }

  /** The replies for the output of one run. */
  function Replies(run: ModelRun): Result<seq<string>, PyError> {
    match run
    case Outputs(fragments) => DecodeAll(OutputLines(fragments))
    case RunFailed(reason) => Err(ModelFailed(reason))
  }

  /**
   * `predict(model_input, model_dir, step, **kwargs)`. The run is `runModel`,
   * given the input file's text, the gin bindings it sees and the keyword
   * arguments `kwargs`, which `predict` forwards to `run` unchanged.
   */
  method Predict(config: Gin.Config, modelInput: seq<string>, modelDir: string, step: PyValue,
                 checkpoints: seq<nat>, tmp: string, kwargs: map<string, PyValue>,
                 runModel: (string, map<string, PyValue>, map<string, PyValue>) -> ModelRun)
    returns (r: Result<seq<string>, PyError>)
    modifies config
    ensures ResolveStep(step, checkpoints).Err? ==>
              r == Err(ResolveStep(step, checkpoints).error) && config.bindings == old(config.bindings)
    ensures ResolveStep(step, checkpoints).Ok? ==>
              config.bindings == old(config.bindings) + InferBindings(modelDir, ResolveStep(step, checkpoints).value, tmp) &&
              r == Replies(runModel(Serialise(modelInput), config.bindings, kwargs))
  {
    var s := ResolveStep(step, checkpoints);
    if s.Err? {
      return Err(s.error);
    }
    var inputText := Serialise(modelInput);
    config.Bind("utils.run.mode", PyStr("infer"));
    config.Bind("utils.run.model_dir", PyStr(modelDir));
    config.Bind("utils.run.eval_checkpoint_step", s.value);
    config.Bind("infer_model.input_filename", PyStr(tmp + "/input.txt"));
    config.Bind("infer_model.output_filename", PyStr(tmp + "/output.txt"));
    InferBindingsInOrder(old(config.bindings), modelDir, s.value, tmp);
    var run := runModel(inputText, config.bindings, kwargs);
    match run {
      case Outputs(fragments) =>
        var outputs := OutputLines(fragments);
        r := DecodeAll(outputs);
      case RunFailed(reason) =>
        r := Err(ModelFailed(reason));
    }
  }
}
