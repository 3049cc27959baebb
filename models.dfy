/**
 * `models.py`: the older wrapper class around the T5 model, whose `predict`
 * flattens the output files without filtering or decoding.
 */
module Models {
  import opened Wrappers
  import opened Py
  import opened PyStr
  import Gin
  import T5Gateway

  /** `"\n".join(outputs).split("\n")`: the flattened list `predict` returns. */
  function Flatten(fragments: seq<string>): seq<string> {
    Split(Join("\n", fragments), "\n")
  }

  /** For at least one fragment, flattening is splitting each fragment on its own and concatenating. */
  lemma FlattenPerFragment(fragments: seq<string>)
    requires |fragments| >= 1
    ensures Flatten(fragments) == SplitEach(fragments, "\n")
  {
    SplitJoinIsSplitEach(fragments, "\n");
  }

  /** A fragment ending in a newline contributes a trailing empty line. */
  lemma {:induction false} TrailingNewline(fragments: seq<string>, last: string)
    ensures var f := Flatten(fragments + [last + "\n"]);
            |f| >= 2 && f[|f| - 1] == ""
  {
    var frags := fragments + [last + "\n"];
    assert Find("", "\n") == None;
    assert Split("", "\n") == [""];
    SplitAround(last, "\n", "");
    assert last + "\n" + "" == last + "\n";
    if |fragments| == 0 {
      assert frags == [last + "\n"];
      assert Join("\n", frags) == last + "\n";
    } else {
      JoinSnoc("\n", fragments, last + "\n");
      SplitAround(Join("\n", fragments), "\n", last + "\n");
    }
  }

  /**
   * The two `predict`s differ on zero output files: this one returns one empty
   * line, the newer one no line at all.
   */
  lemma NoFragmentsVersionsDiffer()
    ensures Flatten([]) == [""]
    ensures T5Gateway.OutputLines([]) == []
  {
    assert Find("", "\n") == None;
    T5Gateway.NoFragmentsNoOutputs();
  }

  /** The newer pipeline is this one with blank lines dropped and each line decoded. */
  lemma GatewayFiltersFlatten(fragments: seq<string>)
    ensures T5Gateway.OutputLines(fragments) == DropBlank(Flatten(fragments))
  {
  }

  /** `kwargs.setdefault("checkpoint_steps", -1)` */
  function PredictKwargs(kwargs: map<string, PyValue>): map<string, PyValue> {
    Gin.WithDefault(kwargs, "checkpoint_steps", PyInt(-1))
  }

  /** A caller's `checkpoint_steps` is kept; without one the latest checkpoint, `-1`, is asked for. */
  lemma CheckpointStepsDefault(kwargs: map<string, PyValue>)
    ensures "checkpoint_steps" in PredictKwargs(kwargs)
    ensures PredictKwargs(kwargs)["checkpoint_steps"] ==
            if "checkpoint_steps" in kwargs then kwargs["checkpoint_steps"] else PyInt(-1)
    ensures forall k :: k in kwargs ==> k in PredictKwargs(kwargs) && PredictKwargs(kwargs)[k] == kwargs[k]
  {
    Gin.WithDefaultBinds(kwargs, "checkpoint_steps", PyInt(-1));
  }

  function Pow4(n: nat): nat {
    if n == 0 then 1 else 4 * Pow4(n - 1)
  }

  /** One call of the wrapped model's `eval`: the task, the checkpoint steps and the batch size it ran with. */
  datatype EvalCall = EvalCall(task: string, steps: PyValue, batchSize: int)

  /** `class T5`: the wrapped model's batch size and the evaluations run so far. */
  class T5 {
    const initialBatchSize: int
    var batchSize: int
    var evalCalls: seq<EvalCall>

    /** Every evaluation ran with four times the batch size of the one before. */
    ghost predicate Valid()
      reads this
    {
      batchSize == initialBatchSize * Pow4(|evalCalls|) &&
      forall k :: 0 <= k < |evalCalls| ==> evalCalls[k].batchSize == initialBatchSize * Pow4(k + 1)
    }

    constructor (batchSize: int)
      ensures Valid() && this.batchSize == batchSize && evalCalls == []
    {
      initialBatchSize := batchSize;
      this.batchSize := batchSize;
      evalCalls := [];
    }

    /** `evaluate(mixture_or_task_name, steps)`: the batch size is multiplied by 4 before each run. */
    method Evaluate(task: string, steps: PyValue)
      requires Valid()
      modifies this
      ensures Valid()
      ensures batchSize == old(batchSize) * 4
      ensures evalCalls == old(evalCalls) + [EvalCall(task, steps, batchSize)]
    {
      batchSize := batchSize * 4;
      evalCalls := evalCalls + [EvalCall(task, steps, batchSize)];
    }

    /**
     * `predict(model_input, **kwargs)`. The wrapped model's `predict` is
     * `runModel`, given the input file's text, both file names and the keyword arguments.
     */
    method Predict(modelInput: seq<string>, kwargs: map<string, PyValue>, tmp: string,
                   runModel: (string, string, string, map<string, PyValue>) -> T5Gateway.ModelRun)
      returns (r: Result<seq<string>, PyError>)
      ensures var run := runModel(T5Gateway.Serialise(modelInput), tmp + "/input.txt", tmp + "/output.txt",
                                  PredictKwargs(kwargs));
              (run.Outputs? ==> r == Ok(Flatten(run.fragments))) &&
              (run.RunFailed? ==> r == Err(ModelFailed(run.reason)))
    {
      var args := kwargs;
      if "checkpoint_steps" !in args {
        args := args["checkpoint_steps" := PyInt(-1)];
      }
      var inputText := T5Gateway.Serialise(modelInput);
      var run := runModel(inputText, tmp + "/input.txt", tmp + "/output.txt", args);
      match run {
        case Outputs(fragments) =>
          r := Ok(Flatten(fragments));
        case RunFailed(reason) =>
          r := Err(ModelFailed(reason));
      }
    }
  }
}
