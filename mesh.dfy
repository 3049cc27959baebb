/**
 * `model.py`: how `finetune` lays the model over the GPUs. Model parallelism
 * is at least one, data parallelism fills the remaining GPUs when it is not
 * given, and the GPUs used are the requested ones that exist.
 */
module Mesh {
  import opened Wrappers
  import opened PyStr
  import opened Layout

  /** The two sizes of the mesh. */
  datatype Parallelism = Parallelism(model: int, data: int)

  /** Lines 58-60: `max(model_parallelism, 1)`, and a falsy `data_parallelism` (`None` or 0) derived from the device count. */
  function LayOut(modelParallelism: int, dataParallelism: Option<int>, deviceCount: nat): (r: Parallelism)
    ensures r.model >= 1 && (modelParallelism >= 1 ==> r.model == modelParallelism)
    ensures dataParallelism.Some? && dataParallelism.value != 0 ==> r.data == dataParallelism.value
    ensures dataParallelism.None? || dataParallelism.value == 0 ==> r.data >= 1
  {
    var mp := if modelParallelism > 1 then modelParallelism else 1;
    var dp := if dataParallelism.Some? && dataParallelism.value != 0 then dataParallelism.value
              else if deviceCount / mp > 1 then deviceCount / mp else 1;
    Parallelism(mp, dp)
  }

  /**
   * A derived data parallelism is the number of whole model replicas the
   * devices hold: the mesh fits in the devices, and one more replica would not,
   * unless there are fewer devices than one replica needs, when it is 1.
   */
  lemma DerivedDataParallelism(modelParallelism: int, deviceCount: nat)
    ensures var p := LayOut(modelParallelism, None, deviceCount);
            (deviceCount >= p.model ==> p.model * p.data <= deviceCount < p.model * (p.data + 1)) &&
            (deviceCount < p.model ==> p.data == 1)
  {
    var p := LayOut(modelParallelism, None, deviceCount);
    var q := deviceCount / p.model;
    assert deviceCount == p.model * q + deviceCount % p.model;
    if deviceCount >= p.model {
      assert p.data == q;
      assert p.model * (q + 1) == p.model * q + p.model;
    } else {
      assert q == 0;
    }
  }

  /** A data parallelism of 0 means "derive it", like `None`. */
  lemma ZeroDataParallelismIsDerived(modelParallelism: int, deviceCount: nat)
    ensures LayOut(modelParallelism, Some(0), deviceCount) == LayOut(modelParallelism, None, deviceCount)
  {
  }

  /** Line 67: the mesh shape is built from the clamped and derived sizes. */
  function MeshShapeOf(p: Parallelism): (r: string)
    ensures ParseMeshShape(r) == Some((p.model, p.data))
  {
    MeshShapeRoundTrip(p.model, p.data);
    MeshShape(p.model, p.data)
  }

  /** Line 94: the normalised names of every physical GPU. */
  function AllGpus(physical: seq<string>): (r: set<string>)
    ensures forall x :: x in r <==> exists g :: g in physical && DeviceName(g) == x
  {
    set g | g in physical :: DeviceName(g)
  }

  /** `set(g.lower() for g in gpus)` */
  function LowerAll(requested: seq<string>): set<string> {
    set g | g in requested :: Lower(g)
  }

  /**
   * Lines 56 and 96: with a non-empty request list, the lower-cased requested
   * names that exist; with `None` or an empty list, every GPU.
   */
  function SelectGpus(requested: Option<seq<string>>, physical: seq<string>): (r: set<string>)
    ensures r <= AllGpus(physical)
  {
    var gpus := if requested.Some? then requested.value else [];
    if |gpus| > 0 then LowerAll(gpus) * AllGpus(physical) else AllGpus(physical)
  }

  /** A GPU is used exactly when it exists and, if a list was given, some requested name lower-cases to it. */
  lemma SelectGpusMembers(requested: Option<seq<string>>, physical: seq<string>, x: string)
    ensures x in SelectGpus(requested, physical) <==>
            x in AllGpus(physical) &&
            (requested.None? || |requested.value| == 0 || exists g :: g in requested.value && Lower(g) == x)
  {
    if requested.Some? && |requested.value| > 0 {
      if exists g :: g in requested.value && Lower(g) == x {
        var g :| g in requested.value && Lower(g) == x;
        assert x in LowerAll(requested.value);
      }
    }
  }

  /** The object `finetune` builds, from the layout on: its mesh and its batch size. */
  class TrainedModel {
    const parallelism: Parallelism
    const meshShape: string
    const meshDevices: set<string>
    var batchSize: int

    /** Lines 56-71: the layout of the devices selected from `gpus`, and `global_batch_size` as an int. */
    constructor (modelParallelism: int, dataParallelism: Option<int>, gpus: Option<seq<string>>,
                 physical: seq<string>, globalBatchSize: int)
      ensures meshDevices == SelectGpus(gpus, physical)
      ensures parallelism == LayOut(modelParallelism, dataParallelism, |SelectGpus(gpus, physical)|)
      ensures meshShape == MeshShapeOf(parallelism)
      ensures batchSize == globalBatchSize
    {
      var devices := SelectGpus(gpus, physical);
      meshDevices := devices;
      var p := LayOut(modelParallelism, dataParallelism, |devices|);
      parallelism := p;
      meshShape := MeshShapeOf(p);
      batchSize := globalBatchSize;
    }

    /** Line 85: the batch size is multiplied by 4 before `eval`. */
    method ScaleBatchForEval()
      modifies this
      ensures batchSize == old(batchSize) * 4
    {
      batchSize := batchSize * 4;
    }
  }
}
