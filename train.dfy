/**
 * `train.py`: the factor pairs of the GPU count that give the default mesh,
 * the device names handed to the model, and the GPU check that comes first.
 */
module Train {
  import opened Wrappers
  import opened Py
  import opened PyStr
  import opened Layout
  import opened Seqs

  /** `int(pow(n, 1 / 2))`, taken as the integer square root. */
  function ISqrt(n: nat): (r: nat)
    ensures r * r <= n < (r + 1) * (r + 1)
    decreases n
  {
    if n == 0 then 0
    else
      var r := ISqrt(n - 1);
      if (r + 1) * (r + 1) <= n then r + 1 else r
  }

  /** `start` of `_factors`: 1 with `include_trivial_factor` or for `n == 1`, else 2. */
  function Start(n: nat, includeTrivial: bool): nat {
    if includeTrivial || n == 1 then 1 else 2
  }

  /** The pairs `(i, n / i)` the loop yields for the divisors `i` of `n` from `i` up to `hi`, in order. */
  function FactorsFrom(n: nat, i: nat, hi: nat): (r: seq<(nat, nat)>)
    requires i >= 1
    ensures forall k :: 0 <= k < |r| ==> i <= r[k].0 <= hi && n % r[k].0 == 0 && r[k].1 == n / r[k].0
    ensures forall k, l :: 0 <= k < l < |r| ==> r[k].0 < r[l].0
    decreases hi + 1 - i
  {
    if i > hi then []
    else
      var rest := FactorsFrom(n, i + 1, hi);
      if n % i == 0 then [(i, n / i)] + rest else rest
  }

  /** No divisor in range is skipped, and none comes before the first pair. */
  lemma {:induction false} FactorsFromComplete(n: nat, i: nat, hi: nat)
    requires i >= 1
    ensures var r := FactorsFrom(n, i, hi);
            forall d :: i <= d <= hi && n % d == 0 ==> (d, n / d) in r
    ensures var r := FactorsFrom(n, i, hi);
            |r| > 0 ==> forall d :: i <= d < r[0].0 ==> n % d != 0
    decreases hi + 1 - i
  {
    if i <= hi {
      FactorsFromComplete(n, i + 1, hi);
    }
  }

  /** One step of the loop: `i` is yielded first when it divides `n`. */
  lemma FactorsFromStep(n: nat, i: nat, hi: nat)
    requires 1 <= i <= hi
    ensures FactorsFrom(n, i, hi) == (if n % i == 0 then [(i, n / i)] else []) + FactorsFrom(n, i + 1, hi)
  {
  }

  /** Everything `_factors(n, include_trivial_factor)` yields, in order. */
  function FactorPairs(n: nat, includeTrivial: bool): seq<(nat, nat)> {
    FactorsFrom(n, Start(n, includeTrivial), ISqrt(n))
  }

  /** The generator `_factors`, run to the end. */
  method Factors(n: nat, includeTrivial: bool) returns (pairs: seq<(nat, nat)>)
    ensures pairs == FactorPairs(n, includeTrivial)
  {
    var start: nat := if includeTrivial || n == 1 then 1 else 2;
    var hi := ISqrt(n);
    pairs := [];
    var i: nat := start;
    while i < hi + 1
      invariant start <= i && (i <= hi + 1 || i == start)
      invariant pairs + FactorsFrom(n, i, hi) == FactorsFrom(n, start, hi)
      decreases hi + 1 - i
    {
      FactorsFromStep(n, i, hi);
      if n % i == 0 {
        AppendAssoc(pairs, [(i, n / i)], FactorsFrom(n, i + 1, hi));
        pairs := pairs + [(i, n / i)];
      }
      i := i + 1;
    }
  }

  /** `i * (n / i) == n` for a divisor, and `i <= n / i` once `i * i <= n`. */
  lemma DivisorPair(n: nat, i: nat)
    requires i >= 1 && n % i == 0
    ensures i * (n / i) == n
    ensures i * i <= n ==> i <= n / i
  {
    var q := n / i;
    assert n == i * q + n % i;
    if i * i <= n && q < i {
      assert i * q < i * i by {
        MulStrict(i, q, i);
      }
    }
  }

  lemma MulStrict(a: nat, b: nat, c: nat)
    requires a >= 1 && b < c
    ensures a * b < a * c
  {
  }

  /** Every pair `(i, j)` multiplies to `n`, with `i <= j` and `i` no smaller than the start. */
  lemma FactorPairsMultiply(n: nat, includeTrivial: bool)
    ensures var ps := FactorPairs(n, includeTrivial);
            forall k :: 0 <= k < |ps| ==>
              ps[k].0 * ps[k].1 == n && ps[k].0 <= ps[k].1 && Start(n, includeTrivial) <= ps[k].0
  {
    var ps := FactorPairs(n, includeTrivial);
    var r := ISqrt(n);
    forall k | 0 <= k < |ps|
      ensures ps[k].0 * ps[k].1 == n && ps[k].0 <= ps[k].1
    {
      RootDivisorPair(n, ps[k].0, r);
    }
  }

  /** A divisor no larger than a root of `n` is the smaller factor of its pair. */
  lemma RootDivisorPair(n: nat, i: nat, r: nat)
    requires 1 <= i <= r && r * r <= n && n % i == 0
    ensures i * (n / i) == n && i <= n / i
  {
    MulMono(i, r);
    DivisorPair(n, i);
  }

  lemma MulMono(a: nat, b: nat)
    requires a <= b
    ensures a * a <= b * b
  {
    MulLeft(a, a, b);
    MulLeft(b, a, b);
  }

  /** No pair is missed: every `i <= j` with `i * j == n`, from the start on, is yielded. */
  lemma FactorPairsComplete(n: nat, includeTrivial: bool, i: nat, j: nat)
    requires Start(n, includeTrivial) <= i <= j && i * j == n
    ensures (i, j) in FactorPairs(n, includeTrivial)
  {
    SmallerFactorBelowRoot(n, i, j);
    DivExact(n, i, j);
    FactorsFromComplete(n, Start(n, includeTrivial), ISqrt(n));
  }

  /** The smaller factor of a pair is at most the integer square root. */
  lemma SmallerFactorBelowRoot(n: nat, i: nat, j: nat)
    requires i <= j && i * j == n
    ensures i <= ISqrt(n)
  {
    var r := ISqrt(n);
    MulLeft(i, i, j);
    if i > r {
      MulMono(r + 1, i);
    }
  }

  lemma MulLeft(a: nat, b: nat, c: nat)
    requires b <= c
    ensures a * b <= a * c
  {
  }

  lemma DivExact(n: nat, i: nat, j: nat)
    requires i >= 1 && i * j == n
    ensures n % i == 0 && n / i == j
  {
    var q, m := n / i, n % i;
    assert n == i * q + m && 0 <= m < i;
    var t := j - q;
    assert i * t == m;
    if t >= 1 {
      MulAtLeast(i, t);
    }
  }

  /** A positive multiple of `i` is at least `i`. */
  lemma {:induction false} MulAtLeast(i: nat, t: nat)
    requires i >= 1 && t >= 1
    ensures i * t >= i
    decreases t
  {
    if t > 1 {
      MulAtLeast(i, t - 1);
      assert i * t == i * (t - 1) + i;
    }
  }

  /** `_factors(1)` yields exactly `(1, 1)`. */
  lemma FactorsOfOne(includeTrivial: bool)
    ensures FactorPairs(1, includeTrivial) == [(1, 1)]
  {
    assert ISqrt(1) == 1;
    assert FactorsFrom(1, 2, 1) == [];
  }

  predicate IsPrime(n: nat) {
    n >= 2 && forall d :: 2 <= d < n ==> n % d != 0
  }

  /** With the default flag, `_factors(n)` yields nothing exactly when `n` is prime. */
  lemma FactorsEmptyIffPrime(n: nat)
    requires n >= 2
    ensures FactorPairs(n, false) == [] <==> IsPrime(n)
  {
    if FactorPairs(n, false) != [] {
      PairIsProperDivisor(n);
    }
    if !IsPrime(n) {
      CompositeHasPair(n);
    }
  }

  /** A yielded pair shows a divisor strictly between 1 and `n`. */
  lemma PairIsProperDivisor(n: nat)
    requires n >= 2 && FactorPairs(n, false) != []
    ensures !IsPrime(n)
  {
    var ps := FactorPairs(n, false);
    FactorPairsMultiply(n, false);
    var i, j := ps[0].0, ps[0].1;
    assert 2 <= i <= j && i * j == n;
    MulLeft(i, 2, j);
    DivExact(n, i, j);
    assert 2 <= i < n && n % i == 0;
  }

  /** A divisor strictly between 1 and `n` shows up in some yielded pair. */
  lemma CompositeHasPair(n: nat)
    requires n >= 2 && !IsPrime(n)
    ensures FactorPairs(n, false) != []
  {
    var d :| 2 <= d < n && n % d == 0;
    var e := n / d;
    DivisorPair(n, d);
    assert d * e == n;
    if d <= e {
      FactorPairsComplete(n, false, d, e);
    } else {
      assert e * d == n;
      FactorPairsComplete(n, false, e, d);
    }
  }

  /** Lines 63-66 when `mesh_shape` is not given: `next(_factors(len(gpus)))`, which raises `StopIteration` on an empty generator. */
  function DefaultMeshShape(gpuCount: nat): (r: Result<string, PyError>)
    ensures r.Err? <==> FactorPairs(gpuCount, false) == []
    ensures r.Err? ==> r.error == StopIteration
  {
    var ps := FactorPairs(gpuCount, false);
    if |ps| == 0 then Err(StopIteration) else Ok(MeshShape(ps[0].0, ps[0].1))
  }

  /** The default mesh uses every GPU, with the fewest models per GPU above one. */
  lemma DefaultMeshShapeUsesAllGpus(gpuCount: nat)
    requires DefaultMeshShape(gpuCount).Ok?
    ensures var p := ParseMeshShape(DefaultMeshShape(gpuCount).value);
            p.Some? && p.value.0 * p.value.1 == gpuCount && 1 <= p.value.0 <= p.value.1
    ensures var p := ParseMeshShape(DefaultMeshShape(gpuCount).value);
            forall d :: Start(gpuCount, false) <= d < p.value.0 ==> gpuCount % d != 0
  {
    var ps := FactorPairs(gpuCount, false);
    FactorPairsMultiply(gpuCount, false);
    FactorsFromComplete(gpuCount, Start(gpuCount, false), ISqrt(gpuCount));
    MeshShapeRoundTrip(ps[0].0, ps[0].1);
  }

  /** A prime number of GPUs, two or three for instance, leaves the default mesh undefined. */
  lemma PrimeGpuCountRaises(gpuCount: nat)
    requires IsPrime(gpuCount)
    ensures DefaultMeshShape(gpuCount) == Err(StopIteration)
  {
    FactorsEmptyIffPrime(gpuCount);
  }

  /** One GPU gives the mesh `model:1,batch:1`. */
  lemma OneGpuMesh()
    ensures DefaultMeshShape(1) == Ok(MeshShape(1, 1))
  {
    FactorsOfOne(false);
  }

  /** Line 70: the names of the physical GPUs, normalised. */
  function DeviceNames(gpus: seq<string>): (r: seq<string>)
    ensures |r| == |gpus| && forall k :: 0 <= k < |r| ==> r[k] == DeviceName(gpus[k]) && NoUpper(r[k])
  {
    seq(|gpus|, k requires 0 <= k < |gpus| => DeviceName(gpus[k]))
  }

  /** The mesh arguments of `MtfModel` in `finetune`. */
  datatype MeshSettings = MeshSettings(meshShape: string, meshDevices: seq<string>)

  /**
   * Lines 38-40 and 63-70: without GPUs `finetune` raises; a falsy
   * `mesh_shape` is derived from the GPU count and falsy `mesh_devices`
   * from the GPU names.
   */
  function FinetuneMesh(gpus: seq<string>, meshShape: Option<string>, meshDevices: Option<seq<string>>)
    : (r: Result<MeshSettings, PyError>)
    ensures |gpus| == 0 ==> r == Err(RuntimeError("This model requires a GPU to finetune."))
    ensures r.Ok? && meshShape.Some? && meshShape.value != "" ==> r.value.meshShape == meshShape.value
    ensures r.Ok? && meshDevices.Some? && |meshDevices.value| > 0 ==> r.value.meshDevices == meshDevices.value
    ensures r.Ok? && (meshDevices.None? || |meshDevices.value| == 0) ==> r.value.meshDevices == DeviceNames(gpus)
    ensures |gpus| > 0 && meshShape.Some? && meshShape.value != "" ==> r.Ok?
    ensures |gpus| > 0 && (meshShape.None? || meshShape.value == "") ==>
              (r.Ok? <==> DefaultMeshShape(|gpus|).Ok?) &&
              (r.Ok? ==> r.value.meshShape == DefaultMeshShape(|gpus|).value)
    ensures |gpus| > 0 && (meshShape.None? || meshShape.value == "") && DefaultMeshShape(|gpus|).Err? ==>
              r == Err(DefaultMeshShape(|gpus|).error)
  {
    if |gpus| == 0 then Err(RuntimeError("This model requires a GPU to finetune."))
    else
      var shape := if meshShape.Some? && meshShape.value != "" then Ok(meshShape.value) else DefaultMeshShape(|gpus|);
      match shape
      case Err(e) => Err(e)
      case Ok(s) =>
        Ok(MeshSettings(s, if meshDevices.Some? && |meshDevices.value| > 0 then meshDevices.value else DeviceNames(gpus)))
  }

  /** Without a mesh shape, `finetune` raises exactly when it has no GPU or a prime number of them. */
  lemma FinetuneMeshFails(gpus: seq<string>, meshDevices: Option<seq<string>>)
    ensures FinetuneMesh(gpus, None, meshDevices).Err? <==> |gpus| == 0 || IsPrime(|gpus|)
  {
    if |gpus| >= 2 {
      FactorsEmptyIffPrime(|gpus|);
    } else if |gpus| == 1 {
      FactorsOfOne(false);
    }
  }
}
