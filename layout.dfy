/**
 * What `train.py` and `model.py` share: the mesh-shape string handed to the
 * model, the normalised names of physical GPUs, and the keyword arguments read
 * from `CONVERSATIONAL_AI_*` environment variables.
 */
module Layout {
  import opened Wrappers
  import opened Py
  import opened PyStr
  import opened Numerals

  /** `f"model:{models},batch:{batches}"` */
  function MeshShape(models: int, batches: int): string {
    "model:" + IntStr(models) + ",batch:" + IntStr(batches)
  }

  /** Reads the two sizes back from a string of the `model:{a},batch:{b}` form. */
  function ParseMeshShape(s: string): Option<(int, int)> {
    if !StartsWith(s, "model:") then None
    else
      var rest := s[6..];
      match Find(rest, ",")
      case None => None
      case Some(k) =>
        var tail := rest[k + 1..];
        if !StartsWith(tail, "batch:") then None
        else
          match (ParseInt(rest[..k]), ParseInt(tail[6..]))
          case (Some(a), Some(b)) => Some((a, b))
          case _ => None
  }

  /** The mesh shape string records both sizes: reading it back gives them. */
  lemma MeshShapeRoundTrip(models: int, batches: int)
    ensures ParseMeshShape(MeshShape(models, batches)) == Some((models, batches))
  {
    var x := IntStr(models);
    var y := IntStr(batches);
    var s := MeshShape(models, batches);
    assert s == "model:" + (x + "," + ("batch:" + y));
    assert s[..6] == "model:";
    var rest := s[6..];
    assert rest == x + "," + ("batch:" + y);
    assert ',' !in x;
    MissingCharNotContained(x, ",", 0);
    FindAfterFree(x, ",", "batch:" + y);
    assert rest[..|x|] == x;
    var tail := rest[|x| + 1..];
    assert tail == "batch:" + y;
    assert tail[..6] == "batch:" && tail[6..] == y;
    ParseIntStr(models);
    ParseIntStr(batches);
  }

  /** Different sizes give different mesh shapes. */
  lemma MeshShapeInjective(a: int, b: int, c: int, d: int)
    requires MeshShape(a, b) == MeshShape(c, d)
    ensures a == c && b == d
  {
    MeshShapeRoundTrip(a, b);
    MeshShapeRoundTrip(c, d);
  }

  const PhysicalDevice := "/physical_device:"

  /** `gpu.name.replace("/physical_device:", "").lower()` */
  function DeviceName(name: string): (r: string)
    ensures |r| <= |name| && NoUpper(r)
  {
    ReplaceShrinks(name, PhysicalDevice);
    Lower(Replace(name, PhysicalDevice, ""))
  }

  /** Removing a pattern never makes a string longer. */
  lemma {:induction false} ReplaceShrinks(s: string, pat: string)
    requires pat != ""
    ensures |Replace(s, pat, "")| <= |s|
    decreases |s|
  {
    match Find(s, pat)
    case None =>
    case Some(i) =>
      var rest := s[i + |pat|..];
      ReplaceShrinks(rest, pat);
      ReplaceAt(s, pat, "", i);
      assert |s[..i] + "" + Replace(rest, pat, "")| == i + |Replace(rest, pat, "")|;
  }

  /** The name TensorFlow gives a physical device loses its prefix and is lower-cased: `/physical_device:GPU:0` is `gpu:0`. */
  lemma DeviceNameOfPhysical(rest: string)
    requires !Contains(rest, PhysicalDevice)
    ensures DeviceName(PhysicalDevice + rest) == Lower(rest)
  {
    ReplaceLeading(PhysicalDevice, rest, "");
    ReplaceAbsent(rest, PhysicalDevice, "");
    assert "" + rest == rest;
  }

  /** The prefix that marks the environment variables passed on as keyword arguments. */
  const App := "CONVERSATIONAL_AI_"

  /** `key.replace(app, "").lower()`: every occurrence of the prefix goes, not only the leading one. */
  function EnvKey(key: string): string {
    Lower(Replace(key, App, ""))
  }

  /** `json.loads(value)`, or the raw string when it raises `ValueError`; `loads` gives `None` for that. */
  function EnvValue(value: string, loads: string -> Option<PyValue>): (r: PyValue)
    ensures loads(value).None? ==> r == PyStr(value)
    ensures loads(value).Some? ==> r == loads(value).value
  {
    match loads(value)
    case Some(v) => v
    case None => PyStr(value)
  }

  /**
   * `dict(_parse(k, v) for k, v in os.environ.items() if k.startswith(app))`
   * over the environment as a sequence of pairs: later pairs overwrite
   * earlier ones whose keys parse to the same name.
   */
  function EnvKwargs(env: seq<(string, string)>, loads: string -> Option<PyValue>): map<string, PyValue>
    decreases |env|
  {
    if |env| == 0 then map[]
    else
      var m := EnvKwargs(env[..|env| - 1], loads);
      var (k, v) := env[|env| - 1];
      if StartsWith(k, App) then m[EnvKey(k) := EnvValue(v, loads)] else m
  }

  /** A keyword argument exists exactly for the names parsed from prefixed variables. */
  lemma {:induction false} EnvKwargsKeys(env: seq<(string, string)>, loads: string -> Option<PyValue>, key: string)
    ensures key in EnvKwargs(env, loads) <==>
            exists i :: 0 <= i < |env| && StartsWith(env[i].0, App) && EnvKey(env[i].0) == key
    decreases |env|
  {
    if |env| > 0 {
      var init := env[..|env| - 1];
      EnvKwargsKeys(init, loads, key);
      if key in EnvKwargs(env, loads) {
        if key !in EnvKwargs(init, loads) {
          assert StartsWith(env[|env| - 1].0, App) && EnvKey(env[|env| - 1].0) == key;
        } else {
          var i :| 0 <= i < |init| && StartsWith(init[i].0, App) && EnvKey(init[i].0) == key;
          assert env[i] == init[i];
        }
      } else {
        forall i | 0 <= i < |env| && StartsWith(env[i].0, App)
          ensures EnvKey(env[i].0) != key
        {
          if i < |init| {
            assert env[i] == init[i];
          }
        }
      }
    }
  }

  /** The value of a keyword argument comes from the last variable whose name parses to it. */
  lemma {:induction false} EnvKwargsLast(env: seq<(string, string)>, loads: string -> Option<PyValue>, i: nat)
    requires i < |env| && StartsWith(env[i].0, App)
    requires forall j :: i < j < |env| && StartsWith(env[j].0, App) ==> EnvKey(env[j].0) != EnvKey(env[i].0)
    ensures EnvKey(env[i].0) in EnvKwargs(env, loads)
    ensures EnvKwargs(env, loads)[EnvKey(env[i].0)] == EnvValue(env[i].1, loads)
    decreases |env|
  {
    if i < |env| - 1 {
      var init := env[..|env| - 1];
      assert init[i] == env[i];
      forall j | i < j < |init| && StartsWith(init[j].0, App)
        ensures EnvKey(init[j].0) != EnvKey(init[i].0)
      {
        assert init[j] == env[j];
      }
      EnvKwargsLast(init, loads, i);
    }
  }

  /** Variables without the prefix are ignored. */
  lemma {:induction false} EnvKwargsIgnoresOthers(env: seq<(string, string)>, loads: string -> Option<PyValue>,
                                                  other: (string, string))
    requires !StartsWith(other.0, App)
    ensures EnvKwargs(env + [other], loads) == EnvKwargs(env, loads)
  {
    assert (env + [other])[..|env|] == env;
  }

  /** A variable named with the prefix once gives the rest of its name, lower-cased. */
  lemma EnvKeyOfPrefixed(rest: string)
    requires !Contains(rest, App)
    ensures StartsWith(App + rest, App) && EnvKey(App + rest) == Lower(rest)
  {
    assert (App + rest)[..|App|] == App;
    ReplaceLeading(App, rest, "");
    ReplaceAbsent(rest, App, "");
    assert "" + rest == rest;
  }
}
