/** The part of gin's global registry the core uses: parameter bindings by dotted name. */
module Gin {
  import opened Wrappers
  import opened Py

  /** The bindings after a set-if-absent of `key`: an existing binding wins. */
  function WithDefault(m: map<string, PyValue>, key: string, value: PyValue): map<string, PyValue> {
    if key in m then m else m[key := value]
  }

  /** After a set-if-absent the key is bound, to its old value when it had one. */
  lemma WithDefaultBinds(m: map<string, PyValue>, key: string, value: PyValue)
    ensures var m' := WithDefault(m, key, value);
            key in m' && m'[key] == (if key in m then m[key] else value)
  {
  }

  /** A set-if-absent leaves every other key as it was. */
  lemma WithDefaultOthers(m: map<string, PyValue>, key: string, value: PyValue, other: string)
    requires other != key
    ensures other in WithDefault(m, key, value) <==> other in m
    ensures other in m ==> WithDefault(m, key, value)[other] == m[other]
  {
  }

  /** A second set-if-absent of the same key, whatever its value, changes nothing. */
  lemma WithDefaultIdempotent(m: map<string, PyValue>, key: string, v1: PyValue, v2: PyValue)
    ensures WithDefault(WithDefault(m, key, v1), key, v2) == WithDefault(m, key, v1)
  {
  }

  class Config {
    var bindings: map<string, PyValue>

    constructor (initial: map<string, PyValue>)
      ensures bindings == initial
    {
      bindings := initial;
    }

    /** `gin.query_parameter(key)`: the bound value, a ValueError for an unbound key. */
    function Query(key: string): (r: Result<PyValue, PyError>)
      reads this
      ensures r.Ok? <==> key in bindings
      ensures r.Ok? ==> r.value == bindings[key]
    {
      if key in bindings then Ok(bindings[key]) else Err(ValueError(key))
    }

    /** `gin.bind_parameter(key, value)` inside `gin.unlock_config()`. */
    method Bind(key: string, value: PyValue)
      modifies this
      ensures bindings == old(bindings)[key := value]
    {
      bindings := bindings[key := value];
    }

    /** `_gin_setdefault(key, value)`: query, and bind only when the query raises ValueError. */
    method SetDefault(key: string, value: PyValue) returns (r: PyValue)
      modifies this
      ensures bindings == WithDefault(old(bindings), key, value)
      ensures key in bindings && r == bindings[key]
      ensures key in old(bindings) ==> r == old(bindings)[key]
    {
      r := value;
      var q := Query(key);
      match q {
        case Ok(v) =>
          r := v;
        case Err(_) =>
          Bind(key, value);
      }
    }
  }
}
