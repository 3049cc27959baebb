/** `tasks.py`: compounding input/target examples and the train/validation split of the dataset. */
module Tasks {
  import opened PyStr
  import opened Seqs

  /** One `{"inputs": ..., "targets": ...}` example. */
  datatype Example = Example(inputs: string, targets: string)

  const TaskPrefix: string := "converse: "
  const TurnSep: string := "<TURN>"

  /** `[c.strip() for c in convo if c.strip()]`. */
  function Clean(convo: seq<string>): (r: seq<string>)
    ensures |r| <= |convo|
    decreases |convo|
  {
    if |convo| == 0 then []
    else
      var rest := Clean(convo[1..]);
      var c := Strip(convo[0]);
      if c != "" then [c] + rest else rest
  }

  /** Every utterance kept is non-empty and stripped. */
  lemma {:induction false} CleanUtterances(convo: seq<string>)
    ensures forall k :: 0 <= k < |Clean(convo)| ==> Clean(convo)[k] != "" && IsStripped(Clean(convo)[k])
    decreases |convo|
  {
    if |convo| > 0 {
      var rest := Clean(convo[1..]);
      var c := Strip(convo[0]);
      CleanUtterances(convo[1..]);
      if c != "" {
        var r := [c] + rest;
        assert Clean(convo) == r;
        forall k | 0 <= k < |r|
          ensures r[k] != "" && IsStripped(r[k])
        {
          if k > 0 {
            assert r[k] == rest[k - 1];
            assert rest[k - 1] != "" && IsStripped(rest[k - 1]);
          }
        }
      } else {
        assert Clean(convo) == rest;
      }
    }
  }

  /**
   * The clean utterances are exactly the utterances that are not blank, in
   * their order, each stripped: `strip()` is empty exactly for blank text.
   */
  lemma {:induction false} CleanIsStrippedDropBlank(convo: seq<string>)
    ensures Clean(convo) == MapSeq(Strip, DropBlank(convo))
    decreases |convo|
  {
    if |convo| > 0 {
      CleanIsStrippedDropBlank(convo[1..]);
      if !Blank(convo[0]) {
        MapSeqCons(Strip, convo[0], DropBlank(convo[1..]));
      }
    }
  }

  /** The examples `_compound_convo` builds from the clean utterances `c`. */
  function Compounded(c: seq<string>): seq<Example> {
    seq(if |c| == 0 then 0 else |c| - 1,
        i requires 0 <= i < |c| - 1 => Example(TaskPrefix + Join(TurnSep, c[..i + 1]), c[i + 1]))
  }

  /** `_compound_convo`: example i takes the first i + 1 clean utterances as context and the next as target. */
  function CompoundConvo(convo: seq<string>): seq<Example> {
    Compounded(Clean(convo))
  }

  /** m clean utterances give max(m - 1, 0) examples. */
  lemma CompoundCount(convo: seq<string>)
    ensures var m := |Clean(convo)|;
            |CompoundConvo(convo)| == if m == 0 then 0 else m - 1
  {
  }

  /** The targets are the clean utterances after the first, in order: the first is never a target. */
  lemma CompoundTargets(convo: seq<string>)
    ensures var ex := CompoundConvo(convo);
            var c := Clean(convo);
            |c| >= 1 ==> seq(|ex|, i requires 0 <= i < |ex| => ex[i].targets) == c[1..]
  {
  }

  /** The first example's input is the task prefix and the first clean utterance. */
  lemma CompoundFirst(convo: seq<string>)
    requires |CompoundConvo(convo)| > 0
    ensures CompoundConvo(convo)[0].inputs == TaskPrefix + Clean(convo)[0]
  {
    CompoundedFirst(Clean(convo));
  }

  lemma CompoundedFirst(c: seq<string>)
    requires |Compounded(c)| > 0
    ensures Compounded(c)[0].inputs == TaskPrefix + c[0]
  {
    assert c[..1] == [c[0]];
    assert Join(TurnSep, [c[0]]) == c[0];
  }

  /** The examples compound: each input is the previous input, the separator and the previous target. */
  lemma CompoundChain(convo: seq<string>, i: nat)
    requires i + 1 < |CompoundConvo(convo)|
    ensures var ex := CompoundConvo(convo);
            ex[i + 1].inputs == ex[i].inputs + TurnSep + ex[i].targets
  {
    CompoundedChain(Clean(convo), i);
  }

  lemma CompoundedChain(c: seq<string>, i: nat)
    requires i + 1 < |Compounded(c)|
    ensures var ex := Compounded(c);
            ex[i + 1].inputs == ex[i].inputs + TurnSep + ex[i].targets
  {
    var j := Join(TurnSep, c[..i + 1]);
    assert c[..i + 2] == c[..i + 1] + [c[i + 1]];
    JoinSnoc(TurnSep, c[..i + 1], c[i + 1]);
    PrefixAssoc(TaskPrefix, j, TurnSep, c[i + 1]);
  }

  lemma PrefixAssoc(p: string, a: string, b: string, c: string)
    ensures p + (a + b + c) == p + a + b + c
  {
  }

  /** The fixed number of training examples. */
  const TrainCount: nat := 124978

  /** `dataset.take(n)` */
  function Take<T>(ds: seq<T>, n: nat): seq<T> {
    if n <= |ds| then ds[..n] else ds
  }

  /** `dataset.skip(n)` */
  function Skip<T>(ds: seq<T>, n: nat): seq<T> {
    if n <= |ds| then ds[n..] else []
  }

  /** `_compounding_dataset_fn`'s choice: `take(n)` for "train", `skip(n)` for every other split name. */
  function ForSplit<T>(ds: seq<T>, split: string, n: nat): seq<T> {
    if split == "train" then Take(ds, n) else Skip(ds, n)
  }

  /**
   * For any other split name, the train split followed by it is the whole
   * dataset: the two are disjoint by position and cover every example.
   */
  lemma SplitsPartition<T>(ds: seq<T>, other: string, n: nat)
    requires other != "train"
    ensures ForSplit(ds, "train", n) + ForSplit(ds, other, n) == ds
    ensures |ForSplit(ds, "train", n)| == if n <= |ds| then n else |ds|
  {
  }
}
