/**
 * The two foreign helpers the core calls: `chitchat_dataset.prepend_cycle`
 * and t5's `_get_latest_checkpoint_from_dir`, each given by its documented behaviour.
 */
module Chitchat {
  import opened Wrappers

  /** `prepend_cycle(xs, prefixes)`: item i gets `prefixes[i % len(prefixes)]` in front. */
  function PrependCycle(xs: seq<string>, prefixes: seq<string>): seq<string>
    requires |prefixes| > 0
  {
    seq(|xs|, i requires 0 <= i < |xs| => prefixes[i % |prefixes|] + xs[i])
  }

  /** The newest checkpoint among the steps found in a model directory: the largest one. */
  function LatestCheckpoint(steps: seq<nat>): (r: Option<nat>)
    ensures r.None? <==> |steps| == 0
    ensures r.Some? ==> r.value in steps && forall k :: 0 <= k < |steps| ==> steps[k] <= r.value
    decreases |steps|
  {
    if |steps| == 0 then None
    else
      match LatestCheckpoint(steps[1..])
      case None => Some(steps[0])
      case Some(m) => Some(if steps[0] >= m then steps[0] else m)
  }
}
