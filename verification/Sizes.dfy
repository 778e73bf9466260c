/** Batch sizes and rack sizes: small arithmetic shared by the webhook and the reconciler. */
module Sizes {
  import opened Text

  /** An int-or-percent field; Malformed is a string that is not a percentage. */
  datatype IntOrPercent = Int(value: int) | Percent(value: int) | Malformed

  function Max(a: int, b: int): int { if a < b then b else a }

  /** A positive count is taken as it is, a percentage is rounded up, and at least one pod moves. */
  function ResolveIntOrPercent(v: Option<IntOrPercent>, total: nat): (r: int)
    ensures r >= 1
    ensures v.Some? && v.value.Int? && v.value.value >= 1 ==> r == v.value.value
    ensures v.None? || v.value.Malformed? || v.value.value <= 0 ==> r == 1
    ensures v.Some? && v.value.Percent? && v.value.value >= 0 ==>
              100 * r >= v.value.value * total && (r > 1 ==> 100 * (r - 1) < v.value.value * total)
  {
    match v
    case None => 1
    case Some(Int(n)) => Max(n, 1)
    case Some(Percent(p)) => Max(if p * total <= 0 then 0 else (p * total + 99) / 100, 1)
    case Some(Malformed) => 1
  }

  /** The rack-level setting wins over the positive legacy field; one pod otherwise. */
  function RollingUpdateBatchSize(rackLevel: Option<IntOrPercent>, legacy: Option<int>, pods: nat): (r: int)
    ensures r >= 1
    ensures rackLevel.Some? ==> r == ResolveIntOrPercent(rackLevel, pods)
    ensures rackLevel.None? && legacy.Some? && legacy.value >= 1 ==> r == legacy.value
    ensures rackLevel.None? && (legacy.Some? ==> legacy.value <= 1) ==> r == 1
  {
    if rackLevel.Some? then ResolveIntOrPercent(rackLevel, pods)
    else if legacy.Some? && legacy.value > 0 then legacy.value
    else 1
  }

  /** Everything at once unless a batch size is configured. */
  function ScaleDownBatchSize(configured: Option<IntOrPercent>, toRemove: nat): (r: int)
    ensures toRemove >= 1 ==> r >= 1
    ensures configured.None? ==> r == toRemove
    ensures configured.Some? ==> r == ResolveIntOrPercent(configured, toRemove)
  {
    if configured.Some? then ResolveIntOrPercent(configured, toRemove) else toRemove
  }
}
