/** A stand-in for the batching policy the batcher feeds (`Add` at
    lib/input/aws_kinesis_record_batcher.go:70, `Flush` at :79, `CloseAsync`
    at :139). Its own source is not part of this model; this is an assumed
    accumulator with a count threshold (0 disables it). Byte-size and time
    thresholds are not modelled. */
module BatchPolicy {
  import opened Types

  datatype Policy<T> = Policy(count: nat, items: seq<T>, closed: bool)

  function NewPolicy<T>(count: nat): (p: Policy<T>)
    ensures p.count == count && p.items == [] && !p.closed
  {
    Policy(count, [], false)
  }

  /** Appends `item` and reports whether the batch has reached the count threshold. */
  function Add<T>(p: Policy<T>, item: T): (r: (Policy<T>, bool))
    ensures r.0 == p.(items := p.items + [item])
    ensures r.1 <==> p.count > 0 && |p.items| + 1 >= p.count
  {
    var p' := p.(items := p.items + [item]);
    (p', p.count > 0 && |p'.items| >= p.count)
  }

  /** Hands out everything accumulated, in order, or nothing when empty. */
  function Flush<T>(p: Policy<T>): (r: (Policy<T>, Option<seq<T>>))
    ensures r.0 == p.(items := [])
    ensures r.1.None? <==> p.items == []
    ensures r.1.Some? ==> r.1.value == p.items
  {
    if p.items == [] then (p, None) else (p.(items := []), Some(p.items))
  }

  /** Releases the policy's resources. */
  function Close<T>(p: Policy<T>): (r: Policy<T>)
    ensures r == p.(closed := true)
  {
    p.(closed := true)
  }
}
