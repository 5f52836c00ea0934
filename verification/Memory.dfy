/** The modification order of one atomic word (section 5.1.2.4 of ISO/IEC 9899:2011), and the position each
    thread has reached in it.  A write may enter the order anywhere after what its thread has seen, so positions
    behind the new write move up by one. */
module Memory {

  function Insert<T>(order: seq<T>, p: nat, x: T): seq<T>
    requires p <= |order|
  {
    order[..p] + [x] + order[p..]
  }

  /** Positions after inserting at p; the writer has now seen its own write. */
  function Shift(seen: seq<nat>, p: nat, writer: nat): (r: seq<nat>)
    ensures |r| == |seen|
    ensures forall u :: 0 <= u < |seen| ==>
      r[u] == if u == writer then p else if seen[u] >= p then seen[u] + 1 else seen[u]
  {
    seq(|seen|, u requires 0 <= u < |seen| =>
      if u == writer then p else if seen[u] >= p then seen[u] + 1 else seen[u])
  }

  function Max(a: nat, b: nat): nat
  {
    if a < b then b else a
  }

  /** Every position holds what it held, moved up when it is not before the insertion. */
  lemma InsertKeeps<T>(order: seq<T>, p: nat, x: T)
    requires p <= |order|
    ensures |Insert(order, p, x)| == |order| + 1
    ensures forall k :: 0 <= k < p ==> Insert(order, p, x)[k] == order[k]
    ensures Insert(order, p, x)[p] == x
    ensures forall k :: p < k <= |order| ==> Insert(order, p, x)[k] == order[k - 1]
  {
  }
}
