/** Positions in a circular buffer: the k-th item ever stored lives at index k % capacity. */
module Ring {

  lemma {:induction false} MultipleGrows(a: nat, b: nat, capacity: nat)
    requires a < b
    ensures a * capacity + capacity <= b * capacity
    decreases b
  {
    assert b * capacity == (b - 1) * capacity + capacity;
    if a < b - 1 {
      MultipleGrows(a, b - 1, capacity);
    }
  }

  /** Quotient and remainder are determined. */
  lemma RemainderUnique(x: nat, q: nat, r: nat, capacity: nat)
    requires r < capacity && x == q * capacity + r
    ensures x % capacity == r
  {
    var q', r' := x / capacity, x % capacity;
    assert x == q' * capacity + r';
    if q < q' {
      MultipleGrows(q, q', capacity);
    } else if q' < q {
      MultipleGrows(q', q, capacity);
    }
  }

  lemma Shifted(k: nat, i: nat, capacity: nat)
    requires capacity > 0
    ensures (k % capacity + i) % capacity == (k + i) % capacity
  {
    var q, y := k / capacity, k % capacity + i;
    var p, r := y / capacity, y % capacity;
    assert k + i == q * capacity + y;
    assert y == p * capacity + r;
    assert (q + p) * capacity == q * capacity + p * capacity;
    RemainderUnique(k + i, q + p, r, capacity);
  }

  /** The index of the k-th item moves on to that of the next. */
  lemma Advance(index: nat, k: nat, capacity: nat)
    requires capacity > 0 && index == k % capacity
    ensures (index + 1) % capacity == (k + 1) % capacity
  {
    Shifted(k, 1, capacity);
  }

  /** Fewer than `capacity` apart, two items have different indices. */
  lemma Distinct(a: nat, b: nat, capacity: nat)
    requires a < b < a + capacity
    ensures a % capacity != b % capacity
  {
    Shifted(a, b - a, capacity);
    var r := a % capacity;
    if r + (b - a) < capacity {
      RemainderUnique(r + (b - a), 0, r + (b - a), capacity);
    } else {
      RemainderUnique(r + (b - a), 1, r + (b - a) - capacity, capacity);
    }
  }
}
