/** Notions shared by the machines. */
module Threads {

  /** Thread ids are non-zero and distinct.  One slot per id: when the operating system reuses the id of a thread that
      has exited, the later thread goes on in the same slot, so it starts with what its predecessor had seen. */
  predicate GoodIds(ids: seq<nat>)
  {
    && (forall i :: 0 <= i < |ids| ==> ids[i] != 0)
    && (forall i, j :: 0 <= i < j < |ids| ==> ids[i] != ids[j])
  }

  /** Who holds a mutex. */
  datatype Holder = Free | HeldBy(t: nat)

  // ---- Lists of what was done, kept in step ----

  lemma Assoc<T>(a: seq<T>, b: seq<T>, c: seq<T>)
    ensures (a + b) + c == a + (b + c) && [] + a == a && a + [] == a
  {
  }

  /** Two stretches of a run, each turning what is pending before and done in it into results and what is pending
      after, make one. */
  lemma Regroup<T>(p: seq<T>, e: seq<T>, r: seq<T>, p': seq<T>, es: seq<T>, rs: seq<T>, p'': seq<T>)
    requires p + e == r + p' && p' + es == rs + p''
    ensures p + (e + es) == (r + rs) + p''
  {
    assert p + (e + es) == (p + e) + es;
    assert (r + p') + es == r + (p' + es);
    assert r + (rs + p'') == (r + rs) + p'';
  }
}
