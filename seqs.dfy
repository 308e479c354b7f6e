/** Small facts about sequences shared by the list-splicing proofs. */
module Seqs {
  /** A list is its prefix, a middle slice and its suffix. */
  lemma SplitAround<T>(s: seq<T>, lo: nat, hi: nat)
    requires lo <= hi <= |s|
    ensures s == s[..lo] + s[lo..hi] + s[hi..]
  {
  }

  /** Concatenation is associative. */
  lemma Regroup<T>(a: seq<T>, b: seq<T>, c: seq<T>)
    ensures a + b + c == a + (b + c)
  {
  }

  /** An empty part can be moved across another one. */
  lemma MoveToFront<T>(front: seq<T>, ob: seq<T>, oa: seq<T>)
    ensures front == [] || ob == [] ==> front + (ob + oa) == ob + (front + oa)
  {
    if front == [] {
      assert front + (ob + oa) == ob + oa;
    } else if ob == [] {
      assert ob + (front + oa) == front + oa;
    }
  }

  /** A slice grows by the element at its end. */
  lemma SliceSnoc<T>(s: seq<T>, lo: nat, hi: nat)
    requires lo <= hi < |s|
    ensures s[lo..hi + 1] == s[lo..hi] + [s[hi]]
  {
  }
}
