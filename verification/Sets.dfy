/** Picking an element of a finite set, shared by the proofs that recurse over sets. */
module Sets {
  lemma Pick<T>(s: set<T>) returns (x: T)
    requires s != {}
    ensures x in s
  {
    x :| x in s;
  }
}
