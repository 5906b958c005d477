/** Finite sets: their sizes, and the elements of a list. */
module Sets {

  function Elements<T>(list: seq<T>): set<T> {
    set x | x in list
  }

  lemma SubsetSize<T>(a: set<T>, b: set<T>)
    requires a <= b
    ensures |a| <= |b|
    ensures |a| == |b| ==> a == b
  {
    assert b == a + (b - a);
  }
}
