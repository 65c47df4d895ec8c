/** Sequences without repetition, and the sets of their elements. */
module Collections {

  ghost predicate NoDuplicates<T>(items: seq<T>) {
    forall i, j | 0 <= i < j < |items| :: items[i] != items[j]
  }

  function Elements<T>(items: seq<T>): set<T> {
    set x | x in items
  }

  lemma {:induction false} ElementCount<T>(items: seq<T>)
    requires NoDuplicates(items)
    ensures |Elements(items)| == |items|
  {
    if items != [] {
      var n := |items| - 1;
      ElementCount(items[..n]);
      assert items == items[..n] + [items[n]];
      assert Elements(items) == Elements(items[..n]) + {items[n]};
    }
  }

  lemma SubsetSize<T>(a: set<T>, b: set<T>)
    requires a <= b
    ensures |a| <= |b|
  {
    assert b == a + (b - a);
  }

  lemma ConcatIsAssociative<T>(a: seq<T>, b: seq<T>, c: seq<T>)
    ensures a + (b + c) == a + b + c
  {
  }
}
