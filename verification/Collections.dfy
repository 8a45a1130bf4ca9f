/** Sizes of finite sets, and sequences without repetition. */
module Collections {

  lemma SubsetSize<T>(a: set<T>, b: set<T>)
    requires a <= b
    ensures |a| <= |b| && (|a| == |b| <==> a == b)
  {
    assert b == a + (b - a);
  }

  lemma SizeWith<T>(xs: set<T>, x: T)
    ensures |xs + {x}| == |xs| + if x in xs then 0 else 1
  {
    if x in xs {
      assert xs + {x} == xs;
    }
  }

  lemma SizeWithout<T>(xs: set<T>, x: T)
    ensures |xs - {x}| == |xs| - if x in xs then 1 else 0
  {
    if x !in xs {
      assert xs - {x} == xs;
    }
  }

  ghost predicate Distinct<T>(xs: seq<T>) { forall i, j | 0 <= i < j < |xs| :: xs[i] != xs[j] }

  lemma DistinctSnoc<T>(xs: seq<T>, x: T)
    ensures Distinct(xs + [x]) <==> Distinct(xs) && x !in xs
  {
    var n, ys := |xs|, xs + [x];
    assert forall i | 0 <= i < n :: ys[i] == xs[i];
    if Distinct(ys) {
      forall i, j | 0 <= i < j < n ensures xs[i] != xs[j] {
        assert ys[i] != ys[j];
      }
      forall i | 0 <= i < n ensures xs[i] != x {
        assert ys[i] != ys[n];
      }
    }
  }
}
