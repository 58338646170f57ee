/** Small vocabulary shared by every module of the model. */
module Prelude {

  datatype Option<+T> = None | Some(value: T) {
    function GetOr(default: T): T {
      match this
      case Some(v) => v
      case None => default
    }
  }

  /** The source's exceptions: a value, or the reason it raised. */
  datatype Result<+T> = Ok(value: T) | Error(reason: string)

  predicate Distinct<T(==)>(xs: seq<T>) {
    forall i, j :: 0 <= i < j < |xs| ==> xs[i] != xs[j]
  }

  function ToSet<T>(xs: seq<T>): set<T> {
    set x | x in xs
  }

  function Max(a: int, b: int): int {
    if a >= b then a else b
  }

  /** A list without repetitions has as many entries as members. */
  lemma {:induction false} DistinctSize<T>(xs: seq<T>)
    requires Distinct(xs)
    ensures |ToSet(xs)| == |xs|
  {
    if xs != [] {
      var front, last := xs[..|xs| - 1], xs[|xs| - 1];
      DistinctSize(front);
      assert ToSet(xs) == ToSet(front) + {last};
    }
  }

  lemma DistinctPrefix<T>(a: seq<T>, b: seq<T>)
    requires Distinct(a + b)
    ensures Distinct(a)
    ensures b != [] ==> b[0] !in a
  {
    forall i, j | 0 <= i < j < |a| ensures a[i] != a[j] {
      assert (a + b)[i] == a[i] && (a + b)[j] == a[j];
    }
    if b != [] {
      forall i | 0 <= i < |a| ensures a[i] != b[0] {
        assert (a + b)[i] == a[i] && (a + b)[|a|] == b[0];
      }
    }
  }

  /** A list has at most as many members as entries, and as many only without repetitions. */
  lemma {:induction false} SizeMeansDistinct<T>(xs: seq<T>)
    ensures |ToSet(xs)| <= |xs|
    ensures |ToSet(xs)| == |xs| ==> Distinct(xs)
  {
    if xs != [] {
      var front, last := xs[..|xs| - 1], xs[|xs| - 1];
      SizeMeansDistinct(front);
      assert ToSet(xs) == ToSet(front) + {last};
      if last in front { assert ToSet(xs) == ToSet(front); }
    }
  }

  lemma SubsetSize<T>(a: set<T>, b: set<T>)
    requires a <= b
    ensures |a| <= |b|
    ensures |a| == |b| ==> a == b
  {
    assert b == a + (b - a);
  }
}
