/** The id-list operations the handlers use on Mongoose arrays: `includes`, `push`,
    `pull` / `$pull` and `$addToSet`, and the duplicate-freedom the routes maintain. */
module Lists {

  /** No element occurs twice. */
  ghost predicate NoDup<T>(xs: seq<T>)
  {
    forall i, j :: 0 <= i < j < |xs| ==> xs[i] != xs[j]
  }

  /** `array.pull(x)` and `{ $pull: { field: x } }`: every occurrence of `x` goes, the rest keeps its order. */
  function Pull<T(==,!new)>(xs: seq<T>, x: T): (r: seq<T>)
    ensures forall y :: y in r <==> y in xs && y != x
    ensures |r| <= |xs|
    ensures x !in xs ==> r == xs
  {
    if xs == [] then []
    else if xs[0] == x then Pull(xs[1..], x)
    else [xs[0]] + Pull(xs[1..], x)
  }

  /** `{ $addToSet: { field: x } }`: appends `x` unless it is already there. */
  function AddToSet<T(==,!new)>(xs: seq<T>, x: T): (r: seq<T>)
    ensures forall y :: y in r <==> y in xs || y == x
  {
    if x in xs then xs else xs + [x]
  }

  /** `array.filter(keep)`: the elements of `xs` that are in `keep`, in order. */
  function KeepIn<T(==,!new)>(xs: seq<T>, keep: set<T>): (r: seq<T>)
    ensures forall y :: y in r <==> y in xs && y in keep
    ensures (forall y :: y in xs ==> y in keep) ==> r == xs
  {
    if xs == [] then []
    else if xs[0] in keep then [xs[0]] + KeepIn(xs[1..], keep)
    else KeepIn(xs[1..], keep)
  }

  lemma NoDupAppend<T>(xs: seq<T>, x: T)
    requires NoDup(xs) && x !in xs
    ensures NoDup(xs + [x])
  {
  }

  /** `$addToSet` never creates a duplicate. */
  lemma AddToSetNoDup<T(!new)>(xs: seq<T>, x: T)
    requires NoDup(xs)
    ensures NoDup(AddToSet(xs, x))
  {
    if x !in xs {
      NoDupAppend(xs, x);
    }
  }

  /** Pulling never creates a duplicate. */
  lemma {:induction false} PullNoDup<T(!new)>(xs: seq<T>, x: T)
    requires NoDup(xs)
    ensures NoDup(Pull(xs, x))
  {
    if xs != [] {
      assert NoDup(xs[1..]) by {
        forall i, j | 0 <= i < j < |xs[1..]| ensures xs[1..][i] != xs[1..][j] {
          assert xs[1..][i] == xs[i + 1] && xs[1..][j] == xs[j + 1];
        }
      }
      PullNoDup(xs[1..], x);
      if xs[0] != x {
        var rest := Pull(xs[1..], x);
        assert xs[0] !in xs[1..] by {
          forall k | 0 <= k < |xs[1..]| ensures xs[1..][k] != xs[0] {
            assert xs[1..][k] == xs[k + 1];
          }
        }
        forall i, j | 0 <= i < j < |[xs[0]] + rest| ensures ([xs[0]] + rest)[i] != ([xs[0]] + rest)[j] {
          if i > 0 {
            assert ([xs[0]] + rest)[i] == rest[i - 1];
          }
        }
      }
    }
  }

  /** Pulling what was just pushed gives back the list it was pushed onto. */
  lemma {:induction false} PullAfterPush<T(!new)>(xs: seq<T>, x: T)
    requires x !in xs
    ensures Pull(xs + [x], x) == xs
  {
    if xs == [] {
      assert [x][1..] == [];
    } else {
      assert (xs + [x])[1..] == xs[1..] + [x];
      PullAfterPush(xs[1..], x);
      assert [xs[0]] + xs[1..] == xs;
    }
  }

  /** For a list that does not hold `x`, `$addToSet` followed by `$pull` of `x` changes nothing. */
  lemma PullAfterAddToSet<T(!new)>(xs: seq<T>, x: T)
    requires x !in xs
    ensures Pull(AddToSet(xs, x), x) == xs
  {
    PullAfterPush(xs, x);
  }
}
