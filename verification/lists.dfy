/**
  The membership toggle several components apply to an array of identifiers
  (source ids, document ids):
  `prev.includes(x) ? prev.filter(y => y !== x) : [...prev, x]`.
 */
module Lists {

  predicate NoDup(xs: seq<string>) {
    forall i, j :: 0 <= i < j < |xs| ==> xs[i] != xs[j]
  }

  /** `xs.filter(y => y !== x)`: every occurrence of `x` dropped, the rest kept in order. */
  function RemoveAll(xs: seq<string>, x: string): (r: seq<string>)
    ensures x !in r
    ensures forall y :: y != x ==> (y in r <==> y in xs)
    ensures |r| <= |xs|
    ensures x !in xs ==> r == xs
    ensures x in xs ==> |r| < |xs|
  {
    if xs == [] then []
    else if xs[0] == x then RemoveAll(xs[1..], x)
    else [xs[0]] + RemoveAll(xs[1..], x)
  }

  /** Filtering keeps the surviving elements in their original order: the result is a subsequence. */
  lemma {:induction false} RemoveAllKeepsOrder(xs: seq<string>, x: string)
    ensures IsSubsequence(RemoveAll(xs, x), xs)
  {
    if xs != [] {
      RemoveAllKeepsOrder(xs[1..], x);
      if xs[0] != x {
        assert RemoveAll(xs, x)[1..] == RemoveAll(xs[1..], x);
      }
    }
  }

  /** `a` is obtained from `b` by deleting elements. */
  predicate IsSubsequence(a: seq<string>, b: seq<string>)
    decreases |b|
  {
    if a == [] then true
    else if b == [] then false
    else if a[0] == b[0] then IsSubsequence(a[1..], b[1..])
    else IsSubsequence(a, b[1..])
  }

  /** Filtering a duplicate-free list leaves it duplicate-free. */
  lemma {:induction false} RemoveAllNoDup(xs: seq<string>, x: string)
    requires NoDup(xs)
    ensures NoDup(RemoveAll(xs, x))
  {
    if xs != [] {
      assert NoDup(xs[1..]) by {
        forall i, j | 0 <= i < j < |xs[1..]| ensures xs[1..][i] != xs[1..][j] {
          assert xs[1..][i] == xs[i + 1] && xs[1..][j] == xs[j + 1];
        }
      }
      RemoveAllNoDup(xs[1..], x);
      if xs[0] != x {
        var rest := RemoveAll(xs[1..], x);
        assert xs[0] !in xs[1..] by {
          forall k | 0 <= k < |xs[1..]| ensures xs[1..][k] != xs[0] {
            assert xs[1..][k] == xs[k + 1];
          }
        }
        assert xs[0] !in rest;
        forall i, j | 0 <= i < j < |[xs[0]] + rest| ensures ([xs[0]] + rest)[i] != ([xs[0]] + rest)[j] {
          if i == 0 {
            assert ([xs[0]] + rest)[j] == rest[j - 1];
          } else {
            assert ([xs[0]] + rest)[i] == rest[i - 1];
            assert ([xs[0]] + rest)[j] == rest[j - 1];
          }
        }
      }
    }
  }

  /** Removing an element of a duplicate-free list shortens it by exactly one. */
  lemma {:induction false} RemoveAllOnce(xs: seq<string>, x: string)
    requires NoDup(xs) && x in xs
    ensures |RemoveAll(xs, x)| == |xs| - 1
  {
    if xs[0] == x {
      assert x !in xs[1..] by {
        forall k | 0 <= k < |xs[1..]| ensures xs[1..][k] != x {
          assert xs[1..][k] == xs[k + 1];
        }
      }
    } else {
      assert x in xs[1..] by {
        var k :| 0 <= k < |xs| && xs[k] == x;
        assert xs[1..][k - 1] == x;
      }
      assert NoDup(xs[1..]) by {
        forall i, j | 0 <= i < j < |xs[1..]| ensures xs[1..][i] != xs[1..][j] {
          assert xs[1..][i] == xs[i + 1] && xs[1..][j] == xs[j + 1];
        }
      }
      RemoveAllOnce(xs[1..], x);
    }
  }

  /**
    The toggle: an absent element is appended at the end, a present one is removed
    everywhere; membership of every other element is unchanged.
   */
  function Toggle(xs: seq<string>, x: string): (r: seq<string>)
    ensures x in r <==> x !in xs
    ensures forall y :: y != x ==> (y in r <==> y in xs)
    ensures x !in xs ==> r == xs + [x]
    ensures x in xs ==> |r| < |xs|
  {
    if x in xs then RemoveAll(xs, x) else xs + [x]
  }

  /** The toggle never introduces a duplicate. */
  lemma ToggleNoDup(xs: seq<string>, x: string)
    requires NoDup(xs)
    ensures NoDup(Toggle(xs, x))
  {
    if x in xs {
      RemoveAllNoDup(xs, x);
    } else {
      var r := xs + [x];
      forall i, j | 0 <= i < j < |r| ensures r[i] != r[j] {
        if j == |xs| {
          assert r[i] == xs[i];
        } else {
          assert r[i] == xs[i] && r[j] == xs[j];
        }
      }
    }
  }

  /** Toggling an absent element twice gives the list back exactly. */
  lemma ToggleTwiceAbsent(xs: seq<string>, x: string)
    requires x !in xs
    ensures Toggle(Toggle(xs, x), x) == xs
  {
    RemoveAllAppend(xs, x);
  }

  lemma {:induction false} RemoveAllAppend(xs: seq<string>, x: string)
    requires x !in xs
    ensures RemoveAll(xs + [x], x) == xs
  {
    if xs == [] {
      assert [] + [x] == [x];
    } else {
      assert (xs + [x])[0] == xs[0];
      assert (xs + [x])[1..] == xs[1..] + [x];
      RemoveAllAppend(xs[1..], x);
    }
  }

  /**
    Toggling a present element twice restores the membership of every element and,
    on a duplicate-free list, the length; the element moves to the end.
   */
  lemma ToggleTwicePresent(xs: seq<string>, x: string)
    requires NoDup(xs) && x in xs
    ensures Toggle(Toggle(xs, x), x) == RemoveAll(xs, x) + [x]
    ensures forall y :: y in Toggle(Toggle(xs, x), x) <==> y in xs
    ensures |Toggle(Toggle(xs, x), x)| == |xs|
  {
    RemoveAllOnce(xs, x);
  }

  /** So on duplicate-free lists toggling twice is the identity on order only when the element was absent or last. */
  lemma ToggleTwiceReorders()
    ensures NoDup(["local", "s3"]) && Toggle(Toggle(["local", "s3"], "local"), "local") == ["s3", "local"]
  {
    assert RemoveAll(["local", "s3"], "local") == ["s3"] by {
      assert ["local", "s3"][1..] == ["s3"];
      assert RemoveAll(["s3"], "local") == ["s3"] + RemoveAll([], "local");
    }
  }
}
