/** Order-preserving selection from a sequence, as the injector's list-building loops do it. */
module Sequences {

  /** The elements of `s` satisfying `p`, in their order in `s`. */
  function Filter<T>(s: seq<T>, p: T -> bool): (r: seq<T>)
    ensures |r| <= |s|
    decreases |s|
  {
    if s == [] then []
    else Filter(s[..|s| - 1], p) + (if p(s[|s| - 1]) then [s[|s| - 1]] else [])
  }

  /** Selecting from two runs one after the other keeps the selections in that order. */
  lemma {:induction false} FilterAppend<T>(a: seq<T>, b: seq<T>, p: T -> bool)
    ensures Filter(a + b, p) == Filter(a, p) + Filter(b, p)
    decreases |b|
  {
    if b == [] {
      assert a + b == a;
    } else {
      var b' := b[..|b| - 1];
      FilterAppend(a, b', p);
      assert (a + b)[..|a + b| - 1] == a + b';
      assert (a + b)[|a + b| - 1] == b[|b| - 1];
    }
  }

  /** Every element satisfying `p` is selected. */
  lemma {:induction false} FilterKeeps<T>(s: seq<T>, p: T -> bool, i: int)
    requires 0 <= i < |s| && p(s[i])
    ensures s[i] in Filter(s, p)
    decreases |s|
  {
    if i < |s| - 1 {
      FilterKeeps(s[..|s| - 1], p, i);
    }
  }

  /** Every selected element comes from `s` and satisfies `p`. */
  lemma {:induction false} FilterSound<T>(s: seq<T>, p: T -> bool, x: T)
    requires x in Filter(s, p)
    ensures x in s && p(x)
    decreases |s|
  {
    var init := s[..|s| - 1];
    if x in Filter(init, p) {
      FilterSound(init, p, x);
      assert x in s by {
        var k :| 0 <= k < |init| && init[k] == x;
        assert s[k] == x;
      }
    }
  }

  /** Nothing is selected exactly when no element satisfies `p`. */
  lemma FilterEmpty<T>(s: seq<T>, p: T -> bool)
    ensures Filter(s, p) == [] <==> forall i :: 0 <= i < |s| ==> !p(s[i])
  {
    if exists i :: 0 <= i < |s| && p(s[i]) {
      var i :| 0 <= i < |s| && p(s[i]);
      FilterKeeps(s, p, i);
    }
  }

  /** When `i` is the only index satisfying `p`, its element alone is selected. */
  lemma {:induction false} FilterOne<T>(s: seq<T>, p: T -> bool, i: int)
    requires 0 <= i < |s| && p(s[i])
    requires forall j :: 0 <= j < |s| && j != i ==> !p(s[j])
    ensures Filter(s, p) == [s[i]]
    decreases |s|
  {
    var init := s[..|s| - 1];
    if i == |s| - 1 {
      forall k | 0 <= k < |init|
        ensures !p(init[k])
      {
        assert init[k] == s[k];
      }
      FilterEmpty(init, p);
    } else {
      assert init[i] == s[i];
      forall k | 0 <= k < |init| && k != i
        ensures !p(init[k])
      {
        assert init[k] == s[k];
      }
      FilterOne(init, p, i);
    }
  }

  /** Selecting from a one-element sequence. */
  lemma FilterSingleton<T>(x: T, p: T -> bool)
    ensures Filter([x], p) == if p(x) then [x] else []
  {
    assert [x][..0] == [];
  }

  /** Two indices satisfying `p` mean at least two selected elements. */
  lemma FilterTwo<T>(s: seq<T>, p: T -> bool, i: int, j: int)
    requires 0 <= i < j < |s| && p(s[i]) && p(s[j])
    ensures |Filter(s, p)| >= 2
  {
    var a, b := s[..j], s[j..];
    assert s == a + b;
    FilterAppend(a, b, p);
    assert a[i] == s[i] && b[0] == s[j];
    FilterEmpty(a, p);
    FilterEmpty(b, p);
  }

  /**
   * How many elements `Filter` selects, told by indices: none, exactly one,
   * or two distinct ones.
   */
  lemma FilterCount<T>(s: seq<T>, p: T -> bool)
    ensures |Filter(s, p)| == 0 <==> forall i :: 0 <= i < |s| ==> !p(s[i])
    ensures |Filter(s, p)| >= 2 <==> exists i, j :: 0 <= i < j < |s| && p(s[i]) && p(s[j])
    ensures |Filter(s, p)| == 1 ==>
              exists i :: 0 <= i < |s| && p(s[i]) && Filter(s, p) == [s[i]]
                          && forall j :: 0 <= j < |s| && j != i ==> !p(s[j])
  {
    FilterEmpty(s, p);
    if exists i, j :: 0 <= i < j < |s| && p(s[i]) && p(s[j]) {
      var i, j :| 0 <= i < j < |s| && p(s[i]) && p(s[j]);
      FilterTwo(s, p, i, j);
    }
    if |Filter(s, p)| == 1 {
      var i :| 0 <= i < |s| && p(s[i]);
      forall j | 0 <= j < |s| && j != i
        ensures !p(s[j])
      {
        if p(s[j]) {
          if i < j {
            FilterTwo(s, p, i, j);
          } else {
            FilterTwo(s, p, j, i);
          }
          assert false;
        }
      }
      FilterOne(s, p, i);
    }
  }
}
