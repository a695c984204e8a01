/** The array operations every record page is built from: `filter`, a `map`
    that rewrites the selected elements, `find`, appending, and the
    include-or-remove toggle used for tag lists. */
module Lists {
  import opened Wrappers

  /** No value appears twice. */
  ghost predicate NoDuplicates<T>(xs: seq<T>) {
    forall i, j :: 0 <= i < j < |xs| ==> xs[i] != xs[j]
  }

  /** `a` is `b` with some elements left out: same relative order. */
  ghost predicate Subsequence<T>(a: seq<T>, b: seq<T>)
    decreases |b|
  {
    a == [] || (b != [] && ((a[0] == b[0] && Subsequence(a[1..], b[1..])) || Subsequence(a, b[1..])))
  }

  lemma {:induction false} SubsequenceReflexive<T>(xs: seq<T>)
    ensures Subsequence(xs, xs)
    decreases |xs|
  {
    if xs != [] {
      SubsequenceReflexive(xs[1..]);
    }
  }

  /** `xs.filter(keep)`: the elements satisfying `keep`, in their original order. */
  function Filter<T(!new)>(xs: seq<T>, keep: T -> bool): (r: seq<T>)
    ensures |r| <= |xs|
    ensures forall x :: x in r <==> x in xs && keep(x)
    ensures Subsequence(r, xs)
    ensures (forall i :: 0 <= i < |xs| ==> keep(xs[i])) ==> r == xs
    ensures (forall i :: 0 <= i < |xs| ==> !keep(xs[i])) ==> r == []
    decreases |xs|
  {
    if xs == [] then []
    else if keep(xs[0]) then [xs[0]] + Filter(xs[1..], keep)
    else Filter(xs[1..], keep)
  }

  /** `filter` keeps every copy of a kept value and no copy of a dropped
      one; with `Subsequence` this pins the result down completely. */
  lemma {:induction false} FilterCounts<T(!new)>(xs: seq<T>, keep: T -> bool)
    ensures forall x :: multiset(Filter(xs, keep))[x] == if keep(x) then multiset(xs)[x] else 0
    decreases |xs|
  {
    if xs != [] {
      FilterCounts(xs[1..], keep);
      assert xs == [xs[0]] + xs[1..];
      assert multiset(xs) == multiset([xs[0]]) + multiset(xs[1..]);
      if keep(xs[0]) {
        var rest := Filter(xs[1..], keep);
        assert multiset([xs[0]] + rest) == multiset([xs[0]]) + multiset(rest);
      }
    }
  }

  /** Filtering out the one element at `i` that `keep` rejects, when it
      rejects no other, shortens the list by exactly one. */
  lemma {:induction false} FilterDropsOne<T(!new)>(xs: seq<T>, keep: T -> bool, i: int)
    requires 0 <= i < |xs| && !keep(xs[i])
    requires forall j :: 0 <= j < |xs| && j != i ==> keep(xs[j])
    ensures |Filter(xs, keep)| == |xs| - 1
    decreases |xs|
  {
    if i > 0 {
      FilterDropsOne(xs[1..], keep, i - 1);
    } else {
      assert forall j :: 0 <= j < |xs[1..]| ==> keep(xs[1..][j]);
    }
  }

  /** Filtering out any element at all makes the list strictly shorter. */
  lemma {:induction false} FilterShorter<T(!new)>(xs: seq<T>, keep: T -> bool, i: int)
    requires 0 <= i < |xs| && !keep(xs[i])
    ensures |Filter(xs, keep)| < |xs|
    decreases |xs|
  {
    if i > 0 {
      FilterShorter(xs[1..], keep, i - 1);
    }
  }

  /** Filtering distributes over concatenation, which pins down the order of
      the result: the kept elements of `xs` come first, in the order of `xs`,
      then those of `ys`. */
  lemma {:induction false} FilterAppend<T(!new)>(xs: seq<T>, ys: seq<T>, keep: T -> bool)
    ensures Filter(xs + ys, keep) == Filter(xs, keep) + Filter(ys, keep)
    decreases |xs|
  {
    if xs == [] {
      assert xs + ys == ys;
    } else {
      assert (xs + ys)[0] == xs[0];
      assert (xs + ys)[1..] == xs[1..] + ys;
      FilterAppend(xs[1..], ys, keep);
    }
  }

  /** A list without duplicates keeps that property through a filter. */
  lemma {:induction false} FilterNoDuplicates<T(!new)>(xs: seq<T>, keep: T -> bool)
    requires NoDuplicates(xs)
    ensures NoDuplicates(Filter(xs, keep))
    decreases |xs|
  {
    if xs != [] {
      assert NoDuplicates(xs[1..]) by {
        forall i, j | 0 <= i < j < |xs[1..]|
          ensures xs[1..][i] != xs[1..][j]
        {
          assert xs[1..][i] == xs[i + 1] && xs[1..][j] == xs[j + 1];
        }
      }
      FilterNoDuplicates(xs[1..], keep);
      assert xs[0] !in xs[1..];
    }
  }

  /** `xs.map(x => sel(x) ? f(x) : x)`: every selected element is rewritten by
      `f`, every other element is kept, and the positions do not move. */
  function MapWhere<T>(xs: seq<T>, sel: T -> bool, f: T -> T): (r: seq<T>)
    ensures |r| == |xs|
    ensures forall i :: 0 <= i < |xs| ==> r[i] == (if sel(xs[i]) then f(xs[i]) else xs[i])
    decreases |xs|
  {
    if xs == [] then []
    else [if sel(xs[0]) then f(xs[0]) else xs[0]] + MapWhere(xs[1..], sel, f)
  }

  /** When no element is selected, or `f` leaves every selected element as it
      is, the rewrite changes nothing. */
  lemma MapWhereUnchanged<T>(xs: seq<T>, sel: T -> bool, f: T -> T)
    requires forall i :: 0 <= i < |xs| && sel(xs[i]) ==> f(xs[i]) == xs[i]
    ensures MapWhere(xs, sel, f) == xs
  {
  }

  /** `xs.find(p)`: the first element satisfying `p`, if any. */
  function Find<T>(xs: seq<T>, p: T -> bool): (r: Option<T>)
    ensures r.None? <==> forall i :: 0 <= i < |xs| ==> !p(xs[i])
    ensures r.Some? ==>
      exists i :: 0 <= i < |xs| && xs[i] == r.value && p(xs[i])
                  && forall j :: 0 <= j < i ==> !p(xs[j])
    decreases |xs|
  {
    if xs == [] then None
    else if p(xs[0]) then Some(xs[0])
    else
      var r := Find(xs[1..], p);
      assert r.Some? ==> exists i :: 0 <= i < |xs[1..]| && xs[1..][i] == r.value && p(xs[1..][i])
                                    && forall j :: 0 <= j < i ==> !p(xs[1..][j]);
      assert r.Some? ==> exists i :: 1 <= i < |xs| && xs[i] == r.value && p(xs[i])
                                    && forall j :: 0 <= j < i ==> !p(xs[j]);
      r
  }

  /** The `includes(x) ? filter(t => t !== x) : [...xs, x]` toggle: flips the
      membership of `x` and of nothing else. */
  function Toggle<T(==,!new)>(xs: seq<T>, x: T): (r: seq<T>)
    ensures x in r <==> x !in xs
    ensures forall y :: y != x ==> (y in r <==> y in xs)
  {
    if x in xs then Filter(xs, y => y != x) else xs + [x]
  }

  /** Toggling an absent value twice gives back the original list. */
  lemma ToggleTwice<T(!new)>(xs: seq<T>, x: T)
    requires x !in xs
    ensures Toggle(Toggle(xs, x), x) == xs
  {
    FilterAppend(xs, [x], y => y != x);
  }

  /** A toggle never introduces a duplicate. */
  lemma ToggleNoDuplicates<T(!new)>(xs: seq<T>, x: T)
    requires NoDuplicates(xs)
    ensures NoDuplicates(Toggle(xs, x))
  {
    if x in xs {
      FilterNoDuplicates(xs, y => y != x);
    }
  }
}
