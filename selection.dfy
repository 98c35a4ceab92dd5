/**
 * The list comprehension `[x for x in xs if keep(x)]` used by both restaurant
 * filters, with its order-preserving selection properties.
 */
module Selection {

  /** `sub` is obtained from `xs` by deleting elements, keeping the rest in order. */
  predicate IsSubsequence<T(==)>(sub: seq<T>, xs: seq<T>)
    decreases |xs|
  {
    || sub == []
    || (xs != [] && sub[0] == xs[0] && IsSubsequence(sub[1..], xs[1..]))
    || (xs != [] && IsSubsequence(sub, xs[1..]))
  }

  /** The elements of `xs` satisfying `keep`, in their original order. */
  function Select<T>(xs: seq<T>, keep: T -> bool): (r: seq<T>)
    ensures |r| <= |xs|
  {
    if xs == [] then []
    else if keep(xs[0]) then [xs[0]] + Select(xs[1..], keep)
    else Select(xs[1..], keep)
  }

  /**
   * Every element of the selection is kept and comes from the input, and an
   * element of the input is in the selection exactly when it is kept.
   */
  lemma {:induction false} SelectMembers<T>(xs: seq<T>, keep: T -> bool)
    ensures forall i :: 0 <= i < |Select(xs, keep)| ==> keep(Select(xs, keep)[i])
    ensures forall i :: 0 <= i < |Select(xs, keep)| ==> Select(xs, keep)[i] in xs
    ensures forall i :: 0 <= i < |xs| ==> (xs[i] in Select(xs, keep) <==> keep(xs[i]))
  {
    if xs != [] {
      SelectMembers(xs[1..], keep);
      assert forall i :: 1 <= i < |xs| ==> xs[i] == xs[1..][i - 1];
    }
  }

  /**
   * Every kept value occurs in the selection as often as in the input, and a
   * value that is not kept does not occur at all: repeated elements are not
   * merged.
   */
  lemma {:induction false} SelectCount<T>(xs: seq<T>, keep: T -> bool)
    ensures forall x :: multiset(Select(xs, keep))[x] == if keep(x) then multiset(xs)[x] else 0
  {
    if xs != [] {
      SelectCount(xs[1..], keep);
      assert xs == [xs[0]] + xs[1..];
      assert multiset(xs) == multiset([xs[0]]) + multiset(xs[1..]);
    }
  }

  /** A subsequence holds no element more often than its sequence. */
  lemma {:induction false} SubsequenceMultiset<T>(sub: seq<T>, xs: seq<T>)
    requires IsSubsequence(sub, xs)
    ensures multiset(sub) <= multiset(xs)
    decreases |xs|
  {
    if sub != [] {
      assert xs == [xs[0]] + xs[1..];
      if sub[0] == xs[0] && IsSubsequence(sub[1..], xs[1..]) {
        SubsequenceMultiset(sub[1..], xs[1..]);
        assert sub == [sub[0]] + sub[1..];
      } else {
        SubsequenceMultiset(sub, xs[1..]);
      }
    }
  }

  /**
   * The selection is the only subsequence of the input holding every kept
   * value as often as the input and no other value: an order-preserving
   * result with these multiplicities is the comprehension's result.
   */
  lemma {:induction false} SelectUnique<T>(r: seq<T>, xs: seq<T>, keep: T -> bool)
    requires IsSubsequence(r, xs)
    requires forall x :: multiset(r)[x] == if keep(x) then multiset(xs)[x] else 0
    ensures r == Select(xs, keep)
    decreases |xs|
  {
    if xs == [] {
      assert r == [];
    } else {
      var h, t := xs[0], xs[1..];
      assert xs == [h] + t;
      assert multiset(xs) == multiset([h]) + multiset(t);
      if keep(h) {
        assert !IsSubsequence(r, t) by {
          if IsSubsequence(r, t) {
            SubsequenceMultiset(r, t);
          }
        }
        assert r == [h] + r[1..];
        assert multiset(r) == multiset([h]) + multiset(r[1..]);
        SelectUnique(r[1..], t, keep);
      } else {
        assert r != [] ==> r[0] != h by {
          if r != [] {
            assert r[0] in multiset(r);
          }
        }
        assert IsSubsequence(r, t);
        forall x ensures multiset(r)[x] == if keep(x) then multiset(t)[x] else 0 {
          if keep(x) {
            assert x != h;
          }
        }
        SelectUnique(r, t, keep);
      }
    }
  }

  /** Selection distributes over concatenation: it never reorders elements. */
  lemma {:induction false} SelectAppend<T>(xs: seq<T>, ys: seq<T>, keep: T -> bool)
    ensures Select(xs + ys, keep) == Select(xs, keep) + Select(ys, keep)
  {
    if xs == [] {
      assert xs + ys == ys;
    } else {
      assert (xs + ys)[1..] == xs[1..] + ys;
      SelectAppend(xs[1..], ys, keep);
    }
  }

  /** Extending the input by one element extends the selection by that element exactly when it is kept. */
  lemma SelectSnoc<T>(xs: seq<T>, x: T, keep: T -> bool)
    ensures Select(xs + [x], keep) == Select(xs, keep) + (if keep(x) then [x] else [])
  {
    SelectAppend(xs, [x], keep);
    assert [x][1..] == [];
  }

  /** The selection of a single element is that element exactly when it is kept. */
  lemma SelectSingleton<T>(x: T, keep: T -> bool)
    ensures Select([x], keep) == if keep(x) then [x] else []
  {
    assert [x][1..] == [];
  }

  /** The selection is a subsequence of its input. */
  lemma {:induction false} SelectIsSubsequence<T>(xs: seq<T>, keep: T -> bool)
    ensures IsSubsequence(Select(xs, keep), xs)
  {
    if xs != [] {
      SelectIsSubsequence(xs[1..], keep);
    }
  }

  /** Keeping everything returns the input unchanged; keeping nothing returns the empty list. */
  lemma {:induction false} SelectExtremes<T>(xs: seq<T>, keep: T -> bool)
    ensures (forall i :: 0 <= i < |xs| ==> keep(xs[i])) ==> Select(xs, keep) == xs
    ensures (forall i :: 0 <= i < |xs| ==> !keep(xs[i])) ==> Select(xs, keep) == []
  {
    if xs != [] {
      SelectExtremes(xs[1..], keep);
    }
  }
}
