/** `Array.prototype.filter` and the push-when-matched scans the extractors use. */
module Seqs {
  import opened Wrappers

  /** Keeps, in order, the elements satisfying `p`. */
  function Filter<T>(xs: seq<T>, p: T -> bool): (r: seq<T>)
    ensures |r| <= |xs|
    ensures forall y | y in r :: y in xs && p(y)
    ensures forall x | x in xs && p(x) :: x in r
    ensures (forall x | x in xs :: !p(x)) ==> r == []
  {
    if |xs| == 0 then []
    else if p(xs[0]) then [xs[0]] + Filter(xs[1..], p)
    else Filter(xs[1..], p)
  }

  /** The first element satisfying `p` heads the filtered list. */
  lemma {:induction false} FilterHead<T>(xs: seq<T>, p: T -> bool, i: int)
    requires 0 <= i < |xs| && p(xs[i])
    requires forall j | 0 <= j < i :: !p(xs[j])
    ensures Filter(xs, p) != [] && Filter(xs, p)[0] == xs[i]
  {
    if i > 0 {
      FilterHead(xs[1..], p, i - 1);
    }
  }

  /** A list whose elements all satisfy `p` filters to itself. */
  lemma {:induction false} FilterAll<T>(xs: seq<T>, p: T -> bool)
    requires forall x | x in xs :: p(x)
    ensures Filter(xs, p) == xs
  {
    if |xs| > 0 {
      FilterAll(xs[1..], p);
    }
  }

  /** Filtering a concatenation filters its parts one after the other: the
      kept elements stay in their original order. */
  lemma {:induction false} FilterAppend<T>(xs: seq<T>, ys: seq<T>, p: T -> bool)
    ensures Filter(xs + ys, p) == Filter(xs, p) + Filter(ys, p)
    decreases |xs|
  {
    if |xs| > 0 {
      assert (xs + ys)[1..] == xs[1..] + ys;
      FilterAppend(xs[1..], ys, p);
    } else {
      assert xs + ys == ys;
    }
  }

  /** Each kept element is kept as often as it occurs; the others never. */
  lemma {:induction false} FilterCount<T>(xs: seq<T>, p: T -> bool, x: T)
    ensures multiset(Filter(xs, p))[x] == if p(x) then multiset(xs)[x] else 0
    decreases |xs|
  {
    if |xs| > 0 {
      FilterCount(xs[1..], p, x);
      assert xs == [xs[0]] + xs[1..];
      assert multiset(xs) == multiset([xs[0]]) + multiset(xs[1..]);
    }
  }

  /** Visits `xs` in order and keeps every `f(x)` that is present: the shape of
      a `.each` callback that pushes a record for some elements only. */
  function FilterMap<A, B>(xs: seq<A>, f: A -> Option<B>): (r: seq<B>)
    ensures |r| <= |xs|
    ensures forall y | y in r :: exists x | x in xs :: f(x) == Some(y)
    ensures (forall x | x in xs :: f(x).None?) <==> r == []
  {
    if |xs| == 0 then []
    else match f(xs[0])
      case Some(y) => [y] + FilterMap(xs[1..], f)
      case None => FilterMap(xs[1..], f)
  }

  /** Scanning a concatenation scans its parts one after the other. */
  lemma {:induction false} FilterMapAppend<A, B>(xs: seq<A>, ys: seq<A>, f: A -> Option<B>)
    ensures FilterMap(xs + ys, f) == FilterMap(xs, f) + FilterMap(ys, f)
  {
    if |xs| > 0 {
      assert (xs + ys)[1..] == xs[1..] + ys;
      FilterMapAppend(xs[1..], ys, f);
    } else {
      assert xs + ys == ys;
    }
  }

  /** A list that arrived and in which the scan with `f` finds something. */
  predicate Finds<A, B, E>(list: Result<seq<A>, E>, f: A -> Option<B>) {
    list.Ok? && FilterMap(list.value, f) != []
  }

  /** Scans the lists in order, skipping those that failed to arrive, and stops
      at the first one in which the scan finds something. */
  function FirstFound<A, B, E>(lists: seq<Result<seq<A>, E>>, f: A -> Option<B>): (r: seq<B>)
    ensures r != [] ==> exists k | 0 <= k < |lists| :: lists[k].Ok? && r == FilterMap(lists[k].value, f)
    decreases |lists|
  {
    if |lists| == 0 then []
    else match lists[0]
      case Err(_) => FirstFound(lists[1..], f)
      case Ok(xs) =>
        var found := FilterMap(xs, f);
        if |found| > 0 then found else FirstFound(lists[1..], f)
  }

  /** The scan yields exactly what the first successful list finds. */
  lemma {:induction false} FirstFoundIsFirst<A, B, E>(lists: seq<Result<seq<A>, E>>, f: A -> Option<B>, k: nat)
    requires k < |lists| && Finds(lists[k], f)
    requires forall j | 0 <= j < k :: !Finds(lists[j], f)
    ensures FirstFound(lists, f) == FilterMap(lists[k].value, f)
    decreases k
  {
    if k > 0 {
      assert !Finds(lists[0], f);
      FirstFoundIsFirst(lists[1..], f, k - 1);
    }
  }

  /** The scan comes back empty exactly when no list finds anything. */
  lemma {:induction false} FirstFoundEmpty<A, B, E>(lists: seq<Result<seq<A>, E>>, f: A -> Option<B>)
    ensures FirstFound(lists, f) == [] <==> forall k | 0 <= k < |lists| :: !Finds(lists[k], f)
    decreases |lists|
  {
    if |lists| > 0 {
      FirstFoundEmpty(lists[1..], f);
      if !Finds(lists[0], f) {
        assert forall k | 1 <= k < |lists| :: lists[k] == lists[1..][k - 1];
      }
    }
  }
}
