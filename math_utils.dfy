/** The nil-aware `Enumerable#sum` of math_utils.rb: drop the nil elements
    (`compact`), then fold `+` over what is left from the left with no seed
    (`inject`); nil when nothing is left. Ruby's duck-typed `+` is the
    parameter `add`, so one definition serves masses and momenta alike. */
module MathUtils {

  datatype Option<T> = None | Some(value: T)

  /** `compact`: the non-nil elements, in order. */
  function Compact<T>(xs: seq<Option<T>>): (ys: seq<T>)
    ensures |ys| <= |xs|
    ensures |ys| == 0 <==> forall i :: 0 <= i < |xs| ==> xs[i].None?
  {
    if |xs| == 0 then []
    else (if xs[0].Some? then [xs[0].value] else []) + Compact(xs[1..])
  }

  /** `inject` with the accumulator already seeded: a left fold. */
  function Inject<T>(acc: T, ys: seq<T>, add: (T, T) -> T): T
    decreases |ys|
  {
    if |ys| == 0 then acc else Inject(add(acc, ys[0]), ys[1..], add)
  }

  /** `Enumerable#sum`. */
  function Sum<T>(xs: seq<Option<T>>, add: (T, T) -> T): (r: Option<T>)
    ensures r.None? <==> forall i :: 0 <= i < |xs| ==> xs[i].None?
  {
    var ys := Compact(xs);
    if |ys| == 0 then None else Some(Inject(ys[0], ys[1..], add))
  }

  lemma {:induction false} CompactAppend<T>(a: seq<Option<T>>, b: seq<Option<T>>)
    ensures Compact(a + b) == Compact(a) + Compact(b)
  {
    if |a| > 0 {
      assert (a + b)[1..] == a[1..] + b;
      CompactAppend(a[1..], b);
    } else {
      assert a + b == b;
    }
  }

  lemma {:induction false} InjectSnoc<T>(acc: T, ys: seq<T>, y: T, add: (T, T) -> T)
    ensures Inject(acc, ys + [y], add) == add(Inject(acc, ys, add), y)
  {
    if |ys| > 0 {
      assert (ys + [y])[1..] == ys[1..] + [y];
      InjectSnoc(add(acc, ys[0]), ys[1..], y, add);
    }
  }

  /** nil elements are ignored wherever they stand. */
  lemma SumIgnoresNil<T>(a: seq<Option<T>>, b: seq<Option<T>>, add: (T, T) -> T)
    ensures Sum(a + [None] + b, add) == Sum(a + b, add)
  {
    var nil: seq<Option<T>> := [None];
    CompactAppend(a, nil);
    CompactAppend(a + nil, b);
    CompactAppend(a, b);
    assert Compact(nil) == [];
    assert Compact(a + nil + b) == Compact(a + b);
  }

  /** With exactly one non-nil element the sum is that element: `inject`
      without a seed never calls `add`. */
  lemma SumSingle<T>(xs: seq<Option<T>>, k: nat, add: (T, T) -> T)
    requires k < |xs| && xs[k].Some?
    requires forall i :: 0 <= i < |xs| && i != k ==> xs[i].None?
    ensures Sum(xs, add) == xs[k]
  {
    assert xs == xs[..k] + [xs[k]] + xs[k + 1..];
    CompactAppend(xs[..k] + [xs[k]], xs[k + 1..]);
    CompactAppend(xs[..k], [xs[k]]);
    assert Compact([xs[k]]) == [xs[k].value];
  }

  /** Appending a nil-free element to a collection folds it in last (left to
      right order); appending it to an all-nil collection starts the sum. */
  lemma SumSnoc<T>(xs: seq<Option<T>>, v: T, add: (T, T) -> T)
    ensures Sum(xs + [Some(v)], add) ==
            match Sum(xs, add)
            case None => Some(v)
            case Some(s) => Some(add(s, v))
  {
    CompactAppend(xs, [Some(v)]);
    assert Compact([Some(v)]) == [v];
    var ys := Compact(xs);
    if |ys| > 0 {
      assert (ys + [v])[1..] == ys[1..] + [v];
      InjectSnoc(ys[0], ys[1..], v, add);
    }
  }

  /** A collection with no nil in it. */
  function Lift<T>(xs: seq<T>): (ys: seq<Option<T>>)
    ensures |ys| == |xs| && forall i :: 0 <= i < |xs| ==> ys[i] == Some(xs[i])
  {
    seq(|xs|, i requires 0 <= i < |xs| => Some(xs[i]))
  }

  /** A reference sum: a neutral `zero` plus every element, from the right. */
  function Total<T>(zero: T, xs: seq<T>, add: (T, T) -> T): T
  {
    if |xs| == 0 then zero else add(Total(zero, xs[..|xs| - 1], add), xs[|xs| - 1])
  }

  /** On a collection without nils, and for an `add` with a neutral element,
      `sum` is nil exactly when the collection is empty and is otherwise the
      plain total. */
  lemma {:induction false} SumOfPresent<T>(zero: T, xs: seq<T>, add: (T, T) -> T)
    requires forall v :: add(zero, v) == v
    ensures Sum(Lift(xs), add) == if |xs| == 0 then None else Some(Total(zero, xs, add))
  {
    if |xs| > 0 {
      var n := |xs| - 1;
      SumOfPresent(zero, xs[..n], add);
      assert Lift(xs) == Lift(xs[..n]) + [Some(xs[n])];
      SumSnoc(Lift(xs[..n]), xs[n], add);
    }
  }
}
