/** The in-order filter-and-collect both `html_parser` and `validate_products`
    perform: each element is turned into an optional result, and the results
    that exist are appended to the output list in input order. */
module Collections {
  import opened Wrappers

  /** `[f(x) for x in xs if f(x) is not None]`, built from the last element so
      that it follows a loop that appends as it goes. */
  function FilterMap<A, B>(xs: seq<A>, f: A -> Option<B>): (r: seq<B>)
    ensures |r| <= |xs|
  {
    if xs == [] then []
    else
      FilterMap(xs[..|xs| - 1], f)
      + (if f(xs[|xs| - 1]).Some? then [f(xs[|xs| - 1]).value] else [])
  }

  /** Extending the input by one element extends the output by that element's
      result, if it has one. */
  lemma FilterMapSnoc<A, B>(xs: seq<A>, x: A, f: A -> Option<B>)
    ensures FilterMap(xs + [x], f)
            == FilterMap(xs, f) + (if f(x).Some? then [f(x).value] else [])
  {
    assert (xs + [x])[..|xs|] == xs;
  }

  /** One step of a loop that walks `xs` and appends each result that exists. */
  lemma FilterMapStep<A, B>(xs: seq<A>, i: nat, f: A -> Option<B>, r: Option<B>)
    requires i < |xs| && r == f(xs[i])
    ensures FilterMap(xs[..i + 1], f)
            == FilterMap(xs[..i], f) + (if r.Some? then [r.value] else [])
  {
    assert xs[..i + 1] == xs[..i] + [xs[i]];
    FilterMapSnoc(xs[..i], xs[i], f);
  }

  /** `idx` lists, increasing, the positions of `xs` whose result exists,
      and `out` holds those results in the same order. */
  ghost predicate Enumerates<A, B>(xs: seq<A>, f: A -> Option<B>, idx: seq<nat>, out: seq<B>)
  {
    |idx| == |out|
    && (forall k :: 0 <= k < |idx| ==> idx[k] < |xs| && f(xs[idx[k]]) == Some(out[k]))
    && (forall k, l :: 0 <= k < l < |idx| ==> idx[k] < idx[l])
    && (forall i :: 0 <= i < |xs| && f(xs[i]).Some? ==> i in idx)
  }

  /** The output is exactly the results of the inputs that have one, in input
      order: `idx` lists, increasing, the positions whose result exists. */
  lemma {:induction false} FilterMapIndices<A, B>(xs: seq<A>, f: A -> Option<B>)
      returns (idx: seq<nat>)
    ensures |idx| == |FilterMap(xs, f)|
    ensures forall k :: 0 <= k < |idx| ==>
              idx[k] < |xs| && f(xs[idx[k]]) == Some(FilterMap(xs, f)[k])
    ensures forall k, l :: 0 <= k < l < |idx| ==> idx[k] < idx[l]
    ensures forall i :: 0 <= i < |xs| && f(xs[i]).Some? ==> i in idx
    decreases |xs|
  {
    if xs == [] {
      idx := [];
    } else {
      var n := |xs| - 1;
      var prev := FilterMapIndices(xs[..n], f);
      assert xs == xs[..n] + [xs[n]];
      idx := EnumerateSnoc(xs[..n], xs[n], f, prev);
    }
  }

  lemma EnumerateSnoc<A, B>(init: seq<A>, x: A, f: A -> Option<B>, prev: seq<nat>)
      returns (idx: seq<nat>)
    requires Enumerates(init, f, prev, FilterMap(init, f))
    ensures Enumerates(init + [x], f, idx, FilterMap(init + [x], f))
  {
    var xs := init + [x];
    var n := |init|;
    FilterMapSnoc(init, x, f);
    assert forall i :: 0 <= i < n ==> xs[i] == init[i];
    if f(x).Some? {
      idx := prev + [n];
      assert xs[n] == x;
    } else {
      idx := prev;
    }
  }

  /** Everything in the output is the result of some input... */
  lemma {:induction false} FilterMapSource<A, B>(xs: seq<A>, f: A -> Option<B>, y: B)
      returns (i: nat)
    requires y in FilterMap(xs, f)
    ensures i < |xs| && f(xs[i]) == Some(y)
    decreases |xs|
  {
    var n := |xs| - 1;
    if y in FilterMap(xs[..n], f) {
      i := FilterMapSource(xs[..n], f, y);
      assert xs[..n][i] == xs[i];
    } else {
      i := n;
    }
  }

  /** ...and every result of an input is in the output. */
  lemma {:induction false} FilterMapIncludes<A, B>(xs: seq<A>, f: A -> Option<B>, i: nat)
    requires i < |xs| && f(xs[i]).Some?
    ensures f(xs[i]).value in FilterMap(xs, f)
    decreases |xs|
  {
    var n := |xs| - 1;
    if i < n {
      assert xs[..n][i] == xs[i];
      FilterMapIncludes(xs[..n], f, i);
    }
  }
}
