/** Generic sequence helpers: element sets, first occurrences, flattening,
    and the order-preserving "first sighting" filter that both the visited-URL
    filter and the row de-duplication are instances of. */
module Seqs {

  function Elems<T>(xs: seq<T>): set<T> {
    set x | x in xs
  }

  /** Position of the first occurrence of `x` in `xs`. */
  function FirstIndex<T(==)>(xs: seq<T>, x: T): (i: nat)
    requires x in xs
    ensures i < |xs| && xs[i] == x && x !in xs[..i]
  {
    if xs[0] == x then 0 else 1 + FirstIndex(xs[1..], x)
  }

  /** The elements of `xs` that are neither in `seen` nor occur earlier in
      `xs`, in input order. */
  function FirstSightings<T>(seen: set<T>, xs: seq<T>): seq<T>
    decreases |xs|
  {
    if |xs| == 0 then []
    else
      var init := xs[..|xs| - 1];
      var u := xs[|xs| - 1];
      FirstSightings(seen, init) + (if u !in seen && u !in init then [u] else [])
  }

  /** The filter keeps exactly the unseen elements of the input. */
  lemma {:induction false} FirstSightingsMembers<T>(seen: set<T>, xs: seq<T>)
    ensures forall u :: u in FirstSightings(seen, xs) <==> u in xs && u !in seen
    ensures forall i | 0 <= i < |FirstSightings(seen, xs)| ::
      FirstSightings(seen, xs)[i] in xs && FirstSightings(seen, xs)[i] !in seen
    decreases |xs|
  {
    if |xs| > 0 {
      var init := xs[..|xs| - 1];
      FirstSightingsMembers(seen, init);
      assert xs == init + [xs[|xs| - 1]];
    }
  }

  /** No element is returned twice, even when the input repeats it. */
  lemma {:induction false} FirstSightingsDistinct<T>(seen: set<T>, xs: seq<T>)
    ensures forall i, j | 0 <= i < j < |FirstSightings(seen, xs)| ::
      FirstSightings(seen, xs)[i] != FirstSightings(seen, xs)[j]
    decreases |xs|
  {
    if |xs| > 0 {
      var init := xs[..|xs| - 1];
      FirstSightingsDistinct(seen, init);
      FirstSightingsMembers(seen, init);
    }
  }

  /** Returned elements appear in the order of their first occurrence in the input. */
  lemma {:induction false} FirstSightingsOrdered<T>(seen: set<T>, xs: seq<T>)
    ensures forall u | u in FirstSightings(seen, xs) :: u in xs
    ensures forall i, j | 0 <= i < j < |FirstSightings(seen, xs)| ::
      FirstIndex(xs, FirstSightings(seen, xs)[i]) < FirstIndex(xs, FirstSightings(seen, xs)[j])
    decreases |xs|
  {
    FirstSightingsMembers(seen, xs);
    if |xs| > 0 {
      var init := xs[..|xs| - 1];
      var u := xs[|xs| - 1];
      assert xs == init + [u];
      FirstSightingsOrdered(seen, init);
      FirstSightingsMembers(seen, init);
      var fs := FirstSightings(seen, xs);
      var fi := FirstSightings(seen, init);
      forall x | x in init
        ensures FirstIndex(xs, x) == FirstIndex(init, x)
      {
        FirstIndexPrefix(init, [u], x);
      }
      if u !in seen && u !in init {
        assert FirstIndex(xs, u) == |init|;
        forall i, j | 0 <= i < j < |fs|
          ensures FirstIndex(xs, fs[i]) < FirstIndex(xs, fs[j])
        {
          assert fs[i] == fi[i] && fs[i] in init;
          if j < |fi| {
            assert fs[j] == fi[j];
          }
        }
      } else {
        assert fs == fi;
      }
    }
  }

  lemma {:induction false} FirstIndexPrefix<T>(xs: seq<T>, ys: seq<T>, x: T)
    requires x in xs
    ensures FirstIndex(xs + ys, x) == FirstIndex(xs, x)
  {
    if xs[0] != x {
      assert (xs + ys)[1..] == xs[1..] + ys;
      FirstIndexPrefix(xs[1..], ys, x);
    }
  }

  /** Repeating the call with the updated seen set yields nothing new. */
  lemma {:induction false} FirstSightingsIdempotent<T>(seen: set<T>, xs: seq<T>)
    ensures FirstSightings(seen + Elems(xs), xs) == []
  {
    FirstSightingsAllVisited(seen + Elems(xs), xs);
  }

  /** Input made only of seen elements yields nothing. */
  lemma {:induction false} FirstSightingsAllVisited<T>(seen: set<T>, xs: seq<T>)
    requires forall i | 0 <= i < |xs| :: xs[i] in seen
    ensures FirstSightings(seen, xs) == []
    decreases |xs|
  {
    if |xs| > 0 {
      FirstSightingsAllVisited(seen, xs[..|xs| - 1]);
    }
  }

  function Flatten<T>(xss: seq<seq<T>>): seq<T> {
    if |xss| == 0 then [] else xss[0] + Flatten(xss[1..])
  }

  predicate Distinct<T(==)>(xs: seq<T>) {
    forall i, j | 0 <= i < j < |xs| :: xs[i] != xs[j]
  }


  /** Filtering a concatenation filters the first part, then the second part
      against everything seen so far. */
  lemma {:induction false} FirstSightingsAppend<T>(seen: set<T>, xs: seq<T>, ys: seq<T>)
    ensures FirstSightings(seen, xs + ys) == FirstSightings(seen, xs) + FirstSightings(seen + Elems(xs), ys)
    decreases |ys|
  {
    if |ys| == 0 {
      assert xs + ys == xs;
    } else {
      var ys' := ys[..|ys| - 1];
      var y := ys[|ys| - 1];
      assert (xs + ys)[..|xs + ys| - 1] == xs + ys';
      FirstSightingsAppend(seen, xs, ys');
      assert y in xs + ys' <==> y in xs || y in ys';
    }
  }

  /** A sequence without repeats and without seen elements passes unchanged. */
  lemma {:induction false} FirstSightingsOfDistinct<T>(seen: set<T>, xs: seq<T>)
    requires Distinct(xs)
    requires forall i | 0 <= i < |xs| :: xs[i] !in seen
    ensures FirstSightings(seen, xs) == xs
    decreases |xs|
  {
    if |xs| > 0 {
      var init := xs[..|xs| - 1];
      FirstSightingsOfDistinct(seen, init);
      assert xs[|xs| - 1] !in init;
      assert xs == init + [xs[|xs| - 1]];
    }
  }

  /** De-duplicating an already duplicate-free sequence extended by more
      elements keeps it as a prefix and appends only the unseen new elements. */
  lemma {:induction false} DedupAppend<T>(xs: seq<T>, ys: seq<T>)
    ensures Distinct(xs) ==> FirstSightings({}, xs + ys) == xs + FirstSightings(Elems(xs), ys)
  {
    FirstSightingsAppend({}, xs, ys);
    assert {} + Elems(xs) == Elems(xs);
    if Distinct(xs) {
      FirstSightingsOfDistinct({}, xs);
    }
  }
}
