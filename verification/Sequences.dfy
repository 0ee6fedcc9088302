/** Sequences taken apart at the end, and regrouped. */
module Sequences {
  import opened Wrappers

  function Init<T>(xs: seq<T>): seq<T>
    requires xs != []
  {
    xs[..|xs| - 1]
  }

  function Last<T>(xs: seq<T>): T
    requires xs != []
  {
    xs[|xs| - 1]
  }

  lemma Regroup<T>(a: seq<T>, b: seq<T>, c: seq<T>)
    ensures a + b + c == a + (b + c)
  {
  }

  lemma LastApart<T>(a: seq<T>, b: seq<T>)
    requires b != []
    ensures a + Init(b) + [Last(b)] == a + b
  {
  }

  lemma OneMoreOf<T>(all: seq<T>, xs: seq<T>, x: T)
    requires |all| == |xs| + 1 && (forall i :: 0 <= i < |xs| ==> all[i] == xs[i]) && all[|xs|] == x
    ensures all == xs + [x]
  {
  }

  /** The values that are there, in order. */
  function Somes<T>(xs: seq<Option<T>>): seq<T> {
    if xs == [] then [] else Somes(Init(xs)) + if Last(xs).Some? then [Last(xs).value] else []
  }

  lemma {:induction false} SomesAre<T>(xs: seq<Option<T>>, x: T)
    ensures x in Somes(xs) <==> exists i :: 0 <= i < |xs| && xs[i] == Some(x)
    decreases |xs|
  {
    if xs != [] {
      var init, last := Init(xs), Last(xs);
      SomesAre(init, x);
      if i :| 0 <= i < |init| && init[i] == Some(x) { assert xs[i] == Some(x); }
      if last == Some(x) { assert xs[|xs| - 1] == Some(x); }
      if i :| 0 <= i < |xs| && xs[i] == Some(x) {
        if i < |init| { assert init[i] == Some(x); }
      }
    }
  }

  lemma OneMoreSome<T>(xs: seq<Option<T>>, x: Option<T>)
    ensures Somes(xs + [x]) == if x.Some? then Somes(xs) + [x.value] else Somes(xs)
  {
    assert Init(xs + [x]) == xs && Last(xs + [x]) == x;
    assert Somes(xs) + [] == Somes(xs);
  }
}
