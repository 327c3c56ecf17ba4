/**
  The membership toggle on a list of intervention ids, written identically as
  `toggleExpand` in the cost table and `toggleIntervention` on the selection
  page: an id already present is filtered out (every occurrence), an absent id
  is appended at the end.
 */
module Selection {

  /** `xs.filter(item => item !== id)`. */
  function RemoveAll(xs: seq<int>, id: int): (r: seq<int>)
    ensures id !in r
    ensures forall x :: x != id ==> (x in r <==> x in xs)
    ensures |r| <= |xs|
    ensures id !in xs ==> r == xs
    decreases |xs|
  {
    if |xs| == 0 then []
    else if xs[0] == id then RemoveAll(xs[1..], id)
    else [xs[0]] + RemoveAll(xs[1..], id)
  }

  /** Filtering a concatenation filters each part. */
  lemma {:induction false} RemoveAllConcat(xs: seq<int>, ys: seq<int>, id: int)
    ensures RemoveAll(xs + ys, id) == RemoveAll(xs, id) + RemoveAll(ys, id)
    decreases |xs|
  {
    if |xs| == 0 {
      assert xs + ys == ys;
    } else {
      assert (xs + ys)[1..] == xs[1..] + ys;
      RemoveAllConcat(xs[1..], ys, id);
    }
  }

  /** Filtering twice by the same id is filtering once. */
  lemma RemoveAllIdempotent(xs: seq<int>, id: int)
    ensures RemoveAll(RemoveAll(xs, id), id) == RemoveAll(xs, id)
  {
  }

  /** `prev.includes(id) ? prev.filter(item => item !== id) : [...prev, id]`. */
  function Toggle(xs: seq<int>, id: int): (r: seq<int>)
    // an id already present disappears entirely
    ensures id in xs ==> id !in r && |r| < |xs|
    // an absent id is appended once, at the end, after the untouched list
    ensures id !in xs ==> r == xs + [id]
    // membership of the toggled id flips, that of every other id is kept
    ensures id in r <==> id !in xs
    ensures forall x :: x != id ==> (x in r <==> x in xs)
  {
    if id in xs then
      RemoveAllShrinks(xs, id);
      RemoveAll(xs, id)
    else xs + [id]
  }

  /** Filtering out an id that occurs removes at least one element. */
  lemma {:induction false} RemoveAllShrinks(xs: seq<int>, id: int)
    requires id in xs
    ensures |RemoveAll(xs, id)| < |xs|
    decreases |xs|
  {
    if xs[0] != id {
      RemoveAllShrinks(xs[1..], id);
    }
  }

  /** Apart from the toggled id, the list keeps its elements in their relative order. */
  lemma ToggleKeepsOthersInOrder(xs: seq<int>, id: int)
    ensures RemoveAll(Toggle(xs, id), id) == RemoveAll(xs, id)
  {
    if id !in xs {
      RemoveAllConcat(xs, [id], id);
      assert RemoveAll([id], id) == [];
    } else {
      RemoveAllIdempotent(xs, id);
    }
  }

  /** Toggling an absent id twice restores the original list. */
  lemma ToggleTwiceAbsent(xs: seq<int>, id: int)
    requires id !in xs
    ensures Toggle(Toggle(xs, id), id) == xs
  {
    RemoveAllConcat(xs, [id], id);
    assert RemoveAll([id], id) == [];
  }

  /**
    Toggling a present id twice moves it to the end, once: the original list
    is restored only when the id occurred exactly once, at the end.
   */
  lemma ToggleTwicePresent(xs: seq<int>, id: int)
    requires id in xs
    ensures Toggle(Toggle(xs, id), id) == RemoveAll(xs, id) + [id]
  {
  }
}
