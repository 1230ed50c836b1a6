/** Removing several positions from a vector by `swap_remove`, as the Spinner does with
    the senders whose receiver is gone. */
module SwapRemoval {

  /** `Vec::swap_remove`: the last element takes the place of the removed one. */
  function SwapRemove<T>(s: seq<T>, i: nat): (r: seq<T>)
    requires i < |s|
  {
    var last := |s| - 1;
    if i == last then s[..last] else s[i := s[last]][..last]
  }

  lemma SwapRemoveParts<T>(s: seq<T>, i: nat)
    requires i < |s| - 1
    ensures s == s[..i] + [s[i]] + s[i + 1..|s| - 1] + [s[|s| - 1]]
    ensures SwapRemove(s, i) == s[..i] + [s[|s| - 1]] + s[i + 1..|s| - 1]
  {
  }

  lemma Counted<T>(left: seq<T>, x: T, right: seq<T>, y: T)
    ensures multiset(left + [y] + right) + multiset{x} == multiset(left + [x] + right + [y])
  {
  }

  lemma SwapRemoveTakesOne<T>(s: seq<T>, i: nat)
    requires i < |s|
    ensures multiset(SwapRemove(s, i)) + multiset{s[i]} == multiset(s)
  {
    var last := |s| - 1;
    if i == last {
      assert s == s[..last] + [s[last]];
    } else {
      SwapRemoveParts(s, i);
      Counted(s[..i], s[i], s[i + 1..last], s[last]);
    }
  }

  /** What lies before the removed position is not touched. */
  lemma SwapRemoveKeepsFront<T>(s: seq<T>, i: nat)
    requires i < |s|
    ensures SwapRemove(s, i)[..i] == s[..i]
  {
  }

  ghost predicate Ascending(indices: seq<nat>, bound: nat) {
    && (forall a :: 0 <= a < |indices| ==> indices[a] < bound)
    && (forall a, b :: 0 <= a < b < |indices| ==> indices[a] < indices[b])
  }

  /** Swap-removes the given positions, the last listed one first. */
  ghost function Prune<T>(s: seq<T>, indices: seq<nat>): seq<T>
    requires Ascending(indices, |s|)
    decreases |indices|
  {
    if indices == [] then s
    else
      var last := |indices| - 1;
      assert forall a :: 0 <= a < last ==> indices[a] < indices[last] < |s|;
      Prune(SwapRemove(s, indices[last]), indices[..last])
  }

  /** The elements of `s` at the positions that are not listed. */
  ghost function Kept<T>(s: seq<T>, indices: seq<nat>): seq<T> {
    if s == [] then []
    else
      var last := |s| - 1;
      Kept(s[..last], indices) + if last in indices then [] else [s[last]]
  }

  /** The elements of `s` at the listed positions. */
  ghost function Picked<T>(s: seq<T>, indices: seq<nat>): seq<T> {
    if s == [] then []
    else
      var last := |s| - 1;
      Picked(s[..last], indices) + if last in indices then [s[last]] else []
  }

  lemma {:induction false} KeptAndPicked<T>(s: seq<T>, indices: seq<nat>)
    ensures multiset(Kept(s, indices)) + multiset(Picked(s, indices)) == multiset(s)
  {
    if s != [] {
      var last := |s| - 1;
      assert s == s[..last] + [s[last]];
      KeptAndPicked(s[..last], indices);
    }
  }

  /** Nothing is picked beyond the largest listed position. */
  lemma {:induction false} PickedPrefix<T>(s: seq<T>, i: nat, indices: seq<nat>)
    requires i <= |s| && forall k :: k in indices ==> k < i
    ensures Picked(s, indices) == Picked(s[..i], indices)
    decreases |s|
  {
    if i == |s| {
      assert s[..i] == s;
    } else {
      PickedPrefix(s[..|s| - 1], i, indices);
      assert s[..|s| - 1][..i] == s[..i];
    }
  }

  lemma {:induction false} PickedIgnoresLargeIndex<T>(s: seq<T>, indices: seq<nat>, large: nat)
    requires large >= |s|
    ensures Picked(s, indices + [large]) == Picked(s, indices)
  {
    if s != [] {
      PickedIgnoresLargeIndex(s[..|s| - 1], indices, large);
    }
  }

  lemma PickedStep<T>(s: seq<T>, front: seq<nat>, i: nat)
    requires i < |s| && forall k :: k in front ==> k < i
    ensures Picked(s, front + [i]) == Picked(s[..i], front) + [s[i]]
  {
    PickedPrefix(s, i + 1, front + [i]);
    assert s[..i + 1][..i] == s[..i];
    PickedIgnoresLargeIndex(s[..i], front, i);
  }

  lemma PickedAfterSwap<T>(s: seq<T>, front: seq<nat>, i: nat)
    requires i < |s| && forall k :: k in front ==> k < i
    ensures multiset(Picked(s, front + [i])) == multiset(Picked(SwapRemove(s, i), front)) + multiset{s[i]}
  {
    SwapRemoveKeepsFront(s, i);
    PickedPrefix(SwapRemove(s, i), i, front);
    PickedStep(s, front, i);
  }

  lemma {:induction false} PruneRemovesPicked<T>(s: seq<T>, indices: seq<nat>)
    requires Ascending(indices, |s|)
    ensures multiset(Prune(s, indices)) + multiset(Picked(s, indices)) == multiset(s)
    decreases |indices|
  {
    if indices == [] {
      PickedPrefix(s, 0, indices);
    } else {
      var last := |indices| - 1;
      var front, i := indices[..last], indices[last];
      assert indices == front + [i];
      assert forall a :: 0 <= a < last ==> indices[a] < i;
      SwapRemoveTakesOne(s, i);
      PruneRemovesPicked(SwapRemove(s, i), front);
      PickedAfterSwap(s, front, i);
    }
  }

  /** Removing the recorded positions in descending order stays in bounds (the precondition
      of every `SwapRemove` in `Prune` holds) and leaves exactly the multiset of the elements
      at the other positions. */
  lemma PruneKeepsTheRest<T>(s: seq<T>, indices: seq<nat>)
    requires Ascending(indices, |s|)
    ensures multiset(Prune(s, indices)) == multiset(Kept(s, indices))
  {
    PruneRemovesPicked(s, indices);
    KeptAndPicked(s, indices);
    var p := multiset(Picked(s, indices));
    assert multiset(Prune(s, indices)) == multiset(s) - p == multiset(Kept(s, indices));
  }

  lemma {:induction false} KeptMembers<T>(s: seq<T>, indices: seq<nat>, x: T)
    ensures x in Kept(s, indices) <==> exists k :: 0 <= k < |s| && k !in indices && s[k] == x
  {
    if s != [] {
      var last := |s| - 1;
      KeptMembers(s[..last], indices, x);
      if k: nat :| k < |s| && k !in indices && s[k] == x {
        assert k == last || s[..last][k] == x;
      }
    }
  }

  /** No element outside the listed positions is lost, and none is invented. */
  lemma PruneMembers<T>(s: seq<T>, indices: seq<nat>, x: T)
    requires Ascending(indices, |s|)
    ensures x in Prune(s, indices) <==> exists k :: 0 <= k < |s| && k !in indices && s[k] == x
  {
    PruneKeepsTheRest(s, indices);
    KeptMembers(s, indices, x);
    assert x in Prune(s, indices) <==> x in multiset(Prune(s, indices));
    assert x in Kept(s, indices) <==> x in multiset(Kept(s, indices));
  }
}
