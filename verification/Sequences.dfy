/** Small facts about joining sequences that the loops of several modules need, and what
    it is to keep some elements of one. */
module Sequences {

  lemma Associates<T>(a: seq<T>, b: seq<T>, c: seq<T>)
    ensures a + (b + c) == (a + b) + c
  {
  }

  /** An element may be counted to the front or to the back. */
  lemma Shift<T>(front: seq<T>, element: T, back: seq<T>)
    ensures front + ([element] + back) == (front + [element]) + back
  {
  }

  lemma Replace<T>(front: seq<T>, element: T, back: seq<T>)
    requires back != []
    ensures (front + back)[|front| := element] == (front + [element]) + back[1..]
  {
  }

  lemma HasMember<T>(elements: seq<T>)
    requires elements != []
    ensures exists e :: e in elements
  {
    assert elements[0] in elements;
  }

  // --- Keeping some elements ----------------------------------------------------------------

  /** The elements that are to be kept, as often and in the order they stand. */
  function Filter<T>(all: seq<T>, keep: T -> bool): seq<T> {
    if all == [] then [] else (if keep(all[0]) then [all[0]] else []) + Filter(all[1..], keep)
  }

  lemma {:induction false} FilterHolds<T>(all: seq<T>, keep: T -> bool, element: T)
    ensures element in Filter(all, keep) <==> element in all && keep(element)
  {
    if all != [] {
      FilterHolds(all[1..], keep, element);
      assert all == [all[0]] + all[1..];
    }
  }

  /** Two elements left stand as they stood. */
  lemma {:induction false} FilterInOrder<T>(all: seq<T>, keep: T -> bool, i: nat, j: nat) returns (k: nat, l: nat)
    requires i < j < |Filter(all, keep)|
    ensures k < l < |all| && all[k] == Filter(all, keep)[i] && all[l] == Filter(all, keep)[j]
  {
    var rest := Filter(all[1..], keep);
    if !keep(all[0]) {
      assert [] + rest == rest;
      k, l := FilterInOrder(all[1..], keep, i, j);
      k, l := k + 1, l + 1;
    } else if i > 0 {
      k, l := FilterInOrder(all[1..], keep, i - 1, j - 1);
      k, l := k + 1, l + 1;
    } else {
      assert Filter(all, keep)[j] == rest[j - 1];
      FilterHolds(all[1..], keep, rest[j - 1]);
      l :| 0 <= l < |all[1..]| && all[1..][l] == rest[j - 1];
      k, l := 0, l + 1;
    }
  }
}
