/** Counting bookmarks: the walk below each root against the whole store. */
module BookmarkLeaves {
  import opened BookmarkTree

  /** How many bookmarks a node holds, itself included. */
  ghost function LeafCount(t: Table, id: int): nat
    requires IsForest(t) && id in t
    decreases Room(t, Rank(t, id)), 0
  {
    ChildrenAreDeeper(t, id);
    if t[id].folder then LeafCounts(t, Rank(t, id) + 1, t[id].children) else 1
  }

  ghost function LeafCounts(t: Table, depth: nat, ids: seq<int>): nat
    requires IsForest(t) && Level(t, depth, ids)
    decreases Room(t, depth), |ids|
  {
    if ids == [] then 0 else LeafCount(t, ids[0]) + LeafCounts(t, depth, ids[1..])
  }

  lemma LeafCountsStep(t: Table, depth: nat, ids: seq<int>, k: nat)
    requires IsForest(t) && Level(t, depth, ids) && k < |ids|
    ensures LeafCounts(t, depth, ids[k..]) == LeafCount(t, ids[k]) + LeafCounts(t, depth, ids[k + 1..])
  {
    assert ids[k..][0] == ids[k] && ids[k..][1..] == ids[k + 1..];
  }

  ghost function LeavesAmong(t: Table, ids: seq<int>): set<int> {
    set id | id in ids && id in t && !t[id].folder
  }

  lemma LeavesAmongConcat(t: Table, front: seq<int>, back: seq<int>)
    requires forall id <- front :: id !in back
    ensures |LeavesAmong(t, front + back)| == |LeavesAmong(t, front)| + |LeavesAmong(t, back)|
  {
    var one, other := LeavesAmong(t, front), LeavesAmong(t, back);
    assert LeavesAmong(t, front + back) == one + other;
    forall id | id in one
      ensures id !in other
    {
      assert id in front;
    }
    assert one * other == {};
  }

  lemma {:induction false} LeafCountIsLeaves(t: Table, id: int)
    requires IsForest(t) && id in t
    ensures LeafCount(t, id) == |LeavesAmong(t, Subtree(t, id))|
    decreases Room(t, Rank(t, id)), 0
  {
    NodeFacts(t, id);
    ChildrenAreDeeper(t, id);
    var below := Subtrees(t, Rank(t, id) + 1, t[id].children);
    SubtreeIsInside(t, id);
    LeafCountsAreLeaves(t, Rank(t, id) + 1, t[id].children);
    assert id !in below by {
      assert Subtree(t, id)[0] == id && Subtree(t, id)[1..] == below;
    }
    LeavesAmongConcat(t, [id], below);
    assert LeavesAmong(t, [id]) == if t[id].folder then {} else {id};
    assert !t[id].folder ==> below == [];
  }

  lemma {:induction false} LeafCountsAreLeaves(t: Table, depth: nat, ids: seq<int>)
    requires IsForest(t) && Level(t, depth, ids) && NoRepeats(ids)
    ensures LeafCounts(t, depth, ids) == |LeavesAmong(t, Subtrees(t, depth, ids))|
    decreases Room(t, depth), |ids|
  {
    if ids == [] {
      assert LeavesAmong(t, []) == {};
    } else {
      LeafCountIsLeaves(t, ids[0]);
      LeafCountsAreLeaves(t, depth, ids[1..]);
      SubtreesAreApart(t, depth, ids);
      LeavesAmongConcat(t, Subtree(t, ids[0]), Subtrees(t, depth, ids[1..]));
    }
  }

  lemma SubtreesAreApart(t: Table, depth: nat, ids: seq<int>)
    requires IsForest(t) && Level(t, depth, ids) && NoRepeats(ids) && ids != []
    ensures forall x <- Subtree(t, ids[0]) :: x !in Subtrees(t, depth, ids[1..])
  {
    var first, rest := Subtree(t, ids[0]), Subtrees(t, depth, ids[1..]);
    SubtreesAreInside(t, depth, ids);
    forall i, j | 0 <= i < |first| && 0 <= j < |rest|
      ensures first[i] != rest[j]
    {
      assert (first + rest)[i] != (first + rest)[|first| + j];
    }
  }

  // --- The whole store ----------------------------------------------------------------

  /** Everything below the bar, then everything below the other root. */
  ghost function Whole(t: Table): seq<int>
    requires IsForest(t)
  {
    Subtree(t, ROOT_BAR) + Subtree(t, ROOT_OTHER)
  }

  lemma {:induction false} InsideOneRoot(t: Table, id: int)
    requires IsForest(t) && id in t
    ensures Inside(t, id, ROOT_BAR) <==> !Inside(t, id, ROOT_OTHER)
    decreases Rank(t, id)
  {
    NodeFacts(t, id);
    if t[id].parent != 0 {
      InsideOneRoot(t, t[id].parent);
      NodeFacts(t, ROOT_BAR);
      NodeFacts(t, ROOT_OTHER);
    }
  }

  /** The two roots between them hold every node, each once. */
  lemma WholeListsAll(t: Table)
    requires IsForest(t)
    ensures NoRepeats(Whole(t)) && forall x :: x in Whole(t) <==> x in t
  {
    SubtreeIsInside(t, ROOT_BAR);
    SubtreeIsInside(t, ROOT_OTHER);
    forall x | x in t
      ensures Inside(t, x, ROOT_BAR) <==> !Inside(t, x, ROOT_OTHER)
    {
      InsideOneRoot(t, x);
    }
    ConcatNoRepeats(Subtree(t, ROOT_BAR), Subtree(t, ROOT_OTHER));
  }

  /** The leaf counts of the two roots add up to the bookmarks there are. */
  lemma RootsCountEverything(t: Table)
    requires IsForest(t)
    ensures LeafCount(t, ROOT_BAR) + LeafCount(t, ROOT_OTHER) == |set id | id in t && !t[id].folder|
  {
    WholeListsAll(t);
    LeafCountIsLeaves(t, ROOT_BAR);
    LeafCountIsLeaves(t, ROOT_OTHER);
    SubtreeIsInside(t, ROOT_BAR);
    SubtreeIsInside(t, ROOT_OTHER);
    forall x <- Subtree(t, ROOT_BAR)
      ensures x !in Subtree(t, ROOT_OTHER)
    {
      InsideOneRoot(t, x);
    }
    LeavesAmongConcat(t, Subtree(t, ROOT_BAR), Subtree(t, ROOT_OTHER));
    var all := set id | id in t && !t[id].folder;
    forall id
      ensures id in LeavesAmong(t, Whole(t)) <==> id in all
    {
    }
    assert LeavesAmong(t, Whole(t)) == all;
  }
}
