/** The bookmark tree as a value: nodes addressed by id, each naming its parent
    and, when it is a folder, its children in order. Parent pointers and child
    lists say the same thing twice; a forest is where they agree and every chain
    of parents ends. */
module BookmarkTree {

  datatype Node = Node(id: int, parent: int, folder: bool, title: string, url: string, added: real,
                       children: seq<int>)

  type Table = map<int, Node>

  const ROOT_BAR := 1
  const ROOT_OTHER := 2
  const BAR_TITLE := "Bookmarks Bar"
  const OTHER_TITLE := "Other Bookmarks"

  predicate IsRoot(id: int) {
    id == ROOT_BAR || id == ROOT_OTHER
  }

  // --- What a forest is -----------------------------------------------------------

  ghost predicate NoRepeats(s: seq<int>) {
    forall i, j :: 0 <= i < j < |s| ==> s[i] != s[j]
  }

  /** One node, its parent and its children agree; only the roots have no parent;
      a folder carries children and a bookmark an address, never the other's. */
  ghost predicate Linked(t: Table, id: int)
    requires id in t
  {
    var node := t[id];
    && 0 < id && node.id == id
    && NoRepeats(node.children)
    && (forall child <- node.children :: child in t && t[child].parent == id)
    && (node.parent == 0 <==> IsRoot(id))
    && (node.parent != 0 ==> node.parent in t && id in t[node.parent].children)
    && if node.folder then node.url == [] else node.url != [] && node.children == []
  }

  ghost predicate RankedAt(t: Table, rank: map<int, nat>, id: int)
    requires id in t && rank.Keys == t.Keys
  {
    var parent := t[id].parent;
    if parent == 0 then rank[id] == 0 else parent in t && rank[id] == rank[parent] + 1
  }

  /** A rank one above its parent's for every node: no chain of parents repeats. */
  ghost predicate Ranked(t: Table, rank: map<int, nat>) {
    rank.Keys == t.Keys && forall id {:trigger RankedAt(t, rank, id)} :: id in t ==> RankedAt(t, rank, id)
  }

  ghost predicate Acyclic(t: Table) {
    exists rank :: Ranked(t, rank)
  }

  ghost predicate AllLinked(t: Table) {
    forall id {:trigger Linked(t, id)} :: id in t ==> Linked(t, id)
  }

  ghost predicate HasRoots(t: Table) {
    ROOT_BAR in t && ROOT_OTHER in t && t[ROOT_BAR].folder && t[ROOT_OTHER].folder
  }

  ghost predicate IsForest(t: Table) {
    HasRoots(t) && AllLinked(t) && Acyclic(t)
  }

  ghost function RankOf(t: Table): (rank: map<int, nat>)
    requires Acyclic(t)
    ensures Ranked(t, rank)
  {
    var rank :| Ranked(t, rank);
    rank
  }

  ghost function Rank(t: Table, id: int): nat
    requires Acyclic(t) && id in t
  {
    RankOf(t)[id]
  }

  /** What a forest says of one node. */
  lemma NodeFacts(t: Table, id: int)
    requires IsForest(t) && id in t
    ensures Linked(t, id) && RankedAt(t, RankOf(t), id)
  {
    assert Linked(t, id);
    assert RankedAt(t, RankOf(t), id);
  }

  /** The k-th parent of a node, 0 above a root. */
  ghost function Up(t: Table, id: int, k: nat): int
    decreases k
  {
    if k == 0 then id
    else if id in t then Up(t, t[id].parent, k - 1) else 0
  }

  /** Every chain of parents is finite, never repeats, and ends at a root. */
  lemma {:induction false} ChainEndsAtRoot(t: Table, id: int)
    requires IsForest(t) && id in t
    ensures IsRoot(Up(t, id, Rank(t, id)))
    ensures forall k :: 0 <= k <= Rank(t, id) ==> Up(t, id, k) in t && Rank(t, Up(t, id, k)) == Rank(t, id) - k
    decreases Rank(t, id)
  {
    NodeFacts(t, id);
    if t[id].parent != 0 {
      ChainEndsAtRoot(t, t[id].parent);
      forall k | 0 <= k <= Rank(t, id)
        ensures Up(t, id, k) in t && Rank(t, Up(t, id, k)) == Rank(t, id) - k
      {
        if k > 0 {
          assert Up(t, id, k) == Up(t, t[id].parent, k - 1);
        }
      }
    }
  }

  /** Every node but a root stands exactly once in its own parent's child list and
      in no other. */
  lemma ListedOnce(t: Table, id: int, folder: int)
    requires IsForest(t) && id in t && folder in t
    ensures multiset(t[folder].children)[id] == if t[id].parent == folder then 1 else 0
  {
    NodeFacts(t, id);
    NodeFacts(t, folder);
    CountOfNoRepeats(t[folder].children, id);
  }

  lemma {:induction false} CountOfNoRepeats(s: seq<int>, x: int)
    requires NoRepeats(s)
    ensures multiset(s)[x] == if x in s then 1 else 0
  {
    if s != [] {
      CountOfNoRepeats(s[1..], x);
      assert s == [s[0]] + s[1..];
    }
  }

  // --- Ancestors ------------------------------------------------------------------

  /** Ancestor-or-self, by the parent pointers. */
  ghost predicate Inside(t: Table, id: int, folder: int)
    requires IsForest(t) && id in t
    decreases Rank(t, id)
  {
    NodeFacts(t, id);
    id == folder || (t[id].parent != 0 && Inside(t, t[id].parent, folder))
  }

  /** A way down through the child lists. */
  ghost predicate IsWayDown(t: Table, path: seq<int>, from: int, to: int) {
    && path != [] && path[0] == from && path[|path| - 1] == to
    && (forall i :: 0 <= i < |path| ==> path[i] in t)
    && (forall i :: 0 < i < |path| ==> path[i] in t[path[i - 1]].children)
  }

  /** Looking up the parents finds exactly what the child lists lead down to. */
  lemma InsideIsWayDown(t: Table, id: int, folder: int)
    requires IsForest(t) && id in t && folder in t
    ensures Inside(t, id, folder) <==> exists path :: IsWayDown(t, path, folder, id)
  {
    if Inside(t, id, folder) {
      var path := WayDown(t, id, folder);
    }
    forall path | IsWayDown(t, path, folder, id)
      ensures Inside(t, id, folder)
    {
      WayDownIsInside(t, path, folder, id);
    }
  }

  lemma {:induction false} WayDown(t: Table, id: int, folder: int) returns (path: seq<int>)
    requires IsForest(t) && id in t && folder in t && Inside(t, id, folder)
    ensures IsWayDown(t, path, folder, id)
    decreases Rank(t, id)
  {
    if id == folder {
      path := [id];
    } else {
      NodeFacts(t, id);
      path := WayDown(t, t[id].parent, folder);
      path := path + [id];
    }
  }

  lemma {:induction false} WayDownIsInside(t: Table, path: seq<int>, folder: int, id: int)
    requires IsForest(t) && IsWayDown(t, path, folder, id)
    ensures Inside(t, id, folder)
    decreases |path|
  {
    if |path| > 1 {
      var front := path[..|path| - 1];
      var last := front[|front| - 1];
      WayDownIsInside(t, front, folder, last);
      assert id in t[last].children;
      NodeFacts(t, last);
      NodeFacts(t, id);
    }
  }

  lemma {:induction false} InsideRank(t: Table, id: int, folder: int)
    requires IsForest(t) && id in t && folder in t && Inside(t, id, folder)
    ensures Rank(t, folder) <= Rank(t, id)
    ensures Rank(t, folder) == Rank(t, id) ==> id == folder
    decreases Rank(t, id)
  {
    NodeFacts(t, id);
    if id != folder {
      InsideRank(t, t[id].parent, folder);
    }
  }

  /** A node is inside at most one folder of each rank. */
  lemma {:induction false} InsideOneOfRank(t: Table, id: int, one: int, other: int)
    requires IsForest(t) && id in t && one in t && other in t
    requires Inside(t, id, one) && Inside(t, id, other) && Rank(t, one) == Rank(t, other)
    ensures one == other
    decreases Rank(t, id)
  {
    NodeFacts(t, id);
    InsideRank(t, id, one);
    InsideRank(t, id, other);
    if id != one && id != other {
      InsideOneOfRank(t, t[id].parent, one, other);
    }
  }

  /** Below a folder is below one of its children. */
  lemma {:induction false} InsideChild(t: Table, id: int, folder: int) returns (child: int)
    requires IsForest(t) && id in t && folder in t && Inside(t, id, folder) && id != folder
    ensures child in t[folder].children && child in t && Inside(t, id, child)
    decreases Rank(t, id)
  {
    NodeFacts(t, id);
    if t[id].parent == folder {
      child := id;
    } else {
      child := InsideChild(t, t[id].parent, folder);
    }
  }

  lemma {:induction false} InsideAbove(t: Table, id: int, middle: int, folder: int)
    requires IsForest(t) && id in t && middle in t && folder in t
    requires Inside(t, id, middle) && Inside(t, middle, folder)
    ensures Inside(t, id, folder)
    decreases Rank(t, id)
  {
    NodeFacts(t, id);
    if id != middle {
      InsideAbove(t, t[id].parent, middle, folder);
    }
  }

  // --- Walks down -----------------------------------------------------------------

  ghost predicate Bounded(rank: map<int, nat>, ids: set<int>, bound: nat)
    requires ids <= rank.Keys
  {
    forall id <- ids :: rank[id] < bound
  }

  lemma {:induction false} BoundExists(rank: map<int, nat>, ids: set<int>)
    requires ids <= rank.Keys
    ensures exists bound :: Bounded(rank, ids, bound)
  {
    if exists id :: id in ids {
      var id :| id in ids;
      BoundExists(rank, ids - {id});
      var bound :| Bounded(rank, ids - {id}, bound);
      assert Bounded(rank, ids, if bound <= rank[id] then rank[id] + 1 else bound);
    } else {
      assert Bounded(rank, ids, 0);
    }
  }

  ghost function Bound(t: Table): (bound: nat)
    requires Acyclic(t)
    ensures Bounded(RankOf(t), t.Keys, bound)
  {
    BoundExists(RankOf(t), t.Keys);
    var bound :| Bounded(RankOf(t), t.Keys, bound);
    bound
  }

  /** How many levels there may still be from `depth` down: what a walk uses up. */
  ghost function Room(t: Table, depth: nat): nat
    requires Acyclic(t)
  {
    if depth < Bound(t) then Bound(t) - depth else 0
  }

  ghost predicate Level(t: Table, depth: nat, ids: seq<int>)
    requires Acyclic(t)
  {
    forall id <- ids :: id in t && Rank(t, id) == depth
  }

  lemma ChildrenAreDeeper(t: Table, id: int)
    requires IsForest(t) && id in t
    ensures Level(t, Rank(t, id) + 1, t[id].children)
    ensures Room(t, Rank(t, id) + 1) < Room(t, Rank(t, id))
  {
    NodeFacts(t, id);
    forall child <- t[id].children
      ensures child in t && Rank(t, child) == Rank(t, id) + 1
    {
      NodeFacts(t, child);
    }
  }

  /** A node and everything under it, parents before children, siblings in order. */
  ghost function Subtree(t: Table, id: int): seq<int>
    requires IsForest(t) && id in t
    decreases Room(t, Rank(t, id)), 0
  {
    ChildrenAreDeeper(t, id);
    [id] + Subtrees(t, Rank(t, id) + 1, t[id].children)
  }

  ghost function Subtrees(t: Table, depth: nat, ids: seq<int>): seq<int>
    requires IsForest(t) && Level(t, depth, ids)
    decreases Room(t, depth), |ids|
  {
    if ids == [] then [] else Subtree(t, ids[0]) + Subtrees(t, depth, ids[1..])
  }

  lemma SubtreesStep(t: Table, depth: nat, ids: seq<int>, k: nat)
    requires IsForest(t) && Level(t, depth, ids) && k < |ids|
    ensures Subtrees(t, depth, ids[k..]) == Subtree(t, ids[k]) + Subtrees(t, depth, ids[k + 1..])
  {
    assert ids[k..][0] == ids[k] && ids[k..][1..] == ids[k + 1..];
  }

  /** The walk lists exactly the node and its descendants, each once. */
  lemma {:induction false} SubtreeIsInside(t: Table, id: int)
    requires IsForest(t) && id in t
    ensures forall x :: x in Subtree(t, id) <==> x in t && Inside(t, x, id)
    ensures NoRepeats(Subtree(t, id))
    decreases Room(t, Rank(t, id)), 0
  {
    NodeFacts(t, id);
    ChildrenAreDeeper(t, id);
    var depth := Rank(t, id) + 1;
    SubtreesAreInside(t, depth, t[id].children);
    forall x
      ensures x in Subtrees(t, depth, t[id].children) <==> x in t && x != id && Inside(t, x, id)
    {
      BelowIsBelowAChild(t, x, id);
    }
    ConcatNoRepeats([id], Subtrees(t, depth, t[id].children));
  }

  ghost predicate InsideOneOf(t: Table, x: int, ids: seq<int>)
    requires IsForest(t) && x in t
  {
    exists id :: id in ids && Inside(t, x, id)
  }

  lemma BelowIsBelowAChild(t: Table, x: int, id: int)
    requires IsForest(t) && id in t
    ensures (x in t && x != id && Inside(t, x, id))
       <==> (x in t && InsideOneOf(t, x, t[id].children))
  {
    if x in t && x != id && Inside(t, x, id) {
      var child := InsideChild(t, x, id);
    }
    if x in t && InsideOneOf(t, x, t[id].children) {
      var child :| child in t[id].children && Inside(t, x, child);
      NodeFacts(t, id);
      NodeFacts(t, child);
      InsideAbove(t, x, child, id);
      InsideRank(t, x, child);
    }
  }

  lemma ConcatNoRepeats(front: seq<int>, back: seq<int>)
    requires NoRepeats(front) && NoRepeats(back)
    requires forall x <- front :: x !in back
    ensures NoRepeats(front + back)
  {
    assert forall i :: 0 <= i < |front| ==> front[i] in front;
    assert forall i :: 0 <= i < |back| ==> back[i] in back;
  }

  lemma {:induction false} SubtreesAreInside(t: Table, depth: nat, ids: seq<int>)
    requires IsForest(t) && Level(t, depth, ids) && NoRepeats(ids)
    ensures forall x :: x in Subtrees(t, depth, ids) <==> x in t && InsideOneOf(t, x, ids)
    ensures NoRepeats(Subtrees(t, depth, ids))
    decreases Room(t, depth), |ids|
  {
    if ids != [] {
      var first, rest := Subtree(t, ids[0]), Subtrees(t, depth, ids[1..]);
      SubtreeIsInside(t, ids[0]);
      SubtreesAreInside(t, depth, ids[1..]);
      assert ids == [ids[0]] + ids[1..];
      forall x | x in t
        ensures InsideOneOf(t, x, ids) <==> Inside(t, x, ids[0]) || InsideOneOf(t, x, ids[1..])
      {
        if Inside(t, x, ids[0]) {
          assert ids[0] in ids;
        }
      }
      forall x <- first
        ensures x !in rest
      {
        forall other | other in ids[1..] && Inside(t, x, other)
          ensures false
        {
          InsideOneOfRank(t, x, ids[0], other);
        }
      }
      ConcatNoRepeats(first, rest);
    }
  }
}
