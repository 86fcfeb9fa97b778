/** Saving the bookmarks and reading them back. */
module BookmarkRoundTrip {
  import opened Text
  import opened BookmarkTree
  import opened BookmarkEdits
  import opened BookmarkLeaves
  import opened BookmarkRuns
  import opened BookmarkStore
  import opened BookmarkFile
  import opened BookmarkReload

  // --- The order of the dump ----------------------------------------------------------

  /** The members of `ids` that hang under `folder`, in the order they are listed. */
  ghost function ChildrenIn(t: Table, ids: seq<int>, folder: int): seq<int> {
    if ids == [] then []
    else (if ids[0] in t && t[ids[0]].parent == folder then [ids[0]] else []) + ChildrenIn(t, ids[1..], folder)
  }

  lemma {:induction false} ChildrenInConcat(t: Table, front: seq<int>, back: seq<int>, folder: int)
    ensures ChildrenIn(t, front + back, folder) == ChildrenIn(t, front, folder) + ChildrenIn(t, back, folder)
  {
    if front == [] {
      assert front + back == back;
    } else {
      ChildrenInConcat(t, front[1..], back, folder);
      assert (front + back)[1..] == front[1..] + back;
    }
  }

  /** The dump lists the children of every folder in their order. */
  lemma {:induction false} SubtreeKeepsOrder(t: Table, id: int, folder: int)
    requires IsForest(t) && id in t && folder in t
    ensures ChildrenIn(t, Subtree(t, id), folder)
         == (if t[id].parent == folder then [id] else []) + (if Inside(t, folder, id) then t[folder].children else [])
    decreases Room(t, Rank(t, id)), 0
  {
    NodeFacts(t, id);
    ChildrenAreDeeper(t, id);
    var depth, children := Rank(t, id) + 1, t[id].children;
    SubtreesKeepOrder(t, depth, children, id, folder);
    ChildrenInConcat(t, [id], Subtrees(t, depth, children), folder);
    BelowIsBelowAChild(t, folder, id);
  }

  lemma {:induction false} SubtreesKeepOrder(t: Table, depth: nat, ids: seq<int>, parent: int, folder: int)
    requires IsForest(t) && Level(t, depth, ids) && folder in t && parent in t && Rank(t, parent) < depth
    requires forall id <- ids :: t[id].parent == parent
    requires NoRepeats(ids)
    ensures ChildrenIn(t, Subtrees(t, depth, ids), folder)
         == (if folder == parent then ids else []) + (if InsideOneOf(t, folder, ids) then t[folder].children else [])
    decreases Room(t, depth), |ids|
  {
    if ids != [] {
      SubtreeKeepsOrder(t, ids[0], folder);
      SubtreesKeepOrder(t, depth, ids[1..], parent, folder);
      ChildrenInConcat(t, Subtree(t, ids[0]), Subtrees(t, depth, ids[1..]), folder);
      assert ids == [ids[0]] + ids[1..];
      InsideAtMostOne(t, folder, ids[0], ids[1..], parent);
      assert InsideOneOf(t, folder, ids) <==> Inside(t, folder, ids[0]) || InsideOneOf(t, folder, ids[1..]) by {
        assert ids[0] in ids;
      }
    }
  }

  lemma InsideAtMostOne(t: Table, x: int, one: int, rest: seq<int>, parent: int)
    requires IsForest(t) && x in t && one in t && parent in t && Level(t, Rank(t, one), rest) && one !in rest
    requires Rank(t, parent) < Rank(t, one)
    ensures !(Inside(t, x, one) && InsideOneOf(t, x, rest))
    ensures x == parent ==> !Inside(t, x, one) && !InsideOneOf(t, x, rest)
  {
    if Inside(t, x, one) {
      InsideRank(t, x, one);
    }
    forall other | other in rest && Inside(t, x, other)
      ensures !Inside(t, x, one) && x != parent
    {
      InsideRank(t, x, other);
      if Inside(t, x, one) {
        InsideOneOfRank(t, x, one, other);
      }
    }
  }

  lemma WholeKeepsOrder(t: Table, folder: int)
    requires IsForest(t) && folder in t
    ensures ChildrenIn(t, Whole(t), folder) == t[folder].children
  {
    SubtreeKeepsOrder(t, ROOT_BAR, folder);
    SubtreeKeepsOrder(t, ROOT_OTHER, folder);
    ChildrenInConcat(t, Subtree(t, ROOT_BAR), Subtree(t, ROOT_OTHER), folder);
    InsideOneRoot(t, folder);
    NodeFacts(t, ROOT_BAR);
    NodeFacts(t, ROOT_OTHER);
    NodeFacts(t, folder);
  }

  /** Every listed node is one of `tops` or comes after its parent. */
  ghost predicate ParentsFirst(t: Table, ids: seq<int>, tops: seq<int>) {
    forall i :: 0 <= i < |ids| ==> ids[i] in t && (ids[i] in tops || t[ids[i]].parent in ids[..i])
  }

  lemma ParentsFirstConcat(t: Table, front: seq<int>, back: seq<int>, tops: seq<int>, more: seq<int>)
    requires ParentsFirst(t, front, tops) && ParentsFirst(t, back, more)
    ensures ParentsFirst(t, front + back, tops + more)
  {
    var ids := front + back;
    forall i | 0 <= i < |ids|
      ensures ids[i] in t && (ids[i] in tops + more || t[ids[i]].parent in ids[..i])
    {
      if i < |front| {
        assert ids[..i] == front[..i];
      } else {
        assert ids[..i] == front + back[..i - |front|];
      }
    }
  }

  lemma {:induction false} SubtreeParentsFirst(t: Table, id: int)
    requires IsForest(t) && id in t
    ensures ParentsFirst(t, Subtree(t, id), [id])
    decreases Room(t, Rank(t, id)), 0
  {
    NodeFacts(t, id);
    ChildrenAreDeeper(t, id);
    var below := Subtrees(t, Rank(t, id) + 1, t[id].children);
    SubtreesParentsFirst(t, Rank(t, id) + 1, t[id].children);
    var ids := Subtree(t, id);
    assert ids == [id] + below;
    forall i | 0 <= i < |ids|
      ensures ids[i] in t && (ids[i] in [id] || t[ids[i]].parent in ids[..i])
    {
      if i > 0 {
        assert ids[..i] == [id] + below[..i - 1];
        assert below[i - 1] in t;
      }
    }
  }

  lemma {:induction false} SubtreesParentsFirst(t: Table, depth: nat, ids: seq<int>)
    requires IsForest(t) && Level(t, depth, ids)
    ensures ParentsFirst(t, Subtrees(t, depth, ids), ids)
    decreases Room(t, depth), |ids|
  {
    if ids != [] {
      SubtreeParentsFirst(t, ids[0]);
      SubtreesParentsFirst(t, depth, ids[1..]);
      ParentsFirstConcat(t, Subtree(t, ids[0]), Subtrees(t, depth, ids[1..]), [ids[0]], ids[1..]);
      assert [ids[0]] + ids[1..] == ids;
    }
  }

  lemma WholeParentsFirst(t: Table)
    requires IsForest(t)
    ensures ParentsFirst(t, Whole(t), [ROOT_BAR, ROOT_OTHER])
  {
    SubtreeParentsFirst(t, ROOT_BAR);
    SubtreeParentsFirst(t, ROOT_OTHER);
    ParentsFirstConcat(t, Subtree(t, ROOT_BAR), Subtree(t, ROOT_OTHER), [ROOT_BAR], [ROOT_OTHER]);
    assert [ROOT_BAR] + [ROOT_OTHER] == [ROOT_BAR, ROOT_OTHER];
  }

  // --- Lines and records ----------------------------------------------------------------

  ghost function LinesOf(t: Table, ids: seq<int>): seq<string> {
    if ids == [] then [] else (if ids[0] in t then [Line(t[ids[0]])] else []) + LinesOf(t, ids[1..])
  }

  lemma {:induction false} DumpIsLines(t: Table, ids: seq<int>)
    ensures Dump(t, ids) == Ended(LinesOf(t, ids))
    ensures AllUncut(LinesOf(t, ids))
  {
    if ids != [] {
      DumpIsLines(t, ids[1..]);
      var rest := LinesOf(t, ids[1..]);
      if ids[0] in t {
        LineIsSaved(t[ids[0]]);
        assert ([Line(t[ids[0]])] + rest)[1..] == rest;
      } else {
        assert LinesOf(t, ids) == rest;
      }
    }
  }

  ghost function WithNodes(r: Reading, t: Table, ids: seq<int>): Reading
    decreases |ids|
  {
    if ids == [] then r
    else WithNodes(if ids[0] in t then WithRecord(r, Saved(t[ids[0]])) else r, t, ids[1..])
  }

  lemma {:induction false} LinesAreNodes(r: Reading, t: Table, ids: seq<int>)
    ensures WithLines(r, LinesOf(t, ids) + [[]]) == WithNodes(r, t, ids)
    decreases |ids|
  {
    var lines := LinesOf(t, ids) + [[]];
    if ids == [] {
      assert lines[1..] == [];
    } else if ids[0] in t {
      LineIsSaved(t[ids[0]]);
      LinesAreNodes(WithRecord(r, Saved(t[ids[0]])), t, ids[1..]);
      assert lines[1..] == LinesOf(t, ids[1..]) + [[]];
    } else {
      LinesAreNodes(r, t, ids[1..]);
      assert LinesOf(t, ids) == LinesOf(t, ids[1..]);
    }
  }

  lemma DecodedIsNodes(t: Table, now: real)
    requires IsForest(t)
    ensures Decoded(Encoded(t), now) == Readable(WithNodes(BareRoots(now), t, Whole(t)))
  {
    var lines := LinesOf(t, Whole(t));
    DumpIsLines(t, Whole(t));
    assert Encoded(t) == HEADER + "\n" + Ended(lines);
    DecodedLines(lines, now);
    LinesAreNodes(BareRoots(now), t, Whole(t));
  }

  // --- Rebuilding -----------------------------------------------------------------------

  function DefaultTitle(root: int): string {
    if root == ROOT_BAR then BAR_TITLE else OTHER_TITLE
  }

  /** A node as it stands once the records of `ids` have been read: the roots are
      made at `now`, whatever the file says, and keep their own title for an empty one. */
  ghost function Reread(t: Table, ids: seq<int>, now: real, id: int): Node
    requires id in t
  {
    var children := ChildrenIn(t, ids, id);
    if IsRoot(id) then
      Node(id, 0, true, if id in ids && t[id].title != [] then t[id].title else DefaultTitle(id), [], now, children)
    else t[id].(added := WholeSeconds(t[id].added) as real, children := children)
  }

  ghost function Partial(t: Table, ids: seq<int>, now: real): Table {
    map id | id in t && (IsRoot(id) || id in ids) :: Reread(t, ids, now, id)
  }

  ghost predicate IsHighest(highest: int, ids: seq<int>) {
    ROOT_OTHER <= highest && (forall id <- ids :: id <= highest) && (highest == ROOT_OTHER || highest in ids)
  }

  ghost predicate Rebuilt(r: Reading, t: Table, ids: seq<int>, now: real) {
    && NoRepeats(Ids(r.nodes)) && TableOf(r.nodes) == Partial(t, ids, now)
    && IsHighest(r.highest, ids)
  }

  /** A node read before any of its children has none yet. */
  lemma {:induction false} NoChildrenYet(t: Table, ids: seq<int>, id: int)
    requires forall x <- ids :: x in t && t[x].parent != id
    ensures ChildrenIn(t, ids, id) == []
  {
    if ids != [] {
      var first := ids[0];
      assert first in ids;
      assert first in t && t[first].parent != id;
      NoChildrenYet(t, ids[1..], id);
    }
  }

  lemma ChildrenInPlusOne(t: Table, ids: seq<int>, id: int, folder: int)
    requires id in t
    ensures ChildrenIn(t, ids + [id], folder)
         == ChildrenIn(t, ids, folder) + (if t[id].parent == folder then [id] else [])
  {
    ChildrenInConcat(t, ids, [id], folder);
  }

  lemma RereadRoot(t: Table, ids: seq<int>, now: real, id: int, x: int)
    requires IsForest(t) && id !in ids && IsRoot(id) && id in t && x in t
    ensures var was := Reread(t, ids, now, x);
            Reread(t, ids + [id], now, x) == if x != id || t[id].title == [] then was else was.(title := t[id].title)
  {
    NodeFacts(t, id);
    NodeFacts(t, x);
    ChildrenInPlusOne(t, ids, id, x);
  }

  lemma PartialRoot(t: Table, ids: seq<int>, now: real, id: int)
    requires IsForest(t) && id !in ids && IsRoot(id)
    ensures id in t && id in Partial(t, ids, now)
    ensures var p := Partial(t, ids, now);
            Partial(t, ids + [id], now) == if t[id].title == [] then p else p[id := p[id].(title := t[id].title)]
  {
    forall x | x in t
      ensures Reread(t, ids + [id], now, x)
           == var was := Reread(t, ids, now, x); if x != id || t[id].title == [] then was
               else was.(title := t[id].title)
    {
      RereadRoot(t, ids, now, id, x);
    }
  }

  lemma ReadRoot(r: Reading, t: Table, ids: seq<int>, now: real, id: int)
    requires IsForest(t) && Rebuilt(r, t, ids, now) && id !in ids && IsRoot(id)
    ensures id in t && Rebuilt(WithRecord(r, Saved(t[id])), t, ids + [id], now)
  {
    PartialRoot(t, ids, now, id);
    NodeFacts(t, id);
    TableKeys(r.nodes, id);
    var at := FirstAt(r.nodes, id);
    if t[id].title != [] {
      TablePut(r.nodes, at, r.nodes[at].(title := t[id].title));
    }
  }

  ghost predicate FitsInt(id: int) {
    id < 0x8000_0000
  }

  /** Where the next record of a dump may stand: after its parent, before its children. */
  ghost predicate IsNext(t: Table, ids: seq<int>, id: int) {
    && id in t && id !in ids && !IsRoot(id) && FitsInt(id) && FitsInt(t[id].parent)
    && (IsRoot(t[id].parent) || t[id].parent in ids)
    && forall x <- ids :: x in t && t[x].parent != id
  }

  lemma RereadChild(t: Table, ids: seq<int>, now: real, id: int, x: int)
    requires IsForest(t) && IsNext(t, ids, id) && x in t
    ensures t[id].parent in t && t[t[id].parent].folder && t[id].parent != id
    ensures var was := Reread(t, ids, now, x);
            Reread(t, ids + [id], now, x) ==
              if x == id then NodeOf(Saved(t[id]))
              else if x == t[id].parent then was.(children := was.children + [id]) else was
  {
    NodeFacts(t, id);
    NodeFacts(t, t[id].parent);
    ChildrenInPlusOne(t, ids, id, x);
    NoChildrenYet(t, ids, id);
  }

  lemma PartialChildAt(t: Table, ids: seq<int>, now: real, id: int, x: int)
    requires IsForest(t) && IsNext(t, ids, id) && x in Partial(t, ids + [id], now)
    ensures x == id || x in Partial(t, ids, now)
    ensures var was := Partial(t, ids, now);
            Partial(t, ids + [id], now)[x] ==
              if x == id then NodeOf(Saved(t[id]))
              else if x == t[id].parent then was[x].(children := was[x].children + [id]) else was[x]
  {
    RereadChild(t, ids, now, id, x);
  }

  lemma PartialParent(t: Table, ids: seq<int>, now: real, id: int)
    requires IsForest(t) && IsNext(t, ids, id)
    ensures id !in Partial(t, ids, now) && t[id].parent != id
    ensures t[id].parent in Partial(t, ids, now) && Partial(t, ids, now)[t[id].parent].folder
    ensures Partial(t, ids + [id], now).Keys == Partial(t, ids, now).Keys + {id}
  {
    RereadChild(t, ids, now, id, id);
    NodeFacts(t, t[id].parent);
  }

  lemma PartialChild(t: Table, ids: seq<int>, now: real, id: int)
    requires IsForest(t) && IsNext(t, ids, id)
    ensures var parent := t[id].parent;
            var p := Partial(t, ids, now)[id := NodeOf(Saved(t[id]))];
            && parent in p && id !in Partial(t, ids, now) && p[parent].folder
            && Partial(t, ids + [id], now) == p[parent := p[parent].(children := p[parent].children + [id])]
  {
    var (q, was) := (Partial(t, ids + [id], now), Partial(t, ids, now));
    var (node, parent) := (NodeOf(Saved(t[id])), t[id].parent);
    PartialParent(t, ids, now, id);
    forall x | x in q
      ensures IsGrownAt(q, was, node, id, parent, x)
    {
      PartialChildAt(t, ids, now, id, x);
    }
    GrownTables(q, was, node, id, parent);
  }

  ghost predicate IsGrownAt(q: Table, was: Table, node: Node, id: int, parent: int, x: int)
    requires x in q
  {
    if x == id then q[x] == node
    else x in was && q[x] == if x == parent then was[x].(children := was[x].children + [id]) else was[x]
  }

  lemma GrownTables(q: Table, was: Table, node: Node, id: int, parent: int)
    requires q.Keys == was.Keys + {id} && id !in was && parent in was
    requires forall x {:trigger IsGrownAt(q, was, node, id, parent, x)} :: x in q ==>
        IsGrownAt(q, was, node, id, parent, x)
    ensures q == was[id := node][parent := was[parent].(children := was[parent].children + [id])]
  {
    forall x | x in q
      ensures q[x] == was[id := node][parent := was[parent].(children := was[parent].children + [id])][x]
    {
      assert IsGrownAt(q, was, node, id, parent, x);
    }
  }

  lemma ReadChild(r: Reading, t: Table, ids: seq<int>, now: real, id: int)
    requires IsForest(t) && Rebuilt(r, t, ids, now) && IsNext(t, ids, id)
    ensures Rebuilt(WithRecord(r, Saved(t[id])), t, ids + [id], now)
  {
    NodeFacts(t, id);
    PartialChild(t, ids, now, id);
    var parent := t[id].parent;
    NodeFacts(t, parent);
    TableKeys(r.nodes, id);
    TableKeys(r.nodes, parent);
    var node := NodeOf(Saved(t[id]));
    PushedChild(r.nodes, node, parent);
    assert WithRecord(r, Saved(t[id])).nodes == WithChild(r.nodes + [node], parent, id);
  }

  lemma NextInDump(t: Table, ids: seq<int>, rest: seq<int>)
    requires IsForest(t) && NoRepeats(ids + rest) && rest != [] && (forall id <- t :: FitsInt(id))
    requires ParentsFirst(t, ids + rest, [ROOT_BAR, ROOT_OTHER])
    ensures rest[0] in t && rest[0] !in ids
    ensures !IsRoot(rest[0]) ==> IsNext(t, ids, rest[0])
  {
    var all, id, at := ids + rest, rest[0], |ids|;
    assert all[at] == id && all[..at] == ids;
    assert id in t;
    NodeFacts(t, id);
    forall x <- ids
      ensures x != id && x in t && t[x].parent != id
    {
      var i :| 0 <= i < at && all[i] == x;
      assert all[i] != all[at];
      assert all[i] in t;
      NodeFacts(t, x);
      forall j | 0 <= j < i
        ensures all[j] != id
      {
        assert all[j] != all[at];
      }
    }
  }

  lemma ReadNext(r: Reading, t: Table, ids: seq<int>, rest: seq<int>, now: real)
    requires IsForest(t) && Rebuilt(r, t, ids, now) && NoRepeats(ids + rest) && rest != []
    requires ParentsFirst(t, ids + rest, [ROOT_BAR, ROOT_OTHER])
    requires forall id <- t :: FitsInt(id)
    ensures rest[0] in t && Rebuilt(WithRecord(r, Saved(t[rest[0]])), t, ids + [rest[0]], now)
  {
    NextInDump(t, ids, rest);
    if IsRoot(rest[0]) {
      ReadRoot(r, t, ids, now, rest[0]);
    } else {
      ReadChild(r, t, ids, now, rest[0]);
    }
  }

  /** Reading a whole dump, record after record. */
  lemma {:induction false} ReadAll(r: Reading, t: Table, ids: seq<int>, rest: seq<int>, now: real)
    requires IsForest(t) && Rebuilt(r, t, ids, now) && NoRepeats(ids + rest)
    requires ParentsFirst(t, ids + rest, [ROOT_BAR, ROOT_OTHER])
    requires forall id <- t :: FitsInt(id)
    ensures Rebuilt(WithNodes(r, t, rest), t, ids + rest, now)
    decreases |rest|
  {
    if rest == [] {
      assert ids + rest == ids;
    } else {
      var id := rest[0];
      ReadNext(r, t, ids, rest, now);
      assert ids + [id] + rest[1..] == ids + rest;
      ReadAll(WithRecord(r, Saved(t[id])), t, ids + [id], rest[1..], now);
    }
  }

  // --- The round trip -------------------------------------------------------------------

  /** What comes back: the same tree, times cut to whole seconds, the roots made
      anew and, if the file named them emptily, under the name they are made with. */
  ghost function Reloaded(t: Table, now: real): Table {
    map id | id in t ::
      if IsRoot(id) then t[id].(added := now, title := if t[id].title != [] then t[id].title else DefaultTitle(id))
      else t[id].(added := WholeSeconds(t[id].added) as real)
  }

  lemma PartialAtStart(t: Table, now: real)
    requires IsForest(t)
    ensures Rebuilt(BareRoots(now), t, [], now)
  {
    var r := BareRoots(now);
    assert Ids(r.nodes) == [ROOT_BAR, ROOT_OTHER];
    var p := Partial(t, [], now);
    forall i | 0 <= i < |r.nodes|
      ensures r.nodes[i].id in p && p[r.nodes[i].id] == r.nodes[i]
    {
      assert i == 0 || i == 1;
    }
    HoldsOne(r.nodes, p);
  }

  lemma PartialAtEnd(t: Table, now: real)
    requires IsForest(t)
    ensures Partial(t, Whole(t), now) == Reloaded(t, now)
  {
    WholeListsAll(t);
    var p, q := Partial(t, Whole(t), now), Reloaded(t, now);
    assert p.Keys == q.Keys;
    forall id | id in t
      ensures p[id] == q[id]
    {
      WholeKeepsOrder(t, id);
      NodeFacts(t, id);
    }
  }

  /** Decoding what the encoder wrote rebuilds the forest: the same ids, parents,
      kinds, titles, addresses and ordered children, under distinct ids, with the
      next id above every one in use. */
  lemma ReloadRebuilds(t: Table, now: real)
    requires IsForest(t) && forall id <- t :: FitsInt(id)
    ensures Decoded(Encoded(t), now).Readable?
    ensures var r := Decoded(Encoded(t), now).reading;
            && NoRepeats(Ids(r.nodes))
            && TableOf(r.nodes) == Reloaded(t, now)
            && (forall id <- t :: id < r.highest + 1)
            && (r.highest == ROOT_OTHER || r.highest in t)
  {
    DecodedIsNodes(t, now);
    WholeListsAll(t);
    WholeParentsFirst(t);
    PartialAtStart(t, now);
    assert [] + Whole(t) == Whole(t);
    ReadAll(BareRoots(now), t, [], Whole(t), now);
    PartialAtEnd(t, now);
  }

  lemma ReloadedIsForest(t: Table, now: real)
    requires IsForest(t)
    ensures IsForest(Reloaded(t, now))
  {
    var t' := Reloaded(t, now);
    forall id | id in t'
      ensures Linked(t', id) && RankedAt(t', RankOf(t), id)
    {
      NodeFacts(t, id);
    }
    assert Ranked(t', RankOf(t));
  }

  /** A store filled from its own file is sound again, and numbers on from no
      higher an id than it would have without the restart. */
  lemma ReloadIsSound(t: Table, now: real)
    requires IsForest(t) && forall id <- t :: FitsInt(id)
    ensures Decoded(Encoded(t), now).Readable?
    ensures Sound(Left(Decoded(Encoded(t), now).reading))
  {
    ReloadRebuilds(t, now);
    ReloadedIsForest(t, now);
    var r := Decoded(Encoded(t), now).reading;
    forall id
      ensures id in Ids(r.nodes) <==> id in TableOf(r.nodes)
    {
      TableKeys(r.nodes, id);
    }
  }

  /** A root's title survives exactly when it is not empty. */
  lemma RootTitleSurvives(t: Table, now: real, root: int)
    requires IsForest(t) && IsRoot(root) && forall id <- t :: FitsInt(id)
    ensures Decoded(Encoded(t), now).Readable?
    ensures var read := TableOf(Decoded(Encoded(t), now).reading.nodes);
            root in t && root in read && (read[root].title == t[root].title <==> t[root].title != [])
  {
    NodeFacts(t, root);
    ReloadRebuilds(t, now);
  }

  /** A bar named emptily is called what a new one is called after a restart. */
  lemma EmptyTitleIsLost(now: real)
    ensures var m := Rename(EnsureRoots(EMPTY, now), ROOT_BAR, "");
            && IsForest(m.table) && Decoded(Encoded(m.table), now).Readable?
            && var read := TableOf(Decoded(Encoded(m.table), now).reading.nodes);
            && m.table[ROOT_BAR].title == "" && ROOT_BAR in read && read[ROOT_BAR].title == BAR_TITLE
  {
    EnsureKeepsSound(EMPTY, now);
    var m := EnsureRoots(EMPTY, now);
    NodeFacts(m.table, ROOT_BAR);
    RelabelKeepsForest(m.table, ROOT_BAR, m.table[ROOT_BAR].(title := ""));
    var t := Rename(m, ROOT_BAR, "").table;
    assert forall id <- t :: id in m.table && FitsInt(id);
    ReloadRebuilds(t, now);
  }

  // --- Runs across restarts -----------------------------------------------------------

  datatype Event =
    | Edited(edit: Edit)
    | RootsMade(now: real)
    | Restarted(savedAt: real, now: real)

  /** One event; a restart saves the store and reads the file back. Ids are 32 bits
      wide, so every id below the next one has to fit. */
  ghost function After(m: Model, event: Event): (m': Model)
    requires Sound(m) && m.nextId <= 0x8000_0000
    ensures Sound(m') && m'.nextId <= m.nextId + 1
  {
    match event
    case Edited(edit) => Applied(m, edit)
    case RootsMade(now) =>
      EnsureKeepsSound(m, now);
      EnsureRoots(m, now)
    case Restarted(savedAt, now) =>
      EnsureKeepsSound(m, savedAt);
      var t := EnsureRoots(m, savedAt).table;
      RestartNumbers(EnsureRoots(m, savedAt), now);
      Left(Decoded(Encoded(t), now).reading)
  }

  lemma RestartNumbers(m: Model, now: real)
    requires Sound(m) && IsForest(m.table) && m.nextId <= 0x8000_0000
    ensures Decoded(Encoded(m.table), now).Readable?
    ensures Sound(Left(Decoded(Encoded(m.table), now).reading))
    ensures Left(Decoded(Encoded(m.table), now).reading).nextId <= m.nextId
  {
    ReloadRebuilds(m.table, now);
    ReloadIsSound(m.table, now);
  }

  /** The store after edits, saves and restarts in any order. */
  ghost function Lived(events: seq<Event>): (m: Model)
    requires |events| <= 0x7fff_fffd
    ensures Sound(m) && m.nextId <= ROOT_OTHER + 1 + |events|
  {
    if events == [] then EMPTY else After(Lived(events[..|events| - 1]), events[|events| - 1])
  }

  /** The tree stays tidy over every life of the store, restarts included, for as
      long as the ids fit into 32 bits. */
  lemma EveryLifeKeepsTheTree(events: seq<Event>)
    requires |events| <= 0x7fff_fffd
    ensures IsTidy(Lived(events))
  {
    SoundIsTidy(Lived(events));
  }
}
