/** The store itself: one unordered vector of nodes, found by linear search and
    changed in place. Every method is proved against the edit of the model. */
module BookmarkStore {
  import opened Sequences
  import opened BookmarkTree
  import opened BookmarkEdits
  import opened BookmarkLeaves
  import opened BookmarkRuns

  function Ids(nodes: seq<Node>): seq<int> {
    seq(|nodes|, i requires 0 <= i < |nodes| => nodes[i].id)
  }

  ghost function TableOf(nodes: seq<Node>): Table {
    if nodes == [] then map[]
    else var last := nodes[|nodes| - 1]; TableOf(nodes[..|nodes| - 1])[last.id := last]
  }

  ghost predicate Holds(nodes: seq<Node>, t: Table) {
    && (forall i :: 0 <= i < |nodes| ==> nodes[i].id in t && t[nodes[i].id] == nodes[i])
    && (forall id <- t :: id in Ids(nodes))
  }

  lemma {:induction false} TableHolds(nodes: seq<Node>)
    requires NoRepeats(Ids(nodes))
    ensures Holds(nodes, TableOf(nodes))
  {
    if nodes != [] {
      var n := |nodes| - 1;
      var front := nodes[..n];
      assert Ids(front) == Ids(nodes)[..n];
      TableHolds(front);
      forall i | 0 <= i < n
        ensures nodes[i].id in TableOf(nodes) && TableOf(nodes)[nodes[i].id] == nodes[i]
      {
        assert Ids(nodes)[i] != Ids(nodes)[n];
        assert front[i] == nodes[i];
      }
      assert Ids(nodes) == Ids(front) + [nodes[n].id];
    }
  }

  lemma HoldsOne(nodes: seq<Node>, t: Table)
    requires NoRepeats(Ids(nodes)) && Holds(nodes, t)
    ensures TableOf(nodes) == t
  {
    TableHolds(nodes);
    var t' := TableOf(nodes);
    forall id
      ensures id in t <==> id in t'
      ensures id in t ==> t[id] == t'[id]
    {
      if id in Ids(nodes) {
        var i :| 0 <= i < |nodes| && Ids(nodes)[i] == id;
        assert nodes[i].id == id;
      }
    }
  }

  /** The position of the first node of an id, or -1. */
  function FirstAt(nodes: seq<Node>, id: int): int {
    if nodes == [] || id <= 0 then -1
    else if nodes[0].id == id then 0
    else var rest := FirstAt(nodes[1..], id); if rest < 0 then -1 else rest + 1
  }

  lemma {:induction false} FirstAtFinds(nodes: seq<Node>, id: int)
    ensures var at := FirstAt(nodes, id);
            if id > 0 && id in Ids(nodes) then 0 <= at < |nodes| && nodes[at].id == id else at == -1
  {
    if nodes != [] {
      FirstAtFinds(nodes[1..], id);
      assert Ids(nodes) == [nodes[0].id] + Ids(nodes[1..]);
    }
  }

  lemma TableKeys(nodes: seq<Node>, id: int)
    requires NoRepeats(Ids(nodes))
    ensures id in Ids(nodes) <==> id in TableOf(nodes)
    ensures id > 0 && id in TableOf(nodes) ==>
              0 <= FirstAt(nodes, id) < |nodes| && nodes[FirstAt(nodes, id)] == TableOf(nodes)[id]
              && TableOf(nodes)[id].id == id
    ensures !(id > 0 && id in TableOf(nodes)) ==> FirstAt(nodes, id) == -1
  {
    TableHolds(nodes);
    FirstAtFinds(nodes, id);
    if id in Ids(nodes) {
      var i :| 0 <= i < |nodes| && Ids(nodes)[i] == id;
      assert nodes[i].id == id;
    }
  }

  lemma TablePut(nodes: seq<Node>, i: nat, node: Node)
    requires NoRepeats(Ids(nodes)) && i < |nodes| && node.id == nodes[i].id
    ensures Ids(nodes[i := node]) == Ids(nodes)
    ensures TableOf(nodes[i := node]) == TableOf(nodes)[node.id := node]
  {
    TableHolds(nodes);
    var nodes' := nodes[i := node];
    assert Ids(nodes') == Ids(nodes);
    forall j | 0 <= j < |nodes| && j != i
      ensures nodes[j].id != node.id
    {
      assert Ids(nodes)[j] != Ids(nodes)[i];
    }
    HoldsOne(nodes', TableOf(nodes)[node.id := node]);
  }

  lemma TableAppend(nodes: seq<Node>, node: Node)
    ensures Ids(nodes + [node]) == Ids(nodes) + [node.id]
    ensures TableOf(nodes + [node]) == TableOf(nodes)[node.id := node]
  {
    assert (nodes + [node])[..|nodes|] == nodes;
  }

  /** The nodes an erase of `doomed` leaves. */
  function Spared(nodes: seq<Node>, doomed: seq<int>): seq<Node> {
    if nodes == [] then []
    else (if nodes[0].id in doomed then [] else [nodes[0]]) + Spared(nodes[1..], doomed)
  }

  lemma {:induction false} SparedAre(nodes: seq<Node>, doomed: seq<int>, t: Table)
    requires forall id :: id in t <==> id in Ids(nodes) && id !in doomed
    requires forall node <- nodes :: node.id in t ==> t[node.id] == node
    requires NoRepeats(Ids(nodes))
    ensures Ids(Spared(nodes, doomed)) == Kept(Ids(nodes), t)
    ensures TableOf(Spared(nodes, doomed)) == t
  {
    forall node <- nodes
      ensures node.id in Ids(nodes)
    {
      IdIn(nodes, node);
    }
    SparedIds(nodes, doomed, t);
    KeptMembers(Ids(nodes), t);
    var left := Spared(nodes, doomed);
    SparedMembers(nodes, doomed);
    forall i | 0 <= i < |left|
      ensures left[i].id in t && t[left[i].id] == left[i]
    {
      assert left[i] in left;
      IdIn(nodes, left[i]);
    }
    HoldsOne(left, t);
  }

  lemma IdIn(nodes: seq<Node>, node: Node)
    requires node in nodes
    ensures node.id in Ids(nodes)
  {
    var i :| 0 <= i < |nodes| && nodes[i] == node;
    assert Ids(nodes)[i] == node.id;
  }

  lemma {:induction false} SparedMembers(nodes: seq<Node>, doomed: seq<int>)
    ensures forall node :: node in Spared(nodes, doomed) <==> node in nodes && node.id !in doomed
  {
    if nodes != [] {
      SparedMembers(nodes[1..], doomed);
      assert nodes == [nodes[0]] + nodes[1..];
    }
  }

  lemma {:induction false} SparedIds(nodes: seq<Node>, doomed: seq<int>, t: Table)
    requires forall node <- nodes :: node.id in t <==> node.id !in doomed
    ensures Ids(Spared(nodes, doomed)) == Kept(Ids(nodes), t)
  {
    if nodes != [] {
      assert nodes[0] in nodes;
      SparedIds(nodes[1..], doomed, t);
      assert Ids(nodes)[1..] == Ids(nodes[1..]);
    }
  }

  class Store {
    var nodes: seq<Node>
    var nextId: int

    constructor ()
      ensures Valid() && View() == EMPTY
    {
      nodes := [];
      nextId := ROOT_OTHER + 1;
    }

    ghost function View(): Model
      reads this
    {
      Model(Ids(nodes), TableOf(nodes), nextId)
    }

    ghost predicate Valid()
      reads this
    {
      Sound(View())
    }

    /** The position of the first node of an id, or -1; in a store whose ids are
        unique, that is the one the table holds. */
    method Find(id: int) returns (at: int)
      ensures at == FirstAt(nodes, id) && -1 <= at < |nodes|
      ensures NoRepeats(Ids(nodes)) && id > 0 && id in TableOf(nodes) ==>
                0 <= at && nodes[at].id == id && nodes[at] == TableOf(nodes)[id]
      ensures NoRepeats(Ids(nodes)) && !(id > 0 && id in TableOf(nodes)) ==> at == -1
    {
      at := FindFrom(id);
      FirstAtFinds(nodes, id);
      if NoRepeats(Ids(nodes)) {
        TableKeys(nodes, id);
      }
    }

    method FindFrom(id: int) returns (at: int)
      ensures at == FirstAt(nodes, id)
    {
      if id <= 0 {
        return -1;
      }
      assert nodes[0..] == nodes;
      for i := 0 to |nodes|
        invariant FirstAt(nodes, id) == if FirstAt(nodes[i..], id) < 0 then -1 else FirstAt(nodes[i..], id) + i
      {
        assert nodes[i..][0] == nodes[i] && nodes[i..][1..] == nodes[i + 1..];
        if nodes[i].id == id {
          return i;
        }
      }
      return -1;
    }

    /** Gives the node at a position other contents under the same id. */
    method Put(at: nat, node: Node)
      requires NoRepeats(Ids(nodes)) && at < |nodes| && node.id == nodes[at].id
      modifies this`nodes
      ensures Ids(nodes) == old(Ids(nodes)) && TableOf(nodes) == old(TableOf(nodes))[node.id := node]
    {
      TablePut(nodes, at, node);
      nodes := nodes[at := node];
    }

    method EnsureRoots(now: real)
      requires Valid()
      modifies this
      ensures Valid() && View() == BookmarkEdits.EnsureRoots(old(View()), now)
    {
      EnsureKeepsSound(View(), now);
      EnsureRoot(ROOT_BAR, BAR_TITLE, now);
      EnsureRoot(ROOT_OTHER, OTHER_TITLE, now);
      nextId := if nextId <= ROOT_OTHER then ROOT_OTHER + 1 else nextId;
    }

    method EnsureRoot(id: int, title: string, now: real)
      requires Lists(Ids(nodes), TableOf(nodes)) && IsRoot(id)
      modifies this`nodes
      ensures Lists(Ids(nodes), TableOf(nodes)) && View() == WithRoot(old(View()), id, title, now)
    {
      var at := Find(id);
      if at < 0 {
        Append(Node(id, 0, true, title, [], now, []));
      }
    }

    method Append(node: Node)
      requires NoRepeats(Ids(nodes)) && node.id !in Ids(nodes)
      modifies this`nodes
      ensures Ids(nodes) == old(Ids(nodes)) + [node.id] && NoRepeats(Ids(nodes))
      ensures TableOf(nodes) == old(TableOf(nodes))[node.id := node]
    {
      TableAppend(nodes, node);
      ConcatNoRepeats(Ids(nodes), [node.id]);
      nodes := nodes + [node];
    }

    method InsertChild(parent: int, id: int, index: int)
      requires NoRepeats(Ids(nodes))
      modifies this`nodes
      ensures Ids(nodes) == old(Ids(nodes))
      ensures var t := old(TableOf(nodes));
              TableOf(nodes) == if parent <= 0 || parent !in t then t
                                else WithChildren(t, parent, InsertAt(t[parent].children, id, index))
    {
      var folder := Find(parent);
      if folder < 0 {
        return;
      }
      var node := nodes[folder];
      var count := |node.children|;
      var at := if index < 0 || index > count then count else index;
      Put(folder, node.(children := node.children[..at] + [id] + node.children[at..]));
    }

    method Detach(id: int)
      requires NoRepeats(Ids(nodes))
      modifies this`nodes
      ensures Ids(nodes) == old(Ids(nodes))
      ensures var t := old(TableOf(nodes));
              TableOf(nodes) == if id <= 0 || id !in t || t[id].parent <= 0 || t[id].parent !in t then t
                                else Detached(t, id)
    {
      var node := Find(id);
      if node < 0 {
        return;
      }
      var parent := Find(nodes[node].parent);
      if parent < 0 {
        return;
      }
      Put(parent, nodes[parent].(children := Without(nodes[parent].children, id)));
    }

    method Add(parent: int, index: int, url: string, title: string, folder: bool, now: real) returns (id: int)
      requires Valid()
      modifies this
      ensures Valid()
      ensures (View(), id) == BookmarkEdits.Add(old(View()), parent, index, url, title, folder, now)
    {
      EnsureRoots(now);
      id := AddTo(parent, index, url, title, folder, now);
    }

    method AddTo(parent: int, index: int, url: string, title: string, folder: bool, now: real) returns (id: int)
      requires Valid()
      modifies this
      ensures Valid()
      ensures (View(), id) == BookmarkEdits.AddTo(old(View()), parent, index, url, title, folder, now)
    {
      AddToKeepsSound(View(), parent, index, url, title, folder, now);
      AddFacts(View(), parent);
      id := TryAdd(parent, index, url, title, folder, now);
    }

    method TryAdd(parent: int, index: int, url: string, title: string, folder: bool, now: real) returns (id: int)
      requires NoRepeats(Ids(nodes)) && nextId !in Ids(nodes) && (parent in TableOf(nodes) ==> parent > 0)
      modifies this
      ensures (View(), id) == BookmarkEdits.AddTo(old(View()), parent, index, url, title, folder, now)
    {
      var target := Find(parent);
      if target < 0 || !nodes[target].folder {
        return 0;
      }
      if !folder && url == [] {
        return 0;
      }
      id := nextId;
      nextId := nextId + 1;
      var node := Node(id, parent, folder, title, if folder then [] else url, now, []);
      AppendUnder(node, index);
    }

    method AppendUnder(node: Node, index: int)
      requires NoRepeats(Ids(nodes)) && node.id !in Ids(nodes)
      requires node.parent > 0 && node.parent in TableOf(nodes)
      modifies this`nodes
      ensures Ids(nodes) == old(Ids(nodes)) + [node.id]
      ensures TableOf(nodes) == Inserted(old(TableOf(nodes)), node, index)
    {
      ghost var r := TableOf(nodes);
      TableHolds(nodes);
      Append(node);
      InsertChild(node.parent, node.id, index);
      assert TableOf(nodes) == Inserted(r, node, index);
    }

    // --- Walks ------------------------------------------------------------------

    /** A store that is empty or a forest: every walk over it ends. */
    ghost predicate Walkable()
      reads this
    {
      NoRepeats(Ids(nodes)) && (nodes != [] ==> IsForest(TableOf(nodes)))
    }

    /** What a walk down from a node uses up. */
    ghost function Walk(id: int): nat
      requires Walkable()
      reads this
    {
      if id in TableOf(nodes) then Room(TableOf(nodes), Rank(TableOf(nodes), id)) + 1 else 0
    }

    method CollectSubtree(id: int, before: seq<int>) returns (out: seq<int>)
      requires Walkable()
      ensures id in TableOf(nodes) ==> out == before + Subtree(TableOf(nodes), id)
      ensures id !in TableOf(nodes) ==> out == before + [id]
      decreases Walk(id), 1, 0
    {
      ghost var t := TableOf(nodes);
      out := before + [id];
      PositiveIds(t);
      var at := Find(id);
      if at < 0 {
        return;
      }
      ChildrenAreDeeper(t, id);
      ghost var depth := Rank(t, id) + 1;
      Associates(before, [id], Subtrees(t, depth, nodes[at].children));
      out := CollectChildren(nodes[at].children, depth, out);
    }

    method CollectChildren(children: seq<int>, ghost depth: nat, before: seq<int>) returns (out: seq<int>)
      requires Walkable() && IsForest(TableOf(nodes)) && Level(TableOf(nodes), depth, children)
      ensures out == before + Subtrees(TableOf(nodes), depth, children)
      decreases Room(TableOf(nodes), depth) + 1, 2, 0
    {
      ghost var t := TableOf(nodes);
      out := before;
      assert children[0..] == children;
      for k := 0 to |children|
        invariant out + Subtrees(t, depth, children[k..]) == before + Subtrees(t, depth, children)
      {
        ghost var so, rest := out, Subtrees(t, depth, children[k + 1..]);
        SubtreesStep(t, depth, children, k);
        out := CollectSubtree(children[k], out);
        Associates(so, Subtree(t, children[k]), rest);
      }
      assert children[|children|..] == [];
    }

    method LeafCountBelow(id: int) returns (count: nat)
      requires Walkable()
      ensures count == if id in TableOf(nodes) then LeafCount(TableOf(nodes), id) else 0
      decreases Walk(id), 1, 0
    {
      ghost var t := TableOf(nodes);
      PositiveIds(t);
      var at := Find(id);
      if at < 0 {
        return 0;
      }
      if !nodes[at].folder {
        return 1;
      }
      ChildrenAreDeeper(t, id);
      count := LeafCountAmong(nodes[at].children, Rank(t, id) + 1);
    }

    method LeafCountAmong(children: seq<int>, ghost depth: nat) returns (count: nat)
      requires Walkable() && IsForest(TableOf(nodes)) && Level(TableOf(nodes), depth, children)
      ensures count == LeafCounts(TableOf(nodes), depth, children)
      decreases Room(TableOf(nodes), depth) + 1, 2, 0
    {
      ghost var t := TableOf(nodes);
      count := 0;
      assert children[0..] == children;
      for k := 0 to |children|
        invariant count + LeafCounts(t, depth, children[k..]) == LeafCounts(t, depth, children)
      {
        LeafCountsStep(t, depth, children, k);
        var below := LeafCountBelow(children[k]);
        count := count + below;
      }
      assert children[|children|..] == [];
    }

    method IsInside(candidate: int, folder: int) returns (inside: bool)
      requires Walkable()
      ensures inside == if candidate in TableOf(nodes) then Inside(TableOf(nodes), candidate, folder)
                        else candidate > 0 && candidate == folder
    {
      ghost var t := TableOf(nodes);
      PositiveIds(t);
      var at := candidate;
      while at > 0
        invariant candidate in t && at != 0 ==> at in t && Inside(t, at, folder) == Inside(t, candidate, folder)
        invariant candidate in t && at == 0 ==> !Inside(t, candidate, folder)
        invariant candidate !in t ==> at == candidate
        decreases if at in t then Rank(t, at) + 1 else 0
      {
        if at == folder {
          return true;
        }
        var node := Find(at);
        if node < 0 {
          return false;
        }
        NodeFacts(t, at);
        at := nodes[node].parent;
      }
      return false;
    }

    /** How many folders a node is below. */
    method Depth(id: int) returns (depth: nat)
      requires Walkable()
      ensures depth == if id in TableOf(nodes) then Rank(TableOf(nodes), id) else 0
    {
      ghost var t := TableOf(nodes);
      PositiveIds(t);
      depth := 0;
      var node := Find(id);
      while node >= 0 && nodes[node].parent > 0
        invariant node < |nodes|
        invariant id !in t ==> node < 0 && depth == 0
        invariant id in t ==> 0 <= node && nodes[node].id in t && t[nodes[node].id] == nodes[node]
        invariant id in t ==> depth + Rank(t, nodes[node].id) == Rank(t, id)
        decreases if id in t then Rank(t, id) - depth else 0
      {
        NodeFacts(t, nodes[node].id);
        depth := depth + 1;
        node := Find(nodes[node].parent);
      }
      if id in t {
        NodeFacts(t, nodes[node].id);
      }
    }

    // --- Edits ------------------------------------------------------------------

    method Erase(doomed: seq<int>)
      modifies this`nodes
      ensures nodes == Spared(old(nodes), doomed)
    {
      var kept := [];
      for i := 0 to |nodes|
        invariant kept + Spared(nodes[i..], doomed) == Spared(nodes, doomed)
      {
        assert nodes[i..][0] == nodes[i] && nodes[i..][1..] == nodes[i + 1..];
        if nodes[i].id !in doomed {
          kept := kept + [nodes[i]];
        }
      }
      nodes := kept;
    }

    method Remove(id: int)
      requires Valid()
      modifies this`nodes
      ensures Valid() && View() == BookmarkEdits.Remove(old(View()), id)
    {
      RemoveKeepsSound(View(), id);
      MoveFacts(View(), id, id);
      var found := Find(id);
      if IsRoot(id) || found < 0 {
        return;
      }
      Prune(id);
    }

    method Prune(id: int)
      requires Walkable() && id in TableOf(nodes) && !IsRoot(id)
      modifies this`nodes
      ensures old(TableOf(nodes)[id].parent in TableOf(nodes))
      ensures TableOf(nodes) == Pruned(old(TableOf(nodes)), id)
      ensures Ids(nodes) == Kept(old(Ids(nodes)), TableOf(nodes))
    {
      ghost var t := TableOf(nodes);
      PositiveIds(t);
      NodeFacts(t, id);
      var doomed := CollectSubtree(id, []);
      Detach(id);
      DetachedThenSpared(t, id, doomed, nodes);
      Erase(doomed);
    }

    method Move(id: int, parent: int, index: int)
      requires Valid()
      modifies this`nodes
      ensures Valid() && View() == BookmarkEdits.Move(old(View()), id, parent, index)
    {
      MoveKeepsSound(View(), id, parent, index);
      MoveFacts(View(), id, parent);
      if IsRoot(id) {
        return;
      }
      var node := Find(id);
      var target := Find(parent);
      if node < 0 || target < 0 || !nodes[target].folder {
        return;
      }
      var inside := IsInside(parent, id);
      if inside {
        return;
      }
      var sameParent := nodes[node].parent == parent;
      var from := if sameParent then IndexOf(nodes[target].children, id) else -1;
      var at := if sameParent && from >= 0 && index > from then index - 1 else index;
      Relocate(id, parent, at, index);
    }

    /** Takes a node out of its folder and puts it into another at a place. */
    method Relocate(id: int, parent: int, at: int, ghost index: int)
      requires NoRepeats(Ids(nodes)) && id > 0 && parent > 0 && id in TableOf(nodes) && parent in TableOf(nodes)
      requires TableOf(nodes)[id].parent > 0 && TableOf(nodes)[id].parent in TableOf(nodes)
      requires at == LandingIndex(TableOf(nodes), id, parent, index)
      modifies this`nodes
      ensures Ids(nodes) == old(Ids(nodes))
      ensures old(id in TableOf(nodes) && parent in TableOf(nodes) && TableOf(nodes)[id].parent in TableOf(nodes))
      ensures TableOf(nodes) == Moved(old(TableOf(nodes)), id, parent, index)
    {
      Detach(id);
      var node := Find(id);
      TableKeys(nodes, id);
      Put(node, nodes[node].(parent := parent));
      InsertChild(parent, id, at);
    }

    method Rename(id: int, title: string)
      requires Valid()
      modifies this`nodes
      ensures Valid() && View() == BookmarkEdits.Rename(old(View()), id, title)
    {
      RelabelKeepsSound(View(), id, title);
      IdsArePositive(View());
      Retitle(id, title);
    }

    method Retitle(id: int, title: string)
      requires NoRepeats(Ids(nodes)) && forall x <- TableOf(nodes) :: x > 0
      modifies this`nodes
      ensures Ids(nodes) == old(Ids(nodes))
      ensures var t := old(TableOf(nodes));
              TableOf(nodes) == if id !in t then t else t[id := t[id].(title := title)]
    {
      var at := Find(id);
      if at < 0 || nodes[at].title == title {
        return;
      }
      Put(at, nodes[at].(title := title));
    }

    method SetUrl(id: int, url: string)
      requires Valid()
      modifies this`nodes
      ensures Valid() && View() == BookmarkEdits.SetUrl(old(View()), id, url)
    {
      RelabelKeepsSound(View(), id, url);
      IdsArePositive(View());
      Readdress(id, url);
    }

    method Readdress(id: int, url: string)
      requires NoRepeats(Ids(nodes)) && forall x <- TableOf(nodes) :: x > 0
      modifies this`nodes
      ensures Ids(nodes) == old(Ids(nodes))
      ensures var t := old(TableOf(nodes));
              TableOf(nodes) == if id !in t || t[id].folder || url == [] then t else t[id := t[id].(url := url)]
    {
      var at := Find(id);
      if at < 0 || nodes[at].folder || url == [] || nodes[at].url == url {
        return;
      }
      Put(at, nodes[at].(url := url));
    }

    method NodeForUrl(url: string) returns (id: int)
      requires Valid()
      ensures id == if url == [] then 0 else BookmarkEdits.NodeForUrl(View().order, View().table, url)
    {
      if url == [] {
        return 0;
      }
      ghost var order, t := Ids(nodes), TableOf(nodes);
      TableHolds(nodes);
      for i := 0 to |nodes|
        invariant BookmarkEdits.NodeForUrl(order[i..], t, url) == BookmarkEdits.NodeForUrl(order, t, url)
      {
        assert order[i..][0] == nodes[i].id && order[i..][1..] == order[i + 1..];
        if !nodes[i].folder && nodes[i].url == url {
          return nodes[i].id;
        }
      }
      return 0;
    }

    method Toggle(url: string, title: string, now: real) returns (lit: bool)
      requires Valid()
      modifies this
      ensures Valid() && (View(), lit) == BookmarkRuns.Toggle(old(View()), url, title, now)
    {
      if url == [] {
        return false;
      }
      EnsureRoots(now);
      ghost var r := View();
      var removed := false;
      var existing := NodeForUrl(url);
      while existing != 0
        invariant Valid() && existing == BookmarkEdits.NodeForUrl(View().order, View().table, url)
        invariant Unfile(View(), url) == Unfile(r, url)
        invariant !removed ==> View() == r
        invariant removed ==> BookmarkEdits.NodeForUrl(r.order, r.table, url) != 0
        decreases TableOf(nodes).Keys
      {
        UnfileShrinks(View(), url);
        Remove(existing);
        removed := true;
        existing := NodeForUrl(url);
      }
      if removed {
        return false;
      }
      AddKeepsSound(r, ROOT_BAR, -1, url, LabelFor(url, title), false, now);
      var id := Add(ROOT_BAR, -1, url, LabelFor(url, title), false, now);
      return id != 0;
    }
  }

  lemma PositiveIds(t: Table)
    requires t != map[] ==> IsForest(t)
    ensures forall id <- t :: id > 0
  {
    forall id <- t
      ensures id > 0
    {
      NodeFacts(t, id);
    }
  }

  lemma IdsArePositive(m: Model)
    requires Sound(m)
    ensures forall id <- m.table :: id > 0
  {
    if m.order != [] {
      PositiveIds(m.table);
    }
  }

  lemma AddFacts(m: Model, parent: int)
    requires Sound(m)
    ensures parent in m.table ==> parent > 0
    ensures m.nextId !in m.order
  {
    IdsArePositive(m);
  }

  lemma MoveFacts(m: Model, id: int, parent: int)
    requires Sound(m)
    ensures forall x <- m.table :: x > 0
    ensures id in m.table && !IsRoot(id) ==> m.table[id].parent > 0 && m.table[id].parent in m.table
  {
    IdsArePositive(m);
    if id in m.table {
      assert id in m.order;
      NodeFacts(m.table, id);
    }
  }

  lemma DetachedThenSpared(t: Table, id: int, doomed: seq<int>, nodes: seq<Node>)
    requires IsForest(t) && id in t && t[id].parent in t
    requires doomed == Subtree(t, id) && NoRepeats(Ids(nodes)) && TableOf(nodes) == Detached(t, id)
    ensures TableOf(Spared(nodes, doomed)) == Pruned(t, id)
    ensures Ids(Spared(nodes, doomed)) == Kept(Ids(nodes), Pruned(t, id))
  {
    var t' := Pruned(t, id);
    TableHolds(nodes);
    forall x
      ensures x in t' <==> x in Ids(nodes) && x !in doomed
    {
      if x in Ids(nodes) {
        var i :| 0 <= i < |nodes| && Ids(nodes)[i] == x;
        assert nodes[i].id in TableOf(nodes);
      }
    }
    forall node <- nodes
      ensures node.id in t' ==> t'[node.id] == node
    {
      var i :| 0 <= i < |nodes| && nodes[i] == node;
      assert TableOf(nodes)[nodes[i].id] == nodes[i];
    }
    SparedAre(nodes, doomed, t');
  }
}
