/** The edits of the bookmark tree as functions on its value, what each keeps,
    and what whole runs of them keep. */
module BookmarkEdits {
  import opened BookmarkTree

  /** The order nodes are stored in, the nodes, and the id the next one takes. */
  datatype Model = Model(order: seq<int>, table: Table, nextId: int)

  const EMPTY := Model([], map[], ROOT_OTHER + 1)

  ghost predicate Lists(order: seq<int>, t: Table) {
    NoRepeats(order) && forall id :: id in order <==> id in t
  }

  ghost predicate Sound(m: Model) {
    && Lists(m.order, m.table)
    && (m.order != [] ==> IsForest(m.table))
    && (forall id <- m.table :: id < m.nextId)
    && ROOT_OTHER < m.nextId
  }

  // --- Child lists ------------------------------------------------------------------

  function InsertAt(children: seq<int>, id: int, index: int): seq<int> {
    var at := if index < 0 || index > |children| then |children| else index;
    children[..at] + [id] + children[at..]
  }

  function Without(children: seq<int>, id: int): seq<int> {
    if children == [] then []
    else if children[0] == id then Without(children[1..], id)
    else [children[0]] + Without(children[1..], id)
  }

  /** The position of the first `id`, or -1. */
  function IndexOf(children: seq<int>, id: int): int {
    if children == [] then -1
    else if children[0] == id then 0
    else var rest := IndexOf(children[1..], id); if rest < 0 then -1 else rest + 1
  }

  lemma InsertAtMembers(children: seq<int>, id: int, index: int)
    ensures forall x :: x in InsertAt(children, id, index) <==> x == id || x in children
    ensures NoRepeats(children) && id !in children ==> NoRepeats(InsertAt(children, id, index))
  {
    var at := if index < 0 || index > |children| then |children| else index;
    assert children == children[..at] + children[at..];
  }

  lemma {:induction false} WithoutMembers(children: seq<int>, id: int)
    ensures forall x :: x in Without(children, id) <==> x != id && x in children
    ensures NoRepeats(children) ==> NoRepeats(Without(children, id))
    ensures id !in children ==> Without(children, id) == children
  {
    if children != [] {
      WithoutMembers(children[1..], id);
      assert children == [children[0]] + children[1..];
      if NoRepeats(children) && children[0] != id {
        assert children[0] !in children[1..];
        ConcatNoRepeats([children[0]], Without(children[1..], id));
      }
    }
  }

  lemma {:induction false} WithoutConcat(front: seq<int>, back: seq<int>, id: int)
    ensures Without(front + back, id) == Without(front, id) + Without(back, id)
  {
    if front == [] {
      assert front + back == back;
    } else {
      WithoutConcat(front[1..], back, id);
      assert (front + back)[1..] == front[1..] + back;
    }
  }

  lemma {:induction false} IndexOfFinds(children: seq<int>, id: int)
    ensures id !in children ==> IndexOf(children, id) == -1
    ensures id in children ==> 0 <= IndexOf(children, id) < |children| && children[IndexOf(children, id)] == id
  {
    if children != [] {
      IndexOfFinds(children[1..], id);
      assert children == [children[0]] + children[1..];
    }
  }

  // --- Edits of the table -----------------------------------------------------------

  function WithChildren(t: Table, folder: int, children: seq<int>): Table
    requires folder in t
  {
    t[folder := t[folder].(children := children)]
  }

  function Inserted(t: Table, node: Node, index: int): Table
    requires node.parent in t
  {
    WithChildren(t, node.parent, InsertAt(t[node.parent].children, node.id, index))[node.id := node]
  }

  function Detached(t: Table, id: int): Table
    requires id in t && t[id].parent in t
  {
    WithChildren(t, t[id].parent, Without(t[t[id].parent].children, id))
  }

  ghost function Pruned(t: Table, id: int): Table
    requires IsForest(t) && id in t && t[id].parent in t
  {
    var doomed := Subtree(t, id);
    map x | x in Detached(t, id) && x !in doomed :: Detached(t, id)[x]
  }

  /** Where a node goes, given a position in the list the user was looking at. */
  function LandingIndex(t: Table, id: int, parent: int, index: int): int
    requires id in t && parent in t
  {
    var from := if t[id].parent == parent then IndexOf(t[parent].children, id) else -1;
    if from >= 0 && index > from then index - 1 else index
  }

  function Moved(t: Table, id: int, parent: int, index: int): Table
    requires id in t && t[id].parent in t && parent in t
  {
    var at := LandingIndex(t, id, parent, index);
    var d := Detached(t, id);
    var moved := d[id := d[id].(parent := parent)];
    WithChildren(moved, parent, InsertAt(moved[parent].children, id, at))
  }

  // --- What the edits keep ----------------------------------------------------------

  lemma InsertKeepsForest(t: Table, node: Node, index: int)
    requires IsForest(t) && node.parent in t && t[node.parent].folder
    requires node.id !in t && node.id > ROOT_OTHER && node.children == []
    requires node.folder <==> node.url == []
    ensures IsForest(Inserted(t, node, index))
  {
    var t' := Inserted(t, node, index);
    var parent := node.parent;
    NodeFacts(t, parent);
    InsertAtMembers(t[parent].children, node.id, index);
    var rank := RankOf(t)[node.id := Rank(t, parent) + 1];
    forall x | x in t'
      ensures Linked(t', x) && RankedAt(t', rank, x)
    {
      if x != node.id {
        NodeFacts(t, x);
      }
    }
    assert Ranked(t', rank);
  }

  /** An edit that leaves the links alone leaves the forest one. */
  lemma RelabelKeepsForest(t: Table, id: int, node: Node)
    requires IsForest(t) && id in t
    requires node == t[id].(title := node.title, url := node.url)
    requires node.folder <==> node.url == []
    ensures IsForest(t[id := node])
  {
    var t' := t[id := node];
    NodeFacts(t, id);
    forall x | x in t'
      ensures Linked(t', x) && RankedAt(t', RankOf(t), x)
    {
      NodeFacts(t, x);
    }
    assert Ranked(t', RankOf(t));
  }

  lemma PruneKeepsForest(t: Table, id: int)
    requires IsForest(t) && id in t && !IsRoot(id)
    ensures t[id].parent in t && IsForest(Pruned(t, id))
  {
    NodeFacts(t, id);
    var t' := Pruned(t, id);
    var parent := t[id].parent;
    SubtreeIsInside(t, id);
    var rank := map x | x in t' :: RankOf(t)[x];
    NodeFacts(t, parent);
    WithoutMembers(t[parent].children, id);
    forall x | x in t && x !in t'
      ensures Inside(t, x, id)
    {
    }
    forall root | IsRoot(root)
      ensures root in t' && t'[root].folder
    {
      NodeFacts(t, root);
    }
    forall x | x in t'
      ensures Linked(t', x) && RankedAt(t', rank, x)
    {
      NodeFacts(t, x);
      forall child <- t'[x].children
        ensures child in t' && t'[child].parent == x
      {
        NodeFacts(t, child);
      }
    }
    assert Ranked(t', rank);
  }

  /** One child list after a move: `id` gone from its old one, placed in its new. */
  lemma MovedChildren(t: Table, id: int, parent: int, index: int, x: int)
    requires id in t && t[id].parent in t && parent in t && x in t && parent != id && t[id].parent != id
    ensures var t' := Moved(t, id, parent, index);
            var kept := if x == t[id].parent then Without(t[x].children, id) else t[x].children;
            && t'.Keys == t.Keys
            && t'[x] == t[x].(parent := if x == id then parent else t[x].parent, children := t'[x].children)
            && t'[x].children == if x == parent then InsertAt(kept, id, LandingIndex(t, id, parent, index)) else kept
  {
  }

  /** The node under its new parent; every other node keeps everything but,
      perhaps, `id` among its children. */
  lemma MovedNode(t: Table, id: int, parent: int, index: int, x: int)
    requires IsForest(t) && id in t && !IsRoot(id) && parent in t && x in t && parent != id
    ensures t[id].parent in t
    ensures var t' := Moved(t, id, parent, index);
            && t'.Keys == t.Keys
            && t'[x] == t[x].(parent := if x == id then parent else t[x].parent, children := t'[x].children)
            && NoRepeats(t'[x].children)
            && forall child :: child in t'[x].children <==> if child == id then x == parent else child in t[x].children
  {
    NodeFacts(t, id);
    NodeFacts(t, x);
    MovedChildren(t, id, parent, index, x);
    WithoutMembers(t[x].children, id);
    var kept := if x == t[id].parent then Without(t[x].children, id) else t[x].children;
    InsertAtMembers(kept, id, LandingIndex(t, id, parent, index));
  }

  /** The rank of a node once `id` hangs under `parent`. */
  ghost function MovedRank(t: Table, id: int, parent: int, x: int): nat
    requires IsForest(t) && id in t && parent in t && x in t
  {
    if Inside(t, x, id) then
      InsideRank(t, x, id);
      Rank(t, x) - Rank(t, id) + Rank(t, parent) + 1
    else Rank(t, x)
  }

  lemma MoveKeepsLinks(t: Table, id: int, parent: int, index: int, x: int)
    requires IsForest(t) && id in t && !IsRoot(id) && parent in t && t[parent].folder && parent != id && x in t
    ensures t[id].parent in t && x in Moved(t, id, parent, index) && Linked(Moved(t, id, parent, index), x)
  {
    NodeFacts(t, parent);
    NodeFacts(t, id);
    NodeFacts(t, x);
    var t' := Moved(t, id, parent, index);
    MovedNode(t, id, parent, index, x);
    if t'[x].parent != 0 {
      MovedNode(t, id, parent, index, t'[x].parent);
    }
    forall child <- t'[x].children
      ensures child in t' && t'[child].parent == x
    {
      MovedNode(t, id, parent, index, child);
    }
  }

  lemma MoveKeepsRank(t: Table, id: int, parent: int, x: int)
    requires IsForest(t) && id in t && !IsRoot(id) && parent in t && !Inside(t, parent, id) && x in t
    ensures var above := if x == id then parent else t[x].parent;
            if above == 0 then MovedRank(t, id, parent, x) == 0
            else above in t && MovedRank(t, id, parent, x) == MovedRank(t, id, parent, above) + 1
  {
    NodeFacts(t, parent);
    NodeFacts(t, x);
    if x != id && t[x].parent != 0 {
      assert Inside(t, x, id) <==> Inside(t, t[x].parent, id);
    }
  }

  lemma MoveKeepsForest(t: Table, id: int, parent: int, index: int)
    requires IsForest(t) && id in t && !IsRoot(id) && parent in t && t[parent].folder
    requires !Inside(t, parent, id)
    ensures t[id].parent in t && IsForest(Moved(t, id, parent, index))
  {
    NodeFacts(t, id);
    var t' := Moved(t, id, parent, index);
    var rank := map x | x in t :: MovedRank(t, id, parent, x);
    forall x | x in t'
      ensures Linked(t', x) && RankedAt(t', rank, x)
    {
      MoveKeepsLinks(t, id, parent, index, x);
      MoveKeepsRank(t, id, parent, x);
      MovedNode(t, id, parent, index, x);
    }
    MovedNode(t, id, parent, index, ROOT_BAR);
    MovedNode(t, id, parent, index, ROOT_OTHER);
    assert Ranked(t', rank);
  }

  // --- The edits ----------------------------------------------------------------------

  function WithRoot(m: Model, id: int, title: string, now: real): Model {
    if id in m.table then m
    else m.(order := m.order + [id], table := m.table[id := Node(id, 0, true, title, [], now, [])])
  }

  function EnsureRoots(m: Model, now: real): Model {
    var both := WithRoot(WithRoot(m, ROOT_BAR, BAR_TITLE, now), ROOT_OTHER, OTHER_TITLE, now);
    if both.nextId <= ROOT_OTHER then both.(nextId := ROOT_OTHER + 1) else both
  }

  /** The model with a node added, and the node's id, or 0 when it was refused. */
  function Add(m: Model, parent: int, index: int, url: string, title: string, folder: bool, now: real): (Model, int) {
    AddTo(EnsureRoots(m, now), parent, index, url, title, folder, now)
  }

  function AddTo(r: Model, parent: int, index: int, url: string, title: string, folder: bool, now: real): (Model, int) {
    if parent !in r.table || !r.table[parent].folder then (r, 0)
    else if !folder && url == [] then (r, 0)
    else
      var node := Node(r.nextId, parent, folder, title, if folder then [] else url, now, []);
      (Model(r.order + [node.id], Inserted(r.table, node, index), r.nextId + 1), node.id)
  }

  /** The ids of `order` a table still holds. */
  ghost function Kept(order: seq<int>, t: Table): seq<int> {
    if order == [] then []
    else (if order[0] in t then [order[0]] else []) + Kept(order[1..], t)
  }

  ghost function Remove(m: Model, id: int): Model
    requires Sound(m)
  {
    if IsRoot(id) || id !in m.table then m
    else
      PruneKeepsForest(m.table, id);
      var t := Pruned(m.table, id);
      Model(Kept(m.order, t), t, m.nextId)
  }

  ghost function Move(m: Model, id: int, parent: int, index: int): Model
    requires Sound(m)
  {
    if IsRoot(id) || id !in m.table || parent !in m.table || !m.table[parent].folder then m
    else if Inside(m.table, parent, id) then m
    else
      MoveKeepsForest(m.table, id, parent, index);
      m.(table := Moved(m.table, id, parent, index))
  }

  function Rename(m: Model, id: int, title: string): Model {
    if id !in m.table then m else m.(table := m.table[id := m.table[id].(title := title)])
  }

  function SetUrl(m: Model, id: int, url: string): Model {
    if id !in m.table || m.table[id].folder || url == [] then m
    else m.(table := m.table[id := m.table[id].(url := url)])
  }

  predicate Files(t: Table, id: int, url: string) {
    id in t && !t[id].folder && t[id].url == url
  }

  /** The first stored bookmark of an address, or 0. */
  function NodeForUrl(order: seq<int>, t: Table, url: string): int {
    if order == [] then 0
    else if Files(t, order[0], url) then order[0]
    else NodeForUrl(order[1..], t, url)
  }

  lemma {:induction false} NodeForUrlFinds(order: seq<int>, t: Table, url: string)
    requires 0 !in order
    ensures var id := NodeForUrl(order, t, url);
            if id == 0 then forall x <- order :: !Files(t, x, url) else id in order && Files(t, id, url)
  {
    if order != [] {
      NodeForUrlFinds(order[1..], t, url);
      assert order == [order[0]] + order[1..];
    }
  }

  lemma {:induction false} KeptMembers(order: seq<int>, t: Table)
    ensures forall x :: x in Kept(order, t) <==> x in order && x in t
    ensures NoRepeats(order) ==> NoRepeats(Kept(order, t))
  {
    if order != [] {
      KeptMembers(order[1..], t);
      assert order == [order[0]] + order[1..];
      if NoRepeats(order) {
        assert order[0] !in order[1..];
      }
    }
  }

  // --- Every edit keeps the store sound --------------------------------------------------

  lemma BareRootsAreAForest(bar: Node, other: Node)
    requires bar == Node(ROOT_BAR, 0, true, bar.title, [], bar.added, [])
    requires other == Node(ROOT_OTHER, 0, true, other.title, [], other.added, [])
    ensures IsForest(map[ROOT_BAR := bar, ROOT_OTHER := other])
  {
    var t := map[ROOT_BAR := bar, ROOT_OTHER := other];
    var rank: map<int, nat> := map[ROOT_BAR := 0, ROOT_OTHER := 0];
    assert RankedAt(t, rank, ROOT_BAR) && RankedAt(t, rank, ROOT_OTHER);
    assert Ranked(t, rank);
  }

  lemma EnsureKeepsSound(m: Model, now: real)
    requires Sound(m)
    ensures Sound(EnsureRoots(m, now)) && IsForest(EnsureRoots(m, now).table)
    ensures EnsureRoots(m, now).order != []
    ensures m.order != [] ==> EnsureRoots(m, now) == m
    ensures m.order == [] ==> EnsureRoots(m, now).order == [ROOT_BAR, ROOT_OTHER]
    ensures m.order == [] ==> EnsureRoots(m, now).nextId == m.nextId
  {
    if m.order == [] {
      assert forall id :: id !in m.table;
      assert m.table == map[];
      var bar := Node(ROOT_BAR, 0, true, BAR_TITLE, [], now, []);
      var other := Node(ROOT_OTHER, 0, true, OTHER_TITLE, [], now, []);
      assert EnsureRoots(m, now).table == map[ROOT_BAR := bar, ROOT_OTHER := other];
      BareRootsAreAForest(bar, other);
    }
  }

  lemma AddToKeepsSound(r: Model, parent: int, index: int, url: string, title: string, folder: bool, now: real)
    requires Sound(r)
    ensures Sound(AddTo(r, parent, index, url, title, folder, now).0)
  {
    var (m', id) := AddTo(r, parent, index, url, title, folder, now);
    if m' != r {
      assert parent in r.order;
      InsertKeepsForest(r.table, m'.table[id], index);
      ConcatNoRepeats(r.order, [id]);
    }
  }

  lemma AddKeepsSound(m: Model, parent: int, index: int, url: string, title: string, folder: bool, now: real)
    requires Sound(m)
    ensures Sound(Add(m, parent, index, url, title, folder, now).0)
  {
    EnsureKeepsSound(m, now);
    AddToKeepsSound(EnsureRoots(m, now), parent, index, url, title, folder, now);
  }

  lemma RemoveKeepsSound(m: Model, id: int)
    requires Sound(m)
    ensures Sound(Remove(m, id))
  {
    if !IsRoot(id) && id in m.table {
      PruneKeepsForest(m.table, id);
      KeptMembers(m.order, Pruned(m.table, id));
    }
  }

  lemma MoveKeepsSound(m: Model, id: int, parent: int, index: int)
    requires Sound(m)
    ensures Sound(Move(m, id, parent, index))
  {
    if Move(m, id, parent, index) != m {
      MoveKeepsForest(m.table, id, parent, index);
      NodeFacts(m.table, id);
      MovedNode(m.table, id, parent, index, id);
    }
  }

  lemma RelabelKeepsSound(m: Model, id: int, text: string)
    requires Sound(m)
    ensures Sound(Rename(m, id, text)) && Sound(SetUrl(m, id, text))
  {
    if id in m.table {
      NodeFacts(m.table, id);
      RelabelKeepsForest(m.table, id, m.table[id].(title := text));
      if !m.table[id].folder && text != [] {
        RelabelKeepsForest(m.table, id, m.table[id].(url := text));
      }
    }
  }
}
