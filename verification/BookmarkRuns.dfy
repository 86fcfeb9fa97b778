/** Whole runs of bookmark edits, and what single edits mean to the person
    making them. */
module BookmarkRuns {
  import opened BookmarkTree
  import opened BookmarkEdits
  import Address

  // --- The star ---------------------------------------------------------------------

  /** Unfiles every bookmark of an address, first stored first. */
  ghost function Unfile(m: Model, url: string): (m': Model)
    requires Sound(m)
    ensures Sound(m')
    decreases m.table.Keys
  {
    var id := NodeForUrl(m.order, m.table, url);
    if id == 0 then m
    else
      UnfileShrinks(m, url);
      RemoveKeepsSound(m, id);
      Unfile(Remove(m, id), url)
  }

  lemma ZeroIsNoId(m: Model)
    requires Sound(m)
    ensures 0 !in m.order
  {
    if 0 in m.table {
      NodeFacts(m.table, 0);
    }
  }

  lemma UnfileShrinks(m: Model, url: string)
    requires Sound(m) && NodeForUrl(m.order, m.table, url) != 0
    ensures var id := NodeForUrl(m.order, m.table, url);
            && id in m.table && !IsRoot(id) && !m.table[id].folder && m.table[id].url == url
            && id !in Remove(m, id).table && Remove(m, id).table.Keys < m.table.Keys
  {
    var id := NodeForUrl(m.order, m.table, url);
    ZeroIsNoId(m);
    NodeForUrlFinds(m.order, m.table, url);
    NodeFacts(m.table, id);
    SubtreeIsInside(m.table, id);
    RemoveKeepsSound(m, id);
  }

  function LabelFor(url: string, title: string): string {
    if title != [] then title
    else if Address.HostOfUrl(url) != [] then Address.HostOfUrl(url)
    else url
  }

  /** The model after the star was pressed over a page, and whether it is lit. */
  ghost function Toggle(m: Model, url: string, title: string, now: real): (Model, bool)
    requires Sound(m)
  {
    if url == [] then (m, false)
    else
      EnsureKeepsSound(m, now);
      var r := EnsureRoots(m, now);
      if NodeForUrl(r.order, r.table, url) != 0 then (Unfile(r, url), false)
      else
        var (m', id) := Add(r, ROOT_BAR, -1, url, LabelFor(url, title), false, now);
        (m', id != 0)
  }

  ghost predicate IsFiled(m: Model, url: string) {
    exists id :: Files(m.table, id, url)
  }

  lemma FiledIsFound(m: Model, url: string)
    requires Sound(m)
    ensures IsFiled(m, url) <==> NodeForUrl(m.order, m.table, url) != 0
  {
    ZeroIsNoId(m);
    NodeForUrlFinds(m.order, m.table, url);
  }

  /** A bookmark has nothing under it, so unfiling one takes only itself. */
  lemma RemoveLeaf(m: Model, id: int)
    requires Sound(m) && id in m.table && !IsRoot(id) && !m.table[id].folder
    ensures Remove(m, id).table.Keys == m.table.Keys - {id}
  {
    NodeFacts(m.table, id);
    ChildrenAreDeeper(m.table, id);
    assert Subtree(m.table, id) == [id];
  }

  /** Unfiling takes exactly the bookmarks of the address. */
  lemma {:induction false} UnfileIsExact(m: Model, url: string)
    requires Sound(m)
    ensures Unfile(m, url).table.Keys == set id | id in m.table && !Files(m.table, id, url)
    ensures !IsFiled(Unfile(m, url), url)
    ensures Unfile(m, url).nextId == m.nextId
    decreases m.table.Keys
  {
    FiledIsFound(m, url);
    var id := NodeForUrl(m.order, m.table, url);
    if id != 0 {
      UnfileShrinks(m, url);
      RemoveKeepsSound(m, id);
      RemoveLeaf(m, id);
      var r := Remove(m, id);
      UnfileIsExact(r, url);
      forall x | x in r.table
        ensures Files(r.table, x, url) <==> Files(m.table, x, url)
      {
      }
    }
  }

  /** Pressing the star turns it over: a page with an address is filed after it
      exactly when it was not before, and the answer says which. */
  lemma ToggleTurnsOver(m: Model, url: string, title: string, now: real)
    requires Sound(m) && url != []
    ensures var (m', lit) := Toggle(m, url, title, now);
            && Sound(m')
            && lit == IsFiled(m', url) == !IsFiled(m, url)
  {
    EnsureKeepsSound(m, now);
    var r := EnsureRoots(m, now);
    FiledIsFound(r, url);
    if m.order == [] {
      assert forall id :: !Files(m.table, id, url) && !Files(r.table, id, url);
    }
    if IsFiled(r, url) {
      UnfileIsExact(r, url);
    } else {
      AddKeepsSound(r, ROOT_BAR, -1, url, LabelFor(url, title), false, now);
      EnsureKeepsSound(r, now);
      var (m', id) := Add(r, ROOT_BAR, -1, url, LabelFor(url, title), false, now);
      NodeFacts(r.table, ROOT_BAR);
      assert Files(m'.table, id, url);
    }
  }

  // --- Runs -------------------------------------------------------------------------

  datatype Edit =
    | AddBookmark(parent: int, index: int, url: string, title: string, now: real)
    | AddFolder(parent: int, index: int, title: string, now: real)
    | RemoveNode(id: int)
    | MoveNode(id: int, parent: int, index: int)
    | RenameNode(id: int, title: string)
    | SetNodeUrl(id: int, url: string)
    | ToggleUrl(url: string, title: string, now: real)

  /** Every edit keeps the store sound, and a root once made stays. */
  ghost function Applied(m: Model, edit: Edit): (m': Model)
    requires Sound(m)
    ensures Sound(m')
    ensures m.order != [] ==> m'.order != []
    ensures m.nextId <= m'.nextId <= m.nextId + 1
  {
    match edit
    case AddBookmark(parent, index, url, title, now) =>
      AddKeepsSound(m, parent, index, url, title, false, now);
      EnsureKeepsSound(m, now);
      Add(m, parent, index, url, title, false, now).0
    case AddFolder(parent, index, title, now) =>
      AddKeepsSound(m, parent, index, [], title, true, now);
      EnsureKeepsSound(m, now);
      Add(m, parent, index, [], title, true, now).0
    case RemoveNode(id) =>
      RemoveKeepsSound(m, id);
      RemoveKeepsRoots(m, id);
      Remove(m, id)
    case MoveNode(id, parent, index) =>
      MoveKeepsSound(m, id, parent, index);
      Move(m, id, parent, index)
    case RenameNode(id, title) =>
      RelabelKeepsSound(m, id, title);
      Rename(m, id, title)
    case SetNodeUrl(id, url) =>
      RelabelKeepsSound(m, id, url);
      SetUrl(m, id, url)
    case ToggleUrl(url, title, now) =>
      if url == [] then m
      else
        ToggleTurnsOver(m, url, title, now);
        ToggleKeepsRoots(m, url, title, now);
        Toggle(m, url, title, now).0
  }

  lemma RemoveKeepsRoots(m: Model, id: int)
    requires Sound(m)
    ensures m.order != [] ==> Remove(m, id).order != []
  {
    if !IsRoot(id) && id in m.table {
      PruneKeepsForest(m.table, id);
      KeptMembers(m.order, Pruned(m.table, id));
      assert ROOT_BAR in Remove(m, id).order;
    }
  }

  lemma ToggleKeepsRoots(m: Model, url: string, title: string, now: real)
    requires Sound(m) && url != []
    ensures Toggle(m, url, title, now).0.order != []
    ensures m.nextId <= Toggle(m, url, title, now).0.nextId <= m.nextId + 1
  {
    EnsureKeepsSound(m, now);
    var r := EnsureRoots(m, now);
    EnsureKeepsSound(r, now);
    NodeFacts(r.table, ROOT_BAR);
    UnfileIsExact(r, url);
    assert ROOT_BAR in r.table && !Files(r.table, ROOT_BAR, url);
    assert ROOT_BAR in Unfile(r, url).order;
  }

  ghost function Run(edits: seq<Edit>): (m: Model)
    ensures Sound(m)
  {
    if edits == [] then EMPTY else Applied(Run(edits[..|edits| - 1]), edits[|edits| - 1])
  }

  ghost predicate EndsAtRoot(t: Table, id: int) {
    exists k: nat :: IsRoot(Up(t, id, k))
  }

  ghost predicate ListedIn(t: Table, id: int, folder: int)
    requires id in t && folder in t
  {
    multiset(t[folder].children)[id] == if t[id].parent == folder then 1 else 0
  }

  /** What a person may rely on: ids unique and below the next one, both roots or
      nothing, every other node once in its own parent's list and in no other,
      every chain of parents finite and ending at a root. */
  ghost predicate IsTidy(m: Model) {
    && NoRepeats(m.order) && (forall id :: id in m.order <==> id in m.table)
    && (forall id <- m.table :: 0 < id < m.nextId)
    && (m.order != [] ==> HasRoots(m.table))
    && (forall id, folder | id in m.table && folder in m.table :: ListedIn(m.table, id, folder))
    && (forall id <- m.table :: EndsAtRoot(m.table, id))
  }

  /** Every run of edits from an empty store leaves a tidy one. */
  lemma EveryRunKeepsTheTree(edits: seq<Edit>)
    ensures IsTidy(Run(edits))
  {
    SoundIsTidy(Run(edits));
  }

  lemma SoundIsTidy(m: Model)
    requires Sound(m)
    ensures IsTidy(m)
  {
    forall id | id in m.table
      ensures 0 < id && EndsAtRoot(m.table, id)
    {
      assert id in m.order;
      NodeFacts(m.table, id);
      ChainEndsAtRoot(m.table, id);
    }
    forall id, folder | id in m.table && folder in m.table
      ensures ListedIn(m.table, id, folder)
    {
      assert id in m.order;
      ListedOnce(m.table, id, folder);
    }
  }

  // --- What the edits mean ----------------------------------------------------------

  /** Removing takes a node and its descendants and nothing else; the only trace
      elsewhere is the gap in the parent's list. */
  lemma RemoveIsExact(m: Model, id: int, x: int)
    requires Sound(m) && id in m.table && !IsRoot(id) && x in m.table
    ensures x in Remove(m, id).table <==> !Inside(m.table, x, id)
    ensures x in Remove(m, id).table ==>
              Remove(m, id).table[x] == m.table[x].(children := Without(m.table[x].children, id))
  {
    PruneKeepsForest(m.table, id);
    SubtreeIsInside(m.table, id);
    NodeFacts(m.table, id);
    NodeFacts(m.table, x);
    WithoutMembers(m.table[x].children, id);
  }

  /** A move is refused exactly when the target is no folder or is inside the node. */
  lemma MoveRefusesExactly(m: Model, id: int, parent: int, index: int)
    requires Sound(m) && id in m.table && !IsRoot(id)
    ensures var m' := Move(m, id, parent, index);
            && (m'.table[id].parent == parent <==>
                  parent in m.table && m.table[parent].folder && !Inside(m.table, parent, id))
            && (m'.table[id].parent != parent ==> m' == m)
  {
    NodeFacts(m.table, id);
    if parent in m.table && Inside(m.table, parent, id) {
      InsideRank(m.table, parent, id);
    } else if parent in m.table && m.table[parent].folder {
      MovedNode(m.table, id, parent, index, id);
    }
    if m.table[id].parent == parent {
      NodeFacts(m.table, parent);
    }
  }

  /** A moved node lands in front of the row the person pointed at, counted in the
      list they were looking at, or last when there is no such row. */
  lemma MovedLandsInFront(m: Model, id: int, parent: int, index: int)
    requires Sound(m) && id in m.table && !IsRoot(id) && parent in m.table && m.table[parent].folder
    requires !Inside(m.table, parent, id)
    ensures var seen := m.table[parent].children;
            parent in Move(m, id, parent, index).table &&
            Move(m, id, parent, index).table[parent].children ==
              if 0 <= index <= |seen| then Without(seen[..index], id) + [id] + Without(seen[index..], id)
              else Without(seen, id) + [id]
  {
    var t := m.table;
    var seen := t[parent].children;
    NodeFacts(t, id);
    NodeFacts(t, parent);
    MovedChildren(t, id, parent, index, parent);
    WithoutMembers(seen, id);
    IndexOfFinds(seen, id);
    var kept := Without(seen, id);
    assert id in seen <==> t[id].parent == parent;
    if 0 <= index <= |seen| {
      LandsInFront(seen, id, index);
    } else {
      WithoutLength(seen, id);
    }
  }

  lemma {:induction false} WithoutLength(s: seq<int>, id: int)
    requires NoRepeats(s)
    ensures |Without(s, id)| == if id in s then |s| - 1 else |s|
  {
    WithoutMembers(s, id);
    if s != [] {
      WithoutLength(s[1..], id);
      WithoutMembers(s[1..], id);
      assert s == [s[0]] + s[1..];
      assert s[0] !in s[1..];
    }
  }

  lemma LandsInFront(seen: seq<int>, id: int, index: int)
    requires NoRepeats(seen) && 0 <= index <= |seen|
    ensures var from := IndexOf(seen, id);
            var at := if from >= 0 && index > from then index - 1 else index;
            InsertAt(Without(seen, id), id, at) == Without(seen[..index], id) + [id] + Without(seen[index..], id)
  {
    var front, back := seen[..index], seen[index..];
    assert seen == front + back;
    WithoutConcat(front, back, id);
    IndexOfFinds(seen, id);
    WithoutLength(front, id);
    WithoutLength(seen, id);
    var from := IndexOf(seen, id);
    if id in seen {
      assert id in front <==> from < index by {
        if from < index { assert front[from] == id; }
        if id in front { var i :| 0 <= i < index && front[i] == id; assert seen[i] == seen[from]; }
      }
    }
    var at := if from >= 0 && index > from then index - 1 else index;
    assert |Without(front, id)| == at;
    assert 0 <= at <= |Without(seen, id)|;
  }

  lemma WithoutInserted(children: seq<int>, id: int, index: int)
    requires id !in children
    ensures Without(InsertAt(children, id, index), id) == children
  {
    var at := if index < 0 || index > |children| then |children| else index;
    var front, back := children[..at], children[at..];
    assert children == front + back;
    WithoutConcat(front + [id], back, id);
    WithoutConcat(front, [id], id);
    WithoutMembers(front, id);
    WithoutMembers(back, id);
  }

  lemma PruneUndoesInsert(t: Table, node: Node, index: int)
    requires IsForest(t) && node.parent in t && node.id !in t && node.children == []
    requires IsForest(Inserted(t, node, index))
    ensures Pruned(Inserted(t, node, index), node.id) == t
  {
    var t' := Inserted(t, node, index);
    NodeFacts(t, node.parent);
    WithoutInserted(t[node.parent].children, node.id, index);
    ChildrenAreDeeper(t', node.id);
    assert Subtree(t', node.id) == [node.id];
    var home := t[node.parent];
    assert home.(children := InsertAt(home.children, node.id, index)).(children := home.children) == home;
    assert Detached(t', node.id) == t[node.id := node];
  }

  /** Removing what was just added leaves the tree it was added to. */
  lemma RemoveUndoesAdd(m: Model, parent: int, index: int, url: string, title: string, folder: bool, now: real)
    requires Sound(m)
    ensures var (m', id) := Add(m, parent, index, url, title, folder, now);
            Sound(m') && Remove(m', id).table == EnsureRoots(m, now).table
  {
    AddKeepsSound(m, parent, index, url, title, folder, now);
    EnsureKeepsSound(m, now);
    var r := EnsureRoots(m, now);
    var (m', id) := Add(m, parent, index, url, title, folder, now);
    if id == 0 {
      ZeroIsNoId(m');
    } else {
      PruneUndoesInsert(r.table, m'.table[id], index);
    }
  }
}
