/** Exactly what each edit of the bookmarks changes: which node, where it stands, and that
    nothing else is touched. */
module BookmarkPlaces {
  import opened Sequences
  import opened BookmarkTree
  import opened BookmarkEdits
  import opened BookmarkRuns
  import Address

  function Except(id: int): int -> bool {
    (x: int) => x != id
  }

  /** The other ids of a list, in their order. */
  function Besides(s: seq<int>, id: int): seq<int> {
    Filter(s, Except(id))
  }

  lemma {:induction false} WithoutIsBesides(s: seq<int>, id: int)
    ensures Without(s, id) == Besides(s, id)
  {
    if s != [] {
      WithoutIsBesides(s[1..], id);
      assert [] + Besides(s[1..], id) == Besides(s[1..], id);
    }
  }

  // --- Roots ------------------------------------------------------------------------------------

  /** The two roots of a store that is used for the first time. */
  function FreshRoots(now: real): Table {
    map[1 := Node(1, 0, true, "Bookmarks Bar", [], now, []), 2 := Node(2, 0, true, "Other Bookmarks", [], now, [])]
  }

  lemma RootsAreMadeOnce(m: Model, now: real)
    requires Sound(m)
    ensures EnsureRoots(m, now) == if m.order == [] then Model([1, 2], FreshRoots(now), m.nextId) else m
  {
    EnsureKeepsSound(m, now);
    if m.order == [] {
      assert forall id :: id !in m.table;
      assert m.table == map[];
    }
  }

  // --- Adding -----------------------------------------------------------------------------------

  /** A list with an element put in where it is wanted, or at the end when there is no
      such place. */
  function PutIn(children: seq<int>, id: int, index: int): seq<int> {
    if 0 <= index <= |children| then children[..index] + [id] + children[index..] else children + [id]
  }

  predicate CanHold(t: Table, parent: int, folder: bool, url: string) {
    parent in t && t[parent].folder && (folder || url != [])
  }

  /** The node is there as it was asked for, in its folder where it was wanted, and every
      other node is what it was. */
  ghost predicate IsAdded(r: Model, m: Model, node: Node, index: int)
    requires node.parent in r.table
  {
    && node.id == r.nextId && m.nextId == r.nextId + 1 && m.order == r.order + [node.id]
    && m.table.Keys == r.table.Keys + {node.id} && m.table[node.id] == node
    && (forall x <- r.table ::
          m.table[x] == if x != node.parent then r.table[x]
                        else r.table[x].(children := PutIn(r.table[x].children, node.id, index)))
  }

  /** An add is refused exactly when there is no such folder, or a bookmark has no address;
      then it answers 0 and nothing is added. */
  lemma AddLands(m: Model, parent: int, index: int, url: string, title: string, folder: bool, now: real)
    requires Sound(m)
    ensures var (r, (m', id)) := (EnsureRoots(m, now), Add(m, parent, index, url, title, folder, now));
            if !CanHold(r.table, parent, folder, url) then id == 0 && m' == r
            else
              id == r.nextId &&
              IsAdded(r, m', Node(id, parent, folder, title, if folder then [] else url, now, []), index)
  {
    EnsureKeepsSound(m, now);
    var r := EnsureRoots(m, now);
    if CanHold(r.table, parent, folder, url) {
      AddToLands(r, parent, index, url, title, folder, now);
    }
  }

  lemma AddToLands(r: Model, parent: int, index: int, url: string, title: string, folder: bool, now: real)
    requires Sound(r) && CanHold(r.table, parent, folder, url)
    ensures AddTo(r, parent, index, url, title, folder, now).1 == r.nextId
    ensures IsAdded(r, AddTo(r, parent, index, url, title, folder, now).0,
                    Node(r.nextId, parent, folder, title, if folder then [] else url, now, []), index)
  {
    var children := r.table[parent].children;
    assert children[..|children|] == children && children[|children|..] == [];
    assert children + [r.nextId] + [] == children + [r.nextId];
    assert r.nextId !in r.table;
  }

  // --- Moving -----------------------------------------------------------------------------------

  predicate CanMove(m: Model, id: int, parent: int) {
    id in m.table && id != 1 && id != 2 && parent in m.table && m.table[parent].folder
  }

  /** Where the children of a folder stand once a node has come or gone. */
  function Rearranged(children: seq<int>, id: int, index: int, comes: bool): seq<int> {
    if !comes then Besides(children, id)
    else if 0 <= index <= |children| then Besides(children[..index], id) + [id] + Besides(children[index..], id)
    else Besides(children, id) + [id]
  }

  /** A move changes the parent of its node and the lists of the two folders: the node is
      gone from where it stood, and stands in front of the row that was pointed at. */
  lemma MoveMovesOnlyIt(m: Model, id: int, parent: int, index: int, x: int)
    requires Sound(m) && CanMove(m, id, parent) && !Inside(m.table, parent, id) && x in m.table
    ensures var m' := Move(m, id, parent, index);
            && m'.order == m.order && m'.nextId == m.nextId && m'.table.Keys == m.table.Keys
            && m'.table[x] == m.table[x].(parent := if x == id then parent else m.table[x].parent,
                                          children := Rearranged(m.table[x].children, id, index, x == parent))
  {
    var t := m.table;
    assert parent != id;
    MoveKeepsForest(t, id, parent, index);
    MovedNode(t, id, parent, index, x);
    NodeFacts(t, id);
    NodeFacts(t, x);
    MovedChildren(t, id, parent, index, x);
    WithoutIsBesides(t[x].children, id);
    if x == parent {
      MovedLandsInFront(m, id, parent, index);
      if 0 <= index <= |t[x].children| {
        WithoutIsBesides(t[x].children[..index], id);
        WithoutIsBesides(t[x].children[index..], id);
      }
    } else if x != t[id].parent {
      WithoutMembers(t[x].children, id);
      assert id !in t[x].children;
    }
  }

  // --- Removing ---------------------------------------------------------------------------------

  function In(t: Table): int -> bool {
    (x: int) => x in t
  }

  lemma {:induction false} KeptIsFilter(order: seq<int>, t: Table)
    ensures Kept(order, t) == Filter(order, In(t))
  {
    if order != [] {
      KeptIsFilter(order[1..], t);
    }
  }

  /** Removing leaves every other node as it was, but for the gap in the parent's list, and
      in the order they were stored. */
  lemma RemoveLeavesTheRest(m: Model, id: int)
    requires Sound(m) && id in m.table && id != 1 && id != 2
    ensures var m' := Remove(m, id);
            && m'.nextId == m.nextId && m'.order == Filter(m.order, In(m'.table)) && m'.table.Keys <= m.table.Keys
            && (forall x <- m.table :: x in m'.table <==> !Inside(m.table, x, id))
            && (forall x <- m'.table ::
                  m'.table[x] == m.table[x].(children := Besides(m.table[x].children, id)))
  {
    var m' := Remove(m, id);
    PruneKeepsForest(m.table, id);
    KeptIsFilter(m.order, m'.table);
    forall x <- m.table
      ensures x in m'.table <==> !Inside(m.table, x, id)
      ensures x in m'.table ==> m'.table[x] == m.table[x].(children := Besides(m.table[x].children, id))
    {
      RemoveIsExact(m, id, x);
      WithoutIsBesides(m.table[x].children, id);
    }
  }

  /** What is refused changes nothing: moving or removing a root or a node that is not there,
      and moving under what is no folder or into the node itself. */
  lemma RefusedChangesNothing(m: Model, id: int, parent: int, index: int)
    requires Sound(m)
    ensures !CanMove(m, id, parent) || Inside(m.table, parent, id) ==> Move(m, id, parent, index) == m
    ensures id !in m.table || id == 1 || id == 2 ==> Remove(m, id) == m
  {
  }

  // --- Naming -----------------------------------------------------------------------------------

  /** Renaming changes one title; setting an address changes that of one bookmark, unless it
      is to be empty; nothing else of any node changes. */
  lemma RelabelChangesOnlyIt(m: Model, id: int, text: string, x: int)
    requires Sound(m) && x in m.table
    ensures var (named, set_) := (Rename(m, id, text), SetUrl(m, id, text));
            && named.(table := m.table) == m && set_.(table := m.table) == m
            && named.table.Keys == m.table.Keys && set_.table.Keys == m.table.Keys
            && named.table[x] == m.table[x].(title := if x == id then text else m.table[x].title)
            && set_.table[x] == m.table[x].(url := if x == id && !m.table[x].folder && text != [] then text
                                                   else m.table[x].url)
  {
  }

  // --- The star ---------------------------------------------------------------------------------

  predicate IsBookmarkOf(t: Table, id: int, url: string) {
    id in t && !t[id].folder && t[id].url == url
  }

  /** The bookmark of an address that was stored first, or 0 when there is none. */
  lemma {:induction false} NodeForUrlIsFirst(order: seq<int>, t: Table, url: string)
    requires 0 !in order
    ensures var id := NodeForUrl(order, t, url);
            if id == 0 then forall x <- order :: !IsBookmarkOf(t, x, url)
            else exists i :: 0 <= i < |order| && order[i] == id && IsBookmarkOf(t, id, url)
                             && forall j :: 0 <= j < i ==> !IsBookmarkOf(t, order[j], url)
  {
    if order != [] {
      assert order == [order[0]] + order[1..];
      if !IsBookmarkOf(t, order[0], url) {
        NodeForUrlIsFirst(order[1..], t, url);
        var id := NodeForUrl(order[1..], t, url);
        if id != 0 {
          var i :| 0 <= i < |order[1..]| && order[1..][i] == id
                   && forall j :: 0 <= j < i ==> !IsBookmarkOf(t, order[1..][j], url);
          assert order[i + 1] == id;
          assert forall j :: 0 < j < i + 1 ==> order[j] == order[1..][j - 1];
        }
      }
    }
  }

  function NotOf(t: Table, url: string): int -> bool {
    (x: int) => !IsBookmarkOf(t, x, url)
  }

  lemma {:induction false} FilteredTwice(s: seq<int>, t: Table, url: string, id: int)
    requires IsBookmarkOf(t, id, url)
    ensures Filter(Besides(s, id), NotOf(t, url)) == Filter(s, NotOf(t, url))
  {
    if s != [] {
      FilteredTwice(s[1..], t, url, id);
      var rest := Besides(s[1..], id);
      if s[0] == id {
        assert [] + rest == rest;
        assert [] + Filter(s[1..], NotOf(t, url)) == Filter(s[1..], NotOf(t, url));
      } else {
        assert ([s[0]] + rest)[1..] == rest;
      }
    }
  }

  lemma {:induction false} SameFilter(s: seq<int>, t: Table, t': Table, url: string)
    requires forall x <- s :: IsBookmarkOf(t, x, url) <==> IsBookmarkOf(t', x, url)
    ensures Filter(s, NotOf(t, url)) == Filter(s, NotOf(t', url))
  {
    if s != [] {
      assert s[0] in s;
      SameFilter(s[1..], t, t', url);
    }
  }

  lemma {:induction false} NoneFiled(s: seq<int>, t: Table, url: string)
    requires forall x <- s :: !IsBookmarkOf(t, x, url)
    ensures Filter(s, NotOf(t, url)) == s
  {
    if s != [] {
      assert s[0] in s;
      NoneFiled(s[1..], t, url);
      assert s == [s[0]] + s[1..];
    }
  }

  /** Unfiling leaves every other node as it was, but for the gaps in the lists. */
  lemma {:induction false} UnfileLeavesTheRest(m: Model, url: string, x: int)
    requires Sound(m) && x in m.table && !IsBookmarkOf(m.table, x, url)
    ensures x in Unfile(m, url).table
    ensures Unfile(m, url).table[x] == m.table[x].(children := Filter(m.table[x].children, NotOf(m.table, url)))
    decreases m.table.Keys
  {
    UnfileIsExact(m, url);
    FiledIsFound(m, url);
    var id := NodeForUrl(m.order, m.table, url);
    if id == 0 {
      assert forall c :: !IsBookmarkOf(m.table, c, url) by {
        assert forall c :: !Files(m.table, c, url);
      }
      NoneFiled(m.table[x].children, m.table, url);
    } else {
      var r := OneUnfiled(m, url, id, x);
      UnfileLeavesTheRest(r, url, x);
    }
  }

  lemma OneUnfiled(m: Model, url: string, id: int, x: int) returns (r: Model)
    requires Sound(m) && x in m.table && !IsBookmarkOf(m.table, x, url)
    requires id == NodeForUrl(m.order, m.table, url) != 0
    ensures Sound(r) && r.table.Keys < m.table.Keys && Unfile(m, url) == Unfile(r, url)
    ensures x in r.table && r.table[x] == m.table[x].(children := r.table[x].children)
    ensures Filter(r.table[x].children, NotOf(r.table, url)) == Filter(m.table[x].children, NotOf(m.table, url))
  {
    UnfileShrinks(m, url);
    RemoveKeepsSound(m, id);
    RemoveLeaf(m, id);
    r := Remove(m, id);
    forall y | y in m.table
      ensures y in r.table ==> r.table[y] == m.table[y].(children := Without(m.table[y].children, id))
    {
      RemoveIsExact(m, id, y);
    }
    UnfileOneMore(m, r, url, id, x);
  }

  lemma UnfileOneMore(m: Model, r: Model, url: string, id: int, x: int)
    requires Sound(m) && IsBookmarkOf(m.table, id, url) && r.table.Keys == m.table.Keys - {id}
    requires x in r.table && r.table[x] == m.table[x].(children := Without(m.table[x].children, id))
    requires forall y <- r.table :: r.table[y].folder == m.table[y].folder && r.table[y].url == m.table[y].url
    ensures Filter(r.table[x].children, NotOf(r.table, url)) == Filter(m.table[x].children, NotOf(m.table, url))
  {
    WithoutIsBesides(m.table[x].children, id);
    FilteredTwice(m.table[x].children, m.table, url, id);
    WithoutMembers(m.table[x].children, id);
    SameFilter(r.table[x].children, m.table, r.table, url);
  }

  /** A page that is filed by the star comes last on the bar, under its title, or under the
      name of its site or its address when it has none. */
  lemma StarFilesLast(m: Model, url: string, title: string, now: real)
    requires Sound(m) && url != [] && forall id :: !IsBookmarkOf(m.table, id, url)
    ensures var (r, m') := (EnsureRoots(m, now), Toggle(m, url, title, now).0);
            var name := if title != [] then title
                         else if Address.HostOfUrl(url) != [] then Address.HostOfUrl(url) else url;
            1 in r.table && IsAdded(r, m', Node(r.nextId, 1, false, name, url, now, []), -1)
  {
    EnsureKeepsSound(m, now);
    var r := EnsureRoots(m, now);
    RootsAreMadeOnce(m, now);
    EnsureKeepsSound(r, now);
    NodeFacts(r.table, ROOT_BAR);
    FiledIsFound(r, url);
    assert !IsFiled(r, url) by {
      forall id
        ensures !Files(r.table, id, url)
      {
        assert !IsBookmarkOf(m.table, id, url);
      }
    }
    AddToLands(r, ROOT_BAR, -1, url, LabelFor(url, title), false, now);
  }
}
