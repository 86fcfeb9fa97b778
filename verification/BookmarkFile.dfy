/** The bookmark file: a depth-first dump, one record per line, and the reader
    that rebuilds the tree from it line by line. */
module BookmarkFile {
  import opened Sequences
  import opened Text
  import opened BookmarkTree
  import opened BookmarkEdits
  import opened BookmarkLeaves
  import opened BookmarkStore

  const HEADER := "harmony-bookmarks 1"

  /** The whole seconds of a time, toward zero. */
  function WholeSeconds(time: real): int {
    if time >= 0.0 then time.Floor else -((-time).Floor)
  }

  /** A conversion to a 32-bit signed integer. */
  function AsInt(x: int): int {
    if -0x8000_0000 <= x < 0x8000_0000 then x else (x + 0x8000_0000) % 0x1_0000_0000 - 0x8000_0000
  }

  // --- Writing ----------------------------------------------------------------------

  function Fields(node: Node): seq<string> {
    [ToString(node.id), ToString(node.parent), if node.folder then "1" else "0",
     ToString(WholeSeconds(node.added)), Escaped(node.title), Escaped(node.url)]
  }

  function Line(node: Node): string {
    Joined(Fields(node), '\t')
  }

  /** The records of the nodes named, in the order they are named. */
  function Dump(t: Table, ids: seq<int>): string {
    if ids == [] then []
    else (if ids[0] in t then Line(t[ids[0]]) + "\n" else []) + Dump(t, ids[1..])
  }

  ghost function Encoded(t: Table): string
    requires IsForest(t)
  {
    HEADER + "\n" + Dump(t, Whole(t))
  }

  lemma {:induction false} DumpConcat(t: Table, front: seq<int>, back: seq<int>)
    ensures Dump(t, front + back) == Dump(t, front) + Dump(t, back)
  {
    if front == [] {
      assert front + back == back;
    } else {
      DumpConcat(t, front[1..], back);
      assert (front + back)[1..] == front[1..] + back;
    }
  }

  /** The joined fields with the separators written out one by one. */
  lemma LineSpelled(a: string, b: string, c: string, d: string, e: string, f: string)
    ensures Joined([a, b, c, d, e, f], '\t') ==
            a + "\t" + b + "\t" + c + "\t" + d + "\t" + e + "\t" + f
  {
    assert [a, b, c, d, e, f][1..] == [b, c, d, e, f];
    assert [b, c, d, e, f][1..] == [c, d, e, f];
    assert [c, d, e, f][1..] == [d, e, f];
    assert [d, e, f][1..] == [e, f];
    assert [e, f][1..] == [f];
    var tail := e + "\t" + f;
    assert Joined([e, f], '\t') == tail;
    assert Joined([d, e, f], '\t') == d + "\t" + tail;
    assert Joined([c, d, e, f], '\t') == c + "\t" + (d + "\t" + tail);
    assert Joined([b, c, d, e, f], '\t') == b + "\t" + (c + "\t" + (d + "\t" + tail));
  }

  method EncodeLine(node: Node, before: string) returns (contents: string)
    ensures contents == before + (Line(node) + "\n")
  {
    var title := EscapeField(node.title);
    var url := EscapeField(node.url);
    var folder := if node.folder then "1" else "0";
    LineSpelled(ToString(node.id), ToString(node.parent), folder, ToString(WholeSeconds(node.added)), title, url);
    contents := before + (ToString(node.id) + "\t" + ToString(node.parent) + "\t" + folder + "\t"
                          + ToString(WholeSeconds(node.added)) + "\t" + title + "\t" + url + "\n");
  }

  /** One node and everything under it, appended to what is already there. */
  method EncodeNode(store: Store, id: int, before: string) returns (contents: string)
    requires store.Walkable()
    ensures id in TableOf(store.nodes) ==>
              contents == before + Dump(TableOf(store.nodes), Subtree(TableOf(store.nodes), id))
    ensures id !in TableOf(store.nodes) ==> contents == before
    decreases store.Walk(id), 1, 0
  {
    ghost var t := TableOf(store.nodes);
    PositiveIds(t);
    var at := store.Find(id);
    if at < 0 {
      return before;
    }
    ChildrenAreDeeper(t, id);
    DumpNode(t, id);
    Associates(before, Line(t[id]) + "\n", Dump(t, Subtrees(t, Rank(t, id) + 1, t[id].children)));
    contents := EncodeLine(store.nodes[at], before);
    contents := EncodeChildren(store, store.nodes[at].children, Rank(t, id) + 1, contents);
  }

  method EncodeChildren(store: Store, children: seq<int>, ghost depth: nat, before: string) returns (contents: string)
    requires store.Walkable() && IsForest(TableOf(store.nodes)) && Level(TableOf(store.nodes), depth, children)
    ensures contents == before + Dump(TableOf(store.nodes), Subtrees(TableOf(store.nodes), depth, children))
    decreases Room(TableOf(store.nodes), depth) + 1, 2, 0
  {
    ghost var t := TableOf(store.nodes);
    contents := before;
    assert children[0..] == children;
    for k := 0 to |children|
      invariant contents + Dump(t, Subtrees(t, depth, children[k..])) == before + Dump(t, Subtrees(t, depth, children))
    {
      ghost var so, rest := contents, Dump(t, Subtrees(t, depth, children[k + 1..]));
      DumpStep(t, depth, children, k);
      contents := EncodeNode(store, children[k], contents);
      Associates(so, Dump(t, Subtree(t, children[k])), rest);
    }
    assert children[|children|..] == [];
  }

  lemma DumpStep(t: Table, depth: nat, ids: seq<int>, k: nat)
    requires IsForest(t) && Level(t, depth, ids) && k < |ids|
    ensures Dump(t, Subtrees(t, depth, ids[k..]))
         == Dump(t, Subtree(t, ids[k])) + Dump(t, Subtrees(t, depth, ids[k + 1..]))
  {
    SubtreesStep(t, depth, ids, k);
    DumpConcat(t, Subtree(t, ids[k]), Subtrees(t, depth, ids[k + 1..]));
  }

  lemma DumpNode(t: Table, id: int)
    requires IsForest(t) && id in t && Level(t, Rank(t, id) + 1, t[id].children)
    ensures Dump(t, Subtree(t, id)) == Line(t[id]) + "\n" + Dump(t, Subtrees(t, Rank(t, id) + 1, t[id].children))
  {
    var below := Subtrees(t, Rank(t, id) + 1, t[id].children);
    assert Subtree(t, id) == [id] + below;
    DumpConcat(t, [id], below);
    assert Dump(t, [id]) == Line(t[id]) + "\n";
  }

  method EncodeBookmarks(store: Store, now: real) returns (contents: string)
    requires store.Valid()
    modifies store
    ensures store.Valid() && store.View() == BookmarkEdits.EnsureRoots(old(store.View()), now)
    ensures IsForest(store.View().table) && contents == Encoded(store.View().table)
  {
    EnsureKeepsSound(store.View(), now);
    store.EnsureRoots(now);
    contents := WriteForest(store);
  }

  method WriteForest(store: Store) returns (contents: string)
    requires store.Walkable() && IsForest(TableOf(store.nodes))
    ensures contents == Encoded(TableOf(store.nodes))
  {
    ghost var t := TableOf(store.nodes);
    contents := HEADER + "\n";
    contents := EncodeNode(store, ROOT_BAR, contents);
    contents := EncodeNode(store, ROOT_OTHER, contents);
    DumpConcat(t, Subtree(t, ROOT_BAR), Subtree(t, ROOT_OTHER));
  }
}
