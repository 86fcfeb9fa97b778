/** Reading the bookmark file: any text at all, one line at a time; and what
    comes back from the text the writer produced. */
module BookmarkReload {
  import opened Text
  import opened BookmarkTree
  import opened BookmarkEdits
  import opened BookmarkStore
  import opened BookmarkFile

  // --- The reader -------------------------------------------------------------------

  /** One line of the file. */
  datatype Record = Record(id: int, parent: int, folder: bool, added: real, title: string, url: string)

  /** The nodes read so far, in storage order, and the highest id among them. */
  datatype Reading = Reading(nodes: seq<Node>, highest: int)

  function RecordOf(fields: seq<string>): Record
    requires |fields| >= 6
  {
    Record(AsInt(ParsedSigned(fields[0])), AsInt(ParsedSigned(fields[1])), ParsedSigned(fields[2]) != 0,
           ParsedSigned(fields[3]) as real, Unescaped(fields[4]), Unescaped(fields[5]))
  }

  function NodeOf(record: Record): Node {
    Node(record.id, record.parent, record.folder, record.title, if record.folder then [] else record.url,
         record.added, [])
  }

  function WithChild(nodes: seq<Node>, parent: int, id: int): seq<Node> {
    FirstAtFinds(nodes, parent);
    var at := FirstAt(nodes, parent);
    if at < 0 then nodes else nodes[at := nodes[at].(children := nodes[at].children + [id])]
  }

  /** A new node and its place in its parent's list, in the vector and in the table. */
  lemma PushedChild(nodes: seq<Node>, node: Node, parent: int)
    requires NoRepeats(Ids(nodes)) && node.id !in Ids(nodes) && parent > 0 && parent in TableOf(nodes)
    ensures Ids(WithChild(nodes + [node], parent, node.id)) == Ids(nodes) + [node.id]
    ensures NoRepeats(Ids(nodes) + [node.id]) && parent != node.id
    ensures var t := TableOf(nodes);
            TableOf(WithChild(nodes + [node], parent, node.id))
              == t[node.id := node][parent := t[parent].(children := t[parent].children + [node.id])]
  {
    TableKeys(nodes, parent);
    var pushed := nodes + [node];
    TableAppend(nodes, node);
    ConcatNoRepeats(Ids(nodes), [node.id]);
    TableKeys(pushed, parent);
    var at := FirstAt(pushed, parent);
    TablePut(pushed, at, pushed[at].(children := pushed[at].children + [node.id]));
  }

  function WithRecord(r: Reading, record: Record): Reading {
    FirstAtFinds(r.nodes, record.id);
    FirstAtFinds(r.nodes, record.parent);
    if record.id <= 0 then r
    else if IsRoot(record.id) then
      var at := FirstAt(r.nodes, record.id);
      if at < 0 || record.title == [] then r
      else r.(nodes := r.nodes[at := r.nodes[at].(title := record.title)])
    else
      var target := FirstAt(r.nodes, record.parent);
      if target < 0 || !r.nodes[target].folder || (!record.folder && record.url == []) then r
      else Reading(WithChild(r.nodes + [NodeOf(record)], record.parent, record.id),
                   if record.id > r.highest then record.id else r.highest)
  }

  function WithLine(r: Reading, line: string): Reading {
    var fields := Cut(line, '\t', []);
    if line == [] || |fields| < 6 then r else WithRecord(r, RecordOf(fields))
  }

  function WithLines(r: Reading, lines: seq<string>): Reading
    decreases |lines|
  {
    if lines == [] then r else WithLines(WithLine(r, lines[0]), lines[1..])
  }

  function BareRoots(now: real): Reading {
    Reading([Node(ROOT_BAR, 0, true, BAR_TITLE, [], now, []), Node(ROOT_OTHER, 0, true, OTHER_TITLE, [], now, [])],
            ROOT_OTHER)
  }

  datatype Decoding = Unreadable | Readable(reading: Reading)

  function Decoded(contents: string, now: real): Decoding {
    var lines := Cut(contents, '\n', []);
    if lines == [] || lines[0] != HEADER then Unreadable else Readable(WithLines(BareRoots(now), lines[1..]))
  }

  /** A file of the header and ended lines is read line by line, and an empty line after. */
  lemma DecodedLines(lines: seq<string>, now: real)
    requires AllUncut(lines)
    ensures Decoded(HEADER + "\n" + Ended(lines), now) == Readable(WithLines(BareRoots(now), lines + [[]]))
  {
    assert Uncut(HEADER, '\n');
    HeadedCuts(HEADER, lines);
    assert ([HEADER] + (lines + [[]]))[1..] == lines + [[]];
  }

  // --- Lines and records ----------------------------------------------------------------

  /** What the file says of a node. */
  function Saved(node: Node): Record {
    Record(AsInt(node.id), AsInt(node.parent), node.folder, WholeSeconds(node.added) as real, node.title, node.url)
  }

  lemma FieldsAreFields(node: Node)
    ensures forall f <- Fields(node) :: IsField(f)
  {
    ParseUndoesToString(node.id);
    ParseUndoesToString(node.parent);
    ParseUndoesToString(WholeSeconds(node.added));
    EscapedIsField(node.title);
    EscapedIsField(node.url);
  }

  lemma LineIsSaved(node: Node)
    ensures Uncut(Line(node), '\n') && Line(node) != []
    ensures forall r :: WithLine(r, Line(node)) == WithRecord(r, Saved(node))
  {
    var f := Fields(node);
    FieldsAreFields(node);
    JoinedIsUncut(f);
    CutUndoesJoin(f, '\t');
    ParseUndoesToString(node.id);
    ParseUndoesToString(node.parent);
    ParseUndoesToString(WholeSeconds(node.added));
    UnescapeUndoesEscape(node.title);
    UnescapeUndoesEscape(node.url);
    assert ParsedSigned("1") == 1 && ParsedSigned("0") == 0;
    assert RecordOf(f) == Saved(node);
  }

  // --- Reading in place -----------------------------------------------------------------

  method ReadRecord(store: Store, record: Record, highest: int) returns (highest': int)
    modifies store`nodes
    ensures Reading(store.nodes, highest') == WithRecord(Reading(old(store.nodes), highest), record)
  {
    highest' := highest;
    FirstAtFinds(store.nodes, record.id);
    FirstAtFinds(store.nodes, record.parent);
    if record.id <= 0 {
      return;
    }
    if IsRoot(record.id) {
      var root := store.Find(record.id);
      if root >= 0 && record.title != [] {
        store.nodes := store.nodes[root := store.nodes[root].(title := record.title)];
      }
      return;
    }
    var target := store.Find(record.parent);
    if target < 0 || !store.nodes[target].folder {
      return;
    }
    if !record.folder && record.url == [] {
      return;
    }
    store.nodes := store.nodes + [NodeOf(record)];
    FirstAtFinds(store.nodes, record.parent);
    var parent := store.Find(record.parent);
    if parent >= 0 {
      var node := store.nodes[parent];
      store.nodes := store.nodes[parent := node.(children := node.children + [record.id])];
    }
    if record.id > highest {
      highest' := record.id;
    }
  }

  /** The store a reading leaves behind. */
  ghost function Left(r: Reading): Model {
    Model(Ids(r.nodes), TableOf(r.nodes), r.highest + 1)
  }

  method DecodeBookmarks(store: Store, contents: string, now: real)
    modifies store
    ensures Decoded(contents, now).Unreadable? ==> store.nodes == old(store.nodes) && store.nextId == old(store.nextId)
    ensures Decoded(contents, now).Readable? ==>
              Reading(store.nodes, store.nextId - 1) == Decoded(contents, now).reading
  {
    var lines := SplitOn(contents, '\n');
    if |lines| == 0 || lines[0] != HEADER {
      return;
    }
    store.nodes := BareRoots(now).nodes;
    var highest := ROOT_OTHER;
    ghost var all := WithLines(BareRoots(now), lines[1..]);
    for index := 1 to |lines|
      invariant WithLines(Reading(store.nodes, highest), lines[index..]) == all
    {
      assert lines[index..][0] == lines[index] && lines[index..][1..] == lines[index + 1..];
      if lines[index] != [] {
        var fields := SplitOn(lines[index], '\t');
        if |fields| >= 6 {
          var id := ParseSigned(fields[0]);
          var parent := ParseSigned(fields[1]);
          var folder := ParseSigned(fields[2]);
          var added := ParseSigned(fields[3]);
          var title := UnescapeField(fields[4]);
          var url := UnescapeField(fields[5]);
          var record := Record(AsInt(id), AsInt(parent), folder != 0, added as real, title, url);
          highest := ReadRecord(store, record, highest);
        }
      }
    }
    store.nextId := highest + 1;
  }
}
