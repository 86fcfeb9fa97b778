/** What the bookmark reader makes of any file at all, written by the program or
    by hand: the store it leaves is sound exactly when no id was read twice. */
module BookmarkAnyFile {
  import opened Text
  import opened BookmarkTree
  import opened BookmarkEdits
  import opened BookmarkStore
  import opened BookmarkFile
  import opened BookmarkReload

  /** What every reading has, and what it has more while its ids are unique. */
  ghost predicate Fit(r: Reading) {
    && ROOT_OTHER <= r.highest && (forall id <- Ids(r.nodes) :: id <= r.highest)
    && (NoRepeats(Ids(r.nodes)) ==> IsForest(TableOf(r.nodes)))
  }

  lemma FitIsSound(r: Reading)
    requires Fit(r)
    ensures Sound(Left(r)) <==> NoRepeats(Ids(r.nodes))
  {
    if NoRepeats(Ids(r.nodes)) {
      forall id
        ensures id in Ids(r.nodes) <==> id in TableOf(r.nodes)
      {
        TableKeys(r.nodes, id);
      }
    }
  }

  lemma BareRootsFit(now: real)
    ensures Fit(BareRoots(now))
  {
    var nodes := BareRoots(now).nodes;
    BareRootsTable(nodes);
    BareRootsAreAForest(nodes[0], nodes[1]);
  }

  lemma BareRootsTable(nodes: seq<Node>)
    requires |nodes| == 2 && nodes[0].id == ROOT_BAR && nodes[1].id == ROOT_OTHER
    ensures Ids(nodes) == [ROOT_BAR, ROOT_OTHER] && NoRepeats(Ids(nodes))
    ensures TableOf(nodes) == map[ROOT_BAR := nodes[0], ROOT_OTHER := nodes[1]]
  {
    assert nodes == [nodes[0]] + [nodes[1]] && [nodes[0]] == [] + [nodes[0]];
    TableAppend([], nodes[0]);
    TableAppend([nodes[0]], nodes[1]);
  }

  // --- One record -----------------------------------------------------------------------

  /** Whether a record becomes a new node. */
  predicate Accepts(r: Reading, record: Record) {
    FirstAtFinds(r.nodes, record.parent);
    var target := FirstAt(r.nodes, record.parent);
    record.id > 0 && !IsRoot(record.id) && target >= 0 && r.nodes[target].folder && (record.folder || record.url != [])
  }

  /** The reader does not look for an id it has already read: a record it takes
      adds its id, whatever ids there are. */
  lemma RecordAddsItsId(r: Reading, record: Record)
    ensures Ids(WithRecord(r, record).nodes) == if Accepts(r, record) then Ids(r.nodes) + [record.id] else Ids(r.nodes)
  {
    FirstAtFinds(r.nodes, record.id);
    FirstAtFinds(r.nodes, record.parent);
    if Accepts(r, record) {
      var nodes := r.nodes + [NodeOf(record)];
      FirstAtFinds(nodes, record.parent);
      assert Ids(nodes) == Ids(r.nodes) + [record.id];
      assert Ids(WithChild(nodes, record.parent, record.id)) == Ids(nodes);
    } else {
      assert Ids(WithRecord(r, record).nodes) == Ids(r.nodes);
    }
  }

  lemma RepeatsStay(front: seq<int>, back: seq<int>)
    requires NoRepeats(front + back)
    ensures NoRepeats(front) && forall x <- front :: x !in back
  {
    var all := front + back;
    assert forall i :: 0 <= i < |front| ==> front[i] == all[i];
    forall i, j | 0 <= i < |front| && 0 <= j < |back|
      ensures front[i] != back[j]
    {
      assert all[i] != all[|front| + j];
    }
  }

  lemma AcceptedFolder(r: Reading, record: Record)
    requires NoRepeats(Ids(r.nodes)) && Accepts(r, record)
    ensures record.parent > 0 && record.parent in TableOf(r.nodes) && TableOf(r.nodes)[record.parent].folder
    ensures WithRecord(r, record).nodes == WithChild(r.nodes + [NodeOf(record)], record.parent, record.id)
  {
    FirstAtFinds(r.nodes, record.parent);
    TableKeys(r.nodes, record.parent);
  }

  /** A record taken under a new id is an insertion at the end of its folder. */
  lemma AcceptedIsInserted(r: Reading, record: Record)
    requires NoRepeats(Ids(r.nodes)) && Accepts(r, record) && record.id !in Ids(r.nodes)
    ensures record.parent in TableOf(r.nodes)
    ensures TableOf(WithRecord(r, record).nodes) == Inserted(TableOf(r.nodes), NodeOf(record), -1)
  {
    var t, node, parent := TableOf(r.nodes), NodeOf(record), record.parent;
    AcceptedFolder(r, record);
    PushedChild(r.nodes, node, parent);
    EndIsMinusOne(t[parent].children, record.id);
  }

  lemma AcceptedKeepsForest(r: Reading, record: Record)
    requires NoRepeats(Ids(r.nodes)) && Accepts(r, record) && record.id !in Ids(r.nodes)
    requires IsForest(TableOf(r.nodes))
    ensures IsForest(TableOf(WithRecord(r, record).nodes))
  {
    AcceptedFolder(r, record);
    AcceptedIsInserted(r, record);
    TableKeys(r.nodes, record.id);
    InsertKeepsForest(TableOf(r.nodes), NodeOf(record), -1);
  }

  lemma EndIsMinusOne(children: seq<int>, id: int)
    ensures InsertAt(children, id, -1) == children + [id]
  {
  }

  /** A record naming a root changes no more than its title. */
  lemma RootRecordKeepsFit(r: Reading, record: Record)
    requires Fit(r) && IsRoot(record.id)
    ensures Fit(WithRecord(r, record))
  {
    RecordAddsItsId(r, record);
    FirstAtFinds(r.nodes, record.id);
    var at := FirstAt(r.nodes, record.id);
    if at >= 0 && record.title != [] && NoRepeats(Ids(r.nodes)) {
      var node := r.nodes[at].(title := record.title);
      TableKeys(r.nodes, record.id);
      TablePut(r.nodes, at, node);
      NodeFacts(TableOf(r.nodes), record.id);
      RelabelKeepsForest(TableOf(r.nodes), record.id, node);
    }
  }

  lemma RecordKeepsFit(r: Reading, record: Record)
    requires Fit(r)
    ensures Fit(WithRecord(r, record))
  {
    if IsRoot(record.id) {
      RootRecordKeepsFit(r, record);
    } else if Accepts(r, record) {
      RecordAddsItsId(r, record);
      var ids := Ids(WithRecord(r, record).nodes);
      if NoRepeats(ids) {
        RepeatsStay(Ids(r.nodes), [record.id]);
        AcceptedKeepsForest(r, record);
      }
    }
  }

  // --- A whole file -----------------------------------------------------------------------

  lemma {:induction false} LinesKeepFit(r: Reading, lines: seq<string>)
    requires Fit(r)
    ensures Fit(WithLines(r, lines))
    decreases |lines|
  {
    if lines != [] {
      var fields := Cut(lines[0], '\t', []);
      if lines[0] != [] && |fields| >= 6 {
        RecordKeepsFit(r, RecordOf(fields));
      }
      LinesKeepFit(WithLine(r, lines[0]), lines[1..]);
    }
  }

  /** Whatever a file says, the store read from it is a sound one - both roots,
      parents and child lists that agree, chains that end, a next id above all -
      exactly when no two of its nodes carry one id. */
  lemma AnyFileIsSoundExactly(contents: string, now: real)
    requires Decoded(contents, now).Readable?
    ensures var r := Decoded(contents, now).reading;
            Sound(Left(r)) <==> NoRepeats(Ids(r.nodes))
  {
    var lines := Cut(contents, '\n', []);
    BareRootsFit(now);
    LinesKeepFit(BareRoots(now), lines[1..]);
    FitIsSound(WithLines(BareRoots(now), lines[1..]));
  }

  // --- The same said of the text ------------------------------------------------------------

  /** Whether a record is one the reader takes, given the folders it has taken. */
  predicate Takes(record: Record, folders: set<int>) {
    record.id > 0 && !IsRoot(record.id) && record.parent in folders && (record.folder || record.url != [])
  }

  /** Whether no line that is taken carries an id taken before; lines that are too short,
      name a root, stand before their folder or name nothing are passed over. */
  predicate NamesOnce(lines: seq<string>, taken: set<int>, folders: set<int>)
    decreases |lines|, 1
  {
    lines == [] ||
    var fields := Cut(lines[0], '\t', []);
    if lines[0] == [] || |fields| < 6 || !Takes(RecordOf(fields), folders) then NamesOnce(lines[1..], taken, folders)
    else NamesOnceAfter(RecordOf(fields), lines, taken, folders)
  }

  predicate NamesOnceAfter(record: Record, lines: seq<string>, taken: set<int>, folders: set<int>)
    requires lines != []
    decreases |lines|, 0
  {
    && record.id !in taken
    && NamesOnce(lines[1..], taken + {record.id}, if record.folder then folders + {record.id} else folders)
  }

  /** What a reader of the text would know of the nodes read so far. */
  ghost predicate Knows(r: Reading, taken: set<int>, folders: set<int>) {
    && NoRepeats(Ids(r.nodes)) && TableOf(r.nodes).Keys == taken
    && (forall id <- taken :: id > 0)
    && forall id :: id in folders <==> id in taken && TableOf(r.nodes)[id].folder
  }

  lemma TakesIsAccepts(r: Reading, record: Record, taken: set<int>, folders: set<int>)
    requires Knows(r, taken, folders)
    ensures Takes(record, folders) <==> Accepts(r, record)
    ensures record.id in taken <==> record.id in Ids(r.nodes)
  {
    TableKeys(r.nodes, record.parent);
    TableKeys(r.nodes, record.id);
  }

  lemma PassedOverIsKnown(r: Reading, record: Record, taken: set<int>, folders: set<int>)
    requires Knows(r, taken, folders) && !Accepts(r, record)
    ensures Knows(WithRecord(r, record), taken, folders)
  {
    RecordAddsItsId(r, record);
    FirstAtFinds(r.nodes, record.id);
    var at := FirstAt(r.nodes, record.id);
    if IsRoot(record.id) && at >= 0 && record.title != [] {
      TableKeys(r.nodes, record.id);
      TablePut(r.nodes, at, r.nodes[at].(title := record.title));
    }
  }

  lemma TakenIsKnown(r: Reading, record: Record, taken: set<int>, folders: set<int>)
    requires Knows(r, taken, folders) && Accepts(r, record) && record.id !in Ids(r.nodes)
    ensures Knows(WithRecord(r, record), taken + {record.id},
                  if record.folder then folders + {record.id} else folders)
  {
    AcceptedFolder(r, record);
    AcceptedIsInserted(r, record);
    RecordAddsItsId(r, record);
    TableKeys(r.nodes, record.id);
    ConcatNoRepeats(Ids(r.nodes), [record.id]);
  }

  lemma {:induction false} RepeatsAreKept(r: Reading, lines: seq<string>)
    requires NoRepeats(Ids(WithLines(r, lines).nodes))
    ensures NoRepeats(Ids(r.nodes))
    decreases |lines|
  {
    if lines != [] {
      RepeatsAreKept(WithLine(r, lines[0]), lines[1..]);
      var fields := Cut(lines[0], '\t', []);
      if lines[0] != [] && |fields| >= 6 {
        RecordAddsItsId(r, RecordOf(fields));
        if Accepts(r, RecordOf(fields)) {
          RepeatsStay(Ids(r.nodes), [RecordOf(fields).id]);
        }
      }
    }
  }

  lemma {:induction false} LinesNameOnce(r: Reading, lines: seq<string>, taken: set<int>, folders: set<int>)
    requires Knows(r, taken, folders)
    ensures NoRepeats(Ids(WithLines(r, lines).nodes)) <==> NamesOnce(lines, taken, folders)
    decreases |lines|, 1
  {
    if lines != [] {
      var fields := Cut(lines[0], '\t', []);
      if lines[0] == [] || |fields| < 6 {
        LinesNameOnce(r, lines[1..], taken, folders);
      } else {
        RecordNamesOnce(r, RecordOf(fields), lines, taken, folders);
      }
    }
  }

  lemma {:induction false} RecordNamesOnce(r: Reading, record: Record, lines: seq<string>,
      taken: set<int>, folders: set<int>)
    requires Knows(r, taken, folders) && lines != []
    ensures NoRepeats(Ids(WithLines(WithRecord(r, record), lines[1..]).nodes)) <==>
            if Takes(record, folders) then NamesOnceAfter(record, lines, taken, folders)
            else NamesOnce(lines[1..], taken, folders)
    decreases |lines|, 0
  {
    var (after, rest) := (WithRecord(r, record), lines[1..]);
    TakesIsAccepts(r, record, taken, folders);
    if !Accepts(r, record) {
      PassedOverIsKnown(r, record, taken, folders);
      LinesNameOnce(after, rest, taken, folders);
    } else if record.id !in taken {
      TakenIsKnown(r, record, taken, folders);
      LinesNameOnce(after, rest, taken + {record.id}, if record.folder then folders + {record.id} else folders);
    } else if NoRepeats(Ids(WithLines(after, rest).nodes)) {
      RepeatsAreKept(after, rest);
      RecordAddsItsId(r, record);
      RepeatsStay(Ids(r.nodes), [record.id]);
    }
  }

  /** So a look at the text says whether the store read from it will be sound. */
  lemma AnyTextIsSoundExactly(contents: string, now: real)
    requires Decoded(contents, now).Readable?
    ensures Sound(Left(Decoded(contents, now).reading)) <==>
            NamesOnce(Cut(contents, '\n', [])[1..], {ROOT_BAR, ROOT_OTHER}, {ROOT_BAR, ROOT_OTHER})
  {
    AnyFileIsSoundExactly(contents, now);
    BareRootsAreKnown(now);
    LinesNameOnce(BareRoots(now), Cut(contents, '\n', [])[1..], {ROOT_BAR, ROOT_OTHER}, {ROOT_BAR, ROOT_OTHER});
  }

  lemma BareRootsAreKnown(now: real)
    ensures Knows(BareRoots(now), {ROOT_BAR, ROOT_OTHER}, {ROOT_BAR, ROOT_OTHER})
  {
    BareRootsTable(BareRoots(now).nodes);
  }

  // --- Files nobody wrote -----------------------------------------------------------------

  function TwoLines(one: Node, other: Node): string {
    HEADER + "\n" + Line(one) + "\n" + Line(other) + "\n"
  }

  lemma TwoLinesRead(one: Node, other: Node, now: real)
    ensures Decoded(TwoLines(one, other), now)
         == Readable(WithRecord(WithRecord(BareRoots(now), Saved(one)), Saved(other)))
  {
    LineIsSaved(one);
    LineIsSaved(other);
    var last := OneMoreLine(Line(other), []);
    var lines := OneMoreLine(Line(one), last);
    assert HEADER + "\n" + Ended(lines) == TwoLines(one, other);
    DecodedLines(lines, now);
    ThreeLines(BareRoots(now), Line(one), Line(other), []);
    assert lines + [[]] == [Line(one), Line(other), []];
  }

  lemma ThreeLines(r: Reading, a: string, b: string, c: string)
    ensures WithLines(r, [a, b, c]) == WithLine(WithLine(WithLine(r, a), b), c)
  {
    var lines := [a, b, c];
    assert lines[1..] == [b, c] && [b, c][1..] == [c] && [c][1..] == [];
    assert WithLines(r, lines) == WithLines(WithLine(r, a), [b, c]);
    assert WithLines(WithLine(r, a), [b, c]) == WithLines(WithLine(WithLine(r, a), b), [c]);
  }

  lemma ChildOfBar(bar: Node, other: Node, record: Record)
    requires bar.id == ROOT_BAR && bar.folder && record.id == 3 && record.parent == ROOT_BAR
    requires record.folder || record.url != []
    ensures WithRecord(Reading([bar, other], ROOT_OTHER), record)
         == Reading([bar.(children := bar.children + [3]), other, NodeOf(record)], 3)
  {
    assert [bar, other] + [NodeOf(record)] == [bar, other, NodeOf(record)];
  }

  lemma ChildOfItself(bar: Node, other: Node, folder: Node, record: Record)
    requires bar.id == ROOT_BAR && other.id == ROOT_OTHER && folder.id == 3 && folder.folder
    requires record.id == 3 && record.parent == 3 && record.folder
    ensures WithRecord(Reading([bar, other, folder], 3), record)
         == Reading([bar, other, folder.(children := folder.children + [3]), NodeOf(record)], 3)
  {
    ThirdFound([bar, other, folder]);
    ThirdFound([bar, other, folder, NodeOf(record)]);
    assert [bar, other, folder] + [NodeOf(record)] == [bar, other, folder, NodeOf(record)];
  }

  lemma ThirdFound(nodes: seq<Node>)
    requires |nodes| > 2 && nodes[0].id == ROOT_BAR && nodes[1].id == ROOT_OTHER && nodes[2].id == 3
    ensures FirstAt(nodes, 3) == 2
  {
    assert nodes[1..][1..] == nodes[2..];
    assert FirstAt(nodes[2..], 3) == 0;
    assert FirstAt(nodes[1..], 3) == 1;
  }

  /** A file can name one bookmark twice, and both are kept. */
  lemma RepeatedIdIsKept(now: real, url: string)
    requires url != []
    ensures var bookmark := Node(3, ROOT_BAR, false, [], url, 0.0, []);
            && Decoded(TwoLines(bookmark, bookmark), now).Readable?
            && var r := Decoded(TwoLines(bookmark, bookmark), now).reading;
            && Ids(r.nodes) == [ROOT_BAR, ROOT_OTHER, 3, 3]
            && !Sound(Left(r))
  {
    var bookmark := Node(3, ROOT_BAR, false, [], url, 0.0, []);
    TwoLinesRead(bookmark, bookmark, now);
    var roots := BareRoots(now).nodes;
    ChildOfBar(roots[0], roots[1], Saved(bookmark));
    var once := WithRecord(BareRoots(now), Saved(bookmark));
    assert FirstAt(once.nodes, ROOT_BAR) == 0;
    RecordAddsItsId(once, Saved(bookmark));
    var ids := Ids(WithRecord(once, Saved(bookmark)).nodes);
    assert ids == [ROOT_BAR, ROOT_OTHER, 3, 3] && ids[2] == ids[3];
    AnyFileIsSoundExactly(TwoLines(bookmark, bookmark), now);
  }

  /** The node `levels` first children below one, or 0 where the list ends. */
  function Down(nodes: seq<Node>, id: int, levels: nat): int
    decreases levels
  {
    if levels == 0 then id
    else
      FirstAtFinds(nodes, id);
      var at := FirstAt(nodes, id);
      if at < 0 || nodes[at].children == [] then 0 else Down(nodes, nodes[at].children[0], levels - 1)
  }

  const SELF_LISTED := HEADER + "\n" + "3\t1\t1\t0\ta\t" + "\n" + "3\t3\t1\t0\tb\t" + "\n"

  lemma SpelledOut()
    ensures ToString(3) == "3" && ToString(1) == "1" && ToString(0) == "0"
    ensures Escaped("a") == "a" && Escaped("b") == "b" && Escaped("") == ""
  {
  }

  const OUTER := Node(3, 1, true, "a", "", 0.0, [])
  const INNER := Node(3, 3, true, "b", "", 0.0, [])

  lemma OuterLine()
    ensures Line(OUTER) == "3\t1\t1\t0\ta\t"
  {
    SpelledOut();
    LineSpelled("3", "1", "1", "0", "a", "");
  }

  lemma InnerLine()
    ensures Line(INNER) == "3\t3\t1\t0\tb\t"
  {
    SpelledOut();
    LineSpelled("3", "3", "1", "0", "b", "");
  }

  lemma SelfListedIsTwoLines()
    ensures SELF_LISTED == TwoLines(OUTER, INNER)
  {
    OuterLine();
    InnerLine();
  }

  /** A file can put a folder into itself. The node found under its id then lists
      itself, and the way down from it never ends: the walks that gather, count or
      write a subtree do not return. */
  lemma FolderListsItself(now: real, levels: nat)
    ensures Decoded(SELF_LISTED, now).Readable?
    ensures var r := Decoded(SELF_LISTED, now).reading;
            && Ids(r.nodes) == [ROOT_BAR, ROOT_OTHER, 3, 3]
            && r.nodes[2].children == [3]
            && !Sound(Left(r))
            && Down(r.nodes, 3, levels) == 3
  {
    SelfListedRead(now);
    var r := Decoded(SELF_LISTED, now).reading;
    assert Ids(r.nodes) == [ROOT_BAR, ROOT_OTHER, 3, 3] && Ids(r.nodes)[2] == Ids(r.nodes)[3];
    AnyFileIsSoundExactly(SELF_LISTED, now);
    ThirdFound(r.nodes);
    AlwaysDown(r.nodes, levels);
  }

  lemma SelfListedRead(now: real)
    ensures Decoded(SELF_LISTED, now).Readable?
    ensures var nodes := Decoded(SELF_LISTED, now).reading.nodes;
            && |nodes| == 4 && nodes[0].id == ROOT_BAR && nodes[1].id == ROOT_OTHER
            && nodes[2].id == 3 && nodes[2].children == [3] && nodes[3].id == 3
  {
    SelfListedIsTwoLines();
    TwoLinesRead(OUTER, INNER, now);
    NestedRead(BareRoots(now).nodes[0], BareRoots(now).nodes[1]);
  }

  lemma NestedRead(bar: Node, other: Node)
    requires bar.id == ROOT_BAR && bar.folder && bar.children == [] && other.id == ROOT_OTHER
    ensures var r := WithRecord(WithRecord(Reading([bar, other], ROOT_OTHER), Saved(OUTER)), Saved(INNER));
            r.nodes == [bar.(children := [3]), other, NodeOf(Saved(OUTER)).(children := [3]), NodeOf(Saved(INNER))]
  {
    var outer := NodeOf(Saved(OUTER));
    assert bar.children + [3] == [3] && outer.children + [3] == [3];
    ChildOfBar(bar, other, Saved(OUTER));
    ChildOfItself(bar.(children := [3]), other, outer, Saved(INNER));
  }

  lemma {:induction false} AlwaysDown(nodes: seq<Node>, levels: nat)
    requires |nodes| > 2 && FirstAt(nodes, 3) == 2 && nodes[2].children == [3]
    ensures Down(nodes, 3, levels) == 3
  {
    if levels > 0 {
      AlwaysDown(nodes, levels - 1);
    }
  }
}
