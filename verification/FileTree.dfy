/** Deleting what a tree of files holds under a cutoff, and weighing it. The disk may
    refuse: a file may not be deletable, a directory may not be listed or removed. */
module FileTree {
  import opened Sequences

  datatype Tree =
    | File(name: string, size: nat, written: real, readOnly: bool, deletable: bool)
    | Dir(name: string, listable: bool, removable: bool, children: seq<Tree>)

  // --- Weighing ---------------------------------------------------------------------------

  /** Bytes as a walk over the tree adds them up. */
  function Bytes(t: Tree): nat {
    match t
    case File(_, size, _, _, _) => size
    case Dir(_, listable, _, children) => if listable then BytesAll(children) else 0
  }

  function BytesAll(ts: seq<Tree>): nat {
    if ts == [] then 0 else Bytes(ts[0]) + BytesAll(ts[1..])
  }

  function Later(a: real, b: real): real {
    if a > b then a else b
  }

  function Newest(t: Tree): real {
    match t
    case File(_, _, written, _, _) => written
    case Dir(_, listable, _, children) => if listable then NewestAll(children, 0.0) else 0.0
  }

  function NewestAll(ts: seq<Tree>, soFar: real): real {
    if ts == [] then soFar else NewestAll(ts[1..], Later(Newest(ts[0]), soFar))
  }

  // --- Removing ---------------------------------------------------------------------------

  /** A file older than the cutoff is spared; a cutoff of 0 spares none. */
  predicate Spared(written: real, since: real) {
    since > 0.0 && written < since
  }

  /** What is left of a tree: itself, less of it, or nothing. */
  function After(t: Tree, since: real): (left: seq<Tree>)
    ensures |left| <= 1
  {
    match t
    case File(_, _, written, _, deletable) =>
      if Spared(written, since) then [t]
      else if deletable then []
      else [t.(readOnly := false)]
    case Dir(_, listable, removable, children) =>
      var kept := if listable then AfterAll(children, since) else children;
      if kept == [] && removable then [] else [t.(children := kept)]
  }

  function AfterAll(ts: seq<Tree>, since: real): seq<Tree> {
    if ts == [] then [] else After(ts[0], since) + AfterAll(ts[1..], since)
  }

  /** The bytes a removal says it freed. */
  function Freed(t: Tree, since: real): nat {
    match t
    case File(_, size, written, _, deletable) => if Spared(written, since) || !deletable then 0 else size
    case Dir(_, listable, _, children) => if listable then FreedAll(children, since) else 0
  }

  function FreedAll(ts: seq<Tree>, since: real): nat {
    if ts == [] then 0 else Freed(ts[0], since) + FreedAll(ts[1..], since)
  }

  // --- What a tree holds ------------------------------------------------------------------

  /** A file, the directories above it, and whether a walk reaches it. */
  datatype Found = Found(path: seq<string>, file: Tree, reached: bool)

  function Files(t: Tree, path: seq<string>, reached: bool): seq<Found> {
    match t
    case File(_, _, _, _, _) => [Found(path, t, reached)]
    case Dir(name, listable, _, children) => FilesAll(children, path + [name], reached && listable)
  }

  function FilesAll(ts: seq<Tree>, path: seq<string>, reached: bool): seq<Found> {
    if ts == [] then [] else Files(ts[0], path, reached) + FilesAll(ts[1..], path, reached)
  }

  /** What becomes of each file on its own. */
  function Survivors(files: seq<Found>, since: real): seq<Found> {
    if files == [] then []
    else
      var (f, rest) := (files[0], Survivors(files[1..], since));
      if f.file.Dir? || !f.reached || Spared(f.file.written, since) then [f] + rest
      else if f.file.deletable then rest
      else [f.(file := f.file.(readOnly := false))] + rest
  }

  // --- Bytes are conserved ------------------------------------------------------------------

  lemma {:induction false} BytesConcat(front: seq<Tree>, back: seq<Tree>)
    ensures BytesAll(front + back) == BytesAll(front) + BytesAll(back)
  {
    if front == [] {
      assert front + back == back;
    } else {
      BytesConcat(front[1..], back);
      assert (front + back)[1..] == front[1..] + back;
    }
  }

  /** What a tree weighed is what was freed and what is left. */
  lemma {:induction false} BytesConserved(t: Tree, since: real)
    ensures Bytes(t) == Freed(t, since) + BytesAll(After(t, since))
  {
    if t.Dir? && t.listable {
      AllBytesConserved(t.children, since);
    }
    assert After(t, since) != [] ==> After(t, since)[1..] == [];
  }

  lemma {:induction false} AllBytesConserved(ts: seq<Tree>, since: real)
    ensures BytesAll(ts) == FreedAll(ts, since) + BytesAll(AfterAll(ts, since))
  {
    if ts != [] {
      BytesConserved(ts[0], since);
      AllBytesConserved(ts[1..], since);
      BytesConcat(After(ts[0], since), AfterAll(ts[1..], since));
    }
  }

  // --- The files left are the right ones ----------------------------------------------------

  lemma {:induction false} FilesConcat(front: seq<Tree>, back: seq<Tree>, path: seq<string>, reached: bool)
    ensures FilesAll(front + back, path, reached) == FilesAll(front, path, reached) + FilesAll(back, path, reached)
  {
    if front == [] {
      assert front + back == back;
    } else {
      FilesConcat(front[1..], back, path, reached);
      assert (front + back)[1..] == front[1..] + back;
      assert (front + back)[0] == front[0];
      Associates(Files(front[0], path, reached), FilesAll(front[1..], path, reached), FilesAll(back, path, reached));
    }
  }

  lemma {:induction false} SurvivorsConcat(front: seq<Found>, back: seq<Found>, since: real)
    ensures Survivors(front + back, since) == Survivors(front, since) + Survivors(back, since)
  {
    if front == [] {
      assert front + back == back;
    } else {
      SurvivorsConcat(front[1..], back, since);
      assert (front + back)[1..] == front[1..] + back && (front + back)[0] == front[0];
      var (f, a, b) := (front[0], Survivors(front[1..], since), Survivors(back, since));
      Associates([f], a, b);
      Associates([f.(file := if f.file.File? then f.file.(readOnly := false) else f.file)], a, b);
    }
  }

  lemma {:induction false} UnreachedSurvive(t: Tree, path: seq<string>, since: real)
    ensures Survivors(Files(t, path, false), since) == Files(t, path, false)
  {
    if t.Dir? {
      AllUnreachedSurvive(t.children, path + [t.name], since);
    }
  }

  lemma {:induction false} AllUnreachedSurvive(ts: seq<Tree>, path: seq<string>, since: real)
    ensures Survivors(FilesAll(ts, path, false), since) == FilesAll(ts, path, false)
  {
    if ts != [] {
      UnreachedSurvive(ts[0], path, since);
      AllUnreachedSurvive(ts[1..], path, since);
      SurvivorsConcat(Files(ts[0], path, false), FilesAll(ts[1..], path, false), since);
    }
  }

  /** The files left are, in the order and the places they were in, those older than the
      cutoff, untouched, those that could not be deleted, no longer read-only, and
      those no walk reaches. */
  lemma {:induction false} LeftAreSurvivors(t: Tree, path: seq<string>, since: real)
    ensures FilesAll(After(t, since), path, true) == Survivors(Files(t, path, true), since)
  {
    match t
    case File(_, _, _, _, _) =>
    case Dir(name, listable, removable, children) =>
      var kept := if listable then AfterAll(children, since) else children;
      if listable {
        AllLeftAreSurvivors(children, path + [name], since);
      } else {
        AllUnreachedSurvive(children, path + [name], since);
      }
      assert FilesAll([t.(children := kept)], path, true) == FilesAll(kept, path + [name], listable) + [];
  }

  lemma {:induction false} AllLeftAreSurvivors(ts: seq<Tree>, path: seq<string>, since: real)
    ensures FilesAll(AfterAll(ts, since), path, true) == Survivors(FilesAll(ts, path, true), since)
  {
    if ts != [] {
      LeftAreSurvivors(ts[0], path, since);
      AllLeftAreSurvivors(ts[1..], path, since);
      FilesConcat(After(ts[0], since), AfterAll(ts[1..], since), path, true);
      SurvivorsConcat(Files(ts[0], path, true), FilesAll(ts[1..], path, true), since);
    }
  }

  lemma {:induction false} SurvivorsAre(files: seq<Found>, since: real, f: Found)
    requires f in files && f.file.File?
    ensures !f.reached || Spared(f.file.written, since) ==> f in Survivors(files, since)
  {
    if f != files[0] {
      SurvivorsAre(files[1..], since, f);
    }
  }

  lemma {:induction false} SurvivorsWere(files: seq<Found>, since: real, f: Found)
    requires f in Survivors(files, since) && f.file.File? && f.reached && !Spared(f.file.written, since)
    ensures !f.file.deletable
    ensures exists was <- files :: was.path == f.path && was.file.File? && f.file == was.file.(readOnly := false)
  {
    var rest := Survivors(files[1..], since);
    assert files[0] in files;
    if f in rest {
      SurvivorsWere(files[1..], since, f);
    }
  }

  /** Every file older than the cutoff is still there; every other file still there that
      the walk reached could not be deleted. Without a cutoff no file is old. */
  lemma OldFilesStay(t: Tree, since: real, f: Found)
    ensures f in Files(t, [], true) && f.file.File? && since > 0.0 && f.file.written < since ==>
              f in FilesAll(After(t, since), [], true)
    ensures f in FilesAll(After(t, since), [], true) && f.file.File? && f.reached &&
            (since <= 0.0 || f.file.written >= since) ==>
              !f.file.deletable
  {
    LeftAreSurvivors(t, [], since);
    if f in Files(t, [], true) && f.file.File? && Spared(f.file.written, since) {
      SurvivorsAre(Files(t, [], true), since, f);
    }
    if f in FilesAll(After(t, since), [], true) && f.file.File? && f.reached && !Spared(f.file.written, since) {
      SurvivorsWere(Files(t, [], true), since, f);
    }
  }

  // --- What a walk weighs ---------------------------------------------------------------------

  /** The sizes of the files a walk reaches. */
  function Weight(files: seq<Found>): nat {
    if files == [] then 0
    else (if files[0].reached && files[0].file.File? then files[0].file.size else 0) + Weight(files[1..])
  }

  lemma {:induction false} WeightConcat(front: seq<Found>, back: seq<Found>)
    ensures Weight(front + back) == Weight(front) + Weight(back)
  {
    if front == [] {
      assert front + back == back;
    } else {
      WeightConcat(front[1..], back);
      assert (front + back)[1..] == front[1..] + back && (front + back)[0] == front[0];
    }
  }

  lemma {:induction false} UnreachedWeighNothing(t: Tree, path: seq<string>)
    ensures Weight(Files(t, path, false)) == 0
  {
    if t.Dir? {
      AllUnreachedWeighNothing(t.children, path + [t.name]);
    }
  }

  lemma {:induction false} AllUnreachedWeighNothing(ts: seq<Tree>, path: seq<string>)
    ensures Weight(FilesAll(ts, path, false)) == 0
  {
    if ts != [] {
      UnreachedWeighNothing(ts[0], path);
      AllUnreachedWeighNothing(ts[1..], path);
      WeightConcat(Files(ts[0], path, false), FilesAll(ts[1..], path, false));
    }
  }

  /** A tree weighs what the files a walk reaches weigh together. */
  lemma {:induction false} BytesAreReached(t: Tree, path: seq<string>)
    ensures Bytes(t) == Weight(Files(t, path, true))
  {
    if t.Dir? {
      if t.listable {
        AllBytesAreReached(t.children, path + [t.name]);
      } else {
        AllUnreachedWeighNothing(t.children, path + [t.name]);
      }
    }
  }

  lemma {:induction false} AllBytesAreReached(ts: seq<Tree>, path: seq<string>)
    ensures BytesAll(ts) == Weight(FilesAll(ts, path, true))
  {
    if ts != [] {
      BytesAreReached(ts[0], path);
      AllBytesAreReached(ts[1..], path);
      WeightConcat(Files(ts[0], path, true), FilesAll(ts[1..], path, true));
    }
  }

  predicate ReachedAt(f: Found, when: real) {
    f.reached && f.file.File? && f.file.written == when
  }

  /** No file reached is later than `when`, which is `soFar` or the time of a file reached. */
  predicate IsLatest(files: seq<Found>, soFar: real, when: real) {
    && (forall f <- files :: f.reached && f.file.File? ==> f.file.written <= when)
    && (when == soFar || exists f <- files :: ReachedAt(f, when))
  }

  lemma {:induction false} NoneIsReached(t: Tree, path: seq<string>)
    ensures forall f <- Files(t, path, false) :: !f.reached
  {
    if t.Dir? {
      NoneOfAllIsReached(t.children, path + [t.name]);
    }
  }

  lemma {:induction false} NoneOfAllIsReached(ts: seq<Tree>, path: seq<string>)
    ensures forall f <- FilesAll(ts, path, false) :: !f.reached
  {
    if ts != [] {
      NoneIsReached(ts[0], path);
      NoneOfAllIsReached(ts[1..], path);
    }
  }

  /** The newest write of a directory is the latest of the files a walk reaches in it, and
      0 when none is later than that; a file's is its own. */
  lemma {:induction false} NewestIsLatest(t: Tree, path: seq<string>)
    ensures IsLatest(Files(t, path, true), 0.0, Newest(t))
    ensures t.Dir? ==> Newest(t) >= 0.0
  {
    match t
    case File(_, _, written, _, _) =>
      assert ReachedAt(Files(t, path, true)[0], written);
    case Dir(name, listable, _, children) =>
      if listable {
        AllNewestAreLatest(children, path + [name], 0.0);
      } else {
        NoneOfAllIsReached(children, path + [name]);
      }
  }

  lemma {:induction false} AllNewestAreLatest(ts: seq<Tree>, path: seq<string>, soFar: real)
    requires soFar >= 0.0
    ensures NewestAll(ts, soFar) >= soFar
    ensures IsLatest(FilesAll(ts, path, true), soFar, NewestAll(ts, soFar))
  {
    if ts != [] {
      var next := Later(Newest(ts[0]), soFar);
      NewestIsLatest(ts[0], path);
      AllNewestAreLatest(ts[1..], path, next);
      LatestOfBoth(Files(ts[0], path, true), FilesAll(ts[1..], path, true), soFar, Newest(ts[0]), NewestAll(ts, soFar));
    }
  }

  lemma LatestOfBoth(front: seq<Found>, back: seq<Found>, soFar: real, first: real, when: real)
    requires soFar >= 0.0 && when >= Later(first, soFar)
    requires IsLatest(front, 0.0, first) && IsLatest(back, Later(first, soFar), when)
    ensures IsLatest(front + back, soFar, when)
  {
    if when != soFar {
      if when == first {
        var f :| f in front && ReachedAt(f, when);
        assert f in front + back;
      } else {
        var f :| f in back && ReachedAt(f, when);
        assert f in front + back;
      }
    }
  }

  // --- A directory left has a reason ----------------------------------------------------------

  /** A file below, or a directory the disk would not list or let go. */
  predicate HasReason(t: Tree) {
    t.File? || !t.removable || (!t.listable && t.children != []) || SomeReason(t.children)
  }

  predicate SomeReason(ts: seq<Tree>) {
    ts != [] && (HasReason(ts[0]) || SomeReason(ts[1..]))
  }

  /** Every directory a walk reaches has a reason to be there. */
  predicate AllJustified(t: Tree) {
    HasReason(t) && (t.Dir? && t.listable ==> EachJustified(t.children))
  }

  predicate EachJustified(ts: seq<Tree>) {
    ts == [] || (AllJustified(ts[0]) && EachJustified(ts[1..]))
  }

  lemma {:induction false} EachJustifiedConcat(front: seq<Tree>, back: seq<Tree>)
    requires EachJustified(front) && EachJustified(back)
    ensures EachJustified(front + back)
  {
    if front == [] {
      assert front + back == back;
    } else {
      EachJustifiedConcat(front[1..], back);
      assert (front + back)[1..] == front[1..] + back;
    }
  }

  /** No directory is left over empty that could have been taken away. */
  lemma {:induction false} LeftAreJustified(t: Tree, since: real)
    ensures EachJustified(After(t, since))
  {
    if t.Dir? && t.listable {
      AllLeftAreJustified(t.children, since);
    }
    var left := After(t, since);
    if left != [] {
      assert AllJustified(left[0]) && left[1..] == [];
    }
  }

  lemma {:induction false} AllLeftAreJustified(ts: seq<Tree>, since: real)
    ensures EachJustified(AfterAll(ts, since))
    ensures AfterAll(ts, since) != [] ==> SomeReason(AfterAll(ts, since))
  {
    if ts != [] {
      LeftAreJustified(ts[0], since);
      AllLeftAreJustified(ts[1..], since);
      EachJustifiedConcat(After(ts[0], since), AfterAll(ts[1..], since));
    }
  }

  predicate Cooperates(t: Tree) {
    t.File? || (t.listable && t.removable && AllCooperate(t.children))
  }

  predicate AllCooperate(ts: seq<Tree>) {
    ts == [] || (Cooperates(ts[0]) && AllCooperate(ts[1..]))
  }

  predicate HoldsFile(t: Tree) {
    t.File? || SomeHoldsFile(t.children)
  }

  predicate SomeHoldsFile(ts: seq<Tree>) {
    ts != [] && (HoldsFile(ts[0]) || SomeHoldsFile(ts[1..]))
  }

  predicate EveryDirHoldsFile(t: Tree) {
    HoldsFile(t) && (t.Dir? ==> EachDirHoldsFile(t.children))
  }

  predicate EachDirHoldsFile(ts: seq<Tree>) {
    ts == [] || (EveryDirHoldsFile(ts[0]) && EachDirHoldsFile(ts[1..]))
  }

  /** Where the disk lists and lets go of every directory, each directory left still
      holds a file. */
  lemma {:induction false} DirsLeftHoldFiles(t: Tree, since: real)
    requires Cooperates(t)
    ensures EachDirHoldsFile(After(t, since))
  {
    if t.Dir? {
      AllDirsLeftHoldFiles(t.children, since);
    }
    var left := After(t, since);
    if left != [] {
      assert EveryDirHoldsFile(left[0]) && left[1..] == [];
    }
  }

  lemma {:induction false} AllDirsLeftHoldFiles(ts: seq<Tree>, since: real)
    requires AllCooperate(ts)
    ensures EachDirHoldsFile(AfterAll(ts, since))
    ensures AfterAll(ts, since) != [] ==> SomeHoldsFile(AfterAll(ts, since))
  {
    if ts != [] {
      DirsLeftHoldFiles(ts[0], since);
      AllDirsLeftHoldFiles(ts[1..], since);
      EachDirConcat(After(ts[0], since), AfterAll(ts[1..], since));
    }
  }

  lemma {:induction false} EachDirConcat(front: seq<Tree>, back: seq<Tree>)
    requires EachDirHoldsFile(front) && EachDirHoldsFile(back)
    ensures EachDirHoldsFile(front + back)
  {
    if front == [] {
      assert front + back == back;
    } else {
      EachDirConcat(front[1..], back);
      assert (front + back)[1..] == front[1..] + back;
    }
  }

  // --- Once is enough -------------------------------------------------------------------------

  lemma {:induction false} AfterConcat(front: seq<Tree>, back: seq<Tree>, since: real)
    ensures AfterAll(front + back, since) == AfterAll(front, since) + AfterAll(back, since)
  {
    if front == [] {
      assert front + back == back;
    } else {
      AfterConcat(front[1..], back, since);
      assert (front + back)[1..] == front[1..] + back && (front + back)[0] == front[0];
      Associates(After(front[0], since), AfterAll(front[1..], since), AfterAll(back, since));
    }
  }

  /** Removing again under the same cutoff changes nothing and frees nothing. */
  lemma {:induction false} OnceIsEnough(t: Tree, since: real)
    ensures AfterAll(After(t, since), since) == After(t, since)
    ensures FreedAll(After(t, since), since) == 0
  {
    if t.Dir? && t.listable {
      AllOnceIsEnough(t.children, since);
    }
    assert After(t, since) != [] ==> After(t, since)[1..] == [];
    AllBytesConserved(After(t, since), since);
  }

  lemma {:induction false} AllOnceIsEnough(ts: seq<Tree>, since: real)
    ensures AfterAll(AfterAll(ts, since), since) == AfterAll(ts, since)
  {
    if ts != [] {
      OnceIsEnough(ts[0], since);
      AllOnceIsEnough(ts[1..], since);
      AfterConcat(After(ts[0], since), AfterAll(ts[1..], since), since);
    }
  }

  // --- The walks ------------------------------------------------------------------------------

  method StatTree(t: Tree) returns (bytes: nat, newest: real)
    ensures bytes == Bytes(t) && newest == Newest(t)
    decreases t
  {
    if t.File? {
      return t.size, t.written;
    }
    bytes, newest := 0, 0.0;
    if !t.listable {
      return;
    }
    for i := 0 to |t.children|
      invariant bytes + BytesAll(t.children[i..]) == BytesAll(t.children)
      invariant NewestAll(t.children[i..], newest) == NewestAll(t.children, 0.0)
    {
      var entry := t.children[i];
      assert t.children[i..][0] == entry && t.children[i..][1..] == t.children[i + 1..];
      if entry.Dir? {
        var childBytes, childNewest := StatTree(entry);
        bytes := bytes + childBytes;
        if childNewest > newest {
          newest := childNewest;
        }
        continue;
      }
      bytes := bytes + entry.size;
      if entry.written > newest {
        newest := entry.written;
      }
    }
  }

  method RemoveFileIfNewer(file: Tree, since: real) returns (left: seq<Tree>, freed: nat)
    requires file.File?
    ensures left == After(file, since) && freed == Freed(file, since)
  {
    if since > 0.0 && file.written < since {
      return [file], 0;
    }
    var cleared := if file.readOnly then file.(readOnly := false) else file;
    if !file.deletable {
      return [cleared], 0;
    }
    return [], file.size;
  }

  method RemoveTree(t: Tree, since: real) returns (left: seq<Tree>, freed: nat)
    ensures left == After(t, since) && freed == Freed(t, since)
    decreases t
  {
    if t.File? {
      left, freed := RemoveFileIfNewer(t, since);
      return;
    }
    freed := 0;
    var kept, emptied := t.children, true;
    if t.listable {
      kept, freed, emptied := RemoveChildren(t.children, since);
    }
    // The system refuses to remove a directory that is not empty.
    if emptied && kept == [] && t.removable {
      left := [];
    } else {
      left := [t.(children := kept)];
    }
  }

  method RemoveChildren(children: seq<Tree>, since: real) returns (kept: seq<Tree>, freed: nat, emptied: bool)
    ensures kept == AfterAll(children, since) && freed == FreedAll(children, since)
    ensures emptied <==> kept == []
    decreases children
  {
    kept, freed, emptied := [], 0, true;
    for i := 0 to |children|
      invariant kept + AfterAll(children[i..], since) == AfterAll(children, since)
      invariant freed + FreedAll(children[i..], since) == FreedAll(children, since)
      invariant emptied <==> kept == []
    {
      var entry := children[i];
      assert children[i..][0] == entry && children[i..][1..] == children[i + 1..];
      var child, removed;
      if entry.Dir? {
        child, removed := RemoveTree(entry, since);
        if child != [] {
          emptied := false;
        }
      } else {
        child, removed := RemoveFileIfNewer(entry, since);
        if removed == 0 && child != [] {
          emptied := false;
        }
      }
      Associates(kept, child, AfterAll(children[i + 1..], since));
      freed := freed + removed;
      kept := kept + child;
    }
    assert children[|children|..] == [] && kept + [] == kept;
  }
}
