/** The session file's own code: bytes appended to a growing list, and a cursor moved
    over the bytes of the file. */
module SessionFile {
  import opened Session

  /** A tab as the registry publishes it. */
  datatype Tab = Tab(id: int, hidden: bool, url: Bytes, title: Bytes, pinned: bool)

  // --- What is written ---------------------------------------------------------------------

  /** A private tab is never written. */
  predicate IsWritten(tab: Tab) {
    tab.id > 0 && !tab.hidden
  }

  function EntryOf(tab: Tab, captured: map<int, Bytes>): Entry {
    Entry(tab.url, tab.title, tab.pinned, if tab.id in captured then captured[tab.id] else [])
  }

  function Public(tabs: seq<Tab>): seq<Tab> {
    if tabs == [] then []
    else Public(tabs[..|tabs| - 1]) + (if IsWritten(tabs[|tabs| - 1]) then [tabs[|tabs| - 1]] else [])
  }

  function EntriesOf(tabs: seq<Tab>, captured: map<int, Bytes>): (entries: seq<Entry>)
    ensures |entries| == |tabs|
    ensures forall i :: 0 <= i < |tabs| ==> entries[i] == EntryOf(tabs[i], captured)
  {
    if tabs == [] then [] else [EntryOf(tabs[0], captured)] + EntriesOf(tabs[1..], captured)
  }

  function PlaceOf(tabs: seq<Tab>, id: int): (at: int)
    ensures -1 <= at < |tabs|
    ensures at >= 0 ==> tabs[at].id == id
    ensures at < 0 ==> forall t <- tabs :: t.id != id
  {
    if tabs == [] then -1
    else if tabs[|tabs| - 1].id == id then |tabs| - 1
    else PlaceOf(tabs[..|tabs| - 1], id)
  }

  lemma {:induction false} PublicIs(tabs: seq<Tab>)
    ensures forall t :: t in Public(tabs) <==> t in tabs && IsWritten(t)
  {
    if tabs != [] {
      PublicIs(tabs[..|tabs| - 1]);
      assert tabs == tabs[..|tabs| - 1] + [tabs[|tabs| - 1]];
    }
  }

  /** A restart gives back those of the tabs that are not private that have an address,
      in order, each with its pin and captured history; all of them, and the active one
      active, exactly when every one has. */
  lemma RestartRestores(tabs: seq<Tab>, activeId: int, captured: map<int, Bytes>)
    requires |Public(tabs)| < TWO_32 / 2
    requires forall t <- Public(tabs) :: Fits(EntryOf(t, captured))
    ensures var (entries, active) := (EntriesOf(Public(tabs), captured), PlaceOf(Public(tabs), activeId));
            var restored := Load(Encode(entries, active));
            && restored == Kept(Named(entries), active)
            && (restored == Restored(entries, active) <==> forall t <- Public(tabs) :: t.url != [])
    ensures forall t <- Public(tabs) :: t in tabs && !t.hidden
  {
    var entries := EntriesOf(Public(tabs), captured);
    PublicIs(tabs);
    forall e <- entries
      ensures Fits(e)
    {
      var i :| 0 <= i < |entries| && entries[i] == e;
      assert Public(tabs)[i] in Public(tabs);
    }
    var active := PlaceOf(Public(tabs), activeId);
    LoadUndoesEncode(entries, active, []);
    assert Encode(entries, active) + [] == Encode(entries, active);
    NamedAll(entries);
    AddressesOf(Public(tabs), captured);
  }

  lemma {:induction false} AddressesOf(tabs: seq<Tab>, captured: map<int, Bytes>)
    ensures (forall e <- EntriesOf(tabs, captured) :: e.url != []) <==> forall t <- tabs :: t.url != []
  {
    var entries := EntriesOf(tabs, captured);
    assert forall i :: 0 <= i < |tabs| ==> entries[i] in entries && tabs[i] in tabs && entries[i].url == tabs[i].url;
  }

  // --- Writing ---------------------------------------------------------------------------

  method AppendU32(bytes: Bytes, value: int) returns (more: Bytes)
    requires 0 <= value < TWO_32
    ensures more == bytes + U32(value)
  {
    assert value / 16777216 < 256;
    more := bytes + [value % 256];
    more := more + [value / 256 % 256];
    more := more + [value / 65536 % 256];
    more := more + [value / 16777216];
  }

  method AppendBytes(bytes: Bytes, block: Bytes) returns (more: Bytes)
    ensures more == bytes + Block(block)
  {
    more := AppendU32(bytes, |block| % TWO_32);
    more := more + block;
  }

  /** Chooses the tabs to write and where the active one is among them. */
  method ChooseTabs(tabs: seq<Tab>, activeId: int) returns (chosen: seq<Tab>, active: int)
    ensures chosen == Public(tabs) && active == PlaceOf(chosen, activeId)
  {
    chosen, active := [], -1;
    assert tabs[..0] == [];
    for i := 0 to |tabs|
      invariant chosen == Public(tabs[..i]) && active == PlaceOf(chosen, activeId)
    {
      assert tabs[..i + 1][..i] == tabs[..i];
      if tabs[i].id <= 0 || tabs[i].hidden {
        continue;
      }
      if tabs[i].id == activeId {
        active := |chosen|;
      }
      assert (chosen + [tabs[i]])[..|chosen|] == chosen;
      chosen := chosen + [tabs[i]];
    }
    assert tabs[..|tabs|] == tabs;
  }

  method AppendEntry(bytes: Bytes, entry: Entry) returns (more: Bytes)
    ensures more == bytes + EncodeEntry(entry)
  {
    more := AppendBytes(bytes, entry.url);
    more := AppendBytes(more, entry.title);
    more := more + [if entry.pinned then 1 else 0];
    more := AppendBytes(more, entry.state);
  }

  method AppendHeader(count: nat, active: int) returns (bytes: Bytes)
    ensures bytes == Header(count, active)
  {
    bytes := AppendU32(MAGIC, VERSION);
    bytes := AppendU32(bytes, count % TWO_32);
    bytes := AppendU32(bytes, active % TWO_32);
  }

  method AppendTabs(bytes: Bytes, tabs: seq<Tab>, captured: map<int, Bytes>) returns (more: Bytes)
    ensures more == bytes + EncodeEntries(EntriesOf(tabs, captured))
  {
    ghost var entries := EntriesOf(tabs, captured);
    more := bytes;
    assert entries[0..] == entries;
    for i := 0 to |tabs|
      invariant more + EncodeEntries(entries[i..]) == bytes + EncodeEntries(entries)
    {
      EntriesFrom(entries, i);
      more := AppendTab(more, tabs[i], captured, EncodeEntries(entries[i + 1..]));
    }
    assert entries[|tabs|..] == [];
  }

  method AppendTab(bytes: Bytes, tab: Tab, captured: map<int, Bytes>, ghost rest: Bytes) returns (more: Bytes)
    ensures more + rest == bytes + (EncodeEntry(EntryOf(tab, captured)) + rest)
  {
    var state := if tab.id in captured then captured[tab.id] else [];
    more := AppendEntry(bytes, Entry(tab.url, tab.title, tab.pinned, state));
  }

  method EncodeSession(tabs: seq<Tab>, activeId: int, captured: map<int, Bytes>) returns (bytes: Bytes)
    ensures bytes == Encode(EntriesOf(Public(tabs), captured), PlaceOf(Public(tabs), activeId))
  {
    var chosen, active := ChooseTabs(tabs, activeId);
    bytes := AppendHeader(|chosen|, active);
    bytes := AppendTabs(bytes, chosen, captured);
  }

  lemma EntriesFrom(entries: seq<Entry>, i: nat)
    requires i < |entries|
    ensures EncodeEntries(entries[i..]) == EncodeEntry(entries[i]) + EncodeEntries(entries[i + 1..])
  {
    assert entries[i..][1..] == entries[i + 1..];
    assert EncodeEach(entries[i..])[1..] == EncodeEach(entries[i + 1..]);
  }

  // --- Reading ---------------------------------------------------------------------------

  method ReadWord(bytes: Bytes, at: nat) returns (ok: bool, value: int, next: nat)
    ensures ok <==> ReadU32(bytes, at).GotWord?
    ensures ok ==> ReadU32(bytes, at) == GotWord(value) && next == at + 4 && 0 <= value < TWO_32
  {
    if at + 4 > |bytes| {
      return false, 0, at;
    }
    value := bytes[at];
    value := value + 256 * bytes[at + 1] as int;
    value := value + 65536 * bytes[at + 2] as int;
    value := value + 16777216 * bytes[at + 3] as int;
    FourBytes(bytes[at..at + 4]);
    return true, value, at + 4;
  }

  method ReadBytes(bytes: Bytes, at: nat) returns (ok: bool, block: Bytes, next: nat)
    ensures ok <==> ReadBlock(bytes, at).GotBlock?
    ensures ok ==> ReadBlock(bytes, at) == GotBlock(block, next)
  {
    block := [];
    var size;
    ok, size, next := ReadWord(bytes, at);
    if !ok {
      return;
    }
    if next + size > |bytes| {
      ok := false;
      return;
    }
    block := bytes[next..next + size];
    next := next + size;
  }

  method ReadOne(bytes: Bytes, at: nat) returns (ok: bool, entry: Entry, next: nat)
    ensures ok <==> ReadEntry(bytes, at).GotEntry?
    ensures ok ==> ReadEntry(bytes, at) == GotEntry(entry, next)
  {
    entry := Entry([], [], false, []);
    var url, title, state;
    ok, url, next := ReadBytes(bytes, at);
    if !ok {
      return;
    }
    ok, title, next := ReadBytes(bytes, next);
    if !ok {
      return;
    }
    if next >= |bytes| {
      ok := false;
      return;
    }
    var pinned := bytes[next] != 0;
    ok, state, next := ReadBytes(bytes, next + 1);
    if ok {
      entry := Entry(url, title, pinned, state);
    }
  }

  method SessionLoad(bytes: Bytes) returns (restored: Restored)
    ensures restored == Load(bytes)
  {
    if |bytes| < |MAGIC| + 12 || bytes[..8] != MAGIC {
      return NOTHING;
    }
    var version, count, active, ok;
    var at: nat := 8;
    ok, version, at := ReadWord(bytes, at);
    if !ok || version != VERSION {
      return NOTHING;
    }
    ok, count, at := ReadWord(bytes, at);
    ok, active, at := ReadWord(bytes, at);
    var entries;
    ok, entries := ReadKept(bytes, at, count);
    if !ok {
      return NOTHING;
    }
    active := if active >= TWO_32 / 2 then active - TWO_32 else active;
    return Restored(entries, if active >= |entries| then -1 else active);
  }

  /** What is kept so far and still to be read comes to the same as before. */
  predicate ComesTo(kept: seq<Entry>, rest: EntriesRead,
                    keptBefore: seq<Entry>, restBefore: EntriesRead) {
    && (rest.GotEntries? <==> restBefore.GotEntries?)
    && (rest.GotEntries? ==> kept + rest.entries == keptBefore + restBefore.entries)
  }

  method ReadKept(bytes: Bytes, start: nat, count: nat) returns (ok: bool, entries: seq<Entry>)
    ensures ok <==> ReadEntries(EntryReader(bytes), start, count).GotEntries?
    ensures ok ==> ReadEntries(EntryReader(bytes), start, count).entries == entries
  {
    ghost var read := EntryReader(bytes);
    entries := [];
    var at := start;
    for i := 0 to count
      invariant ComesTo(entries, ReadEntries(read, at, count - i), [], ReadEntries(read, start, count))
    {
      ok, entries, at := ReadNext(bytes, at, entries, count - i - 1);
      if !ok {
        return;
      }
    }
    ok := true;
    assert entries + [] == entries;
    assert ReadEntries(read, start, count).GotEntries? ==>
             [] + ReadEntries(read, start, count).entries == ReadEntries(read, start, count).entries;
  }

  lemma ReadsOneMore(read: Reader, at: nat, kept: seq<Entry>, left: nat)
    ensures read(at).NoEntry? ==> ReadEntries(read, at, left + 1).NoEntries?
    ensures read(at).GotEntry? ==>
              ComesTo(if read(at).entry.url == [] then kept else kept + [read(at).entry],
                      ReadEntries(read, read(at).next, left), kept, ReadEntries(read, at, left + 1))
  {
  }

  method ReadNext(bytes: Bytes, at: nat, kept: seq<Entry>, ghost left: nat)
    returns (ok: bool, more: seq<Entry>, next: nat)
    ensures !ok ==> ReadEntries(EntryReader(bytes), at, left + 1).NoEntries?
    ensures ok ==> ComesTo(more, ReadEntries(EntryReader(bytes), next, left),
                           kept, ReadEntries(EntryReader(bytes), at, left + 1))
  {
    more := kept;
    var entry;
    ok, entry, next := ReadOne(bytes, at);
    ReadsOneMore(EntryReader(bytes), at, kept, left);
    if ok && entry.url != [] {
      more := more + [entry];
    }
  }
}
