/** The session file: the open tabs and their history as bytes, and back. */
module Session {

  type Byte = b: int | 0 <= b < 256 witness 0

  type Bytes = seq<Byte>

  /** One tab as the file keeps it: its address, title, pin and history. */
  datatype Entry = Entry(url: Bytes, title: Bytes, pinned: bool, state: Bytes)

  /** What loading leaves for the browser to reopen. */
  datatype Restored = Restored(entries: seq<Entry>, active: int)

  const NOTHING := Restored([], -1)

  const MAGIC: Bytes := [72, 66, 83, 69, 83, 83, 78, 0]
  const VERSION := 1
  const TWO_32 := 0x1_0000_0000

  // --- Writing ---------------------------------------------------------------------------

  /** Four bytes, the lowest first. */
  function U32(value: int): (bytes: Bytes)
    requires 0 <= value < TWO_32
    ensures |bytes| == 4
  {
    [value % 256, value / 256 % 256, value / 65536 % 256, value / 16777216]
  }

  /** A size, cut to 32 bits, and the bytes themselves. */
  function Block(bytes: Bytes): (block: Bytes)
    ensures |block| == 4 + |bytes|
  {
    U32(|bytes| % TWO_32) + bytes
  }

  function EncodeEntry(entry: Entry): Bytes {
    Block(entry.url) + (Block(entry.title) + ([if entry.pinned then 1 else 0] + Block(entry.state)))
  }

  function EncodeEach(entries: seq<Entry>): (parts: seq<Bytes>)
    ensures |parts| == |entries|
  {
    if entries == [] then [] else [EncodeEntry(entries[0])] + EncodeEach(entries[1..])
  }

  function Flat(parts: seq<Bytes>): Bytes {
    if parts == [] then [] else parts[0] + Flat(parts[1..])
  }

  function EncodeEntries(entries: seq<Entry>): Bytes {
    Flat(EncodeEach(entries))
  }

  function Header(count: int, active: int): (header: Bytes)
    ensures |header| == 20
  {
    MAGIC + (U32(VERSION) + (U32(count % TWO_32) + U32(active % TWO_32)))
  }

  function Encode(entries: seq<Entry>, active: int): Bytes {
    Header(|entries|, active) + EncodeEntries(entries)
  }

  // --- Reading ---------------------------------------------------------------------------

  /** The number some bytes spell, the lowest byte first. */
  function FromBytes(bytes: Bytes): nat {
    if bytes == [] then 0 else bytes[0] + 256 * FromBytes(bytes[1..])
  }

  lemma FourBytes(bytes: Bytes)
    requires |bytes| == 4
    ensures FromBytes(bytes) ==
        bytes[0] + 256 * (bytes[1] as int) + 65536 * (bytes[2] as int) + 16777216 * (bytes[3] as int)
    ensures FromBytes(bytes) < TWO_32
  {
    assert bytes[1..][1..] == bytes[2..] && bytes[2..][1..] == bytes[3..] && bytes[3..][1..] == [];
    assert FromBytes(bytes[2..]) == bytes[2] + 256 * FromBytes(bytes[3..]);
    assert FromBytes(bytes[3..]) == bytes[3] + 256 * FromBytes([]);
  }

  // What is found at a position, and the position after it.
  datatype WordRead = NoWord | GotWord(word: int)
  datatype BlockRead = NoBlock | GotBlock(block: Bytes, next: nat)
  datatype EntryRead = NoEntry | GotEntry(entry: Entry, next: nat)
  datatype EntriesRead = NoEntries | GotEntries(entries: seq<Entry>, next: nat)

  function ReadU32(bytes: Bytes, at: nat): (read: WordRead)
    ensures read.GotWord? ==> at + 4 <= |bytes| && 0 <= read.word < TWO_32
  {
    if at + 4 > |bytes| then NoWord
    else
      FourBytes(bytes[at..at + 4]);
      GotWord(FromBytes(bytes[at..at + 4]))
  }

  function ReadBlock(bytes: Bytes, at: nat): (read: BlockRead)
    ensures read.GotBlock? ==> at + 4 <= read.next <= |bytes|
  {
    var size := ReadU32(bytes, at);
    if size.NoWord? || at + 4 + size.word > |bytes| then NoBlock
    else GotBlock(bytes[at + 4..at + 4 + size.word], at + 4 + size.word)
  }

  function ReadEntry(bytes: Bytes, at: nat): (read: EntryRead)
    ensures read.GotEntry? ==> at < read.next <= |bytes|
  {
    var url := ReadBlock(bytes, at);
    if url.NoBlock? then NoEntry
    else
      var title := ReadBlock(bytes, url.next);
      if title.NoBlock? || title.next >= |bytes| then NoEntry
      else
        var state := ReadBlock(bytes, title.next + 1);
        if state.NoBlock? then NoEntry
        else GotEntry(Entry(url.block, title.block, bytes[title.next] != 0, state.block), state.next)
  }

  /** What reads the entry at a position. */
  type Reader = nat -> EntryRead

  function EntryReader(bytes: Bytes): Reader {
    (at: nat) => ReadEntry(bytes, at)
  }

  /** Reads so many entries, keeping those with an address. */
  function ReadEntries(read: Reader, at: nat, count: nat): EntriesRead
    decreases count
  {
    if count == 0 then GotEntries([], at)
    else
      var first := read(at);
      if first.NoEntry? then NoEntries
      else
        var rest := ReadEntries(read, first.next, count - 1);
        if rest.NoEntries? then NoEntries
        else GotEntries((if first.entry.url == [] then [] else [first.entry]) + rest.entries, rest.next)
  }

  function Signed(value: int): int {
    if value >= TWO_32 / 2 then value - TWO_32 else value
  }

  predicate HeaderFits(bytes: Bytes) {
    && |bytes| >= 20 && bytes[..8] == MAGIC && ReadU32(bytes, 8) == GotWord(VERSION)
  }

  function Load(bytes: Bytes): Restored {
    if !HeaderFits(bytes) then NOTHING
    else LoadAfter(EntryReader(bytes), ReadU32(bytes, 12).word, ReadU32(bytes, 16).word)
  }

  function LoadAfter(read: Reader, count: nat, active: int): Restored {
    var entries := ReadEntries(read, 20, count);
    if entries.NoEntries? then NOTHING else Kept(entries.entries, Signed(active))
  }

  function Kept(entries: seq<Entry>, active: int): Restored {
    Restored(entries, if active >= |entries| then -1 else active)
  }

  // --- Reading what was written -----------------------------------------------------------

  predicate Fits(entry: Entry) {
    |entry.url| < TWO_32 && |entry.title| < TWO_32 && |entry.state| < TWO_32
  }

  /** The entries a load keeps. */
  function Named(entries: seq<Entry>): seq<Entry> {
    if entries == [] then []
    else (if entries[0].url == [] then [] else [entries[0]]) + Named(entries[1..])
  }

  /** The bytes from a position on start with some others. */
  ghost predicate At(bytes: Bytes, at: nat, part: Bytes) {
    at + |part| <= |bytes| && bytes[at..at + |part|] == part
  }

  lemma AtSplit(bytes: Bytes, at: nat, front: Bytes, back: Bytes)
    requires At(bytes, at, front + back)
    ensures At(bytes, at, front) && At(bytes, at + |front|, back)
  {
    var both := bytes[at..at + |front + back|];
    assert both[..|front|] == bytes[at..at + |front|];
    assert both[|front|..] == bytes[at + |front|..at + |front| + |back|];
  }

  lemma U32Undone(value: int)
    requires 0 <= value < TWO_32
    ensures FromBytes(U32(value)) == value
  {
    FourBytes(U32(value));
    assert value / 65536 == value / 256 / 256;
    assert value / 16777216 == value / 65536 / 256;
  }

  lemma ReadsU32(bytes: Bytes, at: nat, value: int)
    requires 0 <= value < TWO_32 && At(bytes, at, U32(value))
    ensures ReadU32(bytes, at) == GotWord(value)
  {
    U32Undone(value);
  }

  lemma ReadsBlock(bytes: Bytes, at: nat, block: Bytes)
    requires |block| < TWO_32 && At(bytes, at, Block(block))
    ensures ReadBlock(bytes, at) == GotBlock(block, at + |Block(block)|)
  {
    AtSplit(bytes, at, U32(|block|), block);
    ReadsU32(bytes, at, |block|);
    assert bytes[at + 4..at + 4 + |block|] == block;
  }

  /** Where the parts of an entry are. */
  lemma EntryParts(bytes: Bytes, at: nat, entry: Entry)
    requires At(bytes, at, EncodeEntry(entry))
    ensures At(bytes, at, Block(entry.url))
    ensures var at1 := at + |Block(entry.url)|;
            && At(bytes, at1, Block(entry.title))
            && var at2 := at1 + |Block(entry.title)|;
               && at2 < |bytes| && (bytes[at2] != 0 <==> entry.pinned)
               && At(bytes, at2 + 1, Block(entry.state))
  {
    var pin: Bytes := [if entry.pinned then 1 else 0];
    var url, title, state := Block(entry.url), Block(entry.title), Block(entry.state);
    AtSplit(bytes, at, url, title + (pin + state));
    AtSplit(bytes, at + |url|, title, pin + state);
    AtSplit(bytes, at + |url| + |title|, pin, state);
    assert bytes[at + |url| + |title|] == pin[0];
  }

  lemma EntryIs(bytes: Bytes, at: nat, entry: Entry, at1: nat, at2: nat, end: nat)
    requires ReadBlock(bytes, at) == GotBlock(entry.url, at1) && ReadBlock(bytes, at1) == GotBlock(entry.title, at2)
    requires at2 < |bytes| && (bytes[at2] != 0 <==> entry.pinned)
    requires ReadBlock(bytes, at2 + 1) == GotBlock(entry.state, end)
    ensures ReadEntry(bytes, at) == GotEntry(entry, end)
  {
  }

  lemma ReadsEntry(bytes: Bytes, at: nat, entry: Entry)
    requires Fits(entry) && At(bytes, at, EncodeEntry(entry))
    ensures ReadEntry(bytes, at) == GotEntry(entry, at + |EncodeEntry(entry)|)
  {
    EntryParts(bytes, at, entry);
    var at1 := at + |Block(entry.url)|;
    var at2 := at1 + |Block(entry.title)|;
    ReadsBlock(bytes, at, entry.url);
    ReadsBlock(bytes, at1, entry.title);
    ReadsBlock(bytes, at2 + 1, entry.state);
    EntryIs(bytes, at, entry, at1, at2, at2 + 1 + |Block(entry.state)|);
  }

  /** Some entries, one after the other, up to a position. */
  ghost predicate Parses(read: Reader, at: nat, entries: seq<Entry>, end: nat)
    decreases |entries|
  {
    if entries == [] then at == end
    else
      var first := read(at);
      first.GotEntry? && first.entry == entries[0] && Parses(read, first.next, entries[1..], end)
  }

  lemma {:induction false} ParsedIsRead(read: Reader, at: nat, entries: seq<Entry>, end: nat)
    requires Parses(read, at, entries, end)
    ensures ReadEntries(read, at, |entries|) == GotEntries(Named(entries), end)
    decreases |entries|
  {
    if entries != [] {
      ParsedIsRead(read, read(at).next, entries[1..], end);
      assert |entries[1..]| == |entries| - 1;
    }
  }

  /** Wherever some bytes are, an entry is read from them, and all of them. */
  ghost predicate ReadsAs(read: Reader, bytes: Bytes, part: Bytes, entry: Entry) {
    forall at: nat :: At(bytes, at, part) ==> read(at) == GotEntry(entry, at + |part|)
  }

  lemma {:induction false} PartsParse(read: Reader, bytes: Bytes, at: nat, parts: seq<Bytes>, entries: seq<Entry>)
    requires |parts| == |entries| && forall i :: 0 <= i < |parts| ==> ReadsAs(read, bytes, parts[i], entries[i])
    requires At(bytes, at, Flat(parts))
    ensures Parses(read, at, entries, at + |Flat(parts)|)
    decreases |entries|
  {
    if entries != [] {
      AtSplit(bytes, at, parts[0], Flat(parts[1..]));
      assert ReadsAs(read, bytes, parts[0], entries[0]);
      PartsParse(read, bytes, at + |parts[0]|, parts[1..], entries[1..]);
    }
  }

  lemma {:induction false} EachReads(bytes: Bytes, entries: seq<Entry>)
    requires forall e <- entries :: Fits(e)
    ensures forall i :: 0 <= i < |entries| ==> ReadsAs(EntryReader(bytes), bytes, EncodeEach(entries)[i], entries[i])
  {
    if entries != [] {
      var first := entries[0];
      assert first in entries;
      forall at: nat | At(bytes, at, EncodeEntry(first))
        ensures ReadEntry(bytes, at) == GotEntry(first, at + |EncodeEntry(first)|)
      {
        ReadsEntry(bytes, at, first);
      }
      EachReads(bytes, entries[1..]);
    }
  }

  lemma HeaderParts(bytes: Bytes, version: Bytes, count: Bytes, active: Bytes)
    requires |version| == 4 && |count| == 4 && At(bytes, 0, MAGIC + (version + (count + active)))
    ensures At(bytes, 0, MAGIC) && At(bytes, 8, version) && At(bytes, 12, count) && At(bytes, 16, active)
  {
    AtSplit(bytes, 0, MAGIC, version + (count + active));
    AtSplit(bytes, 8, version, count + active);
    AtSplit(bytes, 12, count, active);
  }

  lemma ReadsHeader(bytes: Bytes, count: int, active: int)
    requires 0 <= count < TWO_32 && At(bytes, 0, Header(count, active))
    ensures HeaderFits(bytes) && ReadU32(bytes, 12) == GotWord(count) && ReadU32(bytes, 16) == GotWord(active % TWO_32)
  {
    HeaderParts(bytes, U32(VERSION), U32(count), U32(active % TWO_32));
    ReadsU32(bytes, 8, VERSION);
    ReadsU32(bytes, 12, count);
    ReadsU32(bytes, 16, active % TWO_32);
  }

  lemma EncodeAtStart(entries: seq<Entry>, active: int, tail: Bytes)
    ensures var bytes := Encode(entries, active) + tail;
            At(bytes, 0, Header(|entries|, active)) && At(bytes, 20, EncodeEntries(entries))
  {
    var bytes := Encode(entries, active) + tail;
    assert bytes[0..0 + |Encode(entries, active)|] == Encode(entries, active);
    AtSplit(bytes, 0, Header(|entries|, active), EncodeEntries(entries));
  }

  lemma LoadIs(read: Reader, count: int, active: int, kept: seq<Entry>, end: nat)
    requires 0 <= count < TWO_32 / 2 && -1 <= active < count && ReadEntries(read, 20, count) == GotEntries(kept, end)
    ensures LoadAfter(read, count, active % TWO_32) == Kept(kept, active)
  {
    assert Signed(active % TWO_32) == active;
  }

  lemma LoadsAny(bytes: Bytes, entries: seq<Entry>, active: int)
    requires HeaderFits(bytes) && ReadU32(bytes, 12) == GotWord(|entries|) &&
        ReadU32(bytes, 16) == GotWord(active % TWO_32)
    requires |entries| < TWO_32 / 2 && -1 <= active < |entries|
    requires (forall e <- entries :: Fits(e)) && At(bytes, 20, EncodeEntries(entries))
    ensures Load(bytes) == Kept(Named(entries), active)
    ensures ReadEntries(EntryReader(bytes), 20, |entries|) == GotEntries(Named(entries), 20 + |EncodeEntries(entries)|)
  {
    EachReads(bytes, entries);
    PartsParse(EntryReader(bytes), bytes, 20, EncodeEach(entries), entries);
    ParsedIsRead(EntryReader(bytes), 20, entries, 20 + |EncodeEntries(entries)|);
    LoadIs(EntryReader(bytes), |entries|, active, Named(entries), 20 + |EncodeEntries(entries)|);
  }

  lemma LoadsHeaded(entries: seq<Entry>, active: int, tail: Bytes)
    requires |entries| < TWO_32 / 2 && -1 <= active < |entries| && forall e <- entries :: Fits(e)
    ensures var bytes := Encode(entries, active) + tail;
            && Load(bytes) == Kept(Named(entries), active)
            && ReadEntries(EntryReader(bytes), 20, |entries|) == GotEntries(Named(entries), |Encode(entries, active)|)
  {
    var bytes := Encode(entries, active) + tail;
    EncodeAtStart(entries, active, tail);
    ReadsHeader(bytes, |entries|, active);
    LoadsAny(bytes, entries, active);
  }

  /** A session read back: every entry with an address, in order, whatever follows it in
      the file; the place of the active tab is read back as it was written. */
  lemma LoadUndoesEncode(entries: seq<Entry>, active: int, tail: Bytes)
    requires |entries| < TWO_32 / 2 && -1 <= active < |entries| && forall e <- entries :: Fits(e)
    ensures Load(Encode(entries, active) + tail)
         == Kept(Named(entries), active)
    ensures (forall e <- entries :: e.url != []) ==> Load(Encode(entries, active) + tail) == Restored(entries, active)
  {
    LoadsHeaded(entries, active, tail);
    if forall e <- entries :: e.url != [] {
      NamedAll(entries);
    }
  }

  lemma {:induction false} NamedAll(entries: seq<Entry>)
    ensures |Named(entries)| <= |entries|
    ensures Named(entries) == entries <==> forall e <- entries :: e.url != []
    ensures |Named(entries)| == |entries| ==> Named(entries) == entries
  {
    if entries != [] {
      NamedAll(entries[1..]);
      assert entries == [entries[0]] + entries[1..];
    }
  }

  lemma {:induction false} NamedConcat(front: seq<Entry>, back: seq<Entry>)
    ensures Named(front + back) == Named(front) + Named(back)
  {
    if front == [] {
      assert front + back == back;
    } else {
      NamedConcat(front[1..], back);
      assert (front + back)[1..] == front[1..] + back && (front + back)[0] == front[0];
      var head := if front[0].url == [] then [] else [front[0]];
      assert head + (Named(front[1..]) + Named(back)) == (head + Named(front[1..])) + Named(back);
    }
  }

  /** Dropped entries shift the list but not the active index, so the active tab is
      the same tab afterwards exactly when neither it nor any entry before it was
      dropped. */
  lemma ActiveFollows(entries: seq<Entry>, active: nat)
    requires |entries| < TWO_32 / 2 && active < |entries| && forall e <- entries :: Fits(e)
    ensures var restored := Load(Encode(entries, active));
            var place := |Named(entries[..active])|;
            && (entries[active].url != [] ==> place < |restored.entries| && restored.entries[place] == entries[active])
            && (entries[active].url != [] && restored.active == place <==>
                  entries[active].url != [] && forall e <- entries[..active] :: e.url != [])
  {
    var front, back := entries[..active], entries[active..];
    assert Encode(entries, active) + [] == Encode(entries, active);
    LoadsHeaded(entries, active, []);
    assert entries == front + back;
    NamedConcat(front, back);
    assert back[0] == entries[active];
    NamedAll(front);
  }

  /** [an entry without address, a, b] with a active comes back with b active. */
  lemma WrongTabActive()
    ensures var entries := [Entry([], [], false, []), Entry([97], [], false, []), Entry([98], [], false, [])];
            Load(Encode(entries, 1)) == Restored([Entry([97], [], false, []), Entry([98], [], false, [])], 1)
  {
    var entries := [Entry([], [], false, []), Entry([97], [], false, []), Entry([98], [], false, [])];
    assert Encode(entries, 1) + [] == Encode(entries, 1);
    LoadsHeaded(entries, 1, []);
    assert entries[1..] == [entries[1], entries[2]] && entries[1..][1..] == [entries[2]];
    assert entries[1..][1..][1..] == [];
  }

  // --- A file cut short ------------------------------------------------------------------

  /** What can be read from the start of a file is what the whole file says there. */
  lemma U32Extends(bytes: Bytes, more: Bytes, at: nat)
    ensures ReadU32(bytes, at).GotWord? ==> ReadU32(bytes + more, at) == ReadU32(bytes, at)
  {
    assert at + 4 <= |bytes| ==> (bytes + more)[at..at + 4] == bytes[at..at + 4];
  }

  lemma BlockExtends(bytes: Bytes, more: Bytes, at: nat)
    ensures ReadBlock(bytes, at).GotBlock? ==> ReadBlock(bytes + more, at) == ReadBlock(bytes, at)
  {
    U32Extends(bytes, more, at);
    if ReadBlock(bytes, at).GotBlock? {
      var end := ReadBlock(bytes, at).next;
      assert (bytes + more)[at + 4..end] == bytes[at + 4..end];
    }
  }

  lemma EntryExtends(bytes: Bytes, more: Bytes, at: nat)
    ensures ReadEntry(bytes, at).GotEntry? ==> ReadEntry(bytes + more, at) == ReadEntry(bytes, at)
  {
    BlockExtends(bytes, more, at);
    if ReadEntry(bytes, at).GotEntry? {
      var url := ReadBlock(bytes, at);
      BlockExtends(bytes, more, url.next);
      BlockExtends(bytes, more, ReadBlock(bytes, url.next).next + 1);
    }
  }

  /** Entries read within a limit are read alike by whoever reads each of them alike. */
  lemma {:induction false} EntriesAgree(read: Reader, other: Reader, limit: nat, at: nat, count: nat)
    requires forall a: nat :: read(a).GotEntry? ==> other(a) == read(a) && read(a).next <= limit
    requires at <= limit && ReadEntries(read, at, count).GotEntries?
    ensures ReadEntries(other, at, count) == ReadEntries(read, at, count)
    ensures ReadEntries(read, at, count).next <= limit
    decreases count
  {
    if count > 0 {
      EntriesAgree(read, other, limit, read(at).next, count - 1);
    }
  }

  lemma EntriesExtend(bytes: Bytes, more: Bytes, at: nat, count: nat)
    requires at <= |bytes| && ReadEntries(EntryReader(bytes), at, count).GotEntries?
    ensures ReadEntries(EntryReader(bytes + more), at, count) == ReadEntries(EntryReader(bytes), at, count)
    ensures ReadEntries(EntryReader(bytes), at, count).next <= |bytes|
  {
    forall a: nat | ReadEntry(bytes, a).GotEntry?
      ensures ReadEntry(bytes + more, a) == ReadEntry(bytes, a)
    {
      EntryExtends(bytes, more, a);
    }
    EntriesAgree(EntryReader(bytes), EntryReader(bytes + more), |bytes|, at, count);
  }

  /** A session file cut short anywhere restores nothing at all. */
  lemma PrefixLoadsNothing(entries: seq<Entry>, active: int, cut: nat)
    requires |entries| < TWO_32 / 2 && -1 <= active < |entries| && forall e <- entries :: Fits(e)
    requires cut < |Encode(entries, active)|
    ensures Load(Encode(entries, active)[..cut]) == NOTHING
  {
    var whole := Encode(entries, active);
    var part, more := whole[..cut], whole[cut..];
    assert part + more == whole && whole + [] == whole;
    LoadsHeaded(entries, active, []);
    EncodeAtStart(entries, active, []);
    ReadsHeader(whole, |entries|, active);
    if |part| >= 20 {
      U32Extends(part, more, 12);
      if ReadEntries(EntryReader(part), 20, |entries|).GotEntries? {
        EntriesExtend(part, more, 20, |entries|);
        assert false;
      }
    }
  }
}
