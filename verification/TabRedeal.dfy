/** What closing every tab at once and reopening them all makes of the list, said of
    the addresses and pins a person sees. */
module TabRedeal {
  import opened Tabs

  /** What a person sees of a tab's place: the address and the pin. */
  datatype Slot = Slot(url: string, pinned: bool)

  // --- Reopening one by one -------------------------------------------------------------

  function PinnedSlots(slots: seq<Slot>): nat {
    if slots == [] then 0 else (if slots[0].pinned then 1 else 0) + PinnedSlots(slots[1..])
  }

  function ClampSlot(slots: seq<Slot>, index: nat, pinned: bool): (at: int)
    ensures 0 <= at <= |slots|
  {
    SlotCountBound(slots);
    var low := if pinned then 0 else PinnedSlots(slots);
    var high := if pinned then PinnedSlots(slots) else |slots|;
    if index < low then low else if index > high then high else index
  }

  lemma {:induction false} SlotCountBound(slots: seq<Slot>)
    ensures PinnedSlots(slots) <= |slots|
  {
    if slots != [] {
      SlotCountBound(slots[1..]);
    }
  }

  /** What reopening brings back when everything was closed at once: the last tab
      first, each at the position it had, held to the list there is by then. */
  function Rebuilt(slots: seq<Slot>, from: nat): seq<Slot>
    requires from <= |slots|
    decreases |slots| - from
  {
    if from == |slots| then []
    else
      var rest := Rebuilt(slots, from + 1);
      Inserted(rest, ClampSlot(rest, from, slots[from].pinned), slots[from])
  }

  /** The lists that come back in order. */
  predicate IsShort(slots: seq<Slot>) {
    var pinned := PinnedSlots(slots);
    var others := |slots| - pinned;
    pinned <= 2 && (others <= 1 || (others == 2 && pinned == 0))
  }

  ghost predicate PinnedSlotsFirst(slots: seq<Slot>) {
    forall i :: 0 <= i < |slots| ==> (slots[i].pinned <==> i < PinnedSlots(slots))
  }

  ghost predicate Precedes(slots: seq<Slot>, one: Slot, other: Slot) {
    exists i, j :: 0 <= i < j < |slots| && slots[i] == one && slots[j] == other
  }

  lemma InsertKeepsPrecedes(slots: seq<Slot>, at: int, slot: Slot, one: Slot, other: Slot)
    requires 0 <= at <= |slots| && Precedes(slots, one, other)
    ensures Precedes(Inserted(slots, at, slot), one, other)
  {
    var i, j :| 0 <= i < j < |slots| && slots[i] == one && slots[j] == other;
    var i', j' := if i < at then i else i + 1, if j < at then j else j + 1;
    assert Inserted(slots, at, slot)[i'] == one && Inserted(slots, at, slot)[j'] == other;
  }

  lemma {:induction false} RebuiltKeepsPrecedes(slots: seq<Slot>, from: nat, to: nat, one: Slot, other: Slot)
    requires to <= from <= |slots| && Precedes(Rebuilt(slots, from), one, other)
    ensures Precedes(Rebuilt(slots, to), one, other)
    decreases from - to
  {
    if to < from {
      RebuiltKeepsPrecedes(slots, from, to + 1, one, other);
      var rest := Rebuilt(slots, to + 1);
      InsertKeepsPrecedes(rest, ClampSlot(rest, to, slots[to].pinned), slots[to], one, other);
    }
  }

  /** While only tabs of the other kind are back, one is put at its group's start. */
  lemma {:induction false} RebuiltSize(slots: seq<Slot>, from: nat)
    requires from <= |slots| && PinnedSlotsFirst(slots)
    ensures |Rebuilt(slots, from)| == |slots| - from
    ensures PinnedSlots(Rebuilt(slots, from)) == if from < PinnedSlots(slots) then PinnedSlots(slots) - from else 0
    decreases |slots| - from
  {
    SlotCountBound(slots);
    if from < |slots| {
      RebuiltSize(slots, from + 1);
      var rest := Rebuilt(slots, from + 1);
      CountInserted(rest, ClampSlot(rest, from, slots[from].pinned), slots[from]);
    }
  }

  lemma {:induction false} CountInserted(slots: seq<Slot>, at: int, slot: Slot)
    requires 0 <= at <= |slots|
    ensures PinnedSlots(Inserted(slots, at, slot)) == PinnedSlots(slots) + (if slot.pinned then 1 else 0)
  {
    if at > 0 {
      CountInserted(slots[1..], at - 1, slot);
      assert Inserted(slots, at, slot)[1..] == Inserted(slots[1..], at - 1, slot);
    } else {
      assert Inserted(slots, at, slot)[1..] == slots;
    }
  }

  /** Two tabs of one kind, neither at the very start, come back the other way round. */
  lemma Swapped(slots: seq<Slot>, at: nat)
    requires PinnedSlotsFirst(slots) && 1 <= at < |slots| - 1 && slots[at].pinned == slots[at + 1].pinned
    requires at + 2 == if slots[at].pinned then PinnedSlots(slots) else |slots|
    ensures Precedes(Rebuilt(slots, at), slots[at + 1], slots[at])
  {
    RebuiltSize(slots, at + 2);
    RebuiltSize(slots, at + 1);
    var none, one := Rebuilt(slots, at + 2), Rebuilt(slots, at + 1);
    var p := ClampSlot(none, at + 1, slots[at + 1].pinned);
    assert p == 0;
    assert one[0] == slots[at + 1];
    var q := ClampSlot(one, at, slots[at].pinned);
    assert q == 1;
    var both := Rebuilt(slots, at);
    assert both[0] == slots[at + 1] && both[1] == slots[at];
  }

  ghost predicate DistinctSlots(slots: seq<Slot>) {
    forall i, j :: 0 <= i < j < |slots| ==> slots[i].url != slots[j].url
  }

  /** Two neighbours of one kind that are the last of it, not first in the list, keep
      the list from coming back. */
  lemma SwappedIsNotSame(slots: seq<Slot>, at: nat)
    requires PinnedSlotsFirst(slots) && DistinctSlots(slots)
    requires 1 <= at < |slots| - 1 && slots[at].pinned == slots[at + 1].pinned
    requires at + 2 == if slots[at].pinned then PinnedSlots(slots) else |slots|
    ensures Rebuilt(slots, 0) != slots
  {
    Swapped(slots, at);
    RebuiltKeepsPrecedes(slots, at, 0, slots[at + 1], slots[at]);
    NotBothWays(slots, at);
  }

  /** Closing everything and reopening it all gives the list back exactly when it
      is short: at most two pinned tabs beside at most one other, or two others alone. */
  lemma RebuiltExactly(slots: seq<Slot>)
    requires PinnedSlotsFirst(slots) && DistinctSlots(slots)
    ensures Rebuilt(slots, 0) == slots <==> IsShort(slots)
  {
    var pinned, n := PinnedSlots(slots), |slots|;
    SlotCountBound(slots);
    if IsShort(slots) {
      ShortIsRebuilt(slots, 0);
      assert slots[0..] == slots;
    } else {
      SwappedIsNotSame(slots, if pinned >= 3 then pinned - 2 else n - 2);
    }
  }

  lemma NotBothWays(slots: seq<Slot>, at: nat)
    requires DistinctSlots(slots) && at + 1 < |slots|
    ensures !Precedes(slots, slots[at + 1], slots[at])
  {
  }

  /** In a short list each tab comes back in front of those already back. */
  lemma ShortClampsToFront(slots: seq<Slot>, from: nat)
    requires PinnedSlotsFirst(slots) && IsShort(slots) && from < |slots|
    ensures ClampSlot(Rebuilt(slots, from + 1), from, slots[from].pinned) == 0
  {
    SlotCountBound(slots);
    RebuiltSize(slots, from + 1);
  }

  lemma {:induction false} ShortIsRebuilt(slots: seq<Slot>, from: nat)
    requires PinnedSlotsFirst(slots) && IsShort(slots) && from <= |slots|
    ensures Rebuilt(slots, from) == slots[from..]
    decreases |slots| - from
  {
    if from < |slots| {
      ShortIsRebuilt(slots, from + 1);
      ShortClampsToFront(slots, from);
      var rest := slots[from + 1..];
      assert rest[..0] + [slots[from]] + rest[0..] == slots[from..];
    }
  }

  // --- What comes back of any list --------------------------------------------------------

  /** The slots from one place to before another, dealt from both ends: first, last,
      second, last but one, and so on. */
  function Dealt(slots: seq<Slot>, from: nat, end: nat): (dealt: seq<Slot>)
    requires from <= end <= |slots|
    ensures |dealt| == end - from
    decreases end - from
  {
    if from == end then []
    else if from + 1 == end then [slots[from]]
    else [slots[from], slots[end - 1]] + Dealt(slots, from + 1, end - 1)
  }

  lemma {:induction false} DealtAt(slots: seq<Slot>, from: nat, end: nat, k: nat)
    requires from <= end <= |slots| && k < end - from
    ensures Dealt(slots, from, end)[k] == if k % 2 == 0 then slots[from + k / 2] else slots[end - 1 - k / 2]
    decreases end - from
  {
    if k >= 2 {
      DealtAt(slots, from + 1, end - 1, k - 2);
    }
  }

  /** The slots from a place on, the last one first. */
  function Backwards(slots: seq<Slot>, from: nat): (back: seq<Slot>)
    requires from <= |slots|
    ensures |back| == |slots| - from
    decreases |slots| - from
  {
    if from == |slots| then [] else Backwards(slots, from + 1) + [slots[from]]
  }

  /** A group of one kind once all but its first `from` tabs are back, behind `ahead`
      tabs of the other kind: as many from the end as stand ahead, backwards, and the
      others dealt from both ends. */
  function GroupBack(group: seq<Slot>, ahead: nat, from: nat): (back: seq<Slot>)
    requires from <= |group|
    ensures |back| == |group| - from
  {
    if 2 * from + ahead >= |group| then Backwards(group, from)
    else
      var middle := |group| - ahead - from;
      Backwards(group, middle) + Dealt(group, from, middle)
  }

  lemma GroupGrowsAtEnd(group: seq<Slot>, ahead: nat, from: nat)
    requires from < |group| && 2 * (from + 1) + ahead > |group|
    ensures GroupBack(group, ahead, from) == GroupBack(group, ahead, from + 1) + [group[from]]
  {
    if 2 * from + ahead < |group| {
      assert |group| - ahead - from == from + 1;
    }
  }

  lemma Between(more: seq<Slot>, rest: seq<Slot>, ends: seq<Slot>, last: Slot, inner: seq<Slot>, slot: Slot)
    requires more == ends + ([slot, last] + inner) && rest == (ends + [last]) + inner
    ensures more == Inserted(rest, |ends|, slot)
  {
    assert rest[..|ends|] == ends && rest[|ends|..] == [last] + inner;
  }

  /** What a group shares before and after its next tab is back: the ends put behind each
      other, and what was dealt between them. */
  ghost predicate ArePieces(group: seq<Slot>, middle: nat, from: nat, ends: seq<Slot>, last: Slot, inner: seq<Slot>) {
    && from + 2 <= middle <= |group|
    && ends == Backwards(group, middle) && last == group[middle - 1] && inner == Dealt(group, from + 1, middle - 1)
  }

  lemma OuterBack(group: seq<Slot>, ahead: nat, from: nat, ends: seq<Slot>, last: Slot, inner: seq<Slot>)
    requires from < |group| && 2 * (from + 1) + ahead <= |group|
    requires ArePieces(group, |group| - ahead - from, from, ends, last, inner)
    ensures GroupBack(group, ahead, from) == ends + ([group[from], last] + inner)
  {
  }

  lemma InnerBack(group: seq<Slot>, ahead: nat, from: nat, ends: seq<Slot>, last: Slot, inner: seq<Slot>)
    requires from < |group| && 2 * (from + 1) + ahead <= |group|
    requires ArePieces(group, |group| - ahead - from, from, ends, last, inner)
    ensures GroupBack(group, ahead, from + 1) == (ends + [last]) + inner
  {
    var middle := |group| - ahead - from;
    assert Backwards(group, middle - 1) == ends + [last];
    if 2 * (from + 1) + ahead == |group| {
      assert middle - 1 == from + 1 && inner == [];
    }
  }

  lemma GroupGrowsInside(group: seq<Slot>, ahead: nat, from: nat)
    requires from < |group| && 2 * (from + 1) + ahead <= |group|
    ensures GroupBack(group, ahead, from) == Inserted(GroupBack(group, ahead, from + 1), from + ahead, group[from])
  {
    var middle := |group| - ahead - from;
    var ends, last, inner := Backwards(group, middle), group[middle - 1], Dealt(group, from + 1, middle - 1);
    OuterBack(group, ahead, from, ends, last, inner);
    InnerBack(group, ahead, from, ends, last, inner);
    Between(GroupBack(group, ahead, from), GroupBack(group, ahead, from + 1), ends, last, inner, group[from]);
  }

  /** The next tab of a group goes where it stood, or to the end of those back. */
  lemma GroupGrows(group: seq<Slot>, ahead: nat, from: nat)
    requires from < |group|
    ensures var rest := GroupBack(group, ahead, from + 1);
            GroupBack(group, ahead, from)
              == Inserted(rest, AtMost(from + ahead, |rest|), group[from])
  {
    var rest := GroupBack(group, ahead, from + 1);
    if 2 * (from + 1) + ahead <= |group| {
      GroupGrowsInside(group, ahead, from);
    } else {
      GroupGrowsAtEnd(group, ahead, from);
      assert rest[..|rest|] == rest && rest[|rest|..] == [];
    }
  }

  function AtMost(place: nat, count: nat): nat {
    if place > count then count else place
  }

  /** Each tab comes back where it stood, or behind those of its kind already back. */
  lemma RebuiltNext(slots: seq<Slot>, from: nat)
    requires PinnedSlotsFirst(slots) && from < |slots|
    ensures var rest, pinned := Rebuilt(slots, from + 1), PinnedSlots(slots);
            && |rest| == |slots| - from - 1 && (from < pinned ==> pinned - from - 1 <= |rest|)
            && Rebuilt(slots, from) ==
                 Inserted(rest, AtMost(from, if from < pinned then pinned - from - 1 else |rest|), slots[from])
  {
    SlotCountBound(slots);
    RebuiltSize(slots, from + 1);
    assert slots[from].pinned <==> from < PinnedSlots(slots);
    ClampSlotIs(Rebuilt(slots, from + 1), from, slots[from].pinned);
  }

  lemma ClampSlotIs(rest: seq<Slot>, from: nat, pinned: bool)
    requires pinned || PinnedSlots(rest) == 0
    ensures ClampSlot(rest, from, pinned) == AtMost(from, if pinned then PinnedSlots(rest) else |rest|)
  {
  }

  /** How a group comes back tab by tab: `back` of k is what there is of it once all but
      its first k tabs are. */
  ghost predicate Grows(back: nat -> seq<Slot>, group: seq<Slot>, ahead: nat) {
    back(|group|) == [] && forall k {:trigger GrowsAt(back, group, ahead, k)} :: 0 <= k < |group| ==>
        GrowsAt(back, group, ahead, k)
  }

  ghost predicate GrowsAt(back: nat -> seq<Slot>, group: seq<Slot>, ahead: nat, k: nat)
    requires k < |group|
  {
    && |back(k + 1)| == |group| - k - 1
    && back(k) == Inserted(back(k + 1), AtMost(k + ahead, |group| - k - 1), group[k])
  }

  lemma PlainNext(slots: seq<Slot>, from: nat, pinned: nat)
    requires PinnedSlotsFirst(slots) && PinnedSlots(slots) == pinned && pinned <= from < |slots|
    ensures |Rebuilt(slots, from + 1)| == |slots| - from - 1
    ensures Rebuilt(slots, from) == Inserted(Rebuilt(slots, from + 1), AtMost(from, |slots| - from - 1), slots[from])
  {
    RebuiltNext(slots, from);
  }

  lemma {:induction false} PlainBack(slots: seq<Slot>, group: seq<Slot>, back: nat -> seq<Slot>, pinned: nat, k: nat)
    requires PinnedSlotsFirst(slots) && PinnedSlots(slots) == pinned <= |slots| && group == slots[pinned..]
    requires Grows(back, group, pinned) && k <= |group|
    ensures Rebuilt(slots, pinned + k) == back(k)
    decreases |group| - k
  {
    if k < |group| {
      PlainBack(slots, group, back, pinned, k + 1);
      PlainNext(slots, pinned + k, pinned);
      assert GrowsAt(back, group, pinned, k) && group[k] == slots[pinned + k];
    }
  }

  /** Putting a tab into the front of a list leaves the back of it alone. */
  lemma PutInFront(more: seq<Slot>, whole: seq<Slot>, grown: seq<Slot>, front: seq<Slot>, back: seq<Slot>, at: nat,
      slot: Slot)
    requires whole == front + back && at <= |front|
    requires more == Inserted(whole, at, slot) && grown == Inserted(front, at, slot)
    ensures more == grown + back
  {
    assert whole[..at] == front[..at] && whole[at..] == front[at..] + back;
  }

  ghost predicate GrowsInFront(whole: nat -> seq<Slot>, group: seq<Slot>, k: nat)
    requires k < |group|
  {
    && |group| - k - 1 <= |whole(k + 1)|
    && whole(k) == Inserted(whole(k + 1), AtMost(k, |group| - k - 1), group[k])
  }

  /** A group that grows in front of a list grows as it does alone. */
  lemma {:induction false} GrowsTheSame(whole: nat -> seq<Slot>, back: nat -> seq<Slot>, group: seq<Slot>, k: nat)
    requires k <= |group| && Grows(back, group, 0)
    requires forall k {:trigger GrowsInFront(whole, group, k)} :: 0 <= k < |group| ==> GrowsInFront(whole, group, k)
    ensures whole(k) == back(k) + whole(|group|)
    decreases |group| - k
  {
    if k == |group| {
      assert [] + whole(|group|) == whole(|group|);
    } else {
      GrowsTheSame(whole, back, group, k + 1);
      assert GrowsInFront(whole, group, k) && GrowsAt(back, group, 0, k);
      PutInFront(whole(k), whole(k + 1), back(k), back(k + 1), whole(|group|), AtMost(k, |group| - k - 1), group[k]);
    }
  }

  function RebuiltOf(slots: seq<Slot>): nat -> seq<Slot> {
    (from: nat) => if from <= |slots| then Rebuilt(slots, from) else []
  }

  function BackOf(group: seq<Slot>, ahead: nat): nat -> seq<Slot> {
    (k: nat) => if k <= |group| then GroupBack(group, ahead, k) else []
  }

  lemma GroupBackGrows(group: seq<Slot>, ahead: nat)
    ensures Grows(BackOf(group, ahead), group, ahead)
  {
    forall k | 0 <= k < |group|
      ensures GrowsAt(BackOf(group, ahead), group, ahead, k)
    {
      GroupGrows(group, ahead, k);
    }
  }

  lemma PlainIsBack(slots: seq<Slot>, pinned: nat)
    requires PinnedSlotsFirst(slots) && pinned == PinnedSlots(slots) <= |slots|
    ensures Rebuilt(slots, pinned) == GroupBack(slots[pinned..], pinned, 0)
  {
    GroupBackGrows(slots[pinned..], pinned);
    PlainBack(slots, slots[pinned..], BackOf(slots[pinned..], pinned), pinned, 0);
  }

  lemma PinnedNext(slots: seq<Slot>, from: nat, pinned: nat)
    requires PinnedSlotsFirst(slots) && PinnedSlots(slots) == pinned && from < pinned <= |slots|
    ensures pinned - from - 1 <= |Rebuilt(slots, from + 1)|
    ensures Rebuilt(slots, from) == Inserted(Rebuilt(slots, from + 1), AtMost(from, pinned - from - 1), slots[from])
  {
    RebuiltNext(slots, from);
  }

  lemma RebuiltGrows(slots: seq<Slot>, group: seq<Slot>, k: nat)
    requires PinnedSlotsFirst(slots) && PinnedSlots(slots) == |group| && group <= slots && k < |group|
    ensures GrowsInFront(RebuiltOf(slots), group, k)
  {
    PinnedNext(slots, k, |group|);
    var (whole, now, next) := (RebuiltOf(slots), Rebuilt(slots, k), Rebuilt(slots, k + 1));
    assert whole(k) == now && whole(k + 1) == next;
  }

  lemma PinnedIsBack(slots: seq<Slot>, group: seq<Slot>)
    requires PinnedSlotsFirst(slots) && PinnedSlots(slots) == |group| && group <= slots
    ensures RebuiltOf(slots)(0) == BackOf(group, 0)(0) + RebuiltOf(slots)(|group|)
  {
    GroupBackGrows(group, 0);
    forall k | 0 <= k < |group|
      ensures GrowsInFront(RebuiltOf(slots), group, k)
    {
      RebuiltGrows(slots, group, k);
    }
    GrowsTheSame(RebuiltOf(slots), BackOf(group, 0), group, 0);
  }

  /** What closing everything and reopening it all makes of a list. */
  function Redealt(slots: seq<Slot>): seq<Slot> {
    SlotCountBound(slots);
    var pinned := PinnedSlots(slots);
    GroupBack(slots[..pinned], 0, 0) + GroupBack(slots[pinned..], pinned, 0)
  }

  /** Whatever addresses it holds, a list closed whole and reopened whole comes back
      with its pinned tabs dealt from both ends, then as many of the others as there
      are pinned ones, from the end backwards, then the rest of them dealt. */
  lemma RebuiltIsRedealt(slots: seq<Slot>)
    requires PinnedSlotsFirst(slots)
    ensures Rebuilt(slots, 0) == Redealt(slots)
  {
    SlotCountBound(slots);
    var pinned := PinnedSlots(slots);
    PlainIsBack(slots, pinned);
    PinnedIsBack(slots, slots[..pinned]);
  }

  /** Among different addresses dealing changes nothing exactly in a short list. */
  lemma RedealtExactly(slots: seq<Slot>)
    requires PinnedSlotsFirst(slots) && DistinctSlots(slots)
    ensures Redealt(slots) == slots <==> IsShort(slots)
  {
    RebuiltIsRedealt(slots);
    RebuiltExactly(slots);
  }

  lemma ThreeRedealt(slots: seq<Slot>)
    requires PinnedSlotsFirst(slots) && |slots| == 3 && forall slot <- slots :: !slot.pinned
    ensures Redealt(slots) == [slots[0], slots[2], slots[1]]
  {
    NonePinned(slots);
    assert slots[..0] == [] && slots[0..] == slots;
    assert Dealt(slots, 0, 3) == [slots[0], slots[2]] + Dealt(slots, 1, 2);
    assert GroupBack(slots, 0, 0) == Backwards(slots, 3) + Dealt(slots, 0, 3);
  }

  lemma {:induction false} NonePinned(slots: seq<Slot>)
    requires forall slot <- slots :: !slot.pinned
    ensures PinnedSlots(slots) == 0
  {
    if slots != [] {
      assert slots[0] in slots;
      NonePinned(slots[1..]);
    }
  }
}
