/** The slots fat_create_vn writes: an entry for the new name, and "." and ".." in a new directory. */
module FatEntry {
  import opened Machine
  import opened FatStep
  import opened FatName
  import opened FatSlots
  import opened FatSearch
  import opened FatFolder
  import opened FatIter

  const ATTR_DIR: byte := 0x10
  const ATTR_FILE: byte := 0x20

  /** An entry that is zero except for its name, attribute and first cluster. */
  function NewSlot(name: seq<byte>, attr: byte, first: u32): (s: Slot)
    requires |name| == 11
  {
    WithExtent(name + [attr] + Zeros(20), first, 0)
  }

  /** The entry reads back: name, attribute, first cluster, and size 0. */
  lemma NewSlotReads(name: seq<byte>, attr: byte, first: u32)
    requires |name| == 11
    ensures var s := NewSlot(name, attr, first);
            s[..11] == name && s[11] == attr && FirstOf(s) == first && SizeOf(s) == 0
  {
    var blank := name + [attr] + Zeros(20);
    ExtentReadsBack(blank, first, 0);
    var s := NewSlot(name, attr, first);
    assert s[..11] == s[..20][..11] == blank[..20][..11] == name;
    assert s[11] == s[..20][11] == blank[..20][11];
  }

  /** The key under which the new entry will be found. */
  function StoredKey(name: seq<byte>): seq<byte>
    requires Fits83(name)
  {
    UpAll(Format(Packed(name)))
  }

  lemma {:induction false} UpUp(s: seq<byte>)
    ensures UpAll(UpAll(s)) == UpAll(s)
  {
    assert forall i :: 0 <= i < |s| ==> Up(Up(s[i])) == Up(s[i]);
  }

  /** The stored key is the upper-cased name, unless the name ends in a dot: then the dot is lost. */
  lemma StoredKeyIs(name: seq<byte>)
    requires Fits83(name)
    ensures StoredKey(name) == if name[|name| - 1] == DOT then UpAll(name[..|name| - 1]) else UpAll(name)
  {
    hide Packed, Format, UpAll;
    NameRoundTrip(name);
    UpUp(name);
    UpUp(name[..|name| - 1]);
  }

  function Attr(isDir: bool): byte { if isDir then ATTR_DIR else ATTR_FILE }

  /** What create writes is a listed entry of the requested kind, found under the stored key. */
  lemma NewEntry(name: seq<byte>, isDir: bool, first: u32)
    requires Fits83(name)
    ensures var s := NewSlot(Packed(name), Attr(isDir), first);
            && Shown(s) && Key(s) == StoredKey(name) && IsDirectory(s) == isDir && FirstOf(s) == first && SizeOf(s) == 0
  {
    hide Packed, Format, UpAll, NewSlot;
    NewSlotReads(Packed(name), Attr(isDir), first);
    PackedStart(name);
    var s := NewSlot(Packed(name), Attr(isDir), first);
    assert s[0] == s[..11][0];
  }

  const DOT_NAME: seq<byte> := [DOT] + Spaces(10)
  const DOTDOT_NAME: seq<byte> := [DOT, DOT] + Spaces(9)

  /** The first cluster of a new directory: entries for itself and its parent, and room. */
  function DotCluster(self: u32, parent: u32, cs: nat): (b: seq<byte>)
    requires 2 * SLOT <= cs
    ensures |b| == cs
  {
    NewSlot(DOT_NAME, ATTR_DIR, self) + NewSlot(DOTDOT_NAME, ATTR_DIR, parent) + Zeros(cs - 2 * SLOT)
  }

  lemma DotNames()
    ensures Format(DOT_NAME) == [DOT] && Format(DOTDOT_NAME) == [DOT, DOT]
  {
    TrimIs(DOT_NAME[..8], [DOT]);
    TrimIs(DOT_NAME[8..], []);
    TrimIs(DOTDOT_NAME[..8], [DOT, DOT]);
    TrimIs(DOTDOT_NAME[8..], []);
  }

  lemma DotSlots(self: u32, parent: u32, cs: nat)
    requires 2 * SLOT <= cs
    ensures var slots := Chop(DotCluster(self, parent, cs));
            && |slots| >= 2 && slots[0] == NewSlot(DOT_NAME, ATTR_DIR, self)
                && slots[1] == NewSlot(DOTDOT_NAME, ATTR_DIR, parent)
            && forall k :: 2 <= k < |slots| ==> Ends(slots[k])
  {
    hide NewSlot;
    var b := DotCluster(self, parent, cs);
    assert b[0 * SLOT..0 * SLOT + SLOT] == NewSlot(DOT_NAME, ATTR_DIR, self);
    assert b[1 * SLOT..1 * SLOT + SLOT] == NewSlot(DOTDOT_NAME, ATTR_DIR, parent);
    forall k | 2 <= k < |Chop(b)| ensures Ends(Chop(b)[k]) {
      assert b[k * SLOT] == Zeros(cs - 2 * SLOT)[k * SLOT - 2 * SLOT];
    }
  }

  lemma DotShown(name: seq<byte>, first: u32)
    requires name == DOT_NAME || name == DOTDOT_NAME
    ensures Shown(NewSlot(name, ATTR_DIR, first)) && Name(NewSlot(name, ATTR_DIR, first)) == Format(name)
  {
    hide NewSlot, Format;
    NewSlotReads(name, ATTR_DIR, first);
    var s := NewSlot(name, ATTR_DIR, first);
    assert s[0] == s[..11][0];
  }

  /** A new directory lists itself and its parent and nothing else, so it counts as empty. */
  lemma NewFolder(self: u32, parent: u32, cs: nat)
    requires 2 * SLOT <= cs
    ensures var slots := Chop(DotCluster(self, parent, cs));
            && |slots| >= 2 && Listing(slots) == [slots[0], slots[1]] && DirOk(slots) && OnlyDots(slots)
            && Name(slots[0]) == [DOT] && Name(slots[1]) == [DOT, DOT] && FirstOf(slots[0]) == self
                && FirstOf(slots[1]) == parent
  {
    hide NewSlot, Format, DotCluster, Chop, FirstOf, Name;
    DotSlots(self, parent, cs);
    NewSlotReads(DOT_NAME, ATTR_DIR, self);
    NewSlotReads(DOTDOT_NAME, ATTR_DIR, parent);
    DotShown(DOT_NAME, self);
    DotShown(DOTDOT_NAME, parent);
    DotNames();
    TwoListed(Chop(DotCluster(self, parent, cs)));
  }

  lemma TwoListing(slots: seq<Slot>)
    requires |slots| >= 2 && Shown(slots[0]) && Shown(slots[1]) && (|slots| > 2 ==> Ends(slots[2]))
    ensures Listing(slots) == [slots[0], slots[1]]
  {
    var t := slots[1..];
    assert t[0] == slots[1] && t[1..] == slots[2..];
    assert Listing(slots[2..]) == [];
    assert Listing(t) == [slots[1]];
  }

  lemma TwoListed(slots: seq<Slot>)
    requires |slots| >= 2 && Shown(slots[0]) && Shown(slots[1]) && (forall k :: 2 <= k < |slots| ==> Ends(slots[k]))
    requires Name(slots[0]) == [DOT] && Name(slots[1]) == [DOT, DOT]
    ensures Listing(slots) == [slots[0], slots[1]] && DirOk(slots) && OnlyDots(slots)
  {
    hide Name, Listing;
    TwoListing(slots);
    assert |Key(slots[0])| == 1 && |Key(slots[1])| == 2;
  }
}
