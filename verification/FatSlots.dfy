/**
 A directory as a sequence of 32-byte slots, and the finite map from upper-cased name to slot it stands
 for. A slot whose first byte is 0x00 ends the directory, 0xE5 marks a deleted one.
 */
module FatSlots {
  import opened Machine
  import opened FatName

  type Slot = s: seq<byte> | |s| == 32 witness seq(32, _ => 0)

  predicate Ends(s: Slot) { s[0] == 0 }

  predicate Deleted(s: Slot) { s[0] == 0xE5 }

  predicate Free(s: Slot) { Ends(s) || Deleted(s) }

  /** Long-name and volume-label entries, which every scan passes over. */
  predicate Hidden(s: Slot) { s[11] == 0x0F || s[11] / 8 % 2 == 1 }

  predicate Shown(s: Slot) { !Free(s) && !Hidden(s) }

  function Name(s: Slot): seq<byte> { Format(s[..11]) }

  /** The key a slot is found under. */
  function Key(s: Slot): seq<byte> { UpAll(Name(s)) }

  /** The entries a scan visits, in order. */
  function Listing(slots: seq<Slot>): (r: seq<Slot>)
    ensures forall j :: 0 <= j < |r| ==> Shown(r[j])
  {
    if slots == [] || Ends(slots[0]) then []
    else if Shown(slots[0]) then [slots[0]] + Listing(slots[1..])
    else Listing(slots[1..])
  }

  /** The name map; of two entries with one name the first would be found. */
  function Dir(slots: seq<Slot>): map<seq<byte>, Slot> {
    if slots == [] || Ends(slots[0]) then map[]
    else if Shown(slots[0]) then Dir(slots[1..])[Key(slots[0]) := slots[0]]
    else Dir(slots[1..])
  }

  /** Behind an end marker there are only end markers. */
  ghost predicate Terminated(slots: seq<Slot>) {
    forall i, j :: 0 <= i <= j < |slots| && Ends(slots[i]) ==> Ends(slots[j])
  }

  /** No two listed entries share a name. */
  ghost predicate Unique(slots: seq<Slot>) {
    forall i, j :: 0 <= i < j < |Listing(slots)| ==> Key(Listing(slots)[i]) != Key(Listing(slots)[j])
  }

  /** The directory's invariant. */
  ghost predicate DirOk(slots: seq<Slot>) { Terminated(slots) && Unique(slots) }

  /** The map holds exactly the listed names. */
  lemma {:induction false} DirIsListing(slots: seq<Slot>, k: seq<byte>)
    ensures k in Dir(slots) <==> exists j :: 0 <= j < |Listing(slots)| && Key(Listing(slots)[j]) == k
    ensures k in Dir(slots) ==> Shown(Dir(slots)[k]) && Key(Dir(slots)[k]) == k && Dir(slots)[k] in Listing(slots)
  {
    if slots != [] && !Ends(slots[0]) {
      var rest := slots[1..];
      DirIsListing(rest, k);
      if Shown(slots[0]) {
        assert Listing(slots) == [slots[0]] + Listing(rest);
        if Key(slots[0]) == k {
          assert Key(Listing(slots)[0]) == k;
        }
        if k in Dir(rest) {
          var j :| 0 <= j < |Listing(rest)| && Key(Listing(rest)[j]) == k;
          assert Listing(slots)[j + 1] == Listing(rest)[j];
        }
        forall j | 0 <= j < |Listing(slots)| && Key(Listing(slots)[j]) == k ensures k in Dir(slots) {
          if j > 0 { assert Listing(rest)[j - 1] == Listing(slots)[j]; }
        }
      }
    }
  }

  /** Looking a name up finds the slot the map holds; a scan that finds none proves it absent. */
  lemma {:induction false} FirstMatch(slots: seq<Slot>, want: seq<byte>, j: nat)
    requires j < |Listing(slots)| && SameName(Name(Listing(slots)[j]), want)
    requires forall i :: 0 <= i < j ==> !SameName(Name(Listing(slots)[i]), want)
    ensures UpAll(want) in Dir(slots) && Dir(slots)[UpAll(want)] == Listing(slots)[j]
  {
    var rest := slots[1..];
    if Shown(slots[0]) {
      assert Listing(slots) == [slots[0]] + Listing(rest);
      SameNameIsSameKey(Name(slots[0]), want);
      if j > 0 {
        assert !SameName(Name(Listing(slots)[0]), want);
        assert Listing(rest)[j - 1] == Listing(slots)[j];
        forall i | 0 <= i < j - 1 ensures !SameName(Name(Listing(rest)[i]), want) {
          assert Listing(rest)[i] == Listing(slots)[i + 1];
        }
        FirstMatch(rest, want, j - 1);
      }
    } else {
      FirstMatch(rest, want, j);
    }
  }

  lemma NoMatch(slots: seq<Slot>, want: seq<byte>)
    requires forall i :: 0 <= i < |Listing(slots)| ==> !SameName(Name(Listing(slots)[i]), want)
    ensures UpAll(want) !in Dir(slots)
  {
    DirIsListing(slots, UpAll(want));
    if UpAll(want) in Dir(slots) {
      var j :| 0 <= j < |Listing(slots)| && Key(Listing(slots)[j]) == UpAll(want);
      SameNameIsSameKey(Name(Listing(slots)[j]), want);
    }
  }

  /** The first slot a new entry may use. */
  function FirstFree(slots: seq<Slot>): (i: nat)
    ensures i <= |slots| && (i < |slots| ==> Free(slots[i])) && forall k :: 0 <= k < i ==> !Free(slots[k])
  {
    if slots == [] || Free(slots[0]) then 0 else 1 + FirstFree(slots[1..])
  }

  /** Behind an end marker nothing is listed. */
  lemma {:induction false} NothingBehindEnd(slots: seq<Slot>)
    requires Terminated(slots) && slots != [] && Ends(slots[0])
    ensures Listing(slots[1..]) == [] && Dir(slots[1..]) == map[]
  {
    if |slots| > 1 {
      assert Ends(slots[1]);
    }
  }

  lemma TailTerminated(slots: seq<Slot>)
    requires Terminated(slots) && slots != []
    ensures Terminated(slots[1..])
  {
    var t := slots[1..];
    forall i, j | 0 <= i <= j < |t| && Ends(t[i]) ensures Ends(t[j]) {
      assert t[i] == slots[i + 1] && t[j] == slots[j + 1];
    }
  }

  /** Create changes exactly one key: the new entry goes into the first free slot. */
  lemma {:induction false} CreateDir(slots: seq<Slot>, i: nat, s: Slot)
    requires Terminated(slots) && i == FirstFree(slots) < |slots| && Shown(s) && Key(s) !in Dir(slots)
    ensures Dir(slots[i := s]) == Dir(slots)[Key(s) := s]
  {
    var t := slots[1..];
    if i == 0 {
      if Ends(slots[0]) { NothingBehindEnd(slots); }
      assert slots[0 := s][1..] == t;
    } else {
      TailTerminated(slots);
      assert slots[i := s][1..] == t[i - 1 := s];
      CreateDir(t, i - 1, s);
    }
  }

  /** Create lists the new entry between the entries in front of its slot and those behind. */
  lemma {:induction false} CreateListing(slots: seq<Slot>, i: nat, s: Slot) returns (k: nat)
    requires Terminated(slots) && i == FirstFree(slots) < |slots| && Shown(s)
    ensures k <= |Listing(slots)| && Listing(slots[i := s]) == Listing(slots)[..k] + [s] + Listing(slots)[k..]
  {
    var t, l := slots[1..], Listing(slots);
    k := 0;
    if i == 0 {
      if Ends(slots[0]) { NothingBehindEnd(slots); }
      assert slots[0 := s][1..] == t;
    } else {
      TailTerminated(slots);
      assert slots[i := s][1..] == t[i - 1 := s];
      k := CreateListing(t, i - 1, s);
      if Shown(slots[0]) {
        assert l == [slots[0]] + Listing(t);
        k := k + 1;
      }
    }
  }

  lemma CreateOk(slots: seq<Slot>, i: nat, s: Slot)
    requires DirOk(slots) && i == FirstFree(slots) < |slots| && Shown(s) && Key(s) !in Dir(slots)
    ensures DirOk(slots[i := s])
  {
    var slots' := slots[i := s];
    forall a, b | 0 <= a <= b < |slots'| && Ends(slots'[a]) ensures Ends(slots'[b]) {
      assert i < a && Ends(slots[a]);
      assert Ends(slots[b]);
    }
    var k := CreateListing(slots, i, s);
    var l := Listing(slots);
    forall x | 0 <= x < |l| ensures Key(l[x]) != Key(s) {
      DirIsListing(slots, Key(s));
    }
    InsertUnique(l, k, s);
  }

  lemma InsertUnique(l: seq<Slot>, k: nat, s: Slot)
    requires k <= |l| && (forall i, j :: 0 <= i < j < |l| ==> Key(l[i]) != Key(l[j])) && forall x ::
          0 <= x < |l| ==> Key(l[x]) != Key(s)
    ensures var m := l[..k] + [s] + l[k..]; forall i, j :: 0 <= i < j < |m| ==> Key(m[i]) != Key(m[j])
  {
  }

  /** The slot marked deleted, as unlink writes it. */
  function Erased(s: Slot): Slot { s[0 := 0xE5] }

  /** The position of a shown slot in front of the end marker. */
  predicate Visible(slots: seq<Slot>, i: nat) {
    i < |slots| && Shown(slots[i]) && forall k :: 0 <= k < i ==> !Ends(slots[k])
  }

  lemma TailUnique(slots: seq<Slot>)
    requires Unique(slots) && slots != [] && !Ends(slots[0])
    ensures Unique(slots[1..])
    ensures Shown(slots[0]) ==> Key(slots[0]) !in Dir(slots[1..])
  {
    var l, lt := Listing(slots), Listing(slots[1..]);
    if Shown(slots[0]) {
      assert l == [slots[0]] + lt;
      forall i, j | 0 <= i < j < |lt| ensures Key(lt[i]) != Key(lt[j]) {
        assert lt[i] == l[i + 1] && lt[j] == l[j + 1];
      }
      DirIsListing(slots[1..], Key(slots[0]));
      forall j | 0 <= j < |lt| ensures Key(lt[j]) != Key(slots[0]) {
        assert lt[j] == l[j + 1] && l[0] == slots[0];
      }
    }
  }

  /** A visible slot is what the map holds under its key. */
  lemma {:induction false} VisibleInDir(slots: seq<Slot>, i: nat)
    requires Unique(slots) && Visible(slots, i)
    ensures Key(slots[i]) in Dir(slots) && Dir(slots)[Key(slots[i])] == slots[i]
  {
    if i > 0 {
      TailUnique(slots);
      assert slots[1..][i - 1] == slots[i];
      forall k | 0 <= k < i - 1 ensures !Ends(slots[1..][k]) { assert slots[1..][k] == slots[k + 1]; }
      VisibleInDir(slots[1..], i - 1);
    }
  }

  /** Unlink removes exactly one key. */
  lemma {:induction false} UnlinkDir(slots: seq<Slot>, i: nat)
    requires Unique(slots) && Visible(slots, i)
    ensures Dir(slots[i := Erased(slots[i])]) == Dir(slots) - {Key(slots[i])}
  {
    var t := slots[1..];
    TailUnique(slots);
    if i == 0 {
      assert slots[0 := Erased(slots[0])][1..] == t;
    } else {
      assert t[i - 1] == slots[i] && slots[i := Erased(slots[i])][1..] == t[i - 1 := Erased(slots[i])];
      forall k | 0 <= k < i - 1 ensures !Ends(t[k]) { assert t[k] == slots[k + 1]; }
      UnlinkDir(t, i - 1);
      VisibleInDir(t, i - 1);
    }
  }

  lemma {:induction false} UnlinkListing(slots: seq<Slot>, i: nat) returns (k: nat)
    requires Visible(slots, i)
    ensures k < |Listing(slots)| && Listing(slots)[k] == slots[i]
    ensures Listing(slots[i := Erased(slots[i])]) == Listing(slots)[..k] + Listing(slots)[k + 1..]
  {
    var t, l, s := slots[1..], Listing(slots), Erased(slots[i]);
    k := 0;
    if i == 0 {
      assert slots[0 := s][1..] == t;
    } else {
      assert t[i - 1] == slots[i] && slots[i := s][1..] == t[i - 1 := s];
      forall k | 0 <= k < i - 1 ensures !Ends(t[k]) { assert t[k] == slots[k + 1]; }
      k := UnlinkListing(t, i - 1);
      if Shown(slots[0]) {
        assert l == [slots[0]] + Listing(t);
        k := k + 1;
      }
    }
  }

  lemma UnlinkOk(slots: seq<Slot>, i: nat)
    requires DirOk(slots) && Visible(slots, i)
    ensures DirOk(slots[i := Erased(slots[i])])
  {
    var slots' := slots[i := Erased(slots[i])];
    forall a, b | 0 <= a <= b < |slots'| && Ends(slots'[a]) ensures Ends(slots'[b]) {
      assert a != i && Ends(slots[a]) && Ends(slots[b]);
    }
    var k := UnlinkListing(slots, i);
  }

  /** A cluster of zeros behind a directory adds room and no entry. */
  lemma {:induction false} RoomAdded(slots: seq<Slot>, room: seq<Slot>)
    requires forall k :: 0 <= k < |room| ==> Ends(room[k])
    ensures Dir(slots + room) == Dir(slots) && Listing(slots + room) == Listing(slots)
  {
    if slots == [] {
      assert slots + room == room;
    } else {
      assert (slots + room)[1..] == slots[1..] + room;
      RoomAdded(slots[1..], room);
    }
  }

  lemma RoomOk(slots: seq<Slot>, room: seq<Slot>)
    requires DirOk(slots) && forall k :: 0 <= k < |room| ==> Ends(room[k])
    ensures DirOk(slots + room)
    ensures FirstFree(slots) == |slots| && room != [] ==> FirstFree(slots + room) == |slots|
  {
    RoomAdded(slots, room);
    if FirstFree(slots) == |slots| && room != [] {
      assert (slots + room)[|slots|] == room[0];
      FirstFreeIs(slots + room, |slots|);
    }
  }

  lemma {:induction false} FirstFreeIs(slots: seq<Slot>, i: nat)
    requires i < |slots| && Free(slots[i]) && forall k :: 0 <= k < i ==> !Free(slots[k])
    ensures FirstFree(slots) == i
  {
    if i > 0 {
      var t := slots[1..];
      assert t[i - 1] == slots[i];
      forall k | 0 <= k < i - 1 ensures !Free(t[k]) { assert t[k] == slots[k + 1]; }
      FirstFreeIs(t, i - 1);
    }
  }

  /** Replacing a visible slot by one of the same name changes what that name maps to, and nothing else. */
  lemma {:induction false} ReplaceDir(slots: seq<Slot>, i: nat, s: Slot)
    requires Unique(slots) && Visible(slots, i) && Shown(s) && Key(s) == Key(slots[i])
    ensures Dir(slots[i := s]) == Dir(slots)[Key(s) := s]
  {
    var t := slots[1..];
    TailUnique(slots);
    if i == 0 {
      assert slots[0 := s][1..] == t;
    } else {
      assert t[i - 1] == slots[i] && slots[i := s][1..] == t[i - 1 := s];
      forall k | 0 <= k < i - 1 ensures !Ends(t[k]) { assert t[k] == slots[k + 1]; }
      ReplaceDir(t, i - 1, s);
      VisibleInDir(t, i - 1);
    }
  }

  lemma {:induction false} ReplaceListing(slots: seq<Slot>, i: nat, s: Slot) returns (k: nat)
    requires Visible(slots, i) && Shown(s)
    ensures k < |Listing(slots)| && Listing(slots)[k] == slots[i] && Listing(slots[i := s]) == Listing(slots)[k := s]
  {
    var t := slots[1..];
    k := 0;
    if i == 0 {
      assert slots[0 := s][1..] == t;
    } else {
      assert t[i - 1] == slots[i] && slots[i := s][1..] == t[i - 1 := s];
      forall k | 0 <= k < i - 1 ensures !Ends(t[k]) { assert t[k] == slots[k + 1]; }
      k := ReplaceListing(t, i - 1, s);
      if Shown(slots[0]) {
        assert Listing(slots) == [slots[0]] + Listing(t);
        k := k + 1;
      }
    }
  }

  lemma ReplaceOk(slots: seq<Slot>, i: nat, s: Slot)
    requires DirOk(slots) && Visible(slots, i) && Shown(s) && Key(s) == Key(slots[i])
    ensures DirOk(slots[i := s])
  {
    hide Key, Listing;
    var slots' := slots[i := s];
    forall a, b | 0 <= a <= b < |slots'| && Ends(slots'[a]) ensures Ends(slots'[b]) {
      assert a != i && Ends(slots[a]) && Ends(slots[b]);
    }
    var k := ReplaceListing(slots, i, s);
  }

  /** Names being listed once, there are as many entries as names. */
  lemma {:induction false} ListingCounts(slots: seq<Slot>)
    requires Unique(slots)
    ensures |Listing(slots)| == |Dir(slots)|
  {
    hide Key;
    if slots != [] && !Ends(slots[0]) {
      TailUnique(slots);
      ListingCounts(slots[1..]);
    }
  }

  /** With names listed once, every listed entry is what the map holds under its key. */
  lemma {:induction false} ListedInDir(slots: seq<Slot>, j: nat)
    requires Unique(slots) && j < |Listing(slots)|
    ensures Key(Listing(slots)[j]) in Dir(slots) && Dir(slots)[Key(Listing(slots)[j])] == Listing(slots)[j]
  {
    hide Key;
    var t := slots[1..];
    TailUnique(slots);
    if !Shown(slots[0]) {
      ListedInDir(t, j);
    } else if j > 0 {
      assert Listing(slots) == [slots[0]] + Listing(t);
      ListedInDir(t, j - 1);
    }
  }
}
