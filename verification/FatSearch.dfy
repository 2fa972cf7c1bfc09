/** Scanning a directory: what fat_iter_dir visits, in pieces of one sector or one cluster at a time. */
module FatSearch {
  import opened Machine
  import opened FatName
  import opened FatSlots

  /** The three callbacks a scan is run with: lookup, readdir and the emptiness test of unlink. */
  datatype Query = Named(want: seq<byte>) | Ordinal(index: nat) | Real {
    /** Whether the scan ends at this entry, n entries having been visited before it. */
    predicate Stops(s: Slot, n: nat) {
      match this
      case Named(want) => SameName(Name(s), want)
      case Ordinal(index) => n == index
      case Real => Name(s) != [DOT] && Name(s) != [DOT, DOT]
    }
  }

  /** The position of the first visited entry that ends the scan; n entries were visited before. */
  function Search(slots: seq<Slot>, q: Query, n: nat): Option<nat> {
    if slots == [] || Ends(slots[0]) then None
    else if Shown(slots[0]) && q.Stops(slots[0], n) then Some(0)
    else Later(Search(slots[1..], q, n + Count(slots[0])))
  }

  function Count(s: Slot): nat { if Shown(s) then 1 else 0 }

  function Later(r: Option<nat>): Option<nat> {
    match r case None => None case Some(i) => Some(i + 1)
  }

  /** What a scan finds is a listed slot, its ordinal meets the query, and no earlier one does. */
  lemma {:induction false} SearchFinds(slots: seq<Slot>, q: Query, n: nat) returns (j: nat)
    requires Search(slots, q, n).Some?
    ensures var i := Search(slots, q, n).value;
          Visible(slots, i) && j < |Listing(slots)| && Listing(slots)[j] == slots[i]
    ensures q.Stops(Listing(slots)[j], n + j)
    ensures forall k :: 0 <= k < j ==> !q.Stops(Listing(slots)[k], n + k)
  {
    hide Key, Name, SameName, Query.Stops;
    var s, rest, l := slots[0], slots[1..], Listing(slots);
    if Shown(s) && q.Stops(s, n) {
      j := 0;
    } else {
      j := SearchFinds(rest, q, n + Count(s));
      VisibleLater(slots, Search(rest, q, n + Count(s)).value);
      if Shown(s) {
        assert l == [s] + Listing(rest);
        forall k | 0 <= k < j + 1 ensures !q.Stops(l[k], n + k) {
          if k > 0 { assert !q.Stops(Listing(rest)[k - 1], n + 1 + (k - 1)); }
        }
        j := j + 1;
      }
    }
  }

  lemma VisibleLater(slots: seq<Slot>, i: nat)
    requires slots != [] && !Ends(slots[0]) && Visible(slots[1..], i)
    ensures Visible(slots, i + 1)
  {
    forall k | 0 <= k < i + 1 ensures !Ends(slots[k]) {
      if k > 0 { assert slots[1..][k - 1] == slots[k]; }
    }
  }

  lemma {:induction false} SearchMisses(slots: seq<Slot>, q: Query, n: nat)
    requires Search(slots, q, n) == None
    ensures forall j :: 0 <= j < |Listing(slots)| ==> !q.Stops(Listing(slots)[j], n + j)
  {
    hide Key, Name, SameName, Query.Stops;
    if slots != [] && !Ends(slots[0]) {
      var s, rest, l := slots[0], slots[1..], Listing(slots);
      SearchMisses(rest, q, n + Count(s));
      if Shown(s) {
        assert l == [s] + Listing(rest);
        forall j | 0 <= j < |l| ensures !q.Stops(l[j], n + j) {
          if j > 0 { assert !q.Stops(Listing(rest)[j - 1], n + 1 + (j - 1)); }
        }
      }
    }
  }

  /** Looking a name up yields the map's entry, or shows that the map has none. */
  lemma LookupIsMap(slots: seq<Slot>, want: seq<byte>)
    ensures Search(slots, Named(want), 0) == None <==> UpAll(want) !in Dir(slots)
    ensures Search(slots, Named(want), 0).Some? ==>
      var i := Search(slots, Named(want), 0).value;
      Visible(slots, i) && UpAll(want) in Dir(slots) && Dir(slots)[UpAll(want)] == slots[i]
          && Key(slots[i]) == UpAll(want)
  {
    hide Name, SameName;
    var q := Named(want);
    if Search(slots, q, 0) == None {
      SearchMisses(slots, q, 0);
      forall i | 0 <= i < |Listing(slots)| ensures !SameName(Name(Listing(slots)[i]), want) {
        assert !q.Stops(Listing(slots)[i], 0 + i);
      }
      NoMatch(slots, want);
    } else {
      var j := SearchFinds(slots, q, 0);
      forall i | 0 <= i < j ensures !SameName(Name(Listing(slots)[i]), want) {
        assert !q.Stops(Listing(slots)[i], 0 + i);
      }
      FirstMatch(slots, want, j);
      DirIsListing(slots, UpAll(want));
    }
  }

  /** readdir(index) yields the index-th listed entry, and fails exactly beyond the last. */
  lemma ReaddirIsListing(slots: seq<Slot>, index: nat)
    ensures Search(slots, Ordinal(index), 0) == None <==> index >= |Listing(slots)|
    ensures Search(slots, Ordinal(index), 0).Some? ==>
      var i := Search(slots, Ordinal(index), 0).value; Visible(slots, i) && slots[i] == Listing(slots)[index]
  {
    hide Key, Name, SameName;
    var q := Ordinal(index);
    OrdinalFrom(slots, index, 0);
    if Search(slots, q, 0).Some? { var j := SearchFinds(slots, q, 0); }
  }

  lemma {:induction false} OrdinalFrom(slots: seq<Slot>, index: nat, n: nat)
    requires n <= index
    ensures Search(slots, Ordinal(index), n) == None <==> index >= n + |Listing(slots)|
  {
    hide Key, Name, SameName;
    if slots != [] && !Ends(slots[0]) {
      ListingCount(slots);
      if !Shown(slots[0]) || n != index { OrdinalFrom(slots[1..], index, n + Count(slots[0])); }
    }
  }

  /** A directory counts as empty exactly when it lists nothing besides "." and "..". */
  ghost predicate OnlyDots(slots: seq<Slot>) {
    forall j :: 0 <= j < |Listing(slots)| ==> Name(Listing(slots)[j]) == [DOT] || Name(Listing(slots)[j]) == [DOT, DOT]
  }

  lemma EmptyIsListing(slots: seq<Slot>)
    ensures Search(slots, Real, 0) == None <==> OnlyDots(slots)
  {
    hide Name;
    if Search(slots, Real, 0) == None {
      SearchMisses(slots, Real, 0);
      forall j | 0 <= j < |Listing(slots)| ensures Name(Listing(slots)[j]) == [DOT]
          || Name(Listing(slots)[j]) == [DOT, DOT] {
        assert !Real.Stops(Listing(slots)[j], 0 + j);
      }
    } else {
      var j := SearchFinds(slots, Real, 0);
    }
  }

  ghost predicate NoEnd(slots: seq<Slot>) { forall k :: 0 <= k < |slots| ==> !Ends(slots[k]) }

  lemma NoEndTail(slots: seq<Slot>)
    requires slots != [] && !Ends(slots[0])
    ensures NoEnd(slots) <==> NoEnd(slots[1..])
  {
    var t := slots[1..];
    if NoEnd(t) {
      forall k | 0 <= k < |slots| ensures !Ends(slots[k]) { if k > 0 { assert t[k - 1] == slots[k]; } }
    }
  }

  function Shifted(r: Option<nat>, d: nat): Option<nat> {
    match r case None => None case Some(i) => Some(d + i)
  }

  lemma {:induction false} ListingAppend(a: seq<Slot>, b: seq<Slot>)
    requires NoEnd(a)
    ensures Listing(a + b) == Listing(a) + Listing(b)
  {
    if a == [] {
      assert a + b == b;
    } else {
      assert (a + b)[1..] == a[1..] + b;
      NoEndTail(a);
      ListingAppend(a[1..], b);
    }
  }

  lemma ListingCount(a: seq<Slot>)
    requires a == [] || !Ends(a[0])
    ensures |Listing(a)| == if a == [] then 0 else Count(a[0]) + |Listing(a[1..])|
  {
  }

  /** Scanning two pieces one after the other. */
  lemma {:induction false} SearchAppend(a: seq<Slot>, b: seq<Slot>, q: Query, n: nat)
    requires NoEnd(a) && Search(a, q, n) == None
    ensures Search(a + b, q, n) == Shifted(Search(b, q, n + |Listing(a)|), |a|)
  {
    hide Name, SameName, Key, Query.Stops, Listing;
    ListingCount(a);
    if a == [] {
      assert a + b == b;
    } else {
      assert (a + b)[1..] == a[1..] + b;
      NoEndTail(a);
      SearchAppend(a[1..], b, q, n + Count(a[0]));
    }
  }

  /** Nothing behind an end marker is visited, and a hit is a hit whatever follows. */
  lemma {:induction false} SearchSettled(a: seq<Slot>, b: seq<Slot>, q: Query, n: nat)
    requires Search(a, q, n).Some? || !NoEnd(a)
    ensures Search(a + b, q, n) == Search(a, q, n)
  {
    hide Name, SameName, Key, Query.Stops;
    if a != [] && !Ends(a[0]) {
      assert (a + b)[1..] == a[1..] + b;
      NoEndTail(a);
      if !(Shown(a[0]) && q.Stops(a[0], n)) {
        SearchSettled(a[1..], b, q, n + Count(a[0]));
      }
    }
  }
}
