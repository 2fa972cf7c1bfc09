/**
 Short names: fat_make_short_name packs "base.ext" into eleven upper-case, space-padded bytes, and
 fat_name_to_str formats them again.
 */
module FatName {
  import opened Machine

  const DOT: byte := 0x2E
  const SPACE: byte := 0x20

  /** Characters a short name may hold besides the dot. */
  predicate Legal(c: byte) {
    0x20 < c < 0x7F && c !in {DOT, 0x2F, 0x5C, 0x3A, 0x2A, 0x3F, 0x22, 0x3C, 0x3E, 0x7C}
  }

  function Up(c: byte): byte {
    if 0x61 <= c <= 0x7A then c - 0x20 else c
  }

  function UpAll(s: seq<byte>): (r: seq<byte>)
    ensures |r| == |s|
  {
    seq(|s|, i requires 0 <= i < |s| => Up(s[i]))
  }

  function Spaces(n: nat): (s: seq<byte>)
    ensures |s| == n
  {
    seq(n, _ => SPACE)
  }

  predicate AllLegal(s: seq<byte>) { forall i :: 0 <= i < |s| ==> Legal(s[i]) }

  /** The bytes in front of the first dot, and those behind it. */
  function Base(name: seq<byte>): (b: seq<byte>)
    ensures |b| <= |name| && b == name[..|b|] && DOT !in b && (|b| < |name| ==> name[|b|] == DOT)
  {
    if name == [] || name[0] == DOT then [] else [name[0]] + Base(name[1..])
  }

  function Ext(name: seq<byte>): seq<byte> {
    if |Base(name)| < |name| then name[|Base(name)| + 1..] else []
  }

  /** Names that fit 8.3. */
  predicate Fits83(name: seq<byte>) {
    1 <= |Base(name)| <= 8 && |Ext(name)| <= 3 && AllLegal(Base(name)) && AllLegal(Ext(name))
  }

  function Padded(s: seq<byte>, n: nat): (r: seq<byte>)
    requires |s| <= n
    ensures |r| == n
  {
    UpAll(s) + Spaces(n - |s|)
  }

  function Packed(name: seq<byte>): (r: seq<byte>)
    requires Fits83(name)
    ensures |r| == 11
  {
    Padded(Base(name), 8) + Padded(Ext(name), 3)
  }

  /** The bytes in front of the first space. */
  function Trim(s: seq<byte>): (t: seq<byte>)
    ensures |t| <= |s| && t == s[..|t|] && SPACE !in t && (|t| < |s| ==> s[|t|] == SPACE)
  {
    if s == [] || s[0] == SPACE then [] else [s[0]] + Trim(s[1..])
  }

  /** fat_name_to_str. */
  function Format(p: seq<byte>): seq<byte>
    requires |p| == 11
  {
    Trim(p[..8]) + if p[8] != SPACE then [DOT] + Trim(p[8..]) else []
  }

  lemma TrimIs(s: seq<byte>, t: seq<byte>)
    requires |t| <= |s| && t == s[..|t|] && SPACE !in t && (|t| < |s| ==> s[|t|] == SPACE)
    ensures Trim(s) == t
  {
    if t != [] {
      assert t == [s[0]] + t[1..];
      TrimIs(s[1..], t[1..]);
    }
  }

  /** Trimming undoes padding. */
  lemma TrimPadded(s: seq<byte>, n: nat)
    requires |s| <= n && AllLegal(s)
    ensures Trim(Padded(s, n)) == UpAll(s)
  {
    TrimIs(Padded(s, n), UpAll(s));
  }

  lemma LegalKept(c: byte)
    requires Legal(c)
    ensures Up(c) != SPACE && c != DOT && Up(c) !in {0, 0xE5}
  {
  }

  /**
   Packing then formatting gives back the upper-cased name, exactly for names that do not end in a dot;
   with a trailing dot the dot is lost.
   */
  lemma NameRoundTrip(name: seq<byte>)
    requires Fits83(name)
    ensures Format(Packed(name)) == UpAll(name) <==> name[|name| - 1] != DOT
    ensures name[|name| - 1] == DOT ==> Format(Packed(name)) == UpAll(name[..|name| - 1])
  {
    hide Base, Trim, Legal, Format, Packed;
    var b, e := Base(name), Ext(name);
    FormatIs(name);
    if e == [] {
      assert UpAll(b) == UpAll(name[..|b|]);
    } else {
      assert name == b + [DOT] + e;
      assert UpAll(name) == UpAll(b) + [DOT] + UpAll(e);
      assert name[|name| - 1] == e[|e| - 1];
      LegalKept(e[|e| - 1]);
    }
  }

  /** A packed name is formatted from its upper-cased parts. */
  lemma FormatIs(name: seq<byte>)
    requires Fits83(name)
    ensures Format(Packed(name)) == UpAll(Base(name)) + if Ext(name) == [] then [] else [DOT] + UpAll(Ext(name))
  {
    hide Base, Trim, Legal;
    var b, e, p := Base(name), Ext(name), Packed(name);
    TrimPadded(b, 8);
    TrimPadded(e, 3);
    assert p[..8] == Padded(b, 8) && p[8..] == Padded(e, 3);
    if e == [] {
      assert p[8] == SPACE;
    } else {
      LegalKept(e[0]);
      assert p[8] == Up(e[0]);
    }
  }

  /** A packed name never looks like a free or deleted directory slot. */
  lemma PackedStart(name: seq<byte>)
    requires Fits83(name)
    ensures Packed(name)[0] == Up(name[0]) && Packed(name)[0] != 0 && Packed(name)[0] != 0xE5
  {
    assert Base(name)[0] == name[0];
  }

  /** strcasecmp(a, b) == 0: equal once ASCII letters are folded to lower case. */
  function Down(c: byte): byte {
    if 0x41 <= c <= 0x5A then c + 0x20 else c
  }

  predicate SameName(a: seq<byte>, b: seq<byte>) {
    |a| == |b| && forall i :: 0 <= i < |a| ==> Down(a[i]) == Down(b[i])
  }

  /** Folding down and folding up identify the same names. */
  lemma SameNameIsSameKey(a: seq<byte>, b: seq<byte>)
    ensures SameName(a, b) <==> UpAll(a) == UpAll(b)
  {
    if UpAll(a) == UpAll(b) {
      forall i | 0 <= i < |a| ensures Down(a[i]) == Down(b[i]) {
        assert UpAll(a)[i] == UpAll(b)[i];
      }
    }
  }

  /** Whether a prefix of a name is acceptable so far. */
  predicate Acceptable(s: seq<byte>) { s == [] || Fits83(s) }

  /** Base is the only dot-free prefix that reaches the first dot or the end. */
  lemma BaseIs(s: seq<byte>, b: seq<byte>)
    requires |b| <= |s| && b == s[..|b|] && DOT !in b && (|b| < |s| ==> s[|b|] == DOT)
    ensures Base(s) == b
  {
    if b != [] {
      assert b == [s[0]] + b[1..];
      BaseIs(s[1..], b[1..]);
    }
  }

  /** How one more character changes base and extension. */
  lemma OneMore(s: seq<byte>, c: byte)
    ensures Base(s + [c]) == if |Base(s)| < |s| || c == DOT then Base(s) else s + [c]
    ensures Ext(s + [c]) == if |Base(s)| < |s| then Ext(s) + [c] else []
  {
    hide Base;
    var b, t := Base(s), s + [c];
    if |b| < |s| || c == DOT {
      assert t[..|b|] == b && t[|b|] == DOT;
      BaseIs(t, b);
    } else {
      assert b == s && DOT !in t;
      BaseIs(t, t);
    }
  }

  /** The state of fat_make_short_name after reading a prefix. */
  ghost predicate Scanned(s: seq<byte>, baseLen: nat, extLen: nat, inExt: bool, out: seq<byte>) {
    var scanned := Acceptable(s) && inExt == (|Base(s)| < |s|) && baseLen == |Base(s)| <= 8 && extLen == |Ext(s)| <= 3
      && out == Padded(Base(s), 8) + Padded(Ext(s), 3);
    scanned
  }

  lemma ScanDot(s: seq<byte>, baseLen: nat, extLen: nat, inExt: bool, out: seq<byte>)
    requires Scanned(s, baseLen, extLen, inExt, out)
    ensures if inExt || baseLen == 0 then !Acceptable(s + [DOT]) else Scanned(s + [DOT], baseLen, extLen, true, out)
  {
    OneMore(s, DOT);
    if inExt {
      assert (Ext(s) + [DOT])[|Ext(s)|] == DOT;
    }
  }

  lemma ScanIllegal(s: seq<byte>, baseLen: nat, extLen: nat, inExt: bool, out: seq<byte>, c: byte)
    requires Scanned(s, baseLen, extLen, inExt, out) && !Legal(c) && c != DOT
    ensures !Acceptable(s + [c])
  {
    OneMore(s, c);
    if inExt {
      assert (Ext(s) + [c])[|Ext(s)|] == c;
    } else {
      assert (s + [c])[|s|] == c;
    }
  }

  lemma PaddedMore(s: seq<byte>, n: nat, c: byte)
    requires |s| < n
    ensures Padded(s + [c], n) == Padded(s, n)[|s| := Up(c)]
  {
  }

  lemma ScanExt(s: seq<byte>, baseLen: nat, extLen: nat, out: seq<byte>, c: byte)
    requires Scanned(s, baseLen, extLen, true, out) && Legal(c)
    ensures if extLen >= 3 then !Acceptable(s + [c])
            else |out| == 11 && Scanned(s + [c], baseLen, extLen + 1, true, out[8 + extLen := Up(c)])
  {
    hide Base, Legal;
    OneMore(s, c);
    if extLen < 3 {
      PaddedMore(Ext(s), 3, c);
    }
  }

  lemma ScanBase(s: seq<byte>, baseLen: nat, extLen: nat, out: seq<byte>, c: byte)
    requires Scanned(s, baseLen, extLen, false, out) && Legal(c)
    ensures if baseLen >= 8 then !Acceptable(s + [c])
            else |out| == 11 && Scanned(s + [c], baseLen + 1, extLen, false, out[baseLen := Up(c)])
  {
    hide Base, Legal;
    LegalKept(c);
    OneMore(s, c);
    assert Base(s) == s;
    if baseLen < 8 {
      PaddedMore(s, 8, c);
    } else {
      assert |Base(s + [c])| == 9;
    }
  }

  lemma ScanStart()
    ensures Scanned([], 0, 0, false, Spaces(11))
  {
    assert Spaces(11) == Padded([], 8) + Padded([], 3);
  }

  lemma {:induction false} PrefixAcceptable(name: seq<byte>, k: nat)
    requires k <= |name| && !Acceptable(name[..k])
    ensures !Acceptable(name)
    decreases |name| - k
  {
    if k < |name| {
      var s := name[..k];
      assert name[..k + 1] == s + [name[k]];
      OneMore(s, name[k]);
      StaysUnacceptable(s, name[k]);
      PrefixAcceptable(name, k + 1);
    } else {
      assert name[..k] == name;
    }
  }

  lemma StaysUnacceptable(s: seq<byte>, c: byte)
    requires !Acceptable(s)
    ensures !Acceptable(s + [c])
  {
    OneMore(s, c);
    if |Base(s)| < |s| {
      if AllLegal(Ext(s) + [c]) {
        assert forall i :: 0 <= i < |Ext(s)| ==> (Ext(s) + [c])[i] == Ext(s)[i];
      }
    } else if c != DOT {
      if AllLegal(s + [c]) {
        assert forall i :: 0 <= i < |s| ==> (s + [c])[i] == s[i];
      }
    }
  }

  /** The first character that cannot be accepted, and the error it gives. */
  ghost predicate Refused(name: seq<byte>, k: nat, r: Errno) {
    k < |name| && Acceptable(name[..k]) && !Acceptable(name[..k + 1])
        && r == if Legal(name[k]) then NameTooLong else InvalidArgument
  }

  /**
   fat_make_short_name: succeeds exactly on names that fit 8.3. The first character that cannot be
   accepted decides the error.
   */
  method MakeShortName(name: seq<byte>) returns (r: Errno, out: seq<byte>)
    ensures r == Success <==> Fits83(name)
    ensures r == Success ==> out == Packed(name)
    ensures r != Success && name != [] ==> exists k: nat :: Refused(name, k, r)
    ensures name == [] ==> r == InvalidArgument
    ensures r in {Success, InvalidArgument, NameTooLong}
  {
    hide Scanned, Base, Legal, Acceptable;
    out := Spaces(11);
    if |name| == 0 { return InvalidArgument, out; }
    var baseLen: nat, extLen: nat, inExt, i := 0, 0, false, 0;
    ScanStart();
    while i < |name|
      invariant 0 <= i <= |name| && Scanned(name[..i], baseLen, extLen, inExt, out)
    {
      r, baseLen, extLen, inExt, out := Character(name, i, baseLen, extLen, inExt, out);
      if r != Success { return; }
      i := i + 1;
    }
    assert name[..|name|] == name;
    ScanDone(name, baseLen, extLen, inExt, out);
    return Success, out;
  }

  lemma ScanDone(name: seq<byte>, baseLen: nat, extLen: nat, inExt: bool, out: seq<byte>)
    requires Scanned(name, baseLen, extLen, inExt, out) && name != []
    ensures Fits83(name) && out == Packed(name)
  {
  }

  /** The body of the scanning loop. */
  method Character(name: seq<byte>, i: nat, baseLen: nat, extLen: nat, inExt: bool, out: seq<byte>)
    returns (r: Errno, baseLen': nat, extLen': nat, inExt': bool, out': seq<byte>)
    requires i < |name| && Scanned(name[..i], baseLen, extLen, inExt, out)
    ensures r == Success ==> Scanned(name[..i + 1], baseLen', extLen', inExt', out')
    ensures r != Success ==> Refused(name, i, r) && !Fits83(name)
    ensures r in {Success, InvalidArgument, NameTooLong}
  {
    hide Scanned, Acceptable;
    ScannedAcceptable(name[..i], baseLen, extLen, inExt, out);
    baseLen', extLen', inExt', out' := baseLen, extLen, inExt, out;
    var c := name[i];
    assert name[..i + 1] == name[..i] + [c];
    if !Acceptable(name[..i + 1]) { PrefixAcceptable(name, i + 1); NotFitting(name); }
    r := Success;
    if c == DOT {
      ScanDot(name[..i], baseLen, extLen, inExt, out);
      if inExt || baseLen == 0 { r := InvalidArgument; return; }
      inExt' := true;
    } else if !Legal(c) {
      ScanIllegal(name[..i], baseLen, extLen, inExt, out, c);
      r := InvalidArgument;
    } else if inExt {
      ScanExt(name[..i], baseLen, extLen, out, c);
      extLen' := extLen + 1;
      if extLen' > 3 { r := NameTooLong; return; }
      out' := out[8 + extLen' - 1 := Up(c)];
    } else {
      ScanBase(name[..i], baseLen, extLen, out, c);
      baseLen' := baseLen + 1;
      if baseLen' > 8 { r := NameTooLong; return; }
      out' := out[baseLen' - 1 := Up(c)];
    }
  }

  lemma NotFitting(s: seq<byte>)
    requires !Acceptable(s)
    ensures !Fits83(s)
  {
  }

  lemma ScannedAcceptable(s: seq<byte>, baseLen: nat, extLen: nat, inExt: bool, out: seq<byte>)
    requires Scanned(s, baseLen, extLen, inExt, out)
    ensures Acceptable(s)
  {
  }

  /** fat_name_to_str: the bytes up to a space in each part, and a dot only before an extension. */
  method NameToStr(name: seq<byte>) returns (out: seq<byte>)
    requires |name| == 11
    ensures out == Format(name)
  {
    out := [];
    var i := 0;
    while i < 8 && name[i] != SPACE
      invariant 0 <= i <= 8 && out == name[..i] && SPACE !in out
    {
      out := out + [name[i]];
      i := i + 1;
    }
    TrimIs(name[..8], out);
    if name[8] != SPACE {
      ghost var base := out;
      out := out + [DOT];
      i := 8;
      while i < 11 && name[i] != SPACE
        invariant 8 <= i <= 11 && out == base + [DOT] + name[8..i] && SPACE !in name[8..i]
      {
        out := out + [name[i]];
        assert name[8..i + 1] == name[8..i] + [name[i]];
        i := i + 1;
      }
      TrimIs(name[8..], name[8..i]);
    }
  }
}
