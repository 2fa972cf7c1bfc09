/**
 Whole runs of read, write and truncate over all open files of a volume: one live node per file. Every
 operation refines the same operation on plain byte sequences, and none disturbs another file.
 */
module FatRun {
  import opened Machine
  import opened FatLayout
  import opened FatChain
  import opened FatContent
  import opened FatVolume
  import opened FatFile
  import opened FatStep
  import opened FatIo
  import opened FatTruncate
  import opened FatWrite

  datatype Entry = Entry(f: File, home: Home)

  /** A directory entry kept in cluster c. */
  predicate KeptIn(home: Home, c: nat) {
    home.At? && home.spot.InCluster? && home.spot.c == c
  }

  /** Two directory entries do not share a byte. */
  predicate Apart(a: Home, b: Home) {
    match (a, b)
    case (At(InRoot(i)), At(InRoot(j))) => i + SLOT <= j || j + SLOT <= i
    case (At(InCluster(c, i)), At(InCluster(d, j))) => c != d || i + SLOT <= j || j + SLOT <= i
    case _ => true
  }

  /** Two files of one volume keep out of each other's way. */
  ghost predicate Separate(a: Entry, b: Entry) {
    && Disjoint(a.f.chain, b.f.chain) && Apart(a.home, b.home)
    && (forall c :: c in a.f.chain ==> !KeptIn(b.home, c))
    && (forall c :: c in b.f.chain ==> !KeptIn(a.home, c))
  }

  /** The invariant: every file is sound, and any two are separate. */
  ghost predicate Inv(g: Geo, v: View, files: seq<Entry>) {
    && Shaped(g, v)
    && (forall i :: 0 <= i < |files| ==> FileOk(g, v, files[i].f, files[i].home))
    && (forall i, j :: 0 <= i < |files| && 0 <= j < |files| && i != j ==> Separate(files[i], files[j]))
  }

  ghost function Contents(g: Geo, v: View, files: seq<Entry>): (s: seq<seq<byte>>)
    requires Inv(g, v, files)
    ensures |s| == |files|
  {
    seq(|files|, i requires 0 <= i < |files| => Content(g, v, files[i].f))
  }

  ghost predicate Owned(files: seq<Entry>, c: nat) {
    exists i :: 0 <= i < |files| && c in files[i].f.chain
  }

  /** Clusters that are free or belong to one of the files. */
  ghost function Pool(g: Geo, v: View, files: seq<Entry>): set<nat>
    requires |v.table| == g.limit
  {
    set c: nat | c < g.limit && g.Cluster(c) && (v.table[c] == 0 || Owned(files, c))
  }

  ghost function TotalLength(files: seq<Entry>): nat {
    if files == [] then 0 else TotalLength(files[..|files| - 1]) + |files[|files| - 1].f.chain|
  }

  /** Free clusters and chain lengths add up to the pool. */
  lemma {:induction false} PoolCount(g: Geo, v: View, files: seq<Entry>)
    requires Inv(g, v, files)
    ensures |Pool(g, v, files)| == |FreeSet(g, v)| + TotalLength(files)
  {
    if files == [] {
      assert Pool(g, v, files) == FreeSet(g, v);
    } else {
      var rest, last := files[..|files| - 1], files[|files| - 1];
      PoolCount(g, v, rest);
      MembersCount(last.f.chain);
      PoolSplit(g, v, files);
    }
  }

  lemma PoolSplit(g: Geo, v: View, files: seq<Entry>)
    requires Inv(g, v, files) && files != []
    ensures var rest, chain := files[..|files| - 1], files[|files| - 1].f.chain;
            Pool(g, v, files) == Pool(g, v, rest) + Members(chain) && Pool(g, v, rest) !! Members(chain)
  {
    var n := |files| - 1;
    var rest, last := files[..n], files[n];
    forall c | c in last.f.chain ensures c in Pool(g, v, files) && c !in Pool(g, v, rest) {
      MembersInUse(g, v.table, last.f.first, last.f.chain, c);
      assert c in files[n].f.chain;
      forall i | 0 <= i < n ensures c !in rest[i].f.chain {
        assert Separate(files[n], files[i]);
      }
    }
    forall c: nat ensures Owned(files, c) <==> Owned(rest, c) || c in last.f.chain {
      if Owned(rest, c) {
        var i :| 0 <= i < |rest| && c in rest[i].f.chain;
        assert c in files[i].f.chain;
      }
      if c in last.f.chain { assert c in files[n].f.chain; }
    }
  }

  /** A step of one file leaves a separate file's chain, bytes and directory entry alone. */
  lemma OtherFileKept(g: Geo, v: View, a: Entry, v': View, f': File, b: Entry)
    requires FileOk(g, v, a.f, a.home) && FileOk(g, v, b.f, b.home) && Separate(a, b)
    requires FileStep(g, v, a.f, v', f', a.home)
    ensures Disjoint(f'.chain, b.f.chain)
    ensures forall c :: c in b.f.chain ==> v'.table[c] == v.table[c] && v'.data[c] == v.data[c]
  {
    forall c | c in b.f.chain
      ensures c < g.limit && c !in a.f.chain && c !in f'.chain && v'.table[c] == v.table[c] && v'.data[c] == v.data[c]
    {
      MembersInUse(g, v.table, b.f.first, b.f.chain, c);
      assert c !in a.f.chain + f'.chain;
    }
  }

  lemma OtherFileOk(g: Geo, v: View, a: Entry, v': View, f': File, b: Entry)
    requires FileOk(g, v, a.f, a.home) && FileOk(g, v, b.f, b.home) && Separate(a, b)
    requires FileStep(g, v, a.f, v', f', a.home)
    ensures FileOk(g, v', b.f, b.home) && Content(g, v', b.f) == Content(g, v, b.f)
    ensures Separate(Entry(f', a.home), b)
  {
    OtherFileKept(g, v, a, v', f', b);
    ChainFramed(g, v.table, v'.table, b.f.first, b.f.chain);
    BytesFramed(g, v.data, v'.data, b.f.chain);
    OtherHomeKept(g, v, a, v', f', b);
  }

  lemma OtherHomeKept(g: Geo, v: View, a: Entry, v': View, f': File, b: Entry)
    requires FileOk(g, v, a.f, a.home) && FileOk(g, v, b.f, b.home) && Separate(a, b)
    requires FileStep(g, v, a.f, v', f', a.home)
    ensures HomeOk(g, v', b.home, b.f.chain)
    ensures forall c :: c in f'.chain ==> !KeptIn(b.home, c)
  {
    if b.home.At? && b.home.spot.InCluster? {
      var c := b.home.spot.c;
      assert KeptIn(b.home, c) && v.table[c] != 0;
    }
  }

  /** The entry of a separate file keeps its bytes. */
  lemma OtherEntryKept(g: Geo, v: View, a: Entry, v': View, f': File, b: Entry)
    requires FileOk(g, v, a.f, a.home) && FileOk(g, v, b.f, b.home) && Separate(a, b)
    requires FileStep(g, v, a.f, v', f', a.home) && b.home.At?
    ensures Holds(v, b.home.spot, SLOT) && Holds(v', b.home.spot, SLOT)
    ensures Peek(v', b.home.spot, SLOT) == Peek(v, b.home.spot, SLOT)
  {
    OtherHomeKept(g, v, a, v', f', b);
    match b.home.spot
    case InRoot(at) =>
    case InCluster(c, at) =>
      assert KeptIn(b.home, c);
      assert c !in a.f.chain + f'.chain;
  }

  /** The files after a step of the id-th one. */
  function Moved(files: seq<Entry>, id: nat, f': File): (r: seq<Entry>)
    requires id < |files|
    ensures |r| == |files|
  {
    files[id := files[id].(f := f')]
  }

  /** A step of one file keeps the invariant and every other file's content. */
  lemma InvStep(g: Geo, v: View, files: seq<Entry>, id: nat, v': View, f': File)
    requires Inv(g, v, files) && id < |files| && FileStep(g, v, files[id].f, v', f', files[id].home)
    ensures Inv(g, v', Moved(files, id, f'))
    ensures Contents(g, v', Moved(files, id, f')) == Contents(g, v, files)[id := Content(g, v', f')]
  {
    var files' := Moved(files, id, f');
    forall i | 0 <= i < |files| && i != id
      ensures FileOk(g, v', files[i].f, files[i].home) && Content(g, v', files[i].f) == Content(g, v, files[i].f)
      ensures Separate(files'[id], files[i]) && Separate(files[i], files'[id])
    {
      assert Separate(files[id], files[i]);
      OtherFileOk(g, v, files[id], v', f', files[i]);
    }
    forall i, j | 0 <= i < |files| && 0 <= j < |files| && i != j ensures Separate(files'[i], files'[j]) {
      assert Separate(files[i], files[j]);
    }
  }

  /** A step of one file neither leaks nor invents a cluster. */
  lemma PoolStep(g: Geo, v: View, files: seq<Entry>, id: nat, v': View, f': File)
    requires Inv(g, v, files) && id < |files| && FileStep(g, v, files[id].f, v', f', files[id].home)
    ensures Pool(g, v', Moved(files, id, f')) == Pool(g, v, files)
  {
    var files' := Moved(files, id, f');
    forall c: nat | c < g.limit && g.Cluster(c)
      ensures v'.table[c] == 0 || Owned(files', c) <==> v.table[c] == 0 || Owned(files, c)
    {
      OwnedStep(files, id, f', c);
      if c in files[id].f.chain && c !in f'.chain { assert v'.table[c] == 0; assert c in files[id].f.chain; }
      if c !in files[id].f.chain && c in f'.chain { assert v.table[c] == 0; assert c in files'[id].f.chain; }
      if c in files[id].f.chain && c in f'.chain { assert c in files[id].f.chain && c in files'[id].f.chain; }
    }
  }

  lemma OwnedStep(files: seq<Entry>, id: nat, f': File, c: nat)
    requires id < |files|
    ensures c !in files[id].f.chain && c !in f'.chain ==> (Owned(files, c) <==> Owned(Moved(files, id, f'), c))
    ensures c in files[id].f.chain ==> Owned(files, c)
    ensures c in f'.chain ==> Owned(Moved(files, id, f'), c)
  {
    var files' := Moved(files, id, f');
    if c !in files[id].f.chain && c !in f'.chain {
      if Owned(files, c) {
        var i :| 0 <= i < |files| && c in files[i].f.chain;
        assert c in files'[i].f.chain;
      }
      if Owned(files', c) {
        var i :| 0 <= i < |files'| && c in files'[i].f.chain;
        assert c in files[i].f.chain;
      }
    }
    if c in f'.chain { assert c in files'[id].f.chain; }
  }

  datatype Op = ReadOp(off: u32, len: u32) | WriteOp(off: u32, buf: seq<byte>) | TruncateOp(n: u32)

  /** One call: the file it was made on, whether memory was granted, the result, and the bytes a read delivered. */
  datatype Event = Event(id: nat, op: Op, granted: bool, r: Errno, out: seq<byte>)

  datatype Fs = Fs(v: View, files: seq<Entry>)

  /** What the three methods guarantee about one call, and no more. */
  ghost predicate Happens(g: Geo, s: Fs, e: Event, s': Fs) {
    && e.id < |s.files| == |s'.files| && (e.granted ==> e.r != OutOfMemory)
    && var a, a' := s.files[e.id], s'.files[e.id];
    && s'.files == Moved(s.files, e.id, a'.f)
    && match e.op
       case ReadOp(off, len) => s' == s && ReadResult(g, s.v, a.f, off, len, e.r, e.out)
       case WriteOp(off, buf) => Written(g, s.v, a.f, a.home, off, buf, e.r, s'.v, a'.f)
       case TruncateOp(n) => Truncated(g, s.v, a.f, a.home, n, e.r, s'.v, a'.f)
  }

  /** Shrinking calls whose size computation does not wrap. */
  ghost predicate Admissible(g: Geo, s: Fs, e: Event) {
    e.id < |s.files| && (e.op.TruncateOp? && e.op.n < s.files[e.id].f.size ==> NoWrap(e.op.n, g.cs))
  }

  /** The same call on plain byte sequences. */
  ghost predicate Allowed(a: seq<seq<byte>>, e: Event, a': seq<seq<byte>>) {
    && e.id < |a| == |a'|
    && a' == a[e.id := a'[e.id]]
    && var was, now := a[e.id], a'[e.id];
    match e.op
    case ReadOp(off, len) => now == was && (e.r == Success ==> e.out == Slice(was, off, len))
    case TruncateOp(n) => now == if e.r == Success then Resized(was, n) else was
    case WriteOp(off, buf) =>
      if e.r == Success then now == (if buf == [] then was else Overwritten(was, off, buf))
      else now in {was, Resized(was, Max(|was|, off + |buf|))}
  }

  /** A call fails for lack of clusters exactly when they do not reach, and otherwise only for lack of memory. */
  ghost predicate Justified(g: Geo, s: Fs, e: Event)
    requires e.id < |s.files|
  {
    var f := s.files[e.id].f;
    && e.r in {Success, NoSpaceLeft, OutOfMemory} && (e.granted ==> e.r != OutOfMemory)
    && match e.op
       case ReadOp(_, _) => e.r != NoSpaceLeft
       case WriteOp(off, buf) => Settled(g, s.v, f, off, buf, e.r)
       case TruncateOp(n) =>
         (e.r == Success ==> Room(g, s.v, f.chain, n)) && (e.r == NoSpaceLeft ==> !Room(g, s.v, f.chain, n))
  }

  /** With memory, a call succeeds exactly when the clusters it needs are there. */
  lemma GrantedExact(g: Geo, s: Fs, e: Event)
    requires e.id < |s.files| && Justified(g, s, e) && e.granted
    ensures var chain := s.files[e.id].f.chain;
            e.r == Success <==> match e.op
                                case ReadOp(_, _) => true
                                case WriteOp(off, buf) =>
                                      buf == [] || (off + |buf| < U32 && Room(g, s.v, chain, off + |buf|))
                                case TruncateOp(n) => Room(g, s.v, chain, n)
  {
    hide Room;
  }

  /** A file of a sound volume is a file whatever its directory entry. */
  lemma ReadRefines(g: Geo, s: Fs, e: Event)
    requires Inv(g, s.v, s.files) && Happens(g, s, e, s) && e.op.ReadOp?
    ensures Allowed(Contents(g, s.v, s.files), e, Contents(g, s.v, s.files)) && Justified(g, s, e)
  {
    var a := s.files[e.id];
    assert FileOk(g, s.v, a.f, a.home);
    assert FileOk(g, s.v, a.f, Nowhere);
    assert Contents(g, s.v, s.files)[e.id] == Content(g, s.v, a.f);
  }

  lemma ChangeRefines(g: Geo, s: Fs, e: Event, s': Fs)
    requires Inv(g, s.v, s.files) && Admissible(g, s, e) && Happens(g, s, e, s') && !e.op.ReadOp?
    ensures var a, a' := s.files[e.id], s'.files[e.id];
            && FileStep(g, s.v, a.f, s'.v, a'.f, a.home) && Justified(g, s, e)
            && Allowed(Contents(g, s.v, s.files), e, Contents(g, s.v, s.files)[e.id := Content(g, s'.v, a'.f)])
  {
    assert FileOk(g, s.v, s.files[e.id].f, s.files[e.id].home);
  }

  /** Every call refines its counterpart on byte sequences and conserves clusters. */
  lemma StepRefines(g: Geo, s: Fs, e: Event, s': Fs)
    requires Inv(g, s.v, s.files) && Admissible(g, s, e) && Happens(g, s, e, s')
    ensures Inv(g, s'.v, s'.files) && |s'.files| == |s.files|
    ensures Allowed(Contents(g, s.v, s.files), e, Contents(g, s'.v, s'.files))
    ensures Pool(g, s'.v, s'.files) == Pool(g, s.v, s.files)
    ensures Justified(g, s, e)
  {
    hide Inv, FileStep, Allowed, Pool, Written, Truncated, ReadResult, Justified;
    if e.op.ReadOp? {
      ReadRefines(g, s, e);
    } else {
      ChangeRefines(g, s, e, s');
      InvStep(g, s.v, s.files, e.id, s'.v, s'.files[e.id].f);
      PoolStep(g, s.v, s.files, e.id, s'.v, s'.files[e.id].f);
    }
  }

  ghost predicate Run(g: Geo, states: seq<Fs>, events: seq<Event>) {
    && |states| == |events| + 1
    && forall k ::
          0 <= k < |events| ==> Admissible(g, states[k], events[k]) && Happens(g, states[k], events[k], states[k + 1])
  }

  /** In every run, from every sound start, all calls refine byte sequences and all clusters stay accounted for. */
  lemma {:induction false} RunRefines(g: Geo, states: seq<Fs>, events: seq<Event>, k: nat)
    requires Run(g, states, events) && Inv(g, states[0].v, states[0].files) && k < |states|
    ensures Inv(g, states[k].v, states[k].files)
    ensures k < |events| ==>
      && Inv(g, states[k + 1].v, states[k + 1].files)
      && Allowed(Contents(g, states[k].v, states[k].files), events[k],
          Contents(g, states[k + 1].v, states[k + 1].files))
      && events[k].id < |states[k].files| && Justified(g, states[k], events[k])
    ensures |FreeSet(g, states[k].v)| + TotalLength(states[k].files) ==
        |FreeSet(g, states[0].v)| + TotalLength(states[0].files)
  {
    hide Inv, Happens, Allowed, Pool, Justified;
    RunInvariant(g, states, events, k);
    PoolCount(g, states[k].v, states[k].files);
    PoolCount(g, states[0].v, states[0].files);
    if k < |events| { StepRefines(g, states[k], events[k], states[k + 1]); }
  }

  lemma {:induction false} RunInvariant(g: Geo, states: seq<Fs>, events: seq<Event>, k: nat)
    requires Run(g, states, events) && Inv(g, states[0].v, states[0].files) && k < |states|
    ensures Inv(g, states[k].v, states[k].files) && |states[k].files| == |states[0].files|
    ensures Pool(g, states[k].v, states[k].files) == Pool(g, states[0].v, states[0].files)
  {
    hide Inv, Happens, Allowed, Pool;
    if k > 0 {
      RunInvariant(g, states, events, k - 1);
      StepRefines(g, states[k - 1], events[k - 1], states[k]);
    }
  }

  /** What a successful call makes of the files' contents. */
  function Apply(a: seq<seq<byte>>, e: Event): (r: seq<seq<byte>>)
    requires e.id < |a|
    ensures |r| == |a|
  {
    match e.op
    case ReadOp(_, _) => a
    case TruncateOp(n) => a[e.id := Resized(a[e.id], n)]
    case WriteOp(off, buf) => if buf == [] then a else a[e.id := Overwritten(a[e.id], off, buf)]
  }

  function ApplyAll(a: seq<seq<byte>>, events: seq<Event>): (r: seq<seq<byte>>)
    requires forall k :: 0 <= k < |events| ==> events[k].id < |a|
    ensures |r| == |a|
  {
    if events == [] then a else Apply(ApplyAll(a, events[..|events| - 1]), events[|events| - 1])
  }

  /** A run of successful calls ends with exactly the contents the calls compute on byte sequences. */
  lemma {:induction false} SuccessfulRun(g: Geo, states: seq<Fs>, events: seq<Event>)
    requires Run(g, states, events) && Inv(g, states[0].v, states[0].files)
    requires forall k :: 0 <= k < |events| ==> events[k].r == Success
    ensures var n := |events|;
            && Inv(g, states[n].v, states[n].files)
            && (forall k :: 0 <= k < n ==> events[k].id < |states[0].files|)
            && Contents(g, states[n].v, states[n].files) == ApplyAll(Contents(g, states[0].v, states[0].files), events)
  {
    hide Inv, Happens, Allowed, Pool;
    var n := |events|;
    RunInvariant(g, states, events, n);
    forall k | 0 <= k < n ensures events[k].id < |states[0].files| {
      RunInvariant(g, states, events, k);
    }
    if n > 0 {
      SuccessfulRun(g, states[..n], events[..n - 1]);
      RunInvariant(g, states, events, n - 1);
      StepRefines(g, states[n - 1], events[n - 1], states[n]);
      AllowedSuccess(Contents(g, states[n - 1].v, states[n - 1].files), events[n - 1],
          Contents(g, states[n].v, states[n].files));
    }
  }

  lemma AllowedSuccess(a: seq<seq<byte>>, e: Event, a': seq<seq<byte>>)
    requires Allowed(a, e, a') && e.r == Success
    ensures a' == Apply(a, e)
  {
  }
}
