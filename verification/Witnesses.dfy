/** Concrete inputs, from a freshly formatted disk, on which the code misses its promise. */
module Witnesses {
  import opened Memory
  import opened DirEntry
  import opened Disk
  import opened Volume
  import opened Invariant
  import opened Operations
  import opened Refinement
  import opened Runs
  import opened Exactness
  import opened Undo
  import opened Effects
  import Paging
  import FrameIsolation
  import Process
  import ProcessRuns

  /** A request for a one-letter name in the root. */
  function Named(letter: byte, size: u32): Request {
    RawRequest([letter, 0, 0, 0, 0, 0, 0, 0], NO_EXT, ROOT, size)
  }

  // ----- The 8-bit cluster parameter

  /** 253 clusters, which fill the disk from cluster 3 to cluster 255. */
  const BIG := 253 * 2048

  lemma FirstFitIs(fat: Fat, n: nat, from: nat, s: nat)
    requires from <= s && AllEmpty(fat, s, n) && forall k: nat :: from <= k < s ==> !AllEmpty(fat, k, n)
    ensures FirstFit(fat, n, from) == s
  {
  }

  /** A write of a plain file name that the root does not list yet, with slot i free. */
  lemma PlainWriteOk(v: Vol, g: Layout, req: Request, buf: Bytes, i: nat)
    requires Inv(v, g) && req.parent == ROOT && ProperKey(req) && req.size > 0
    requires KeyReq(req) != ZERO_KEY && KeyReq(req) != DOTDOT_KEY && !HasKey(v, g, ROOT, KeyReq(req))
    requires 2 <= i < SLOTS && !Used(Entry(v, ROOT, i)) && CLUSTER_SIZE * ClustersFor(req.size) <= |buf|
    ensures WriteOk(v, g, req, buf) && WriteReaches(v, req) && KeyReq(req) != ZERO_KEY
  {
    DirsAreValidParents(v, g, ROOT);
    DuplicateIff(v, g, ROOT, KeyReq(req));
  }

  lemma NamedKey(letter: byte, size: u32)
    requires letter == 'a' as int || letter == 'b' as int
    ensures var req := Named(letter, size);
            ProperKey(req) && KeyReq(req) != ZERO_KEY && KeyReq(req) != DOTDOT_KEY
  {
    var k := KeyReq(Named(letter, size)).name;
    assert k[0] != ZERO_KEY.name[0] && k[0] != DOTDOT[0];
  }

  lemma FreshRoot(f: Vol)
    requires Inv(f, ROOT_LAYOUT) && f.fat == FormatFat()
    ensures forall i :: 2 <= i < SLOTS ==> !Used(Entry(f, ROOT, i))
    ensures forall key :: !HasKey(f, ROOT_LAYOUT, ROOT, key)
  {
    forall i | 2 <= i < SLOTS
      ensures !Used(Entry(f, ROOT, i))
    {
      assert SlotOk(f, ROOT_LAYOUT, ROOT, i);
    }
  }

  /** The first write, of the large file "a", succeeds. */
  lemma FirstWrite(f: Vol, req: Request, buf: Bytes)
    requires Inv(f, ROOT_LAYOUT) && f.fat == FormatFat() && req == Named('a' as int, BIG) && |buf| == BIG
    ensures WriteOk(f, ROOT_LAYOUT, req, buf) && Stores(f, req) && NumbersFit(W8, f, req)
    ensures var a := WriteAddition(W8, f, req, buf);
            a.p == ROOT && a.s == 3 && a.n == 253 && a.i == 2
  {
    NamedKey('a' as int, BIG);
    FreshRoot(f);
    PlainWriteOk(f, ROOT_LAYOUT, req, buf, 2);
    FirstFitIs(f.fat, 253, 3, 3);
    WritePlaces(W8, f, req, buf);
  }

  /** After it, the second write, of the one-byte file "b", gets cluster 256. */
  lemma SecondWrite(f: Vol, reqA: Request, bufA: Bytes, v: Vol, g: Layout, reqB: Request, bufB: Bytes)
    requires Inv(f, ROOT_LAYOUT) && f.fat == FormatFat() && reqA == Named('a' as int, BIG) && |bufA| == BIG
    requires reqB == Named('b' as int, 1) && |bufB| == CLUSTER_SIZE
    requires WriteOk(f, ROOT_LAYOUT, reqA, bufA) && v == Write(W8, f, reqA, bufA).0
    requires g == WriteLayout(W8, f, ROOT_LAYOUT, reqA, bufA) && Inv(v, g)
    ensures WriteOk(v, g, reqB, bufB) && Stores(v, reqB) && !NumbersFit(W8, v, reqB)
    ensures Target(v, reqB) == 256 && FirstUnused(v.disk[ROOT], 2) == 3
  {
    FirstWrite(f, reqA, bufA);
    var a := WriteAddition(W8, f, reqA, bufA);
    WriteFits(W8, f, ROOT_LAYOUT, reqA, bufA);
    WriteAdds(W8, f, ROOT_LAYOUT, reqA, bufA);
    WriteDescribes(W8, f, reqA, bufA);
    NamedKey('b' as int, 1);
    SecondRoot(f, v, a, g, reqB);
    PlainWriteOk(v, g, reqB, bufB, 3);
    SecondFit(f, v, a);
  }

  lemma SecondRoot(f: Vol, v: Vol, a: Addition, g: Layout, req: Request)
    requires Inv(f, ROOT_LAYOUT) && f.fat == FormatFat() && AddFits(f, ROOT_LAYOUT, a) && v == AddVol(f, ROOT_LAYOUT, a)
    requires g == AddLayout(ROOT_LAYOUT, a) && DirsOk(g) && a.p == ROOT && a.i == 2
    requires KeyOf(a.slot) == KeyReq(Named('a' as int, BIG)) && req == Named('b' as int, 1)
    ensures !Used(Entry(v, ROOT, 3)) && !HasKey(v, g, ROOT, KeyReq(req))
    ensures Used(a.slot) ==> FirstUnused(v.disk[ROOT], 2) == 3
  {
    FreshRoot(f);
    DirsEnd(f, ROOT_LAYOUT);
    AddFrame(f, ROOT_LAYOUT, a);
    assert KeyOf(a.slot).name[0] != KeyReq(req).name[0];
    forall i: nat | 2 <= i < SLOTS
      ensures !ListedAt(v, g, ROOT, i, KeyReq(req))
    {
      assert Entry(v, ROOT, i) == if i == 2 then a.slot else Entry(f, ROOT, i);
    }
    assert Entry(v, ROOT, 3) == Entry(f, ROOT, 3) && Entry(v, ROOT, 2) == a.slot;
  }

  lemma SecondFit(f: Vol, v: Vol, a: Addition)
    requires f.fat == FormatFat() && a.s == 3 && a.n == 253 && v.fat == SetChain(f.fat, 3, 253)
    ensures FirstFit(v.fat, ClustersFor(1), FIRST_DATA) == 256
  {
    forall k: nat | 3 <= k < 256
      ensures !AllEmpty(v.fat, k, 1)
    {
      ChainNonEmpty(v.fat, 3, 253, k);
    }
    FirstFitIs(v.fat, 1, 3, 256);
  }

  /** A sound volume, a write its caller may make, and an unsound volume after it, in which slot i of the root
      says cluster c. */
  ghost predicate Spoils(v: Vol, req: Request, buf: Bytes, i: nat, c: nat) {
    Sound(v) && WriteSafe(v, req, buf) && Write(W8, v, req, buf).1 == 0 && !Sound(Write(W8, v, req, buf).0)
    && i < SLOTS && Start(Entry(Write(W8, v, req, buf).0, ROOT, i)) == c
  }

  lemma FirstSound(f: Vol, reqA: Request, bufA: Bytes, v1: Vol, g1: Layout)
    requires Inv(f, ROOT_LAYOUT) && f.fat == FormatFat() && reqA == Named('a' as int, BIG) && |bufA| == BIG
    requires WriteOk(f, ROOT_LAYOUT, reqA, bufA)
    requires v1 == Write(W8, f, reqA, bufA).0 && g1 == WriteLayout(W8, f, ROOT_LAYOUT, reqA, bufA)
    ensures Inv(v1, g1)
  {
    FirstWrite(f, reqA, bufA);
    WriteKeepsInv(W8, f, ROOT_LAYOUT, reqA, bufA);
  }

  lemma TwoWrites(f: Vol, reqA: Request, bufA: Bytes, v1: Vol, g1: Layout, reqB: Request, bufB: Bytes)
    requires Inv(f, ROOT_LAYOUT) && f.fat == FormatFat() && reqA == Named('a' as int, BIG) && |bufA| == BIG
    requires reqB == Named('b' as int, 1) && |bufB| == CLUSTER_SIZE
    requires WriteOk(f, ROOT_LAYOUT, reqA, bufA)
    requires v1 == Write(W8, f, reqA, bufA).0 && g1 == WriteLayout(W8, f, ROOT_LAYOUT, reqA, bufA)
    ensures Spoils(v1, reqB, bufB, 3, 0)
  {
    FirstSound(f, reqA, bufA, v1, g1);
    SecondWrite(f, reqA, bufA, v1, g1, reqB, bufB);
    UnsoundWrite(v1, g1, reqB, bufB);
  }

  lemma FirstOk(f: Vol, reqA: Request, bufA: Bytes)
    requires Inv(f, ROOT_LAYOUT) && f.fat == FormatFat() && reqA == Named('a' as int, BIG) && |bufA| == BIG
    ensures WriteOk(f, ROOT_LAYOUT, reqA, bufA)
  {
    FirstWrite(f, reqA, bufA);
  }

  lemma FreshBreaks(f: Vol, reqA: Request, bufA: Bytes, v1: Vol, reqB: Request, bufB: Bytes)
    requires Inv(f, ROOT_LAYOUT) && f.fat == FormatFat() && reqA == Named('a' as int, BIG) && |bufA| == BIG
    requires reqB == Named('b' as int, 1) && |bufB| == CLUSTER_SIZE
    requires WriteOk(f, ROOT_LAYOUT, reqA, bufA) && v1 == Write(W8, f, reqA, bufA).0
    ensures Spoils(v1, reqB, bufB, 3, 0)
  {
    TwoWrites(f, reqA, bufA, v1, WriteLayout(W8, f, ROOT_LAYOUT, reqA, bufA), reqB, bufB);
  }

  /** With the 8-bit parameter, two plain writes on a fresh disk f already leave an unsound volume:
      the second file starts at cluster 256 and its entry says cluster 0. */
  lemma EightBitsBreak(v: Vol, root: Cluster, reqA: Request, bufA: Bytes, reqB: Request, bufB: Bytes)
    requires CleanStack(root) && reqA == Named('a' as int, BIG) && |bufA| == BIG
    requires reqB == Named('b' as int, 1) && |bufB| == CLUSTER_SIZE
    ensures var f := Format(v, root);
            WriteSafe(f, reqA, bufA) && Spoils(Write(W8, f, reqA, bufA).0, reqB, bufB, 3, 0)
  {
    FormatSoundIff(v, root);
    FormatRoot(v, root);
    var f := Format(v, root);
    FirstOk(f, reqA, bufA);
    FreshBreaks(f, reqA, bufA, Write(W8, f, reqA, bufA).0, reqB, bufB);
  }

  lemma UnsoundWrite(v: Vol, g: Layout, req: Request, buf: Bytes)
    requires Inv(v, g) && WriteOk(v, g, req, buf) && Stores(v, req) && !NumbersFit(W8, v, req)
    requires req.parent == ROOT && Target(v, req) % 0x100 == 0
    ensures Spoils(v, req, buf, FirstUnused(v.disk[ROOT], 2), 0)
  {
    WriteSoundIff(W8, v, g, req, buf);
    ZeroStored(v, req, buf);
  }

  lemma ZeroStored(v: Vol, req: Request, buf: Bytes)
    requires WriteSafe(v, req, buf) && Stores(v, req) && req.parent == ROOT && Target(v, req) % 0x100 == 0
    ensures FirstUnused(v.disk[ROOT], 2) < SLOTS
    ensures Start(Entry(Write(W8, v, req, buf).0, ROOT, FirstUnused(v.disk[ROOT], 2))) == 0
  {
    StoredNumbers(W8, v, req, buf);
    var i, t := FirstUnused(v.disk[ROOT], 2), Target(v, req);
    LowByteZero(Start(SlotAt(Write(W8, v, req, buf).0.disk[ROOT], i)), t);
  }

  lemma LowByteZero(stored: nat, number: nat)
    requires Keeps(W8, stored, number) && number % 0x100 == 0
    ensures stored == 0
  {
  }

  // ----- Deleting a directory's own entry

  /** Deleting "root" in the root of a fresh disk returns 0 and leaves an unsound volume. */
  lemma DeletingRootBreaks(v: Vol, root: Cluster)
    requires CleanStack(root)
    ensures var f, req := Format(v, root), RawRequest(ROOT_NAME, NO_EXT, ROOT, 0);
            DeleteSafe(f, req) && Delete(f, req).1 == 0 && !Sound(Delete(f, req).0)
  {
    FormatSoundIff(v, root);
    FormatRoot(v, root);
    DeleteRoot(Format(v, root), RawRequest(ROOT_NAME, NO_EXT, ROOT, 0));
  }

  lemma DeleteRoot(f: Vol, req: Request)
    requires Inv(f, ROOT_LAYOUT) && f.fat == FormatFat() && req == RawRequest(ROOT_NAME, NO_EXT, ROOT, 0)
    ensures DeleteSafe(f, req) && Delete(f, req).1 == 0 && !Sound(Delete(f, req).0)
  {
    assert KeyReq(req).name[0] != ZERO_KEY.name[0];
    HitsRoot(f, req);
    NamedLookupOk(f, ROOT_LAYOUT, req);
    DeleteSoundIff(f, ROOT_LAYOUT, req);
  }

  lemma HitsRoot(f: Vol, req: Request)
    requires Inv(f, ROOT_LAYOUT) && f.fat == FormatFat() && req == RawRequest(ROOT_NAME, NO_EXT, ROOT, 0)
    ensures DeletesSelf(f, req)
  {
    DirsAreValidParents(f, ROOT_LAYOUT, ROOT);
    HeadEntry(f, ROOT_LAYOUT, ROOT, 0);
    FreshRoot(f);
    forall i | 2 <= i < SLOTS
      ensures !Used(SlotAt(f.disk[ROOT], i))
    {
      assert !Used(Entry(f, ROOT, i));
    }
    RootKey(f, ROOT_LAYOUT);
  }

  lemma RootKey(v: Vol, g: Layout)
    requires DirsOk(g) && HeadsOk(v, g)
    ensures KeyOf(SlotAt(v.disk[ROOT], 0)) == Key(ROOT_NAME, NO_EXT)
  {
    assert DirOk(v, g, ROOT);
  }

  // ----- The first boot

  /** An all-zero disk has no signature: initialising it gives a file system with nothing but the root, on which
      the first file can be written. */
  lemma BlankDiskBoots(v: Vol, root: Cluster, req: Request, buf: Bytes)
    requires v.disk[0] == Zeros(CLUSTER_SIZE) && CleanStack(root)
    requires req == Named('a' as int, CLUSTER_SIZE) && |buf| == CLUSTER_SIZE
    ensures v.disk[0][..BLOCK_SIZE] != Signature()
    ensures Abs(BootState(v, root).v, BootState(v, root).g) == EMPTY_FS
    ensures var f := Mount(v, root);
            Sound(f) && WriteSafe(f, req, buf) && Write(W8, f, req, buf).1 == 0
  {
    assert v.disk[0][..BLOCK_SIZE][BLOCK_SIZE - 1] != Signature()[BLOCK_SIZE - 1];
    FirstBootIff(v, root);
    FormatRoot(v, root);
    BootedRunSimulates(W8, v, root, []);
    FirstFile(Mount(v, root), req, buf);
  }

  lemma FirstFile(f: Vol, req: Request, buf: Bytes)
    requires Inv(f, ROOT_LAYOUT) && f.fat == FormatFat() && req == Named('a' as int, CLUSTER_SIZE)
    requires |buf| == CLUSTER_SIZE
    ensures WriteSafe(f, req, buf) && Write(W8, f, req, buf).1 == 0
  {
    NamedKey('a' as int, CLUSTER_SIZE);
    OneClusterWrite(f, req, buf);
  }

  // ----- An uninitialised root table

  /** Stack bytes of any other value than 0 in the table of a format leave an unsound volume. */
  lemma UncleanFormatBreaks(v: Vol)
    ensures var stack: Cluster := seq(CLUSTER_SIZE, _ => 1);
            !Sound(Format(v, stack))
  {
    var stack: Cluster := seq(CLUSTER_SIZE, _ => 1);
    assert SlotAt(stack, 2)[0] == 1 && Zeros(SLOT_SIZE)[0] == 0;
    FormatSoundIff(v, stack);
  }

  // ----- A file named like its folder

  /** What the first write of a one-cluster file in the root of a fresh disk does. */
  lemma OneClusterWrite(f: Vol, req: Request, buf: Bytes)
    requires Inv(f, ROOT_LAYOUT) && f.fat == FormatFat() && req.parent == ROOT && ClustersFor(req.size) == 1
    requires ProperKey(req) && KeyReq(req) != ZERO_KEY && KeyReq(req) != DOTDOT_KEY && |buf| == CLUSTER_SIZE
    ensures WriteOk(f, ROOT_LAYOUT, req, buf) && Stores(f, req) && NumbersFit(W8, f, req)
    ensures Write(W8, f, req, buf).1 == 0
    ensures var a := WriteAddition(W8, f, req, buf);
            a.p == ROOT && a.s == 3 && a.n == 1 && a.i == 2 && a.buf == buf
  {
    FreshRoot(f);
    PlainWriteOk(f, ROOT_LAYOUT, req, buf, 2);
    FirstFitIs(f.fat, 1, 3, 3);
    WritePlaces(W8, f, req, buf);
    WriteKeepsInv(W8, f, ROOT_LAYOUT, req, buf);
  }

  lemma OwnNameReq(size: u32)
    ensures var req := RawRequest(ROOT_NAME, NO_EXT, ROOT, size);
            (size > 0 ==> ProperKey(req)) && KeyReq(req) != ZERO_KEY && KeyReq(req) != DOTDOT_KEY
  {
    var k := KeyReq(RawRequest(ROOT_NAME, NO_EXT, ROOT, size)).name;
    assert k[0] != ZERO_KEY.name[0] && k[0] != DOTDOT[0];
  }

  /** A file called "root" in the root of a fresh disk is written with code 0; then it can be neither
      read nor deleted. */
  lemma OwnNameLost(v: Vol, root: Cluster, buf: Bytes)
    requires CleanStack(root) && |buf| == CLUSTER_SIZE
    ensures var f, req := Format(v, root), RawRequest(ROOT_NAME, NO_EXT, ROOT, 1);
            WriteSafe(f, req, buf) && Write(W8, f, req, buf).1 == 0
            && var v' := Write(W8, f, req, buf).0;
               ReadSafe(v', req) && Read(v', req).1 == 1
               && DeleteSafe(v', req) && Delete(v', req) == (v', 2)
  {
    FormatSoundIff(v, root);
    FormatRoot(v, root);
    OwnNameWritten(Format(v, root), RawRequest(ROOT_NAME, NO_EXT, ROOT, 1), buf);
  }

  lemma OwnNameWritten(f: Vol, req: Request, buf: Bytes)
    requires Inv(f, ROOT_LAYOUT) && f.fat == FormatFat() && req == RawRequest(ROOT_NAME, NO_EXT, ROOT, 1)
    requires |buf| == CLUSTER_SIZE
    ensures WriteSafe(f, req, buf) && Write(W8, f, req, buf).1 == 0
    ensures var v' := Write(W8, f, req, buf).0;
            ReadSafe(v', req) && Read(v', req).1 == 1 && DeleteSafe(v', req) && Delete(v', req) == (v', 2)
  {
    OwnNameReq(1);
    OneClusterWrite(f, req, buf);
    RootKey(f, ROOT_LAYOUT);
    OwnNameRead(f, req, buf);
    DeleteUndoesWrite(W8, f, ROOT_LAYOUT, req, buf, req);
  }

  lemma OwnNameRead(f: Vol, req: Request, buf: Bytes)
    requires Inv(f, ROOT_LAYOUT) && WriteOk(f, ROOT_LAYOUT, req, buf) && NumbersFit(W8, f, req)
    requires KeyReq(req) != ZERO_KEY && req.parent == ROOT && req.size > 0 && Write(W8, f, req, buf).1 == 0
    requires KeyReq(req) == Key(Name(Entry(f, ROOT, 0)), NO_EXT)
    ensures var v' := Write(W8, f, req, buf).0;
            ReadSafe(v', req) && Read(v', req).1 == 1
  {
    var s := State(f, ROOT_LAYOUT);
    StepKeepsInv(W8, s, OpWrite(req, buf));
    var s1 := Step(W8, s, OpWrite(req, buf)).0;
    WrittenFileReadsBack(W8, s, req, buf, s1, [], req);
  }

  // ----- A file that passes for a directory

  /** A file of one cluster with the two attribute bytes set: the driver takes its cluster for a
      directory. */
  lemma FilePasses(v: Vol, root: Cluster, buf: Bytes)
    requires CleanStack(root) && |buf| == CLUSTER_SIZE
    requires buf[11] == ATTR_SUBDIRECTORY && buf[SLOT_SIZE + 11] == ATTR_SUBDIRECTORY
    ensures var f, req := Format(v, root), Named('a' as int, CLUSTER_SIZE);
            WriteSafe(f, req, buf) && Write(W8, f, req, buf).1 == 0 && ValidParent(Write(W8, f, req, buf).0, 3)
  {
    FormatSoundIff(v, root);
    FormatRoot(v, root);
    FileWritten(Format(v, root), Named('a' as int, CLUSTER_SIZE), buf);
  }

  lemma FileWritten(f: Vol, req: Request, buf: Bytes)
    requires Inv(f, ROOT_LAYOUT) && f.fat == FormatFat() && req == Named('a' as int, CLUSTER_SIZE)
    requires |buf| == CLUSTER_SIZE
    requires buf[11] == ATTR_SUBDIRECTORY && buf[SLOT_SIZE + 11] == ATTR_SUBDIRECTORY
    ensures WriteSafe(f, req, buf) && Write(W8, f, req, buf).1 == 0 && ValidParent(Write(W8, f, req, buf).0, 3)
  {
    NamedKey('a' as int, CLUSTER_SIZE);
    OneClusterWrite(f, req, buf);
    var a := WriteAddition(W8, f, req, buf);
    WriteFits(W8, f, ROOT_LAYOUT, req, buf);
    WriteAdds(W8, f, ROOT_LAYOUT, req, buf);
    AddedPasses(f, a);
  }

  lemma AddedPasses(f: Vol, a: Addition)
    requires AddFits(f, ROOT_LAYOUT, a) && a.p == ROOT && a.s == 3 && a.n == 1 && |a.buf| == CLUSTER_SIZE
    requires a.buf[11] == ATTR_SUBDIRECTORY && a.buf[SLOT_SIZE + 11] == ATTR_SUBDIRECTORY
    ensures ValidParent(AddVol(f, ROOT_LAYOUT, a), 3)
  {
    var v' := AddVol(f, ROOT_LAYOUT, a);
    assert v'.fat[3] == END_OF_FILE;
    assert v'.disk[3] == Piece(a.buf, 0) == a.buf;
    AttributeBytes(v'.disk[3]);
  }

  // ----- Memory

  /** At boot a release of any page gives up frame 0. */
  lemma BootReleaseBreaks(d: Paging.Dir, va: u32)
    ensures Paging.FreeSafe(Paging.Boot(), d, va)
    ensures var m := Paging.Free(Paging.Boot(), d, va);
            !m.frames[0] && FrameIsolation.PagingInv(Paging.Boot()) && !FrameIsolation.PagingInv(m)
  {
    FrameIsolation.BootInv();
    FrameIsolation.FreeKeepsIff(Paging.Boot(), d, va);
  }

  /** At boot one executable that cannot be read turns down the next process, whatever it is. */
  lemma BootFailedRead(buf: u32, size: u32, readCode: int)
    ensures var s := Process.BootProcs();
            Process.ProcShape(s) && Process.CreateSafe(s, 0, 0, 1)
            && var s' := Process.Create(s, 0, 0, 1).0;
               s'.active == 0xFFFF_FFFF && Process.ProcShape(s') && Process.CreateSafe(s', buf, size, readCode)
               && Process.Create(s', buf, size, readCode).1 == 1
  {
    var s := Process.BootProcs();
    ProcessRuns.BootProcInv();
    ProcessRuns.RefusalIff(s, 0, 0);
    ProcessRuns.RoomFound(s, 0, 0);
    ProcessRuns.FailedRead(s, 0, 0, 0, 1);
    ProcessRuns.FailedReadBlocks(s, 0, 0, 1, buf, size, readCode);
  }

  /** A directory made at boot, with its first page allocated twice, or with that page when it is given up. */
  lemma PageTwiceBreaks(va: u32)
    requires va < Paging.KERNEL_BASE
    ensures var m := Paging.CreateDir(Paging.Boot()).0;
            var m1 := Paging.Allocate(m, 0, va).0;
            Paging.CreateDir(Paging.Boot()).1 == Paging.Some(0) && FrameIsolation.PagingInv(m1)
            && !FrameIsolation.PagingInv(Paging.Allocate(m1, 0, va).0)
            && !FrameIsolation.PagingInv(Paging.FreeDir(m1, Paging.Some(0)).0)
  {
    var boot := Paging.Boot();
    var m := Paging.CreateDir(boot).0;
    var m1 := Paging.Allocate(m, 0, va).0;
    FrameIsolation.BootInv();
    FrameIsolation.CreateDirKeeps(boot);
    ProcessRuns.OpensOne(boot, va);
    assert FrameIsolation.UserAt(m1, Paging.At(0, va));
    FrameIsolation.AllocateKeepsIff(m1, 0, va);
    FrameIsolation.FreeDirKeepsIff(m1, Paging.Some(0));
  }
}
