/** What every run of the page-frame allocator keeps: frames, counter and directories agree. */
module FrameIsolation {
  import opened Memory
  import opened Paging

  // ----- The invariant

  ghost predicate UserAt(m: Mem, e: nat)
    requires Shape(m)
  {
    e < TABLE_SIZE && m.table[e].flag.user
  }

  /** A user entry lies in a directory in use and holds a marked frame; the other entries are
      the kernel's in its place and zero elsewhere. */
  ghost predicate EntryOk(m: Mem, e: nat)
    requires Shape(m) && e < TABLE_SIZE
  {
    var x, d, page := m.table[e], e / ENTRIES, e % ENTRIES;
    if x.flag.user then
      m.used[d] && page != KERNEL_PAGE && x == UserPde(x.lower) && 1 <= x.lower < FRAMES && m.frames[x.lower]
    else
      x == if m.used[d] && page == KERNEL_PAGE then KERNEL_PDE else ZERO_PDE
  }

  ghost predicate EntriesOk(m: Mem)
    requires Shape(m)
  {
    forall e: nat :: e < TABLE_SIZE ==> EntryOk(m, e)
  }

  /** No two user entries, in whatever directories, hold one frame. */
  ghost predicate Isolated(m: Mem)
    requires Shape(m)
  {
    forall e1: nat, e2: nat :: UserAt(m, e1) && UserAt(m, e2) && m.table[e1].lower == m.table[e2].lower ==> e1 == e2
  }

  ghost predicate Mapped(m: Mem, f: nat)
    requires Shape(m)
  {
    exists e: nat :: UserAt(m, e) && m.table[e].lower == f
  }

  /** Frame 0 is marked, and every other marked frame is mapped. */
  ghost predicate MarkedOk(m: Mem)
    requires Shape(m)
  {
    m.frames[0] && forall f: nat :: 1 <= f < FRAMES && m.frames[f] ==> Mapped(m, f)
  }

  ghost function FreeSet(frames: seq<bool>): set<nat> {
    set f: nat | f < |frames| && !frames[f]
  }

  ghost predicate PagingInv(m: Mem) {
    Shape(m) && EntriesOk(m) && Isolated(m) && MarkedOk(m) && m.free == |FreeSet(m.frames)|
  }

  lemma BootInv()
    ensures PagingInv(Boot())
  {
    var m := Boot();
    FreeUpTo(m.frames, FRAMES);
    assert m.frames[..FRAMES] == m.frames;
  }

  /** Below n only frame 0 is marked. */
  lemma {:induction false} FreeUpTo(frames: seq<bool>, n: nat)
    requires 1 <= n <= |frames| && forall f: nat :: f < n ==> frames[f] == (f == 0)
    ensures |FreeSet(frames[..n])| == n - 1
  {
    if n == 1 {
      assert FreeSet(frames[..1]) == {};
    } else {
      FreeUpTo(frames, n - 1);
      assert FreeSet(frames[..n]) == FreeSet(frames[..n - 1]) + {n - 1};
    }
  }

  // ----- Counting

  lemma MarkFrame(frames: seq<bool>, f: nat)
    requires f < |frames| && !frames[f]
    ensures |FreeSet(frames[f := true])| == |FreeSet(frames)| - 1
  {
    assert FreeSet(frames[f := true]) == FreeSet(frames) - {f};
  }

  lemma UnmarkFrame(frames: seq<bool>, f: nat)
    requires f < |frames| && frames[f]
    ensures |FreeSet(frames[f := false])| == |FreeSet(frames)| + 1
  {
    assert FreeSet(frames[f := false]) == FreeSet(frames) + {f};
  }

  lemma {:induction false} FewerThan(s: set<nat>, n: nat)
    requires forall x :: x in s ==> x < n
    ensures |s| <= n
  {
    if n > 0 {
      FewerThan(s - {n - 1}, n - 1);
    } else {
      assert s == {};
    }
  }

  /** An allocation finds a frame exactly when the counter is not zero. */
  lemma AllocateIff(m: Mem, d: Dir, va: u32)
    requires PagingInv(m)
    ensures Allocate(m, d, va).1 <==> m.free > 0
    ensures !Allocate(m, d, va).1 ==> Allocate(m, d, va).0 == m
  {
    var f := FirstFree(m.frames, 0);
    if f < FRAMES {
      assert f in FreeSet(m.frames);
    } else {
      assert FreeSet(m.frames) == {};
    }
  }

  // ----- Allocation

  /** The page belongs to a directory in use and is not present. */
  ghost predicate Unmapped(m: Mem, d: Dir, va: u32)
    requires Shape(m)
  {
    m.used[d] && !m.table[At(d, va)].flag.present
  }

  /** m after entry e got the free frame f. */
  ghost predicate Gains(m: Mem, m': Mem, e: nat, f: nat)
    requires Shape(m) && Shape(m') && e < TABLE_SIZE && f < FRAMES
  {
    !m.frames[f] && m'.frames == m.frames[f := true] && m'.used == m.used && m'.table == m.table[e := UserPde(f)]
  }

  lemma GainEntries(m: Mem, m': Mem, e: nat, f: nat)
    requires Shape(m) && Shape(m') && e < TABLE_SIZE && f < FRAMES && Gains(m, m', e, f)
    requires EntriesOk(m) && MarkedOk(m) && m.used[e / ENTRIES] && m.table[e] == ZERO_PDE
    ensures EntriesOk(m')
  {
    forall k: nat | k < TABLE_SIZE
      ensures EntryOk(m', k)
    {
      assert EntryOk(m, k);
    }
  }

  lemma GainIsolated(m: Mem, m': Mem, e: nat, f: nat)
    requires Shape(m) && Shape(m') && e < TABLE_SIZE && f < FRAMES && Gains(m, m', e, f)
    requires EntriesOk(m) && Isolated(m)
    ensures Isolated(m')
  {
    forall k: nat | UserAt(m, k)
      ensures m.table[k].lower != f
    {
      assert EntryOk(m, k);
    }
    assert forall k: nat :: UserAt(m', k) ==> k == e || (UserAt(m, k) && m'.table[k] == m.table[k]);
  }

  lemma GainMarked(m: Mem, m': Mem, e: nat, f: nat)
    requires Shape(m) && Shape(m') && e < TABLE_SIZE && f < FRAMES && Gains(m, m', e, f)
    requires MarkedOk(m) && !m.table[e].flag.user
    ensures MarkedOk(m')
  {
    forall g: nat | 1 <= g < FRAMES && m'.frames[g]
      ensures Mapped(m', g)
    {
      if g == f {
        assert UserAt(m', e);
      } else {
        var k: nat :| UserAt(m, k) && m.table[k].lower == g;
        assert UserAt(m', k) && m'.table[k].lower == g;
      }
    }
  }

  lemma AllocateGains(m: Mem, d: Dir, va: u32)
    requires PagingInv(m) && Allocate(m, d, va).1 && m.table[At(d, va)] == ZERO_PDE
    ensures var f := FirstFree(m.frames, 0);
            f < FRAMES && Gains(m, Allocate(m, d, va).0, At(d, va), f)
  {
  }

  lemma AllocateKeeps(m: Mem, d: Dir, va: u32)
    requires PagingInv(m) && Allocate(m, d, va).1 && Unmapped(m, d, va)
    ensures PagingInv(Allocate(m, d, va).0)
  {
    var m', e, f := Allocate(m, d, va).0, At(d, va), FirstFree(m.frames, 0);
    assert EntryOk(m, e);
    AllocateGains(m, d, va);
    GainEntries(m, m', e, f);
    GainIsolated(m, m', e, f);
    GainMarked(m, m', e, f);
    MarkFrame(m.frames, f);
  }

  lemma AllocateBreaks(m: Mem, d: Dir, va: u32)
    requires PagingInv(m) && Allocate(m, d, va).1 && !Unmapped(m, d, va)
    ensures !PagingInv(Allocate(m, d, va).0)
  {
    var m', e := Allocate(m, d, va).0, At(d, va);
    assert EntryOk(m, e);
    if UserAt(m, e) {
      var g := m.table[e].lower;
      forall k: nat | UserAt(m', k)
        ensures m'.table[k].lower != g
      {
        assert k != e ==> UserAt(m, k);
      }
      assert !Mapped(m', g);
    } else {
      assert !EntryOk(m', e);
    }
  }

  /** An allocation keeps frames, counter and directories in agreement exactly when it finds no frame
      or the page was not mapped before. */
  lemma AllocateKeepsIff(m: Mem, d: Dir, va: u32)
    requires PagingInv(m)
    ensures PagingInv(Allocate(m, d, va).0) <==> (m.free > 0 ==> Unmapped(m, d, va))
  {
    AllocateIff(m, d, va);
    if m.free > 0 && Unmapped(m, d, va) {
      AllocateKeeps(m, d, va);
    }
    if m.free > 0 && !Unmapped(m, d, va) {
      AllocateBreaks(m, d, va);
    }
  }

  // ----- Release

  lemma FreeIsSafe(m: Mem, d: Dir, va: u32)
    requires PagingInv(m)
    ensures FreeSafe(m, d, va)
  {
    assert EntryOk(m, At(d, va));
  }

  lemma FreeKeeps(m: Mem, d: Dir, va: u32)
    requires PagingInv(m) && FreeSafe(m, d, va) && UserAt(m, At(d, va))
    ensures PagingInv(Free(m, d, va))
  {
    var m', e := Free(m, d, va), At(d, va);
    var f := m.table[e].lower;
    assert EntryOk(m, e);
    forall k: nat | k < TABLE_SIZE
      ensures EntryOk(m', k) && (UserAt(m', k) ==> UserAt(m, k))
    {
      assert EntryOk(m, k) && (UserAt(m, k) && m.table[k].lower == f ==> k == e);
    }
    forall g: nat | 1 <= g < FRAMES && m'.frames[g]
      ensures Mapped(m', g)
    {
      var k: nat :| UserAt(m, k) && m.table[k].lower == g;
      assert UserAt(m', k) && m'.table[k].lower == g;
    }
    UnmarkFrame(m.frames, f);
    FewerThan(FreeSet(m.frames[f := false]), FRAMES);
  }

  /** A release keeps the agreement exactly when the page was mapped for the user; any other page
      would give up frame 0, which the kernel occupies. */
  lemma FreeKeepsIff(m: Mem, d: Dir, va: u32)
    requires PagingInv(m)
    ensures FreeSafe(m, d, va)
    ensures PagingInv(Free(m, d, va)) <==> m.table[At(d, va)].flag.user
  {
    FreeIsSafe(m, d, va);
    assert EntryOk(m, At(d, va));
    if m.table[At(d, va)].flag.user {
      FreeKeeps(m, d, va);
    } else {
      assert !Free(m, d, va).frames[0];
    }
  }

  // ----- Directories

  lemma CreateDirKeeps(m: Mem)
    requires PagingInv(m)
    ensures PagingInv(CreateDir(m).0)
  {
    var (m', r) := CreateDir(m);
    if r.Some? {
      var d := r.value;
      forall e: nat | e < TABLE_SIZE
        ensures EntryOk(m', e) && (UserAt(m', e) <==> UserAt(m, e)) && (UserAt(m, e) ==> m'.table[e] == m.table[e])
      {
        assert EntryOk(m, e);
      }
      SameUsers(m, m');
    }
  }

  /** The same user entries and frame marks: isolation and marking carry over. */
  lemma SameUsers(m: Mem, m': Mem)
    requires Shape(m) && Shape(m') && Isolated(m) && MarkedOk(m) && m'.frames == m.frames
    requires forall e: nat :: e < TABLE_SIZE ==> (UserAt(m', e) <==> UserAt(m, e))
    requires forall e: nat :: UserAt(m, e) ==> m'.table[e] == m.table[e]
    ensures Isolated(m') && MarkedOk(m')
  {
    forall f: nat | 1 <= f < FRAMES && m'.frames[f]
      ensures Mapped(m', f)
    {
      var e: nat :| UserAt(m, e) && m.table[e].lower == f;
      assert UserAt(m', e) && m'.table[e].lower == f;
    }
  }

  ghost predicate NoUsers(m: Mem, d: Dir)
    requires Shape(m)
  {
    forall e: nat :: UserAt(m, e) ==> e / ENTRIES != d
  }

  lemma FreeDirKeeps(m: Mem, d: Dir)
    requires PagingInv(m) && NoUsers(m, d)
    ensures PagingInv(FreeDir(m, Some(d)).0)
  {
    var m' := FreeDir(m, Some(d)).0;
    forall e: nat | e < TABLE_SIZE
      ensures EntryOk(m', e) && (UserAt(m', e) <==> UserAt(m, e)) && (UserAt(m, e) ==> m'.table[e] == m.table[e])
    {
      assert EntryOk(m, e);
    }
    SameUsers(m, m');
  }

  lemma FreeDirLoses(m: Mem, d: Dir)
    requires PagingInv(m) && PagingInv(FreeDir(m, Some(d)).0)
    ensures NoUsers(m, d)
  {
    var m' := FreeDir(m, Some(d)).0;
    forall e: nat | UserAt(m, e)
      ensures e / ENTRIES != d
    {
      assert EntryOk(m, e);
      assert Mapped(m', m.table[e].lower);
      var k: nat :| UserAt(m', k) && m'.table[k].lower == m.table[e].lower;
      assert UserAt(m, k);
    }
  }

  /** Releasing a directory keeps the agreement exactly when no user page is left in it:
      the frames of such pages would stay marked for ever. */
  lemma FreeDirKeepsIff(m: Mem, d: Option<Dir>)
    requires PagingInv(m)
    ensures PagingInv(FreeDir(m, d).0) <==> (d.Some? ==> NoUsers(m, d.value))
  {
    if d.Some? {
      if NoUsers(m, d.value) {
        FreeDirKeeps(m, d.value);
      }
      if PagingInv(FreeDir(m, d).0) {
        FreeDirLoses(m, d.value);
      }
    }
  }

  // ----- Runs

  datatype Op = Alloc(d: Dir, va: u32) | Release(d: Dir, va: u32) | NewDir | DropDir(at: Option<Dir>)

  ghost predicate Safe(m: Mem, op: Op)
    requires Shape(m)
  {
    op.Release? ==> FreeSafe(m, op.d, op.va)
  }

  /** What a caller can check before the call. */
  ghost predicate Allowed(m: Mem, op: Op)
    requires Shape(m)
  {
    match op
    case Alloc(d, va) => m.free > 0 ==> Unmapped(m, d, va)
    case Release(d, va) => FreeSafe(m, d, va) && m.table[At(d, va)].flag.user
    case NewDir => true
    case DropDir(d) => d.Some? ==> NoUsers(m, d.value)
  }

  ghost function After(m: Mem, op: Op): Mem
    requires Shape(m) && Safe(m, op)
  {
    match op
    case Alloc(d, va) => Allocate(m, d, va).0
    case Release(d, va) => Free(m, d, va)
    case NewDir => CreateDir(m).0
    case DropDir(d) => FreeDir(m, d).0
  }

  /** Every operation is memory safe where the invariant holds, and keeps it exactly when allowed. */
  lemma StepKeepsIff(m: Mem, op: Op)
    requires PagingInv(m)
    ensures Safe(m, op)
    ensures PagingInv(After(m, op)) <==> Allowed(m, op)
  {
    match op
    case Alloc(d, va) => AllocateKeepsIff(m, d, va);
    case Release(d, va) => FreeKeepsIff(m, d, va);
    case NewDir => CreateDirKeeps(m);
    case DropDir(d) => FreeDirKeepsIff(m, d);
  }

  /** The states a run from the static data passes through, each operation allowed where it is made. */
  ghost predicate Run(ms: seq<Mem>, ops: seq<Op>) {
    |ms| == |ops| + 1 && ms[0] == Boot() && (forall m :: m in ms ==> Shape(m))
    && forall k: nat :: k < |ops| ==> Allowed(ms[k], ops[k]) && ms[k + 1] == After(ms[k], ops[k])
  }

  lemma {:induction false} RunReaches(ms: seq<Mem>, ops: seq<Op>, k: nat)
    requires Run(ms, ops) && k < |ms|
    ensures PagingInv(ms[k])
  {
    if k == 0 {
      BootInv();
    } else {
      RunReaches(ms, ops, k - 1);
      StepKeepsIff(ms[k - 1], ops[k - 1]);
      assert ms[k - 1 + 1] == After(ms[k - 1], ops[k - 1]);
    }
  }

  /** The physical byte that va stands for through entry x. */
  function Translate(x: Pde, va: u32): nat {
    x.lower * FRAME_SIZE + va % FRAME_SIZE
  }

  /** At any point of any run, two user addresses, in whatever directories, reach one physical byte
      only when they are the same address in the same directory, and none reaches frame 0. */
  lemma RunIsolates(ms: seq<Mem>, ops: seq<Op>, k: nat, d1: Dir, va1: u32, d2: Dir, va2: u32)
    requires Run(ms, ops) && k < |ms|
    ensures PagingInv(ms[k])
    ensures var x1, x2 := ms[k].table[At(d1, va1)], ms[k].table[At(d2, va2)];
            x1.flag.user && x2.flag.user ==>
              Translate(x1, va1) >= FRAME_SIZE
              && (Translate(x1, va1) == Translate(x2, va2) ==> d1 == d2 && va1 == va2)
  {
    RunReaches(ms, ops, k);
    var m, e1, e2 := ms[k], At(d1, va1), At(d2, va2);
    if UserAt(m, e1) && UserAt(m, e2) {
      assert EntryOk(m, e1);
      if Translate(m.table[e1], va1) == Translate(m.table[e2], va2) {
        Offsets(m.table[e1].lower, va1 % FRAME_SIZE, m.table[e2].lower, va2 % FRAME_SIZE);
        assert e1 == e2;
        assert va1 == PageIndex(va1) * FRAME_SIZE + va1 % FRAME_SIZE;
      }
    }
  }

  lemma Offsets(l1: nat, o1: nat, l2: nat, o2: nat)
    requires o1 < FRAME_SIZE && o2 < FRAME_SIZE
    ensures l1 * FRAME_SIZE + o1 == l2 * FRAME_SIZE + o2 ==> l1 == l2 && o1 == o2
  {
  }

  // ----- The kernel's page

  /** In every directory in use the 4 MiB from KERNEL_BASE are the kernel's: present, writable, closed to the user
      and one large page, which is the first of physical memory. */
  lemma KernelMapped(m: Mem, d: Dir, va: u32)
    requires PagingInv(m) && m.used[d] && KERNEL_BASE <= va < KERNEL_BASE + FRAME_SIZE
    ensures Pack(m.table[At(d, va)]) == 0x83 && Translate(m.table[At(d, va)], va) == va - KERNEL_BASE
  {
    KernelIndex(va);
    assert EntryOk(m, At(d, va));
    KernelWord(m.table[At(d, va)]);
  }

  lemma CreateDirOpens(m: Mem)
    requires Shape(m) && CreateDir(m).1.Some?
    ensures var (m1, r) := CreateDir(m);
            m1.frames == m.frames && m1.free == m.free && !m.used[r.value] && m1.used == m.used[r.value := true]
            && forall e: nat :: e < TABLE_SIZE ==>
                 m1.table[e] == if e / ENTRIES != r.value then m.table[e]
                                else if e % ENTRIES == KERNEL_PAGE then KERNEL_PDE else ZERO_PDE
  {
  }

  /** A new directory is the first that was not in use, and no other directory changes. */
  lemma NewDirectory(m: Mem, va: u32, d: Dir)
    requires Shape(m) && CreateDir(m).1.Some?
    ensures var (m', r) := CreateDir(m);
            && !m.used[r.value] && (forall k: Dir :: k < r.value ==> m.used[k])
            && m'.used == m.used[r.value := true] && m'.frames == m.frames && m'.free == m.free
            && (d != r.value ==> m'.table[At(d, va)] == m.table[At(d, va)])
  {
    CreateDirOpens(m);
  }

  /** It holds the kernel's word for the 4 MiB from KERNEL_BASE and zero everywhere else. */
  lemma NewDirectoryWords(m: Mem, m': Mem, d: Dir, va: u32)
    requires Shape(m) && CreateDir(m) == (m', Some(d))
    ensures Shape(m')
    ensures Pack(m'.table[At(d, va)]) == if KERNEL_BASE <= va < KERNEL_BASE + FRAME_SIZE then 0x83 else 0
  {
    NewEntryIs(m, m', d, va);
    NewEntry(m', d, va);
  }

  lemma NewEntryIs(m: Mem, m': Mem, d: Dir, va: u32)
    requires Shape(m) && CreateDir(m) == (m', Some(d))
    ensures Shape(m') && m'.table[At(d, va)] == if PageIndex(va) == KERNEL_PAGE then KERNEL_PDE else ZERO_PDE
  {
    CreateDirOpens(m);
  }

  lemma NewEntry(m: Mem, d: Dir, va: u32)
    requires Shape(m)
    requires m.table[At(d, va)] == if PageIndex(va) == KERNEL_PAGE then KERNEL_PDE else ZERO_PDE
    ensures Pack(m.table[At(d, va)]) == if KERNEL_BASE <= va < KERNEL_BASE + FRAME_SIZE then 0x83 else 0
  {
    KernelIndex(va);
    NewWord(m.table[At(d, va)]);
  }

  lemma NewWord(e: Pde)
    ensures e == KERNEL_PDE ==> Pack(e) == 0x83
    ensures e == ZERO_PDE ==> Pack(e) == 0
  {
    if e == KERNEL_PDE {
      KernelWord(e);
    } else if e == ZERO_PDE {
      ZeroWord(e);
    }
  }

  lemma KernelIndex(va: u32)
    ensures PageIndex(va) == KERNEL_PAGE <==> KERNEL_BASE <= va < KERNEL_BASE + FRAME_SIZE
  {
  }

  /** A directory is made exactly when one is not in use. */
  lemma NewDirectoryIff(m: Mem)
    requires Shape(m)
    ensures CreateDir(m).1.None? <==> forall d: Dir :: m.used[d]
    ensures CreateDir(m).1.None? ==> CreateDir(m).0 == m
  {
  }

  // ----- Conservation

  ghost function Users(m: Mem): set<nat>
    requires Shape(m)
  {
    set e: nat | e < TABLE_SIZE && UserAt(m, e)
  }

  ghost function FramesOf(m: Mem, es: set<nat>): set<nat>
    requires Shape(m) && forall e :: e in es ==> e < TABLE_SIZE
  {
    set e | e in es :: m.table[e].lower
  }

  lemma {:induction false} AsManyFrames(m: Mem, es: set<nat>)
    requires Shape(m) && Isolated(m) && forall e :: e in es ==> UserAt(m, e)
    ensures |FramesOf(m, es)| == |es|
  {
    if es != {} {
      var e :| e in es;
      var rest := es - {e};
      AsManyFrames(m, rest);
      assert FramesOf(m, es) == FramesOf(m, rest) + {m.table[e].lower as nat};
    }
  }

  ghost function Below(n: nat): (r: set<nat>)
    ensures |r| == n && forall f: nat :: f in r <==> f < n
  {
    if n == 0 then {} else Below(n - 1) + {n - 1}
  }

  lemma Partition(a: set<nat>, b: set<nat>, n: nat)
    requires n > 0 && a !! b && 0 !in a + b
    requires forall f: nat :: f in a + b + {0} <==> f < n
    ensures |a| + |b| == n - 1
  {
    assert Below(n) == a + b + {0};
    assert |a + b| == |a| + |b|;
  }

  lemma MappedFrames(m: Mem)
    requires Shape(m) && EntriesOk(m) && MarkedOk(m)
    ensures forall f: nat :: f in FramesOf(m, Users(m)) <==> 0 < f < FRAMES && m.frames[f]
  {
    forall f: nat
      ensures f in FramesOf(m, Users(m)) <==> 0 < f < FRAMES && m.frames[f]
    {
      if f in FramesOf(m, Users(m)) {
        var e :| e in Users(m) && m.table[e].lower == f;
        assert EntryOk(m, e);
      }
      if 0 < f < FRAMES && m.frames[f] {
        var e: nat :| UserAt(m, e) && m.table[e].lower == f;
        assert e in Users(m);
      }
    }
  }

  /** Every frame but frame 0 is free or behind exactly one user entry: their numbers add up to 31. */
  lemma FramesConserved(m: Mem)
    requires PagingInv(m)
    ensures |Users(m)| + m.free == FRAMES - 1
  {
    MappedFrames(m);
    AsManyFrames(m, Users(m));
    Partition(FramesOf(m, Users(m)), FreeSet(m.frames), FRAMES);
  }

  // ----- Inverses

  /** A release of any address in the page that was just allocated finds, in the packed ten bits,
      the frame that the allocation chose, and restores every field. */
  lemma FreeUndoesAllocate(m: Mem, d: Dir, va: u32, va': u32)
    requires PagingInv(m) && m.free > 0 && Unmapped(m, d, va) && PageIndex(va') == PageIndex(va)
    ensures var (m1, ok) := Allocate(m, d, va);
            ok && FreeSafe(m1, d, va') && Free(m1, d, va') == m
  {
    AllocateIff(m, d, va);
    var e, m1 := At(d, va), Allocate(m, d, va).0;
    assert EntryOk(m, e);
    assert m1.table[e := ZERO_PDE] == m.table;
    assert m1.frames[m1.table[e].lower := false] == m.frames;
    FewerThan(FreeSet(m.frames), FRAMES);
  }

  /** The other order restores everything exactly when the frame given up was below every free one. */
  lemma AllocateUndoesFreeIff(m: Mem, d: Dir, va: u32)
    requires PagingInv(m) && m.table[At(d, va)].flag.user
    ensures FreeSafe(m, d, va)
    ensures Allocate(Free(m, d, va), d, va).0 == m <==> m.table[At(d, va)].lower < FirstFree(m.frames, 0)
  {
    FreeIsSafe(m, d, va);
    var e := At(d, va);
    var f, m1 := m.table[e].lower, Free(m, d, va);
    assert EntryOk(m, e);
    FewerThan(FreeSet(m.frames), FRAMES);
    UnmarkFrame(m.frames, f);
    FewerThan(FreeSet(m1.frames), FRAMES);
    var g := FirstFree(m1.frames, 0);
    assert m1.table[e := UserPde(f)] == m.table;
    assert m1.frames[f := true] == m.frames;
    assert !m1.frames[f];
    assert g <= f;
    if f < FirstFree(m.frames, 0) {
      assert g == f;
    } else {
      assert g == FirstFree(m.frames, 0) < f;
      assert Allocate(m1, d, va).0.table[e].lower == g;
    }
  }
}
