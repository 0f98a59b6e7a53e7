/** What every run of the process table keeps, together with the frames and directories it uses up. */
module ProcessRuns {
  import opened Memory
  import opened Paging
  import opened FrameIsolation
  import opened Process

  // ----- The invariant

  ghost predicate Live(s: Procs, i: nat)
    requires ProcShape(s)
  {
    i < PROCESSES && s.pcbs[i].pid != 0
  }

  ghost predicate SlotOk(s: Procs, i: nat)
    requires ProcShape(s) && i < PROCESSES
  {
    var p := s.pcbs[i];
    (s.marked[i] <==> p.pid != 0) && p.pid < s.nextPid && p.frameCount == 0
    && (p.pid != 0 ==> p.dir.Some? && s.mem.used[p.dir.value])
  }

  /** Live processes have their own pid and their own directory. */
  ghost predicate Distinct(s: Procs)
    requires ProcShape(s)
  {
    forall i: nat, j: nat :: Live(s, i) && Live(s, j) && i != j ==>
      s.pcbs[i].pid != s.pcbs[j].pid && s.pcbs[i].dir != s.pcbs[j].dir
  }

  ghost function MarkedSet(marked: seq<bool>): set<nat> {
    set i: nat | i < |marked| && marked[i]
  }

  /** The slots are in order, and the counter is `lost` below their number. */
  ghost predicate TableInv(s: Procs, lost: nat)
    requires ProcShape(s)
  {
    (forall i: nat :: i < PROCESSES ==> SlotOk(s, i)) && Distinct(s) && s.active + lost == |MarkedSet(s.marked)|
  }

  /** Page p of directory d is the one that user entry takes. */
  ghost predicate OnlyUser(m: Mem, d: Dir, p: nat)
    requires Shape(m)
  {
    p < KERNEL_PAGE && forall e: nat :: e < TABLE_SIZE && e / ENTRIES == d ==> (UserAt(m, e) <==> e % ENTRIES == p)
  }

  ghost predicate OneUserEach(m: Mem)
    requires Shape(m)
  {
    forall d: Dir :: m.used[d] ==> exists p: nat :: OnlyUser(m, d, p)
  }

  ghost function UsedSet(used: seq<bool>): set<nat> {
    set d: nat | d < |used| && used[d]
  }

  /** Each directory handed out took one of the 31 frames, and each pid went with a directory. */
  ghost predicate Budget(s: Procs)
    requires ProcShape(s)
  {
    |UsedSet(s.mem.used)| + s.mem.free == FRAMES - 1 && s.nextPid == |UsedSet(s.mem.used)| + 1
  }

  /** Table and memory agree but for the counter of active processes, which is `lost` too small. */
  ghost predicate DriftInv(s: Procs, lost: nat) {
    ProcShape(s) && PagingInv(s.mem) && TableInv(s, lost) && OneUserEach(s.mem) && Budget(s)
  }

  ghost predicate ProcInv(s: Procs) { DriftInv(s, 0) }

  lemma BootProcInv()
    ensures ProcInv(BootProcs())
  {
    BootInv();
    var s := BootProcs();
    assert UsedSet(s.mem.used) == {};
    assert MarkedSet(s.marked) == {};
    FreeUpTo(s.mem.frames, FRAMES);
    assert s.mem.frames[..FRAMES] == s.mem.frames;
    assert forall i: nat :: i < PROCESSES ==> SlotOk(s, i);
  }

  // ----- The memory check

  /** The size limit that the checks enforce: seven frames and the stack, or a size so large that the
      sum with one frame wraps past 2 to the 32nd. */
  lemma NeededIff(size: u32)
    ensures 1 <= Needed(size) <= MAX_FRAMES <==> size <= 7 * FRAME_SIZE || size > WORD - FRAME_SIZE
  {
  }

  /** The amount passed to the memory check is a number of frames but is taken as bytes: whatever the
      program needs, one free frame is enough. */
  lemma RefusalIff(s: Procs, buf: u32, size: u32)
    requires ProcShape(s) && PagingInv(s.mem)
    ensures Refusal(s, buf, size) == 0 <==>
              s.active < PROCESSES && buf < KERNEL_BASE && s.mem.free > 0
              && (size <= 7 * FRAME_SIZE || size > WORD - FRAME_SIZE)
  {
    NeededIff(size);
    OneFrame(s.mem.frames);
    AllocateIff(s.mem, 0, 0);
    assert Needed(size) == 0 ==> Requested(0) == 0;
  }

  // ----- A free slot and a free directory

  lemma {:induction false} AllIn(s: set<nat>, n: nat)
    requires forall i: nat :: i < n ==> i in s
    ensures |s| >= n
  {
    if n > 0 {
      AllIn(s - {n - 1}, n - 1);
    }
  }

  lemma SlotFreeIff(marked: seq<bool>)
    requires |marked| == PROCESSES
    ensures FirstFree(marked, 0) < PROCESSES <==> |MarkedSet(marked)| < PROCESSES
  {
    var i := FirstFree(marked, 0);
    if i < PROCESSES {
      MissingOne(MarkedSet(marked), i);
    } else {
      AllIn(MarkedSet(marked), PROCESSES);
    }
  }

  /** A creation that is not refused never gets the null directory, and finds a slot exactly when the
      counter and the failed reads it has lost leave one. */
  lemma RoomIff(s: Procs, lost: nat, buf: u32, size: u32)
    requires DriftInv(s, lost) && Refusal(s, buf, size) == 0
    ensures HasRoom(s) <==> s.active + lost < PROCESSES
    ensures CreateDir(s.mem).1.Some?
  {
    RefusalIff(s, buf, size);
    SlotFreeIff(s.marked);
    if FirstFree(s.mem.used, 0) == DIRECTORIES {
      AllIn(UsedSet(s.mem.used), DIRECTORIES);
    }
  }

  /** Without failed reads a creation that is not refused finds a slot and a directory. */
  lemma RoomFound(s: Procs, buf: u32, size: u32)
    requires ProcInv(s) && Refusal(s, buf, size) == 0
    ensures HasRoom(s)
  {
    RoomIff(s, 0, buf, size);
    RefusalIff(s, buf, size);
  }

  // ----- The new directory

  /** m' is m with directory d opened for a process at page p: the kernel's entry, one user entry. */
  ghost predicate Opened(m: Mem, m': Mem, d: Dir, p: nat)
    requires Shape(m) && Shape(m')
  {
    var f := FirstFree(m.frames, 0);
    !m.used[d] && m'.used == m.used[d := true] && p < KERNEL_PAGE && f < FRAMES
    && forall e: nat :: e < TABLE_SIZE ==>
         m'.table[e] == if e / ENTRIES != d then m.table[e]
                        else if e % ENTRIES == KERNEL_PAGE then KERNEL_PDE
                        else if e % ENTRIES == p then UserPde(f)
                        else ZERO_PDE
  }

  lemma OpensTable(m: Mem, m1: Mem, m2: Mem, d: Dir, buf: u32)
    requires Shape(m) && Shape(m1) && Shape(m2) && CreateDir(m) == (m1, Some(d)) && buf < KERNEL_BASE
    requires FirstFree(m.frames, 0) < FRAMES
    requires m2.table == m1.table[At(d, buf) := UserPde(FirstFree(m.frames, 0))] && m2.used == m1.used
    ensures Opened(m, m2, d, PageIndex(buf))
  {
    CreateDirOpens(m);
    forall e: nat | e < TABLE_SIZE && e != At(d, buf)
      ensures e / ENTRIES != d || e % ENTRIES != PageIndex(buf)
    {
    }
  }

  /** The memory of a process being created: its directory holds the kernel's entry and one user
      entry, below it; every other directory is as it was; one frame and one directory are gone. */
  lemma OpensOne(m: Mem, buf: u32)
    requires PagingInv(m) && m.free > 0 && CreateDir(m).1.Some? && buf < KERNEL_BASE
    ensures var (m1, r) := CreateDir(m); var m2 := Allocate(m1, r.value, buf).0;
            PagingInv(m2) && m2.free == m.free - 1 && Opened(m, m2, r.value, PageIndex(buf))
  {
    var (m1, r) := CreateDir(m);
    var d := r.value;
    CreateDirOpens(m);
    CreateDirKeeps(m);
    assert m1.table[At(d, buf)] == ZERO_PDE;
    AllocateKeepsIff(m1, d, buf);
    AllocateIff(m1, d, buf);
    AllocateGains(m1, d, buf);
    OpensTable(m, m1, Allocate(m1, d, buf).0, d, buf);
  }

  lemma OpenedUsers(m: Mem, m': Mem, d: Dir, p: nat)
    requires Shape(m) && Shape(m') && Opened(m, m', d, p) && OneUserEach(m)
    ensures OneUserEach(m')
  {
    forall c: Dir | m'.used[c]
      ensures exists q: nat :: OnlyUser(m', c, q)
    {
      if c == d {
        assert OnlyUser(m', c, p);
      } else {
        var q: nat :| OnlyUser(m, c, q);
        forall e: nat | e < TABLE_SIZE && e / ENTRIES == c
          ensures UserAt(m', e) <==> e % ENTRIES == q
        {
          assert m'.table[e] == m.table[e];
          assert UserAt(m, e) <==> e % ENTRIES == q;
        }
        assert OnlyUser(m', c, q);
      }
    }
  }

  // ----- Creation

  /** What the creation reached before the executable is read. */
  lemma LoadingMemory(s: Procs, buf: u32)
    requires ProcShape(s) && PagingInv(s.mem) && OneUserEach(s.mem) && Budget(s) && HasRoom(s)
    requires s.mem.free > 0 && buf < KERNEL_BASE
    ensures var l := Loading(s, buf);
            PagingInv(l.mem) && OneUserEach(l.mem) && Budget(l)
            && Opened(s.mem, l.mem, CreateDir(s.mem).1.value, PageIndex(buf))
  {
    OpensOne(s.mem, buf);
    OpenedBudget(s, Loading(s, buf), CreateDir(s.mem).1.value, PageIndex(buf));
  }

  lemma OpenedBudget(s: Procs, l: Procs, d: Dir, p: nat)
    requires ProcShape(s) && ProcShape(l) && Budget(s) && OneUserEach(s.mem) && Opened(s.mem, l.mem, d, p)
    requires l.mem.free == s.mem.free - 1 && l.nextPid == (s.nextPid + 1) % WORD
    ensures OneUserEach(l.mem) && Budget(l)
  {
    OpenedUsers(s.mem, l.mem, d, p);
    assert UsedSet(l.mem.used) == UsedSet(s.mem.used) + {d as nat};
    FewerThan(UsedSet(s.mem.used), DIRECTORIES);
  }

  /** The table after slot i was given pid and directory d, marked. */
  ghost predicate Entered(s: Procs, s': Procs, i: nat, d: Dir)
    requires ProcShape(s) && ProcShape(s')
  {
    i < PROCESSES && !s.marked[i] && s'.marked == s.marked[i := true] && s'.active == (s.active + 1) % WORD
    && s'.nextPid == s.nextPid + 1 && !s.mem.used[d] && s'.mem.used == s.mem.used[d := true]
    && s'.pcbs[i].pid == s.nextPid && s'.pcbs[i].dir == Some(d) && s'.pcbs[i].frameCount == s.pcbs[i].frameCount
    && forall k :: 0 <= k < PROCESSES && k != i ==> s'.pcbs[k] == s.pcbs[k]
  }

  lemma EnteredKeeps(s: Procs, s': Procs, lost: nat, i: nat, d: Dir)
    requires ProcShape(s) && ProcShape(s') && TableInv(s, lost) && Entered(s, s', i, d) && s.nextPid > 0
    ensures TableInv(s', lost)
  {
    forall k: nat | k < PROCESSES
      ensures SlotOk(s', k) && (Live(s', k) <==> k == i || Live(s, k))
      ensures k != i && Live(s, k) ==> s'.pcbs[k].pid != s.nextPid && s'.pcbs[k].dir != Some(d)
    {
      assert SlotOk(s, k);
    }
    assert MarkedSet(s'.marked) == MarkedSet(s.marked) + {i};
    FewerThan(MarkedSet(s'.marked), PROCESSES);
  }

  lemma CreateEnters(s: Procs, buf: u32, size: u32)
    requires ProcShape(s) && PagingInv(s.mem) && OneUserEach(s.mem) && Budget(s)
    requires Refusal(s, buf, size) == 0 && HasRoom(s) && s.nextPid < WORD - 1
    ensures var s' := Create(s, buf, size, 0).0;
            ProcShape(s') && s'.mem == Loading(s, buf).mem
            && Entered(s, s', FirstFree(s.marked, 0), CreateDir(s.mem).1.value)
  {
    RefusalIff(s, buf, size);
    LoadingMemory(s, buf);
  }

  /** A creation whose executable is read keeps everything, returns 0, and takes one slot, one pid, one
      directory and one frame. */
  lemma CreateKeeps(s: Procs, lost: nat, buf: u32, size: u32)
    requires DriftInv(s, lost) && Refusal(s, buf, size) == 0 && HasRoom(s)
    ensures CreateSafe(s, buf, size, 0)
    ensures var (s', code) := Create(s, buf, size, 0);
            DriftInv(s', lost) && code == 0 && s'.active == s.active + 1 && s'.nextPid == s.nextPid + 1
            && s'.mem.free == s.mem.free - 1
  {
    RefusalIff(s, buf, size);
    LoadingMemory(s, buf);
    FewerThan(UsedSet(s.mem.used), DIRECTORIES);
    CreateEnters(s, buf, size);
    EnteredKeeps(s, Create(s, buf, size, 0).0, lost, FirstFree(s.marked, 0), CreateDir(s.mem).1.value);
    BudgetOf(s, Create(s, buf, size, 0).0, Loading(s, buf));
    FewerThan(MarkedSet(s.marked), PROCESSES);
  }

  lemma BudgetOf(s: Procs, s': Procs, l: Procs)
    requires ProcShape(s) && ProcShape(s') && ProcShape(l) && Budget(l) && s'.mem == l.mem && s'.nextPid == l.nextPid
    requires Budget(s) && l.nextPid == s.nextPid + 1
    ensures Budget(s') && s'.mem.free == s.mem.free - 1
  {
  }

  // ----- Failed reads

  /** The new pid is in no other slot, so the clean-up finds the new one. */
  lemma FindsNew(s: Procs, lost: nat, buf: u32)
    requires ProcShape(s) && TableInv(s, lost) && HasRoom(s)
    ensures FindPid(Loading(s, buf).pcbs, s.nextPid, 0) == FirstFree(s.marked, 0)
  {
    var l, i := Loading(s, buf), FirstFree(s.marked, 0);
    assert SlotOk(s, i);
    forall k: nat | k < PROCESSES && k != i
      ensures l.pcbs[k].pid != s.nextPid
    {
      assert SlotOk(s, k);
    }
    assert l.pcbs[i].pid == s.nextPid;
    var r := FindPid(l.pcbs, s.nextPid, 0);
    assert r <= i;
  }

  /** When the executable cannot be read, the counter of active processes goes down although it had
      not gone up; the slot is free again, the frame and the directory are not. */
  lemma FailedRead(s: Procs, lost: nat, buf: u32, size: u32, readCode: int)
    requires DriftInv(s, lost) && Refusal(s, buf, size) == 0 && HasRoom(s) && readCode != 0
    ensures CreateSafe(s, buf, size, readCode)
    ensures var (s', code) := Create(s, buf, size, readCode);
            code == 4 && ProcShape(s') && s'.marked == s.marked && s'.active == (s.active - 1) % WORD
            && s'.mem == Loading(s, buf).mem
  {
    FindsNew(s, lost, buf);
    var l, i := Loading(s, buf), FirstFree(s.marked, 0);
    assert SlotOk(s, i);
    assert DestroySafe(l, s.nextPid);
    forall k: nat | k < PROCESSES && s.marked[k]
      ensures k != i && l.pcbs[k].pid != 0
    {
      assert SlotOk(s, k);
    }
    var s' := Destroy(l, s.nextPid).0;
    assert s'.marked == s.marked;
  }

  /** The table after slot i was filled and emptied again. */
  ghost predicate Undone(s: Procs, s': Procs, i: nat)
    requires ProcShape(s) && ProcShape(s')
  {
    i < PROCESSES && !s.marked[i] && s'.marked == s.marked && s'.active == s.active - 1
    && s'.nextPid >= s.nextPid && s'.pcbs[i].pid == 0 && s'.pcbs[i].frameCount == 0
    && (forall d: Dir :: s.mem.used[d] ==> s'.mem.used[d])
    && forall k :: 0 <= k < PROCESSES && k != i ==> s'.pcbs[k] == s.pcbs[k]
  }

  lemma UndoneDrifts(s: Procs, s': Procs, lost: nat, i: nat)
    requires ProcShape(s) && ProcShape(s') && TableInv(s, lost) && Undone(s, s', i)
    ensures TableInv(s', lost + 1)
  {
    forall k: nat | k < PROCESSES
      ensures SlotOk(s', k) && (Live(s', k) <==> Live(s, k)) && (Live(s, k) ==> s'.pcbs[k] == s.pcbs[k])
    {
      assert SlotOk(s, k);
    }
  }

  lemma FailedIsUndone(s: Procs, lost: nat, buf: u32, size: u32, readCode: int)
    requires DriftInv(s, lost) && Refusal(s, buf, size) == 0 && HasRoom(s) && readCode != 0
    requires s.active > 0 && s.nextPid < WORD - 1
    ensures CreateSafe(s, buf, size, readCode)
    ensures var s' := Create(s, buf, size, readCode).0;
            ProcShape(s') && s'.nextPid == s.nextPid + 1 && Undone(s, s', FirstFree(s.marked, 0))
  {
    FailedRead(s, lost, buf, size, readCode);
    FindsNew(s, lost, buf);
    RefusalIff(s, buf, size);
    LoadingDirs(s, buf);
    NewIsErased(s, buf);
  }

  lemma LoadingDirs(s: Procs, buf: u32)
    requires ProcShape(s) && PagingInv(s.mem) && OneUserEach(s.mem) && Budget(s) && HasRoom(s)
    requires s.mem.free > 0 && buf < KERNEL_BASE
    ensures forall d: Dir :: s.mem.used[d] ==> Loading(s, buf).mem.used[d]
  {
    LoadingMemory(s, buf);
  }

  /** Destroying the process that is being loaded touches only its slot. */
  lemma NewIsErased(s: Procs, buf: u32)
    requires ProcShape(s) && HasRoom(s) && FindPid(Loading(s, buf).pcbs, s.nextPid, 0) == FirstFree(s.marked, 0)
    requires DestroySafe(Loading(s, buf), s.nextPid) && s.nextPid < WORD - 1 && s.active > 0
    requires var s' := Destroy(Loading(s, buf), s.nextPid).0;
             && s'.marked == s.marked && s'.active == (s.active - 1) % WORD && s'.mem == Loading(s, buf).mem
    requires forall d: Dir :: s.mem.used[d] ==> Loading(s, buf).mem.used[d]
    ensures var s' := Destroy(Loading(s, buf), s.nextPid).0;
            ProcShape(s') && s'.nextPid == s.nextPid + 1 && Undone(s, s', FirstFree(s.marked, 0))
  {
  }

  /** A failed read with a process active widens the drift by one. */
  lemma FailedReadDrifts(s: Procs, lost: nat, buf: u32, size: u32, readCode: int)
    requires DriftInv(s, lost) && Refusal(s, buf, size) == 0 && HasRoom(s) && readCode != 0 && s.active > 0
    ensures CreateSafe(s, buf, size, readCode)
    ensures var s' := Create(s, buf, size, readCode).0;
            DriftInv(s', lost + 1) && s'.active == s.active - 1 && s'.mem.free == s.mem.free - 1
  {
    RefusalIff(s, buf, size);
    LoadingMemory(s, buf);
    FewerThan(UsedSet(s.mem.used), DIRECTORIES);
    FailedRead(s, lost, buf, size, readCode);
    FailedIsUndone(s, lost, buf, size, readCode);
    UndoneDrifts(s, Create(s, buf, size, readCode).0, lost, FirstFree(s.marked, 0));
    BudgetOf(s, Create(s, buf, size, readCode).0, Loading(s, buf));
  }

  /** A creation keeps the table in order exactly when it is refused or the executable is read. */
  lemma CreateKeepsIff(s: Procs, buf: u32, size: u32, readCode: int)
    requires ProcInv(s)
    ensures CreateSafe(s, buf, size, readCode)
    ensures ProcInv(Create(s, buf, size, readCode).0) <==> (Refusal(s, buf, size) == 0 ==> readCode == 0)
  {
    if Refusal(s, buf, size) == 0 {
      RoomFound(s, buf, size);
      if readCode == 0 {
        CreateKeeps(s, 0, buf, size);
      } else {
        FailedRead(s, 0, buf, size, readCode);
      }
    }
  }

  /** A failed read while no process is active makes the creation after it fail with 1, whatever it
      asks for. */
  lemma FailedReadBlocks(s: Procs, buf: u32, size: u32, readCode: int, buf': u32, size': u32, readCode': int)
    requires ProcInv(s) && s.active == 0 && Refusal(s, buf, size) == 0 && readCode != 0
    ensures CreateSafe(s, buf, size, readCode)
    ensures var s' := Create(s, buf, size, readCode).0;
            ProcShape(s') && CreateSafe(s', buf', size', readCode') && Create(s', buf', size', readCode') == (s', 1)
  {
    RoomFound(s, buf, size);
    FailedRead(s, 0, buf, size, readCode);
  }

  // ----- Destruction

  lemma DestroyIsSafe(s: Procs, lost: nat, pid: u32)
    requires DriftInv(s, lost)
    ensures DestroySafe(s, pid)
    ensures Destroy(s, pid).0.mem == s.mem && Destroy(s, pid).0.nextPid == s.nextPid
  {
    var i := FindPid(s.pcbs, pid, 0);
    if i < PROCESSES {
      assert SlotOk(s, i);
    }
  }

  /** The table after slot i was given up. */
  ghost predicate Left(s: Procs, s': Procs, i: nat)
    requires ProcShape(s) && ProcShape(s')
  {
    Live(s, i) && s'.mem == s.mem && s'.nextPid == s.nextPid && s'.active == (s.active - 1) % WORD
    && s'.pcbs[i].pid == 0 && s'.pcbs[i].frameCount == 0
    && (forall k :: 0 <= k < PROCESSES && k != i ==> s'.pcbs[k] == s.pcbs[k])
    && forall k :: 0 <= k < PROCESSES ==> s'.marked[k] == (s.marked[k] && s'.pcbs[k].pid != 0)
  }

  lemma LeftKeeps(s: Procs, s': Procs, lost: nat, i: nat)
    requires ProcShape(s) && ProcShape(s') && TableInv(s, lost) && Left(s, s', i) && s.active > 0
    ensures TableInv(s', lost)
  {
    assert SlotOk(s, i);
    forall k: nat | k < PROCESSES
      ensures SlotOk(s', k) && (Live(s', k) <==> k != i && Live(s, k))
      ensures s'.marked[k] <==> k != i && s.marked[k]
    {
      assert SlotOk(s, k);
    }
    assert i in MarkedSet(s.marked);
    assert MarkedSet(s'.marked) == MarkedSet(s.marked) - {i};
  }

  lemma DestroyLive(s: Procs, lost: nat, pid: u32)
    requires DriftInv(s, lost) && pid != 0 && FindPid(s.pcbs, pid, 0) < PROCESSES && DestroySafe(s, pid)
    requires s.active > 0
    ensures DriftInv(Destroy(s, pid).0, lost)
  {
    DestroyIsSafe(s, lost, pid);
    LeftKeeps(s, Destroy(s, pid).0, lost, FindPid(s.pcbs, pid, 0));
  }

  lemma LiveIsMarked(s: Procs, i: nat)
    requires ProcInv(s) && Live(s, i)
    ensures s.active > 0
  {
    assert SlotOk(s, i);
    assert i in MarkedSet(s.marked);
  }

  lemma DestroyZero(s: Procs)
    requires ProcInv(s) && s.active < PROCESSES && DestroySafe(s, 0)
    ensures Destroy(s, 0).1 && !ProcInv(Destroy(s, 0).0)
  {
    var s', i := Destroy(s, 0).0, FindPid(s.pcbs, 0, 0);
    if i == PROCESSES {
      forall k: nat | k < PROCESSES
        ensures k in MarkedSet(s.marked)
      {
        assert SlotOk(s, k);
      }
      AllIn(MarkedSet(s.marked), PROCESSES);
    }
    forall k: nat | k < PROCESSES
      ensures s'.marked[k] == s.marked[k]
    {
      assert SlotOk(s, k);
    }
    assert s'.marked == s.marked;
  }

  /** A destruction touches neither frames nor directories, and keeps the table in order exactly
      when it does not take an empty slot for process 0. */
  lemma DestroyKeepsIff(s: Procs, pid: u32)
    requires ProcInv(s)
    ensures DestroySafe(s, pid) && Destroy(s, pid).0.mem == s.mem
    ensures ProcInv(Destroy(s, pid).0) <==> pid != 0 || s.active == PROCESSES
  {
    DestroyIsSafe(s, 0, pid);
    FewerThan(MarkedSet(s.marked), PROCESSES);
    if pid != 0 && FindPid(s.pcbs, pid, 0) < PROCESSES {
      LiveIsMarked(s, FindPid(s.pcbs, pid, 0));
      DestroyLive(s, 0, pid);
    }
    if pid == 0 && s.active < PROCESSES {
      DestroyZero(s);
    }
    if pid == 0 && s.active == PROCESSES && FindPid(s.pcbs, 0, 0) < PROCESSES {
      FullTable(s, FindPid(s.pcbs, 0, 0));
    }
  }

  /** With sixteen active processes every slot is marked. */
  lemma FullTable(s: Procs, i: nat)
    requires ProcInv(s) && s.active == PROCESSES && i < PROCESSES
    ensures s.pcbs[i].pid != 0
  {
    assert SlotOk(s, i);
    if !s.marked[i] {
      MissingOne(MarkedSet(s.marked), i);
    }
  }

  lemma MissingOne(s: set<nat>, i: nat)
    requires i < PROCESSES && i !in s && forall k :: k in s ==> k < PROCESSES
    ensures |s| < PROCESSES
  {
    FewerThan(s + {i}, PROCESSES);
  }

  // ----- Runs

  datatype Call = Spawn(buf: u32, size: u32, readCode: int) | Kill(pid: u32)

  ghost predicate CallSafe(s: Procs, c: Call)
    requires ProcShape(s)
  {
    match c
    case Spawn(buf, size, readCode) => CreateSafe(s, buf, size, readCode)
    case Kill(pid) => DestroySafe(s, pid)
  }

  ghost function AfterCall(s: Procs, c: Call): Procs
    requires ProcShape(s) && CallSafe(s, c)
  {
    match c
    case Spawn(buf, size, readCode) => Create(s, buf, size, readCode).0
    case Kill(pid) => Destroy(s, pid).0
  }

  /** A spawn that is refused or whose executable is read; a kill of any pid but 0. */
  ghost predicate CallAllowed(s: Procs, c: Call)
    requires ProcShape(s)
  {
    match c
    case Spawn(buf, size, readCode) => Refusal(s, buf, size) == 0 ==> readCode == 0
    case Kill(pid) => pid != 0 || s.active == PROCESSES
  }

  lemma CallKeepsIff(s: Procs, c: Call)
    requires ProcInv(s)
    ensures CallSafe(s, c)
    ensures ProcInv(AfterCall(s, c)) <==> CallAllowed(s, c)
  {
    match c
    case Spawn(buf, size, readCode) => CreateKeepsIff(s, buf, size, readCode);
    case Kill(pid) => DestroyKeepsIff(s, pid);
  }

  ghost predicate CallRun(ss: seq<Procs>, cs: seq<Call>) {
    |ss| == |cs| + 1 && ss[0] == BootProcs() && (forall s :: s in ss ==> ProcShape(s))
    && forall k: nat :: k < |cs| ==>
         CallAllowed(ss[k], cs[k]) && (CallSafe(ss[k], cs[k]) ==> ss[k + 1] == AfterCall(ss[k], cs[k]))
  }

  /** Over every run of such calls the table, the frames and the directories agree, every call is
      memory safe, and no more than 31 pids are ever given out: each took a frame that never returns. */
  lemma {:induction false} CallRunKeeps(ss: seq<Procs>, cs: seq<Call>, k: nat)
    requires CallRun(ss, cs) && k < |ss|
    ensures ProcInv(ss[k]) && ss[k].nextPid + ss[k].mem.free == FRAMES
    ensures k < |cs| ==> CallSafe(ss[k], cs[k])
  {
    if k == 0 {
      BootProcInv();
    } else {
      CallRunKeeps(ss, cs, k - 1);
      CallKeepsIff(ss[k - 1], cs[k - 1]);
      assert ss[k - 1 + 1] == AfterCall(ss[k - 1], cs[k - 1]);
    }
    if k < |cs| {
      CallKeepsIff(ss[k], cs[k]);
    }
  }

  /** At every point of every such run two live processes share no physical byte of user memory. */
  lemma ProcessesIsolated(ss: seq<Procs>, cs: seq<Call>, k: nat, i: nat, j: nat, va1: u32, va2: u32)
    requires CallRun(ss, cs) && k < |ss| && ProcShape(ss[k]) && Live(ss[k], i) && Live(ss[k], j) && i != j
    ensures var s := ss[k]; s.pcbs[i].dir.Some? && s.pcbs[j].dir.Some?
    ensures var s := ss[k];
            var x1, x2 := s.mem.table[At(s.pcbs[i].dir.value, va1)], s.mem.table[At(s.pcbs[j].dir.value, va2)];
            x1.flag.user && x2.flag.user ==> Translate(x1, va1) != Translate(x2, va2)
  {
    CallRunKeeps(ss, cs, k);
    var s := ss[k];
    assert SlotOk(s, i) && SlotOk(s, j);
    var e1, e2 := At(s.pcbs[i].dir.value, va1), At(s.pcbs[j].dir.value, va2);
    assert e1 != e2;
    Offsets(s.mem.table[e1].lower, va1 % FRAME_SIZE, s.mem.table[e2].lower, va2 % FRAME_SIZE);
    assert UserAt(s.mem, e1) && UserAt(s.mem, e2) ==> s.mem.table[e1].lower != s.mem.table[e2].lower;
  }

  // ----- A reachable creation without a slot

  /** The state after each call, every call memory safe. */
  ghost predicate SafeSteps(ss: seq<Procs>, cs: seq<Call>) {
    |ss| == |cs| + 1 && (forall s :: s in ss ==> ProcShape(s))
    && forall k: nat :: k < |cs| ==> CallSafe(ss[k], cs[k]) && ss[k + 1] == AfterCall(ss[k], cs[k])
  }

  lemma StepsAppend(ss: seq<Procs>, cs: seq<Call>, c: Call)
    requires SafeSteps(ss, cs) && CallSafe(ss[|cs|], c) && ProcShape(AfterCall(ss[|cs|], c))
    ensures SafeSteps(ss + [AfterCall(ss[|cs|], c)], cs + [c])
  {
    var ts, ds := ss + [AfterCall(ss[|cs|], c)], cs + [c];
    forall k: nat | k < |ds|
      ensures CallSafe(ts[k], ds[k]) && ts[k + 1] == AfterCall(ts[k], ds[k])
    {
      if k < |cs| {
        assert ss[k + 1] == AfterCall(ss[k], cs[k]);
      }
    }
  }

  /** Up to n more creations whose executables are read, as long as slots and frames last. */
  lemma {:induction false} SpawnMany(ss: seq<Procs>, cs: seq<Call>, lost: nat, n: nat)
      returns (ts: seq<Procs>, ds: seq<Call>)
    requires SafeSteps(ss, cs) && DriftInv(ss[|cs|], lost)
    requires ss[|cs|].active + lost + n <= PROCESSES && n <= ss[|cs|].mem.free
    ensures SafeSteps(ts, ds) && ts[0] == ss[0] && DriftInv(ts[|ds|], lost)
    ensures ts[|ds|].active == ss[|cs|].active + n && ts[|ds|].mem.free == ss[|cs|].mem.free - n
    decreases n
  {
    ts, ds := ss, cs;
    if n > 0 {
      var s, c := ss[|cs|], Spawn(0, 0, 0);
      RefusalIff(s, 0, 0);
      RoomIff(s, lost, 0, 0);
      CreateKeeps(s, lost, 0, 0);
      StepsAppend(ss, cs, c);
      ts, ds := SpawnMany(ss + [AfterCall(s, c)], cs + [c], lost, n - 1);
    }
  }

  /** The creation passes every check, but all slots are taken: the code writes before the table. */
  ghost predicate Overruns(s: Procs) {
    ProcShape(s) && Refusal(s, 0, 0) == 0 && FirstFree(s.marked, 0) == PROCESSES
  }

  /** One failed read is enough: after one process, a failed read, and fifteen more processes, all
      sixteen slots are taken and the counter says fifteen. */
  lemma OverrunReachable() returns (ss: seq<Procs>, cs: seq<Call>)
    ensures SafeSteps(ss, cs) && ss[0] == BootProcs() && Overruns(ss[|cs|])
  {
    BootProcInv();
    var boot := BootProcs();
    BootMarks();
    ss, cs := SpawnMany([boot], [], 0, 1);
    var s, failed := ss[|cs|], Spawn(0, 0, 1);
    RefusalIff(s, 0, 0);
    RoomIff(s, 0, 0, 0);
    FailedReadDrifts(s, 0, 0, 0, 1);
    StepsAppend(ss, cs, failed);
    ss, cs := ss + [AfterCall(s, failed)], cs + [failed];
    ss, cs := SpawnMany(ss, cs, 1, 15);
    RefusalIff(ss[|cs|], 0, 0);
    RoomIff(ss[|cs|], 1, 0, 0);
  }

  lemma BootMarks()
    ensures BootProcs().active == 0 && BootProcs().mem.free == 31
  {
  }
}
