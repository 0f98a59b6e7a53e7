/** What one creation and one kill do to the process table, field by field, and which code a creation returns. */
module Creation {
  import opened Memory
  import opened Paging
  import opened FrameIsolation
  import opened Process
  import opened ProcessRuns

  /** The first unmarked slot. */
  ghost predicate FirstSlot(s: Procs, i: nat)
    requires ProcShape(s)
  {
    i < PROCESSES && !s.marked[i] && forall k :: 0 <= k < i ==> s.marked[k]
  }

  /** The first directory that is not in use. */
  ghost predicate FirstDir(m: Mem, d: Dir)
    requires Shape(m)
  {
    !m.used[d] && forall k: Dir :: k < d ==> m.used[k]
  }

  /** The checks of a creation, in the terms of a caller. */
  ghost predicate Affordable(s: Procs, size: u32) {
    s.mem.free > 0 && (size <= 7 * FRAME_SIZE || size > WORD - FRAME_SIZE)
  }

  /** 1 for a full table, else 2 for an entry point in the kernel's half, else 3 for too little memory, else 4 for
      an executable that cannot be read, else 0; the first three change nothing. */
  lemma CodeIff(s: Procs, buf: u32, size: u32, readCode: int)
    requires ProcShape(s) && PagingInv(s.mem) && CreateSafe(s, buf, size, readCode)
    ensures var (s', code) := Create(s, buf, size, readCode);
            && (code == 1 <==> s.active >= 16)
            && (code == 2 <==> s.active < 16 && buf >= 0xC000_0000)
            && (code == 3 <==> s.active < 16 && buf < 0xC000_0000 && !Affordable(s, size))
            && (code == 4 <==> s.active < 16 && buf < 0xC000_0000 && Affordable(s, size) && readCode != 0)
            && (code == 0 <==> s.active < 16 && buf < 0xC000_0000 && Affordable(s, size) && readCode == 0)
            && (1 <= code <= 3 ==> s' == s)
  {
    RefusalIff(s, buf, size);
  }

  /** A new process gets the first free slot, the next pid and the first free directory; it is ready to run in
      user mode with interrupts on and its stack right below the kernel's half. Nothing else in the table
      changes. */
  lemma NewProcess(s: Procs, buf: u32, size: u32, i: nat, d: Dir)
    requires ProcShape(s) && CreateSafe(s, buf, size, 0) && Create(s, buf, size, 0).1 == 0
    requires FirstSlot(s, i) && FirstDir(s.mem, d)
    ensures var s', was := Create(s, buf, size, 0).0, s.pcbs[i];
            && s'.pcbs == s.pcbs[i := Pcb(s.nextPid, Ready, Some(d), 0xC000_0000 - 4, 0x202, was.addrs, was.frameCount)]
            && s'.marked == s.marked[i := true]
            && s'.active == (s.active + 1) % WORD && s'.nextPid == (s.nextPid + 1) % WORD
  {
    assert FirstFree(s.marked, 0) == i;
    assert FirstFree(s.mem.used, 0) == d;
  }

  /** A kill returns true exactly when some slot has the pid. It empties the first such slot, keeps what it does
      not name, and unmarks every slot without a process. */
  lemma KilledProcess(s: Procs, pid: u32, i: nat)
    requires ProcShape(s) && DestroySafe(s, pid)
    requires i < PROCESSES && forall k :: 0 <= k < i ==> s.pcbs[k].pid != pid
    ensures var (s', ok) := Destroy(s, pid);
            && (ok <==> exists k :: 0 <= k < PROCESSES && s.pcbs[k].pid == pid)
            && (!ok ==> s' == s)
            && (s.pcbs[i].pid == pid ==>
                  var was := s.pcbs[i];
                  && s'.pcbs == s.pcbs[i := Pcb(0, Ready, None, was.stack, was.eflags, was.addrs, 0)]
                  && s'.nextPid == s.nextPid && s'.active == (s.active - 1) % WORD
                  && |s'.marked| == PROCESSES
                  && forall k :: 0 <= k < PROCESSES ==> (s'.marked[k] <==> s.marked[k] && s'.pcbs[k].pid != 0))
  {
    if s.pcbs[i].pid == pid {
      assert FindPid(s.pcbs, pid, 0) == i;
    }
  }

  // ----- The frames of a killed process

  /** Entry e of the tables maps one of the first n addresses in directory d. */
  ghost predicate ListedEntry(d: Dir, addrs: seq<u32>, n: nat, e: nat)
    requires n <= |addrs|
  {
    exists j :: 0 <= j < n && At(d, addrs[j]) == e
  }

  /** The first n addresses are mapped for the user in directory d, on different pages. */
  ghost predicate AllMapped(m: Mem, d: Dir, addrs: seq<u32>, n: nat)
    requires Shape(m) && n <= |addrs|
  {
    (forall j :: 0 <= j < n ==> m.table[At(d, addrs[j])].flag.user)
    && forall j, k :: 0 <= j < k < n ==> At(d, addrs[j]) != At(d, addrs[k])
  }

  /** What a kill releases: each page that the process lists is cleared and its frame counted free, no other entry
      changes, and the books stay in order. */
  lemma {:induction false} FreeAllReleases(m: Mem, d: Dir, addrs: seq<u32>, n: nat)
    requires PagingInv(m) && n <= |addrs| && AllMapped(m, d, addrs, n)
    ensures FreeAllSafe(m, Some(d), addrs, n)
    ensures var r := FreeAll(m, Some(d), addrs, n);
            PagingInv(r) && r.free == m.free + n && r.used == m.used
            && forall e: nat :: e < TABLE_SIZE ==>
                 r.table[e] == if ListedEntry(d, addrs, n, e) then ZERO_PDE else m.table[e]
  {
    if n > 0 {
      FreeAllReleases(m, d, addrs, n - 1);
      var r, last := FreeAll(m, Some(d), addrs, n - 1), At(d, addrs[n - 1]);
      assert !ListedEntry(d, addrs, n - 1, last);
      OneMoreFree(r, d, addrs[n - 1]);
      ListedNext(d, addrs, n);
    }
  }

  lemma OneMoreFree(m: Mem, d: Dir, va: u32)
    requires PagingInv(m) && m.table[At(d, va)].flag.user
    ensures FreeSafe(m, d, va)
    ensures var r := Free(m, d, va);
            PagingInv(r) && r.free == m.free + 1 && r.used == m.used && r.table == m.table[At(d, va) := ZERO_PDE]
  {
    FreeKeepsIff(m, d, va);
    FewerThan(FreeSet(m.frames), FRAMES);
  }

  lemma ListedNext(d: Dir, addrs: seq<u32>, n: nat)
    requires 0 < n <= |addrs|
    ensures forall e: nat :: ListedEntry(d, addrs, n, e) <==>
                               ListedEntry(d, addrs, n - 1, e) || e == At(d, addrs[n - 1])
  {
    forall e: nat
      ensures ListedEntry(d, addrs, n, e) <==> ListedEntry(d, addrs, n - 1, e) || e == At(d, addrs[n - 1])
    {
      if e == At(d, addrs[n - 1]) {
        assert At(d, addrs[n - 1]) == e;
      }
    }
  }

  /** A process whose listed pages are mapped can be killed, and its kill releases them. */
  lemma KillReleases(s: Procs, pid: u32, i: nat)
    requires ProcShape(s) && PagingInv(s.mem) && i < PROCESSES && s.pcbs[i].pid == pid
    requires forall k :: 0 <= k < i ==> s.pcbs[k].pid != pid
    requires s.pcbs[i].dir.Some? && s.pcbs[i].frameCount <= MAX_FRAMES
    requires AllMapped(s.mem, s.pcbs[i].dir.value, s.pcbs[i].addrs, s.pcbs[i].frameCount)
    ensures DestroySafe(s, pid)
    ensures var r, was := Destroy(s, pid).0.mem, s.pcbs[i];
            PagingInv(r) && r.free == s.mem.free + was.frameCount && r.used == s.mem.used
            && forall e: nat :: e < TABLE_SIZE ==>
                 r.table[e] == if ListedEntry(was.dir.value, was.addrs, was.frameCount, e) then ZERO_PDE
                               else s.mem.table[e]
  {
    assert FindPid(s.pcbs, pid, 0) == i;
    FreeAllReleases(s.mem, s.pcbs[i].dir.value, s.pcbs[i].addrs, s.pcbs[i].frameCount);
  }
}
