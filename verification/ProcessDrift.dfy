/** Runs that mix failed reads, kills of process 0 and everything else: the counter of active processes
    falls behind by one each time, and nothing else goes wrong while it is above zero. */
module ProcessDrift {
  import opened Memory
  import opened Paging
  import opened Process
  import opened ProcessRuns

  ghost predicate Accepted(s: Procs, c: Call)
    requires ProcShape(s)
  {
    c.Spawn? && Refusal(s, c.buf, c.size) == 0
  }

  /** The call decrements the counter of active processes. */
  ghost predicate Lowers(s: Procs, c: Call)
    requires ProcShape(s)
  {
    match c
    case Spawn(_, _, readCode) => Accepted(s, c) && readCode != 0
    case Kill(pid) => FindPid(s.pcbs, pid, 0) < PROCESSES
  }

  /** The call decrements it although no process ends. */
  ghost predicate Drifts(s: Procs, c: Call)
    requires ProcShape(s)
  {
    Lowers(s, c) && (c.Kill? ==> c.pid == 0)
  }

  /** The counter is not lowered below zero, and an accepted creation finds a slot. */
  ghost predicate InRange(s: Procs, c: Call)
    requires ProcShape(s)
  {
    (Lowers(s, c) ==> s.active > 0) && (Accepted(s, c) ==> FirstFree(s.marked, 0) < PROCESSES)
  }

  lemma KillZeroDrifts(s: Procs, lost: nat)
    requires DriftInv(s, lost) && FindPid(s.pcbs, 0, 0) < PROCESSES && s.active > 0 && DestroySafe(s, 0)
    ensures DriftInv(Destroy(s, 0).0, lost + 1)
  {
    DestroyIsSafe(s, lost, 0);
    var s', i := Destroy(s, 0).0, FindPid(s.pcbs, 0, 0);
    forall k: nat | k < PROCESSES
      ensures s'.marked[k] == s.marked[k]
    {
      assert SlotOk(s, k);
    }
    assert s'.marked == s.marked;
    assert SlotOk(s, i);
    UndoneDrifts(s, s', lost, i);
  }

  /** Every call in range is memory safe and keeps table and memory in order, the counter behind by one more
      exactly when it was lowered for no process. */
  lemma DriftStep(s: Procs, lost: nat, c: Call)
    requires DriftInv(s, lost) && InRange(s, c)
    ensures CallSafe(s, c)
    ensures DriftInv(AfterCall(s, c), if Drifts(s, c) then lost + 1 else lost)
  {
    match c {
      case Spawn(buf, size, readCode) =>
        if Accepted(s, c) {
          RoomIff(s, lost, buf, size);
          if readCode == 0 {
            CreateKeeps(s, lost, buf, size);
          } else {
            FailedReadDrifts(s, lost, buf, size, readCode);
          }
        }
      case Kill(pid) =>
        DestroyIsSafe(s, lost, pid);
        if Lowers(s, c) {
          if pid == 0 {
            KillZeroDrifts(s, lost);
          } else {
            DestroyLive(s, lost, pid);
          }
        }
    }
  }

  /** How far the counter has fallen behind before call k. */
  ghost function Lost(ss: seq<Procs>, cs: seq<Call>, k: nat): nat
    requires k <= |cs| <= |ss| && forall s :: s in ss ==> ProcShape(s)
  {
    if k == 0 then 0 else Lost(ss, cs, k - 1) + if Drifts(ss[k - 1], cs[k - 1]) then 1 else 0
  }

  /** A run of any calls, each in range. */
  ghost predicate DriftRun(ss: seq<Procs>, cs: seq<Call>) {
    |ss| == |cs| + 1 && ss[0] == BootProcs() && (forall s :: s in ss ==> ProcShape(s))
    && forall k: nat :: k < |cs| ==>
         InRange(ss[k], cs[k]) && (CallSafe(ss[k], cs[k]) ==> ss[k + 1] == AfterCall(ss[k], cs[k]))
  }

  /** Over every run of spawns, failed reads and kills, also of process 0, table and memory stay in order and
      the counter is behind the number of processes by the calls that lowered it for none. */
  lemma {:induction false} DriftRunKeeps(ss: seq<Procs>, cs: seq<Call>, k: nat)
    requires DriftRun(ss, cs) && k < |ss|
    ensures DriftInv(ss[k], Lost(ss, cs, k))
    ensures k < |cs| ==> CallSafe(ss[k], cs[k])
  {
    if k == 0 {
      BootProcInv();
    } else {
      DriftRunKeeps(ss, cs, k - 1);
      DriftStep(ss[k - 1], Lost(ss, cs, k - 1), cs[k - 1]);
      assert ss[k - 1 + 1] == AfterCall(ss[k - 1], cs[k - 1]);
    }
    if k < |cs| {
      DriftStep(ss[k], Lost(ss, cs, k), cs[k]);
    }
  }

  /** Once it has fallen behind by the number of processes, the next lowering call wraps the counter, and every
      creation is refused from then on until the counter is lowered again. */
  lemma WrapRefuses(s: Procs, lost: nat, c: Call, buf: u32, size: u32)
    requires DriftInv(s, lost) && Lowers(s, c) && s.active == 0
    requires Accepted(s, c) ==> FirstFree(s.marked, 0) < PROCESSES
    ensures CallSafe(s, c) && ProcShape(AfterCall(s, c))
    ensures AfterCall(s, c).active == 0xFFFF_FFFF && Refusal(AfterCall(s, c), buf, size) == 1
  {
    match c {
      case Spawn(b, z, readCode) =>
        RoomIff(s, lost, b, z);
        FailedRead(s, lost, b, z, readCode);
      case Kill(pid) =>
        DestroyIsSafe(s, lost, pid);
    }
  }
}
