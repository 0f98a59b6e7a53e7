/** The process table of src/process.c over the page-frame allocator. */
module Process {
  import opened Memory
  import opened Paging

  const PROCESSES := 16
  const MAX_FRAMES := 8
  const USER_STACK := 0xBFFF_FFFC
  const USER_EFLAGS := 0x202

  datatype State = Running | Ready | Waiting

  /** A process control block: the directory is None for the null pointer. */
  datatype Pcb = Pcb(pid: u32, state: State, dir: Option<Dir>, stack: u32, eflags: u32,
                     addrs: seq<u32>, frameCount: u32)

  const NO_PCB := Pcb(0, Running, None, 0, 0, [0, 0, 0, 0, 0, 0, 0, 0], 0)

  datatype Procs = Procs(pcbs: seq<Pcb>, marked: seq<bool>, active: u32, nextPid: u32, mem: Mem)

  ghost predicate ProcShape(s: Procs) {
    |s.pcbs| == PROCESSES && |s.marked| == PROCESSES && Shape(s.mem)
    && forall k :: 0 <= k < PROCESSES ==> |s.pcbs[k].addrs| == MAX_FRAMES
  }

  // ----- What each operation does

  /** The conversion of an integer to 32 bits with a sign. */
  function AsInt32(x: int): int {
    (x + 0x8000_0000) % WORD - 0x8000_0000
  }

  /** ceil_div on 32-bit signed integers: the sum wraps and the quotient is truncated toward zero. */
  function CeilDiv(a: int, b: nat): int
    requires b > 0
  {
    var n := AsInt32(a + b - 1);
    if n >= 0 then n / b else -((-n) / b)
  }

  /** The frames that an executable of this size needs, with one more for the stack. */
  function Needed(size: u32): u32 {
    CeilDiv(AsInt32((size + FRAME_SIZE) % WORD), FRAME_SIZE) % WORD
  }

  function FindPid(pcbs: seq<Pcb>, pid: u32, from: nat): (r: nat)
    requires from <= |pcbs|
    ensures from <= r <= |pcbs| && (r < |pcbs| ==> pcbs[r].pid == pid)
    ensures forall k :: from <= k < r ==> pcbs[k].pid != pid
    decreases |pcbs| - from
  {
    if from == |pcbs| || pcbs[from].pid == pid then from else FindPid(pcbs, pid, from + 1)
  }

  ghost predicate FreeAllSafe(m: Mem, d: Option<Dir>, addrs: seq<u32>, n: nat)
    requires Shape(m) && n <= |addrs|
    decreases n, 0
  {
    n == 0 || (FreeAllSafe(m, d, addrs, n - 1) && d.Some?
               && FreeSafe(FreeAll(m, d, addrs, n - 1), d.value, addrs[n - 1]))
  }

  /** m after the release of the first n addresses. */
  ghost function FreeAll(m: Mem, d: Option<Dir>, addrs: seq<u32>, n: nat): (r: Mem)
    requires Shape(m) && n <= |addrs| && FreeAllSafe(m, d, addrs, n)
    ensures Shape(r)
    decreases n, 1
  {
    if n == 0 then m else Free(FreeAll(m, d, addrs, n - 1), d.value, addrs[n - 1])
  }

  ghost predicate DestroySafe(s: Procs, pid: u32)
    requires ProcShape(s)
  {
    var i := FindPid(s.pcbs, pid, 0);
    i < PROCESSES ==>
      var p := s.pcbs[i];
      p.frameCount <= MAX_FRAMES && FreeAllSafe(s.mem, p.dir, p.addrs, p.frameCount)
  }

  function Unmark(pcbs: seq<Pcb>, marked: seq<bool>): (r: seq<bool>)
    requires |pcbs| == |marked|
    ensures |r| == |marked| && forall k :: 0 <= k < |r| ==> r[k] == (marked[k] && pcbs[k].pid != 0)
  {
    seq(|marked|, k requires 0 <= k < |marked| && |marked| == |pcbs| => marked[k] && pcbs[k].pid != 0)
  }

  ghost function Destroy(s: Procs, pid: u32): (Procs, bool)
    requires ProcShape(s) && DestroySafe(s, pid)
  {
    var i := FindPid(s.pcbs, pid, 0);
    if i == PROCESSES then (s, false)
    else
      var p := s.pcbs[i];
      var pcbs := s.pcbs[i := p.(pid := 0, state := Ready, dir := None, frameCount := 0)];
      (Procs(pcbs, Unmark(pcbs, s.marked), (s.active - 1) % WORD, s.nextPid,
             FreeAll(s.mem, p.dir, p.addrs, p.frameCount)), true)
  }

  /** The code that turns the request down, or 0. */
  ghost function Refusal(s: Procs, buf: u32, size: u32): nat
    requires ProcShape(s)
  {
    if s.active >= PROCESSES then 1
    else if buf >= KERNEL_BASE then 2
    else if !Fits(s.mem.frames, Needed(size)) || Needed(size) > MAX_FRAMES then 3
    else 0
  }

  /** There is a slot for the new process and a directory for it. */
  ghost predicate HasRoom(s: Procs)
    requires ProcShape(s)
  {
    FirstFree(s.marked, 0) < PROCESSES && CreateDir(s.mem).1.Some?
  }

  /** The new process has its slot, pid and directory. */
  ghost function Registered(s: Procs): (r: Procs)
    requires ProcShape(s) && HasRoom(s)
    ensures ProcShape(r)
  {
    var i := FirstFree(s.marked, 0);
    var (mem, d) := CreateDir(s.mem);
    Procs(s.pcbs[i := s.pcbs[i].(pid := s.nextPid, state := Ready, dir := d)], s.marked, s.active,
          (s.nextPid + 1) % WORD, mem)
  }

  /** The state in which the executable is read: the process has one frame too. */
  ghost function Loading(s: Procs, buf: u32): (r: Procs)
    requires ProcShape(s) && HasRoom(s)
    ensures ProcShape(r)
  {
    var r := Registered(s);
    r.(mem := Allocate(r.mem, CreateDir(s.mem).1.value, buf).0)
  }

  ghost predicate CreateSafe(s: Procs, buf: u32, size: u32, readCode: int)
    requires ProcShape(s)
  {
    Refusal(s, buf, size) == 0 ==> HasRoom(s) && (readCode != 0 ==> DestroySafe(Loading(s, buf), s.nextPid))
  }

  /** readCode is what the file system returns for the executable. */
  ghost function Create(s: Procs, buf: u32, size: u32, readCode: int): (Procs, nat)
    requires ProcShape(s) && CreateSafe(s, buf, size, readCode)
  {
    if Refusal(s, buf, size) != 0 then (s, Refusal(s, buf, size))
    else
      var i, l := FirstFree(s.marked, 0), Loading(s, buf);
      if readCode != 0 then (Destroy(l, s.nextPid).0, 4)
      else
        (l.(pcbs := l.pcbs[i := l.pcbs[i].(eflags := USER_EFLAGS, stack := USER_STACK)],
            marked := l.marked[i := true], active := (l.active + 1) % WORD), 0)
  }

  // ----- The code

  class ProcessManager {
    const pcbs: array<Pcb>
    const frameMap: array<bool>
    var active: u32
    var nextPid: u32
    const pages: PageManager

    ghost predicate Valid()
      reads this, pages, pcbs
    {
      pcbs.Length == PROCESSES && frameMap.Length == PROCESSES && pages.Valid()
      && frameMap != pages.frameMap && frameMap != pages.dirUsed
      && forall k :: 0 <= k < PROCESSES ==> |pcbs[k].addrs| == MAX_FRAMES
    }

    ghost function View(): (s: Procs)
      requires Valid()
      reads this, pcbs, frameMap, pages, pages.frameMap, pages.dirUsed, pages.tables
      ensures ProcShape(s)
    {
      Procs(pcbs[..], frameMap[..], active, nextPid, pages.View())
    }

    /** The initial values of the static data. */
    constructor ()
      ensures Valid() && View() == BootProcs()
    {
      var p := new PageManager();
      pages := p;
      pcbs := new Pcb[PROCESSES](_ => NO_PCB);
      frameMap := new bool[PROCESSES](_ => false);
      active := 0;
      nextPid := 1;
      new;
      assert pages.View() == Boot();
      assert pcbs[..] == BootProcs().pcbs;
      assert frameMap[..] == BootProcs().marked;
    }

    method InactiveIndex() returns (r: int)
      requires Valid()
      ensures r == -1 <==> forall k :: 0 <= k < PROCESSES ==> frameMap[k]
      ensures r != -1 ==> 0 <= r < PROCESSES && !frameMap[r] && forall k :: 0 <= k < r ==> frameMap[k]
    {
      var i := 0;
      while i < PROCESSES
        invariant i <= PROCESSES && forall k :: 0 <= k < i ==> frameMap[k]
      {
        if !frameMap[i] {
          return i;
        }
        i := i + 1;
      }
      return -1;
    }

    method NewPid() returns (pid: u32)
      modifies this`nextPid
      ensures pid == old(nextPid) && nextPid == (old(nextPid) + 1) % WORD
    {
      pid := nextPid;
      nextPid := (nextPid + 1) % WORD;
    }

    method FindProcess(pid: u32) returns (i: nat)
      requires Valid()
      ensures i == FindPid(pcbs[..], pid, 0)
    {
      i := 0;
      while i < PROCESSES
        invariant i <= PROCESSES && FindPid(pcbs[..], pid, 0) == FindPid(pcbs[..], pid, i)
      {
        if pcbs[i].pid == pid {
          break;
        }
        i := i + 1;
      }
    }

    /** The release loop over the addresses that the process lists. */
    method ReleaseFrames(p: Pcb)
      requires Valid() && |p.addrs| == MAX_FRAMES && p.frameCount <= MAX_FRAMES
      requires FreeAllSafe(pages.View(), p.dir, p.addrs, p.frameCount)
      modifies pages, pages.frameMap, pages.tables
      ensures Valid() && pages.View() == FreeAll(old(pages.View()), p.dir, p.addrs, p.frameCount)
    {
      ghost var m := pages.View();
      var i := 0;
      while i < p.frameCount
        invariant i <= p.frameCount && Valid()
        invariant FreeAllSafe(m, p.dir, p.addrs, i) && pages.View() == FreeAll(m, p.dir, p.addrs, i)
      {
        SafeSoFar(m, p.dir, p.addrs, i + 1, p.frameCount);
        var _ := pages.FreeUserPageFrame(p.dir.value, p.addrs[i]);
        i := i + 1;
      }
    }

    method UnmarkFree()
      requires Valid()
      modifies frameMap
      ensures frameMap[..] == Unmark(pcbs[..], old(frameMap[..]))
    {
      ghost var was := frameMap[..];
      var i := 0;
      while i < PROCESSES
        invariant i <= PROCESSES
        invariant forall k :: 0 <= k < PROCESSES ==>
                    frameMap[k] == if k < i then was[k] && pcbs[k].pid != 0 else was[k]
      {
        if pcbs[i].pid == 0 {
          frameMap[i] := false;
        }
        i := i + 1;
      }
    }

    method DestroyProcess(pid: u32) returns (ok: bool)
      requires Valid() && DestroySafe(View(), pid)
      modifies this, pcbs, frameMap, pages, pages.frameMap, pages.tables
      ensures Valid() && (View(), ok) == Destroy(old(View()), pid)
    {
      var i := FindProcess(pid);
      if i == PROCESSES {
        return false;
      }
      ReleaseFrames(pcbs[i]);
      pcbs[i] := pcbs[i].(frameCount := 0);
      SamePids(old(pcbs[..]), pcbs[..], pid, 0);
      var j := FindProcess(pid);
      if j < PROCESSES {
        pcbs[j] := pcbs[j].(pid := 0, state := Ready, dir := None);
      }
      UnmarkFree();
      active := (active - 1) % WORD;
      assert pcbs[..] == Destroy(old(View()), pid).0.pcbs;
      return true;
    }

    /** The three checks in front of a creation. */
    method Refuse(buf: u32, size: u32) returns (code: nat)
      requires Valid()
      ensures code == Refusal(View(), buf, size)
    {
      if active >= PROCESSES {
        return 1;
      }
      if buf >= KERNEL_BASE {
        return 2;
      }
      var needed := CeilDiv(AsInt32((size + FRAME_SIZE) % WORD), FRAME_SIZE) % WORD;
      var enough := pages.AllocateCheck(needed);
      if !enough || needed > MAX_FRAMES {
        return 3;
      }
      return 0;
    }

    /** The slot, the pid and the directory of a new process. */
    method Register() returns (i: nat, d: Dir)
      requires Valid() && HasRoom(View())
      modifies this, pcbs, pages, pages.dirUsed, pages.tables
      ensures Valid() && View() == Registered(old(View())) && Some(d) == CreateDir(old(pages.View())).1
      ensures i == FirstFree(old(frameMap[..]), 0) && pcbs[i].pid == old(nextPid)
    {
      var free := InactiveIndex();
      FirstFreeIs(frameMap[..], free);
      i := free;
      var pid := NewPid();
      pcbs[i] := pcbs[i].(pid := pid, state := Ready);
      var dir := pages.CreateNewPageDirectory();
      pcbs[i] := pcbs[i].(dir := dir);
      d := dir.value;
      assert pcbs[..] == Registered(old(View())).pcbs;
    }

    method Prepare(buf: u32) returns (i: nat)
      requires Valid() && HasRoom(View())
      modifies this, pcbs, pages, pages.frameMap, pages.dirUsed, pages.tables
      ensures Valid() && View() == Loading(old(View()), buf)
      ensures i == FirstFree(old(frameMap[..]), 0) && pcbs[i].pid == old(nextPid)
    {
      var d: Dir;
      i, d := Register();
      var _ := pages.AllocateUserPageFrame(d, buf);
    }

    /** The registers and the books of the new process in slot i. */
    method Activate(i: nat)
      requires Valid() && i < PROCESSES
      modifies this, pcbs, frameMap
      ensures Valid()
      ensures View() == var l := old(View());
                l.(pcbs := l.pcbs[i := l.pcbs[i].(eflags := USER_EFLAGS, stack := USER_STACK)],
                   marked := l.marked[i := true], active := (l.active + 1) % WORD)
    {
      pcbs[i] := pcbs[i].(eflags := USER_EFLAGS);
      pcbs[i] := pcbs[i].(stack := USER_STACK);
      frameMap[i] := true;
      active := (active + 1) % WORD;
    }

    method CreateUserProcess(buf: u32, size: u32, readCode: int) returns (code: nat)
      requires Valid() && CreateSafe(View(), buf, size, readCode)
      modifies this, pcbs, frameMap, pages, pages.frameMap, pages.dirUsed, pages.tables
      ensures Valid() && (View(), code) == Create(old(View()), buf, size, readCode)
    {
      code := Refuse(buf, size);
      if code != 0 {
        return code;
      }
      var i := Prepare(buf);
      if readCode != 0 {
        var _ := DestroyProcess(pcbs[i].pid);
        return 4;
      }
      Activate(i);
      return 0;
    }
  }

  function BootProcs(): (s: Procs)
    ensures |s.pcbs| == PROCESSES && |s.marked| == PROCESSES
  {
    Procs(seq(PROCESSES, _ => NO_PCB), seq(PROCESSES, _ => false), 0, 1, Boot())
  }

  lemma {:induction false} SafeSoFar(m: Mem, d: Option<Dir>, addrs: seq<u32>, k: nat, n: nat)
    requires Shape(m) && k <= n <= |addrs| && FreeAllSafe(m, d, addrs, n)
    ensures FreeAllSafe(m, d, addrs, k)
  {
    if k < n {
      SafeSoFar(m, d, addrs, k, n - 1);
    }
  }

  lemma {:induction false} SamePids(a: seq<Pcb>, b: seq<Pcb>, pid: u32, from: nat)
    requires |a| == |b| && from <= |a| && forall k :: 0 <= k < |a| ==> a[k].pid == b[k].pid
    ensures FindPid(a, pid, from) == FindPid(b, pid, from)
    decreases |a| - from
  {
    if from < |a| {
      SamePids(a, b, pid, from + 1);
    }
  }

  lemma FirstFreeIs(frames: seq<bool>, i: int)
    requires i == -1 <==> forall k :: 0 <= k < |frames| ==> frames[k]
    requires i != -1 ==> 0 <= i < |frames| && !frames[i] && forall k :: 0 <= k < i ==> frames[k]
    ensures FirstFree(frames, 0) == if i == -1 then |frames| else i
  {
  }
}
