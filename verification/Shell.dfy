/** cd and update_cwd_contents of src/user-shell.c: the two globals they update in place, and the
    functions that say what they compute. */
module Shell {
  import opened Memory
  import opened DirEntry
  import opened Volume
  import opened Fat32

  const CWD_SIZE := 80
  const SLASH: byte := '/' as int

  /** strings_equal. */
  predicate SameString(a: Bytes, b: Bytes)
    requires Terminated(a) && Terminated(b)
  {
    CStr(a) == CStr(b)
  }

  /** The memory from entry i's name to the end of the table. */
  function SlotMem(t: Cluster, i: nat): Bytes
    requires i < SLOTS
  {
    t[SLOT_SIZE * i..]
  }

  /** Every strlen on an entry of the table stops inside the table. */
  predicate NamesEnd(t: Cluster) { forall i :: 0 <= i < SLOTS ==> Terminated(SlotMem(t, i)) }

  predicate NamesFolder(t: Cluster, i: nat, arg: Bytes)
    requires NamesEnd(t) && Terminated(arg) && i < SLOTS
  {
    SameString(SlotMem(t, i), arg) && IsFolder(SlotAt(t, i))
  }

  function FoldersNamed(t: Cluster, arg: Bytes): (hits: seq<bool>)
    requires NamesEnd(t) && Terminated(arg)
    ensures |hits| == SLOTS
  {
    seq(SLOTS, i requires 0 <= i < SLOTS => NamesFolder(t, i, arg))
  }

  /** The last index from 2 to n-1 that holds true; 0 if there is none. */
  function LastHit(hits: seq<bool>, n: nat): (i: nat)
    requires n <= |hits|
    ensures i != 0 ==> 2 <= i < n && hits[i]
    ensures forall k :: 2 <= k < n && i < k ==> !hits[k]
  {
    if n <= 2 then 0 else if hits[n - 1] then n - 1 else LastHit(hits, n - 1)
  }

  /** The last slot from 2 on that names a folder called arg; 0 if there is none. */
  function LastFolder(t: Cluster, arg: Bytes): (i: nat)
    requires NamesEnd(t) && Terminated(arg)
    ensures i < SLOTS
  {
    LastHit(FoldersNamed(t, arg), SLOTS)
  }

  datatype Target = NotFound | Cluster(id: u32)

  /** The directory that cd asks for arg: the current one, or a subfolder called like it. */
  function CdTarget(t: Cluster, arg: Bytes): Target
    requires NamesEnd(t) && Terminated(arg)
  {
    if SameString(SlotMem(t, 0), arg) then
      var i := LastFolder(t, arg);
      if i == 0 then NotFound else Cluster(Start(SlotAt(t, i)))
    else Cluster(Start(SlotAt(t, 0)))
  }

  function CdRequest(target: u32, arg: Bytes): Request
    requires |arg| == CWD_SIZE
  {
    RawRequest(arg[..8], NO_EXT, target, CLUSTER_SIZE)
  }

  /** memcmp("..", arg, strlen(arg)) == 0. */
  predicate PrefixOfDotDot(arg: Bytes)
    requires Terminated(arg)
  {
    CStr(arg) <= DOTDOT_STRING
  }

  predicate IsDotDot(arg: Bytes)
    requires Terminated(arg)
  {
    CStr(arg) == DOTDOT_STRING[..2]
  }

  /** The largest index below k that holds a slash; -1 if there is none. */
  function LastSlash(cwd: Bytes, k: nat): (i: int)
    requires k <= |cwd|
    ensures -1 <= i < k && (i >= 0 ==> cwd[i] == SLASH)
    ensures forall j :: i < j < k ==> cwd[j] != SLASH
  {
    if k == 0 then -1 else if cwd[k - 1] == SLASH then k - 1 else LastSlash(cwd, k - 1)
  }

  /** The path buffer is a C string with a slash before its last character. */
  predicate Strippable(cwd: Bytes) {
    && |cwd| == CWD_SIZE && Terminated(cwd) && CLen(cwd) >= 2
    && LastSlash(cwd, CLen(cwd) - 1) >= 0
  }

  function StripCwd(cwd: Bytes): (r: Bytes)
    requires Strippable(cwd)
    ensures |r| == CWD_SIZE
  {
    var i := LastSlash(cwd, CLen(cwd) - 1);
    cwd[..i + 1] + Zeros(CWD_SIZE - i - 1)
  }

  predicate Appendable(cwd: Bytes, arg: Bytes) {
    && |cwd| == CWD_SIZE && Terminated(cwd) && Terminated(arg)
    && CLen(cwd) + CLen(arg) + 1 <= CWD_SIZE
  }

  function AppendCwd(cwd: Bytes, arg: Bytes): (r: Bytes)
    requires Appendable(cwd, arg)
    ensures |r| == CWD_SIZE
  {
    Overwrite(cwd, CLen(cwd), CStr(arg) + [SLASH])
  }

  /** cd moves: it has a target, is not asked to leave the root, and read_directory succeeds. */
  predicate CdMoves(v: Vol, current: Cluster, arg: Bytes)
    requires CdReads(v, current, arg)
  {
    var t := CdTarget(current, arg);
    && t.Cluster? && !(t.id == ROOT && IsDotDot(arg))
    && ReadDirectory(v, CdRequest(t.id, arg)).1 == 0
  }

  predicate CdReads(v: Vol, current: Cluster, arg: Bytes) {
    && NamesEnd(current) && |arg| == CWD_SIZE && Terminated(arg)
    && (CdTarget(current, arg).Cluster? ==> ReadDirectorySafe(v, CdRequest(CdTarget(current, arg).id, arg)))
  }

  /** cd stays inside its buffers. */
  predicate CdSafe(v: Vol, current: Cluster, cwd: Bytes, arg: Bytes) {
    && |cwd| == CWD_SIZE && CdReads(v, current, arg)
    && (CdMoves(v, current, arg) ==> if PrefixOfDotDot(arg) then Strippable(cwd) else Appendable(cwd, arg))
  }

  /** The table and the path after cd. */
  function Cd(v: Vol, current: Cluster, cwd: Bytes, arg: Bytes): (r: (Cluster, Bytes))
    requires CdSafe(v, current, cwd, arg)
  {
    if !CdMoves(v, current, arg) then (current, cwd)
    else
      (ReadDirectory(v, CdRequest(CdTarget(current, arg).id, arg)).0,
       if PrefixOfDotDot(arg) then StripCwd(cwd) else AppendCwd(cwd, arg))
  }

  function UpdateRequest(current: Cluster): Request {
    RawRequest(Name(SlotAt(current, 0)), NO_EXT, Start(SlotAt(current, 0)), CLUSTER_SIZE)
  }

  /** The table after update_cwd_contents. */
  function Update(v: Vol, current: Cluster): Cluster
    requires ReadDirectorySafe(v, UpdateRequest(current))
  {
    var (data, code) := ReadDirectory(v, UpdateRequest(current));
    if code == 0 then data else current
  }

  method StringsEqual(a: Bytes, b: Bytes) returns (same: bool)
    requires Terminated(a) && Terminated(b)
    ensures same == SameString(a, b)
  {
    var n := StrLen(a);
    var m := StrLen(b);
    if n != m {
      return false;
    }
    var c := MemCmp(a, b, m);
    return c == 0;
  }

  lemma DotDotString()
    ensures Terminated(DOTDOT_STRING) && CStr(DOTDOT_STRING) == DOTDOT_STRING[..2]
  {
    CLenUnique(DOTDOT_STRING, 2);
  }

  lemma StripIs(cwd: Bytes, i: nat)
    requires |cwd| == CWD_SIZE && i < CWD_SIZE
    ensures Overwrite(cwd, i + 1, seq(CWD_SIZE - i - 1, _ => 0)) == cwd[..i + 1] + Zeros(CWD_SIZE - i - 1)
  {
  }

  class UserShell {
    const drv: Fat32Driver
    const currentFolder: array<byte>
    const cwd: array<byte>

    ghost predicate Valid() {
      && drv.Valid() && currentFolder.Length == CLUSTER_SIZE && cwd.Length == CWD_SIZE
      && drv.Outside(currentFolder) && drv.Outside(cwd) && currentFolder != cwd
    }

    constructor (drv: Fat32Driver, currentFolder: array<byte>, cwd: array<byte>)
      requires drv.Valid() && currentFolder.Length == CLUSTER_SIZE && cwd.Length == CWD_SIZE
      requires drv.Outside(currentFolder) && drv.Outside(cwd) && currentFolder != cwd
      ensures Valid() && this.drv == drv && this.currentFolder == currentFolder && this.cwd == cwd
    {
      this.drv := drv;
      this.currentFolder := currentFolder;
      this.cwd := cwd;
    }

    method FindLastFolder(arg: Bytes) returns (i: nat)
      requires Valid() && NamesEnd(currentFolder[..]) && Terminated(arg)
      ensures i == LastFolder(currentFolder[..], arg)
    {
      var t: Cluster := currentFolder[..];
      ghost var hits := FoldersNamed(t, arg);
      i := 0;
      for k := 2 to SLOTS
        invariant i == LastHit(hits, k)
      {
        assert hits[k] == NamesFolder(t, k, arg);
        var same := StringsEqual(SlotMem(t, k), arg);
        if same {
          if Attribute(SlotAt(t, k)) == ATTR_SUBDIRECTORY {
            i := k;
          }
        }
      }
    }

    method FindTarget(arg: Bytes) returns (found: bool, target: u32)
      requires Valid() && NamesEnd(currentFolder[..]) && Terminated(arg)
      ensures var t := CdTarget(currentFolder[..], arg); found == t.Cluster? && (found ==> target == t.id)
    {
      var t: Cluster := currentFolder[..];
      assert SlotMem(t, 0) == t;
      var own := StringsEqual(t, arg);
      found, target := true, Start(SlotAt(t, 0));
      if own {
        var i := FindLastFolder(arg);
        found, target := i != 0, Start(SlotAt(t, i));
      }
    }

    method ChangeDirectory(arg: Bytes)
      requires Valid() && CdSafe(drv.View(), currentFolder[..], cwd[..], arg)
      modifies drv.dirTableBuf, currentFolder, cwd
      ensures (currentFolder[..], cwd[..]) == Cd(drv.View(), old(currentFolder[..]), old(cwd[..]), arg)
    {
      var found, target := FindTarget(arg);
      if !found {
        return;
      }
      DotDotString();
      var dotDot := StringsEqual(DOTDOT_STRING, arg);
      if !(target == ROOT && dotDot) {
        Move(target, arg);
      }
    }

    /** The read and the path update of cd. */
    method Move(target: u32, arg: Bytes)
      requires Valid() && CdSafe(drv.View(), currentFolder[..], cwd[..], arg)
      requires CdTarget(currentFolder[..], arg) == Cluster(target) && !(target == ROOT && IsDotDot(arg))
      modifies drv.dirTableBuf, currentFolder, cwd
      ensures (currentFolder[..], cwd[..]) == Cd(drv.View(), old(currentFolder[..]), old(cwd[..]), arg)
    {
      var req := CdRequest(target, arg);
      ghost var data := ReadDirectory(drv.View(), req).0;
      ghost var was := currentFolder[..];
      var retcode := drv.ReadDirectory(req, currentFolder);
      if retcode == 0 {
        assert Overwrite(was, 0, data) == data;
        UpdatePath(arg);
      } else {
        assert Overwrite(was, 0, data) == was;
      }
    }

    /** What cd does to the path once the directory is read. */
    method UpdatePath(arg: Bytes)
      requires Valid() && Terminated(arg)
      requires if PrefixOfDotDot(arg) then Strippable(cwd[..]) else Appendable(cwd[..], arg)
      modifies cwd
      ensures cwd[..] == if PrefixOfDotDot(arg) then StripCwd(old(cwd[..])) else AppendCwd(old(cwd[..]), arg)
    {
      var n := StrLen(arg);
      PrefixCompare(arg);
      var c := MemCmp(DOTDOT_STRING, arg, n);
      if c == 0 {
        StripPath();
      } else {
        AppendPath(arg, n);
      }
    }

    method StripPath()
      requires Valid() && Strippable(cwd[..])
      modifies cwd
      ensures cwd[..] == StripCwd(old(cwd[..]))
    {
      ghost var was := cwd[..];
      var cwdlen := StrLen(cwd[..]);
      var i := cwdlen - 2;
      while cwd[i] != SLASH
        invariant 0 <= i <= cwdlen - 2
        invariant LastSlash(was, cwdlen - 1) == LastSlash(was, i + 1)
        decreases i
      {
        i := i - 1;
      }
      MemSet(cwd, i + 1, 0, CWD_SIZE - i - 1);
      StripIs(was, i);
    }

    method AppendPath(arg: Bytes, n: nat)
      requires Valid() && Appendable(cwd[..], arg) && n == CLen(arg)
      modifies cwd
      ensures cwd[..] == AppendCwd(old(cwd[..]), arg)
    {
      ghost var was := cwd[..];
      var cwdlen := StrLen(cwd[..]);
      MemCpy(cwd, cwdlen, arg, n);
      OverwriteMore(was, cwdlen, arg[..n], [SLASH]);
      MemCpy(cwd, cwdlen + n, [SLASH], 1);
    }

    method UpdateCwdContents()
      requires Valid() && ReadDirectorySafe(drv.View(), UpdateRequest(currentFolder[..]))
      modifies drv.dirTableBuf, currentFolder
      ensures currentFolder[..] == Update(drv.View(), old(currentFolder[..]))
    {
      var retcode := drv.ReadDirectory(UpdateRequest(currentFolder[..]), currentFolder);
    }
  }

  /** memcmp of ".." with arg meets a difference before it leaves the three bytes of "..". */
  lemma PrefixCompare(arg: Bytes)
    requires Terminated(arg)
    ensures Comparable(DOTDOT_STRING, arg, CLen(arg))
    ensures SamePrefix(DOTDOT_STRING, arg, CLen(arg)) <==> PrefixOfDotDot(arg)
  {
    var n := CLen(arg);
    if n > 3 { assert arg[2] != 0 && DOTDOT_STRING[2] == 0; }
  }
}
