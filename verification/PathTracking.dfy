/** The shell's path keeps in step with its place in the directory tree. */
module PathTracking {
  import opened Memory
  import opened DirEntry
  import opened Volume
  import opened Invariant
  import opened Operations
  import opened Refinement
  import opened Runs
  import opened TreeWalk
  import opened Shell
  import opened Fat32

  const ROOT_PATH: Bytes := ['/' as int, 'r' as int, 'o' as int, 'o' as int, 't' as int, '/' as int]

  // ----- Names and paths

  /** The characters of an 8-byte name. */
  function NameText(name: Bytes): (t: Bytes)
    ensures 0 !in t && t <= name
  {
    if Terminated(name) then CStr(name) else name
  }

  /** A name that cd leads back from: no slash, not a prefix of "..". */
  predicate PlainName(name: Bytes) {
    |name| == 8 && Padded(name) && SLASH !in name && !(NameText(name) <= DOTDOT_STRING)
  }

  /** The path of directory d, spelled by the names on the way from the root. */
  ghost function PathText(v: Vol, g: Layout, d: nat): (p: Bytes)
    requires DirsOk(g) && DepthsOk(g) && d in g.dirs
    decreases if d in g.depth then g.depth[d] else 0
  {
    if d == ROOT then ROOT_PATH
    else PathText(v, g, g.owner[d].dir) + NameText(Name(Entry(v, d, 0))) + [SLASH]
  }

  /** Every folder on the way has a plain name. */
  ghost predicate PlainPath(v: Vol, g: Layout, d: nat)
    requires DirsOk(g) && DepthsOk(g) && d in g.dirs
    decreases if d in g.depth then g.depth[d] else 0
  {
    d == ROOT || (PlainName(Name(Entry(v, d, 0))) && PlainPath(v, g, g.owner[d].dir))
  }

  lemma {:induction false} PathShape(v: Vol, g: Layout, d: nat)
    requires DirsOk(g) && DepthsOk(g) && d in g.dirs
    ensures var p := PathText(v, g, d);
            |p| >= 6 && p[|p| - 1] == SLASH && 0 !in p
    decreases if d in g.depth then g.depth[d] else 0
  {
    if d != ROOT { PathShape(v, g, g.owner[d].dir); }
  }

  // ----- The path buffer

  /** A path in the zero-filled 80-byte buffer. */
  predicate Holds(cwd: Bytes, path: Bytes) {
    |path| < CWD_SIZE && cwd == path + Zeros(CWD_SIZE - |path|)
  }

  lemma HeldLength(cwd: Bytes, path: Bytes)
    requires Holds(cwd, path) && 0 !in path
    ensures |cwd| == CWD_SIZE && Terminated(cwd) && CLen(cwd) == |path|
  {
    assert cwd[|path|] == 0;
    forall k | 0 <= k < |path|
      ensures cwd[k] != 0
    {
      assert cwd[k] == path[k] && path[k] in path;
    }
    CLenUnique(cwd, |path|);
  }

  lemma {:induction false} LastSlashIs(cwd: Bytes, k: nat, i: nat)
    requires i < k <= |cwd| && cwd[i] == SLASH && forall j :: i < j < k ==> cwd[j] != SLASH
    ensures LastSlash(cwd, k) == i
  {
    if i < k - 1 { LastSlashIs(cwd, k - 1, i); }
  }

  /** Stripping undoes one component. */
  lemma StripComponent(cwd: Bytes, up: Bytes, name: Bytes)
    requires Holds(cwd, up + name + [SLASH]) && 0 !in up && 0 !in name && SLASH !in name
    requires |up| >= 1 && up[|up| - 1] == SLASH
    ensures Strippable(cwd) && Holds(StripCwd(cwd), up)
  {
    var path := up + name + [SLASH];
    HeldLength(cwd, path);
    forall j | |up| <= j < |path| - 1
      ensures cwd[j] != SLASH
    {
      assert cwd[j] == name[j - |up|] && name[j - |up|] in name;
    }
    assert cwd[|up| - 1] == up[|up| - 1];
    LastSlashIs(cwd, |path| - 1, |up| - 1);
    assert cwd[..|up|] == up;
  }

  lemma AppendComponent(cwd: Bytes, path: Bytes, arg: Bytes)
    requires Holds(cwd, path) && 0 !in path && Terminated(arg) && |path| + CLen(arg) + 1 < CWD_SIZE
    ensures Appendable(cwd, arg) && Holds(AppendCwd(cwd, arg), path + CStr(arg) + [SLASH])
  {
    HeldLength(cwd, path);
  }

  // ----- Arguments

  /** What the command line hands to cd: a zero-padded buffer. */
  predicate AnyArg(arg: Bytes) {
    |arg| == CWD_SIZE && Padded(arg) && Terminated(arg)
  }

  /** At most eight bytes, and a name or "..". */
  predicate GoodArg(arg: Bytes) {
    AnyArg(arg) && arg[8] == 0 && (IsDotDot(arg) || !PrefixOfDotDot(arg))
  }

  lemma ArgLength(arg: Bytes)
    requires AnyArg(arg)
    ensures CLen(arg) <= 8 <==> arg[8] == 0
    ensures CLen(arg) == 0 ==> PrefixOfDotDot(arg)
  {
  }

  /** On such arguments comparing C strings and comparing 8-byte names agree. */
  lemma StringIff(mem: Bytes, name: Bytes, arg: Bytes)
    requires StoredAs(mem, name) && Padded(name) && GoodArg(arg)
    ensures SameString(mem, arg) <==> name == arg[..8]
    ensures name == arg[..8] ==> NameText(name) == CStr(arg)
  {
    var n, m := CLen(mem), CLen(arg);
    ArgLength(arg);
    if SameString(mem, arg) {
      assert n == m && mem[..n] == arg[..m];
      forall k | 0 <= k < 8
        ensures name[k] == arg[k]
      {
        if k < n { assert mem[..n][k] == arg[..m][k]; }
      }
    }
    if name == arg[..8] {
      assert forall k :: 0 <= k < 8 ==> name[k] == arg[k];
      assert m < 8 ==> name[m] == 0;
      if m < 8 { CLenUnique(name, m); }
      assert n == m;
      assert mem[..n] == arg[..m];
      assert arg[..8][..m] == arg[..m];
    }
  }

  lemma PlainArg(arg: Bytes)
    requires GoodArg(arg)
    ensures IsDotDot(arg) <==> arg[..8] == DOTDOT
    ensures NameText(arg[..8]) == CStr(arg)
    ensures !IsDotDot(arg) && SLASH !in arg ==> PlainName(arg[..8])
    ensures IsDotDot(arg) ==> PrefixOfDotDot(arg)
    ensures Key(arg[..8], NO_EXT) != ZERO_KEY
  {
    var n, a := CLen(arg), arg[..8];
    ArgLength(arg);
    if n < 8 {
      assert a[n] == 0;
      CLenUnique(a, n);
      assert a[..n] == arg[..n];
    }
    LiteralNames();
    StringIff(DOTDOT_STRING, DOTDOT, arg);
    DotDotString();
    assert n > 0 ==> a[0] != ZERO_KEY.name[0];
  }

  // ----- Where cd goes

  /** Slot i of d lists a folder called name. */
  predicate FolderNamed(v: Vol, d: nat, i: nat, name: Bytes)
    requires d < MAP_SIZE
  {
    2 <= i < SLOTS && Used(Entry(v, d, i)) && IsFolder(Entry(v, d, i)) && KeyOf(Entry(v, d, i)) == Key(name, NO_EXT)
  }

  ghost predicate HasFolder(v: Vol, d: nat, name: Bytes)
    requires d < MAP_SIZE
  {
    exists i: nat :: FolderNamed(v, d, i, name)
  }

  ghost function FolderSlotOf(v: Vol, d: nat, name: Bytes): (i: nat)
    requires d < MAP_SIZE && HasFolder(v, d, name)
    ensures FolderNamed(v, d, i, name)
  {
    var i: nat :| FolderNamed(v, d, i, name);
    i
  }

  /** The tree node a cd from d leads to: the parent, the folder of that name, or nowhere new. */
  ghost function Goal(v: Vol, g: Layout, d: nat, arg: Bytes): nat
    requires DirsOk(g) && d in g.dirs && GoodArg(arg)
  {
    if IsDotDot(arg) then ParentOf(g, d)
    else if HasFolder(v, d, arg[..8]) then Start(Entry(v, d, FolderSlotOf(v, d, arg[..8])))
    else d
  }

  /** Only one slot lists a folder of a given name. */
  lemma OneFolder(v: Vol, g: Layout, d: nat, i: nat, name: Bytes)
    requires DirsOk(g) && HeadsOk(v, g) && d in g.dirs && FolderNamed(v, d, i, name)
    ensures HasFolder(v, d, name) && FolderSlotOf(v, d, name) == i
  {
    assert DirOk(v, g, d);
    assert FolderNamed(v, d, FolderSlotOf(v, d, name), name);
  }

  lemma TableNamesEnd(v: Vol, g: Layout, d: nat)
    requires DirsOk(g) && SlotsOk(v, g) && d in g.dirs
    ensures NamesEnd(v.disk[d])
  {
    var t, last := v.disk[d], Entry(v, d, 63);
    assert SlotOk(v, g, d, 63);
    assert last[20] == 0;
    assert t[SLOT_SIZE * 63 + 20] == 0 by { SlotByte(t, 63, 20); }
    forall i | 0 <= i < SLOTS
      ensures Terminated(SlotMem(t, i))
    {
      assert SlotMem(t, i)[SLOT_SIZE * (63 - i) + 20] == 0;
    }
  }

  /** The name comparisons of cd on the current directory's own slot and on its folders. */
  lemma OwnNameIff(v: Vol, g: Layout, d: nat, arg: Bytes)
    requires DirsOk(g) && HeadsOk(v, g) && d in g.dirs && GoodArg(arg) && NamesEnd(v.disk[d])
    ensures SameString(SlotMem(v.disk[d], 0), arg) <==> Name(Entry(v, d, 0)) == arg[..8]
  {
    assert DirOk(v, g, d);
    FolderNameMem(v.disk[d], 0);
    StringIff(SlotMem(v.disk[d], 0), Name(Entry(v, d, 0)), arg);
  }

  lemma FolderNameIff(v: Vol, g: Layout, d: nat, i: nat, arg: Bytes)
    requires DirsOk(g) && HeadsOk(v, g) && SlotsOk(v, g) && d in g.dirs && 2 <= i < SLOTS
    requires GoodArg(arg) && NamesEnd(v.disk[d])
    ensures NamesFolder(v.disk[d], i, arg) <==> FolderNamed(v, d, i, arg[..8])
  {
    var e := Entry(v, d, i);
    assert SlotOk(v, g, d, i);
    if IsFolder(e) {
      ListedFolder(v, g, d, i);
      FolderNameMem(v.disk[d], i);
      StringIff(SlotMem(v.disk[d], i), Name(e), arg);
    }
  }

  lemma LastFolderIs(v: Vol, g: Layout, d: nat, arg: Bytes)
    requires DirsOk(g) && HeadsOk(v, g) && SlotsOk(v, g) && d in g.dirs && GoodArg(arg) && NamesEnd(v.disk[d])
    ensures LastFolder(v.disk[d], arg) == if HasFolder(v, d, arg[..8]) then FolderSlotOf(v, d, arg[..8]) else 0
  {
    var hits := FoldersNamed(v.disk[d], arg);
    forall k | 2 <= k < SLOTS
      ensures hits[k] == FolderNamed(v, d, k, arg[..8])
    {
      assert hits[k] == NamesFolder(v.disk[d], k, arg);
      FolderNameIff(v, g, d, k, arg);
    }
    if HasFolder(v, d, arg[..8]) {
      assert hits[FolderSlotOf(v, d, arg[..8])];
      OneFolder(v, g, d, LastFolder(v.disk[d], arg), arg[..8]);
    }
  }

  // ----- One cd

  /** cd reads the goal's table, and stays put only when the goal is where it is. */
  ghost predicate CdGoes(v: Vol, g: Layout, d: nat, arg: Bytes)
    requires DirsOk(g) && d in g.dirs && GoodArg(arg)
  {
    && CdReads(v, v.disk[d], arg) && Goal(v, g, d, arg) in g.dirs
    && (if CdMoves(v, v.disk[d], arg) then
          Goal(v, g, d, arg) != d
          && ReadDirectory(v, CdRequest(CdTarget(v.disk[d], arg).id, arg)).0 == v.disk[Goal(v, g, d, arg)]
        else Goal(v, g, d, arg) == d)
  }

  /** The outcome of cd from its target and what the read of the target gives. */
  lemma CdOutcome(v: Vol, g: Layout, d: nat, arg: Bytes, t: u32)
    requires DirsOk(g) && d in g.dirs && GoodArg(arg) && NamesEnd(v.disk[d]) && Goal(v, g, d, arg) in g.dirs
    requires CdTarget(v.disk[d], arg) == Cluster(t) && ReadDirectorySafe(v, CdRequest(t, arg))
    requires t == ROOT && IsDotDot(arg) ==> Goal(v, g, d, arg) == d
    requires !(t == ROOT && IsDotDot(arg)) ==>
               if Goal(v, g, d, arg) == d then ReadDirectory(v, CdRequest(t, arg)).1 != 0
               else ReadDirectory(v, CdRequest(t, arg)) == (v.disk[Goal(v, g, d, arg)], 0)
    ensures CdGoes(v, g, d, arg)
  {
  }

  lemma CdNoTarget(v: Vol, g: Layout, d: nat, arg: Bytes)
    requires DirsOk(g) && d in g.dirs && GoodArg(arg) && NamesEnd(v.disk[d]) && Goal(v, g, d, arg) == d
    requires CdTarget(v.disk[d], arg) == NotFound
    ensures CdGoes(v, g, d, arg)
  {
  }

  lemma TargetIs(v: Vol, g: Layout, d: nat, arg: Bytes)
    requires DirsOk(g) && HeadsOk(v, g) && SlotsOk(v, g) && d in g.dirs && GoodArg(arg) && NamesEnd(v.disk[d])
    ensures CdTarget(v.disk[d], arg)
         == if Name(Entry(v, d, 0)) != arg[..8] then Cluster(d)
            else if HasFolder(v, d, arg[..8]) then Cluster(Start(Entry(v, d, FolderSlotOf(v, d, arg[..8]))))
            else NotFound
  {
    HeadEntry(v, g, d, 0);
    OwnNameIff(v, g, d, arg);
    LastFolderIs(v, g, d, arg);
  }

  /** cd to a folder called like the current one: it is looked up below first. */
  lemma CdOwnName(v: Vol, g: Layout, d: nat, arg: Bytes)
    requires Inv(v, g) && d in g.dirs && GoodArg(arg) && NamesEnd(v.disk[d])
    requires Name(Entry(v, d, 0)) == arg[..8] && !IsDotDot(arg)
    ensures CdGoes(v, g, d, arg)
  {
    TargetIs(v, g, d, arg);
    if HasFolder(v, d, arg[..8]) {
      var i := FolderSlotOf(v, d, arg[..8]);
      ListedFolder(v, g, d, i);
      var c := Start(Entry(v, d, i));
      OwnNameReads(v, g, c, CdRequest(c, arg));
      ChildDiffers(v, g, d, i);
      CdOutcome(v, g, d, arg, c);
    } else {
      CdNoTarget(v, g, d, arg);
    }
  }

  lemma ChildDiffers(v: Vol, g: Layout, d: nat, i: nat)
    requires DirsOk(g) && HeadsOk(v, g) && SlotsOk(v, g) && d in g.dirs && 2 <= i < SLOTS
    requires Used(Entry(v, d, i)) && IsFolder(Entry(v, d, i))
    ensures Start(Entry(v, d, i)) != d
  {
    ListedFolder(v, g, d, i);
    InvDepths(v, g);
  }

  lemma CdDotDot(v: Vol, g: Layout, d: nat, arg: Bytes)
    requires Inv(v, g) && d in g.dirs && GoodArg(arg) && NamesEnd(v.disk[d]) && IsDotDot(arg)
    ensures CdGoes(v, g, d, arg)
  {
    PlainArg(arg);
    NotOwnDotDot(v, g, d);
    TargetIs(v, g, d, arg);
    DotDotReads(v, g, d, CdRequest(d, arg));
    InvDepths(v, g);
    CdOutcome(v, g, d, arg, d);
  }

  lemma NotOwnDotDot(v: Vol, g: Layout, d: nat)
    requires DirsOk(g) && HeadsOk(v, g) && d in g.dirs
    ensures Name(Entry(v, d, 0)) != DOTDOT
  {
    NotCalledDotDot(v, g, d);
    assert DirOk(v, g, d);
  }

  /** A lookup of a plain name below d finds the folder of that name, or no folder. */
  lemma PlainLookup(v: Vol, g: Layout, d: nat, name: Bytes, req: Request)
    requires Inv(v, g) && d in g.dirs && Name(Entry(v, d, 0)) != name && name != DOTDOT
    requires req.parent == d && req.size == CLUSTER_SIZE
    requires KeyReq(req) == Key(name, NO_EXT) && KeyReq(req) != ZERO_KEY
    ensures ReadDirectorySafe(v, req)
    ensures if HasFolder(v, d, name) then
              var c := Start(Entry(v, d, FolderSlotOf(v, d, name)));
              c in g.dirs && ReadDirectory(v, req) == (v.disk[c], 0)
            else ReadDirectory(v, req).1 != 0
  {
    NamedLookupOk(v, g, req);
    NamedHit(v, g, d, KeyReq(req));
    LookupsAreSafe(v, g, req);
    DirsAreValidParents(v, g, d);
    HitIs(v, g, d, KeyReq(req));
    if HasFolder(v, d, name) {
      var i := FolderSlotOf(v, d, name);
      assert ListedAt(v, g, d, i, KeyReq(req));
      ListedOnce(v, g, d, i, SlotFor(v, g, d, KeyReq(req)), KeyReq(req));
      ListedFolder(v, g, d, i);
    } else if HasKey(v, g, d, KeyReq(req)) {
      assert !FolderNamed(v, d, SlotFor(v, g, d, KeyReq(req)), name);
    }
  }

  lemma CdOther(v: Vol, g: Layout, d: nat, arg: Bytes)
    requires Inv(v, g) && d in g.dirs && GoodArg(arg) && NamesEnd(v.disk[d])
    requires Name(Entry(v, d, 0)) != arg[..8] && !IsDotDot(arg)
    ensures CdGoes(v, g, d, arg)
  {
    PlainArg(arg);
    TargetIs(v, g, d, arg);
    PlainLookup(v, g, d, arg[..8], CdRequest(d, arg));
    if HasFolder(v, d, arg[..8]) { ChildDiffers(v, g, d, FolderSlotOf(v, d, arg[..8])); }
    CdOutcome(v, g, d, arg, d);
  }

  lemma CdGoesToGoal(v: Vol, g: Layout, d: nat, arg: Bytes)
    requires Inv(v, g) && d in g.dirs && GoodArg(arg)
    ensures CdGoes(v, g, d, arg)
  {
    TableNamesEnd(v, g, d);
    if IsDotDot(arg) {
      CdDotDot(v, g, d, arg);
    } else if Name(Entry(v, d, 0)) == arg[..8] {
      CdOwnName(v, g, d, arg);
    } else {
      CdOther(v, g, d, arg);
    }
  }

  // ----- The path after one cd

  /** The shell is in directory d: the path buffer spells it, and `current` is a table of d, possibly
      from before the last changes to the volume. */
  ghost predicate At(v: Vol, g: Layout, current: Cluster, cwd: Bytes, d: nat)
    requires DirsOk(g) && DepthsOk(g)
  {
    && d in g.dirs && PlainPath(v, g, d) && Holds(cwd, PathText(v, g, d))
    && Name(SlotAt(current, 0)) == Name(Entry(v, d, 0)) && Start(SlotAt(current, 0)) == d
  }

  /** The table is directory d's as it is on disk, and the path spells d. */
  ghost predicate Spells(v: Vol, g: Layout, current: Cluster, cwd: Bytes, d: nat)
    requires DirsOk(g) && DepthsOk(g)
  {
    d in g.dirs && current == v.disk[d] && Holds(cwd, PathText(v, g, d))
  }

  /** In addition, cd leads back from every folder on the way. */
  ghost predicate Tracks(v: Vol, g: Layout, current: Cluster, cwd: Bytes, d: nat)
    requires DirsOk(g) && DepthsOk(g)
  {
    Spells(v, g, current, cwd, d) && PlainPath(v, g, d)
  }

  ghost predicate Fits(v: Vol, g: Layout, d: nat, arg: Bytes)
    requires DirsOk(g) && DepthsOk(g) && d in g.dirs && GoodArg(arg)
  {
    Goal(v, g, d, arg) in g.dirs && |PathText(v, g, Goal(v, g, d, arg))| < CWD_SIZE
  }

  lemma PathUp(v: Vol, g: Layout, d: nat, cwd: Bytes)
    requires DirsOk(g) && DepthsOk(g) && d in g.dirs && d != ROOT && PlainPath(v, g, d)
    requires Holds(cwd, PathText(v, g, d))
    ensures Strippable(cwd) && Holds(StripCwd(cwd), PathText(v, g, g.owner[d].dir))
    ensures PlainPath(v, g, g.owner[d].dir)
  {
    var name := Name(Entry(v, d, 0));
    PathShape(v, g, g.owner[d].dir);
    StripComponent(cwd, PathText(v, g, g.owner[d].dir), NameText(name));
  }

  lemma PathDown(v: Vol, g: Layout, d: nat, c: nat, arg: Bytes, cwd: Bytes)
    requires DirsOk(g) && DepthsOk(g) && d in g.dirs && PlainPath(v, g, d) && Holds(cwd, PathText(v, g, d))
    requires c in g.dirs && c != ROOT && g.owner[c].dir == d
    requires GoodArg(arg) && !IsDotDot(arg) && Name(Entry(v, c, 0)) == arg[..8]
    requires |PathText(v, g, c)| < CWD_SIZE
    ensures Appendable(cwd, arg) && Holds(AppendCwd(cwd, arg), PathText(v, g, c))
    ensures SLASH !in arg ==> PlainPath(v, g, c)
  {
    PlainArg(arg);
    PathShape(v, g, d);
    assert PathText(v, g, c) == PathText(v, g, d) + CStr(arg) + [SLASH];
    AppendComponent(cwd, PathText(v, g, d), arg);
  }

  lemma GoalChild(v: Vol, g: Layout, d: nat, arg: Bytes)
    requires DirsOk(g) && HeadsOk(v, g) && SlotsOk(v, g) && d in g.dirs && GoodArg(arg)
    requires !IsDotDot(arg) && Goal(v, g, d, arg) != d
    ensures var c := Goal(v, g, d, arg);
            && c in g.dirs && c != ROOT && c in g.owner && g.owner[c].dir == d && Name(Entry(v, c, 0)) == arg[..8]
  {
    ListedFolder(v, g, d, FolderSlotOf(v, d, arg[..8]));
  }

  /** One cd: the table read is the goal's, and the path spells the goal. */
  lemma CdSpells(v: Vol, g: Layout, current: Cluster, cwd: Bytes, d: nat, arg: Bytes)
    requires Inv(v, g) && DepthsOk(g) && Tracks(v, g, current, cwd, d) && GoodArg(arg) && Fits(v, g, d, arg)
    ensures CdSafe(v, current, cwd, arg)
    ensures Spells(v, g, Cd(v, current, cwd, arg).0, Cd(v, current, cwd, arg).1, Goal(v, g, d, arg))
    ensures (SLASH in arg ==> Goal(v, g, d, arg) == d) ==> PlainPath(v, g, Goal(v, g, d, arg))
  {
    CdGoesToGoal(v, g, d, arg);
    PlainArg(arg);
    HeldPath(v, g, d, cwd);
    if CdMoves(v, current, arg) {
      if IsDotDot(arg) {
        PathUp(v, g, d, cwd);
      } else {
        GoalChild(v, g, d, arg);
        PathDown(v, g, d, Goal(v, g, d, arg), arg, cwd);
      }
    }
  }

  /** One cd keeps the path in step with the tree. */
  lemma CdTracks(v: Vol, g: Layout, current: Cluster, cwd: Bytes, d: nat, arg: Bytes)
    requires Inv(v, g) && DepthsOk(g) && Tracks(v, g, current, cwd, d) && GoodArg(arg) && Fits(v, g, d, arg)
    requires SLASH in arg ==> Goal(v, g, d, arg) == d
    ensures CdSafe(v, current, cwd, arg)
    ensures Tracks(v, g, Cd(v, current, cwd, arg).0, Cd(v, current, cwd, arg).1, Goal(v, g, d, arg))
  {
    CdSpells(v, g, current, cwd, d, arg);
  }

  lemma HeldPath(v: Vol, g: Layout, d: nat, cwd: Bytes)
    requires DirsOk(g) && DepthsOk(g) && d in g.dirs && Holds(cwd, PathText(v, g, d))
    ensures |cwd| == CWD_SIZE
  {
  }

  /** cd into a folder and cd .. restores the table and all 80 bytes of the path. */
  lemma CdAndBack(v: Vol, g: Layout, current: Cluster, cwd: Bytes, d: nat, arg: Bytes, back: Bytes)
    requires Inv(v, g) && DepthsOk(g) && Tracks(v, g, current, cwd, d)
    requires GoodArg(arg) && !IsDotDot(arg) && SLASH !in arg && GoodArg(back) && IsDotDot(back)
    requires Fits(v, g, d, arg) && Goal(v, g, d, arg) != d
    ensures CdSafe(v, current, cwd, arg)
    ensures var (t, p) := Cd(v, current, cwd, arg);
            CdSafe(v, t, p, back) && Cd(v, t, p, back) == (current, cwd)
  {
    CdTracks(v, g, current, cwd, d, arg);
    var (t, p) := Cd(v, current, cwd, arg);
    BackFits(v, g, d, arg, back, cwd);
    CdSpells(v, g, t, p, Goal(v, g, d, arg), back);
    var (t', p') := Cd(v, t, p, back);
    TracksUnique(v, g, current, cwd, t', p', d);
  }

  lemma BackFits(v: Vol, g: Layout, d: nat, arg: Bytes, back: Bytes, cwd: Bytes)
    requires Inv(v, g) && DepthsOk(g) && d in g.dirs && Holds(cwd, PathText(v, g, d))
    requires GoodArg(arg) && !IsDotDot(arg) && GoodArg(back) && IsDotDot(back) && Goal(v, g, d, arg) != d
    ensures Goal(v, g, d, arg) in g.dirs && Goal(v, g, Goal(v, g, d, arg), back) == d
    ensures Fits(v, g, Goal(v, g, d, arg), back)
  {
    GoalChild(v, g, d, arg);
  }

  lemma TracksUnique(v: Vol, g: Layout, t: Cluster, p: Bytes, t': Cluster, p': Bytes, d: nat)
    requires DirsOk(g) && DepthsOk(g) && Spells(v, g, t, p, d) && Spells(v, g, t', p', d)
    ensures t == t' && p == p'
  {
  }

  /** update_cwd_contents brings the table up to date. */
  lemma UpdateTracks(v: Vol, g: Layout, current: Cluster, cwd: Bytes, d: nat)
    requires Inv(v, g) && DepthsOk(g) && At(v, g, current, cwd, d)
    ensures ReadDirectorySafe(v, UpdateRequest(current)) && Tracks(v, g, Update(v, current), cwd, d)
  {
    OwnKey(v, g, d, UpdateRequest(current));
    OwnNameReads(v, g, d, UpdateRequest(current));
  }

  lemma TracksAt(v: Vol, g: Layout, current: Cluster, cwd: Bytes, d: nat)
    requires DirsOk(g) && HeadsOk(v, g) && DepthsOk(g) && Tracks(v, g, current, cwd, d)
    ensures At(v, g, current, cwd, d)
  {
    HeadEntry(v, g, d, 0);
  }
}
