/** Where cd loses its way: the exact arguments for which the path no longer spells a directory, and
    those from which ".." does not lead back. */
module CdLimits {
  import opened Memory
  import opened DirEntry
  import opened Volume
  import opened Invariant
  import opened Operations
  import opened TreeWalk
  import opened Shell
  import opened PathTracking

  /** Longer than a name, or a proper prefix of "..": "." or nothing. */
  predicate OddArg(arg: Bytes) {
    AnyArg(arg) && (arg[8] != 0 || (PrefixOfDotDot(arg) && !IsDotDot(arg)))
  }

  /** The first entry of d under this name is a folder. */
  predicate Opens(v: Vol, d: nat, name: Bytes)
    requires d < MAP_SIZE
  {
    var i := FirstMatch(v.disk[d], Key(name, NO_EXT), 0);
    i < SLOTS && IsFolder(Entry(v, d, i))
  }

  /** cd takes the first eight bytes of an argument that is no name for the name of a folder. */
  predicate Misled(v: Vol, d: nat, arg: Bytes)
    requires d < MAP_SIZE
  {
    OddArg(arg) && Opens(v, d, arg[..8])
  }

  /** An argument with more than eight bytes, or ".", misleads cd exactly when its first eight bytes are
      the name of the directory itself or of a folder in it. */
  lemma OpensIff(v: Vol, g: Layout, d: nat, name: Bytes)
    requires Inv(v, g) && d in g.dirs && |name| == 8 && name != DOTDOT && Key(name, NO_EXT) != ZERO_KEY
    ensures Opens(v, d, name) <==> Name(Entry(v, d, 0)) == name || HasFolder(v, d, name)
  {
    assert DirOk(v, g, d);
    DirsAreValidParents(v, g, d);
    if Name(Entry(v, d, 0)) != name {
      PlainLookup(v, g, d, name, RawRequest(name, NO_EXT, d, CLUSTER_SIZE));
    } else {
      assert FirstMatch(v.disk[d], Key(name, NO_EXT), 0) == 0;
    }
  }

  /** The empty argument leads nowhere when no entry of the directory has an empty name. */
  lemma EmptyStays(v: Vol, g: Layout, d: nat)
    requires DirsOk(g) && SlotsOk(v, g) && d in g.dirs
    requires forall i :: 0 <= i < SLOTS && Used(Entry(v, d, i)) ==> Name(Entry(v, d, i)) != Zeros(8)
    requires Used(Entry(v, d, 0)) && Used(Entry(v, d, 1))
    ensures !Opens(v, d, Zeros(8))
  {
    var i := FirstMatch(v.disk[d], Key(Zeros(8), NO_EXT), 0);
    if i < SLOTS {
      assert KeyOf(Entry(v, d, i)) == Key(Zeros(8), NO_EXT);
      assert i >= 2 ==> SlotOk(v, g, d, i);
    }
  }

  lemma MemText(mem: Bytes, name: Bytes)
    requires StoredAs(mem, name) && Padded(name)
    ensures CStr(mem) == NameText(name)
  {
    var n := CLen(mem);
    assert forall k :: 0 <= k < n ==> name[k] == mem[k];
    if n < 8 {
      assert name[n] == 0;
      CLenUnique(name, n);
    }
    assert mem[..n] == name[..n];
  }

  lemma OwnDiffers(v: Vol, g: Layout, d: nat, arg: Bytes)
    requires DirsOk(g) && HeadsOk(v, g) && DepthsOk(g) && d in g.dirs && PlainPath(v, g, d) && OddArg(arg)
    requires NamesEnd(v.disk[d])
    ensures !SameString(SlotMem(v.disk[d], 0), arg)
  {
    var name := Name(Entry(v, d, 0));
    assert DirOk(v, g, d);
    FolderNameMem(v.disk[d], 0);
    MemText(SlotMem(v.disk[d], 0), name);
    ArgLength(arg);
    if d == ROOT {
      assert NameText(name)[0] == ROOT_NAME[0] != DOTDOT_STRING[0];
    }
  }

  /** The folder that a misleading argument opens: the directory itself or a subfolder. */
  ghost predicate OpenedBy(v: Vol, g: Layout, d: nat, arg: Bytes, c: nat)
    requires DirsOk(g) && |arg| >= 8
  {
    c in g.dirs && (c == d || (c != ROOT && c in g.owner && g.owner[c].dir == d && Name(Entry(v, c, 0)) == arg[..8]))
  }

  lemma DotDotArg(arg: Bytes)
    requires AnyArg(arg) && arg[..8] == DOTDOT
    ensures arg[8] == 0 && IsDotDot(arg)
  {
    assert forall k :: 0 <= k < 8 ==> arg[k] == DOTDOT[k];
    CLenUnique(arg, 2);
    assert arg[..2] == DOTDOT_STRING[..2];
  }

  lemma OddKey(arg: Bytes)
    requires OddArg(arg)
    ensures arg[..8] != DOTDOT
  {
    ArgLength(arg);
    if arg[..8] == DOTDOT {
      DotDotArg(arg);
    }
  }

  /** What reading the first eight bytes of an odd argument below d gives. */
  lemma OddReads(v: Vol, g: Layout, d: nat, arg: Bytes) returns (c: nat)
    requires Inv(v, g) && d in g.dirs && OddArg(arg)
    ensures ReadDirectorySafe(v, CdRequest(d, arg))
    ensures ReadDirectory(v, CdRequest(d, arg)).1 == 0 <==> Opens(v, d, arg[..8])
    ensures Opens(v, d, arg[..8]) ==>
              OpenedBy(v, g, d, arg, c) && ReadDirectory(v, CdRequest(d, arg)) == (v.disk[c], 0)
  {
    DirsAreValidParents(v, g, d);
    OddKey(arg);
    c := d;
    if Opens(v, d, arg[..8]) {
      var i := FirstMatch(v.disk[d], Key(arg[..8], NO_EXT), 0);
      c := OddEntry(v, g, d, i, arg[..8]);
    }
  }

  lemma OddEntry(v: Vol, g: Layout, d: nat, i: nat, name: Bytes) returns (c: nat)
    requires DirsOk(g) && HeadsOk(v, g) && SlotsOk(v, g) && d in g.dirs && i < SLOTS
    requires IsFolder(Entry(v, d, i)) && KeyOf(Entry(v, d, i)) == Key(name, NO_EXT) && name != DOTDOT
    ensures c in g.dirs && c == Start(Entry(v, d, i))
    ensures c == d || (c != ROOT && c in g.owner && g.owner[c].dir == d && Name(Entry(v, c, 0)) == name)
  {
    c := Start(Entry(v, d, i));
    assert DirOk(v, g, d);
    if i < 2 {
      HeadEntry(v, g, d, i);
    } else {
      assert SlotOk(v, g, d, i);
      ListedFolder(v, g, d, i);
    }
  }

  /** A path that was wrongly lengthened or shortened spells no directory with the table read. */
  lemma NothingSpelled(v: Vol, g: Layout, t: Cluster, p: Bytes, path: Bytes, c: nat, x: nat)
    requires DirsOk(g) && HeadsOk(v, g) && DepthsOk(g) && c in g.dirs && t == v.disk[c]
    requires Holds(p, path) && 0 !in path && |path| != |PathText(v, g, c)|
    ensures !Spells(v, g, t, p, x)
  {
    if x in g.dirs && t == v.disk[x] {
      HeadEntry(v, g, c, 0);
      HeadEntry(v, g, x, 0);
      assert x == c;
      HeldLength(p, path);
      PathShape(v, g, c);
      if Holds(p, PathText(v, g, c)) {
        HeldLength(p, PathText(v, g, c));
      }
    }
  }

  /** The path fits with the argument and a slash appended. */
  predicate Room(cwd: Bytes, arg: Bytes) {
    Terminated(cwd) && Terminated(arg) && CLen(cwd) + CLen(arg) + 1 < CWD_SIZE
  }

  /** What cd does with an odd argument. */
  lemma OddOutcome(v: Vol, g: Layout, current: Cluster, cwd: Bytes, d: nat, arg: Bytes) returns (c: nat)
    requires Inv(v, g) && DepthsOk(g) && Tracks(v, g, current, cwd, d) && OddArg(arg)
    ensures CdReads(v, current, arg)
    ensures CdMoves(v, current, arg) <==> Misled(v, d, arg)
    ensures Misled(v, d, arg) ==>
              OpenedBy(v, g, d, arg, c)
              && CdTarget(current, arg).Cluster?
              && ReadDirectory(v, CdRequest(CdTarget(current, arg).id, arg)).0 == v.disk[c]
  {
    TableNamesEnd(v, g, d);
    OwnDiffers(v, g, d, arg);
    HeadEntry(v, g, d, 0);
    c := OddReads(v, g, d, arg);
    OddNotDotDot(arg);
  }

  lemma OddNotDotDot(arg: Bytes)
    requires OddArg(arg)
    ensures !IsDotDot(arg)
  {
    ArgLength(arg);
  }

  /** Stripping a path that ends in a slash makes it shorter. */
  lemma StripShortens(cwd: Bytes, path: Bytes)
    requires Holds(cwd, path) && 0 !in path && |path| >= 6 && path[0] == SLASH
    ensures Strippable(cwd)
    ensures var i := LastSlash(cwd, |path| - 1);
            0 <= i < |path| - 1 && Holds(StripCwd(cwd), path[..i + 1]) && 0 !in path[..i + 1]
  {
    HeldLength(cwd, path);
    assert cwd[0] == SLASH;
    var i := LastSlash(cwd, |path| - 1);
    assert cwd[..i + 1] == path[..i + 1];
  }

  lemma {:induction false} PathStarts(v: Vol, g: Layout, d: nat)
    requires DirsOk(g) && DepthsOk(g) && d in g.dirs
    ensures var p := PathText(v, g, d); |p| >= 6 && p[0] == SLASH
    decreases if d in g.depth then g.depth[d] else 0
  {
    if d != ROOT { PathStarts(v, g, g.owner[d].dir); }
  }

  /** The path buffer after a move. */
  function MovedPath(cwd: Bytes, arg: Bytes): Bytes
    requires Terminated(arg) && if PrefixOfDotDot(arg) then Strippable(cwd) else Appendable(cwd, arg)
  {
    if PrefixOfDotDot(arg) then StripCwd(cwd) else AppendCwd(cwd, arg)
  }

  /** After an odd argument the path is shorter than before, or more than nine bytes longer. */
  lemma OddPath(cwd: Bytes, path: Bytes, arg: Bytes) returns (after: Bytes)
    requires Holds(cwd, path) && 0 !in path && |path| >= 6 && path[0] == SLASH
    requires OddArg(arg) && |path| + CLen(arg) + 1 < CWD_SIZE
    ensures if PrefixOfDotDot(arg) then Strippable(cwd) else Appendable(cwd, arg)
    ensures Holds(MovedPath(cwd, arg), after) && 0 !in after && (|after| < |path| || |after| > |path| + 9)
  {
    ArgLength(arg);
    if PrefixOfDotDot(arg) {
      StripShortens(cwd, path);
      after := path[..LastSlash(cwd, |path| - 1) + 1];
    } else {
      AppendComponent(cwd, path, arg);
      after := path + CStr(arg) + [SLASH];
    }
  }

  lemma OpenedPath(v: Vol, g: Layout, d: nat, arg: Bytes, c: nat)
    requires DirsOk(g) && DepthsOk(g) && d in g.dirs && |arg| >= 8 && OpenedBy(v, g, d, arg, c)
    ensures |PathText(v, g, d)| <= |PathText(v, g, c)| <= |PathText(v, g, d)| + 9
  {
  }

  lemma MisledCd(v: Vol, g: Layout, current: Cluster, cwd: Bytes, d: nat, arg: Bytes)
    requires Inv(v, g) && DepthsOk(g) && Tracks(v, g, current, cwd, d) && Misled(v, d, arg) && Room(cwd, arg)
    ensures CdSafe(v, current, cwd, arg)
    ensures var (t, p) := Cd(v, current, cwd, arg);
            forall x :: !Spells(v, g, t, p, x)
  {
    var path := PathText(v, g, d);
    HeldPath(v, g, d, cwd);
    PathShape(v, g, d);
    PathStarts(v, g, d);
    HeldLength(cwd, path);
    var c := OddOutcome(v, g, current, cwd, d, arg);
    OpenedPath(v, g, d, arg, c);
    var after := OddPath(cwd, path, arg);
    forall x
      ensures !Spells(v, g, v.disk[c], MovedPath(cwd, arg), x)
    {
      NothingSpelled(v, g, v.disk[c], MovedPath(cwd, arg), after, c, x);
    }
  }

  /** For every argument that fits: after cd the table and the path spell some directory exactly when
      the argument did not mislead it, and then it is the one the argument names. */
  lemma CdSpellsIff(v: Vol, g: Layout, current: Cluster, cwd: Bytes, d: nat, arg: Bytes)
    requires Inv(v, g) && DepthsOk(g) && Tracks(v, g, current, cwd, d) && AnyArg(arg)
    requires if GoodArg(arg) then Fits(v, g, d, arg) else Misled(v, d, arg) ==> Room(cwd, arg)
    ensures CdSafe(v, current, cwd, arg)
    ensures var (t, p) := Cd(v, current, cwd, arg);
            (exists x :: Spells(v, g, t, p, x)) <==> !Misled(v, d, arg)
    ensures var (t, p) := Cd(v, current, cwd, arg);
            !Misled(v, d, arg) ==> Spells(v, g, t, p, if GoodArg(arg) then Goal(v, g, d, arg) else d)
  {
    ArgLength(arg);
    if GoodArg(arg) {
      CdSpells(v, g, current, cwd, d, arg);
    } else if Misled(v, d, arg) {
      MisledCd(v, g, current, cwd, d, arg);
    } else {
      HeldPath(v, g, d, cwd);
      var _ := OddOutcome(v, g, current, cwd, d, arg);
      assert Cd(v, current, cwd, arg) == (current, cwd);
    }
  }

  // ----- Any table, any path

  /** Whatever the table, the path and the argument hold: cd changes the path exactly when it moves, and without a
      move it changes nothing. */
  lemma CdMovesIff(v: Vol, current: Cluster, cwd: Bytes, arg: Bytes)
    requires CdSafe(v, current, cwd, arg)
    ensures Cd(v, current, cwd, arg).1 != cwd <==> CdMoves(v, current, arg)
    ensures !CdMoves(v, current, arg) ==> Cd(v, current, cwd, arg) == (current, cwd)
  {
    var p := Cd(v, current, cwd, arg).1;
    if CdMoves(v, current, arg) {
      if PrefixOfDotDot(arg) {
        assert p[CLen(cwd) - 1] == 0 != cwd[CLen(cwd) - 1];
      } else {
        assert p[CLen(cwd) + CLen(arg)] == SLASH;
        assert p[CLen(cwd)] == (CStr(arg) + [SLASH])[0] != 0 == cwd[CLen(cwd)];
      }
    }
  }

  /** A move to an argument that is no prefix of ".." writes it and a slash over the end of the path. */
  lemma CdAppends(v: Vol, current: Cluster, cwd: Bytes, arg: Bytes, k: nat)
    requires CdSafe(v, current, cwd, arg) && CdMoves(v, current, arg) && !PrefixOfDotDot(arg) && k < CWD_SIZE
    ensures var n, m := CLen(cwd), CLen(arg);
            Cd(v, current, cwd, arg).1[k] == if n <= k < n + m then arg[k - n] else if k == n + m then SLASH else cwd[k]
  {
  }

  /** A move to a prefix of ".." clears the path behind the last slash before its last character. */
  lemma CdStrips(v: Vol, current: Cluster, cwd: Bytes, arg: Bytes, i: nat, k: nat)
    requires CdSafe(v, current, cwd, arg) && CdMoves(v, current, arg) && PrefixOfDotDot(arg) && k < CWD_SIZE
    requires i < CLen(cwd) - 1 && cwd[i] == SLASH && forall j :: i < j < CLen(cwd) - 1 ==> cwd[j] != SLASH
    ensures Cd(v, current, cwd, arg).1[k] == if k <= i then cwd[k] else 0
  {
    assert LastSlash(cwd, CLen(cwd) - 1) == i;
  }

  /** A refresh that the driver refuses leaves the table as it was. */
  lemma RefusedUpdate(v: Vol, current: Cluster)
    requires ReadDirectorySafe(v, UpdateRequest(current)) && ReadDirectory(v, UpdateRequest(current)).1 != 0
    ensures Update(v, current) == current
  {
  }

  // ----- Paths that do not fit

  /** The parent's path is shorter. */
  lemma UpIsShorter(v: Vol, g: Layout, d: nat)
    requires DirsOk(g) && DepthsOk(g) && d in g.dirs
    ensures ParentOf(g, d) in g.dirs && |PathText(v, g, ParentOf(g, d))| <= |PathText(v, g, d)|
  {
  }

  /** Entering a folder whose path does not fit: safe only when the path just fills the buffer. */
  lemma LongPath(v: Vol, g: Layout, current: Cluster, cwd: Bytes, d: nat, arg: Bytes)
    requires Inv(v, g) && DepthsOk(g) && Tracks(v, g, current, cwd, d) && GoodArg(arg)
    requires Goal(v, g, d, arg) in g.dirs && |PathText(v, g, Goal(v, g, d, arg))| >= CWD_SIZE
    ensures CdSafe(v, current, cwd, arg) <==> |PathText(v, g, Goal(v, g, d, arg))| == CWD_SIZE
  {
    var c := Goal(v, g, d, arg);
    CdGoesToGoal(v, g, d, arg);
    PlainArg(arg);
    PathShape(v, g, d);
    HeldLength(cwd, PathText(v, g, d));
    UpIsShorter(v, g, d);
    assert c != d && !IsDotDot(arg);
    GoalChild(v, g, d, arg);
    assert PathText(v, g, c) == PathText(v, g, d) + CStr(arg) + [SLASH];
    assert !PrefixOfDotDot(arg);
  }

  /** cd with a name or ".." stays inside its buffer if and only if the goal's path has at most 80 bytes, and
      leaves the path spelled if and only if it has fewer: 80 bytes leave no terminator. */
  lemma CdFitsIff(v: Vol, g: Layout, current: Cluster, cwd: Bytes, d: nat, arg: Bytes)
    requires Inv(v, g) && DepthsOk(g) && Tracks(v, g, current, cwd, d) && GoodArg(arg)
    ensures Goal(v, g, d, arg) in g.dirs
    ensures CdSafe(v, current, cwd, arg) <==> |PathText(v, g, Goal(v, g, d, arg))| <= CWD_SIZE
    ensures CdSafe(v, current, cwd, arg) ==>
              (Spells(v, g, Cd(v, current, cwd, arg).0, Cd(v, current, cwd, arg).1, Goal(v, g, d, arg))
               <==> |PathText(v, g, Goal(v, g, d, arg))| < CWD_SIZE)
  {
    CdGoesToGoal(v, g, d, arg);
    if |PathText(v, g, Goal(v, g, d, arg))| < CWD_SIZE {
      CdSpells(v, g, current, cwd, d, arg);
    } else {
      LongPath(v, g, current, cwd, d, arg);
    }
  }

  // ----- Names with a slash

  /** Stripping a component with a slash in it does not reach back to the path before it. */
  lemma StripStopsEarly(cwd: Bytes, was: Bytes, path: Bytes, arg: Bytes)
    requires Holds(was, path) && 0 !in path && Terminated(arg) && SLASH in CStr(arg)
    requires Holds(cwd, path + CStr(arg) + [SLASH])
    ensures Strippable(cwd) && StripCwd(cwd) != was
  {
    var name := CStr(arg);
    var full := path + name + [SLASH];
    HeldLength(cwd, full);
    var k :| 0 <= k < |name| && name[k] == SLASH;
    assert cwd[|path| + k] == SLASH;
    var i := LastSlash(cwd, |full| - 1);
    assert i >= |path| + k;
    assert StripCwd(cwd)[|path|] == cwd[|path|] == name[0] && name[0] in name;
    assert was[|path|] == 0;
  }

  /** cd into a folder and cd .. restores the table and the path exactly when the name has no slash. */
  lemma CdAndBackIff(v: Vol, g: Layout, current: Cluster, cwd: Bytes, d: nat, arg: Bytes, back: Bytes)
    requires Inv(v, g) && DepthsOk(g) && Tracks(v, g, current, cwd, d)
    requires GoodArg(arg) && !IsDotDot(arg) && GoodArg(back) && IsDotDot(back)
    requires Fits(v, g, d, arg) && Goal(v, g, d, arg) != d
    ensures CdSafe(v, current, cwd, arg)
    ensures var (t, p) := Cd(v, current, cwd, arg);
            CdSafe(v, t, p, back) && (Cd(v, t, p, back) == (current, cwd) <==> SLASH !in arg)
  {
    CdSpells(v, g, current, cwd, d, arg);
    if SLASH !in arg {
      CdAndBack(v, g, current, cwd, d, arg, back);
    } else {
      SlashedBack(v, g, current, cwd, d, arg, back);
    }
  }

  lemma SlashedBack(v: Vol, g: Layout, current: Cluster, cwd: Bytes, d: nat, arg: Bytes, back: Bytes)
    requires Inv(v, g) && DepthsOk(g) && Tracks(v, g, current, cwd, d)
    requires GoodArg(arg) && !IsDotDot(arg) && SLASH in arg && GoodArg(back) && IsDotDot(back)
    requires Fits(v, g, d, arg) && Goal(v, g, d, arg) != d && CdSafe(v, current, cwd, arg)
    ensures var (t, p) := Cd(v, current, cwd, arg);
            CdSafe(v, t, p, back) && Cd(v, t, p, back).1 != cwd
  {
    CdSpells(v, g, current, cwd, d, arg);
    var (t, p) := Cd(v, current, cwd, arg);
    var c := Goal(v, g, d, arg);
    GoalChild(v, g, d, arg);
    CdGoesToGoal(v, g, c, back);
    PlainArg(arg);
    PlainArg(back);
    PathShape(v, g, d);
    assert PathText(v, g, c) == PathText(v, g, d) + CStr(arg) + [SLASH];
    SlashInText(arg);
    HeldPath(v, g, c, p);
    StripStopsEarly(p, cwd, PathText(v, g, d), arg);
  }

  lemma SlashInText(arg: Bytes)
    requires AnyArg(arg) && SLASH in arg
    ensures SLASH in CStr(arg)
  {
    var k :| 0 <= k < |arg| && arg[k] == SLASH;
    assert k < CLen(arg);
    assert CStr(arg)[k] == SLASH;
  }
}
