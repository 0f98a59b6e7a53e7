/** The shape of the directory tree as the walks of src/user-shell.c see it, and getFullPath's climb,
    which ends on every sound volume after no more reads than the path is long. */
module TreeWalk {
  import opened Memory
  import opened DirEntry
  import opened Volume
  import opened Invariant
  import opened Operations
  import opened Runs
  import opened Fat32

  // ----- Subtrees

  ghost predicate DepthsOk(g: Layout) {
    forall c :: c in g.dirs && c != ROOT ==>
      c in g.owner && c in g.depth && g.owner[c].dir in g.dirs && g.owner[c].dir in g.depth
      && g.depth[c] == g.depth[g.owner[c].dir] + 1
  }

  /** Directory c is d or lies below it. */
  ghost predicate Under(g: Layout, c: nat, d: nat)
    requires DepthsOk(g) && c in g.dirs
    decreases if c in g.depth then g.depth[c] else 0
  {
    c == d || (c != ROOT && Under(g, g.owner[c].dir, d))
  }

  ghost function Subtree(g: Layout, d: nat): set<nat>
    requires DepthsOk(g)
  {
    set c | c in g.dirs && Under(g, c, d)
  }

  lemma InvDepths(v: Vol, g: Layout)
    requires DirsOk(g) && HeadsOk(v, g)
    ensures DepthsOk(g) && forall d :: d in g.dirs ==> d in g.depth
  {
    forall c | c in g.dirs
      ensures c in g.depth
      ensures c != ROOT ==>
                c in g.owner && g.owner[c].dir in g.dirs && g.owner[c].dir in g.depth
                && g.depth[c] == g.depth[g.owner[c].dir] + 1
    {
      assert DirOk(v, g, c);
    }
  }

  lemma {:induction false} UnderDepth(g: Layout, c: nat, d: nat)
    requires DepthsOk(g) && c in g.dirs && d in g.dirs && c in g.depth && d in g.depth && Under(g, c, d)
    ensures c == d || g.depth[c] > g.depth[d]
    decreases g.depth[c]
  {
    if c != d { UnderDepth(g, g.owner[c].dir, d); }
  }

  /** A subdirectory's subtree lies inside its parent's. */
  lemma {:induction false} UnderParent(g: Layout, x: nat, c: nat)
    requires DepthsOk(g) && x in g.dirs && c in g.dirs && c != ROOT && x in g.depth && Under(g, x, c)
    ensures Under(g, x, g.owner[c].dir)
    decreases g.depth[x]
  {
    if x != c { UnderParent(g, g.owner[x].dir, c); }
  }

  /** The subtrees of two subdirectories of one directory are disjoint. */
  lemma {:induction false} SiblingsApart(g: Layout, x: nat, c: nat, d: nat)
    requires DepthsOk(g) && x in g.dirs && c in g.dirs && d in g.dirs && x in g.depth
    requires c != ROOT && d != ROOT && g.owner[c].dir == g.owner[d].dir
    requires Under(g, x, c) && Under(g, x, d)
    ensures c == d
    decreases g.depth[x]
  {
    if x == c {
      if c != d { UnderDepth(g, g.owner[c].dir, d); }
    } else if x == d {
      UnderDepth(g, g.owner[d].dir, c);
    } else {
      SiblingsApart(g, g.owner[x].dir, c, d);
    }
  }

  lemma SubtreeShrinks(g: Layout, c: nat)
    requires DepthsOk(g) && c in g.dirs && c != ROOT
    ensures Subtree(g, c) < Subtree(g, g.owner[c].dir)
  {
    var d := g.owner[c].dir;
    forall x | x in Subtree(g, c)
      ensures x in Subtree(g, d)
    {
      UnderAllDepth(g, x);
      UnderParent(g, x, c);
    }
    if Under(g, d, c) { UnderDepth(g, d, c); }
    assert d in Subtree(g, d);
  }

  lemma UnderAllDepth(g: Layout, x: nat)
    requires DepthsOk(g) && x in g.dirs
    ensures x == ROOT || x in g.depth
  {
  }

  // ----- Reading a directory by its own name and by ".."

  lemma OwnKey(v: Vol, g: Layout, d: nat, req: Request)
    requires DirsOk(g) && HeadsOk(v, g) && d in g.dirs && req.name == Name(Entry(v, d, 0)) && req.ext == NO_EXT
    ensures KeyReq(req) == KeyOf(Entry(v, d, 0))
  {
    assert DirOk(v, g, d);
  }

  lemma OwnNameReads(v: Vol, g: Layout, d: nat, req: Request)
    requires DirsOk(g) && HeadsOk(v, g) && d in g.dirs && req.parent == d && req.size == CLUSTER_SIZE
    requires KeyReq(req) == KeyOf(Entry(v, d, 0))
    ensures ReadDirectorySafe(v, req) && ReadDirectory(v, req) == (v.disk[d], 0)
  {
    assert DirOk(v, g, d);
  }

  /** No directory is called "..", because its parent's slot 1 is. */
  lemma NotCalledDotDot(v: Vol, g: Layout, d: nat)
    requires DirsOk(g) && HeadsOk(v, g) && d in g.dirs
    ensures KeyOf(Entry(v, d, 0)) != DOTDOT_KEY
  {
    assert DirOk(v, g, d);
    if d == ROOT {
      assert ROOT_NAME[0] != DOTDOT[0];
    } else {
      assert ListedOk(v, g, d) && DirOk(v, g, g.owner[d].dir);
      assert KeyOf(Entry(v, g.owner[d].dir, 1)) == DOTDOT_KEY;
    }
  }

  lemma DotDotReads(v: Vol, g: Layout, d: nat, req: Request)
    requires DirsOk(g) && HeadsOk(v, g) && d in g.dirs && req.parent == d && req.size == CLUSTER_SIZE
    requires KeyReq(req) == DOTDOT_KEY
    ensures ParentOf(g, d) in g.dirs
    ensures ReadDirectorySafe(v, req) && ReadDirectory(v, req) == (v.disk[ParentOf(g, d)], 0)
  {
    HeadEntry(v, g, d, 0);
    HeadEntry(v, g, d, 1);
    NotCalledDotDot(v, g, d);
    assert DirOk(v, g, d);
    assert FirstMatch(v.disk[d], DOTDOT_KEY, 0) == 1;
  }

  /** The `char*` into a folder entry's name runs through the padded name and stops. */
  lemma FolderNameMem(t: Cluster, i: nat)
    requires i < SLOTS && Padded(Name(SlotAt(t, i))) && Ext(SlotAt(t, i)) == NO_EXT
    ensures StoredAs(t[SLOT_SIZE * i..], Name(SlotAt(t, i)))
    ensures Terminated(t[SLOT_SIZE * i + 8..]) && CLen(t[SLOT_SIZE * i + 8..]) == 0
  {
    var mem, s := t[SLOT_SIZE * i..], SlotAt(t, i);
    assert mem[8] == s[8] == Ext(s)[0];
    assert mem[8] in mem;
    assert Name(s) <= mem;
    PaddedPrefix(Name(s), mem);
    assert t[SLOT_SIZE * i + 8..][0] == s[8];
    CLenUnique(t[SLOT_SIZE * i + 8..], 0);
  }

  /** A zeroed 8-byte member after memcpy of a C string. */
  method CopyName(mem: Bytes, ghost name: Bytes) returns (field: Bytes)
    requires StoredAs(mem, name)
    ensures field == name
  {
    var n := StrLen(mem);
    field := mem[..n] + Zeros(8 - n);
  }

  /** A folder listed in a directory is a directory, under the entry's own key. */
  lemma ListedFolder(v: Vol, g: Layout, d: nat, i: nat)
    requires DirsOk(g) && HeadsOk(v, g) && SlotsOk(v, g) && d in g.dirs && 2 <= i < SLOTS
    requires Used(Entry(v, d, i)) && IsFolder(Entry(v, d, i))
    ensures var c := Start(Entry(v, d, i));
            && c in g.dirs && c != ROOT && c in g.owner && g.owner[c] == Ref(d, i)
            && KeyOf(Entry(v, c, 0)) == KeyOf(Entry(v, d, i))
            && Padded(Name(Entry(v, d, i))) && Ext(Entry(v, d, i)) == NO_EXT
  {
    var e := Entry(v, d, i);
    assert SlotOk(v, g, d, i);
    assert Claims(e, Start(e));
    assert DirOk(v, g, Start(e)) && ListedOk(v, g, Start(e));
    assert KeyOf(Entry(v, Start(e), 0)) == Key(Name(e), Ext(e));
  }

  // ----- getFullPath

  /** The directory a climb from `cluster` reads: itself, or its parent through "..". */
  ghost function ClimbTo(g: Layout, cluster: nat, up: bool): nat {
    if up then ParentOf(g, cluster) else cluster
  }

  ghost function ClimbName(v: Vol, cluster: nat, up: bool): Bytes
    requires cluster < MAP_SIZE
  {
    if up then DOTDOT else Name(Entry(v, cluster, 0))
  }

  lemma ClimbReads(v: Vol, g: Layout, c: nat, up: bool, req: Request)
    requires DirsOk(g) && HeadsOk(v, g) && c in g.dirs && req.parent == c && req.size == CLUSTER_SIZE
    requires KeyReq(req) == Key(ClimbName(v, c, up), NO_EXT)
    ensures ClimbTo(g, c, up) in g.dirs
    ensures ReadDirectorySafe(v, req) && ReadDirectory(v, req) == (v.disk[ClimbTo(g, c, up)], 0)
  {
    if up {
      DotDotReads(v, g, c, req);
    } else {
      assert DirOk(v, g, c);
      OwnNameReads(v, g, c, req);
    }
  }

  lemma {:induction false} UnderTrans(g: Layout, x: nat, c: nat, d: nat)
    requires DepthsOk(g) && x in g.dirs && c in g.dirs && x in g.depth && Under(g, x, c) && Under(g, c, d)
    ensures Under(g, x, d)
    decreases g.depth[x]
  {
    if x != c { UnderTrans(g, g.owner[x].dir, c, d); }
  }

  /** One climb: the directory read is above the start, its ".." names one that is nearer the root
      unless it is the root itself, which its name gives away. */
  lemma ClimbStep(v: Vol, g: Layout, c: nat, up: bool)
    requires DirsOk(g) && HeadsOk(v, g) && DepthsOk(g) && c in g.dirs && c in g.depth
    ensures var d := ClimbTo(g, c, up);
            && d in g.dirs && Under(g, c, d)
            && Start(Entry(v, d, 0)) == d && Start(Entry(v, d, 1)) == ParentOf(g, d)
            && (Name(Entry(v, d, 0)) != ROOT_NAME ==>
                  var p := ParentOf(g, d);
                  && p in g.dirs && p in g.depth && g.depth[p] < g.depth[c] && Under(g, c, p)
                  && StoredAs(v.disk[d][SLOT_SIZE..], DOTDOT))
  {
    var d := ClimbTo(g, c, up);
    HeadEntry(v, g, c, 1);
    HeadEntry(v, g, d, 0);
    HeadEntry(v, g, d, 1);
    assert DirOk(v, g, d);
    if c != ROOT { assert Under(g, g.owner[c].dir, g.owner[c].dir); }
    if Name(Entry(v, d, 0)) != ROOT_NAME {
      assert Under(g, g.owner[d].dir, g.owner[d].dir);
      UnderTrans(g, c, d, ParentOf(g, d));
      DotDotMem(v.disk[d]);
    }
  }

  lemma DotDotMem(t: Cluster)
    requires KeyOf(SlotAt(t, 1)) == DOTDOT_KEY
    ensures StoredAs(t[SLOT_SIZE..], DOTDOT)
  {
    assert Name(SlotAt(t, 1)) == DOTDOT;
    FolderNameMem(t, 1);
  }

  /** One read_directory call into a local table. */
  method ReadTable(drv: Fat32Driver, req: Request, ghost want: Cluster) returns (t: Cluster, retcode: int)
    requires drv.Valid() && req.size == CLUSTER_SIZE
    requires ReadDirectorySafe(drv.View(), req) && ReadDirectory(drv.View(), req) == (want, 0)
    modifies drv.dirTableBuf
    ensures t == want && retcode == 0
  {
    var table := new byte[CLUSTER_SIZE](_ => 0);
    retcode := drv.ReadDirectory(req, table);
    t := table[..];
  }

  method IsNamedRoot(t: Cluster) returns (b: bool)
    ensures b <==> Name(SlotAt(t, 0)) == ROOT_NAME
  {
    assert t[..8][..8] == Name(SlotAt(t, 0)) && ROOT_NAME[..8] == ROOT_NAME;
    var c := MemCmp(t[..8], ROOT_NAME, 8);
    b := c == 0;
  }

  ghost predicate AllAbove(g: Layout, c: nat, xs: seq<nat>)
    requires DepthsOk(g) && c in g.dirs
  {
    forall x :: x in xs ==> x in g.dirs && Under(g, c, x)
  }

  /** The climb goes on from directory a, which is not called "root", to b, its parent's parent. */
  ghost predicate StepsUp(v: Vol, g: Layout, a: nat, b: nat)
    requires a < MAP_SIZE
  {
    Name(Entry(v, a, 0)) != ROOT_NAME && b == ParentOf(g, ParentOf(g, a))
  }

  /** The directories that getFullPath reads from c: the first one under its own name or "..", then always the
      parent's parent, up to the first one that is called "root". */
  ghost predicate IsClimb(v: Vol, g: Layout, c: nat, up: bool, path: seq<nat>)
    requires DirsOk(g)
  {
    path != [] && (forall k :: 0 <= k < |path| ==> path[k] in g.dirs) && path[0] == ClimbTo(g, c, up)
    && (forall j, k :: 0 <= j && k == j + 1 && k < |path| ==> StepsUp(v, g, path[j], path[k]))
    && Name(Entry(v, path[|path| - 1], 0)) == ROOT_NAME
  }

  lemma ClimbMore(v: Vol, g: Layout, c: nat, up: bool, more: seq<nat>)
    requires DirsOk(g) && ClimbTo(g, c, up) in g.dirs && Name(Entry(v, ClimbTo(g, c, up), 0)) != ROOT_NAME
    requires IsClimb(v, g, ParentOf(g, ClimbTo(g, c, up)), true, more)
    ensures IsClimb(v, g, c, up, [ClimbTo(g, c, up)] + more)
  {
    var path := [ClimbTo(g, c, up)] + more;
    forall j, k | 0 <= j && k == j + 1 && k < |path|
      ensures StepsUp(v, g, path[j], path[k])
    {
      if j > 0 {
        assert path[j] == more[j - 1] && path[k] == more[k - 1];
      }
    }
  }

  /** The directories from d up to the root, none left out. */
  ghost predicate IsAncestry(g: Layout, d: nat, path: seq<nat>) {
    path != [] && path[0] == d && path[|path| - 1] == ROOT
    && forall j, k :: 0 <= j && k == j + 1 && k < |path| ==> path[j] != ROOT && path[k] == ParentOf(g, path[j])
  }

  /** getFullPath looks up ".." in the parent, so it steps two levels at a time. From directory d it meets every
      directory of the path exactly when d is the root, or lies in the root and is not called "root". */
  lemma FullPathIff(v: Vol, g: Layout, d: nat, path: seq<nat>)
    requires DirsOk(g) && HeadsOk(v, g) && d in g.dirs && IsClimb(v, g, d, false, path)
    ensures IsAncestry(g, d, path)
            <==> d == ROOT || (ParentOf(g, d) == ROOT && Name(Entry(v, d, 0)) != ROOT_NAME)
  {
    assert DirOk(v, g, ROOT) && DirOk(v, g, d);
    if |path| > 1 {
      assert StepsUp(v, g, path[0], path[1]);
    }
    if |path| > 2 {
      assert StepsUp(v, g, path[1], path[2]);
    }
    if IsAncestry(g, d, path) && d != ROOT {
      assert path[0] == d && |path| > 1;
      assert path[1] == ParentOf(g, path[0]);
      NotItsParent(v, g, path[1]);
    }
  }

  lemma NotItsParent(v: Vol, g: Layout, d: nat)
    requires DirsOk(g) && HeadsOk(v, g) && d in g.dirs
    ensures ParentOf(g, d) == d <==> d == ROOT
  {
    InvDepths(v, g);
  }

  /** One level of getFullPath: read the directory, and tell whether the climb goes on. */
  method ClimbRead(drv: Fat32Driver, ghost v: Vol, ghost g: Layout, cluster: u32, folderName: Bytes, ghost up: bool)
      returns (t: Cluster, goOn: bool)
    requires drv.Valid() && drv.View() == v && DirsOk(g) && HeadsOk(v, g) && DepthsOk(g)
    requires cluster in g.dirs && cluster in g.depth && StoredAs(folderName, ClimbName(v, cluster, up))
    modifies drv.dirTableBuf
    ensures drv.View() == v
    ensures var d := ClimbTo(g, cluster, up);
            Start(SlotAt(t, 0)) == d && d in g.dirs && Start(SlotAt(t, 1)) == ParentOf(g, d) && Under(g, cluster, d)
            && (goOn <==> Name(Entry(v, d, 0)) != ROOT_NAME)
    ensures goOn ==>
              var p := Start(SlotAt(t, 1));
              && p in g.dirs && p in g.depth && g.depth[p] < g.depth[cluster] && Under(g, cluster, p)
              && StoredAs(t[SLOT_SIZE..], ClimbName(v, p, true))
  {
    var name := CopyName(folderName, ClimbName(v, cluster, up));
    var req := RawRequest(name, NO_EXT, cluster, CLUSTER_SIZE);
    ClimbReads(v, g, cluster, up, req);
    ClimbStep(v, g, cluster, up);
    var retcode;
    t, retcode := ReadTable(drv, req, v.disk[ClimbTo(g, cluster, up)]);
    var root := IsNamedRoot(t);
    goOn := retcode == 0 && !root;
  }

  /** getFullPath from directory `cluster` under its own name or "..": it reads what IsClimb says. Each call moves
      nearer the root, so it ends after at most depth + 1 reads, all of directories on the way up. */
  method GetFullPath(drv: Fat32Driver, ghost v: Vol, ghost g: Layout, cluster: u32, folderName: Bytes, ghost up: bool)
      returns (seen: seq<nat>)
    requires drv.Valid() && drv.View() == v && DirsOk(g) && HeadsOk(v, g) && DepthsOk(g)
    requires cluster in g.dirs && cluster in g.depth && StoredAs(folderName, ClimbName(v, cluster, up))
    modifies drv.dirTableBuf
    ensures drv.View() == v
    ensures 1 <= |seen| <= g.depth[cluster] + 1
    ensures AllAbove(g, cluster, seen) && IsClimb(v, g, cluster, up, seen)
    decreases g.depth[cluster]
  {
    var t, goOn := ClimbRead(drv, v, g, cluster, folderName, up);
    var self := Start(SlotAt(t, 0));
    seen := [self];
    if goOn {
      var parent := Start(SlotAt(t, 1));
      var more := GetFullPath(drv, v, g, parent, t[SLOT_SIZE..], true);
      UnderAll(g, cluster, self, parent, more);
      ClimbMore(v, g, cluster, up, more);
      seen := [self] + more;
    }
  }

  lemma UnderAll(g: Layout, c: nat, d: nat, p: nat, xs: seq<nat>)
    requires DepthsOk(g) && c in g.dirs && d in g.dirs && p in g.dirs && c in g.depth && p in g.depth
    requires Under(g, c, d) && Under(g, c, p) && g.depth[p] < g.depth[c] && |xs| <= g.depth[p] + 1
    requires forall x :: x in xs ==> x in g.dirs && Under(g, p, x)
    ensures AllAbove(g, c, [d] + xs) && |[d] + xs| <= g.depth[c] + 1
  {
    forall x | x in xs
      ensures x in g.dirs && Under(g, c, x)
    {
      UnderTrans(g, c, p, x);
    }
  }
}
