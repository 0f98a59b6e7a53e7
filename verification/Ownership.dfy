/** Who owns which cluster, told by the volume alone: directories are what can be reached from the
    root through listed folders, and chains are what the FAT links lead through. */
module Ownership {
  import opened DirEntry
  import opened Volume
  import opened Invariant

  // ----- Reachable directories

  /** Directory p lists a folder at cluster c. */
  ghost predicate ListsFolder(v: Vol, p: nat, c: nat) {
    p < MAP_SIZE && exists i: nat :: FolderAt(v, p, i, c)
  }

  predicate FolderAt(v: Vol, p: nat, i: nat, c: nat)
    requires p < MAP_SIZE
  {
    2 <= i < SLOTS && Used(Entry(v, p, i)) && IsFolder(Entry(v, p, i)) && Start(Entry(v, p, i)) == c
  }

  ghost predicate PathTo(v: Vol, path: seq<nat>, d: nat) {
    && path != [] && path[0] == ROOT && path[|path| - 1] == d
    && forall k :: 0 <= k < |path| - 1 ==> ListsFolder(v, path[k], path[k + 1])
  }

  ghost predicate Reachable(v: Vol, d: nat) { exists path :: PathTo(v, path, d) }

  lemma PathExtend(v: Vol, up: seq<nat>, p: nat, d: nat)
    requires PathTo(v, up, p) && ListsFolder(v, p, d)
    ensures PathTo(v, up + [d], d)
  {
  }

  lemma {:induction false} PathOf(v: Vol, g: Layout, d: nat) returns (path: seq<nat>)
    requires DirsOk(g) && HeadsOk(v, g) && d in g.dirs && d in g.depth
    ensures PathTo(v, path, d) && |path| == g.depth[d] + 1
    decreases g.depth[d]
  {
    assert DirOk(v, g, d);
    if d == ROOT {
      path := [ROOT];
    } else {
      assert ListedOk(v, g, d);
      var r := g.owner[d];
      var up := PathOf(v, g, r.dir);
      assert FolderAt(v, r.dir, r.slot, d);
      path := up + [d];
      PathExtend(v, up, r.dir, d);
    }
  }

  lemma {:induction false} PathInDirs(v: Vol, g: Layout, path: seq<nat>, d: nat)
    requires DirsOk(g) && SlotsOk(v, g) && PathTo(v, path, d)
    ensures d in g.dirs
    decreases |path|
  {
    if |path| > 1 {
      var n := |path| - 1;
      assert ListsFolder(v, path[n - 1], path[n]);
      PathInDirs(v, g, path[..n], path[n - 1]);
      var i: nat :| FolderAt(v, path[n - 1], i, d);
      assert SlotOk(v, g, path[n - 1], i);
    }
  }

  /** The directories of the layout are exactly the reachable ones. */
  lemma ReachableIff(v: Vol, g: Layout, d: nat)
    requires DirsOk(g) && HeadsOk(v, g) && SlotsOk(v, g)
    ensures Reachable(v, d) <==> d in g.dirs
  {
    if d in g.dirs {
      assert DirOk(v, g, d);
      var path := PathOf(v, g, d);
    }
    if Reachable(v, d) {
      var path :| PathTo(v, path, d);
      PathInDirs(v, g, path, d);
    }
  }

  /** Following ".." from slot 1, k times. */
  function ClimbUp(v: Vol, d: nat, k: nat): nat
    requires d < MAP_SIZE
    decreases k
  {
    if k == 0 then d
    else
      var up := Start(Entry(v, d, 1));
      if up < MAP_SIZE then ClimbUp(v, up, k - 1) else up
  }

  /** From every directory ".." leads to the root, in as many steps as a path from the root has, and
      each step goes to the one directory that lists it. */
  lemma {:induction false} ClimbReachesRoot(v: Vol, g: Layout, d: nat)
    requires DirsOk(g) && HeadsOk(v, g) && d in g.dirs && d in g.depth
    ensures ClimbUp(v, d, g.depth[d]) == ROOT
    ensures d != ROOT ==> ListsFolder(v, Start(Entry(v, d, 1)), d)
    decreases g.depth[d]
  {
    assert DirOk(v, g, d);
    if d != ROOT {
      assert ListedOk(v, g, d);
      var r := g.owner[d];
      assert FolderAt(v, r.dir, r.slot, d);
      ClimbReachesRoot(v, g, r.dir);
    }
  }

  /** No other directory lists a folder, and no directory lists the root. */
  lemma OneParent(v: Vol, g: Layout, p: nat, d: nat)
    requires DirsOk(g) && HeadsOk(v, g) && SlotsOk(v, g) && p in g.dirs && d in g.dirs && ListsFolder(v, p, d)
    ensures d != ROOT && p == Start(Entry(v, d, 1))
  {
    var i: nat :| FolderAt(v, p, i, d);
    assert SlotOk(v, g, p, i) && DirOk(v, g, d);
    assert Claims(Entry(v, p, i), d);
  }

  // ----- Chains

  /** The links from cluster j lead through cluster c. */
  predicate OnChain(fat: Fat, j: nat, c: nat)
    decreases MAP_SIZE - j
  {
    j < MAP_SIZE && (j == c || (j < fat[j] && fat[j] != END_OF_FILE && OnChain(fat, fat[j], c)))
  }

  lemma {:induction false} OnChainIff(fat: Fat, s: nat, n: nat, c: nat)
    requires Chain(fat, s, n)
    ensures OnChain(fat, s, c) <==> s <= c < s + n
    decreases n
  {
    if n > 1 {
      assert fat[s] == s + 1;
      OnChainIff(fat, s + 1, n - 1, c);
    }
  }

  /** Every FAT entry from 3 up is empty, the end of a chain, or a link to the next cluster. */
  lemma FatShape(v: Vol, g: Layout, c: nat)
    requires DirsOk(g) && SlotsOk(v, g) && OwnersOk(v, g) && FIRST_DATA <= c < MAP_SIZE
    ensures v.fat[c] == EMPTY_ENTRY || v.fat[c] == END_OF_FILE || (v.fat[c] == c + 1 && c + 1 < MAP_SIZE)
  {
    if c in g.owner {
      assert OwnerOk(v, g, c);
      var r := g.owner[c];
      assert SlotOk(v, g, r.dir, r.slot);
    }
  }

  /** Entry r, reachable from the root, has cluster c on its chain. */
  ghost predicate Owns(v: Vol, r: Ref, c: nat) {
    && r.dir < MAP_SIZE && Reachable(v, r.dir) && 2 <= r.slot < SLOTS
    && Used(Entry(v, r.dir, r.slot)) && OnChain(v.fat, Start(Entry(v, r.dir, r.slot)), c)
  }

  lemma OwnsIff(v: Vol, g: Layout, r: Ref, c: nat)
    requires DirsOk(g) && HeadsOk(v, g) && SlotsOk(v, g) && OwnersOk(v, g)
    ensures Owns(v, r, c) <==> c in g.owner && g.owner[c] == r
  {
    ReachableIff(v, g, r.dir);
    if r.dir in g.dirs && 2 <= r.slot < SLOTS && Used(Entry(v, r.dir, r.slot)) {
      assert SlotOk(v, g, r.dir, r.slot);
      var e := Entry(v, r.dir, r.slot);
      OnChainIff(v.fat, Start(e), EntryLen(e), c);
      if OnChain(v.fat, Start(e), c) { assert Claims(e, c); }
    }
    if c in g.owner { assert OwnerOk(v, g, c); }
  }

  /** Every allocated data cluster lies on the chain of exactly one reachable entry, and no empty
      cluster lies on any. */
  lemma OwnershipExact(v: Vol, g: Layout, c: nat)
    requires Inv(v, g) && FIRST_DATA <= c < MAP_SIZE
    ensures v.fat[c] != EMPTY_ENTRY ==> exists r :: Owns(v, r, c)
    ensures forall r, q :: Owns(v, r, c) && Owns(v, q, c) ==> r == q
    ensures v.fat[c] == EMPTY_ENTRY ==> forall r :: !Owns(v, r, c)
  {
    forall r
      ensures Owns(v, r, c) <==> c in g.owner && g.owner[c] == r
    {
      OwnsIff(v, g, r, c);
    }
    if v.fat[c] != EMPTY_ENTRY { assert Owns(v, g.owner[c], c); }
  }

  /** The chain of a reachable file has as many clusters as its size needs; a folder's has one. */
  lemma ChainLengths(v: Vol, g: Layout, d: nat, i: nat)
    requires Inv(v, g) && d < MAP_SIZE && Reachable(v, d) && 2 <= i < SLOTS && Used(Entry(v, d, i))
    ensures ChainLen(v.fat, Start(Entry(v, d, i)))
         == if IsFolder(Entry(v, d, i)) then 1 else ClustersFor(FileSize(Entry(v, d, i)))
  {
    ReachableIff(v, g, d);
    assert SlotOk(v, g, d, i);
    ChainLenOfChain(v.fat, Start(Entry(v, d, i)), EntryLen(Entry(v, d, i)));
  }

  // ----- Conservation of clusters

  /** The chain length of slot m % 64 of directory m / 64; 0 if that is no reachable used entry. */
  ghost function LengthAt(v: Vol, m: nat): nat {
    var d, i := m / SLOTS, m % SLOTS;
    if d < MAP_SIZE && Reachable(v, d) && 2 <= i && Used(Entry(v, d, i)) then ChainLen(v.fat, Start(Entry(v, d, i)))
    else 0
  }

  ghost function TotalLength(v: Vol, m: nat): nat {
    if m == 0 then 0 else TotalLength(v, m - 1) + LengthAt(v, m - 1)
  }

  function EmptyCount(fat: Fat, k: nat): nat
    requires k <= MAP_SIZE
  {
    if k <= FIRST_DATA then 0 else EmptyCount(fat, k - 1) + if fat[k - 1] == EMPTY_ENTRY then 1 else 0
  }

  function Code(r: Ref): nat { SLOTS * r.dir + r.slot }

  function Interval(s: nat, n: nat): (r: set<nat>)
    ensures |r| == n
    ensures forall c :: c in r <==> s <= c < s + n
  {
    if n == 0 then {} else Interval(s, n - 1) + {s + n - 1}
  }

  ghost function OwnedBelow(g: Layout, m: nat): set<nat> { set c | c in g.owner && Code(g.owner[c]) < m }

  /** The run of clusters of slot m % 64 of directory m / 64. */
  ghost function RunAt(v: Vol, m: nat): (r: set<nat>)
    ensures |r| == LengthAt(v, m)
  {
    if LengthAt(v, m) == 0 then {} else Interval(Start(Entry(v, m / SLOTS, m % SLOTS)), LengthAt(v, m))
  }

  lemma RunOwned(v: Vol, g: Layout, m: nat, c: nat)
    requires DirsOk(g) && HeadsOk(v, g) && SlotsOk(v, g) && OwnersOk(v, g)
    ensures c in RunAt(v, m) <==> c in g.owner && Code(g.owner[c]) == m
  {
    var d, i := m / SLOTS, m % SLOTS;
    ReachableIff(v, g, d);
    if c in g.owner {
      assert OwnerOk(v, g, c);
      OwnedHere(v, g, m, c);
    }
    if c in RunAt(v, m) {
      assert SlotOk(v, g, d, i);
      ChainLenOfChain(v.fat, Start(Entry(v, d, i)), EntryLen(Entry(v, d, i)));
      assert Claims(Entry(v, d, i), c);
    }
  }

  lemma OwnedStep(v: Vol, g: Layout, m: nat)
    requires DirsOk(g) && HeadsOk(v, g) && SlotsOk(v, g) && OwnersOk(v, g)
    ensures |OwnedBelow(g, m + 1)| == |OwnedBelow(g, m)| + LengthAt(v, m)
  {
    forall c: nat
      ensures c in RunAt(v, m) <==> c in g.owner && Code(g.owner[c]) == m
    {
      RunOwned(v, g, m, c);
    }
    OwnedSplit(g, m, RunAt(v, m));
  }

  lemma OwnedSplit(g: Layout, m: nat, here: set<nat>)
    requires forall c: nat :: c in here <==> c in g.owner && Code(g.owner[c]) == m
    ensures |OwnedBelow(g, m + 1)| == |OwnedBelow(g, m)| + |here|
  {
    assert OwnedBelow(g, m + 1) == OwnedBelow(g, m) + here;
    assert OwnedBelow(g, m) !! here;
  }

  lemma CodeIff(r: Ref, m: nat)
    requires r.slot < SLOTS
    ensures Code(r) == m <==> r == Ref(m / SLOTS, m % SLOTS)
  {
  }

  lemma OwnedHere(v: Vol, g: Layout, m: nat, c: nat)
    requires DirsOk(g) && HeadsOk(v, g) && SlotsOk(v, g) && c in g.owner && OwnerOk(v, g, c)
    ensures var d, i := m / SLOTS, m % SLOTS;
            Code(g.owner[c]) == m <==>
              LengthAt(v, m) > 0 && d < MAP_SIZE && Start(Entry(v, d, i)) <= c < Start(Entry(v, d, i)) + LengthAt(v, m)
  {
    var d, i := m / SLOTS, m % SLOTS;
    var r := g.owner[c];
    ReachableIff(v, g, d);
    CodeIff(r, m);
    if d in g.dirs && 2 <= i && Used(Entry(v, d, i)) {
      assert SlotOk(v, g, d, i);
      var e := Entry(v, d, i);
      ChainLenOfChain(v.fat, Start(e), EntryLen(e));
      if Claims(e, c) { assert r == Ref(d, i); }
    }
  }

  lemma {:induction false} TotalIsOwned(v: Vol, g: Layout, m: nat)
    requires forall k: nat :: k < m ==> |OwnedBelow(g, k + 1)| == |OwnedBelow(g, k)| + LengthAt(v, k)
    ensures TotalLength(v, m) == |OwnedBelow(g, m)|
    decreases m
  {
    if m == 0 {
      assert OwnedBelow(g, 0) == {};
    } else {
      TotalIsOwned(v, g, m - 1);
    }
  }

  ghost function OwnedUpTo(g: Layout, k: nat): set<nat> { set c | c in g.owner && c < k }

  lemma OwnedUpToStep(g: Layout, k: nat)
    ensures |OwnedUpTo(g, k + 1)| == |OwnedUpTo(g, k)| + if k in g.owner then 1 else 0
  {
    if k in g.owner {
      assert OwnedUpTo(g, k + 1) == OwnedUpTo(g, k) + {k};
    } else {
      assert OwnedUpTo(g, k + 1) == OwnedUpTo(g, k);
    }
  }

  lemma {:induction false} OwnedAndEmpty(v: Vol, g: Layout, k: nat)
    requires FIRST_DATA <= k <= MAP_SIZE && forall c :: c in g.owner ==> FIRST_DATA <= c
    requires forall c :: FIRST_DATA <= c < MAP_SIZE ==> (c in g.owner <==> v.fat[c] != EMPTY_ENTRY)
    ensures |OwnedUpTo(g, k)| + EmptyCount(v.fat, k) == k - FIRST_DATA
    decreases k
  {
    if k == FIRST_DATA {
      assert OwnedUpTo(g, k) == {};
    } else {
      OwnedAndEmpty(v, g, k - 1);
      OwnedUpToStep(g, k - 1);
    }
  }

  lemma AllOwned(v: Vol, g: Layout)
    requires DirsOk(g) && OwnersOk(v, g)
    ensures OwnedBelow(g, MAP_SIZE * SLOTS) == OwnedUpTo(g, MAP_SIZE)
  {
    forall c | c in g.owner
      ensures Code(g.owner[c]) < MAP_SIZE * SLOTS && c < MAP_SIZE
    {
      assert OwnerOk(v, g, c);
    }
  }

  /** The empty clusters and the chain lengths of all reachable entries always add up to 509. */
  lemma Conservation(v: Vol, g: Layout)
    requires Inv(v, g)
    ensures EmptyCount(v.fat, MAP_SIZE) + TotalLength(v, MAP_SIZE * SLOTS) == 509
  {
    forall k: nat | k < MAP_SIZE * SLOTS
      ensures |OwnedBelow(g, k + 1)| == |OwnedBelow(g, k)| + LengthAt(v, k)
    {
      OwnedStep(v, g, k);
    }
    TotalIsOwned(v, g, MAP_SIZE * SLOTS);
    OwnedAndEmpty(v, g, MAP_SIZE);
    AllOwned(v, g);
  }
}
