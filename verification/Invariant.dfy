/** The invariant every reachable volume satisfies, and its preservation by the two state changes
    of the driver: adding an entry with its chain, and removing one. */
module Invariant {
  import opened Memory
  import opened DirEntry
  import opened Disk
  import opened Volume

  /** Slot `slot` of the directory at cluster `dir`. */
  datatype Ref = Ref(dir: nat, slot: nat)

  /** The directory tree behind a volume: its directories, which entry owns each cluster, and how
      far each directory is from the root. */
  datatype Layout = Layout(dirs: set<nat>, owner: map<nat, Ref>, depth: map<nat, nat>)

  function Entry(v: Vol, d: nat, i: nat): Slot
    requires d < MAP_SIZE && i < SLOTS
  {
    SlotAt(v.disk[d], i)
  }

  /** The number of clusters an entry's chain must have. */
  function EntryLen(s: Slot): nat {
    if IsFolder(s) then 1 else ClustersFor(FileSize(s))
  }

  /** Cluster c lies in the run of clusters entry s claims. */
  predicate Claims(s: Slot, c: int) { Start(s) <= c < Start(s) + EntryLen(s) }

  function ParentOf(g: Layout, d: nat): nat {
    if d == ROOT || d !in g.owner then ROOT else g.owner[d].dir
  }

  ghost predicate DirsOk(g: Layout) {
    ROOT in g.dirs && forall d :: d in g.dirs ==> ROOT <= d < MAP_SIZE
  }

  /** Signature, reserved FAT entries, and the cached FAT equal to the stored one. */
  ghost predicate Reserved(v: Vol) {
    && v.fat[0] == CLUSTER_0_VALUE && v.fat[1] == CLUSTER_1_VALUE && v.fat[2] == END_OF_FILE
    && v.disk[0][..BLOCK_SIZE] == Signature()
    && v.disk[FAT_CLUSTER] == EncodeFat(v.fat)
  }

  /** Slot 0 names the directory itself, slot 1 its parent. */
  predicate SelfAndParent(s0: Slot, s1: Slot, name: Bytes, self: nat, parent: nat) {
    && Used(s0) && IsFolder(s0) && KeyOf(s0) == Key(name, NO_EXT) && Start(s0) == self
    && Used(s1) && IsFolder(s1) && KeyOf(s1) == Key(DOTDOT, NO_EXT) && Start(s1) == parent
  }

  ghost predicate HeadOk(v: Vol, g: Layout, d: nat)
    requires DirsOk(g) && d in g.dirs
  {
    && v.fat[d] == END_OF_FILE
    && d in g.depth && Padded(Name(Entry(v, d, 0)))
    && SelfAndParent(Entry(v, d, 0), Entry(v, d, 1), Name(Entry(v, d, 0)), d, ParentOf(g, d))
    && if d == ROOT then Name(Entry(v, d, 0)) == ROOT_NAME && g.depth[d] == 0 else ListedOk(v, g, d)
  }

  /** A directory other than the root is listed, under its own name, by the directory one level up
      that owns it. */
  ghost predicate ListedOk(v: Vol, g: Layout, d: nat)
    requires DirsOk(g) && d in g.dirs && d in g.depth
  {
    && d in g.owner
    && var r := g.owner[d];
    && r.dir in g.dirs && r.dir in g.depth && 2 <= r.slot < SLOTS
    && g.depth[d] == g.depth[r.dir] + 1
    && var e := Entry(v, r.dir, r.slot);
    && Used(e) && IsFolder(e) && Start(e) == d && KeyOf(e) == KeyOf(Entry(v, d, 0))
  }

  ghost predicate EntryOk(v: Vol, g: Layout, r: Ref, s: Slot) {
    && FIRST_DATA <= Start(s)
    && Chain(v.fat, Start(s), EntryLen(s))
    && (forall c :: Claims(s, c) ==> c in g.owner && g.owner[c] == r)
    && (IsFolder(s) ==> Start(s) in g.dirs)
  }

  /** A slot is either a sound entry or all zero. */
  ghost predicate SlotOk(v: Vol, g: Layout, d: nat, i: nat)
    requires d < MAP_SIZE && i < SLOTS
  {
    if Used(Entry(v, d, i)) then EntryOk(v, g, Ref(d, i), Entry(v, d, i))
    else Entry(v, d, i) == Zeros(SLOT_SIZE)
  }

  /** No two entries from ".." on share a key. */
  ghost predicate KeysOk(v: Vol, d: nat)
    requires d < MAP_SIZE
  {
    forall i, j :: 1 <= i < j < SLOTS && Used(Entry(v, d, i)) && Used(Entry(v, d, j)) ==>
      KeyOf(Entry(v, d, i)) != KeyOf(Entry(v, d, j))
  }

  ghost predicate DirOk(v: Vol, g: Layout, d: nat)
    requires DirsOk(g) && d in g.dirs
  {
    HeadOk(v, g, d) && KeysOk(v, d)
  }

  ghost predicate HeadsOk(v: Vol, g: Layout)
    requires DirsOk(g)
  {
    forall d {:trigger DirOk(v, g, d)} :: d in g.dirs ==> DirOk(v, g, d)
  }

  ghost predicate SlotsOk(v: Vol, g: Layout)
    requires DirsOk(g)
  {
    forall d, i :: d in g.dirs && 2 <= i < SLOTS ==> SlotOk(v, g, d, i)
  }

  ghost predicate OwnerOk(v: Vol, g: Layout, c: nat)
    requires DirsOk(g) && c in g.owner
  {
    var r := g.owner[c];
    && r.dir in g.dirs && 2 <= r.slot < SLOTS
    && Used(Entry(v, r.dir, r.slot)) && Claims(Entry(v, r.dir, r.slot), c)
  }

  /** Exactly the allocated data clusters have owners. */
  ghost predicate OwnersOk(v: Vol, g: Layout)
    requires DirsOk(g)
  {
    && (forall c :: c in g.owner ==> FIRST_DATA <= c < MAP_SIZE && OwnerOk(v, g, c))
    && (forall c :: FIRST_DATA <= c < MAP_SIZE ==> (c in g.owner <==> v.fat[c] != EMPTY_ENTRY))
  }

  ghost predicate EmptiesZero(v: Vol) {
    forall c :: FIRST_DATA <= c < MAP_SIZE && v.fat[c] == EMPTY_ENTRY ==> v.disk[c] == Zeros(CLUSTER_SIZE)
  }

  ghost predicate Inv(v: Vol, g: Layout) {
    && DirsOk(g)
    && Reserved(v)
    && HeadsOk(v, g)
    && SlotsOk(v, g)
    && OwnersOk(v, g)
    && EmptiesZero(v)
  }

  // ----- Consequences

  /** Every directory passes the byte inspection of is_valid_parent_cluster. */
  lemma DirsAreValidParents(v: Vol, g: Layout, d: nat)
    requires Inv(v, g) && d in g.dirs
    ensures ValidParent(v, d)
  {
    assert DirOk(v, g, d);
  }

  /** A cluster that an entry claims is a directory only if the entry lists it as a folder. */
  lemma ClaimedDir(v: Vol, g: Layout, r: Ref, e: Slot, d: nat)
    requires DirsOk(g) && d in g.dirs && HeadOk(v, g, d)
    requires r.dir < MAP_SIZE && r.slot < SLOTS && e == Entry(v, r.dir, r.slot)
    requires EntryOk(v, g, r, e) && Claims(e, d)
    ensures IsFolder(e) && d == Start(e) && EntryLen(e) == 1
  {
    assert d != ROOT;
    assert ListedOk(v, g, d);
  }

  lemma ClaimedIfDir(v: Vol, g: Layout, r: Ref, e: Slot, c: nat)
    requires DirsOk(g) && HeadsOk(v, g)
    requires r.dir < MAP_SIZE && r.slot < SLOTS && e == Entry(v, r.dir, r.slot)
    requires EntryOk(v, g, r, e) && Claims(e, c)
    ensures c in g.dirs ==> IsFolder(e)
  {
    if c in g.dirs {
      assert DirOk(v, g, c);
      ClaimedDir(v, g, r, e, c);
    }
  }

  lemma DirsEnd(v: Vol, g: Layout)
    requires DirsOk(g) && HeadsOk(v, g)
    ensures forall d :: d in g.dirs ==> v.fat[d] == END_OF_FILE
  {
    forall d | d in g.dirs
      ensures v.fat[d] == END_OF_FILE
    {
      assert DirOk(v, g, d);
    }
  }

  // ----- Adding an entry

  /** The arguments of Volume.AddEntry. */
  datatype Addition = Addition(p: nat, i: nat, slot: Slot, s: nat, n: nat, buf: Bytes)

  ghost predicate AddFits(v: Vol, g: Layout, a: Addition) {
    && DirsOk(g) && a.p in g.dirs && a.p in g.depth && 2 <= a.i < SLOTS && !Used(Entry(v, a.p, a.i))
    && FIRST_DATA <= a.s && 1 <= a.n && AllEmpty(v.fat, a.s, a.n) && CLUSTER_SIZE * a.n <= |a.buf|
  }

  /** The slot describes the chain, its key is new, and a folder comes with a fresh table. */
  ghost predicate AddMatches(v: Vol, a: Addition)
    requires a.p < MAP_SIZE && 1 <= a.n && CLUSTER_SIZE * a.n <= |a.buf|
  {
    && Used(a.slot) && Start(a.slot) == a.s && EntryLen(a.slot) == a.n
    && (forall j :: 1 <= j < SLOTS && Used(Entry(v, a.p, j)) ==> KeyOf(Entry(v, a.p, j)) != KeyOf(a.slot))
    && (IsFolder(a.slot) ==>
          Padded(Name(a.slot)) && Ext(a.slot) == NO_EXT && FreshTable(Piece(a.buf, 0), Name(a.slot), a.s, a.p))
  }

  ghost predicate FreshTable(t: Cluster, name: Bytes, self: nat, parent: nat) {
    && SelfAndParent(SlotAt(t, 0), SlotAt(t, 1), name, self, parent)
    && forall i :: 2 <= i < SLOTS ==> SlotAt(t, i) == Zeros(SLOT_SIZE)
  }

  ghost function AddVol(v: Vol, g: Layout, a: Addition): Vol
    requires AddFits(v, g, a)
  {
    AddEntry(v, a.p, a.i, a.slot, a.s, a.n, a.buf)
  }

  ghost function Assign(owner: map<nat, Ref>, s: nat, n: nat, r: Ref): (o: map<nat, Ref>)
    ensures forall c :: c in o <==> c in owner || s <= c < s + n
    ensures forall c :: c in o ==> o[c] == if s <= c < s + n then r else owner[c]
  {
    if n == 0 then owner else Assign(owner, s, n - 1, r)[s + n - 1 := r]
  }

  ghost function AddLayout(g: Layout, a: Addition): Layout
    requires a.p in g.depth
  {
    Layout(if IsFolder(a.slot) then g.dirs + {a.s} else g.dirs,
           Assign(g.owner, a.s, a.n, Ref(a.p, a.i)),
           if IsFolder(a.slot) then g.depth[a.s := g.depth[a.p] + 1] else g.depth)
  }

  /** The addition seen entry by entry and link by link. */
  ghost predicate Added(v: Vol, v': Vol, g: Layout, a: Addition)
    requires DirsOk(g)
  {
    && (forall d, i :: d in g.dirs && 0 <= i < SLOTS ==>
          Entry(v', d, i) == if d == a.p && i == a.i then a.slot else Entry(v, d, i))
    && (forall c :: 0 <= c < MAP_SIZE && !(a.s <= c < a.s + a.n) ==> v'.fat[c] == v.fat[c])
    && Chain(v'.fat, a.s, a.n)
    && (forall d :: d in g.dirs ==> !(a.s <= d < a.s + a.n))
  }

  lemma AddFrame(v: Vol, g: Layout, a: Addition)
    requires AddFits(v, g, a) && forall d :: d in g.dirs ==> v.fat[d] == END_OF_FILE
    ensures Added(v, AddVol(v, g, a), g, a)
  {
    var v' := AddVol(v, g, a);
    forall d, i | d in g.dirs && 0 <= i < SLOTS
      ensures Entry(v', d, i) == if d == a.p && i == a.i then a.slot else Entry(v, d, i)
    {
      AddClusters(v, g, a, d);
      SlotAtPut(v.disk[a.p], a.i, a.slot, i);
    }
  }

  lemma AddClusters(v: Vol, g: Layout, a: Addition, c: nat)
    requires AddFits(v, g, a) && c < MAP_SIZE && c != FAT_CLUSTER && v.fat[a.p] == END_OF_FILE
    ensures AddVol(v, g, a).disk[c]
         == if a.s <= c < a.s + a.n then Piece(a.buf, c - a.s)
            else if c == a.p then PutSlot(v.disk[a.p], a.i, a.slot) else v.disk[c]
  {
  }

  lemma AddLayoutDirs(g: Layout, a: Addition)
    requires DirsOk(g) && a.p in g.depth && FIRST_DATA <= a.s < MAP_SIZE
    ensures DirsOk(AddLayout(g, a))
  {
  }

  lemma AddHead(v: Vol, v': Vol, g: Layout, a: Addition, d: nat)
    requires AddFits(v, g, a) && d in g.dirs && HeadOk(v, g, d) && Added(v, v', g, a)
    ensures DirsOk(AddLayout(g, a)) && HeadOk(v', AddLayout(g, a), d)
  {
    if d != ROOT { assert ListedOk(v', AddLayout(g, a), d); }
  }

  lemma AddNewHead(v: Vol, v': Vol, g: Layout, a: Addition)
    requires AddFits(v, g, a) && AddMatches(v, a) && Added(v, v', g, a)
    requires IsFolder(a.slot) && v'.disk[a.s] == Piece(a.buf, 0)
    ensures DirsOk(AddLayout(g, a)) && HeadOk(v', AddLayout(g, a), a.s)
    ensures KeysOk(v', a.s)
    ensures forall i :: 2 <= i < SLOTS ==> SlotOk(v', AddLayout(g, a), a.s, i)
  {
    var g' := AddLayout(g, a);
    assert Entry(v', a.p, a.i) == a.slot;
    assert ListedOk(v', g', a.s);
    forall i | 2 <= i < SLOTS
      ensures Entry(v', a.s, i) == Zeros(SLOT_SIZE) && !Used(Entry(v', a.s, i))
    {
    }
  }

  lemma AddNewSlot(v: Vol, v': Vol, g: Layout, a: Addition)
    requires AddFits(v, g, a) && AddMatches(v, a) && Added(v, v', g, a)
    ensures SlotOk(v', AddLayout(g, a), a.p, a.i)
  {
    assert Entry(v', a.p, a.i) == a.slot;
    assert EntryOk(v', AddLayout(g, a), Ref(a.p, a.i), a.slot);
  }

  /** An entry whose clusters keep their links and their owner stays sound. */
  lemma EntryKept(v: Vol, v': Vol, g: Layout, g': Layout, r: Ref, s: Slot)
    requires EntryOk(v, g, r, s)
    requires forall c :: Claims(s, c) ==> c in g'.owner && g'.owner[c] == r && v'.fat[c] == v.fat[c]
    requires IsFolder(s) ==> Start(s) in g'.dirs
    ensures EntryOk(v', g', r, s)
  {
    var c0, n := Start(s), EntryLen(s);
    forall c | c0 <= c < c0 + n
      ensures v'.fat[c] == v.fat[c]
    {
      assert Claims(s, c);
    }
    ChainSame(v.fat, v'.fat, c0, n);
  }

  lemma AddOldSlot(v: Vol, v': Vol, g: Layout, a: Addition, d: nat, i: nat)
    requires AddFits(v, g, a) && Added(v, v', g, a) && OwnersOk(v, g)
    requires d in g.dirs && 2 <= i < SLOTS && SlotOk(v, g, d, i) && !(d == a.p && i == a.i)
    ensures SlotOk(v', AddLayout(g, a), d, i)
  {
    var s, g' := Entry(v, d, i), AddLayout(g, a);
    assert Entry(v', d, i) == s;
    if Used(s) {
      forall c | Claims(s, c)
        ensures c in g'.owner && g'.owner[c] == Ref(d, i) && v'.fat[c] == v.fat[c]
      {
        assert c in g.owner && v.fat[c] != EMPTY_ENTRY;
      }
      EntryKept(v, v', g, g', Ref(d, i), s);
    }
  }

  lemma ChainSame(fat: Fat, fat': Fat, s: nat, n: nat)
    requires Chain(fat, s, n) && forall c :: s <= c < s + n ==> fat'[c] == fat[c]
    ensures Chain(fat', s, n)
  {
  }

  lemma OldOwner(v: Vol, v': Vol, g: Layout, g': Layout, c: nat)
    requires DirsOk(g) && DirsOk(g') && g.dirs <= g'.dirs && c in g.owner && OwnerOk(v, g, c)
    requires c in g'.owner && g'.owner[c] == g.owner[c]
    requires Entry(v', g.owner[c].dir, g.owner[c].slot) == Entry(v, g.owner[c].dir, g.owner[c].slot)
    ensures OwnerOk(v', g', c)
  {
  }

  lemma NewOwner(v': Vol, g': Layout, a: Addition, c: nat)
    requires DirsOk(g') && a.p in g'.dirs && 2 <= a.i < SLOTS && Entry(v', a.p, a.i) == a.slot
    requires Used(a.slot) && Start(a.slot) == a.s && EntryLen(a.slot) == a.n && a.s <= c < a.s + a.n
    requires c in g'.owner && g'.owner[c] == Ref(a.p, a.i)
    ensures OwnerOk(v', g', c)
  {
  }

  lemma OtherSlot(v: Vol, v': Vol, g: Layout, a: Addition, r: Ref)
    requires AddFits(v, g, a) && Added(v, v', g, a) && r.dir in g.dirs && r.slot < SLOTS
    requires Used(Entry(v, r.dir, r.slot))
    ensures Entry(v', r.dir, r.slot) == Entry(v, r.dir, r.slot)
  {
  }

  lemma AddOwners(v: Vol, v': Vol, g: Layout, a: Addition)
    requires AddFits(v, g, a) && AddMatches(v, a) && Added(v, v', g, a) && OwnersOk(v, g)
    ensures DirsOk(AddLayout(g, a)) && OwnersOk(v', AddLayout(g, a))
  {
    AddLayoutDirs(g, a);
    var g' := AddLayout(g, a);
    forall c | c in g'.owner
      ensures FIRST_DATA <= c < MAP_SIZE && OwnerOk(v', g', c)
    {
      if a.s <= c < a.s + a.n {
        assert Entry(v', a.p, a.i) == a.slot;
        NewOwner(v', g', a, c);
      } else {
        assert OwnerOk(v, g, c);
        OtherSlot(v, v', g, a, g.owner[c]);
        OldOwner(v, v', g, g', c);
      }
    }
    forall c | FIRST_DATA <= c < MAP_SIZE
      ensures c in g'.owner <==> v'.fat[c] != EMPTY_ENTRY
    {
      if a.s <= c < a.s + a.n { ChainNonEmpty(v'.fat, a.s, a.n, c); }
    }
  }

  lemma ChainNonEmpty(fat: Fat, s: nat, n: nat, c: nat)
    requires Chain(fat, s, n) && s <= c < s + n
    ensures fat[c] != EMPTY_ENTRY
  {
  }

  lemma AddKeys(v: Vol, v': Vol, g: Layout, a: Addition, d: nat)
    requires AddFits(v, g, a) && AddMatches(v, a) && Added(v, v', g, a)
    requires d in g.dirs && KeysOk(v, d)
    ensures KeysOk(v', d)
  {
    forall i, j | 1 <= i < j < SLOTS && Used(Entry(v', d, i)) && Used(Entry(v', d, j))
      ensures KeyOf(Entry(v', d, i)) != KeyOf(Entry(v', d, j))
    {
      assert Entry(v', d, i) == if d == a.p && i == a.i then a.slot else Entry(v, d, i);
      assert Entry(v', d, j) == if d == a.p && j == a.i then a.slot else Entry(v, d, j);
    }
  }

  /** The parts of the invariant that look at no directory. */
  lemma AddRest(v: Vol, g: Layout, a: Addition)
    requires AddFits(v, g, a) && Reserved(v) && EmptiesZero(v)
    requires v.fat[a.p] == END_OF_FILE
    ensures Reserved(AddVol(v, g, a)) && EmptiesZero(AddVol(v, g, a))
  {
    var v' := AddVol(v, g, a);
    AddClusters(v, g, a, 0);
    forall c | FIRST_DATA <= c < MAP_SIZE && v'.fat[c] == EMPTY_ENTRY
      ensures v'.disk[c] == Zeros(CLUSTER_SIZE)
    {
      AddClusters(v, g, a, c);
    }
  }

  ghost predicate AddPre(v: Vol, g: Layout, a: Addition) {
    Inv(v, g) && AddFits(v, g, a) && AddMatches(v, a)
  }

  lemma AddDir(v: Vol, v': Vol, g: Layout, a: Addition, d: nat)
    requires AddFits(v, g, a) && AddMatches(v, a) && Added(v, v', g, a)
    requires d in g.dirs && DirOk(v, g, d)
    ensures DirsOk(AddLayout(g, a)) && DirOk(v', AddLayout(g, a), d)
  {
    AddHead(v, v', g, a, d);
    AddKeys(v, v', g, a, d);
  }

  lemma AddNewDir(v: Vol, v': Vol, g: Layout, a: Addition)
    requires AddFits(v, g, a) && AddMatches(v, a) && Added(v, v', g, a)
    requires IsFolder(a.slot) && v'.disk[a.s] == Piece(a.buf, 0)
    ensures DirsOk(AddLayout(g, a)) && DirOk(v', AddLayout(g, a), a.s)
  {
    AddNewHead(v, v', g, a);
  }

  lemma AddHeadsOk(v: Vol, v': Vol, g: Layout, a: Addition)
    requires AddFits(v, g, a) && AddMatches(v, a) && Added(v, v', g, a) && HeadsOk(v, g)
    requires IsFolder(a.slot) ==> v'.disk[a.s] == Piece(a.buf, 0)
    ensures DirsOk(AddLayout(g, a)) && HeadsOk(v', AddLayout(g, a))
  {
    forall d | d in AddLayout(g, a).dirs
      ensures DirsOk(AddLayout(g, a)) && DirOk(v', AddLayout(g, a), d)
    {
      if d in g.dirs {
        AddDir(v, v', g, a, d);
      } else {
        AddNewDir(v, v', g, a);
      }
    }
  }

  lemma AddSlotsOk(v: Vol, v': Vol, g: Layout, a: Addition)
    requires AddFits(v, g, a) && AddMatches(v, a) && Added(v, v', g, a) && SlotsOk(v, g) && OwnersOk(v, g)
    requires IsFolder(a.slot) ==> v'.disk[a.s] == Piece(a.buf, 0)
    ensures DirsOk(AddLayout(g, a)) && SlotsOk(v', AddLayout(g, a))
  {
    var g' := AddLayout(g, a);
    forall d, i | d in g'.dirs && 2 <= i < SLOTS
      ensures SlotOk(v', g', d, i)
    {
      if d !in g.dirs {
        AddNewHead(v, v', g, a);
      } else if d == a.p && i == a.i {
        AddNewSlot(v, v', g, a);
      } else {
        AddOldSlot(v, v', g, a, d, i);
      }
    }
  }

  /** Adding a sound entry keeps the invariant. */
  lemma AddKeepsInv(v: Vol, g: Layout, a: Addition)
    requires AddPre(v, g, a)
    ensures Inv(AddVol(v, g, a), AddLayout(g, a))
  {
    var v' := AddVol(v, g, a);
    DirsEnd(v, g);
    AddFrame(v, g, a);
    AddRest(v, g, a);
    AddClusters(v, g, a, a.s);
    AddOwners(v, v', g, a);
    AddHeadsOk(v, v', g, a);
    AddSlotsOk(v, v', g, a);
  }

  // ----- Removing an entry

  /** A sound entry e at r that is a file or an empty folder. */
  ghost predicate Removable(v: Vol, g: Layout, r: Ref, e: Slot)
    requires DirsOk(g)
  {
    && r.dir in g.dirs && 2 <= r.slot < SLOTS && e == Entry(v, r.dir, r.slot) && Used(e)
    && EntryOk(v, g, r, e)
    && (IsFolder(e) ==> Start(e) < MAP_SIZE && forall i :: 2 <= i < SLOTS ==> !Used(Entry(v, Start(e), i)))
  }

  ghost function RemoveVol(v: Vol, r: Ref, e: Slot): Vol
    requires r.dir < MAP_SIZE && r.slot < SLOTS
  {
    RemoveEntry(v, r.dir, r.slot, Start(e), EntryLen(e))
  }

  ghost function RemoveLayout(g: Layout, e: Slot): Layout {
    Layout(if IsFolder(e) then g.dirs - {Start(e) as nat} else g.dirs,
           map c | c in g.owner && !Claims(e, c) :: g.owner[c],
           g.depth)
  }

  /** The removal seen entry by entry and link by link. */
  ghost predicate Removed(v: Vol, v': Vol, g: Layout, r: Ref, e: Slot)
    requires DirsOk(g)
  {
    && (forall d, i :: d in RemoveLayout(g, e).dirs && 0 <= i < SLOTS ==>
          Entry(v', d, i) == if d == r.dir && i == r.slot then Zeros(SLOT_SIZE) else Entry(v, d, i))
    && (forall c :: 0 <= c < MAP_SIZE ==> v'.fat[c] == if Claims(e, c) then EMPTY_ENTRY else v.fat[c])
    && (forall d :: d in RemoveLayout(g, e).dirs ==> !Claims(e, d))
    && r.dir in RemoveLayout(g, e).dirs
  }

  lemma RemoveClusters(v: Vol, r: Ref, e: Slot, c: nat)
    requires ROOT <= r.dir < MAP_SIZE && r.slot < SLOTS && c < MAP_SIZE && c != FAT_CLUSTER
    ensures RemoveVol(v, r, e).disk[c]
         == if c == r.dir then PutSlot(v.disk[c], r.slot, Zeros(SLOT_SIZE))
            else if Claims(e, c) then Zeros(CLUSTER_SIZE) else v.disk[c]
  {
  }

  lemma RemovedDirs(v: Vol, g: Layout, r: Ref, e: Slot, d: nat)
    requires DirsOk(g) && HeadsOk(v, g) && Removable(v, g, r, e) && d in g.dirs
    ensures Claims(e, d) <==> IsFolder(e) && d == Start(e)
    ensures Claims(e, d) ==> d != r.dir
  {
    assert DirOk(v, g, d);
    if Claims(e, d) { ClaimedDir(v, g, r, e, d); }
  }

  lemma RemoveFrame(v: Vol, g: Layout, r: Ref, e: Slot)
    requires DirsOk(g) && HeadsOk(v, g) && Removable(v, g, r, e)
    ensures Removed(v, RemoveVol(v, r, e), g, r, e)
  {
    var v' := RemoveVol(v, r, e);
    forall d | d in RemoveLayout(g, e).dirs
      ensures !Claims(e, d)
    {
      RemovedDirs(v, g, r, e, d);
    }
    RemovedDirs(v, g, r, e, r.dir);
    forall d, i | d in RemoveLayout(g, e).dirs && 0 <= i < SLOTS
      ensures Entry(v', d, i) == if d == r.dir && i == r.slot then Zeros(SLOT_SIZE) else Entry(v, d, i)
    {
      RemoveClusters(v, r, e, d);
      SlotAtPut(v.disk[r.dir], r.slot, Zeros(SLOT_SIZE), i);
    }
  }

  lemma RemoveHead(v: Vol, v': Vol, g: Layout, r: Ref, e: Slot, d: nat)
    requires DirsOk(g) && Removable(v, g, r, e) && Removed(v, v', g, r, e)
    requires d in RemoveLayout(g, e).dirs && HeadOk(v, g, d)
    ensures DirsOk(RemoveLayout(g, e)) && HeadOk(v', RemoveLayout(g, e), d)
  {
    if d != ROOT {
      var q := g.owner[d];
      assert q != r;
      assert ListedOk(v', RemoveLayout(g, e), d);
    }
  }

  lemma RemoveKeys(v: Vol, v': Vol, g: Layout, r: Ref, e: Slot, d: nat)
    requires DirsOk(g) && Removed(v, v', g, r, e) && d in RemoveLayout(g, e).dirs && KeysOk(v, d)
    ensures KeysOk(v', d)
  {
    forall i, j | 1 <= i < j < SLOTS && Used(Entry(v', d, i)) && Used(Entry(v', d, j))
      ensures KeyOf(Entry(v', d, i)) != KeyOf(Entry(v', d, j))
    {
      assert Entry(v', d, i) == if d == r.dir && i == r.slot then Zeros(SLOT_SIZE) else Entry(v, d, i);
      assert Entry(v', d, j) == if d == r.dir && j == r.slot then Zeros(SLOT_SIZE) else Entry(v, d, j);
    }
  }

  lemma RemoveHeadsOk(v: Vol, v': Vol, g: Layout, r: Ref, e: Slot)
    requires DirsOk(g) && HeadsOk(v, g) && Removable(v, g, r, e) && Removed(v, v', g, r, e)
    ensures DirsOk(RemoveLayout(g, e)) && HeadsOk(v', RemoveLayout(g, e))
  {
    var g' := RemoveLayout(g, e);
    forall d | d in g'.dirs
      ensures DirsOk(g') && DirOk(v', g', d)
    {
      assert DirOk(v, g, d);
      RemoveHead(v, v', g, r, e, d);
      RemoveKeys(v, v', g, r, e, d);
    }
  }

  lemma RemoveOldSlot(v: Vol, v': Vol, g: Layout, r: Ref, e: Slot, d: nat, i: nat)
    requires DirsOk(g) && EntryOk(v, g, r, e) && Removed(v, v', g, r, e)
    requires d in RemoveLayout(g, e).dirs && 2 <= i < SLOTS && SlotOk(v, g, d, i) && !(d == r.dir && i == r.slot)
    ensures SlotOk(v', RemoveLayout(g, e), d, i)
  {
    var s, g' := Entry(v, d, i), RemoveLayout(g, e);
    assert Entry(v', d, i) == s;
    if Used(s) {
      forall c | Claims(s, c)
        ensures c in g'.owner && g'.owner[c] == Ref(d, i) && v'.fat[c] == v.fat[c]
      {
        assert c in g.owner && g.owner[c] == Ref(d, i) != r;
      }
      if IsFolder(s) { assert Claims(s, Start(s)); }
      if IsFolder(e) { assert Claims(e, Start(e)); }
      EntryKept(v, v', g, g', Ref(d, i), s);
    }
  }

  lemma RemoveSlotsOk(v: Vol, v': Vol, g: Layout, r: Ref, e: Slot)
    requires DirsOk(g) && SlotsOk(v, g) && EntryOk(v, g, r, e) && Removed(v, v', g, r, e)
    requires DirsOk(RemoveLayout(g, e))
    ensures SlotsOk(v', RemoveLayout(g, e))
  {
    var g' := RemoveLayout(g, e);
    forall d, i | d in g'.dirs && 2 <= i < SLOTS
      ensures SlotOk(v', g', d, i)
    {
      if d == r.dir && i == r.slot {
        assert Entry(v', d, i) == Zeros(SLOT_SIZE);
      } else {
        RemoveOldSlot(v, v', g, r, e, d, i);
      }
    }
  }

  lemma RemoveOwner(v: Vol, v': Vol, g: Layout, r: Ref, e: Slot, c: nat)
    requires DirsOk(g) && Removable(v, g, r, e) && Removed(v, v', g, r, e) && OwnersOk(v, g)
    requires DirsOk(RemoveLayout(g, e)) && c in RemoveLayout(g, e).owner
    ensures FIRST_DATA <= c < MAP_SIZE && OwnerOk(v', RemoveLayout(g, e), c)
  {
    assert OwnerOk(v, g, c) && g.owner[c] != r;
  }

  lemma RemoveOwners(v: Vol, v': Vol, g: Layout, r: Ref, e: Slot)
    requires DirsOk(g) && Removable(v, g, r, e) && Removed(v, v', g, r, e) && OwnersOk(v, g)
    requires DirsOk(RemoveLayout(g, e))
    ensures OwnersOk(v', RemoveLayout(g, e))
  {
    var g' := RemoveLayout(g, e);
    forall c | c in g'.owner
      ensures FIRST_DATA <= c < MAP_SIZE && OwnerOk(v', g', c)
    {
      RemoveOwner(v, v', g, r, e, c);
    }
    forall c | FIRST_DATA <= c < MAP_SIZE
      ensures c in g'.owner <==> v'.fat[c] != EMPTY_ENTRY
    {
      assert c in g'.owner <==> c in g.owner && !Claims(e, c);
    }
  }

  lemma RemoveRest(v: Vol, g: Layout, r: Ref, e: Slot)
    requires DirsOk(g) && HeadsOk(v, g) && Removable(v, g, r, e) && Reserved(v) && EmptiesZero(v)
    ensures Reserved(RemoveVol(v, r, e)) && EmptiesZero(RemoveVol(v, r, e))
  {
    var v' := RemoveVol(v, r, e);
    RemoveClusters(v, r, e, 0);
    RemovedDirs(v, g, r, e, r.dir);
    DirsEnd(v, g);
    forall c | FIRST_DATA <= c < MAP_SIZE && v'.fat[c] == EMPTY_ENTRY
      ensures v'.disk[c] == Zeros(CLUSTER_SIZE)
    {
      RemoveClusters(v, r, e, c);
    }
  }

  /** Removing a file or an empty folder keeps the invariant: the emptiness guard never cuts off a
      subtree. */
  lemma RemoveKeepsInv(v: Vol, g: Layout, r: Ref, e: Slot)
    requires Inv(v, g) && Removable(v, g, r, e)
    ensures Inv(RemoveVol(v, r, e), RemoveLayout(g, e))
  {
    var v' := RemoveVol(v, r, e);
    RemoveFrame(v, g, r, e);
    RemoveRest(v, g, r, e);
    RemoveHeadsOk(v, v', g, r, e);
    RemoveSlotsOk(v, v', g, r, e);
    RemoveOwners(v, v', g, r, e);
  }
}
