/** The driver's operations on sound volumes: they are safe, they keep the invariant, and exactly
    when they do. */
module Operations {
  import opened Memory
  import opened DirEntry
  import opened Disk
  import opened Volume
  import opened Invariant

  const ZERO_KEY := Key(Zeros(8), Zeros(3))

  /** A parent cluster that is either a directory or fails the driver's own check. */
  ghost predicate ParentOk(v: Vol, g: Layout, p: u32) { ValidParent(v, p) ==> p in g.dirs }

  /** Some layout explains the volume. */
  ghost predicate Sound(v: Vol) { exists g :: Inv(v, g) }

  // ----- Format and mount

  const ROOT_LAYOUT := Layout({ROOT}, map[], map[ROOT := 0])

  /** The name member that a C string of at most 8 characters is stored as. */
  predicate StoredAs(mem: Bytes, name: Bytes) {
    && Terminated(mem) && CLen(mem) <= 8 && |name| == 8
    && forall k :: 0 <= k < 8 ==> name[k] == if k < CLen(mem) then mem[k] else 0
  }

  lemma FolderSlotFields(s: Slot, mem: Bytes, name: Bytes, cluster: u32)
    requires StoredAs(mem, name)
    ensures Insertable(mem, EMPTY_STRING)
    ensures var r := FolderSlot(s, mem, cluster);
            Used(r) && IsFolder(r) && Start(r) == cluster && FileSize(r) == 0 && KeyOf(r) == Key(name, NO_EXT)
  {
    DotDotInsertable();
    InsertSlotFields(s, mem, EMPTY_STRING, ATTR_SUBDIRECTORY, UATTR_NOT_EMPTY, cluster, 0);
    var r := FolderSlot(s, mem, cluster);
    assert Name(r) == name && Ext(r) == NO_EXT;
  }

  lemma LiteralNames()
    ensures StoredAs(DOTDOT_STRING, DOTDOT) && StoredAs(ROOT_STRING, ROOT_NAME)
  {
    DotDotInsertable();
  }

  lemma FolderTableSlots(t: Cluster, name: Bytes, self: u32, parent: u32, i: nat)
    requires Insertable(name, EMPTY_STRING) && i < SLOTS
    ensures Insertable(DOTDOT_STRING, EMPTY_STRING)
    ensures SlotAt(FolderTable(t, name, self, parent), i)
         == if i == 0 then FolderSlot(SlotAt(t, 0), name, self)
            else if i == 1 then FolderSlot(SlotAt(t, 1), DOTDOT_STRING, parent)
            else SlotAt(t, i)
  {
    DotDotInsertable();
    var s0 := FolderSlot(SlotAt(t, 0), name, self);
    var t1 := PutSlot(t, 0, s0);
    SlotAtPut(t, 0, s0, 1);
    SlotAtPut(t, 0, s0, i);
    SlotAtPut(t1, 1, FolderSlot(SlotAt(t1, 1), DOTDOT_STRING, parent), i);
  }

  /** The first two slots of a new table name the folder and its parent. */
  lemma FolderTableHead(t: Cluster, mem: Bytes, name: Bytes, self: u32, parent: u32)
    requires StoredAs(mem, name)
    ensures Insertable(mem, EMPTY_STRING)
    ensures var r := FolderTable(t, mem, self, parent);
            SelfAndParent(SlotAt(r, 0), SlotAt(r, 1), name, self, parent)
  {
    LiteralNames();
    FolderSlotFields(SlotAt(t, 0), mem, name, self);
    FolderSlotFields(SlotAt(t, 1), DOTDOT_STRING, DOTDOT, parent);
    FolderTableSlots(t, mem, self, parent, 0);
    FolderTableSlots(t, mem, self, parent, 1);
  }

  /** The root directory of a freshly formatted volume. */
  ghost predicate RootTableOf(t: Cluster, root: Cluster) {
    && SelfAndParent(SlotAt(t, 0), SlotAt(t, 1), ROOT_NAME, ROOT, ROOT)
    && forall i :: 2 <= i < SLOTS ==> SlotAt(t, i) == SlotAt(root, i)
  }

  lemma RootTable(root: Cluster, t: Cluster)
    requires Insertable(ROOT_STRING, EMPTY_STRING) && t == FolderTable(root, ROOT_STRING, ROOT, ROOT)
    ensures RootTableOf(t, root)
  {
    LiteralNames();
    FolderTableHead(root, ROOT_STRING, ROOT_NAME, ROOT, ROOT);
    forall i | 2 <= i < SLOTS
      ensures SlotAt(t, i) == SlotAt(root, i)
    {
      FolderTableSlots(root, ROOT_STRING, ROOT, ROOT, i);
    }
  }

  lemma FormatReserved(v: Vol, root: Cluster)
    ensures Reserved(Format(v, root)) && EmptiesZero(Format(v, root))
  {
    assert Format(v, root).disk[0][..BLOCK_SIZE] == Signature();
  }

  lemma FormatRoot(v: Vol, root: Cluster)
    ensures Insertable(ROOT_STRING, EMPTY_STRING)
    ensures Format(v, root).disk[ROOT] == FolderTable(root, ROOT_STRING, ROOT, ROOT)
    ensures Format(v, root).fat == FormatFat()
  {
    DotDotInsertable();
  }

  /** The local table create_fat32 starts from holds no stray bytes beyond its first two slots. */
  predicate CleanStack(root: Cluster) {
    forall i :: 2 <= i < SLOTS ==> SlotAt(root, i) == Zeros(SLOT_SIZE)
  }

  lemma FormattedSound(f: Vol, root: Cluster)
    requires f.fat == FormatFat() && RootTableOf(f.disk[ROOT], root)
    requires Reserved(f) && EmptiesZero(f) && CleanStack(root)
    ensures Inv(f, ROOT_LAYOUT)
  {
    assert forall i :: 2 <= i < SLOTS ==> Entry(f, ROOT, i) == Zeros(SLOT_SIZE) && !Used(Entry(f, ROOT, i));
    assert Name(Entry(f, ROOT, 0)) == KeyOf(Entry(f, ROOT, 0)).name;
    assert DirOk(f, ROOT_LAYOUT, ROOT);
  }

  lemma FormattedClean(f: Vol, root: Cluster, g: Layout)
    requires f.fat == FormatFat() && RootTableOf(f.disk[ROOT], root) && DirsOk(g) && SlotsOk(f, g)
    ensures CleanStack(root)
  {
    forall i | 2 <= i < SLOTS
      ensures SlotAt(root, i) == Zeros(SLOT_SIZE)
    {
      assert SlotOk(f, g, ROOT, i);
    }
  }

  /** Formatting any disk gives a sound volume exactly when the uninitialised table was clean. */
  lemma FormatSoundIff(v: Vol, root: Cluster)
    ensures CleanStack(root) ==> Inv(Format(v, root), ROOT_LAYOUT)
    ensures Sound(Format(v, root)) <==> CleanStack(root)
  {
    var f := Format(v, root);
    FormatRoot(v, root);
    RootTable(root, f.disk[ROOT]);
    FormatReserved(v, root);
    if CleanStack(root) {
      FormattedSound(f, root);
      assert Sound(f);
    }
    if Sound(f) {
      var g :| Inv(f, g);
      FormattedClean(f, root, g);
    }
  }

  /** initialize_filesystem_fat32 on a disk whose first block is not the signature: whatever disk and cache
      held, the volume is sound afterwards exactly when the uninitialised table was clean, and then it has
      nothing but the root. */
  lemma FirstBootIff(v: Vol, root: Cluster)
    requires v.disk[0][..BLOCK_SIZE] != Signature()
    ensures CleanStack(root) ==> Inv(Mount(v, root), ROOT_LAYOUT)
    ensures Sound(Mount(v, root)) <==> CleanStack(root)
  {
    FormatSoundIff(v, root);
  }

  /** It leaves the signature and zeros in cluster 0, zeros in the data area, and what lies behind the clusters
      of the FAT as it was. */
  lemma FirstBootClears(v: Vol, root: Cluster, c: nat)
    requires v.disk[0][..BLOCK_SIZE] != Signature() && c < IMAGE_CLUSTERS
    ensures var f := Mount(v, root);
            && f.disk[0] == Signature() + Zeros(CLUSTER_SIZE - BLOCK_SIZE)
            && (FIRST_DATA <= c < MAP_SIZE ==> f.disk[c] == Zeros(CLUSTER_SIZE))
            && (MAP_SIZE <= c ==> f.disk[c] == v.disk[c])
  {
    var f := Format(v, root);
    FormatCluster(v, root, 0, f.disk[0]);
    FormatCluster(v, root, c, f.disk[c]);
  }

  lemma FormatCluster(v: Vol, root: Cluster, c: nat, after: Cluster)
    requires c < IMAGE_CLUSTERS && after == FormatAt(v, root, c)
    ensures c == 0 ==> after == Signature() + Zeros(CLUSTER_SIZE - BLOCK_SIZE)
    ensures FIRST_DATA <= c < MAP_SIZE ==> after == Zeros(CLUSTER_SIZE)
    ensures MAP_SIZE <= c ==> after == v.disk[c]
  {
  }

  /** initialize_filesystem_fat32 on a sound volume never reformats and restores the cached FAT
      whatever the cache held, so remounting changes nothing. */
  lemma RemountIsIdentity(v: Vol, g: Layout, cache: Fat, root: Cluster)
    requires Inv(v, g)
    ensures Mount(v.(fat := cache), root) == v
    ensures Mount(v, root) == v
  {
    FatRoundTrip(v.fat);
  }

  // ----- write

  /** What write asks of its caller on a sound volume. */
  ghost predicate WriteOk(v: Vol, g: Layout, req: Request, buf: Bytes) {
    ParentOk(v, g, req.parent) && ProperKey(req) && WriteSafe(v, req, buf)
  }

  /** The first cluster a write allocates. */
  function Target(v: Vol, req: Request): int {
    if req.size == 0 then FirstEmpty(v.fat, FIRST_DATA)
    else FirstFit(v.fat, ClustersFor(req.size), FIRST_DATA)
  }

  /** write gets as far as storing an entry. */
  predicate Stores(v: Vol, req: Request) {
    WriteReaches(v, req) && Target(v, req) > 0
  }

  /** The cluster numbers that write stores survive insert_directory's parameter width. */
  predicate NumbersFit(w: Width, v: Vol, req: Request) {
    w == W32 || (0 <= Target(v, req) < 0x100 && (req.size == 0 ==> req.parent < 0x100))
  }

  ghost function WriteAddition(w: Width, v: Vol, req: Request, buf: Bytes): Addition
    requires WriteSafe(v, req, buf) && Stores(v, req)
  {
    RequestInsertable(req);
    var s := Target(v, req);
    var i := FirstUnused(v.disk[req.parent], 2);
    var old_ := SlotAt(v.disk[req.parent], i);
    if req.size == 0 then
      Addition(req.parent, i, FolderSlot(old_, NameMem(req), Narrow(w, s)), s, 1,
               FolderTable(Zeros(CLUSTER_SIZE), NameMem(req), Narrow(w, s), Narrow(w, req.parent)))
    else
      Addition(req.parent, i, FileSlot(old_, req, Narrow(w, s)), s, ClustersFor(req.size), buf)
  }

  /** Where a write puts its entry and its chain. */
  ghost predicate Places(v: Vol, req: Request, a: Addition)
    requires Stores(v, req)
  {
    && a.p == req.parent && a.i == FirstUnused(v.disk[req.parent], 2) < SLOTS
    && a.s == Target(v, req) && a.n == (if req.size == 0 then 1 else ClustersFor(req.size))
    && a.s + a.n <= MAP_SIZE && CLUSTER_SIZE * a.n <= |a.buf|
  }

  lemma WritePlaces(w: Width, v: Vol, req: Request, buf: Bytes)
    requires WriteSafe(v, req, buf) && Stores(v, req)
    ensures Places(v, req, WriteAddition(w, v, req, buf))
  {
  }

  lemma PlacesFits(v: Vol, g: Layout, req: Request, a: Addition)
    requires DirsOk(g) && HeadsOk(v, g) && req.parent in g.dirs && Stores(v, req) && Places(v, req, a)
    ensures AddFits(v, g, a)
  {
    assert DirOk(v, g, req.parent);
  }

  lemma WriteFits(w: Width, v: Vol, g: Layout, req: Request, buf: Bytes)
    requires Inv(v, g) && WriteOk(v, g, req, buf) && Stores(v, req)
    ensures AddFits(v, g, WriteAddition(w, v, req, buf))
  {
    WritePlaces(w, v, req, buf);
    PlacesFits(v, g, req, WriteAddition(w, v, req, buf));
  }

  lemma WriteAdds(w: Width, v: Vol, g: Layout, req: Request, buf: Bytes)
    requires WriteSafe(v, req, buf) && Stores(v, req) && AddFits(v, g, WriteAddition(w, v, req, buf))
    ensures Write(w, v, req, buf) == (AddVol(v, g, WriteAddition(w, v, req, buf)), 0)
  {
  }

  /** The slot carries the requested key and size, and the stored cluster number. */
  ghost predicate Describes(req: Request, cluster: int, slot: Slot) {
    && Used(slot) && KeyOf(slot) == KeyReq(req) && Start(slot) == cluster
    && (IsFolder(slot) <==> req.size == 0) && FileSize(slot) == req.size
  }

  lemma FolderDescribed(req: Request, s: Slot, cluster: u32)
    requires ProperKey(req) && req.size == 0 && req.parent < MAP_SIZE
    ensures Insertable(NameMem(req), EMPTY_STRING)
    ensures Describes(req, cluster, FolderSlot(s, NameMem(req), cluster))
  {
    FolderNameStored(req);
    FolderSlotFields(s, NameMem(req), req.name, cluster);
  }

  lemma FileDescribed(req: Request, s: Slot, cluster: u32)
    requires ProperKey(req) && req.size > 0 && req.parent < MAP_SIZE
    ensures Describes(req, cluster, FileSlot(s, req, cluster))
  {
    StoredKey(s, req, 0, cluster, req.size);
    InsertSlotFields(s, NameMem(req), ExtMem(req), 0, UATTR_NOT_EMPTY, cluster, req.size);
  }

  lemma WriteDescribes(w: Width, v: Vol, req: Request, buf: Bytes)
    requires ProperKey(req) && WriteSafe(v, req, buf) && Stores(v, req)
    ensures Describes(req, Narrow(w, Target(v, req)), WriteAddition(w, v, req, buf).slot)
  {
    var old_ := SlotAt(v.disk[req.parent], FirstUnused(v.disk[req.parent], 2));
    if req.size == 0 {
      FolderDescribed(req, old_, Narrow(w, Target(v, req)));
    } else {
      FileDescribed(req, old_, Narrow(w, Target(v, req)));
    }
  }

  lemma FolderNameStored(req: Request)
    requires ProperKey(req) && req.size == 0 && req.parent < MAP_SIZE
    ensures StoredAs(NameMem(req), req.name)
  {
    RequestInsertable(req);
    var mem := NameMem(req);
    assert mem[8] == 0;
    PaddedPrefix(req.name, mem);
  }

  lemma NewTable(req: Request, self: u32, parent: u32, t: Cluster)
    requires ProperKey(req) && req.size == 0 && req.parent < MAP_SIZE
    requires Insertable(NameMem(req), EMPTY_STRING) && t == FolderTable(Zeros(CLUSTER_SIZE), NameMem(req), self, parent)
    ensures FreshTable(t, req.name, self, parent)
  {
    FolderNameStored(req);
    FolderTableHead(Zeros(CLUSTER_SIZE), NameMem(req), req.name, self, parent);
    forall i | 2 <= i < SLOTS
      ensures SlotAt(t, i) == Zeros(SLOT_SIZE)
    {
      FolderTableSlots(Zeros(CLUSTER_SIZE), NameMem(req), self, parent, i);
      ZeroTableSlot(i);
    }
  }

  lemma FolderBuf(w: Width, v: Vol, req: Request, buf: Bytes)
    requires WriteSafe(v, req, buf) && Stores(v, req) && req.size == 0
    ensures Insertable(NameMem(req), EMPTY_STRING)
    ensures WriteAddition(w, v, req, buf).buf
         == FolderTable(Zeros(CLUSTER_SIZE), NameMem(req), Narrow(w, Target(v, req)), Narrow(w, req.parent))
  {
    RequestInsertable(req);
  }

  lemma WriteTable(w: Width, v: Vol, req: Request, buf: Bytes)
    requires ProperKey(req) && WriteSafe(v, req, buf) && Stores(v, req) && req.size == 0
    ensures var b := WriteAddition(w, v, req, buf).buf;
            CLUSTER_SIZE <= |b| && FreshTable(Piece(b, 0), req.name, Narrow(w, Target(v, req)), Narrow(w, req.parent))
  {
    FolderBuf(w, v, req, buf);
    PieceTable(req, Narrow(w, Target(v, req)), Narrow(w, req.parent), WriteAddition(w, v, req, buf).buf);
  }

  lemma PieceTable(req: Request, self: u32, parent: u32, b: Bytes)
    requires ProperKey(req) && req.size == 0 && req.parent < MAP_SIZE
    requires Insertable(NameMem(req), EMPTY_STRING) && b == FolderTable(Zeros(CLUSTER_SIZE), NameMem(req), self, parent)
    ensures CLUSTER_SIZE <= |b| && FreshTable(Piece(b, 0), req.name, self, parent)
  {
    assert Piece(b, 0) == b;
    NewTable(req, self, parent, b);
  }

  /** With fitting numbers the addition is a sound one. */
  lemma DescribesMatches(v: Vol, req: Request, a: Addition)
    requires WriteReaches(v, req) && Stores(v, req) && Places(v, req, a) && Describes(req, a.s, a.slot)
    requires req.size == 0 ==> Padded(req.name) && req.ext == NO_EXT && FreshTable(Piece(a.buf, 0), req.name, a.s, a.p)
    ensures AddMatches(v, a)
  {
    assert KeyOf(a.slot) == Key(Name(a.slot), Ext(a.slot));
  }

  lemma WriteMatches(w: Width, v: Vol, req: Request, buf: Bytes)
    requires ProperKey(req) && WriteSafe(v, req, buf) && Stores(v, req) && NumbersFit(w, v, req)
    ensures var a := WriteAddition(w, v, req, buf);
            a.p < MAP_SIZE && 1 <= a.n && CLUSTER_SIZE * a.n <= |a.buf| && AddMatches(v, a)
  {
    WritePlaces(w, v, req, buf);
    WriteDescribes(w, v, req, buf);
    if req.size == 0 { WriteTable(w, v, req, buf); }
    DescribesMatches(v, req, WriteAddition(w, v, req, buf));
  }

  /** The layout after a write. */
  ghost function WriteLayout(w: Width, v: Vol, g: Layout, req: Request, buf: Bytes): Layout
    requires WriteSafe(v, req, buf)
  {
    if Stores(v, req) && req.parent in g.depth then AddLayout(g, WriteAddition(w, v, req, buf)) else g
  }

  /** write keeps the invariant whenever the cluster numbers it stores fit their parameter. */
  lemma WriteKeepsInv(w: Width, v: Vol, g: Layout, req: Request, buf: Bytes)
    requires Inv(v, g) && WriteOk(v, g, req, buf) && (Stores(v, req) ==> NumbersFit(w, v, req))
    ensures Inv(Write(w, v, req, buf).0, WriteLayout(w, v, g, req, buf))
    ensures Write(w, v, req, buf).1 == 0 <==> Stores(v, req)
    ensures !Stores(v, req) ==> Write(w, v, req, buf).0 == v
  {
    if Stores(v, req) {
      WriteFits(w, v, g, req, buf);
      WriteMatches(w, v, req, buf);
      WriteAdds(w, v, g, req, buf);
      AddKeepsInv(v, g, WriteAddition(w, v, req, buf));
    }
  }

  /** A write of a file that gets past its checks fails exactly when nowhere in the data area are as
      many neighbouring clusters empty as it needs. */
  lemma NoRoomIff(w: Width, v: Vol, req: Request, buf: Bytes)
    requires WriteSafe(v, req, buf) && WriteReaches(v, req) && req.size > 0
    ensures Write(w, v, req, buf).1 == -1 <==>
              forall k: nat :: FIRST_DATA <= k ==> !AllEmpty(v.fat, k, ClustersFor(req.size))
  {
    var n := ClustersFor(req.size);
    var s := FirstFit(v.fat, n, FIRST_DATA);
    if s > 0 {
      assert AllEmpty(v.fat, s, n);
    }
  }

  // ----- Lookups, delete and read

  /** What delete and read ask of their caller on a sound volume: the first slot that matches is used. An
      unused slot matches the all-zero key. */
  ghost predicate LookupOk(v: Vol, g: Layout, req: Request) {
    ParentOk(v, g, req.parent) && (Finds(v, req) ==> Used(Found(v, req)))
  }

  /** The slot a lookup picks. */
  function Hit(v: Vol, req: Request): (i: nat)
    requires Finds(v, req)
    ensures i < SLOTS && Found(v, req) == SlotAt(v.disk[req.parent], i) && KeyOf(Found(v, req)) == KeyReq(req)
  {
    FirstMatch(v.disk[req.parent], KeyReq(req), 0)
  }

  lemma HeadEntry(v: Vol, g: Layout, d: nat, i: nat)
    requires DirsOk(g) && HeadsOk(v, g) && d in g.dirs && i < 2
    ensures IsFolder(Entry(v, d, i)) && Start(Entry(v, d, i)) == (if i == 0 then d else ParentOf(g, d))
    ensures ParentOf(g, d) in g.dirs && v.fat[d] == END_OF_FILE && v.fat[ParentOf(g, d)] == END_OF_FILE
    ensures Used(Entry(v, d, i))
  {
    assert DirOk(v, g, d);
    assert DirOk(v, g, ParentOf(g, d));
  }

  lemma ZeroSlotKey()
    ensures KeyOf(Zeros(SLOT_SIZE)) == ZERO_KEY
  {
    assert Name(Zeros(SLOT_SIZE)) == ZERO_KEY.name && Ext(Zeros(SLOT_SIZE)) == ZERO_KEY.ext;
  }

  /** A lookup that picks slot 2 or later has found a sound entry. */
  lemma HitEntry(v: Vol, g: Layout, req: Request)
    requires DirsOk(g) && SlotsOk(v, g) && LookupOk(v, g, req) && Finds(v, req) && Hit(v, req) >= 2
    ensures var r := Ref(req.parent, Hit(v, req));
            && req.parent in g.dirs && Used(Found(v, req)) && EntryOk(v, g, r, Found(v, req))
            && ChainLen(v.fat, Start(Found(v, req))) == EntryLen(Found(v, req)) > 0
  {
    var e := Found(v, req);
    assert SlotOk(v, g, req.parent, Hit(v, req));
    ChainLenOfChain(v.fat, Start(e), EntryLen(e));
  }

  /** A key that is not all zero matches used slots only. */
  lemma NamedLookupOk(v: Vol, g: Layout, req: Request)
    requires DirsOk(g) && HeadsOk(v, g) && SlotsOk(v, g) && ParentOk(v, g, req.parent) && KeyReq(req) != ZERO_KEY
    ensures LookupOk(v, g, req)
  {
    if Finds(v, req) {
      var i := Hit(v, req);
      ZeroSlotKey();
      if i < 2 {
        HeadEntry(v, g, req.parent, i);
      } else {
        assert SlotOk(v, g, req.parent, i);
      }
    }
  }

  /** Every found entry starts a well-formed chain, so the do-while loops of read and delete end. */
  lemma LookupsAreSafe(v: Vol, g: Layout, req: Request)
    requires Inv(v, g) && LookupOk(v, g, req)
    ensures DeleteSafe(v, req) && ReadSafe(v, req) && ReadDirectorySafe(v, req)
  {
    if Finds(v, req) {
      var i := Hit(v, req);
      if i < 2 {
        HeadEntry(v, g, req.parent, i);
        ChainLenOfChain(v.fat, Start(Found(v, req)), 1);
      } else {
        HitEntry(v, g, req);
      }
    }
  }

  /** An unused slot starts no chain: its cluster number is 0, and the FAT entry of cluster 0 is reserved. */
  lemma UnusedIsUnsafe(v: Vol, g: Layout, req: Request)
    requires DirsOk(g) && Reserved(v) && HeadsOk(v, g) && SlotsOk(v, g) && ParentOk(v, g, req.parent)
    requires Finds(v, req) && !Used(Found(v, req))
    ensures !DeleteSafe(v, req) && !ReadSafe(v, req) && ReadDirectorySafe(v, req) && ReadDirectory(v, req).1 == 1
  {
    var i := Hit(v, req);
    if i < 2 {
      HeadEntry(v, g, req.parent, i);
    }
    assert i >= 2 ==> SlotOk(v, g, req.parent, i);
    ZeroSlotFields();
  }

  lemma ZeroSlotFields()
    ensures Start(Zeros(SLOT_SIZE)) == 0 && FileSize(Zeros(SLOT_SIZE)) == 0 && !IsFolder(Zeros(SLOT_SIZE))
  {
    var z := Zeros(SLOT_SIZE);
    assert [0, 0][1..] == [0] && [0][1..] == [];
    assert LittleEndian([0]) == 0 && LittleEndian([0, 0]) == 0;
    assert z[28..32] == [0, 0, 0, 0];
  }

  /** delete and read follow a chain inside the disk if and only if the first slot that matches is used. */
  lemma LookupSafeIff(v: Vol, g: Layout, req: Request)
    requires Inv(v, g) && ParentOk(v, g, req.parent)
    ensures DeleteSafe(v, req) <==> (Finds(v, req) ==> Used(Found(v, req)))
    ensures ReadSafe(v, req) <==> (Finds(v, req) ==> Used(Found(v, req)))
    ensures ReadDirectorySafe(v, req)
  {
    if Finds(v, req) && !Used(Found(v, req)) {
      UnusedIsUnsafe(v, g, req);
    } else {
      LookupsAreSafe(v, g, req);
    }
  }

  lemma ClustersForMonotone(a: u32, b: u32)
    requires a <= b
    ensures ClustersFor(a) <= ClustersFor(b)
  {
  }

  /** What a successful read found. */
  lemma ReadEntry(v: Vol, g: Layout, req: Request)
    requires Inv(v, g) && LookupOk(v, g, req) && ReadSafe(v, req) && Read(v, req).1 == 0
    ensures Finds(v, req) && Hit(v, req) >= 2 && !IsFolder(Found(v, req)) && FileSize(Found(v, req)) <= req.size
    ensures Start(Found(v, req)) + EntryLen(Found(v, req)) <= MAP_SIZE
    ensures Read(v, req).0 == GetData(v.disk, Start(Found(v, req)), EntryLen(Found(v, req)))
  {
    if Hit(v, req) < 2 { HeadEntry(v, g, req.parent, Hit(v, req)); }
    HitEntry(v, g, req);
  }

  /** The bytes read copies are the whole clusters of the file, so a buffer rounded up to whole
      clusters is large enough. */
  lemma ReadFitsRoundedBuffer(v: Vol, g: Layout, req: Request)
    requires Inv(v, g) && LookupOk(v, g, req) && ReadSafe(v, req)
    ensures |Read(v, req).0| <= CLUSTER_SIZE * ClustersFor(req.size)
  {
    if Read(v, req).1 == 0 {
      ReadEntry(v, g, req);
      ClustersForMonotone(FileSize(Found(v, req)), req.size);
    }
  }

  /** delete would erase the directory it runs in, or the root through its "..". */
  predicate DeletesSelf(v: Vol, req: Request) {
    && Finds(v, req) && Hit(v, req) < 2
    && Start(Found(v, req)) < IMAGE_CLUSTERS && !FolderNotEmpty(v.disk[Start(Found(v, req))])
  }

  predicate Erases(v: Vol, req: Request)
    requires DeleteSafe(v, req)
  {
    Finds(v, req) && !(IsFolder(Found(v, req)) && FolderNotEmpty(v.disk[Start(Found(v, req))]))
  }

  ghost function DeleteLayout(v: Vol, g: Layout, req: Request): Layout
    requires DeleteSafe(v, req)
  {
    if Erases(v, req) then RemoveLayout(g, Found(v, req)) else g
  }

  /** A deleted entry is a sound one, and the volume loses just that entry. */
  lemma DeleteRemoves(v: Vol, g: Layout, req: Request)
    requires Inv(v, g) && LookupOk(v, g, req) && DeleteSafe(v, req) && Erases(v, req) && !DeletesSelf(v, req)
    ensures var r, e := Ref(req.parent, Hit(v, req)), Found(v, req);
            Removable(v, g, r, e) && Delete(v, req) == (RemoveVol(v, r, e), 0)
  {
    if Hit(v, req) < 2 { HeadEntry(v, g, req.parent, Hit(v, req)); }
    HitEntry(v, g, req);
  }

  /** delete keeps the invariant unless it erases a directory's own head. */
  lemma DeleteKeepsInv(v: Vol, g: Layout, req: Request)
    requires Inv(v, g) && LookupOk(v, g, req) && !DeletesSelf(v, req)
    ensures DeleteSafe(v, req)
    ensures Inv(Delete(v, req).0, DeleteLayout(v, g, req))
    ensures Delete(v, req).1 == 0 <==> Erases(v, req)
    ensures !Erases(v, req) ==> Delete(v, req).0 == v
  {
    LookupsAreSafe(v, g, req);
    if Erases(v, req) {
      DeleteRemoves(v, g, req);
      RemoveKeepsInv(v, g, Ref(req.parent, Hit(v, req)), Found(v, req));
    }
  }
}
