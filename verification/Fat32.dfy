/** The driver of src/filesystem/fat32.c: the loops and in-place updates, each proved to compute
    the function of the same name in module Volume. */
module Fat32 {
  import opened Memory
  import opened DirEntry
  import opened Disk
  import opened Volume

  lemma FieldInSlot(t: Cluster, i: nat, s: Slot, at: nat, b: Bytes)
    requires i < SLOTS && at + |b| <= SLOT_SIZE
    ensures Overwrite(PutSlot(t, i, s), SLOT_SIZE * i + at, b) == PutSlot(t, i, Overwrite(s, at, b))
  {
  }

  lemma SlotByte(t: Cluster, i: nat, at: nat)
    requires i < SLOTS && at < SLOT_SIZE
    ensures t[SLOT_SIZE * i + at] == SlotAt(t, i)[at]
  {
  }

  lemma ReadStep(s: Bytes, disk: seq<Cluster>, start: nat, k: nat)
    requires start + k < |disk| && CLUSTER_SIZE * (k + 1) <= |s|
    ensures Overwrite(Overwrite(s, 0, GetData(disk, start, k)), CLUSTER_SIZE * k, disk[start + k])
         == Overwrite(s, 0, GetData(disk, start, k + 1))
  {
    OverwriteMore(s, 0, GetData(disk, start, k), disk[start + k]);
  }

  /** One member of table entry i assigned or copied over; `t` and `s` are the table before the
      entry was touched and the entry as written so far. */
  method PutField(table: array<byte>, i: nat, at: nat, b: Bytes, ghost t: Cluster, ghost s: Slot)
    requires table.Length == CLUSTER_SIZE && i < SLOTS && at + |b| <= SLOT_SIZE
    requires table[..] == PutSlot(t, i, s)
    modifies table
    ensures table[..] == PutSlot(t, i, Overwrite(s, at, b))
  {
    FieldInSlot(t, i, s, at, b);
    assert b[..|b|] == b;
    MemCpy(table, SLOT_SIZE * i + at, b, |b|);
  }

  /** The pair of memcmps every lookup runs on entry i. */
  method Matches(table: array<byte>, i: nat, req: Request) returns (b: bool)
    requires table.Length == CLUSTER_SIZE && i < SLOTS
    ensures b <==> KeyOf(SlotAt(table[..], i)) == KeyReq(req)
  {
    var entry := table[SLOT_SIZE * i..SLOT_SIZE * i + SLOT_SIZE];
    assert entry == SlotAt(table[..], i);
    assert req.name[..8] == req.name && entry[..8][..8] == Name(entry);
    assert req.ext[..3] == req.ext && entry[8..11][..3] == Ext(entry);
    var c := MemCmp(req.name, entry[..8], 8);
    b := c == 0;
    if b {
      c := MemCmp(req.ext, entry[8..11], 3);
      b := c == 0;
    }
  }

  /** The clusters create_fat32 writes, in its order, make up Volume.Format. */
  lemma FormatSteps(v: Vol, root: Cluster)
    ensures Insertable(ROOT_STRING, EMPTY_STRING)
    ensures WipeData(v.disk, 0, MAP_SIZE)
            [0 := Overwrite(Zeros(CLUSTER_SIZE), 0, Signature())]
            [FAT_CLUSTER := EncodeFat(FormatFat())]
            [ROOT := FolderTable(root, ROOT_STRING, ROOT, ROOT)]
         == Format(v, root).disk
  {
    DotDotInsertable();
  }

  /** Storing the new folder before its parent or after it makes no difference. */
  lemma StoreFolderOrder(disk: seq<Cluster>, p: nat, parent: Cluster, c: nat, table: Cluster)
    requires p < |disk| && c < |disk| && p != c
    ensures disk[c := table][p := parent] == PutData(disk[p := parent], c, 1, table)
  {
    assert Piece(table, 0) == table;
  }

  lemma SetOne(fat: Fat, c: nat)
    requires c < MAP_SIZE
    ensures fat[c := END_OF_FILE] == SetChain(fat, c, 1)
  {
  }

  class Fat32Driver {
    const width: Width                // of insert_directory's cluster_number
    const disk: BlockDevice
    const fat: array<u32>             // fat32_driver_state.fat_table.cluster_map
    const dirTableBuf: array<byte>    // fat32_driver_state.dir_table_buf

    ghost predicate Valid() {
      && disk.Valid()
      && fat.Length == MAP_SIZE
      && dirTableBuf.Length == CLUSTER_SIZE
      && dirTableBuf != disk.image
      && fat as object != disk.image && fat as object != dirTableBuf
    }

    /** The driver's state as module Volume sees it. */
    ghost function View(): Vol
      requires Valid()
      reads fat, disk.image
    {
      RawVol(disk.Clusters(), fat[..])
    }

    /** A transfer buffer that is not the driver's own memory. */
    ghost predicate Outside(buf: array<byte>) {
      buf != disk.image && buf != dirTableBuf && buf as object != fat
    }

    constructor (width: Width, image: array<byte>)
      requires image.Length == IMAGE_SIZE
      ensures Valid() && this.width == width && disk.image == image && fresh(fat) && fresh(dirTableBuf)
    {
      this.width := width;
      disk := new BlockDevice(image);
      fat := new u32[MAP_SIZE](_ => 0);
      dirTableBuf := new byte[CLUSTER_SIZE](_ => 0);
    }

    method InsertDirectory(table: array<byte>, i: nat, name: Bytes, ext: Bytes, attribute: byte,
                           userAttribute: byte, clusterNumber: u32, filesize: u32)
      requires table.Length == CLUSTER_SIZE && i < SLOTS && Insertable(name, ext)
      modifies table
      ensures table[..] == PutSlot(old(table[..]), i,
                                   InsertSlot(SlotAt(old(table[..]), i), name, ext, attribute, userAttribute,
                                              Narrow(width, clusterNumber), filesize))
    {
      var cluster := Narrow(width, clusterNumber);
      ghost var t := table[..];
      ghost var s := SlotAt(t, i);
      assert t == PutSlot(t, i, s);
      PutField(table, i, 0, Zeros(8), t, s);
      s := Overwrite(s, 0, Zeros(8));
      PutField(table, i, 8, Zeros(8), t, s);
      s := Overwrite(s, 8, Zeros(8));

      var nameLen := StrLen(name);
      PutField(table, i, 0, name[..nameLen], t, s);
      s := Overwrite(s, 0, CStr(name));
      var extLen := StrLen(ext);
      PutField(table, i, 8, ext[..extLen], t, s);
      s := Overwrite(s, 8, CStr(ext));
      assert s == PutStrings(SlotAt(t, i), name, ext);

      PutNumberFields(table, i, attribute, userAttribute, cluster, filesize, t, s);
    }

    static method PutNumberFields(table: array<byte>, i: nat, attribute: byte, userAttribute: byte,
                                  cluster: u32, filesize: u32, ghost t: Cluster, ghost s0: Slot)
      requires table.Length == CLUSTER_SIZE && i < SLOTS
      requires table[..] == PutSlot(t, i, s0)
      modifies table
      ensures table[..] == PutSlot(t, i, PutNumbers(s0, attribute, userAttribute, cluster, filesize))
    {
      ghost var s := s0;
      PutField(table, i, 11, [attribute], t, s);
      assert Overwrite(s, 11, [attribute]) == s[11 := attribute];
      s := s[11 := attribute];
      PutField(table, i, 12, [userAttribute], t, s);
      assert Overwrite(s, 12, [userAttribute]) == s[12 := userAttribute];
      s := s[12 := userAttribute];
      PutField(table, i, 20, ToLe16(cluster / 0x1_0000), t, s);
      s := Overwrite(s, 20, ToLe16(cluster / 0x1_0000));
      PutField(table, i, 26, ToLe16(cluster % 0x1_0000), t, s);
      s := Overwrite(s, 26, ToLe16(cluster % 0x1_0000));
      PutField(table, i, 28, ToLe32(filesize), t, s);
    }

    method IsEmptyStorage() returns (b: bool)
      requires Valid()
      ensures b == Volume.IsEmptyStorage(View())
    {
      var bootSector := LoadTable(0);
      assert Signature()[..BLOCK_SIZE] == Signature();
      var c := MemCmp(bootSector[..], Signature(), BLOCK_SIZE);
      b := c != 0;
    }

    method EraseClusters()
      requires Valid()
      modifies disk.image
      ensures disk.Clusters() == WipeData(old(disk.Clusters()), 0, MAP_SIZE)
    {
      ghost var was := disk.Clusters();
      var emptyCluster := Zeros(CLUSTER_SIZE);
      assert emptyCluster[..CLUSTER_SIZE] == emptyCluster;
      for i := 0 to MAP_SIZE
        invariant disk.Clusters() == WipeData(was, 0, i)
      {
        disk.WriteCluster(emptyCluster, i);
      }
    }

    method ResetFat()
      requires Valid()
      modifies fat
      ensures fat[..] == FormatFat()
    {
      fat[0] := CLUSTER_0_VALUE;
      fat[1] := CLUSTER_1_VALUE;
      fat[2] := END_OF_FILE;
      for i := 3 to MAP_SIZE
        invariant forall k :: 0 <= k < i ==> fat[k] == FormatFat()[k]
      {
        fat[i] := EMPTY_ENTRY;
      }
    }

    /** write_clusters of the cached FAT. */
    method StoreFat()
      requires Valid()
      modifies disk.image
      ensures disk.Clusters() == old(disk.Clusters())[FAT_CLUSTER := EncodeFat(fat[..])]
    {
      var table := EncodeFat(fat[..]);
      assert table[..CLUSTER_SIZE] == table;
      disk.WriteCluster(table, FAT_CLUSTER);
    }

    /** write_clusters of a directory table. */
    method StoreTable(table: array<byte>, n: nat)
      requires Valid() && table.Length == CLUSTER_SIZE && table != disk.image && n < IMAGE_CLUSTERS
      modifies disk.image
      ensures disk.Clusters() == old(disk.Clusters())[n := table[..]]
    {
      var bytes := table[..];
      assert bytes[..CLUSTER_SIZE] == bytes;
      disk.WriteCluster(bytes, n);
    }

    /** `root` is what the uninitialised local directory table holds on entry. */
    method CreateFat32(root: array<byte>)
      requires Valid() && root.Length == CLUSTER_SIZE && Outside(root)
      modifies fat, disk.image, root
      ensures View() == Format(old(View()), old(root[..]))
    {
      EraseClusters();
      ResetFat();
      disk.WriteBootBlock(Signature());
      StoreFat();
      DotDotInsertable();
      MakeFolderTable(root, ROOT_STRING, ROOT, ROOT);
      StoreTable(root, ROOT);
      FormatSteps(old(View()), old(root[..]));
    }

    /** The two insert_directory calls that start every new table. */
    method MakeFolderTable(table: array<byte>, name: Bytes, self: u32, parent: u32)
      requires table.Length == CLUSTER_SIZE && Insertable(name, EMPTY_STRING)
      modifies table
      ensures table[..] == FolderTable(old(table[..]), name, Narrow(width, self), Narrow(width, parent))
    {
      DotDotInsertable();
      InsertDirectory(table, 0, name, EMPTY_STRING, ATTR_SUBDIRECTORY, UATTR_NOT_EMPTY, self, 0);
      InsertDirectory(table, 1, DOTDOT_STRING, EMPTY_STRING, ATTR_SUBDIRECTORY, UATTR_NOT_EMPTY, parent, 0);
    }

    method InitializeFilesystem(root: array<byte>)
      requires Valid() && root.Length == CLUSTER_SIZE && Outside(root)
      modifies fat, disk.image, root
      ensures View() == Mount(old(View()), old(root[..]))
    {
      var empty := IsEmptyStorage();
      if empty {
        CreateFat32(root);
      } else {
        LoadFat();
      }
    }

    /** read_clusters into the cached FAT. */
    method LoadFat()
      requires Valid()
      modifies fat
      ensures View() == old(View()).(fat := DecodeFat(old(View()).disk[FAT_CLUSTER]))
    {
      var table := LoadTable(FAT_CLUSTER);
      var cluster := table[..];
      ghost var decoded := DecodeFat(cluster);
      for i := 0 to MAP_SIZE
        invariant forall k :: 0 <= k < i ==> fat[k] == decoded[k]
      {
        fat[i] := Le32(cluster[4 * i..4 * i + 4]);
      }
      assert fat[..] == decoded;
    }

    /** read_clusters of one cluster into a local table. */
    method LoadTable(n: nat) returns (table: array<byte>)
      requires Valid() && n < IMAGE_CLUSTERS
      ensures fresh(table) && table.Length == CLUSTER_SIZE && table[..] == View().disk[n]
    {
      table := new byte[CLUSTER_SIZE](_ => 0);
      disk.ReadCluster(table, 0, n);
      assert table[..] == View().disk[n];
    }

    method FolderNotEmpty(cluster: nat) returns (b: bool)
      requires Valid() && cluster < IMAGE_CLUSTERS
      ensures b == Volume.FolderNotEmpty(View().disk[cluster])
    {
      var table := LoadTable(cluster);
      var folder: Cluster := table[..];
      for i := 2 to SLOTS
        invariant forall k :: 2 <= k < i ==> !Used(SlotAt(folder, k))
      {
        SlotByte(folder, i, 12);
        if folder[SLOT_SIZE * i + 12] == UATTR_NOT_EMPTY {
          return true;
        }
      }
      return false;
    }

    method IsValidParentCluster(cluster: u32) returns (b: bool)
      requires Valid()
      ensures b == ValidParent(View(), cluster)
    {
      if cluster >= MAP_SIZE || cluster < ROOT {
        return false;
      }
      if fat[cluster] != END_OF_FILE {
        return false;
      }
      var testFolder := LoadTable(cluster);
      SlotByte(testFolder[..], 0, 11);
      SlotByte(testFolder[..], 1, 11);
      return testFolder[11] == ATTR_SUBDIRECTORY && testFolder[SLOT_SIZE + 11] == ATTR_SUBDIRECTORY;
    }

    /** The skip-ahead search finds exactly the smallest start of a large enough hole. */
    method FindFirstFit(clustersNeeded: nat) returns (start: int)
      requires Valid() && clustersNeeded >= 1
      ensures start == FirstFit(fat[..], clustersNeeded, FIRST_DATA)
    {
      var n := clustersNeeded;
      var startIdx := FIRST_DATA;
      while startIdx < MAP_SIZE
        invariant FIRST_DATA <= startIdx <= MAP_SIZE
        invariant forall k: nat :: FIRST_DATA <= k < startIdx ==> !AllEmpty(fat[..], k, n)
      {
        ghost var from := startIdx;
        while startIdx < MAP_SIZE && fat[startIdx] != EMPTY_ENTRY
          invariant from <= startIdx <= MAP_SIZE
          invariant forall k: nat :: FIRST_DATA <= k < startIdx ==> !AllEmpty(fat[..], k, n)
        {
          assert fat[..][startIdx] != EMPTY_ENTRY;
          startIdx := startIdx + 1;
        }
        if startIdx >= MAP_SIZE {
          return -1;
        }

        var emptyCount := 0;
        var searchIdx := startIdx;
        while searchIdx < MAP_SIZE && fat[searchIdx] == EMPTY_ENTRY
          invariant startIdx <= searchIdx <= MAP_SIZE && emptyCount == searchIdx - startIdx
          invariant forall k :: startIdx <= k < searchIdx ==> fat[k] == EMPTY_ENTRY
        {
          emptyCount := emptyCount + 1;
          searchIdx := searchIdx + 1;
        }
        if emptyCount >= n {
          assert AllEmpty(fat[..], startIdx, n);
          return startIdx;
        } else {
          assert searchIdx < MAP_SIZE ==> fat[..][searchIdx] != EMPTY_ENTRY;
          startIdx := searchIdx;
        }
      }
      return -1;
    }

    /** The search loops of write and delete, from slot `from`. */
    method FindEntry(table: array<byte>, req: Request, from: nat) returns (i: nat)
      requires table.Length == CLUSTER_SIZE && from <= SLOTS
      ensures i == FirstMatch(table[..], KeyReq(req), from)
    {
      i := from;
      while i < SLOTS
        invariant from <= i <= SLOTS
        invariant FirstMatch(table[..], KeyReq(req), from) == FirstMatch(table[..], KeyReq(req), i)
      {
        var same := Matches(table, i, req);
        if same {
          return;
        }
        i := i + 1;
      }
    }

    /** The unbounded search for a slot whose user attribute is not UATTR_NOT_EMPTY. */
    method FindUnused(table: array<byte>) returns (i: nat)
      requires table.Length == CLUSTER_SIZE && FirstUnused(table[..], 2) < SLOTS
      ensures i == FirstUnused(table[..], 2)
    {
      i := 2;
      SlotByte(table[..], i, 12);
      while table[SLOT_SIZE * i + 12] == UATTR_NOT_EMPTY
        invariant 2 <= i < SLOTS
        invariant FirstUnused(table[..], 2) == FirstUnused(table[..], i)
        invariant table[SLOT_SIZE * i + 12] == UserAttribute(SlotAt(table[..], i))
        decreases SLOTS - i
      {
        i := i + 1;
        SlotByte(table[..], i, 12);
      }
    }

    method Write(req: Request, buf: Bytes) returns (r: int)
      requires Valid() && WriteSafe(View(), req, buf)
      modifies fat, disk.image
      ensures (View(), r) == Volume.Write(width, old(View()), req, buf)
    {
      var valid := IsValidParentCluster(req.parent);
      if !valid {
        return 2;
      }
      var parentFolder := LoadTable(req.parent);
      var i := FindEntry(parentFolder, req, 1);
      if i < SLOTS {
        return 1;
      }
      if req.size == 0 {
        WriteNewFolder(req, parentFolder);
        return 0;
      } else {
        var clustersNeeded := ClustersFor(req.size);
        var clusterIdx := FindFirstFit(clustersNeeded);
        if clusterIdx > 0 {
          WriteNewFile(req, buf, parentFolder, clusterIdx);
          return 0;
        } else {
          return -1;
        }
      }
    }

    /** The table of a new folder. */
    method NewFolder(name: Bytes, self: u32, parent: u32) returns (table: array<byte>)
      requires Insertable(name, EMPTY_STRING)
      ensures fresh(table) && table.Length == CLUSTER_SIZE
      ensures table[..] == FolderTable(Zeros(CLUSTER_SIZE), name, Narrow(width, self), Narrow(width, parent))
    {
      table := new byte[CLUSTER_SIZE](_ => 0);
      assert table[..] == Zeros(CLUSTER_SIZE);
      MakeFolderTable(table, name, self, parent);
    }

    method WriteNewFolder(req: Request, parentFolder: array<byte>)
      requires Valid() && ValidParent(View(), req.parent)
      requires parentFolder.Length == CLUSTER_SIZE && Outside(parentFolder)
      requires parentFolder[..] == View().disk[req.parent]
      requires FirstEmpty(View().fat, FIRST_DATA) < MAP_SIZE && FirstUnused(parentFolder[..], 2) < SLOTS
      modifies fat, disk.image, parentFolder
      ensures View() == WriteFolder(width, old(View()), req)
    {
      ghost var v := View();
      RequestInsertable(req);
      var targetCluster := FindEmpty();
      var newFolder := NewFolder(NameMem(req), targetCluster, req.parent);
      var i := FindUnused(parentFolder);
      InsertDirectory(parentFolder, i, NameMem(req), EMPTY_STRING, ATTR_SUBDIRECTORY, UATTR_NOT_EMPTY,
                      targetCluster, 0);
      fat[targetCluster] := END_OF_FILE;
      StoreFolder(newFolder, targetCluster, parentFolder, req.parent);
      SetOne(v.fat, targetCluster);
    }

    /** The three write_clusters calls for a new folder. */
    method StoreFolder(newFolder: array<byte>, c: nat, parentFolder: array<byte>, p: nat)
      requires Valid() && ROOT <= p < MAP_SIZE && FIRST_DATA <= c < MAP_SIZE && p != c
      requires newFolder.Length == parentFolder.Length == CLUSTER_SIZE
      requires Outside(newFolder) && Outside(parentFolder)
      modifies disk.image
      ensures disk.Clusters() == PutData(old(disk.Clusters())[p := parentFolder[..]], c, 1, newFolder[..])
                                 [FAT_CLUSTER := EncodeFat(fat[..])]
    {
      ghost var was := disk.Clusters();
      StoreTable(newFolder, c);
      StoreTable(parentFolder, p);
      StoreFolderOrder(was, p, parentFolder[..], c, newFolder[..]);
      StoreFat();
    }

    /** The unbounded search for an empty cluster. */
    method FindEmpty() returns (c: nat)
      requires Valid() && FirstEmpty(View().fat, FIRST_DATA) < MAP_SIZE
      ensures c == FirstEmpty(View().fat, FIRST_DATA)
    {
      c := FIRST_DATA;
      while fat[c] != EMPTY_ENTRY
        invariant FIRST_DATA <= c < MAP_SIZE
        invariant FirstEmpty(fat[..], FIRST_DATA) == FirstEmpty(fat[..], c)
        decreases MAP_SIZE - c
      {
        c := c + 1;
      }
    }

    method WriteNewFile(req: Request, buf: Bytes, parentFolder: array<byte>, clusterIdx: nat)
      requires Valid() && ValidParent(View(), req.parent) && req.size > 0
      requires parentFolder.Length == CLUSTER_SIZE && Outside(parentFolder)
      requires parentFolder[..] == View().disk[req.parent]
      requires AllEmpty(View().fat, clusterIdx, ClustersFor(req.size))
      requires FirstUnused(parentFolder[..], 2) < SLOTS && CLUSTER_SIZE * ClustersFor(req.size) <= |buf|
      modifies fat, disk.image, parentFolder
      ensures View() == WriteFile(width, old(View()), req, buf, clusterIdx)
    {
      ghost var v := View();
      RequestInsertable(req);
      var clustersNeeded := ClustersFor(req.size);
      var i := FindUnused(parentFolder);
      InsertDirectory(parentFolder, i, NameMem(req), ExtMem(req), 0, UATTR_NOT_EMPTY, clusterIdx, req.size);
      StoreTable(parentFolder, req.parent);
      StoreData(buf, clusterIdx, clustersNeeded);
      StoreFat();
    }

    /** The loop that links and fills the clusters of a new file. */
    method StoreData(buf: Bytes, s: nat, n: nat)
      requires Valid() && 1 <= n && s + n <= MAP_SIZE && CLUSTER_SIZE * n <= |buf|
      modifies fat, disk.image
      ensures View() == RawVol(PutData(old(View()).disk, s, n, buf), SetChain(old(View()).fat, s, n))
    {
      ghost var v := View();
      for i := s to s + n
        invariant disk.Clusters() == PutData(v.disk, s, i - s, buf)
        invariant forall k :: 0 <= k < MAP_SIZE ==> fat[k] == if s <= k < i then SetChain(v.fat, s, n)[k] else v.fat[k]
      {
        if i != s + n - 1 {
          fat[i] := i + 1;
        } else {
          fat[i] := END_OF_FILE;
        }
        var piece := Piece(buf, i - s);
        assert piece[..CLUSTER_SIZE] == piece;
        disk.WriteCluster(piece, i);
      }
      assert fat[..] == SetChain(v.fat, s, n);
    }

    method Delete(req: Request) returns (r: int)
      requires Valid() && DeleteSafe(View(), req)
      modifies fat, disk.image
      ensures (View(), r) == Volume.Delete(old(View()), req)
    {
      var valid := IsValidParentCluster(req.parent);
      if !valid {
        return -1;
      }
      var parentFolder := LoadTable(req.parent);
      var i := FindEntry(parentFolder, req, 0);
      if i == SLOTS {
        return 1;
      }
      r := DeleteAt(req, parentFolder, i);
    }

    /** What delete does with the entry it found. */
    method DeleteAt(req: Request, parentFolder: array<byte>, i: nat) returns (r: int)
      requires Valid() && DeleteSafe(View(), req) && Finds(View(), req)
      requires parentFolder.Length == CLUSTER_SIZE && Outside(parentFolder)
      requires parentFolder[..] == View().disk[req.parent]
      requires i == FirstMatch(parentFolder[..], KeyReq(req), 0)
      modifies fat, disk.image, parentFolder
      ensures (View(), r) == Volume.Delete(old(View()), req)
    {
      var j := EntryStart(parentFolder, i);
      SlotByte(parentFolder[..], i, 11);
      if parentFolder[SLOT_SIZE * i + 11] == ATTR_SUBDIRECTORY {
        var full := FolderNotEmpty(j);
        if full {
          return 2;
        }
      }
      ClearEntry(req.parent, parentFolder, i, j);
      return 0;
    }

    /** Free the chain at j, clear entry i of the folder at p, store both tables. */
    method ClearEntry(p: nat, parentFolder: array<byte>, i: nat, j: nat)
      requires Valid() && p < MAP_SIZE && i < SLOTS && ChainLen(View().fat, j) > 0
      requires parentFolder.Length == CLUSTER_SIZE && Outside(parentFolder)
      requires parentFolder[..] == View().disk[p]
      modifies fat, disk.image, parentFolder
      ensures View() == RemoveEntry(old(View()), p, i, j, ChainLen(old(View()).fat, j))
    {
      ghost var v := View();
      FreeChain(j);
      MemSet(parentFolder, SLOT_SIZE * i, 0, SLOT_SIZE);
      assert parentFolder[..] == PutSlot(v.disk[p], i, Zeros(SLOT_SIZE)) by {
        assert seq(SLOT_SIZE, _ => 0) == Zeros(SLOT_SIZE);
      }
      StoreFat();
      StoreTable(parentFolder, p);
    }

    /** `cluster_low | cluster_high << 16` of entry i. */
    method EntryStart(table: array<byte>, i: nat) returns (j: u32)
      requires table.Length == CLUSTER_SIZE && i < SLOTS
      ensures j == Start(SlotAt(table[..], i))
    {
      var at := SLOT_SIZE * i;
      var low := Le16(table[at + 26], table[at + 27]);
      var high := Le16(table[at + 20], table[at + 21]);
      return low + 0x1_0000 * high;
    }

    /** One round of delete's do-while loop: wipe the k-th cluster of the chain and its link. */
    method FreeNext(j: nat, ghost start: nat, ghost n: nat, ghost k: nat, ghost v: Vol) returns (next: u32)
      requires Valid() && Chain(v.fat, start, n) && k < n && j == start + k
      requires View() == RawVol(WipeData(v.disk, start, k), ClearChain(v.fat, start, k))
      modifies fat, disk.image
      ensures View() == RawVol(WipeData(v.disk, start, k + 1), ClearChain(v.fat, start, k + 1))
      ensures next == if k == n - 1 then END_OF_FILE else j + 1
    {
      var emptyCluster := Zeros(CLUSTER_SIZE);
      assert emptyCluster[..CLUSTER_SIZE] == emptyCluster;
      disk.WriteCluster(emptyCluster, j);
      next := fat[j];
      fat[j] := EMPTY_ENTRY;
      assert fat[..] == ClearChain(v.fat, start, k + 1);
    }

    /** The do-while loop of delete. */
    method FreeChain(start: nat)
      requires Valid() && ChainLen(View().fat, start) > 0
      modifies fat, disk.image
      ensures var n := ChainLen(old(View()).fat, start);
              View() == RawVol(WipeData(old(View()).disk, start, n), ClearChain(old(View()).fat, start, n))
    {
      ghost var v := View();
      ghost var n, k := ChainLen(v.fat, start), 0;
      assert WipeData(v.disk, start, 0) == v.disk && ClearChain(v.fat, start, 0) == v.fat;
      var j := start;
      while true
        invariant 0 <= k < n && j == start + k
        invariant View() == RawVol(WipeData(v.disk, start, k), ClearChain(v.fat, start, k))
        decreases n - k
      {
        j := FreeNext(j, start, n, k, v);
        k := k + 1;
        if j == END_OF_FILE {
          assert k == n;
          break;
        }
      }
    }

    /** The start of read and read_directory: the parent check and the search in `dir_table_buf`. */
    method Locate(req: Request) returns (valid: bool, i: nat)
      requires Valid()
      modifies dirTableBuf
      ensures valid == ValidParent(View(), req.parent)
      ensures valid ==> dirTableBuf[..] == View().disk[req.parent]
                        && i == FirstMatch(View().disk[req.parent], KeyReq(req), 0)
    {
      valid := IsValidParentCluster(req.parent);
      i := SLOTS;
      if valid {
        disk.ReadCluster(dirTableBuf, 0, req.parent);
        assert dirTableBuf[..] == View().disk[req.parent];
        i := FindEntry(dirTableBuf, req, 0);
      }
    }

    method Read(req: Request, buf: array<byte>) returns (r: int)
      requires Valid() && Outside(buf) && ReadSafe(View(), req)
      requires |Volume.Read(View(), req).0| <= buf.Length
      modifies dirTableBuf, buf
      ensures r == Volume.Read(View(), req).1
      ensures buf[..] == Overwrite(old(buf[..]), 0, Volume.Read(View(), req).0)
      ensures r != 0 ==> buf[..] == old(buf[..])
    {
      var valid, i := Locate(req);
      if !valid {
        return -1;
      }
      if i == SLOTS {
        return 3;
      }
      r := ReadAt(req, buf, i);
    }

    /** What read does with the entry it found. */
    method ReadAt(req: Request, buf: array<byte>, i: nat) returns (r: int)
      requires Valid() && Outside(buf) && ReadSafe(View(), req) && Finds(View(), req)
      requires dirTableBuf[..] == View().disk[req.parent]
      requires i == FirstMatch(dirTableBuf[..], KeyReq(req), 0)
      requires |Volume.Read(View(), req).0| <= buf.Length
      modifies buf
      ensures r == Volume.Read(View(), req).1
      ensures buf[..] == Overwrite(old(buf[..]), 0, Volume.Read(View(), req).0)
    {
      var table: Cluster := dirTableBuf[..];
      var entry := SlotAt(table, i);
      if Attribute(entry) == ATTR_SUBDIRECTORY {
        return 1;
      }
      if req.size < FileSize(entry) {
        return 2;
      }
      var j := EntryStart(dirTableBuf, i);
      ReadChain(j, buf);
      return 0;
    }

    /** One round of read's do-while loop: copy the k-th cluster of the chain, follow its link. */
    method ReadNext(j: nat, k: nat, buf: array<byte>, ghost start: nat, ghost n: nat, ghost was: Bytes)
        returns (next: u32)
      requires Valid() && Outside(buf) && buf.Length == |was|
      requires Chain(View().fat, start, n) && k < n && j == start + k && CLUSTER_SIZE * n <= buf.Length
      requires buf[..] == Overwrite(was, 0, GetData(View().disk, start, k))
      modifies buf
      ensures buf[..] == Overwrite(was, 0, GetData(View().disk, start, k + 1))
      ensures next == if k == n - 1 then END_OF_FILE else j + 1
    {
      ReadStep(was, View().disk, start, k);
      disk.ReadCluster(buf, CLUSTER_SIZE * k, j);
      next := fat[j];
    }

    /** The do-while loop of read. */
    method ReadChain(start: nat, buf: array<byte>)
      requires Valid() && Outside(buf) && ChainLen(View().fat, start) > 0
      requires CLUSTER_SIZE * ChainLen(View().fat, start) <= buf.Length
      modifies buf
      ensures buf[..] == Overwrite(old(buf[..]), 0, GetData(View().disk, start, ChainLen(View().fat, start)))
    {
      ghost var was := buf[..];
      ghost var n := ChainLen(View().fat, start);
      var j, k := start, 0;
      while true
        invariant 0 <= k < n && j == start + k
        invariant buf[..] == Overwrite(was, 0, GetData(View().disk, start, k))
        decreases n - k
      {
        j := ReadNext(j, k, buf, start, n, was);
        k := k + 1;
        if j == END_OF_FILE {
          assert k == n;
          break;
        }
      }
    }

    method ReadDirectory(req: Request, buf: array<byte>) returns (r: int)
      requires Valid() && Outside(buf) && ReadDirectorySafe(View(), req)
      requires |Volume.ReadDirectory(View(), req).0| <= buf.Length
      modifies dirTableBuf, buf
      ensures r == Volume.ReadDirectory(View(), req).1
      ensures buf[..] == Overwrite(old(buf[..]), 0, Volume.ReadDirectory(View(), req).0)
      ensures r != 0 ==> buf[..] == old(buf[..])
    {
      var valid, i := Locate(req);
      if !valid {
        return -1;
      }
      if i == SLOTS {
        return 2;
      }
      var table: Cluster := dirTableBuf[..];
      if Attribute(SlotAt(table, i)) == ATTR_SUBDIRECTORY {
        var j := EntryStart(dirTableBuf, i);
        disk.ReadClusters(buf, 0, j, ClustersFor(req.size) % 0x100);
        return 0;
      } else {
        return 1;
      }
    }
  }
}
