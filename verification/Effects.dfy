/** What one call of the driver leaves behind on any disk, sound or not: what a write stores, what a delete
    clears, and everything else as before. */
module Effects {
  import opened Memory
  import opened DirEntry
  import opened Disk
  import opened Volume
  import opened Operations
  import opened Refinement

  /** A stored number is the given one, with the 8-bit parameter its lowest byte. */
  predicate Keeps(w: Width, stored: nat, number: nat) {
    if w.W8? then stored < 0x100 && (number - stored) % 0x100 == 0 else stored == number
  }

  /** The attribute bytes and the size of an entry. */
  predicate IsMarked(s: Slot, folder: bool, size: u32) {
    UserAttribute(s) == 0xAA && Attribute(s) == (if folder then 0x10 else 0) && FileSize(s) == size
  }

  lemma NarrowKeeps(w: Width, number: u32)
    ensures Keeps(w, Narrow(w, number), number)
  {
  }

  /** The clusters that a write takes: one for a folder. */
  function Needs(req: Request): nat {
    if req.size == 0 then 1 else ClustersFor(req.size)
  }

  /** Where a write stores: a free slot, and empty clusters that are not the parent's. */
  lemma StoresWhere(v: Vol, req: Request, buf: Bytes)
    requires WriteSafe(v, req, buf) && Stores(v, req)
    ensures ROOT <= req.parent < MAP_SIZE && FirstUnused(v.disk[req.parent], 2) < SLOTS
    ensures FIRST_DATA <= Target(v, req) && AllEmpty(v.fat, Target(v, req), Needs(req)) && Needs(req) >= 1
    ensures !(Target(v, req) <= req.parent < Target(v, req) + Needs(req))
  {
    assert v.fat[req.parent] == END_OF_FILE;
  }

  /** v' is v with an entry in slot i of p and data in the clusters from s. */
  ghost predicate Holds(v: Vol, v': Vol, p: nat, i: nat, slot: Slot, s: nat, n: nat, data: Bytes) {
    && p < MAP_SIZE && i < SLOTS && 1 <= n && FIRST_DATA <= s && s + n <= MAP_SIZE && CLUSTER_SIZE * n <= |data|
    && SlotAt(v'.disk[p], i) == slot
    && (forall k :: 0 <= k < SLOTS && k != i ==> SlotAt(v'.disk[p], k) == SlotAt(v.disk[p], k))
    && (forall c :: s <= c < s + n ==> v'.disk[c] == Piece(data, c - s))
    && (forall c :: 0 <= c < IMAGE_CLUSTERS && c != FAT_CLUSTER && c != p && !(s <= c < s + n) ==>
          v'.disk[c] == v.disk[c])
    && v'.disk[FAT_CLUSTER] == EncodeFat(v'.fat) && Chain(v'.fat, s, n)
    && (forall c :: 0 <= c < MAP_SIZE && !(s <= c < s + n) ==> v'.fat[c] == v.fat[c])
  }

  lemma AddEntryHolds(v: Vol, v': Vol, p: nat, i: nat, slot: Slot, s: nat, n: nat, data: Bytes)
    requires ROOT <= p < MAP_SIZE && i < SLOTS && 1 <= n && FIRST_DATA <= s && s + n <= MAP_SIZE
    requires CLUSTER_SIZE * n <= |data| && !(s <= p < s + n) && v' == AddEntry(v, p, i, slot, s, n, data)
    ensures Holds(v, v', p, i, slot, s, n, data)
  {
    SlotsHold(v.disk[p], v'.disk[p], i, slot);
    ChainHolds(v.fat, v'.fat, s, n);
    DataAdded(v, v', p, i, slot, s, n, data);
  }

  lemma SlotsHold(t: Cluster, t': Cluster, i: nat, slot: Slot)
    requires i < SLOTS && t' == PutSlot(t, i, slot)
    ensures SlotAt(t', i) == slot && forall k :: 0 <= k < SLOTS && k != i ==> SlotAt(t', k) == SlotAt(t, k)
  {
    forall k | 0 <= k < SLOTS
      ensures SlotAt(t', k) == if k == i then slot else SlotAt(t, k)
    {
      SlotAtPut(t, i, slot, k);
    }
  }

  lemma ChainHolds(fat: Fat, fat': Fat, s: nat, n: nat)
    requires 1 <= n && s + n <= MAP_SIZE && fat' == SetChain(fat, s, n)
    ensures Chain(fat', s, n) && forall c :: 0 <= c < MAP_SIZE && !(s <= c < s + n) ==> fat'[c] == fat[c]
  {
  }

  lemma DataAdded(v: Vol, v': Vol, p: nat, i: nat, slot: Slot, s: nat, n: nat, data: Bytes)
    requires ROOT <= p < MAP_SIZE && i < SLOTS && 1 <= n && FIRST_DATA <= s && s + n <= MAP_SIZE
    requires CLUSTER_SIZE * n <= |data| && !(s <= p < s + n) && v' == AddEntry(v, p, i, slot, s, n, data)
    ensures forall c :: s <= c < s + n ==> v'.disk[c] == Piece(data, c - s)
    ensures forall c :: 0 <= c < IMAGE_CLUSTERS && c != FAT_CLUSTER && c != p && !(s <= c < s + n) ==>
              v'.disk[c] == v.disk[c]
  {
  }

  lemma WhatIsFilled(w: Width, v: Vol, req: Request, buf: Bytes) returns (slot: Slot, data: Bytes)
    requires WriteSafe(v, req, buf) && Stores(v, req)
    ensures Target(v, req) >= 0 && ROOT <= req.parent < MAP_SIZE
    ensures Holds(v, Write(w, v, req, buf).0, req.parent, FirstUnused(v.disk[req.parent], 2), slot, Target(v, req),
                  Needs(req), data)
    ensures Keeps(w, Start(slot), Target(v, req)) && IsMarked(slot, req.size == 0, req.size)
    ensures req.size > 0 ==> data == buf
    ensures req.size == 0 ==>
              Insertable(NameMem(req), EMPTY_STRING)
              && data == FolderTable(Zeros(CLUSTER_SIZE), NameMem(req), Narrow(w, Target(v, req)),
                                     Narrow(w, req.parent))
  {
    StoresWhere(v, req, buf);
    RequestInsertable(req);
    DotDotInsertable();
    var t := Target(v, req);
    var was := SlotAt(v.disk[req.parent], FirstUnused(v.disk[req.parent], 2));
    NarrowKeeps(w, t);
    if req.size == 0 {
      slot := FolderSlot(was, NameMem(req), Narrow(w, t));
      data := FolderTable(Zeros(CLUSTER_SIZE), NameMem(req), Narrow(w, t), Narrow(w, req.parent));
      InsertSlotFields(was, NameMem(req), EMPTY_STRING, ATTR_SUBDIRECTORY, UATTR_NOT_EMPTY, Narrow(w, t), 0);
    } else {
      slot, data := FileSlot(was, req, Narrow(w, t)), buf;
      InsertSlotFields(was, NameMem(req), ExtMem(req), 0, UATTR_NOT_EMPTY, Narrow(w, t), req.size);
    }
    AddEntryHolds(v, Write(w, v, req, buf).0, req.parent, FirstUnused(v.disk[req.parent], 2), slot, t, Needs(req),
                  data);
  }

  /** The marks and the cluster numbers that a write stores, in the parent's table and in the two head slots of a
      new folder: the numbers of the allocated cluster and of the parent, or only their lowest bytes. */
  lemma StoredNumbers(w: Width, v: Vol, req: Request, buf: Bytes)
    requires WriteSafe(v, req, buf) && Stores(v, req)
    ensures var v', i, t := Write(w, v, req, buf).0, FirstUnused(v.disk[req.parent], 2), Target(v, req);
            && i < SLOTS && FIRST_DATA <= t < MAP_SIZE
            && Keeps(w, Start(SlotAt(v'.disk[req.parent], i)), t)
            && IsMarked(SlotAt(v'.disk[req.parent], i), req.size == 0, req.size)
            && (req.size == 0 ==>
                  Keeps(w, Start(SlotAt(v'.disk[t], 0)), t) && Keeps(w, Start(SlotAt(v'.disk[t], 1)), req.parent)
                  && IsMarked(SlotAt(v'.disk[t], 0), true, 0) && IsMarked(SlotAt(v'.disk[t], 1), true, 0))
  {
    StoresWhere(v, req, buf);
    var slot, data := WhatIsFilled(w, v, req, buf);
    var i, v' := FirstUnused(v.disk[req.parent], 2), Write(w, v, req, buf).0;
    if req.size == 0 {
      HeadsHold(w, v, v', req, i, slot, Target(v, req), data);
    }
  }

  lemma HeadsHold(w: Width, v: Vol, v': Vol, req: Request, i: nat, slot: Slot, t: nat, data: Bytes)
    requires Insertable(NameMem(req), EMPTY_STRING) && Holds(v, v', req.parent, i, slot, t, 1, data)
    requires data == FolderTable(Zeros(CLUSTER_SIZE), NameMem(req), Narrow(w, t), Narrow(w, req.parent))
    ensures Keeps(w, Start(SlotAt(v'.disk[t], 0)), t) && Keeps(w, Start(SlotAt(v'.disk[t], 1)), req.parent)
    ensures IsMarked(SlotAt(v'.disk[t], 0), true, 0) && IsMarked(SlotAt(v'.disk[t], 1), true, 0)
  {
    assert v'.disk[t] == Piece(data, 0) == data;
    HeadNumbers(w, req, t, data);
  }

  lemma HeadNumbers(w: Width, req: Request, self: nat, t: Cluster)
    requires Insertable(NameMem(req), EMPTY_STRING) && self < MAP_SIZE
    requires t == FolderTable(Zeros(CLUSTER_SIZE), NameMem(req), Narrow(w, self), Narrow(w, req.parent))
    ensures Keeps(w, Start(SlotAt(t, 0)), self) && Keeps(w, Start(SlotAt(t, 1)), req.parent)
    ensures IsMarked(SlotAt(t, 0), true, 0) && IsMarked(SlotAt(t, 1), true, 0)
  {
    var z, up := Zeros(CLUSTER_SIZE), Narrow(w, req.parent);
    DotDotInsertable();
    NarrowKeeps(w, self);
    NarrowKeeps(w, req.parent);
    FolderTableSlots(z, NameMem(req), Narrow(w, self), up, 0);
    FolderTableSlots(z, NameMem(req), Narrow(w, self), up, 1);
    InsertSlotFields(SlotAt(z, 0), NameMem(req), EMPTY_STRING, ATTR_SUBDIRECTORY, UATTR_NOT_EMPTY, Narrow(w, self), 0);
    InsertSlotFields(SlotAt(z, 1), DOTDOT_STRING, EMPTY_STRING, ATTR_SUBDIRECTORY, UATTR_NOT_EMPTY, up, 0);
  }

  /** The clusters of a new file hold the caller's buffer up to the end of the last one. */
  lemma StoredData(w: Width, v: Vol, req: Request, buf: Bytes)
    requires WriteSafe(v, req, buf) && Stores(v, req) && req.size > 0
    ensures var v', t, n := Write(w, v, req, buf).0, Target(v, req), ClustersFor(req.size);
            && t >= 0 && t + n <= MAP_SIZE && CLUSTER_SIZE * n <= |buf|
            && Chain(v'.fat, t, n) && GetData(v'.disk, t, n) == buf[..CLUSTER_SIZE * n]
  {
    StoresWhere(v, req, buf);
    var slot, _ := WhatIsFilled(w, v, req, buf);
    var i, v' := FirstUnused(v.disk[req.parent], 2), Write(w, v, req, buf).0;
    DataHolds(v, v', req.parent, i, slot, Target(v, req), Needs(req), buf);
  }

  lemma DataHolds(v: Vol, v': Vol, p: nat, i: nat, slot: Slot, s: nat, n: nat, data: Bytes)
    requires Holds(v, v', p, i, slot, s, n, data)
    ensures Chain(v'.fat, s, n) && GetData(v'.disk, s, n) == data[..CLUSTER_SIZE * n]
  {
    GetDataPut(v'.disk, s, n, data);
  }

  /** A write touches its slot, its clusters, the parent's table and the stored FAT, and nothing else. */
  lemma WriteSpares(w: Width, v: Vol, req: Request, buf: Bytes, c: nat, i: nat)
    requires WriteSafe(v, req, buf) && Stores(v, req) && c < IMAGE_CLUSTERS && i < SLOTS
    requires !(Target(v, req) <= c < Target(v, req) + Needs(req))
    ensures var v' := Write(w, v, req, buf).0;
            && v'.disk[FAT_CLUSTER] == EncodeFat(v'.fat)
            && (c != FAT_CLUSTER && c != req.parent ==> v'.disk[c] == v.disk[c])
            && (c < MAP_SIZE ==> v'.fat[c] == v.fat[c])
            && (i != FirstUnused(v.disk[req.parent], 2) ==>
                  SlotAt(v'.disk[req.parent], i) == SlotAt(v.disk[req.parent], i))
  {
    StoresWhere(v, req, buf);
    var _, _ := WhatIsFilled(w, v, req, buf);
  }

  // ----- Delete and refused calls

  /** A delete that returns 0 clears one slot and the clusters of one chain, and touches nothing else but the
      stored FAT. */
  lemma DeleteClears(v: Vol, req: Request, c: nat, k: nat)
    requires DeleteSafe(v, req) && Delete(v, req).1 == 0 && c < IMAGE_CLUSTERS && k < SLOTS
    ensures Finds(v, req)
    ensures var v', i, s := Delete(v, req).0, Hit(v, req), Start(Found(v, req));
            var n := ChainLen(v.fat, s);
            && Chain(v.fat, s, n) && v'.disk[FAT_CLUSTER] == EncodeFat(v'.fat)
            && SlotAt(v'.disk[req.parent], k) == (if k == i then Zeros(SLOT_SIZE) else SlotAt(v.disk[req.parent], k))
            && (c != FAT_CLUSTER && c != req.parent ==>
                  v'.disk[c] == if s <= c < s + n then Zeros(CLUSTER_SIZE) else v.disk[c])
            && (c < MAP_SIZE ==> v'.fat[c] == if s <= c < s + n then EMPTY_ENTRY else v.fat[c])
  {
    var s := Start(Found(v, req));
    RemoveEntryClears(v, Delete(v, req).0, req.parent, Hit(v, req), s, ChainLen(v.fat, s), c, k);
  }

  lemma RemoveEntryClears(v: Vol, v': Vol, p: nat, i: nat, s: nat, n: nat, c: nat, k: nat)
    requires ROOT <= p < MAP_SIZE && i < SLOTS && s + n <= MAP_SIZE && v' == RemoveEntry(v, p, i, s, n)
    requires c < IMAGE_CLUSTERS && k < SLOTS
    ensures v'.disk[FAT_CLUSTER] == EncodeFat(v'.fat)
    ensures SlotAt(v'.disk[p], k) == if k == i then Zeros(SLOT_SIZE) else SlotAt(v.disk[p], k)
    ensures c != FAT_CLUSTER && c != p ==> v'.disk[c] == if s <= c < s + n then Zeros(CLUSTER_SIZE) else v.disk[c]
    ensures c < MAP_SIZE ==> v'.fat[c] == if s <= c < s + n then EMPTY_ENTRY else v.fat[c]
  {
    SlotAtPut(v.disk[p], i, Zeros(SLOT_SIZE), k);
  }

  lemma RefusedWrite(w: Width, v: Vol, req: Request, buf: Bytes)
    requires WriteSafe(v, req, buf) && Write(w, v, req, buf).1 != 0
    ensures Write(w, v, req, buf).0 == v
  {
  }

  lemma RefusedDelete(v: Vol, req: Request)
    requires DeleteSafe(v, req) && Delete(v, req).1 != 0
    ensures Delete(v, req).0 == v
  {
  }

  /** A call that returns anything but 0 leaves the volume, and the caller's buffer, as they were. */
  lemma RefusedCalls(w: Width, v: Vol, req: Request, buf: Bytes)
    ensures WriteSafe(v, req, buf) && Write(w, v, req, buf).1 != 0 ==> Write(w, v, req, buf).0 == v
    ensures DeleteSafe(v, req) && Delete(v, req).1 != 0 ==> Delete(v, req).0 == v
    ensures ReadSafe(v, req) && Read(v, req).1 != 0 ==> Read(v, req).0 == []
    ensures ReadDirectorySafe(v, req) && ReadDirectory(v, req).1 != 0 ==> ReadDirectory(v, req).0 == []
  {
    if WriteSafe(v, req, buf) && Write(w, v, req, buf).1 != 0 {
      RefusedWrite(w, v, req, buf);
    }
    if DeleteSafe(v, req) && Delete(v, req).1 != 0 {
      RefusedDelete(v, req);
    }
  }

  // ----- What a read hands back

  lemma {:induction false} GetDataAt(disk: seq<Cluster>, s: nat, n: nat, k: nat)
    requires k < n && s + n <= |disk|
    ensures GetData(disk, s, n)[CLUSTER_SIZE * k..CLUSTER_SIZE * (k + 1)] == disk[s + k]
  {
    var front := GetData(disk, s, n - 1);
    if k < n - 1 {
      GetDataAt(disk, s, n - 1, k);
      assert (front + disk[s + n - 1])[CLUSTER_SIZE * k..CLUSTER_SIZE * (k + 1)]
          == front[CLUSTER_SIZE * k..CLUSTER_SIZE * (k + 1)];
    }
  }

  lemma LowSixBits(c: nat, q: nat, b: nat)
    requires c == 0x100 * q + b && b < 0x100
    ensures b % 64 == c % 64
  {
    assert c == 64 * (4 * q + b / 64) + b % 64;
  }

  /** The clusters that read_directory moves for a buffer of this size. */
  lemma DirClustersIs(size: u32)
    ensures DirClusters(size) == ClustersFor(size) % 64
  {
    var c := ClustersFor(size);
    LowSixBits(c, c / 0x100, c % 0x100);
    MovedIs(c % 0x100);
  }

  /** A read that returns 0 hands back the whole clusters of the chain, in order; read_directory the clusters
      from the table on, as many as the 8-bit parameter lets through. */
  lemma ReadBytes(v: Vol, req: Request, k: nat)
    ensures ReadSafe(v, req) && Read(v, req).1 == 0 ==>
              var data, s := Read(v, req).0, Start(Found(v, req));
              && |data| == CLUSTER_SIZE * ChainLen(v.fat, s)
              && (k < ChainLen(v.fat, s) ==> data[CLUSTER_SIZE * k..CLUSTER_SIZE * (k + 1)] == v.disk[s + k])
    ensures ReadDirectorySafe(v, req) && ReadDirectory(v, req).1 == 0 ==>
              var data, s := ReadDirectory(v, req).0, Start(Found(v, req));
              && |data| == CLUSTER_SIZE * (ClustersFor(req.size) % 64)
              && (k < ClustersFor(req.size) % 64 ==> data[CLUSTER_SIZE * k..CLUSTER_SIZE * (k + 1)] == v.disk[s + k])
  {
    DirClustersIs(req.size);
    if ReadSafe(v, req) && Read(v, req).1 == 0 && k < ChainLen(v.fat, Start(Found(v, req))) {
      GetDataAt(v.disk, Start(Found(v, req)), ChainLen(v.fat, Start(Found(v, req))), k);
    }
    if ReadDirectorySafe(v, req) && ReadDirectory(v, req).1 == 0 && k < DirClusters(req.size) {
      GetDataAt(v.disk, Start(Found(v, req)), DirClusters(req.size), k);
    }
  }

  // ----- The first boot

  /** What initialising a disk without the signature leaves in the boot block, the FAT and the root table. */
  lemma FirstBootBytes(v: Vol, root: Cluster)
    requires v.disk[0][..BLOCK_SIZE] != Signature()
    ensures var f := Mount(v, root);
            && f.disk[0][510..512] == ['O' as int, 'k' as int]
            && f.fat[..3] == [0x0FFF_FFF0, 0x0FFF_FFFF, 0x0FFF_FFFF]
            && (forall k :: 3 <= k < MAP_SIZE ==> f.fat[k] == 0) && f.disk[1] == EncodeFat(f.fat)
            && IsHead(SlotAt(f.disk[2], 0), ['r' as int, 'o' as int, 'o' as int, 't' as int, 0, 0, 0, 0], 2)
            && IsHead(SlotAt(f.disk[2], 1), ['.' as int, '.' as int, 0, 0, 0, 0, 0, 0], 2)
  {
    BootBlock(v, root);
    FormatRoot(v, root);
    RootTable(root, Format(v, root).disk[ROOT]);
    HeadMarks(root, Format(v, root).disk[ROOT]);
  }

  predicate IsHead(s: Slot, name: Bytes, cluster: u32) {
    KeyOf(s) == Key(name, [0, 0, 0]) && IsMarked(s, true, 0) && Start(s) == cluster
  }

  lemma BootBlock(v: Vol, root: Cluster)
    ensures var f := Format(v, root);
            f.disk[0][510..512] == ['O' as int, 'k' as int]
  {
    var b := Format(v, root).disk[0];
    assert b == FormatAt(v, root, 0);
    assert b[..BLOCK_SIZE] == Signature();
    assert forall k :: 0 <= k < BLOCK_SIZE ==> b[k] == SignatureAt(k);
  }

  lemma HeadMarks(root: Cluster, t: Cluster)
    requires Insertable(ROOT_STRING, EMPTY_STRING) && t == FolderTable(root, ROOT_STRING, ROOT, ROOT)
    ensures IsMarked(SlotAt(t, 0), true, 0) && IsMarked(SlotAt(t, 1), true, 0)
  {
    DotDotInsertable();
    FolderTableSlots(root, ROOT_STRING, ROOT, ROOT, 0);
    FolderTableSlots(root, ROOT_STRING, ROOT, ROOT, 1);
    InsertSlotFields(SlotAt(root, 0), ROOT_STRING, EMPTY_STRING, ATTR_SUBDIRECTORY, UATTR_NOT_EMPTY, ROOT, 0);
    InsertSlotFields(SlotAt(root, 1), DOTDOT_STRING, EMPTY_STRING, ATTR_SUBDIRECTORY, UATTR_NOT_EMPTY, ROOT, 0);
  }
}
