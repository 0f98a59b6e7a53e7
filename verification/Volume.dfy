/** What the operations of src/filesystem/fat32.c compute, as functions of the disk image and the
    cached file allocation table. */
module Volume {
  import opened Memory
  import opened DirEntry
  import opened Disk

  const MAP_SIZE := 512  // CLUSTER_MAP_SIZE
  const CLUSTER_0_VALUE: u32 := 0x0FFFFFF0
  const CLUSTER_1_VALUE: u32 := 0x0FFFFFFF
  const END_OF_FILE: u32 := 0x0FFFFFFF
  const EMPTY_ENTRY: u32 := 0
  const FAT_CLUSTER := 1
  const ROOT := 2
  const FIRST_DATA := 3

  type Fat = f: seq<u32> | |f| == MAP_SIZE witness seq(MAP_SIZE, _ => 0)

  datatype RawVol = RawVol(disk: seq<Cluster>, fat: Fat)

  /** The driver's whole state: every cluster of the image and the cached FAT. */
  type Vol = v: RawVol | |v.disk| == IMAGE_CLUSTERS
    witness RawVol(seq(IMAGE_CLUSTERS, _ => seq(CLUSTER_SIZE, _ => 0)), seq(MAP_SIZE, _ => 0))

  // ----- The FAT on disk

  function EncodeFat(fat: Fat): Cluster {
    seq(CLUSTER_SIZE, k requires 0 <= k < CLUSTER_SIZE => ToLe32(fat[k / 4])[k % 4])
  }

  function DecodeFat(c: Cluster): Fat {
    seq(MAP_SIZE, k requires 0 <= k < MAP_SIZE => Le32(c[4 * k..4 * k + 4]))
  }

  lemma FatByte(fat: Fat, k: nat, j: nat)
    requires k < MAP_SIZE && j < 4
    ensures EncodeFat(fat)[4 * k + j] == ToLe32(fat[k])[j]
  {
    assert (4 * k + j) / 4 == k && (4 * k + j) % 4 == j;
  }

  lemma FatEntryBytes(fat: Fat, k: nat)
    requires k < MAP_SIZE
    ensures EncodeFat(fat)[4 * k..4 * k + 4] == ToLe32(fat[k])
  {
    FatByte(fat, k, 0);
    FatByte(fat, k, 1);
    FatByte(fat, k, 2);
    FatByte(fat, k, 3);
  }

  lemma FatRoundTrip(fat: Fat)
    ensures DecodeFat(EncodeFat(fat)) == fat
  {
    forall k | 0 <= k < MAP_SIZE
      ensures DecodeFat(EncodeFat(fat))[k] == fat[k]
    {
      FatEntryBytes(fat, k);
    }
  }

  // ----- Lookups

  /** The first slot from `from` on that the two memcmps accept; SLOTS if there is none. */
  function FirstMatch(t: Cluster, key: Key, from: nat): (i: nat)
    requires from <= SLOTS
    ensures from <= i <= SLOTS
    ensures i < SLOTS ==> KeyOf(SlotAt(t, i)) == key
    ensures forall k :: from <= k < i ==> KeyOf(SlotAt(t, k)) != key
    decreases SLOTS - from
  {
    if from == SLOTS || KeyOf(SlotAt(t, from)) == key then from else FirstMatch(t, key, from + 1)
  }

  function FirstUnused(t: Cluster, from: nat): (i: nat)
    requires from <= SLOTS
    ensures from <= i <= SLOTS
    ensures i < SLOTS ==> !Used(SlotAt(t, i))
    ensures forall k :: from <= k < i ==> Used(SlotAt(t, k))
    decreases SLOTS - from
  {
    if from == SLOTS || !Used(SlotAt(t, from)) then from else FirstUnused(t, from + 1)
  }

  predicate FolderNotEmpty(t: Cluster) {
    exists i :: 2 <= i < SLOTS && Used(SlotAt(t, i))
  }

  predicate ValidParent(v: Vol, p: u32) {
    && ROOT <= p < MAP_SIZE
    && v.fat[p] == END_OF_FILE
    && IsFolder(SlotAt(v.disk[p], 0)) && IsFolder(SlotAt(v.disk[p], 1))
  }

  // ----- Allocation

  function ClustersFor(size: u32): (n: nat)
    ensures CLUSTER_SIZE * n >= size && (n > 0 ==> CLUSTER_SIZE * (n - 1) < size)
  {
    if size % CLUSTER_SIZE == 0 then size / CLUSTER_SIZE else size / CLUSTER_SIZE + 1
  }

  predicate AllEmpty(fat: Fat, s: nat, n: nat) {
    s + n <= MAP_SIZE && forall k :: s <= k < s + n ==> fat[k] == EMPTY_ENTRY
  }

  function FirstEmpty(fat: Fat, from: nat): (c: nat)
    requires from <= MAP_SIZE
    ensures from <= c <= MAP_SIZE
    ensures c < MAP_SIZE ==> fat[c] == EMPTY_ENTRY
    ensures forall k :: from <= k < c ==> fat[k] != EMPTY_ENTRY
    decreases MAP_SIZE - from
  {
    if from == MAP_SIZE || fat[from] == EMPTY_ENTRY then from else FirstEmpty(fat, from + 1)
  }

  /** The smallest start from `from` on of `n` consecutive empty clusters, or -1. */
  function FirstFit(fat: Fat, n: nat, from: nat): (s: int)
    ensures s == -1 || (from <= s && AllEmpty(fat, s, n))
    ensures forall k: nat :: from <= k && (s == -1 || k < s) ==> !AllEmpty(fat, k, n)
    decreases MAP_SIZE - from
  {
    if from + n > MAP_SIZE then -1
    else if AllEmpty(fat, from, n) then from
    else FirstFit(fat, n, from + 1)
  }

  // ----- Chains

  /** Clusters s, s+1, ..., s+n-1 linked in this order and closed by the end-of-file mark. */
  predicate Chain(fat: Fat, s: nat, n: nat) {
    && 1 <= n && s + n <= MAP_SIZE
    && fat[s + n - 1] == END_OF_FILE
    && forall k :: s <= k < s + n - 1 ==> fat[k] == k + 1
  }

  /** The number of links from `j` to the end-of-file mark; 0 when the links from `j` do not step
      up one by one to such a mark. */
  function ChainLen(fat: Fat, j: nat): (n: nat)
    ensures n > 0 ==> Chain(fat, j, n)
    decreases MAP_SIZE - j
  {
    if j >= MAP_SIZE then 0
    else if fat[j] == END_OF_FILE then 1
    else if fat[j] == j + 1 && ChainLen(fat, j + 1) > 0 then 1 + ChainLen(fat, j + 1)
    else 0
  }

  lemma {:induction false} ChainLenOfChain(fat: Fat, s: nat, n: nat)
    requires Chain(fat, s, n)
    ensures ChainLen(fat, s) == n
    decreases n
  {
    if n > 1 {
      assert fat[s] == s + 1;
      ChainLenOfChain(fat, s + 1, n - 1);
    }
  }

  function SetChain(fat: Fat, s: nat, n: nat): Fat
    requires 1 <= n && s + n <= MAP_SIZE
  {
    seq(MAP_SIZE, k requires 0 <= k < MAP_SIZE =>
      if s <= k < s + n - 1 then k + 1 else if k == s + n - 1 then END_OF_FILE else fat[k])
  }

  function ClearChain(fat: Fat, s: nat, n: nat): Fat {
    seq(MAP_SIZE, k requires 0 <= k < MAP_SIZE => if s <= k < s + n then EMPTY_ENTRY else fat[k])
  }

  // ----- Cluster contents

  function WipeDataAt(disk: seq<Cluster>, s: nat, n: nat, k: nat): Cluster
    requires k < |disk|
  {
    if s <= k < s + n then Zeros(CLUSTER_SIZE) else disk[k]
  }

  function WipeData(disk: seq<Cluster>, s: nat, n: nat): (r: seq<Cluster>)
    ensures |r| == |disk|
  {
    seq(|disk|, k requires 0 <= k < |disk| => WipeDataAt(disk, s, n, k))
  }

  // ----- Format and mount

  /** Byte k of fs_signature. */
  function SignatureAt(k: nat): byte {
    var text := "Course          Designed by     Lab Sister ITB  Made with <3    -----------2024\n";
    if k < |text| then text[k] as int % 0x100
    else if k == BLOCK_SIZE - 2 then 'O' as int
    else if k == BLOCK_SIZE - 1 then 'k' as int
    else 0
  }

  function Signature(): (b: Bytes)
    ensures |b| == BLOCK_SIZE
  {
    seq(BLOCK_SIZE, k requires 0 <= k < BLOCK_SIZE => SignatureAt(k))
  }

  predicate IsEmptyStorage(v: Vol) { v.disk[0][..BLOCK_SIZE] != Signature() }

  function FormatFat(): Fat {
    seq(MAP_SIZE, k requires 0 <= k < MAP_SIZE =>
      if k == 0 then CLUSTER_0_VALUE else if k == 1 then CLUSTER_1_VALUE
      else if k == 2 then END_OF_FILE else EMPTY_ENTRY)
  }

  /** A directory entry for a folder: insert_directory with the folder attributes and size 0. */
  function FolderSlot(s: Slot, name: Bytes, cluster: u32): Slot
    requires Insertable(name, EMPTY_STRING)
  {
    InsertSlot(s, name, EMPTY_STRING, ATTR_SUBDIRECTORY, UATTR_NOT_EMPTY, cluster, 0)
  }

  /** A table whose first two slots name the folder itself and its parent. */
  function FolderTable(t: Cluster, name: Bytes, self: u32, parent: u32): Cluster
    requires Insertable(name, EMPTY_STRING)
  {
    DotDotInsertable();
    var t := PutSlot(t, 0, FolderSlot(SlotAt(t, 0), name, self));
    PutSlot(t, 1, FolderSlot(SlotAt(t, 1), DOTDOT_STRING, parent))
  }

  lemma DotDotInsertable()
    ensures Insertable(DOTDOT_STRING, EMPTY_STRING) && Insertable(ROOT_STRING, EMPTY_STRING)
    ensures CLen(DOTDOT_STRING) == 2 && CLen(ROOT_STRING) == 4 && CLen(EMPTY_STRING) == 0
  {
    CLenUnique(DOTDOT_STRING, 2);
    CLenUnique(ROOT_STRING, 4);
    CLenUnique(EMPTY_STRING, 0);
  }

  /** create_fat32, given what the uninitialised local `root` held. */
  function FormatAt(v: Vol, root: Cluster, k: nat): Cluster
    requires k < IMAGE_CLUSTERS
  {
    DotDotInsertable();
    if k == 0 then Overwrite(Zeros(CLUSTER_SIZE), 0, Signature())
    else if k == FAT_CLUSTER then EncodeFat(FormatFat())
    else if k == ROOT then FolderTable(root, ROOT_STRING, ROOT, ROOT)
    else if k < MAP_SIZE then Zeros(CLUSTER_SIZE)
    else v.disk[k]
  }

  function Format(v: Vol, root: Cluster): Vol {
    RawVol(seq(IMAGE_CLUSTERS, k requires 0 <= k < IMAGE_CLUSTERS => FormatAt(v, root, k)), FormatFat())
  }

  function Mount(v: Vol, root: Cluster): Vol {
    if IsEmptyStorage(v) then Format(v, root) else v.(fat := DecodeFat(v.disk[FAT_CLUSTER]))
  }

  // ----- write

  /** A new entry in slot i of folder p, its chain at s to s+n-1 and its clusters' contents. */
  function AddEntry(v: Vol, p: nat, i: nat, slot: Slot, s: nat, n: nat, buf: Bytes): Vol
    requires p < MAP_SIZE && i < SLOTS && 1 <= n && s + n <= MAP_SIZE && CLUSTER_SIZE * n <= |buf|
  {
    var fat := SetChain(v.fat, s, n);
    RawVol(PutData(v.disk[p := PutSlot(v.disk[p], i, slot)], s, n, buf)[FAT_CLUSTER := EncodeFat(fat)], fat)
  }

  /** write gets past its parent and duplicate checks. */
  predicate WriteReaches(v: Vol, req: Request) {
    ValidParent(v, req.parent) && FirstMatch(v.disk[req.parent], KeyReq(req), 1) == SLOTS
  }

  /** The unbounded searches and the whole-cluster transfers of write stay inside their buffers. */
  predicate WriteSafe(v: Vol, req: Request, buf: Bytes) {
    WriteReaches(v, req) ==>
      if req.size == 0 then
        FirstEmpty(v.fat, FIRST_DATA) < MAP_SIZE && FirstUnused(v.disk[req.parent], 2) < SLOTS
      else
        FirstFit(v.fat, ClustersFor(req.size), FIRST_DATA) > 0 ==>
          FirstUnused(v.disk[req.parent], 2) < SLOTS && CLUSTER_SIZE * ClustersFor(req.size) <= |buf|
  }

  function WriteFolder(w: Width, v: Vol, req: Request): Vol
    requires ROOT <= req.parent < MAP_SIZE
    requires FirstEmpty(v.fat, FIRST_DATA) < MAP_SIZE && FirstUnused(v.disk[req.parent], 2) < SLOTS
  {
    RequestInsertable(req);
    var c := FirstEmpty(v.fat, FIRST_DATA);
    var i := FirstUnused(v.disk[req.parent], 2);
    var table := FolderTable(Zeros(CLUSTER_SIZE), NameMem(req), Narrow(w, c), Narrow(w, req.parent));
    var slot := FolderSlot(SlotAt(v.disk[req.parent], i), NameMem(req), Narrow(w, c));
    AddEntry(v, req.parent, i, slot, c, 1, table)
  }

  function FileSlot(s: Slot, req: Request, cluster: u32): Slot
    requires req.parent < MAP_SIZE
  {
    RequestInsertable(req);
    InsertSlot(s, NameMem(req), ExtMem(req), 0, UATTR_NOT_EMPTY, cluster, req.size)
  }

  function WriteFile(w: Width, v: Vol, req: Request, buf: Bytes, s: nat): Vol
    requires ROOT <= req.parent < MAP_SIZE && req.size > 0
    requires s + ClustersFor(req.size) <= MAP_SIZE
    requires FirstUnused(v.disk[req.parent], 2) < SLOTS && CLUSTER_SIZE * ClustersFor(req.size) <= |buf|
  {
    var i := FirstUnused(v.disk[req.parent], 2);
    var slot := FileSlot(SlotAt(v.disk[req.parent], i), req, Narrow(w, s));
    AddEntry(v, req.parent, i, slot, s, ClustersFor(req.size), buf)
  }

  function Write(w: Width, v: Vol, req: Request, buf: Bytes): (Vol, int)
    requires WriteSafe(v, req, buf)
  {
    if !ValidParent(v, req.parent) then (v, 2)
    else if FirstMatch(v.disk[req.parent], KeyReq(req), 1) < SLOTS then (v, 1)
    else if req.size == 0 then (WriteFolder(w, v, req), 0)
    else
      var s := FirstFit(v.fat, ClustersFor(req.size), FIRST_DATA);
      if s > 0 then (WriteFile(w, v, req, buf, s), 0) else (v, -1)
  }

  // ----- delete

  /** Slot i of folder p and its chain at j to j+n-1 cleared. */
  function RemoveEntry(v: Vol, p: nat, i: nat, j: nat, n: nat): Vol
    requires p < MAP_SIZE && i < SLOTS
  {
    var fat := ClearChain(v.fat, j, n);
    RawVol(WipeData(v.disk, j, n)[FAT_CLUSTER := EncodeFat(fat)][p := PutSlot(v.disk[p], i, Zeros(SLOT_SIZE))], fat)
  }

  /** The entry that delete and read pick. */
  function Found(v: Vol, req: Request): Slot
    requires ValidParent(v, req.parent) && FirstMatch(v.disk[req.parent], KeyReq(req), 0) < SLOTS
  {
    SlotAt(v.disk[req.parent], FirstMatch(v.disk[req.parent], KeyReq(req), 0))
  }

  predicate Finds(v: Vol, req: Request) {
    ValidParent(v, req.parent) && FirstMatch(v.disk[req.parent], KeyReq(req), 0) < SLOTS
  }

  predicate DeleteSafe(v: Vol, req: Request) {
    Finds(v, req) ==>
      var e := Found(v, req);
      && (IsFolder(e) ==> Start(e) < IMAGE_CLUSTERS)
      && (!(IsFolder(e) && FolderNotEmpty(v.disk[Start(e)])) ==> ChainLen(v.fat, Start(e)) > 0)
  }

  function Delete(v: Vol, req: Request): (Vol, int)
    requires DeleteSafe(v, req)
  {
    if !ValidParent(v, req.parent) then (v, -1)
    else if !Finds(v, req) then (v, 1)
    else
      var e := Found(v, req);
      var j := Start(e);
      if IsFolder(e) && FolderNotEmpty(v.disk[j]) then (v, 2)
      else
        (RemoveEntry(v, req.parent, FirstMatch(v.disk[req.parent], KeyReq(req), 0), j, ChainLen(v.fat, j)), 0)
  }

  // ----- read and read_directory

  /** The return code of read, and the clusters it copies to the buffer. */
  predicate ReadSafe(v: Vol, req: Request) {
    Finds(v, req) && !IsFolder(Found(v, req)) && FileSize(Found(v, req)) <= req.size ==>
      ChainLen(v.fat, Start(Found(v, req))) > 0
  }

  function Read(v: Vol, req: Request): (r: (Bytes, int))
    requires ReadSafe(v, req)
  {
    if !ValidParent(v, req.parent) then ([], -1)
    else if !Finds(v, req) then ([], 3)
    else
      var e := Found(v, req);
      if IsFolder(e) then ([], 1)
      else if req.size < FileSize(e) then ([], 2)
      else (GetData(v.disk, Start(e), ChainLen(v.fat, Start(e))), 0)
  }

  /** The clusters that read_directory moves: their number passes through an 8-bit parameter. */
  function DirClusters(size: u32): (n: nat)
    ensures ClustersFor(size) < 64 ==> n == ClustersFor(size)
    ensures size == CLUSTER_SIZE ==> n == 1
  {
    Moved(ClustersFor(size) % 0x100)
  }

  predicate ReadDirectorySafe(v: Vol, req: Request) {
    Finds(v, req) && IsFolder(Found(v, req)) ==> Start(Found(v, req)) + DirClusters(req.size) <= IMAGE_CLUSTERS
  }

  function ReadDirectory(v: Vol, req: Request): (r: (Bytes, int))
    requires ReadDirectorySafe(v, req)
    ensures Finds(v, req) && IsFolder(Found(v, req)) && DirClusters(req.size) == 1 ==>
              r.0 == v.disk[Start(Found(v, req))]
  {
    if !ValidParent(v, req.parent) then ([], -1)
    else if !Finds(v, req) then ([], 2)
    else
      var e := Found(v, req);
      if IsFolder(e) then
        assert Start(e) < IMAGE_CLUSTERS ==> GetData(v.disk, Start(e), 0) + v.disk[Start(e)] == v.disk[Start(e)];
        (GetData(v.disk, Start(e), DirClusters(req.size)), 0)
      else ([], 1)
  }
}
