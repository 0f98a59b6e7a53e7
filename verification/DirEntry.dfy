/** The packed on-disk structures of src/header/filesystem/fat32.h: the 32-byte directory entry,
    the 64-slot directory table and the driver request. */
module DirEntry {
  import opened Memory

  const BLOCK_SIZE := 512
  const CLUSTER_SIZE := 2048
  const SLOT_SIZE := 32
  const SLOTS := 64

  const ATTR_SUBDIRECTORY: byte := 0x10
  const UATTR_NOT_EMPTY: byte := 0xAA

  type Cluster = c: Bytes | |c| == CLUSTER_SIZE witness seq(CLUSTER_SIZE, _ => 0)
  type Slot = s: Bytes | |s| == SLOT_SIZE witness seq(SLOT_SIZE, _ => 0)

  /** What identifies an entry inside its directory: the 8-byte name and the 3-byte extension. */
  datatype Key = Key(name: Bytes, ext: Bytes)

  const DOTDOT: Bytes := ['.' as int, '.' as int, 0, 0, 0, 0, 0, 0]
  const ROOT_NAME: Bytes := ['r' as int, 'o' as int, 'o' as int, 't' as int, 0, 0, 0, 0]
  const NO_EXT: Bytes := [0, 0, 0]

  // ----- Fields of an entry, at their packed offsets

  function Name(s: Slot): (n: Bytes) ensures |n| == 8 { s[..8] }
  function Ext(s: Slot): (e: Bytes) ensures |e| == 3 { s[8..11] }
  function KeyOf(s: Slot): Key { Key(Name(s), Ext(s)) }
  function Attribute(s: Slot): byte { s[11] }
  function UserAttribute(s: Slot): byte { s[12] }
  function FileSize(s: Slot): u32 { Le32(s[28..32]) }

  /** `cluster_low | cluster_high << 16`. */
  function Start(s: Slot): (c: u32) {
    Le16(s[26], s[27]) + 0x1_0000 * Le16(s[20], s[21])
  }

  predicate Used(s: Slot) { UserAttribute(s) == UATTR_NOT_EMPTY }
  predicate IsFolder(s: Slot) { Attribute(s) == ATTR_SUBDIRECTORY }

  // ----- The directory table

  function SlotAt(t: Cluster, i: nat): Slot
    requires i < SLOTS
  {
    t[SLOT_SIZE * i..SLOT_SIZE * i + SLOT_SIZE]
  }

  function PutSlot(t: Cluster, i: nat, s: Slot): Cluster
    requires i < SLOTS
  {
    Overwrite(t, SLOT_SIZE * i, s)
  }

  lemma SlotAtPut(t: Cluster, i: nat, s: Slot, j: nat)
    requires i < SLOTS && j < SLOTS
    ensures SlotAt(PutSlot(t, i, s), j) == if i == j then s else SlotAt(t, j)
  {
    var r := PutSlot(t, i, s);
    if i < j {
      assert SLOT_SIZE * i + SLOT_SIZE <= SLOT_SIZE * j;
    } else if j < i {
      assert SLOT_SIZE * j + SLOT_SIZE <= SLOT_SIZE * i;
    }
    assert forall k :: 0 <= k < SLOT_SIZE ==>
      SlotAt(r, j)[k] == r[SLOT_SIZE * j + k] && SlotAt(t, j)[k] == t[SLOT_SIZE * j + k];
  }

  lemma PutSlotBack(t: Cluster, i: nat, s: Slot)
    requires i < SLOTS
    ensures PutSlot(PutSlot(t, i, s), i, SlotAt(t, i)) == t
  {
  }

  lemma ZeroTableSlot(i: nat)
    requires i < SLOTS
    ensures SlotAt(Zeros(CLUSTER_SIZE), i) == Zeros(SLOT_SIZE)
  {
  }

  // ----- insert_directory

  /** The declared width of insert_directory's `cluster_number`: W8 is the code as written
      (`uint8_t`), W32 the width its 16-bit shift and its callers need. */
  datatype Width = W8 | W32

  function Narrow(w: Width, cluster: u32): (c: u32)
    ensures (c == cluster) <==> (w.W32? || cluster < 0x100)
  {
    if w.W8? then cluster % 0x100 else cluster
  }

  /** Both string arguments overrun their fields by no more than the two attribute bytes, which
      insert_directory sets afterwards. */
  predicate Insertable(name: Bytes, ext: Bytes) {
    Terminated(name) && Terminated(ext) && CLen(name) <= 13 && CLen(ext) <= 5
  }

  /** The name and ext members after the two memsets and the two memcpys. The memset of `ext`
      clears 8 bytes, so it also clears the attributes and the three members after them. */
  function PutStrings(old_: Slot, name: Bytes, ext: Bytes): Slot
    requires Insertable(name, ext)
  {
    var cleared := Overwrite(Overwrite(old_, 0, Zeros(8)), 8, Zeros(8));
    Overwrite(Overwrite(cleared, 0, CStr(name)), 8, CStr(ext))
  }

  /** The numeric members. */
  function PutNumbers(s: Slot, attr: byte, uattr: byte, cluster: u32, size: u32): Slot {
    var s := s[11 := attr][12 := uattr];
    var s := Overwrite(s, 20, ToLe16(cluster / 0x1_0000));
    var s := Overwrite(s, 26, ToLe16(cluster % 0x1_0000));
    Overwrite(s, 28, ToLe32(size))
  }

  /** The slot insert_directory leaves behind, write by write. */
  function InsertSlot(old_: Slot, name: Bytes, ext: Bytes, attr: byte, uattr: byte, cluster: u32, size: u32): Slot
    requires Insertable(name, ext)
  {
    PutNumbers(PutStrings(old_, name, ext), attr, uattr, cluster, size)
  }

  lemma PutNumbersFields(s0: Slot, attr: byte, uattr: byte, cluster: u32, size: u32)
    ensures var s := PutNumbers(s0, attr, uattr, cluster, size);
            && Attribute(s) == attr && UserAttribute(s) == uattr && Start(s) == cluster && FileSize(s) == size
            && s[..11] == s0[..11]
  {
    var s := PutNumbers(s0, attr, uattr, cluster, size);
    var hi, lo := ToLe16(cluster / 0x1_0000), ToLe16(cluster % 0x1_0000);
    assert s[28..32] == ToLe32(size);
    assert s[20] == hi[0] && s[21] == hi[1] && s[26] == lo[0] && s[27] == lo[1];
  }

  lemma PutStringsFields(s0: Slot, name: Bytes, ext: Bytes)
    requires Insertable(name, ext)
    ensures var s := PutStrings(s0, name, ext);
            && (forall k :: 0 <= k < 8 ==> s[k] == if k < CLen(name) then name[k] else 0)
            && (forall k :: 8 <= k < 11 ==>
                 s[k] == if k - 8 < CLen(ext) then ext[k - 8] else if k < CLen(name) then name[k] else 0)
  {
  }

  /** What lookups and chain walks later see of an inserted entry. */
  lemma InsertSlotFields(s0: Slot, name: Bytes, ext: Bytes, attr: byte, uattr: byte, cluster: u32, size: u32)
    requires Insertable(name, ext)
    ensures var s := InsertSlot(s0, name, ext, attr, uattr, cluster, size);
            && Attribute(s) == attr && UserAttribute(s) == uattr && Start(s) == cluster && FileSize(s) == size
            && (forall k :: 0 <= k < 8 ==> Name(s)[k] == if k < CLen(name) then name[k] else 0)
            && (forall k :: 0 <= k < 3 ==>
                 Ext(s)[k] == if k < CLen(ext) then ext[k] else if k + 8 < CLen(name) then name[k + 8] else 0)
  {
    var p := PutStrings(s0, name, ext);
    var s := InsertSlot(s0, name, ext, attr, uattr, cluster, size);
    PutStringsFields(s0, name, ext);
    PutNumbersFields(p, attr, uattr, cluster, size);
    assert forall k :: 0 <= k < 11 ==> s[k] == s[..11][k] == p[..11][k] == p[k];
  }

  /** The undelete flag and the creation time are cleared, because the memset of `ext` is eight bytes long; the
      other times stay as they were. */
  lemma InsertSlotTimes(s0: Slot, name: Bytes, ext: Bytes, attr: byte, uattr: byte, cluster: u32, size: u32)
    requires Insertable(name, ext)
    ensures var s := InsertSlot(s0, name, ext, attr, uattr, cluster, size);
            s[13..16] == Zeros(3) && s[16..20] == s0[16..20] && s[22..26] == s0[22..26]
  {
  }

  // ----- The driver request

  /** struct FAT32DriverRequest; `buf` is passed beside it. */
  datatype RawRequest = RawRequest(name: Bytes, ext: Bytes, parent: u32, size: u32)
  type Request = r: RawRequest | |r.name| == 8 && |r.ext| == 3
    witness RawRequest(seq(8, _ => 0), seq(3, _ => 0), 0, 0)

  function KeyReq(req: Request): Key { Key(req.name, req.ext) }

  /** The bytes a `char*` into the request's name (or ext) member runs through. */
  function NameMem(req: Request): Bytes { req.name + req.ext + ToLe32(req.parent) + ToLe32(req.size) }
  function ExtMem(req: Request): Bytes { req.ext + ToLe32(req.parent) + ToLe32(req.size) }

  const EMPTY_STRING: Bytes := [0]
  const DOTDOT_STRING: Bytes := ['.' as int, '.' as int, 0]
  const ROOT_STRING: Bytes := ['r' as int, 'o' as int, 'o' as int, 't' as int, 0]

  /** Names and extensions as callers build them; a folder (size 0) has no extension. */
  predicate ProperKey(req: Request) {
    Padded(req.name) && Padded(req.ext) && (req.size == 0 ==> req.ext == NO_EXT)
  }

  lemma RequestInsertable(req: Request)
    requires req.parent < 0x1_0000
    ensures Insertable(NameMem(req), ExtMem(req)) && Insertable(NameMem(req), EMPTY_STRING)
  {
    assert NameMem(req)[13] == 0;
    assert ExtMem(req)[5] == 0;
  }

  lemma PaddedPrefix(field: Bytes, mem: Bytes)
    requires Padded(field) && Terminated(mem) && field <= mem
    ensures CLen(mem) < |field| ==> forall k :: CLen(mem) <= k < |field| ==> field[k] == 0
    ensures forall k :: 0 <= k < |field| ==> field[k] == if k < CLen(mem) then mem[k] else 0
  {
    if CLen(mem) < |field| { assert field[CLen(mem)] == 0; }
  }

  /** For proper keys the strlen-bounded copies store exactly the key that memcmp looks up later. */
  lemma StoredKey(old_: Slot, req: Request, attr: byte, cluster: u32, size: u32)
    requires req.parent < 0x1_0000 && ProperKey(req)
    ensures Insertable(NameMem(req), ExtMem(req)) && Insertable(NameMem(req), EMPTY_STRING)
    ensures KeyOf(InsertSlot(old_, NameMem(req), ExtMem(req), attr, UATTR_NOT_EMPTY, cluster, size)) == KeyReq(req)
    ensures req.ext == NO_EXT ==>
      KeyOf(InsertSlot(old_, NameMem(req), EMPTY_STRING, attr, UATTR_NOT_EMPTY, cluster, size)) == KeyReq(req)
  {
    RequestInsertable(req);
    var nm, em := NameMem(req), ExtMem(req);
    assert req.name <= nm && req.ext <= em;
    PaddedPrefix(req.name, nm);
    PaddedPrefix(req.ext, em);
    ExtAfterName(req);
    InsertSlotFields(old_, nm, em, attr, UATTR_NOT_EMPTY, cluster, size);
    var s := InsertSlot(old_, nm, em, attr, UATTR_NOT_EMPTY, cluster, size);
    assert Name(s) == req.name;
    assert Ext(s) == req.ext;
    InsertSlotFields(old_, nm, EMPTY_STRING, attr, UATTR_NOT_EMPTY, cluster, size);
    var f := InsertSlot(old_, nm, EMPTY_STRING, attr, UATTR_NOT_EMPTY, cluster, size);
    if req.ext == NO_EXT {
      assert Name(f) == req.name;
      assert Ext(f) == req.ext;
    }
  }

  /** The overrun of a full 8-byte name copies the extension's own bytes. */
  lemma ExtAfterName(req: Request)
    requires Padded(req.ext) && Terminated(NameMem(req)) && Terminated(ExtMem(req))
    ensures forall k :: 0 <= k < 3 && k + 8 < CLen(NameMem(req)) ==> NameMem(req)[k + 8] == req.ext[k]
    ensures forall k :: 0 <= k < 3 && CLen(ExtMem(req)) <= k ==> req.ext[k] == 0
  {
    PaddedPrefix(req.ext, ExtMem(req));
  }

  /** Copying as many bytes as strlen counts into a zeroed field keeps the field exactly when it is padded. */
  lemma CopiedIff(field: Bytes, mem: Bytes)
    requires Terminated(mem) && field <= mem
    ensures Padded(field) <==> forall k :: 0 <= k < |field| ==> field[k] == if k < CLen(mem) then mem[k] else 0
  {
    if Padded(field) {
      PaddedPrefix(field, mem);
    }
    assert forall k :: 0 <= k < |field| && k < CLen(mem) ==> field[k] == mem[k] != 0;
  }

  /** What the two copies leave in the extension of a file entry. */
  lemma FileExt(req: Request)
    requires Terminated(NameMem(req)) && Terminated(ExtMem(req))
    ensures CLen(ExtMem(req)) < 3 ==> CLen(NameMem(req)) <= 8 + CLen(ExtMem(req))
  {
    var nm, em := NameMem(req), ExtMem(req);
    var c := CLen(em);
    assert c < 3 ==> nm[8 + c] == req.ext[c] == em[c] == 0;
  }

  /** A file's entry has the requested key if and only if name and extension are padded. */
  lemma StoredFileIff(old_: Slot, req: Request, attr: byte, cluster: u32, size: u32)
    requires req.parent < 0x1_0000
    ensures Insertable(NameMem(req), ExtMem(req))
    ensures (KeyOf(InsertSlot(old_, NameMem(req), ExtMem(req), attr, UATTR_NOT_EMPTY, cluster, size)) == KeyReq(req))
            <==> (Padded(req.name) && Padded(req.ext))
  {
    RequestInsertable(req);
    var nm, em := NameMem(req), ExtMem(req);
    assert req.name <= nm && req.ext <= em;
    InsertSlotFields(old_, nm, em, attr, UATTR_NOT_EMPTY, cluster, size);
    FileExt(req);
    CopiedIff(req.name, nm);
    CopiedIff(req.ext, em);
    var s := InsertSlot(old_, nm, em, attr, UATTR_NOT_EMPTY, cluster, size);
    assert Name(s) == req.name <==> forall k :: 0 <= k < 8 ==> Name(s)[k] == req.name[k];
    assert Ext(s) == req.ext <==> forall k :: 0 <= k < 3 ==> Ext(s)[k] == req.ext[k];
  }

  /** A folder's extension is what the copy of a full name overruns into. */
  lemma FolderExtIff(req: Request)
    requires Terminated(NameMem(req)) && Padded(req.name)
    ensures (forall k :: 0 <= k < 3 ==>
               req.ext[k] == if k + 8 < CLen(NameMem(req)) then NameMem(req)[k + 8] else 0)
            <==> (req.ext == NO_EXT || (0 !in req.name && Padded(req.ext)))
  {
    var nm := NameMem(req);
    assert forall k :: 0 <= k < 3 ==> nm[k + 8] == req.ext[k];
    assert forall k :: 0 <= k < 8 ==> nm[k] == req.name[k];
    if 0 in req.name {
      var z :| 0 <= z < 8 && req.name[z] == 0;
      assert CLen(nm) <= z;
    } else {
      assert CLen(nm) >= 8;
    }
    assert req.ext == NO_EXT <==> req.ext[0] == req.ext[1] == req.ext[2] == 0;
  }

  /** A folder's entry has the requested key if and only if the name is padded and the extension empty, or
      the name full and the extension padded. */
  lemma StoredFolderIff(old_: Slot, req: Request, attr: byte, cluster: u32, size: u32)
    requires req.parent < 0x1_0000
    ensures Insertable(NameMem(req), EMPTY_STRING)
    ensures (KeyOf(InsertSlot(old_, NameMem(req), EMPTY_STRING, attr, UATTR_NOT_EMPTY, cluster, size)) == KeyReq(req))
            <==> (Padded(req.name) && (req.ext == NO_EXT || (0 !in req.name && Padded(req.ext))))
  {
    RequestInsertable(req);
    var nm := NameMem(req);
    assert req.name <= nm;
    InsertSlotFields(old_, nm, EMPTY_STRING, attr, UATTR_NOT_EMPTY, cluster, size);
    CopiedIff(req.name, nm);
    if Padded(req.name) {
      FolderExtIff(req);
    }
    var s := InsertSlot(old_, nm, EMPTY_STRING, attr, UATTR_NOT_EMPTY, cluster, size);
    assert Name(s) == req.name <==> forall k :: 0 <= k < 8 ==> Name(s)[k] == req.name[k];
    assert Ext(s) == req.ext <==> forall k :: 0 <= k < 3 ==> Ext(s)[k] == req.ext[k];
  }
}
