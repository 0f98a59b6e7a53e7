/** Runs of the driver simulate runs of the abstract file system. */
module Runs {
  import opened Memory
  import opened DirEntry
  import opened Disk
  import opened Volume
  import opened Invariant
  import opened Operations
  import opened Refinement
  import opened Slots

  const DOTDOT_KEY := Key(DOTDOT, NO_EXT)

  // ----- The abstract operations

  /** The key names the directory itself or its parent. */
  predicate HeadKey(fs: FS, p: nat, key: Key)
    requires p in fs.names
  {
    key == DOTDOT_KEY || key == Key(fs.names[p], NO_EXT)
  }

  /** The key that an unused slot of directory p has. */
  ghost predicate Unnamed(fs: FS, p: nat, key: Key) {
    key == ZERO_KEY && |KeysIn(fs, p)| < ROOM
  }

  /** The new object finds a slot; the all-zero key finds one that it takes for itself. */
  ghost predicate HasPlace(fs: FS, p: nat, key: Key) {
    |KeysIn(fs, p)| < ROOM && key != ZERO_KEY
  }

  /** write: 2 for no such parent, 1 for a key in use or the key of an unused slot, -1 for no room, else
      the new object. */
  ghost predicate AbsWrite(fs: FS, req: Request, buf: Bytes, code: int, fs': FS) {
    var k := (req.parent as nat, KeyReq(req));
    if req.parent !in fs.names then code == 2 && fs' == fs
    else if KeyReq(req) == DOTDOT_KEY || k in fs.entries || Unnamed(fs, req.parent, KeyReq(req)) then
      code == 1 && fs' == fs
    else if req.size == 0 then
      code == 0 && HasPlace(fs, req.parent, KeyReq(req)) && req.ext == NO_EXT
      && exists c: nat :: c !in fs.names && fs' == FS(fs.names[c := req.name], fs.entries[k := Folder(c)])
    else if code == 0 then
      HasPlace(fs, req.parent, KeyReq(req))
      && req.size <= |buf| && fs' == FS(fs.names, fs.entries[k := File(buf[..req.size])])
    else code == -1 && fs' == fs
  }

  predicate AbsEmpty(fs: FS, c: nat) { forall k :: k in fs.entries ==> k.0 != c }

  /** delete: -1 for no such parent, 2 for a folder in use, 1 for no such entry, else it is gone. */
  ghost predicate AbsDelete(fs: FS, req: Request, code: int, fs': FS) {
    var k := (req.parent as nat, KeyReq(req));
    if req.parent !in fs.names then code == -1 && fs' == fs
    else if HeadKey(fs, req.parent, KeyReq(req)) then code == 2 && fs' == fs
    else if k !in fs.entries then code == 1 && fs' == fs
    else match fs.entries[k]
      case File(_) => code == 0 && fs' == FS(fs.names, fs.entries - {k})
      case Folder(c) =>
        if AbsEmpty(fs, c) then code == 0 && fs' == FS(fs.names - {c}, fs.entries - {k})
        else code == 2 && fs' == fs
  }

  /** read: -1 for no such parent, 1 for a folder, 3 for no such entry, 2 for too small a buffer,
      else the file's bytes at the start of the buffer, which stays as it was with any other code. */
  ghost predicate AbsRead(fs: FS, req: Request, code: int, data: Bytes) {
    var k := (req.parent as nat, KeyReq(req));
    (code != 0 ==> data == [])
    && if req.parent !in fs.names then code == -1
       else if HeadKey(fs, req.parent, KeyReq(req)) then code == 1
       else if k !in fs.entries then code == 3
       else match fs.entries[k]
         case Folder(_) => code == 1
         case File(bytes) => if req.size < |bytes| then code == 2 else code == 0 && bytes <= data
  }

  /** Directory p lists directory d. */
  ghost predicate Lists(fs: FS, p: nat, d: nat) {
    exists k :: k in fs.entries && k.0 == p && fs.entries[k] == Folder(d)
  }

  /** The directory that d's own name or ".." stands for. */
  ghost predicate HeadLeads(fs: FS, d: nat, key: Key, c: nat)
    requires d in fs.names
  {
    if key == Key(fs.names[d], NO_EXT) then c == d
    else if d == ROOT then c == ROOT else Lists(fs, c, d)
  }

  /** A slot of a table of directory c as one of its entries. */
  ghost predicate SlotShows(fs: FS, c: nat, s: Slot) {
    (c, KeyOf(s)) in fs.entries
    && match fs.entries[(c, KeyOf(s))]
       case Folder(id) => IsFolder(s) && Start(s) == id
       case File(bytes) => !IsFolder(s) && FileSize(s) == |bytes|
  }

  predicate HasSlot(t: Cluster, key: Key) {
    exists i: nat :: 2 <= i < SLOTS && Used(SlotAt(t, i)) && KeyOf(SlotAt(t, i)) == key
  }

  /** The used slots of t from 2 on are exactly the entries of directory c, with their kinds and sizes. */
  ghost predicate Tabulates(fs: FS, c: nat, t: Cluster) {
    (forall i: nat :: 2 <= i < SLOTS && Used(SlotAt(t, i)) ==> SlotShows(fs, c, SlotAt(t, i)))
    && forall key :: (c, key) in fs.entries ==> HasSlot(t, key)
  }

  /** What a buffer of `size` bytes gets of directory c: whole clusters, the first of them its table. */
  ghost predicate Gives(fs: FS, c: nat, size: u32, data: Bytes) {
    |data| == CLUSTER_SIZE * DirClusters(size) && (data != [] ==> Tabulates(fs, c, data[..CLUSTER_SIZE]))
  }

  /** read_directory: -1 for no such parent, 1 for a file or an unused slot, 2 for no such entry, else the
      table, and nothing with any other code. */
  ghost predicate AbsReadDirectory(fs: FS, req: Request, code: int, data: Bytes) {
    var k := (req.parent as nat, KeyReq(req));
    (code != 0 ==> data == [])
    && if req.parent !in fs.names then code == -1
       else if HeadKey(fs, req.parent, KeyReq(req)) then
         code == 0 && exists c :: HeadLeads(fs, req.parent, KeyReq(req), c) && Gives(fs, c, req.size, data)
       else if k !in fs.entries then code == if Unnamed(fs, req.parent, KeyReq(req)) then 1 else 2
       else match fs.entries[k]
         case File(_) => code == 1
         case Folder(c) =>
           (code == 0 && Gives(fs, c, req.size, data)) || (Unnamed(fs, req.parent, KeyReq(req)) && code == 1)
  }

  // ----- Lookups

  /** The duplicate check of write, from slot 1: "..", a listed key, or the key of an unused slot. */
  lemma DuplicateIff(v: Vol, g: Layout, p: nat, key: Key)
    requires DirsOk(g) && HeadsOk(v, g) && SlotsOk(v, g) && p in g.dirs
    ensures FirstMatch(v.disk[p], key, 1) < SLOTS <==>
              key == DOTDOT_KEY || HasKey(v, g, p, key)
              || (key == ZERO_KEY && FirstUnused(v.disk[p], 2) < SLOTS)
  {
    assert DirOk(v, g, p);
    var i := FirstMatch(v.disk[p], key, 1);
    if 2 <= i < SLOTS {
      assert SlotOk(v, g, p, i);
      ZeroSlotKey();
      assert Used(Entry(v, p, i)) ==> ListedAt(v, g, p, i, key);
      assert !Used(Entry(v, p, i)) ==> FirstUnused(v.disk[p], 2) <= i;
    }
    if key == ZERO_KEY && FirstUnused(v.disk[p], 2) < SLOTS {
      UnusedMatches(v, g, p, 1);
    }
    if HasKey(v, g, p, key) {
      var j := SlotFor(v, g, p, key);
      assert KeyOf(SlotAt(v.disk[p], j)) == key;
    }
    assert KeyOf(SlotAt(v.disk[p], 1)) == DOTDOT_KEY;
  }

  /** The first match for a key, if any, is a used slot. */
  predicate UsedHit(t: Cluster, key: Key) {
    var i := FirstMatch(t, key, 0);
    i < SLOTS ==> Used(SlotAt(t, i))
  }

  /** A lookup from slot 0 picks the directory itself, then "..", then the listed entry. */
  lemma HitIs(v: Vol, g: Layout, p: nat, key: Key)
    requires DirsOk(g) && HeadsOk(v, g) && SlotsOk(v, g) && p in g.dirs && UsedHit(v.disk[p], key)
    ensures var i := FirstMatch(v.disk[p], key, 0);
            if key == Key(Name(Entry(v, p, 0)), NO_EXT) then i == 0
            else if key == DOTDOT_KEY then i == 1
            else if HasKey(v, g, p, key) then i == SlotFor(v, g, p, key)
            else i == SLOTS
  {
    assert DirOk(v, g, p);
    var i := FirstMatch(v.disk[p], key, 0);
    assert KeyOf(SlotAt(v.disk[p], 1)) == DOTDOT_KEY;
    assert KeyOf(SlotAt(v.disk[p], 0)) == Key(Name(Entry(v, p, 0)), NO_EXT);
    if HasKey(v, g, p, key) {
      var j := SlotFor(v, g, p, key);
      assert KeyOf(SlotAt(v.disk[p], j)) == key;
      if 2 <= i < SLOTS { HitListed(v, g, p, i, key); ListedOnce(v, g, p, i, j, key); }
    } else if 2 <= i < SLOTS {
      HitListed(v, g, p, i, key);
    }
  }

  /** A key that is not all zero matches used slots only. */
  lemma NamedHit(v: Vol, g: Layout, p: nat, key: Key)
    requires DirsOk(g) && HeadsOk(v, g) && SlotsOk(v, g) && p in g.dirs && key != ZERO_KEY
    ensures UsedHit(v.disk[p], key)
  {
    var i := FirstMatch(v.disk[p], key, 0);
    ZeroSlotKey();
    if i < 2 {
      HeadEntry(v, g, p, i);
    } else if i < SLOTS {
      assert SlotOk(v, g, p, i);
    }
  }

  lemma HitListed(v: Vol, g: Layout, p: nat, i: nat, key: Key)
    requires DirsOk(g) && p in g.dirs && 2 <= i < SLOTS && Used(Entry(v, p, i))
    requires KeyOf(SlotAt(v.disk[p], i)) == key
    ensures ListedAt(v, g, p, i, key)
  {
  }

  lemma ParentIff(v: Vol, g: Layout, p: u32)
    requires Inv(v, g) && ParentOk(v, g, p)
    ensures ValidParent(v, p) <==> p in g.dirs
  {
    if p in g.dirs { DirsAreValidParents(v, g, p); }
  }

  // ----- One operation

  ghost predicate CanWrite(w: Width, v: Vol, g: Layout, req: Request, buf: Bytes) {
    WriteOk(v, g, req, buf) && (Stores(v, req) ==> NumbersFit(w, v, req))
  }

  ghost predicate CanDelete(v: Vol, g: Layout, req: Request) { LookupOk(v, g, req) && !DeletesSelf(v, req) }

  /** The addition a write makes, as an abstract update. */
  lemma WriteAddsFS(w: Width, v: Vol, g: Layout, req: Request, buf: Bytes, fs: FS)
    requires WriteOk(v, g, req, buf) && Stores(v, req) && NumbersFit(w, v, req)
    ensures var a := WriteAddition(w, v, req, buf);
            && FileSize(a.slot) <= |a.buf|
            && (if req.size == 0 then
                  AddFS(fs, a) == FS(fs.names[Target(v, req) as nat := req.name],
                                     fs.entries[(req.parent, KeyReq(req)) := Folder(Target(v, req))])
                else
                  req.size <= |buf|
                  && AddFS(fs, a) == FS(fs.names, fs.entries[(req.parent, KeyReq(req)) := File(buf[..req.size])]))
  {
    WriteDescribes(w, v, req, buf);
    WritePlaces(w, v, req, buf);
    var a := WriteAddition(w, v, req, buf);
    assert Name(a.slot) == KeyOf(a.slot).name;
  }

  lemma TargetFresh(v: Vol, g: Layout, req: Request)
    requires DirsOk(g) && HeadsOk(v, g) && Stores(v, req) && Target(v, req) < MAP_SIZE
    ensures req.size == 0 ==> Target(v, req) !in g.dirs
  {
    DirsEnd(v, g);
  }

  /** The request gets past the checks of write. */
  ghost predicate AbsReaches(fs: FS, req: Request) {
    req.parent in fs.names && KeyReq(req) != DOTDOT_KEY && (req.parent as nat, KeyReq(req)) !in fs.entries
    && !Unnamed(fs, req.parent, KeyReq(req))
  }

  lemma ReachesIff(v: Vol, g: Layout, req: Request, fs: FS)
    requires Inv(v, g) && ParentOk(v, g, req.parent) && Shows(v, g, fs)
    ensures WriteReaches(v, req) <==> AbsReaches(fs, req)
  {
    ParentIff(v, g, req.parent);
    if req.parent in g.dirs {
      DuplicateIff(v, g, req.parent, KeyReq(req));
      ShownKey(v, g, fs, req.parent, KeyReq(req));
      SlotLeftIff(v, g, fs, req.parent);
    }
  }

  lemma WriteRefused(w: Width, v: Vol, g: Layout, req: Request, buf: Bytes, fs: FS)
    requires Inv(v, g) && CanWrite(w, v, g, req, buf) && Shows(v, g, fs) && !Stores(v, req)
    ensures Write(w, v, req, buf).0 == v && AbsWrite(fs, req, buf, Write(w, v, req, buf).1, fs)
  {
    ParentIff(v, g, req.parent);
    ReachesIff(v, g, req, fs);
  }

  lemma WriteStored(w: Width, v: Vol, g: Layout, req: Request, buf: Bytes, fs: FS)
    requires Inv(v, g) && CanWrite(w, v, g, req, buf) && Shows(v, g, fs) && Stores(v, req)
    ensures Write(w, v, req, buf).1 == 0
    ensures FileSize(WriteAddition(w, v, req, buf).slot) <= |WriteAddition(w, v, req, buf).buf|
    ensures AbsWrite(fs, req, buf, 0, AddFS(fs, WriteAddition(w, v, req, buf)))
  {
    ReachesIff(v, g, req, fs);
    WriteAddsFS(w, v, g, req, buf, fs);
    WritePlaces(w, v, req, buf);
    TargetFresh(v, g, req);
    PlaceLeft(v, g, req, fs);
  }

  /** A request that gets past the checks and finds a slot is not for the all-zero key. */
  lemma PlaceLeft(v: Vol, g: Layout, req: Request, fs: FS)
    requires Inv(v, g) && Shows(v, g, fs) && req.parent in g.dirs && AbsReaches(fs, req)
    requires FirstUnused(v.disk[req.parent], 2) < SLOTS
    ensures HasPlace(fs, req.parent, KeyReq(req))
  {
    SlotLeftIff(v, g, fs, req.parent);
  }

  lemma WriteSimulates(w: Width, v: Vol, g: Layout, req: Request, buf: Bytes, fs: FS) returns (fs': FS)
    requires Inv(v, g) && CanWrite(w, v, g, req, buf) && Shows(v, g, fs)
    ensures DirsOk(WriteLayout(w, v, g, req, buf))
    ensures Shows(Write(w, v, req, buf).0, WriteLayout(w, v, g, req, buf), fs')
    ensures AbsWrite(fs, req, buf, Write(w, v, req, buf).1, fs')
  {
    fs' := fs;
    if Stores(v, req) {
      var a := WriteAddition(w, v, req, buf);
      WriteStored(w, v, g, req, buf, fs);
      WriteFits(w, v, g, req, buf);
      WriteMatches(w, v, req, buf);
      WriteAdds(w, v, g, req, buf);
      fs' := AddFS(fs, a);
      AddShows(v, g, a, fs);
    } else {
      WriteRefused(w, v, g, req, buf, fs);
    }
  }

  /** A folder is empty on disk exactly when nothing is listed under it. */
  lemma EmptyIff(v: Vol, g: Layout, fs: FS, c: nat)
    requires DirsOk(g) && Shows(v, g, fs) && c in g.dirs
    ensures AbsEmpty(fs, c) <==> !FolderNotEmpty(v.disk[c])
  {
    if FolderNotEmpty(v.disk[c]) {
      var i :| 2 <= i < SLOTS && Used(SlotAt(v.disk[c], i));
      assert ShowsEntry(v, fs, c, i);
    }
    if !AbsEmpty(fs, c) {
      var k :| k in fs.entries && k.0 == c;
      var i := SlotFor(v, g, k.0, k.1);
      assert Used(SlotAt(v.disk[c], i));
    }
  }

  /** What delete and read find, in abstract terms. */
  lemma FoundIs(v: Vol, g: Layout, req: Request, fs: FS)
    requires Inv(v, g) && LookupOk(v, g, req) && Shows(v, g, fs)
    ensures ValidParent(v, req.parent) <==> req.parent in fs.names
    ensures req.parent in fs.names ==>
      var k := (req.parent as nat, KeyReq(req));
      if HeadKey(fs, req.parent, KeyReq(req)) then Finds(v, req) && Hit(v, req) < 2
      else if k in fs.entries then
        Finds(v, req) && Hit(v, req) >= 2 && InRange(Found(v, req)) && fs.entries[k] == ObjOf(v, Found(v, req))
      else !Finds(v, req)
  {
    ParentIff(v, g, req.parent);
    if req.parent in g.dirs {
      HitIs(v, g, req.parent, KeyReq(req));
      ShownKey(v, g, fs, req.parent, KeyReq(req));
    }
  }

  lemma DeleteSimulates(v: Vol, g: Layout, req: Request, fs: FS) returns (fs': FS)
    requires Inv(v, g) && CanDelete(v, g, req) && Shows(v, g, fs)
    ensures DeleteSafe(v, req) && DirsOk(DeleteLayout(v, g, req))
    ensures Shows(Delete(v, req).0, DeleteLayout(v, g, req), fs')
    ensures AbsDelete(fs, req, Delete(v, req).1, fs')
  {
    LookupsAreSafe(v, g, req);
    FoundIs(v, g, req, fs);
    fs' := fs;
    if Finds(v, req) {
      var e, i := Found(v, req), Hit(v, req);
      if i < 2 {
        HeadEntry(v, g, req.parent, i);
      } else {
        HitEntry(v, g, req);
        if IsFolder(e) { EmptyIff(v, g, fs, Start(e)); }
      }
    }
    if Erases(v, req) {
      var r, e := Ref(req.parent, Hit(v, req)), Found(v, req);
      DeleteRemoves(v, g, req);
      fs' := RemoveFS(fs, r, e);
      RemoveShows(v, g, r, e, fs);
    }
  }

  lemma FileObj(v: Vol, e: Slot)
    requires InRange(e) && !IsFolder(e)
    ensures ObjOf(v, e).File? && |ObjOf(v, e).data| == FileSize(e)
    ensures ObjOf(v, e).data <= GetData(v.disk, Start(e), EntryLen(e))
  {
  }

  /** read once the entry is found. */
  lemma ReadFound(v: Vol, g: Layout, req: Request)
    requires DirsOk(g) && HeadsOk(v, g) && SlotsOk(v, g) && LookupOk(v, g, req) && ReadSafe(v, req) && Finds(v, req)
    ensures Hit(v, req) < 2 ==> Read(v, req).1 == 1
    ensures Hit(v, req) >= 2 ==>
              var e := Found(v, req);
              InRange(e) && match ObjOf(v, e)
                            case Folder(_) => Read(v, req).1 == 1
                            case File(bytes) =>
                              if req.size < |bytes| then Read(v, req).1 == 2
                              else Read(v, req).1 == 0 && bytes <= Read(v, req).0
  {
    if Hit(v, req) < 2 {
      HeadEntry(v, g, req.parent, Hit(v, req));
    } else {
      HitEntry(v, g, req);
      if !IsFolder(Found(v, req)) { FileObj(v, Found(v, req)); }
    }
  }

  lemma ReadSimulates(v: Vol, g: Layout, req: Request, fs: FS)
    requires Inv(v, g) && LookupOk(v, g, req) && Shows(v, g, fs)
    ensures ReadSafe(v, req) && AbsRead(fs, req, Read(v, req).1, Read(v, req).0)
  {
    LookupsAreSafe(v, g, req);
    FoundIs(v, g, req, fs);
    if Finds(v, req) { ReadFound(v, g, req); }
  }

  lemma {:induction false} FirstOfData(disk: seq<Cluster>, s: nat, n: nat)
    requires 0 < n && s + n <= |disk|
    ensures GetData(disk, s, n)[..CLUSTER_SIZE] == disk[s]
  {
    if n > 1 {
      FirstOfData(disk, s, n - 1);
      var front := GetData(disk, s, n - 1);
      assert (front + disk[s + n - 1])[..CLUSTER_SIZE] == front[..CLUSTER_SIZE];
    } else {
      assert GetData(disk, s, 0) + disk[s] == disk[s];
    }
  }

  lemma TableTabulates(v: Vol, g: Layout, fs: FS, c: nat)
    requires DirsOk(g) && SlotsOk(v, g) && Shows(v, g, fs) && c in g.dirs
    ensures Tabulates(fs, c, v.disk[c])
  {
    forall i: nat | 2 <= i < SLOTS && Used(SlotAt(v.disk[c], i))
      ensures SlotShows(fs, c, SlotAt(v.disk[c], i))
    {
      assert ShowsEntry(v, fs, c, i);
    }
    forall key | (c, key) in fs.entries
      ensures HasSlot(v.disk[c], key)
    {
      ShownKey(v, g, fs, c, key);
      var i := SlotFor(v, g, c, key);
      assert Used(SlotAt(v.disk[c], i)) && KeyOf(SlotAt(v.disk[c], i)) == key;
    }
  }

  lemma DataGives(v: Vol, g: Layout, fs: FS, c: nat, size: u32)
    requires DirsOk(g) && SlotsOk(v, g) && Shows(v, g, fs) && c in g.dirs
    ensures c + DirClusters(size) <= IMAGE_CLUSTERS && Gives(fs, c, size, GetData(v.disk, c, DirClusters(size)))
  {
    TableTabulates(v, g, fs, c);
    if DirClusters(size) > 0 {
      FirstOfData(v.disk, c, DirClusters(size));
    }
  }

  /** The head of a directory leads where the abstract file system says. */
  lemma HeadLeadsTo(v: Vol, g: Layout, fs: FS, d: nat, key: Key)
    requires Inv(v, g) && Shows(v, g, fs) && d in g.dirs && HeadKey(fs, d, key)
    ensures var c := if key == Key(fs.names[d], NO_EXT) then d else ParentOf(g, d);
            c in g.dirs && HeadLeads(fs, d, key, c)
  {
    HeadEntry(v, g, d, 1);
    assert DirOk(v, g, d);
    if d != ROOT {
      assert ListedOk(v, g, d);
      assert ShowsEntry(v, fs, g.owner[d].dir, g.owner[d].slot);
    }
  }

  lemma HeadGives(v: Vol, g: Layout, req: Request, fs: FS)
    requires Inv(v, g) && LookupOk(v, g, req) && Shows(v, g, fs) && req.parent in g.dirs
    requires HeadKey(fs, req.parent, KeyReq(req)) && ReadDirectorySafe(v, req)
    ensures AbsReadDirectory(fs, req, ReadDirectory(v, req).1, ReadDirectory(v, req).0)
  {
    var d: nat := req.parent;
    var key := KeyReq(req);
    FoundIs(v, g, req, fs);
    HitIs(v, g, d, key);
    HeadLeadsTo(v, g, fs, d, key);
    var c := if key == Key(fs.names[d], NO_EXT) then d else ParentOf(g, d);
    HeadEntry(v, g, d, Hit(v, req));
    DataGives(v, g, fs, c, req.size);
    assert HeadLeads(fs, d, key, c);
  }

  /** A lookup that picks an unused slot: the key is all zero and names nothing. */
  lemma UnusedReads(v: Vol, g: Layout, req: Request, fs: FS)
    requires Inv(v, g) && ParentOk(v, g, req.parent) && Shows(v, g, fs)
    requires Finds(v, req) && !Used(Found(v, req))
    ensures ReadDirectorySafe(v, req) && ReadDirectory(v, req).1 == 1
    ensures req.parent in fs.names && Unnamed(fs, req.parent, KeyReq(req)) && !HeadKey(fs, req.parent, KeyReq(req))
  {
    var p, i := req.parent, Hit(v, req);
    UnusedIsUnsafe(v, g, req);
    HeadEntry(v, g, p, 0);
    HeadEntry(v, g, p, 1);
    assert DirOk(v, g, p);
    assert i >= 2;
    assert SlotOk(v, g, p, i);
    ZeroSlotKey();
    assert FirstUnused(v.disk[p], 2) <= i;
    SlotLeftIff(v, g, fs, p);
  }

  /** Where nothing is found, no slot is unused or the key is not all zero. */
  lemma NoneUnused(v: Vol, g: Layout, req: Request, fs: FS)
    requires Inv(v, g) && Shows(v, g, fs) && req.parent in g.dirs && !Finds(v, req)
    ensures !Unnamed(fs, req.parent, KeyReq(req))
  {
    DirsAreValidParents(v, g, req.parent);
    SlotLeftIff(v, g, fs, req.parent);
    if Unnamed(fs, req.parent, KeyReq(req)) {
      UnusedMatches(v, g, req.parent, 0);
    }
  }

  lemma ReadDirectorySimulates(v: Vol, g: Layout, req: Request, fs: FS)
    requires Inv(v, g) && ParentOk(v, g, req.parent) && Shows(v, g, fs)
    ensures ReadDirectorySafe(v, req)
    ensures AbsReadDirectory(fs, req, ReadDirectory(v, req).1, ReadDirectory(v, req).0)
  {
    LookupSafeIff(v, g, req);
    if Finds(v, req) && !Used(Found(v, req)) {
      UnusedReads(v, g, req, fs);
      return;
    }
    FoundIs(v, g, req, fs);
    if !Finds(v, req) && req.parent in g.dirs {
      NoneUnused(v, g, req, fs);
    }
    if Finds(v, req) {
      if HeadKey(fs, req.parent, KeyReq(req)) {
        HeadGives(v, g, req, fs);
      } else {
        HitEntry(v, g, req);
        var e := Found(v, req);
        if IsFolder(e) {
          DataGives(v, g, fs, Start(e), req.size);
        }
      }
    }
  }

  // ----- Runs

  /** A call of the driver. `Mount` is initialize_filesystem_fat32 with a cold cache. */
  datatype Op =
    | OpWrite(req: Request, buf: Bytes)
    | OpDelete(req: Request)
    | OpRead(req: Request)
    | OpReadDirectory(req: Request)
    | OpMount(cache: Fat, stack: Cluster)

  /** The return code of a call, and the bytes it hands back. */
  datatype Ret = Ret(code: int, data: Bytes)

  ghost predicate CanStep(w: Width, v: Vol, g: Layout, op: Op) {
    match op
    case OpWrite(req, buf) => CanWrite(w, v, g, req, buf)
    case OpDelete(req) => CanDelete(v, g, req)
    case OpRead(req) => LookupOk(v, g, req)
    case OpReadDirectory(req) => ParentOk(v, g, req.parent)
    case OpMount(_, _) => true
  }

  /** A volume together with the layout that explains it. */
  datatype State = State(v: Vol, g: Layout)

  ghost function Step(w: Width, s: State, op: Op): (State, Ret)
    requires Inv(s.v, s.g) && CanStep(w, s.v, s.g, op)
  {
    match op
    case OpWrite(req, buf) =>
      var (v, code) := Write(w, s.v, req, buf);
      (State(v, WriteLayout(w, s.v, s.g, req, buf)), Ret(code, []))
    case OpDelete(req) =>
      LookupsAreSafe(s.v, s.g, req);
      var (v, code) := Delete(s.v, req);
      (State(v, DeleteLayout(s.v, s.g, req)), Ret(code, []))
    case OpRead(req) =>
      LookupsAreSafe(s.v, s.g, req);
      var (data, code) := Read(s.v, req);
      (s, Ret(code, data))
    case OpReadDirectory(req) =>
      LookupSafeIff(s.v, s.g, req);
      var (data, code) := ReadDirectory(s.v, req);
      (s, Ret(code, data))
    case OpMount(cache, stack) => (State(Mount(s.v.(fat := cache), stack), s.g), Ret(0, []))
  }

  ghost predicate AbsStep(fs: FS, op: Op, ret: Ret, fs': FS) {
    match op
    case OpWrite(req, buf) => AbsWrite(fs, req, buf, ret.code, fs')
    case OpDelete(req) => AbsDelete(fs, req, ret.code, fs')
    case OpRead(req) => AbsRead(fs, req, ret.code, ret.data) && fs' == fs
    case OpReadDirectory(req) => AbsReadDirectory(fs, req, ret.code, ret.data) && fs' == fs
    case OpMount(_, _) => fs' == fs
  }

  lemma StepKeepsInv(w: Width, s: State, op: Op)
    requires Inv(s.v, s.g) && CanStep(w, s.v, s.g, op)
    ensures Inv(Step(w, s, op).0.v, Step(w, s, op).0.g)
  {
    match op
    case OpWrite(req, buf) => WriteKeepsInv(w, s.v, s.g, req, buf);
    case OpDelete(req) => DeleteKeepsInv(s.v, s.g, req);
    case OpRead(_) =>
    case OpReadDirectory(_) =>
    case OpMount(cache, stack) => RemountIsIdentity(s.v, s.g, cache, stack);
  }

  /** Every call of the driver is a step of the abstract file system. */
  lemma StepSimulates(w: Width, s: State, op: Op)
    requires Inv(s.v, s.g) && CanStep(w, s.v, s.g, op)
    ensures var (s', ret) := Step(w, s, op);
            Inv(s'.v, s'.g) && AbsStep(Abs(s.v, s.g), op, ret, Abs(s'.v, s'.g))
  {
    StepKeepsInv(w, s, op);
    var s' := Step(w, s, op).0;
    var fs := Abs(s.v, s.g);
    AbsShows(s.v, s.g);
    AbsShows(s'.v, s'.g);
    var fs' := fs;
    match op {
      case OpWrite(req, buf) =>
        fs' := WriteSimulates(w, s.v, s.g, req, buf, fs);
      case OpDelete(req) =>
        fs' := DeleteSimulates(s.v, s.g, req, fs);
      case OpRead(req) =>
        ReadSimulates(s.v, s.g, req, fs);
      case OpReadDirectory(req) =>
        ReadDirectorySimulates(s.v, s.g, req, fs);
      case OpMount(cache, stack) =>
        RemountIsIdentity(s.v, s.g, cache, stack);
    }
    ShowsUnique(s'.v, s'.g, fs', Abs(s'.v, s'.g));
  }

  /** Every call of the run meets its requirements when its turn comes. */
  ghost predicate RunOk(w: Width, s: State, ops: seq<Op>)
    requires Inv(s.v, s.g)
    decreases |ops|
  {
    ops != [] ==>
      && CanStep(w, s.v, s.g, ops[0])
      && (StepKeepsInv(w, s, ops[0]); RunOk(w, Step(w, s, ops[0]).0, ops[1..]))
  }

  ghost function Run(w: Width, s: State, ops: seq<Op>): (State, seq<Ret>)
    requires Inv(s.v, s.g) && RunOk(w, s, ops)
    decreases |ops|
  {
    if ops == [] then (s, [])
    else
      var (s1, ret) := Step(w, s, ops[0]);
      StepKeepsInv(w, s, ops[0]);
      var (s2, rets) := Run(w, s1, ops[1..]);
      (s2, [ret] + rets)
  }

  ghost predicate AbsRun(fs: FS, ops: seq<Op>, rets: seq<Ret>, fs': FS)
    decreases |ops|
  {
    if ops == [] then rets == [] && fs' == fs
    else rets != [] && exists mid :: AbsStep(fs, ops[0], rets[0], mid) && AbsRun(mid, ops[1..], rets[1..], fs')
  }

  /** Over every run the volume stays sound and behaves as the abstract file system does. */
  lemma {:induction false} RunSimulates(w: Width, s: State, ops: seq<Op>)
    requires Inv(s.v, s.g) && RunOk(w, s, ops)
    ensures var (s', rets) := Run(w, s, ops);
            Inv(s'.v, s'.g) && AbsRun(Abs(s.v, s.g), ops, rets, Abs(s'.v, s'.g))
    decreases |ops|
  {
    if ops != [] {
      StepSimulates(w, s, ops[0]);
      var (s1, ret) := Step(w, s, ops[0]);
      RunSimulates(w, s1, ops[1..]);
      var (s', rets) := Run(w, s1, ops[1..]);
      assert ([ret] + rets)[1..] == rets;
      assert AbsStep(Abs(s.v, s.g), ops[0], ret, Abs(s1.v, s1.g));
    }
  }

  ghost function FreshState(v: Vol, root: Cluster): (s: State)
    requires CleanStack(root)
    ensures Inv(s.v, s.g)
  {
    FormatSoundIff(v, root);
    State(Format(v, root), ROOT_LAYOUT)
  }

  const EMPTY_FS := FS(map[ROOT := ROOT_NAME], map[])

  /** The same from a freshly formatted disk, whatever it held before: the run starts from a file
      system with nothing but the root. */
  lemma FormattedRunSimulates(w: Width, v: Vol, root: Cluster, ops: seq<Op>)
    requires CleanStack(root) && RunOk(w, FreshState(v, root), ops)
    ensures var (s', rets) := Run(w, FreshState(v, root), ops);
            Inv(s'.v, s'.g) && AbsRun(EMPTY_FS, ops, rets, Abs(s'.v, s'.g))
  {
    var s := FreshState(v, root);
    FormatRoot(v, root);
    FormattedAbs(s.v);
    RunSimulates(w, s, ops);
  }

  lemma FormattedAbs(f: Vol)
    requires Inv(f, ROOT_LAYOUT) && f.fat == FormatFat()
    ensures Abs(f, ROOT_LAYOUT) == EMPTY_FS
  {
    var fs := EMPTY_FS;
    assert DirOk(f, ROOT_LAYOUT, ROOT);
    forall i | 2 <= i < SLOTS
      ensures !Used(Entry(f, ROOT, i))
    {
      assert SlotOk(f, ROOT_LAYOUT, ROOT, i);
    }
    assert Shows(f, ROOT_LAYOUT, fs);
    AbsShows(f, ROOT_LAYOUT);
    ShowsUnique(f, ROOT_LAYOUT, fs, Abs(f, ROOT_LAYOUT));
  }

  /** The volume after the first boot: block 0 of the disk is not the signature. */
  ghost function BootState(v: Vol, root: Cluster): (s: State)
    requires v.disk[0][..BLOCK_SIZE] != Signature() && CleanStack(root)
    ensures Inv(s.v, s.g)
  {
    FirstBootIff(v, root);
    State(Mount(v, root), ROOT_LAYOUT)
  }

  /** Over every run from the first boot, whatever the disk held, the driver behaves as a file system that
      starts with nothing but the root. */
  lemma BootedRunSimulates(w: Width, v: Vol, root: Cluster, ops: seq<Op>)
    requires v.disk[0][..BLOCK_SIZE] != Signature() && CleanStack(root) && RunOk(w, BootState(v, root), ops)
    ensures Abs(BootState(v, root).v, BootState(v, root).g) == EMPTY_FS
    ensures var (s', rets) := Run(w, BootState(v, root), ops);
            Inv(s'.v, s'.g) && AbsRun(EMPTY_FS, ops, rets, Abs(s'.v, s'.g))
  {
    var s := BootState(v, root);
    FormatRoot(v, root);
    FormattedAbs(s.v);
    RunSimulates(w, s, ops);
  }

  // ----- The all-zero key over runs

  /** Nothing is called by the all-zero key, and no directory has the empty name. */
  ghost predicate Named(fs: FS) {
    (forall k :: k in fs.entries ==> k.1 != ZERO_KEY) && forall d :: d in fs.names ==> fs.names[d] != ZERO_KEY.name
  }

  lemma StepNames(fs: FS, op: Op, ret: Ret, fs': FS)
    requires AbsStep(fs, op, ret, fs') && Named(fs)
    ensures Named(fs')
  {
    if op.OpWrite? {
      assert op.req.ext == NO_EXT && op.req.name == ZERO_KEY.name ==> KeyReq(op.req) == ZERO_KEY;
    }
  }

  lemma {:induction false} RunNames(fs: FS, ops: seq<Op>, rets: seq<Ret>, fs': FS)
    requires AbsRun(fs, ops, rets, fs') && Named(fs)
    ensures Named(fs')
    decreases |ops|
  {
    if ops != [] {
      var mid :| AbsStep(fs, ops[0], rets[0], mid) && AbsRun(mid, ops[1..], rets[1..], fs');
      StepNames(fs, ops[0], rets[0], mid);
      RunNames(mid, ops[1..], rets[1..], fs');
    }
  }

  /** After any run from the first boot, delete and read may be asked for the all-zero key in a directory exactly
      when that directory is full. */
  lemma ZeroKeyAfterRun(w: Width, v: Vol, root: Cluster, ops: seq<Op>, req: Request)
    requires v.disk[0][..BLOCK_SIZE] != Signature() && CleanStack(root)
    requires RunOk(w, BootState(v, root), ops) && KeyReq(req) == ZERO_KEY
    requires Inv(Run(w, BootState(v, root), ops).0.v, Run(w, BootState(v, root), ops).0.g)
    requires req.parent in Abs(Run(w, BootState(v, root), ops).0.v, Run(w, BootState(v, root), ops).0.g).names
    ensures var s := Run(w, BootState(v, root), ops).0;
            var full := |KeysIn(Abs(s.v, s.g), req.parent)| == ROOM;
            (DeleteSafe(s.v, req) <==> full) && (ReadSafe(s.v, req) <==> full)
  {
    BootedRunSimulates(w, v, root, ops);
    var (s, rets) := Run(w, BootState(v, root), ops);
    RootNameNotZero();
    RunNames(EMPTY_FS, ops, rets, Abs(s.v, s.g));
    AbsShows(s.v, s.g);
    ZeroLookupIff(s.v, s.g, Abs(s.v, s.g), req);
  }

  lemma RootNameNotZero()
    ensures Named(EMPTY_FS)
  {
    assert ROOT_NAME[0] != ZERO_KEY.name[0];
  }

  // ----- A written file stays readable

  /** No call of the run deletes entry k. */
  predicate Spares(ops: seq<Op>, k: (nat, Key)) {
    forall i :: 0 <= i < |ops| && ops[i].OpDelete? ==> (ops[i].req.parent, KeyReq(ops[i].req)) != k
  }

  lemma StepSpares(fs: FS, op: Op, ret: Ret, fs': FS, k: (nat, Key), data: Bytes)
    requires AbsStep(fs, op, ret, fs') && Spares([op], k)
    requires k in fs.entries && fs.entries[k] == File(data) && k.0 in fs.names
    ensures k in fs'.entries && fs'.entries[k] == File(data)
    ensures k.0 in fs'.names && fs'.names[k.0] == fs.names[k.0]
  {
    assert [op][0] == op;
  }

  lemma {:induction false} RunSpares(fs: FS, ops: seq<Op>, rets: seq<Ret>, fs': FS, k: (nat, Key), data: Bytes)
    requires AbsRun(fs, ops, rets, fs') && Spares(ops, k)
    requires k in fs.entries && fs.entries[k] == File(data) && k.0 in fs.names
    ensures k in fs'.entries && fs'.entries[k] == File(data)
    ensures k.0 in fs'.names && fs'.names[k.0] == fs.names[k.0]
    decreases |ops|
  {
    if ops != [] {
      var mid :| AbsStep(fs, ops[0], rets[0], mid) && AbsRun(mid, ops[1..], rets[1..], fs');
      assert [ops[0]][0] == ops[0];
      StepSpares(fs, ops[0], rets[0], mid, k, data);
      RunSpares(mid, ops[1..], rets[1..], fs', k, data);
    }
  }

  lemma ReadsFile(v: Vol, g: Layout, fs: FS, req: Request, data: Bytes)
    requires Inv(v, g) && Shows(v, g, fs)
    requires (req.parent, KeyReq(req)) in fs.entries && fs.entries[(req.parent, KeyReq(req))] == File(data)
    requires req.parent in fs.names && KeyReq(req) != ZERO_KEY && KeyReq(req) != DOTDOT_KEY && req.size >= |data|
    ensures ReadSafe(v, req)
    ensures if KeyReq(req) == Key(fs.names[req.parent], NO_EXT) then Read(v, req).1 == 1
            else Read(v, req).1 == 0 && data <= Read(v, req).0
  {
    NamedLookupOk(v, g, req);
    ReadSimulates(v, g, req, fs);
  }

  lemma WroteFile(w: Width, s: State, req: Request, buf: Bytes)
    requires Inv(s.v, s.g) && CanStep(w, s.v, s.g, OpWrite(req, buf)) && req.size > 0
    requires Step(w, s, OpWrite(req, buf)).1.code == 0
    ensures req.parent in s.g.dirs && req.parent < MAP_SIZE && req.size <= |buf|
    ensures KeyReq(req) != ZERO_KEY && KeyReq(req) != DOTDOT_KEY
    ensures var s1 := Step(w, s, OpWrite(req, buf)).0;
            && Inv(s1.v, s1.g)
            && var fs, k := Abs(s1.v, s1.g), (req.parent as nat, KeyReq(req));
            && k in fs.entries && fs.entries[k] == File(buf[..req.size])
            && k.0 in fs.names && fs.names[k.0] == Name(Entry(s.v, k.0, 0))
  {
    StepSimulates(w, s, OpWrite(req, buf));
    AbsShows(s.v, s.g);
    var (s1, ret) := Step(w, s, OpWrite(req, buf));
    assert AbsWrite(Abs(s.v, s.g), req, buf, ret.code, Abs(s1.v, s1.g));
  }

  /** A file keeps its bytes over every run that does not delete it, and reads back with a large
      enough buffer exactly when it is not named like its own folder. */
  lemma FileStaysReadable(w: Width, s: State, ops: seq<Op>, req: Request, data: Bytes)
    requires Inv(s.v, s.g) && RunOk(w, s, ops) && Spares(ops, (req.parent, KeyReq(req)))
    requires (req.parent, KeyReq(req)) in Abs(s.v, s.g).entries
    requires Abs(s.v, s.g).entries[(req.parent, KeyReq(req))] == File(data)
    requires req.parent in Abs(s.v, s.g).names && req.size >= |data|
    requires KeyReq(req) != ZERO_KEY && KeyReq(req) != DOTDOT_KEY
    ensures var end := Run(w, s, ops).0.v;
            && ReadSafe(end, req)
            && if KeyReq(req) == Key(Abs(s.v, s.g).names[req.parent], NO_EXT) then Read(end, req).1 == 1
               else Read(end, req).1 == 0 && data <= Read(end, req).0
  {
    RunSimulates(w, s, ops);
    var (s2, rets) := Run(w, s, ops);
    var fs2 := Abs(s2.v, s2.g);
    RunSpares(Abs(s.v, s.g), ops, rets, fs2, (req.parent, KeyReq(req)), data);
    AbsShows(s2.v, s2.g);
    ReadsFile(s2.v, s2.g, fs2, req, data);
  }

  /** After a successful write of a file and any run that does not delete it, reading it back with a
      large enough buffer returns 0 and its bytes, exactly when the file is not named like its own
      folder; in that case read reports a folder. */
  lemma WrittenFileReadsBack(w: Width, s: State, req: Request, buf: Bytes, s1: State, ops: seq<Op>, again: Request)
    requires Inv(s.v, s.g) && CanStep(w, s.v, s.g, OpWrite(req, buf)) && req.size > 0
    requires Step(w, s, OpWrite(req, buf)) == (s1, Ret(0, []))
    requires Inv(s1.v, s1.g) && RunOk(w, s1, ops) && Spares(ops, (req.parent, KeyReq(req)))
    requires again.parent == req.parent && KeyReq(again) == KeyReq(req) && again.size >= req.size
    ensures req.parent < MAP_SIZE && req.size <= |buf| && ReadSafe(Run(w, s1, ops).0.v, again)
    ensures var (data, code) := Read(Run(w, s1, ops).0.v, again);
            if KeyReq(req) == Key(Name(Entry(s.v, req.parent, 0)), NO_EXT) then code == 1
            else code == 0 && buf[..req.size] <= data
  {
    WroteFile(w, s, req, buf);
    FileStaysReadable(w, s1, ops, again, buf[..req.size]);
  }
}
