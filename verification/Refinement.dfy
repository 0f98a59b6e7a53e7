/** The volume as an abstract file system: named directories, and a map from (directory, key) to a
    file's bytes or a folder. */
module Refinement {
  import opened Memory
  import opened DirEntry
  import opened Disk
  import opened Volume
  import opened Invariant

  datatype Obj = File(data: Bytes) | Folder(id: nat)

  /** `names` gives each directory's own name; `entries` what each directory lists. */
  datatype FS = FS(names: map<nat, Bytes>, entries: map<(nat, Key), Obj>)

  // ----- File contents

  lemma {:induction false} GetDataSame(disk: seq<Cluster>, disk': seq<Cluster>, s: nat, n: nat)
    requires s + n <= |disk| && s + n <= |disk'|
    requires forall c :: s <= c < s + n ==> disk'[c] == disk[c]
    ensures GetData(disk', s, n) == GetData(disk, s, n)
  {
    if n > 0 { GetDataSame(disk, disk', s, n - 1); }
  }

  lemma {:induction false} GetDataPut(disk: seq<Cluster>, s: nat, n: nat, buf: Bytes)
    requires s + n <= |disk| && CLUSTER_SIZE * n <= |buf|
    requires forall c :: s <= c < s + n ==> disk[c] == Piece(buf, c - s)
    ensures GetData(disk, s, n) == buf[..CLUSTER_SIZE * n]
  {
    if n > 0 {
      GetDataPut(disk, s, n - 1, buf);
      SliceMore(buf, 0, CLUSTER_SIZE * (n - 1), CLUSTER_SIZE * n);
      assert disk[s + n - 1] == buf[CLUSTER_SIZE * (n - 1)..CLUSTER_SIZE * n];
    }
  }

  predicate InRange(e: Slot) {
    FIRST_DATA <= Start(e) && Start(e) + EntryLen(e) <= MAP_SIZE
  }

  /** What an entry stands for. */
  function ObjOf(v: Vol, e: Slot): Obj
    requires InRange(e)
  {
    if IsFolder(e) then Folder(Start(e)) else File(GetData(v.disk, Start(e), EntryLen(e))[..FileSize(e)])
  }

  lemma ObjSame(v: Vol, v': Vol, e: Slot)
    requires InRange(e)
    requires !IsFolder(e) ==> forall c :: Claims(e, c) && 0 <= c < MAP_SIZE ==> v'.disk[c] == v.disk[c]
    ensures ObjOf(v', e) == ObjOf(v, e)
  {
    if !IsFolder(e) {
      var s, n := Start(e), EntryLen(e);
      forall c | s <= c < s + n
        ensures v'.disk[c] == v.disk[c]
      {
        assert Claims(e, c);
      }
      GetDataSame(v.disk, v'.disk, s, n);
    }
  }

  // ----- The abstraction

  /** Slot i of directory d is the entry for key. */
  ghost predicate ListedAt(v: Vol, g: Layout, d: nat, i: nat, key: Key)
    requires DirsOk(g)
  {
    d in g.dirs && 2 <= i < SLOTS && Used(Entry(v, d, i)) && KeyOf(Entry(v, d, i)) == key
  }

  ghost predicate HasKey(v: Vol, g: Layout, d: nat, key: Key)
    requires DirsOk(g)
  {
    exists i: nat :: ListedAt(v, g, d, i, key)
  }

  ghost function KeySet(v: Vol, g: Layout): (ks: set<(nat, Key)>)
    requires DirsOk(g)
  {
    set d, i | d in g.dirs && 2 <= i < SLOTS && Used(Entry(v, d, i)) :: (d, KeyOf(Entry(v, d, i)))
  }

  lemma KeySetIs(v: Vol, g: Layout, d: nat, key: Key)
    requires DirsOk(g)
    ensures (d, key) in KeySet(v, g) <==> HasKey(v, g, d, key)
  {
    if HasKey(v, g, d, key) {
      var i: nat :| ListedAt(v, g, d, i, key);
      assert (d, KeyOf(Entry(v, d, i))) in KeySet(v, g);
    }
    if (d, key) in KeySet(v, g) {
      var i :| 2 <= i < SLOTS && d in g.dirs && Used(Entry(v, d, i)) && KeyOf(Entry(v, d, i)) == key;
      assert ListedAt(v, g, d, i, key);
    }
  }

  ghost function SlotFor(v: Vol, g: Layout, d: nat, key: Key): (i: nat)
    requires DirsOk(g) && HasKey(v, g, d, key)
    ensures ListedAt(v, g, d, i, key)
  {
    var i: nat :| ListedAt(v, g, d, i, key);
    i
  }

  /** The object listed under a key. */
  ghost function Lookup(v: Vol, g: Layout, d: nat, key: Key): Obj
    requires DirsOk(g) && SlotsOk(v, g) && HasKey(v, g, d, key)
  {
    var i := SlotFor(v, g, d, key);
    assert SlotOk(v, g, d, i);
    ObjOf(v, Entry(v, d, i))
  }

  lemma ListedOnce(v: Vol, g: Layout, d: nat, i: nat, j: nat, key: Key)
    requires DirsOk(g) && HeadsOk(v, g) && ListedAt(v, g, d, i, key) && ListedAt(v, g, d, j, key)
    ensures i == j
  {
    assert DirOk(v, g, d);
  }

  lemma LookupIs(v: Vol, g: Layout, d: nat, i: nat, key: Key)
    requires DirsOk(g) && HeadsOk(v, g) && SlotsOk(v, g) && ListedAt(v, g, d, i, key)
    ensures InRange(Entry(v, d, i)) && Lookup(v, g, d, key) == ObjOf(v, Entry(v, d, i))
  {
    ListedOnce(v, g, d, i, SlotFor(v, g, d, key), key);
    assert SlotOk(v, g, d, i);
  }

  ghost function Abs(v: Vol, g: Layout): FS
    requires Inv(v, g)
  {
    assert forall k :: k in KeySet(v, g) ==> HasKey(v, g, k.0, k.1) by {
      forall k | k in KeySet(v, g)
        ensures HasKey(v, g, k.0, k.1)
      {
        KeySetIs(v, g, k.0, k.1);
      }
    }
    FS(map d | d in g.dirs :: Name(Entry(v, d, 0)), map k | k in KeySet(v, g) :: Lookup(v, g, k.0, k.1))
  }

  /** The abstract state, entry by entry; Abs is the only one that satisfies it. */
  ghost predicate Shows(v: Vol, g: Layout, a: FS)
    requires DirsOk(g)
  {
    ShowsNames(v, g, a) && ShowsEntries(v, g, a) && ShowsKeys(v, g, a)
  }

  ghost predicate ShowsNames(v: Vol, g: Layout, a: FS)
    requires DirsOk(g)
  {
    a.names.Keys == g.dirs && forall d :: d in g.dirs ==> a.names[d] == Name(Entry(v, d, 0))
  }

  ghost predicate ShowsEntries(v: Vol, g: Layout, a: FS)
    requires DirsOk(g)
  {
    forall d, i :: d in g.dirs && 2 <= i < SLOTS && Used(Entry(v, d, i)) ==> ShowsEntry(v, a, d, i)
  }

  ghost predicate ShowsKeys(v: Vol, g: Layout, a: FS)
    requires DirsOk(g)
  {
    forall k :: k in a.entries ==> HasKey(v, g, k.0, k.1)
  }

  ghost predicate ShowsEntry(v: Vol, a: FS, d: nat, i: nat)
    requires d < MAP_SIZE && i < SLOTS
  {
    var e := Entry(v, d, i);
    (d, KeyOf(e)) in a.entries && InRange(e) && a.entries[(d, KeyOf(e))] == ObjOf(v, e)
  }

  lemma AbsShows(v: Vol, g: Layout)
    requires Inv(v, g)
    ensures Shows(v, g, Abs(v, g))
  {
    var a := Abs(v, g);
    forall d, i | d in g.dirs && 2 <= i < SLOTS && Used(Entry(v, d, i))
      ensures ShowsEntry(v, a, d, i)
    {
      var key := KeyOf(Entry(v, d, i));
      assert ListedAt(v, g, d, i, key);
      KeySetIs(v, g, d, key);
      LookupIs(v, g, d, i, key);
    }
    forall k | k in a.entries
      ensures HasKey(v, g, k.0, k.1)
    {
      KeySetIs(v, g, k.0, k.1);
    }
  }

  /** The abstract entries are exactly the listed ones. */
  lemma ShownKey(v: Vol, g: Layout, fs: FS, p: nat, key: Key)
    requires DirsOk(g) && Shows(v, g, fs)
    ensures (p, key) in fs.entries <==> HasKey(v, g, p, key)
    ensures HasKey(v, g, p, key) ==>
              var e := Entry(v, p, SlotFor(v, g, p, key)); InRange(e) && fs.entries[(p, key)] == ObjOf(v, e)
  {
    if HasKey(v, g, p, key) {
      var i := SlotFor(v, g, p, key);
      assert ShowsEntry(v, fs, p, i);
    }
  }

  lemma ShowsUnique(v: Vol, g: Layout, a: FS, b: FS)
    requires DirsOk(g) && Shows(v, g, a) && Shows(v, g, b)
    ensures a == b
  {
    ShowsWithin(v, g, a, b);
    ShowsWithin(v, g, b, a);
    assert a.names == b.names;
    assert a.entries == b.entries;
  }

  lemma ShowsWithin(v: Vol, g: Layout, a: FS, b: FS)
    requires DirsOk(g) && Shows(v, g, a) && Shows(v, g, b)
    ensures forall k :: k in a.entries ==> k in b.entries && a.entries[k] == b.entries[k]
  {
    forall k | k in a.entries
      ensures k in b.entries && a.entries[k] == b.entries[k]
    {
      var i: nat :| ListedAt(v, g, k.0, i, k.1);
      assert ShowsEntry(v, a, k.0, i) && ShowsEntry(v, b, k.0, i);
    }
  }

  // ----- Adding an entry, abstractly

  /** What the added entry stands for. */
  ghost function NewObj(a: Addition): Obj
    requires FileSize(a.slot) <= |a.buf|
  {
    if IsFolder(a.slot) then Folder(a.s) else File(a.buf[..FileSize(a.slot)])
  }

  ghost function AddFS(fs: FS, a: Addition): FS
    requires FileSize(a.slot) <= |a.buf|
  {
    FS(if IsFolder(a.slot) then fs.names[a.s := Name(a.slot)] else fs.names,
       fs.entries[(a.p, KeyOf(a.slot)) := NewObj(a)])
  }

  /** The clusters of older files do not change. */
  lemma AddSparesFiles(v: Vol, g: Layout, a: Addition, d: nat, i: nat)
    requires AddFits(v, g, a) && HeadsOk(v, g) && SlotsOk(v, g) && OwnersOk(v, g)
    requires d in g.dirs && 2 <= i < SLOTS && Used(Entry(v, d, i))
    ensures InRange(Entry(v, d, i)) && ObjOf(AddVol(v, g, a), Entry(v, d, i)) == ObjOf(v, Entry(v, d, i))
  {
    var e, v' := Entry(v, d, i), AddVol(v, g, a);
    assert SlotOk(v, g, d, i) && DirOk(v, g, a.p);
    if !IsFolder(e) {
      forall c | Claims(e, c) && 0 <= c < MAP_SIZE
        ensures v'.disk[c] == v.disk[c]
      {
        assert c in g.owner && v.fat[c] != EMPTY_ENTRY;
        ClaimedIfDir(v, g, Ref(d, i), e, c);
        AddClusters(v, g, a, c);
      }
    }
    ObjSame(v, v', e);
  }

  lemma AddStores(v: Vol, g: Layout, a: Addition)
    requires AddFits(v, g, a) && HeadsOk(v, g) && Start(a.slot) == a.s && EntryLen(a.slot) == a.n
    ensures FileSize(a.slot) <= |a.buf| || IsFolder(a.slot)
    ensures InRange(a.slot) && (FileSize(a.slot) <= |a.buf| ==> ObjOf(AddVol(v, g, a), a.slot) == NewObj(a))
  {
    var v' := AddVol(v, g, a);
    assert DirOk(v, g, a.p);
    if !IsFolder(a.slot) {
      forall c | a.s <= c < a.s + a.n
        ensures v'.disk[c] == Piece(a.buf, c - a.s)
      {
        AddClusters(v, g, a, c);
      }
      GetDataPut(v'.disk, a.s, a.n, a.buf);
      assert a.buf[..CLUSTER_SIZE * a.n][..FileSize(a.slot)] == a.buf[..FileSize(a.slot)];
    }
  }

  lemma AddShowsOld(v: Vol, v': Vol, g: Layout, a: Addition, fs: FS, d: nat, i: nat)
    requires AddFits(v, g, a) && AddMatches(v, a) && Added(v, v', g, a) && FileSize(a.slot) <= |a.buf|
    requires d in g.dirs && 2 <= i < SLOTS && !(d == a.p && i == a.i)
    requires Used(Entry(v, d, i)) && ShowsEntry(v, fs, d, i) && ObjOf(v', Entry(v, d, i)) == ObjOf(v, Entry(v, d, i))
    ensures ShowsEntry(v', AddFS(fs, a), d, i)
  {
    assert Entry(v', d, i) == Entry(v, d, i);
  }

  lemma AddShowsKeys(v: Vol, v': Vol, g: Layout, a: Addition, fs: FS, k: (nat, Key))
    requires AddFits(v, g, a) && AddMatches(v, a) && Added(v, v', g, a) && FileSize(a.slot) <= |a.buf|
    requires k in AddFS(fs, a).entries && (k in fs.entries ==> HasKey(v, g, k.0, k.1))
    ensures DirsOk(AddLayout(g, a)) && HasKey(v', AddLayout(g, a), k.0, k.1)
  {
    var g' := AddLayout(g, a);
    if k == (a.p, KeyOf(a.slot)) {
      assert Entry(v', a.p, a.i) == a.slot;
      assert ListedAt(v', g', a.p, a.i, KeyOf(a.slot));
    } else {
      var i := SlotFor(v, g, k.0, k.1);
      assert Entry(v', k.0, i) == Entry(v, k.0, i);
      assert ListedAt(v', g', k.0, i, k.1);
    }
  }

  lemma AddShowsNames(v: Vol, v': Vol, g: Layout, a: Addition, fs: FS)
    requires AddFits(v, g, a) && AddMatches(v, a) && Added(v, v', g, a) && FileSize(a.slot) <= |a.buf|
    requires DirsOk(AddLayout(g, a)) && (IsFolder(a.slot) ==> v'.disk[a.s] == Piece(a.buf, 0))
    requires ShowsNames(v, g, fs)
    ensures ShowsNames(v', AddLayout(g, a), AddFS(fs, a))
  {
    forall d | d in AddLayout(g, a).dirs
      ensures AddFS(fs, a).names[d] == Name(Entry(v', d, 0))
    {
      if d in g.dirs {
        assert Entry(v', d, 0) == Entry(v, d, 0);
      } else {
        assert KeyOf(SlotAt(v'.disk[a.s], 0)) == Key(Name(a.slot), NO_EXT);
      }
    }
  }

  /** The directory a new folder adds is empty. */
  lemma AddShowsEmpty(v: Vol, v': Vol, a: Addition, i: nat)
    requires IsFolder(a.slot) && a.s < MAP_SIZE && CLUSTER_SIZE <= |a.buf| && v'.disk[a.s] == Piece(a.buf, 0)
    requires FreshTable(Piece(a.buf, 0), Name(a.slot), a.s, a.p) && 2 <= i < SLOTS
    ensures !Used(Entry(v', a.s, i))
  {
    assert SlotAt(Piece(a.buf, 0), i) == Zeros(SLOT_SIZE);
  }

  lemma AddShowsEntry(v: Vol, v': Vol, g: Layout, a: Addition, fs: FS, d: nat, i: nat)
    requires AddFits(v, g, a) && AddMatches(v, a) && HeadsOk(v, g) && SlotsOk(v, g) && OwnersOk(v, g)
    requires v' == AddVol(v, g, a) && Added(v, v', g, a) && FileSize(a.slot) <= |a.buf|
    requires ShowsEntries(v, g, fs) && InRange(a.slot) && ObjOf(v', a.slot) == NewObj(a)
    requires d in g.dirs && 2 <= i < SLOTS && Used(Entry(v', d, i))
    ensures ShowsEntry(v', AddFS(fs, a), d, i)
  {
    if d == a.p && i == a.i {
      assert Entry(v', d, i) == a.slot;
    } else {
      assert Entry(v', d, i) == Entry(v, d, i);
      assert ShowsEntry(v, fs, d, i);
      AddSparesFiles(v, g, a, d, i);
      AddShowsOld(v, v', g, a, fs, d, i);
    }
  }

  lemma NotInNew(v: Vol, v': Vol, g: Layout, a: Addition, d: nat, i: nat)
    requires AddFits(v, g, a) && AddMatches(v, a) && v'.disk[a.s] == Piece(a.buf, 0)
    requires d in AddLayout(g, a).dirs && 2 <= i < SLOTS && d < MAP_SIZE && Used(Entry(v', d, i))
    ensures d in g.dirs
  {
    if IsFolder(a.slot) { AddShowsEmpty(v, v', a, i); }
  }

  lemma AddShowsEntries(v: Vol, v': Vol, g: Layout, a: Addition, fs: FS)
    requires AddFits(v, g, a) && AddMatches(v, a) && HeadsOk(v, g) && SlotsOk(v, g) && OwnersOk(v, g)
    requires v' == AddVol(v, g, a) && Added(v, v', g, a) && FileSize(a.slot) <= |a.buf|
    requires ShowsEntries(v, g, fs) && InRange(a.slot) && ObjOf(v', a.slot) == NewObj(a)
    requires v'.disk[a.s] == Piece(a.buf, 0) && DirsOk(AddLayout(g, a))
    ensures ShowsEntries(v', AddLayout(g, a), AddFS(fs, a))
  {
    forall d, i | d in AddLayout(g, a).dirs && 2 <= i < SLOTS && Used(Entry(v', d, i))
      ensures ShowsEntry(v', AddFS(fs, a), d, i)
    {
      NotInNew(v, v', g, a, d, i);
      AddShowsEntry(v, v', g, a, fs, d, i);
    }
  }

  lemma AddShows(v: Vol, g: Layout, a: Addition, fs: FS)
    requires AddPre(v, g, a) && Shows(v, g, fs) && FileSize(a.slot) <= |a.buf|
    ensures DirsOk(AddLayout(g, a)) && Shows(AddVol(v, g, a), AddLayout(g, a), AddFS(fs, a))
  {
    var v' := AddVol(v, g, a);
    AddLayoutDirs(g, a);
    DirsEnd(v, g);
    AddFrame(v, g, a);
    AddClusters(v, g, a, a.s);
    AddStores(v, g, a);
    AddShowsNames(v, v', g, a, fs);
    AddShowsEntries(v, v', g, a, fs);
    AddShowsAllKeys(v, v', g, a, fs);
  }

  lemma AddShowsAllKeys(v: Vol, v': Vol, g: Layout, a: Addition, fs: FS)
    requires AddFits(v, g, a) && AddMatches(v, a) && Added(v, v', g, a) && FileSize(a.slot) <= |a.buf|
    requires DirsOk(AddLayout(g, a)) && ShowsKeys(v, g, fs)
    ensures ShowsKeys(v', AddLayout(g, a), AddFS(fs, a))
  {
    forall k | k in AddFS(fs, a).entries
      ensures HasKey(v', AddLayout(g, a), k.0, k.1)
    {
      AddShowsKeys(v, v', g, a, fs, k);
    }
  }

  // ----- Removing an entry, abstractly

  ghost function RemoveFS(fs: FS, r: Ref, e: Slot): FS {
    FS(if IsFolder(e) then fs.names - {Start(e) as nat} else fs.names, fs.entries - {(r.dir, KeyOf(e))})
  }

  lemma RemoveSparesFiles(v: Vol, g: Layout, r: Ref, e: Slot, d: nat, i: nat)
    requires DirsOk(g) && HeadsOk(v, g) && SlotsOk(v, g) && Removable(v, g, r, e)
    requires d in g.dirs && 2 <= i < SLOTS && Used(Entry(v, d, i)) && Ref(d, i) != r
    ensures InRange(Entry(v, d, i)) && ObjOf(RemoveVol(v, r, e), Entry(v, d, i)) == ObjOf(v, Entry(v, d, i))
  {
    var s, v' := Entry(v, d, i), RemoveVol(v, r, e);
    assert SlotOk(v, g, d, i);
    if !IsFolder(s) {
      forall c | Claims(s, c) && 0 <= c < MAP_SIZE
        ensures v'.disk[c] == v.disk[c]
      {
        assert c in g.owner && g.owner[c] == Ref(d, i);
        ClaimedIfDir(v, g, Ref(d, i), s, c);
        RemoveClusters(v, r, e, c);
      }
    }
    ObjSame(v, v', s);
  }

  lemma RemoveShowsEntries(v: Vol, v': Vol, g: Layout, r: Ref, e: Slot, fs: FS)
    requires DirsOk(g) && HeadsOk(v, g) && SlotsOk(v, g) && Removable(v, g, r, e) && Removed(v, v', g, r, e)
    requires v' == RemoveVol(v, r, e) && ShowsEntries(v, g, fs) && DirsOk(RemoveLayout(g, e))
    ensures ShowsEntries(v', RemoveLayout(g, e), RemoveFS(fs, r, e))
  {
    forall d, i | d in RemoveLayout(g, e).dirs && 2 <= i < SLOTS && Used(Entry(v', d, i))
      ensures ShowsEntry(v', RemoveFS(fs, r, e), d, i)
    {
      RemoveShowsEntry(v, v', g, r, e, fs, d, i);
    }
  }

  lemma OtherKey(v: Vol, g: Layout, r: Ref, e: Slot, d: nat, i: nat)
    requires DirsOk(g) && HeadsOk(v, g) && Removable(v, g, r, e)
    requires d in g.dirs && 2 <= i < SLOTS && Used(Entry(v, d, i)) && Ref(d, i) != r
    ensures (d, KeyOf(Entry(v, d, i))) != (r.dir, KeyOf(e))
  {
    assert DirOk(v, g, d);
  }

  lemma ShowsOther(v: Vol, v': Vol, r: Ref, e: Slot, fs: FS, d: nat, i: nat)
    requires d < MAP_SIZE && i < SLOTS && ShowsEntry(v, fs, d, i)
    requires Entry(v', d, i) == Entry(v, d, i) && InRange(Entry(v, d, i))
    requires ObjOf(v', Entry(v, d, i)) == ObjOf(v, Entry(v, d, i))
    requires (d, KeyOf(Entry(v, d, i))) != (r.dir, KeyOf(e))
    ensures ShowsEntry(v', RemoveFS(fs, r, e), d, i)
  {
  }

  lemma RemovedKept(v: Vol, v': Vol, g: Layout, r: Ref, e: Slot, d: nat, i: nat)
    requires DirsOk(g) && Removed(v, v', g, r, e) && d in RemoveLayout(g, e).dirs && i < SLOTS
    ensures Used(Entry(v', d, i)) ==> Ref(d, i) != r && Entry(v', d, i) == Entry(v, d, i)
  {
  }

  lemma RemoveShowsEntry(v: Vol, v': Vol, g: Layout, r: Ref, e: Slot, fs: FS, d: nat, i: nat)
    requires DirsOk(g) && HeadsOk(v, g) && SlotsOk(v, g) && Removable(v, g, r, e) && Removed(v, v', g, r, e)
    requires v' == RemoveVol(v, r, e) && ShowsEntries(v, g, fs)
    requires d in RemoveLayout(g, e).dirs && 2 <= i < SLOTS && Used(Entry(v', d, i))
    ensures ShowsEntry(v', RemoveFS(fs, r, e), d, i)
  {
    RemovedKept(v, v', g, r, e, d, i);
    RemoveSparesFiles(v, g, r, e, d, i);
    assert ShowsEntry(v, fs, d, i);
    OtherKey(v, g, r, e, d, i);
    ShowsOther(v, v', r, e, fs, d, i);
  }

  lemma RemoveShowsKeys(v: Vol, v': Vol, g: Layout, r: Ref, e: Slot, fs: FS)
    requires DirsOk(g) && Removable(v, g, r, e) && Removed(v, v', g, r, e) && DirsOk(RemoveLayout(g, e))
    requires ShowsKeys(v, g, fs)
    ensures ShowsKeys(v', RemoveLayout(g, e), RemoveFS(fs, r, e))
  {
    var g' := RemoveLayout(g, e);
    forall k | k in RemoveFS(fs, r, e).entries
      ensures HasKey(v', g', k.0, k.1)
    {
      var i := SlotFor(v, g, k.0, k.1);
      assert k.0 in g'.dirs;
      assert Entry(v', k.0, i) == Entry(v, k.0, i);
      assert ListedAt(v', g', k.0, i, k.1);
    }
  }

  lemma RemoveShowsNames(v: Vol, v': Vol, g: Layout, r: Ref, e: Slot, fs: FS)
    requires DirsOk(g) && Removable(v, g, r, e) && Removed(v, v', g, r, e) && DirsOk(RemoveLayout(g, e))
    requires ShowsNames(v, g, fs)
    ensures ShowsNames(v', RemoveLayout(g, e), RemoveFS(fs, r, e))
  {
    forall d | d in RemoveLayout(g, e).dirs
      ensures RemoveFS(fs, r, e).names[d] == Name(Entry(v', d, 0))
    {
      assert Entry(v', d, 0) == Entry(v, d, 0);
    }
  }

  lemma RemoveShows(v: Vol, g: Layout, r: Ref, e: Slot, fs: FS)
    requires Inv(v, g) && Removable(v, g, r, e) && Shows(v, g, fs)
    ensures DirsOk(RemoveLayout(g, e)) && Shows(RemoveVol(v, r, e), RemoveLayout(g, e), RemoveFS(fs, r, e))
  {
    var v' := RemoveVol(v, r, e);
    RemoveFrame(v, g, r, e);
    RemoveHeadsOk(v, v', g, r, e);
    RemoveShowsNames(v, v', g, r, e, fs);
    RemoveShowsEntries(v, v', g, r, e, fs);
    RemoveShowsKeys(v, v', g, r, e, fs);
  }
}
