/** Where the code falls short of its promise, and exactly where: the 8-bit cluster parameter,
    deletion of a directory's own entry, and files that pass for directories. */
module Exactness {
  import opened Memory
  import opened DirEntry
  import opened Volume
  import opened Invariant
  import opened Operations

  /** Every used entry of a directory stays in its slot. */
  ghost predicate Persists(v: Vol, v': Vol, g: Layout)
    requires DirsOk(g)
  {
    forall d, i :: d in g.dirs && 2 <= i < SLOTS && Used(Entry(v, d, i)) ==> Entry(v', d, i) == Entry(v, d, i)
  }

  /** However the later volume is explained, the directories of the earlier one are still there. */
  lemma {:induction false} DirPersists(v: Vol, v': Vol, g: Layout, g': Layout, d: nat)
    requires DirsOk(g) && HeadsOk(v, g) && Persists(v, v', g)
    requires DirsOk(g') && SlotsOk(v', g')
    requires d in g.dirs && d in g.depth
    ensures d in g'.dirs
    decreases g.depth[d]
  {
    if d != ROOT {
      assert DirOk(v, g, d) && ListedOk(v, g, d);
      var r := g.owner[d];
      DirPersists(v, v', g, g', r.dir);
      assert Entry(v', r.dir, r.slot) == Entry(v, r.dir, r.slot);
      assert SlotOk(v', g', r.dir, r.slot);
    }
  }

  /** A used entry that persists is sound under every explanation of the later volume. */
  lemma EntryPersists(v: Vol, v': Vol, g: Layout, g': Layout, d: nat, i: nat)
    requires DirsOk(g) && HeadsOk(v, g) && Persists(v, v', g)
    requires DirsOk(g') && SlotsOk(v', g')
    requires d in g.dirs && 2 <= i < SLOTS && Used(Entry(v, d, i))
    ensures EntryOk(v', g', Ref(d, i), Entry(v, d, i))
  {
    assert DirOk(v, g, d);
    DirPersists(v, v', g, g', d);
    assert SlotOk(v', g', d, i);
  }

  // ----- The width of insert_directory's cluster parameter

  lemma AddPersists(v: Vol, v': Vol, g: Layout, a: Addition)
    requires AddFits(v, g, a) && Added(v, v', g, a)
    ensures Persists(v, v', g)
  {
  }

  /** An entry that points below its own chain would claim a cluster that an older entry owns. */
  lemma StartNotBelow(v: Vol, v': Vol, g: Layout, g': Layout, a: Addition)
    requires AddFits(v, g, a) && Added(v, v', g, a) && HeadsOk(v, g) && OwnersOk(v, g)
    requires Used(a.slot) && EntryLen(a.slot) >= 1
    requires DirsOk(g') && SlotsOk(v', g')
    ensures Start(a.slot) >= a.s
  {
    AddPersists(v, v', g, a);
    DirPersists(v, v', g, g', a.p);
    assert Entry(v', a.p, a.i) == a.slot;
    assert SlotOk(v', g', a.p, a.i);
    var c := Start(a.slot);
    assert Claims(a.slot, c);
    ChainNonEmpty(v'.fat, c, EntryLen(a.slot), c);
    if c < a.s {
      assert OwnerOk(v, g, c);
      var q := g.owner[c];
      EntryPersists(v, v', g, g', q.dir, q.slot);
      assert false;
    }
  }

  /** The ".." of a new folder must name its parent. */
  lemma ParentNamed(v: Vol, v': Vol, g: Layout, g': Layout, a: Addition)
    requires AddFits(v, g, a) && Added(v, v', g, a) && HeadsOk(v, g)
    requires Used(a.slot) && IsFolder(a.slot) && Start(a.slot) == a.s
    requires DirsOk(g') && SlotsOk(v', g') && HeadsOk(v', g')
    ensures Start(Entry(v', a.s, 1)) == a.p
  {
    AddPersists(v, v', g, a);
    DirPersists(v, v', g, g', a.p);
    assert Entry(v', a.p, a.i) == a.slot;
    assert SlotOk(v', g', a.p, a.i);
    assert Claims(a.slot, a.s);
    HeadEntry(v', g', a.s, 1);
  }

  lemma SoundWriteFits(w: Width, v: Vol, g: Layout, req: Request, buf: Bytes, g': Layout)
    requires Inv(v, g) && WriteOk(v, g, req, buf) && Stores(v, req)
    requires Inv(Write(w, v, req, buf).0, g')
    ensures NumbersFit(w, v, req)
  {
    var a := WriteAddition(w, v, req, buf);
    var v' := Write(w, v, req, buf).0;
    WriteFits(w, v, g, req, buf);
    WriteAdds(w, v, g, req, buf);
    WriteDescribes(w, v, req, buf);
    WritePlaces(w, v, req, buf);
    DirsEnd(v, g);
    AddFrame(v, g, a);
    StartNotBelow(v, v', g, g', a);
    if req.size == 0 {
      WriteTable(w, v, req, buf);
      AddClusters(v, g, a, a.s);
      ParentNamed(v, v', g, g', a);
    }
  }

  /** write keeps the volume sound exactly when the numbers it stores fit insert_directory's
      parameter: always with the 32-bit width, below cluster 256 with the 8-bit one. */
  lemma WriteSoundIff(w: Width, v: Vol, g: Layout, req: Request, buf: Bytes)
    requires Inv(v, g) && WriteOk(v, g, req, buf)
    ensures Sound(Write(w, v, req, buf).0) <==> (Stores(v, req) ==> NumbersFit(w, v, req))
  {
    var v' := Write(w, v, req, buf).0;
    if Stores(v, req) ==> NumbersFit(w, v, req) {
      WriteKeepsInv(w, v, g, req, buf);
      assert Sound(v');
    }
    if Sound(v') && Stores(v, req) {
      var g' :| Inv(v', g');
      SoundWriteFits(w, v, g, req, buf, g');
    }
  }

  /** Below cluster 256 the two widths store the same volume. */
  lemma WidthsAgree(v: Vol, req: Request, buf: Bytes)
    requires WriteSafe(v, req, buf) && (Stores(v, req) ==> NumbersFit(W8, v, req))
    ensures Write(W8, v, req, buf) == Write(W32, v, req, buf)
  {
  }

  // ----- Deleting a directory's own entry

  /** A directory keeps its FAT entry while the entry listing it stays. */
  lemma DirKept(v: Vol, v': Vol, g: Layout, g': Layout, d: nat)
    requires DirsOk(g) && HeadsOk(v, g) && d in g.dirs
    requires d == ROOT || Persists(v, v', g)
    requires DirsOk(g') && SlotsOk(v', g') && HeadsOk(v', g')
    ensures v'.fat[d] == END_OF_FILE
  {
    if d != ROOT {
      assert DirOk(v, g, d);
      DirPersists(v, v', g, g', d);
    }
    HeadEntry(v', g', d, 0);
  }

  /** What a self-deletion does: the cluster it frees is the directory's own, or the root. */
  lemma SelfDeleteEffect(v: Vol, g: Layout, req: Request)
    requires Inv(v, g) && LookupOk(v, g, req) && DeleteSafe(v, req) && DeletesSelf(v, req)
    ensures var d, i, j := req.parent, Hit(v, req), Start(Found(v, req));
            && d in g.dirs && j in g.dirs && (j == ROOT || (i == 0 && j == d))
            && Delete(v, req).0 == RemoveEntry(v, d, i, j, 1)
            && !FolderNotEmpty(v.disk[j])
  {
    var d := req.parent;
    HeadEntry(v, g, d, Hit(v, req));
    ChainLenOfChain(v.fat, Start(Found(v, req)), 1);
    if d != ROOT { ParentNotEmpty(v, g, d); }
  }

  lemma SoundDeleteSpares(v: Vol, g: Layout, req: Request, g': Layout)
    requires Inv(v, g) && LookupOk(v, g, req) && DeleteSafe(v, req)
    requires Inv(Delete(v, req).0, g')
    ensures !DeletesSelf(v, req)
  {
    if DeletesSelf(v, req) {
      SelfDeleteEffect(v, g, req);
      var d, j := req.parent, Start(Found(v, req));
      var v' := Delete(v, req).0;
      if j != ROOT { SelfDeletePersists(v, v', g, d, Hit(v, req), j); }
      DirKept(v, v', g, g', j);
      assert false;
    }
  }

  lemma ParentNotEmpty(v: Vol, g: Layout, d: nat)
    requires DirsOk(g) && HeadsOk(v, g) && d in g.dirs && d != ROOT
    ensures ParentOf(g, d) in g.dirs && FolderNotEmpty(v.disk[ParentOf(g, d)])
  {
    assert DirOk(v, g, d) && ListedOk(v, g, d);
    var r := g.owner[d];
    assert Used(SlotAt(v.disk[r.dir], r.slot));
  }

  lemma SelfDeletePersists(v: Vol, v': Vol, g: Layout, d: nat, i: nat, j: nat)
    requires DirsOk(g) && d in g.dirs && i < 2 && j == d && !FolderNotEmpty(v.disk[d])
    requires v' == RemoveEntry(v, d, i, j, 1)
    ensures Persists(v, v', g)
  {
    forall x, k | x in g.dirs && 2 <= k < SLOTS && Used(Entry(v, x, k))
      ensures Entry(v', x, k) == Entry(v, x, k)
    {
      if x == d { assert FolderNotEmpty(v.disk[d]); }
    }
  }

  /** delete keeps the volume sound exactly when it does not hit the head of an empty directory:
      its own entry, or the root's "..". */
  lemma DeleteSoundIff(v: Vol, g: Layout, req: Request)
    requires Inv(v, g) && LookupOk(v, g, req)
    ensures DeleteSafe(v, req)
    ensures Sound(Delete(v, req).0) <==> !DeletesSelf(v, req)
  {
    LookupsAreSafe(v, g, req);
    var v' := Delete(v, req).0;
    if !DeletesSelf(v, req) {
      DeleteKeepsInv(v, g, req);
      assert Sound(v');
    }
    if Sound(v') {
      var g' :| Inv(v', g');
      SoundDeleteSpares(v, g, req, g');
    }
  }

  // ----- is_valid_parent_cluster

  /** Cluster p is the last cluster of a file whose bytes happen to carry two folder attributes. */
  ghost predicate LooksLikeDirectory(v: Vol, g: Layout, p: nat)
    requires DirsOk(g) && p < MAP_SIZE && (p in g.owner ==> OwnerOk(v, g, p))
  {
    && p in g.owner
    && var r := g.owner[p];
    && var e := Entry(v, r.dir, r.slot);
    && !IsFolder(e) && p == Start(e) + EntryLen(e) - 1
    && v.disk[p][11] == ATTR_SUBDIRECTORY && v.disk[p][SLOT_SIZE + 11] == ATTR_SUBDIRECTORY
  }

  lemma AttributeBytes(t: Cluster)
    ensures Attribute(SlotAt(t, 0)) == t[11] && Attribute(SlotAt(t, 1)) == t[SLOT_SIZE + 11]
  {
  }

  /** The check accepts every directory, and beyond them exactly the files' last clusters that look
      like one. */
  lemma ValidParentExact(v: Vol, g: Layout, p: u32)
    requires Inv(v, g)
    ensures p < MAP_SIZE && p in g.owner ==> OwnerOk(v, g, p)
    ensures ValidParent(v, p) <==> p in g.dirs || (p < MAP_SIZE && LooksLikeDirectory(v, g, p))
  {
    if p in g.dirs {
      DirsAreValidParents(v, g, p);
      if p in g.owner { assert OwnerOk(v, g, p); }
    } else if p < MAP_SIZE && p in g.owner {
      assert OwnerOk(v, g, p);
      FileParent(v, g, p);
    } else {
      UnownedParent(v, g, p);
    }
  }

  lemma FileParent(v: Vol, g: Layout, p: nat)
    requires DirsOk(g) && SlotsOk(v, g) && p < MAP_SIZE && p in g.owner && OwnerOk(v, g, p) && p !in g.dirs
    ensures ValidParent(v, p) <==> LooksLikeDirectory(v, g, p)
  {
    AttributeBytes(v.disk[p]);
    LastCluster(v, g, p);
  }

  lemma UnownedParent(v: Vol, g: Layout, p: u32)
    requires DirsOk(g) && OwnersOk(v, g) && p !in g.dirs && (p < MAP_SIZE ==> p !in g.owner)
    ensures !ValidParent(v, p)
  {
  }

  lemma LastCluster(v: Vol, g: Layout, p: nat)
    requires DirsOk(g) && SlotsOk(v, g) && p < MAP_SIZE && p in g.owner && OwnerOk(v, g, p)
    ensures var e := Entry(v, g.owner[p].dir, g.owner[p].slot);
            && (v.fat[p] == END_OF_FILE <==> p == Start(e) + EntryLen(e) - 1)
            && (IsFolder(e) ==> p in g.dirs)
            && FIRST_DATA <= p
  {
    var r := g.owner[p];
    assert SlotOk(v, g, r.dir, r.slot);
  }
}
