/** delete undoes write: the whole disk image and the cached FAT return byte for byte. */
module Undo {
  import opened Memory
  import opened DirEntry
  import opened Disk
  import opened Volume
  import opened Invariant
  import opened Operations
  import opened Refinement
  import opened Runs

  lemma ClearSetChain(fat: Fat, s: nat, n: nat)
    requires 1 <= n && AllEmpty(fat, s, n)
    ensures ClearChain(SetChain(fat, s, n), s, n) == fat
  {
  }

  /** Removing a just added entry restores every byte, because free clusters and unused slots are
      zero and the stored FAT equals the cached one. */
  lemma RemoveUndoesAdd(v: Vol, g: Layout, a: Addition)
    requires AddFits(v, g, a) && Reserved(v) && EmptiesZero(v)
    requires v.fat[a.p] == END_OF_FILE && Entry(v, a.p, a.i) == Zeros(SLOT_SIZE)
    ensures RemoveEntry(AddVol(v, g, a), a.p, a.i, a.s, a.n) == v
  {
    var v' := AddVol(v, g, a);
    var u := RemoveEntry(v', a.p, a.i, a.s, a.n);
    ClearSetChain(v.fat, a.s, a.n);
    forall c | 0 <= c < IMAGE_CLUSTERS
      ensures u.disk[c] == v.disk[c]
    {
      if c == a.p {
        AddClusters(v, g, a, c);
        PutSlotBack(v.disk[c], a.i, a.slot);
      } else if a.s <= c < a.s + a.n {
        assert v.disk[c] == Zeros(CLUSTER_SIZE);
      }
    }
    assert u.disk == v.disk;
  }

  /** After an addition, a lookup of its key finds the new slot unless the key is the folder's own. */
  lemma FindsAdded(v: Vol, g: Layout, v': Vol, g': Layout, a: Addition, req: Request)
    requires Inv(v, g) && AddFits(v, g, a) && Added(v, v', g, a) && Inv(v', g') && g' == AddLayout(g, a)
    requires Used(a.slot) && KeyOf(a.slot) == KeyReq(req) && req.parent == a.p
    requires KeyReq(req) != ZERO_KEY && KeyReq(req) != DOTDOT_KEY
    ensures Finds(v', req)
    ensures if KeyReq(req) == Key(Name(Entry(v, a.p, 0)), NO_EXT) then Hit(v', req) == 0
            else Hit(v', req) == a.i && Found(v', req) == a.slot
  {
    DirsAreValidParents(v', g', a.p);
    assert Entry(v', a.p, 0) == Entry(v, a.p, 0);
    assert Entry(v', a.p, a.i) == a.slot;
    ListedHit(v', g', a.p, a.i, KeyReq(req));
  }

  lemma ListedHit(v: Vol, g: Layout, p: nat, i: nat, key: Key)
    requires DirsOk(g) && HeadsOk(v, g) && SlotsOk(v, g) && ListedAt(v, g, p, i, key)
    requires key != ZERO_KEY && key != DOTDOT_KEY
    ensures FirstMatch(v.disk[p], key, 0) == if key == Key(Name(Entry(v, p, 0)), NO_EXT) then 0 else i
  {
    NamedHit(v, g, p, key);
    HitIs(v, g, p, key);
    ListedOnce(v, g, p, i, SlotFor(v, g, p, key), key);
  }

  /** A key that passed write's duplicate check, with a slot left, is no zero key and not "..". */
  lemma StoredKeyIsProper(v: Vol, g: Layout, req: Request, a: Addition)
    requires DirsOk(g) && HeadsOk(v, g) && SlotsOk(v, g) && req.parent in g.dirs
    requires Stores(v, req) && Places(v, req, a)
    ensures KeyReq(req) != ZERO_KEY && KeyReq(req) != DOTDOT_KEY && Entry(v, a.p, a.i) == Zeros(SLOT_SIZE)
  {
    assert SlotOk(v, g, a.p, a.i) && DirOk(v, g, a.p);
    ZeroSlotKey();
    assert KeyOf(SlotAt(v.disk[a.p], a.i)) == ZERO_KEY;
    assert KeyOf(SlotAt(v.disk[a.p], 1)) == DOTDOT_KEY;
  }

  /** Deleting what was just written returns 0 and restores the whole image and the cached FAT,
      exactly when the entry is not named like the folder it is in; then delete refuses with 2. */
  lemma DeleteUndoesWrite(w: Width, v: Vol, g: Layout, req: Request, buf: Bytes, again: Request)
    requires Inv(v, g) && WriteOk(v, g, req, buf) && NumbersFit(w, v, req)
    requires Write(w, v, req, buf).1 == 0
    requires again.parent == req.parent && KeyReq(again) == KeyReq(req)
    ensures req.parent < MAP_SIZE
    ensures var v' := Write(w, v, req, buf).0;
            && DeleteSafe(v', again)
            && Delete(v', again)
               == if KeyReq(req) == Key(Name(Entry(v, req.parent, 0)), NO_EXT) then (v', 2) else (v, 0)
  {
    WriteKeepsInv(w, v, g, req, buf);
    var a := WriteAddition(w, v, req, buf);
    WriteFits(w, v, g, req, buf);
    WriteAdds(w, v, g, req, buf);
    WritePlaces(w, v, req, buf);
    WriteDescribes(w, v, req, buf);
    WriteMatches(w, v, req, buf);
    StoredKeyIsProper(v, g, req, a);
    DeleteUndoesAdd(v, g, a, again);
  }

  lemma DeleteUndoesAdd(v: Vol, g: Layout, a: Addition, req: Request)
    requires AddPre(v, g, a) && Inv(AddVol(v, g, a), AddLayout(g, a)) && Entry(v, a.p, a.i) == Zeros(SLOT_SIZE)
    requires req.parent == a.p && KeyOf(a.slot) == KeyReq(req)
    requires KeyReq(req) != ZERO_KEY && KeyReq(req) != DOTDOT_KEY
    ensures var v' := AddVol(v, g, a);
            && DeleteSafe(v', req)
            && Delete(v', req) == if KeyReq(req) == Key(Name(Entry(v, a.p, 0)), NO_EXT) then (v', 2) else (v, 0)
  {
    var v', g' := AddVol(v, g, a), AddLayout(g, a);
    DirsEnd(v, g);
    AddFrame(v, g, a);
    FindsAdded(v, g, v', g', a, req);
    NamedLookupOk(v', g', req);
    LookupsAreSafe(v', g', req);
    if KeyReq(req) == Key(Name(Entry(v, a.p, 0)), NO_EXT) {
      HeadEntry(v', g', a.p, 0);
      assert Entry(v', a.p, a.i) == a.slot;
      assert Used(SlotAt(v'.disk[a.p], a.i));
    } else {
      AddedIsErased(v, v', g, a, req);
      RemoveUndoesAdd(v, g, a);
    }
  }

  lemma AddedIsErased(v: Vol, v': Vol, g: Layout, a: Addition, req: Request)
    requires AddFits(v, g, a) && AddMatches(v, a) && v' == AddVol(v, g, a) && Added(v, v', g, a)
    requires v.fat[a.p] == END_OF_FILE && DeleteSafe(v', req) && Finds(v', req) && Hit(v', req) == a.i
    requires Found(v', req) == a.slot && req.parent == a.p
    ensures Delete(v', req) == (RemoveEntry(v', a.p, a.i, a.s, a.n), 0)
  {
    ChainLenOfChain(v'.fat, a.s, a.n);
    if IsFolder(a.slot) {
      AddClusters(v, g, a, a.s);
      forall i | 2 <= i < SLOTS
        ensures !Used(SlotAt(v'.disk[a.s], i))
      {
        AddShowsEmpty(v, v', a, i);
      }
    }
  }
}
