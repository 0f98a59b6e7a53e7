/** Short histories of a fresh disk, step by step, that end where the code misses its promise. */
module Scenarios {
  import opened Memory
  import opened DirEntry
  import opened Disk
  import opened Volume
  import opened Invariant
  import opened Operations
  import opened Refinement
  import opened Runs

  // ----- Disks that are filled from the front

  /** The clusters from 3 to m - 1 are taken, the others empty. */
  predicate Packed(v: Vol, m: nat) {
    FIRST_DATA <= m <= MAP_SIZE
    && forall c :: FIRST_DATA <= c < MAP_SIZE ==> (v.fat[c] == EMPTY_ENTRY <==> c >= m)
  }

  /** The slots from 2 to i - 1 of directory d are used, the others not. */
  predicate FilledTo(v: Vol, d: nat, i: nat) {
    d < MAP_SIZE && 2 <= i < SLOTS && forall k :: 2 <= k < SLOTS ==> (Used(Entry(v, d, k)) <==> k < i)
  }

  lemma NextCluster(v: Vol, m: nat, n: nat)
    requires Packed(v, m) && 1 <= n
    ensures m + n <= MAP_SIZE ==> FirstFit(v.fat, n, FIRST_DATA) == m
    ensures FirstEmpty(v.fat, FIRST_DATA) == m
  {
    var c := FirstEmpty(v.fat, FIRST_DATA);
    assert c < MAP_SIZE ==> v.fat[c] == EMPTY_ENTRY;
    assert m < MAP_SIZE ==> v.fat[m] == EMPTY_ENTRY;
    if m + n <= MAP_SIZE {
      assert AllEmpty(v.fat, m, n);
      forall k: nat | FIRST_DATA <= k < m
        ensures !AllEmpty(v.fat, k, n)
      {
        assert v.fat[k] != EMPTY_ENTRY;
      }
    }
  }

  lemma NextSlot(v: Vol, d: nat, i: nat)
    requires FilledTo(v, d, i)
    ensures FirstUnused(v.disk[d], 2) == i
  {
    var u := FirstUnused(v.disk[d], 2);
    assert !Used(Entry(v, d, i));
    assert u < SLOTS && !Used(Entry(v, d, u));
  }

  /** The clusters that a request takes. */
  function Taken(req: Request): nat {
    if req.size == 0 then 1 else ClustersFor(req.size)
  }

  /** A request for a key that is new in its folder, and a buffer that is large enough. */
  ghost predicate Plain(v: Vol, g: Layout, req: Request, buf: Bytes)
    requires DirsOk(g)
  {
    req.parent in g.dirs && req.parent < 0x100 && ProperKey(req) && Taken(req) >= 1
    && KeyReq(req) != ZERO_KEY && KeyReq(req) != DOTDOT_KEY && !HasKey(v, g, req.parent, KeyReq(req))
    && (req.size > 0 ==> CLUSTER_SIZE * ClustersFor(req.size) <= |buf|)
  }

  lemma PlainIsOk(v: Vol, g: Layout, req: Request, buf: Bytes, m: nat, i: nat)
    requires Inv(v, g) && Plain(v, g, req, buf) && Packed(v, m) && FilledTo(v, req.parent, i)
    requires m < 0x100 && m + Taken(req) <= MAP_SIZE
    ensures WriteOk(v, g, req, buf) && Stores(v, req) && NumbersFit(W8, v, req) && Target(v, req) == m
  {
    DirsAreValidParents(v, g, req.parent);
    DuplicateIff(v, g, req.parent, KeyReq(req));
    NextCluster(v, m, Taken(req));
    NextSlot(v, req.parent, i);
  }

  // ----- One write

  /** What a write of req does to such a disk, entry by entry. */
  ghost predicate Wrote(v: Vol, g: Layout, req: Request, m: nat, i: nat, v': Vol, g': Layout)
    requires DirsOk(g) && req.parent in g.dirs && i < SLOTS
  {
    Inv(v', g') && Packed(v', m + Taken(req)) && g'.dirs == (if req.size == 0 then g.dirs + {m} else g.dirs)
    && (forall d, k :: d in g.dirs && 0 <= k < SLOTS && !(d == req.parent && k == i) ==>
          Entry(v', d, k) == Entry(v, d, k))
    && Describes(req, m, Entry(v', req.parent, i))
    && (req.size == 0 ==> FilledTo(v', m, 2))
  }

  lemma AddPacks(v: Vol, g: Layout, a: Addition, v': Vol, m: nat)
    requires AddFits(v, g, a) && v' == AddVol(v, g, a) && Packed(v, m) && a.s == m && m + a.n <= MAP_SIZE
    ensures Packed(v', m + a.n)
  {
    forall c | FIRST_DATA <= c < MAP_SIZE
      ensures v'.fat[c] == EMPTY_ENTRY <==> c >= m + a.n
    {
      if m <= c < m + a.n {
        assert Chain(SetChain(v.fat, m, a.n), m, a.n) by { SetChainIs(v.fat, m, a.n); }
        ChainNonEmpty(v'.fat, m, a.n, c);
      }
    }
  }

  lemma SetChainIs(fat: Fat, s: nat, n: nat)
    requires 1 <= n && s + n <= MAP_SIZE
    ensures Chain(SetChain(fat, s, n), s, n)
  {
  }

  lemma NewFolderIsEmpty(v: Vol, g: Layout, a: Addition, v': Vol)
    requires AddFits(v, g, a) && v' == AddVol(v, g, a) && a.s < MAP_SIZE && a.n == 1 && v.fat[a.p] == END_OF_FILE
    requires forall k :: 2 <= k < SLOTS ==> SlotAt(Piece(a.buf, 0), k) == Zeros(SLOT_SIZE)
    ensures FilledTo(v', a.s, 2)
  {
    AddClusters(v, g, a, a.s);
  }

  /** Writing a plain request works, and does just that. */
  lemma WriteOne(v: Vol, g: Layout, req: Request, buf: Bytes, m: nat, i: nat) returns (v': Vol, g': Layout)
    requires Inv(v, g) && Plain(v, g, req, buf) && Packed(v, m) && FilledTo(v, req.parent, i)
    requires m < 0x100 && m + Taken(req) <= MAP_SIZE
    ensures WriteSafe(v, req, buf) && Write(W8, v, req, buf) == (v', 0) && Wrote(v, g, req, m, i, v', g')
  {
    PlainIsOk(v, g, req, buf, m, i);
    NextSlot(v, req.parent, i);
    var a := WriteAddition(W8, v, req, buf);
    WriteFits(W8, v, g, req, buf);
    WriteAdds(W8, v, g, req, buf);
    WriteKeepsInv(W8, v, g, req, buf);
    v', g' := Write(W8, v, req, buf).0, WriteLayout(W8, v, g, req, buf);
    WriteDoes(v, g, req, buf, m, i, a, v', g');
  }

  lemma WriteDoes(v: Vol, g: Layout, req: Request, buf: Bytes, m: nat, i: nat, a: Addition, v': Vol, g': Layout)
    requires Inv(v, g) && WriteOk(v, g, req, buf) && Stores(v, req) && NumbersFit(W8, v, req)
    requires Packed(v, m) && m + Taken(req) <= MAP_SIZE && Target(v, req) == m
    requires req.parent in g.dirs && FirstUnused(v.disk[req.parent], 2) == i < SLOTS
    requires a == WriteAddition(W8, v, req, buf) && AddFits(v, g, a) && v' == AddVol(v, g, a)
    requires g' == AddLayout(g, a) && Inv(v', g')
    ensures Wrote(v, g, req, m, i, v', g')
  {
    WritePlaces(W8, v, req, buf);
    WriteDescribes(W8, v, req, buf);
    if req.size == 0 {
      WriteTable(W8, v, req, buf);
    }
    DirsEnd(v, g);
    AddDoes(v, g, req, m, a, v', g');
  }

  lemma AddDoes(v: Vol, g: Layout, req: Request, m: nat, a: Addition, v': Vol, g': Layout)
    requires AddFits(v, g, a) && (forall d :: d in g.dirs ==> v.fat[d] == END_OF_FILE)
    requires v' == AddVol(v, g, a) && g' == AddLayout(g, a) && Inv(v', g') && Packed(v, m)
    requires a.p == req.parent && a.s == m && a.n == Taken(req) && m + a.n <= MAP_SIZE && Describes(req, m, a.slot)
    requires req.size == 0 ==> |a.buf| >= CLUSTER_SIZE
                               && forall k :: 2 <= k < SLOTS ==> SlotAt(Piece(a.buf, 0), k) == Zeros(SLOT_SIZE)
    ensures Wrote(v, g, req, m, a.i, v', g')
  {
    AddFrame(v, g, a);
    AddPacks(v, g, a, v', m);
    if req.size == 0 {
      NewFolderIsEmpty(v, g, a, v');
    }
  }

  /** The written folder has one more slot filled, the others as many as before. */
  lemma StillFilled(v: Vol, g: Layout, req: Request, m: nat, i: nat, v': Vol, g': Layout, d: nat, k: nat)
    requires DirsOk(g) && req.parent in g.dirs && FilledTo(v, req.parent, i) && Wrote(v, g, req, m, i, v', g')
    requires d in g.dirs && FilledTo(v, d, k) && (d == req.parent ==> k == i && i + 1 < SLOTS)
    ensures FilledTo(v', d, if d == req.parent then k + 1 else k)
  {
    forall j | 2 <= j < SLOTS
      ensures Used(Entry(v', d, j)) <==> j < if d == req.parent then k + 1 else k
    {
      if d != req.parent || j != i {
        assert Entry(v', d, j) == Entry(v, d, j);
      }
    }
  }

  /** A key that none of the used slots has is not listed. */
  lemma NotListed(v: Vol, g: Layout, d: nat, i: nat, key: Key)
    requires DirsOk(g) && d in g.dirs && FilledTo(v, d, i)
    requires forall k :: 2 <= k < i ==> KeyOf(Entry(v, d, k)) != key
    ensures !HasKey(v, g, d, key)
  {
  }

  /** A fresh disk. */
  lemma Fresh(v: Vol, root: Cluster) returns (f: Vol)
    requires CleanStack(root)
    ensures f == Format(v, root) && Inv(f, ROOT_LAYOUT) && Packed(f, 3) && FilledTo(f, ROOT, 2)
  {
    f := Format(v, root);
    FormatSoundIff(v, root);
    FormatRoot(v, root);
    FreshIsPacked(f);
  }

  lemma FreshIsPacked(f: Vol)
    requires Inv(f, ROOT_LAYOUT) && f.fat == FormatFat()
    ensures Packed(f, 3) && FilledTo(f, ROOT, 2)
  {
    forall i | 2 <= i < SLOTS
      ensures !Used(Entry(f, ROOT, i))
    {
      assert SlotOk(f, ROOT_LAYOUT, ROOT, i);
    }
  }
}
