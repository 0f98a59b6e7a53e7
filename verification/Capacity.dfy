/** When the unbounded searches and whole-cluster transfers of write stay inside their tables and
    buffers, in terms a caller can check. */
module Capacity {
  import opened Memory
  import opened DirEntry
  import opened Volume
  import opened Invariant
  import opened Operations
  import opened Refinement
  import opened Slots
  import opened Runs
  import opened Ownership

  lemma {:induction false} NoneEmpty(fat: Fat, k: nat)
    requires k <= MAP_SIZE
    ensures EmptyCount(fat, k) == 0 <==> forall c :: FIRST_DATA <= c < k ==> fat[c] != EMPTY_ENTRY
  {
    if k > FIRST_DATA {
      NoneEmpty(fat, k - 1);
    }
  }

  ghost predicate HasRun(fat: Fat, n: nat) {
    exists s: nat :: FIRST_DATA <= s && AllEmpty(fat, s, n)
  }

  /** The searches and the transfer of a request that gets past the checks, in the terms of a caller. */
  ghost predicate Fits(v: Vol, fs: FS, req: Request, buf: Bytes) {
    if req.size == 0 then EmptyCount(v.fat, MAP_SIZE) > 0 && |KeysIn(fs, req.parent)| < ROOM
    else HasRun(v.fat, ClustersFor(req.size)) ==>
           |KeysIn(fs, req.parent)| < ROOM && CLUSTER_SIZE * ClustersFor(req.size) <= |buf|
  }

  lemma FitsIff(v: Vol, g: Layout, req: Request, buf: Bytes, fs: FS)
    requires DirsOk(g) && HeadsOk(v, g) && Shows(v, g, fs) && req.parent in g.dirs && WriteReaches(v, req)
    ensures WriteSafe(v, req, buf) <==> Fits(v, fs, req, buf)
  {
    SlotLeftIff(v, g, fs, req.parent);
    NoneEmpty(v.fat, MAP_SIZE);
    RunIff(v.fat, ClustersFor(req.size));
  }

  /** write stays inside its tables and buffers on a sound volume if and only if a request that gets past
      its checks finds, for a folder, an empty cluster, and for a file that has room on the disk, a buffer
      rounded up to whole clusters, and in both cases fewer than 62 entries in the parent. */
  lemma WriteSafeIff(v: Vol, g: Layout, req: Request, buf: Bytes, fs: FS)
    requires Inv(v, g) && ParentOk(v, g, req.parent) && Shows(v, g, fs)
    ensures WriteSafe(v, req, buf) <==> (AbsReaches(fs, req) ==> Fits(v, fs, req, buf))
  {
    ReachesIff(v, g, req, fs);
    if AbsReaches(fs, req) {
      FitsIff(v, g, req, buf, fs);
    }
  }

  lemma RunIff(fat: Fat, n: nat)
    ensures HasRun(fat, n) <==> FirstFit(fat, n, FIRST_DATA) > 0
  {
    var s := FirstFit(fat, n, FIRST_DATA);
    if s > 0 {
      assert AllEmpty(fat, s, n);
    }
  }
}
