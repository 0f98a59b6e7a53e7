/** find and its depth-first search in src/user-shell.c: they end on every sound volume, and for any matching
    rules they read and report exactly what Search describes. */
module FindWalk {
  import opened Memory
  import opened DirEntry
  import opened Volume
  import opened Invariant
  import opened Operations
  import opened Fat32
  import opened TreeWalk
  import opened Search

  /** A match was spelled by one climb from its directory. */
  ghost predicate Spelled(v: Vol, g: Layout, m: Match)
    requires DirsOk(g) && DepthsOk(g)
  {
    m.dir in g.dirs && m.dir in g.depth && IsClimb(v, g, m.dir, false, m.path)
    && AllAbove(g, m.dir, m.path) && |m.path| <= g.depth[m.dir] + 1
  }

  ghost predicate AllSpelled(v: Vol, g: Layout, ms: seq<Match>)
    requires DirsOk(g) && DepthsOk(g)
  {
    forall k :: 0 <= k < |ms| ==> Spelled(v, g, ms[k])
  }

  /** The first n matches, and then one in slot i of d. */
  ghost predicate OneMore(before: seq<Match>, after: seq<Match>, d: nat, i: nat) {
    |after| == |before| + 1 && after[..|before|] == before && after[|before|].dir == d && after[|before|].slot == i
  }

  // ----- DFSfind

  /** Slot i lists a folder: search it unless it is marked. */
  method Descend(drv: Fat32Driver, ghost vol: Vol, ghost g: Layout, ghost rs: Rules, ghost d: nat, t: Cluster,
                 i: nat, rule: Rule, visited: array<bool>)
      returns (more: seq<nat>, further: seq<Match>)
    requires drv.Valid() && drv.View() == vol && TreeOk(vol, g) && d in g.dirs && t == vol.disk[d]
    requires FolderIn(vol, d, i) && visited.Length == 63 && rs.below == rule
    modifies visited, drv.dirTableBuf
    ensures drv.View() == vol && NoRepeats(more)
    ensures forall x :: x in more ==> x in Subtree(g, Start(Entry(vol, d, i)))
    ensures Reported(vol, rs, more, further) && AllSpelled(vol, g, further)
    ensures if old(visited[i - 1]) then more == [] && visited[..] == old(visited[..])
            else VisitsAll(vol, g, rs, Start(Entry(vol, d, i)), more)
                 && FilesMarked(vol, rs, Start(Entry(vol, d, i)), i, SLOTS, old(visited[..]), visited[..])
    decreases Subtree(g, d), 0
  {
    more, further := [], [];
    if !visited[i - 1] {
      var sub := Start(SlotAt(t, i));
      ListedFolder(vol, g, d, i);
      FolderNameMem(t, i);
      SubtreeShrinks(g, sub);
      more, further := DfsFind(drv, vol, g, rs, sub, t[SLOT_SIZE * i..], t[SLOT_SIZE * i + 8..], rule, i, visited);
    }
  }

  /** The read of the directory by the name its entry has. */
  method OpenFolder(drv: Fat32Driver, ghost vol: Vol, ghost g: Layout, cluster: u32, name: Bytes, ext: Bytes)
      returns (t: Cluster)
    requires drv.Valid() && drv.View() == vol && DirsOk(g) && HeadsOk(vol, g) && cluster in g.dirs
    requires StoredAs(name, Name(Entry(vol, cluster, 0))) && Terminated(ext) && CLen(ext) == 0
    modifies drv.dirTableBuf
    ensures drv.View() == vol && t == vol.disk[cluster]
  {
    var field := CopyName(name, Name(Entry(vol, cluster, 0)));
    var extLen := StrLen(ext);
    var req := RawRequest(field, ext[..extLen] + Zeros(3 - extLen), cluster, CLUSTER_SIZE);
    assert req.ext == NO_EXT;
    OwnKey(vol, g, cluster, req);
    OwnNameReads(vol, g, cluster, req);
    var retcode;
    t, retcode := ReadTable(drv, req, vol.disk[cluster]);
  }

  /** A match: the climb that spells the path of directory d. */
  method Report(drv: Fat32Driver, ghost vol: Vol, ghost g: Layout, d: u32, name: Bytes, i: nat, before: seq<Match>)
      returns (ms: seq<Match>)
    requires drv.Valid() && drv.View() == vol && TreeOk(vol, g) && d in g.dirs
    requires StoredAs(name, Name(Entry(vol, d, 0))) && AllSpelled(vol, g, before)
    modifies drv.dirTableBuf
    ensures drv.View() == vol && OneMore(before, ms, d, i) && AllSpelled(vol, g, ms)
  {
    InvDepths(vol, g);
    var path := GetFullPath(drv, vol, g, d, name, false);
    ms := before + [Match(d, i, path)];
  }

  /** One round of DFSfind's loop. It stops exactly at a match. */
  method SearchSlot(drv: Fat32Driver, ghost vol: Vol, ghost g: Layout, ghost rs: Rules, d: u32, name: Bytes,
                    t: Cluster, i: nat, rule: Rule, visited: array<bool>, visitedNew: array<bool>,
                    before: seq<nat>, earlier: seq<Match>)
      returns (stop: bool, seen: seq<nat>, ms: seq<Match>)
    requires drv.Valid() && drv.View() == vol && TreeOk(vol, g) && d in g.dirs && t == vol.disk[d]
    requires StoredAs(name, Name(Entry(vol, d, 0))) && 2 <= i < SLOTS && RuleOf(rs, d) == rs.below == rule
    requires WalkOk(vol, g, rs, d, i, before, earlier) && AllSpelled(vol, g, earlier)
    requires Quiet(vol, g, rs, d, i, before, visitedNew[..])
    requires visited.Length == visitedNew.Length == 63 && visited != visitedNew
    modifies visited, visitedNew, drv.dirTableBuf
    ensures drv.View() == vol && AllSpelled(vol, g, ms)
    ensures stop <==> Stops(vol, rs, d, i)
    ensures stop ==> seen == before && OneMore(earlier, ms, d, i)
                     && visited[..] == old(visited[..]) && visitedNew[..] == old(visitedNew[..])
    ensures !stop ==> WalkOk(vol, g, rs, d, i + 1, seen, ms) && Quiet(vol, g, rs, d, i + 1, seen, visitedNew[..])
                      && visited[..] == old(visited[..])[i - 1 := old(visited[i - 1]) || FileIn(vol, d, i)]
    decreases Subtree(g, d), 1
  {
    ghost var marks := visitedNew[..];
    stop, seen, ms := false, before, earlier;
    var slot := SlotAt(t, i);
    if Used(slot) && IsFolder(slot) {
      if rule.folder(slot) {
        ms := Report(drv, vol, g, d, name, i, ms);
        stop := true;
        return;
      }
      PassesNext(vol, rs, d, i);
      var more, further := Descend(drv, vol, g, rs, d, t, i, rule, visitedNew);
      FolderStep(vol, g, rs, d, i, seen, ms, more, further);
      QuietFolder(vol, g, rs, d, i, seen, marks, more, visitedNew[..]);
      SpelledMore(vol, g, ms, further);
      seen, ms := seen + more, ms + further;
    } else {
      if Used(slot) {
        if rule.file(slot) {
          ms := Report(drv, vol, g, d, name, i, ms);
          stop := true;
          return;
        }
        visited[i - 1] := true;
      }
      PassesNext(vol, rs, d, i);
      ProgressNext(vol, g, d, i, before);
      QuietSkip(vol, g, rs, d, i, seen, marks, marks);
    }
  }

  lemma SpelledMore(v: Vol, g: Layout, ms: seq<Match>, more: seq<Match>)
    requires DirsOk(g) && DepthsOk(g) && AllSpelled(v, g, ms) && AllSpelled(v, g, more)
    ensures AllSpelled(v, g, ms + more)
  {
  }

  /** DFSfind from directory `clusterNumber`, for arbitrary matching rules. It ends, reads exactly the directories
      that Visited describes, each once, and marks in its caller's array its own slot and the files its loop
      passed. Of each directory it reads, it reports the first match and no other, with one climb up from there. */
  method DfsFind(drv: Fat32Driver, ghost vol: Vol, ghost g: Layout, ghost rs: Rules, clusterNumber: u32,
                 parentName: Bytes, parentExt: Bytes, rule: Rule, v: nat, visited: array<bool>)
      returns (seen: seq<nat>, ms: seq<Match>)
    requires drv.Valid() && drv.View() == vol && TreeOk(vol, g) && clusterNumber in g.dirs
    requires StoredAs(parentName, Name(Entry(vol, clusterNumber, 0)))
    requires Terminated(parentExt) && CLen(parentExt) == 0
    requires visited.Length == 63 && 1 <= v <= 63 && RuleOf(rs, clusterNumber) == rs.below == rule
    modifies visited, drv.dirTableBuf
    ensures drv.View() == vol && NoRepeats(seen) && forall x :: x in seen ==> x in Subtree(g, clusterNumber)
    ensures VisitsAll(vol, g, rs, clusterNumber, seen)
    ensures FilesMarked(vol, rs, clusterNumber, v, SLOTS, old(visited[..]), visited[..])
    ensures Reported(vol, rs, seen, ms) && AllSpelled(vol, g, ms)
    decreases Subtree(g, clusterNumber), 2
  {
    ghost var was := visited[..];
    visited[v - 1] := true;
    var visitedNew := new bool[63](_ => false);
    var t := OpenFolder(drv, vol, g, clusterNumber, parentName, parentExt);
    seen, ms := [clusterNumber], [];
    QuietStart(vol, g, rs, clusterNumber, visitedNew[..]);
    for i := 2 to SLOTS
      invariant drv.View() == vol && WalkOk(vol, g, rs, clusterNumber, i, seen, ms) && AllSpelled(vol, g, ms)
      invariant Quiet(vol, g, rs, clusterNumber, i, seen, visitedNew[..])
      invariant FilesMarked(vol, rs, clusterNumber, v, i, was, visited[..])
    {
      ghost var earlier, marks := ms, visited[..];
      var stop;
      stop, seen, ms := SearchSlot(drv, vol, g, rs, clusterNumber, parentName, t, i, rule, visited, visitedNew,
                                   seen, ms);
      if stop {
        StopsHere(vol, g, rs, clusterNumber, v, i, seen, earlier, ms, visitedNew[..], was, visited[..]);
        return;
      }
      FilesNext(vol, rs, clusterNumber, v, i, was, marks, visited[..]);
    }
    QuietDone(vol, g, rs, clusterNumber, SLOTS, seen, visitedNew[..]);
    ReportedAll(vol, rs, clusterNumber, seen, ms);
  }

  /** The loop over d stops at a match in slot i. */
  lemma StopsHere(v: Vol, g: Layout, rs: Rules, d: nat, own: nat, i: nat, seen: seq<nat>, earlier: seq<Match>,
                  ms: seq<Match>, marks: seq<bool>, was: seq<bool>, now: seq<bool>)
    requires TreeOk(v, g) && d in g.dirs && 2 <= i < SLOTS && Stops(v, rs, d, i)
    requires WalkOk(v, g, rs, d, i, seen, earlier) && Quiet(v, g, rs, d, i, seen, marks)
    requires OneMore(earlier, ms, d, i) && FilesMarked(v, rs, d, own, i, was, now)
    ensures VisitsAll(v, g, rs, d, seen) && Reported(v, rs, seen, ms) && NoRepeats(seen)
    ensures FilesMarked(v, rs, d, own, SLOTS, was, now)
  {
    QuietDone(v, g, rs, d, i, seen, marks);
    assert ms == earlier + [ms[|earlier|]];
    ReportedOwn(v, rs, seen, earlier, ms[|earlier|]);
    FilesPassed(v, rs, d, own, i, was, now);
  }

  // ----- find

  lemma RootNamed(v: Vol, g: Layout)
    requires DirsOk(g) && HeadsOk(v, g)
    ensures StoredAs(ROOT_STRING, Name(Entry(v, ROOT, 0))) && Terminated([0]) && CLen([0]) == 0
  {
    assert DirOk(v, g, ROOT);
    LiteralNames();
    CLenUnique([0], 0);
  }

  /** One round of find's loop over the root. A folder there is reported without a climb. */
  method FindSlot(drv: Fat32Driver, ghost vol: Vol, ghost g: Layout, ghost rs: Rules, t: Cluster, i: nat, top: Rule,
                  below: Rule, visited: array<bool>, before: seq<nat>, earlier: seq<Match>)
      returns (stop: bool, seen: seq<nat>, ms: seq<Match>)
    requires drv.Valid() && drv.View() == vol && TreeOk(vol, g) && t == vol.disk[ROOT] && rs == Rules(top, below)
    requires 2 <= i < SLOTS && WalkOk(vol, g, rs, ROOT, i, before, earlier) && AllSpelled(vol, g, earlier)
    requires visited.Length == 63 && Quiet(vol, g, rs, ROOT, i, before, visited[..])
    modifies visited, drv.dirTableBuf
    ensures drv.View() == vol
    ensures stop <==> Stops(vol, rs, ROOT, i)
    ensures stop ==> seen == before && OneMore(earlier, ms, ROOT, i)
                     && if FolderIn(vol, ROOT, i) then ms[|earlier|].path == [] else AllSpelled(vol, g, ms)
    ensures !stop ==> WalkOk(vol, g, rs, ROOT, i + 1, seen, ms) && AllSpelled(vol, g, ms)
    ensures Quiet(vol, g, rs, ROOT, if stop then i else i + 1, seen, visited[..])
  {
    ghost var marks := visited[..];
    stop, seen, ms := false, before, earlier;
    var slot := SlotAt(t, i);
    if Used(slot) && IsFolder(slot) {
      if top.folder(slot) {
        ms := ms + [Match(ROOT, i, [])];
        stop := true;
        return;
      }
      PassesNext(vol, rs, ROOT, i);
      var more, further := Descend(drv, vol, g, rs, ROOT, t, i, below, visited);
      FolderStep(vol, g, rs, ROOT, i, seen, ms, more, further);
      QuietFolder(vol, g, rs, ROOT, i, seen, marks, more, visited[..]);
      SpelledMore(vol, g, ms, further);
      seen, ms := seen + more, ms + further;
    } else {
      if Used(slot) {
        if top.file(slot) {
          RootNamed(vol, g);
          ms := Report(drv, vol, g, ROOT, ROOT_STRING, i, ms);
          stop := true;
          return;
        }
        visited[i - 1] := true;
      }
      PassesNext(vol, rs, ROOT, i);
      ProgressNext(vol, g, ROOT, i, before);
      QuietSkip(vol, g, rs, ROOT, i, seen, marks, visited[..]);
    }
  }

  /** Every match but a folder in the root was spelled by a climb. */
  ghost predicate RootSpelled(v: Vol, g: Layout, ms: seq<Match>)
    requires DirsOk(g) && DepthsOk(g)
  {
    forall k :: 0 <= k < |ms| ==>
      if ms[k].dir == ROOT && FolderIn(v, ROOT, ms[k].slot) then ms[k].path == [] else Spelled(v, g, ms[k])
  }

  /** find, for arbitrary rules in the root and below it: it ends, reads what Visited describes, each directory
      once, and reports the first match of each directory it reads and no other. It reads every directory of the
      volume exactly when nothing stands in the way of a folder; when nothing matches, exactly when no file lies in
      a slot that a later sibling of its folder has. */
  method Find(drv: Fat32Driver, ghost vol: Vol, ghost g: Layout, argument: Bytes, top: Rule, below: Rule)
      returns (seen: seq<nat>, ms: seq<Match>)
    requires drv.Valid() && drv.View() == vol && TreeOk(vol, g) && Terminated(argument)
    modifies drv.dirTableBuf
    ensures drv.View() == vol && NoRepeats(seen) && forall x :: x in seen ==> x in g.dirs
    ensures CLen(argument) == 0 ==> seen == [] && ms == []
    ensures CLen(argument) > 0 ==>
              VisitsAll(vol, g, Rules(top, below), ROOT, seen) && Reported(vol, Rules(top, below), seen, ms)
              && ((forall x :: x in g.dirs ==> x in seen) <==> Clear(vol, g, Rules(top, below), ROOT))
    ensures CLen(argument) > 0 && Never(Rules(top, below)) ==>
              ms == [] && ((forall x :: x in g.dirs ==> x in seen) <==> NoClash(vol, g, ROOT))
    ensures RootSpelled(vol, g, ms)
  {
    ghost var rs := Rules(top, below);
    seen, ms := [], [];
    var length := StrLen(argument);
    if length == 0 {
      return;
    }
    InvDepths(vol, g);
    RootNamed(vol, g);
    var visited := new bool[63](_ => false);
    var t := OpenFolder(drv, vol, g, ROOT, ROOT_STRING, [0]);
    seen := [ROOT];
    QuietStart(vol, g, rs, ROOT, visited[..]);
    for i := 2 to SLOTS
      invariant drv.View() == vol && WalkOk(vol, g, rs, ROOT, i, seen, ms) && AllSpelled(vol, g, ms)
      invariant Quiet(vol, g, rs, ROOT, i, seen, visited[..])
    {
      ghost var earlier := ms;
      var stop;
      stop, seen, ms := FindSlot(drv, vol, g, rs, t, i, top, below, visited, seen, ms);
      if stop {
        RootStops(vol, g, rs, i, seen, earlier, ms, visited[..]);
        FoundAll(vol, g, rs, seen, ms);
        return;
      }
    }
    QuietDone(vol, g, rs, ROOT, SLOTS, seen, visited[..]);
    ReportedAll(vol, rs, ROOT, seen, ms);
    FoundAll(vol, g, rs, seen, ms);
  }

  lemma RootStops(v: Vol, g: Layout, rs: Rules, i: nat, seen: seq<nat>, earlier: seq<Match>, ms: seq<Match>,
                  marks: seq<bool>)
    requires TreeOk(v, g) && 2 <= i < SLOTS && Stops(v, rs, ROOT, i) && WalkOk(v, g, rs, ROOT, i, seen, earlier)
    requires Quiet(v, g, rs, ROOT, i, seen, marks) && OneMore(earlier, ms, ROOT, i) && AllSpelled(v, g, earlier)
    requires if FolderIn(v, ROOT, i) then ms[|earlier|].path == [] else AllSpelled(v, g, ms)
    ensures VisitsAll(v, g, rs, ROOT, seen) && Reported(v, rs, seen, ms) && RootSpelled(v, g, ms)
  {
    QuietDone(v, g, rs, ROOT, i, seen, marks);
    assert ms == earlier + [ms[|earlier|]];
    ReportedOwn(v, rs, seen, earlier, ms[|earlier|]);
    forall k | 0 <= k < |ms|
      ensures if ms[k].dir == ROOT && FolderIn(v, ROOT, ms[k].slot) then ms[k].path == [] else Spelled(v, g, ms[k])
    {
      if k < |earlier| {
        assert ms[k] == earlier[k];
      }
    }
  }

  lemma FoundAll(v: Vol, g: Layout, rs: Rules, seen: seq<nat>, ms: seq<Match>)
    requires TreeOk(v, g) && VisitsAll(v, g, rs, ROOT, seen) && Reported(v, rs, seen, ms)
    ensures (forall x :: x in g.dirs ==> x in seen) <==> Clear(v, g, rs, ROOT)
    ensures Never(rs) ==> ms == [] && ((forall x :: x in g.dirs ==> x in seen) <==> NoClash(v, g, ROOT))
  {
    RootCovers(v, g, rs, seen);
    if Never(rs) {
      NeverClear(v, g, rs, ROOT);
      assert |ms| > 0 ==> FirstIn(v, rs, ms[0]);
    }
  }
}
