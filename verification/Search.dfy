/** What a depth-first search like find's reads and reports, for any matching rules: which folders it goes into,
    where it stops, and when it reads everything. */
module Search {
  import opened DirEntry
  import opened Volume
  import opened Invariant
  import opened TreeWalk

  // ----- What a search may read

  ghost predicate NoRepeats(xs: seq<nat>) { forall j: nat, k: nat :: j < k < |xs| ==> xs[j] != xs[k] }

  /** Slot j of directory d lists a folder that has x in its subtree. */
  ghost predicate SeenBelow(v: Vol, g: Layout, d: nat, j: nat, x: nat)
    requires DirsOk(g) && DepthsOk(g) && d in g.dirs
  {
    && 2 <= j < SLOTS && Used(Entry(v, d, j)) && IsFolder(Entry(v, d, j))
    && x in g.dirs && Start(Entry(v, d, j)) in g.dirs && Under(g, x, Start(Entry(v, d, j)))
  }

  ghost predicate BelowBefore(v: Vol, g: Layout, d: nat, i: nat, x: nat)
    requires DirsOk(g) && DepthsOk(g) && d in g.dirs
  {
    exists j: nat :: j < i && SeenBelow(v, g, d, j, x)
  }

  /** The directories read so far are d itself and ones below its slots before i, none twice. */
  ghost predicate Progress(v: Vol, g: Layout, d: nat, i: nat, xs: seq<nat>)
    requires DirsOk(g) && DepthsOk(g) && d in g.dirs
  {
    NoRepeats(xs) && forall x :: x in xs ==> x == d || BelowBefore(v, g, d, i, x)
  }

  lemma ProgressNext(v: Vol, g: Layout, d: nat, i: nat, xs: seq<nat>)
    requires DirsOk(g) && DepthsOk(g) && d in g.dirs && Progress(v, g, d, i, xs)
    ensures Progress(v, g, d, i + 1, xs)
  {
    forall x | x in xs && BelowBefore(v, g, d, i, x)
      ensures BelowBefore(v, g, d, i + 1, x)
    {
      var j: nat :| j < i && SeenBelow(v, g, d, j, x);
    }
  }

  lemma ProgressAppend(v: Vol, g: Layout, d: nat, i: nat, xs: seq<nat>, more: seq<nat>)
    requires DirsOk(g) && DepthsOk(g) && d in g.dirs && Progress(v, g, d, i, xs) && NoRepeats(more)
    requires forall x :: x in more ==> x !in xs && BelowBefore(v, g, d, i, x)
    ensures Progress(v, g, d, i, xs + more)
  {
    AppendNoRepeats(xs, more);
  }

  /** What one recursive call adds is new. */
  lemma ProgressBelow(v: Vol, g: Layout, d: nat, i: nat, xs: seq<nat>, c: nat, more: seq<nat>)
    requires DirsOk(g) && HeadsOk(v, g) && SlotsOk(v, g) && DepthsOk(g) && d in g.dirs && d in g.depth
    requires 2 <= i < SLOTS && Used(Entry(v, d, i)) && IsFolder(Entry(v, d, i)) && c == Start(Entry(v, d, i))
    requires c in g.dirs && Progress(v, g, d, i, xs) && NoRepeats(more)
    requires forall x :: x in more ==> x in Subtree(g, c)
    ensures Progress(v, g, d, i + 1, xs + more)
  {
    ProgressNext(v, g, d, i, xs);
    forall x | x in more
      ensures x !in xs && BelowBefore(v, g, d, i + 1, x)
    {
      assert SeenBelow(v, g, d, i, x);
      NewBelow(v, g, d, i, xs, c, x);
    }
    ProgressAppend(v, g, d, i + 1, xs, more);
  }

  lemma AppendNoRepeats(xs: seq<nat>, ys: seq<nat>)
    requires NoRepeats(xs) && NoRepeats(ys) && forall y :: y in ys ==> y !in xs
    ensures NoRepeats(xs + ys)
  {
    forall j: nat, k: nat | j < k < |xs + ys|
      ensures (xs + ys)[j] != (xs + ys)[k]
    {
      if j < |xs| <= k { assert ys[k - |xs|] in ys && xs[j] in xs; }
    }
  }

  /** A directory below two slots of d is below the same one. */
  lemma OneSlotAbove(v: Vol, g: Layout, d: nat, i: nat, j: nat, x: nat)
    requires DirsOk(g) && HeadsOk(v, g) && SlotsOk(v, g) && DepthsOk(g) && d in g.dirs
    requires SeenBelow(v, g, d, i, x) && SeenBelow(v, g, d, j, x)
    ensures i == j
  {
    ListedFolder(v, g, d, i);
    ListedFolder(v, g, d, j);
    InvDepths(v, g);
    SiblingsApart(g, x, Start(Entry(v, d, i)), Start(Entry(v, d, j)));
  }

  lemma NotBelowItself(v: Vol, g: Layout, d: nat, i: nat, x: nat)
    requires DirsOk(g) && HeadsOk(v, g) && SlotsOk(v, g) && DepthsOk(g) && d in g.dirs
    requires SeenBelow(v, g, d, i, x)
    ensures x != d
  {
    ListedFolder(v, g, d, i);
    InvDepths(v, g);
    UnderDepth(g, x, Start(Entry(v, d, i)));
  }

  lemma NewBelow(v: Vol, g: Layout, d: nat, i: nat, xs: seq<nat>, c: nat, x: nat)
    requires DirsOk(g) && HeadsOk(v, g) && SlotsOk(v, g) && DepthsOk(g) && d in g.dirs
    requires Progress(v, g, d, i, xs) && SeenBelow(v, g, d, i, x)
    ensures x !in xs
  {
    NotBelowItself(v, g, d, i, x);
    if BelowBefore(v, g, d, i, x) {
      var j: nat :| j < i && SeenBelow(v, g, d, j, x);
      OneSlotAbove(v, g, d, i, j, x);
    }
  }

  // ----- Rules and matches

  /** When an entry counts as found: a rule for folders and one for files. */
  datatype Rule = Rule(folder: Slot -> bool, file: Slot -> bool)

  /** The rules of find's loop over the root, and those of every other directory. */
  datatype Rules = Rules(top: Rule, below: Rule)

  ghost function RuleOf(rs: Rules, d: nat): Rule {
    if d == ROOT then rs.top else rs.below
  }

  ghost predicate FolderIn(v: Vol, d: nat, i: nat) {
    d < MAP_SIZE && 2 <= i < SLOTS && Used(Entry(v, d, i)) && IsFolder(Entry(v, d, i))
  }

  ghost predicate FileIn(v: Vol, d: nat, i: nat) {
    d < MAP_SIZE && 2 <= i < SLOTS && Used(Entry(v, d, i)) && !IsFolder(Entry(v, d, i))
  }

  /** The entry in slot i of d is a match. */
  ghost predicate Stops(v: Vol, rs: Rules, d: nat, i: nat) {
    (FolderIn(v, d, i) && RuleOf(rs, d).folder(Entry(v, d, i)))
    || (FileIn(v, d, i) && RuleOf(rs, d).file(Entry(v, d, i)))
  }

  /** No slot of d before i is a match, so the loop over d gets to slot i. */
  ghost predicate Passes(v: Vol, rs: Rules, d: nat, i: nat) {
    forall k: nat :: k < i ==> !Stops(v, rs, d, k)
  }

  /** What a match reports: its directory and slot, and the directories read for its path. */
  datatype Match = Match(dir: nat, slot: nat, path: seq<nat>)

  /** m is the first match of its directory. */
  ghost predicate FirstIn(v: Vol, rs: Rules, m: Match) {
    Stops(v, rs, m.dir, m.slot) && Passes(v, rs, m.dir, m.slot)
  }

  ghost predicate HasMatch(ms: seq<Match>, d: nat) {
    exists k: nat :: k < |ms| && ms[k].dir == d
  }

  ghost predicate OneEach(ms: seq<Match>) {
    forall j: nat, k: nat :: j < k < |ms| ==> ms[j].dir != ms[k].dir
  }

  /** The matches are the first ones of the directories xs, one for each that has any, but without d. */
  ghost predicate ReportedBut(v: Vol, rs: Rules, d: nat, xs: seq<nat>, ms: seq<Match>) {
    OneEach(ms)
    && (forall k :: 0 <= k < |ms| ==> ms[k].dir in xs && ms[k].dir != d && FirstIn(v, rs, ms[k]))
    && forall x :: x in xs && x != d && !Passes(v, rs, x, SLOTS) ==> HasMatch(ms, x)
  }

  /** The matches are the first ones of the directories xs, one for each that has any. */
  ghost predicate Reported(v: Vol, rs: Rules, xs: seq<nat>, ms: seq<Match>) {
    OneEach(ms)
    && (forall k :: 0 <= k < |ms| ==> ms[k].dir in xs && FirstIn(v, rs, ms[k]))
    && forall x :: x in xs && !Passes(v, rs, x, SLOTS) ==> HasMatch(ms, x)
  }

  lemma HasMatchAppend(ms: seq<Match>, more: seq<Match>, x: nat)
    ensures HasMatch(ms + more, x) <==> HasMatch(ms, x) || HasMatch(more, x)
  {
    var all := ms + more;
    if k: nat :| k < |ms| && ms[k].dir == x {
      assert all[k].dir == x;
    }
    if k: nat :| k < |more| && more[k].dir == x {
      assert all[|ms| + k].dir == x;
    }
    if k: nat :| k < |all| && all[k].dir == x {
      if k < |ms| {
        assert ms[k].dir == x;
      } else {
        assert more[k - |ms|].dir == x;
      }
    }
  }

  /** The matches below one more folder. */
  lemma ReportedMore(v: Vol, rs: Rules, d: nat, xs: seq<nat>, ms: seq<Match>, more: seq<nat>, further: seq<Match>)
    requires ReportedBut(v, rs, d, xs, ms) && Reported(v, rs, more, further)
    requires forall x :: x in more ==> x !in xs && x != d
    ensures ReportedBut(v, rs, d, xs + more, ms + further)
  {
    var all := ms + further;
    forall k | 0 <= k < |all|
      ensures all[k].dir in xs + more && all[k].dir != d && FirstIn(v, rs, all[k])
    {
      if k >= |ms| {
        assert all[k] == further[k - |ms|];
      }
    }
    forall j: nat, k: nat | j < k < |all|
      ensures all[j].dir != all[k].dir
    {
      if j < |ms| <= k {
        assert all[j] == ms[j] && all[k] == further[k - |ms|];
      } else if |ms| <= j {
        assert all[j] == further[j - |ms|] && all[k] == further[k - |ms|];
      }
    }
    forall x | x in xs + more && x != d && !Passes(v, rs, x, SLOTS)
      ensures HasMatch(all, x)
    {
      HasMatchAppend(ms, further, x);
    }
  }

  /** The loop over d ends: with its own match, or without one. */
  lemma ReportedAll(v: Vol, rs: Rules, d: nat, xs: seq<nat>, ms: seq<Match>)
    requires ReportedBut(v, rs, d, xs, ms) && Passes(v, rs, d, SLOTS)
    ensures Reported(v, rs, xs, ms)
  {
  }

  lemma ReportedOwn(v: Vol, rs: Rules, xs: seq<nat>, ms: seq<Match>, m: Match)
    requires ReportedBut(v, rs, m.dir, xs, ms) && m.dir in xs && FirstIn(v, rs, m)
    ensures Reported(v, rs, xs, ms + [m])
  {
    forall x | x in xs && !Passes(v, rs, x, SLOTS)
      ensures HasMatch(ms + [m], x)
    {
      assert x == m.dir ==> [m][0].dir == x && HasMatch([m], x);
      HasMatchAppend(ms, [m], x);
    }
  }

  // ----- What a search reads

  /** The folder in slot j of d, when it is searched, marks slot i of d by a file in its own slot i that its own
      loop passes. */
  ghost predicate Marks(v: Vol, rs: Rules, d: nat, j: nat, i: nat)
    decreases j, 1
  {
    Searched(v, rs, d, j) && FileIn(v, Start(Entry(v, d, j)), i) && Passes(v, rs, Start(Entry(v, d, j)), i + 1)
  }

  /** The search goes into slot i of d: it lists a folder, no entry up to it is a match, and no folder searched
      before marks it. */
  ghost predicate Searched(v: Vol, rs: Rules, d: nat, i: nat)
    decreases i, 0
  {
    FolderIn(v, d, i) && Passes(v, rs, d, i + 1) && forall j: nat :: j < i ==> !Marks(v, rs, d, j, i)
  }

  /** Every step from d down to x is searched. */
  ghost predicate Visited(v: Vol, g: Layout, rs: Rules, d: nat, x: nat)
    requires DepthsOk(g) && x in g.dirs
    decreases if x in g.depth then g.depth[x] else 0
  {
    x == d || (x != ROOT && Searched(v, rs, g.owner[x].dir, g.owner[x].slot) && Visited(v, g, rs, d, g.owner[x].dir))
  }

  /** x lies below slot j of d and is visited from there. */
  ghost predicate Reached(v: Vol, g: Layout, rs: Rules, d: nat, j: nat, x: nat)
    requires DirsOk(g) && DepthsOk(g) && d in g.dirs
  {
    SeenBelow(v, g, d, j, x) && Searched(v, rs, d, j) && Visited(v, g, rs, Start(Entry(v, d, j)), x)
  }

  ghost predicate ReachedBefore(v: Vol, g: Layout, rs: Rules, d: nat, i: nat, x: nat)
    requires DirsOk(g) && DepthsOk(g) && d in g.dirs
  {
    exists j: nat :: j < i && Reached(v, g, rs, d, j, x)
  }

  ghost predicate MarkedBefore(v: Vol, rs: Rules, d: nat, i: nat, k: nat) {
    exists j: nat :: j < i && Marks(v, rs, d, j, k)
  }

  /** The state of a search that has got to slot i of d. */
  ghost predicate Quiet(v: Vol, g: Layout, rs: Rules, d: nat, i: nat, seen: seq<nat>, marks: seq<bool>)
    requires DirsOk(g) && DepthsOk(g) && d in g.dirs
  {
    |marks| == 63
    && (forall x :: x in seen <==> x == d || ReachedBefore(v, g, rs, d, i, x))
    && (forall k: nat :: i <= k + 1 < SLOTS ==> (marks[k] <==> MarkedBefore(v, rs, d, i, k + 1)))
  }

  /** Below d every folder comes before the first match of its directory, and no folder before it has a file in
      its slot that the search passes. */
  ghost predicate Clear(v: Vol, g: Layout, rs: Rules, d: nat)
    requires DepthsOk(g)
  {
    forall x, i: nat :: x in Subtree(g, d) && FolderIn(v, x, i) ==> ClearSlot(v, rs, x, i)
  }

  ghost predicate ClearSlot(v: Vol, rs: Rules, x: nat, i: nat)
    requires x < MAP_SIZE
  {
    Passes(v, rs, x, i + 1)
    && forall j: nat :: j < i && FolderIn(v, x, j) ==>
         !(FileIn(v, Start(Entry(v, x, j)), i) && Passes(v, rs, Start(Entry(v, x, j)), i + 1))
  }

  /** No folder has a file in a slot where a later sibling folder is listed. */
  ghost predicate NoClash(v: Vol, g: Layout, d: nat)
    requires DepthsOk(g)
  {
    forall x, j: nat, i: nat :: x in Subtree(g, d) && j < i && FolderIn(v, x, j) && FolderIn(v, x, i) ==>
      !FileIn(v, Start(Entry(v, x, j)), i)
  }

  lemma ParentFolder(v: Vol, g: Layout, x: nat)
    requires DirsOk(g) && HeadsOk(v, g) && DepthsOk(g) && x in g.dirs && x != ROOT
    ensures var r := g.owner[x];
            r.dir in g.dirs && FolderIn(v, r.dir, r.slot) && Start(Entry(v, r.dir, r.slot)) == x
  {
    assert DirOk(v, g, x) && ListedOk(v, g, x);
  }

  lemma {:induction false} VisitedIsUnder(v: Vol, g: Layout, rs: Rules, d: nat, x: nat)
    requires DepthsOk(g) && x in g.dirs && x in g.depth && Visited(v, g, rs, d, x)
    ensures Under(g, x, d)
    decreases g.depth[x]
  {
    if x != d {
      VisitedIsUnder(v, g, rs, d, g.owner[x].dir);
    }
  }

  /** Below slot j, visiting from d is searching slot j and visiting from the folder there. */
  lemma {:induction false} VisitedBelow(v: Vol, g: Layout, rs: Rules, d: nat, j: nat, c: nat, x: nat)
    requires DirsOk(g) && HeadsOk(v, g) && DepthsOk(g) && d in g.dirs && c in g.dirs && c != ROOT && x in g.dirs
    requires d in g.depth && x in g.depth && c in g.depth && g.owner[c] == Ref(d, j) && Under(g, x, c)
    ensures Visited(v, g, rs, d, x) <==> Searched(v, rs, d, j) && Visited(v, g, rs, c, x)
    decreases g.depth[x]
  {
    UnderDepth(g, x, c);
    if x != c {
      VisitedBelow(v, g, rs, d, j, c, g.owner[x].dir);
    }
  }

  /** What is visited from d is d and what is reached through its slots. */
  lemma VisitedIff(v: Vol, g: Layout, rs: Rules, d: nat, x: nat)
    requires DirsOk(g) && HeadsOk(v, g) && SlotsOk(v, g) && DepthsOk(g) && d in g.dirs && d in g.depth
    requires x in g.dirs && x in g.depth
    ensures Visited(v, g, rs, d, x) <==> x == d || ReachedBefore(v, g, rs, d, SLOTS, x)
  {
    if x != d && Visited(v, g, rs, d, x) {
      VisitedIsUnder(v, g, rs, d, x);
      var j := SlotAbove(v, g, d, x);
      ListedFolder(v, g, d, j);
      InvDepths(v, g);
      VisitedBelow(v, g, rs, d, j, Start(Entry(v, d, j)), x);
      assert Reached(v, g, rs, d, j, x);
    }
    if j: nat :| j < SLOTS && Reached(v, g, rs, d, j, x) {
      ListedFolder(v, g, d, j);
      InvDepths(v, g);
      VisitedBelow(v, g, rs, d, j, Start(Entry(v, d, j)), x);
    }
  }

  /** What lies below d lies below one of its slots. */
  lemma {:induction false} SlotAbove(v: Vol, g: Layout, d: nat, x: nat) returns (j: nat)
    requires DirsOk(g) && HeadsOk(v, g) && DepthsOk(g) && d in g.dirs && x in g.dirs && x in g.depth
    requires x != d && Under(g, x, d)
    ensures SeenBelow(v, g, d, j, x)
    decreases g.depth[x]
  {
    ParentFolder(v, g, x);
    if g.owner[x].dir == d {
      j := g.owner[x].slot;
    } else {
      j := SlotAbove(v, g, d, g.owner[x].dir);
    }
  }

  lemma {:induction false} ClearVisits(v: Vol, g: Layout, rs: Rules, d: nat, x: nat)
    requires DirsOk(g) && HeadsOk(v, g) && DepthsOk(g) && d in g.dirs && x in g.dirs && x in g.depth
    requires Clear(v, g, rs, d) && Under(g, x, d)
    ensures Visited(v, g, rs, d, x)
    decreases g.depth[x]
  {
    if x != d {
      var r := g.owner[x];
      ParentFolder(v, g, x);
      ClearVisits(v, g, rs, d, r.dir);
      assert r.dir in Subtree(g, d) && ClearSlot(v, rs, r.dir, r.slot);
      assert Searched(v, rs, r.dir, r.slot);
    }
  }

  /** A listed folder that is visited was searched in its slot. */
  lemma ListedSearched(v: Vol, g: Layout, rs: Rules, d: nat, x: nat, i: nat)
    requires DirsOk(g) && HeadsOk(v, g) && SlotsOk(v, g) && DepthsOk(g) && d in g.dirs && d in g.depth
    requires x in Subtree(g, d) && FolderIn(v, x, i)
    requires forall y :: y in Subtree(g, d) ==> Visited(v, g, rs, d, y)
    ensures Searched(v, rs, x, i)
  {
    ListedFolder(v, g, x, i);
    InvDepths(v, g);
    var c := Start(Entry(v, x, i));
    UnderDepth(g, x, d);
    assert c in Subtree(g, d);
  }

  /** A search from d reads every directory below it exactly when no match and no file of an earlier sibling
      stands in the way of a folder. */
  lemma CoversIff(v: Vol, g: Layout, rs: Rules, d: nat)
    requires DirsOk(g) && HeadsOk(v, g) && SlotsOk(v, g) && DepthsOk(g) && d in g.dirs && d in g.depth
    ensures (forall x :: x in Subtree(g, d) ==> Visited(v, g, rs, d, x)) <==> Clear(v, g, rs, d)
  {
    InvDepths(v, g);
    if Clear(v, g, rs, d) {
      forall x | x in Subtree(g, d)
        ensures Visited(v, g, rs, d, x)
      {
        ClearVisits(v, g, rs, d, x);
      }
    }
    if forall x :: x in Subtree(g, d) ==> Visited(v, g, rs, d, x) {
      forall x, i: nat | x in Subtree(g, d) && FolderIn(v, x, i)
        ensures ClearSlot(v, rs, x, i)
      {
        ListedSearched(v, g, rs, d, x, i);
        SearchedClears(v, g, rs, d, x, i);
      }
    }
  }

  lemma SearchedClears(v: Vol, g: Layout, rs: Rules, d: nat, x: nat, i: nat)
    requires DirsOk(g) && HeadsOk(v, g) && SlotsOk(v, g) && DepthsOk(g) && d in g.dirs && d in g.depth
    requires x in Subtree(g, d) && Searched(v, rs, x, i)
    requires forall y :: y in Subtree(g, d) ==> Visited(v, g, rs, d, y)
    ensures ClearSlot(v, rs, x, i)
  {
    forall j: nat | j < i && FolderIn(v, x, j)
      ensures !(FileIn(v, Start(Entry(v, x, j)), i) && Passes(v, rs, Start(Entry(v, x, j)), i + 1))
    {
      ListedSearched(v, g, rs, d, x, j);
      assert !Marks(v, rs, x, j, i);
    }
  }

  /** No rule ever reports a match. */
  ghost predicate Never(rs: Rules) {
    forall s :: !rs.top.folder(s) && !rs.top.file(s) && !rs.below.folder(s) && !rs.below.file(s)
  }

  /** Where nothing matches, only files stand in the way. */
  lemma NeverClear(v: Vol, g: Layout, rs: Rules, d: nat)
    requires DirsOk(g) && DepthsOk(g) && Never(rs)
    ensures Clear(v, g, rs, d) <==> NoClash(v, g, d)
  {
    assert forall x: nat, i: nat :: Passes(v, rs, x, i);
    if NoClash(v, g, d) {
      forall x, i: nat | x in Subtree(g, d) && FolderIn(v, x, i)
        ensures ClearSlot(v, rs, x, i)
      {
      }
    }
    if Clear(v, g, rs, d) {
      forall x, j: nat, i: nat | x in Subtree(g, d) && j < i && FolderIn(v, x, j) && FolderIn(v, x, i)
        ensures !FileIn(v, Start(Entry(v, x, j)), i)
      {
        assert ClearSlot(v, rs, x, i);
      }
    }
  }

  // ----- The state of a search

  ghost predicate TreeOk(v: Vol, g: Layout) {
    DirsOk(g) && HeadsOk(v, g) && SlotsOk(v, g) && DepthsOk(g)
  }

  ghost predicate VisitsAll(v: Vol, g: Layout, rs: Rules, d: nat, xs: seq<nat>)
    requires DepthsOk(g)
  {
    forall x :: x in xs <==> x in g.dirs && Visited(v, g, rs, d, x)
  }

  /** The caller's marks after a search of directory d from slot own: own, and the files before slot n and before
      the first match. */
  ghost predicate FilesMarked(v: Vol, rs: Rules, d: nat, own: nat, n: nat, was: seq<bool>, now: seq<bool>) {
    |was| == |now| == 63
    && forall k: nat :: k < 63 ==>
         (now[k] <==> was[k] || k + 1 == own || (k + 1 < n && FileIn(v, d, k + 1) && Passes(v, rs, d, k + 2)))
  }

  lemma SearchedIff(v: Vol, g: Layout, rs: Rules, d: nat, i: nat, seen: seq<nat>, marks: seq<bool>)
    requires DirsOk(g) && DepthsOk(g) && d in g.dirs && Quiet(v, g, rs, d, i, seen, marks) && 2 <= i < SLOTS
    ensures Searched(v, rs, d, i) <==> FolderIn(v, d, i) && Passes(v, rs, d, i + 1) && !marks[i - 1]
  {
    assert marks[i - 1] <==> MarkedBefore(v, rs, d, i, i - 1 + 1);
  }

  lemma MarkedNext(v: Vol, rs: Rules, d: nat, i: nat, k: nat)
    ensures MarkedBefore(v, rs, d, i + 1, k) <==> MarkedBefore(v, rs, d, i, k) || Marks(v, rs, d, i, k)
  {
    if MarkedBefore(v, rs, d, i + 1, k) && !Marks(v, rs, d, i, k) {
      var j: nat :| j < i + 1 && Marks(v, rs, d, j, k);
      assert j < i;
    }
    if MarkedBefore(v, rs, d, i, k) {
      var j: nat :| j < i && Marks(v, rs, d, j, k);
      assert j < i + 1;
    }
  }

  lemma ReachedNext(v: Vol, g: Layout, rs: Rules, d: nat, i: nat, x: nat)
    requires DirsOk(g) && DepthsOk(g) && d in g.dirs
    ensures ReachedBefore(v, g, rs, d, i + 1, x) <==> ReachedBefore(v, g, rs, d, i, x) || Reached(v, g, rs, d, i, x)
  {
    if ReachedBefore(v, g, rs, d, i + 1, x) && !Reached(v, g, rs, d, i, x) {
      var j: nat :| j < i + 1 && Reached(v, g, rs, d, j, x);
      assert j < i;
    }
    if ReachedBefore(v, g, rs, d, i, x) {
      var j: nat :| j < i && Reached(v, g, rs, d, j, x);
      assert j < i + 1;
    }
  }

  lemma QuietSkip(v: Vol, g: Layout, rs: Rules, d: nat, i: nat, seen: seq<nat>, marks: seq<bool>, now: seq<bool>)
    requires DirsOk(g) && DepthsOk(g) && d in g.dirs && Quiet(v, g, rs, d, i, seen, marks) && 2 <= i < SLOTS
    requires !Searched(v, rs, d, i) && |now| == 63 && forall k :: i <= k < 63 ==> now[k] == marks[k]
    ensures Quiet(v, g, rs, d, i + 1, seen, now)
  {
    forall x
      ensures ReachedBefore(v, g, rs, d, i + 1, x) <==> ReachedBefore(v, g, rs, d, i, x)
    {
      ReachedNext(v, g, rs, d, i, x);
    }
    forall k: nat | i + 1 <= k + 1 < SLOTS
      ensures now[k] <==> MarkedBefore(v, rs, d, i + 1, k + 1)
    {
      MarkedNext(v, rs, d, i, k + 1);
      assert marks[k] <==> MarkedBefore(v, rs, d, i, k + 1);
    }
  }

  lemma QuietMarks(v: Vol, rs: Rules, d: nat, i: nat, c: nat, marks: seq<bool>, now: seq<bool>)
    requires 2 <= i < SLOTS && Searched(v, rs, d, i) && c == Start(Entry(v, d, i))
    requires |marks| == 63 && forall k: nat :: i <= k + 1 < SLOTS ==> (marks[k] <==> MarkedBefore(v, rs, d, i, k + 1))
    requires FilesMarked(v, rs, c, i, SLOTS, marks, now)
    ensures forall k: nat :: i + 1 <= k + 1 < SLOTS ==> (now[k] <==> MarkedBefore(v, rs, d, i + 1, k + 1))
  {
    forall k: nat | i + 1 <= k + 1 < SLOTS
      ensures now[k] <==> MarkedBefore(v, rs, d, i + 1, k + 1)
    {
      MarkedNext(v, rs, d, i, k + 1);
      assert marks[k] <==> MarkedBefore(v, rs, d, i, k + 1);
    }
  }

  lemma QuietSearch(v: Vol, g: Layout, rs: Rules, d: nat, i: nat, seen: seq<nat>, marks: seq<bool>,
                    c: nat, more: seq<nat>, now: seq<bool>)
    requires DirsOk(g) && DepthsOk(g) && d in g.dirs && Quiet(v, g, rs, d, i, seen, marks) && 2 <= i < SLOTS
    requires Searched(v, rs, d, i) && c == Start(Entry(v, d, i)) && c in g.dirs && VisitsAll(v, g, rs, c, more)
    requires (forall x :: x in more ==> x in Subtree(g, c)) && FilesMarked(v, rs, c, i, SLOTS, marks, now)
    ensures Quiet(v, g, rs, d, i + 1, seen + more, now)
  {
    QuietMarks(v, rs, d, i, c, marks, now);
    forall x
      ensures x in seen + more <==> x == d || ReachedBefore(v, g, rs, d, i + 1, x)
    {
      ReachedNext(v, g, rs, d, i, x);
      assert x in more <==> Reached(v, g, rs, d, i, x);
    }
  }

  /** What comes behind a match is not searched. */
  lemma PastMatch(v: Vol, g: Layout, rs: Rules, d: nat, i: nat, x: nat)
    requires DirsOk(g) && DepthsOk(g) && d in g.dirs && i <= SLOTS && (i == SLOTS || Stops(v, rs, d, i))
    ensures ReachedBefore(v, g, rs, d, SLOTS, x) <==> ReachedBefore(v, g, rs, d, i, x)
  {
    if j: nat :| j < SLOTS && Reached(v, g, rs, d, j, x) {
      assert Passes(v, rs, d, j + 1);
      assert j < i;
    }
    if j: nat :| j < i && Reached(v, g, rs, d, j, x) {
      assert j < SLOTS;
    }
  }

  /** The loop over d ends at a match in slot i, or behind the last slot. */
  lemma QuietDone(v: Vol, g: Layout, rs: Rules, d: nat, i: nat, seen: seq<nat>, marks: seq<bool>)
    requires TreeOk(v, g) && d in g.dirs && Quiet(v, g, rs, d, i, seen, marks)
    requires i <= SLOTS && (i == SLOTS || Stops(v, rs, d, i))
    ensures VisitsAll(v, g, rs, d, seen)
  {
    InvDepths(v, g);
    forall x
      ensures x in seen <==> x in g.dirs && Visited(v, g, rs, d, x)
    {
      PastMatch(v, g, rs, d, i, x);
      if x in g.dirs {
        VisitedIff(v, g, rs, d, x);
      }
    }
  }

  lemma PassesNext(v: Vol, rs: Rules, d: nat, i: nat)
    requires Passes(v, rs, d, i) && !Stops(v, rs, d, i)
    ensures Passes(v, rs, d, i + 1)
  {
  }

  /** One more slot of d that is no match. */
  lemma FilesNext(v: Vol, rs: Rules, d: nat, own: nat, i: nat, was: seq<bool>, before: seq<bool>, now: seq<bool>)
    requires 2 <= i < SLOTS && FilesMarked(v, rs, d, own, i, was, before) && Passes(v, rs, d, i + 1)
    requires now == before[i - 1 := before[i - 1] || FileIn(v, d, i)]
    ensures FilesMarked(v, rs, d, own, i + 1, was, now)
  {
  }

  lemma FilesPassed(v: Vol, rs: Rules, d: nat, own: nat, i: nat, was: seq<bool>, now: seq<bool>)
    requires FilesMarked(v, rs, d, own, i, was, now) && i <= SLOTS && (i == SLOTS || Stops(v, rs, d, i))
    ensures FilesMarked(v, rs, d, own, SLOTS, was, now)
  {
    forall k: nat | k < 63
      ensures now[k] <==> was[k] || k + 1 == own || (k + 1 < SLOTS && FileIn(v, d, k + 1) && Passes(v, rs, d, k + 2))
    {
    }
  }

  /** The walk of directory d has got to slot i. */
  ghost predicate WalkOk(v: Vol, g: Layout, rs: Rules, d: nat, i: nat, seen: seq<nat>, ms: seq<Match>)
    requires DirsOk(g) && DepthsOk(g) && d in g.dirs
  {
    d in seen && Passes(v, rs, d, i) && ReportedBut(v, rs, d, seen, ms) && Progress(v, g, d, i, seen)
    && forall x :: x in seen ==> x in Subtree(g, d)
  }

  lemma QuietStart(v: Vol, g: Layout, rs: Rules, d: nat, marks: seq<bool>)
    requires DirsOk(g) && DepthsOk(g) && d in g.dirs && |marks| == 63 && forall k :: 0 <= k < 63 ==> !marks[k]
    ensures Quiet(v, g, rs, d, 2, [d], marks)
  {
    forall j: nat | j < 2
      ensures !Searched(v, rs, d, j)
    {
      assert !FolderIn(v, d, j);
    }
    assert forall k: nat :: !MarkedBefore(v, rs, d, 2, k);
    assert forall x: nat :: !ReachedBefore(v, g, rs, d, 2, x);
  }

  /** What a searched folder adds to the reads and the matches of its directory. */
  lemma FolderStep(v: Vol, g: Layout, rs: Rules, d: nat, i: nat, seen: seq<nat>, ms: seq<Match>,
                   more: seq<nat>, further: seq<Match>)
    requires TreeOk(v, g) && d in g.dirs && FolderIn(v, d, i) && WalkOk(v, g, rs, d, i, seen, ms)
    requires Passes(v, rs, d, i + 1) && NoRepeats(more) && Reported(v, rs, more, further)
    requires forall x :: x in more ==> x in Subtree(g, Start(Entry(v, d, i)))
    ensures WalkOk(v, g, rs, d, i + 1, seen + more, ms + further)
  {
    ListedFolder(v, g, d, i);
    InvDepths(v, g);
    var c := Start(Entry(v, d, i));
    forall x | x in more
      ensures x !in seen && x != d
    {
      assert SeenBelow(v, g, d, i, x);
      NewBelow(v, g, d, i, seen, c, x);
    }
    ProgressBelow(v, g, d, i, seen, c, more);
    ReportedMore(v, rs, d, seen, ms, more, further);
    SubtreeShrinks(g, c);
  }

  lemma QuietFolder(v: Vol, g: Layout, rs: Rules, d: nat, i: nat, seen: seq<nat>, marks: seq<bool>,
                    more: seq<nat>, now: seq<bool>)
    requires TreeOk(v, g) && d in g.dirs && Quiet(v, g, rs, d, i, seen, marks) && FolderIn(v, d, i)
    requires Passes(v, rs, d, i + 1)
    requires if marks[i - 1] then more == [] && now == marks
             else VisitsAll(v, g, rs, Start(Entry(v, d, i)), more)
                  && FilesMarked(v, rs, Start(Entry(v, d, i)), i, SLOTS, marks, now)
    requires forall x :: x in more ==> x in Subtree(g, Start(Entry(v, d, i)))
    ensures Quiet(v, g, rs, d, i + 1, seen + more, now)
  {
    SearchedIff(v, g, rs, d, i, seen, marks);
    ListedFolder(v, g, d, i);
    if marks[i - 1] {
      assert seen + more == seen;
      QuietSkip(v, g, rs, d, i, seen, marks, now);
    } else {
      QuietSearch(v, g, rs, d, i, seen, marks, Start(Entry(v, d, i)), more, now);
    }
  }

  // ----- A search from the root

  lemma {:induction false} UnderRoot(g: Layout, x: nat)
    requires DepthsOk(g) && x in g.dirs && x in g.depth
    ensures Under(g, x, ROOT)
    decreases g.depth[x]
  {
    if x != ROOT {
      UnderRoot(g, g.owner[x].dir);
    }
  }

  /** A search from the root reads every directory exactly when nothing stands in the way of a folder. */
  lemma RootCovers(v: Vol, g: Layout, rs: Rules, seen: seq<nat>)
    requires TreeOk(v, g) && VisitsAll(v, g, rs, ROOT, seen)
    ensures (forall x :: x in g.dirs ==> x in seen) <==> Clear(v, g, rs, ROOT)
  {
    InvDepths(v, g);
    CoversIff(v, g, rs, ROOT);
    forall x | x in g.dirs
      ensures x in Subtree(g, ROOT)
    {
      UnderRoot(g, x);
    }
  }
}
