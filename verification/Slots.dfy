/** How many entries a directory lists, and how many it has room for. */
module Slots {
  import opened DirEntry
  import opened Volume
  import opened Invariant
  import opened Operations
  import opened Refinement
  import opened Ownership

  /** The slots of a directory that can list entries. */
  const ROOM := SLOTS - 2

  ghost function KeysIn(fs: FS, p: nat): set<Key> {
    set k | k in fs.entries && k.0 == p :: k.1
  }

  ghost function UsedSlots(v: Vol, p: nat): set<nat>
    requires p < MAP_SIZE
  {
    set i: nat | 2 <= i < SLOTS && Used(Entry(v, p, i))
  }

  ghost function KeysAt(v: Vol, p: nat, slots: set<nat>): set<Key>
    requires p < MAP_SIZE && forall i :: i in slots ==> i < SLOTS
  {
    set i | i in slots :: KeyOf(Entry(v, p, i))
  }

  /** No two used slots share a key. */
  lemma {:induction false} AsManyKeys(v: Vol, p: nat, slots: set<nat>)
    requires p < MAP_SIZE && KeysOk(v, p) && forall i :: i in slots ==> 2 <= i < SLOTS && Used(Entry(v, p, i))
    ensures |KeysAt(v, p, slots)| == |slots|
  {
    if slots != {} {
      var i :| i in slots;
      var rest := slots - {i};
      AsManyKeys(v, p, rest);
      assert KeysAt(v, p, slots) == KeysAt(v, p, rest) + {KeyOf(Entry(v, p, i))};
      forall j | j in rest
        ensures KeyOf(Entry(v, p, j)) != KeyOf(Entry(v, p, i))
      {
        assert 1 <= j < SLOTS && 1 <= i < SLOTS && j != i;
      }
    }
  }

  lemma {:induction false} SubsetSize<T>(a: set<T>, b: set<T>)
    requires a <= b
    ensures |a| <= |b|
  {
    if a != {} {
      var x :| x in a;
      SubsetSize(a - {x}, b - {x});
    }
  }

  /** A slot is unused exactly when fewer than 62 are used. */
  lemma UnusedIff(v: Vol, p: nat)
    requires p < MAP_SIZE
    ensures FirstUnused(v.disk[p], 2) < SLOTS <==> |UsedSlots(v, p)| < ROOM
  {
    var i := FirstUnused(v.disk[p], 2);
    if i < SLOTS {
      assert UsedSlots(v, p) <= Interval(2, ROOM) - {i};
      SubsetSize(UsedSlots(v, p), Interval(2, ROOM) - {i});
    } else {
      assert UsedSlots(v, p) == Interval(2, ROOM);
    }
  }

  lemma KeysAreUsed(v: Vol, g: Layout, fs: FS, p: nat)
    requires DirsOk(g) && Shows(v, g, fs) && p in g.dirs
    ensures KeysIn(fs, p) == KeysAt(v, p, UsedSlots(v, p))
  {
    forall key
      ensures key in KeysIn(fs, p) <==> key in KeysAt(v, p, UsedSlots(v, p))
    {
      ShownKey(v, g, fs, p, key);
      if key in KeysIn(fs, p) {
        assert (p, key) in fs.entries;
        var i := SlotFor(v, g, p, key);
        assert i in UsedSlots(v, p);
      }
      if key in KeysAt(v, p, UsedSlots(v, p)) {
        var i :| i in UsedSlots(v, p) && KeyOf(Entry(v, p, i)) == key;
        assert ListedAt(v, g, p, i, key);
      }
    }
  }

  /** A directory has a slot left exactly when it lists fewer than 62 entries. */
  lemma SlotLeftIff(v: Vol, g: Layout, fs: FS, p: nat)
    requires DirsOk(g) && HeadsOk(v, g) && Shows(v, g, fs) && p in g.dirs
    ensures FirstUnused(v.disk[p], 2) < SLOTS <==> |KeysIn(fs, p)| < ROOM
  {
    assert DirOk(v, g, p);
    KeysAreUsed(v, g, fs, p);
    AsManyKeys(v, p, UsedSlots(v, p));
    UnusedIff(v, p);
  }

  /** An unused slot matches the all-zero key. */
  lemma UnusedMatches(v: Vol, g: Layout, p: nat, from: nat)
    requires DirsOk(g) && SlotsOk(v, g) && p in g.dirs && from <= 2 && FirstUnused(v.disk[p], 2) < SLOTS
    ensures FirstMatch(v.disk[p], ZERO_KEY, from) < SLOTS
  {
    var i := FirstUnused(v.disk[p], 2);
    assert SlotOk(v, g, p, i);
    ZeroSlotKey();
    assert KeyOf(SlotAt(v.disk[p], i)) == ZERO_KEY;
  }

  /** Where a directory with a name lists no all-zero key, delete and read may be asked for that key exactly
      when the directory is full: otherwise they find an unused slot. */
  lemma ZeroLookupIff(v: Vol, g: Layout, fs: FS, req: Request)
    requires Inv(v, g) && Shows(v, g, fs) && req.parent in g.dirs && KeyReq(req) == ZERO_KEY
    requires fs.names[req.parent] != ZERO_KEY.name && (req.parent as nat, ZERO_KEY) !in fs.entries
    ensures DeleteSafe(v, req) <==> |KeysIn(fs, req.parent)| == ROOM
    ensures ReadSafe(v, req) <==> |KeysIn(fs, req.parent)| == ROOM
  {
    var p: nat := req.parent;
    DirsAreValidParents(v, g, p);
    LookupSafeIff(v, g, req);
    SlotLeftIff(v, g, fs, p);
    ZeroHits(v, g, fs, p);
  }

  /** The first slot that matches the all-zero key is an unused one, if there is any. */
  lemma ZeroHits(v: Vol, g: Layout, fs: FS, p: nat)
    requires DirsOk(g) && HeadsOk(v, g) && SlotsOk(v, g) && Shows(v, g, fs) && p in g.dirs
    requires fs.names[p] != ZERO_KEY.name && (p, ZERO_KEY) !in fs.entries
    ensures |KeysIn(fs, p)| <= ROOM
    ensures var i := FirstMatch(v.disk[p], ZERO_KEY, 0);
            (i < SLOTS <==> |KeysIn(fs, p)| < ROOM) && (i < SLOTS ==> !Used(SlotAt(v.disk[p], i)))
  {
    var i := FirstMatch(v.disk[p], ZERO_KEY, 0);
    assert DirOk(v, g, p);
    SlotLeftIff(v, g, fs, p);
    AtMostFull(v, g, fs, p);
    if |KeysIn(fs, p)| < ROOM {
      UnusedMatches(v, g, p, 0);
    }
    if i < SLOTS {
      assert KeyOf(Entry(v, p, 1)).name[0] == DOTDOT[0] != ZERO_KEY.name[0];
      assert KeyOf(Entry(v, p, 0)).name == fs.names[p];
      assert i >= 2;
      assert !Used(Entry(v, p, i));
      assert FirstUnused(v.disk[p], 2) <= i;
    }
  }

  lemma AtMostFull(v: Vol, g: Layout, fs: FS, p: nat)
    requires DirsOk(g) && HeadsOk(v, g) && Shows(v, g, fs) && p in g.dirs
    ensures |KeysIn(fs, p)| <= ROOM
  {
    assert DirOk(v, g, p);
    KeysAreUsed(v, g, fs, p);
    AsManyKeys(v, p, UsedSlots(v, p));
    SubsetSize(UsedSlots(v, p), Interval(2, ROOM));
  }
}
