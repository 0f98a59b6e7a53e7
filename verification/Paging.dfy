/** The page-frame allocator and the page directories of src/paging.c. */
module Paging {
  import opened Memory

  const FRAME_SIZE := 0x40_0000
  const FRAMES := 32
  const DIRECTORIES := 32
  const ENTRIES := 1024
  const TABLE_SIZE := DIRECTORIES * ENTRIES
  const KERNEL_PAGE := 0x300
  const KERNEL_BASE := 0xC000_0000  // KERNEL_VIRTUAL_ADDRESS_BASE
  const WORD := 0x1_0000_0000

  // ----- Page directory entries

  type Bits3 = x: int | 0 <= x < 8
  type Bits10 = x: int | 0 <= x < 1024

  /** The eight flag bits, lowest first. */
  datatype Flag = Flag(present: bool, write: bool, user: bool, writeThrough: bool,
                       cacheDisabled: bool, accessed: bool, dirty: bool, large: bool)

  /** One entry that maps a 4 MiB page, fields lowest first. */
  datatype Pde = Pde(flag: Flag, globalPage: bool, ignored: Bits3, pat: bool,
                     physical: byte, reserved: bool, lower: Bits10)

  const NO_FLAG := Flag(false, false, false, false, false, false, false, false)
  const USER_FLAG := Flag(true, true, true, false, false, false, false, true)
  const KERNEL_FLAG := Flag(true, true, false, false, false, false, false, true)
  const ZERO_PDE := Pde(NO_FLAG, false, 0, false, 0, false, 0)

  function Bit(b: bool): nat {
    if b then 1 else 0
  }

  // ----- Words made of fields

  /** How many values a field can have. */
  type Base = b: int | b > 0 witness 1

  /** The number with d as its lowest field, below b, and rest above it. */
  function Join(d: nat, b: Base, rest: nat): nat { d + b * rest }
  function Lowest(w: nat, b: Base): (d: nat) ensures d < b { w % b }
  function Rest(w: nat, b: Base): nat { w / b }

  /** The number whose fields, lowest first, are ds. */
  function Value(ds: seq<nat>, bs: seq<Base>): nat
    requires |ds| == |bs|
  {
    if ds == [] then 0 else Join(ds[0], bs[0], Value(ds[1..], bs[1..]))
  }

  predicate Within(ds: seq<nat>, bs: seq<Base>) {
    |ds| == |bs| && forall k :: 0 <= k < |ds| ==> ds[k] < bs[k]
  }

  function Fields(w: nat, bs: seq<Base>): (ds: seq<nat>)
    ensures Within(ds, bs)
    decreases |bs|
  {
    if bs == [] then [] else [Lowest(w, bs[0])] + Fields(Rest(w, bs[0]), bs[1..])
  }

  /** How many numbers fields of these sizes tell apart. */
  function Range(bs: seq<Base>): nat {
    if bs == [] then 1 else Join(0, bs[0], Range(bs[1..]))
  }

  lemma Multiple(b: nat, k: int)
    ensures k >= 1 ==> b * k >= b
    ensures k <= -1 ==> b * k + b <= 0
  {
  }

  lemma Divide(d: nat, b: Base, rest: nat, range: nat)
    requires d < b && rest < range
    ensures Rest(Join(d, b, rest), b) == rest && Lowest(Join(d, b, rest), b) == d
    ensures Join(d, b, rest) < Join(0, b, range)
  {
    var x := d + b * rest;
    assert b * (x / b - rest) == d - x % b;
    Multiple(b, x / b - rest);
    Multiple(b, range - rest);
  }

  lemma Rejoin(w: nat, b: Base, range: nat)
    requires w < Join(0, b, range)
    ensures Rest(w, b) < range && Join(Lowest(w, b), b, Rest(w, b)) == w
  {
    Multiple(b, w / b - range);
  }

  lemma {:induction false} FieldsOfValue(ds: seq<nat>, bs: seq<Base>)
    requires Within(ds, bs)
    ensures Value(ds, bs) < Range(bs) && Fields(Value(ds, bs), bs) == ds
  {
    if ds != [] {
      FieldsOfValue(ds[1..], bs[1..]);
      Divide(ds[0], bs[0], Value(ds[1..], bs[1..]), Range(bs[1..]));
    }
  }

  lemma {:induction false} ValueOfFields(w: nat, bs: seq<Base>)
    requires w < Range(bs)
    ensures Value(Fields(w, bs), bs) == w
    decreases |bs|
  {
    if bs != [] {
      Rejoin(w, bs[0], Range(bs[1..]));
      ValueOfFields(Rest(w, bs[0]), bs[1..]);
      assert Fields(w, bs)[1..] == Fields(Rest(w, bs[0]), bs[1..]);
    }
  }

  // ----- The word of an entry

  const FLAG_FIELDS: seq<Base> := [2, 2, 2, 2, 2, 2, 2, 2]
  const PDE_FIELDS: seq<Base> := [0x100, 2, 8, 2, 0x100, 2, 1024]

  lemma FieldRanges()
    ensures Range(FLAG_FIELDS) == 0x100 && Range(PDE_FIELDS) == WORD
  {
  }

  function FlagBits(f: Flag): (ds: seq<nat>)
    ensures Within(ds, FLAG_FIELDS)
  {
    [Bit(f.present), Bit(f.write), Bit(f.user), Bit(f.writeThrough),
     Bit(f.cacheDisabled), Bit(f.accessed), Bit(f.dirty), Bit(f.large)]
  }

  function FlagOf(ds: seq<nat>): Flag
    requires Within(ds, FLAG_FIELDS)
  {
    Flag(ds[0] == 1, ds[1] == 1, ds[2] == 1, ds[3] == 1, ds[4] == 1, ds[5] == 1, ds[6] == 1, ds[7] == 1)
  }

  function PackFlag(f: Flag): (r: nat)
    ensures r < 0x100
  {
    FieldsOfValue(FlagBits(f), FLAG_FIELDS);
    FieldRanges();
    Value(FlagBits(f), FLAG_FIELDS)
  }

  function UnpackFlag(x: byte): Flag {
    FlagOf(Fields(x, FLAG_FIELDS))
  }

  function PdeFields(e: Pde): (ds: seq<nat>)
    ensures Within(ds, PDE_FIELDS)
  {
    [PackFlag(e.flag), Bit(e.globalPage), e.ignored, Bit(e.pat), e.physical, Bit(e.reserved), e.lower]
  }

  /** The 32-bit word the processor reads. */
  function Pack(e: Pde): nat {
    Value(PdeFields(e), PDE_FIELDS)
  }

  function Unpack(w: u32): Pde {
    PdeOf(Fields(w, PDE_FIELDS))
  }

  function PdeOf(ds: seq<nat>): Pde
    requires Within(ds, PDE_FIELDS)
  {
    Pde(UnpackFlag(ds[0]), ds[1] == 1, ds[2], ds[3] == 1, ds[4], ds[5] == 1, ds[6])
  }

  lemma FlagRoundTrip(f: Flag)
    ensures UnpackFlag(PackFlag(f)) == f
  {
    FieldsOfValue(FlagBits(f), FLAG_FIELDS);
  }

  lemma BitsOfFlag(ds: seq<nat>)
    requires Within(ds, FLAG_FIELDS)
    ensures FlagBits(FlagOf(ds)) == ds
  {
    assert ds == [ds[0], ds[1], ds[2], ds[3], ds[4], ds[5], ds[6], ds[7]];
  }

  lemma ByteRoundTrip(x: byte)
    ensures PackFlag(UnpackFlag(x)) == x
  {
    FieldRanges();
    ValueOfFields(x, FLAG_FIELDS);
    BitsOfFlag(Fields(x, FLAG_FIELDS));
  }

  lemma FieldsOfPde(ds: seq<nat>)
    requires Within(ds, PDE_FIELDS)
    ensures PdeFields(PdeOf(ds)) == ds
  {
    ByteRoundTrip(ds[0]);
    assert ds == [ds[0], ds[1], ds[2], ds[3], ds[4], ds[5], ds[6]];
  }

  lemma PackUnpack(w: u32)
    ensures Pack(Unpack(w)) == w
  {
    FieldRanges();
    ValueOfFields(w, PDE_FIELDS);
    FieldsOfPde(Fields(w, PDE_FIELDS));
  }

  lemma UnpackPack(e: Pde)
    ensures Pack(e) < WORD && Unpack(Pack(e)) == e
  {
    FieldRanges();
    FieldsOfValue(PdeFields(e), PDE_FIELDS);
    FlagRoundTrip(e.flag);
  }

  /** The fields of an entry tile its word: nothing overlaps and nothing is lost, both ways. */
  lemma PdeRoundTrip(e: Pde, w: u32)
    ensures Unpack(w) == e <==> w == Pack(e)
  {
    UnpackPack(e);
    PackUnpack(w);
  }

  /** The word of a user entry: frame f in bits 22 to 31, and present, writable, user and 4 MiB set. */
  lemma UserWord(f: Bits10)
    ensures Pack(UserPde(f)) == f * FRAME_SIZE + 0x87
  {
    FlagWord(USER_FLAG);
    FlagAndFrame(UserPde(f), 0x87);
  }

  /** The eight flags, lowest first, are the bits of the entry's low byte. */
  lemma FlagWord(f: Flag)
    ensures PackFlag(f) == Bit(f.present) + 2 * Bit(f.write) + 4 * Bit(f.user) + 8 * Bit(f.writeThrough)
                           + 16 * Bit(f.cacheDisabled) + 32 * Bit(f.accessed) + 64 * Bit(f.dirty) + 128 * Bit(f.large)
  {
    EightBits(Bit(f.present), Bit(f.write), Bit(f.user), Bit(f.writeThrough),
              Bit(f.cacheDisabled), Bit(f.accessed), Bit(f.dirty), Bit(f.large));
  }

  lemma EightBits(a: nat, b: nat, c: nat, d: nat, e: nat, f: nat, g: nat, h: nat)
    ensures Value([a, b, c, d, e, f, g, h], FLAG_FIELDS)
            == a + 2 * b + 4 * c + 8 * d + 16 * e + 32 * f + 64 * g + 128 * h
  {
    assert Value([h], [2]) == h;
    Above(g, 2, [h], [2]);
    Above(f, 2, [g, h], [2, 2]);
    Above(e, 2, [f, g, h], [2, 2, 2]);
    Above(d, 2, [e, f, g, h], [2, 2, 2, 2]);
    Above(c, 2, [d, e, f, g, h], [2, 2, 2, 2, 2]);
    Above(b, 2, [c, d, e, f, g, h], [2, 2, 2, 2, 2, 2]);
    Above(a, 2, [b, c, d, e, f, g, h], [2, 2, 2, 2, 2, 2, 2]);
  }

  /** The word of the kernel's entry: frame 0, and present, writable and 4 MiB set. */
  lemma KernelWord(e: Pde)
    requires e == KERNEL_PDE
    ensures Pack(e) == 0x83
  {
    FlagWord(e.flag);
    FlagAndFrame(e, 0x83);
  }

  lemma ZeroWord(e: Pde)
    requires e == ZERO_PDE
    ensures Pack(e) == 0
  {
    FlagWord(e.flag);
    FlagAndFrame(e, 0);
  }

  /** An entry with nothing but its flags, of this value, and its frame. */
  lemma FlagAndFrame(e: Pde, flag: nat)
    requires PackFlag(e.flag) == flag && e == ZERO_PDE.(flag := e.flag, lower := e.lower)
    ensures Pack(e) == e.lower * FRAME_SIZE + flag
  {
    var f: nat := e.lower;
    assert Value([f], [1024]) == f;
    Above(0, 2, [f], [1024]);
    Above(0, 0x100, [0, f], [2, 1024]);
    Above(0, 2, [0, 0, f], [0x100, 2, 1024]);
    Above(0, 8, [0, 0, 0, f], [2, 0x100, 2, 1024]);
    Above(0, 2, [0, 0, 0, 0, f], [8, 2, 0x100, 2, 1024]);
    Above(flag, 0x100, [0, 0, 0, 0, 0, f], [2, 8, 2, 0x100, 2, 1024]);
  }

  lemma Above(d: nat, b: Base, ds: seq<nat>, bs: seq<Base>)
    requires |ds| == |bs|
    ensures Value([d] + ds, [b] + bs) == d + b * Value(ds, bs)
  {
  }

  // ----- The state

  /** The frame bitmap, the free counter, the directory bitmap and the 32 directories, one after another. */
  datatype Mem = Mem(frames: seq<bool>, free: u32, used: seq<bool>, table: seq<Pde>)

  ghost predicate Shape(m: Mem) {
    |m.frames| == FRAMES && |m.used| == DIRECTORIES && |m.table| == TABLE_SIZE
  }

  type Dir = d: int | 0 <= d < DIRECTORIES

  function PageIndex(va: u32): Bits10 {
    va / FRAME_SIZE
  }

  /** The index of the entry that maps va in directory d. */
  function At(d: Dir, va: u32): (e: nat)
    ensures e < TABLE_SIZE && e / ENTRIES == d && e % ENTRIES == PageIndex(va)
  {
    d * ENTRIES + PageIndex(va)
  }

  function UserPde(f: Bits10): Pde {
    ZERO_PDE.(flag := USER_FLAG, lower := f)
  }

  const KERNEL_PDE := ZERO_PDE.(flag := KERNEL_FLAG)

  // ----- What each operation does

  function Requested(amount: u32): nat {
    (amount + FRAME_SIZE - 1) % WORD / FRAME_SIZE
  }

  predicate FreeRun(frames: seq<bool>, i: nat, n: nat) {
    i + n <= |frames| && forall k: nat :: i <= k < i + n ==> !frames[k]
  }

  ghost predicate Fits(frames: seq<bool>, amount: u32) {
    Requested(amount) > 0 && exists i: nat :: FreeRun(frames, i, Requested(amount))
  }

  function FirstFree(frames: seq<bool>, from: nat): (r: nat)
    requires from <= |frames|
    ensures from <= r <= |frames| && (r < |frames| ==> !frames[r])
    ensures forall k :: from <= k < r ==> frames[k]
    decreases |frames| - from
  {
    if from == |frames| || !frames[from] then from else FirstFree(frames, from + 1)
  }

  function Map(t: seq<Pde>, e: nat, flag: Flag, lower: Bits10): (r: seq<Pde>)
    requires e < |t|
    ensures |r| == |t|
  {
    t[e := t[e].(flag := flag, lower := lower)]
  }

  function Allocate(m: Mem, d: Dir, va: u32): (Mem, bool)
    requires Shape(m)
  {
    var f := FirstFree(m.frames, 0);
    if f == FRAMES then (m, false)
    else (Mem(m.frames[f := true], (m.free - 1) % WORD, m.used, Map(m.table, At(d, va), USER_FLAG, f)), true)
  }

  /** The bitmap index that a release writes lies inside the bitmap. */
  predicate FreeSafe(m: Mem, d: Dir, va: u32)
    requires Shape(m)
  {
    m.table[At(d, va)].lower < FRAMES
  }

  function Free(m: Mem, d: Dir, va: u32): Mem
    requires Shape(m) && FreeSafe(m, d, va)
  {
    var e := At(d, va);
    Mem(m.frames[m.table[e].lower := false], (m.free + 1) % WORD, m.used, m.table[e := ZERO_PDE])
  }

  function ClearDir(t: seq<Pde>, d: Dir): (r: seq<Pde>)
    requires |t| == TABLE_SIZE
    ensures |r| == TABLE_SIZE
    ensures forall e :: 0 <= e < TABLE_SIZE ==> r[e] == if e / ENTRIES == d then ZERO_PDE else t[e]
  {
    t[..d * ENTRIES] + seq(ENTRIES, _ => ZERO_PDE) + t[(d + 1) * ENTRIES..]
  }

  datatype Option<T> = None | Some(value: T)

  function CreateDir(m: Mem): (Mem, Option<Dir>)
    requires Shape(m)
  {
    var d := FirstFree(m.used, 0);
    if d == DIRECTORIES then (m, None)
    else
      (m.(used := m.used[d := true],
          table := Map(ClearDir(m.table, d), d * ENTRIES + KERNEL_PAGE, KERNEL_FLAG, 0)), Some(d))
  }

  /** d is the place of the argument among the listed directories; None is any other address. */
  function FreeDir(m: Mem, d: Option<Dir>): (Mem, bool)
    requires Shape(m)
  {
    if d.None? then (m, false)
    else (m.(used := m.used[d.value := false], table := ClearDir(m.table, d.value)), true)
  }

  // ----- The code

  class PageManager {
    const frameMap: array<bool>
    var freeCount: u32
    const dirUsed: array<bool>
    const tables: array<Pde>

    ghost predicate Valid()
      reads this
    {
      frameMap.Length == FRAMES && dirUsed.Length == DIRECTORIES && tables.Length == TABLE_SIZE
      && frameMap != dirUsed
    }

    ghost function View(): (m: Mem)
      requires Valid()
      reads this, frameMap, dirUsed, tables
      ensures Shape(m)
    {
      Mem(frameMap[..], freeCount, dirUsed[..], tables[..])
    }

    /** The initial values of the static data. */
    constructor ()
      ensures Valid() && fresh(frameMap) && fresh(dirUsed) && fresh(tables)
      ensures View() == Boot()
    {
      frameMap := new bool[FRAMES](i => i == 0);
      dirUsed := new bool[DIRECTORIES](_ => false);
      tables := new Pde[TABLE_SIZE](_ => ZERO_PDE);
      freeCount := FRAMES - 1;
    }

    /** True exactly when as many neighbouring frames are free as the amount needs, and it needs one at least. */
    method AllocateCheck(amount: u32) returns (ok: bool)
      requires Valid()
      ensures ok <==> Fits(frameMap[..], amount)
    {
      var requested: nat := (amount + FRAME_SIZE - 1) % WORD / FRAME_SIZE;
      var total: nat, idx: nat := 0, 0;
      ghost var frames := frameMap[..];
      assert requested == Requested(amount);
      while idx < FRAMES
        invariant total <= idx <= FRAMES
        invariant FreeRun(frames, idx - total, total) && (total < idx ==> frames[idx - total - 1])
        invariant requested == 0 || total < requested
        invariant forall i: nat :: i + requested <= idx && requested > 0 ==> !FreeRun(frames, i, requested)
      {
        if !frameMap[idx] {
          total := total + 1;
          if total == requested {
            assert FreeRun(frames, idx + 1 - total, requested);
            return true;
          }
        } else {
          total := 0;
        }
        idx := idx + 1;
      }
      return false;
    }

    method UpdateEntry(d: Dir, physical: u32, va: u32, flag: Flag)
      requires Valid()
      modifies tables
      ensures tables[..] == Map(old(tables[..]), At(d, va), flag, physical / FRAME_SIZE)
    {
      var page := va / FRAME_SIZE % ENTRIES;
      var e := d * ENTRIES + page;
      tables[e] := tables[e].(flag := flag);
      tables[e] := tables[e].(lower := physical / FRAME_SIZE % ENTRIES);
    }

    method AllocateUserPageFrame(d: Dir, va: u32) returns (ok: bool)
      requires Valid()
      modifies this, frameMap, tables
      ensures (View(), ok) == Allocate(old(View()), d, va)
    {
      var enough := AllocateCheck(FRAME_SIZE);
      ghost var frames := frameMap[..];
      OneFrame(frames);
      if enough {
        var available := 0;
        while frameMap[available] && available < FRAMES
          invariant available < FRAMES && FirstFree(frames, 0) == FirstFree(frames, available) < FRAMES
          decreases FRAMES - available
        {
          available := available + 1;
        }
        frameMap[available] := true;
        var physical := available * FRAME_SIZE;
        freeCount := (freeCount - 1) % WORD;
        UpdateEntry(d, physical, va, USER_FLAG);
        return true;
      }
      return false;
    }

    method FreeUserPageFrame(d: Dir, va: u32) returns (ok: bool)
      requires Valid() && FreeSafe(View(), d, va)
      modifies this, frameMap, tables
      ensures ok && View() == Free(old(View()), d, va)
    {
      var page := va / FRAME_SIZE % ENTRIES;
      if page < ENTRIES {
        var e := d * ENTRIES + page;
        var physical := tables[e].lower * FRAME_SIZE + va % FRAME_SIZE;
        frameMap[physical / FRAME_SIZE] := false;
        tables[e] := ZERO_PDE;
        freeCount := (freeCount + 1) % WORD;
        return true;
      }
      return false;
    }

    /** The memset over one directory. */
    method ClearDirectory(d: Dir)
      requires Valid()
      modifies tables
      ensures tables[..] == ClearDir(old(tables[..]), d)
    {
      ghost var was := tables[..];
      var i := 0;
      while i < ENTRIES
        invariant i <= ENTRIES
        invariant forall e :: 0 <= e < TABLE_SIZE ==>
                    tables[e] == if d * ENTRIES <= e < d * ENTRIES + i then ZERO_PDE else was[e]
      {
        tables[d * ENTRIES + i] := ZERO_PDE;
        i := i + 1;
      }
    }

    method CreateNewPageDirectory() returns (r: Option<Dir>)
      requires Valid()
      modifies dirUsed, tables
      ensures (View(), r) == CreateDir(old(View()))
    {
      ghost var used := dirUsed[..];
      var i := 0;
      while i < DIRECTORIES
        invariant i <= DIRECTORIES && FirstFree(used, 0) == FirstFree(used, i)
        invariant View() == old(View())
      {
        if !dirUsed[i] {
          dirUsed[i] := true;
          ClearDirectory(i);
          var e := i * ENTRIES + KERNEL_PAGE;
          tables[e] := tables[e].(flag := KERNEL_FLAG);
          tables[e] := tables[e].(lower := 0);
          assert View().table == CreateDir(old(View())).0.table;
          return Some(i);
        }
        i := i + 1;
      }
      return None;
    }

    method FreePageDirectory(d: Option<Dir>) returns (ok: bool)
      requires Valid()
      modifies dirUsed, tables
      ensures (View(), ok) == FreeDir(old(View()), d)
    {
      var i := 0;
      while i < DIRECTORIES
        invariant i <= DIRECTORIES && (d.Some? ==> i <= d.value)
        invariant View() == old(View())
      {
        if Some(i) == d {
          dirUsed[i] := false;
          ClearDirectory(i);
          return true;
        }
        i := i + 1;
      }
      return false;
    }
  }

  function Boot(): (m: Mem)
    ensures Shape(m)
  {
    Mem(seq(FRAMES, i => i == 0), FRAMES - 1, seq(DIRECTORIES, _ => false), seq(TABLE_SIZE, _ => ZERO_PDE))
  }

  /** Asking for one frame's worth of bytes, or for any smaller positive amount, asks for one free frame. */
  lemma OneFrame(frames: seq<bool>)
    requires |frames| == FRAMES
    ensures forall amount: u32 :: 0 < amount <= FRAME_SIZE ==>
              (Fits(frames, amount) <==> FirstFree(frames, 0) < FRAMES)
  {
    forall amount: u32 | 0 < amount <= FRAME_SIZE
      ensures Fits(frames, amount) <==> FirstFree(frames, 0) < FRAMES
    {
      var f := FirstFree(frames, 0);
      assert FRAME_SIZE <= amount + FRAME_SIZE - 1 < 2 * FRAME_SIZE < WORD;
      assert Requested(amount) == 1;
      if f < FRAMES {
        assert FreeRun(frames, f, Requested(amount));
      }
      if Fits(frames, amount) {
        var i: nat :| FreeRun(frames, i, Requested(amount));
        assert !frames[i];
      }
    }
  }
}
