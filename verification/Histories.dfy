/** Inputs for the shell and the searches, each a few ordinary operations away from a format. */
module Histories {
  import opened Memory
  import opened DirEntry
  import opened Volume
  import opened Invariant
  import opened Operations
  import opened Refinement
  import opened Slots
  import opened Runs
  import opened TreeWalk
  import opened Search
  import opened Shell
  import opened PathTracking
  import opened CdLimits
  import opened Scenarios
  import NameParser

  /** A request for a folder, or for a file of size bytes, with a name of two letters or less. */
  function Ask(first: byte, second: byte, parent: u32, size: u32): Request {
    RawRequest([first, second, 0, 0, 0, 0, 0, 0], NO_EXT, parent, size)
  }

  const A: byte := 97
  const B: byte := 98

  lemma AskKey(first: byte, second: byte, parent: u32, size: u32)
    requires first != 0 && first != '.' as int
    ensures var req := Ask(first, second, parent, size);
            ProperKey(req) && KeyReq(req) != ZERO_KEY && KeyReq(req) != DOTDOT_KEY
  {
    var k := KeyReq(Ask(first, second, parent, size)).name;
    assert k[0] == first != ZERO_KEY.name[0] && k[0] != DOTDOT[0];
  }

  // ----- The all-zero key

  /** The request that "rm ." and "cat ." make in the root. */
  function DotRequest(size: u32): Request {
    RawRequest(Zeros(8), Zeros(3), ROOT, size)
  }

  /** The text "." parses with code 0 to the all-zero key, for which delete and read leave a fresh disk. */
  lemma DotIsLost(v: Vol, root: Cluster, f: Bytes, was: Bytes, size: u32)
    requires CleanStack(root) && |f| >= NameParser.REACH && |was| == 3 && Terminated(f) && Padded(f)
    requires CStr(f) == [NameParser.DOT]
    ensures var p := NameParser.Parse(f, was);
            p.code == 0 && p.name == DotRequest(size).name && p.ext == DotRequest(size).ext
    ensures !DeleteSafe(Format(v, root), DotRequest(size)) && !ReadSafe(Format(v, root), DotRequest(size))
  {
    NameParser.ZeroParseIff(f, was);
    FormatSoundIff(v, root);
    FormatRoot(v, root);
    ZeroOnFresh(Format(v, root), DotRequest(size));
  }

  lemma ZeroOnFresh(f: Vol, req: Request)
    requires Inv(f, ROOT_LAYOUT) && f.fat == FormatFat() && req == DotRequest(req.size)
    ensures !DeleteSafe(f, req) && !ReadSafe(f, req)
  {
    FormattedAbs(f);
    AbsShows(f, ROOT_LAYOUT);
    RootNameNotZero();
    assert KeysIn(EMPTY_FS, ROOT) == {};
    ZeroLookupIff(f, ROOT_LAYOUT, EMPTY_FS, req);
  }

  // ----- A full disk

  /** After one file of 509 clusters, the search for a folder's cluster runs off the FAT. */
  lemma FullDisk(v: Vol, root: Cluster, buf: Bytes) returns (v1: Vol)
    requires CleanStack(root) && |buf| == 509 * 2048
    ensures var f, file, folder := Format(v, root), Ask(A, 0, ROOT, 509 * 2048), Ask(B, 0, ROOT, 0);
            WriteSafe(f, file, buf) && Write(W8, f, file, buf) == (v1, 0) && !WriteSafe(v1, folder, [])
  {
    var f := Fresh(v, root);
    var file, folder := Ask(A, 0, ROOT, 509 * 2048), Ask(B, 0, ROOT, 0);
    AskKey(A, 0, ROOT, 509 * 2048);
    NotListed(f, ROOT_LAYOUT, ROOT, 2, KeyReq(file));
    var g1;
    v1, g1 := WriteOne(f, ROOT_LAYOUT, file, buf, 3, 2);
    AskKey(B, 0, ROOT, 0);
    StillFilled(f, ROOT_LAYOUT, file, 3, 2, v1, g1, ROOT, 2);
    OtherKey(v1, g1, file, folder);
    NextCluster(v1, 512, 1);
    DirsAreValidParents(v1, g1, ROOT);
    DuplicateIff(v1, g1, ROOT, KeyReq(folder));
  }

  /** The second name of the root differs from the first. */
  lemma OtherKey(v: Vol, g: Layout, req: Request, other: Request)
    requires DirsOk(g) && FilledTo(v, ROOT, 3) && KeyOf(Entry(v, ROOT, 2)) == KeyReq(req)
    requires req.name[0] != other.name[0]
    ensures !HasKey(v, g, ROOT, KeyReq(other))
  {
    assert KeyReq(req).name[0] != KeyReq(other).name[0];
    NotListed(v, g, ROOT, 3, KeyReq(other));
  }

  // ----- cd

  const START: Bytes := ROOT_PATH + Zeros(74)

  /** Text on the command line, in its zeroed buffer. */
  function Typed(text: Bytes): (arg: Bytes)
    requires |text| < CWD_SIZE
    ensures |arg| == CWD_SIZE
  {
    text + Zeros(CWD_SIZE - |text|)
  }

  lemma TypedText(text: Bytes)
    requires |text| < CWD_SIZE && 0 !in text
    ensures AnyArg(Typed(text)) && CStr(Typed(text)) == text
  {
    var arg := Typed(text);
    assert arg[|text|] == 0 && forall k :: 0 <= k < |text| ==> arg[k] == text[k];
    CLenUnique(arg, |text|);
    assert arg[..|text|] == text;
  }

  lemma StartTracks(v: Vol, g: Layout)
    requires Inv(v, g)
    ensures DepthsOk(g) && Tracks(v, g, v.disk[ROOT], START, ROOT) && Terminated(START) && CLen(START) == 6
  {
    InvDepths(v, g);
    HeldLength(START, ROOT_PATH);
  }

  /** A fresh disk with one folder in the root. */
  lemma OneFolderDisk(v: Vol, root: Cluster, name: Bytes) returns (v1: Vol, g1: Layout)
    requires CleanStack(root) && |name| == 8 && Padded(name) && name[0] != 0 && name[0] != '.' as int
    ensures var f, req := Format(v, root), RawRequest(name, NO_EXT, ROOT, 0);
            WriteSafe(f, req, []) && Write(W8, f, req, []) == (v1, 0)
    ensures Inv(v1, g1) && FolderNamed(v1, ROOT, 2, name) && Start(Entry(v1, ROOT, 2)) == 3
  {
    var f := Fresh(v, root);
    var req: Request := RawRequest(name, NO_EXT, ROOT, 0);
    assert KeyReq(req).name[0] != ZERO_KEY.name[0] && KeyReq(req).name[0] != DOTDOT[0];
    NotListed(f, ROOT_LAYOUT, ROOT, 2, KeyReq(req));
    v1, g1 := WriteOne(f, ROOT_LAYOUT, req, [], 3, 2);
  }

  const LONG: Bytes := [97, 98, 99, 100, 101, 102, 103, 104]

  /** mkdir abcdefgh, then cd abcdefghi: the shell enters the folder, and the path spells no directory. */
  lemma LongNameMisleads(v: Vol, root: Cluster) returns (v1: Vol, g1: Layout)
    requires CleanStack(root)
    ensures var f, req := Format(v, root), RawRequest(LONG, NO_EXT, ROOT, 0);
            WriteSafe(f, req, []) && Write(W8, f, req, []) == (v1, 0) && Inv(v1, g1) && DepthsOk(g1)
    ensures var arg := Typed(LONG + [105]);
            CdSafe(v1, v1.disk[ROOT], START, arg)
            && forall x :: !Spells(v1, g1, Cd(v1, v1.disk[ROOT], START, arg).0, Cd(v1, v1.disk[ROOT], START, arg).1, x)
  {
    v1, g1 := OneFolderDisk(v, root, LONG);
    StartTracks(v1, g1);
    LongArgs();
    LongOpens(v1, g1, Typed(LONG + [105]));
    MisledCd(v1, g1, v1.disk[ROOT], START, ROOT, Typed(LONG + [105]));
  }

  lemma LongArgs()
    ensures var arg := Typed(LONG + [105]);
            OddArg(arg) && arg[..8] == LONG && CLen(arg) == 9 && LONG != DOTDOT && Key(LONG, NO_EXT) != ZERO_KEY
  {
    TypedText(LONG + [105]);
    assert Typed(LONG + [105])[..8] == LONG;
    assert LONG[0] != ZERO_KEY.name[0] && LONG[0] != DOTDOT[0];
  }

  lemma LongOpens(v: Vol, g: Layout, arg: Bytes)
    requires Inv(v, g) && OddArg(arg) && FolderNamed(v, ROOT, 2, arg[..8])
    requires arg[..8] != DOTDOT && Key(arg[..8], NO_EXT) != ZERO_KEY
    ensures Misled(v, ROOT, arg)
  {
    OpensIff(v, g, ROOT, arg[..8]);
  }

  const SLASHED: Bytes := [97, 47, 98, 0, 0, 0, 0, 0]

  /** mkdir a/b, cd a/b, cd ..: the shell is not back where it was. */
  lemma SlashStrands(v: Vol, root: Cluster) returns (v1: Vol)
    requires CleanStack(root)
    ensures var f, req := Format(v, root), RawRequest(SLASHED, NO_EXT, ROOT, 0);
            WriteSafe(f, req, []) && Write(W8, f, req, []) == (v1, 0)
    ensures var arg, back := Typed([97, 47, 98]), Typed([46, 46]);
            CdSafe(v1, v1.disk[ROOT], START, arg)
            && var (t, p) := Cd(v1, v1.disk[ROOT], START, arg);
               CdSafe(v1, t, p, back) && Cd(v1, t, p, back) != (v1.disk[ROOT], START)
  {
    var g1;
    v1, g1 := OneFolderDisk(v, root, SLASHED);
    StartTracks(v1, g1);
    SlashArgs();
    SlashGoes(v1, g1);
    CdAndBackIff(v1, g1, v1.disk[ROOT], START, ROOT, Typed([97, 47, 98]), Typed([46, 46]));
  }

  lemma SlashArgs()
    ensures var arg, back := Typed([97, 47, 98]), Typed([46, 46]);
            GoodArg(arg) && !IsDotDot(arg) && SLASH in arg && GoodArg(back) && IsDotDot(back) && arg[..8] == SLASHED
  {
    TypedText([97, 47, 98]);
    TypedText([46, 46]);
    assert Typed([97, 47, 98])[1] == SLASH;
  }

  lemma SlashGoes(v: Vol, g: Layout)
    requires Inv(v, g) && DepthsOk(g) && FolderNamed(v, ROOT, 2, SLASHED) && Start(Entry(v, ROOT, 2)) == 3
    requires GoodArg(Typed([97, 47, 98])) && !IsDotDot(Typed([97, 47, 98])) && Typed([97, 47, 98])[..8] == SLASHED
    ensures Goal(v, g, ROOT, Typed([97, 47, 98])) == 3 && Fits(v, g, ROOT, Typed([97, 47, 98]))
  {
    OneFolder(v, g, ROOT, 2, SLASHED);
    ListedFolder(v, g, ROOT, 2);
  }

  // ----- find

  /** mkdir a, mkdir b, and two files in a: the second file takes slot 3 of a, where b stands in the root, so a
      search that finds nothing does not read b. */
  lemma HiddenFolder(v: Vol, root: Cluster, buf: Bytes)
      returns (v1: Vol, v2: Vol, v3: Vol, v4: Vol, g4: Layout)
    requires CleanStack(root) && |buf| == CLUSTER_SIZE
    ensures var f := Format(v, root);
            WriteSafe(f, Ask(A, 0, ROOT, 0), []) && Write(W8, f, Ask(A, 0, ROOT, 0), []) == (v1, 0)
    ensures WriteSafe(v1, Ask(B, 0, ROOT, 0), []) && Write(W8, v1, Ask(B, 0, ROOT, 0), []) == (v2, 0)
    ensures WriteSafe(v2, Ask(A, A, 3, 1), buf) && Write(W8, v2, Ask(A, A, 3, 1), buf) == (v3, 0)
    ensures WriteSafe(v3, Ask(B, B, 3, 1), buf) && Write(W8, v3, Ask(B, B, 3, 1), buf) == (v4, 0)
    ensures Inv(v4, g4) && DepthsOk(g4) && !NoClash(v4, g4, ROOT)
  {
    var f := Fresh(v, root);
    var a, b, x, y := Ask(A, 0, ROOT, 0), Ask(B, 0, ROOT, 0), Ask(A, A, 3, 1), Ask(B, B, 3, 1);
    AskKey(A, 0, ROOT, 0);
    AskKey(B, 0, ROOT, 0);
    AskKey(A, A, 3, 1);
    AskKey(B, B, 3, 1);
    NotListed(f, ROOT_LAYOUT, ROOT, 2, KeyReq(a));
    var g1, g2, g3;
    v1, g1 := WriteOne(f, ROOT_LAYOUT, a, [], 3, 2);
    StillFilled(f, ROOT_LAYOUT, a, 3, 2, v1, g1, ROOT, 2);
    OtherKey(v1, g1, a, b);
    v2, g2 := WriteOne(v1, g1, b, [], 4, 3);
    StillFilled(v1, g1, b, 4, 3, v2, g2, 3, 2);
    NotListed(v2, g2, 3, 2, KeyReq(x));
    v3, g3 := WriteOne(v2, g2, x, buf, 5, 2);
    StillFilled(v2, g2, x, 5, 2, v3, g3, 3, 2);
    assert KeyReq(x).name[0] != KeyReq(y).name[0];
    NotListed(v3, g3, 3, 3, KeyReq(y));
    v4, g4 := WriteOne(v3, g3, y, buf, 6, 3);
    Hides(v1, g1, v2, g2, v3, g3, v4, g4);
  }

  /** The entries that matter, carried through the four writes. */
  lemma Hides(v1: Vol, g1: Layout, v2: Vol, g2: Layout, v3: Vol, g3: Layout, v4: Vol, g4: Layout)
    requires DirsOk(g1) && DirsOk(g2) && DirsOk(g3) && ROOT in g1.dirs && 3 in g1.dirs && 3 in g2.dirs && 3 in g3.dirs
    requires Describes(Ask(A, 0, ROOT, 0), 3, Entry(v1, ROOT, 2))
    requires Wrote(v1, g1, Ask(B, 0, ROOT, 0), 4, 3, v2, g2)
    requires Wrote(v2, g2, Ask(A, A, 3, 1), 5, 2, v3, g3) && Wrote(v3, g3, Ask(B, B, 3, 1), 6, 3, v4, g4)
    ensures DepthsOk(g4) && !NoClash(v4, g4, ROOT)
  {
    InvDepths(v4, g4);
    assert Entry(v4, ROOT, 2) == Entry(v3, ROOT, 2) == Entry(v2, ROOT, 2) == Entry(v1, ROOT, 2);
    assert Entry(v4, ROOT, 3) == Entry(v3, ROOT, 3) == Entry(v2, ROOT, 3);
    assert FolderIn(v4, ROOT, 2) && FolderIn(v4, ROOT, 3) && FileIn(v4, 3, 3);
    UnderRoot(g4, ROOT);
    assert ROOT in Subtree(g4, ROOT);
  }

  /** mkdir a, and mkdir b in a: a search for b stops in a without going into b, and climbs from a. A climb from b
      steps over a. */
  lemma NestedFolders(v: Vol, root: Cluster, rs: Rules) returns (v1: Vol, v2: Vol, g2: Layout)
    requires CleanStack(root)
    ensures var f := Format(v, root);
            WriteSafe(f, Ask(A, 0, ROOT, 0), []) && Write(W8, f, Ask(A, 0, ROOT, 0), []) == (v1, 0)
    ensures WriteSafe(v1, Ask(B, 0, 3, 0), []) && Write(W8, v1, Ask(B, 0, 3, 0), []) == (v2, 0)
    ensures Inv(v2, g2) && DepthsOk(g2) && 3 in g2.dirs && 4 in g2.dirs && ParentOf(g2, 4) == 3
    ensures rs.below.folder(Entry(v2, 3, 2)) && !rs.top.folder(Entry(v2, ROOT, 2)) ==>
              Visited(v2, g2, rs, ROOT, 3) && !Visited(v2, g2, rs, ROOT, 4) && FirstIn(v2, rs, Match(3, 2, []))
    ensures forall path :: IsClimb(v2, g2, 3, false, path) ==> path == [3, ROOT]
    ensures forall path :: IsClimb(v2, g2, 4, false, path) ==> path == [4, ROOT]
  {
    var f := Fresh(v, root);
    var a, b := Ask(A, 0, ROOT, 0), Ask(B, 0, 3, 0);
    AskKey(A, 0, ROOT, 0);
    AskKey(B, 0, 3, 0);
    NotListed(f, ROOT_LAYOUT, ROOT, 2, KeyReq(a));
    var g1;
    v1, g1 := WriteOne(f, ROOT_LAYOUT, a, [], 3, 2);
    NotListed(v1, g1, 3, 2, KeyReq(b));
    v2, g2 := WriteOne(v1, g1, b, [], 4, 2);
    StillFilled(v1, g1, b, 4, 2, v2, g2, 3, 2);
    assert Entry(v2, ROOT, 2) == Entry(v1, ROOT, 2);
    InvDepths(v2, g2);
    Nested(v2, g2);
    NestedSearch(v2, g2, rs);
    forall path | IsClimb(v2, g2, 3, false, path)
      ensures path == [3, ROOT]
    {
      NestedClimb(v2, g2, 3, path);
    }
    forall path | IsClimb(v2, g2, 4, false, path)
      ensures path == [4, ROOT]
    {
      NestedClimb(v2, g2, 4, path);
    }
  }

  /** The root lists folder a at 3 in slot 2, and a lists folder b at 4 in slot 2. */
  ghost predicate IsNested(v: Vol, g: Layout) {
    Inv(v, g) && Describes(Ask(A, 0, ROOT, 0), 3, Entry(v, ROOT, 2)) && 3 in g.dirs
    && Describes(Ask(B, 0, 3, 0), 4, Entry(v, 3, 2))
  }

  lemma Nested(v: Vol, g: Layout)
    requires IsNested(v, g)
    ensures g.owner.Keys >= {3, 4} && g.owner[3] == Ref(ROOT, 2) && g.owner[4] == Ref(3, 2) && 4 in g.dirs
    ensures Name(Entry(v, 3, 0)) != ROOT_NAME && Name(Entry(v, 4, 0)) != ROOT_NAME
    ensures Name(Entry(v, ROOT, 0)) == ROOT_NAME
  {
    ListedFolder(v, g, ROOT, 2);
    ListedFolder(v, g, 3, 2);
    assert DirOk(v, g, ROOT);
    assert KeyOf(Entry(v, 3, 0)).name[0] == A && KeyOf(Entry(v, 4, 0)).name[0] == B;
  }

  lemma NestedSearch(v: Vol, g: Layout, rs: Rules)
    requires IsNested(v, g) && DepthsOk(g) && 4 in g.dirs
    ensures rs.below.folder(Entry(v, 3, 2)) && !rs.top.folder(Entry(v, ROOT, 2)) ==>
              Visited(v, g, rs, ROOT, 3) && !Visited(v, g, rs, ROOT, 4) && FirstIn(v, rs, Match(3, 2, []))
  {
    Nested(v, g);
    if rs.below.folder(Entry(v, 3, 2)) && !rs.top.folder(Entry(v, ROOT, 2)) {
      assert FolderIn(v, ROOT, 2) && FolderIn(v, 3, 2);
      assert forall d, k: nat :: k < 2 ==> !FolderIn(v, d, k) && !Stops(v, rs, d, k);
      assert Passes(v, rs, ROOT, 3) && Stops(v, rs, 3, 2);
      assert forall j: nat :: j < 2 ==> !Marks(v, rs, ROOT, j, 2);
      assert Searched(v, rs, ROOT, 2) && !Searched(v, rs, 3, 2);
      assert Visited(v, g, rs, ROOT, ROOT);
    }
  }

  lemma NestedClimb(v: Vol, g: Layout, d: nat, path: seq<nat>)
    requires IsNested(v, g) && (d == 3 || d == 4) && IsClimb(v, g, d, false, path)
    ensures path == [d, ROOT]
  {
    Nested(v, g);
    if |path| > 1 {
      assert StepsUp(v, g, path[0], path[1]);
    }
    assert |path| > 2 ==> StepsUp(v, g, path[1], path[2]);
  }
}
