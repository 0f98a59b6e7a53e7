/** Sessions of the shell: cd's and driver calls in any order. */
module Sessions {
  import opened Memory
  import opened DirEntry
  import opened Volume
  import opened Invariant
  import opened Operations
  import opened Runs
  import opened TreeWalk
  import opened Shell
  import opened PathTracking
  import opened CdLimits

  /** The volume changed, but the directories that remain kept their names and parents. */
  ghost predicate Kept(v: Vol, g: Layout, v': Vol, g': Layout)
    requires DirsOk(g) && DirsOk(g') && DepthsOk(g) && DepthsOk(g')
  {
    forall x :: x in g.dirs && x in g'.dirs ==>
      && Name(Entry(v', x, 0)) == Name(Entry(v, x, 0))
      && (x != ROOT ==> g'.owner[x].dir == g.owner[x].dir)
  }

  lemma {:induction false} KeptPath(v: Vol, g: Layout, v': Vol, g': Layout, d: nat)
    requires DirsOk(g) && DirsOk(g') && DepthsOk(g) && DepthsOk(g') && Kept(v, g, v', g')
    requires d in g.dirs && d in g'.dirs
    ensures PathText(v', g', d) == PathText(v, g, d) && (PlainPath(v, g, d) ==> PlainPath(v', g', d))
    decreases if d in g.depth then g.depth[d] else 0
  {
    if d != ROOT { KeptPath(v, g, v', g', g.owner[d].dir); }
  }

  lemma KeptAt(v: Vol, g: Layout, v': Vol, g': Layout, current: Cluster, cwd: Bytes, d: nat)
    requires DirsOk(g) && DirsOk(g') && DepthsOk(g) && DepthsOk(g') && Kept(v, g, v', g')
    requires At(v, g, current, cwd, d) && d in g'.dirs
    ensures At(v', g', current, cwd, d)
  {
    KeptPath(v, g, v', g', d);
  }

  lemma AddedKept(v: Vol, v': Vol, g: Layout, a: Addition)
    requires AddFits(v, g, a) && Added(v, v', g, a)
    requires DirsOk(AddLayout(g, a)) && DepthsOk(g) && DepthsOk(AddLayout(g, a))
    ensures Kept(v, g, v', AddLayout(g, a))
  {
    forall x | x in g.dirs
      ensures Entry(v', x, 0) == Entry(v, x, 0) && !(a.s <= x < a.s + a.n)
    {
    }
  }

  lemma AddKept(v: Vol, g: Layout, a: Addition)
    requires DirsOk(g) && HeadsOk(v, g) && AddFits(v, g, a)
    requires DirsOk(AddLayout(g, a)) && DepthsOk(g) && DepthsOk(AddLayout(g, a))
    ensures Kept(v, g, AddVol(v, g, a), AddLayout(g, a))
  {
    DirsEnd(v, g);
    AddFrame(v, g, a);
    AddedKept(v, AddVol(v, g, a), g, a);
  }

  lemma RemovedDirsKept(v: Vol, v': Vol, g: Layout, r: Ref, e: Slot)
    requires DirsOk(g) && Removed(v, v', g, r, e) && 2 <= r.slot
    requires DirsOk(RemoveLayout(g, e)) && DepthsOk(g) && DepthsOk(RemoveLayout(g, e))
    ensures Kept(v, g, v', RemoveLayout(g, e))
  {
    forall x | x in RemoveLayout(g, e).dirs
      ensures Entry(v', x, 0) == Entry(v, x, 0)
    {
    }
  }

  lemma RemoveKept(v: Vol, g: Layout, r: Ref, e: Slot)
    requires DirsOk(g) && HeadsOk(v, g) && Removable(v, g, r, e)
    requires DirsOk(RemoveLayout(g, e)) && DepthsOk(g) && DepthsOk(RemoveLayout(g, e))
    ensures Kept(v, g, RemoveVol(v, r, e), RemoveLayout(g, e))
  {
    RemoveFrame(v, g, r, e);
    RemovedDirsKept(v, RemoveVol(v, r, e), g, r, e);
  }

  lemma StateDepths(s: State)
    requires Inv(s.v, s.g)
    ensures DepthsOk(s.g)
  {
    InvDepths(s.v, s.g);
  }

  lemma WriteKept(w: Width, v: Vol, g: Layout, req: Request, buf: Bytes, g': Layout)
    requires Inv(v, g) && WriteOk(v, g, req, buf) && g' == WriteLayout(w, v, g, req, buf)
    requires DirsOk(g') && DepthsOk(g) && DepthsOk(g')
    ensures Kept(v, g, Write(w, v, req, buf).0, g')
  {
    if Stores(v, req) {
      WriteFits(w, v, g, req, buf);
      WriteAdds(w, v, g, req, buf);
      AddKept(v, g, WriteAddition(w, v, req, buf));
    }
  }

  lemma DeleteKept(v: Vol, g: Layout, req: Request, g': Layout)
    requires Inv(v, g) && CanDelete(v, g, req) && DeleteSafe(v, req) && g' == DeleteLayout(v, g, req)
    requires DirsOk(g') && DepthsOk(g) && DepthsOk(g')
    ensures Kept(v, g, Delete(v, req).0, g')
  {
    if Erases(v, req) {
      DeleteRemoves(v, g, req);
      RemoveKept(v, g, Ref(req.parent, Hit(v, req)), Found(v, req));
    }
  }

  /** Every call of the driver keeps the names and parents of the directories that stay. */
  lemma StepKept(w: Width, s: State, op: Op, s': State)
    requires Inv(s.v, s.g) && CanStep(w, s.v, s.g, op) && s' == Step(w, s, op).0 && DirsOk(s'.g)
    requires DepthsOk(s.g) && DepthsOk(s'.g)
    ensures Kept(s.v, s.g, s'.v, s'.g)
  {
    match op
    case OpWrite(req, buf) => WriteKept(w, s.v, s.g, req, buf, s'.g);
    case OpDelete(req) =>
      LookupsAreSafe(s.v, s.g, req);
      DeleteKept(s.v, s.g, req, s'.g);
    case OpRead(_) =>
    case OpReadDirectory(_) =>
    case OpMount(cache, stack) => RemountIsIdentity(s.v, s.g, cache, stack);
  }

  /** A command of the shell's main loop: cd, or one that calls the driver. */
  datatype Command = CdCmd(arg: Bytes) | FsCmd(op: Op)

  /** The volume, the two globals of the shell, and the directory it is in. */
  datatype Session = Session(s: State, current: Cluster, cwd: Bytes, dir: nat)

  ghost predicate InStep(x: Session) {
    Inv(x.s.v, x.s.g) && DepthsOk(x.s.g) && At(x.s.v, x.s.g, x.current, x.cwd, x.dir)
  }

  /** cd gets an argument that fits, does not mislead it, and does not enter a folder with a slash in its
      name; the driver's requirements hold and the directory the shell is in is not removed. */
  ghost predicate CanCd(v: Vol, g: Layout, d: nat, arg: Bytes)
    requires DirsOk(g) && DepthsOk(g) && d in g.dirs
  {
    AnyArg(arg) && !Misled(v, d, arg)
    && (GoodArg(arg) ==> Fits(v, g, d, arg) && (SLASH in arg ==> Goal(v, g, d, arg) == d))
  }

  /** Where cd leads: an argument that is no name leads nowhere. */
  ghost function CdGoal(v: Vol, g: Layout, d: nat, arg: Bytes): nat
    requires DirsOk(g) && d in g.dirs && AnyArg(arg)
  {
    if GoodArg(arg) then Goal(v, g, d, arg) else d
  }

  lemma CdKeepsTrack(v: Vol, g: Layout, current: Cluster, cwd: Bytes, d: nat, arg: Bytes)
    requires Inv(v, g) && DepthsOk(g) && Tracks(v, g, current, cwd, d) && CanCd(v, g, d, arg)
    ensures CdSafe(v, current, cwd, arg)
    ensures Tracks(v, g, Cd(v, current, cwd, arg).0, Cd(v, current, cwd, arg).1, CdGoal(v, g, d, arg))
  {
    if GoodArg(arg) {
      CdTracks(v, g, current, cwd, d, arg);
    } else {
      CdSpellsIff(v, g, current, cwd, d, arg);
    }
  }

  ghost predicate CanRunCommand(w: Width, x: Session, c: Command)
    requires InStep(x)
  {
    match c
    case CdCmd(arg) => CanCd(x.s.v, x.s.g, x.dir, arg)
    case FsCmd(op) => CanStep(w, x.s.v, x.s.g, op) && x.dir in Step(w, x.s, op).0.g.dirs
  }

  /** One round of the main loop: update_cwd_contents, then the command. */
  ghost function RunCommand(w: Width, x: Session, c: Command): Session
    requires InStep(x) && CanRunCommand(w, x, c)
  {
    UpdateTracks(x.s.v, x.s.g, x.current, x.cwd, x.dir);
    var table := Update(x.s.v, x.current);
    match c
    case CdCmd(arg) =>
      CdKeepsTrack(x.s.v, x.s.g, table, x.cwd, x.dir, arg);
      var (t, p) := Cd(x.s.v, table, x.cwd, arg);
      Session(x.s, t, p, CdGoal(x.s.v, x.s.g, x.dir, arg))
    case FsCmd(op) => Session(Step(w, x.s, op).0, table, x.cwd, x.dir)
  }

  lemma CommandInStep(w: Width, x: Session, c: Command)
    requires InStep(x) && CanRunCommand(w, x, c)
    ensures InStep(RunCommand(w, x, c))
  {
    var s := x.s;
    UpdateTracks(s.v, s.g, x.current, x.cwd, x.dir);
    var table := Update(s.v, x.current);
    match c
    case CdCmd(arg) =>
      CdKeepsTrack(s.v, s.g, table, x.cwd, x.dir, arg);
      var (t, p) := Cd(s.v, table, x.cwd, arg);
      TracksAt(s.v, s.g, t, p, CdGoal(s.v, s.g, x.dir, arg));
    case FsCmd(op) =>
      StepKeepsInv(w, s, op);
      var s' := Step(w, s, op).0;
      StateDepths(s');
      TracksAt(s.v, s.g, table, x.cwd, x.dir);
      StepKept(w, s, op, s');
      KeptAt(s.v, s.g, s'.v, s'.g, table, x.cwd, x.dir);
  }

  ghost predicate SessionOk(w: Width, x: Session, cs: seq<Command>)
    requires InStep(x)
    decreases |cs|
  {
    cs != [] ==>
      CanRunCommand(w, x, cs[0]) && (CommandInStep(w, x, cs[0]); SessionOk(w, RunCommand(w, x, cs[0]), cs[1..]))
  }

  ghost function RunSession(w: Width, x: Session, cs: seq<Command>): Session
    requires InStep(x) && SessionOk(w, x, cs)
    decreases |cs|
  {
    if cs == [] then x
    else
      CommandInStep(w, x, cs[0]);
      RunSession(w, RunCommand(w, x, cs[0]), cs[1..])
  }

  /** Over every session of cd's and driver commands the path spells the directory the shell is in,
      and refreshing the table gives that directory's contents. */
  lemma {:induction false} SessionTracks(w: Width, x: Session, cs: seq<Command>)
    requires InStep(x) && SessionOk(w, x, cs)
    ensures var y := RunSession(w, x, cs);
            && InStep(y)
            && ReadDirectorySafe(y.s.v, UpdateRequest(y.current))
            && Tracks(y.s.v, y.s.g, Update(y.s.v, y.current), y.cwd, y.dir)
    decreases |cs|
  {
    if cs == [] {
      UpdateTracks(x.s.v, x.s.g, x.current, x.cwd, x.dir);
    } else {
      CommandInStep(w, x, cs[0]);
      SessionTracks(w, RunCommand(w, x, cs[0]), cs[1..]);
    }
  }

  /** The shell starts in the root: the table it reads first and the initial path "/root/". */
  lemma ShellStarts(v: Vol, g: Layout, cwd: Bytes)
    requires Inv(v, g) && Holds(cwd, ROOT_PATH)
    ensures InStep(Session(State(v, g), v.disk[ROOT], cwd, ROOT))
  {
    InvDepths(v, g);
    TracksAt(v, g, v.disk[ROOT], cwd, ROOT);
  }
}
