/** Synchronisation stabilises.  With no edits and no other client between runs, the third
  * run does nothing, and by then the scanned local files, the remote and the base name the
  * same paths.  The second run only pushes exactly when every remote file the base does not
  * know has a name the local scan looks at: one that has not is downloaded by the first run
  * and deleted from the remote by the second.
  */
module Stability {
  import opened Wrappers
  import opened VersionVectors
  import opened MergeEngine
  import opened ConflictNames
  import opened PathSafety
  import opened SyncEngine
  import opened NoLoss
  import opened Pipeline
  import opened Runs

  // ---------- one path at a time ----------

  /** What the three stores hold at one path. */
  datatype View = View(l: Option<LocalFile>, r: Option<RemoteFile>, b: Option<FileState>)

  function ViewAt(w: World, p: Path): View {
    View(if p in w.local then Some(w.local[p]) else None,
         if p in w.remote then Some(w.remote[p]) else None,
         Lookup(w.base, p))
  }

  function ScannedState(env: Env, p: Path, v: View): Option<FileState> {
    if v.l.Some? && Tracked(p) then Some(ScanFile(env, p, v.l.value, v.b)) else None
  }

  function RemoteSide(env: Env, p: Path, v: View): Option<FileState> {
    if v.r.Some? then Some(RemoteState(env, p, v.r.value, v.b, v.l.Some?)) else None
  }

  function PathAction(env: Env, p: Path, v: View): Action {
    MergeFile(p, ScannedState(env, p, v), RemoteSide(env, p, v), v.b, env.opener)
  }

  /** The paths a run plans an action for. */
  predicate IsSeen(p: Path, v: View) {
    (v.l.Some? && Tracked(p)) || v.r.Some? || v.b.Some?
  }

  lemma PlanAt(env: Env, w: World, p: Path)
    ensures ActionFor(p, ScanSnapshot(env, w), RemoteSnapshot(env, w), w.base, env.opener) == PathAction(env, p, ViewAt(w, p))
  {
    assert Lookup(ScanSnapshot(env, w), p) == ScannedState(env, p, ViewAt(w, p));
    assert Lookup(RemoteSnapshot(env, w), p) == RemoteSide(env, p, ViewAt(w, p));
  }

  /** The base entry of a path carries that path. */
  predicate Keyed(p: Path, v: View) {
    v.b.Some? ==> v.b.value.path == p
  }

  // ---------- which action a path gets ----------

  /** A scan keeps the base's version or adds one edit to it. */
  lemma ScanIsNoOlder(env: Env, p: Path, f: LocalFile, b: FileState)
    ensures var v := ScanFile(env, p, f, Some(b)).version;
            v == b.version || (v == Bump(b.version, env.device, 1) && StrictlyAfter(v, b.version))
  {
    assert At(Bump(b.version, env.device, 1), env.device) == At(b.version, env.device) + 1;
  }

  /** The run of a single device decides by presence, local edits and, without a base, by
    * content.  A file the base knows is never pulled and never conflicts, whatever the
    * remote holds: its listed version is a copy of the base's. */
  lemma PathActionKinds(env: Env, p: Path, v: View)
    ensures var l, r, b := v.l.Some? && Tracked(p), v.r.Some?, v.b.Some?;
            var k := PathAction(env, p, v).kind;
            var edited := l && b && !SameHistory(ScannedState(env, p, v).value.version, v.b.value.version);
            var known := l && r && ScannedState(env, p, v).value.hash == RemoteSide(env, p, v).value.hash != UNKNOWN_HASH;
            && (k == Push <==> (l && !r && !b) || edited)
            && (k == Pull <==> !l && r && !b)
            && (k == Conflict <==> l && r && !b && !known)
            && (k == Delete <==> !(l && r) && !edited && (b || (!l && !r)))
            && (k == NoAction <==> l && r && ((b && !edited) || (!b && known)))
            && k != MergeHOTP
  {
    if v.l.Some? && v.b.Some? {
      ScanIsNoOlder(env, p, v.l.value, v.b.value);
    }
  }

  // ---------- what an action does to its path ----------

  function Effect(env: Env, p: Path, v: View, tick: Tick): View {
    var a := PathAction(env, p, v);
    match a.kind
    case Push => v.(r := Some(RemoteFile(if v.l.Some? then v.l.value.content else "", tick.now)), b := a.local)
    case Pull => v.(l := Some(LocalFile(if v.r.Some? then v.r.value.content else "", tick.now)), b := a.remote)
    case Conflict =>
      v.(l := Some(LocalFile(if v.r.Some? then v.r.value.content else "", tick.now)),
         b := if a.remote.Some? && a.mergedVersion.Some? then Some(a.remote.value.(version := a.mergedVersion.value)) else v.b)
    case Delete => v.(r := None, b := None)
    case MergeHOTP => v
    case NoAction => if v.b.None? then v.(b := a.local) else v
  }

  lemma ScannedPath(env: Env, p: Path, v: View)
    requires Keyed(p, v)
    ensures ScannedState(env, p, v).Some? ==> ScannedState(env, p, v).value.path == p
    ensures RemoteSide(env, p, v).Some? ==> RemoteSide(env, p, v).value.path == p
  {
  }

  ghost predicate SameElsewhere(env: Env, w: World, x: World, job: Job) {
    forall q :: q != job.act.path && !(job.act.kind == Conflict && q == CopyName(env, job.act, job.tick)) ==>
      ViewAt(x, q) == ViewAt(w, q)
  }

  /** What carrying out one action of a run leaves. */
  ghost predicate Carried(env: Env, w: World, job: Job, o: Outcome<Write>) {
    var p, x, copy := job.act.path, Replay(w, o.writes), CopyName(env, job.act, job.tick);
    && o.ok
    && ViewAt(x, p) == Effect(env, p, ViewAt(w, p), job.tick)
    && SameElsewhere(env, w, x, job)
    && (job.act.kind == Conflict ==>
          (p in w.local && ViewAt(x, copy) == ViewAt(w, copy).(l := Some(LocalFile(w.local[p].content, job.tick.now)))))
  }

  ghost predicate Ready(env: Env, w: World, job: Job) {
    && job.act == PathAction(env, job.act.path, ViewAt(w, job.act.path))
    && Keyed(job.act.path, ViewAt(w, job.act.path))
    && CheckPath(job.act.path)
    && !env.failsOnMissing
    && (job.act.kind == Conflict ==> CopyName(env, job.act, job.tick) != job.act.path)
  }

  /** Two writes about one path, seen path by path. */
  lemma BothAt(w: World, x: World, p: Path, a: Write, b: Write)
    requires x == Replay(w, [a, b])
    requires (a.PutRemote? || a.PutLocal? || a.DropRemote?) && a.path == p
    requires (b.PutBase? && b.state.path == p) || (b.DropBase? && b.path == p)
    ensures ViewAt(x, p) == View(
      if a.PutLocal? then Some(a.local) else ViewAt(w, p).l,
      if a.PutRemote? then Some(a.remote) else if a.DropRemote? then None else ViewAt(w, p).r,
      if b.PutBase? then Some(b.state) else None)
    ensures forall q :: q != p ==> ViewAt(x, q) == ViewAt(w, q)
  {
    AfterTwo(Exec, w, a, b);
  }

  lemma PushCarried(env: Env, w: World, job: Job)
    requires Ready(env, w, job) && job.act.kind == Push
    ensures Carried(env, w, job, ApplyPush(env, w, job.act, job.tick))
  {
    var p := job.act.path;
    PathActionKinds(env, p, ViewAt(w, p));
    ScannedPath(env, p, ViewAt(w, p));
    PushedSideSeen(env, p, ViewAt(w, p));
    var put, note := PutRemote(p, RemoteFile(w.local[p].content, job.tick.now)), PutBase(job.act.local.value);
    assert ApplyPush(env, w, job.act, job.tick) == Outcome([put, note], true);
    BothAt(w, Replay(w, [put, note]), p, put, note);
  }

  lemma PushedSideSeen(env: Env, p: Path, v: View)
    requires Keyed(p, v) && PathAction(env, p, v).kind == Push
    ensures var a := PathAction(env, p, v);
      && a.path == p && v.l.Some? && a.local.Some? && a.local.value.path == p
      && (a.remote.Some? <==> v.r.Some?) && (a.remote.Some? ==> a.remote == RemoteSide(env, p, v))
  {
    PathActionKinds(env, p, v);
    ScannedPath(env, p, v);
  }

  lemma PullCarried(env: Env, w: World, job: Job)
    requires Ready(env, w, job) && job.act.kind == Pull
    ensures Carried(env, w, job, ApplyPull(w, job.act, job.tick))
  {
    var p := job.act.path;
    PathActionKinds(env, p, ViewAt(w, p));
    ScannedPath(env, p, ViewAt(w, p));
    var put, note := PutLocal(p, LocalFile(w.remote[p].content, job.tick.now)), PutBase(job.act.remote.value);
    assert ApplyPull(w, job.act, job.tick) == Outcome([put, note], true);
    BothAt(w, Replay(w, [put, note]), p, put, note);
  }

  lemma ConflictCarried(env: Env, w: World, job: Job)
    requires Ready(env, w, job) && job.act.kind == Conflict
    ensures Carried(env, w, job, ApplyConflict(env, w, job.act, job.tick))
  {
    var p, copy := job.act.path, CopyName(env, job.act, job.tick);
    PathActionKinds(env, p, ViewAt(w, p));
    ScannedPath(env, p, ViewAt(w, p));
    BothSidesSeen(env, p, ViewAt(w, p));
    var l, r := job.act.local.value, job.act.remote.value;
    var note := r.(version := Join(l.version, r.version));
    KeptBoth(w, p, copy, LocalFile(w.local[p].content, job.tick.now), LocalFile(w.remote[p].content, job.tick.now), note);
  }

  lemma BothSidesSeen(env: Env, p: Path, v: View)
    requires Keyed(p, v) && PathAction(env, p, v).kind == Conflict
    ensures var a := PathAction(env, p, v);
      && a.path == p && v.l.Some? && v.r.Some? && a.local.Some? && a.remote.Some?
      && a.remote.value.path == p
      && a.mergedVersion == Some(Join(a.local.value.version, a.remote.value.version))
  {
    PathActionKinds(env, p, v);
    ScannedPath(env, p, v);
  }

  /** The three writes of a conflict, seen path by path. */
  lemma KeptBoth(w: World, p: Path, copy: Path, saved: LocalFile, kept: LocalFile, note: FileState)
    requires copy != p && note.path == p
    ensures var x := Replay(w, [PutLocal(copy, saved), PutLocal(p, kept), PutBase(note)]);
      && ViewAt(x, p) == ViewAt(w, p).(l := Some(kept), b := Some(note))
      && ViewAt(x, copy) == ViewAt(w, copy).(l := Some(saved))
      && forall q :: q != p && q != copy ==> ViewAt(x, q) == ViewAt(w, q)
  {
    AfterThree(Exec, w, PutLocal(copy, saved), PutLocal(p, kept), PutBase(note));
  }

  lemma DeleteCarried(env: Env, w: World, job: Job)
    requires Ready(env, w, job) && job.act.kind == Delete
    ensures Carried(env, w, job, ApplyDelete(env, w, job.act))
  {
    var p := job.act.path;
    PathActionKinds(env, p, ViewAt(w, p));
    ScannedPath(env, p, ViewAt(w, p));
    var drop, forget := DropRemote(p), DropBase(p);
    assert ApplyDelete(env, w, job.act) == Outcome([drop, forget], true);
    BothAt(w, Replay(w, [drop, forget]), p, drop, forget);
  }

  lemma NoActionCarried(env: Env, w: World, job: Job)
    requires Ready(env, w, job) && job.act.kind == NoAction
    ensures Carried(env, w, job, ApplyNone(job.act))
  {
    PathActionKinds(env, job.act.path, ViewAt(w, job.act.path));
    ScannedPath(env, job.act.path, ViewAt(w, job.act.path));
    var writes := ApplyNone(job.act).writes;
    AfterPrefix(Exec, w, writes, |writes|);
    assert writes[..|writes|] == writes;
  }

  /** An action of the run succeeds, changes its own path as said, and nothing else but
    * the conflict copy. */
  lemma ActionCarried(env: Env, w: World, job: Job)
    requires Ready(env, w, job)
    ensures Carried(env, w, job, ApplyOne(env, w, job.act, job.tick))
  {
    PathActionKinds(env, job.act.path, ViewAt(w, job.act.path));
    match job.act.kind
    case Push => PushCarried(env, w, job);
    case Pull => PullCarried(env, w, job);
    case Conflict => ConflictCarried(env, w, job);
    case Delete => DeleteCarried(env, w, job);
    case NoAction => NoActionCarried(env, w, job);
    case MergeHOTP => assert false;
  }

  // ---------- a whole run, path by path ----------

  /** What a run needs from the state it starts in. */
  ghost predicate Healthy(env: Env, w: World) {
    && !env.failsOnMissing
    && (forall p :: IsSeen(p, ViewAt(w, p)) ==> CheckPath(p))
    && (forall p :: p in w.base ==> w.base[p].path == p)
  }

  function AllPaths(w: World): set<Path> {
    w.local.Keys + w.remote.Keys + w.base.Keys
  }

  ghost predicate IsCopy(env: Env, jobs: seq<Job>, q: Path) {
    exists i :: 0 <= i < |jobs| && jobs[i].act.kind == Conflict && q == CopyName(env, jobs[i].act, jobs[i].tick)
  }

  ghost predicate Plans(jobs: seq<Job>, p: Path) {
    exists i :: 0 <= i < |jobs| && jobs[i].act.path == p
  }

  /** The first `i` actions are done: their paths are as they should be, the others and
    * everything outside the plan are as at the start, except for conflict copies. */
  ghost predicate Progress(env: Env, start: World, w: World, jobs: seq<Job>, i: nat) {
    && (forall j :: 0 <= j < |jobs| ==>
          ViewAt(w, jobs[j].act.path) ==
          if j < i then Effect(env, jobs[j].act.path, ViewAt(start, jobs[j].act.path), jobs[j].tick)
          else ViewAt(start, jobs[j].act.path))
    && (forall q :: !Plans(jobs, q) && !IsCopy(env, jobs, q) ==> ViewAt(w, q) == ViewAt(start, q))
    && (forall q :: IsCopy(env, jobs, q) ==> ViewAt(w, q).r.None? && ViewAt(w, q).b.None?)
  }

  /** The jobs are a plan for `start`, and its conflict copies get names of their own. */
  ghost predicate Runnable(env: Env, start: World, jobs: seq<Job>) {
    && Healthy(env, start)
    && Planned(env, start, jobs)
    && NewCopyNames(env, jobs, AllPaths(start))
    && StampsOfOneFormat(jobs)
  }

  lemma PlanIsReady(env: Env, start: World, jobs: seq<Job>)
    requires Runnable(env, start, jobs)
    ensures Apart(env, jobs)
    ensures forall j :: 0 <= j < |jobs| ==> Ready(env, start, jobs[j])
  {
    var local, remote, base := ScanSnapshot(env, start), RemoteSnapshot(env, start), start.base;
    var acts := ActsOf(jobs);
    PlanPaths(acts, local, remote, base, env.opener);
    PlanIsApart(env, jobs, local, remote, base);
    forall j | 0 <= j < |jobs| ensures Ready(env, start, jobs[j]) {
      var p := jobs[j].act.path;
      assert acts[j] == jobs[j].act && PathsOf(acts)[j] == p;
      assert p in PathsOf(acts);
      PlanAt(env, start, p);
      assert JobsApart(env, jobs[j], jobs[j], true);
    }
  }

  /** A run plans for exactly the paths that one of the sides shows. */
  lemma PlansWhatIsSeen(env: Env, w: World, jobs: seq<Job>, p: Path)
    requires Planned(env, w, jobs)
    ensures Plans(jobs, p) <==> IsSeen(p, ViewAt(w, p))
  {
    var local, remote, base := ScanSnapshot(env, w), RemoteSnapshot(env, w), w.base;
    var acts := ActsOf(jobs);
    assert p in Paths(local, remote, base) <==> IsSeen(p, ViewAt(w, p));
    if p in Paths(local, remote, base) {
      var i := PlanHas(acts, local, remote, base, env.opener, p);
      assert jobs[i].act.path == p;
    }
    if Plans(jobs, p) {
      var i :| 0 <= i < |jobs| && jobs[i].act.path == p;
      PlanPaths(acts, local, remote, base, env.opener);
      assert PathsOf(acts)[i] == p;
    }
  }

  lemma ReadyLater(env: Env, start: World, w: World, job: Job)
    requires Ready(env, start, job) && ViewAt(w, job.act.path) == ViewAt(start, job.act.path)
    ensures Ready(env, w, job)
  {
  }

  lemma ProgressStep(env: Env, start: World, w: World, jobs: seq<Job>, i: nat)
    requires i < |jobs| && Apart(env, jobs) && Ready(env, start, jobs[i])
    requires Progress(env, start, w, jobs, i)
    ensures ApplyOne(env, w, jobs[i].act, jobs[i].tick).ok
    ensures Progress(env, start, Replay(w, ApplyOne(env, w, jobs[i].act, jobs[i].tick).writes), jobs, i + 1)
  {
    ReadyLater(env, start, w, jobs[i]);
    ActionCarried(env, w, jobs[i]);
    CarriedProgress(env, start, w, jobs, i, ApplyOne(env, w, jobs[i].act, jobs[i].tick));
  }

  lemma CarriedProgress(env: Env, start: World, w: World, jobs: seq<Job>, i: nat, o: Outcome<Write>)
    requires i < |jobs| && Apart(env, jobs)
    requires Progress(env, start, w, jobs, i) && Carried(env, w, jobs[i], o)
    ensures Progress(env, start, Replay(w, o.writes), jobs, i + 1)
  {
    var x, copy := Replay(w, o.writes), CopyName(env, jobs[i].act, jobs[i].tick);
    forall j | 0 <= j < |jobs| && j != i ensures ViewAt(x, jobs[j].act.path) == ViewAt(w, jobs[j].act.path) {
      assert JobsApart(env, jobs[i], jobs[j], false);
    }
    forall q | !Plans(jobs, q) && !IsCopy(env, jobs, q) ensures ViewAt(x, q) == ViewAt(w, q) {
      assert q != jobs[i].act.path;
    }
    forall q | IsCopy(env, jobs, q) ensures ViewAt(x, q).r.None? && ViewAt(x, q).b.None? {
      var k :| 0 <= k < |jobs| && jobs[k].act.kind == Conflict && q == CopyName(env, jobs[k].act, jobs[k].tick);
      assert JobsApart(env, jobs[k], jobs[i], k == i);
      assert q != jobs[i].act.path;
      if jobs[i].act.kind == Conflict && q == copy {
        assert ViewAt(x, q) == ViewAt(w, q).(l := ViewAt(x, q).l);
      } else {
        assert ViewAt(x, q) == ViewAt(w, q);
      }
    }
  }

  /** Carrying out the rest of a plan from here completes and leaves what a run should. */
  ghost predicate Finishes(env: Env, start: World, w: World, jobs: seq<Job>, i: nat)
    requires i <= |jobs|
  {
    var o := ApplyAll(env, w, jobs[i..]);
    o.ok && Progress(env, start, Replay(w, o.writes), jobs, |jobs|)
  }

  lemma {:induction false} ProgressToEnd(env: Env, start: World, w: World, jobs: seq<Job>, i: nat)
    requires i <= |jobs| && Apart(env, jobs)
    requires forall j :: 0 <= j < |jobs| ==> Ready(env, start, jobs[j])
    requires Progress(env, start, w, jobs, i)
    ensures Finishes(env, start, w, jobs, i)
    decreases |jobs| - i
  {
    if i < |jobs| {
      var one := ApplyOne(env, w, jobs[i].act, jobs[i].tick);
      ProgressStep(env, start, w, jobs, i);
      ProgressToEnd(env, start, Replay(w, one.writes), jobs, i + 1);
      FinishesOneEarlier(env, start, w, jobs, i, one);
    } else {
      NothingLeft(env, start, w, jobs);
    }
  }

  lemma FinishesOneEarlier(env: Env, start: World, w: World, jobs: seq<Job>, i: nat, one: Outcome<Write>)
    requires i < |jobs| && one == Stepper(env)(w, jobs[i]) && one.ok
    requires Finishes(env, start, Replay(w, one.writes), jobs, i + 1)
    ensures Finishes(env, start, w, jobs, i)
  {
    UnfoldRun(env, w, jobs, i, one);
  }

  lemma NothingLeft(env: Env, start: World, w: World, jobs: seq<Job>)
    requires Progress(env, start, w, jobs, |jobs|)
    ensures Finishes(env, start, w, jobs, |jobs|)
  {
    assert Replay(w, []) == w;
  }

  lemma UnfoldRun(env: Env, w: World, jobs: seq<Job>, i: nat, one: Outcome<Write>)
    requires i < |jobs| && one == Stepper(env)(w, jobs[i]) && one.ok
    ensures var rest := ApplyAll(env, Replay(w, one.writes), jobs[i + 1..]);
            ApplyAll(env, w, jobs[i..]) == Outcome(one.writes + rest.writes, rest.ok)
            && Replay(w, one.writes + rest.writes) == Replay(Replay(w, one.writes), rest.writes)
  {
    var rest := ApplyAll(env, Replay(w, one.writes), jobs[i + 1..]);
    assert jobs[i..][0] == jobs[i] && jobs[i..][1..] == jobs[i + 1..];
    AfterConcat(Exec, w, one.writes, rest.writes);
  }

  /** A run that meets its needs completes, and this is what it leaves. */
  lemma RunCompletes(env: Env, start: World, jobs: seq<Job>)
    requires Runnable(env, start, jobs)
    ensures ApplyAll(env, start, jobs).ok
    ensures Progress(env, start, Replay(start, ApplyAll(env, start, jobs).writes), jobs, |jobs|)
  {
    PlanIsReady(env, start, jobs);
    forall q | IsCopy(env, jobs, q) ensures ViewAt(start, q).r.None? && ViewAt(start, q).b.None? {
      var k :| 0 <= k < |jobs| && jobs[k].act.kind == Conflict && q == CopyName(env, jobs[k].act, jobs[k].tick);
      assert q !in AllPaths(start);
    }
    assert jobs[0..] == jobs;
    ProgressToEnd(env, start, start, jobs, 0);
  }

  // ---------- what one run after another leaves ----------

  /** After a first run: the remote and the base name the same files, all of them on disk. */
  ghost predicate Settled(p: Path, v: View) {
    && (v.r.Some? <==> v.b.Some?)
    && (v.b.Some? ==> v.l.Some? && v.b.value.path == p)
  }

  /** And all of them scanned. */
  ghost predicate Known(p: Path, v: View) {
    Settled(p, v) && (v.b.Some? ==> Tracked(p))
  }

  /** After a second: all three sides name the same files, and a scan sees no edit. */
  ghost predicate Stable(env: Env, p: Path, v: View) {
    && Known(p, v)
    && (v.l.Some? && Tracked(p) ==> v.b.Some?)
    && (v.b.Some? ==> SameHistory(ScanFile(env, p, v.l.value, v.b).version, v.b.value.version))
  }

  /** The first run would forget a remote file the base does not know and no scan finds. */
  predicate Findable(p: Path, v: View) {
    v.r.Some? && v.b.None? ==> Tracked(p)
  }

  lemma FirstRunSettles(env: Env, p: Path, v: View, tick: Tick)
    requires Keyed(p, v)
    ensures Settled(p, Effect(env, p, v, tick))
    ensures Findable(p, v) ==> Known(p, Effect(env, p, v, tick))
  {
    PathActionKinds(env, p, v);
    ScannedPath(env, p, v);
  }

  lemma UnfindableIsDeleted(env: Env, p: Path, v: View, tick: Tick)
    requires Keyed(p, v) && !Findable(p, v)
    ensures PathAction(env, p, v).kind == Pull
    ensures PathAction(env, p, Effect(env, p, v, tick)).kind == Delete
    ensures Effect(env, p, v, tick).r.Some?
  {
    PathActionKinds(env, p, v);
    PathActionKinds(env, p, Effect(env, p, v, tick));
  }

  lemma SecondRunPushes(env: Env, p: Path, v: View)
    requires Settled(p, v) && IsSeen(p, v)
    ensures PathAction(env, p, v).kind in {Push, NoAction, Delete}
    ensures Known(p, v) ==> PathAction(env, p, v).kind in {Push, NoAction}
  {
    PathActionKinds(env, p, v);
  }

  /** A state written by a push describes the file it was scanned from. */
  lemma SecondRunSettles(env: Env, p: Path, v: View, tick: Tick)
    requires Settled(p, v)
    ensures IsSeen(p, v) ==> Stable(env, p, Effect(env, p, v, tick))
    ensures !IsSeen(p, v) ==> Stable(env, p, v)
  {
    PathActionKinds(env, p, v);
    ScannedPath(env, p, v);
  }

  lemma ThirdRunRests(env: Env, p: Path, v: View)
    requires Stable(env, p, v) && IsSeen(p, v)
    ensures PathAction(env, p, v).kind == NoAction
    ensures forall tick :: Effect(env, p, v, tick) == v
  {
    PathActionKinds(env, p, v);
  }

  // ---------- the theorems ----------

  function Finish(env: Env, w: World, jobs: seq<Job>): World {
    Replay(w, ApplyAll(env, w, jobs).writes)
  }

  /** A condition on the starting state alone: every remote file without a base entry has
    * a name the scan looks at. */
  predicate RemoteNewsTracked(w: World) {
    forall p :: p in w.remote && p !in w.base ==> Tracked(p)
  }

  /** What a run leaves at one path: the effect of its action, the old state, or a copy. */
  lemma RunLeaves(env: Env, w: World, jobs: seq<Job>, p: Path) returns (tick: Tick)
    requires Runnable(env, w, jobs)
    ensures ApplyAll(env, w, jobs).ok
    ensures var v, x := ViewAt(w, p), ViewAt(Finish(env, w, jobs), p);
            && (IsSeen(p, v) ==> x == Effect(env, p, v, tick))
            && (!IsSeen(p, v) && !IsCopy(env, jobs, p) ==> x == v)
            && (!IsSeen(p, v) && IsCopy(env, jobs, p) ==> x.r.None? && x.b.None?)
  {
    RunCompletes(env, w, jobs);
    PlansWhatIsSeen(env, w, jobs, p);
    tick := Tick("", 0);
    if Plans(jobs, p) {
      var j :| 0 <= j < |jobs| && jobs[j].act.path == p;
      tick := jobs[j].tick;
    }
  }

  lemma RunLeavesSettled(env: Env, w: World, jobs: seq<Job>, p: Path)
    requires Runnable(env, w, jobs)
    ensures Settled(p, ViewAt(Finish(env, w, jobs), p))
    ensures RemoteNewsTracked(w) ==> Known(p, ViewAt(Finish(env, w, jobs), p))
  {
    var tick := RunLeaves(env, w, jobs, p);
    if IsSeen(p, ViewAt(w, p)) {
      FirstRunSettles(env, p, ViewAt(w, p), tick);
    }
  }

  /** What a planned action is, by the state at its path. */
  lemma PlannedAction(env: Env, w: World, jobs: seq<Job>, j: nat)
    requires Planned(env, w, jobs) && j < |jobs|
    ensures var p := jobs[j].act.path;
            var v := ViewAt(w, p);
            jobs[j].act == PathAction(env, p, v) && IsSeen(p, v)
  {
    var local, remote, base := ScanSnapshot(env, w), RemoteSnapshot(env, w), w.base;
    var acts := ActsOf(jobs);
    PlanPaths(acts, local, remote, base, env.opener);
    assert acts[j] == jobs[j].act && PathsOf(acts)[j] == jobs[j].act.path;
    assert jobs[j].act.path in PathsOf(acts);
    PlanAt(env, w, jobs[j].act.path);
  }

  lemma PathIsPlanned(env: Env, w: World, jobs: seq<Job>, p: Path) returns (j: nat)
    requires Planned(env, w, jobs) && (p in w.remote || p in w.base || (p in w.local && Tracked(p)))
    ensures j < |jobs| && jobs[j].act.path == p
  {
    j := PlanHas(ActsOf(jobs), ScanSnapshot(env, w), RemoteSnapshot(env, w), w.base, env.opener, p);
  }

  ghost predicate OnlyPushes(jobs: seq<Job>) {
    forall j :: 0 <= j < |jobs| ==> jobs[j].act.kind in {Push, NoAction}
  }

  lemma TrackedNewsOnlyPushes(env: Env, w: World, first: seq<Job>, second: seq<Job>)
    requires Runnable(env, w, first) && RemoteNewsTracked(w)
    requires Planned(env, Finish(env, w, first), second)
    ensures OnlyPushes(second)
  {
    var w1 := Finish(env, w, first);
    forall j | 0 <= j < |second| ensures second[j].act.kind in {Push, NoAction} {
      PlannedAction(env, w1, second, j);
      RunLeavesSettled(env, w, first, second[j].act.path);
      SecondRunPushes(env, second[j].act.path, ViewAt(w1, second[j].act.path));
    }
  }

  /** The remote file that no scan finds is deleted by the second run. */
  lemma UntrackedNewsIsDeleted(env: Env, w: World, first: seq<Job>, second: seq<Job>, p: Path) returns (j: nat)
    requires Runnable(env, w, first)
    requires Planned(env, Finish(env, w, first), second)
    requires p in w.remote && p !in w.base && !Tracked(p)
    ensures j < |second| && second[j].act.path == p && second[j].act.kind == Delete
  {
    var w1 := Finish(env, w, first);
    var tick := RunLeaves(env, w, first, p);
    UnfindableIsDeleted(env, p, ViewAt(w, p), tick);
    j := PathIsPlanned(env, w1, second, p);
    PlannedAction(env, w1, second, j);
  }

  /** The second run plans nothing but pushes exactly when the first found every new
    * remote file under a name that is scanned. */
  lemma SecondRunOnlyPushes(env: Env, w: World, first: seq<Job>, second: seq<Job>)
    requires Runnable(env, w, first)
    requires Planned(env, Finish(env, w, first), second)
    ensures ApplyAll(env, w, first).ok
    ensures OnlyPushes(second) <==> RemoteNewsTracked(w)
  {
    var _ := RunLeaves(env, w, first, "");
    if RemoteNewsTracked(w) {
      TrackedNewsOnlyPushes(env, w, first, second);
    } else {
      var p :| p in w.remote && p !in w.base && !Tracked(p);
      var j := UntrackedNewsIsDeleted(env, w, first, second, p);
    }
  }

  /** Every file a run leaves has an acceptable path again. */
  lemma RunStaysHealthy(env: Env, w: World, jobs: seq<Job>)
    requires Runnable(env, w, jobs)
    ensures Healthy(env, Finish(env, w, jobs))
  {
    var x := Finish(env, w, jobs);
    RunCompletes(env, w, jobs);
    PlanIsReady(env, w, jobs);
    forall p | IsSeen(p, ViewAt(x, p)) ensures CheckPath(p) {
      if IsCopy(env, jobs, p) {
        var k :| 0 <= k < |jobs| && jobs[k].act.kind == Conflict && p == CopyName(env, jobs[k].act, jobs[k].tick);
        assert Ready(env, w, jobs[k]);
        ConflictNameIsChecked(jobs[k].act.path, env.device, jobs[k].tick.stamp);
      } else if Plans(jobs, p) {
        var j :| 0 <= j < |jobs| && jobs[j].act.path == p;
        assert Ready(env, w, jobs[j]);
      } else {
        assert ViewAt(x, p) == ViewAt(w, p);
      }
    }
    forall p | p in x.base ensures x.base[p].path == p {
      RunLeavesSettled(env, w, jobs, p);
    }
  }

  ghost predicate NoConflicts(jobs: seq<Job>) {
    forall j :: 0 <= j < |jobs| ==> jobs[j].act.kind != Conflict
  }

  lemma PlainPlanIsRunnable(env: Env, w: World, jobs: seq<Job>)
    requires Healthy(env, w) && Planned(env, w, jobs) && NoConflicts(jobs)
    ensures Runnable(env, w, jobs)
    ensures forall q :: !IsCopy(env, jobs, q)
  {
  }

  /** A second run pushes, confirms or forgets, and never finds a conflict. */
  lemma SecondRunIsPlain(env: Env, w: World, first: seq<Job>, second: seq<Job>)
    requires Runnable(env, w, first)
    requires Planned(env, Finish(env, w, first), second)
    ensures forall j :: 0 <= j < |second| ==> second[j].act.kind in {Push, NoAction, Delete}
    ensures Runnable(env, Finish(env, w, first), second)
    ensures forall q :: !IsCopy(env, second, q)
  {
    var w1 := Finish(env, w, first);
    forall j | 0 <= j < |second| ensures second[j].act.kind in {Push, NoAction, Delete} {
      PlannedAction(env, w1, second, j);
      RunLeavesSettled(env, w, first, second[j].act.path);
      SecondRunPushes(env, second[j].act.path, ViewAt(w1, second[j].act.path));
    }
    RunStaysHealthy(env, w, first);
    PlainPlanIsRunnable(env, w1, second);
  }

  lemma SecondRunLeavesStable(env: Env, w: World, first: seq<Job>, second: seq<Job>, p: Path)
    requires Runnable(env, w, first)
    requires Planned(env, Finish(env, w, first), second)
    ensures Stable(env, p, ViewAt(Finish(env, Finish(env, w, first), second), p))
  {
    var w1 := Finish(env, w, first);
    RunLeavesSettled(env, w, first, p);
    SecondRunIsPlain(env, w, first, second);
    var tick := RunLeaves(env, w1, second, p);
    SecondRunSettles(env, p, ViewAt(w1, p), tick);
  }

  ghost predicate OnlyRests(jobs: seq<Job>) {
    forall j :: 0 <= j < |jobs| ==> jobs[j].act.kind == NoAction
  }

  /** In a stable state a run plans nothing to do and changes nothing. */
  lemma StableRunRests(env: Env, w: World, jobs: seq<Job>)
    requires Healthy(env, w) && Planned(env, w, jobs)
    requires forall p :: Stable(env, p, ViewAt(w, p))
    ensures OnlyRests(jobs) && ApplyAll(env, w, jobs).ok && Finish(env, w, jobs) == w
  {
    forall j | 0 <= j < |jobs| ensures jobs[j].act.kind == NoAction {
      PlannedAction(env, w, jobs, j);
      ThirdRunRests(env, jobs[j].act.path, ViewAt(w, jobs[j].act.path));
    }
    PlainPlanIsRunnable(env, w, jobs);
    RunCompletes(env, w, jobs);
    forall p ensures ViewAt(Finish(env, w, jobs), p) == ViewAt(w, p) {
      var tick := RunLeaves(env, w, jobs, p);
      if IsSeen(p, ViewAt(w, p)) {
        ThirdRunRests(env, p, ViewAt(w, p));
      }
    }
    SameViewsSameWorld(Finish(env, w, jobs), w);
  }

  lemma SameViewsSameWorld(x: World, w: World)
    requires forall p :: ViewAt(x, p) == ViewAt(w, p)
    ensures x == w
  {
    forall p ensures (p in x.local <==> p in w.local) && (p in x.remote <==> p in w.remote) && (p in x.base <==> p in w.base)
    {
      assert ViewAt(x, p) == ViewAt(w, p);
    }
    forall p | p in x.local ensures x.local[p] == w.local[p] { assert ViewAt(x, p) == ViewAt(w, p); }
    forall p | p in x.remote ensures x.remote[p] == w.remote[p] { assert ViewAt(x, p) == ViewAt(w, p); }
    forall p | p in x.base ensures x.base[p] == w.base[p] { assert ViewAt(x, p) == ViewAt(w, p); }
  }

  /** From any state, two runs complete, the third has nothing to do and does nothing, and
    * the three sides name the same files. */
  lemma SyncStabilises(env: Env, w: World, first: seq<Job>, second: seq<Job>, third: seq<Job>)
    requires Runnable(env, w, first)
    requires Planned(env, Finish(env, w, first), second)
    requires Planned(env, Finish(env, Finish(env, w, first), second), third)
    ensures ApplyAll(env, w, first).ok && ApplyAll(env, Finish(env, w, first), second).ok
    ensures var w2 := Finish(env, Finish(env, w, first), second);
      SameFiles(w2) && OnlyRests(third) && ApplyAll(env, w2, third).ok && Finish(env, w2, third) == w2
  {
    var w1 := Finish(env, w, first);
    var w2 := Finish(env, w1, second);
    RunCompletes(env, w, first);
    SecondRunIsPlain(env, w, first, second);
    RunCompletes(env, w1, second);
    RunStaysHealthy(env, w1, second);
    forall p ensures Stable(env, p, ViewAt(w2, p)) {
      SecondRunLeavesStable(env, w, first, second, p);
    }
    StableMeansSameFiles(env, w2);
    StableRunRests(env, w2, third);
  }

  /** The base, the remote and the scanned local files have one set of paths. */
  ghost predicate SameFiles(w: World) {
    w.base.Keys == w.remote.Keys == set p | p in w.local && Tracked(p)
  }

  lemma StableMeansSameFiles(env: Env, w: World)
    requires forall p :: Stable(env, p, ViewAt(w, p))
    ensures SameFiles(w)
  {
    forall p ensures (p in w.base <==> p in w.remote) && (p in w.base <==> p in w.local && Tracked(p)) {
      assert Stable(env, p, ViewAt(w, p));
    }
  }

  // ---------- the program run three times ----------

  ghost predicate OneFormat(clock: nat -> Tick) {
    forall i: nat, j: nat :: |NameSafe(clock(i).stamp)| == |NameSafe(clock(j).stamp)|
  }

  /** No stamp of the clock makes a conflict name that is taken. */
  ghost predicate StampsAreNew(env: Env, taken: set<Path>, clock: nat -> Tick) {
    forall i: nat, p: Path :: p in taken ==> ConflictName(p, env.device, clock(i).stamp) !in taken
  }

  lemma ClockMakesRunnable(env: Env, w: World, clock: nat -> Tick, jobs: seq<Job>)
    requires Healthy(env, w) && Planned(env, w, jobs)
    requires OneFormat(clock) && StampsAreNew(env, AllPaths(w), clock)
    requires forall i :: 0 <= i < |jobs| ==> jobs[i].tick == clock(i)
    ensures Runnable(env, w, jobs)
  {
    PlanPaths(ActsOf(jobs), ScanSnapshot(env, w), RemoteSnapshot(env, w), w.base, env.opener);
    forall i | 0 <= i < |jobs| ensures CopyName(env, jobs[i].act, jobs[i].tick) !in AllPaths(w) || jobs[i].act.kind != Conflict {
      assert PathsOf(ActsOf(jobs))[i] == jobs[i].act.path;
      assert jobs[i].act.path in PathsOf(ActsOf(jobs));
      assert jobs[i].tick == clock(i);
    }
  }

  /** Syncing three times in a row, from a state and under a first clock of which only what a
    * user could look up beforehand is asked: every run completes, the third plans nothing
    * and changes nothing, and the sides end with the same files. */
  method SyncThrice(e: Engine, first: nat -> Tick, second: nat -> Tick, third: nat -> Tick)
    returns (ok1: bool, ok2: bool, ok3: bool, ghost a: seq<Job>, ghost b: seq<Job>, ghost c: seq<Job>)
    requires Healthy(e.env, e.Now())
    requires OneFormat(first) && StampsAreNew(e.env, AllPaths(e.Now()), first)
    modifies e
    ensures ok1 && ok2 && ok3
    ensures Planned(e.env, old(e.Now()), a)
    ensures Planned(e.env, Finish(e.env, old(e.Now()), a), b)
    ensures Planned(e.env, Finish(e.env, Finish(e.env, old(e.Now()), a), b), c) && OnlyRests(c)
    ensures e.Now() == Finish(e.env, Finish(e.env, old(e.Now()), a), b) && SameFiles(e.Now())
  {
    ghost var w := e.Now();
    ok1, a := RunSync(e, first);
    assert e.Now() == Finish(e.env, w, a);
    ClockMakesRunnable(e.env, w, first, a);
    ok2, b := RunSync(e, second);
    assert e.Now() == Finish(e.env, Finish(e.env, w, a), b);
    ok3, c := RunSync(e, third);
    SyncStabilises(e.env, w, a, b, c);
  }
}
