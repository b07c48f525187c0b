/** Applying a merge plan: the local store, the remote and the base database are written
  * one at a time, so a run is a sequence of states and a crash can leave any of them.
  */
module SyncEngine {
  import opened Wrappers
  import opened Runs
  import opened VersionVectors
  import opened MergeEngine
  import opened ConflictNames
  import opened PathSafety

  type Content = string

  datatype LocalFile = LocalFile(content: Content, modTime: int)
  datatype RemoteFile = RemoteFile(content: Content, modTime: int)

  datatype World = World(local: map<Path, LocalFile>, remote: map<Path, RemoteFile>, base: Snapshot)

  /** What the run does not decide itself: the digest, the revision a transport gives to
    * a content, whether its listing names contents, and whether it fails to delete what
    * is not there. */
  datatype Env = Env(
    device: DeviceID,
    digest: Content -> Hash,
    rev: Content -> string,
    listsHash: bool,
    failsOnMissing: bool,
    opener: Opener)

  /** The clock as one action reads it: the stamp for a conflict name, the time of a write. */
  datatype Tick = Tick(stamp: string, now: int)

  datatype Job = Job(act: Action, tick: Tick)

  function CopyName(env: Env, act: Action, tick: Tick): Path {
    ConflictName(act.path, env.device, tick.stamp)
  }

  function RevFor(act: Action): string {
    if act.remote.Some? then act.remote.value.remoteRev else ""
  }

  /** A conditional write fails when the file is not at the expected revision. */
  predicate Stale(env: Env, w: World, p: Path, expected: string) {
    expected != "" && (p !in w.remote || env.rev(w.remote[p].content) != expected)
  }

  // ---------- single writes ----------

  datatype Write =
    | PutLocal(path: Path, local: LocalFile)
    | PutRemote(path: Path, remote: RemoteFile)
    | DropRemote(path: Path)
    | PutBase(state: FileState)
    | DropBase(path: Path)

  function Exec(w: World, x: Write): World {
    match x
    case PutLocal(p, f) => w.(local := w.local[p := f])
    case PutRemote(p, f) => w.(remote := w.remote[p := f])
    case DropRemote(p) => w.(remote := w.remote - {p})
    case PutBase(f) => w.(base := w.base[f.path := f])
    case DropBase(p) => w.(base := w.base - {p})
  }

  /** The state after the writes of a run, or of any prefix of it. */
  function Replay(w: World, writes: seq<Write>): World {
    After(Exec, w, writes)
  }

  // ---------- the writes of an action ----------

  function ApplyOne(env: Env, w: World, act: Action, tick: Tick): Outcome<Write> {
    if !CheckPath(act.path) then Outcome([], false)
    else match act.kind
      case Push => ApplyPush(env, w, act, tick)
      case Pull => ApplyPull(w, act, tick)
      case Conflict => ApplyConflict(env, w, act, tick)
      case Delete => ApplyDelete(env, w, act)
      case MergeHOTP =>
        if act.local.None? || act.mergedVersion.None? then Outcome([], false)
        else Outcome([PutBase(act.local.value.(version := act.mergedVersion.value))], true)
      case NoAction => ApplyNone(act)
  }

  function ApplyPush(env: Env, w: World, act: Action, tick: Tick): Outcome<Write> {
    if act.local.None? then Outcome([], true)
    else if act.path !in w.local || Stale(env, w, act.path, RevFor(act)) then Outcome([], false)
    else
      Outcome([PutRemote(act.path, RemoteFile(w.local[act.path].content, tick.now)), PutBase(act.local.value)], true)
  }

  function ApplyPull(w: World, act: Action, tick: Tick): Outcome<Write> {
    if act.remote.None? then Outcome([], true)
    else if act.path !in w.remote then Outcome([], false)
    else
      Outcome([PutLocal(act.path, LocalFile(w.remote[act.path].content, tick.now)), PutBase(act.remote.value)], true)
  }

  /** The local copy is saved aside before the remote one takes its place. */
  function ApplyConflict(env: Env, w: World, act: Action, tick: Tick): Outcome<Write> {
    var p := act.path;
    if act.local.Some? && p !in w.local then Outcome([], false)
    else match (act.local, act.remote)
      case (None, None) => Outcome([], true)
      case (None, Some(_)) =>
        if p !in w.remote then Outcome([], false)
        else Outcome([PutLocal(p, LocalFile(w.remote[p].content, tick.now))], true)
      case (Some(_), None) =>
        Outcome([PutLocal(CopyName(env, act, tick), LocalFile(w.local[p].content, tick.now))], true)
      case (Some(l), Some(r)) =>
        var save := PutLocal(CopyName(env, act, tick), LocalFile(w.local[p].content, tick.now));
        if p !in w.remote then Outcome([save], false)
        else
          var keep := PutLocal(p, LocalFile(w.remote[p].content, tick.now));
          Outcome([save, keep, PutBase(r.(version := Join(l.version, r.version)))], true)
  }

  function ApplyDelete(env: Env, w: World, act: Action): Outcome<Write> {
    if Stale(env, w, act.path, RevFor(act)) || (env.failsOnMissing && act.path !in w.remote) then Outcome([], false)
    else Outcome([DropRemote(act.path), DropBase(act.path)], true)
  }

  function ApplyNone(act: Action): Outcome<Write> {
    if act.mergedVersion.Some? && act.local.Some? && !SameHistory(act.mergedVersion.value, act.local.value.version) then
      Outcome([PutBase(act.local.value.(version := act.mergedVersion.value))], true)
    else if act.base.None? && act.local.Some? then
      Outcome([PutBase(act.local.value)], true)
    else
      Outcome([], true)
  }

  function Stepper(env: Env): (World, Job) -> Outcome<Write> {
    (w: World, job: Job) => ApplyOne(env, w, job.act, job.tick)
  }

  /** The whole plan, each action with the clock readings made while it is carried out. */
  function ApplyAll(env: Env, w: World, jobs: seq<Job>): Outcome<Write> {
    RunAll(Exec, Stepper(env), w, jobs)
  }

  // ---------- the program ----------

  class Engine {
    const env: Env
    var local: map<Path, LocalFile>
    var remote: map<Path, RemoteFile>
    var base: Snapshot

    /** Every write since the engine was created. */
    ghost var log: seq<Write>

    ghost function Now(): World
      reads this
    {
      World(local, remote, base)
    }

    /** What this run has written since a state in which the log was `before`. */
    ghost predicate Wrote(start: World, before: seq<Write>, writes: seq<Write>)
      reads this
    {
      log == before + writes && Now() == Replay(start, writes)
    }

    constructor (env: Env, w: World)
      ensures this.env == env && Now() == w && log == []
    {
      this.env := env;
      local, remote, base := w.local, w.remote, w.base;
      log := [];
    }

    method WriteFile(p: Path, f: LocalFile)
      modifies this
      ensures Now() == Exec(old(Now()), PutLocal(p, f)) && log == old(log) + [PutLocal(p, f)]
    {
      local := local[p := f];
      log := log + [PutLocal(p, f)];
    }

    method UpdateFile(f: FileState)
      modifies this
      ensures Now() == Exec(old(Now()), PutBase(f)) && log == old(log) + [PutBase(f)]
    {
      base := base[f.path := f];
      log := log + [PutBase(f)];
    }

    method DeleteFile(p: Path)
      modifies this
      ensures Now() == Exec(old(Now()), DropBase(p)) && log == old(log) + [DropBase(p)]
    {
      base := base - {p};
      log := log + [DropBase(p)];
    }

    method Put(p: Path, f: RemoteFile, expected: string) returns (ok: bool)
      modifies this
      ensures ok == !Stale(env, old(Now()), p, expected)
      ensures ok ==> Now() == Exec(old(Now()), PutRemote(p, f)) && log == old(log) + [PutRemote(p, f)]
      ensures !ok ==> Now() == old(Now()) && log == old(log)
    {
      if expected != "" && (p !in remote || env.rev(remote[p].content) != expected) {
        return false;
      }
      remote := remote[p := f];
      log := log + [PutRemote(p, f)];
      return true;
    }

    method Remove(p: Path, expected: string) returns (ok: bool)
      modifies this
      ensures ok == !(Stale(env, old(Now()), p, expected) || (env.failsOnMissing && p !in old(remote)))
      ensures ok ==> Now() == Exec(old(Now()), DropRemote(p)) && log == old(log) + [DropRemote(p)]
      ensures !ok ==> Now() == old(Now()) && log == old(log)
    {
      if expected != "" && (p !in remote || env.rev(remote[p].content) != expected) {
        return false;
      }
      if env.failsOnMissing && p !in remote {
        return false;
      }
      remote := remote - {p};
      log := log + [DropRemote(p)];
      return true;
    }

    method ApplyAction(act: Action, tick: Tick) returns (ok: bool)
      modifies this
      ensures ok == ApplyOne(env, old(Now()), act, tick).ok
      ensures Wrote(old(Now()), old(log), ApplyOne(env, old(Now()), act, tick).writes)
    {
      if !CheckPath(act.path) {
        return false;
      }
      match act.kind {
        case Push =>
          ok := UploadAction(act, tick);
        case Pull =>
          ok := DownloadAction(act, tick);
        case Conflict =>
          ok := KeepBothAction(act, tick);
        case Delete =>
          ok := DeleteAction(act);
        case MergeHOTP =>
          if act.local.None? || act.mergedVersion.None? { return false; }
          RecordState(act.local.value.(version := act.mergedVersion.value));
          ok := true;
        case NoAction =>
          ok := ConfirmAction(act);
      }
    }

    method RecordState(f: FileState)
      modifies this
      ensures Wrote(old(Now()), old(log), [PutBase(f)])
    {
      AfterOne(Exec, Now(), PutBase(f));
      UpdateFile(f);
    }

    method UploadAction(act: Action, tick: Tick) returns (ok: bool)
      modifies this
      ensures ok == ApplyPush(env, old(Now()), act, tick).ok
      ensures Wrote(old(Now()), old(log), ApplyPush(env, old(Now()), act, tick).writes)
    {
      if act.local.None? { return true; }
      if act.path !in local { return false; }
      var f := RemoteFile(local[act.path].content, tick.now);
      AfterTwo(Exec, Now(), PutRemote(act.path, f), PutBase(act.local.value));
      ok := Put(act.path, f, RevFor(act));
      if !ok { return; }
      UpdateFile(act.local.value);
    }

    method DownloadAction(act: Action, tick: Tick) returns (ok: bool)
      modifies this
      ensures ok == ApplyPull(old(Now()), act, tick).ok
      ensures Wrote(old(Now()), old(log), ApplyPull(old(Now()), act, tick).writes)
    {
      if act.remote.None? { return true; }
      if act.path !in remote { return false; }
      var f := LocalFile(remote[act.path].content, tick.now);
      AfterTwo(Exec, Now(), PutLocal(act.path, f), PutBase(act.remote.value));
      WriteFile(act.path, f);
      UpdateFile(act.remote.value);
      return true;
    }

    method KeepBothAction(act: Action, tick: Tick) returns (ok: bool)
      modifies this
      ensures ok == ApplyConflict(env, old(Now()), act, tick).ok
      ensures Wrote(old(Now()), old(log), ApplyConflict(env, old(Now()), act, tick).writes)
    {
      ghost var start := Now();
      ghost var x, y := DropBase(act.path), DropBase(act.path);
      if act.local.Some? {
        if act.path !in local { return false; }
        var copy := LocalFile(local[act.path].content, tick.now);
        x := PutLocal(CopyName(env, act, tick), copy);
        AfterOne(Exec, start, x);
        WriteFile(CopyName(env, act, tick), copy);
      }
      if act.remote.Some? {
        if act.path !in remote { return false; }
        var f := LocalFile(remote[act.path].content, tick.now);
        y := PutLocal(act.path, f);
        AfterOne(Exec, start, y);
        AfterTwo(Exec, start, x, y);
        WriteFile(act.path, f);
      }
      if act.local.Some? && act.remote.Some? {
        var version := VersionVectors.Merge(act.local.value.version, act.remote.value.version);
        AfterThree(Exec, start, x, y, PutBase(act.remote.value.(version := version)));
        UpdateFile(act.remote.value.(version := version));
      }
      return true;
    }

    method DeleteAction(act: Action) returns (ok: bool)
      modifies this
      ensures ok == ApplyDelete(env, old(Now()), act).ok
      ensures Wrote(old(Now()), old(log), ApplyDelete(env, old(Now()), act).writes)
    {
      AfterTwo(Exec, Now(), DropRemote(act.path), DropBase(act.path));
      ok := Remove(act.path, RevFor(act));
      if !ok { return; }
      DeleteFile(act.path);
    }

    method ConfirmAction(act: Action) returns (ok: bool)
      modifies this
      ensures ok == ApplyNone(act).ok
      ensures Wrote(old(Now()), old(log), ApplyNone(act).writes)
    {
      if act.mergedVersion.Some? && act.local.Some? {
        var same := Equal(act.mergedVersion.value, act.local.value.version);
        if !same {
          RecordState(act.local.value.(version := act.mergedVersion.value));
          return true;
        }
      }
      if act.base.None? && act.local.Some? {
        RecordState(act.local.value);
      }
      return true;
    }

    /** `step` is what one action does, known here by name only. */
    ghost predicate Steps(step: (World, Job) -> Outcome<Write>) {
      forall w: World, job: Job {:trigger ApplyOne(env, w, job.act, job.tick)} ::
        step(w, job) == ApplyOne(env, w, job.act, job.tick)
    }

    method CarryOut(job: Job, ghost step: (World, Job) -> Outcome<Write>) returns (ok: bool)
      requires Steps(step)
      modifies this
      ensures ok == step(old(Now()), job).ok
      ensures Wrote(old(Now()), old(log), step(old(Now()), job).writes)
    {
      ok := ApplyAction(job.act, job.tick);
    }

    /** The loop over the plan, up to the first action that fails. */
    method CarryOutAll(jobs: seq<Job>, ghost step: (World, Job) -> Outcome<Write>, ghost whole: Outcome<Write>) returns (ok: bool)
      requires Steps(step) && Resumes(whole, [], Exec, step, Now(), jobs, 0)
      modifies this
      ensures ok == whole.ok && Wrote(old(Now()), old(log), whole.writes)
    {
      ghost var start, w := Now(), Now();
      ghost var done: seq<Write> := [];
      for i := 0 to |jobs|
        invariant Wrote(start, old(log), done) && w == Now()
        invariant Resumes(whole, done, Exec, step, w, jobs, i)
      {
        ghost var next := Advance(whole, done, Exec, step, start, w, jobs, i);
        ok := CarryOut(jobs[i], step);
        done, w := next, Now();
        if !ok {
          return;
        }
      }
      ResumeEnd(whole, done, Exec, step, w, jobs);
      ok := true;
    }

    /** Applying a plan makes exactly the writes of ApplyAll, one at a time. */
    method ApplyActions(jobs: seq<Job>) returns (ok: bool)
      modifies this
      ensures ok == ApplyAll(env, old(Now()), jobs).ok
      ensures Wrote(old(Now()), old(log), ApplyAll(env, old(Now()), jobs).writes)
    {
      ResumeStart(Exec, Stepper(env), Now(), jobs);
      ok := CarryOutAll(jobs, Stepper(env), ApplyAll(env, Now(), jobs));
    }
  }

}
