/** No version is lost.  After every single write of applying a merge plan, and so after a
  * crash at any point, each content that was on either side is still held at its path on
  * one of the sides or under its conflict name, with three exceptions: the other side had a
  * version strictly after it; it was unchanged since the base and the other side had
  * deleted it; or it is a local file the snapshot passed over, and the remote has news of
  * that path.
  */
module NoLoss {
  import opened Wrappers
  import opened VersionVectors
  import opened MergeEngine
  import opened ConflictNames
  import opened SyncEngine
  import opened Runs
  import Ordering

  // ---------- what is kept ----------

  /** Some side holds the content at the path, or the conflict copy does. */
  ghost predicate Held(env: Env, x: World, job: Job, c: Content) {
    var p := job.act.path;
    || (p in x.local && x.local[p].content == c)
    || (p in x.remote && x.remote[p].content == c)
    || (job.act.kind == Conflict && CopyName(env, job.act, job.tick) in x.local
        && x.local[CopyName(env, job.act, job.tick)].content == c)
  }

  ghost predicate Superseded(old_: Option<FileState>, new_: Option<FileState>) {
    old_.Some? && new_.Some? && StrictlyAfter(new_.value.version, old_.value.version)
  }

  ghost predicate DeletedUnchanged(kept: Option<FileState>, other: Option<FileState>, base: Option<FileState>) {
    other.None? && kept.Some? && base.Some? && SameHistory(kept.value.version, base.value.version)
  }

  /** The local snapshot shows no file, and the remote has one the base does not account for. */
  predicate RemoteNews(local: Option<FileState>, remote: Option<FileState>, base: Option<FileState>) {
    local.None? && remote.Some? && !(base.Some? && SameHistory(remote.value.version, base.value.version))
  }

  /** A local content is only ever given up for a version strictly after it, or unseen. */
  ghost predicate LocalKept(env: Env, start: World, x: World, job: Job) {
    job.act.path in start.local ==>
      || Held(env, x, job, start.local[job.act.path].content)
      || Superseded(job.act.local, job.act.remote)
      || RemoteNews(job.act.local, job.act.remote, job.act.base)
  }

  ghost predicate RemoteKept(env: Env, start: World, x: World, job: Job) {
    job.act.path in start.remote ==>
      || Held(env, x, job, start.remote[job.act.path].content)
      || Superseded(job.act.remote, job.act.local)
      || DeletedUnchanged(job.act.remote, job.act.local, job.act.base)
  }

  ghost predicate AllKept(env: Env, start: World, x: World, jobs: seq<Job>) {
    forall i :: 0 <= i < |jobs| ==> LocalKept(env, start, x, jobs[i]) && RemoteKept(env, start, x, jobs[i])
  }

  // ---------- assumptions on a plan ----------

  /** Different actions are about different paths, and conflict copies have names of their own. */
  ghost predicate Apart(env: Env, jobs: seq<Job>) {
    forall i, j :: 0 <= i < |jobs| && 0 <= j < |jobs| ==> JobsApart(env, jobs[i], jobs[j], i == j)
  }

  ghost predicate JobsApart(env: Env, a: Job, b: Job, same: bool) {
    && (!same ==> a.act.path != b.act.path)
    && (a.act.kind == Conflict ==> CopyName(env, a.act, a.tick) != b.act.path)
    && (!same && a.act.kind == Conflict && b.act.kind == Conflict ==>
          CopyName(env, a.act, a.tick) != CopyName(env, b.act, b.tick))
  }

  /** An action was decided by the merge, from local files that are there, though maybe not
    * all of them, and from all the remote files. */
  ghost predicate Decided(env: Env, start: World, act: Action) {
    && act == MergeFile(act.path, act.local, act.remote, act.base, env.opener)
    && (act.local.Some? ==> act.path in start.local)
    && (act.remote.Some? <==> act.path in start.remote)
  }

  ghost predicate SameAt(start: World, w: World, p: Path) {
    && (p in start.local <==> p in w.local) && (p in start.local ==> start.local[p] == w.local[p])
    && (p in start.remote <==> p in w.remote) && (p in start.remote ==> start.remote[p] == w.remote[p])
  }

  // ---------- frames ----------

  ghost predicate Touches(env: Env, job: Job, x: Write) {
    match x
    case PutLocal(p, _) => p == job.act.path || (job.act.kind == Conflict && p == CopyName(env, job.act, job.tick))
    case PutRemote(p, _) => p == job.act.path
    case DropRemote(p) => p == job.act.path
    case PutBase(_) => true
    case DropBase(_) => true
  }

  lemma WritesTouchOwn(env: Env, w: World, job: Job)
    ensures forall x :: x in ApplyOne(env, w, job.act, job.tick).writes ==> Touches(env, job, x)
  {
  }

  /** Writes of one action do not reach the path or the copy of another. */
  lemma {:induction false} OthersUnchanged(env: Env, w: World, writes: seq<Write>, job: Job, other: Job)
    requires forall x :: x in writes ==> Touches(env, job, x)
    requires JobsApart(env, job, other, false) && JobsApart(env, other, job, false)
    ensures var x := Replay(w, writes);
            && SameAt(w, x, other.act.path)
            && (other.act.kind == Conflict && CopyName(env, other.act, other.tick) in w.local ==>
                  CopyName(env, other.act, other.tick) in x.local
                  && x.local[CopyName(env, other.act, other.tick)] == w.local[CopyName(env, other.act, other.tick)])
    decreases |writes|
  {
    if writes != [] {
      var n := |writes| - 1;
      OthersUnchanged(env, w, writes[..n], job, other);
      assert writes[n] in writes && Touches(env, job, writes[n]);
      assert Replay(w, writes) == Exec(Replay(w, writes[..n]), writes[n]);
    }
  }

  lemma KeptByOthers(env: Env, start: World, w: World, writes: seq<Write>, job: Job, other: Job)
    requires forall x :: x in writes ==> Touches(env, job, x)
    requires JobsApart(env, job, other, false) && JobsApart(env, other, job, false)
    requires LocalKept(env, start, w, other) && RemoteKept(env, start, w, other)
    ensures LocalKept(env, start, Replay(w, writes), other) && RemoteKept(env, start, Replay(w, writes), other)
  {
    OthersUnchanged(env, w, writes, job, other);
  }

  // ---------- one action ----------

  ghost predicate SafeAfter(env: Env, start: World, w: World, job: Job, writes: seq<Write>, k: nat)
    requires k <= |writes|
  {
    var x := Replay(w, writes[..k]);
    LocalKept(env, start, x, job) && RemoteKept(env, start, x, job)
  }

  lemma PushKeeps(env: Env, start: World, w: World, job: Job, k: nat)
    requires Decided(env, start, job.act) && SameAt(start, w, job.act.path)
    requires job.act.kind == Push
    requires k <= |ApplyPush(env, w, job.act, job.tick).writes|
    ensures SafeAfter(env, start, w, job, ApplyPush(env, w, job.act, job.tick).writes, k)
  {
    AfterPrefix(Exec, w, ApplyPush(env, w, job.act, job.tick).writes, k);
  }

  lemma PullKeeps(env: Env, start: World, w: World, job: Job, k: nat)
    requires Decided(env, start, job.act) && SameAt(start, w, job.act.path)
    requires job.act.kind == Pull
    requires k <= |ApplyPull(w, job.act, job.tick).writes|
    ensures SafeAfter(env, start, w, job, ApplyPull(w, job.act, job.tick).writes, k)
  {
    AfterPrefix(Exec, w, ApplyPull(w, job.act, job.tick).writes, k);
  }

  lemma ConflictKeeps(env: Env, start: World, w: World, job: Job, k: nat)
    requires Decided(env, start, job.act) && SameAt(start, w, job.act.path)
    requires job.act.kind == Conflict
    requires CopyName(env, job.act, job.tick) != job.act.path
    requires k <= |ApplyConflict(env, w, job.act, job.tick).writes|
    ensures SafeAfter(env, start, w, job, ApplyConflict(env, w, job.act, job.tick).writes, k)
  {
    AfterPrefix(Exec, w, ApplyConflict(env, w, job.act, job.tick).writes, k);
  }

  lemma DeleteKeeps(env: Env, start: World, w: World, job: Job, k: nat)
    requires Decided(env, start, job.act) && SameAt(start, w, job.act.path)
    requires job.act.kind == Delete
    requires k <= |ApplyDelete(env, w, job.act).writes|
    ensures SafeAfter(env, start, w, job, ApplyDelete(env, w, job.act).writes, k)
  {
    AfterPrefix(Exec, w, ApplyDelete(env, w, job.act).writes, k);
  }

  /** The heart of the matter: each write of an action leaves both contents safe. */
  lemma OwnKept(env: Env, start: World, w: World, job: Job, k: nat)
    requires Decided(env, start, job.act) && SameAt(start, w, job.act.path)
    requires job.act.kind == Conflict ==> CopyName(env, job.act, job.tick) != job.act.path
    requires k <= |ApplyOne(env, w, job.act, job.tick).writes|
    ensures SafeAfter(env, start, w, job, ApplyOne(env, w, job.act, job.tick).writes, k)
  {
    var writes := ApplyOne(env, w, job.act, job.tick).writes;
    if writes == [] {
      assert Replay(w, writes[..k]) == w;
    } else {
      match job.act.kind
      case Push => PushKeeps(env, start, w, job, k);
      case Pull => PullKeeps(env, start, w, job, k);
      case Conflict => ConflictKeeps(env, start, w, job, k);
      case Delete => DeleteKeeps(env, start, w, job, k);
      case MergeHOTP => AfterPrefix(Exec, w, writes, k);
      case NoAction => AfterPrefix(Exec, w, writes, k);
    }
  }

  // ---------- the whole plan ----------

  /** What holds when action number `i` is about to start. */
  ghost predicate Reached(env: Env, start: World, w: World, jobs: seq<Job>, i: nat) {
    && AllKept(env, start, w, jobs)
    && forall j :: i <= j < |jobs| ==> SameAt(start, w, jobs[j].act.path)
  }

  lemma OneJob(env: Env, start: World, w: World, jobs: seq<Job>, i: nat, k: nat)
    requires i < |jobs| && Apart(env, jobs)
    requires forall j :: 0 <= j < |jobs| ==> Decided(env, start, jobs[j].act)
    requires Reached(env, start, w, jobs, i)
    requires k <= |ApplyOne(env, w, jobs[i].act, jobs[i].tick).writes|
    ensures Reached(env, start, Replay(w, ApplyOne(env, w, jobs[i].act, jobs[i].tick).writes[..k]), jobs, i + 1)
  {
    var writes := ApplyOne(env, w, jobs[i].act, jobs[i].tick).writes[..k];
    var x := Replay(w, writes);
    WritesTouchOwn(env, w, jobs[i]);
    assert JobsApart(env, jobs[i], jobs[i], true);
    OwnKept(env, start, w, jobs[i], k);
    forall j | 0 <= j < |jobs| && j != i
      ensures LocalKept(env, start, x, jobs[j]) && RemoteKept(env, start, x, jobs[j])
      ensures SameAt(w, x, jobs[j].act.path)
    {
      assert JobsApart(env, jobs[i], jobs[j], false) && JobsApart(env, jobs[j], jobs[i], false);
      KeptByOthers(env, start, w, writes, jobs[i], jobs[j]);
      OthersUnchanged(env, w, writes, jobs[i], jobs[j]);
    }
  }

  lemma {:induction false} KeptThroughout(env: Env, start: World, w: World, jobs: seq<Job>, i: nat, n: nat)
    requires i <= |jobs| && Apart(env, jobs)
    requires forall j :: 0 <= j < |jobs| ==> Decided(env, start, jobs[j].act)
    requires Reached(env, start, w, jobs, i)
    requires n <= |ApplyAll(env, w, jobs[i..]).writes|
    ensures AllKept(env, start, Replay(w, ApplyAll(env, w, jobs[i..]).writes[..n]), jobs)
    decreases |jobs| - i
  {
    if i < |jobs| {
      var one := ApplyOne(env, w, jobs[i].act, jobs[i].tick);
      var all := ApplyAll(env, w, jobs[i..]);
      assert jobs[i..][0] == jobs[i] && jobs[i..][1..] == jobs[i + 1..];
      assert Stepper(env)(w, jobs[i]) == one;
      if n <= |one.writes| {
        OneJob(env, start, w, jobs, i, n);
        assert all.writes[..n] == one.writes[..n];
      } else {
        OneJob(env, start, w, jobs, i, |one.writes|);
        assert one.writes[..|one.writes|] == one.writes;
        var w' := Replay(w, one.writes);
        var rest := ApplyAll(env, w', jobs[i + 1..]);
        assert all == Outcome(one.writes + rest.writes, rest.ok);
        var m := n - |one.writes|;
        KeptThroughout(env, start, w', jobs, i + 1, m);
        assert all.writes[..n] == one.writes + rest.writes[..m];
        AfterConcat(Exec, w, one.writes, rest.writes[..m]);
      }
    }
  }

  // ---------- the theorem ----------

  function ActsOf(jobs: seq<Job>): seq<Action> {
    seq(|jobs|, i requires 0 <= i < |jobs| => jobs[i].act)
  }

  /** No file of the run already has the name of a conflict copy it is going to make. */
  ghost predicate NewCopyNames(env: Env, jobs: seq<Job>, taken: set<Path>) {
    forall i :: 0 <= i < |jobs| && jobs[i].act.kind == Conflict ==> CopyName(env, jobs[i].act, jobs[i].tick) !in taken
  }

  /** Timestamps of one format have one length. */
  ghost predicate StampsOfOneFormat(jobs: seq<Job>) {
    forall i, j :: 0 <= i < |jobs| && 0 <= j < |jobs| && jobs[i].act.kind == Conflict && jobs[j].act.kind == Conflict ==>
      |NameSafe(jobs[i].tick.stamp)| == |NameSafe(jobs[j].tick.stamp)|
  }

  /** Copies made at any two moments of a run have different names, because a conflict
    * name determines its path. */
  lemma PlanIsApart(env: Env, jobs: seq<Job>, local: Snapshot, remote: Snapshot, base: Snapshot)
    requires IsPlan(ActsOf(jobs), local, remote, base, env.opener)
    requires NewCopyNames(env, jobs, Paths(local, remote, base)) && StampsOfOneFormat(jobs)
    ensures Apart(env, jobs)
  {
    var acts := ActsOf(jobs);
    PlanPaths(acts, local, remote, base, env.opener);
    forall i, j | 0 <= i < |jobs| && 0 <= j < |jobs| ensures JobsApart(env, jobs[i], jobs[j], i == j) {
      var a, b := jobs[i], jobs[j];
      assert PathsOf(acts)[i] == a.act.path && PathsOf(acts)[j] == b.act.path;
      Ordering.StringLessIrreflexive(a.act.path);
      if a.act.kind == Conflict && b.act.kind == Conflict && CopyName(env, a.act, a.tick) == CopyName(env, b.act, b.tick) {
        ConflictNameInjective(a.act.path, b.act.path, env.device, a.tick.stamp, b.tick.stamp);
      }
    }
  }

  /** The content is on some side at its path, or in a conflict copy of that path. */
  ghost predicate HeldAt(env: Env, x: World, jobs: seq<Job>, p: Path, c: Content) {
    || (p in x.local && x.local[p].content == c)
    || (p in x.remote && x.remote[p].content == c)
    || exists i :: 0 <= i < |jobs| && jobs[i].act.path == p && jobs[i].act.kind == Conflict
                   && CopyName(env, jobs[i].act, jobs[i].tick) in x.local
                   && x.local[CopyName(env, jobs[i].act, jobs[i].tick)].content == c
  }

  /** What the theorem says of one path. */
  ghost predicate NotLost(env: Env, start: World, local: Snapshot, remote: Snapshot, base: Snapshot,
                          jobs: seq<Job>, x: World, p: Path)
  {
    && (p in start.local ==>
          || HeldAt(env, x, jobs, p, start.local[p].content)
          || (p in local && p in remote && StrictlyAfter(remote[p].version, local[p].version))
          || RemoteNews(Lookup(local, p), Lookup(remote, p), Lookup(base, p)))
    && (p in start.remote ==>
          || HeldAt(env, x, jobs, p, start.remote[p].content)
          || (p in local && p in remote && StrictlyAfter(local[p].version, remote[p].version))
          || (p !in local && p in remote && p in base && SameHistory(remote[p].version, base[p].version)))
  }

  /** The snapshots are of these stores: the local one may pass files over, as a scan does. */
  predicate AreOf(start: World, local: Snapshot, remote: Snapshot) {
    local.Keys <= start.local.Keys && remote.Keys == start.remote.Keys
  }

  /** A plan whose conflict copies get names that neither the snapshots nor the disk know. */
  ghost predicate IsSafePlan(env: Env, start: World, local: Snapshot, remote: Snapshot, base: Snapshot, jobs: seq<Job>) {
    && AreOf(start, local, remote)
    && IsPlan(ActsOf(jobs), local, remote, base, env.opener)
    && NewCopyNames(env, jobs, Paths(local, remote, base) + start.local.Keys)
    && StampsOfOneFormat(jobs)
  }

  /** After any number of writes of a plan, for any such snapshots: a local content is still
    * held unless the remote version was strictly after its version, or the snapshot passed
    * the file over and the remote has news of its path; a remote content is still held
    * unless the local version was strictly after its version, or it had the base's history
    * and no local file was shown. */
  lemma NoVersionIsLost(env: Env, start: World, local: Snapshot, remote: Snapshot, base: Snapshot,
                        jobs: seq<Job>, n: nat, p: Path)
    requires IsSafePlan(env, start, local, remote, base, jobs)
    requires n <= |ApplyAll(env, start, jobs).writes|
    ensures NotLost(env, start, local, remote, base, jobs, Replay(start, ApplyAll(env, start, jobs).writes[..n]), p)
  {
    var x := Replay(start, ApplyAll(env, start, jobs).writes[..n]);
    if p in Paths(local, remote, base) {
      PlanKeepsAll(env, start, local, remote, base, jobs, n);
      var acts := ActsOf(jobs);
      var i := PlanHas(acts, local, remote, base, env.opener, p);
      assert acts[i] == jobs[i].act;
      KeptIsHeld(env, start, x, jobs, i, local, remote, base);
    } else if p in start.local {
      NoJobAt(env, start, local, remote, base, jobs, p);
      UnplannedStays(env, start, jobs, p, n);
    }
  }

  /** No action reaches the path, and no conflict copy. */
  ghost predicate Unplanned(env: Env, jobs: seq<Job>, p: Path) {
    forall job :: job in jobs ==>
      job.act.path != p && (job.act.kind == Conflict ==> CopyName(env, job.act, job.tick) != p)
  }

  lemma NoJobAt(env: Env, start: World, local: Snapshot, remote: Snapshot, base: Snapshot, jobs: seq<Job>, p: Path)
    requires IsSafePlan(env, start, local, remote, base, jobs)
    requires p in start.local && p !in Paths(local, remote, base)
    ensures Unplanned(env, jobs, p)
  {
    var acts := ActsOf(jobs);
    PlanPaths(acts, local, remote, base, env.opener);
    forall job | job in jobs ensures job.act.path != p && (job.act.kind == Conflict ==> CopyName(env, job.act, job.tick) != p) {
      var i :| 0 <= i < |jobs| && jobs[i] == job;
      assert PathsOf(acts)[i] == job.act.path && job.act.path in PathsOf(acts);
    }
  }

  lemma {:induction false} UntouchedStays(env: Env, w: World, writes: seq<Write>, job: Job, p: Path)
    requires forall x :: x in writes ==> Touches(env, job, x)
    requires job.act.path != p && (job.act.kind == Conflict ==> CopyName(env, job.act, job.tick) != p)
    ensures SameAt(w, Replay(w, writes), p)
    decreases |writes|
  {
    if writes != [] {
      var n := |writes| - 1;
      UntouchedStays(env, w, writes[..n], job, p);
      assert writes[n] in writes && Touches(env, job, writes[n]);
      assert Replay(w, writes) == Exec(Replay(w, writes[..n]), writes[n]);
    }
  }

  /** What no action of a run is about stays as it is, after each of its writes. */
  lemma UnplannedStays(env: Env, w: World, jobs: seq<Job>, p: Path, n: nat)
    requires Unplanned(env, jobs, p) && n <= |ApplyAll(env, w, jobs).writes|
    ensures SameAt(w, Replay(w, ApplyAll(env, w, jobs).writes[..n]), p)
  {
    var inv := (x: World) => SameAt(w, x, p);
    forall x, job | job in jobs ensures StepKeeps(inv, Exec, Stepper(env), x, job) {
      if SameAt(w, x, p) {
        forall k: nat | k <= |Stepper(env)(x, job).writes|
          ensures SameAt(w, After(Exec, x, Stepper(env)(x, job).writes[..k]), p)
        {
          WritesTouchOwn(env, x, job);
          UntouchedStays(env, x, ApplyOne(env, x, job.act, job.tick).writes[..k], job, p);
        }
      }
    }
    RunKeeps(inv, Exec, Stepper(env), w, jobs, n);
  }

  lemma PlanKeepsAll(env: Env, start: World, local: Snapshot, remote: Snapshot, base: Snapshot, jobs: seq<Job>, n: nat)
    requires IsSafePlan(env, start, local, remote, base, jobs)
    requires n <= |ApplyAll(env, start, jobs).writes|
    ensures AllKept(env, start, Replay(start, ApplyAll(env, start, jobs).writes[..n]), jobs)
  {
    PlanIsApart(env, jobs, local, remote, base);
    PlanIsDecided(env, start, local, remote, base, jobs);
    NothingLostYet(env, start, jobs);
    assert jobs[0..] == jobs;
    KeptThroughout(env, start, start, jobs, 0, n);
  }

  lemma PlanIsDecided(env: Env, start: World, local: Snapshot, remote: Snapshot, base: Snapshot, jobs: seq<Job>)
    requires AreOf(start, local, remote) && IsPlan(ActsOf(jobs), local, remote, base, env.opener)
    ensures forall i :: 0 <= i < |jobs| ==> Decided(env, start, jobs[i].act)
  {
    var acts := ActsOf(jobs);
    PlanPaths(acts, local, remote, base, env.opener);
    forall i | 0 <= i < |jobs| ensures Decided(env, start, jobs[i].act) {
      assert acts[i] == jobs[i].act;
      ActionIsDecided(env, start, local, remote, base, acts[i]);
    }
  }

  lemma ActionIsDecided(env: Env, start: World, local: Snapshot, remote: Snapshot, base: Snapshot, act: Action)
    requires AreOf(start, local, remote)
    requires act == ActionFor(act.path, local, remote, base, env.opener)
    ensures Decided(env, start, act)
  {
    assert act.local == Lookup(local, act.path) && act.remote == Lookup(remote, act.path) && act.base == Lookup(base, act.path);
  }

  lemma NothingLostYet(env: Env, start: World, jobs: seq<Job>)
    ensures Reached(env, start, start, jobs, 0)
  {
  }

  lemma KeptIsHeld(env: Env, start: World, x: World, jobs: seq<Job>, i: nat, local: Snapshot, remote: Snapshot, base: Snapshot)
    requires i < |jobs| && LocalKept(env, start, x, jobs[i]) && RemoteKept(env, start, x, jobs[i])
    requires jobs[i].act == ActionFor(jobs[i].act.path, local, remote, base, env.opener)
    requires AreOf(start, local, remote)
    ensures NotLost(env, start, local, remote, base, jobs, x, jobs[i].act.path)
  {
    var act := jobs[i].act;
    assert act.local == Lookup(local, act.path) && act.remote == Lookup(remote, act.path) && act.base == Lookup(base, act.path);
    forall c | Held(env, x, jobs[i], c) ensures HeldAt(env, x, jobs, act.path, c) {}
  }

  // ---------- files the snapshot passes over ----------

  /** Where a pull is planned, a completed run leaves what the remote had. */
  lemma {:induction false} PullLands(env: Env, start: World, w: World, jobs: seq<Job>, i: nat, k: nat)
    requires i <= k < |jobs| && Apart(env, jobs) && SameAt(start, w, jobs[k].act.path)
    requires jobs[k].act.kind == Pull && jobs[k].act.remote.Some? && jobs[k].act.path in start.remote
    requires ApplyAll(env, w, jobs[i..]).ok
    ensures var x, p := Replay(w, ApplyAll(env, w, jobs[i..]).writes), jobs[k].act.path;
            && p in x.local && x.local[p].content == start.remote[p].content
            && p in x.remote && x.remote[p] == start.remote[p]
    decreases k - i
  {
    var p := jobs[k].act.path;
    RunUnfolds(Exec, Stepper(env), w, jobs, i);
    var writes := ApplyOne(env, w, jobs[i].act, jobs[i].tick).writes;
    var y := Replay(w, writes);
    if i < k {
      assert JobsApart(env, jobs[i], jobs[k], false) && JobsApart(env, jobs[k], jobs[i], false);
      WritesTouchOwn(env, w, jobs[i]);
      OthersUnchanged(env, w, writes, jobs[i], jobs[k]);
      PullLands(env, start, y, jobs, i + 1, k);
    } else {
      PullWrites(env, w, jobs[k]);
      OthersAreUnplanned(env, jobs, k);
      var rest := ApplyAll(env, y, jobs[k + 1..]);
      UnplannedStays(env, y, jobs[k + 1..], p, |rest.writes|);
      assert rest.writes[..|rest.writes|] == rest.writes;
    }
  }

  lemma PullWrites(env: Env, w: World, job: Job)
    requires job.act.kind == Pull && job.act.remote.Some? && ApplyOne(env, w, job.act, job.tick).ok
    ensures var p, y := job.act.path, Replay(w, ApplyOne(env, w, job.act, job.tick).writes);
            && p in w.remote && y.remote == w.remote
            && p in y.local && y.local[p].content == w.remote[p].content
  {
    var writes := ApplyOne(env, w, job.act, job.tick).writes;
    assert writes[..|writes|] == writes;
    AfterPrefix(Exec, w, writes, |writes|);
  }

  lemma OthersAreUnplanned(env: Env, jobs: seq<Job>, k: nat)
    requires k < |jobs| && Apart(env, jobs)
    ensures Unplanned(env, jobs[k + 1..], jobs[k].act.path)
  {
    forall job | job in jobs[k + 1..]
      ensures job.act.path != jobs[k].act.path && (job.act.kind == Conflict ==> CopyName(env, job.act, job.tick) != jobs[k].act.path)
    {
      var j :| 0 <= j < |jobs[k + 1..]| && jobs[k + 1..][j] == job;
      assert JobsApart(env, jobs[k + 1 + j], jobs[k], false);
    }
  }

  /** A local file that the snapshot passes over survives a completed run if and only if the
    * remote has no news of its path, or the same content. */
  lemma UnseenSurvivesExactly(env: Env, start: World, local: Snapshot, remote: Snapshot, base: Snapshot, jobs: seq<Job>, p: Path)
    requires IsSafePlan(env, start, local, remote, base, jobs)
    requires ApplyAll(env, start, jobs).ok
    requires p in start.local && p !in local
    ensures HeldAt(env, Replay(start, ApplyAll(env, start, jobs).writes), jobs, p, start.local[p].content) <==>
              || !RemoteNews(None, Lookup(remote, p), Lookup(base, p))
              || start.local[p].content == start.remote[p].content
  {
    var writes := ApplyAll(env, start, jobs).writes;
    NoVersionIsLost(env, start, local, remote, base, jobs, |writes|, p);
    assert writes[..|writes|] == writes;
    if RemoteNews(None, Lookup(remote, p), Lookup(base, p)) {
      var acts := ActsOf(jobs);
      var k := PlanHas(acts, local, remote, base, env.opener, p);
      assert acts[k] == jobs[k].act && jobs[k].act.kind == Pull;
      PlanIsApart(env, jobs, local, remote, base);
      assert jobs[0..] == jobs;
      PullLands(env, start, start, jobs, 0, k);
      forall i | 0 <= i < |jobs| && jobs[i].act.path == p ensures i == k {
        assert JobsApart(env, jobs[i], jobs[k], i == k);
      }
    }
  }
}
