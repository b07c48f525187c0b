/** What a run of the program keeps, and what becomes of the local files its scan passes over:
  * hidden files, recipients files among them, and files that are no entries.
  */
module Unscanned {
  import opened Wrappers
  import opened VersionVectors
  import opened MergeEngine
  import opened SyncEngine
  import opened NoLoss
  import opened Pipeline
  import opened Stability
  import opened PathSafety
  import opened Runs
  import Strings

  /** A plan of the program's own, under new conflict names. */
  ghost predicate RunPlan(env: Env, w: World, jobs: seq<Job>) {
    Planned(env, w, jobs) && NewCopyNames(env, jobs, AllPaths(w)) && StampsOfOneFormat(jobs)
  }

  lemma RunPlanIsSafe(env: Env, w: World, jobs: seq<Job>)
    requires RunPlan(env, w, jobs)
    ensures IsSafePlan(env, w, ScanSnapshot(env, w), RemoteSnapshot(env, w), w.base, jobs)
  {
    assert Paths(ScanSnapshot(env, w), RemoteSnapshot(env, w), w.base) + w.local.Keys <= AllPaths(w);
  }

  /** The remote never looks newer than what the scan found, and without a base neither looks
    * newer than the other. */
  lemma RemoteIsNoNewer(env: Env, w: World, p: Path)
    requires p in w.local && p in w.remote && Tracked(p)
    ensures var l, r := ScanSnapshot(env, w)[p].version, RemoteSnapshot(env, w)[p].version;
      !StrictlyAfter(r, l) && (p !in w.base ==> !StrictlyAfter(l, r))
  {
    if p in w.base {
      ScanIsNoOlder(env, p, w.local[p], w.base[p]);
    }
  }

  /** The local file differs from the base's entry: in size or time, and in digest. */
  predicate Edited(env: Env, f: LocalFile, b: FileState) {
    !(b.size == |f.content| && b.modTime == f.modTime) && env.digest(f.content) != b.hash
  }

  /** A scan adds an edit to the version exactly then. */
  lemma EditIsCounted(env: Env, p: Path, f: LocalFile, b: FileState)
    ensures SameHistory(ScanFile(env, p, f, Some(b)).version, b.version) <==> !Edited(env, f, b)
  {
    if Edited(env, f, b) {
      assert At(Bump(b.version, env.device, 1), env.device) == At(b.version, env.device) + 1;
    }
  }

  /** The base knows the file, and either no scan sees it here or it was edited here. */
  predicate Overruled(env: Env, w: World, p: Path) {
    p in w.base && (p in w.local && Tracked(p) ==> Edited(env, w.local[p], w.base[p]))
  }

  /** After any number of writes of a run: a local content is lost only if the scan passed the
    * file over, the remote has a file of its name and the base does not; a remote content is
    * lost only if the base has an entry of its name and the local file is gone from the scan's
    * sight or edited. */
  lemma RunLosesOnly(env: Env, w: World, jobs: seq<Job>, n: nat, p: Path)
    requires RunPlan(env, w, jobs) && n <= |ApplyAll(env, w, jobs).writes|
    ensures var x := Replay(w, ApplyAll(env, w, jobs).writes[..n]);
      && (p in w.local ==>
            HeldAt(env, x, jobs, p, w.local[p].content) || (!Tracked(p) && p in w.remote && p !in w.base))
      && (p in w.remote ==>
            HeldAt(env, x, jobs, p, w.remote[p].content) || Overruled(env, w, p))
  {
    RunPlanIsSafe(env, w, jobs);
    NoVersionIsLost(env, w, ScanSnapshot(env, w), RemoteSnapshot(env, w), w.base, jobs, n, p);
    if p in w.local && p in w.remote && Tracked(p) {
      RemoteIsNoNewer(env, w, p);
      if p in w.base {
        EditIsCounted(env, p, w.local[p], w.base[p]);
      }
    }
  }

  /** A local file the scan passes over survives a completed run if and only if the remote has
    * no file of its name, or the base knows it, or the contents are the same. */
  lemma UntrackedSurvivesExactly(env: Env, w: World, jobs: seq<Job>, p: Path)
    requires RunPlan(env, w, jobs) && ApplyAll(env, w, jobs).ok
    requires p in w.local && !Tracked(p)
    ensures HeldAt(env, Finish(env, w, jobs), jobs, p, w.local[p].content) <==>
              p !in w.remote || p in w.base || w.local[p].content == w.remote[p].content
  {
    RunPlanIsSafe(env, w, jobs);
    UnseenSurvivesExactly(env, w, ScanSnapshot(env, w), RemoteSnapshot(env, w), w.base, jobs, p);
  }

  // ---------- the failing input ----------

  const RECIPIENTS: Path := ".gpg-id"

  lemma HiddenIsUntracked(name: string)
    requires '/' !in name && name != "" && name[0] == '.'
    ensures !Tracked(name)
  {
    Strings.SplitPiece(name, '/', "");
    assert Strings.Split(name, '/')[0] == name;
    assert Strings.HasPrefix(name, ".");
  }

  lemma RecipientsAreUntracked()
    ensures !Tracked(RECIPIENTS) && CheckPath(RECIPIENTS)
  {
    HiddenIsUntracked(RECIPIENTS);
    NameIsAccepted(RECIPIENTS);
  }

  /** A store and a remote that each hold one file, of one name, and no base. */
  function TwoFiles(p: Path, mine: Content, theirs: Content): World {
    World(map[p := LocalFile(mine, 0)], map[p := RemoteFile(theirs, 0)], map[])
  }

  /** With different recipients files on the two sides, every completed run replaces the local
    * one, and no copy of it stays. */
  lemma RecipientsFileIsReplaced(env: Env, mine: Content, theirs: Content, jobs: seq<Job>)
    requires mine != theirs
    requires RunPlan(env, TwoFiles(RECIPIENTS, mine, theirs), jobs)
    requires ApplyAll(env, TwoFiles(RECIPIENTS, mine, theirs), jobs).ok
    ensures !HeldAt(env, Finish(env, TwoFiles(RECIPIENTS, mine, theirs), jobs), jobs, RECIPIENTS, mine)
  {
    RecipientsAreUntracked();
    UntrackedSurvivesExactly(env, TwoFiles(RECIPIENTS, mine, theirs), jobs, RECIPIENTS);
  }

  lemma OnlyOnePath(env: Env, w: World, p: Path)
    requires w.local.Keys == {p} && w.remote.Keys == {p} && w.base.Keys <= {p}
    ensures forall q :: q in Paths(ScanSnapshot(env, w), RemoteSnapshot(env, w), w.base) <==> q == p
  {
    assert p in RemoteSnapshot(env, w);
  }

  lemma OnlyOneAction(env: Env, w: World, p: Path, jobs: seq<Job>)
    requires w.local.Keys == {p} && w.remote.Keys == {p} && w.base.Keys <= {p}
    requires |jobs| == 1 && jobs[0].act.path == p && jobs[0].act == PathAction(env, p, ViewAt(w, p))
    ensures Planned(env, w, jobs)
  {
    PlanAt(env, w, p);
    OnlyOnePath(env, w, p);
    var acts := ActsOf(jobs);
    assert |acts| == 1 && acts[0] == jobs[0].act;
    OneActionIsPlan(acts, ScanSnapshot(env, w), RemoteSnapshot(env, w), w.base, env.opener, p);
  }

  lemma OneActionIsPlan(acts: seq<Action>, local: Snapshot, remote: Snapshot, base: Snapshot, opener: Opener, p: Path)
    requires |acts| == 1 && acts[0] == ActionFor(p, local, remote, base, opener) && acts[0].path == p
    requires forall q :: q in Paths(local, remote, base) <==> q == p
    ensures IsPlan(acts, local, remote, base, opener)
  {
    assert acts[0] in acts;
  }

  lemma PullAlone(env: Env, w: World, jobs: seq<Job>)
    requires |jobs| == 1 && jobs[0].act.kind == Pull && jobs[0].act.remote.Some?
    requires CheckPath(jobs[0].act.path) && jobs[0].act.path in w.remote
    ensures ApplyAll(env, w, jobs).ok
    ensures var act, tick := jobs[0].act, jobs[0].tick;
      Finish(env, w, jobs).local == w.local[act.path := LocalFile(w.remote[act.path].content, tick.now)]
  {
    RunOfOne(Exec, Stepper(env), w, jobs);
    var writes := ApplyPull(w, jobs[0].act, jobs[0].tick).writes;
    assert writes[..2] == writes;
    AfterPrefix(Exec, w, writes, 2);
  }

  lemma PullIsPlanned(env: Env, p: Path, v: View)
    requires v.l.Some? && !Tracked(p) && v.r.Some? && v.b.None?
    ensures var a := PathAction(env, p, v); a.kind == Pull && a.path == p && a.remote.Some?
  {
    PathActionKinds(env, p, v);
  }

  lemma OnePullIsRunPlan(env: Env, w: World, jobs: seq<Job>)
    requires Planned(env, w, jobs) && |jobs| == 1 && jobs[0].act.kind == Pull
    ensures RunPlan(env, w, jobs)
  {
  }

  /** There are such runs, for the recipients file as for any name the scan passes over: the
    * plan is one download, and it completes. */
  lemma UntrackedFileIsPulled(env: Env, mine: Content, theirs: Content, w: World, p: Path, jobs: seq<Job>)
    requires !Tracked(p) && CheckPath(p) && w == TwoFiles(p, mine, theirs)
    requires |jobs| == 1 && jobs[0].act == PathAction(env, p, ViewAt(w, p))
    ensures jobs[0].act.kind == Pull && RunPlan(env, w, jobs) && ApplyAll(env, w, jobs).ok
    ensures Finish(env, w, jobs).local == map[p := LocalFile(theirs, jobs[0].tick.now)]
  {
    PullIsPlanned(env, p, ViewAt(w, p));
    OnlyOneAction(env, w, p, jobs);
    OnePullIsRunPlan(env, w, jobs);
    PullAlone(env, w, jobs);
  }
}
