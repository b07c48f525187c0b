/** When a run loses what the remote held.  The remote snapshot gives every known file the base's
  * version, so an edit made on another device does not count: the local side decides, and the
  * other device's content is overwritten or deleted without a copy.
  */
module RemoteLosses {
  import opened Wrappers
  import opened MergeEngine
  import opened SyncEngine
  import opened NoLoss
  import opened Pipeline
  import opened Stability
  import opened Unscanned
  import opened PathSafety
  import Strings

  /** What a run does where both the remote and the base have the file. */
  lemma KnownFileAction(env: Env, p: Path, v: View)
    requires Keyed(p, v) && v.r.Some? && v.b.Some?
    ensures var k, seen := PathAction(env, p, v).kind, v.l.Some? && Tracked(p);
      k == if !seen then Delete else if Edited(env, v.l.value, v.b.value) then Push else NoAction
  {
    PathActionKinds(env, p, v);
    if v.l.Some? {
      EditIsCounted(env, p, v.l.value, v.b.value);
    }
  }

  /** What it leaves there. */
  lemma KnownFileLeaves(env: Env, p: Path, v: View, tick: Tick)
    requires Keyed(p, v) && v.r.Some? && v.b.Some?
    ensures var e, seen := Effect(env, p, v, tick), v.l.Some? && Tracked(p);
      && e.l == v.l
      && (!seen ==> e.r == None)
      && (seen && Edited(env, v.l.value, v.b.value) ==> e.r == Some(RemoteFile(v.l.value.content, tick.now)))
      && (seen && !Edited(env, v.l.value, v.b.value) ==> e.r == v.r)
  {
    KnownFileAction(env, p, v);
  }

  lemma NoCopyIsMade(env: Env, w: World, jobs: seq<Job>, p: Path)
    requires Planned(env, w, jobs) && PathAction(env, p, ViewAt(w, p)).kind != Conflict
    ensures forall i :: 0 <= i < |jobs| && jobs[i].act.path == p ==> jobs[i].act.kind != Conflict
  {
    forall i | 0 <= i < |jobs| && jobs[i].act.path == p ensures jobs[i].act.kind != Conflict {
      PlannedAction(env, w, jobs, i);
    }
  }

  lemma KnownContentSurvivesExactly(env: Env, w: World, jobs: seq<Job>, p: Path)
    requires Runnable(env, w, jobs) && p in w.remote && p in w.base
    ensures HeldAt(env, Finish(env, w, jobs), jobs, p, w.remote[p].content) <==>
              !Overruled(env, w, p) || (p in w.local && w.local[p].content == w.remote[p].content)
  {
    var v := ViewAt(w, p);
    var tick := RunLeaves(env, w, jobs, p);
    KnownFileAction(env, p, v);
    KnownFileLeaves(env, p, v, tick);
    NoCopyIsMade(env, w, jobs, p);
    var x := Finish(env, w, jobs);
    assert ViewAt(x, p) == Effect(env, p, v, tick);
  }

  /** A remote content survives a run if and only if the base does not know the file, or the scan
    * sees it here and unedited, or the local file has the same content. */
  lemma RemoteSurvivesExactly(env: Env, w: World, jobs: seq<Job>, p: Path)
    requires Runnable(env, w, jobs) && p in w.remote
    ensures HeldAt(env, Finish(env, w, jobs), jobs, p, w.remote[p].content) <==>
              !Overruled(env, w, p) || (p in w.local && w.local[p].content == w.remote[p].content)
  {
    if p in w.base {
      KnownContentSurvivesExactly(env, w, jobs, p);
    } else {
      var writes := ApplyAll(env, w, jobs).writes;
      RunLosesOnly(env, w, jobs, |writes|, p);
      assert writes[..|writes|] == writes;
    }
  }

  // ---------- the failing input ----------

  /** An entry edited on two devices: the run of one is a push that completes, and the other's
    * content is nowhere afterwards. */
  lemma EditedTwiceIsOverwritten(env: Env, w: World, jobs: seq<Job>, p: Path) returns (j: nat)
    requires Runnable(env, w, jobs)
    requires p in w.local && p in w.remote && p in w.base && Tracked(p) && Edited(env, w.local[p], w.base[p])
    requires w.remote[p].content != w.local[p].content
    ensures j < |jobs| && jobs[j].act.path == p && jobs[j].act.kind == Push
    ensures ApplyAll(env, w, jobs).ok
    ensures var x := Finish(env, w, jobs);
      && p in x.remote && x.remote[p].content == w.local[p].content
      && !HeldAt(env, x, jobs, p, w.remote[p].content)
  {
    j := PathIsPlanned(env, w, jobs, p);
    PlannedAction(env, w, jobs, j);
    KnownFileAction(env, p, ViewAt(w, p));
    var tick := RunLeaves(env, w, jobs, p);
    KnownFileLeaves(env, p, ViewAt(w, p), tick);
    RemoteSurvivesExactly(env, w, jobs, p);
    assert ViewAt(Finish(env, w, jobs), p) == Effect(env, p, ViewAt(w, p), tick);
  }

  /** One file in the store, on the remote and in the base. */
  function OneFile(p: Path, mine: LocalFile, theirs: RemoteFile, b: FileState): World {
    World(map[p := mine], map[p := theirs], map[p := b])
  }

  lemma OneFileIsHealthy(env: Env, w: World, p: Path)
    requires w.local.Keys == {p} && w.remote.Keys == {p} && w.base.Keys == {p} && w.base[p].path == p
    requires !env.failsOnMissing && CheckPath(p)
    ensures Healthy(env, w) && Keyed(p, ViewAt(w, p))
  {
  }

  /** There are such runs: the plan of one action, for any file that both devices edited. */
  lemma EditedTwiceRuns(env: Env, mine: LocalFile, theirs: RemoteFile, b: FileState, w: World, p: Path, jobs: seq<Job>)
    requires !env.failsOnMissing && CheckPath(p) && Tracked(p) && b.path == p
    requires w == OneFile(p, mine, theirs, b) && Edited(env, mine, b)
    requires |jobs| == 1 && jobs[0].act == PathAction(env, p, ViewAt(w, p))
    ensures Runnable(env, w, jobs)
  {
    OneFileIsHealthy(env, w, p);
    KnownFileAction(env, p, ViewAt(w, p));
    PushedSideSeen(env, p, ViewAt(w, p));
    OnlyOneAction(env, w, p, jobs);
    OnePushIsPlain(env, w, jobs);
  }

  lemma OnePushIsPlain(env: Env, w: World, jobs: seq<Job>)
    requires Healthy(env, w) && Planned(env, w, jobs) && |jobs| == 1 && jobs[0].act.kind == Push
    ensures Runnable(env, w, jobs)
  {
    PlainPlanIsRunnable(env, w, jobs);
  }

  /** An entry's file is such a file, for instance. */
  lemma EntryIsTracked(name: string, dot: nat)
    requires '/' !in name && '\\' !in name && '\0' !in name && 0 < dot < |name| && name[0] != '.'
    requires name[dot..] == ".gpg" || name[dot..] == ".age"
    ensures Tracked(name) && CheckPath(name)
  {
    Strings.SplitPiece(name, '/', "");
    assert Strings.Split(name, '/') == [name];
    assert name[dot..][0] == name[dot] && name[dot..][1] == name[dot + 1] && name[dot..][2] == name[dot + 2] && name[dot..][3] == name[dot + 3];
    Strings.LastIndexUnique(name, '.', dot);
    assert !Strings.HasPrefix(name, ".");
    NameIsAccepted(name);
  }
}
