/** What an action leaves behind, said of the stores and not of its writes: which race it loses,
  * which paths it never touches, and which history it records.
  */
module ActionEffects {
  import opened Wrappers
  import opened VersionVectors
  import opened MergeEngine
  import opened SyncEngine
  import opened NoLoss
  import opened Pipeline
  import opened Stability
  import opened PathSafety
  import opened Runs

  // ---------- conditional writes ----------

  /** The remote file is no longer the one that was listed, as far as its revision tells. */
  predicate ChangedSince(env: Env, w: World, p: Path, listed: FileState) {
    listed.remoteRev != "" && !(p in w.remote && env.rev(w.remote[p].content) == listed.remoteRev)
  }

  /** An upload or deletion decided for a listed file makes no write once that file has changed. */
  lemma RaceIsLost(env: Env, w: World, act: Action, tick: Tick)
    requires (act.kind == Push && act.local.Some?) || act.kind == Delete
    requires act.remote.Some? && ChangedSince(env, w, act.path, act.remote.value)
    ensures ApplyOne(env, w, act, tick) == Outcome([], false)
  {
  }

  /** And it is for no other reason that an upload of a local file to an accepted path fails. */
  lemma UploadSucceedsExactly(env: Env, w: World, act: Action, tick: Tick)
    requires act.kind == Push && act.local.Some?
    ensures ApplyOne(env, w, act, tick).ok <==>
              && CheckPath(act.path) && act.path in w.local
              && (act.remote.Some? ==> !ChangedSince(env, w, act.path, act.remote.value))
  {
  }

  lemma DeletionSucceedsExactly(env: Env, w: World, act: Action, tick: Tick)
    requires act.kind == Delete
    ensures ApplyOne(env, w, act, tick).ok <==>
              && CheckPath(act.path) && (act.path in w.remote || !env.failsOnMissing)
              && (act.remote.Some? ==> !ChangedSince(env, w, act.path, act.remote.value))
  {
  }

  lemma DownloadSucceedsExactly(env: Env, w: World, act: Action, tick: Tick)
    requires act.kind == Pull && act.remote.Some?
    ensures ApplyOne(env, w, act, tick).ok <==> CheckPath(act.path) && act.path in w.remote
  {
  }

  /** A conflict whose remote file has gone meanwhile fails, with the local content saved aside. */
  lemma ConflictFailsExactly(env: Env, w: World, act: Action, tick: Tick)
    requires act.kind == Conflict && act.local.Some? && act.remote.Some?
    ensures ApplyOne(env, w, act, tick).ok <==> CheckPath(act.path) && act.path in w.local && act.path in w.remote
    ensures CheckPath(act.path) && act.path in w.local && act.path !in w.remote ==>
      var x, copy := Replay(w, ApplyOne(env, w, act, tick).writes), CopyName(env, act, tick);
      x == w.(local := w.local[copy := LocalFile(w.local[act.path].content, tick.now)])
  {
    if CheckPath(act.path) && act.path in w.local && act.path !in w.remote {
      AfterOne(Exec, w, PutLocal(CopyName(env, act, tick), LocalFile(w.local[act.path].content, tick.now)));
    }
  }

  /** With nothing to transfer, nothing is done. */
  lemma NothingToTransfer(env: Env, w: World, act: Action, tick: Tick)
    requires CheckPath(act.path)
    requires (act.kind == Push && act.local.None?) || (act.kind == Pull && act.remote.None?)
          || (act.kind == Conflict && act.local.None? && act.remote.None?)
    ensures ApplyOne(env, w, act, tick) == Outcome([], true)
  {
  }

  /** A conflict with one side only saves the local content aside, or fetches the remote one. */
  lemma ConflictOfOneSide(env: Env, w: World, act: Action, tick: Tick)
    requires act.kind == Conflict && act.local.Some? != act.remote.Some? && ApplyOne(env, w, act, tick).ok
    ensures var x, p, copy := Replay(w, ApplyOne(env, w, act, tick).writes), act.path, CopyName(env, act, tick);
      && (act.local.Some? ==> p in w.local && x == w.(local := w.local[copy := LocalFile(w.local[p].content, tick.now)]))
      && (act.remote.Some? ==> p in w.remote && x == w.(local := w.local[p := LocalFile(w.remote[p].content, tick.now)]))
  {
    var writes := ApplyOne(env, w, act, tick).writes;
    assert |writes| == 1 && writes == [writes[0]];
    AfterOne(Exec, w, writes[0]);
  }

  /** The remote side of the merge carries the revision of what was listed, for every file. */
  lemma ListingCarriesRevisions(env: Env, w: World, p: Path)
    requires p in w.remote
    ensures p in RemoteSnapshot(env, w) && RemoteSnapshot(env, w)[p].remoteRev == env.rev(w.remote[p].content)
    ensures RemoteSide(env, p, ViewAt(w, p)).Some?
    ensures RemoteSide(env, p, ViewAt(w, p)).value.remoteRev == env.rev(w.remote[p].content)
  {
  }

  lemma ActionCarriesRemote(env: Env, p: Path, v: View)
    ensures PathAction(env, p, v).remote == RemoteSide(env, p, v) && PathAction(env, p, v).path == p
  {
  }

  /** So an upload or deletion planned from one listing fails, and writes nothing, when another
    * client has changed or removed the file since: its content stays as that client left it. */
  lemma OtherClientIsNotOverwritten(env: Env, listed: World, now: World, p: Path, tick: Tick)
    requires p in listed.remote && env.rev(listed.remote[p].content) != ""
    requires p in now.remote ==> env.rev(now.remote[p].content) != env.rev(listed.remote[p].content)
    requires PathAction(env, p, ViewAt(listed, p)).kind in {Push, Delete}
    requires Keyed(p, ViewAt(listed, p))
    ensures ApplyOne(env, now, PathAction(env, p, ViewAt(listed, p)), tick) == Outcome([], false)
  {
    var v := ViewAt(listed, p);
    var act := PathAction(env, p, v);
    ListingCarriesRevisions(env, listed, p);
    ActionCarriesRemote(env, p, v);
    PathActionKinds(env, p, v);
    if act.kind == Push {
      PushedSideSeen(env, p, v);
    }
    RaceIsLost(env, now, act, tick);
  }

  /** The first action that fails is the last one that writes. */
  lemma NothingAfterFailedAction(env: Env, w: World, done: seq<Job>, failing: Job, rest: seq<Job>, before: Outcome<Write>, one: Outcome<Write>)
    requires before == ApplyAll(env, w, done) && before.ok
    requires one == Stepper(env)(Replay(w, before.writes), failing) && !one.ok
    ensures ApplyAll(env, w, done + ([failing] + rest)) == Outcome(before.writes + one.writes, false)
  {
    NothingAfterFailure(Exec, Stepper(env), w, done, failing, rest);
  }

  // ---------- accepted paths ----------

  /** Nothing is written for a path that is refused. */
  lemma RefusedPathIsUntouched(env: Env, w: World, act: Action, tick: Tick)
    requires !CheckPath(act.path)
    ensures ApplyOne(env, w, act, tick) == Outcome([], false)
  {
  }

  /** Every file that is written, locally or remotely, has an accepted path, conflict copies too. */
  lemma WrittenPathsAreAccepted(env: Env, w: World, act: Action, tick: Tick, x: Write)
    requires x in ApplyOne(env, w, act, tick).writes
    ensures x.PutLocal? || x.PutRemote? || x.DropRemote? ==> CheckPath(x.path)
  {
    if CheckPath(act.path) {
      var job := Job(act, tick);
      WritesTouchOwn(env, w, job);
      assert Touches(env, job, x);
      ConflictNameIsChecked(act.path, env.device, tick.stamp);
    } else {
      RefusedPathIsUntouched(env, w, act, tick);
    }
  }

  // ---------- contents ----------

  /** A completed upload leaves the local content on the remote, and nothing else changed but the
    * base's entry, which is what the scan found. */
  lemma UploadCopies(env: Env, w: World, act: Action, tick: Tick)
    requires act.kind == Push && act.local.Some? && ApplyOne(env, w, act, tick).ok
    ensures var x := Replay(w, ApplyOne(env, w, act, tick).writes);
      && x.local == w.local && act.path in w.local
      && x.remote == w.remote[act.path := RemoteFile(w.local[act.path].content, tick.now)]
      && x.base == w.base[act.local.value.path := act.local.value]
  {
    AfterTwo(Exec, w, PutRemote(act.path, RemoteFile(w.local[act.path].content, tick.now)), PutBase(act.local.value));
  }

  /** A completed download likewise. */
  lemma DownloadCopies(env: Env, w: World, act: Action, tick: Tick)
    requires act.kind == Pull && act.remote.Some? && ApplyOne(env, w, act, tick).ok
    ensures var x := Replay(w, ApplyOne(env, w, act, tick).writes);
      && x.remote == w.remote && act.path in w.remote
      && x.local == w.local[act.path := LocalFile(w.remote[act.path].content, tick.now)]
      && x.base == w.base[act.remote.value.path := act.remote.value]
  {
    AfterTwo(Exec, w, PutLocal(act.path, LocalFile(w.remote[act.path].content, tick.now)), PutBase(act.remote.value));
  }

  /** A completed conflict leaves the remote content at the path and the local one in the copy. */
  lemma ConflictKeepsBoth(env: Env, w: World, act: Action, tick: Tick)
    requires act.kind == Conflict && act.local.Some? && act.remote.Some? && ApplyOne(env, w, act, tick).ok
    requires CopyName(env, act, tick) != act.path
    ensures var x, copy := Replay(w, ApplyOne(env, w, act, tick).writes), CopyName(env, act, tick);
      && act.path in w.local && act.path in w.remote && x.remote == w.remote
      && x.local == w.local[copy := LocalFile(w.local[act.path].content, tick.now)]
                           [act.path := LocalFile(w.remote[act.path].content, tick.now)]
      && act.remote.value.path in x.base
      && x.base[act.remote.value.path].hash == act.remote.value.hash
      && IsLeastUpperBound(x.base[act.remote.value.path].version, [act.local.value.version, act.remote.value.version])
  {
    var p, l, r := act.path, act.local.value, act.remote.value;
    var save := PutLocal(CopyName(env, act, tick), LocalFile(w.local[p].content, tick.now));
    var keep := PutLocal(p, LocalFile(w.remote[p].content, tick.now));
    var note := PutBase(r.(version := Join(l.version, r.version)));
    assert ApplyOne(env, w, act, tick) == Outcome([save, keep, note], true);
    AfterThree(Exec, w, save, keep, note);
    JoinIsLeastUpperBound(l.version, r.version);
  }

  /** A completed deletion removes the remote file and the base's entry, and leaves the local file. */
  lemma DeletionForgets(env: Env, w: World, act: Action, tick: Tick)
    requires act.kind == Delete && ApplyOne(env, w, act, tick).ok
    ensures var x := Replay(w, ApplyOne(env, w, act, tick).writes);
      x.local == w.local && x.remote == w.remote - {act.path} && x.base == w.base - {act.path}
  {
    AfterTwo(Exec, w, DropRemote(act.path), DropBase(act.path));
  }

  // ---------- recorded histories ----------

  lemma AgreementVersion(p: Path, l: FileState, r: FileState, base: Option<FileState>, opener: Opener)
    requires MergeFile(p, Some(l), Some(r), base, opener).kind in {NoAction, MergeHOTP}
    ensures var act := MergeFile(p, Some(l), Some(r), base, opener);
      && act.path == p && act.local == Some(l) && act.base == base && act.mergedVersion.Some?
      && SameHistory(act.mergedVersion.value, Join(l.version, r.version))
      && (act.kind == MergeHOTP ==> base.Some? && act.mergedVersion.value == Join(l.version, r.version))
  {
  }

  /** What the base comes to record for a file that is kept as it is. */
  lemma ConfirmedIsRecorded(w: World, act: Action, l: FileState)
    requires act.local == Some(l) && l.path == act.path && act.mergedVersion.Some? && (act.base.Some? ==> act.path in w.base)
    ensures var o := ApplyNone(act);
      var x := Replay(w, o.writes);
      && o.ok && x.local == w.local && x.remote == w.remote && act.path in x.base
      && (act.base.None? || !SameHistory(act.mergedVersion.value, l.version) ==>
            SameHistory(x.base[act.path].version, act.mergedVersion.value) && x.base[act.path].hash == l.hash)
      && (act.base.Some? && SameHistory(act.mergedVersion.value, l.version) ==> x == w)
  {
    var writes := ApplyNone(act).writes;
    AfterPrefix(Exec, w, writes, |writes|);
    assert writes[..|writes|] == writes;
  }

  /** Where both sides turn out to hold the same, nothing is transferred, and the base comes to
    * record a history that covers both. */
  lemma AgreementIsRecorded(env: Env, w: World, p: Path, l: FileState, r: FileState, base: Option<FileState>, tick: Tick)
    requires MergeFile(p, Some(l), Some(r), base, env.opener).kind == NoAction
    requires CheckPath(p) && l.path == p && (base.Some? ==> p in w.base)
    ensures var o := ApplyOne(env, w, MergeFile(p, Some(l), Some(r), base, env.opener), tick);
      var x := Replay(w, o.writes);
      && o.ok && x.local == w.local && x.remote == w.remote && p in x.base
      && (base.None? || !SameHistory(l.version, r.version) ==> SameHistory(x.base[p].version, Join(l.version, r.version)))
  {
    AgreementVersion(p, l, r, base, env.opener);
    ConfirmedIsRecorded(w, MergeFile(p, Some(l), Some(r), base, env.opener), l);
    JoinNotBelow(p, l, r, base, env.opener);
  }

  /** Confirmed with a base, the histories are the same or neither covers the other. */
  lemma JoinNotBelow(p: Path, l: FileState, r: FileState, base: Option<FileState>, opener: Opener)
    requires MergeFile(p, Some(l), Some(r), base, opener).kind == NoAction
    ensures base.Some? && !SameHistory(l.version, r.version) ==> !SameHistory(Join(l.version, r.version), l.version)
  {
    JoinIsLeastUpperBound(l.version, r.version);
    assert Leq(r.version, Join(l.version, r.version));
  }

  /** A counter is merged only when the opener, asked for both files, gives one. */
  lemma CounterIsTheOpeners(p: Path, l: FileState, r: FileState, base: Option<FileState>, opener: Opener)
    ensures var act := MergeFile(p, Some(l), Some(r), base, opener);
      if act.kind == MergeHOTP then opener.Opener? && opener.hotp(l.path, r.path) == Some(act.mergedCounter)
      else act.mergedCounter == 0
  {
  }

  /** And two copies that differ in a counter alone are recorded under both histories. */
  lemma MergedCounterIsRecorded(env: Env, w: World, p: Path, l: FileState, r: FileState, base: Option<FileState>, tick: Tick)
    requires MergeFile(p, Some(l), Some(r), base, env.opener).kind == MergeHOTP
    requires CheckPath(p) && l.path == p
    ensures var o := ApplyOne(env, w, MergeFile(p, Some(l), Some(r), base, env.opener), tick);
      var x := Replay(w, o.writes);
      && o.ok && x.local == w.local && x.remote == w.remote
      && p in x.base && x.base[p] == l.(version := Join(l.version, r.version))
  {
    AgreementVersion(p, l, r, base, env.opener);
    AfterOne(Exec, w, PutBase(l.(version := Join(l.version, r.version))));
  }
}
