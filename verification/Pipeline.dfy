/** One synchronisation run: list the remote, name unknown contents, scan the local store,
  * merge against the base, apply.
  */
module Pipeline {
  import opened Wrappers
  import opened VersionVectors
  import opened MergeEngine
  import opened SyncEngine
  import opened NoLoss
  import Strings

  // ---------- which local files are scanned ----------

  /** The extension of a file name, with its dot. */
  function Ext(name: string): string {
    var dot := Strings.LastIndexOf(name, '.');
    if dot < 0 then "" else name[dot..]
  }

  const CONTAINERS: set<string> := {
    "store.coffin.age", "store.luks", "store.luks.key.age", "store.sparsebundle", "store.sparsebundle.key.age"
  }

  /** No component is hidden, and the file is an entry or a tomb container. */
  predicate Tracked(p: Path) {
    var parts := Strings.Split(p, '/');
    var name := parts[|parts| - 1];
    && (forall i :: 0 <= i < |parts| ==> !Strings.HasPrefix(parts[i], "."))
    && (name in CONTAINERS || Ext(name) == ".gpg" || Ext(name) == ".age")
  }

  // ---------- scanning ----------

  /** Size and time decide first; only when one differs is the content hashed. */
  function ScanFile(env: Env, p: Path, f: LocalFile, b: Option<FileState>): FileState {
    if b.Some? && b.value.size == |f.content| && b.value.modTime == f.modTime then b.value
    else
      var h := env.digest(f.content);
      if b.Some? && b.value.hash == h then b.value.(size := |f.content|, modTime := f.modTime)
      else
        var version := if b.Some? then Bump(b.value.version, env.device, 1) else map[env.device := 1];
        FileState(p, h, |f.content|, f.modTime, version, "", env.device)
  }

  function ScanSnapshot(env: Env, w: World): Snapshot {
    map p | p in w.local && Tracked(p) :: ScanFile(env, p, w.local[p], Lookup(w.base, p))
  }

  method Scan(env: Env, local: map<Path, LocalFile>, base: Snapshot) returns (out: Snapshot)
    ensures forall remote :: out == ScanSnapshot(env, World(local, remote, base))
  {
    out := map[];
    var todo := local.Keys;
    while todo != {}
      invariant todo <= local.Keys
      invariant forall p :: p in out <==> p in local.Keys - todo && Tracked(p)
      invariant forall p :: p in out ==> out[p] == ScanFile(env, p, local[p], Lookup(base, p))
    {
      var rel :| rel in todo;
      todo := todo - {rel};
      if !Tracked(rel) {
        continue;
      }
      var f := local[rel];
      if rel in base && base[rel].size == |f.content| && base[rel].modTime == f.modTime {
        out := out[rel := base[rel]];
        continue;
      }
      var h := env.digest(f.content);
      if rel in base && base[rel].hash == h {
        out := out[rel := base[rel].(size := |f.content|, modTime := f.modTime)];
        continue;
      }
      var vv := map[env.device := 1];
      if rel in base {
        vv := Increment(base[rel].version, env.device, 1);
      }
      out := out[rel := FileState(rel, h, |f.content|, f.modTime, vv, "", env.device)];
    }
  }

  // ---------- listing the remote ----------

  datatype File = File(path: Path, size: int, modTime: int, rev: string, hash: Hash)

  function ListedFile(env: Env, p: Path, f: RemoteFile): File {
    File(p, |f.content|, f.modTime, env.rev(f.content), if env.listsHash then env.digest(f.content) else UNKNOWN_HASH)
  }

  ghost predicate Names(files: seq<File>, p: Path) {
    exists i :: 0 <= i < |files| && files[i].path == p
  }

  /** A listing names every remote file once, in some order. */
  ghost predicate IsListing(env: Env, remote: map<Path, RemoteFile>, files: seq<File>) {
    && (forall i :: 0 <= i < |files| ==> files[i].path in remote && files[i] == ListedFile(env, files[i].path, remote[files[i].path]))
    && (forall i, j :: 0 <= i < j < |files| ==> files[i].path != files[j].path)
    && (forall p :: p in remote ==> Names(files, p))
  }

  method List(env: Env, remote: map<Path, RemoteFile>) returns (files: seq<File>)
    ensures IsListing(env, remote, files)
  {
    files := [];
    var todo := remote.Keys;
    while todo != {}
      invariant todo <= remote.Keys
      invariant forall i :: 0 <= i < |files| ==> files[i].path !in todo && files[i].path in remote
      invariant forall i :: 0 <= i < |files| ==> files[i] == ListedFile(env, files[i].path, remote[files[i].path])
      invariant forall i, j :: 0 <= i < j < |files| ==> files[i].path != files[j].path
      invariant forall p :: p in remote && p !in todo ==> Names(files, p)
    {
      var p :| p in todo;
      ghost var before := files;
      files := files + [ListedFile(env, p, remote[p])];
      todo := todo - {p};
      assert files[|before|].path == p;
      forall q | Names(before, q) ensures Names(files, q) {
        var i :| 0 <= i < |before| && before[i].path == q;
        assert files[i].path == q;
      }
    }
  }

  /** A file on both sides that neither the transport nor the base can tell about is
    * fetched to learn its content; any other listed file stays as it is. */
  function FillOne(env: Env, w: World, f: File): File {
    if f.hash == UNKNOWN_HASH && f.path !in w.base && f.path in w.local && f.path in w.remote
    then f.(hash := env.digest(w.remote[f.path].content))
    else f
  }

  method FillUnknownRemoteHashes(env: Env, w: World, files: array<File>)
    modifies files
    ensures forall i :: 0 <= i < files.Length ==> files[i] == FillOne(env, w, old(files[i]))
  {
    for n := 0 to files.Length
      invariant forall i :: 0 <= i < n ==> files[i] == FillOne(env, w, old(files[i]))
      invariant forall i :: n <= i < files.Length ==> files[i] == old(files[i])
    {
      var f := files[n];
      if f.hash != UNKNOWN_HASH { continue; }
      if f.path in w.base { continue; }
      if f.path !in w.local { continue; }
      if f.path !in w.remote { continue; }
      files[n] := f.(hash := env.digest(w.remote[f.path].content));
    }
  }

  function ListedState(env: Env, f: File, b: Option<FileState>): FileState {
    var version := if b.Some? then b.value.version else map[env.device := 1];
    FileState(f.path, f.hash, f.size, f.modTime, version, f.rev, env.device)
  }

  method RemoteFilesToSnapshot(env: Env, files: seq<File>, base: Snapshot) returns (snap: Snapshot)
    ensures IsSnapshotOf(env, files, base, snap)
  {
    snap := map[];
    for n := 0 to |files|
      invariant IsSnapshotUpTo(env, files, n, base, snap)
    {
      var f := files[n];
      var vv := map[env.device := 1];
      if f.path in base {
        vv := Clone(base[f.path].version);
      }
      var state := FileState(f.path, f.hash, f.size, f.modTime, vv, f.rev, env.device);
      SnapshotSnoc(env, files, n, base, snap, state);
      snap := snap[f.path := state];
    }
  }

  lemma NamesSnoc(files: seq<File>, f: File, p: Path)
    ensures Names(files + [f], p) <==> Names(files, p) || p == f.path
  {
    if Names(files, p) {
      var i :| 0 <= i < |files| && files[i].path == p;
      assert (files + [f])[i].path == p;
    }
    assert (files + [f])[|files|] == f;
  }

  /** What the merge is given for the remote side. */
  function RemoteState(env: Env, p: Path, f: RemoteFile, b: Option<FileState>, local: bool): FileState {
    var listed := ListedFile(env, p, f);
    var filled := if listed.hash == UNKNOWN_HASH && b.None? && local then listed.(hash := env.digest(f.content)) else listed;
    ListedState(env, filled, b)
  }

  function RemoteSnapshot(env: Env, w: World): Snapshot {
    map p | p in w.remote :: RemoteState(env, p, w.remote[p], Lookup(w.base, p), p in w.local)
  }

  /** No later file of the first `n` has the path of file `i`. */
  ghost predicate IsLast(files: seq<File>, i: nat, n: nat)
    requires i < n <= |files|
  {
    forall j :: i < j < n ==> files[j].path != files[i].path
  }

  ghost predicate Recorded(env: Env, f: File, base: Snapshot, snap: Snapshot) {
    f.path in snap && snap[f.path] == ListedState(env, f, Lookup(base, f.path))
  }

  ghost predicate IsSnapshotUpTo(env: Env, files: seq<File>, n: nat, base: Snapshot, snap: Snapshot)
    requires n <= |files|
  {
    && (forall p :: p in snap <==> Names(files[..n], p))
    && forall i :: 0 <= i < n && IsLast(files, i, n) ==> Recorded(env, files[i], base, snap)
  }

  ghost predicate IsSnapshotOf(env: Env, files: seq<File>, base: Snapshot, snap: Snapshot) {
    IsSnapshotUpTo(env, files, |files|, base, snap)
  }

  lemma RecordedLater(env: Env, files: seq<File>, n: nat, base: Snapshot, snap: Snapshot, more: Snapshot, i: nat)
    requires i < n < |files| && IsLast(files, i, n + 1)
    requires IsSnapshotUpTo(env, files, n, base, snap)
    requires forall p :: p != files[n].path && p in snap ==> p in more && more[p] == snap[p]
    ensures Recorded(env, files[i], base, more)
  {
    assert files[n].path != files[i].path;
    assert IsLast(files, i, n);
    assert Recorded(env, files[i], base, snap);
  }

  lemma SnapshotSnoc(env: Env, files: seq<File>, n: nat, base: Snapshot, snap: Snapshot, state: FileState)
    requires n < |files| && IsSnapshotUpTo(env, files, n, base, snap)
    requires state == ListedState(env, files[n], Lookup(base, files[n].path))
    ensures IsSnapshotUpTo(env, files, n + 1, base, snap[files[n].path := state])
  {
    var more := snap[files[n].path := state];
    assert files[..n + 1] == files[..n] + [files[n]];
    forall p ensures p in more <==> Names(files[..n + 1], p) { NamesSnoc(files[..n], files[n], p); }
    forall i | 0 <= i < n + 1 && IsLast(files, i, n + 1) ensures Recorded(env, files[i], base, more) {
      if i < n {
        RecordedLater(env, files, n, base, snap, more, i);
      }
    }
  }

  ghost predicate Filled(env: Env, w: World, files: seq<File>, filled: seq<File>) {
    |filled| == |files| && forall i :: 0 <= i < |files| ==> filled[i] == FillOne(env, w, files[i])
  }

  ghost predicate Agrees(env: Env, w: World, snap: Snapshot, p: Path) {
    && p in w.remote && p in snap
    && snap[p] == RemoteState(env, p, w.remote[p], Lookup(w.base, p), p in w.local)
  }

  /** What is recorded for a filled listing is the remote side of the merge, in whatever order it was listed. */
  lemma SnapshotOfListing(env: Env, w: World, files: seq<File>, filled: seq<File>, snap: Snapshot)
    requires IsListing(env, w.remote, files) && Filled(env, w, files, filled)
    requires IsSnapshotOf(env, filled, w.base, snap)
    ensures snap == RemoteSnapshot(env, w)
  {
    forall p | p in w.remote || p in snap ensures Agrees(env, w, snap, p) {
      PathIsListed(env, w, files, filled, snap, p);
      var i :| 0 <= i < |files| && files[i].path == p;
      SnapshotAt(env, w, files, filled, snap, i);
    }
    AgreeingIsEqual(env, w, snap);
  }

  lemma AgreeingIsEqual(env: Env, w: World, snap: Snapshot)
    requires forall p :: p in w.remote || p in snap ==> Agrees(env, w, snap, p)
    ensures snap == RemoteSnapshot(env, w)
  {
    assert forall p :: p in snap ==> p in w.remote;
  }

  lemma PathIsListed(env: Env, w: World, files: seq<File>, filled: seq<File>, snap: Snapshot, p: Path)
    requires IsListing(env, w.remote, files) && Filled(env, w, files, filled)
    requires IsSnapshotOf(env, filled, w.base, snap)
    requires p in w.remote || p in snap
    ensures Names(files, p)
  {
    if p in snap {
      assert filled[..|filled|] == filled;
      var i :| 0 <= i < |filled| && filled[i].path == p;
      assert filled[i] == FillOne(env, w, files[i]);
    }
  }

  lemma FilledState(env: Env, w: World, f: File)
    requires f.path in w.remote && f == ListedFile(env, f.path, w.remote[f.path])
    ensures FillOne(env, w, f).path == f.path
    ensures ListedState(env, FillOne(env, w, f), Lookup(w.base, f.path)) ==
            RemoteState(env, f.path, w.remote[f.path], Lookup(w.base, f.path), f.path in w.local)
  {
  }

  lemma FilledIsLast(env: Env, w: World, files: seq<File>, filled: seq<File>, i: nat)
    requires IsListing(env, w.remote, files) && Filled(env, w, files, filled) && i < |files|
    ensures IsLast(filled, i, |filled|)
  {
    assert filled[i] == FillOne(env, w, files[i]);
    forall j | i < j < |filled| ensures filled[j].path != filled[i].path {
      assert filled[j] == FillOne(env, w, files[j]);
      assert files[i].path != files[j].path;
    }
  }

  lemma SnapshotAt(env: Env, w: World, files: seq<File>, filled: seq<File>, snap: Snapshot, i: nat)
    requires IsListing(env, w.remote, files) && Filled(env, w, files, filled) && i < |files|
    requires IsSnapshotOf(env, filled, w.base, snap)
    ensures Agrees(env, w, snap, files[i].path)
  {
    FilledIsLast(env, w, files, filled, i);
    assert Recorded(env, filled[i], w.base, snap);
    FilledState(env, w, files[i]);
    assert filled[i] == FillOne(env, w, files[i]);
  }

  // ---------- one run ----------

  ghost predicate Planned(env: Env, w: World, jobs: seq<Job>) {
    IsPlan(ActsOf(jobs), ScanSnapshot(env, w), RemoteSnapshot(env, w), w.base, env.opener)
  }

  /** The phases in the program's order; `clock(i)` is read while action `i` is applied. */
  method RunSync(e: Engine, clock: nat -> Tick) returns (ok: bool, ghost jobs: seq<Job>)
    modifies e
    ensures Planned(e.env, old(e.Now()), jobs)
    ensures forall i :: 0 <= i < |jobs| ==> jobs[i].tick == clock(i)
    ensures ok == ApplyAll(e.env, old(e.Now()), jobs).ok
    ensures e.Wrote(old(e.Now()), old(e.log), ApplyAll(e.env, old(e.Now()), jobs).writes)
  {
    ghost var w := e.Now();
    var listed := List(e.env, e.remote);
    var files := new File[|listed|](i requires 0 <= i < |listed| => listed[i]);
    assert files[..] == listed;
    FillUnknownRemoteHashes(e.env, World(e.local, e.remote, e.base), files);
    var remoteSnap := RemoteFilesToSnapshot(e.env, files[..], e.base);
    SnapshotOfListing(e.env, w, listed, files[..], remoteSnap);
    var local := Scan(e.env, e.local, e.base);
    assert local == ScanSnapshot(e.env, World(e.local, e.remote, e.base));
    var actions := MergeEngine.Merge(local, remoteSnap, e.base, e.env.opener);
    var todo := seq(|actions|, i requires 0 <= i < |actions| => Job(actions[i], clock(i)));
    assert ActsOf(todo) == actions;
    jobs := todo;
    ok := e.ApplyActions(todo);
  }
}
