/** The three-way merge: one decision per path of three snapshots. */
module MergeEngine {
  import opened Wrappers
  import opened Ordering
  import opened VersionVectors

  type Path = string

  /** A 32-byte content digest, read as a number. */
  type Hash = int

  /** The all-zero digest: the transport could not name the content. */
  const UNKNOWN_HASH: Hash := 0

  datatype FileState = FileState(
    path: Path,
    hash: Hash,
    size: int,
    modTime: int,
    version: VersionVector,
    remoteRev: string,
    device: DeviceID)

  type Snapshot = map<Path, FileState>

  datatype ActionKind = NoAction | Push | Pull | Conflict | Delete | MergeHOTP

  datatype Action = Action(
    path: Path,
    kind: ActionKind,
    local: Option<FileState>,
    remote: Option<FileState>,
    base: Option<FileState>,
    mergedVersion: Option<VersionVector>,
    mergedCounter: nat)

  /** Whether two diverged files differ only in an HOTP counter is decided by
    * decrypting both; the verdict is a parameter, a merged counter when they do. */
  datatype Opener = NoOpener | Opener(hotp: (Path, Path) -> Option<nat>)

  // ---------- the decision for one path ----------

  function Decide(path: Path, local: Option<FileState>, remote: Option<FileState>, base: Option<FileState>,
                  kind: ActionKind, version: Option<VersionVector>): Action
  {
    Action(path, kind, local, remote, base, version, 0)
  }

  function MergeFile(path: Path, local: Option<FileState>, remote: Option<FileState>,
                     base: Option<FileState>, opener: Opener): Action
  {
    match (local, remote, base)
    case (Some(l), Some(r), Some(b)) => MergeExisting(path, l, r, b, opener)
    case (Some(l), None, None) => Decide(path, local, remote, base, Push, Some(l.version))
    case (None, Some(r), None) => Decide(path, local, remote, base, Pull, Some(r.version))
    case (None, Some(r), Some(b)) =>
      if SameHistory(r.version, b.version) then Decide(path, local, remote, base, Delete, None)
      else Decide(path, local, remote, base, Pull, Some(r.version))
    case (Some(l), None, Some(b)) =>
      if SameHistory(l.version, b.version) then Decide(path, local, remote, base, Delete, None)
      else Decide(path, local, remote, base, Push, Some(l.version))
    case (None, None, _) => Decide(path, local, remote, base, Delete, None)
    case (Some(l), Some(r), None) =>
      var joined := Some(Join(l.version, r.version));
      if l.hash == r.hash && l.hash != UNKNOWN_HASH then Decide(path, local, remote, base, NoAction, joined)
      else Decide(path, local, remote, base, Conflict, joined)
  }

  function MergeExisting(path: Path, l: FileState, r: FileState, b: FileState, opener: Opener): Action {
    var joined := Some(Join(l.version, r.version));
    if SameHistory(l.version, r.version) then
      Decide(path, Some(l), Some(r), Some(b), NoAction, Some(l.version))
    else if StrictlyAfter(l.version, r.version) then
      Decide(path, Some(l), Some(r), Some(b), Push, Some(l.version))
    else if StrictlyAfter(r.version, l.version) then
      Decide(path, Some(l), Some(r), Some(b), Pull, Some(r.version))
    else if l.hash == r.hash then
      Decide(path, Some(l), Some(r), Some(b), NoAction, joined)
    else
      match TryHOTPMerge(l, r, opener)
      case Some(counter) => Action(path, MergeHOTP, Some(l), Some(r), Some(b), joined, counter)
      case None => Decide(path, Some(l), Some(r), Some(b), Conflict, joined)
  }

  function TryHOTPMerge(l: FileState, r: FileState, opener: Opener): Option<nat> {
    match opener
    case NoOpener => None
    case Opener(hotp) => hotp(l.path, r.path)
  }

  // ---------- the plan for all paths ----------

  function Lookup(s: Snapshot, p: Path): Option<FileState> {
    if p in s then Some(s[p]) else None
  }

  function ActionFor(p: Path, local: Snapshot, remote: Snapshot, base: Snapshot, opener: Opener): Action {
    MergeFile(p, Lookup(local, p), Lookup(remote, p), Lookup(base, p), opener)
  }

  predicate ActionLess(a: Action, b: Action) {
    StringLess(a.path, b.path)
  }

  lemma ActionOrder()
    ensures StrictOrder(ActionLess)
  {
    StringOrder();
  }

  function Paths(local: Snapshot, remote: Snapshot, base: Snapshot): set<Path> {
    local.Keys + remote.Keys + base.Keys
  }

  /** Exactly one action per path of the three snapshots, in strictly increasing order. */
  ghost predicate IsPlan(actions: seq<Action>, local: Snapshot, remote: Snapshot, base: Snapshot, opener: Opener) {
    && SortedBy(ActionLess, actions)
    && forall a :: a in actions <==>
         a.path in Paths(local, remote, base) && a == ActionFor(a.path, local, remote, base, opener)
  }

  method Merge(local: Snapshot, remote: Snapshot, base: Snapshot, opener: Opener) returns (actions: seq<Action>)
    ensures IsPlan(actions, local, remote, base, opener)
  {
    var paths := Paths(local, remote, base);
    var found: seq<Action> := [];
    var todo := paths;
    while todo != {}
      invariant todo <= paths
      invariant forall a :: a in found <==>
                  a.path in paths - todo && a == ActionFor(a.path, local, remote, base, opener)
      invariant forall i, j :: 0 <= i < j < |found| ==> found[i].path != found[j].path
    {
      var p :| p in todo;
      var act := ActionFor(p, local, remote, base, opener);
      found := found + [act];
      todo := todo - {p};
    }
    StringOrder();
    ActionOrder();
    actions := Sort(ActionLess, found);
  }

  /** The plan does not depend on the order in which the maps were walked. */
  lemma PlanIsUnique(a: seq<Action>, b: seq<Action>, local: Snapshot, remote: Snapshot, base: Snapshot, opener: Opener)
    requires IsPlan(a, local, remote, base, opener) && IsPlan(b, local, remote, base, opener)
    ensures a == b
  {
    ActionOrder();
    SortedUnique(ActionLess, a, b);
  }

  // ---------- what the decisions mean ----------

  /** The versions of the copies that exist. */
  function PresentVersions(local: Option<FileState>, remote: Option<FileState>): seq<VersionVector> {
    match (local, remote)
    case (None, None) => []
    case (Some(l), None) => [l.version]
    case (None, Some(r)) => [r.version]
    case (Some(l), Some(r)) => [l.version, r.version]
  }

  /** Except for a deletion, the version to record is the least upper bound of the
    * versions present, so it forgets no edit and invents none. */
  lemma MergedVersionIsLeastUpperBound(p: Path, local: Option<FileState>, remote: Option<FileState>,
                                       base: Option<FileState>, opener: Opener)
    ensures var a := MergeFile(p, local, remote, base, opener);
            && (a.kind == Delete <==> a.mergedVersion.None?)
            && (a.kind != Delete ==> IsLeastUpperBound(a.mergedVersion.value, PresentVersions(local, remote)))
  {
    match (local, remote)
    case (None, None) =>
    case (Some(l), None) => GreaterIsLeastUpperBound(l.version, l.version);
    case (None, Some(r)) => GreaterIsLeastUpperBound(r.version, r.version);
    case (Some(l), Some(r)) => MergedVersionOfBoth(p, l, r, base, opener);
  }

  lemma MergedVersionOfBoth(p: Path, l: FileState, r: FileState, base: Option<FileState>, opener: Opener)
    ensures var a := MergeFile(p, Some(l), Some(r), base, opener);
            a.kind != Delete && a.mergedVersion.Some? && IsLeastUpperBound(a.mergedVersion.value, [l.version, r.version])
  {
    JoinIsLeastUpperBound(l.version, r.version);
    if Leq(r.version, l.version) {
      GreaterIsLeastUpperBound(l.version, r.version);
    }
    if Leq(l.version, r.version) {
      GreaterIsLeastUpperBound(r.version, l.version);
    }
  }

  /** A deletion is decided exactly when no copy carries an edit the base lacks: at
    * most one copy is left, and it has the base's own history. */
  lemma DeletesOnlyUneditedFiles(p: Path, local: Option<FileState>, remote: Option<FileState>,
                                 base: Option<FileState>, opener: Opener)
    ensures MergeFile(p, local, remote, base, opener).kind == Delete <==>
              && (local.None? || remote.None?)
              && (local.Some? ==> base.Some? && SameHistory(local.value.version, base.value.version))
              && (remote.Some? ==> base.Some? && SameHistory(remote.value.version, base.value.version))
  {
  }

  /** With a base, only histories that diverged with different contents conflict. */
  lemma ConflictMeansDivergence(p: Path, l: FileState, r: FileState, b: FileState)
    ensures MergeFile(p, Some(l), Some(r), Some(b), NoOpener).kind == Conflict <==>
              Diverged(l.version, r.version) && l.hash != r.hash
  {
  }

  function Mirror(k: ActionKind): ActionKind {
    match k
    case Push => Pull
    case Pull => Push
    case _ => k
  }

  lemma MergeFileMirrors(p: Path, local: Option<FileState>, remote: Option<FileState>, base: Option<FileState>)
    ensures MergeFile(p, remote, local, base, NoOpener).kind == Mirror(MergeFile(p, local, remote, base, NoOpener).kind)
  {
  }

  function PathsOf(actions: seq<Action>): seq<Path> {
    seq(|actions|, i requires 0 <= i < |actions| => actions[i].path)
  }

  /** One action per path: the paths of a plan are the paths of the snapshots, sorted. */
  lemma PlanPaths(actions: seq<Action>, local: Snapshot, remote: Snapshot, base: Snapshot, opener: Opener)
    requires IsPlan(actions, local, remote, base, opener)
    ensures SortedBy(StringLess, PathsOf(actions))
    ensures forall p :: p in PathsOf(actions) <==> p in Paths(local, remote, base)
    ensures forall i :: 0 <= i < |actions| ==> actions[i] == ActionFor(actions[i].path, local, remote, base, opener)
  {
    forall i | 0 <= i < |actions|
      ensures actions[i] == ActionFor(actions[i].path, local, remote, base, opener)
      ensures actions[i].path in Paths(local, remote, base)
    {
      assert actions[i] in actions;
    }
    forall p | p in Paths(local, remote, base) ensures p in PathsOf(actions) {
      var _ := PlanHas(actions, local, remote, base, opener, p);
    }
  }

  lemma PlanHas(actions: seq<Action>, local: Snapshot, remote: Snapshot, base: Snapshot, opener: Opener, p: Path) returns (i: nat)
    requires IsPlan(actions, local, remote, base, opener) && p in Paths(local, remote, base)
    ensures i < |actions| && actions[i] == ActionFor(p, local, remote, base, opener) && actions[i].path == p
    ensures p in PathsOf(actions)
  {
    var m := ActionFor(p, local, remote, base, opener);
    assert m.path == p;
    assert m in actions;
    i :| 0 <= i < |actions| && actions[i] == m;
    assert PathsOf(actions)[i] == p;
  }

  /** Swapping the two sides swaps Push with Pull, path by path, and nothing else. */
  lemma MergeMirrors(actions: seq<Action>, swapped: seq<Action>, local: Snapshot, remote: Snapshot, base: Snapshot)
    requires IsPlan(actions, local, remote, base, NoOpener)
    requires IsPlan(swapped, remote, local, base, NoOpener)
    ensures |actions| == |swapped|
    ensures forall i :: 0 <= i < |actions| ==>
              swapped[i].path == actions[i].path && swapped[i].kind == Mirror(actions[i].kind)
  {
    PlanPaths(actions, local, remote, base, NoOpener);
    PlanPaths(swapped, remote, local, base, NoOpener);
    StringOrder();
    SortedUnique(StringLess, PathsOf(actions), PathsOf(swapped));
    assert |PathsOf(actions)| == |PathsOf(swapped)|;
    forall i | 0 <= i < |actions|
      ensures swapped[i].path == actions[i].path && swapped[i].kind == Mirror(actions[i].kind)
    {
      var p := actions[i].path;
      assert PathsOf(actions)[i] == PathsOf(swapped)[i];
      MergeFileMirrors(p, Lookup(local, p), Lookup(remote, p), Lookup(base, p));
    }
  }
}
