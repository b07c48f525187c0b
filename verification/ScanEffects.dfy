/** What a scan and a listing say of the contents they stand for: recorded digests are digests, and
  * so the merge knows equal contents for equal.
  */
module ScanEffects {
  import opened Wrappers
  import opened VersionVectors
  import opened MergeEngine
  import opened SyncEngine
  import opened Pipeline
  import opened Stability
  import opened Unscanned
  import Strings

  /** A file whose size and time are not its base entry's is hashed, and described as it is. */
  lemma ScannedAsItIs(env: Env, p: Path, f: LocalFile, b: Option<FileState>)
    requires !(b.Some? && b.value.size == |f.content| && b.value.modTime == f.modTime)
    ensures var s := ScanFile(env, p, f, b);
      s.hash == env.digest(f.content) && s.size == |f.content| && s.modTime == f.modTime
  {
  }

  /** Then a new file has one edit of this device, and no revision yet. */
  lemma NewFileIsOneEdit(env: Env, p: Path, f: LocalFile)
    ensures var s := ScanFile(env, p, f, None);
      s.path == p && s.version == map[env.device := 1] && s.device == env.device && s.remoteRev == ""
  {
  }

  /** And a known one its base's edits, with one more of this device if the content is new. */
  lemma KnownFileAddsEdits(env: Env, p: Path, f: LocalFile, b: FileState)
    ensures var v := ScanFile(env, p, f, Some(b)).version;
      forall d :: At(v, d) == At(b.version, d) + if d == env.device && Edited(env, f, b) then 1 else 0
  {
  }

  /** The entry's digest is that of the content, if it is meant to describe this file at all. */
  predicate Describes(env: Env, s: FileState, f: LocalFile) {
    s.size == |f.content| && s.modTime == f.modTime ==> s.hash == env.digest(f.content)
  }

  lemma ScanIsTrue(env: Env, p: Path, f: LocalFile, b: Option<FileState>)
    requires b.Some? ==> Describes(env, b.value, f)
    ensures ScanFile(env, p, f, b).hash == env.digest(f.content)
  {
  }

  /** Once a scanned state is recorded, a touch of the file adds no edit. */
  lemma TouchIsNoEdit(env: Env, p: Path, f: LocalFile, b: Option<FileState>, touched: LocalFile)
    requires (b.Some? ==> Describes(env, b.value, f)) && touched.content == f.content
    ensures var s := ScanFile(env, p, f, b);
      && !Edited(env, touched, s)
      && SameHistory(ScanFile(env, p, touched, Some(s)).version, s.version)
      && ScanFile(env, p, touched, Some(s)).hash == s.hash
  {
    ScanIsTrue(env, p, f, b);
  }

  // ---------- equal contents without a base ----------

  /** A file on both sides that the base does not know is in agreement exactly when the contents have
    * one digest, and a known one, and in conflict otherwise, whatever the listing could tell.
    */
  lemma AgreementIsByContent(env: Env, p: Path, v: View)
    requires Tracked(p) && v.l.Some? && v.r.Some? && v.b.None?
    ensures PathAction(env, p, v).kind == NoAction <==>
              env.digest(v.l.value.content) == env.digest(v.r.value.content) != UNKNOWN_HASH
    ensures PathAction(env, p, v).kind == Conflict <==>
              !(env.digest(v.l.value.content) == env.digest(v.r.value.content) != UNKNOWN_HASH)
  {
    PathActionKinds(env, p, v);
  }

  /** So a store copied to a second device merges without a conflict. */
  lemma CopiedStoreAgrees(env: Env, p: Path, v: View)
    requires Tracked(p) && v.l.Some? && v.r.Some? && v.b.None?
    requires v.l.value.content == v.r.value.content && env.digest(v.l.value.content) != UNKNOWN_HASH
    ensures PathAction(env, p, v).kind == NoAction
  {
    AgreementIsByContent(env, p, v);
  }

  // ---------- the remote side ----------

  /** A remote state describes the listed file; its digest is known when the listing names contents,
    * and when the file was fetched for being on both sides without a base.
    */
  lemma RemoteAsListed(env: Env, w: World, p: Path)
    requires p in w.remote
    ensures p in RemoteSnapshot(env, w)
    ensures var s, c := RemoteSnapshot(env, w)[p], w.remote[p].content;
      && s.path == p && s.size == |c| && s.modTime == w.remote[p].modTime && s.remoteRev == env.rev(c) && s.device == env.device
      && s.hash == (if env.listsHash || (p !in w.base && p in w.local) then env.digest(c) else UNKNOWN_HASH)
      && s.version == if p in w.base then w.base[p].version else map[env.device := 1]
  {
  }

  // ---------- which files ----------

  /** A hidden component anywhere takes a path out of the scan. */
  lemma HiddenComponentIsUntracked(p: Path, i: nat)
    requires i < |Strings.Split(p, '/')| && Strings.HasPrefix(Strings.Split(p, '/')[i], ".")
    ensures !Tracked(p)
  {
  }

  /** So does a name of no entry and no container. */
  lemma OtherFileIsUntracked(dir: string, name: string, dot: nat)
    requires '/' !in name && dot < |name| && name[dot] == '.' && (forall i :: dot < i < |name| ==> name[i] != '.')
    requires name[dot..] != ".gpg" && name[dot..] != ".age" && name !in CONTAINERS
    ensures !Tracked(dir + "/" + name) && !Tracked(name)
  {
    Strings.LastIndexUnique(name, '.', dot);
    LastComponent(dir, name);
  }

  lemma LastComponent(dir: string, name: string)
    requires '/' !in name
    ensures var parts := Strings.Split(dir + "/" + name, '/'); parts[|parts| - 1] == name && |parts| >= 2
    ensures Strings.Split(name, '/') == [name]
  {
    Strings.SplitPiece(name, '/', "");
    Strings.SplitConcat(dir, '/', name);
    assert dir + "/" + name == dir + ['/'] + name;
  }

  /** A tomb's container is scanned whatever its extension. */
  lemma ContainerIsTracked(name: string)
    requires name in {"store.coffin.age", "store.luks", "store.luks.key.age", "store.sparsebundle", "store.sparsebundle.key.age"}
    ensures name in CONTAINERS
    ensures '/' !in name && !Strings.HasPrefix(name, ".") ==> Tracked(name)
  {
    if '/' !in name {
      LastComponent("", name);
    }
  }
}
