/** The tree of a password store.  An entry is a file of one of two backends, and the
  * nearest recipients file above it says whom it must be encrypted to.  Names are given as
  * cleaned segments below the store root.
  */
module StoreTree {
  import opened Wrappers
  import opened Runs
  import Strings

  type Name = seq<string>
  type Recipient = string

  /** The two formats. An entry kept in both is read from the first. */
  datatype Backend = Gpg | Age

  /** An entry file, or with a folder's name the recipients file of that folder. */
  datatype FileKey = FileKey(name: Name, backend: Backend)

  /** A ciphertext is what it decrypts to and whom it was encrypted to. */
  datatype Sealed = Sealed(plain: string, to: seq<Recipient>)

  datatype Tree = Tree(files: map<FileKey, Sealed>, recipients: map<FileKey, seq<Recipient>>, dirs: set<Name>)

  function Parent(n: Name): Name {
    if n == [] then [] else n[..|n| - 1]
  }

  function Base(n: Name): Name {
    if n == [] then [] else n[|n| - 1..]
  }

  function Other(b: Backend): Backend {
    if b == Gpg then Age else Gpg
  }

  // ---------- lookups ----------

  /** Which file holds an entry: the first backend that has one. */
  function Find(t: Tree, n: Name): Option<Backend> {
    if FileKey(n, Gpg) in t.files then Some(Gpg)
    else if FileKey(n, Age) in t.files then Some(Age)
    else None
  }

  function Get(t: Tree, n: Name): Option<string> {
    match Find(t, n)
    case None => None
    case Some(b) => Some(t.files[FileKey(n, b)].plain)
  }

  /** The recipients for new ciphertexts in a folder: the nearest file upwards decides,
    * and one that lists nobody is an error. */
  function Governing(recipients: map<FileKey, seq<Recipient>>, dir: Name, b: Backend): Option<seq<Recipient>> {
    if FileKey(dir, b) in recipients then
      (if recipients[FileKey(dir, b)] == [] then None else Some(recipients[FileKey(dir, b)]))
    else if dir == [] then None
    else Governing(recipients, Parent(dir), b)
  }

  method ParseRecipients(recipients: map<FileKey, seq<Recipient>>, start: Name, b: Backend) returns (r: Option<seq<Recipient>>)
    ensures r == Governing(recipients, start, b)
  {
    var dir := start;
    while FileKey(dir, b) !in recipients
      invariant Governing(recipients, dir, b) == Governing(recipients, start, b)
      decreases |dir|
    {
      if dir == [] {
        return None;
      }
      dir := Parent(dir);
    }
    var listed := recipients[FileKey(dir, b)];
    return if listed == [] then None else Some(listed);
  }

  /** The file recipients of an entry are those its folder asks for, as a multiset. */
  predicate Governed(t: Tree, k: FileKey)
    requires k in t.files
  {
    var r := Governing(t.recipients, Parent(k.name), k.backend);
    r.Some? && multiset(t.files[k].to) == multiset(r.value)
  }

  // ---------- listings ----------

  predicate Hidden(seg: string) {
    Strings.HasPrefix(seg, ".")
  }

  /** Strictly beneath a folder, with no hidden component on the way. */
  predicate InScope(sub: Name, n: Name) {
    sub < n && forall i :: |sub| <= i < |n| ==> !Hidden(n[i])
  }

  predicate Listed(n: Name) {
    InScope([], n)
  }

  /** No component is hidden; unlike a listed name it may be the root's. */
  predicate Shown(n: Name) {
    forall i :: 0 <= i < |n| ==> !Hidden(n[i])
  }

  /** What walking a folder reports: every entry file in its scope once, in some order. */
  ghost predicate IsListing(t: Tree, sub: Name, es: seq<FileKey>) {
    && (forall i, j :: 0 <= i < j < |es| ==> es[i] != es[j])
    && (forall k :: k in es <==> k in t.files && InScope(sub, k.name))
  }

  method Entries(t: Tree, sub: Name) returns (es: seq<FileKey>)
    ensures IsListing(t, sub, es)
  {
    es := [];
    var todo := t.files.Keys;
    while todo != {}
      invariant todo <= t.files.Keys
      invariant forall i, j :: 0 <= i < j < |es| ==> es[i] != es[j]
      invariant forall k :: k in es <==> k in t.files && k !in todo && InScope(sub, k.name)
    {
      var k :| k in todo;
      todo := todo - {k};
      if InScope(sub, k.name) {
        es := es + [k];
      }
    }
  }

  // ---------- single writes ----------

  datatype Write =
    | PutFile(key: FileKey, file: Sealed)
    | DropFile(key: FileKey)
    | MoveFile(from: FileKey, to: FileKey)
    | PutRecipients(dir: FileKey, rcp: seq<Recipient>)
    | MakeDir(name: Name)
    | RemoveTree(name: Name)

  function Ancestors(n: Name): set<Name> {
    set i | 0 <= i <= |n| :: n[..i]
  }

  function WithDir(t: Tree, dir: Name): Tree {
    t.(dirs := t.dirs + Ancestors(dir))
  }

  /** Something other than the folder itself is in the folder. */
  predicate Occupied(t: Tree, d: Name) {
    || (exists k :: k in t.files && Parent(k.name) == d)
    || (exists k :: k in t.recipients && k.name == d)
    || (exists e :: e in t.dirs && e != [] && Parent(e) == d)
  }

  /** Removes a folder that has become empty, then its parents, up to the root. */
  function Prune(t: Tree, d: Name): Tree
    decreases |d|
  {
    if d == [] || d !in t.dirs || Occupied(t, d) then t
    else Prune(t.(dirs := t.dirs - {d}), Parent(d))
  }

  function Exec(t: Tree, x: Write): Tree {
    match x
    case PutFile(k, f) => WithDir(t, Parent(k.name)).(files := t.files[k := f])
    case DropFile(k) => Prune(t.(files := t.files - {k}), Parent(k.name))
    case MoveFile(from, to) =>
      if from !in t.files then t
      else Prune(WithDir(t, Parent(to.name)).(files := (t.files - {from})[to := t.files[from]]), Parent(from.name))
    case PutRecipients(d, rcp) => t.(recipients := t.recipients[d := rcp])
    case MakeDir(d) => WithDir(t, d)
    case RemoveTree(d) =>
      Tree(map k | k in t.files && !(d < k.name) :: t.files[k],
           map k | k in t.recipients && !(d <= k.name) :: t.recipients[k],
           set e | e in t.dirs && !(d <= e))
  }

  function Replay(t: Tree, writes: seq<Write>): Tree {
    After(Exec, t, writes)
  }

  /** Pruning touches folders only. */
  lemma {:induction false} PruneKeeps(t: Tree, d: Name)
    ensures Prune(t, d).files == t.files && Prune(t, d).recipients == t.recipients
    decreases |d|
  {
    if !(d == [] || d !in t.dirs || Occupied(t, d)) {
      PruneKeeps(t.(dirs := t.dirs - {d}), Parent(d));
    }
  }

  /** What a write does to the entry files. */
  function FilesAfter(files: map<FileKey, Sealed>, x: Write): map<FileKey, Sealed> {
    match x
    case PutFile(k, f) => files[k := f]
    case DropFile(k) => files - {k}
    case MoveFile(from, to) => if from !in files then files else (files - {from})[to := files[from]]
    case PutRecipients(_, _) => files
    case MakeDir(_) => files
    case RemoveTree(d) => map k | k in files && !(d < k.name) :: files[k]
  }

  lemma ExecFiles(t: Tree, x: Write)
    ensures Exec(t, x).files == FilesAfter(t.files, x)
    ensures !x.PutRecipients? && !x.RemoveTree? ==> Exec(t, x).recipients == t.recipients
  {
    match x
    case DropFile(k) => PruneKeeps(t.(files := t.files - {k}), Parent(k.name));
    case MoveFile(from, to) =>
      if from in t.files {
        PruneKeeps(WithDir(t, Parent(to.name)).(files := (t.files - {from})[to := t.files[from]]), Parent(from.name));
      }
    case _ =>
  }

  // ---------- the operations ----------

  function BackendForNew(t: Tree, def: Backend, n: Name): Option<Backend> {
    if n == [] then None
    else if Governing(t.recipients, Parent(n), def).Some? then Some(def)
    else if Governing(t.recipients, Parent(n), Other(def)).Some? then Some(Other(def))
    else None
  }

  /** An existing entry keeps its backend. */
  function Target(t: Tree, def: Backend, n: Name): Option<Backend> {
    if Find(t, n).Some? then Find(t, n) else BackendForNew(t, def, n)
  }

  function SetWrites(t: Tree, def: Backend, n: Name, plain: string): Outcome<Write> {
    match Target(t, def, n)
    case None => Outcome([], false)
    case Some(b) => WriteWith(t, n, plain, b)
  }

  /** Encrypts for whoever governs the destination. */
  function WriteWith(t: Tree, n: Name, plain: string, b: Backend): Outcome<Write> {
    match Governing(t.recipients, Parent(n), b)
    case None => Outcome([], false)
    case Some(r) => Outcome([PutFile(FileKey(n, b), Sealed(plain, r))], true)
  }

  function RemoveWrites(t: Tree, n: Name): Outcome<Write> {
    match Find(t, n)
    case None => Outcome([], false)
    case Some(b) => Outcome([DropFile(FileKey(n, b))], true)
  }

  function RemoveDirWrites(n: Name): Outcome<Write> {
    if n == [] then Outcome([], false) else Outcome([RemoveTree(n)], true)
  }

  function InitWrites(def: Backend, sub: Name, rcp: seq<Recipient>): Outcome<Write> {
    if rcp == [] then Outcome([MakeDir(sub)], false)
    else Outcome([MakeDir(sub), PutRecipients(FileKey(sub, def), rcp)], true)
  }

  /** One entry of a bulk re-encryption: rewrite it, then drop the old format. */
  function ReencryptOne(t: Tree, k: FileKey, to: Option<Backend>): Outcome<Write> {
    match Get(t, k.name)
    case None => Outcome([], false)
    case Some(plain) =>
      var target := if to.Some? then to.value else k.backend;
      var put := WriteWith(t, k.name, plain, target);
      if !put.ok || target == k.backend then put
      else Outcome(put.writes + (if k in t.files then [DropFile(k)] else []), k in t.files)
  }

  function SameRecipients(t: Tree, b: Backend, x: Name, y: Name): Option<bool> {
    if x == y then Some(true)
    else match (Governing(t.recipients, x, b), Governing(t.recipients, y, b))
      case (Some(r), Some(s)) => Some(multiset(r) == multiset(s))
      case _ => None
  }

  /** Moves or copies one entry: as it is when the recipients agree, re-encrypted else. */
  function TransferEntry(t: Tree, from: Name, to: Name, remove: bool): Outcome<Write> {
    match Find(t, from)
    case None => Outcome([], false)
    case Some(b) =>
      var src, dst := FileKey(from, b), FileKey(to, b);
      match SameRecipients(t, b, Parent(from), Parent(to))
      case None => Outcome([], false)
      case Some(true) => Outcome([if remove then MoveFile(src, dst) else PutFile(dst, t.files[src])], true)
      case Some(false) =>
        var put := WriteWith(t, to, t.files[src].plain, b);
        if put.ok && remove then Outcome(put.writes + [DropFile(src)], true) else put
  }

  /** A destination that is a folder, or was written with a trailing slash (`into`),
    * means the source's own name inside it. */
  function ResolveDest(t: Tree, from: Name, to: Name, into: bool): Name {
    if into || to in t.dirs then to + Base(from) else to
  }

  function ReencryptStep(to: Option<Backend>): (Tree, FileKey) -> Outcome<Write> {
    (t: Tree, k: FileKey) => ReencryptOne(t, k, to)
  }

  /** A bulk re-encryption of the listed files, in the order they were listed. */
  function ReencryptAll(t: Tree, to: Option<Backend>, es: seq<FileKey>): Outcome<Write> {
    RunAll(Exec, ReencryptStep(to), t, es)
  }

  function Moved(from: Name, dest: Name, n: Name): Name {
    if from <= n then dest + n[|from|..] else n
  }

  function TransferStep(from: Name, dest: Name, remove: bool): (Tree, FileKey) -> Outcome<Write> {
    (t: Tree, k: FileKey) => TransferEntry(t, k.name, Moved(from, dest, k.name), remove)
  }

  /** The entries of a folder one by one, then the folder itself when it is a move. */
  function TransferDir(t: Tree, from: Name, dest: Name, remove: bool, es: seq<FileKey>): Outcome<Write> {
    var moved := RunAll(Exec, TransferStep(from, dest, remove), t, es);
    if moved.ok && remove then Outcome(moved.writes + RemoveDirWrites(from).writes, RemoveDirWrites(from).ok) else moved
  }
}
