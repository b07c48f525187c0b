/** Recipient governance is an invariant of the store: every listed entry is encrypted to
  * the recipients its nearest recipients file asks for.  It survives every operation, and
  * an interruption at any write of one; changing the recipients of a folder breaks it only
  * beneath that folder, and re-encrypting the folder restores it.
  */
module Governance {
  import opened Wrappers
  import opened Runs
  import opened StoreTree
  import opened Reencryption

  // ---------- the invariant ----------

  ghost predicate GovernedIn(t: Tree, within: Name -> bool) {
    forall k :: k in t.files && within(k.name) ==> Governed(t, k)
  }

  ghost predicate AllGoverned(t: Tree) {
    GovernedIn(t, n => true)
  }

  ghost predicate ListedGoverned(t: Tree) {
    GovernedIn(t, Listed)
  }

  // ---------- single writes ----------

  lemma PutKeeps(t: Tree, within: Name -> bool, k: FileKey, f: Sealed)
    requires GovernedIn(t, within)
    requires within(k.name) ==> Governing(t.recipients, Parent(k.name), k.backend).Some?
                                && multiset(f.to) == multiset(Governing(t.recipients, Parent(k.name), k.backend).value)
    ensures GovernedIn(Exec(t, PutFile(k, f)), within)
  {
    ExecFiles(t, PutFile(k, f));
  }

  lemma DropKeeps(t: Tree, within: Name -> bool, k: FileKey)
    requires GovernedIn(t, within)
    ensures GovernedIn(Exec(t, DropFile(k)), within)
  {
    ExecFiles(t, DropFile(k));
  }

  /** A ciphertext may move as it is when both folders ask for the same recipients. */
  lemma MoveKeeps(t: Tree, within: Name -> bool, from: FileKey, to: FileKey)
    requires GovernedIn(t, within) && from in t.files && from.backend == to.backend
    requires within(to.name) ==> within(from.name)
    requires SameRecipients(t, to.backend, Parent(from.name), Parent(to.name)) == Some(true)
    ensures GovernedIn(Exec(t, MoveFile(from, to)), within)
  {
    ExecFiles(t, MoveFile(from, to));
  }

  /** Nothing outside a removed folder was governed from inside it. */
  lemma {:induction false} GoverningOutside(t: Tree, d: Name, dir: Name, b: Backend)
    requires !(d <= dir)
    ensures Governing(Exec(t, RemoveTree(d)).recipients, dir, b) == Governing(t.recipients, dir, b)
    decreases |dir|
  {
    if FileKey(dir, b) !in t.recipients && dir != [] {
      assert Parent(dir) <= dir;
      GoverningOutside(t, d, Parent(dir), b);
    }
  }

  lemma BeneathParent(d: Name, n: Name)
    requires d != [] || n != []
    ensures d <= Parent(n) <==> d < n
  {
    if n != [] {
      assert Parent(n) <= n && |Parent(n)| < |n|;
    }
  }

  lemma RemoveTreeKeeps(t: Tree, within: Name -> bool, d: Name)
    requires GovernedIn(t, within) && d != []
    ensures GovernedIn(Exec(t, RemoveTree(d)), within)
  {
    var x := Exec(t, RemoveTree(d));
    forall k | k in x.files && within(k.name) ensures Governed(x, k) {
      assert k in t.files && !(d < k.name);
      BeneathParent(d, k.name);
      GoverningOutside(t, d, Parent(k.name), k.backend);
    }
  }

  // ---------- one entry at a time ----------

  lemma SetKeeps(t: Tree, within: Name -> bool, def: Backend, name: Name, plain: string, n: nat)
    requires GovernedIn(t, within) && n <= |SetWrites(t, def, name, plain).writes|
    ensures GovernedIn(Replay(t, SetWrites(t, def, name, plain).writes[..n]), within)
  {
    var writes := SetWrites(t, def, name, plain).writes;
    AfterPrefix(Exec, t, writes, n);
    if n == 1 {
      PutKeeps(t, within, writes[0].key, writes[0].file);
    }
  }

  lemma TransferEntryKeeps(t: Tree, within: Name -> bool, from: Name, to: Name, remove: bool, n: nat)
    requires GovernedIn(t, within) && (within(to) ==> within(from))
    requires n <= |TransferEntry(t, from, to, remove).writes|
    ensures GovernedIn(Replay(t, TransferEntry(t, from, to, remove).writes[..n]), within)
  {
    var writes := TransferEntry(t, from, to, remove).writes;
    AfterPrefix(Exec, t, writes, n);
    if n >= 1 {
      match writes[0]
      case MoveFile(src, dst) => MoveKeeps(t, within, src, dst);
      case PutFile(k, f) =>
        if within(to) {
          CopyIsGoverned(t, from, to, remove);
        }
        PutKeeps(t, within, k, f);
    }
    if n == 2 {
      DropKeeps(Exec(t, writes[0]), within, writes[1].key);
    }
  }

  /** What a transfer writes at its destination is encrypted to whom the destination asks. */
  lemma CopyIsGoverned(t: Tree, from: Name, to: Name, remove: bool)
    requires var o := TransferEntry(t, from, to, remove); o.writes != [] && o.writes[0].PutFile?
    requires forall b :: FileKey(from, b) in t.files ==> Governed(t, FileKey(from, b))
    ensures var x := TransferEntry(t, from, to, remove).writes[0];
            var r := Governing(t.recipients, Parent(to), x.key.backend);
            x.key.name == to && r.Some? && multiset(x.file.to) == multiset(r.value)
  {
    assert Governed(t, FileKey(from, Find(t, from).value));
  }

  lemma ReencryptOneKeeps(t: Tree, within: Name -> bool, k: FileKey, to: Option<Backend>, n: nat)
    requires GovernedIn(t, within) && n <= |ReencryptOne(t, k, to).writes|
    ensures GovernedIn(Replay(t, ReencryptOne(t, k, to).writes[..n]), within)
  {
    var writes := ReencryptOne(t, k, to).writes;
    AfterPrefix(Exec, t, writes, n);
    if n >= 1 {
      PutKeeps(t, within, writes[0].key, writes[0].file);
    }
    if n == 2 {
      DropKeeps(Exec(t, writes[0]), within, writes[1].key);
    }
  }

  // ---------- bulk operations ----------

  lemma ReencryptKeeps(t: Tree, within: Name -> bool, to: Option<Backend>, es: seq<FileKey>, n: nat)
    requires GovernedIn(t, within) && n <= |ReencryptAll(t, to, es).writes|
    ensures GovernedIn(Replay(t, ReencryptAll(t, to, es).writes[..n]), within)
  {
    var inv := (x: Tree) => GovernedIn(x, within);
    forall x, k | k in es ensures StepKeeps(inv, Exec, ReencryptStep(to), x, k) {
      if GovernedIn(x, within) {
        forall m: nat | m <= |ReencryptStep(to)(x, k).writes|
          ensures GovernedIn(After(Exec, x, ReencryptStep(to)(x, k).writes[..m]), within)
        {
          ReencryptOneKeeps(x, within, k, to, m);
        }
      }
    }
    RunKeeps(inv, Exec, ReencryptStep(to), t, es, n);
  }

  lemma EntriesKeep(t: Tree, within: Name -> bool, from: Name, dest: Name, remove: bool, es: seq<FileKey>, n: nat)
    requires GovernedIn(t, within)
    requires forall k :: k in es && within(Moved(from, dest, k.name)) ==> within(k.name)
    requires n <= |RunAll(Exec, TransferStep(from, dest, remove), t, es).writes|
    ensures GovernedIn(Replay(t, RunAll(Exec, TransferStep(from, dest, remove), t, es).writes[..n]), within)
  {
    var inv := (x: Tree) => GovernedIn(x, within);
    forall x, k | k in es ensures StepKeeps(inv, Exec, TransferStep(from, dest, remove), x, k) {
      if GovernedIn(x, within) {
        forall m: nat | m <= |TransferStep(from, dest, remove)(x, k).writes|
          ensures GovernedIn(After(Exec, x, TransferStep(from, dest, remove)(x, k).writes[..m]), within)
        {
          TransferEntryKeeps(x, within, k.name, Moved(from, dest, k.name), remove, m);
        }
      }
    }
    RunKeeps(inv, Exec, TransferStep(from, dest, remove), t, es, n);
  }

  lemma TransferDirKeeps(t: Tree, within: Name -> bool, from: Name, dest: Name, remove: bool, es: seq<FileKey>, n: nat)
    requires GovernedIn(t, within)
    requires forall k :: k in es && within(Moved(from, dest, k.name)) ==> within(k.name)
    requires n <= |TransferDir(t, from, dest, remove, es).writes|
    ensures GovernedIn(Replay(t, TransferDir(t, from, dest, remove, es).writes[..n]), within)
  {
    var moved := RunAll(Exec, TransferStep(from, dest, remove), t, es);
    var writes := TransferDir(t, from, dest, remove, es).writes;
    if n <= |moved.writes| {
      EntriesKeep(t, within, from, dest, remove, es, n);
      assert writes[..n] == moved.writes[..n];
    } else {
      EntriesKeep(t, within, from, dest, remove, es, |moved.writes|);
      assert moved.writes[..|moved.writes|] == moved.writes;
      var x := Replay(t, moved.writes);
      RemoveTreeKeeps(x, within, from);
      AfterOne(Exec, x, RemoveTree(from));
      AfterConcat(Exec, t, moved.writes, [RemoveTree(from)]);
      assert writes[..n] == moved.writes + [RemoveTree(from)];
    }
  }

  // ---------- every operation ----------

  datatype Op =
    | OpSet(name: Name, plain: string)
    | OpRemove(name: Name)
    | OpRemoveDir(name: Name)
    | OpTransfer(from: Name, to: Name, into: bool, remove: bool)
    | OpReencrypt(sub: Name, target: Option<Backend>)

  /** `o` is what the operation writes, for some order of the listing it walks. */
  ghost predicate Performs(t: Tree, def: Backend, op: Op, o: Outcome<Write>) {
    match op
    case OpSet(n, plain) => o == SetWrites(t, def, n, plain)
    case OpRemove(n) => o == RemoveWrites(t, n)
    case OpRemoveDir(n) => o == RemoveDirWrites(n)
    case OpTransfer(from, to, into, remove) =>
      if from in t.dirs then
        exists es :: IsListing(t, from, es) && o == TransferDir(t, from, ResolveDest(t, from, to, into), remove, es)
      else o == TransferEntry(t, from, ResolveDest(t, from, to, into), remove)
    case OpReencrypt(sub, target) =>
      if sub in t.dirs then exists es :: IsListing(t, sub, es) && o == ReencryptAll(t, target, es)
      else o == Outcome([], false)
  }

  /** A transfer cannot bring an entry from outside the invariant's reach into it. */
  ghost predicate ReachKept(t: Tree, within: Name -> bool, op: Op) {
    op.OpTransfer? ==>
      var dest := ResolveDest(t, op.from, op.to, op.into);
      if op.from in t.dirs then
        forall n :: InScope(op.from, n) && within(Moved(op.from, dest, n)) ==> within(n)
      else within(dest) ==> within(op.from)
  }

  lemma OpKeeps(t: Tree, within: Name -> bool, def: Backend, op: Op, o: Outcome<Write>, n: nat)
    requires GovernedIn(t, within) && Performs(t, def, op, o) && ReachKept(t, within, op)
    requires n <= |o.writes|
    ensures GovernedIn(Replay(t, o.writes[..n]), within)
  {
    match op
    case OpSet(name, plain) => SetKeeps(t, within, def, name, plain, n);
    case OpRemove(name) =>
      AfterPrefix(Exec, t, o.writes, n);
      if n == 1 {
        DropKeeps(t, within, o.writes[0].key);
      }
    case OpRemoveDir(name) =>
      AfterPrefix(Exec, t, o.writes, n);
      if n == 1 {
        RemoveTreeKeeps(t, within, name);
      }
    case OpTransfer(from, to, into, remove) =>
      var dest := ResolveDest(t, from, to, into);
      if from in t.dirs {
        var es :| IsListing(t, from, es) && o == TransferDir(t, from, dest, remove, es);
        TransferDirKeeps(t, within, from, dest, remove, es, n);
      } else {
        TransferEntryKeeps(t, within, from, dest, remove, n);
      }
    case OpReencrypt(sub, target) =>
      if sub in t.dirs {
        var es :| IsListing(t, sub, es) && o == ReencryptAll(t, target, es);
        ReencryptKeeps(t, within, target, es, n);
      } else {
        assert o.writes[..n] == [];
      }
  }

  /** The source of every transfer is a listed name, or the root of a store that is there, unless
    * it goes to a name with a hidden component. */
  predicate FromListed(op: Op, rooted: bool) {
    op.OpTransfer? ==> Listed(op.from) || (rooted && op.from == []) || !Shown(op.to)
  }

  /** What a folder without hidden components lists is listed from the root too. */
  lemma ShownScope(sub: Name, n: Name)
    requires InScope(sub, n)
    ensures Listed(n) <==> Shown(sub)
  {
    forall i | 0 <= i < |sub| ensures n[i] == sub[i] {}
    if Shown(sub) {
      forall i | 0 <= i < |n| ensures !Hidden(n[i]) {
        assert i < |sub| ==> n[i] == sub[i];
      }
    }
  }

  lemma ListedSourceKeepsReach(t: Tree, op: Op)
    requires FromListed(op, [] in t.dirs)
    ensures ReachKept(t, Listed, op)
  {
    if op.OpTransfer? {
      var dest := ResolveDest(t, op.from, op.to, op.into);
      if !Shown(op.to) {
        HiddenDestination(op.to, dest);
        forall n | InScope(op.from, n) ensures !Listed(Moved(op.from, dest, n)) {
          HiddenDestination(dest, Moved(op.from, dest, n));
        }
      } else {
        forall n | InScope(op.from, n) ensures Listed(n) {
          ShownScope(op.from, n);
        }
      }
    }
  }

  lemma HiddenDestination(a: Name, b: Name)
    requires !Shown(a) && a <= b
    ensures !Shown(b) && !Listed(b)
  {
    var i :| 0 <= i < |a| && Hidden(a[i]);
    assert b[i] == a[i];
  }

  // ---------- the root stays ----------

  /** What every operation but initialising keeps to: the root is not removed, and no recipients file
    * is written.
    */
  predicate Everyday(x: Write) {
    x != RemoveTree([]) && !x.PutRecipients?
  }

  lemma {:induction false} PruneSparesRoot(t: Tree, d: Name)
    requires [] in t.dirs
    ensures [] in Prune(t, d).dirs
    decreases |d|
  {
    if !(d == [] || d !in t.dirs || Occupied(t, d)) {
      PruneSparesRoot(t.(dirs := t.dirs - {d}), Parent(d));
    }
  }

  lemma WriteSparesRoot(t: Tree, x: Write)
    requires [] in t.dirs && Everyday(x)
    ensures [] in Exec(t, x).dirs
  {
    match x
    case DropFile(k) => PruneSparesRoot(t.(files := t.files - {k}), Parent(k.name));
    case MoveFile(from, to) =>
      if from in t.files {
        PruneSparesRoot(WithDir(t, Parent(to.name)).(files := (t.files - {from})[to := t.files[from]]), Parent(from.name));
      }
    case _ =>
  }

  lemma {:induction false} ReplaySparesRoot(t: Tree, writes: seq<Write>)
    requires [] in t.dirs && forall x :: x in writes ==> Everyday(x)
    ensures [] in Replay(t, writes).dirs
    decreases |writes|
  {
    if writes != [] {
      var n := |writes| - 1;
      ReplaySparesRoot(t, writes[..n]);
      assert writes[n] in writes;
      WriteSparesRoot(Replay(t, writes[..n]), writes[n]);
    }
  }

  lemma TransferSparesRoot(t: Tree, from: Name, dest: Name, remove: bool, es: seq<FileKey>)
    ensures forall x :: x in TransferDir(t, from, dest, remove, es).writes ==> Everyday(x)
  {
    forall v: Tree, k, x | k in es && x in TransferStep(from, dest, remove)(v, k).writes ensures Everyday(x) {
      assert x in TransferEntry(v, k.name, Moved(from, dest, k.name), remove).writes;
    }
    RunWrites(Everyday, Exec, TransferStep(from, dest, remove), t, es);
  }

  lemma ReencryptSparesRoot(t: Tree, to: Option<Backend>, es: seq<FileKey>)
    ensures forall x :: x in ReencryptAll(t, to, es).writes ==> Everyday(x)
  {
    forall v: Tree, k, x | k in es && x in ReencryptStep(to)(v, k).writes ensures Everyday(x) {
      assert x in ReencryptOne(v, k, to).writes;
    }
    RunWrites(Everyday, Exec, ReencryptStep(to), t, es);
  }

  lemma OpWritesSpareRoot(t: Tree, def: Backend, op: Op, o: Outcome<Write>)
    requires Performs(t, def, op, o)
    ensures forall x :: x in o.writes ==> Everyday(x)
  {
    match op
    case OpTransfer(from, to, into, remove) =>
      if from in t.dirs {
        var dest := ResolveDest(t, from, to, into);
        var es :| IsListing(t, from, es) && o == TransferDir(t, from, dest, remove, es);
        TransferSparesRoot(t, from, dest, remove, es);
      }
    case OpReencrypt(sub, target) =>
      if sub in t.dirs {
        var es :| IsListing(t, sub, es) && o == ReencryptAll(t, target, es);
        ReencryptSparesRoot(t, target, es);
      }
    case _ =>
  }

  lemma OpSparesRoot(t: Tree, def: Backend, op: Op, o: Outcome<Write>, n: nat)
    requires [] in t.dirs && Performs(t, def, op, o) && n <= |o.writes|
    ensures [] in Replay(t, o.writes[..n]).dirs
  {
    OpWritesSpareRoot(t, def, op, o);
    assert forall x :: x in o.writes[..n] ==> x in o.writes;
    ReplaySparesRoot(t, o.writes[..n]);
  }

  /** A history of operations, each carried out up to some write. */
  ghost predicate Reaches(def: Backend, t: Tree, ops: seq<Op>, x: Tree)
    decreases |ops|
  {
    if ops == [] then x == t
    else exists o, n: nat :: Performs(t, def, ops[0], o) && n <= |o.writes|
                             && Reaches(def, Replay(t, o.writes[..n]), ops[1..], x)
  }

  /** Every history of Set, Remove, RemoveDir, Move, Copy and Reencrypt, with transfers
    * from listed names or the root, or to hidden names, and any of them interrupted at any write, keeps every listed entry
    * encrypted to its governing recipients. */
  lemma {:induction false} GovernanceIsInvariant(def: Backend, t: Tree, ops: seq<Op>, x: Tree)
    requires ListedGoverned(t) && Reaches(def, t, ops, x)
    requires forall i :: 0 <= i < |ops| ==> FromListed(ops[i], [] in t.dirs)
    ensures ListedGoverned(x)
    decreases |ops|
  {
    if ops != [] {
      var o, n: nat :| Performs(t, def, ops[0], o) && n <= |o.writes| && Reaches(def, Replay(t, o.writes[..n]), ops[1..], x);
      ListedSourceKeepsReach(t, ops[0]);
      OpKeeps(t, Listed, def, ops[0], o, n);
      if [] in t.dirs {
        OpSparesRoot(t, def, ops[0], o, n);
      }
      GovernanceIsInvariant(def, Replay(t, o.writes[..n]), ops[1..], x);
    }
  }

  /** Counting hidden entries too, transfers from any name keep the invariant. */
  lemma {:induction false} GovernanceOfAllIsInvariant(def: Backend, t: Tree, ops: seq<Op>, x: Tree)
    requires AllGoverned(t) && Reaches(def, t, ops, x)
    ensures AllGoverned(x)
    decreases |ops|
  {
    if ops != [] {
      var o, n: nat :| Performs(t, def, ops[0], o) && n <= |o.writes| && Reaches(def, Replay(t, o.writes[..n]), ops[1..], x);
      OpKeeps(t, m => true, def, ops[0], o, n);
      GovernanceOfAllIsInvariant(def, Replay(t, o.writes[..n]), ops[1..], x);
    }
  }

  // ---------- hidden sources ----------

  /** A store where an entry was sealed for someone its folder no longer names. */
  function StaleHidden(from: Name, dirs: set<Name>): Tree {
    Tree(map[FileKey(from, Gpg) := Sealed("", ["old"])], map[FileKey([], Gpg) := ["new"]], dirs)
  }

  lemma {:induction false} RootGoverns(dir: Name)
    ensures Governing(map[FileKey([], Gpg) := ["new"]], dir, Gpg) == Some(["new"])
    decreases |dir|
  {
    if dir != [] {
      RootGoverns(Parent(dir));
    }
  }

  /** Listed governance survives moving or copying an entry, in every store, exactly when the
    * source is a listed name or the destination is not one: re-encryption passes over hidden
    * entries, and a transfer between folders of equal recipients does not look inside. */
  lemma TransferKeepsListedExactly(from: Name, to: Name, remove: bool)
    requires from != [] && to != []
    ensures (Listed(from) || !Listed(to)) <==>
              forall t: Tree, n: nat ::
                ListedGoverned(t) && from !in t.dirs && to !in t.dirs && n <= |TransferEntry(t, from, to, remove).writes| ==>
                  ListedGoverned(Replay(t, TransferEntry(t, from, to, remove).writes[..n]))
  {
    if Listed(from) || !Listed(to) {
      forall t: Tree, n: nat | ListedGoverned(t) && n <= |TransferEntry(t, from, to, remove).writes|
        ensures ListedGoverned(Replay(t, TransferEntry(t, from, to, remove).writes[..n]))
      {
        TransferEntryKeeps(t, Listed, from, to, remove, n);
      }
    } else {
      var t := StaleHidden(from, {[]});
      HiddenTransferBreaks(t, from, to, remove);
      assert ListedGoverned(t) && from !in t.dirs && to !in t.dirs;
    }
  }

  lemma HiddenTransferBreaks(t: Tree, from: Name, to: Name, remove: bool)
    requires from != [] && to != [] && !Listed(from) && Listed(to)
    requires exists dirs :: t == StaleHidden(from, dirs)
    ensures ListedGoverned(t)
    ensures var o := TransferEntry(t, from, to, remove);
            o.ok && |o.writes| == 1 && !ListedGoverned(Replay(t, o.writes[..1]))
  {
    RootGoverns(Parent(from));
    RootGoverns(Parent(to));
    var src, dst := FileKey(from, Gpg), FileKey(to, Gpg);
    var writes := TransferEntry(t, from, to, remove).writes;
    assert writes == [if remove then MoveFile(src, dst) else PutFile(dst, t.files[src])];
    AfterPrefix(Exec, t, writes, 1);
    var x := Exec(t, writes[0]);
    ExecFiles(t, writes[0]);
    assert x.files[dst] == Sealed("", ["old"]);
    assert multiset(["old"])["old"] == 1 && multiset(["new"])["old"] == 0;
    assert !Governed(x, dst);
  }

  /** The same for folders: exactly when the source folder has no hidden component, or the
    * destination has one. */
  lemma FolderTransferKeepsListedExactly(from: Name, dest: Name, remove: bool)
    ensures (Shown(from) || !Shown(dest)) <==>
              forall t: Tree, es: seq<FileKey>, n: nat ::
                ListedGoverned(t) && from in t.dirs && IsListing(t, from, es) && n <= |TransferDir(t, from, dest, remove, es).writes| ==>
                  ListedGoverned(Replay(t, TransferDir(t, from, dest, remove, es).writes[..n]))
  {
    if Shown(from) || !Shown(dest) {
      forall t: Tree, es: seq<FileKey>, n: nat | ListedGoverned(t) && IsListing(t, from, es) && n <= |TransferDir(t, from, dest, remove, es).writes|
        ensures ListedGoverned(Replay(t, TransferDir(t, from, dest, remove, es).writes[..n]))
      {
        forall k: FileKey | k in es && Listed(Moved(from, dest, k.name)) ensures Listed(k.name) {
          ShownScope(from, k.name);
          MovedScope(from, dest, k.name);
          ShownScope(dest, Moved(from, dest, k.name));
        }
        TransferDirKeeps(t, Listed, from, dest, remove, es, n);
      }
    } else {
      HiddenFolderBreaks(StaleHidden(from + ["entry"], {from}), from, dest, remove, [FileKey(from + ["entry"], Gpg)]);
    }
  }

  /** A new name has the scope of the old one. */
  lemma MovedScope(from: Name, dest: Name, n: Name)
    requires InScope(from, n)
    ensures InScope(dest, Moved(from, dest, n))
  {
    var d := Moved(from, dest, n);
    forall i | |dest| <= i < |d| ensures !Hidden(d[i]) {
      assert d[i] == n[|from| + (i - |dest|)];
    }
  }

  lemma HiddenFolderBreaks(t: Tree, from: Name, dest: Name, remove: bool, es: seq<FileKey>)
    requires !Shown(from) && Shown(dest)
    requires t == StaleHidden(from + ["entry"], {from}) && es == [FileKey(from + ["entry"], Gpg)]
    ensures ListedGoverned(t) && from in t.dirs && IsListing(t, from, es)
    ensures |TransferDir(t, from, dest, remove, es).writes| >= 1
    ensures !ListedGoverned(Replay(t, TransferDir(t, from, dest, remove, es).writes[..1]))
  {
    var n := from + ["entry"];
    var d := Moved(from, dest, n);
    assert !Hidden("entry") by { assert "entry"[0] == 'e' && "."[0] == '.'; }
    assert n[|from|] == "entry" && InScope(from, n);
    ShownScope(from, n);
    MovedScope(from, dest, n);
    ShownScope(dest, d);
    HiddenTransferBreaks(t, n, d, remove);
    RunOfOne(Exec, TransferStep(from, dest, remove), t, es);
    var one := TransferEntry(t, n, d, remove);
    assert TransferDir(t, from, dest, remove, es).writes[..1] == one.writes[..1];
  }

  // ---------- changing recipients ----------

  /** A new recipients file changes nothing for folders outside its own. */
  lemma {:induction false} GoverningElsewhere(recipients: map<FileKey, seq<Recipient>>, d: FileKey, rcp: seq<Recipient>, dir: Name, b: Backend)
    requires !(d.name <= dir)
    ensures Governing(recipients[d := rcp], dir, b) == Governing(recipients, dir, b)
    decreases |dir|
  {
    if dir != [] {
      assert Parent(dir) <= dir;
      GoverningElsewhere(recipients, d, rcp, Parent(dir), b);
    }
  }

  /** Init of a folder keeps the governance of every entry that is not beneath it. */
  lemma InitBreaksOnlyBeneath(t: Tree, def: Backend, sub: Name, rcp: seq<Recipient>, n: nat)
    requires ListedGoverned(t) && n <= |InitWrites(def, sub, rcp).writes|
    ensures GovernedIn(Replay(t, InitWrites(def, sub, rcp).writes[..n]), m => Listed(m) && !(sub < m))
    ensures Replay(t, InitWrites(def, sub, rcp).writes[..n]).files == t.files
  {
    var writes := InitWrites(def, sub, rcp).writes;
    AfterPrefix(Exec, t, writes, n);
    var x := Replay(t, writes[..n]);
    forall k | k in x.files && Listed(k.name) && !(sub < k.name) ensures Governed(x, k) {
      if n == 2 {
        BeneathParent(sub, k.name);
        GoverningElsewhere(t.recipients, FileKey(sub, def), rcp, Parent(k.name), k.backend);
      }
      assert Governed(t, k);
    }
  }

  /** Re-encrypting a folder restores the invariant wherever it was broken only beneath
    * that folder. */
  lemma ReencryptRestores(t: Tree, sub: Name, to: Option<Backend>, es: seq<FileKey>)
    requires GovernedIn(t, m => Listed(m) && !(sub < m))
    requires IsListing(t, sub, es) && ReencryptAll(t, to, es).ok
    ensures ListedGoverned(Replay(t, ReencryptAll(t, to, es).writes))
  {
    var x := Replay(t, ReencryptAll(t, to, es).writes);
    ReencryptCompletes(t, sub, to, es);
    forall k | k in x.files && Listed(k.name) ensures Governed(x, k) {
      if sub < k.name {
        assert InScope(sub, k.name);
      } else {
        assert k in t.files && x.files[k] == t.files[k] && Governed(t, k);
      }
    }
  }

  /** Changing recipients anywhere and re-encrypting there leaves a governed store. */
  lemma InitThenReencrypt(t: Tree, def: Backend, sub: Name, rcp: seq<Recipient>, to: Option<Backend>, es: seq<FileKey>)
    requires ListedGoverned(t) && InitWrites(def, sub, rcp).ok
    requires var x := Replay(t, InitWrites(def, sub, rcp).writes);
             IsListing(x, sub, es) && ReencryptAll(x, to, es).ok
    ensures var x := Replay(t, InitWrites(def, sub, rcp).writes);
            ListedGoverned(Replay(x, ReencryptAll(x, to, es).writes))
  {
    var writes := InitWrites(def, sub, rcp).writes;
    InitBreaksOnlyBeneath(t, def, sub, rcp, |writes|);
    assert writes[..|writes|] == writes;
    ReencryptRestores(Replay(t, writes), sub, to, es);
  }
}
