/** The store as the program changes it: one tree, written file by file. */
module Store {
  import opened Wrappers
  import opened Runs
  import opened StoreTree

  class Store {
    /** The format of new entries, unless only the other is set up for their folder. */
    const def: Backend
    var tree: Tree

    /** Every write since the store was opened. */
    ghost var log: seq<Write>

    ghost predicate Wrote(start: Tree, before: seq<Write>, writes: seq<Write>)
      reads this
    {
      log == before + writes && tree == Replay(start, writes)
    }

    /** The same, for loops that know writing a file by name only. */
    ghost predicate WroteBy(exec: (Tree, Write) -> Tree, start: Tree, before: seq<Write>, writes: seq<Write>)
      reads this
    {
      log == before + writes && tree == After(exec, start, writes)
    }

    constructor (def: Backend, t: Tree)
      ensures this.def == def && tree == t && log == []
    {
      this.def := def;
      tree := t;
      log := [];
    }

    // ---------- the file system ----------

    method MkdirAll(dir: Name)
      modifies this
      ensures Wrote(old(tree), old(log), [MakeDir(dir)])
    {
      AfterOne(Exec, tree, MakeDir(dir));
      tree := WithDir(tree, dir);
      log := log + [MakeDir(dir)];
    }

    method WriteFile(k: FileKey, f: Sealed)
      modifies this
      ensures Wrote(old(tree), old(log), [PutFile(k, f)])
    {
      AfterOne(Exec, tree, PutFile(k, f));
      tree := WithDir(tree, Parent(k.name)).(files := tree.files[k := f]);
      log := log + [PutFile(k, f)];
    }

    /** Deletes a file, then the folders that leaves empty. */
    method RemoveFile(k: FileKey) returns (ok: bool)
      modifies this
      ensures ok == (k in old(tree).files)
      ensures Wrote(old(tree), old(log), if ok then [DropFile(k)] else [])
    {
      if k !in tree.files {
        return false;
      }
      AfterOne(Exec, tree, DropFile(k));
      tree := tree.(files := tree.files - {k});
      PruneEmpty(Parent(k.name));
      log := log + [DropFile(k)];
      return true;
    }

    method Rename(from: FileKey, to: FileKey)
      requires from in tree.files
      modifies this
      ensures Wrote(old(tree), old(log), [MoveFile(from, to)])
    {
      AfterOne(Exec, tree, MoveFile(from, to));
      tree := WithDir(tree, Parent(to.name)).(files := (tree.files - {from})[to := tree.files[from]]);
      PruneEmpty(Parent(from.name));
      log := log + [MoveFile(from, to)];
    }

    method PruneEmpty(start: Name)
      modifies this`tree
      ensures tree == Prune(old(tree), start)
    {
      var dir := start;
      while dir != []
        invariant Prune(tree, dir) == Prune(old(tree), start)
        decreases |dir|
      {
        if dir !in tree.dirs || Occupied(tree, dir) {
          return;
        }
        tree := tree.(dirs := tree.dirs - {dir});
        dir := Parent(dir);
      }
    }

    // ---------- the store ----------

    method Init(sub: Name, rcp: seq<Recipient>) returns (ok: bool)
      modifies this
      ensures ok == InitWrites(def, sub, rcp).ok
      ensures Wrote(old(tree), old(log), InitWrites(def, sub, rcp).writes)
    {
      ghost var start := tree;
      MkdirAll(sub);
      AfterOne(Exec, start, MakeDir(sub));
      if rcp == [] {
        return false;
      }
      var d := FileKey(sub, def);
      AfterTwo(Exec, start, MakeDir(sub), PutRecipients(d, rcp));
      tree := tree.(recipients := tree.recipients[d := rcp]);
      log := log + [PutRecipients(d, rcp)];
      return true;
    }

    method Get(n: Name) returns (plain: Option<string>)
      ensures plain == StoreTree.Get(tree, n)
    {
      var b := Find(tree, n);
      if b.None? {
        return None;
      }
      return Some(tree.files[FileKey(n, b.value)].plain);
    }

    method Set(n: Name, plain: string) returns (ok: bool)
      modifies this
      ensures ok == SetWrites(old(tree), def, n, plain).ok
      ensures Wrote(old(tree), old(log), SetWrites(old(tree), def, n, plain).writes)
    {
      var b := Find(tree, n);
      if b.None? {
        b := FindBackendForNew(n);
        if b.None? {
          return false;
        }
      }
      ok := WriteWithBackend(n, plain, b.value);
    }

    method FindBackendForNew(n: Name) returns (b: Option<Backend>)
      ensures b == BackendForNew(tree, def, n)
    {
      if n == [] {
        return None;
      }
      var r := ParseRecipients(tree.recipients, Parent(n), def);
      if r.Some? {
        return Some(def);
      }
      r := ParseRecipients(tree.recipients, Parent(n), Other(def));
      if r.Some? {
        return Some(Other(def));
      }
      return None;
    }

    method WriteWithBackend(n: Name, plain: string, b: Backend) returns (ok: bool)
      modifies this
      ensures ok == WriteWith(old(tree), n, plain, b).ok
      ensures Wrote(old(tree), old(log), WriteWith(old(tree), n, plain, b).writes)
    {
      var r := ParseRecipients(tree.recipients, Parent(n), b);
      if r.None? {
        return false;
      }
      WriteFile(FileKey(n, b), Sealed(plain, r.value));
      return true;
    }

    method Remove(n: Name) returns (ok: bool)
      modifies this
      ensures ok == RemoveWrites(old(tree), n).ok
      ensures Wrote(old(tree), old(log), RemoveWrites(old(tree), n).writes)
    {
      var b := Find(tree, n);
      if b.None? {
        return false;
      }
      ok := RemoveFile(FileKey(n, b.value));
    }

    method RemoveDir(n: Name) returns (ok: bool)
      modifies this
      ensures ok == RemoveDirWrites(n).ok
      ensures Wrote(old(tree), old(log), RemoveDirWrites(n).writes)
    {
      if n == [] {
        return false;
      }
      AfterOne(Exec, tree, RemoveTree(n));
      tree := Exec(tree, RemoveTree(n));
      log := log + [RemoveTree(n)];
      return true;
    }

    // ---------- re-encryption ----------

    method ReencryptEntry(k: FileKey, to: Option<Backend>) returns (ok: bool)
      modifies this
      ensures ok == ReencryptOne(old(tree), k, to).ok
      ensures Wrote(old(tree), old(log), ReencryptOne(old(tree), k, to).writes)
    {
      ghost var start := tree;
      var plain := Get(k.name);
      if plain.None? {
        return false;
      }
      var target := if to.Some? then to.value else k.backend;
      ok := WriteWithBackend(k.name, plain.value, target);
      if !ok || target == k.backend {
        return;
      }
      ghost var put := WriteWith(start, k.name, plain.value, target).writes[0];
      AfterOne(Exec, start, put);
      AfterTwo(Exec, start, put, DropFile(k));
      ExecFiles(start, put);
      AfterOne(Exec, tree, DropFile(k));
      ok := RemoveFile(k);
    }

    /** What re-encrypting one file does, known to the loop by name only. */
    ghost predicate Reencrypts(step: (Tree, FileKey) -> Outcome<Write>, to: Option<Backend>) {
      forall t: Tree, k: FileKey {:trigger ReencryptOne(t, k, to)} :: step(t, k) == ReencryptOne(t, k, to)
    }

    method ReencryptStepwise(k: FileKey, to: Option<Backend>, ghost step: (Tree, FileKey) -> Outcome<Write>,
                             ghost exec: (Tree, Write) -> Tree)
      returns (ok: bool)
      requires Reencrypts(step, to) && Executes(exec)
      modifies this
      ensures ok == step(old(tree), k).ok && WroteBy(exec, old(tree), old(log), step(old(tree), k).writes)
    {
      ghost var start := tree;
      ok := ReencryptEntry(k, to);
      AfterSame(exec, start, step(start, k).writes);
    }

    method ReencryptListed(es: seq<FileKey>, to: Option<Backend>, ghost step: (Tree, FileKey) -> Outcome<Write>,
                           ghost exec: (Tree, Write) -> Tree, ghost whole: Outcome<Write>)
      returns (ok: bool)
      requires Reencrypts(step, to) && Executes(exec)
      requires Resumes(whole, [], exec, step, tree, es, 0)
      modifies this
      ensures ok == whole.ok && WroteBy(exec, old(tree), old(log), whole.writes)
    {
      ghost var start, t := tree, tree;
      ghost var done: seq<Write> := [];
      for i := 0 to |es|
        invariant WroteBy(exec, start, old(log), done) && t == tree
        invariant Resumes(whole, done, exec, step, t, es, i)
      {
        ghost var next := Advance(whole, done, exec, step, start, t, es, i);
        ok := ReencryptStepwise(es[i], to, step, exec);
        done, t := next, tree;
        if !ok {
          return;
        }
      }
      ResumeEnd(whole, done, exec, step, t, es);
      ok := true;
    }

    /** Rewrites every entry under `sub`, to one backend when `to` says so. */
    method Reencrypt(sub: Name, to: Option<Backend>) returns (ok: bool, ghost es: seq<FileKey>)
      modifies this
      ensures IsListing(old(tree), sub, es)
      ensures sub !in old(tree).dirs ==> !ok && Wrote(old(tree), old(log), [])
      ensures sub in old(tree).dirs ==>
                ok == ReencryptAll(old(tree), to, es).ok && Wrote(old(tree), old(log), ReencryptAll(old(tree), to, es).writes)
    {
      var listed := Entries(tree, sub);
      es := listed;
      if sub !in tree.dirs {
        return false, es;
      }
      ghost var whole := ReencryptAll(tree, to, listed);
      ResumeStart(Exec, ReencryptStep(to), tree, listed);
      ok := ReencryptListed(listed, to, ReencryptStep(to), Exec, whole);
    }

    // ---------- moving and copying ----------

    /** Counts in a map, as a multiset comparison. */
    method SameRecipientList(ra: seq<Recipient>, rb: seq<Recipient>) returns (same: bool)
      ensures same <==> multiset(ra) == multiset(rb)
    {
      if |ra| != |rb| {
        assert |multiset(ra)| != |multiset(rb)|;
        return false;
      }
      var seen: map<Recipient, int> := map[];
      for i := 0 to |ra|
        invariant Tallies(seen, multiset(ra[..i]), multiset{})
      {
        TallyUp(seen, multiset(ra[..i]), multiset{}, ra[i]);
        MultisetSnoc(ra, i);
        seen := seen[ra[i] := TallyOf(seen, ra[i]) + 1];
      }
      assert ra[..|ra|] == ra;
      for i := 0 to |rb|
        invariant Tallies(seen, multiset(ra), multiset(rb[..i])) && multiset(rb[..i]) <= multiset(ra)
      {
        var r := rb[i];
        CountDown(seen, ra, rb, i);
        seen := seen[r := TallyOf(seen, r) - 1];
        if seen[r] < 0 {
          return false;
        }
      }
      assert rb[..|rb|] == rb;
      ListOfSameLength(multiset(rb), multiset(ra));
      return true;
    }

    method CompareRecipients(b: Backend, x: Name, y: Name) returns (same: Option<bool>)
      ensures same == SameRecipients(tree, b, x, y)
    {
      if x == y {
        return Some(true);
      }
      var ra := ParseRecipients(tree.recipients, x, b);
      if ra.None? {
        return None;
      }
      var rb := ParseRecipients(tree.recipients, y, b);
      if rb.None? {
        return None;
      }
      var eq := SameRecipientList(ra.value, rb.value);
      return Some(eq);
    }

    method Transfer1(from: Name, to: Name, remove: bool) returns (ok: bool)
      modifies this
      ensures ok == TransferEntry(old(tree), from, to, remove).ok
      ensures Wrote(old(tree), old(log), TransferEntry(old(tree), from, to, remove).writes)
    {
      ghost var start := tree;
      var b := Find(tree, from);
      if b.None? {
        return false;
      }
      var src, dst := FileKey(from, b.value), FileKey(to, b.value);
      var same := CompareRecipients(b.value, Parent(from), Parent(to));
      if same.None? {
        return false;
      }
      if same.value {
        if remove {
          Rename(src, dst);
        } else {
          WriteFile(dst, tree.files[src]);
        }
        return true;
      }
      ok := WriteWithBackend(to, tree.files[src].plain, b.value);
      if !ok || !remove {
        return;
      }
      ghost var put := WriteWith(start, to, start.files[src].plain, b.value).writes[0];
      AfterOne(Exec, start, put);
      AfterTwo(Exec, start, put, DropFile(src));
      ExecFiles(start, put);
      AfterOne(Exec, tree, DropFile(src));
      ok := RemoveFile(src);
    }

    ghost predicate Transfers(step: (Tree, FileKey) -> Outcome<Write>, from: Name, dest: Name, remove: bool) {
      forall t: Tree, k: FileKey {:trigger TransferEntry(t, k.name, Moved(from, dest, k.name), remove)} ::
        step(t, k) == TransferEntry(t, k.name, Moved(from, dest, k.name), remove)
    }

    method TransferStepwise(k: FileKey, from: Name, dest: Name, remove: bool, ghost step: (Tree, FileKey) -> Outcome<Write>,
                            ghost exec: (Tree, Write) -> Tree)
      returns (ok: bool)
      requires Transfers(step, from, dest, remove) && Executes(exec)
      modifies this
      ensures ok == step(old(tree), k).ok && WroteBy(exec, old(tree), old(log), step(old(tree), k).writes)
    {
      ghost var start := tree;
      ok := Transfer1(k.name, Moved(from, dest, k.name), remove);
      AfterSame(exec, start, step(start, k).writes);
    }

    method TransferListed(es: seq<FileKey>, from: Name, dest: Name, remove: bool, ghost step: (Tree, FileKey) -> Outcome<Write>,
                          ghost exec: (Tree, Write) -> Tree, ghost whole: Outcome<Write>)
      returns (ok: bool)
      requires Transfers(step, from, dest, remove) && Executes(exec)
      requires Resumes(whole, [], exec, step, tree, es, 0)
      modifies this
      ensures ok == whole.ok && WroteBy(exec, old(tree), old(log), whole.writes)
    {
      ghost var start, t := tree, tree;
      ghost var done: seq<Write> := [];
      for i := 0 to |es|
        invariant WroteBy(exec, start, old(log), done) && t == tree
        invariant Resumes(whole, done, exec, step, t, es, i)
      {
        ghost var next := Advance(whole, done, exec, step, start, t, es, i);
        ok := TransferStepwise(es[i], from, dest, remove, step, exec);
        done, t := next, tree;
        if !ok {
          return;
        }
      }
      ResumeEnd(whole, done, exec, step, t, es);
      ok := true;
    }

    method TransferFolder(from: Name, dest: Name, remove: bool) returns (ok: bool, ghost es: seq<FileKey>)
      modifies this
      ensures IsListing(old(tree), from, es)
      ensures ok == TransferDir(old(tree), from, dest, remove, es).ok
      ensures Wrote(old(tree), old(log), TransferDir(old(tree), from, dest, remove, es).writes)
    {
      ghost var start, before := tree, log;
      var listed := Entries(tree, from);
      es := listed;
      ghost var moved := RunAll(Exec, TransferStep(from, dest, remove), start, listed);
      ResumeStart(Exec, TransferStep(from, dest, remove), start, listed);
      ok := TransferListed(listed, from, dest, remove, TransferStep(from, dest, remove), Exec, moved);
      if !ok || !remove {
        return;
      }
      AfterConcat(Exec, start, moved.writes, RemoveDirWrites(from).writes);
      ok := RemoveDir(from);
    }

    /** Move and Copy: a folder entry by entry, or a single entry. */
    method Transfer(from: Name, to: Name, into: bool, remove: bool) returns (ok: bool, ghost es: seq<FileKey>)
      modifies this
      ensures var dest := ResolveDest(old(tree), from, to, into);
              if from in old(tree).dirs then
                && IsListing(old(tree), from, es)
                && ok == TransferDir(old(tree), from, dest, remove, es).ok
                && Wrote(old(tree), old(log), TransferDir(old(tree), from, dest, remove, es).writes)
              else
                && ok == TransferEntry(old(tree), from, dest, remove).ok
                && Wrote(old(tree), old(log), TransferEntry(old(tree), from, dest, remove).writes)
    {
      var dest := ResolveDest(tree, from, to, into);
      es := [];
      if from in tree.dirs {
        ok, es := TransferFolder(from, dest, remove);
      } else {
        ok := Transfer1(from, dest, remove);
      }
    }
  }

  ghost predicate Executes(exec: (Tree, Write) -> Tree) {
    forall t: Tree, x: Write {:trigger Exec(t, x)} :: exec(t, x) == Exec(t, x)
  }

  lemma {:induction false} AfterSame(exec: (Tree, Write) -> Tree, t: Tree, writes: seq<Write>)
    requires Executes(exec)
    ensures After(exec, t, writes) == Replay(t, writes)
    decreases |writes|
  {
    if writes != [] {
      var n := |writes| - 1;
      AfterSame(exec, t, writes[..n]);
      assert Replay(t, writes) == Exec(Replay(t, writes[..n]), writes[n]);
    }
  }

  function TallyOf(seen: map<Recipient, int>, r: Recipient): int {
    if r in seen then seen[r] else 0
  }

  /** The counters hold one list minus what was seen of another. */
  ghost predicate Tallies(seen: map<Recipient, int>, plus: multiset<Recipient>, minus: multiset<Recipient>) {
    forall r: Recipient :: TallyOf(seen, r) == plus[r] as int - minus[r] as int
  }

  lemma TallyUp(seen: map<Recipient, int>, plus: multiset<Recipient>, minus: multiset<Recipient>, r: Recipient)
    requires Tallies(seen, plus, minus)
    ensures Tallies(seen[r := TallyOf(seen, r) + 1], plus + multiset{r}, minus)
  {
  }

  lemma TallyDown(seen: map<Recipient, int>, plus: multiset<Recipient>, minus: multiset<Recipient>, r: Recipient)
    requires Tallies(seen, plus, minus) && minus <= plus
    ensures Tallies(seen[r := TallyOf(seen, r) - 1], plus, minus + multiset{r})
    ensures TallyOf(seen, r) >= 1 ==> minus + multiset{r} <= plus
    ensures TallyOf(seen, r) < 1 ==> !(minus + multiset{r} <= plus)
  {
    assert TallyOf(seen, r) == plus[r] as int - minus[r] as int;
    assert (minus + multiset{r})[r] == minus[r] + 1;
  }

  lemma MultisetSnoc(s: seq<Recipient>, i: nat)
    requires i < |s|
    ensures multiset(s[..i + 1]) == multiset(s[..i]) + multiset{s[i]}
    ensures multiset(s[..i + 1]) <= multiset(s)
  {
    assert s[..i + 1] == s[..i] + [s[i]];
    assert s == s[..i + 1] + s[i + 1..];
  }

  /** One more of the second list is seen: a count below zero tells the lists apart. */
  lemma CountDown(seen: map<Recipient, int>, ra: seq<Recipient>, rb: seq<Recipient>, i: nat)
    requires i < |rb| && Tallies(seen, multiset(ra), multiset(rb[..i])) && multiset(rb[..i]) <= multiset(ra)
    ensures Tallies(seen[rb[i] := TallyOf(seen, rb[i]) - 1], multiset(ra), multiset(rb[..i + 1]))
    ensures TallyOf(seen, rb[i]) >= 1 ==> multiset(rb[..i + 1]) <= multiset(ra)
    ensures TallyOf(seen, rb[i]) < 1 ==> multiset(ra) != multiset(rb)
  {
    TallyDown(seen, multiset(ra), multiset(rb[..i]), rb[i]);
    MultisetSnoc(rb, i);
  }

  lemma ListOfSameLength(a: multiset<Recipient>, b: multiset<Recipient>)
    requires |a| == |b| && a <= b
    ensures a == b
  {
    assert b == a + (b - a);
    assert |b| == |a| + |b - a|;
  }
}
