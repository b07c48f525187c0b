/** Moving a folder is relocation: each listed entry reads at its new name as it read at
  * the old one, nothing is left beneath the source and no other name changes.  An entry
  * whose new name lies beneath the source is the exception: it is moved there, or stays
  * where it is, and then is deleted with the folder.
  */
module Relocation {
  import opened Wrappers
  import opened Runs
  import opened StoreTree

  /** The listed entries of the folder. */
  predicate IsSource(t: Tree, from: Name, n: Name) {
    InScope(from, n) && Find(t, n).Some?
  }

  ghost predicate IsDestination(t: Tree, from: Name, dest: Name, n: Name) {
    exists s :: IsSource(t, from, s) && Moved(from, dest, s) == n
  }

  /** No destination name has an entry yet. */
  ghost predicate NotTaken(t: Tree, from: Name, dest: Name) {
    forall n :: IsSource(t, from, n) ==> Find(t, Moved(from, dest, n)).None?
  }

  ghost predicate SameAt(t: Tree, x: Tree, n: Name) {
    forall b :: (FileKey(n, b) in t.files <==> FileKey(n, b) in x.files)
                && (FileKey(n, b) in t.files ==> t.files[FileKey(n, b)] == x.files[FileKey(n, b)])
  }

  // ---------- one entry ----------

  /** What transferring one entry does to the files. */
  ghost predicate Transferred(x: Tree, y: Tree, n: Name, d: Name, remove: bool) {
    Find(x, n).Some? &&
    var src, dst := FileKey(n, Find(x, n).value), FileKey(d, Find(x, n).value);
    && dst in y.files && y.files[dst].plain == x.files[src].plain
    && y.files == (if remove then x.files - {src} else x.files)[dst := y.files[dst]]
  }

  lemma OneWriteTransfers(x: Tree, n: Name, d: Name, remove: bool, f: Sealed)
    requires Find(x, n).Some? && n != d && f.plain == x.files[FileKey(n, Find(x, n).value)].plain
    ensures var src, dst := FileKey(n, Find(x, n).value), FileKey(d, Find(x, n).value);
            && Transferred(x, Exec(x, PutFile(dst, f)), n, d, false)
            && Transferred(x, Exec(Exec(x, PutFile(dst, f)), DropFile(src)), n, d, true)
            && Transferred(x, Exec(x, MoveFile(src, dst)), n, d, true)
  {
    var src, dst := FileKey(n, Find(x, n).value), FileKey(d, Find(x, n).value);
    ExecFiles(x, PutFile(dst, f));
    ExecFiles(Exec(x, PutFile(dst, f)), DropFile(src));
    ExecFiles(x, MoveFile(src, dst));
    assert x.files[dst := f] - {src} == (x.files - {src})[dst := f];
  }

  lemma EntryTransferred(x: Tree, n: Name, d: Name, remove: bool)
    requires TransferEntry(x, n, d, remove).ok && n != d
    ensures Transferred(x, Replay(x, TransferEntry(x, n, d, remove).writes), n, d, remove)
  {
    var writes := TransferEntry(x, n, d, remove).writes;
    assert writes[..|writes|] == writes;
    AfterPrefix(Exec, x, writes, |writes|);
    match writes[0]
    case PutFile(_, f) => OneWriteTransfers(x, n, d, remove, f);
    case MoveFile(src, _) => OneWriteTransfers(x, n, d, remove, x.files[src]);
  }

  // ---------- the loop over the entries ----------

  ghost predicate Processed(es: seq<FileKey>, i: nat, n: Name) {
    exists j :: 0 <= j < i && j < |es| && es[j].name == n
  }

  /** An entry no transfer has reached: its files are where they were. */
  ghost predicate Waiting(t: Tree, x: Tree, n: Name, d: Name) {
    SameAt(t, x, n) && Find(x, d).None?
  }

  /** An entry that was transferred at least once.  With two formats the first one found
    * has gone first, so the new name reads right before the other format follows. */
  ghost predicate Arrived(t: Tree, x: Tree, n: Name, d: Name, remove: bool) {
    && Get(x, d) == Get(t, n)
    && (remove ==> FileKey(n, Gpg) !in x.files && (FileKey(d, Gpg) in x.files || FileKey(n, Age) !in x.files))
    && (!remove ==> SameAt(t, x, n) && forall b :: FileKey(d, b) in x.files ==> Some(x.files[FileKey(d, b)].plain) == Get(t, n))
  }

  ghost predicate Progress(t: Tree, x: Tree, from: Name, dest: Name, remove: bool, es: seq<FileKey>, i: nat) {
    && (forall n :: IsSource(t, from, n) ==>
          if Processed(es, i, n) then Arrived(t, x, n, Moved(from, dest, n), remove)
          else Waiting(t, x, n, Moved(from, dest, n)))
    && (forall n :: !IsSource(t, from, n) && !IsDestination(t, from, dest, n) ==> SameAt(t, x, n))
  }

  lemma Apart(t: Tree, from: Name, dest: Name, n: Name, m: Name)
    requires NotTaken(t, from, dest) && IsSource(t, from, n) && IsSource(t, from, m)
    ensures Moved(from, dest, n) != m && Moved(from, dest, m) != n
    ensures n != m ==> Moved(from, dest, n) != Moved(from, dest, m)
  {
    assert n == n[..|from|] + n[|from|..] && m == m[..|from|] + m[|from|..];
    if Moved(from, dest, n) == Moved(from, dest, m) {
      assert n[|from|..] == Moved(from, dest, n)[|dest|..] == m[|from|..];
    }
  }

  /** A transfer of one name leaves every other name's files alone. */
  lemma ElsewhereSame(x: Tree, y: Tree, n: Name, d: Name, remove: bool, m: Name)
    requires Transferred(x, y, n, d, remove) && m != n && m != d
    ensures SameAt(x, y, m) && Find(x, m) == Find(y, m) && Get(x, m) == Get(y, m)
  {
  }

  lemma FirstArrival(t: Tree, x: Tree, y: Tree, n: Name, d: Name, remove: bool)
    requires Waiting(t, x, n, d) && Transferred(x, y, n, d, remove) && n != d
    ensures Arrived(t, y, n, d, remove)
  {
    assert Get(x, n) == Get(t, n);
    forall b | FileKey(d, b) in y.files ensures b == Find(x, n).value {
      assert FileKey(d, b) in x.files ==> (b == Gpg || b == Age);
    }
  }

  lemma LaterArrival(t: Tree, x: Tree, y: Tree, n: Name, d: Name, remove: bool)
    requires Arrived(t, x, n, d, remove) && Transferred(x, y, n, d, remove) && n != d
    ensures Arrived(t, y, n, d, remove)
  {
    if !remove {
      assert Get(x, n) == Get(t, n);
    }
  }

  lemma StepProgress(t: Tree, x: Tree, y: Tree, from: Name, dest: Name, remove: bool, es: seq<FileKey>, i: nat)
    requires IsListing(t, from, es) && NotTaken(t, from, dest) && i < |es|
    requires Progress(t, x, from, dest, remove, es, i)
    requires Transferred(x, y, es[i].name, Moved(from, dest, es[i].name), remove)
    ensures Progress(t, y, from, dest, remove, es, i + 1)
  {
    var n := es[i].name;
    var d := Moved(from, dest, n);
    ListedIsSource(t, from, es, i);
    forall m | IsSource(t, from, m)
      ensures if Processed(es, i + 1, m) then Arrived(t, y, m, Moved(from, dest, m), remove)
              else Waiting(t, y, m, Moved(from, dest, m))
    {
      Apart(t, from, dest, n, m);
      if m == n {
        assert Processed(es, i + 1, n);
        if Processed(es, i, n) {
          LaterArrival(t, x, y, n, d, remove);
        } else {
          FirstArrival(t, x, y, n, d, remove);
        }
      } else {
        assert Processed(es, i + 1, m) <==> Processed(es, i, m);
        ElsewhereSame(x, y, n, d, remove, m);
        ElsewhereSame(x, y, n, d, remove, Moved(from, dest, m));
      }
    }
    forall m | !IsSource(t, from, m) && !IsDestination(t, from, dest, m) ensures SameAt(t, y, m) {
      ElsewhereSame(x, y, n, d, remove, m);
    }
  }

  lemma ListedIsSource(t: Tree, from: Name, es: seq<FileKey>, i: nat)
    requires IsListing(t, from, es) && i < |es|
    ensures IsSource(t, from, es[i].name)
  {
    assert es[i] in es;
    if es[i].backend == Gpg {
      assert es[i] == FileKey(es[i].name, Gpg);
    } else {
      assert es[i] == FileKey(es[i].name, Age);
    }
  }

  lemma {:induction false} ProgressToEnd(t: Tree, x: Tree, from: Name, dest: Name, remove: bool, es: seq<FileKey>, i: nat)
    requires IsListing(t, from, es) && NotTaken(t, from, dest) && i <= |es|
    requires Progress(t, x, from, dest, remove, es, i)
    requires RunAll(Exec, TransferStep(from, dest, remove), x, es[i..]).ok
    ensures Progress(t, Replay(x, RunAll(Exec, TransferStep(from, dest, remove), x, es[i..]).writes), from, dest, remove, es, |es|)
    decreases |es| - i
  {
    if i < |es| {
      var n := es[i].name;
      var d := Moved(from, dest, n);
      RunUnfolds(Exec, TransferStep(from, dest, remove), x, es, i);
      ListedIsSource(t, from, es, i);
      Apart(t, from, dest, n, n);
      EntryTransferred(x, n, d, remove);
      var y := Replay(x, TransferEntry(x, n, d, remove).writes);
      StepProgress(t, x, y, from, dest, remove, es, i);
      ProgressToEnd(t, y, from, dest, remove, es, i + 1);
    }
  }

  /** What the loop leaves when it completes. */
  ghost predicate LoopLeaves(t: Tree, x: Tree, from: Name, dest: Name, remove: bool) {
    && (forall n :: IsSource(t, from, n) ==> Get(x, Moved(from, dest, n)) == Get(t, n))
    && (forall n :: !IsSource(t, from, n) && !IsDestination(t, from, dest, n) ==> Get(x, n) == Get(t, n))
    && (!remove ==> forall n :: IsSource(t, from, n) ==> Get(x, n) == Get(t, n))
  }

  lemma EndOfLoop(t: Tree, x: Tree, from: Name, dest: Name, remove: bool, es: seq<FileKey>)
    requires IsListing(t, from, es) && Progress(t, x, from, dest, remove, es, |es|)
    ensures LoopLeaves(t, x, from, dest, remove)
  {
    forall n | IsSource(t, from, n)
      ensures Get(x, Moved(from, dest, n)) == Get(t, n) && (!remove ==> Get(x, n) == Get(t, n))
    {
      var k := FileKey(n, Find(t, n).value);
      assert k in es;
      var j :| 0 <= j < |es| && es[j] == k;
      assert Processed(es, |es|, n);
      assert Arrived(t, x, n, Moved(from, dest, n), remove);
    }
    forall n | !IsSource(t, from, n) && !IsDestination(t, from, dest, n) ensures Get(x, n) == Get(t, n) {
      assert SameAt(t, x, n);
    }
  }

  lemma StartOfLoop(t: Tree, from: Name, dest: Name, remove: bool, es: seq<FileKey>)
    requires NotTaken(t, from, dest)
    ensures Progress(t, t, from, dest, remove, es, 0)
  {
    forall n ensures !Processed(es, 0, n) {}
  }

  lemma LoopCompletes(t: Tree, from: Name, dest: Name, remove: bool, es: seq<FileKey>)
    requires IsListing(t, from, es) && NotTaken(t, from, dest)
    requires RunAll(Exec, TransferStep(from, dest, remove), t, es).ok
    ensures LoopLeaves(t, Replay(t, RunAll(Exec, TransferStep(from, dest, remove), t, es).writes), from, dest, remove)
  {
    assert es[0..] == es;
    StartOfLoop(t, from, dest, remove, es);
    ProgressToEnd(t, t, from, dest, remove, es, 0);
    EndOfLoop(t, Replay(t, RunAll(Exec, TransferStep(from, dest, remove), t, es).writes), from, dest, remove, es);
  }

  // ---------- the theorems ----------

  lemma RemoveTreeReads(x: Tree, d: Name)
    ensures forall n :: Get(Exec(x, RemoveTree(d)), n) == if d < n then None else Get(x, n)
  {
    ExecFiles(x, RemoveTree(d));
  }

  lemma MoveIsLoopThenRemove(t: Tree, from: Name, dest: Name, es: seq<FileKey>)
    requires TransferDir(t, from, dest, true, es).ok
    ensures var moved := RunAll(Exec, TransferStep(from, dest, true), t, es);
            && moved.ok && from != []
            && Replay(t, TransferDir(t, from, dest, true, es).writes) == Exec(Replay(t, moved.writes), RemoveTree(from))
  {
    var moved := RunAll(Exec, TransferStep(from, dest, true), t, es);
    AfterConcat(Exec, t, moved.writes, [RemoveTree(from)]);
    AfterOne(Exec, Replay(t, moved.writes), RemoveTree(from));
  }

  /** What a completed move of a folder leaves. */
  ghost predicate MoveLeaves(t: Tree, z: Tree, from: Name, dest: Name) {
    && (forall n :: IsSource(t, from, n) ==>
          Get(z, Moved(from, dest, n)) == if from < Moved(from, dest, n) then None else Get(t, n))
    && (forall n :: from < n ==> Get(z, n) == None)
    && (forall n :: !(from < n) && !IsDestination(t, from, dest, n) ==> Get(z, n) == Get(t, n))
  }

  // ---------- a destination at or beneath the source ----------

  /** No file that is not beneath the folder differs. */
  ghost predicate SameOutside(t: Tree, x: Tree, from: Name) {
    forall k: FileKey :: !(from < k.name) ==> (k in t.files <==> k in x.files) && (k in t.files ==> t.files[k] == x.files[k])
  }

  predicate WritesInside(from: Name, w: Write) {
    match w
    case PutFile(k, _) => from < k.name
    case DropFile(k) => from < k.name
    case MoveFile(a, b) => from < a.name && from < b.name
    case _ => false
  }

  lemma WriteStaysInside(t: Tree, x: Tree, from: Name, w: Write)
    requires SameOutside(t, x, from) && WritesInside(from, w)
    requires w.MoveFile? ==> w.from in x.files
    ensures SameOutside(t, Exec(x, w), from)
  {
    ExecFiles(x, w);
  }

  lemma TransferStaysInside(t: Tree, x: Tree, from: Name, n: Name, d: Name, remove: bool, k: nat)
    requires from < n && from < d && SameOutside(t, x, from)
    requires k <= |TransferEntry(x, n, d, remove).writes|
    ensures SameOutside(t, Replay(x, TransferEntry(x, n, d, remove).writes[..k]), from)
  {
    var writes := TransferEntry(x, n, d, remove).writes;
    AfterPrefix(Exec, x, writes, k);
    if k >= 1 {
      WriteStaysInside(t, x, from, writes[0]);
    }
    if k == 2 {
      WriteStaysInside(t, Exec(x, writes[0]), from, writes[1]);
    }
  }

  lemma MovedBeneath(from: Name, dest: Name, n: Name)
    requires from <= dest && from < n
    ensures from < Moved(from, dest, n)
  {
    var d := Moved(from, dest, n);
    assert dest <= d && |d| > |dest|;
    assert d[..|from|] == dest[..|from|] == from;
  }

  /** Then every file that is written is beneath the source. */
  lemma LoopStaysInside(t: Tree, from: Name, dest: Name, remove: bool, es: seq<FileKey>)
    requires (forall e :: e in es ==> from < e.name) && from <= dest
    ensures SameOutside(t, Replay(t, RunAll(Exec, TransferStep(from, dest, remove), t, es).writes), from)
  {
    var inv := (x: Tree) => SameOutside(t, x, from);
    forall x, e | e in es ensures StepKeeps(inv, Exec, TransferStep(from, dest, remove), x, e) {
      if SameOutside(t, x, from) {
        forall k: nat | k <= |TransferStep(from, dest, remove)(x, e).writes|
          ensures SameOutside(t, After(Exec, x, TransferStep(from, dest, remove)(x, e).writes[..k]), from)
        {
          MovedBeneath(from, dest, e.name);
          TransferStaysInside(t, x, from, e.name, Moved(from, dest, e.name), remove, k);
        }
      }
    }
    var writes := RunAll(Exec, TransferStep(from, dest, remove), t, es).writes;
    RunKeeps(inv, Exec, TransferStep(from, dest, remove), t, es, |writes|);
    assert writes[..|writes|] == writes;
  }

  lemma MoveInsideLeaves(t: Tree, from: Name, dest: Name, es: seq<FileKey>)
    requires IsListing(t, from, es) && from <= dest && TransferDir(t, from, dest, true, es).ok
    ensures MoveLeaves(t, Replay(t, TransferDir(t, from, dest, true, es).writes), from, dest)
  {
    var x := Replay(t, RunAll(Exec, TransferStep(from, dest, true), t, es).writes);
    MoveIsLoopThenRemove(t, from, dest, es);
    LoopStaysInside(t, from, dest, true, es);
    RemoveTreeReads(x, from);
    forall n | IsSource(t, from, n) ensures from < Moved(from, dest, n) {
      MovedBeneath(from, dest, n);
    }
    forall n | !(from < n) ensures Get(x, n) == Get(t, n) {
      assert FileKey(n, Gpg).name == n && FileKey(n, Age).name == n;
    }
  }

  // ---------- any destination ----------

  /** Every listed entry reads at its new name as it read at the old, unless the new name
    * is beneath the source, where it is lost; nothing is left beneath the source; no
    * other name changes. */
  lemma MoveRelocates(t: Tree, from: Name, dest: Name, es: seq<FileKey>)
    requires IsListing(t, from, es) && (from <= dest || NotTaken(t, from, dest))
    requires TransferDir(t, from, dest, true, es).ok
    ensures MoveLeaves(t, Replay(t, TransferDir(t, from, dest, true, es).writes), from, dest)
  {
    if from <= dest {
      MoveInsideLeaves(t, from, dest, es);
    } else {
      MoveIsLoopThenRemove(t, from, dest, es);
      LoopCompletes(t, from, dest, true, es);
      RemoveTreeReads(Replay(t, RunAll(Exec, TransferStep(from, dest, true), t, es).writes), from);
    }
  }

  /** The exact condition: an entry is relocated if and only if its new name is not
    * beneath the source. */
  lemma RelocatedExactly(t: Tree, from: Name, dest: Name, es: seq<FileKey>, n: Name)
    requires IsListing(t, from, es) && (from <= dest || NotTaken(t, from, dest)) && IsSource(t, from, n)
    requires TransferDir(t, from, dest, true, es).ok
    ensures Get(Replay(t, TransferDir(t, from, dest, true, es).writes), Moved(from, dest, n)) == Get(t, n)
            <==> !(from < Moved(from, dest, n))
  {
    MoveRelocates(t, from, dest, es);
  }

  lemma PrefixesCompare(a: Name, b: Name, c: Name)
    requires a <= c && b <= c
    ensures a <= b || b <= a
  {
    if |a| <= |b| {
      assert a == c[..|a|] && b[..|a|] == c[..|a|];
    } else {
      assert b == c[..|b|] && a[..|b|] == c[..|b|];
    }
  }

  /** A destination outside the source, not above it either, loses nothing. */
  lemma MoveOutsideRelocates(t: Tree, from: Name, dest: Name, es: seq<FileKey>, n: Name)
    requires IsListing(t, from, es) && NotTaken(t, from, dest) && IsSource(t, from, n)
    requires TransferDir(t, from, dest, true, es).ok
    requires !(from <= dest) && !(dest <= from)
    ensures Get(Replay(t, TransferDir(t, from, dest, true, es).writes), Moved(from, dest, n)) == Get(t, n)
  {
    RelocatedExactly(t, from, dest, es, n);
    if from < Moved(from, dest, n) {
      PrefixesCompare(from, dest, Moved(from, dest, n));
    }
  }

  /** Moving a folder onto or into itself destroys every entry in it, whatever names are taken. */
  lemma MoveIntoItselfDestroys(t: Tree, from: Name, dest: Name, es: seq<FileKey>, n: Name)
    requires IsListing(t, from, es) && TransferDir(t, from, dest, true, es).ok
    requires from <= dest && IsSource(t, from, n)
    ensures var z := Replay(t, TransferDir(t, from, dest, true, es).writes);
            Get(z, n) == None && Get(z, Moved(from, dest, n)) == None
  {
    MoveRelocates(t, from, dest, es);
    MovedBeneath(from, dest, n);
  }

  /** `mv a/b a` and `mv a a` are such moves: a folder moved to the folder it is in resolves to
    * itself, and a folder moved to itself to a name inside it. */
  lemma ResolvedIntoItself(t: Tree, from: Name, into: bool)
    requires from != [] && from in t.dirs
    ensures into || Parent(from) in t.dirs ==> ResolveDest(t, from, Parent(from), into) == from
    ensures from < ResolveDest(t, from, from, into)
  {
    assert from == Parent(from) + Base(from);
  }

  /** So moving a folder to the folder it is already in empties it. */
  lemma MoveToOwnParentDestroys(t: Tree, from: Name, into: bool, es: seq<FileKey>, n: Name)
    requires from != [] && from in t.dirs && Parent(from) in t.dirs
    requires IsListing(t, from, es) && IsSource(t, from, n)
    requires TransferDir(t, from, ResolveDest(t, from, Parent(from), into), true, es).ok
    ensures Get(t, n).Some?
    ensures Get(Replay(t, TransferDir(t, from, ResolveDest(t, from, Parent(from), into), true, es).writes), n) == None
  {
    ResolvedIntoItself(t, from, into);
    MoveIntoItselfDestroys(t, from, from, es, n);
  }

  // ---------- part way ----------

  /** Every listed entry reads at its old or its new name, and no name outside the folder that is
    * not a new one has changed. */
  ghost predicate Somewhere(t: Tree, y: Tree, from: Name, dest: Name) {
    && (forall m :: IsSource(t, from, m) ==> Get(y, m) == Get(t, m) || Get(y, Moved(from, dest, m)) == Get(t, m))
    && (forall m :: !(from < m) && !IsDestination(t, from, dest, m) ==> Get(y, m) == Get(t, m))
  }

  lemma ProgressIsSomewhere(t: Tree, x: Tree, from: Name, dest: Name, remove: bool, es: seq<FileKey>, i: nat)
    requires Progress(t, x, from, dest, remove, es, i)
    ensures Somewhere(t, x, from, dest)
  {
    forall m | IsSource(t, from, m) ensures Get(x, m) == Get(t, m) || Get(x, Moved(from, dest, m)) == Get(t, m) {
      assert Processed(es, i, m) || Waiting(t, x, m, Moved(from, dest, m));
    }
    forall m | !(from < m) && !IsDestination(t, from, dest, m) ensures Get(x, m) == Get(t, m) {
      assert !IsSource(t, from, m) && SameAt(t, x, m);
    }
  }

  /** Between writing the new file and dropping the old one. */
  lemma HalfTransferred(t: Tree, x: Tree, y: Tree, from: Name, dest: Name, es: seq<FileKey>, i: nat)
    requires IsListing(t, from, es) && NotTaken(t, from, dest) && i < |es|
    requires Progress(t, x, from, dest, true, es, i)
    requires Transferred(x, y, es[i].name, Moved(from, dest, es[i].name), false)
    ensures Somewhere(t, y, from, dest)
  {
    var n := es[i].name;
    var d := Moved(from, dest, n);
    ListedIsSource(t, from, es, i);
    ProgressIsSomewhere(t, x, from, dest, true, es, i);
    forall m | IsSource(t, from, m) ensures Get(y, m) == Get(t, m) || Get(y, Moved(from, dest, m)) == Get(t, m) {
      Apart(t, from, dest, n, m);
      if m != n {
        ElsewhereSame(x, y, n, d, false, m);
        ElsewhereSame(x, y, n, d, false, Moved(from, dest, m));
      } else {
        OwnHalf(t, x, y, n, d, Processed(es, i, n));
      }
    }
    forall m | !(from < m) && !IsDestination(t, from, dest, m) ensures Get(y, m) == Get(t, m) {
      ElsewhereSame(x, y, n, d, false, m);
    }
  }

  lemma OwnHalf(t: Tree, x: Tree, y: Tree, n: Name, d: Name, arrived: bool)
    requires n != d && Transferred(x, y, n, d, false)
    requires if arrived then Arrived(t, x, n, d, true) else Waiting(t, x, n, d)
    ensures Get(y, n) == Get(t, n) || Get(y, d) == Get(t, n)
  {
    if arrived {
      assert FileKey(d, Gpg) in x.files;
    } else {
      assert Get(x, n) == Get(t, n);
    }
  }

  lemma EntryPartWay(t: Tree, x: Tree, from: Name, dest: Name, remove: bool, es: seq<FileKey>, i: nat, k: nat)
    requires IsListing(t, from, es) && NotTaken(t, from, dest) && i < |es|
    requires Progress(t, x, from, dest, remove, es, i)
    requires k <= |TransferEntry(x, es[i].name, Moved(from, dest, es[i].name), remove).writes|
    ensures Somewhere(t, Replay(x, TransferEntry(x, es[i].name, Moved(from, dest, es[i].name), remove).writes[..k]), from, dest)
  {
    var n := es[i].name;
    var d := Moved(from, dest, n);
    var one := TransferEntry(x, n, d, remove);
    ListedIsSource(t, from, es, i);
    Apart(t, from, dest, n, n);
    AfterPrefix(Exec, x, one.writes, k);
    if k == 0 {
      ProgressIsSomewhere(t, x, from, dest, remove, es, i);
    } else if k == |one.writes| {
      assert one.writes[..k] == one.writes;
      EntryTransferred(x, n, d, remove);
      StepProgress(t, x, Replay(x, one.writes), from, dest, remove, es, i);
      ProgressIsSomewhere(t, Replay(x, one.writes), from, dest, remove, es, i + 1);
    } else {
      OneWriteTransfers(x, n, d, false, one.writes[0].file);
      HalfTransferred(t, x, Exec(x, one.writes[0]), from, dest, es, i);
    }
  }

  lemma EntryPasses(t: Tree, x: Tree, from: Name, dest: Name, remove: bool, es: seq<FileKey>, i: nat)
    requires IsListing(t, from, es) && NotTaken(t, from, dest) && i < |es|
    requires Progress(t, x, from, dest, remove, es, i)
    ensures var one := TransferEntry(x, es[i].name, Moved(from, dest, es[i].name), remove);
      && (forall k: nat :: k <= |one.writes| ==> Somewhere(t, Replay(x, one.writes[..k]), from, dest))
      && (one.ok ==> Progress(t, Replay(x, one.writes), from, dest, remove, es, i + 1))
  {
    var n := es[i].name;
    var d := Moved(from, dest, n);
    var one := TransferEntry(x, n, d, remove);
    forall k: nat | k <= |one.writes| ensures Somewhere(t, Replay(x, one.writes[..k]), from, dest) {
      EntryPartWay(t, x, from, dest, remove, es, i, k);
    }
    if one.ok {
      ListedIsSource(t, from, es, i);
      Apart(t, from, dest, n, n);
      EntryTransferred(x, n, d, remove);
      StepProgress(t, x, Replay(x, one.writes), from, dest, remove, es, i);
    }
  }

  ghost function ProgressOf(t: Tree, from: Name, dest: Name, remove: bool, es: seq<FileKey>): (nat, Tree) -> bool {
    (i: nat, x: Tree) => Progress(t, x, from, dest, remove, es, i)
  }

  ghost function SomewhereOf(t: Tree, from: Name, dest: Name): Tree -> bool {
    (x: Tree) => Somewhere(t, x, from, dest)
  }

  lemma EntryJobPasses(t: Tree, x: Tree, from: Name, dest: Name, remove: bool, es: seq<FileKey>, i: nat)
    requires IsListing(t, from, es) && NotTaken(t, from, dest) && i < |es|
    ensures JobPasses(ProgressOf(t, from, dest, remove, es), SomewhereOf(t, from, dest), Exec, TransferStep(from, dest, remove), x, es, i)
  {
    assert TransferStep(from, dest, remove)(x, es[i]) == TransferEntry(x, es[i].name, Moved(from, dest, es[i].name), remove);
    if Progress(t, x, from, dest, remove, es, i) {
      EntryPasses(t, x, from, dest, remove, es, i);
    }
  }

  lemma LoopPartWay(t: Tree, from: Name, dest: Name, remove: bool, es: seq<FileKey>, k: nat)
    requires IsListing(t, from, es) && NotTaken(t, from, dest)
    requires k <= |RunAll(Exec, TransferStep(from, dest, remove), t, es).writes|
    ensures Somewhere(t, Replay(t, RunAll(Exec, TransferStep(from, dest, remove), t, es).writes[..k]), from, dest)
  {
    StartOfLoop(t, from, dest, remove, es);
    ProgressIsSomewhere(t, t, from, dest, remove, es, 0);
    assert ProgressOf(t, from, dest, remove, es)(0, t) && SomewhereOf(t, from, dest)(t);
    assert es[0..] == es;
    PartWayBy(ProgressOf(t, from, dest, remove, es), SomewhereOf(t, from, dest), t, from, dest, remove, es, k);
  }

  lemma PartWayBy(p: (nat, Tree) -> bool, q: Tree -> bool, t: Tree, from: Name, dest: Name, remove: bool, es: seq<FileKey>, k: nat)
    requires p == ProgressOf(t, from, dest, remove, es) && q == SomewhereOf(t, from, dest)
    requires IsListing(t, from, es) && NotTaken(t, from, dest) && p(0, t) && q(t) && es[0..] == es
    requires k <= |RunAll(Exec, TransferStep(from, dest, remove), t, es).writes|
    ensures q(After(Exec, t, RunAll(Exec, TransferStep(from, dest, remove), t, es).writes[..k]))
  {
    forall i: nat, x | i < |es| ensures JobPasses(p, q, Exec, TransferStep(from, dest, remove), x, es, i) {
      EntryJobPasses(t, x, from, dest, remove, es, i);
    }
    RunPasses(p, q, Exec, TransferStep(from, dest, remove), t, es, 0, k);
  }

  /** After any number of writes of a folder move to a destination neither at, beneath nor above
    * the source, each listed entry reads as before at its old or its new name, and nothing else
    * outside the folder has changed. */
  lemma MoveNeverLoses(t: Tree, from: Name, dest: Name, es: seq<FileKey>, k: nat)
    requires IsListing(t, from, es) && NotTaken(t, from, dest)
    requires !(from <= dest) && !(dest <= from)
    requires k <= |TransferDir(t, from, dest, true, es).writes|
    ensures Somewhere(t, Replay(t, TransferDir(t, from, dest, true, es).writes[..k]), from, dest)
  {
    var whole := TransferDir(t, from, dest, true, es);
    var moved := RunAll(Exec, TransferStep(from, dest, true), t, es);
    if k <= |moved.writes| {
      LoopPartWay(t, from, dest, true, es, k);
      assert whole.writes[..k] == moved.writes[..k];
    } else {
      assert whole.writes[..k] == whole.writes;
      MoveRelocates(t, from, dest, es);
      forall m | IsSource(t, from, m) ensures Get(Replay(t, whole.writes), Moved(from, dest, m)) == Get(t, m) {
        MoveOutsideRelocates(t, from, dest, es, m);
      }
    }
  }

  /** A completed copy of a folder keeps the source and touches nothing else. */
  lemma CopyDuplicates(t: Tree, from: Name, dest: Name, es: seq<FileKey>)
    requires IsListing(t, from, es) && NotTaken(t, from, dest)
    requires TransferDir(t, from, dest, false, es).ok
    ensures var z := Replay(t, TransferDir(t, from, dest, false, es).writes);
            && (forall n :: IsSource(t, from, n) ==> Get(z, Moved(from, dest, n)) == Get(t, n))
            && (forall n :: !IsDestination(t, from, dest, n) ==> Get(z, n) == Get(t, n))
  {
    LoopCompletes(t, from, dest, false, es);
  }
}
