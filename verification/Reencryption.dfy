/** Bulk re-encryption keeps the meaning of the store at every step, completes in one
  * determined state, and can be run again after an interruption.
  */
module Reencryption {
  import opened Wrappers
  import opened Runs
  import opened StoreTree

  // ---------- meaning ----------

  /** Every name reads as in `start`, and the recipients files are the same. */
  ghost predicate SameMeaning(start: Tree, t: Tree) {
    && t.recipients == start.recipients
    && forall n :: Get(t, n) == Get(start, n)
  }

  function TargetOf(to: Option<Backend>, k: FileKey): FileKey {
    if to.Some? then FileKey(k.name, to.value) else k
  }

  /** Rewriting what a name reads as, and dropping the other format after it, changes no
    * reading, whichever formats are there. */
  lemma PutKeepsMeaning(t: Tree, k: FileKey, f: Sealed)
    requires Get(t, k.name) == Some(f.plain)
    ensures SameMeaning(t, Exec(t, PutFile(k, f)))
  {
    ExecFiles(t, PutFile(k, f));
  }

  lemma DropKeepsMeaning(t: Tree, k: FileKey, f: Sealed)
    requires Get(t, k.name) == Some(f.plain)
    requires FileKey(k.name, Other(k.backend)) in t.files && t.files[FileKey(k.name, Other(k.backend))] == f
    ensures SameMeaning(t, Exec(t, DropFile(k)))
  {
    ExecFiles(t, DropFile(k));
  }

  lemma OneKeepsMeaning(start: Tree, t: Tree, k: FileKey, to: Option<Backend>, n: nat)
    requires SameMeaning(start, t) && n <= |ReencryptOne(t, k, to).writes|
    ensures SameMeaning(start, Replay(t, ReencryptOne(t, k, to).writes[..n]))
  {
    var writes := ReencryptOne(t, k, to).writes;
    AfterPrefix(Exec, t, writes, n);
    if n >= 1 {
      PutKeepsMeaning(t, writes[0].key, writes[0].file);
      ExecFiles(t, writes[0]);
    }
    if n == 2 {
      DropKeepsMeaning(Exec(t, writes[0]), k, writes[0].file);
    }
  }

  /** After each write of a re-encryption, finished or not, every name reads as before. */
  lemma ReencryptKeepsMeaning(t: Tree, to: Option<Backend>, es: seq<FileKey>, n: nat)
    requires n <= |ReencryptAll(t, to, es).writes|
    ensures SameMeaning(t, Replay(t, ReencryptAll(t, to, es).writes[..n]))
  {
    var inv := (x: Tree) => SameMeaning(t, x);
    forall x, k | k in es ensures StepKeeps(inv, Exec, ReencryptStep(to), x, k) {
      if SameMeaning(t, x) {
        forall m: nat | m <= |ReencryptStep(to)(x, k).writes|
          ensures SameMeaning(t, After(Exec, x, ReencryptStep(to)(x, k).writes[..m]))
        {
          OneKeepsMeaning(t, x, k, to, m);
        }
      }
    }
    RunKeeps(inv, Exec, ReencryptStep(to), t, es, n);
  }

  // ---------- the completed state ----------

  /** Which files there are after a completed re-encryption. */
  predicate Remains(t: Tree, sub: Name, to: Option<Backend>, k: FileKey) {
    if InScope(sub, k.name) && to.Some? then k.backend == to.value && Find(t, k.name).Some? else k in t.files
  }

  /** A rewritten file holds what the name read as, for whoever governs it now. */
  ghost predicate Rewritten(t: Tree, k: FileKey, f: Sealed) {
    var r := Governing(t.recipients, Parent(k.name), k.backend);
    Get(t, k.name).Some? && r.Some? && f == Sealed(Get(t, k.name).value, r.value)
  }

  ghost predicate IsReencrypted(t: Tree, x: Tree, sub: Name, to: Option<Backend>) {
    && SameMeaning(t, x)
    && (forall k :: k in x.files <==> Remains(t, sub, to, k))
    && (forall k :: k in x.files ==>
          if InScope(sub, k.name) then Rewritten(t, k, x.files[k]) else x.files[k] == t.files[k])
  }

  /** The files after the first `i` entries were done. */
  ghost predicate Progress(t: Tree, x: Tree, sub: Name, to: Option<Backend>, es: seq<FileKey>, i: nat) {
    && SameMeaning(t, x)
    && (forall k: FileKey :: !InScope(sub, k.name) ==> (k in x.files <==> k in t.files) && (k in x.files ==> x.files[k] == t.files[k]))
    && (forall k :: k in x.files && k !in t.files ==> to == Some(k.backend))
    && (forall j :: 0 <= j < i && j < |es| ==> Done(t, x, to, es[j]))
    && (forall j :: i <= j < |es| ==> es[j] in x.files)
  }

  ghost predicate Done(t: Tree, x: Tree, to: Option<Backend>, k: FileKey) {
    && TargetOf(to, k) in x.files && Rewritten(t, TargetOf(to, k), x.files[TargetOf(to, k)])
    && (TargetOf(to, k) != k ==> k !in x.files)
  }

  /** What re-encrypting one file does to the files, when it succeeds. */
  ghost predicate RewritesOne(x: Tree, y: Tree, k: FileKey, to: Option<Backend>) {
    var target := TargetOf(to, k);
    var r := Governing(x.recipients, Parent(k.name), target.backend);
    && Get(x, k.name).Some? && r.Some?
    && var put := x.files[target := Sealed(Get(x, k.name).value, r.value)];
       y.files == if target == k then put else put - {k}
  }

  lemma OneRewrites(x: Tree, k: FileKey, to: Option<Backend>)
    requires ReencryptOne(x, k, to).ok
    ensures RewritesOne(x, Replay(x, ReencryptOne(x, k, to).writes), k, to)
  {
    var writes := ReencryptOne(x, k, to).writes;
    assert writes[..|writes|] == writes;
    AfterPrefix(Exec, x, writes, |writes|);
    ExecFiles(x, writes[0]);
    if |writes| == 2 {
      ExecFiles(Exec(x, writes[0]), writes[1]);
    }
  }

  lemma StepProgress(t: Tree, x: Tree, sub: Name, to: Option<Backend>, es: seq<FileKey>, i: nat)
    requires IsListing(t, sub, es) && i < |es| && Progress(t, x, sub, to, es, i)
    requires ReencryptOne(x, es[i], to).ok
    ensures Progress(t, Replay(x, ReencryptOne(x, es[i], to).writes), sub, to, es, i + 1)
  {
    var k := es[i];
    var writes := ReencryptOne(x, k, to).writes;
    assert writes[..|writes|] == writes;
    OneKeepsMeaning(t, x, k, to, |writes|);
    OneRewrites(x, k, to);
    var y := Replay(x, writes);
    assert k in es;
    RewrittenIsDone(t, x, y, k, to);
    forall j | 0 <= j < |es| && j != i
      ensures j < i ==> Done(t, y, to, es[j])
      ensures i < j ==> es[j] in y.files
    {
      assert es[j] != k;
      if j < i {
        OthersStayDone(t, x, y, k, to, es[j]);
      }
    }
  }

  lemma RewrittenIsDone(t: Tree, x: Tree, y: Tree, k: FileKey, to: Option<Backend>)
    requires SameMeaning(t, x) && RewritesOne(x, y, k, to)
    ensures Done(t, y, to, k)
  {
  }

  lemma OthersStayDone(t: Tree, x: Tree, y: Tree, k: FileKey, to: Option<Backend>, e: FileKey)
    requires SameMeaning(t, x) && RewritesOne(x, y, k, to)
    requires e != k && Done(t, x, to, e)
    ensures Done(t, y, to, e)
  {
  }

  lemma {:induction false} ProgressToEnd(t: Tree, x: Tree, sub: Name, to: Option<Backend>, es: seq<FileKey>, i: nat)
    requires IsListing(t, sub, es) && i <= |es| && Progress(t, x, sub, to, es, i)
    requires ReencryptAll(x, to, es[i..]).ok
    ensures Progress(t, Replay(x, ReencryptAll(x, to, es[i..]).writes), sub, to, es, |es|)
    decreases |es| - i
  {
    if i < |es| {
      RunUnfolds(Exec, ReencryptStep(to), x, es, i);
      StepProgress(t, x, sub, to, es, i);
      ProgressToEnd(t, Replay(x, ReencryptOne(x, es[i], to).writes), sub, to, es, i + 1);
    }
  }

  lemma FileIsRead(t: Tree, k: FileKey)
    requires k in t.files
    ensures Get(t, k.name).Some?
  {
    if k.backend == Gpg {
      assert k == FileKey(k.name, Gpg);
    } else {
      assert k == FileKey(k.name, Age);
    }
  }

  lemma ProgressIsComplete(t: Tree, x: Tree, sub: Name, to: Option<Backend>, es: seq<FileKey>)
    requires IsListing(t, sub, es) && Progress(t, x, sub, to, es, |es|)
    ensures IsReencrypted(t, x, sub, to)
  {
    forall k | k in x.files && InScope(sub, k.name)
      ensures Remains(t, sub, to, k) && Rewritten(t, k, x.files[k])
    {
      FileIsRead(x, k);
      assert Get(t, k.name).Some?;
      var k0 := FileKey(k.name, Find(t, k.name).value);
      if k in t.files {
        k0 := k;
      }
      assert k0 in es;
      var j :| 0 <= j < |es| && es[j] == k0;
      assert Done(t, x, to, es[j]);
    }
    forall k | Remains(t, sub, to, k) ensures k in x.files {
      if InScope(sub, k.name) {
        var k0 := if to.Some? then FileKey(k.name, Find(t, k.name).value) else k;
        assert k0 in es;
        var j :| 0 <= j < |es| && es[j] == k0;
        assert Done(t, x, to, es[j]);
      }
    }
  }

  /** A completed re-encryption: with a target backend every listed entry of the folder is
    * in that format only; each holds what it read as, for its governing recipients; every
    * other file is untouched. */
  lemma ReencryptCompletes(t: Tree, sub: Name, to: Option<Backend>, es: seq<FileKey>)
    requires IsListing(t, sub, es) && ReencryptAll(t, to, es).ok
    ensures IsReencrypted(t, Replay(t, ReencryptAll(t, to, es).writes), sub, to)
  {
    assert es[0..] == es;
    ProgressToEnd(t, t, sub, to, es, 0);
    ProgressIsComplete(t, Replay(t, ReencryptAll(t, to, es).writes), sub, to, es);
  }

  // ---------- interruption ----------

  /** An interrupted run has the same files outside the folder, and inside it the same
    * names; without a target backend, the same files. */
  ghost predicate Interrupted(t: Tree, x: Tree, sub: Name, to: Option<Backend>) {
    && SameMeaning(t, x)
    && (forall k: FileKey :: !InScope(sub, k.name) ==> (k in x.files <==> k in t.files) && (k in x.files ==> x.files[k] == t.files[k]))
    && (to.None? ==> x.files.Keys == t.files.Keys)
  }

  lemma OneIsInterrupted(t: Tree, x: Tree, sub: Name, k: FileKey, to: Option<Backend>, n: nat)
    requires Interrupted(t, x, sub, to) && n <= |ReencryptOne(x, k, to).writes|
    requires k in t.files && InScope(sub, k.name)
    ensures Interrupted(t, Replay(x, ReencryptOne(x, k, to).writes[..n]), sub, to)
  {
    var writes := ReencryptOne(x, k, to).writes;
    OneKeepsMeaning(t, x, k, to, n);
    AfterPrefix(Exec, x, writes, n);
    if n >= 1 {
      ExecFiles(x, writes[0]);
    }
    if n == 2 {
      ExecFiles(Exec(x, writes[0]), writes[1]);
    }
  }

  lemma ReencryptInterrupted(t: Tree, sub: Name, to: Option<Backend>, es: seq<FileKey>, n: nat)
    requires IsListing(t, sub, es) && n <= |ReencryptAll(t, to, es).writes|
    ensures Interrupted(t, Replay(t, ReencryptAll(t, to, es).writes[..n]), sub, to)
  {
    var inv := (x: Tree) => Interrupted(t, x, sub, to);
    forall x, k | k in es ensures StepKeeps(inv, Exec, ReencryptStep(to), x, k) {
      if Interrupted(t, x, sub, to) {
        forall m: nat | m <= |ReencryptStep(to)(x, k).writes|
          ensures Interrupted(t, After(Exec, x, ReencryptStep(to)(x, k).writes[..m]), sub, to)
        {
          OneIsInterrupted(t, x, sub, k, to, m);
        }
      }
    }
    RunKeeps(inv, Exec, ReencryptStep(to), t, es, n);
  }

  // ---------- running again ----------

  /** Nothing stands in the way of rewriting this file: its name reads, and its folder says
    * for whom. */
  ghost predicate Workable(t: Tree, to: Option<Backend>, k: FileKey) {
    Get(t, k.name).Some? && Governing(t.recipients, Parent(k.name), TargetOf(to, k).backend).Some?
  }

  /** A completed run found every file it was to leave workable. */
  lemma CompletedWasWorkable(t: Tree, y: Tree, sub: Name, to: Option<Backend>, k: FileKey)
    requires IsReencrypted(t, y, sub, to) && InScope(sub, k.name) && Remains(t, sub, to, TargetOf(to, k))
    ensures Workable(t, to, k)
  {
    assert TargetOf(to, k) in y.files;
  }

  lemma WorkableSucceeds(t: Tree, x: Tree, k: FileKey, to: Option<Backend>)
    requires SameMeaning(t, x) && Workable(t, to, k) && k in x.files
    ensures ReencryptOne(x, k, to).ok
  {
    assert Get(x, k.name) == Get(t, k.name);
  }

  lemma {:induction false} WorkableRunCompletes(t: Tree, x: Tree, sub: Name, to: Option<Backend>, es: seq<FileKey>, i: nat)
    requires IsListing(t, sub, es) && i <= |es| && Progress(t, x, sub, to, es, i)
    requires forall k :: k in es ==> Workable(t, to, k)
    ensures ReencryptAll(x, to, es[i..]).ok
    decreases |es| - i
  {
    if i < |es| {
      var k := es[i];
      assert k in es;
      WorkableSucceeds(t, x, k, to);
      StepProgress(t, x, sub, to, es, i);
      WorkableRunCompletes(t, Replay(x, ReencryptOne(x, k, to).writes), sub, to, es, i + 1);
      assert es[i..][0] == k && es[i..][1..] == es[i + 1..];
      assert ReencryptStep(to)(x, k) == ReencryptOne(x, k, to);
    }
  }

  /** Running again after an interruption of what would have completed completes. */
  lemma RerunCompletes(t: Tree, x: Tree, y: Tree, sub: Name, to: Option<Backend>, fs: seq<FileKey>)
    requires IsReencrypted(t, y, sub, to) && Interrupted(t, x, sub, to) && IsListing(x, sub, fs)
    ensures ReencryptAll(x, to, fs).ok
  {
    forall k | k in fs ensures Workable(x, to, k) {
      FileIsRead(x, k);
      assert Get(t, k.name) == Get(x, k.name);
      assert Remains(t, sub, to, TargetOf(to, k));
      CompletedWasWorkable(t, y, sub, to, k);
    }
    assert fs[0..] == fs;
    WorkableRunCompletes(x, x, sub, to, fs, 0);
  }

  /** Running again after an interruption completes, and ends in the very files an
    * uninterrupted run leaves, whatever order the listings came in. */
  lemma RerunReachesSameFiles(t: Tree, sub: Name, to: Option<Backend>, es: seq<FileKey>, n: nat, fs: seq<FileKey>)
    requires IsListing(t, sub, es) && ReencryptAll(t, to, es).ok
    requires n <= |ReencryptAll(t, to, es).writes|
    requires IsListing(Replay(t, ReencryptAll(t, to, es).writes[..n]), sub, fs)
    ensures var x := Replay(t, ReencryptAll(t, to, es).writes[..n]);
            ReencryptAll(x, to, fs).ok
            && Replay(x, ReencryptAll(x, to, fs).writes).files == Replay(t, ReencryptAll(t, to, es).writes).files
  {
    var x := Replay(t, ReencryptAll(t, to, es).writes[..n]);
    var y := Replay(t, ReencryptAll(t, to, es).writes);
    ReencryptInterrupted(t, sub, to, es, n);
    ReencryptCompletes(t, sub, to, es);
    RerunCompletes(t, x, y, sub, to, fs);
    ReencryptCompletes(x, sub, to, fs);
    SameEnd(t, x, y, Replay(x, ReencryptAll(x, to, fs).writes), sub, to);
  }

  lemma SameEnd(t: Tree, x: Tree, a: Tree, b: Tree, sub: Name, to: Option<Backend>)
    requires Interrupted(t, x, sub, to)
    requires IsReencrypted(t, a, sub, to) && IsReencrypted(x, b, sub, to)
    ensures a.files == b.files
  {
    forall k ensures Remains(t, sub, to, k) <==> Remains(x, sub, to, k) {
      assert Get(t, k.name) == Get(x, k.name);
    }
    forall k | k in a.files ensures k in b.files && a.files[k] == b.files[k] {
      assert Remains(x, sub, to, k);
      assert Get(t, k.name) == Get(x, k.name);
    }
    forall k | k in b.files ensures k in a.files {
      assert Remains(t, sub, to, k);
    }
  }
}
