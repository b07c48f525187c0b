/** Folders come and go with what is in them: every file has its folders, whatever operations make
  * and prune them, and wherever they are cut short.
  */
module Folders {
  import opened Runs
  import opened StoreTree
  import opened Governance

  /** Every folder but the root is in a folder, every entry is in one, and every recipients file. */
  ghost predicate Housed(t: Tree) {
    && [] in t.dirs
    && (forall e :: e in t.dirs ==> Parent(e) in t.dirs)
    && (forall k :: k in t.files ==> Parent(k.name) in t.dirs)
    && (forall k :: k in t.recipients ==> k.name in t.dirs)
  }

  lemma WithDirKeeps(t: Tree, dir: Name)
    requires Housed(t)
    ensures Housed(WithDir(t, dir)) && dir in WithDir(t, dir).dirs
  {
    assert dir == dir[..|dir|];
    forall e | e in Ancestors(dir) ensures Parent(e) in Ancestors(dir) {
      assert e != [] ==> Parent(e) == dir[..|e| - 1];
    }
  }

  /** Pruning takes no folder that something is in. */
  lemma {:induction false} PruneKeepsHoused(t: Tree, d: Name)
    requires Housed(t)
    ensures Housed(Prune(t, d))
    decreases |d|
  {
    if !(d == [] || d !in t.dirs || Occupied(t, d)) {
      PruneKeepsHoused(t.(dirs := t.dirs - {d}), Parent(d));
    }
  }

  lemma RemoveTreeKeepsHoused(t: Tree, d: Name)
    requires Housed(t) && d != []
    ensures Housed(Exec(t, RemoveTree(d)))
  {
    forall e: Name | d <= Parent(e) ensures d <= e && d < e {
      assert Parent(e) <= e;
    }
  }

  lemma WriteKeepsHoused(t: Tree, x: Write)
    requires Housed(t) && Everyday(x)
    ensures Housed(Exec(t, x))
  {
    match x
    case PutFile(k, f) => WithDirKeeps(t, Parent(k.name));
    case DropFile(k) => PruneKeepsHoused(t.(files := t.files - {k}), Parent(k.name));
    case MoveFile(from, to) =>
      if from in t.files {
        WithDirKeeps(t, Parent(to.name));
        PruneKeepsHoused(WithDir(t, Parent(to.name)).(files := (t.files - {from})[to := t.files[from]]), Parent(from.name));
      }
    case MakeDir(d) => WithDirKeeps(t, d);
    case RemoveTree(d) => RemoveTreeKeepsHoused(t, d);
  }

  lemma {:induction false} ReplayKeepsHoused(t: Tree, writes: seq<Write>)
    requires Housed(t) && forall x :: x in writes ==> Everyday(x)
    ensures Housed(Replay(t, writes))
    decreases |writes|
  {
    if writes != [] {
      var n := |writes| - 1;
      ReplayKeepsHoused(t, writes[..n]);
      assert writes[n] in writes;
      WriteKeepsHoused(Replay(t, writes[..n]), writes[n]);
    }
  }

  /** Every history of operations, each cut short at any write, keeps every file in its folders. */
  lemma {:induction false} FoldersAreInvariant(def: Backend, t: Tree, ops: seq<Op>, x: Tree)
    requires Housed(t) && Reaches(def, t, ops, x)
    ensures Housed(x)
    decreases |ops|
  {
    if ops != [] {
      var o, n: nat :| Performs(t, def, ops[0], o) && n <= |o.writes| && Reaches(def, Replay(t, o.writes[..n]), ops[1..], x);
      OpWritesSpareRoot(t, def, ops[0], o);
      assert forall w :: w in o.writes[..n] ==> w in o.writes;
      ReplayKeepsHoused(t, o.writes[..n]);
      FoldersAreInvariant(def, Replay(t, o.writes[..n]), ops[1..], x);
    }
  }

  /** So does initialising, which makes the folder before it writes there. */
  lemma InitKeepsHoused(t: Tree, def: Backend, sub: Name, rcp: seq<Recipient>, n: nat)
    requires Housed(t) && n <= |InitWrites(def, sub, rcp).writes|
    ensures Housed(Replay(t, InitWrites(def, sub, rcp).writes[..n]))
  {
    var writes := InitWrites(def, sub, rcp).writes;
    WithDirKeeps(t, sub);
    AfterPrefix(Exec, t, writes, n);
  }
}
