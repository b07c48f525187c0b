/** What each operation on the store means to its readers: which name reads as what afterwards, in
  * which format, for whom, and which folders there are.
  */
module StoreEffects {
  import opened Wrappers
  import opened Runs
  import opened StoreTree

  // ---------- who governs ----------

  /** A recipients file of this format in a folder on the way from `dir` to the root. */
  predicate Above(recipients: map<FileKey, seq<Recipient>>, dir: Name, b: Backend, at: Name) {
    at <= dir && FileKey(at, b) in recipients
  }

  /** The governing recipients are those of the nearest such file, and one that lists nobody gives
    * none.
    */
  lemma {:induction false} GoverningIsNearest(recipients: map<FileKey, seq<Recipient>>, dir: Name, b: Backend, at: Name)
    requires Above(recipients, dir, b, at) && forall o :: Above(recipients, dir, b, o) ==> |o| <= |at|
    ensures Governing(recipients, dir, b) ==
            if recipients[FileKey(at, b)] == [] then None else Some(recipients[FileKey(at, b)])
    decreases |dir|
  {
    if FileKey(dir, b) in recipients {
      assert Above(recipients, dir, b, dir);
      assert |at| == |dir| && at == dir[..|at|] == dir;
    } else {
      assert at != dir && dir != [] && Parent(dir) <= dir;
      assert at <= Parent(dir) by {
        assert |at| < |dir| && at == dir[..|at|] == Parent(dir)[..|at|];
      }
      forall o | Above(recipients, Parent(dir), b, o) ensures |o| <= |at| {
        assert o <= dir;
      }
      GoverningIsNearest(recipients, Parent(dir), b, at);
    }
  }

  lemma {:induction false} NoneGoverns(recipients: map<FileKey, seq<Recipient>>, dir: Name, b: Backend)
    requires forall o :: !Above(recipients, dir, b, o)
    ensures Governing(recipients, dir, b) == None
    decreases |dir|
  {
    assert !Above(recipients, dir, b, dir);
    if dir != [] {
      forall o ensures !Above(recipients, Parent(dir), b, o) {
        if o <= Parent(dir) {
          assert Parent(dir) <= dir && o <= dir;
          assert !Above(recipients, dir, b, o);
        }
      }
      NoneGoverns(recipients, Parent(dir), b);
    }
  }

  // ---------- reading ----------

  /** An entry in both formats reads from the first, one in a single format from that. */
  lemma ReadsFirstFormat(t: Tree, n: Name)
    ensures FileKey(n, Gpg) in t.files ==> Get(t, n) == Some(t.files[FileKey(n, Gpg)].plain)
    ensures FileKey(n, Gpg) !in t.files && FileKey(n, Age) in t.files ==> Get(t, n) == Some(t.files[FileKey(n, Age)].plain)
    ensures FileKey(n, Gpg) !in t.files && FileKey(n, Age) !in t.files ==> Get(t, n) == None
  {
  }

  /** Walking a folder reports the entries beneath it without a component that starts with a dot. */
  lemma ListingShows(t: Tree, sub: Name, es: seq<FileKey>, k: FileKey)
    requires IsListing(t, sub, es)
    ensures k in es <==>
      k in t.files && sub < k.name && forall i :: |sub| <= i < |k.name| ==> k.name[i] == "" || k.name[i][0] != '.'
  {
    forall i | 0 <= i < |k.name| ensures Hidden(k.name[i]) <==> k.name[i] != "" && k.name[i][0] == '.' {
    }
  }

  // ---------- Set ----------

  /** The format an entry is written in: the one it has, or for a new entry the default's if the
    * folder has recipients for it, or else the other's.
    */
  lemma FormatOfSet(t: Tree, def: Backend, n: Name, plain: string)
    requires SetWrites(t, def, n, plain).ok
    ensures var b := SetFormat(t, def, n, plain);
      && (Find(t, n).Some? ==> b == Find(t, n).value)
      && (Find(t, n).None? && Governing(t.recipients, Parent(n), def).Some? ==> b == def)
      && (Find(t, n).None? && Governing(t.recipients, Parent(n), def).None? ==> b == Other(def))
      && Other(def) != def
  {
  }

  /** The format of the one file that is written. */
  function SetFormat(t: Tree, def: Backend, n: Name, plain: string): Backend
    requires SetWrites(t, def, n, plain).ok
  {
    SetWrites(t, def, n, plain).writes[0].key.backend
  }

  /** After a Set the name reads as what was set, sealed for whoever governs its folder; every other
    * name reads as before, and no recipients file has changed.
    */
  lemma SetMeans(t: Tree, def: Backend, n: Name, plain: string)
    requires SetWrites(t, def, n, plain).ok
    ensures var x, k := Replay(t, SetWrites(t, def, n, plain).writes), FileKey(n, SetFormat(t, def, n, plain));
      && Get(x, n) == Some(plain)
      && (forall m :: m != n ==> Get(x, m) == Get(t, m) && Find(x, m) == Find(t, m))
      && x.recipients == t.recipients
      && k in x.files && Some(x.files[k].to) == Governing(t.recipients, Parent(n), k.backend)
      && (forall o: FileKey :: o != k ==> (o in x.files <==> o in t.files) && (o in x.files ==> x.files[o] == t.files[o]))
      && Find(x, n) == Some(k.backend)
  {
    var writes := SetWrites(t, def, n, plain).writes;
    AfterOne(Exec, t, writes[0]);
    ExecFiles(t, writes[0]);
  }

  /** It fails, writing nothing, exactly when nobody governs the folder in the entry's format, or for
    * a new entry in either.
    */
  lemma SetSucceedsExactly(t: Tree, def: Backend, n: Name, plain: string)
    ensures SetWrites(t, def, n, plain).ok <==>
              if Find(t, n).Some? then Governing(t.recipients, Parent(n), Find(t, n).value).Some?
              else n != [] && exists b :: Governing(t.recipients, Parent(n), b).Some?
    ensures !SetWrites(t, def, n, plain).ok ==> SetWrites(t, def, n, plain).writes == []
  {
    if Find(t, n).None? && n != [] {
      if b :| Governing(t.recipients, Parent(n), b).Some? {
        assert b == def || b == Other(def);
      }
      assert Governing(t.recipients, Parent(n), def).Some? || Governing(t.recipients, Parent(n), Other(def)).Some? <==>
             exists b :: Governing(t.recipients, Parent(n), b).Some?;
    }
  }

  // ---------- Remove ----------

  /** Removing takes away the file the name was read from: it then reads from the other format, if it
    * was kept in both, and not at all otherwise; every other name reads as before.
    */
  lemma RemoveMeans(t: Tree, n: Name)
    ensures RemoveWrites(t, n).ok <==> Get(t, n).Some?
    ensures !RemoveWrites(t, n).ok ==> RemoveWrites(t, n).writes == []
    ensures var x := Replay(t, RemoveWrites(t, n).writes);
      && x.recipients == t.recipients
      && (forall m :: m != n ==> Get(x, m) == Get(t, m))
      && (RemoveWrites(t, n).ok ==>
            Get(x, n) == if FileKey(n, Gpg) in t.files && FileKey(n, Age) in t.files then Some(t.files[FileKey(n, Age)].plain) else None)
  {
    if Find(t, n).Some? {
      var drop := DropFile(FileKey(n, Find(t, n).value));
      AfterOne(Exec, t, drop);
      ExecFiles(t, drop);
    }
  }

  // ---------- RemoveDir ----------

  /** A folder is removed with everything beneath it and nothing else; the root is refused. */
  lemma RemoveDirMeans(t: Tree, d: Name)
    ensures RemoveDirWrites(d).ok <==> d != []
    ensures d == [] ==> RemoveDirWrites(d).writes == []
    ensures d != [] ==>
      var x := Replay(t, RemoveDirWrites(d).writes);
      && (forall n :: Get(x, n) == if d < n then None else Get(t, n))
      && (forall k :: k in x.recipients <==> k in t.recipients && !(d <= k.name))
      && (forall k :: k in x.recipients ==> x.recipients[k] == t.recipients[k])
      && (forall e :: e in x.dirs <==> e in t.dirs && !(d <= e))
  {
    if d != [] {
      AfterOne(Exec, t, RemoveTree(d));
    }
  }

  // ---------- Init ----------

  /** Initialising makes the folder and its parents. With recipients it succeeds, and then the folder
    * is governed by exactly these, and so is every folder beneath that has no nearer recipients
    * file of the default's format; without recipients it fails. No entry is touched.
    */
  lemma InitMeans(t: Tree, def: Backend, sub: Name, rcp: seq<Recipient>)
    ensures InitWrites(def, sub, rcp).ok <==> rcp != []
    ensures var x := Replay(t, InitWrites(def, sub, rcp).writes);
      && x.files == t.files
      && (forall e :: e in x.dirs <==> e in t.dirs || e <= sub)
      && (rcp == [] ==> x.recipients == t.recipients)
      && (rcp != [] ==>
            && x.recipients == t.recipients[FileKey(sub, def) := rcp]
            && Governing(x.recipients, sub, def) == Some(rcp))
  {
    var writes := InitWrites(def, sub, rcp).writes;
    AfterPrefix(Exec, t, writes, |writes|);
    assert writes[..|writes|] == writes;
    forall e ensures e in Ancestors(sub) <==> e <= sub {
      if e <= sub {
        assert e == sub[..|e|];
      }
    }
  }

  lemma LongerPrefix(a: Name, b: Name, c: Name)
    requires a <= c && b <= c
    ensures |a| < |b| ==> a < b
  {
    assert |a| <= |b| ==> a == c[..|a|] == b[..|a|];
  }

  lemma InitGovernsBeneath(t: Tree, def: Backend, sub: Name, rcp: seq<Recipient>, dir: Name)
    requires rcp != [] && sub <= dir
    requires forall o :: sub < o <= dir ==> FileKey(o, def) !in t.recipients
    ensures Governing(Replay(t, InitWrites(def, sub, rcp).writes).recipients, dir, def) == Some(rcp)
  {
    InitMeans(t, def, sub, rcp);
    var recipients := Replay(t, InitWrites(def, sub, rcp).writes).recipients;
    assert Above(recipients, dir, def, sub);
    forall o | Above(recipients, dir, def, o) ensures |o| <= |sub| {
      LongerPrefix(sub, o, dir);
    }
    GoverningIsNearest(recipients, dir, def, sub);
  }

  // ---------- transfers ----------

  /** The ciphertext a transfer leaves at the destination. */
  function Delivered(t: Tree, from: Name, to: Name, remove: bool): Sealed
    requires TransferEntry(t, from, to, remove).ok
  {
    match TransferEntry(t, from, to, remove).writes[0]
    case PutFile(_, f) => f
    case MoveFile(src, _) => t.files[src]
  }

  lemma DeliveredIsThere(t: Tree, from: Name, to: Name, remove: bool)
    requires from != to && TransferEntry(t, from, to, remove).ok
    ensures var x, b := Replay(t, TransferEntry(t, from, to, remove).writes), Find(t, from).value;
      && x.files == (if remove then t.files - {FileKey(from, b)} else t.files)[FileKey(to, b) := Delivered(t, from, to, remove)]
  {
    var writes := TransferEntry(t, from, to, remove).writes;
    var src, dst := FileKey(from, Find(t, from).value), FileKey(to, Find(t, from).value);
    ExecFiles(t, writes[0]);
    if |writes| == 1 {
      assert writes == [writes[0]];
      AfterOne(Exec, t, writes[0]);
    } else {
      assert writes == [PutFile(dst, Delivered(t, from, to, remove)), DropFile(src)];
      AfterTwo(Exec, t, writes[0], writes[1]);
      ExecFiles(Exec(t, writes[0]), writes[1]);
    }
  }

  /** A transfer of one entry succeeds exactly when the entry is there and, unless it stays in its
    * folder, somebody governs both folders in its format; it writes nothing otherwise.
    */
  lemma TransferSucceedsExactly(t: Tree, from: Name, to: Name, remove: bool)
    ensures TransferEntry(t, from, to, remove).ok <==>
      && Find(t, from).Some?
      && (Parent(from) == Parent(to)
          || (Governing(t.recipients, Parent(from), Find(t, from).value).Some? && Governing(t.recipients, Parent(to), Find(t, from).value).Some?))
    ensures !TransferEntry(t, from, to, remove).ok ==> TransferEntry(t, from, to, remove).writes == []
  {
  }

  /** Between folders of one list of recipients the ciphertext goes as it is; otherwise it is sealed
    * for whoever governs the destination. Either way in the format it had.
    */
  lemma TransferSeals(t: Tree, from: Name, to: Name, remove: bool)
    requires TransferEntry(t, from, to, remove).ok
    ensures Find(t, from).Some?
    ensures var b := Find(t, from).value;
      var f, was := Delivered(t, from, to, remove), t.files[FileKey(from, b)];
      && f.plain == was.plain
      && (Parent(from) == Parent(to) ==> f == was)
      && (Parent(from) != Parent(to) ==>
            var r, s := Governing(t.recipients, Parent(from), b), Governing(t.recipients, Parent(to), b);
            r.Some? && s.Some? && if multiset(r.value) == multiset(s.value) then f == was else f.to == s.value)
  {
  }

  /** A destination is taken as it stands unless it is a folder or was written as one. */
  lemma DestinationMeans(t: Tree, from: Name, to: Name, into: bool)
    ensures !into && to !in t.dirs ==> ResolveDest(t, from, to, into) == to
    ensures from != [] && (into || to in t.dirs) ==> ResolveDest(t, from, to, into) == to + [from[|from| - 1]]
  {
  }

  // ---------- folders ----------

  /** The folders on the way to a file that is written exist. */
  lemma WrittenFileHasFolders(t: Tree, k: FileKey, f: Sealed, e: Name)
    requires e <= Parent(k.name)
    ensures e in Exec(t, PutFile(k, f)).dirs
  {
    assert e == Parent(k.name)[..|e|];
  }

  /** Removing a file takes with it the folders it leaves empty: none stays on the way up. */
  lemma {:induction false} NoEmptyFolderStays(t: Tree, d: Name, e: Name)
    requires forall o :: o <= d ==> o in t.dirs
    requires e <= d && e != [] && e in Prune(t, d).dirs
    ensures Occupied(Prune(t, d), e)
    decreases |d|
  {
    if Occupied(t, d) {
      if e != d {
        ChildOccupies(t, d, e);
      }
    } else {
      var x := t.(dirs := t.dirs - {d});
      assert d != [];
      if e == d {
        PruneShrinks(x, Parent(d));
        assert false;
      } else {
        assert |e| < |d| && e == d[..|e|] == Parent(d)[..|e|];
        forall o | o <= Parent(d) ensures o in x.dirs {
          assert Parent(d) <= d && o <= d;
        }
        NoEmptyFolderStays(x, Parent(d), e);
      }
    }
  }

  lemma ChildOccupies(t: Tree, d: Name, e: Name)
    requires e < d && forall o :: o <= d ==> o in t.dirs
    ensures Occupied(t, e)
  {
    var child := d[..|e| + 1];
    assert child <= d && child in t.dirs && child != [];
    assert Parent(child) == d[..|e|] == e;
  }

  /** Only empty folders go, and only those on the way up; the root stays. */
  lemma {:induction false} PruneShrinks(t: Tree, d: Name)
    ensures Prune(t, d).dirs <= t.dirs
    ensures forall e :: e in t.dirs && e !in Prune(t, d).dirs ==> e <= d && e != []
    decreases |d|
  {
    if !(d == [] || d !in t.dirs || Occupied(t, d)) {
      PruneShrinks(t.(dirs := t.dirs - {d}), Parent(d));
      assert Parent(d) <= d;
    }
  }

  lemma PrunedFolders(t: Tree, d: Name, x: Tree)
    requires x == Prune(t, d) && forall o :: o <= d ==> o in t.dirs
    ensures forall e :: e in x.dirs && e <= d && e != [] ==> Occupied(x, e)
    ensures forall e :: e in t.dirs && !(e <= d) ==> e in x.dirs
    ensures x.dirs <= t.dirs
  {
    PruneShrinks(t, d);
    forall e | e in x.dirs && e <= d && e != [] ensures Occupied(x, e) {
      NoEmptyFolderStays(t, d, e);
    }
  }

  /** So removing an entry leaves no empty folder above it, and takes no other folder away. */
  lemma RemoveLeavesNoEmptyFolder(t: Tree, n: Name, e: Name)
    requires RemoveWrites(t, n).ok && forall o :: o <= Parent(n) ==> o in t.dirs
    ensures var x := Replay(t, RemoveWrites(t, n).writes);
      && (e in x.dirs && e <= Parent(n) && e != [] ==> Occupied(x, e))
      && (e in t.dirs && !(e <= Parent(n)) ==> e in x.dirs)
      && x.dirs <= t.dirs
  {
    var k := FileKey(n, Find(t, n).value);
    AfterOne(Exec, t, DropFile(k));
    PrunedFolders(t.(files := t.files - {k}), Parent(n), Exec(t, DropFile(k)));
  }

  lemma DropLeavesNoEmptyFolder(t: Tree, k: FileKey)
    requires forall o :: o <= Parent(k.name) ==> o in t.dirs
    ensures var x := Exec(t, DropFile(k));
      x.dirs <= t.dirs && forall e :: e in x.dirs && e <= Parent(k.name) && e != [] ==> Occupied(x, e)
  {
    PrunedFolders(t.(files := t.files - {k}), Parent(k.name), Exec(t, DropFile(k)));
  }

  /** Nor does moving an entry leave an empty folder where it was, and it makes only those it goes to. */
  lemma MoveLeavesNoEmptyFolder(t: Tree, from: Name, to: Name)
    requires TransferEntry(t, from, to, true).ok && forall o :: o <= Parent(from) ==> o in t.dirs
    ensures var x := Replay(t, TransferEntry(t, from, to, true).writes);
      && (forall e :: e in x.dirs && e <= Parent(from) && e != [] ==> Occupied(x, e))
      && x.dirs <= t.dirs + Ancestors(Parent(to))
  {
    var writes := TransferEntry(t, from, to, true).writes;
    var b := Find(t, from).value;
    if |writes| == 1 {
      assert writes == [MoveFile(FileKey(from, b), FileKey(to, b))];
      AfterOne(Exec, t, writes[0]);
      var moved := WithDir(t, Parent(to)).(files := (t.files - {FileKey(from, b)})[FileKey(to, b) := t.files[FileKey(from, b)]]);
      PrunedFolders(moved, Parent(from), Prune(moved, Parent(from)));
    } else {
      assert |writes| == 2 && writes[1] == DropFile(FileKey(from, b));
      assert writes == [writes[0], writes[1]];
      AfterTwo(Exec, t, writes[0], writes[1]);
      DropLeavesNoEmptyFolder(Exec(t, writes[0]), FileKey(from, b));
    }
  }
}
