/** What every report of an audit satisfies: it accounts for each listing, marks exactly the
  * shared passwords, and for distinct names depends on no order.
  */
module AuditReports {
  import opened Wrappers
  import opened Ordering
  import opened SecretFormat
  import opened Audit

  // ---------- distinct names ----------

  /** Same elements, whatever the order. */
  lemma SameAudited(a: seq<Arrival>, b: seq<Arrival>)
    requires DistinctNames(a) && DistinctNames(b) && SameElements(a, b)
    ensures AuditedOf(a) == AuditedOf(b) && |a| == |b|
  {
    AuditedAre(a);
    AuditedAre(b);
    var x, y := AuditedOf(a), AuditedOf(b);
    assert forall n :: n in x ==> Opened(n, x[n]) in b;
    assert forall n :: n in y ==> Opened(n, y[n]) in a;
    DistinctCount(a, set e | e in a);
    DistinctCount(b, set e | e in a);
  }

  /** The entries and the counters of a report depend neither on the order in which decryptions
    * arrive nor on any order in which the table of hashes is walked.
    */
  lemma ReportIsDetermined(r: Report, r': Report, o: Options, c: Checks, a: seq<Arrival>, b: seq<Arrival>)
    requires DistinctNames(a) && DistinctNames(b) && SameElements(a, b)
    requires IsReport(r, o, c, a) && IsReport(r', o, c, b)
    ensures r.entries == r'.entries && r.stats == r'.stats
  {
    SameAudited(a, b);
    EntryOrder();
    SortedUnique(EntryLess, r.entries, r'.entries);
  }

  lemma TwoIsAnother(s: set<string>, n: string)
    requires n in s
    ensures |s| >= 2 <==> exists m :: m in s && m != n
  {
    var rest := s - {n};
    assert |rest| == |s| - 1;
    if |s| >= 2 {
      assert rest != {};
      var m :| m in rest;
    }
    if m :| m in s && m != n {
      assert m in rest;
    }
  }

  ghost predicate SharesPassword(c: Checks, audited: map<string, string>, n: string)
    requires n in audited
  {
    Password(audited[n]) != "" && exists m :: m != n && m in audited && Hashed(c, audited[m], c.hash(Password(audited[n])))
  }

  /** An audited entry is reported as reused iff another audited entry has the hash of its password. */
  lemma ReusedMeansShared(r: Report, o: Options, c: Checks, arrivals: seq<Arrival>, n: string)
    requires DistinctNames(arrivals) && IsReport(r, o, c, arrivals) && o.reuse
    requires n in AuditedOf(arrivals)
    ensures (exists e, k :: e in r.entries && e.name == n && Reused(k) in e.findings)
            <==> SharesPassword(c, AuditedOf(arrivals), n)
  {
    var audited := AuditedOf(arrivals);
    var h := c.hash(Password(audited[n]));
    var names := Sharing(c, audited, h);
    var own, reuse := OwnFindings(o, c, audited[n]), ReuseFindings(o, c, audited, n);
    var mine := EntryResult(n, own + reuse);
    assert forall k :: Reused(k) in own + reuse <==> Reused(k) in reuse;
    assert (exists e, k :: e in r.entries && e.name == n && Reused(k) in e.findings) <==> reuse != [] by {
      if reuse != [] {
        assert reuse[0] in reuse && mine in r.entries;
        assert mine in r.entries && mine.name == n && Reused(|names|) in mine.findings;
      }
    }
    if Password(audited[n]) != "" {
      TwoIsAnother(names, n);
      assert forall m :: m in names <==> m in audited && Hashed(c, audited[m], h);
    }
  }

  /** So without collisions among them, an audited entry is reported as reused iff another audited entry
    * has the same password, and it is not empty.
    */
  lemma SamePasswordIsReused(r: Report, o: Options, c: Checks, arrivals: seq<Arrival>, n: string)
    requires DistinctNames(arrivals) && IsReport(r, o, c, arrivals) && o.reuse
    requires n in AuditedOf(arrivals)
    requires forall m :: m in AuditedOf(arrivals) && c.hash(Password(AuditedOf(arrivals)[m])) == c.hash(Password(AuditedOf(arrivals)[n])) ==>
               Password(AuditedOf(arrivals)[m]) == Password(AuditedOf(arrivals)[n])
    ensures (exists e, k :: e in r.entries && e.name == n && Reused(k) in e.findings) <==>
      && Password(AuditedOf(arrivals)[n]) != ""
      && exists m :: m != n && m in AuditedOf(arrivals) && Password(AuditedOf(arrivals)[m]) == Password(AuditedOf(arrivals)[n])
  {
    ReusedMeansShared(r, o, c, arrivals, n);
    var audited := AuditedOf(arrivals);
    if Password(audited[n]) != "" {
      forall m | m in audited && Password(audited[m]) == Password(audited[n])
        ensures Hashed(c, audited[m], c.hash(Password(audited[n])))
      {
      }
    }
  }

  /** And it is reported with the number of entries that share it. */
  lemma ReusedCounts(r: Report, o: Options, c: Checks, arrivals: seq<Arrival>, e: EntryResult, k: nat)
    requires DistinctNames(arrivals) && IsReport(r, o, c, arrivals)
    requires e in r.entries && Reused(k) in e.findings
    ensures var audited := AuditedOf(arrivals);
      && e.name in audited && o.reuse
      && k == |set m | m in audited && Hashed(c, audited[m], c.hash(Password(audited[e.name])))| >= 2
  {
    var audited := AuditedOf(arrivals);
    var own, reuse := OwnFindings(o, c, audited[e.name]), ReuseFindings(o, c, audited, e.name);
    assert Reused(k) in own + reuse && Reused(k) !in own;
  }

  // ---------- any listing ----------

  /** The listing's password has this hash. */
  predicate HashedAt(c: Checks, a: Arrival, h: string) {
    a.Opened? && Hashed(c, a.raw, h)
  }

  /** Two listings have one password hash, and the first of them this name. */
  ghost predicate SharedListing(c: Checks, arrivals: seq<Arrival>, n: string) {
    exists h, i, j :: 0 <= i < |arrivals| && 0 <= j < |arrivals| && i != j
      && arrivals[i].name == n && HashedAt(c, arrivals[i], h) && HashedAt(c, arrivals[j], h)
  }

  function HashCount(c: Checks, arrivals: seq<Arrival>, h: string): nat {
    if arrivals == [] then 0
    else HashCount(c, arrivals[..|arrivals| - 1], h) + if HashedAt(c, arrivals[|arrivals| - 1], h) then 1 else 0
  }

  /** Under each hash the table has the names of the listings with that hash. */
  lemma {:induction false} TableAt(o: Options, c: Checks, arrivals: seq<Arrival>, h: string)
    requires o.reuse
    ensures var t := TableOf(o, c, arrivals); (if h in t then |t[h]| else 0) == HashCount(c, arrivals, h)
  {
    if arrivals != [] {
      TableAt(o, c, arrivals[..|arrivals| - 1], h);
    }
  }

  ghost predicate HasListing(c: Checks, arrivals: seq<Arrival>, h: string, n: string) {
    exists i :: 0 <= i < |arrivals| && arrivals[i].name == n && HashedAt(c, arrivals[i], h)
  }

  lemma HasListingSnoc(c: Checks, arrivals: seq<Arrival>, h: string, n: string)
    requires arrivals != []
    ensures var m := |arrivals| - 1;
      HasListing(c, arrivals, h, n) <==> HasListing(c, arrivals[..m], h, n) || (arrivals[m].name == n && HashedAt(c, arrivals[m], h))
  {
    var m := |arrivals| - 1;
    if i :| 0 <= i < m && arrivals[..m][i].name == n && HashedAt(c, arrivals[..m][i], h) {
      assert arrivals[i] == arrivals[..m][i];
    }
    if i :| 0 <= i < |arrivals| && arrivals[i].name == n && HashedAt(c, arrivals[i], h) {
      assert i < m ==> arrivals[..m][i] == arrivals[i];
    }
  }

  lemma EnteredHas(table: map<string, seq<string>>, k: string, name: string, h: string, n: string)
    ensures Listed(Entered(table, k, name), h, n) <==> Listed(table, h, n) || (h == k && n == name)
  {
  }

  lemma {:induction false} TableHas(o: Options, c: Checks, arrivals: seq<Arrival>, h: string, n: string)
    requires o.reuse
    ensures Listed(TableOf(o, c, arrivals), h, n) <==> HasListing(c, arrivals, h, n)
  {
    if arrivals != [] {
      var m := |arrivals| - 1;
      TableHas(o, c, arrivals[..m], h, n);
      HasListingSnoc(c, arrivals, h, n);
      if arrivals[m].Opened? {
        EnteredHas(TableOf(o, c, arrivals[..m]), c.hash(Password(arrivals[m].raw)), arrivals[m].name, h, n);
      }
    }
  }

  lemma {:induction false} CountOne(c: Checks, arrivals: seq<Arrival>, h: string, i: nat)
    requires i < |arrivals| && HashedAt(c, arrivals[i], h)
    ensures HashCount(c, arrivals, h) >= 1
    ensures HashCount(c, arrivals, h) >= 2 <==> exists j :: 0 <= j < |arrivals| && j != i && HashedAt(c, arrivals[j], h)
  {
    var m := |arrivals| - 1;
    var init := arrivals[..m];
    if i < m {
      CountOne(c, init, h, i);
      if j :| 0 <= j < |init| && j != i && HashedAt(c, init[j], h) {
        assert arrivals[j] == init[j];
      }
      if j :| 0 <= j < |arrivals| && j != i && HashedAt(c, arrivals[j], h) {
        assert j < m ==> init[j] == arrivals[j];
      }
    } else {
      CountSome(c, init, h);
      if j :| 0 <= j < |init| && HashedAt(c, init[j], h) {
        assert arrivals[j] == init[j];
      }
      if j :| 0 <= j < |arrivals| && j != i && HashedAt(c, arrivals[j], h) {
        assert init[j] == arrivals[j];
      }
    }
  }

  lemma {:induction false} CountSome(c: Checks, arrivals: seq<Arrival>, h: string)
    ensures HashCount(c, arrivals, h) >= 1 <==> exists j :: 0 <= j < |arrivals| && HashedAt(c, arrivals[j], h)
  {
    if arrivals != [] {
      var m := |arrivals| - 1;
      var init := arrivals[..m];
      CountSome(c, init, h);
      if j :| 0 <= j < |init| && HashedAt(c, init[j], h) {
        assert arrivals[j] == init[j];
      }
      if j :| 0 <= j < |arrivals| && HashedAt(c, arrivals[j], h) {
        assert j < m ==> init[j] == arrivals[j];
      }
    }
  }

  /** In any report, a name is marked as reused iff two listings share a password hash, one of
    * them under this name.
    */
  lemma ReusedMeansListedTwice(r: Report, o: Options, c: Checks, arrivals: seq<Arrival>, n: string)
    requires ReportsAny(r, o, c, arrivals) && o.reuse
    ensures ReusedIn(r.entries, n) <==> SharedListing(c, arrivals, n)
  {
    var t := TableOf(o, c, arrivals);
    if InGroup(t, t.Keys, n) {
      var h :| h in t && |t[h]| >= 2 && n in t[h];
      TableAt(o, c, arrivals, h);
      TableHas(o, c, arrivals, h, n);
      var i :| 0 <= i < |arrivals| && arrivals[i].name == n && HashedAt(c, arrivals[i], h);
      CountOne(c, arrivals, h, i);
    }
    if SharedListing(c, arrivals, n) {
      var h, i, j :| 0 <= i < |arrivals| && 0 <= j < |arrivals| && i != j
        && arrivals[i].name == n && HashedAt(c, arrivals[i], h) && HashedAt(c, arrivals[j], h);
      CountOne(c, arrivals, h, i);
      TableAt(o, c, arrivals, h);
      TableHas(o, c, arrivals, h, n);
      assert h in t.Keys;
    }
  }

  /** So an entry that is kept in both formats, and listed twice for it, is reported as reused
    * with itself.
    */
  lemma ListedTwiceIsReused(r: Report, o: Options, c: Checks, arrivals: seq<Arrival>, i: nat, j: nat)
    requires ReportsAny(r, o, c, arrivals) && o.reuse
    requires i < j < |arrivals| && arrivals[i] == arrivals[j] && arrivals[i].Opened? && Password(arrivals[i].raw) != ""
    ensures ReusedIn(r.entries, arrivals[i].name)
  {
    ReusedMeansListedTwice(r, o, c, arrivals, arrivals[i].name);
    assert HashedAt(c, arrivals[i], c.hash(Password(arrivals[i].raw)));
  }

  /** Every audited listing is counted once, and every other is listed as skipped. */
  lemma ReportAccounts(r: Report, o: Options, c: Checks, arrivals: seq<Arrival>)
    requires ReportsAny(r, o, c, arrivals)
    ensures r.stats.critical + r.stats.warning + r.stats.info + r.stats.clean == r.stats.audited
    ensures r.stats.clean >= 0
    ensures r.stats.audited + |r.skipped| == r.stats.total
    ensures |r.entries| == r.stats.critical + r.stats.warning + r.stats.info
  {
    CountsAddUp(r.entries);
    FewerEntries(r.entries, AuditedNames(arrivals));
    AuditedAndFailed(arrivals);
  }

  lemma {:induction false} AuditedAndFailed(arrivals: seq<Arrival>)
    ensures |AuditedNames(arrivals)| + |FailedOf(arrivals)| == |arrivals|
  {
    if arrivals != [] {
      AuditedAndFailed(arrivals[..|arrivals| - 1]);
    }
  }

  // ---------- what is found, and how grave it is ----------

  /** The findings an entry has by itself, each exactly when its check is on and says so. */
  lemma FoundExactly(o: Options, c: Checks, raw: string, f: Finding)
    ensures f in OwnFindings(o, c, raw) <==>
      match f
      case Leaked => o.leaks && c.leak(Password(raw)) == Yes
      case LeakUnknown(e) => o.leaks && c.leak(Password(raw)) == Unknown(e)
      case Weak(score) => o.strength && score == c.strength(Password(raw)) && score < 2
      case Expired(when) => o.expired && c.expiry(raw) == Some(when)
      case Reused(_) => false
  {
  }

  /** A leak is critical, an expiry a remark, everything else a warning. */
  lemma GravityOf(f: Finding)
    ensures SeverityOf(f) == Critical <==> f == Leaked
    ensures SeverityOf(f) == Info <==> f.Expired?
    ensures SeverityOf(f) == Warning <==> f.LeakUnknown? || f.Weak? || f.Reused?
  {
  }

  /** An entry is as grave as its gravest finding. */
  lemma WorstIsGravest(f: seq<Finding>, x: Finding)
    requires x in f
    ensures Worst(f) == Critical <==> Leaked in f
    ensures Worst(f) == Info <==> forall y :: y in f ==> y.Expired?
    ensures SeverityOf(x) == Critical ==> Worst(f) == Critical
    ensures SeverityOf(x) == Warning ==> Worst(f) != Info
  {
    assert HasSeverity(f, Critical) <==> Leaked in f by {
      assert SeverityOf(Leaked) == Critical;
    }
    if Worst(f) != Info {
      var y :| y in f && SeverityOf(y) == Worst(f);
      assert !y.Expired?;
    } else {
      forall y | y in f ensures y.Expired? {
        assert SeverityOf(y) == Info;
      }
    }
  }

  /** So a leaked password is reported, as critical, whatever else is found. */
  lemma LeakIsReported(r: Report, o: Options, c: Checks, arrivals: seq<Arrival>, n: string)
    requires DistinctNames(arrivals) && IsReport(r, o, c, arrivals)
    requires n in AuditedOf(arrivals) && o.leaks && c.leak(Password(AuditedOf(arrivals)[n])) == Yes
    ensures exists e :: e in r.entries && e.name == n && Leaked in e.findings && Worst(e.findings) == Critical
  {
    var found := AllFindings(o, c, AuditedOf(arrivals));
    LeakIsFound(o, c, AuditedOf(arrivals), n);
    FoundIsListed(r.entries, found, n);
    WorstIsGravest(found[n], Leaked);
  }

  lemma FoundIsListed(entries: seq<EntryResult>, found: map<string, seq<Finding>>, n: string)
    requires Represents(entries, found) && n in found && found[n] != []
    ensures exists e :: e in entries && e.name == n && e.findings == found[n]
  {
    assert EntryResult(n, found[n]) in entries;
  }

  lemma LeakIsFound(o: Options, c: Checks, audited: map<string, string>, n: string)
    requires n in audited && o.leaks && c.leak(Password(audited[n])) == Yes
    ensures Leaked in AllFindings(o, c, audited)[n]
  {
    FoundExactly(o, c, audited[n], Leaked);
    assert AllFindings(o, c, audited)[n] == OwnFindings(o, c, audited[n]) + ReuseFindings(o, c, audited, n);
  }

  /** And nothing is reported of an entry that no check speaks of and no other shares. */
  lemma SoundEntryIsNotReported(r: Report, o: Options, c: Checks, arrivals: seq<Arrival>, n: string)
    requires DistinctNames(arrivals) && IsReport(r, o, c, arrivals) && n in AuditedOf(arrivals)
    requires OwnFindings(o, c, AuditedOf(arrivals)[n]) == []
    requires !o.reuse || !SharesPassword(c, AuditedOf(arrivals), n)
    ensures forall e :: e in r.entries ==> e.name != n
  {
    var audited := AuditedOf(arrivals);
    var names := Sharing(c, audited, c.hash(Password(audited[n])));
    if o.reuse && Password(audited[n]) != "" {
      TwoIsAnother(names, n);
      assert forall m :: m in names <==> m in audited && Hashed(c, audited[m], c.hash(Password(audited[n])));
    }
    assert AllFindings(o, c, audited)[n] == [];
  }

  /** The gravest entries come first, and those of one gravity in the order of their names. */
  lemma GravestFirst(r: Report, o: Options, c: Checks, arrivals: seq<Arrival>, i: nat, j: nat)
    requires ReportsAny(r, o, c, arrivals) && i < j < |r.entries|
    ensures var a, b := Worst(r.entries[i].findings), Worst(r.entries[j].findings);
      && (b == Critical ==> a == Critical)
      && (a == Info ==> b == Info)
      && (a == b ==> !StringLess(r.entries[j].name, r.entries[i].name))
  {
  }

  /** What could not be opened is listed, and nothing else, in the order of arrival. */
  lemma {:induction false} SkippedAreFailures(arrivals: seq<Arrival>, a: Arrival)
    ensures a in FailedOf(arrivals) <==> a in arrivals && a.Failed?
  {
    if arrivals != [] {
      SkippedAreFailures(arrivals[..|arrivals| - 1], a);
      assert arrivals == arrivals[..|arrivals| - 1] + [arrivals[|arrivals| - 1]];
    }
  }
}
