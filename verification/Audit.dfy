/** The audit of a store: every decrypted entry is checked alone, then compared with the others for
  * reuse. Entries arrive in any order and the table of hashes is walked in any order.
  */
module Audit {
  import opened Wrappers
  import opened Ordering
  import opened SecretFormat

  datatype Severity = Critical | Warning | Info

  datatype Finding =
    | Leaked
    | LeakUnknown(error: string)
    | Weak(score: nat)
    | Expired(when: string)
    | Reused(count: nat)

  function SeverityOf(f: Finding): Severity {
    match f
    case Leaked => Critical
    case LeakUnknown(_) => Warning
    case Weak(_) => Warning
    case Expired(_) => Info
    case Reused(_) => Warning
  }

  datatype EntryResult = EntryResult(name: string, findings: seq<Finding>)

  datatype Stats = Stats(total: nat, audited: nat, critical: nat, warning: nat, info: nat, clean: int)

  datatype Report = Report(entries: seq<EntryResult>, skipped: seq<Arrival>, stats: Stats)

  /** One entry as it comes out of decryption. */
  datatype Arrival = Opened(name: string, raw: string) | Failed(name: string, error: string)

  datatype Options = Options(leaks: bool, strength: bool, reuse: bool, expired: bool)

  datatype Leak = Yes | No | Unknown(error: string)

  /** The checks of one password or entry, each a function of what it is given. */
  datatype Checks = Checks(
    leak: string -> Leak,
    strength: string -> nat,
    expiry: string -> Option<string>,
    hash: string -> string)

  // ---------- what a report says ----------

  /** The findings an entry earns by itself. */
  function OwnFindings(o: Options, c: Checks, raw: string): (f: seq<Finding>)
    ensures forall x :: x in f ==> !x.Reused?
  {
    (if !o.leaks then []
     else match c.leak(Password(raw))
          case Unknown(e) => [LeakUnknown(e)]
          case Yes => [Leaked]
          case No => [])
    + (if o.strength && c.strength(Password(raw)) < 2 then [Weak(c.strength(Password(raw)))] else [])
    + (if o.expired && c.expiry(raw).Some? then [Expired(c.expiry(raw).value)] else [])
  }

  predicate Hashed(c: Checks, raw: string, h: string) {
    Password(raw) != "" && c.hash(Password(raw)) == h
  }

  /** The audited entries whose password has this hash. */
  function Sharing(c: Checks, audited: map<string, string>, h: string): set<string> {
    set n | n in audited && Hashed(c, audited[n], h)
  }

  function ReuseFindings(o: Options, c: Checks, audited: map<string, string>, n: string): seq<Finding>
    requires n in audited
  {
    var raw := audited[n];
    var names := Sharing(c, audited, c.hash(Password(raw)));
    if o.reuse && Password(raw) != "" && |names| >= 2 then [Reused(|names|)] else []
  }

  /** Everything found about each audited entry. */
  function AllFindings(o: Options, c: Checks, audited: map<string, string>): (found: map<string, seq<Finding>>)
    ensures found.Keys == audited.Keys
  {
    map n | n in audited :: OwnFindings(o, c, audited[n]) + ReuseFindings(o, c, audited, n)
  }

  predicate HasSeverity(f: seq<Finding>, s: Severity) {
    exists x :: x in f && SeverityOf(x) == s
  }

  function Worst(f: seq<Finding>): Severity {
    if HasSeverity(f, Critical) then Critical
    else if HasSeverity(f, Warning) then Warning
    else Info
  }

  function Rank(s: Severity): nat {
    match s
    case Critical => 0
    case Warning => 1
    case Info => 2
  }

  predicate EntryLess(a: EntryResult, b: EntryResult) {
    var ra, rb := Rank(Worst(a.findings)), Rank(Worst(b.findings));
    ra < rb || (ra == rb && StringLess(a.name, b.name))
  }

  lemma EntryOrder()
    ensures StrictOrder(EntryLess) && WeakOrder(EntryLess)
    ensures forall a: EntryResult, b: EntryResult :: a.name != b.name ==> EntryLess(a, b) || EntryLess(b, a)
  {
    StringOrder();
  }

  /** The entries are those with findings, each once and with all its findings. */
  ghost predicate Represents(entries: seq<EntryResult>, found: map<string, seq<Finding>>) {
    && (forall i, j :: 0 <= i < j < |entries| ==> entries[i].name != entries[j].name)
    && (forall e :: e in entries <==> e.name in found && e.findings == found[e.name] != [])
  }

  /** The audited entries whose worst finding has this severity. */
  function Bucket(found: map<string, seq<Finding>>, s: Severity): set<string> {
    set n | n in found && found[n] != [] && Worst(found[n]) == s
  }

  function CleanNames(found: map<string, seq<Finding>>): set<string> {
    set n | n in found && found[n] == []
  }

  function AuditedOf(arrivals: seq<Arrival>): map<string, string> {
    if arrivals == [] then map[]
    else
      var m, a := AuditedOf(arrivals[..|arrivals| - 1]), arrivals[|arrivals| - 1];
      if a.Opened? then m[a.name := a.raw] else m
  }

  ghost predicate DistinctNames(arrivals: seq<Arrival>) {
    forall i, j :: 0 <= i < j < |arrivals| ==> arrivals[i].name != arrivals[j].name
  }

  lemma {:induction false} AuditedAre(arrivals: seq<Arrival>)
    requires DistinctNames(arrivals)
    ensures forall n, raw :: n in AuditedOf(arrivals) && AuditedOf(arrivals)[n] == raw <==> Opened(n, raw) in arrivals
  {
    if arrivals != [] {
      var init, a := arrivals[..|arrivals| - 1], arrivals[|arrivals| - 1];
      AuditedAre(init);
      assert arrivals == init + [a];
      forall n, raw ensures n in AuditedOf(arrivals) && AuditedOf(arrivals)[n] == raw <==> Opened(n, raw) in arrivals {
        if Opened(n, raw) in init {
          assert n != a.name;
        }
      }
    }
  }

  /** The report of distinct entries, whatever order they came in. */
  ghost predicate IsReport(r: Report, o: Options, c: Checks, arrivals: seq<Arrival>) {
    var found := AllFindings(o, c, AuditedOf(arrivals));
    && SortedBy(EntryLess, r.entries)
    && Represents(r.entries, found)
    && r.stats == Stats(|arrivals|, |found|, |Bucket(found, Critical)|, |Bucket(found, Warning)|, |Bucket(found, Info)|, |CleanNames(found)|)
    && r.skipped == FailedOf(arrivals)
  }

  function FailedOf(arrivals: seq<Arrival>): seq<Arrival> {
    if arrivals == [] then []
    else
      FailedOf(arrivals[..|arrivals| - 1]) + if arrivals[|arrivals| - 1].Failed? then [arrivals[|arrivals| - 1]] else []
  }

  // ---------- the run ----------

  method CheckEntry(o: Options, c: Checks, raw: string) returns (f: seq<Finding>)
    ensures f == OwnFindings(o, c, raw)
  {
    f := [];
    var pw := Password(raw);
    if o.leaks {
      match c.leak(pw) {
        case Unknown(e) => f := f + [LeakUnknown(e)];
        case Yes => f := f + [Leaked];
        case No =>
      }
    }
    if o.strength {
      var score := c.strength(pw);
      if score < 2 {
        f := f + [Weak(score)];
      }
    }
    if o.expired {
      var when := c.expiry(raw);
      if when.Some? {
        f := f + [Expired(when.value)];
      }
    }
  }

  // Names may repeat: an entry kept in both formats is listed twice under one name.

  function AuditedNames(arrivals: seq<Arrival>): seq<string> {
    if arrivals == [] then []
    else
      var a := arrivals[|arrivals| - 1];
      AuditedNames(arrivals[..|arrivals| - 1]) + if a.Opened? then [a.name] else []
  }

  /** The results with findings of their own, in the order of arrival. */
  function OwnEntries(o: Options, c: Checks, arrivals: seq<Arrival>): seq<EntryResult> {
    if arrivals == [] then []
    else
      var before, a := OwnEntries(o, c, arrivals[..|arrivals| - 1]), arrivals[|arrivals| - 1];
      if a.Opened? then WithEntry(before, a.name, OwnFindings(o, c, a.raw)) else before
  }

  function WithEntry(entries: seq<EntryResult>, name: string, f: seq<Finding>): seq<EntryResult> {
    if f == [] then entries else entries + [EntryResult(name, f)]
  }

  function Entered(table: map<string, seq<string>>, h: string, name: string): map<string, seq<string>> {
    table[h := (if h in table then table[h] else []) + [name]]
  }

  /** The names under each password hash, in the order of arrival. */
  function TableOf(o: Options, c: Checks, arrivals: seq<Arrival>): map<string, seq<string>> {
    if arrivals == [] then map[]
    else
      var before, a := TableOf(o, c, arrivals[..|arrivals| - 1]), arrivals[|arrivals| - 1];
      if a.Opened? && o.reuse && Password(a.raw) != "" then Entered(before, c.hash(Password(a.raw)), a.name) else before
  }

  /** Checks the entries one by one as they arrive. */
  method CheckAll(o: Options, c: Checks, arrivals: seq<Arrival>)
    returns (entries: seq<EntryResult>, skipped: seq<Arrival>, table: map<string, seq<string>>, count: nat)
    ensures entries == OwnEntries(o, c, arrivals) && table == TableOf(o, c, arrivals)
    ensures skipped == FailedOf(arrivals) && count == |AuditedNames(arrivals)|
  {
    entries, skipped, table, count := [], [], map[], 0;
    for i := 0 to |arrivals|
      invariant entries == OwnEntries(o, c, arrivals[..i]) && table == TableOf(o, c, arrivals[..i])
      invariant skipped == FailedOf(arrivals[..i]) && count == |AuditedNames(arrivals[..i])|
    {
      var a := arrivals[i];
      Prefix(arrivals, i);
      if a.Failed? {
        skipped := skipped + [a];
        continue;
      }
      count := count + 1;
      var f := CheckEntry(o, c, a.raw);
      if o.reuse && Password(a.raw) != "" {
        var h := c.hash(Password(a.raw));
        table := table[h := (if h in table then table[h] else []) + [a.name]];
      }
      if f != [] {
        entries := entries + [EntryResult(a.name, f)];
      }
    }
    assert arrivals[..|arrivals|] == arrivals;
  }

  lemma Prefix(arrivals: seq<Arrival>, i: nat)
    requires i < |arrivals|
    ensures |arrivals[..i + 1]| == i + 1 && arrivals[..i + 1][..i] == arrivals[..i] && arrivals[..i + 1][i] == arrivals[i]
  {
  }

  /** A finding goes to the first entry of the name, or to a new one. */
  function Added(entries: seq<EntryResult>, name: string, f: Finding): (more: seq<EntryResult>)
    ensures |more| >= 1
  {
    if entries == [] then [EntryResult(name, [f])]
    else if entries[0].name == name then [EntryResult(name, entries[0].findings + [f])] + entries[1..]
    else [entries[0]] + Added(entries[1..], name, f)
  }

  method AddFinding(entries: seq<EntryResult>, name: string, f: Finding) returns (more: seq<EntryResult>)
    ensures more == Added(entries, name, f)
  {
    for i := 0 to |entries|
      invariant forall j :: 0 <= j < i ==> entries[j].name != name
    {
      if entries[i].name == name {
        AddedFirst(entries, name, f, i);
        return entries[i := EntryResult(name, entries[i].findings + [f])];
      }
    }
    AddedLast(entries, name, f);
    return entries + [EntryResult(name, [f])];
  }

  lemma {:induction false} AddedFirst(entries: seq<EntryResult>, name: string, f: Finding, i: nat)
    requires i < |entries| && entries[i].name == name && forall j :: 0 <= j < i ==> entries[j].name != name
    ensures Added(entries, name, f) == entries[i := EntryResult(name, entries[i].findings + [f])]
  {
    if i > 0 {
      AddedFirst(entries[1..], name, f, i - 1);
    }
  }

  lemma {:induction false} AddedLast(entries: seq<EntryResult>, name: string, f: Finding)
    requires forall j :: 0 <= j < |entries| ==> entries[j].name != name
    ensures Added(entries, name, f) == entries + [EntryResult(name, [f])]
  {
    if entries != [] {
      AddedLast(entries[1..], name, f);
    }
  }

  /** The first `i` names of a group have been marked. */
  function MarkedUntil(entries: seq<EntryResult>, names: seq<string>, i: nat): seq<EntryResult>
    requires i <= |names|
  {
    if i == 0 then entries else Added(MarkedUntil(entries, names, i - 1), names[i - 1], Reused(|names|))
  }

  /** Two names or more under one hash are all marked. */
  function GroupMarked(entries: seq<EntryResult>, names: seq<string>): seq<EntryResult> {
    if |names| < 2 then entries else MarkedUntil(entries, names, |names|)
  }

  method MarkGroup(entries: seq<EntryResult>, names: seq<string>) returns (more: seq<EntryResult>)
    ensures more == GroupMarked(entries, names)
  {
    more := entries;
    if |names| < 2 {
      return;
    }
    for i := 0 to |names|
      invariant more == MarkedUntil(entries, names, i)
    {
      more := AddFinding(more, names[i], Reused(|names|));
    }
  }

  // ---------- any listing: who is marked ----------

  predicate HasReuse(f: seq<Finding>) {
    exists x :: x in f && x.Reused?
  }

  ghost predicate ReusedIn(entries: seq<EntryResult>, n: string) {
    exists e :: e in entries && e.name == n && HasReuse(e.findings)
  }

  lemma {:induction false} AddedReuse(entries: seq<EntryResult>, name: string, f: Finding, n: string)
    requires f.Reused?
    ensures ReusedIn(Added(entries, name, f), n) <==> ReusedIn(entries, n) || n == name
  {
    var more := Added(entries, name, f);
    if entries == [] {
      assert more[0] in more && f in more[0].findings;
    } else if entries[0].name == name {
      var g := entries[0].findings + [f];
      assert more[0] in more && f in g && HasReuse(g);
      forall e | e in entries && e.name == n && n != name ensures e in more {
        assert e in entries[1..];
      }
      forall e | e in more && e.name == n && n != name ensures e in entries {
        assert e in entries[1..];
      }
    } else {
      AddedReuse(entries[1..], name, f, n);
      assert entries == [entries[0]] + entries[1..];
      assert ReusedIn(entries, n) <==> ReusedIn(entries[1..], n) || (entries[0].name == n && HasReuse(entries[0].findings));
      assert ReusedIn(more, n) <==> ReusedIn(Added(entries[1..], name, f), n) || (entries[0].name == n && HasReuse(entries[0].findings));
    }
  }

  lemma {:induction false} MarkedReuse(entries: seq<EntryResult>, names: seq<string>, i: nat, n: string)
    requires i <= |names|
    ensures ReusedIn(MarkedUntil(entries, names, i), n) <==> ReusedIn(entries, n) || n in names[..i]
  {
    if i > 0 {
      MarkedReuse(entries, names, i - 1, n);
      AddedReuse(MarkedUntil(entries, names, i - 1), names[i - 1], Reused(|names|), n);
      assert names[..i] == names[..i - 1] + [names[i - 1]];
    }
  }

  /** The name is in a group of two or more. */
  ghost predicate InGroup(table: map<string, seq<string>>, walked: set<string>, n: string) {
    exists h :: h in walked && h in table && |table[h]| >= 2 && n in table[h]
  }

  lemma GroupReuse(entries: seq<EntryResult>, table: map<string, seq<string>>, walked: set<string>, h: string, n: string)
    requires h in table
    requires ReusedIn(entries, n) <==> InGroup(table, walked, n)
    ensures ReusedIn(GroupMarked(entries, table[h]), n) <==> InGroup(table, walked + {h}, n)
  {
    MarkedReuse(entries, table[h], |table[h]|, n);
    assert table[h][..|table[h]|] == table[h];
    assert InGroup(table, walked + {h}, n) <==> InGroup(table, walked, n) || (|table[h]| >= 2 && n in table[h]) by {
      if InGroup(table, walked, n) {
        var k :| k in walked && k in table && |table[k]| >= 2 && n in table[k];
        assert k in walked + {h};
      }
      if |table[h]| >= 2 && n in table[h] {
        assert h in walked + {h};
      }
    }
  }

  lemma {:induction false} OwnHasNoReuse(o: Options, c: Checks, arrivals: seq<Arrival>)
    ensures forall e :: e in OwnEntries(o, c, arrivals) ==> !HasReuse(e.findings)
  {
    if arrivals != [] {
      OwnHasNoReuse(o, c, arrivals[..|arrivals| - 1]);
    }
  }

  // ---------- any listing: how many entries ----------

  function NamesOf(entries: seq<EntryResult>): seq<string> {
    seq(|entries|, i requires 0 <= i < |entries| => entries[i].name)
  }

  /** An entry takes up one of the audited listings of its name. */
  ghost predicate NamesWithin(entries: seq<EntryResult>, audited: seq<string>) {
    multiset(NamesOf(entries)) <= multiset(audited)
  }

  lemma NamesCons(e: EntryResult, entries: seq<EntryResult>)
    ensures NamesOf([e] + entries) == [e.name] + NamesOf(entries)
  {
  }

  lemma NamesConcat(a: seq<EntryResult>, b: seq<EntryResult>)
    ensures NamesOf(a + b) == NamesOf(a) + NamesOf(b)
    ensures |b| == 1 ==> NamesOf(b) == [b[0].name]
  {
  }

  lemma {:induction false} AddedNames(entries: seq<EntryResult>, name: string, f: Finding)
    ensures NamesOf(Added(entries, name, f)) == NamesOf(entries) + if name in NamesOf(entries) then [] else [name]
  {
    if entries != [] {
      assert entries == [entries[0]] + entries[1..];
      NamesCons(entries[0], entries[1..]);
      if entries[0].name == name {
        assert name in NamesOf(entries);
        NamesCons(EntryResult(name, entries[0].findings + [f]), entries[1..]);
      } else {
        AddedNames(entries[1..], name, f);
        NamesCons(entries[0], Added(entries[1..], name, f));
        assert name in NamesOf(entries) <==> name in NamesOf(entries[1..]);
      }
    }
  }

  lemma AddedWithin(entries: seq<EntryResult>, name: string, f: Finding, audited: seq<string>)
    requires NamesWithin(entries, audited) && name in audited
    ensures NamesWithin(Added(entries, name, f), audited)
  {
    AddedNames(entries, name, f);
    var names := NamesOf(entries);
    if name !in names {
      assert multiset(names)[name] == 0 && multiset(audited)[name] >= 1;
      assert multiset(names + [name]) == multiset(names) + multiset{name};
    }
  }

  lemma {:induction false} MarkedWithin(entries: seq<EntryResult>, names: seq<string>, i: nat, audited: seq<string>)
    requires i <= |names| && NamesWithin(entries, audited) && forall n :: n in names ==> n in audited
    ensures NamesWithin(MarkedUntil(entries, names, i), audited)
  {
    if i > 0 {
      MarkedWithin(entries, names, i - 1, audited);
      AddedWithin(MarkedUntil(entries, names, i - 1), names[i - 1], Reused(|names|), audited);
    }
  }

  lemma AnotherWithin(entries: seq<EntryResult>, name: string, f: seq<Finding>, audited: seq<string>)
    requires NamesWithin(entries, audited)
    ensures NamesWithin(WithEntry(entries, name, f), audited + [name]) && NamesWithin(entries, audited + [name])
  {
    NamesConcat(entries, [EntryResult(name, f)]);
    assert multiset(audited + [name]) == multiset(audited) + multiset{name};
    assert multiset(NamesOf(entries) + [name]) == multiset(NamesOf(entries)) + multiset{name};
  }

  lemma {:induction false} OwnWithin(o: Options, c: Checks, arrivals: seq<Arrival>)
    ensures NamesWithin(OwnEntries(o, c, arrivals), AuditedNames(arrivals))
  {
    if arrivals != [] {
      var init, a := arrivals[..|arrivals| - 1], arrivals[|arrivals| - 1];
      OwnWithin(o, c, init);
      if a.Opened? {
        AnotherWithin(OwnEntries(o, c, init), a.name, OwnFindings(o, c, a.raw), AuditedNames(init));
      } else {
        assert AuditedNames(init) + [] == AuditedNames(init);
      }
    }
  }

  lemma {:induction false} TableNames(o: Options, c: Checks, arrivals: seq<Arrival>)
    ensures forall h, n :: h in TableOf(o, c, arrivals) && n in TableOf(o, c, arrivals)[h] ==> n in AuditedNames(arrivals)
  {
    if arrivals != [] {
      TableNames(o, c, arrivals[..|arrivals| - 1]);
    }
  }

  lemma FewerEntries(entries: seq<EntryResult>, audited: seq<string>)
    requires NamesWithin(entries, audited)
    ensures |entries| <= |audited|
  {
    var rest := multiset(audited) - multiset(NamesOf(entries));
    assert multiset(audited) == multiset(NamesOf(entries)) + rest;
    assert |multiset(audited)| == |multiset(NamesOf(entries))| + |rest|;
  }

  // ---------- distinct names: what the table and the results are ----------

  function OwnOf(o: Options, c: Checks, audited: map<string, string>): map<string, seq<Finding>> {
    map n | n in audited :: OwnFindings(o, c, audited[n])
  }

  ghost predicate Listed(table: map<string, seq<string>>, h: string, n: string) {
    h in table && n in table[h]
  }

  ghost predicate Groups(o: Options, c: Checks, audited: map<string, string>, h: string, n: string) {
    o.reuse && n in audited && Hashed(c, audited[n], h)
  }

  /** The table of hashes: under each the audited entries sharing it, if reuse is looked for. */
  ghost predicate IsTable(table: map<string, seq<string>>, o: Options, c: Checks, audited: map<string, string>) {
    && (forall h :: h in table ==> table[h] != [] && forall i, j :: 0 <= i < j < |table[h]| ==> table[h][i] != table[h][j])
    && (forall h, n :: Listed(table, h, n) <==> Groups(o, c, audited, h, n))
  }

  /** Listings under distinct names: what was checked is determined by what was opened. */
  lemma {:induction false} DistinctChecked(o: Options, c: Checks, arrivals: seq<Arrival>)
    requires DistinctNames(arrivals)
    ensures Represents(OwnEntries(o, c, arrivals), OwnOf(o, c, AuditedOf(arrivals)))
    ensures IsTable(TableOf(o, c, arrivals), o, c, AuditedOf(arrivals))
    ensures |AuditedNames(arrivals)| == |AuditedOf(arrivals)|
  {
    if arrivals != [] {
      var n := |arrivals| - 1;
      var init, a := arrivals[..n], arrivals[n];
      DistinctChecked(o, c, init);
      NotYetAudited(arrivals, n);
      assert arrivals[..n + 1] == arrivals;
      if a.Opened? {
        var audited := AuditedOf(init);
        EntryRepresents(OwnEntries(o, c, init), a.name, OwnFindings(o, c, a.raw), OwnOf(o, c, audited));
        OwnOfMore(o, c, audited, a.name, a.raw);
        if o.reuse && Password(a.raw) != "" {
          var t, h := TableOf(o, c, init), c.hash(Password(a.raw));
          Collected(t, o, c, a.name, a.raw, audited, if h in t then t[h] else []);
        } else {
          NotCollected(TableOf(o, c, init), o, c, a.name, a.raw, audited);
        }
      }
    }
  }

  lemma EntryRepresents(entries: seq<EntryResult>, name: string, f: seq<Finding>, found: map<string, seq<Finding>>)
    requires Represents(entries, found) && name !in found
    ensures Represents(WithEntry(entries, name, f), found[name := f])
  {
  }

  lemma NotCollected(table: map<string, seq<string>>, o: Options, c: Checks, name: string, raw: string, audited: map<string, string>)
    requires IsTable(table, o, c, audited) && name !in audited && (!o.reuse || Password(raw) == "")
    ensures IsTable(table, o, c, audited[name := raw])
  {
    forall h, n ensures Listed(table, h, n) <==> Groups(o, c, audited[name := raw], h, n) {
      assert Listed(table, h, n) <==> Groups(o, c, audited, h, n);
    }
  }

  lemma Collected(table: map<string, seq<string>>, o: Options, c: Checks, name: string, raw: string, audited: map<string, string>, names: seq<string>)
    requires IsTable(table, o, c, audited) && name !in audited && o.reuse && Password(raw) != ""
    requires var h := c.hash(Password(raw)); names == if h in table then table[h] else []
    ensures IsTable(table[c.hash(Password(raw)) := names + [name]], o, c, audited[name := raw])
  {
    var h := c.hash(Password(raw));
    var more, now := table[h := names + [name]], audited[name := raw];
    forall n | n in names ensures n in audited {
      assert Listed(table, h, n);
    }
    forall k, n ensures Listed(more, k, n) <==> Groups(o, c, now, k, n) {
      assert Listed(table, k, n) <==> Groups(o, c, audited, k, n);
      assert k == h ==> (n in more[k] <==> n in names || n == name);
    }
  }

  lemma OwnOfMore(o: Options, c: Checks, audited: map<string, string>, name: string, raw: string)
    ensures OwnOf(o, c, audited[name := raw]) == OwnOf(o, c, audited)[name := OwnFindings(o, c, raw)]
  {
  }

  lemma NotYetAudited(arrivals: seq<Arrival>, i: nat)
    requires DistinctNames(arrivals) && i < |arrivals|
    ensures arrivals[..i + 1][..i] == arrivals[..i] && arrivals[..i + 1][i] == arrivals[i]
    ensures arrivals[i].name !in AuditedOf(arrivals[..i])
  {
    AuditedAre(arrivals[..i]);
    var n := arrivals[i].name;
    assert n in AuditedOf(arrivals[..i]) ==> Opened(n, AuditedOf(arrivals[..i])[n]) in arrivals[..i];
  }

  lemma AddedRepresents(entries: seq<EntryResult>, name: string, f: Finding, found: map<string, seq<Finding>>)
    requires Represents(entries, found) && name in found
    ensures Represents(Added(entries, name, f), found[name := found[name] + [f]])
  {
    if i :| 0 <= i < |entries| && entries[i].name == name {
      AddedFirst(entries, name, f, i);
      Replaced(entries, i, f, found);
    } else {
      AddedLast(entries, name, f);
      Appended(entries, name, f, found);
    }
  }

  lemma Appended(entries: seq<EntryResult>, name: string, f: Finding, found: map<string, seq<Finding>>)
    requires Represents(entries, found) && name in found
    requires forall j :: 0 <= j < |entries| ==> entries[j].name != name
    ensures found[name] == []
    ensures Represents(entries + [EntryResult(name, [f])], found[name := found[name] + [f]])
  {
    assert found[name] == [] by {
      assert EntryResult(name, found[name]) !in entries;
    }
    var more := entries + [EntryResult(name, [f])];
    var now := found[name := found[name] + [f]];
    assert now[name] == [f];
    forall x ensures x in more <==> x.name in now && x.findings == now[x.name] != [] {
      if x in entries {
        var j :| 0 <= j < |entries| && entries[j] == x;
      }
    }
  }

  lemma Replaced(entries: seq<EntryResult>, i: nat, f: Finding, found: map<string, seq<Finding>>)
    requires Represents(entries, found) && i < |entries|
    ensures entries[i] in entries
    ensures Represents(entries[i := EntryResult(entries[i].name, entries[i].findings + [f])], found[entries[i].name := found[entries[i].name] + [f]])
  {
    var name := entries[i].name;
    var e := EntryResult(name, entries[i].findings + [f]);
    var more := entries[i := e];
    var now := found[name := found[name] + [f]];
    assert entries[i] in entries;
    forall x ensures x in more <==> x.name in now && x.findings == now[x.name] != [] {
      if x in more {
        var j :| 0 <= j < |more| && more[j] == x;
        if j != i {
          assert entries[j] in entries;
        }
      }
      if x.name in now && x.findings == now[x.name] != [] {
        if x.name == name {
          assert more[i] == x;
        } else {
          assert x in entries;
          var j :| 0 <= j < |entries| && entries[j] == x;
          assert more[j] == x;
        }
      }
    }
  }

  function Marked(names: seq<string>, i: nat, found: map<string, seq<Finding>>): map<string, seq<Finding>>
    requires i <= |names|
  {
    map n | n in found :: if n in names[..i] then found[n] + [Reused(|names|)] else found[n]
  }

  lemma MarkedNext(names: seq<string>, i: nat, found: map<string, seq<Finding>>)
    requires i < |names| && names[i] in found && Distinct(names)
    ensures names[i] in Marked(names, i, found)
    ensures Marked(names, i + 1, found) == Marked(names, i, found)[names[i] := Marked(names, i, found)[names[i]] + [Reused(|names|)]]
  {
    assert names[..i + 1] == names[..i] + [names[i]];
    assert names[i] !in names[..i];
  }

  lemma MarkedUpTo(names: seq<string>, found: map<string, seq<Finding>>, after: map<string, seq<Finding>>, i: nat)
    requires i <= |names| && after == map n | n in found :: found[n] + GroupFindings(names, n)
    ensures i == 0 ==> Marked(names, i, found) == found
    ensures i == 0 && |names| < 2 ==> after == found
    ensures i == |names| >= 2 ==> Marked(names, i, found) == after
  {
    assert names[..|names|] == names;
    forall n | n in found ensures i == 0 && |names| < 2 ==> after[n] == found[n] {
      assert found[n] + [] == found[n];
    }
    forall n | n in found ensures i == |names| >= 2 ==> Marked(names, i, found)[n] == after[n] {
      assert found[n] + [] == found[n];
    }
  }

  ghost predicate UntilIs(entries: seq<EntryResult>, names: seq<string>, found: map<string, seq<Finding>>, i: nat)
    requires i <= |names|
  {
    Represents(MarkedUntil(entries, names, i), Marked(names, i, found))
  }

  lemma UntilStart(entries: seq<EntryResult>, names: seq<string>, found: map<string, seq<Finding>>)
    requires Represents(entries, found)
    ensures UntilIs(entries, names, found, 0)
  {
    NoneMarked(names, found);
  }

  lemma UntilNext(entries: seq<EntryResult>, names: seq<string>, found: map<string, seq<Finding>>, i: nat)
    requires i < |names| && UntilIs(entries, names, found, i) && Distinct(names) && names[i] in found
    ensures UntilIs(entries, names, found, i + 1)
  {
    var before, now := MarkedUntil(entries, names, i), Marked(names, i, found);
    MarkedNext(names, i, found);
    AddedRepresents(before, names[i], Reused(|names|), now);
  }

  /** Marking name after name. */
  lemma UntilRepresents(entries: seq<EntryResult>, names: seq<string>, found: map<string, seq<Finding>>)
    requires Represents(entries, found) && Distinct(names)
    requires forall n :: n in names ==> n in found
    ensures UntilIs(entries, names, found, |names|)
  {
    UntilStart(entries, names, found);
    for i := 0 to |names|
      invariant UntilIs(entries, names, found, i)
    {
      assert names[i] in names;
      UntilNext(entries, names, found, i);
    }
  }

  lemma NoneMarked(names: seq<string>, found: map<string, seq<Finding>>)
    ensures Marked(names, 0, found) == found
  {
  }

  /** Each name of a group of two or more is marked once. */
  lemma GroupRepresents(entries: seq<EntryResult>, names: seq<string>, found: map<string, seq<Finding>>, after: map<string, seq<Finding>>)
    requires Represents(entries, found) && (forall n :: n in names ==> n in found) && Distinct(names)
    requires after == map n | n in found :: found[n] + GroupFindings(names, n)
    ensures Represents(GroupMarked(entries, names), after)
  {
    if |names| < 2 {
      MarkedUpTo(names, found, after, 0);
    } else {
      UntilRepresents(entries, names, found);
      MarkedUpTo(names, found, after, |names|);
    }
  }

  function WalkedFindings(o: Options, c: Checks, audited: map<string, string>, walked: set<string>, n: string): seq<Finding>
    requires n in audited
  {
    if c.hash(Password(audited[n])) in walked then ReuseFindings(o, c, audited, n) else []
  }

  /** Reuse has been looked at for the hashes in `walked`. */
  function WithReuse(o: Options, c: Checks, audited: map<string, string>, walked: set<string>): map<string, seq<Finding>> {
    map n | n in audited :: OwnFindings(o, c, audited[n]) + WalkedFindings(o, c, audited, walked, n)
  }

  function GroupFindings(names: seq<string>, n: string): seq<Finding> {
    if n in names && |names| >= 2 then [Reused(|names|)] else []
  }

  /** The group of one hash is the entries sharing the hash. */
  lemma GroupIsSharing(table: map<string, seq<string>>, o: Options, c: Checks, audited: map<string, string>, h: string)
    requires IsTable(table, o, c, audited) && h in table
    ensures o.reuse && (forall n :: n in table[h] <==> n in Sharing(c, audited, h)) && |table[h]| == |Sharing(c, audited, h)|
  {
    assert Listed(table, h, table[h][0]);
    forall n ensures n in table[h] <==> n in Sharing(c, audited, h) {
      assert Listed(table, h, n) <==> Groups(o, c, audited, h, n);
    }
    DistinctCount(table[h], Sharing(c, audited, h));
  }

  lemma GroupAt(table: map<string, seq<string>>, o: Options, c: Checks, audited: map<string, string>, walked: set<string>, h: string, n: string)
    requires IsTable(table, o, c, audited) && h in table && h !in walked && n in audited
    ensures WalkedFindings(o, c, audited, walked + {h}, n) == WalkedFindings(o, c, audited, walked, n) + GroupFindings(table[h], n)
  {
    GroupIsSharing(table, o, c, audited, h);
  }

  lemma GroupIs(table: map<string, seq<string>>, o: Options, c: Checks, audited: map<string, string>, walked: set<string>, h: string)
    requires IsTable(table, o, c, audited) && h in table && h !in walked
    ensures forall n :: n in table[h] ==> n in audited
    ensures WithReuse(o, c, audited, walked + {h}) ==
            map n | n in WithReuse(o, c, audited, walked) :: WithReuse(o, c, audited, walked)[n] + GroupFindings(table[h], n)
  {
    GroupIsSharing(table, o, c, audited, h);
    var before, after := WithReuse(o, c, audited, walked), WithReuse(o, c, audited, walked + {h});
    forall n | n in audited ensures after[n] == before[n] + GroupFindings(table[h], n) {
      GroupAt(table, o, c, audited, walked, h, n);
      Associates(OwnFindings(o, c, audited[n]), WalkedFindings(o, c, audited, walked, n), GroupFindings(table[h], n));
    }
  }

  lemma Associates(a: seq<Finding>, b: seq<Finding>, d: seq<Finding>)
    ensures a + (b + d) == a + b + d
  {
  }

  lemma NothingWalked(o: Options, c: Checks, audited: map<string, string>)
    ensures WithReuse(o, c, audited, {}) == OwnOf(o, c, audited)
  {
    forall n | n in audited ensures WithReuse(o, c, audited, {})[n] == OwnOf(o, c, audited)[n] {
      assert WalkedFindings(o, c, audited, {}, n) == [];
    }
  }

  lemma AllWalked(table: map<string, seq<string>>, o: Options, c: Checks, audited: map<string, string>)
    requires IsTable(table, o, c, audited)
    ensures WithReuse(o, c, audited, table.Keys) == AllFindings(o, c, audited)
  {
    forall n | n in audited ensures WalkedFindings(o, c, audited, table.Keys, n) == ReuseFindings(o, c, audited, n) {
      var h := c.hash(Password(audited[n]));
      assert Listed(table, h, n) <==> Groups(o, c, audited, h, n);
    }
  }

  lemma NoReuse(o: Options, c: Checks, audited: map<string, string>)
    requires !o.reuse
    ensures AllFindings(o, c, audited) == OwnOf(o, c, audited)
  {
    forall n | n in audited ensures AllFindings(o, c, audited)[n] == OwnOf(o, c, audited)[n] {
      assert ReuseFindings(o, c, audited, n) == [];
    }
  }

  // ---------- the run ----------

  /** Walks the table of hashes in any order. */
  method MarkReused(entries: seq<EntryResult>, table: map<string, seq<string>>, ghost o: Options, ghost c: Checks, ghost arrivals: seq<Arrival>)
    returns (more: seq<EntryResult>)
    requires entries == OwnEntries(o, c, arrivals) && table == TableOf(o, c, arrivals)
    ensures forall n :: ReusedIn(more, n) <==> InGroup(table, table.Keys, n)
    ensures NamesWithin(more, AuditedNames(arrivals))
    ensures DistinctNames(arrivals) ==> Represents(more, AllFindings(o, c, AuditedOf(arrivals)))
  {
    more := entries;
    var todo := table.Keys;
    ghost var walked := {};
    ghost var audited := AuditedOf(arrivals);
    StartOfWalk(o, c, arrivals);
    while todo != {}
      invariant walked == table.Keys - todo && todo <= table.Keys
      invariant forall n :: ReusedIn(more, n) <==> InGroup(table, walked, n)
      invariant NamesWithin(more, AuditedNames(arrivals))
      invariant DistinctNames(arrivals) ==> Represents(more, WithReuse(o, c, audited, walked))
    {
      var h :| h in todo;
      StepOfWalk(o, c, arrivals, more, table, walked, h);
      more := MarkGroup(more, table[h]);
      todo := todo - {h};
      walked := walked + {h};
    }
    assert walked == table.Keys;
    if DistinctNames(arrivals) {
      DistinctChecked(o, c, arrivals);
      AllWalked(table, o, c, audited);
    }
  }

  lemma StartOfWalk(o: Options, c: Checks, arrivals: seq<Arrival>)
    ensures var entries := OwnEntries(o, c, arrivals);
      && (forall n :: !ReusedIn(entries, n))
      && NamesWithin(entries, AuditedNames(arrivals))
      && (DistinctNames(arrivals) ==> Represents(entries, WithReuse(o, c, AuditedOf(arrivals), {})))
  {
    OwnHasNoReuse(o, c, arrivals);
    OwnWithin(o, c, arrivals);
    if DistinctNames(arrivals) {
      DistinctChecked(o, c, arrivals);
      NothingWalked(o, c, AuditedOf(arrivals));
    }
  }

  lemma StepOfWalk(o: Options, c: Checks, arrivals: seq<Arrival>, entries: seq<EntryResult>, table: map<string, seq<string>>, walked: set<string>, h: string)
    requires table == TableOf(o, c, arrivals) && h in table && h !in walked
    requires forall n :: ReusedIn(entries, n) <==> InGroup(table, walked, n)
    requires NamesWithin(entries, AuditedNames(arrivals))
    requires DistinctNames(arrivals) ==> Represents(entries, WithReuse(o, c, AuditedOf(arrivals), walked))
    ensures var more := GroupMarked(entries, table[h]);
      && (forall n :: ReusedIn(more, n) <==> InGroup(table, walked + {h}, n))
      && NamesWithin(more, AuditedNames(arrivals))
      && (DistinctNames(arrivals) ==> Represents(more, WithReuse(o, c, AuditedOf(arrivals), walked + {h})))
  {
    forall n ensures ReusedIn(GroupMarked(entries, table[h]), n) <==> InGroup(table, walked + {h}, n) {
      GroupReuse(entries, table, walked, h, n);
    }
    TableNames(o, c, arrivals);
    MarkedWithin(entries, table[h], |table[h]|, AuditedNames(arrivals));
    if DistinctNames(arrivals) {
      var audited := AuditedOf(arrivals);
      DistinctChecked(o, c, arrivals);
      GroupIs(table, o, c, audited, walked, h);
      GroupRepresents(entries, table[h], WithReuse(o, c, audited, walked), WithReuse(o, c, audited, walked + {h}));
    }
  }

  function SeverityCount(entries: seq<EntryResult>, s: Severity): nat {
    if entries == [] then 0
    else SeverityCount(entries[..|entries| - 1], s) + if Worst(entries[|entries| - 1].findings) == s then 1 else 0
  }

  /** The three counters, by the worst finding of each entry. */
  method CountBySeverity(entries: seq<EntryResult>) returns (critical: nat, warning: nat, info: nat)
    ensures critical == SeverityCount(entries, Critical) && warning == SeverityCount(entries, Warning) && info == SeverityCount(entries, Info)
  {
    critical, warning, info := 0, 0, 0;
    for i := 0 to |entries|
      invariant critical == SeverityCount(entries[..i], Critical)
      invariant warning == SeverityCount(entries[..i], Warning)
      invariant info == SeverityCount(entries[..i], Info)
    {
      assert entries[..i + 1][..i] == entries[..i];
      match Worst(entries[i].findings) {
        case Critical => critical := critical + 1;
        case Warning => warning := warning + 1;
        case Info => info := info + 1;
      }
    }
    assert entries[..|entries|] == entries;
  }

  lemma {:induction false} CountsAddUp(entries: seq<EntryResult>)
    ensures SeverityCount(entries, Critical) + SeverityCount(entries, Warning) + SeverityCount(entries, Info) == |entries|
  {
    if entries != [] {
      CountsAddUp(entries[..|entries| - 1]);
    }
  }

  lemma {:induction false} CountConcat(a: seq<EntryResult>, b: seq<EntryResult>, s: Severity)
    ensures SeverityCount(a + b, s) == SeverityCount(a, s) + SeverityCount(b, s)
    decreases |b|
  {
    if b == [] {
      assert a + b == a;
    } else {
      assert (a + b)[..|a + b| - 1] == a + b[..|b| - 1];
      CountConcat(a, b[..|b| - 1], s);
    }
  }

  /** Sorting changes no counter. */
  lemma {:induction false} CountOfSorted(a: seq<EntryResult>, b: seq<EntryResult>, s: Severity)
    requires multiset(a) == multiset(b)
    ensures SeverityCount(a, s) == SeverityCount(b, s)
    decreases |a|
  {
    if a == [] {
      assert b == [] by { assert |multiset(b)| == 0; }
    } else {
      var init, x := a[..|a| - 1], a[|a| - 1];
      assert a == init + [x] && x in multiset(b);
      var k :| 0 <= k < |b| && b[k] == x;
      var rest := b[..k] + b[k + 1..];
      assert b == b[..k] + [x] + b[k + 1..];
      OneFewer(a, b, k);
      CountOfSorted(init, rest, s);
      CountConcat(init, [x], s);
      CountConcat(b[..k], b[k + 1..], s);
      CountConcat(b[..k] + [x], b[k + 1..], s);
      CountConcat(b[..k], [x], s);
    }
  }

  function Place(entries: seq<EntryResult>, s: Severity): set<string> {
    set i | 0 <= i < |entries| && Worst(entries[i].findings) == s :: entries[i].name
  }

  lemma PlaceSnoc(entries: seq<EntryResult>, s: Severity)
    requires entries != []
    ensures var last := entries[|entries| - 1];
      Place(entries, s) == Place(entries[..|entries| - 1], s) + if Worst(last.findings) == s then {last.name} else {}
  {
  }

  lemma PlaceIsBucket(entries: seq<EntryResult>, found: map<string, seq<Finding>>, s: Severity)
    requires Represents(entries, found)
    ensures Place(entries, s) == Bucket(found, s)
  {
    forall n ensures n in Place(entries, s) <==> n in Bucket(found, s) {
      if n in Place(entries, s) {
        var i :| 0 <= i < |entries| && Worst(entries[i].findings) == s && entries[i].name == n;
        assert entries[i] in entries;
      }
      if n in Bucket(found, s) {
        assert EntryResult(n, found[n]) in entries;
        var i :| 0 <= i < |entries| && entries[i] == EntryResult(n, found[n]);
      }
    }
  }

  lemma PlaceSize(entries: seq<EntryResult>, i: nat, s: Severity)
    requires i < |entries| && forall j :: 0 <= j < i ==> entries[j].name != entries[i].name
    ensures |Place(entries[..i + 1], s)| == |Place(entries[..i], s)| + if Worst(entries[i].findings) == s then 1 else 0
  {
    PlaceSnoc(entries[..i + 1], s);
    assert entries[..i + 1][..i] == entries[..i];
    assert entries[i].name !in Place(entries[..i], s);
  }

  lemma {:induction false} CountIsPlace(entries: seq<EntryResult>, s: Severity)
    requires forall i, j :: 0 <= i < j < |entries| ==> entries[i].name != entries[j].name
    ensures SeverityCount(entries, s) == |Place(entries, s)|
  {
    if entries != [] {
      var n := |entries| - 1;
      CountIsPlace(entries[..n], s);
      PlaceSize(entries, n, s);
      assert entries[..n + 1] == entries;
    }
  }

  lemma FourParts<T>(a: set<T>, b: set<T>, c: set<T>, d: set<T>)
    requires a !! b && a !! c && a !! d && b !! c && b !! d && c !! d
    ensures |a + b + c + d| == |a| + |b| + |c| + |d|
  {
    assert |a + b + c + d| == |a + b + c| + |d|;
    assert |a + b + c| == |a + b| + |c|;
  }

  lemma EveryBucket(found: map<string, seq<Finding>>)
    ensures |Bucket(found, Critical)| + |Bucket(found, Warning)| + |Bucket(found, Info)| + |CleanNames(found)| == |found|
  {
    FourParts(Bucket(found, Critical), Bucket(found, Warning), Bucket(found, Info), CleanNames(found));
    assert Bucket(found, Critical) + Bucket(found, Warning) + Bucket(found, Info) + CleanNames(found) == found.Keys;
  }

  /** What every report says, repeated names or not. */
  ghost predicate ReportsAny(r: Report, o: Options, c: Checks, arrivals: seq<Arrival>) {
    && WeaklySorted(EntryLess, r.entries)
    && r.skipped == FailedOf(arrivals)
    && r.stats.total == |arrivals| && r.stats.audited == |AuditedNames(arrivals)|
    && r.stats.critical == SeverityCount(r.entries, Critical)
    && r.stats.warning == SeverityCount(r.entries, Warning)
    && r.stats.info == SeverityCount(r.entries, Info)
    && r.stats.clean == r.stats.audited - |r.entries|
    && NamesWithin(r.entries, AuditedNames(arrivals))
    && forall n :: ReusedIn(r.entries, n) <==> InGroup(TableOf(o, c, arrivals), TableOf(o, c, arrivals).Keys, n)
  }

  method Run(o: Options, c: Checks, arrivals: seq<Arrival>) returns (r: Report)
    ensures ReportsAny(r, o, c, arrivals)
    ensures DistinctNames(arrivals) ==> IsReport(r, o, c, arrivals)
  {
    var entries, skipped, table, count := CheckAll(o, c, arrivals);
    if o.reuse {
      entries := MarkReused(entries, table, o, c, arrivals);
    } else {
      WithoutReuse(o, c, arrivals);
    }
    var critical, warning, info := CountBySeverity(entries);
    EntryOrder();
    var sorted := Arrange(EntryLess, entries);
    CountsAddUp(entries);
    FewerEntries(entries, AuditedNames(arrivals));
    SortedReport(entries, sorted, AuditedNames(arrivals));
    r := Report(sorted, skipped, Stats(|arrivals|, count, critical, warning, info, count - critical - warning - info));
    if DistinctNames(arrivals) {
      DistinctReport(o, c, arrivals, entries, r);
    }
  }

  lemma WithoutReuse(o: Options, c: Checks, arrivals: seq<Arrival>)
    requires !o.reuse
    ensures var entries, table := OwnEntries(o, c, arrivals), TableOf(o, c, arrivals);
      && (forall n :: ReusedIn(entries, n) <==> InGroup(table, table.Keys, n))
      && NamesWithin(entries, AuditedNames(arrivals))
      && (DistinctNames(arrivals) ==> Represents(entries, AllFindings(o, c, AuditedOf(arrivals))))
  {
    StartOfWalk(o, c, arrivals);
    NoTable(o, c, arrivals);
    if DistinctNames(arrivals) {
      DistinctChecked(o, c, arrivals);
      NoReuse(o, c, AuditedOf(arrivals));
    }
  }

  lemma {:induction false} NoTable(o: Options, c: Checks, arrivals: seq<Arrival>)
    requires !o.reuse
    ensures TableOf(o, c, arrivals) == map[]
  {
    if arrivals != [] {
      NoTable(o, c, arrivals[..|arrivals| - 1]);
    }
  }

  /** Sorting keeps who is marked, how many there are and of what severity. */
  lemma SortedReport(entries: seq<EntryResult>, sorted: seq<EntryResult>, audited: seq<string>)
    requires multiset(sorted) == multiset(entries)
    ensures |sorted| == |entries| && forall n :: ReusedIn(sorted, n) <==> ReusedIn(entries, n)
    ensures forall s :: SeverityCount(sorted, s) == SeverityCount(entries, s)
    ensures NamesWithin(entries, audited) ==> NamesWithin(sorted, audited)
  {
    assert |multiset(sorted)| == |multiset(entries)|;
    forall e ensures e in sorted <==> e in entries {
      assert e in multiset(sorted) <==> e in multiset(entries);
    }
    forall s { CountOfSorted(sorted, entries, s); }
    NamesOfSorted(sorted, entries);
  }

  lemma {:induction false} NamesOfSorted(a: seq<EntryResult>, b: seq<EntryResult>)
    requires multiset(a) == multiset(b)
    ensures multiset(NamesOf(a)) == multiset(NamesOf(b))
    decreases |a|
  {
    if a == [] {
      assert b == [] by { assert |multiset(b)| == 0; }
    } else {
      var x := a[|a| - 1];
      assert a == a[..|a| - 1] + [x] && x in multiset(b);
      var k :| 0 <= k < |b| && b[k] == x;
      assert b == b[..k] + [x] + b[k + 1..];
      OneFewer(a, b, k);
      NamesOfSorted(a[..|a| - 1], b[..k] + b[k + 1..]);
      NamesMoved(a[..|a| - 1], b[..k], b[k + 1..], x);
    }
  }

  lemma NamesMoved(init: seq<EntryResult>, front: seq<EntryResult>, back: seq<EntryResult>, x: EntryResult)
    requires multiset(NamesOf(init)) == multiset(NamesOf(front + back))
    ensures multiset(NamesOf(init + [x])) == multiset(NamesOf(front + [x] + back))
  {
    NamesConcat(init, [x]);
    NamesConcat(front, back);
    NamesConcat(front, [x]);
    NamesConcat(front + [x], back);
  }

  lemma DistinctReport(o: Options, c: Checks, arrivals: seq<Arrival>, entries: seq<EntryResult>, r: Report)
    requires DistinctNames(arrivals) && ReportsAny(r, o, c, arrivals)
    requires multiset(r.entries) == multiset(entries) && Represents(entries, AllFindings(o, c, AuditedOf(arrivals)))
    ensures IsReport(r, o, c, arrivals)
  {
    var found := AllFindings(o, c, AuditedOf(arrivals));
    DistinctChecked(o, c, arrivals);
    SortedRepresents(entries, r.entries, found);
    CountIsPlace(r.entries, Critical);
    CountIsPlace(r.entries, Warning);
    CountIsPlace(r.entries, Info);
    PlaceIsBucket(r.entries, found, Critical);
    PlaceIsBucket(r.entries, found, Warning);
    PlaceIsBucket(r.entries, found, Info);
    EveryBucket(found);
    CountsAddUp(r.entries);
    assert found.Keys == AuditedOf(arrivals).Keys;
    assert |found| == |AuditedOf(arrivals)|;
  }

  lemma SortedRepresents(a: seq<EntryResult>, b: seq<EntryResult>, found: map<string, seq<Finding>>)
    requires Represents(a, found) && WeaklySorted(EntryLess, b) && multiset(a) == multiset(b)
    ensures Represents(b, found) && SortedBy(EntryLess, b)
  {
    forall e ensures e in b <==> e in a {
      assert e in multiset(b) <==> e in multiset(a);
    }
    DistinctStays(a, b);
    forall i, j | 0 <= i < j < |b| ensures b[i].name != b[j].name {
      assert b[i] in b && b[j] in b;
      assert b[i] == EntryResult(b[i].name, found[b[i].name]) && b[j] == EntryResult(b[j].name, found[b[j].name]);
    }
    EntryOrder();
  }
}
