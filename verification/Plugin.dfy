/** Plugin consent: what a guard enforces, and when a recorded grant still covers the
  * capabilities a manifest asks for.
  */
module Plugin {
  import opened Wrappers
  import opened Strings
  import opened Glob

  datatype Capabilities = Capabilities(
    readPaths: seq<string>,
    writePaths: seq<string>,
    decrypt: bool,
    network: seq<string>,
    exec: seq<string>)

  datatype Manifest = Manifest(name: string, version: string, capabilities: Capabilities)

  // ---------- the guard ----------

  /** Every host or binary wanted is listed, or a "*" is. */
  predicate CoversHosts(have: seq<string>, want: seq<string>) {
    forall i :: 0 <= i < |want| ==> want[i] in have || "*" in have
  }

  datatype Guard = Guard(name: string, caps: Capabilities, active: bool) {

    predicate CanRead(entry: string) {
      !active || AnyMatches(caps.readPaths, entry)
    }

    predicate CanWrite(entry: string) {
      !active || AnyMatches(caps.writePaths, entry)
    }

    /** Seeing a path and seeing its plaintext are separate grants. */
    predicate CanDecrypt(entry: string) {
      !active || (caps.decrypt && AnyMatches(caps.readPaths, entry))
    }

    predicate CheckExec(bin: string) {
      !active || CoversHosts(caps.exec, [bin])
    }

    predicate CheckNetwork(host: string) {
      !active || CoversHosts(caps.network, [host])
    }

    function FilterReadable(names: seq<string>): seq<string> {
      if !active || names == [] then names
      else (if AnyMatches(caps.readPaths, names[0]) then [names[0]] else []) + FilterReadable(names[1..])
    }
  }

  // ---------- comparing patterns ----------

  /** `s` without `suffix`, unless nothing or no such ending is left. */
  function TrimSuffix(s: string, suffix: string): Option<string> {
    if |s| > |suffix| && s[|s| - |suffix|..] == suffix then Some(s[..|s| - |suffix|]) else None
  }

  predicate HasPathPrefix(p: string, prefix: string) {
    |p| > |prefix| && p[..|prefix|] == prefix && p[|prefix|] == '/'
  }

  /** A syntactic test: it may refuse a pattern that is contained, never accept one that is not. */
  predicate Subsumes(a: string, b: string) {
    if a == "**" then true
    else match TrimSuffix(a, "/**")
      case Some(rest) => b == rest || HasPathPrefix(b, rest)
      case None => false
  }

  predicate PatternCovered(have: seq<string>, want: string) {
    exists i :: 0 <= i < |have| && (have[i] == want || Subsumes(have[i], want))
  }

  predicate Covers(have: seq<string>, want: seq<string>) {
    forall i :: 0 <= i < |want| ==> PatternCovered(have, want[i])
  }

  predicate Widens(have: Capabilities, want: Capabilities) {
    || (want.decrypt && !have.decrypt)
    || !Covers(have.readPaths, want.readPaths)
    || !Covers(have.writePaths, want.writePaths)
    || !CoversHosts(have.network, want.network)
    || !CoversHosts(have.exec, want.exec)
  }

  // ---------- the lock ----------

  datatype GrantRecord = GrantRecord(name: string, version: string, digest: string, capabilities: Capabilities)

  datatype GrantState = GrantMissing | GrantStale | GrantWidened | GrantValid

  function CheckGrants(grants: map<string, GrantRecord>, m: Manifest, digest: string): GrantState {
    if m.name !in grants then GrantMissing
    else if grants[m.name].digest != digest then GrantStale
    else if Widens(grants[m.name].capabilities, m.capabilities) then GrantWidened
    else GrantValid
  }

  class Lock {
    var grants: map<string, GrantRecord>

    constructor ()
      ensures grants == map[]
    {
      grants := map[];
    }

    /** Consent makes exactly this manifest at exactly this digest valid, and touches no
      * other plugin. */
    method Grant(m: Manifest, digest: string)
      modifies this
      ensures grants == old(grants)[m.name := GrantRecord(m.name, m.version, digest, m.capabilities)]
      ensures Check(m, digest) == GrantValid
      ensures forall n: Manifest, d: string :: n.name == m.name && d != digest ==> Check(n, d) == GrantStale
      ensures forall n: Manifest, d: string :: n.name != m.name ==> Check(n, d) == old(Check(n, d))
    {
      grants := grants[m.name := GrantRecord(m.name, m.version, digest, m.capabilities)];
      NothingNewIsNotWider(m.capabilities);
    }

    method Revoke(name: string)
      modifies this
      ensures grants == old(grants) - {name}
      ensures forall n: Manifest, d: string :: Check(n, d) == if n.name == name then GrantMissing else old(Check(n, d))
    {
      grants := grants - {name};
    }

    function Check(m: Manifest, digest: string): GrantState
      reads this
    {
      CheckGrants(grants, m, digest)
    }
  }

  lemma NothingNewIsNotWider(c: Capabilities)
    ensures !Widens(c, c)
  {
    forall w | w in c.readPaths ensures PatternCovered(c.readPaths, w) {
      var i :| 0 <= i < |c.readPaths| && c.readPaths[i] == w;
    }
    forall w | w in c.writePaths ensures PatternCovered(c.writePaths, w) {
      var i :| 0 <= i < |c.writePaths| && c.writePaths[i] == w;
    }
  }

  // ---------- a subsuming pattern matches more ----------

  lemma EverythingPattern(name: string)
    ensures PathMatches("**", name)
  {
    SplitPiece("**", '/', "");
    assert PathSegments("**") == ["**"] by { assert ["**"][1..] == []; }
    SubtreePattern([], PathSegments(name));
    assert [] + ["**"] == ["**"];
  }

  lemma SegmentsOfJoin(a: string, b: string)
    ensures PathSegments(a + "/" + b) == PathSegments(a) + PathSegments(b)
  {
    assert a + "/" + b == a + ['/'] + b;
    SplitConcat(a, '/', b);
    NonEmptyConcat(Split(a, '/'), Split(b, '/'));
  }

  /** Whatever the tail of a pattern asks for, a final double star asks for less. */
  lemma TailIsWeaker(head: seq<string>, tail: seq<string>, name: seq<string>)
    requires SegmentsMatch(head + tail, name)
    ensures SegmentsMatch(head + ["**"], name)
  {
    var k := SplitMatch(IsDoubleStar, SegmentMatches, head, tail, name);
    SubtreePattern([], name[k..]);
    assert [] + ["**"] == ["**"];
    JoinMatch(IsDoubleStar, SegmentMatches, head, ["**"], name, k);
  }

  lemma SubsumedMatches(a: string, b: string, name: string)
    requires a == b || Subsumes(a, b)
    requires PathMatches(b, name)
    ensures PathMatches(a, name)
  {
    if a == "**" {
      EverythingPattern(name);
    } else if a != b {
      var rest := TrimSuffix(a, "/**").value;
      assert a == rest + "/" + "**";
      SegmentsOfJoin(rest, "**");
      SplitPiece("**", '/', "");
      assert PathSegments("**") == ["**"] by { assert ["**"][1..] == []; }
      var head, n := PathSegments(rest), PathSegments(name);
      if b == rest {
        assert head + [] == head;
        TailIsWeaker(head, [], n);
      } else {
        var below := b[|rest| + 1..];
        assert b == rest + "/" + below;
        SegmentsOfJoin(rest, below);
        TailIsWeaker(head, PathSegments(below), n);
      }
    }
  }

  lemma CoveredPatternsMatch(have: seq<string>, want: seq<string>, name: string)
    requires Covers(have, want) && AnyMatches(want, name)
    ensures AnyMatches(have, name)
  {
    var i :| 0 <= i < |want| && PathMatches(want[i], name);
    assert PatternCovered(have, want[i]);
    var j :| 0 <= j < |have| && (have[j] == want[i] || Subsumes(have[j], want[i]));
    SubsumedMatches(have[j], want[i], name);
  }

  lemma CoveredHosts(have: seq<string>, want: seq<string>, host: string)
    requires CoversHosts(have, want) && CoversHosts(want, [host])
    ensures CoversHosts(have, [host])
  {
    assert [host][0] in want || "*" in want;
    if host in want {
      var i :| 0 <= i < |want| && want[i] == host;
    } else {
      var i :| 0 <= i < |want| && want[i] == "*";
    }
  }

  /** A grant that is still valid allows whatever the manifest's capabilities allow, for
    * every entry, host and binary. */
  lemma ValidGrantCovers(grants: map<string, GrantRecord>, m: Manifest, digest: string)
    requires CheckGrants(grants, m, digest) == GrantValid
    ensures m.name in grants
    ensures var asked := Guard(m.name, m.capabilities, true);
            var granted := Guard(m.name, grants[m.name].capabilities, true);
            && (forall e :: asked.CanRead(e) ==> granted.CanRead(e))
            && (forall e :: asked.CanWrite(e) ==> granted.CanWrite(e))
            && (forall e :: asked.CanDecrypt(e) ==> granted.CanDecrypt(e))
            && (forall h :: asked.CheckNetwork(h) ==> granted.CheckNetwork(h))
            && (forall b :: asked.CheckExec(b) ==> granted.CheckExec(b))
  {
    var have, want := grants[m.name].capabilities, m.capabilities;
    var asked, granted := Guard(m.name, want, true), Guard(m.name, have, true);
    forall e | asked.CanRead(e) ensures granted.CanRead(e) {
      CoveredPatternsMatch(have.readPaths, want.readPaths, e);
    }
    forall e | asked.CanWrite(e) ensures granted.CanWrite(e) {
      CoveredPatternsMatch(have.writePaths, want.writePaths, e);
    }
    forall e | asked.CanDecrypt(e) ensures granted.CanDecrypt(e) {
      CoveredPatternsMatch(have.readPaths, want.readPaths, e);
    }
    forall h | asked.CheckNetwork(h) ensures granted.CheckNetwork(h) {
      CoveredHosts(have.network, want.network, h);
    }
    forall b | asked.CheckExec(b) ensures granted.CheckExec(b) {
      CoveredHosts(have.exec, want.exec, b);
    }
  }

  /** A plugin scoped to a subtree sees exactly the names it may read ... */
  lemma {:induction false} FilterIsReadable(g: Guard, names: seq<string>)
    ensures forall n :: n in g.FilterReadable(names) <==> n in names && g.CanRead(n)
    decreases |names|
  {
    if names != [] {
      FilterIsReadable(g, names[1..]);
    }
  }

  /** ... in the order they were listed. */
  lemma {:induction false} FilterKeepsOrder(g: Guard, a: seq<string>, b: seq<string>)
    ensures g.FilterReadable(a + b) == g.FilterReadable(a) + g.FilterReadable(b)
    decreases |a|
  {
    if a == [] {
      assert a + b == b;
    } else {
      assert (a + b)[1..] == a[1..] + b;
      FilterKeepsOrder(g, a[1..], b);
    }
  }

  // ---------- what a verdict means ----------

  /** A verdict by what the records say: consent is tied to one executable and to what was asked. */
  lemma VerdictMeans(grants: map<string, GrantRecord>, m: Manifest, digest: string)
    ensures CheckGrants(grants, m, digest) == GrantMissing <==> m.name !in grants
    ensures CheckGrants(grants, m, digest) == GrantStale <==> m.name in grants && grants[m.name].digest != digest
    ensures CheckGrants(grants, m, digest) == GrantWidened <==>
              m.name in grants && grants[m.name].digest == digest && Widens(grants[m.name].capabilities, m.capabilities)
    ensures CheckGrants(grants, m, digest) == GrantValid <==>
              m.name in grants && grants[m.name].digest == digest && !Widens(grants[m.name].capabilities, m.capabilities)
  {
  }

  /** A pattern that a grant of `h` allows without asking again: itself, anything under a double
    * star, and the subtree's root and what is beneath it.
    */
  ghost predicate AllowsWithoutAsking(h: string, w: string) {
    || h == w
    || h == "**"
    || exists rest: string :: rest != "" && h == rest + "/**" && (w == rest || HasPrefix(w, rest + "/"))
  }

  lemma AllowedExactly(h: string, w: string)
    ensures (h == w || Subsumes(h, w)) <==> AllowsWithoutAsking(h, w)
  {
    if rest: string :| rest != "" && h == rest + "/**" && (w == rest || HasPrefix(w, rest + "/")) {
      assert h[|h| - 3..] == "/**" && h[..|h| - 3] == rest;
      if HasPrefix(w, rest + "/") {
        assert w[|rest|] == (rest + "/")[|rest|] == '/' && w[..|rest|] == (rest + "/")[..|rest|] == rest;
        BeneathOrJust(w, rest);
      }
    }
    if Subsumes(h, w) && h != "**" {
      var rest := h[..|h| - 3];
      assert h == rest + "/**" && rest != "";
      if w != rest {
        assert w[..|rest| + 1] == rest + "/";
      }
    }
  }

  lemma BeneathOrJust(w: string, rest: string)
    requires HasPrefix(w, rest + "/")
    ensures HasPathPrefix(w, rest)
  {
    assert w[..|rest| + 1] == rest + "/";
    assert w[|rest|] == (rest + "/")[|rest|];
    assert w[..|rest|] == (rest + "/")[..|rest|];
  }

  /** A manifest is no wider than a grant exactly when each thing it asks for is allowed already. */
  lemma NotWiderExactly(have: Capabilities, want: Capabilities)
    ensures !Widens(have, want) <==>
      && (want.decrypt ==> have.decrypt)
      && (forall w :: w in want.readPaths ==> SomeAllows(have.readPaths, w))
      && (forall w :: w in want.writePaths ==> SomeAllows(have.writePaths, w))
      && (forall w :: w in want.network ==> w in have.network || "*" in have.network)
      && (forall w :: w in want.exec ==> w in have.exec || "*" in have.exec)
  {
    CoversExactly(have.readPaths, want.readPaths);
    CoversExactly(have.writePaths, want.writePaths);
  }

  ghost predicate SomeAllows(have: seq<string>, w: string) {
    exists h :: h in have && AllowsWithoutAsking(h, w)
  }

  lemma PatternCoveredExactly(have: seq<string>, w: string)
    ensures PatternCovered(have, w) <==> SomeAllows(have, w)
  {
    if PatternCovered(have, w) {
      var i :| 0 <= i < |have| && (have[i] == w || Subsumes(have[i], w));
      AllowedExactly(have[i], w);
      assert have[i] in have;
    }
    if h :| h in have && AllowsWithoutAsking(h, w) {
      AllowedExactly(h, w);
      var i :| 0 <= i < |have| && have[i] == h;
    }
  }

  lemma CoversExactly(have: seq<string>, want: seq<string>)
    ensures Covers(have, want) <==> forall w :: w in want ==> SomeAllows(have, w)
  {
    forall i | 0 <= i < |want| ensures PatternCovered(have, want[i]) <==> SomeAllows(have, want[i]) {
      PatternCoveredExactly(have, want[i]);
    }
    assert forall i :: 0 <= i < |want| ==> want[i] in want;
  }

  // ---------- what a guard means ----------

  /** A guard that drives the process allows what the capabilities say, and nothing more: reading by
    * a read pattern, writing by a write pattern, plaintext by a read pattern and the decrypt grant
    * together, hosts and binaries by name or by a "*". One that does not drive allows everything.
    */
  lemma GuardMeans(g: Guard, entry: string, name: string)
    ensures g.CanRead(entry) <==> g.active ==> exists p :: p in g.caps.readPaths && PathMatches(p, entry)
    ensures g.CanWrite(entry) <==> g.active ==> exists p :: p in g.caps.writePaths && PathMatches(p, entry)
    ensures g.CanDecrypt(entry) <==> g.active ==> g.caps.decrypt && exists p :: p in g.caps.readPaths && PathMatches(p, entry)
    ensures g.CheckNetwork(name) <==> g.active ==> name in g.caps.network || "*" in g.caps.network
    ensures g.CheckExec(name) <==> g.active ==> name in g.caps.exec || "*" in g.caps.exec
  {
    SomePatternMatches(g.caps.readPaths, entry);
    SomePatternMatches(g.caps.writePaths, entry);
    assert [name][0] == name;
  }

  lemma SomePatternMatches(patterns: seq<string>, entry: string)
    ensures AnyMatches(patterns, entry) <==> exists p :: p in patterns && PathMatches(p, entry)
  {
    if AnyMatches(patterns, entry) {
      var i :| 0 <= i < |patterns| && PathMatches(patterns[i], entry);
      assert patterns[i] in patterns;
    }
    if p :| p in patterns && PathMatches(p, entry) {
      var i :| 0 <= i < |patterns| && patterns[i] == p;
    }
  }

  /** Without the decrypt grant no plaintext is shown, and without write patterns nothing is written. */
  lemma NothingUnasked(g: Guard, entry: string)
    requires g.active
    ensures !g.caps.decrypt ==> !g.CanDecrypt(entry)
    ensures g.caps.writePaths == [] ==> !g.CanWrite(entry)
    ensures g.caps.readPaths == [] ==> !g.CanRead(entry) && !g.CanDecrypt(entry)
    ensures g.CanDecrypt(entry) ==> g.CanRead(entry)
  {
    GuardMeans(g, entry, "");
  }
}
