/** Capability patterns: `**` stands for any number of whole path segments, `*` for any run
  * of characters inside one segment.  What a pattern matches is defined by assigning each
  * pattern item the stretch it stands for; the program finds out by recursion over the
  * segments and a greedy left-to-right scan inside one.
  */
module Glob {
  import opened Strings

  // ---------- the pattern language ----------

  function Flatten<N>(blocks: seq<seq<N>>): seq<N> {
    if blocks == [] then [] else blocks[0] + Flatten(blocks[1..])
  }

  /** Each item gets a stretch of the subject: a wildcard any, another item one match. */
  ghost predicate Assigns<P, N>(wild: P -> bool, one: (P, N) -> bool, pattern: seq<P>, subject: seq<N>, blocks: seq<seq<N>>) {
    && |blocks| == |pattern|
    && Flatten(blocks) == subject
    && forall i :: 0 <= i < |pattern| ==> wild(pattern[i]) || (|blocks[i]| == 1 && one(pattern[i], blocks[i][0]))
  }

  ghost predicate InLanguage<P(!new), N(!new)>(wild: P -> bool, one: (P, N) -> bool, pattern: seq<P>, subject: seq<N>) {
    exists blocks :: Assigns(wild, one, pattern, subject, blocks)
  }

  /** The same by recursion: a wildcard may take any number of leading items. */
  predicate Matches<P, N>(wild: P -> bool, one: (P, N) -> bool, pattern: seq<P>, subject: seq<N>)
    decreases |pattern|
  {
    if pattern == [] then subject == []
    else if wild(pattern[0]) then exists k: nat | k <= |subject| :: Matches(wild, one, pattern[1..], subject[k..])
    else subject != [] && one(pattern[0], subject[0]) && Matches(wild, one, pattern[1..], subject[1..])
  }

  lemma {:induction false} MatchesIsLanguage<P(!new), N(!new)>(wild: P -> bool, one: (P, N) -> bool, pattern: seq<P>, subject: seq<N>)
    ensures Matches(wild, one, pattern, subject) <==> InLanguage(wild, one, pattern, subject)
  {
    if Matches(wild, one, pattern, subject) {
      var blocks := AssignmentOfMatch(wild, one, pattern, subject);
    }
    if InLanguage(wild, one, pattern, subject) {
      var blocks :| Assigns(wild, one, pattern, subject, blocks);
      MatchOfAssignment(wild, one, pattern, subject, blocks);
    }
  }

  lemma {:induction false} AssignmentOfMatch<P, N>(wild: P -> bool, one: (P, N) -> bool, pattern: seq<P>, subject: seq<N>)
    returns (blocks: seq<seq<N>>)
    requires Matches(wild, one, pattern, subject)
    ensures Assigns(wild, one, pattern, subject, blocks)
    decreases |pattern|
  {
    if pattern == [] {
      blocks := [];
    } else {
      var k: nat := 1;
      if wild(pattern[0]) {
        k :| 0 <= k <= |subject| && Matches(wild, one, pattern[1..], subject[k..]);
      }
      var rest := AssignmentOfMatch(wild, one, pattern[1..], subject[k..]);
      blocks := [subject[..k]] + rest;
      assert blocks[1..] == rest;
      assert subject[..k] + subject[k..] == subject;
      forall i | 0 <= i < |pattern|
        ensures wild(pattern[i]) || (|blocks[i]| == 1 && one(pattern[i], blocks[i][0]))
      {
        if i > 0 {
          assert pattern[i] == pattern[1..][i - 1] && blocks[i] == rest[i - 1];
        }
      }
    }
  }

  lemma {:induction false} MatchOfAssignment<P, N>(wild: P -> bool, one: (P, N) -> bool, pattern: seq<P>, subject: seq<N>, blocks: seq<seq<N>>)
    requires Assigns(wild, one, pattern, subject, blocks)
    ensures Matches(wild, one, pattern, subject)
    decreases |pattern|
  {
    if pattern != [] {
      var k := |blocks[0]|;
      var rest := blocks[1..];
      assert subject == blocks[0] + Flatten(rest);
      assert subject[k..] == Flatten(rest) && subject[..k] == blocks[0];
      forall i | 0 <= i < |pattern[1..]|
        ensures wild(pattern[1..][i]) || (|rest[i]| == 1 && one(pattern[1..][i], rest[i][0]))
      {
        assert pattern[1..][i] == pattern[i + 1] && rest[i] == blocks[i + 1];
      }
      MatchOfAssignment(wild, one, pattern[1..], subject[k..], rest);
    }
  }

  /** A pattern in two parts matches what splits into a match of each. */
  lemma MatchesConcat<P, N>(wild: P -> bool, one: (P, N) -> bool, a: seq<P>, b: seq<P>, subject: seq<N>)
    ensures Matches(wild, one, a + b, subject) <==>
              exists k: nat :: k <= |subject| && Matches(wild, one, a, subject[..k]) && Matches(wild, one, b, subject[k..])
  {
    if Matches(wild, one, a + b, subject) {
      var k := SplitMatch(wild, one, a, b, subject);
    }
    forall k: nat | k <= |subject| && Matches(wild, one, a, subject[..k]) && Matches(wild, one, b, subject[k..])
      ensures Matches(wild, one, a + b, subject)
    {
      JoinMatch(wild, one, a, b, subject, k);
    }
  }

  lemma {:induction false} SplitMatch<P, N>(wild: P -> bool, one: (P, N) -> bool, a: seq<P>, b: seq<P>, subject: seq<N>) returns (k: nat)
    requires Matches(wild, one, a + b, subject)
    ensures k <= |subject| && Matches(wild, one, a, subject[..k]) && Matches(wild, one, b, subject[k..])
    decreases |a|
  {
    if a == [] {
      assert a + b == b && subject[0..] == subject;
      k := 0;
    } else {
      assert (a + b)[0] == a[0] && (a + b)[1..] == a[1..] + b;
      var j: nat := 1;
      if wild(a[0]) {
        j :| 0 <= j <= |subject| && Matches(wild, one, a[1..] + b, subject[j..]);
      }
      var rest := SplitMatch(wild, one, a[1..], b, subject[j..]);
      k := j + rest;
      assert subject[j..][rest..] == subject[k..];
      assert subject[..k][j..] == subject[j..][..rest];
    }
  }

  lemma {:induction false} JoinMatch<P, N>(wild: P -> bool, one: (P, N) -> bool, a: seq<P>, b: seq<P>, subject: seq<N>, k: nat)
    requires k <= |subject| && Matches(wild, one, a, subject[..k]) && Matches(wild, one, b, subject[k..])
    ensures Matches(wild, one, a + b, subject)
    decreases |a|
  {
    if a == [] {
      assert a + b == b && subject[0..] == subject;
    } else {
      assert (a + b)[0] == a[0] && (a + b)[1..] == a[1..] + b;
      var j: nat := 1;
      if wild(a[0]) {
        j :| 0 <= j <= |subject[..k]| && Matches(wild, one, a[1..], subject[..k][j..]);
      }
      assert subject[..k][j..] == subject[j..][..k - j] && subject[j..][k - j..] == subject[k..];
      JoinMatch(wild, one, a[1..], b, subject[j..], k - j);
    }
  }

  // ---------- one segment ----------

  predicate IsStar(c: char) {
    c == '*'
  }

  predicate SameChar(c: char, d: char) {
    c == d
  }

  predicate SegmentMatches(pattern: string, s: string) {
    Matches(IsStar, SameChar, pattern, s)
  }

  /** Literals, each after a wildcard; the last one ends the text. */
  ghost predicate Floating(lits: seq<string>, s: string)
    requires |lits| >= 1
    decreases |lits|
  {
    if |lits| == 1 then HasSuffix(s, lits[0])
    else exists i :: OccursAt(s, lits[0], i) && Floating(lits[1..], s[i + |lits[0]|..])
  }

  lemma {:induction false} LiteralThenRest(lit: string, rest: string, s: string)
    requires '*' !in lit
    ensures SegmentMatches(lit + rest, s) <==> lit <= s && SegmentMatches(rest, s[|lit|..])
  {
    if lit == "" {
      assert lit + rest == rest && s[0..] == s;
    } else {
      assert (lit + rest)[0] == lit[0] && (lit + rest)[1..] == lit[1..] + rest;
      if s != "" && s[0] == lit[0] {
        LiteralThenRest(lit[1..], rest, s[1..]);
        assert lit <= s <==> lit[1..] <= s[1..] by {
          assert lit == [lit[0]] + lit[1..] && s == [s[0]] + s[1..];
        }
        assert lit <= s ==> s[1..][|lit| - 1..] == s[|lit|..];
      }
    }
  }

  lemma LiteralAlone(lit: string, s: string)
    requires '*' !in lit
    ensures SegmentMatches(lit, s) <==> s == lit
  {
    LiteralThenRest(lit, "", s);
    assert lit + "" == lit;
    assert lit <= s && s[|lit|..] == "" ==> s == lit + s[|lit|..];
  }

  /** A star and the literals after it. */
  lemma {:induction false} StarThenLiterals(lits: seq<string>, s: string)
    requires |lits| >= 1 && forall i :: 0 <= i < |lits| ==> '*' !in lits[i]
    ensures SegmentMatches("*" + Join(lits, '*'), s) <==> Floating(lits, s)
    decreases |lits|
  {
    var rest := Join(lits, '*');
    assert ("*" + rest)[0] == '*' && ("*" + rest)[1..] == rest;
    forall k: nat | k <= |s|
      ensures SegmentMatches(rest, s[k..]) <==> FloatsAt(lits, s, k)
    {
      if |lits| == 1 {
        LiteralAlone(lits[0], s[k..]);
      } else {
        var tail := "*" + Join(lits[1..], '*');
        assert rest == lits[0] + tail;
        LiteralThenRest(lits[0], tail, s[k..]);
        if lits[0] <= s[k..] {
          StarThenLiterals(lits[1..], s[k..][|lits[0]|..]);
          assert s[k..][|lits[0]|..] == s[k + |lits[0]|..];
          assert s[k..k + |lits[0]|] == s[k..][..|lits[0]|];
        } else if k + |lits[0]| <= |s| {
          assert s[k..k + |lits[0]|] == s[k..][..|lits[0]|];
        }
      }
    }
    FloatingFrom(lits, s);
  }

  /** The first literal is at `k`, and the others follow. */
  ghost predicate FloatsAt(lits: seq<string>, s: string, k: nat)
    requires |lits| >= 1 && k <= |s|
  {
    if |lits| == 1 then s[k..] == lits[0]
    else OccursAt(s, lits[0], k) && Floating(lits[1..], s[k + |lits[0]|..])
  }

  lemma FloatingFrom(lits: seq<string>, s: string)
    requires |lits| >= 1
    ensures Floating(lits, s) <==> exists k: nat :: k <= |s| && FloatsAt(lits, s, k)
  {
    if Floating(lits, s) {
      if |lits| == 1 {
        assert FloatsAt(lits, s, |s| - |lits[0]|);
      } else {
        var i :| OccursAt(s, lits[0], i) && Floating(lits[1..], s[i + |lits[0]|..]);
        assert FloatsAt(lits, s, i);
      }
    }
  }

  /** More text in front never hurts: a star absorbs it. */
  lemma {:induction false} FloatingLater(lits: seq<string>, s: string, d: nat)
    requires |lits| >= 1 && d <= |s| && Floating(lits, s[d..])
    ensures Floating(lits, s)
  {
    if |lits| == 1 {
      var t := s[d..];
      assert s[|s| - |lits[0]|..] == t[|t| - |lits[0]|..];
    } else {
      var i :| OccursAt(s[d..], lits[0], i) && Floating(lits[1..], s[d..][i + |lits[0]|..]);
      assert s[d..][i..i + |lits[0]|] == s[d + i..d + i + |lits[0]|];
      assert s[d..][i + |lits[0]|..] == s[d + i + |lits[0]|..];
      assert OccursAt(s, lits[0], d + i);
    }
  }

  /** The leftmost place for a literal is as good as any. */
  lemma LeftmostIsEnough(lits: seq<string>, s: string)
    requires |lits| >= 2
    ensures var i := Index(s, lits[0]);
            Floating(lits, s) <==> i >= 0 && Floating(lits[1..], s[i + |lits[0]|..])
  {
    var first := Index(s, lits[0]);
    if Floating(lits, s) {
      var i :| OccursAt(s, lits[0], i) && Floating(lits[1..], s[i + |lits[0]|..]);
      var t := s[first + |lits[0]|..];
      assert t[i - first..] == s[i + |lits[0]|..];
      FloatingLater(lits[1..], t, i - first);
    }
  }

  /** The parts of a pattern with a star: one in front, the others floating behind it. */
  lemma PatternParts(pattern: string, subject: string)
    requires '*' in pattern
    ensures var parts := Split(pattern, '*');
      && |parts| >= 2
      && (SegmentMatches(pattern, subject) <==> HasPrefix(subject, parts[0]) && Floating(parts[1..], subject[|parts[0]|..]))
  {
    var parts := Split(pattern, '*');
    JoinSplit(pattern, '*');
    SplitFree(pattern, '*');
    assert |parts| != 1 by {
      assert '*' !in parts[0];
    }
    var rest := "*" + Join(parts[1..], '*');
    assert pattern == parts[0] + rest;
    LiteralThenRest(parts[0], rest, subject);
    if HasPrefix(subject, parts[0]) {
      StarThenLiterals(parts[1..], subject[|parts[0]|..]);
    }
  }

  lemma NextLiteral(parts: seq<string>, n: nat, s: string)
    requires n < |parts| - 1
    ensures var i := Index(s, parts[n]);
      Floating(parts[n..], s) <==> i >= 0 && Floating(parts[n + 1..], s[i + |parts[n]|..])
  {
    LeftmostIsEnough(parts[n..], s);
    assert parts[n..][0] == parts[n] && parts[n..][1..] == parts[n + 1..];
  }

  /** The program's scan: the outer literals are anchored, the inner ones are taken at
    * their first occurrence, left to right. */
  method MatchSegment(pattern: string, subject: string) returns (r: bool)
    ensures r <==> SegmentMatches(pattern, subject)
  {
    if pattern == "*" {
      assert Matches(IsStar, SameChar, pattern[1..], subject[|subject|..]);
      return true;
    }
    if '*' !in pattern {
      LiteralAlone(pattern, subject);
      return pattern == subject;
    }
    var parts := Split(pattern, '*');
    PatternParts(pattern, subject);
    if !HasPrefix(subject, parts[0]) {
      return false;
    }
    var s := subject[|parts[0]|..];
    var n := 1;
    while n < |parts| - 1
      invariant 1 <= n <= |parts| - 1
      invariant SegmentMatches(pattern, subject) <==> Floating(parts[n..], s)
    {
      NextLiteral(parts, n, s);
      var i := Index(s, parts[n]);
      if i < 0 {
        return false;
      }
      s := s[i + |parts[n]|..];
      n := n + 1;
    }
    return HasSuffix(s, parts[|parts| - 1]);
  }

  // ---------- whole paths ----------

  predicate IsDoubleStar(seg: string) {
    seg == "**"
  }

  predicate SegmentsMatch(pattern: seq<string>, name: seq<string>) {
    Matches(IsDoubleStar, SegmentMatches, pattern, name)
  }

  function NonEmpty(parts: seq<string>): seq<string> {
    if parts == [] then []
    else if parts[0] == "" then NonEmpty(parts[1..])
    else [parts[0]] + NonEmpty(parts[1..])
  }

  /** The segments of a path, without the empty ones. */
  function PathSegments(p: string): seq<string> {
    NonEmpty(Split(p, '/'))
  }

  /** Whether a pattern covers an entry name; the empty pattern covers nothing. */
  predicate PathMatches(pattern: string, name: string) {
    pattern != "" && SegmentsMatch(PathSegments(pattern), PathSegments(name))
  }

  predicate AnyMatches(patterns: seq<string>, name: string) {
    exists i :: 0 <= i < |patterns| && PathMatches(patterns[i], name)
  }

  lemma {:induction false} NonEmptyConcat(a: seq<string>, b: seq<string>)
    ensures NonEmpty(a + b) == NonEmpty(a) + NonEmpty(b)
  {
    if a == [] {
      assert a + b == b;
    } else {
      assert (a + b)[1..] == a[1..] + b;
      NonEmptyConcat(a[1..], b);
    }
  }

  /** Filters in place: what is kept overwrites the front of the slice. */
  method SplitPath(p: string) returns (segs: seq<string>)
    ensures segs == PathSegments(p)
  {
    var split := Split(p, '/');
    var parts := new string[|split|](i requires 0 <= i < |split| => split[i]);
    var kept := 0;
    for n := 0 to |split|
      invariant 0 <= kept <= n
      invariant parts[..kept] == NonEmpty(split[..n])
      invariant forall i :: n <= i < |split| ==> parts[i] == split[i]
    {
      var s := parts[n];
      assert split[..n + 1] == split[..n] + [s];
      NonEmptyConcat(split[..n], [s]);
      if s != "" {
        parts[kept] := s;
        kept := kept + 1;
      }
    }
    assert split[..|split|] == split;
    return parts[..kept];
  }

  method MatchSegments(pattern: seq<string>, name: seq<string>) returns (r: bool)
    ensures r <==> SegmentsMatch(pattern, name)
    decreases |pattern|
  {
    if |pattern| == 0 {
      return |name| == 0;
    }
    if pattern[0] == "**" {
      var rest := pattern[1..];
      if |rest| == 0 {
        assert Matches(IsDoubleStar, SegmentMatches, rest, name[|name|..]);
        return true;
      }
      for i := 0 to |name| + 1
        invariant forall k: nat :: k < i ==> !Matches(IsDoubleStar, SegmentMatches, rest, name[k..])
      {
        var found := MatchSegments(rest, name[i..]);
        if found {
          return true;
        }
      }
      return false;
    }
    if |name| == 0 {
      return false;
    }
    var one := MatchSegment(pattern[0], name[0]);
    if !one {
      return false;
    }
    r := MatchSegments(pattern[1..], name[1..]);
  }

  /** The program decides exactly the pattern language: segments are assigned to the
    * pattern's items, and within one segment characters to the pattern's characters. */
  method MatchPath(pattern: string, name: string) returns (r: bool)
    ensures r <==> PathMatches(pattern, name)
    ensures r <==> pattern != "" && InLanguage(IsDoubleStar, SegmentMatches, PathSegments(pattern), PathSegments(name))
    ensures forall p, s :: SegmentMatches(p, s) <==> InLanguage(IsStar, SameChar, p, s)
  {
    MatchesIsLanguage(IsDoubleStar, SegmentMatches, PathSegments(pattern), PathSegments(name));
    forall p: string, s: string ensures SegmentMatches(p, s) <==> InLanguage(IsStar, SameChar, p, s) {
      MatchesIsLanguage(IsStar, SameChar, p, s);
    }
    if pattern == "" {
      return false;
    }
    var ps := SplitPath(pattern);
    var ns := SplitPath(name);
    r := MatchSegments(ps, ns);
  }

  method MatchAny(patterns: seq<string>, name: string) returns (r: bool)
    ensures r <==> AnyMatches(patterns, name)
  {
    for n := 0 to |patterns|
      invariant forall i :: 0 <= i < n ==> !PathMatches(patterns[i], name)
    {
      var m := MatchPath(patterns[n], name);
      if m {
        return true;
      }
    }
    return false;
  }

  // ---------- the documented forms ----------

  // The pattern a/** for segments without stars: exactly a and the names that extend it.
  lemma SubtreePattern(prefix: seq<string>, name: seq<string>)
    requires forall i :: 0 <= i < |prefix| ==> '*' !in prefix[i]
    ensures SegmentsMatch(prefix + ["**"], name) <==> prefix <= name
  {
    MatchesConcat(IsDoubleStar, SegmentMatches, prefix, ["**"], name);
    forall k: nat | k <= |name|
      ensures SegmentsMatch(["**"], name[k..])
      ensures SegmentsMatch(prefix, name[..k]) <==> prefix == name[..k]
    {
      assert Matches(IsDoubleStar, SegmentMatches, ["**"][1..], name[k..][|name| - k..]);
      LiteralSegments(prefix, name[..k]);
    }
    if prefix <= name {
      assert SegmentsMatch(prefix, name[..|prefix|]);
    }
  }

  /** A pattern without stars matches exactly itself. */
  lemma {:induction false} LiteralSegments(pattern: seq<string>, name: seq<string>)
    requires forall i :: 0 <= i < |pattern| ==> '*' !in pattern[i]
    ensures SegmentsMatch(pattern, name) <==> pattern == name
    decreases |pattern|
  {
    if pattern != [] && name != [] {
      LiteralAlone(pattern[0], name[0]);
      LiteralSegments(pattern[1..], name[1..]);
      assert pattern[0] != "**";
      assert pattern == [pattern[0]] + pattern[1..] && name == [name[0]] + name[1..];
    } else if pattern != [] {
      assert pattern[0] != "**";
    }
  }

  lemma OneSegment(p: string, name: seq<string>)
    requires p != "**"
    ensures SegmentsMatch([p], name) <==> |name| == 1 && SegmentMatches(p, name[0])
  {
    assert [p][0] == p && [p][1..] == [];
    if name != [] {
      assert Matches(IsDoubleStar, SegmentMatches, [], name[1..]) <==> |name| == 1;
    }
  }

  // The pattern a/* for a segment a without stars: its direct children and nothing deeper.
  lemma ChildrenPattern(dir: string, name: seq<string>)
    requires '*' !in dir
    ensures SegmentsMatch([dir, "*"], name) <==> |name| == 2 && name[0] == dir
  {
    assert [dir, "*"][1..] == ["*"] && dir != "**";
    if name != [] {
      LiteralAlone(dir, name[0]);
      OneSegment("*", name[1..]);
      if |name| == 2 {
        assert Matches(IsStar, SameChar, "*"[1..], name[1][|name[1]|..]);
      }
    }
  }

  // The pattern *.token matches names of a single segment only.  The documentation promises
  // entries whose final segment ends in .token; beneath a folder they do not match.
  lemma SuffixPattern(suffix: string, name: seq<string>)
    requires '*' !in suffix && suffix != ""
    ensures SegmentsMatch(["*" + suffix], name) <==> |name| == 1 && HasSuffix(name[0], suffix)
  {
    assert ("*" + suffix)[1] == suffix[0] && suffix[0] in suffix;
    OneSegment("*" + suffix, name);
    if name != [] {
      assert Join([suffix], '*') == suffix;
      StarThenLiterals([suffix], name[0]);
    }
  }

  lemma {:induction false} PiecesHaveNoOther(p: string, separator: char, c: char)
    requires c !in p
    ensures forall i :: 0 <= i < |Split(p, separator)| ==> c !in Split(p, separator)[i]
    decreases |p|
  {
    if p != "" {
      PiecesHaveNoOther(p[1..], separator, c);
    }
  }

  lemma {:induction false} NonEmptyAreParts(parts: seq<string>)
    ensures forall s :: s in NonEmpty(parts) <==> s in parts && s != ""
  {
    if parts != [] {
      NonEmptyAreParts(parts[1..]);
      assert parts == [parts[0]] + parts[1..];
    }
  }

  // The empty pattern covers nothing. Any other without stars covers the names of its own
  // segments, however many slashes there are between and around them.
  lemma PlainPattern(pattern: string, name: string)
    requires '*' !in pattern
    ensures PathMatches(pattern, name) <==> pattern != "" && PathSegments(pattern) == PathSegments(name)
  {
    var parts := Split(pattern, '/');
    PiecesHaveNoOther(pattern, '/', '*');
    NonEmptyAreParts(parts);
    forall i | 0 <= i < |PathSegments(pattern)| ensures '*' !in PathSegments(pattern)[i] {
      assert PathSegments(pattern)[i] in parts;
    }
    LiteralSegments(PathSegments(pattern), PathSegments(name));
  }
}
