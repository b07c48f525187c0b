/** Path containment: a path reported by a remote, or an entry name, cannot leave the
  * directory it is joined to.  Cleaning a path is modelled by the stack of segments it
  * builds; the host is one where only '/' separates.
  */
module PathSafety {
  import opened Wrappers
  import opened Strings
  import ConflictNames

  // ---------- path cleaning ----------

  /** One segment: names are pushed, ".." pops a name, or stays when nothing can be popped. */
  function Push(stack: seq<string>, seg: string, rooted: bool): seq<string> {
    if seg == "" || seg == "." then stack
    else if seg != ".." then stack + [seg]
    else if stack != [] && stack[|stack| - 1] != ".." then stack[..|stack| - 1]
    else if rooted then stack
    else stack + [".."]
  }

  function PushAll(stack: seq<string>, segs: seq<string>, rooted: bool): seq<string>
    decreases |segs|
  {
    if segs == [] then stack else PushAll(Push(stack, segs[0], rooted), segs[1..], rooted)
  }

  predicate IsRooted(path: string) {
    HasPrefix(path, "/")
  }

  /** The segments of the cleaned path. */
  function Segments(path: string): seq<string> {
    PushAll([], Split(path, '/'), IsRooted(path))
  }

  function Clean(path: string): string {
    var segs := Segments(path);
    if IsRooted(path) then "/" + (if segs == [] then "" else Join(segs, '/'))
    else if segs == [] then "." else Join(segs, '/')
  }

  /** The test the program makes on a cleaned relative path. */
  predicate ClimbsOut(clean: string) {
    clean == ".." || HasPrefix(clean, "../")
  }

  predicate Escapes(segs: seq<string>) {
    segs != [] && segs[0] == ".."
  }

  /** `path` extends `root` by names only. */
  predicate Within(root: seq<string>, path: seq<string>) {
    root <= path && forall i :: |root| <= i < |path| ==> path[i] != ".."
  }

  // ---------- the checks ----------

  /** Whether a path from a remote listing is accepted.  The same string is read twice,
    * with a backslash as an ordinary character and as a separator. */
  predicate CheckPath(p: string) {
    && p != ""
    && '\0' !in p
    && !HasPrefix(p, "/") && !HasPrefix(p, "\\")
    && !ClimbsOut(Clean(p))
    && !ClimbsOut(Clean(Replace(p, '\\', '/')))
  }

  /** The relative path of an entry name, or None when the name leaves the store. */
  function Rel(name: string): Option<string> {
    var spaceless := TrimSpace(name);
    var n := if HasPrefix(spaceless, "/") then spaceless[1..] else spaceless;
    if n == "" then Some(".")
    else if IsRooted(n) then None
    else if ClimbsOut(Clean(n)) then None
    else Some(Clean(n))
  }

  /** Joining is concatenation with a separator, then cleaning. */
  function JoinSegments(root: string, rel: string): seq<string> {
    Segments(root + "/" + rel)
  }

  // ---------- stacks ----------

  predicate IsName(seg: string) {
    seg != "" && seg != "." && seg != ".."
  }

  lemma {:induction false} PushAllConcat(stack: seq<string>, a: seq<string>, b: seq<string>, rooted: bool)
    ensures PushAll(stack, a + b, rooted) == PushAll(PushAll(stack, a, rooted), b, rooted)
    decreases |a|
  {
    if a == [] {
      assert a + b == b;
    } else {
      assert (a + b)[1..] == a[1..] + b;
      PushAllConcat(Push(stack, a[0], rooted), a[1..], b, rooted);
    }
  }

  /** A ".." at the bottom of a relative stack is never removed. */
  lemma {:induction false} EscapeIsFinal(stack: seq<string>, segs: seq<string>)
    requires Escapes(stack)
    ensures Escapes(PushAll(stack, segs, false))
    decreases |segs|
  {
    if segs != [] {
      EscapeIsFinal(Push(stack, segs[0], false), segs[1..]);
    }
  }

  /** Relative stacks are a run of ".." followed by names. */
  ghost predicate Normal(stack: seq<string>) {
    && (forall i :: 0 <= i < |stack| ==> stack[i] != "" && stack[i] != ".")
    && (forall i, j :: 0 <= i < j < |stack| && stack[j] == ".." ==> stack[i] == "..")
  }

  lemma {:induction false} PushAllNormal(stack: seq<string>, segs: seq<string>, rooted: bool)
    requires Normal(stack)
    requires forall i :: 0 <= i < |segs| ==> '/' !in segs[i]
    requires forall i :: 0 <= i < |stack| ==> '/' !in stack[i]
    requires rooted ==> !Escapes(stack)
    ensures var r := PushAll(stack, segs, rooted);
            Normal(r) && (rooted ==> !Escapes(r)) && forall i :: 0 <= i < |r| ==> '/' !in r[i]
    decreases |segs|
  {
    if segs != [] {
      PushAllNormal(Push(stack, segs[0], rooted), segs[1..], rooted);
    }
  }

  lemma PushAbove(root: seq<string>, stack: seq<string>, seg: string, rooted: bool)
    requires stack != [] ==> stack[|stack| - 1] != ".."
    requires stack != [] || seg != ".."
    ensures Push(root + stack, seg, rooted) == root + Push(stack, seg, false)
  {
    if stack != [] {
      assert (root + stack)[|root + stack| - 1] == stack[|stack| - 1];
      assert (root + stack)[..|root + stack| - 1] == root + stack[..|stack| - 1];
    }
    assert root + stack + [seg] == root + (stack + [seg]);
  }

  lemma NormalTop(stack: seq<string>)
    requires Normal(stack) && !Escapes(stack) && stack != []
    ensures stack[|stack| - 1] != ".."
  {
  }

  lemma {:induction false} NormalPush(stack: seq<string>, seg: string)
    requires Normal(stack)
    ensures Normal(Push(stack, seg, false))
  {
  }

  /** A path that does not climb out of nothing does the same above any directory. */
  lemma {:induction false} PushAllAbove(root: seq<string>, stack: seq<string>, segs: seq<string>, rooted: bool)
    requires Normal(stack) && !Escapes(PushAll(stack, segs, false))
    ensures !Escapes(stack)
    ensures PushAll(root + stack, segs, rooted) == root + PushAll(stack, segs, false)
    decreases |segs|
  {
    if Escapes(stack) {
      EscapeIsFinal(stack, segs);
    }
    if segs != [] {
      var next := Push(stack, segs[0], false);
      NormalPush(stack, segs[0]);
      PushAllAbove(root, next, segs[1..], rooted);
      if stack != [] {
        NormalTop(stack);
      } else {
        assert Push([], "..", false) == [".."];
      }
      PushAbove(root, stack, segs[0], rooted);
    }
  }

  // ---------- strings and stacks ----------

  lemma RelativeSegments(p: string)
    requires !IsRooted(p)
    ensures Normal(Segments(p)) && forall i :: 0 <= i < |Segments(p)| ==> '/' !in Segments(p)[i]
  {
    SplitFree(p, '/');
    PushAllNormal([], Split(p, '/'), false);
  }

  lemma TextBeforeSlashDecides(first: string, tail: string)
    requires '/' !in first
    ensures ClimbsOut(first + "/" + tail) <==> first == ".."
  {
    var clean := first + "/" + tail;
    assert clean[|first|] == '/';
    if |first| == 2 {
      assert clean[..2] == first && clean[..3] == first + "/";
    } else if |first| > 2 {
      assert clean[2] == first[2];
    }
  }

  lemma NoSlashNoPrefix(s: string)
    requires '/' !in s
    ensures !HasPrefix(s, "../")
  {
    if |s| >= 3 {
      assert s[2] != "../"[2];
    }
  }

  lemma FirstSegmentDecides(segs: seq<string>)
    requires |segs| >= 1 && forall i :: 0 <= i < |segs| ==> '/' !in segs[i]
    ensures ClimbsOut(Join(segs, '/')) <==> segs[0] == ".."
  {
    if |segs| > 1 {
      var tail := Join(segs[1..], '/');
      assert Join(segs, '/') == segs[0] + "/" + tail;
      TextBeforeSlashDecides(segs[0], tail);
    } else {
      NoSlashNoPrefix(segs[0]);
    }
  }

  /** The textual test on the cleaned path is the test on its first segment. */
  lemma ClimbsOutIsEscape(p: string)
    requires !IsRooted(p)
    ensures ClimbsOut(Clean(p)) <==> Escapes(Segments(p))
  {
    RelativeSegments(p);
    if Segments(p) != [] {
      FirstSegmentDecides(Segments(p));
    }
  }

  lemma JoinIsPushAll(root: string, rel: string)
    requires root != ""
    ensures JoinSegments(root, rel) == PushAll(Segments(root), Split(rel, '/'), IsRooted(root))
  {
    SplitConcat(root, '/', rel);
    assert root + "/" + rel == root + ['/'] + rel;
    assert (root + "/" + rel)[0] == root[0];
    PushAllConcat([], Split(root, '/'), Split(rel, '/'), IsRooted(root));
  }

  lemma AcceptedStaysWithin(root: string, rel: string)
    requires root != "" && !IsRooted(rel) && !ClimbsOut(Clean(rel))
    ensures Within(Segments(root), JoinSegments(root, rel))
    ensures JoinSegments(root, rel) == Segments(root) + Segments(rel)
  {
    ClimbsOutIsEscape(rel);
    JoinIsPushAll(root, rel);
    RelativeSegments(rel);
    assert Segments(root) + [] == Segments(root);
    PushAllAbove(Segments(root), [], Split(rel, '/'), IsRooted(root));
  }

  /** Every accepted remote path, joined to any root, is the root or beneath it, under
    * both readings of the backslash. */
  lemma CheckedPathStaysWithin(root: string, p: string)
    requires root != "" && CheckPath(p)
    ensures Within(Segments(root), JoinSegments(root, p))
    ensures Within(Segments(root), JoinSegments(root, Replace(p, '\\', '/')))
  {
    AcceptedStaysWithin(root, p);
    var q := Replace(p, '\\', '/');
    assert q[0] == (if p[0] == '\\' then '/' else p[0]);
    AcceptedStaysWithin(root, q);
  }

  // ---------- and nothing harmless is refused ----------

  /** A name that cannot be a segment of `p`. */
  function StrangeName(p: string): string {
    seq(|p| + 3, i => 'x')
  }

  lemma {:induction false} SplitIsShort(p: string)
    ensures forall i :: 0 <= i < |Split(p, '/')| ==> |Split(p, '/')[i]| <= |p|
  {
    if p != "" {
      SplitIsShort(p[1..]);
    }
  }

  /** Below a strange name, an escaping path ends elsewhere. */
  lemma {:induction false} EscapeLeaves(strange: string, stack: seq<string>, segs: seq<string>)
    requires Normal(stack) && !Escapes(stack) && Escapes(PushAll(stack, segs, false))
    requires IsName(strange) && forall i :: 0 <= i < |segs| ==> segs[i] != strange
    ensures var r := PushAll([strange] + stack, segs, true); r == [] || r[0] != strange
    decreases |segs|
  {
    assert segs != [];
    var next := Push(stack, segs[0], false);
    if stack == [] && segs[0] == ".." {
      assert Push([strange] + stack, segs[0], true) == [];
      StrangeIsGone(strange, [], segs[1..]);
    } else {
      assert Push([strange] + stack, segs[0], true) == [strange] + next by {
        if stack != [] {
          assert ([strange] + stack)[|stack|] == stack[|stack| - 1] != "..";
          assert ([strange] + stack)[..|stack|] == [strange] + stack[..|stack| - 1];
        }
        assert [strange] + stack + [segs[0]] == [strange] + (stack + [segs[0]]);
      }
      EscapeLeaves(strange, next, segs[1..]);
    }
  }

  lemma {:induction false} StrangeIsGone(strange: string, stack: seq<string>, segs: seq<string>)
    requires strange !in stack && forall i :: 0 <= i < |segs| ==> segs[i] != strange
    ensures strange !in PushAll(stack, segs, true)
    decreases |segs|
  {
    if segs != [] {
      StrangeIsGone(strange, Push(stack, segs[0], true), segs[1..]);
    }
  }

  /** A relative path refused for climbing out does leave some directory. */
  lemma RefusedPathEscapes(p: string)
    requires !IsRooted(p) && ClimbsOut(Clean(p))
    ensures var root := "/" + StrangeName(p);
            !Within(Segments(root), JoinSegments(root, p))
  {
    var strange := StrangeName(p);
    var root := "/" + strange;
    ClimbsOutIsEscape(p);
    JoinIsPushAll(root, p);
    SplitPiece("", '/', strange);
    assert root == "" + ['/'] + strange;
    SplitPiece(strange, '/', "");
    assert Split(root, '/') == ["", strange];
    assert PushAll([], ["", strange], true) == PushAll([], [strange], true) == PushAll([strange], [], true);
    assert Segments(root) == [strange];
    SplitIsShort(p);
    assert [strange] + [] == [strange];
    EscapeLeaves(strange, [], Split(p, '/'));
  }

  /** For a relative path, being accepted is exactly staying within every directory it
    * may be joined to. */
  lemma CheckPathIsContainment(p: string)
    requires p != "" && '\0' !in p && !HasPrefix(p, "/") && !HasPrefix(p, "\\")
    ensures CheckPath(p) <==>
              forall root: string :: root != "" ==>
                && Within(Segments(root), JoinSegments(root, p))
                && Within(Segments(root), JoinSegments(root, Replace(p, '\\', '/')))
  {
    var q := Replace(p, '\\', '/');
    assert q[0] == p[0];
    if CheckPath(p) {
      forall root: string | root != ""
        ensures Within(Segments(root), JoinSegments(root, p)) && Within(Segments(root), JoinSegments(root, q))
      {
        CheckedPathStaysWithin(root, p);
      }
    } else if ClimbsOut(Clean(p)) {
      RefusedPathEscapes(p);
    } else {
      RefusedPathEscapes(q);
    }
  }

  // ---------- entry names ----------

  lemma PushLast(a: seq<string>, seg: string)
    requires forall i :: 0 <= i < |a| ==> '/' !in a[i]
    ensures PushAll([], a + [seg], false) == Push(PushAll([], a, false), seg, false)
    ensures Normal(PushAll([], a, false))
    ensures Escapes(PushAll([], a, false)) ==> Escapes(PushAll([], a + [seg], false))
  {
    PushAllConcat([], a, [seg], false);
    PushAllNormal([], a, false);
    var before := PushAll([], a, false);
    assert PushAll(before, [seg], false) == PushAll(Push(before, seg, false), [], false);
    if Escapes(before) {
      EscapeIsFinal(before, [seg]);
    }
  }

  /** An extension makes the last component a name, whatever it was. */
  lemma ExtensionSegments(rel: string, ext: string) returns (before: seq<string>, file: string)
    requires !IsRooted(rel) && !Escapes(Segments(rel))
    requires ext == ".gpg" || ext == ".age"
    ensures !IsRooted(rel + ext) && Segments(rel + ext) == before + [file]
    ensures !Escapes(before) && IsName(file)
  {
    var segs := Split(rel, '/');
    var init, last := segs[..|segs| - 1], segs[|segs| - 1];
    assert segs == init + [last];
    SplitFree(rel, '/');
    SplitPiece(ext, '/', "");
    SplitGlue(rel, ext, '/');
    file := last + ext;
    assert Split(rel + ext, '/') == init + [file];
    PushLast(init, last);
    PushLast(init, file);
    before := PushAll([], init, false);
    assert file[|last| + 1] == ext[1];
    assert (rel + ext)[0] == if rel == "" then '.' else rel[0];
  }

  /** Every file path built for an accepted name is strictly beneath the store directory. */
  lemma EntryPathIsBeneathStore(dir: string, name: string, ext: string)
    requires dir != "" && Rel(name).Some?
    requires ext == ".gpg" || ext == ".age"
    ensures var path := JoinSegments(dir, Rel(name).value + ext);
            Within(Segments(dir), path) && |path| > |Segments(dir)|
  {
    NameSegments(name);
    var rel := Rel(name).value;
    var before, file := ExtensionSegments(rel, ext);
    assert !Escapes(before + [file]);
    ClimbsOutIsEscape(rel + ext);
    AcceptedStaysWithin(dir, rel + ext);
  }

  /** An accepted name is a relative path that does not climb out. */
  lemma NameSegments(name: string)
    requires Rel(name).Some?
    ensures !IsRooted(Rel(name).value) && !Escapes(Segments(Rel(name).value)) && !ClimbsOut(Clean(Rel(name).value))
  {
    var rel := Rel(name).value;
    if rel == "." {
      assert Split(".", '/') == ["."] by { SplitPiece(".", '/', ""); }
      assert PushAll([], ["."], false) == PushAll([], [], false);
    } else {
      var spaceless := TrimSpace(name);
      var n := if HasPrefix(spaceless, "/") then spaceless[1..] else spaceless;
      ClimbsOutIsEscape(n);
      CleanIsStable(n);
      ClimbsOutIsEscape(rel);
    }
  }

  /** Cleaning a cleaned relative path changes nothing. */
  lemma CleanIsStable(n: string)
    requires !IsRooted(n)
    ensures !IsRooted(Clean(n)) && Segments(Clean(n)) == Segments(n)
  {
    var segs := Segments(n);
    RelativeSegments(n);
    if segs == [] {
      SplitPiece(".", '/', "");
      assert PushAll([], ["."], false) == PushAll([], [], false);
    } else {
      SplitJoin(segs, '/');
      assert Join(segs, '/')[0] == segs[0][0] != '/';
      PushNormal([], segs);
    }
  }

  lemma {:induction false} PushNormal(stack: seq<string>, segs: seq<string>)
    requires Normal(stack + segs)
    ensures PushAll(stack, segs, false) == stack + segs
    decreases |segs|
  {
    if segs != [] {
      assert (stack + segs)[|stack|] == segs[0];
      if segs[0] == ".." && stack != [] {
        assert (stack + segs)[|stack| - 1] == "..";
      }
      assert Push(stack, segs[0], false) == stack + [segs[0]];
      assert stack + [segs[0]] + segs[1..] == stack + segs;
      PushNormal(stack + [segs[0]], segs[1..]);
    } else {
      assert stack + segs == stack;
    }
  }

  lemma {:induction false} PushNames(stack: seq<string>, segs: seq<string>, rooted: bool)
    requires forall i :: 0 <= i < |segs| ==> IsName(segs[i])
    ensures PushAll(stack, segs, rooted) == stack + segs
    decreases |segs|
  {
    if segs != [] {
      PushNames(stack + [segs[0]], segs[1..], rooted);
      assert stack + [segs[0]] + segs[1..] == stack + segs;
    }
  }

  lemma RootedText(segs: seq<string>, text: string, clean: string)
    requires forall i :: 0 <= i < |segs| ==> IsName(segs[i]) && '/' !in segs[i]
    requires text == (if segs == [] then "" else Join(segs, '/')) && clean == "/" + text
    ensures IsRooted(clean) && Segments(clean) == segs
  {
    var first: string := [];
    assert clean == first + ['/'] + text;
    SplitPiece(first, '/', text);
    var parts := if segs == [] then [first] else segs;
    if segs != [] {
      SplitJoin(segs, '/');
    }
    assert Split(clean, '/') == [first] + parts;
    assert ([first] + parts)[1..] == parts && Push([], first, true) == [];
    PushNames([], segs, true);
    assert segs == [] ==> PushAll([], parts, true) == PushAll([], parts[1..], true);
  }

  /** Nor does cleaning a cleaned absolute path, and it stays absolute. */
  lemma RootedCleanIsStable(n: string)
    requires IsRooted(n)
    ensures IsRooted(Clean(n)) && Segments(Clean(n)) == Segments(n)
  {
    var segs := Segments(n);
    SplitFree(n, '/');
    PushAllNormal([], Split(n, '/'), true);
    RootedText(segs, if segs == [] then "" else Join(segs, '/'), Clean(n));
  }

  /** The directory of an accepted name is the store directory or beneath it. */
  lemma EntryDirIsWithinStore(dir: string, name: string)
    requires dir != "" && Rel(name).Some?
    ensures Within(Segments(dir), JoinSegments(dir, Rel(name).value))
  {
    NameSegments(name);
    AcceptedStaysWithin(dir, Rel(name).value);
  }

  // ---------- conflict copies ----------

  /** From a taller stack a path that did not climb out still does not. */
  lemma {:induction false} TallerIsSafer(low: seq<string>, high: seq<string>, segs: seq<string>)
    requires Normal(low) && Normal(high) && !Escapes(high) && |low| <= |high|
    requires !Escapes(PushAll(low, segs, false))
    ensures !Escapes(PushAll(high, segs, false))
    decreases |segs|
  {
    if Escapes(low) {
      EscapeIsFinal(low, segs);
    }
    if segs != [] {
      var l, h := Push(low, segs[0], false), Push(high, segs[0], false);
      if segs[0] == ".." && low == [] {
        EscapeIsFinal(l, segs[1..]);
        assert false;
      }
      TallerIsSafer(l, h, segs[1..]);
    }
  }

  /** Text put inside one component: the other components are unchanged. */
  lemma SplitInsertion(u: string, tag: string, v: string) returns (a: seq<string>, was: string, now: string, b: seq<string>)
    requires '/' !in tag
    ensures Split(u + v, '/') == a + ([was] + b)
    ensures Split(u + tag + v, '/') == a + ([now] + b)
    ensures |now| >= |tag|
    ensures forall i :: 0 <= i < |a| ==> '/' !in a[i]
  {
    var x, y := Split(u, '/'), Split(v, '/');
    a, b := x[..|x| - 1], y[1..];
    was, now := x[|x| - 1] + y[0], x[|x| - 1] + tag + y[0];
    SplitFree(u, '/');
    SplitGlue(u, v, '/');
    SplitPiece(tag, '/', "");
    SplitGlue(u, tag, '/');
    SplitGlue(u + tag, v, '/');
    GlueTwice(x, tag, y);
  }

  lemma GlueTwice(x: seq<string>, tag: string, y: seq<string>)
    requires |x| >= 1 && |y| >= 1
    ensures Glue(Glue(x, [tag]), y) == x[..|x| - 1] + ([x[|x| - 1] + tag + y[0]] + y[1..])
    ensures Glue(x, y) == x[..|x| - 1] + ([x[|x| - 1] + y[0]] + y[1..])
  {
    var z := Glue(x, [tag]);
    assert z == x[..|x| - 1] + [x[|x| - 1] + tag];
    assert z[..|z| - 1] == x[..|x| - 1];
  }

  lemma PushAllAround(a: seq<string>, seg: string, b: seq<string>)
    requires forall i :: 0 <= i < |a| ==> '/' !in a[i]
    ensures Normal(PushAll([], a, false))
    ensures PushAll([], a + ([seg] + b), false) == PushAll(Push(PushAll([], a, false), seg, false), b, false)
  {
    PushAllNormal([], a, false);
    PushAllConcat([], a, [seg] + b, false);
    assert ([seg] + b)[1..] == b;
  }

  /** A component replaced by a proper name cannot make a path climb out. */
  lemma NameDoesNotEscape(a: seq<string>, was: string, now: string, b: seq<string>)
    requires IsName(now) && forall i :: 0 <= i < |a| ==> '/' !in a[i]
    requires !Escapes(PushAll([], a + ([was] + b), false))
    ensures !Escapes(PushAll([], a + ([now] + b), false))
  {
    PushAllAround(a, was, b);
    PushAllAround(a, now, b);
    var before := PushAll([], a, false);
    if Escapes(before) {
      EscapeIsFinal(before, [was] + b);
    }
    ReplacedByName(before, was, now, b);
  }

  lemma ReplacedByName(before: seq<string>, was: string, now: string, b: seq<string>)
    requires Normal(before) && IsName(now)
    requires !Escapes(PushAll(Push(before, was, false), b, false))
    ensures !Escapes(PushAll(Push(before, now, false), b, false))
  {
    var low, high := Push(before, was, false), before + [now];
    if Escapes(low) {
      EscapeIsFinal(low, b);
    }
    TallerIsSafer(low, high, b);
  }

  lemma InsertionDoesNotEscape(u: string, tag: string, v: string)
    requires |tag| >= 3 && '/' !in tag
    requires !IsRooted(u + v) && !IsRooted(u + tag + v) && !ClimbsOut(Clean(u + v))
    ensures !ClimbsOut(Clean(u + tag + v))
  {
    ClimbsOutIsEscape(u + v);
    ClimbsOutIsEscape(u + tag + v);
    var a, was, now, b := SplitInsertion(u, tag, v);
    NameDoesNotEscape(a, was, now, b);
  }

  lemma TagIsPlain(device: string, timestamp: string)
    ensures var tag := ConflictNames.Tag(device, timestamp);
            |tag| >= 3 && tag[0] == '.' && '\0' !in tag && '/' !in tag && '\\' !in tag
  {
    var a, b := ConflictNames.NameSafe(device), ConflictNames.NameSafe(timestamp);
    forall c | c in ConflictNames.Tag(device, timestamp) ensures c != '\0' && c != '/' && c != '\\' {
      assert c in ConflictNames.MARK || c in a || c == '-' || c in b;
    }
  }

  /** A conflict copy of an accepted path has an accepted path. */
  lemma ConflictNameIsChecked(p: string, device: string, timestamp: string)
    requires CheckPath(p)
    ensures CheckPath(ConflictNames.ConflictName(p, device, timestamp))
  {
    var i, tag := ConflictNames.ExtStart(p), ConflictNames.Tag(device, timestamp);
    var u, v := p[..i], p[i..];
    assert p == u + v && ConflictNames.ConflictName(p, device, timestamp) == u + tag + v;
    TagIsPlain(device, timestamp);
    InsertedTextIsChecked(u, tag, v);
  }

  lemma InsertedTextIsChecked(u: string, tag: string, v: string)
    requires CheckPath(u + v)
    requires |tag| >= 3 && tag[0] == '.' && '\0' !in tag && '/' !in tag && '\\' !in tag
    ensures CheckPath(u + tag + v)
  {
    var name := u + tag + v;
    assert name[0] == if u == "" then '.' else (u + v)[0];
    forall c | c in name ensures c != '\0' {
      assert c in u + v || c in tag;
    }
    InsertionDoesNotEscape(u, tag, v);
    var u', v' := Replace(u, '\\', '/'), Replace(v, '\\', '/');
    ReplaceConcat(u, v, '\\', '/');
    ReplaceConcat(u, tag, '\\', '/');
    ReplaceConcat(u + tag, v, '\\', '/');
    assert Replace(tag, '\\', '/') == tag;
    assert (u' + v')[0] == if (u + v)[0] == '\\' then '/' else (u + v)[0];
    assert (u' + tag + v')[0] == if u == "" then '.' else u'[0];
    InsertionDoesNotEscape(u', tag, v');
  }

  /** A proper name without separators is an accepted path. */
  lemma NameIsAccepted(name: string)
    requires IsName(name) && '/' !in name && '\\' !in name && '\0' !in name
    ensures CheckPath(name)
  {
    SplitPiece(name, '/', "");
    OneSegment(name);
    assert name[0] in name;
    assert Replace(name, '\\', '/') == name;
    assert !HasPrefix(name, "../") by {
      assert |name| >= 3 ==> name[2] in name;
      assert "../"[2] == '/';
    }
  }

  lemma OneSegment(name: string)
    requires IsName(name)
    ensures PushAll([], [name], false) == [name]
  {
    var segs := [name];
    assert segs[0] == name && segs[1..] == [];
    assert PushAll([], segs, false) == PushAll(Push([], name, false), segs[1..], false);
  }

  // ---------- exactly which paths and names ----------

  /** Cleaning component by component: empty ones and "." go; ".." takes the name before it away, goes
    * at a root, and stays where a relative path begins.
    */
  lemma CleaningRules(stack: seq<string>, name: string, rooted: bool)
    requires IsName(name)
    ensures Push(stack, "", rooted) == stack && Push(stack, ".", rooted) == stack
    ensures Push(stack, name, rooted) == stack + [name]
    ensures Push(stack + [name], "..", rooted) == stack
    ensures Push([], "..", true) == [] && Push([], "..", false) == [".."]
    ensures Push(stack + [".."], "..", false) == stack + ["..", ".."]
  {
  }

  /** A path that climbs out where a backslash separates is refused, though it is a single name where
    * it does not.
    */
  lemma BackslashClimbs(rest: string, p: string)
    requires p == "..\\" + rest
    ensures !CheckPath(p)
  {
    var up, tail := "..", Replace(rest, '\\', '/');
    var read := Replace(p, '\\', '/');
    assert read == up + ['/'] + tail;
    SplitPiece(up, '/', tail);
    assert Split(read, '/')[0] == up && Split(read, '/')[1..] == Split(tail, '/');
    assert Push([], up, false) == [up];
    EscapeIsFinal([up], Split(tail, '/'));
    ClimbsOutIsEscape(read);
  }

  /** The whole test on remote paths: relative, without NUL, and within every directory under both
    * readings of a backslash.
    */
  lemma CheckPathExactly(p: string)
    ensures CheckPath(p) <==>
      && p != "" && '\0' !in p && p[0] != '/' && p[0] != '\\'
      && forall root: string :: root != "" ==>
           && Within(Segments(root), JoinSegments(root, p))
           && Within(Segments(root), JoinSegments(root, Replace(p, '\\', '/')))
  {
    if p != "" && '\0' !in p && p[0] != '/' && p[0] != '\\' {
      assert !HasPrefix(p, "/") && !HasPrefix(p, "\\");
      CheckPathIsContainment(p);
    }
  }
}
