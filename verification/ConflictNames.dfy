/** Names of conflict copies, and the way back to the original path. */
module ConflictNames {
  import opened Strings

  const MARK: string := ".conflict-"

  predicate IsNameSafe(c: char) {
    || 'a' <= c <= 'z' || 'A' <= c <= 'Z' || '0' <= c <= '9'
    || c == '-' || c == '.' || c == '_' || c == ':'
  }

  /** Keeps the safe characters only. */
  function NameSafe(s: string): (clean: string)
    ensures forall c :: c in clean ==> IsNameSafe(c)
  {
    if s == "" then ""
    else if IsNameSafe(s[0]) then [s[0]] + NameSafe(s[1..])
    else NameSafe(s[1..])
  }

  function Tag(device: string, timestamp: string): string {
    MARK + NameSafe(device) + "-" + NameSafe(timestamp)
  }

  /** Where the extension of the last component starts, or the end of the path. */
  function ExtStart(path: string): (i: nat)
    ensures i <= |path|
  {
    var slash := LastIndexOf(path, '/');
    var dot := LastIndexOf(path, '.');
    if dot < 0 || dot < slash then |path| else dot
  }

  predicate HasExt(path: string) {
    ExtStart(path) < |path|
  }

  function ConflictName(path: string, device: string, timestamp: string): string {
    path[..ExtStart(path)] + Tag(device, timestamp) + path[ExtStart(path)..]
  }

  predicate IsConflictFile(name: string) {
    Contains(name, MARK)
  }

  function ConflictToOriginal(name: string): string {
    if !IsConflictFile(name) then name
    else
      var idx := Index(name, MARK);
      var dot := LastIndexOf(name[idx..], '.');
      name[..idx] + if dot > 0 then name[idx..][dot..] else ""
  }

  /** Cleaning drops exactly the unsafe characters and keeps the others in order. */
  lemma {:induction false} NameSafeFilters(a: string, b: string)
    ensures NameSafe(a + b) == NameSafe(a) + NameSafe(b)
    ensures |a| == 1 ==> NameSafe(a) == if IsNameSafe(a[0]) then a else ""
  {
    if a == "" {
      assert a + b == b;
    } else {
      assert (a + b)[0] == a[0] && (a + b)[1..] == a[1..] + b && a == [a[0]] + a[1..];
      NameSafeFilters(a[1..], b);
    }
  }

  /** The letters and digits from end to end and four marks are safe; separators, blanks and control
    * characters are not.
    */
  lemma SafeCharacters()
    ensures forall c :: c in "azAZ09-._:" ==> IsNameSafe(c)
    ensures forall c :: c in "/\\@[`{ \t\n\0" ==> !IsNameSafe(c)
  {
  }

  /** The copy of a file: the tag goes before the extension of its name, or to the end. A dot in a
    * folder's name is no extension.
    */
  lemma ConflictNameText(dir: string, stem: string, ext: string, device: string, timestamp: string)
    requires dir == "" || dir[|dir| - 1] == '/'
    requires '/' !in stem + ext && (if ext == "" then '.' !in stem else ext[0] == '.' && '.' !in ext[1..])
    ensures ConflictName(dir + stem + ext, device, timestamp) ==
      dir + stem + ".conflict-" + NameSafe(device) + "-" + NameSafe(timestamp) + ext
  {
    var path := dir + stem + ext;
    SplitsAtExtension(dir, stem, ext, path);
    NameIsStemTagExt(path, device, timestamp);
    var stemmed := dir + stem;
    assert path[..|stemmed|] == stemmed && path[|stemmed|..] == ext;
    assert MARK == ".conflict-";
    assert stemmed + Tag(device, timestamp) == stemmed + ".conflict-" + NameSafe(device) + "-" + NameSafe(timestamp);
  }

  lemma SplitsAtExtension(dir: string, stem: string, ext: string, path: string)
    requires path == dir + stem + ext
    requires dir == "" || dir[|dir| - 1] == '/'
    requires '/' !in stem + ext && (if ext == "" then '.' !in stem else ext[0] == '.' && '.' !in ext[1..])
    ensures ExtStart(path) == |dir + stem|
  {
    var base := stem + ext;
    assert path == dir + base;
    forall k | |dir| <= k < |path| ensures path[k] != '/' {
      assert path[k] == base[k - |dir|] && base[k - |dir|] in base;
    }
    LastIndexUnique(path, '/', |dir| - 1);
    if ext == "" {
      forall k | |dir| <= k < |path| ensures path[k] != '.' {
        assert path[k] == stem[k - |dir|] && stem[k - |dir|] in stem;
      }
    } else {
      var dot := |dir + stem|;
      forall k | dot < k < |path| ensures path[k] != '.' {
        assert path[k] == ext[1..][k - dot - 1] && ext[1..][k - dot - 1] in ext[1..];
      }
      assert path[dot] == ext[0];
      LastIndexUnique(path, '.', dot);
    }
  }

  // ---------- injectivity ----------

  lemma TagShape(device: string, timestamp: string)
    ensures var t := Tag(device, timestamp); |t| > 0 && t[0] == '.' && '/' !in t
  {
  }

  /** Two conflict names made by one device at timestamps of one length are equal only
    * if they were made of the same path. */
  lemma ConflictNameInjective(p: string, q: string, device: string, t: string, u: string)
    requires |NameSafe(t)| == |NameSafe(u)|
    requires ConflictName(p, device, t) == ConflictName(q, device, u)
    ensures p == q
  {
    var a, b := Tag(device, t), Tag(device, u);
    TagShape(device, t);
    TagShape(device, u);
    InsertionInjective(p, q, a, b);
  }

  /** The general fact: a slash-free insertion starting with a dot, put before the
    * extension, can be found again from the result and its length alone. */
  lemma InsertionInjective(p: string, q: string, a: string, b: string)
    requires |a| == |b| > 0 && a[0] == b[0] == '.' && '/' !in a && '/' !in b
    requires p[..ExtStart(p)] + a + p[ExtStart(p)..] == q[..ExtStart(q)] + b + q[ExtStart(q)..]
    ensures p == q
  {
    var i, j := ExtStart(p), ExtStart(q);
    var n := p[..i] + a + p[i..];
    if i < j {
      InsertionOrder(q, p, b, a, n);
    } else if j < i {
      InsertionOrder(p, q, a, b, n);
    }
    assert p[..i] == n[..i] == q[..j];
    assert p[i..] == n[i + |a|..] == q[j..];
    assert p == p[..i] + p[i..] && q == q[..j] + q[j..];
  }

  /** The insertion point of `q` cannot come before that of `p`. */
  lemma InsertionOrder(p: string, q: string, a: string, b: string, n: string)
    requires |a| == |b| > 0 && a[0] == b[0] == '.' && '/' !in a && '/' !in b
    requires n == p[..ExtStart(p)] + a + p[ExtStart(p)..]
    requires n == q[..ExtStart(q)] + b + q[ExtStart(q)..]
    ensures ExtStart(p) <= ExtStart(q)
  {
    if ExtStart(q) < ExtStart(p) {
      LaterInsertion(p, ExtStart(p), q, ExtStart(q), a, b);
      assert false;
    }
  }

  /** If text inserted at `i` in `p` and before the extension of `q` gives one string,
    * and `i` is the later position, then `i` is not where `p` has its extension. */
  lemma LaterInsertion(p: string, i: nat, q: string, j: nat, a: string, b: string)
    requires |a| == |b| > 0 && b[0] == '.' && '/' !in b
    requires j < i <= |p| && j < |q| && j == ExtStart(q)
    requires p[..i] + a + p[i..] == q[..j] + b + q[j..]
    ensures p[j] == '.' && (forall k :: j <= k < |p| ==> p[k] != '/')
    ensures i < |p| ==> p[i] != '.'
  {
    var n := p[..i] + a + p[i..];
    assert p[j] == n[j] == b[0];
    forall k | j <= k < |p| ensures p[k] != '/' {
      if i <= k {
        assert p[k] == n[k + |a|] == q[k];
      } else if k < j + |b| {
        assert p[k] == n[k] == b[k - j];
      } else {
        assert p[k] == n[k] == q[k - |b|];
      }
    }
    if i < |p| {
      assert p[i] == n[i + |a|] == q[i];
    }
  }

  // ---------- the directory is kept ----------

  lemma ConflictNameKeepsDirectory(path: string, device: string, timestamp: string)
    ensures var name := ConflictName(path, device, timestamp);
            var slash := LastIndexOf(path, '/');
            LastIndexOf(name, '/') == slash && name[..slash + 1] == path[..slash + 1]
  {
    var name := ConflictName(path, device, timestamp);
    var slash, i, tag := LastIndexOf(path, '/'), ExtStart(path), Tag(device, timestamp);
    TagShape(device, timestamp);
    forall k | slash < k < |name| ensures name[k] != '/' {
      if k < i {
        assert name[k] == path[k];
      } else if k < i + |tag| {
        assert name[k] == tag[k - i];
      } else {
        assert name[k] == path[k - |tag|];
      }
    }
    LastIndexUnique(name, '/', slash);
  }

  // ---------- the way back ----------

  /** The mark has one dot, at its start, so it cannot begin before a tag and end in it. */
  lemma FirstMark(stem: string, rest: string)
    requires HasPrefix(rest, MARK) && !Contains(stem, MARK)
    ensures Index(stem + rest, MARK) == |stem|
  {
    var s := stem + rest;
    assert s[|stem|..|stem| + |MARK|] == rest[..|MARK|];
    OccurrenceIsContained(s, MARK, |stem|);
    forall i | 0 <= i < |stem| ensures !OccursAt(s, MARK, i) {
      if i + |MARK| <= |stem| {
        assert stem[i..i + |MARK|] == s[i..i + |MARK|];
        assert !OccursAt(stem, MARK, i);
      } else if i + |MARK| <= |s| {
        assert s[i..i + |MARK|][|stem| - i] == s[|stem|] == '.';
        assert MARK[|stem| - i] != '.';
      }
    }
  }

  /** A mark inside the stem is found first, and cuts the stem short. */
  lemma EarlierMark(stem: string, rest: string)
    requires Contains(stem, MARK)
    ensures 0 <= Index(stem + rest, MARK) && Index(stem + rest, MARK) + |MARK| <= |stem|
  {
    var i := Index(stem, MARK);
    assert (stem + rest)[i..i + |MARK|] == stem[i..i + |MARK|];
    OccurrenceIsContained(stem + rest, MARK, i);
  }

  /** What follows the first mark decides what is put back: the text from its last dot,
    * unless that is the dot of the mark. */
  lemma LastDotOf(a: string, b: string)
    ensures LastIndexOf(b, '.') >= 0 ==> LastIndexOf(a + b, '.') == |a| + LastIndexOf(b, '.')
    ensures LastIndexOf(b, '.') < 0 ==> LastIndexOf(a + b, '.') == LastIndexOf(a, '.')
  {
    var d := LastIndexOf(b, '.');
    if d >= 0 {
      forall k | |a| + d < k < |a + b| ensures (a + b)[k] != '.' { assert (a + b)[k] == b[k - |a|]; }
      LastIndexUnique(a + b, '.', |a| + d);
    } else {
      forall k | LastIndexOf(a, '.') < k < |a + b| ensures (a + b)[k] != '.' {
        assert k >= |a| ==> (a + b)[k] == b[k - |a|];
      }
      LastIndexUnique(a + b, '.', LastIndexOf(a, '.'));
    }
  }

  lemma ExtHasOneDot(path: string)
    requires HasExt(path)
    ensures LastIndexOf(path[ExtStart(path)..], '.') == 0
  {
    LastIndexUnique(path[ExtStart(path)..], '.', 0);
  }

  lemma TagDots(device: string, timestamp: string)
    ensures LastIndexOf(Tag(device, timestamp), '.') >= 0
    ensures LastIndexOf(Tag(device, timestamp), '.') == 0 <==> '.' !in NameSafe(device) + NameSafe(timestamp)
  {
    var t := Tag(device, timestamp);
    var d, u := NameSafe(device), NameSafe(timestamp);
    assert t[0] == '.';
    if '.' in d + u {
      var k :| 0 <= k < |d + u| && (d + u)[k] == '.';
      if k < |d| {
        assert t[|MARK| + k] == d[k] == '.';
      } else {
        assert t[|MARK| + |d| + 1 + (k - |d|)] == u[k - |d|] == '.';
      }
    } else {
      forall k | 0 < k < |t| ensures t[k] != '.' {
        if |MARK| <= k < |MARK| + |d| {
          assert t[k] == d[k - |MARK|] && d[k - |MARK|] in d;
        } else if |MARK| + |d| < k {
          assert t[k] == u[k - |MARK| - |d| - 1] && u[k - |MARK| - |d| - 1] in u;
        }
      }
      LastIndexUnique(t, '.', 0);
    }
  }

  /** What is restored when the stem has no mark of its own. */
  lemma UnmarkedStemRestored(path: string, device: string, timestamp: string)
    requires !Contains(path[..ExtStart(path)], MARK)
    ensures ConflictToOriginal(ConflictName(path, device, timestamp)) == path <==>
              HasExt(path) || '.' !in NameSafe(device) + NameSafe(timestamp)
  {
    var stem, ext, tag := path[..ExtStart(path)], path[ExtStart(path)..], Tag(device, timestamp);
    NameIsStemTagExt(path, device, timestamp);
    TagDots(device, timestamp);
    TagStartsWithMark(tag, "", device, timestamp);
    assert tag + "" == tag;
    if HasExt(path) {
      ExtHasOneDot(path);
    }
    PutBackAfterStem(stem, tag, ext);
  }

  lemma NameIsStemTagExt(path: string, device: string, timestamp: string)
    ensures var stem, ext := path[..ExtStart(path)], path[ExtStart(path)..];
      path == stem + ext && ConflictName(path, device, timestamp) == stem + (Tag(device, timestamp) + ext)
  {
    var stem, ext, tag := path[..ExtStart(path)], path[ExtStart(path)..], Tag(device, timestamp);
    assert stem + tag + ext == stem + (tag + ext);
  }

  /** The tag is dropped and the extension kept, unless the tag has a dot that looks like one. */
  lemma PutBackAfterStem(stem: string, tag: string, ext: string)
    requires HasPrefix(tag, MARK) && !Contains(stem, MARK)
    requires LastIndexOf(tag, '.') >= 0 && (ext == "" || LastIndexOf(ext, '.') == 0)
    ensures ConflictToOriginal(stem + (tag + ext)) == stem + ext <==> ext != "" || LastIndexOf(tag, '.') == 0
  {
    assert (tag + ext)[..|MARK|] == tag[..|MARK|];
    RestoredFromFirstMark(stem, tag + ext);
    if ext == "" {
      assert tag + ext == tag && stem + ext == stem;
      SomethingPutBack(stem, tag, LastIndexOf(tag, '.'));
    } else {
      LastDotOf(tag, ext);
      DropInto(tag, ext, 0);
    }
  }

  lemma SomethingPutBack(stem: string, tag: string, dot: int)
    requires 0 <= dot < |tag|
    ensures stem + (if dot > 0 then tag[dot..] else "") == stem <==> dot == 0
  {
    assert dot > 0 ==> |stem + tag[dot..]| > |stem|;
  }

  lemma TagStartsWithMark(tag: string, ext: string, device: string, timestamp: string)
    requires tag == Tag(device, timestamp)
    ensures HasPrefix(tag + ext, MARK)
  {
    assert (tag + ext)[..|MARK|] == MARK;
  }

  /** What is restored when the first mark starts the rest. */
  lemma RestoredFromFirstMark(stem: string, rest: string)
    requires HasPrefix(rest, MARK) && !Contains(stem, MARK)
    ensures var dot := LastIndexOf(rest, '.');
            ConflictToOriginal(stem + rest) == stem + if dot > 0 then rest[dot..] else ""
  {
    FirstMark(stem, rest);
    assert (stem + rest)[|stem|..] == rest && (stem + rest)[..|stem|] == stem;
  }

  lemma DropInto(a: string, b: string, d: nat)
    requires d <= |b|
    ensures (a + b)[|a| + d..] == b[d..]
  {
  }

  lemma MarkStartsWithDot(name: string, idx: int)
    requires OccursAt(name, MARK, idx)
    ensures name[idx] == '.'
  {
    assert name[idx] == name[idx..idx + |MARK|][0];
  }

  lemma CutInFirst(a: string, b: string, idx: nat)
    requires idx < |a|
    ensures (a + b)[idx..] == a[idx..] + b && (a + b)[..idx] == a[..idx] && (a + b)[idx] == a[idx]
  {
  }

  /** What is restored when the stem has a mark: its text from there on is lost. */
  lemma RestoredFromMarkedStem(stem: string, rest: string)
    requires Contains(stem, MARK) && LastIndexOf(rest, '.') >= 0
    ensures var idx := Index(stem + rest, MARK);
            && 0 <= idx && idx + |MARK| <= |stem| && stem[idx] == '.'
            && ConflictToOriginal(stem + rest) == stem[..idx] + rest[LastIndexOf(rest, '.')..]
  {
    EarlierMark(stem, rest);
    var idx := Index(stem + rest, MARK);
    MarkStartsWithDot(stem + rest, idx);
    CutInFirst(stem, rest, idx);
    PutBackAt(stem + rest, idx, stem[idx..], rest);
  }

  lemma PutBackAt(name: string, idx: nat, tail: string, rest: string)
    requires idx <= |name| && idx == Index(name, MARK) && name[idx..] == tail + rest && tail != "" && LastIndexOf(rest, '.') >= 0
    ensures ConflictToOriginal(name) == name[..idx] + rest[LastIndexOf(rest, '.')..]
  {
    LastDotOf(tail, rest);
    DropInto(tail, rest, LastIndexOf(rest, '.'));
  }

  lemma MarkedStemNotRestored(path: string, device: string, timestamp: string)
    requires Contains(path[..ExtStart(path)], MARK)
    ensures ConflictToOriginal(ConflictName(path, device, timestamp)) != path
  {
    var stem, ext, tag := path[..ExtStart(path)], path[ExtStart(path)..], Tag(device, timestamp);
    NameIsStemTagExt(path, device, timestamp);
    TagShape(device, timestamp);
    TagDots(device, timestamp);
    LastDotOf(tag, ext);
    RestoredFromMarkedStem(stem, tag + ext);
    var idx := Index(stem + (tag + ext), MARK);
    if HasExt(path) {
      ExtHasOneDot(path);
      DropInto(tag, ext, 0);
      ShorterStem(stem, idx, ext);
    } else {
      assert tag + ext == tag && stem == path;
      CutBeforeSlashIsLost(path, idx, tag[LastIndexOf(tag, '.')..], tag);
    }
  }

  lemma ShorterStem(stem: string, idx: nat, ext: string)
    requires idx < |stem|
    ensures stem[..idx] + ext != stem + ext
  {
    assert |stem[..idx] + ext| < |stem + ext|;
  }

  /** Without an extension every dot is in a directory, so what is cut has a slash and
    * what is put back has none. */
  lemma CutBeforeSlashIsLost(path: string, idx: nat, put: string, tag: string)
    requires !HasExt(path) && idx < |path| && path[idx] == '.'
    requires '/' !in tag && |put| <= |tag| && put == tag[|tag| - |put|..]
    ensures path[..idx] + put != path
  {
    var slash := LastIndexOf(path, '/');
    assert LastIndexOf(path, '.') >= idx;
    assert slash > idx;
    if slash - idx < |put| {
      assert (path[..idx] + put)[slash] == put[slash - idx] == tag[|tag| - |put| + (slash - idx)] != '/';
    }
  }

  /** Exactly when the original path of a conflict copy is recovered: the part before
    * the extension must not contain the mark already, and a path without an extension
    * must not get one from a dot in the device name or the timestamp. */
  lemma ConflictRecovery(path: string, device: string, timestamp: string)
    ensures ConflictToOriginal(ConflictName(path, device, timestamp)) == path <==>
              && !Contains(path[..ExtStart(path)], MARK)
              && (HasExt(path) || '.' !in NameSafe(device) + NameSafe(timestamp))
  {
    if Contains(path[..ExtStart(path)], MARK) {
      MarkedStemNotRestored(path, device, timestamp);
    } else {
      UnmarkedStemRestored(path, device, timestamp);
    }
  }

  /** The listing shows entry names, with the extension already taken off.  What a conflict
    * copy leads back to there: the text before the first mark, with the tag's text from its
    * last dot if there is one to mistake for an extension. */
  lemma EntryNameLeadsTo(entry: string, device: string, timestamp: string)
    ensures var tag := Tag(device, timestamp);
            var dot := LastIndexOf(tag, '.');
            && 0 <= dot < |tag|
            && ConflictToOriginal(entry + tag) ==
                 if Contains(entry, MARK) then entry[..Index(entry, MARK)] + tag[dot..]
                 else entry + if dot > 0 then tag[dot..] else ""
  {
    var tag := Tag(device, timestamp);
    TagDots(device, timestamp);
    TagStartsWithMark(tag, "", device, timestamp);
    assert tag + "" == tag;
    if Contains(entry, MARK) {
      RestoredFromMarkedStem(entry, tag);
      FirstMarkStays(entry, tag);
    } else {
      RestoredFromFirstMark(entry, tag);
    }
  }

  lemma FirstMarkStays(stem: string, rest: string)
    requires Contains(stem, MARK)
    ensures Index(stem + rest, MARK) == Index(stem, MARK)
  {
    var i, s := Index(stem, MARK), stem + rest;
    EarlierMark(stem, rest);
    assert s[i..i + |MARK|] == stem[i..i + |MARK|];
    OccurrenceIsContained(s, MARK, i);
    var k := Index(s, MARK);
    assert stem[k..k + |MARK|] == s[k..k + |MARK|];
    OccurrenceIsContained(stem, MARK, k);
  }

  /** The text of a tag from its last dot. */
  function TagEnd(device: string, timestamp: string): string {
    var tag := Tag(device, timestamp);
    var dot := LastIndexOf(tag, '.');
    if dot < 0 then "" else tag[dot..]
  }

  lemma CutAndPut(s: string, i: nat, put: string)
    requires i <= |s|
    ensures s[..i] + put == s <==> s[i..] == put
  {
    assert s == s[..i] + s[i..];
    assert s[..i] + put == s ==> put == s[i..] by {
      assert (s[..i] + put)[i..] == put;
    }
  }

  /** So a listed conflict copy leads back to its original exactly when neither the device name
    * nor the timestamp has a dot, if the original is no conflict copy itself; and if it is one,
    * exactly when it goes on, from its first mark, with the end of this very tag. */
  lemma EntryNameRecovery(entry: string, device: string, timestamp: string)
    ensures ConflictToOriginal(entry + Tag(device, timestamp)) == entry <==>
              if Contains(entry, MARK) then entry[Index(entry, MARK)..] == TagEnd(device, timestamp)
              else '.' !in NameSafe(device) + NameSafe(timestamp)
  {
    var tag := Tag(device, timestamp);
    EntryNameLeadsTo(entry, device, timestamp);
    TagDots(device, timestamp);
    if Contains(entry, MARK) {
      CutAndPut(entry, Index(entry, MARK), TagEnd(device, timestamp));
    } else {
      SomethingPutBack(entry, tag, LastIndexOf(tag, '.'));
    }
  }

  /** A dot in the device name or the timestamp: what follows the last one is put back, and the
    * copy of an entry leads to a name that never was. */
  lemma DotIsTakenForExtension(entry: string, device: string, timestamp: string, front: string, back: string)
    requires !Contains(entry, MARK)
    requires Tag(device, timestamp) == front + back && front != "" && LastIndexOf(back, '.') == 0
    ensures ConflictToOriginal(entry + Tag(device, timestamp)) == entry + back
  {
    LastDotOf(front, back);
    DropInto(front, back, 0);
    EntryNameLeadsTo(entry, device, timestamp);
  }

  lemma LastDotFirst(back: string, rest: string)
    requires back == "." + rest && '.' !in rest
    ensures LastIndexOf(back, '.') == 0
  {
    forall k | 0 < k < |back| ensures back[k] != '.' {
      assert back[k] == rest[k - 1];
    }
    LastIndexUnique(back, '.', 0);
  }

  lemma TagText(device: string, timestamp: string, front: string, rest: string)
    requires (forall c :: c in device ==> IsNameSafe(c)) && (forall c :: c in timestamp ==> IsNameSafe(c))
    requires MARK + device + "-" + timestamp == front + "." + rest
    ensures Tag(device, timestamp) == front + ("." + rest)
  {
    CleanIsSafe(device);
    CleanIsSafe(timestamp);
    assert front + "." + rest == front + ("." + rest);
  }

  lemma DotInTag(entry: string, device: string, timestamp: string, front: string, rest: string)
    requires !Contains(entry, MARK)
    requires (forall c :: c in device ==> IsNameSafe(c)) && (forall c :: c in timestamp ==> IsNameSafe(c))
    requires MARK + device + "-" + timestamp == front + "." + rest && front != "" && '.' !in rest
    ensures ConflictToOriginal(entry + Tag(device, timestamp)) == entry + ("." + rest)
  {
    TagText(device, timestamp, front, rest);
    LastDotFirst("." + rest, rest);
    DotIsTakenForExtension(entry, device, timestamp, front, "." + rest);
  }

  lemma LaptopTag(device: string, timestamp: string, front: string, rest: string)
    requires device == "laptop.lan" && timestamp == "20260808T142233"
    requires front == ".conflict-laptop" && rest == "lan-20260808T142233"
    ensures (forall c :: c in device ==> IsNameSafe(c)) && (forall c :: c in timestamp ==> IsNameSafe(c))
    ensures MARK + device + "-" + timestamp == front + "." + rest && front != "" && '.' !in rest
  {
  }

  /** So it is on a host called laptop.lan. */
  lemma DottedHostName(entry: string, device: string, timestamp: string, front: string, rest: string)
    requires !Contains(entry, MARK)
    requires device == "laptop.lan" && timestamp == "20260808T142233"
    requires front == ".conflict-laptop" && rest == "lan-20260808T142233"
    ensures ConflictToOriginal(entry + Tag(device, timestamp)) == entry + ("." + rest)
  {
    LaptopTag(device, timestamp, front, rest);
    DotInTag(entry, device, timestamp, front, rest);
  }

  lemma {:induction false} CleanIsSafe(s: string)
    requires forall c :: c in s ==> IsNameSafe(c)
    ensures NameSafe(s) == s
  {
    if s != "" {
      assert s == [s[0]] + s[1..];
      CleanIsSafe(s[1..]);
    }
  }
}
