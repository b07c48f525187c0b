/** Where an entry of a given name is kept, and which names are refused. */
module NamePaths {
  import opened Wrappers
  import opened Strings
  import opened PathSafety

  ghost predicate ProperNames(names: seq<string>) {
    names != [] && forall i :: 0 <= i < |names| ==> IsName(names[i]) && '/' !in names[i]
  }

  lemma NamesStayNormal(names: seq<string>)
    requires ProperNames(names)
    ensures PushAll([], names, false) == names
  {
    assert Normal([] + names) && [] + names == names;
    PushNormal([], names);
  }

  lemma JoinStarts(names: seq<string>)
    requires ProperNames(names)
    ensures Join(names, '/') != "" && Join(names, '/')[0] == names[0][0] && !IsRooted(Join(names, '/'))
  {
    assert names[0][0] in names[0];
  }

  /** Proper names joined by slashes are clean already. */
  lemma NamesAreClean(names: seq<string>, p: string)
    requires ProperNames(names) && p == Join(names, '/')
    ensures Segments(p) == names && Clean(p) == p && !IsRooted(p) && !ClimbsOut(p) && p != ""
  {
    JoinStarts(names);
    SplitJoin(names, '/');
    NamesStayNormal(names);
    FirstSegmentDecides(names);
  }

  lemma {:induction false} JoinExtended(names: seq<string>, ext: string, file: seq<string>)
    requires names != [] && file == names[..|names| - 1] + [names[|names| - 1] + ext]
    ensures Join(file, '/') == Join(names, '/') + ext
    decreases |names|
  {
    if |names| > 1 {
      var rest := names[1..];
      assert file[1..] == rest[..|rest| - 1] + [rest[|rest| - 1] + ext];
      JoinExtended(rest, ext, file[1..]);
      assert names[0] + ['/'] + (Join(rest, '/') + ext) == names[0] + ['/'] + Join(rest, '/') + ext;
    }
  }

  /** What becomes of a name once outer blanks and one leading slash are off. */
  function Accepted(n: string): Option<string> {
    if n == "" then Some(".") else if IsRooted(n) || ClimbsOut(Clean(n)) then None else Some(Clean(n))
  }

  lemma RelOf(name: string, n: string)
    requires TrimSpace(name) == n && !IsRooted(n)
    ensures Rel(name) == Accepted(n)
  {
  }

  lemma RelOfSlashed(name: string, spaceless: string, n: string)
    requires TrimSpace(name) == spaceless && IsRooted(spaceless) && spaceless[1..] == n
    ensures Rel(name) == Accepted(n)
  {
  }

  lemma SlashedIsTrimmed(name: string, slashed: string)
    requires Trimmed(name) && slashed == "/" + name
    ensures Trimmed(slashed) && HasPrefix(slashed, "/") && slashed[1..] == name
  {
    assert slashed[|slashed| - 1] == if name == "" then '/' else name[|name| - 1];
  }

  /** Outer blanks make no difference to a name. */
  lemma BlanksMakeNoDifference(name: string, blank: string)
    requires TrimSpace(blank) == TrimSpace(name)
    ensures Rel(blank) == Rel(name)
  {
  }

  /** Nor does one leading slash. */
  lemma OneSlashMakesNoDifference(name: string, slashed: string)
    requires Trimmed(name) && !IsRooted(name) && slashed == "/" + name
    ensures Rel(slashed) == Rel(name)
  {
    SlashedIsTrimmed(name, slashed);
    TrimSpaceOfTrimmed(name);
    TrimSpaceOfTrimmed(slashed);
    RelOf(name, name);
    RelOfSlashed(slashed, slashed, name);
  }

  /** A relative name is refused exactly when it climbs out, and otherwise keeps its components; one
    * with two leading slashes is refused, and none at all is the store itself.
    */
  lemma NameIsRefusedExactly(name: string)
    requires Trimmed(name) && name != "" && !IsRooted(name)
    ensures Rel(name) == None <==> Escapes(Segments(name))
    ensures Rel(name).Some? ==> Segments(Rel(name).value) == Segments(name)
  {
    TrimSpaceOfTrimmed(name);
    RelOf(name, name);
    ClimbsOutIsEscape(name);
    CleanIsStable(name);
  }

  lemma TwoSlashesAreRefused(name: string, once: string, twice: string)
    requires Trimmed(name) && once == "/" + name && twice == "/" + once
    ensures Rel(twice) == None
  {
    SlashedIsTrimmed(name, once);
    SlashedIsTrimmed(once, twice);
    TrimSpaceOfTrimmed(twice);
    RelOfSlashed(twice, twice, once);
  }

  lemma NoNameIsTheStore(name: string)
    requires TrimSpace(name) == ""
    ensures Rel(name) == Some(".")
  {
    RelOf(name, TrimSpace(name));
  }

  lemma ExtendedNames(names: seq<string>, ext: string, file: seq<string>)
    requires ProperNames(names) && (ext == ".gpg" || ext == ".age")
    requires file == names[..|names| - 1] + [names[|names| - 1] + ext]
    ensures ProperNames(file)
  {
    var last := names[|names| - 1];
    assert |last + ext| > 2 && '/' !in ext;
  }

  /** An entry of proper names is kept in the file of these names beneath the store, with the format's
    * extension on the last.
    */
  lemma EntryPathIs(dir: string, names: seq<string>, name: string, ext: string, file: seq<string>)
    requires dir != "" && ProperNames(names) && (ext == ".gpg" || ext == ".age")
    requires name == Join(names, '/') && Trimmed(name)
    requires file == names[..|names| - 1] + [names[|names| - 1] + ext]
    ensures Rel(name) == Some(name) && JoinSegments(dir, name + ext) == Segments(dir) + file
  {
    NamesAreClean(names, name);
    TrimSpaceOfTrimmed(name);
    RelOf(name, name);
    ExtendedNames(names, ext, file);
    JoinExtended(names, ext, file);
    NamesAreClean(file, name + ext);
    AcceptedStaysWithin(dir, name + ext);
  }
}
