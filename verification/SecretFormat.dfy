/** The text format of an entry: a password line, then free text in which lines shaped like
  * "key: value" are fields.
  */
module SecretFormat {
  import opened Wrappers
  import opened Strings

  function TrimSuffix(s: string, suffix: string): string {
    if HasSuffix(s, suffix) then s[..|s| - |suffix|] else s
  }

  function TrimPrefix(s: string, prefix: string): string {
    if HasPrefix(s, prefix) then s[|prefix|..] else s
  }

  /** Text around the first `c`: what comes before it, and what after it if there is one. */
  function Cut(s: string, c: char): (string, Option<string>) {
    if s == "" then ("", None)
    else if s[0] == c then ("", Some(s[1..]))
    else
      var (before, after) := Cut(s[1..], c);
      ([s[0]] + before, after)
  }

  function Password(raw: string): string {
    TrimSuffix(Cut(raw, '\n').0, "\r")
  }

  function Body(raw: string): string {
    match Cut(raw, '\n').1
    case None => ""
    case Some(rest) => rest
  }

  function New(password: string, body: string): string {
    password + "\n" + if body == "" || HasSuffix(body, "\n") then body else body + "\n"
  }

  function SetPassword(raw: string, password: string): string {
    New(password, Body(raw))
  }

  function WithoutReturns(lines: seq<string>): seq<string> {
    seq(|lines|, i requires 0 <= i < |lines| => TrimSuffix(lines[i], "\r"))
  }

  function Lines(raw: string): seq<string> {
    var t := TrimSuffix(raw, "\n");
    if t == "" then [] else WithoutReturns(Split(t, '\n'))
  }

  datatype Field = Field(key: string, value: string)

  predicate HasBlank(s: string) {
    ' ' in s || '\t' in s
  }

  /** A line is a field unless its key has blanks or its colon belongs to a URI. */
  function SplitField(line: string): Option<Field> {
    match Cut(line, ':')
    case (_, None) => None
    case (before, Some(after)) =>
      var k := TrimSpace(before);
      if k == "" || HasBlank(k) || HasPrefix(after, "//") then None
      else Some(Field(k, TrimSpace(after)))
  }

  function FieldsOf(lines: seq<string>): seq<Field> {
    if lines == [] then []
    else
      match SplitField(lines[0])
      case None => FieldsOf(lines[1..])
      case Some(f) => [f] + FieldsOf(lines[1..])
  }

  function Fields(raw: string): seq<Field> {
    var lines := Lines(raw);
    if |lines| < 2 then [] else FieldsOf(lines[1..])
  }

  // ---------- facts ----------

  lemma {:induction false} CutAt(a: string, c: char, b: string)
    requires c !in a
    ensures Cut(a + [c] + b, c) == (a, Some(b))
    ensures Cut(a, c) == (a, None)
  {
    var s := a + [c] + b;
    if a == "" {
      assert s[1..] == b;
    } else {
      CutAt(a[1..], c, b);
      assert s[1..] == a[1..] + [c] + b;
      assert [a[0]] + a[1..] == a;
    }
  }

  lemma FieldFromCut(line: string, key: string, value: string)
    requires Cut(line, ':') == (key, Some(" " + value))
    requires TrimSpace(key) == key && key != "" && !HasBlank(key) && TrimSpace(" " + value) == value
    ensures SplitField(line) == Some(Field(key, value))
  {
    assert (" " + value)[0] == ' ';
  }

  lemma SpacelessIsTrimmed(key: string)
    requires key != "" && forall c :: c in key ==> !IsSpace(c)
    ensures Trimmed(key) && !HasBlank(key)
  {
    assert key[0] in key && key[|key| - 1] in key;
    assert IsSpace(' ') && IsSpace('\t');
  }

  /** A printed field reads back as it was written. */
  lemma PrintedField(key: string, value: string)
    requires key != "" && ':' !in key && (forall c :: c in key ==> !IsSpace(c)) && Trimmed(value)
    ensures SplitField(key + ": " + value) == Some(Field(key, value))
  {
    assert key + ": " + value == key + [':'] + (" " + value);
    CutAt(key, ':', " " + value);
    SpacelessIsTrimmed(key);
    TrimSpaceOfTrimmed(key);
    TrimSpaceOfTrimmed(value);
    FieldFromCut(key + ": " + value, key, value);
  }

  lemma WithoutFinalNewline(t: string)
    ensures TrimSuffix(t + "\n", "\n") == t
  {
    assert (t + "\n")[|t|..] == "\n";
  }

  lemma NoReturns(lines: seq<string>)
    requires forall i :: 0 <= i < |lines| ==> !HasSuffix(lines[i], "\r")
    ensures WithoutReturns(lines) == lines
  {
  }

  /** Text made of whole lines gives back the lines. */
  lemma PrintedLines(lines: seq<string>)
    requires |lines| >= 1
    requires forall i :: 0 <= i < |lines| ==> '\n' !in lines[i] && !HasSuffix(lines[i], "\r")
    ensures Lines(Join(lines, '\n') + "\n") == if lines == [""] then [] else lines
  {
    var t := Join(lines, '\n');
    WithoutFinalNewline(t);
    SplitJoin(lines, '\n');
    NoReturns(lines);
    if t == "" {
      assert Split("", '\n') == [""];
    }
  }

  /** Replacing the password keeps the body byte for byte, up to a final newline. */
  lemma SetPasswordKeepsBody(raw: string, password: string)
    requires '\n' !in password
    ensures Password(SetPassword(raw, password)) == TrimSuffix(password, "\r")
    ensures Body(SetPassword(raw, password)) ==
            if Body(raw) == "" || HasSuffix(Body(raw), "\n") then Body(raw) else Body(raw) + "\n"
  {
    var body := Body(raw);
    var rest := if body == "" || HasSuffix(body, "\n") then body else body + "\n";
    assert New(password, body) == password + ['\n'] + rest;
    CutAt(password, '\n', rest);
  }
}
