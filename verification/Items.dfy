/** Secret Service items in the entry format: printing and parsing undo each other. */
module Items {
  import opened Wrappers
  import opened Ordering
  import opened Strings
  import opened SecretFormat

  /** A point in time, at the resolution of whole seconds, or the zero time. */
  datatype Time = ZeroTime | Unix(seconds: int)

  // The second that is the zero time, the start of year 1.
  const ZERO_SECOND: int := -62135596800

  // `caption` is the item's label.
  datatype Item = Item(
    id: string,
    caption: string,
    attributes: map<string, string>,
    secret: string,
    created: Time,
    modified: Time)

  const ATTR_PREFIX: string := "attr."

  // ---------- decimal numbers ----------

  function Digit(n: nat): char
    requires n < 10
  {
    "0123456789"[n]
  }

  function DigitValue(c: char): Option<nat> {
    if '0' <= c <= '9' then Some((c - '0') as nat) else None
  }

  function PrintNat(n: nat): (s: string)
    ensures s != ""
  {
    if n < 10 then [Digit(n)] else PrintNat(n / 10) + [Digit(n % 10)]
  }

  function PrintInt(n: int): string {
    if n < 0 then "-" + PrintNat(-n) else PrintNat(n)
  }

  function ParseDigits(s: string): Option<nat> {
    if s == "" then Some(0)
    else
      match (ParseDigits(s[..|s| - 1]), DigitValue(s[|s| - 1]))
      case (Some(m), Some(d)) => Some(10 * m + d)
      case _ => None
  }

  const MAX_INT64: int := 0x7FFF_FFFF_FFFF_FFFF

  /** Base ten with an optional sign, within 64 bits. */
  function ParseInt(s: string): Option<int> {
    var negative := HasPrefix(s, "-");
    var digits := if negative || HasPrefix(s, "+") then s[1..] else s;
    if digits == "" then None
    else
      match ParseDigits(digits)
      case None => None
      case Some(m) =>
        var n: int := if negative then -(m as int) else m;
        if -MAX_INT64 - 1 <= n <= MAX_INT64 then Some(n) else None
  }

  /** A corrupt timestamp reads as the zero time. */
  function ParseUnix(s: string): Time {
    match ParseInt(s)
    case None => ZeroTime
    case Some(n) => if n == ZERO_SECOND then ZeroTime else Unix(n)
  }

  lemma DigitReads(d: nat)
    requires d < 10
    ensures DigitValue(Digit(d)) == Some(d)
  {
  }

  lemma ParseSnoc(s: string, m: nat, d: nat)
    requires d < 10 && ParseDigits(s) == Some(m)
    ensures ParseDigits(s + [Digit(d)]) == Some(10 * m + d) && '0' <= Digit(d) <= '9'
  {
    DigitReads(d);
    var t := s + [Digit(d)];
    assert t[..|t| - 1] == s && t[|t| - 1] == Digit(d);
  }

  lemma {:induction false} ParsePrintedNat(n: nat)
    ensures ParseDigits(PrintNat(n)) == Some(n)
    ensures forall c :: c in PrintNat(n) ==> '0' <= c <= '9'
  {
    if n < 10 {
      ParseSnoc("", 0, n);
      assert "" + [Digit(n)] == [Digit(n)];
    } else {
      ParsePrintedNat(n / 10);
      ParseSnoc(PrintNat(n / 10), n / 10, n % 10);
    }
  }

  lemma ParseSigned(digits: string, n: nat)
    requires digits != "" && ParseDigits(digits) == Some(n) && '0' <= digits[0] <= '9' && n <= MAX_INT64 + 1
    ensures ParseInt("-" + digits) == Some(-(n as int))
    ensures n <= MAX_INT64 ==> ParseInt(digits) == Some(n as int)
  {
    assert ("-" + digits)[1..] == digits;
    assert HasPrefix("-" + digits, "-");
    assert !HasPrefix(digits, "-") && !HasPrefix(digits, "+");
  }

  lemma ParsePrintedInt(n: int)
    requires -MAX_INT64 - 1 <= n <= MAX_INT64
    ensures ParseInt(PrintInt(n)) == Some(n)
    ensures forall c :: c in PrintInt(n) ==> c == '-' || '0' <= c <= '9'
  {
    var m: nat := if n < 0 then -n else n;
    ParsePrintedNat(m);
    assert PrintNat(m)[0] in PrintNat(m);
    ParseSigned(PrintNat(m), m);
  }

  lemma PrintedIntIsPlain(n: int)
    ensures OneLine(PrintInt(n)) && Trimmed(PrintInt(n)) && PrintInt(n) != ""
  {
    ParsePrintedNat(if n < 0 then -n else n);
    var s := PrintInt(n);
    assert s[0] in s && s[|s| - 1] in s;
  }

  // ---------- printing ----------

  function FieldLine(key: string, value: string): string {
    key + ": " + value
  }

  function CaptionLines(caption: string): seq<string> {
    if caption == "" then [] else [FieldLine("label", caption)]
  }

  function AttributeLines(keys: seq<string>, m: map<string, string>): seq<string>
    requires forall k :: k in keys ==> k in m
  {
    seq(|keys|, i requires 0 <= i < |keys| => FieldLine(ATTR_PREFIX + keys[i], m[keys[i]]))
  }

  function TimeLines(key: string, t: Time): seq<string> {
    match t
    case ZeroTime => []
    case Unix(n) => [FieldLine(key, PrintInt(n))]
  }

  /** The field lines of a stored item, its attributes in the given order. */
  function FieldLines(it: Item, keys: seq<string>): seq<string>
    requires forall k :: k in keys ==> k in it.attributes
  {
    CaptionLines(it.caption)
    + AttributeLines(keys, it.attributes)
    + TimeLines("created", it.created)
    + TimeLines("modified", it.modified)
  }

  function ItemLines(it: Item, keys: seq<string>): seq<string>
    requires forall k :: k in keys ==> k in it.attributes
  {
    [it.secret] + FieldLines(it, keys)
  }

  /** The text of a stored item, its attributes in the given order. */
  function Printed(it: Item, keys: seq<string>): string
    requires forall k :: k in keys ==> k in it.attributes
  {
    Join(ItemLines(it, keys), '\n') + "\n"
  }

  ghost predicate IsSortedKeys(keys: seq<string>, m: map<string, string>) {
    SortedBy(StringLess, keys) && forall k :: k in keys <==> k in m
  }

  lemma SortedKeysUnique(a: seq<string>, b: seq<string>, m: map<string, string>)
    requires IsSortedKeys(a, m) && IsSortedKeys(b, m)
    ensures a == b
  {
    StringOrder();
    SortedUnique(StringLess, a, b);
  }

  method SortedKeys(m: map<string, string>) returns (keys: seq<string>)
    ensures IsSortedKeys(keys, m)
  {
    keys := [];
    var todo := m.Keys;
    while todo != {}
      invariant todo <= m.Keys
      invariant forall k :: k in keys <==> k in m && k !in todo
      invariant forall i, j :: 0 <= i < j < |keys| ==> keys[i] != keys[j]
    {
      var k :| k in todo;
      keys := keys + [k];
      todo := todo - {k};
    }
    StringOrder();
    keys := Sort(StringLess, keys);
  }

  /** The text is whole lines. */
  ghost predicate IsText(raw: string, lines: seq<string>) {
    |lines| >= 1 && raw == Join(lines, '\n') + "\n"
  }

  method AppendField(raw: string, ghost lines: seq<string>, key: string, value: string) returns (longer: string)
    requires IsText(raw, lines)
    ensures IsText(longer, lines + [FieldLine(key, value)])
  {
    JoinSnoc(lines, FieldLine(key, value));
    longer := raw + key + ": " + value + "\n";
  }

  method AppendAttributes(raw: string, ghost lines: seq<string>, keys: seq<string>, m: map<string, string>) returns (longer: string)
    requires IsText(raw, lines) && forall k :: k in keys ==> k in m
    ensures IsText(longer, lines + AttributeLines(keys, m))
  {
    longer := raw;
    ghost var more := lines;
    for n := 0 to |keys|
      invariant more == lines + AttributeLines(keys[..n], m) && IsText(longer, more)
    {
      assert keys[n] in keys;
      longer := AppendField(longer, more, ATTR_PREFIX + keys[n], m[keys[n]]);
      more := more + [FieldLine(ATTR_PREFIX + keys[n], m[keys[n]])];
      assert AttributeLines(keys[..n + 1], m) == AttributeLines(keys[..n], m) + [FieldLine(ATTR_PREFIX + keys[n], m[keys[n]])];
    }
    assert keys[..|keys|] == keys;
  }

  method AppendCaption(raw: string, ghost lines: seq<string>, caption: string) returns (longer: string)
    requires IsText(raw, lines)
    ensures IsText(longer, lines + CaptionLines(caption))
  {
    longer := raw;
    assert lines + [] == lines;
    if caption != "" {
      longer := AppendField(raw, lines, "label", caption);
    }
  }

  method AppendTime(raw: string, ghost lines: seq<string>, key: string, t: Time) returns (longer: string)
    requires IsText(raw, lines)
    ensures IsText(longer, lines + TimeLines(key, t))
  {
    longer := raw;
    assert lines + [] == lines;
    if t.Unix? {
      longer := AppendField(raw, lines, key, PrintInt(t.seconds));
    }
  }

  lemma SecretThenFields(it: Item, keys: seq<string>)
    requires forall k :: k in keys ==> k in it.attributes
    ensures ItemLines(it, keys) == [it.secret] + CaptionLines(it.caption) + AttributeLines(keys, it.attributes)
                                   + TimeLines("created", it.created) + TimeLines("modified", it.modified)
  {
  }

  /** The text is the printed item. */
  ghost predicate Prints(raw: string, it: Item) {
    exists keys :: IsSortedKeys(keys, it.attributes) && raw == Printed(it, keys)
  }

  /** Appends line by line, as the program's builder does. */
  method ToSecret(it: Item) returns (raw: string)
    ensures Prints(raw, it)
  {
    var keys := SortedKeys(it.attributes);
    ghost var first := [it.secret];
    ghost var second := first + CaptionLines(it.caption);
    ghost var third := second + AttributeLines(keys, it.attributes);
    raw := it.secret + "\n";
    raw := AppendCaption(raw, first, it.caption);
    raw := AppendAttributes(raw, second, keys, it.attributes);
    raw := AppendTime(raw, third, "created", it.created);
    raw := AppendTime(raw, third + TimeLines("created", it.created), "modified", it.modified);
    SecretThenFields(it, keys);
  }

  lemma {:induction false} PrintIsUnique(raw: string, other: string, it: Item)
    requires Prints(raw, it) && Prints(other, it)
    ensures raw == other
  {
    var a :| IsSortedKeys(a, it.attributes) && raw == Printed(it, a);
    var b :| IsSortedKeys(b, it.attributes) && other == Printed(it, b);
    SortedKeysUnique(a, b, it.attributes);
  }

  lemma {:induction false} JoinSnoc(lines: seq<string>, line: string)
    requires |lines| >= 1
    ensures Join(lines + [line], '\n') == Join(lines, '\n') + "\n" + line
  {
    if |lines| == 1 {
      assert (lines + [line])[1..] == [line];
    } else {
      assert (lines + [line])[1..] == lines[1..] + [line];
      JoinSnoc(lines[1..], line);
    }
  }

  // ---------- parsing ----------

  function ReadField(it: Item, f: Field): Item {
    if f.key == "label" then it.(caption := f.value)
    else if HasPrefix(f.key, ATTR_PREFIX) then
      it.(attributes := it.attributes[TrimPrefix(f.key, ATTR_PREFIX) := f.value])
    else if f.key == "created" then it.(created := ParseUnix(f.value))
    else if f.key == "modified" then it.(modified := ParseUnix(f.value))
    else it
  }

  function ReadFields(it: Item, fields: seq<Field>): Item
    decreases |fields|
  {
    if fields == [] then it else ReadFields(ReadField(it, fields[0]), fields[1..])
  }

  function ItemFromSecret(id: string, raw: string): Item {
    ReadFields(Item(id, "", map[], Password(raw), ZeroTime, ZeroTime), Fields(raw))
  }

  /** The loop over the fields, filling the item as it goes. */
  method ParseItem(id: string, raw: string) returns (it: Item)
    ensures it == ItemFromSecret(id, raw)
  {
    it := Item(id, "", map[], Password(raw), ZeroTime, ZeroTime);
    var fields := Fields(raw);
    for n := 0 to |fields|
      invariant ReadFields(it, fields[n..]) == ItemFromSecret(id, raw)
    {
      var f := fields[n];
      assert fields[n..][0] == f && fields[n..][1..] == fields[n + 1..];
      if f.key == "label" {
        it := it.(caption := f.value);
      } else if HasPrefix(f.key, ATTR_PREFIX) {
        it := it.(attributes := it.attributes[TrimPrefix(f.key, ATTR_PREFIX) := f.value]);
      } else if f.key == "created" {
        it := it.(created := ParseUnix(f.value));
      } else if f.key == "modified" {
        it := it.(modified := ParseUnix(f.value));
      }
    }
    assert fields[|fields|..] == [];
  }

  // ---------- the round trip ----------

  predicate OneLine(s: string) {
    '\n' !in s
  }

  predicate PlainKey(k: string) {
    ':' !in k && forall c :: c in k ==> !IsSpace(c)
  }

  predicate Printable(t: Time) {
    t.Unix? ==> -MAX_INT64 - 1 <= t.seconds <= MAX_INT64 && t.seconds != ZERO_SECOND
  }

  /** Items the line format can carry. */
  predicate Carried(it: Item) {
    && OneLine(it.secret) && !HasSuffix(it.secret, "\r")
    && OneLine(it.caption) && Trimmed(it.caption)
    && (forall k :: k in it.attributes ==> PlainKey(k) && OneLine(it.attributes[k]) && Trimmed(it.attributes[k]))
    && Printable(it.created) && Printable(it.modified)
  }

  lemma TrimmedLine(key: string, value: string)
    requires Trimmed(value) && key != ""
    ensures !HasSuffix(FieldLine(key, value), "\r")
  {
    var line := FieldLine(key, value);
    assert line[|line| - 1] == if value == "" then ' ' else value[|value| - 1];
    assert IsSpace('\r');
    assert line[|line| - 1..][0] != "\r"[0];
  }

  function AttributeFields(keys: seq<string>, m: map<string, string>): seq<Field>
    requires forall k :: k in keys ==> k in m
  {
    seq(|keys|, i requires 0 <= i < |keys| => Field(ATTR_PREFIX + keys[i], m[keys[i]]))
  }

  function TimeFields(key: string, t: Time): seq<Field> {
    match t
    case ZeroTime => []
    case Unix(n) => [Field(key, PrintInt(n))]
  }

  function ItemFields(it: Item, keys: seq<string>): seq<Field>
    requires forall k :: k in keys ==> k in it.attributes
  {
    CaptionFields(it.caption)
    + AttributeFields(keys, it.attributes)
    + TimeFields("created", it.created)
    + TimeFields("modified", it.modified)
  }

  lemma {:induction false} FieldsConcat(a: seq<string>, b: seq<string>)
    ensures FieldsOf(a + b) == FieldsOf(a) + FieldsOf(b)
  {
    if a == [] {
      assert a + b == b;
    } else {
      assert (a + b)[1..] == a[1..] + b;
      FieldsConcat(a[1..], b);
    }
  }

  lemma OneField(key: string, value: string)
    requires key != "" && PlainKey(key) && Trimmed(value)
    ensures FieldsOf([FieldLine(key, value)]) == [Field(key, value)]
  {
    PrintedField(key, value);
    FieldAlone([FieldLine(key, value)], Field(key, value));
  }

  lemma FieldAlone(lines: seq<string>, f: Field)
    requires |lines| == 1 && SplitField(lines[0]) == Some(f)
    ensures FieldsOf(lines) == [f]
  {
    assert lines[1..] == [];
  }

  lemma PrefixedKey(k: string)
    requires PlainKey(k)
    ensures PlainKey(ATTR_PREFIX + k)
  {
  }

  lemma AttributeCons(keys: seq<string>, m: map<string, string>)
    requires keys != [] && forall k :: k in keys ==> k in m
    ensures keys[0] in m && forall k :: k in keys[1..] ==> k in m
    ensures AttributeLines(keys, m) == [FieldLine(ATTR_PREFIX + keys[0], m[keys[0]])] + AttributeLines(keys[1..], m)
    ensures AttributeFields(keys, m) == [Field(ATTR_PREFIX + keys[0], m[keys[0]])] + AttributeFields(keys[1..], m)
  {
    assert keys[0] in keys;
  }

  lemma {:induction false} AttributesRead(keys: seq<string>, m: map<string, string>)
    requires forall k :: k in keys ==> k in m && PlainKey(k) && Trimmed(m[k])
    ensures FieldsOf(AttributeLines(keys, m)) == AttributeFields(keys, m)
    decreases |keys|
  {
    if keys != [] {
      AttributeCons(keys, m);
      AttributesRead(keys[1..], m);
      assert keys[0] in keys;
      PrefixedKey(keys[0]);
      OneField(ATTR_PREFIX + keys[0], m[keys[0]]);
      FieldsConcat([FieldLine(ATTR_PREFIX + keys[0], m[keys[0]])], AttributeLines(keys[1..], m));
    }
  }

  lemma TimeRead(key: string, t: Time)
    requires key != "" && PlainKey(key)
    ensures FieldsOf(TimeLines(key, t)) == TimeFields(key, t)
  {
    if t.Unix? {
      PrintedIntIsPlain(t.seconds);
      OneField(key, PrintInt(t.seconds));
    }
  }

  lemma TimeIsLine(key: string, t: Time)
    requires key != "" && OneLine(key)
    ensures forall line :: line in TimeLines(key, t) ==> OneLine(line) && !HasSuffix(line, "\r")
  {
    if t.Unix? {
      PrintedIntIsPlain(t.seconds);
      TrimmedLine(key, PrintInt(t.seconds));
    }
  }

  lemma FieldsConcat4(a: seq<string>, b: seq<string>, c: seq<string>, d: seq<string>)
    ensures FieldsOf(a + b + c + d) == FieldsOf(a) + FieldsOf(b) + FieldsOf(c) + FieldsOf(d)
  {
    FieldsConcat(a + b + c, d);
    FieldsConcat(a + b, c);
    FieldsConcat(a, b);
  }

  function CaptionFields(caption: string): seq<Field> {
    if caption == "" then [] else [Field("label", caption)]
  }

  lemma CaptionRead(caption: string)
    requires Trimmed(caption)
    ensures FieldsOf(CaptionLines(caption)) == CaptionFields(caption)
  {
    if caption != "" {
      OneField("label", caption);
    }
  }

  lemma PartsRead(a: seq<string>, b: seq<string>, c: seq<string>, d: seq<string>,
                  fa: seq<Field>, fb: seq<Field>, fc: seq<Field>, fd: seq<Field>)
    requires FieldsOf(a) == fa && FieldsOf(b) == fb && FieldsOf(c) == fc && FieldsOf(d) == fd
    ensures FieldsOf(a + b + c + d) == fa + fb + fc + fd
  {
    FieldsConcat4(a, b, c, d);
  }

  /** The field lines of a stored item read as its fields. */
  lemma ItemFieldsRead(it: Item, keys: seq<string>)
    requires Carried(it) && forall k :: k in keys ==> k in it.attributes
    ensures FieldsOf(FieldLines(it, keys)) == ItemFields(it, keys)
  {
    AttributesRead(keys, it.attributes);
    TimeRead("created", it.created);
    TimeRead("modified", it.modified);
    CaptionRead(it.caption);
    PartsRead(CaptionLines(it.caption), AttributeLines(keys, it.attributes), TimeLines("created", it.created), TimeLines("modified", it.modified),
              CaptionFields(it.caption), AttributeFields(keys, it.attributes), TimeFields("created", it.created), TimeFields("modified", it.modified));
  }

  lemma ItemLinesAreLines(it: Item, keys: seq<string>)
    requires Carried(it) && forall k :: k in keys ==> k in it.attributes
    ensures forall line :: line in ItemLines(it, keys) ==> OneLine(line) && !HasSuffix(line, "\r")
  {
    TimeIsLine("created", it.created);
    TimeIsLine("modified", it.modified);
    TrimmedLine("label", it.caption);
    forall line | line in AttributeLines(keys, it.attributes) ensures OneLine(line) && !HasSuffix(line, "\r") {
      var i :| 0 <= i < |keys| && line == FieldLine(ATTR_PREFIX + keys[i], it.attributes[keys[i]]);
      assert keys[i] in keys;
      TrimmedLine(ATTR_PREFIX + keys[i], it.attributes[keys[i]]);
      forall ch | ch in line ensures ch != '\n' {
        assert ch in ATTR_PREFIX || ch in keys[i] || ch in ": " || ch in it.attributes[keys[i]];
        assert IsSpace('\n');
      }
    }
  }

  lemma {:induction false} ReadConcat(it: Item, a: seq<Field>, b: seq<Field>)
    ensures ReadFields(it, a + b) == ReadFields(ReadFields(it, a), b)
    decreases |a|
  {
    if a == [] {
      assert a + b == b;
    } else {
      assert (a + b)[1..] == a[1..] + b;
      ReadConcat(ReadField(it, a[0]), a[1..], b);
    }
  }

  lemma {:induction false} ReadAttributes(it: Item, keys: seq<string>, m: map<string, string>)
    requires forall k :: k in keys ==> k in m
    ensures var r := ReadFields(it, AttributeFields(keys, m));
            && r == it.(attributes := r.attributes)
            && (forall k :: k in r.attributes <==> k in it.attributes || k in keys)
            && (forall k :: k in r.attributes ==> r.attributes[k] == if k in keys then m[k] else it.attributes[k])
    decreases |keys|
  {
    if keys != [] {
      var fields := AttributeFields(keys, m);
      var key := ATTR_PREFIX + keys[0];
      assert fields[0] == Field(key, m[keys[0]]) && fields[1..] == AttributeFields(keys[1..], m);
      assert key[0] == 'a' && key[..|ATTR_PREFIX|] == ATTR_PREFIX && key[|ATTR_PREFIX|..] == keys[0];
      var next := ReadField(it, fields[0]);
      assert next == it.(attributes := it.attributes[keys[0] := m[keys[0]]]);
      ReadAttributes(next, keys[1..], m);
    }
  }

  lemma ReadTime(it: Item, t: Time)
    requires Printable(t)
    ensures t.Unix? ==> ReadFields(it, TimeFields("created", t)) == it.(created := t)
    ensures t.Unix? ==> ReadFields(it, TimeFields("modified", t)) == it.(modified := t)
    ensures t.ZeroTime? ==> ReadFields(it, TimeFields("created", t)) == it && ReadFields(it, TimeFields("modified", t)) == it
  {
    if t.Unix? {
      ParsePrintedInt(t.seconds);
      assert TimeFields("created", t)[1..] == [] && TimeFields("modified", t)[1..] == [];
      assert "created"[0] == 'c' && "modified"[0] == 'm' && ATTR_PREFIX[0] == 'a';
    }
  }

  /** Reading an item's fields into an empty item gives the item. */
  lemma FieldsGiveItem(it: Item, keys: seq<string>)
    requires Carried(it) && IsSortedKeys(keys, it.attributes)
    ensures ReadFields(Item(it.id, "", map[], it.secret, ZeroTime, ZeroTime), ItemFields(it, keys)) == it
  {
    var empty := Item(it.id, "", map[], it.secret, ZeroTime, ZeroTime);
    var a := CaptionFields(it.caption);
    var b := AttributeFields(keys, it.attributes);
    var c, d := TimeFields("created", it.created), TimeFields("modified", it.modified);
    ReadConcat(empty, a + b + c, d);
    ReadConcat(empty, a + b, c);
    ReadConcat(empty, a, b);
    if it.caption != "" {
      assert a[1..] == [];
    }
    var labelled := ReadFields(empty, a);
    assert labelled == empty.(caption := it.caption);
    ReadAttributes(labelled, keys, it.attributes);
    var filled := ReadFields(labelled, b);
    assert filled.attributes == it.attributes;
    ReadTime(filled, it.created);
    ReadTime(filled.(created := it.created), it.modified);
  }

  lemma PrintedSecret(secret: string, lines: seq<string>)
    requires OneLine(secret) && !HasSuffix(secret, "\r")
    ensures Password(Join([secret] + lines, '\n') + "\n") == secret
  {
    var rest := if lines == [] then "" else Join(lines, '\n') + "\n";
    assert ([secret] + lines)[1..] == lines;
    assert Join([secret] + lines, '\n') + "\n" == secret + ['\n'] + rest;
    CutAt(secret, '\n', rest);
  }

  lemma PrintedItemFields(it: Item, keys: seq<string>)
    requires Carried(it) && forall k :: k in keys ==> k in it.attributes
    ensures Fields(Printed(it, keys)) == ItemFields(it, keys)
  {
    var lines := ItemLines(it, keys);
    ItemLinesAreLines(it, keys);
    forall i | 0 <= i < |lines| ensures '\n' !in lines[i] && !HasSuffix(lines[i], "\r") { assert lines[i] in lines; }
    PrintedLines(lines);
    ItemFieldsRead(it, keys);
    assert lines[1..] == FieldLines(it, keys);
    if |lines| < 2 {
      assert lines[1..] == [];
    }
  }

  /** Parsing a printed item gives the item back, for any number of attributes. */
  lemma ItemRoundTrip(it: Item, keys: seq<string>)
    requires Carried(it) && IsSortedKeys(keys, it.attributes)
    ensures ItemFromSecret(it.id, Printed(it, keys)) == it
  {
    PrintedSecret(it.secret, FieldLines(it, keys));
    PrintedItemFields(it, keys);
    FieldsGiveItem(it, keys);
  }

  /** Whatever the text, what is read has the name asked for and times that print. */
  lemma {:induction false} ReadKeeps(it: Item, fields: seq<Field>)
    requires Printable(it.created) && Printable(it.modified)
    ensures var r := ReadFields(it, fields); r.id == it.id && Printable(r.created) && Printable(r.modified)
    decreases |fields|
  {
    if fields != [] {
      ReadKeeps(ReadField(it, fields[0]), fields[1..]);
    }
  }

  lemma ItemReads(id: string, raw: string)
    ensures var r := ItemFromSecret(id, raw); r.id == id && Printable(r.created) && Printable(r.modified)
  {
    ReadKeeps(Item(id, "", map[], Password(raw), ZeroTime, ZeroTime), Fields(raw));
  }

  // ---------- matching ----------

  /** A missing attribute reads as the empty string. */
  predicate Matches(it: Item, query: map<string, string>) {
    forall k :: k in query ==> (if k in it.attributes then it.attributes[k] else "") == query[k]
  }
}
