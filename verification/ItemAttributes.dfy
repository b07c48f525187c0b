/** Which items keep their attributes when they are printed and read back.  The secret is printed
  * as it is, so one of several lines is read for fields like the rest of the text.
  */
module ItemAttributes {
  import opened Wrappers
  import opened Strings
  import opened SecretFormat
  import opened Items

  // ---------- attributes alone ----------

  /** What reading fields makes of a map of attributes. */
  function AttributesFrom(m: map<string, string>, fields: seq<Field>): map<string, string>
    decreases |fields|
  {
    if fields == [] then m
    else AttributesFrom(if IsAttribute(fields[0]) then m[AttributeName(fields[0]) := fields[0].value] else m, fields[1..])
  }

  predicate IsAttribute(f: Field) {
    f.key != "label" && HasPrefix(f.key, ATTR_PREFIX)
  }

  function AttributeName(f: Field): string {
    TrimPrefix(f.key, ATTR_PREFIX)
  }

  lemma {:induction false} ReadIsAttributesFrom(it: Item, fields: seq<Field>)
    ensures ReadFields(it, fields).attributes == AttributesFrom(it.attributes, fields)
    decreases |fields|
  {
    if fields != [] {
      ReadIsAttributesFrom(ReadField(it, fields[0]), fields[1..]);
    }
  }

  lemma {:induction false} AttributesConcat(m: map<string, string>, a: seq<Field>, b: seq<Field>)
    ensures AttributesFrom(m, a + b) == AttributesFrom(AttributesFrom(m, a), b)
    decreases |a|
  {
    if a == [] {
      assert a + b == b;
    } else {
      assert (a + b)[0] == a[0] && (a + b)[1..] == a[1..] + b;
      AttributesConcat(if IsAttribute(a[0]) then m[AttributeName(a[0]) := a[0].value] else m, a[1..], b);
    }
  }

  lemma {:induction false} NoAttributes(m: map<string, string>, fields: seq<Field>)
    requires forall i :: 0 <= i < |fields| ==> !IsAttribute(fields[i])
    ensures AttributesFrom(m, fields) == m
    decreases |fields|
  {
    if fields != [] {
      NoAttributes(m, fields[1..]);
    }
  }

  // ---------- fields of a text, line after line ----------

  /** The lines of whole lines of text: none for an empty first line alone. */
  lemma LinesOfText(t: string)
    ensures Lines(t + "\n") == if t == "" then [] else WithoutReturns(Split(t, '\n'))
  {
    WithoutFinalNewline(t);
  }

  lemma ReturnsConcat(a: seq<string>, b: seq<string>)
    ensures WithoutReturns(a + b) == WithoutReturns(a) + WithoutReturns(b)
  {
  }

  /** The fields are those of the lines after the first. */
  lemma FieldsOfText(t: string)
    ensures |WithoutReturns(Split(t, '\n'))| >= 1
    ensures Fields(t + "\n") == FieldsOf(WithoutReturns(Split(t, '\n'))[1..])
  {
    LinesOfText(t);
    var lines := WithoutReturns(Split(t, '\n'));
    if |lines| == 1 {
      assert lines[1..] == [];
    }
    if t == "" {
      assert |Split(t, '\n')| == 1;
    }
  }

  lemma FieldsTail(a: seq<string>, b: seq<string>)
    requires a != []
    ensures FieldsOf((a + b)[1..]) == FieldsOf(a[1..]) + FieldsOf(b)
  {
    assert (a + b)[1..] == a[1..] + b;
    FieldsConcat(a[1..], b);
  }

  lemma SplitSnoc(t: string, line: string, one: seq<string>)
    requires '\n' !in line && one == [line]
    ensures WithoutReturns(Split(t + "\n" + line, '\n')) == WithoutReturns(Split(t, '\n')) + WithoutReturns(one)
  {
    SplitConcat(t, '\n', line);
    SplitPiece(line, '\n', "");
    ReturnsConcat(Split(t, '\n'), one);
  }

  /** One more line adds the field on it, whatever came before. */
  lemma FieldsSnoc(t: string, line: string, one: seq<string>)
    requires '\n' !in line && one == [line]
    ensures Fields(t + "\n" + line + "\n") == Fields(t + "\n") + FieldsOf(WithoutReturns(one))
  {
    FieldsOfText(t);
    FieldsOfText(t + "\n" + line);
    SplitSnoc(t, line, one);
    FieldsTail(WithoutReturns(Split(t, '\n')), WithoutReturns(one));
  }

  lemma Regroup(a: seq<Field>, b: seq<Field>, c: seq<Field>)
    ensures a + b + c == a + (b + c)
  {
  }

  lemma FieldsOfReturns(a: seq<string>, b: seq<string>)
    ensures FieldsOf(WithoutReturns(a + b)) == FieldsOf(WithoutReturns(a)) + FieldsOf(WithoutReturns(b))
  {
    ReturnsConcat(a, b);
    FieldsConcat(WithoutReturns(a), WithoutReturns(b));
  }

  /** The fields of a text and some lines after it. */
  ghost predicate Adds(first: string, lines: seq<string>) {
    Fields(Join([first] + lines, '\n') + "\n") == Fields(first + "\n") + FieldsOf(WithoutReturns(lines))
  }

  lemma AddsNext(first: string, init: seq<string>, last: string, one: seq<string>)
    requires '\n' !in last && Adds(first, init) && one == [last]
    ensures Adds(first, init + one)
  {
    assert [first] + (init + one) == [first] + init + [last];
    JoinSnoc([first] + init, last);
    FieldsSnoc(Join([first] + init, '\n'), last, one);
    FieldsOfReturns(init, one);
    Regroup(Fields(first + "\n"), FieldsOf(WithoutReturns(init)), FieldsOf(WithoutReturns(one)));
  }

  lemma NoMoreLines(first: string, lines: seq<string>)
    requires lines == []
    ensures Adds(first, lines)
  {
    assert [first] + lines == [first] && WithoutReturns(lines) == [];
  }

  /** What holds of no lines, and with each line of one more, holds of all. */
  lemma {:induction false} LineAfterLine(p: seq<string> -> bool, lines: seq<string>)
    requires p([])
    requires forall init, last :: p(init) && last in lines ==> p(init + [last])
    ensures p(lines)
  {
    for n := 0 to |lines|
      invariant p(lines[..n])
    {
      assert lines[..n + 1] == lines[..n] + [lines[n]];
    }
    assert lines[..|lines|] == lines;
  }

  /** So do more lines. */
  lemma FieldsOfLines(first: string, lines: seq<string>)
    requires forall line :: line in lines ==> '\n' !in line
    ensures Adds(first, lines)
  {
    NoMoreLines(first, []);
    forall init, last | Adds(first, init) && last in lines ensures Adds(first, init + [last]) {
      AddsNext(first, init, last, [last]);
    }
    LineAfterLine(more => Adds(first, more), lines);
  }

  lemma {:induction false} JoinGroup(a: seq<string>, b: seq<string>)
    requires a != []
    ensures Join(a + b, '\n') == Join([Join(a, '\n')] + b, '\n')
    decreases |a|
  {
    var whole := [Join(a, '\n')] + b;
    assert whole[1..] == b;
    if |a| == 1 {
      assert a + b == whole;
    } else {
      JoinGroup(a[1..], b);
      assert (a + b)[1..] == a[1..] + b;
      var rest := [Join(a[1..], '\n')] + b;
      assert rest[1..] == b;
      JoinFirst(a[0], Join(a[1..], '\n'), b, rest, whole);
    }
  }

  lemma JoinFirst(x: string, y: string, b: seq<string>, rest: seq<string>, whole: seq<string>)
    requires rest == [y] + b && whole == [x + ['\n'] + y] + b
    ensures x + ['\n'] + Join(rest, '\n') == Join(whole, '\n')
  {
    assert rest[1..] == b && whole[1..] == b;
    if b == [] {
      assert |rest| == |whole| == 1;
    }
  }

  // ---------- which texts keep the attributes ----------

  /** What is printed before the times. */
  function HeadLines(caption: string, m: map<string, string>, keys: seq<string>): seq<string>
    requires forall k :: k in keys ==> k in m
  {
    CaptionLines(caption) + AttributeLines(keys, m)
  }

  function Times(it: Item): seq<string> {
    TimeLines("created", it.created) + TimeLines("modified", it.modified)
  }

  lemma PrintedInParts(it: Item, keys: seq<string>)
    requires forall k :: k in keys ==> k in it.attributes
    ensures ItemLines(it, keys) == [it.secret] + HeadLines(it.caption, it.attributes, keys) + Times(it)
  {
    SecretThenFields(it, keys);
  }

  lemma NoReturnsIn(lines: seq<string>)
    requires forall line :: line in lines ==> !HasSuffix(line, "\r")
    ensures WithoutReturns(lines) == lines
  {
    forall i | 0 <= i < |lines| ensures !HasSuffix(lines[i], "\r") {
      assert lines[i] in lines;
    }
    NoReturns(lines);
  }

  lemma TimesAreLines(it: Item)
    ensures forall line :: line in Times(it) ==> '\n' !in line && !HasSuffix(line, "\r")
  {
    TimeIsLine("created", it.created);
    TimeIsLine("modified", it.modified);
  }

  lemma TimesReturn(it: Item)
    ensures forall line :: line in Times(it) ==> '\n' !in line
    ensures FieldsOf(WithoutReturns(Times(it))) == TimeFields("created", it.created) + TimeFields("modified", it.modified)
  {
    TimesAreLines(it);
    NoReturnsIn(Times(it));
    FieldsConcat(TimeLines("created", it.created), TimeLines("modified", it.modified));
    TimeRead("created", it.created);
    TimeRead("modified", it.modified);
  }

  lemma TimesAreNoAttributes(it: Item, m: map<string, string>)
    ensures AttributesFrom(m, FieldsOf(WithoutReturns(Times(it)))) == m
  {
    TimesReturn(it);
    assert "created"[0] == 'c' && "modified"[0] == 'm' && ATTR_PREFIX[0] == 'a';
    NoAttributes(m, TimeFields("created", it.created) + TimeFields("modified", it.modified));
  }

  /** The attributes read back depend on the secret, the label and the attributes alone. */
  lemma PrintedAttributes(it: Item, keys: seq<string>)
    requires forall k :: k in keys ==> k in it.attributes
    ensures ItemFromSecret(it.id, Printed(it, keys)).attributes ==
            AttributesFrom(map[], Fields(Join([it.secret] + HeadLines(it.caption, it.attributes, keys), '\n') + "\n"))
  {
    var head := [it.secret] + HeadLines(it.caption, it.attributes, keys);
    PrintedInParts(it, keys);
    JoinGroup(head, Times(it));
    TimesReturn(it);
    FieldsOfLines(Join(head, '\n'), Times(it));
    ReadIsAttributesFrom(Item(it.id, "", map[], Password(Printed(it, keys)), ZeroTime, ZeroTime), Fields(Printed(it, keys)));
    AttributesConcat(map[], Fields(Join(head, '\n') + "\n"), FieldsOf(WithoutReturns(Times(it))));
    TimesAreNoAttributes(it, AttributesFrom(map[], Fields(Join(head, '\n') + "\n")));
  }

  /** Printed and read back, the item has the attributes it had. */
  ghost predicate AttributesSurvive(it: Item) {
    forall keys :: IsSortedKeys(keys, it.attributes) ==> ItemFromSecret(it.id, Printed(it, keys)).attributes == it.attributes
  }

  /** So neither the name nor the times of an item matter. */
  lemma OnlyTextMatters(it: Item, other: Item)
    requires it.secret == other.secret && it.caption == other.caption && it.attributes == other.attributes
    ensures AttributesSurvive(it) <==> AttributesSurvive(other)
  {
    forall keys | IsSortedKeys(keys, it.attributes)
      ensures ItemFromSecret(it.id, Printed(it, keys)).attributes == ItemFromSecret(other.id, Printed(other, keys)).attributes
    {
      PrintedAttributes(it, keys);
      PrintedAttributes(other, keys);
    }
  }

  // ---------- exactly ----------

  /** The attributes that the later lines of a secret are read as. */
  function Planted(secret: string): map<string, string> {
    AttributesFrom(map[], Fields(secret + "\n"))
  }

  predicate PlainAttributes(m: map<string, string>) {
    forall k :: k in m ==> PlainKey(k) && OneLine(m[k]) && Trimmed(m[k])
  }

  lemma FieldOfCut(line: string, key: string, after: string, value: string)
    requires Cut(line, ':') == (key, Some(after)) && TrimSpace(key) == key && key != "" && !HasBlank(key)
    requires !HasPrefix(after, "//") && TrimSpace(after) == value
    ensures SplitField(line) == Some(Field(key, value))
  {
  }

  lemma SpaceIsNoSlash(rest: string)
    ensures !HasPrefix(" " + rest, "//")
  {
    assert (" " + rest)[0] == ' ';
  }

  lemma KeyedLine(line: string, key: string, after: string, rest: string)
    requires key != "" && PlainKey(key) && after == " " + rest && line == key + ": " + rest
    ensures SplitField(line) == Some(Field(key, TrimSpace(after)))
  {
    assert line == key + [':'] + after;
    CutAt(key, ':', after);
    SpacelessIsTrimmed(key);
    TrimSpaceOfTrimmed(key);
    SpaceIsNoSlash(rest);
    FieldOfCut(line, key, after, TrimSpace(after));
  }

  lemma KeyedReturn(key: string, rest: string)
    requires rest != ""
    ensures TrimSuffix(key + ": " + rest, "\r") == key + ": " + TrimSuffix(rest, "\r")
  {
    var line := key + ": " + rest;
    assert line[|line| - 1..] == rest[|rest| - 1..];
    assert line[..|line| - 1] == key + ": " + rest[..|rest| - 1];
  }

  lemma OtherField(fields: seq<Field>, f: Field, m: map<string, string>)
    requires fields == [f] && !IsAttribute(f)
    ensures AttributesFrom(m, fields) == m
  {
    assert fields[0] == f && fields[1..] == [];
  }

  lemma KeyedIsNoAttribute(lines: seq<string>, key: string, rest: string, m: map<string, string>)
    requires |lines| == 1 && rest != "" && lines[0] == key + ": " + rest
    requires key != "" && PlainKey(key) && !HasPrefix(key, ATTR_PREFIX)
    ensures AttributesFrom(m, FieldsOf(WithoutReturns(lines))) == m
  {
    var kept := TrimSuffix(rest, "\r");
    var after := " " + kept;
    KeyedReturn(key, rest);
    KeyedLine(WithoutReturns(lines)[0], key, after, kept);
    FieldAlone(WithoutReturns(lines), Field(key, TrimSpace(after)));
    OtherField(FieldsOf(WithoutReturns(lines)), Field(key, TrimSpace(after)), m);
  }

  lemma CaptionIsNoAttribute(caption: string, m: map<string, string>)
    ensures AttributesFrom(m, FieldsOf(WithoutReturns(CaptionLines(caption)))) == m
  {
    if caption != "" {
      assert "label"[0] == 'l' && ATTR_PREFIX[0] == 'a';
      KeyedIsNoAttribute(CaptionLines(caption), "label", caption, m);
    }
  }

  lemma AttributeLinesAreLines(keys: seq<string>, m: map<string, string>)
    requires PlainAttributes(m) && forall k :: k in keys ==> k in m
    ensures forall line :: line in AttributeLines(keys, m) ==> '\n' !in line
    ensures WithoutReturns(AttributeLines(keys, m)) == AttributeLines(keys, m)
  {
    forall i | 0 <= i < |keys| ensures '\n' !in AttributeLines(keys, m)[i] && !HasSuffix(AttributeLines(keys, m)[i], "\r") {
      assert keys[i] in keys;
      AttributeIsLine(keys[i], m[keys[i]]);
    }
    NoReturns(AttributeLines(keys, m));
  }

  lemma AttributeIsLine(k: string, v: string)
    requires PlainKey(k) && OneLine(v) && Trimmed(v)
    ensures '\n' !in FieldLine(ATTR_PREFIX + k, v) && !HasSuffix(FieldLine(ATTR_PREFIX + k, v), "\r")
  {
    TrimmedLine(ATTR_PREFIX + k, v);
    forall ch | ch in FieldLine(ATTR_PREFIX + k, v) ensures ch != '\n' {
      assert ch in ATTR_PREFIX || ch in k || ch in ": " || ch in v;
      assert IsSpace('\n');
    }
  }

  /** What the lines before the times are read as: the attributes over whatever the secret planted. */
  lemma HeadAttributes(secret: string, caption: string, m: map<string, string>, keys: seq<string>)
    requires OneLine(caption) && PlainAttributes(m) && IsSortedKeys(keys, m)
    ensures AttributesFrom(map[], Fields(Join([secret] + HeadLines(caption, m, keys), '\n') + "\n")) == Planted(secret) + m
  {
    var a, b := CaptionLines(caption), AttributeLines(keys, m);
    AttributeLinesAreLines(keys, m);
    CaptionIsLine(caption);
    FieldsOfLines(secret, HeadLines(caption, m, keys));
    FieldsOfReturns(a, b);
    var planted, named, own := Fields(secret + "\n"), FieldsOf(WithoutReturns(a)), FieldsOf(b);
    AttributesRead(keys, m);
    AttributesConcat(map[], planted, named + own);
    AttributesConcat(Planted(secret), named, own);
    CaptionIsNoAttribute(caption, Planted(secret));
    OwnAttributes(Planted(secret), keys, m);
  }

  lemma CaptionIsLine(caption: string)
    requires OneLine(caption)
    ensures forall line :: line in CaptionLines(caption) ==> '\n' !in line
  {
  }

  lemma OwnAttributes(planted: map<string, string>, keys: seq<string>, m: map<string, string>)
    requires IsSortedKeys(keys, m)
    ensures AttributesFrom(planted, AttributeFields(keys, m)) == planted + m
  {
    var it := Item("", "", planted, "", ZeroTime, ZeroTime);
    ReadAttributes(it, keys, m);
    ReadIsAttributesFrom(it, AttributeFields(keys, m));
  }

  /** With a label of one line and plain attributes, the attributes survive if and only if the
    * secret plants none that the item does not have: always, if it is of one line.
    */
  lemma SurviveExactly(it: Item, keys: seq<string>)
    requires OneLine(it.caption) && PlainAttributes(it.attributes) && IsSortedKeys(keys, it.attributes)
    ensures AttributesSurvive(it) <==> Planted(it.secret).Keys <= it.attributes.Keys
    ensures OneLine(it.secret) ==> AttributesSurvive(it)
  {
    forall ks | IsSortedKeys(ks, it.attributes)
      ensures ItemFromSecret(it.id, Printed(it, ks)).attributes == Planted(it.secret) + it.attributes
    {
      PrintedAttributes(it, ks);
      HeadAttributes(it.secret, it.caption, it.attributes, ks);
    }
    if Planted(it.secret).Keys <= it.attributes.Keys {
      assert Planted(it.secret) + it.attributes == it.attributes;
    }
    if OneLine(it.secret) {
      SplitPiece(it.secret, '\n', "");
      FieldsOfText(it.secret);
      assert Planted(it.secret) == map[];
    }
  }

  /** A second line shaped like an attribute plants it. */
  lemma SecondLinePlants(password: string, k: string, v: string, line: string, one: seq<string>)
    requires OneLine(password) && PlainKey(k) && OneLine(v) && Trimmed(v)
    requires line == FieldLine(ATTR_PREFIX + k, v) && one == [line]
    ensures Planted(password + "\n" + line) == map[k := v]
  {
    AttributeIsLine(k, v);
    SplitPiece(password, '\n', "");
    FieldsOfText(password);
    FieldsSnoc(password, line, one);
    NoReturnsIn(one);
    PrefixedKey(k);
    OneField(ATTR_PREFIX + k, v);
    assert Fields(password + "\n") == [];
    assert one == [FieldLine(ATTR_PREFIX + k, v)];
    assert Fields(password + "\n" + line + "\n") == [Field(ATTR_PREFIX + k, v)];
    PlantedIs([Field(ATTR_PREFIX + k, v)], k, v);
  }

  lemma PlantedIs(fields: seq<Field>, k: string, v: string)
    requires fields == [Field(ATTR_PREFIX + k, v)]
    ensures AttributesFrom(map[], fields) == map[k := v]
  {
    var key := ATTR_PREFIX + k;
    assert key[0] == 'a' && "label"[0] == 'l' && key[..|ATTR_PREFIX|] == ATTR_PREFIX && key[|ATTR_PREFIX|..] == k;
    assert fields[0] == Field(key, v) && fields[1..] == [];
  }
}
