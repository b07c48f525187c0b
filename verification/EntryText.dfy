/** The text of an entry as it is seen in a file: what a line reads as, what a stored item looks like,
  * and which numbers are refused.
  */
module EntryText {
  import opened Wrappers
  import opened Ordering
  import opened Strings
  import opened SecretFormat
  import opened Items

  // ---------- passwords ----------

  /** The password is the first line, without a carriage return at its end; the body is the rest. */
  lemma FirstLineIsPassword(first: string, rest: string)
    requires '\n' !in first
    ensures Password(first + ['\n'] + rest) == TrimSuffix(first, "\r") && Password(first) == TrimSuffix(first, "\r")
    ensures Body(first + ['\n'] + rest) == rest && Body(first) == ""
  {
    CutAt(first, '\n', rest);
  }

  // ---------- fields ----------

  /** A line is no field if it has no colon, if blanks are inside its key or nothing is there, or if
    * two slashes follow the colon as in the address of a site.
    */
  lemma NoField(line: string, key: string, after: string)
    requires ':' !in key
    ensures line == key ==> SplitField(line) == None
    ensures line == key + [':'] + after && TrimSpace(key) == "" ==> SplitField(line) == None
    ensures line == key + [':'] + after && (' ' in TrimSpace(key) || '\t' in TrimSpace(key)) ==> SplitField(line) == None
    ensures line == key + [':'] + after && HasPrefix(after, "//") ==> SplitField(line) == None
  {
    CutAt(key, ':', after);
  }

  /** Any other line is the field of its key, and of what follows the first colon, without outer blanks. */
  lemma IsField(line: string, key: string, after: string)
    requires ':' !in key && line == key + [':'] + after
    requires TrimSpace(key) != "" && ' ' !in TrimSpace(key) && '\t' !in TrimSpace(key) && !HasPrefix(after, "//")
    ensures SplitField(line) == Some(Field(TrimSpace(key), TrimSpace(after)))
  {
    CutAt(key, ':', after);
  }

  // ---------- numbers ----------

  /** A number is printed by its decimal digits, the last one first found by division. */
  lemma DecimalDigits(n: nat, d: nat)
    requires d < 10
    ensures Digit(d) == '0' + d as char
    ensures n > 0 ==> PrintNat(10 * n + d) == PrintNat(n) + [Digit(d)]
    ensures PrintNat(d) == [Digit(d)]
  {
    DigitIs(d);
  }

  lemma DigitIs(d: nat)
    requires d < 10
    ensures Digit(d) == '0' + d as char
  {
  }

  lemma SignedNumber(n: nat)
    ensures PrintInt(n) == PrintNat(n)
    ensures n > 0 ==> PrintInt(-(n as int)) == "-" + PrintNat(n)
  {
  }

  /** What is no number reads as the zero time, and so do one that does not fit 64 bits and the
    * second in which year 1 starts.
    */
  lemma NoNumberIsZeroTime(s: string)
    ensures ParseInt(s).Some? ==> -0x8000_0000_0000_0000 <= ParseInt(s).value < 0x8000_0000_0000_0000
    ensures ParseInt(s) == None ==> ParseUnix(s) == ZeroTime
    ensures s == "" || s == "-" || s == "+" ==> ParseInt(s) == None
    ensures ParseInt(s) == Some(-62135596800) ==> ParseUnix(s) == ZeroTime
    ensures ParseInt(s).Some? && ParseInt(s).value != -62135596800 ==> ParseUnix(s) == Unix(ParseInt(s).value)
  {
    assert "-"[1..] == "" && "+"[1..] == "";
  }

  lemma {:induction false} OnlyDigitsParse(s: string)
    ensures ParseDigits(s).Some? <==> forall i :: 0 <= i < |s| ==> '0' <= s[i] <= '9'
  {
    if s != "" {
      OnlyDigitsParse(s[..|s| - 1]);
    }
  }

  // ---------- the text of an item ----------

  lemma OneAttributeLine(m: map<string, string>, keys: seq<string>, k: string, v: string, line: string)
    requires m == map[k := v] && keys == [k] && line == "attr." + k + ": " + v
    ensures AttributeLines(keys, m) == [line]
  {
    assert keys[0] == k && |AttributeLines(keys, m)| == 1;
    assert AttributeLines(keys, m)[0] == FieldLine(ATTR_PREFIX + keys[0], m[keys[0]]);
  }

  /** The attributes come a line each, by key from the least to the greatest. */
  lemma AttributesInOrder(it: Item, keys: seq<string>, i: nat, j: nat)
    requires IsSortedKeys(keys, it.attributes) && i < j < |keys|
    ensures |AttributeLines(keys, it.attributes)| == |it.attributes|
    ensures AttributeLines(keys, it.attributes)[i] == "attr." + keys[i] + ": " + it.attributes[keys[i]]
    ensures StringLess(keys[i], keys[j])
  {
    StringOrder();
    forall a, b | 0 <= a < b < |keys| ensures keys[a] != keys[b] {
      assert StringLess(keys[a], keys[b]);
    }
    DistinctCount(keys, it.attributes.Keys);
  }

  lemma OneKeyIsSorted(m: map<string, string>, keys: seq<string>, k: string, v: string)
    requires m == map[k := v] && keys == [k]
    ensures IsSortedKeys(keys, m)
  {
  }

  /** An item's file: the secret, then the label, an attribute a line, and the times in seconds. */
  lemma ItemText(it: Item, keys: seq<string>, k: string, v: string, name: string, attribute: string, born: string, changed: string)
    requires it.attributes == map[k := v] && keys == [k] && it.caption != "" && it.created.Unix? && it.modified.Unix?
    requires name == "label: " + it.caption && attribute == "attr." + k + ": " + v
    requires born == "created: " + PrintInt(it.created.seconds) && changed == "modified: " + PrintInt(it.modified.seconds)
    ensures IsSortedKeys(keys, it.attributes)
    ensures Printed(it, keys) == it.secret + "\n" + name + "\n" + attribute + "\n" + born + "\n" + changed + "\n"
  {
    OneKeyIsSorted(it.attributes, keys, k, v);
    OneAttributeLine(it.attributes, keys, k, v, attribute);
    SecretThenFields(it, keys);
    assert "label" + ": " == "label: " && "created" + ": " == "created: " && "modified" + ": " == "modified: ";
    assert CaptionLines(it.caption) == [name];
    assert TimeLines("created", it.created) == [born] && TimeLines("modified", it.modified) == [changed];
    FiveLines(it.secret, name, attribute, born, changed, ItemLines(it, keys));
  }

  lemma FiveLines(a: string, b: string, c: string, d: string, e: string, lines: seq<string>)
    requires lines == [a, b, c, d, e]
    ensures Join(lines, '\n') == a + "\n" + b + "\n" + c + "\n" + d + "\n" + e
  {
    JoinSnoc([a], b);
    JoinSnoc([a, b], c);
    JoinSnoc([a, b, c], d);
    JoinSnoc([a, b, c, d], e);
    assert [a] + [b] == [a, b] && [a, b] + [c] == [a, b, c] && [a, b, c] + [d] == [a, b, c, d] && [a, b, c, d] + [e] == lines;
  }

  /** Without a label, attributes and times there is the secret alone. */
  lemma BareItemText(it: Item, keys: seq<string>)
    requires it.attributes == map[] && keys == [] && it.caption == "" && it.created.ZeroTime? && it.modified.ZeroTime?
    ensures Printed(it, keys) == it.secret + "\n"
  {
    assert ItemLines(it, keys) == [it.secret];
  }

  // ---------- reading any text ----------

  /** What each field of a text sets; the others it leaves alone. */
  lemma FieldSets(it: Item, f: Field)
    ensures f.key == "label" ==> ReadField(it, f) == it.(caption := f.value)
    ensures f.key == "created" ==> ReadField(it, f) == it.(created := ParseUnix(f.value))
    ensures f.key == "modified" ==> ReadField(it, f) == it.(modified := ParseUnix(f.value))
    ensures HasPrefix(f.key, "attr.") ==> ReadField(it, f) == it.(attributes := it.attributes[f.key[5..] := f.value])
    ensures f.key !in {"label", "created", "modified"} && !HasPrefix(f.key, "attr.") ==> ReadField(it, f) == it
  {
    assert "label"[0] == 'l' && "created"[0] == 'c' && "modified"[0] == 'm' && "attr."[0] == 'a';
  }

  /** No field of a text sets the secret or the ID. */
  lemma {:induction false} SecretIsKept(it: Item, fields: seq<Field>)
    ensures ReadFields(it, fields).secret == it.secret && ReadFields(it, fields).id == it.id
    decreases |fields|
  {
    if fields != [] {
      SecretIsKept(ReadField(it, fields[0]), fields[1..]);
    }
  }

  /** So the ID is the name that was read, and the secret the password of its text. */
  lemma ReadItemHasItsSecret(id: string, raw: string)
    ensures ItemFromSecret(id, raw).id == id && ItemFromSecret(id, raw).secret == Password(raw)
  {
    SecretIsKept(Item(id, "", map[], Password(raw), ZeroTime, ZeroTime), Fields(raw));
  }

  /** Where a field is given twice, the last one counts. */
  lemma LastFieldWins(it: Item, before: seq<Field>, f: Field)
    ensures var r := ReadFields(it, before + [f]);
      && (f.key == "label" ==> r.caption == f.value)
      && (f.key == "created" ==> r.created == ParseUnix(f.value))
      && (f.key == "modified" ==> r.modified == ParseUnix(f.value))
      && (HasPrefix(f.key, "attr.") ==> f.key[5..] in r.attributes && r.attributes[f.key[5..]] == f.value)
  {
    ReadConcat(it, before, [f]);
    var was := ReadFields(it, before);
    FieldSets(was, f);
    assert ReadFields(was, [f]) == ReadField(was, f);
  }

  // ---------- matching ----------

  /** An item matches when every pair asked for is there, or is of empty value and not there. */
  lemma MatchMeans(it: Item, query: map<string, string>)
    ensures Matches(it, query) <==>
      forall k :: k in query ==> (k in it.attributes && it.attributes[k] == query[k]) || (k !in it.attributes && query[k] == "")
  {
  }
}
