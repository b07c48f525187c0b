/** The attribute index of the Secret Service store: blinded attribute pairs to item IDs. */
module AttributeIndex {
  import opened Ordering

  // The keyed hash of an attribute pair. Nothing is assumed of it: two pairs may blind alike.
  type Blind = (string, string) -> string

  type Entries = map<string, seq<string>>

  /** The relation an index stands for. */
  predicate Has(e: Entries, b: string, id: string) {
    b in e && id in e[b]
  }

  /** Every list is sorted, without repetitions, and not empty. */
  ghost predicate WellFormed(e: Entries) {
    forall b :: b in e ==> e[b] != [] && SortedBy(StringLess, e[b])
  }

  /** Some attribute pair blinds to `b`. */
  ghost predicate Blinds(blind: Blind, attributes: map<string, string>, b: string) {
    exists k :: k in attributes && blind(k, attributes[k]) == b
  }

  /** The ID is listed under every pair of a query that asks for something. */
  ghost predicate Hit(e: Entries, blind: Blind, query: map<string, string>, id: string) {
    query != map[] && forall k :: k in query ==> Has(e, blind(k, query[k]), id)
  }

  ghost predicate Added(was: Entries, e: Entries, blind: Blind, id: string, attributes: map<string, string>) {
    && WellFormed(e)
    && forall b, x :: Has(e, b, x) <==> Has(was, b, x) || (x == id && Blinds(blind, attributes, b))
  }

  ghost predicate Removed(was: Entries, e: Entries, id: string) {
    && WellFormed(e)
    && forall b, x :: Has(e, b, x) <==> Has(was, b, x) && x != id
  }

  lemma SameRelationSameKeys(a: Entries, b: Entries)
    requires WellFormed(a)
    requires forall k, x :: Has(a, k, x) ==> Has(b, k, x)
    ensures forall k :: k in a ==> k in b
  {
    forall k | k in a ensures k in b {
      assert Has(a, k, a[k][0]);
    }
  }

  /** A well-formed index is determined by its relation, so no order of insertion shows in it. */
  lemma IndexIsItsRelation(a: Entries, b: Entries)
    requires WellFormed(a) && WellFormed(b)
    requires forall k, x :: Has(a, k, x) <==> Has(b, k, x)
    ensures a == b
  {
    StringOrder();
    SameRelationSameKeys(a, b);
    SameRelationSameKeys(b, a);
    forall k | k in a ensures a[k] == b[k] {
      assert forall x :: x in a[k] <==> Has(a, k, x);
      assert forall x :: x in b[k] <==> Has(b, k, x);
      SortedUnique(StringLess, a[k], b[k]);
    }
  }

  class Index {
    var entries: Entries

    constructor ()
      ensures entries == map[]
    {
      entries := map[];
    }

    /** Lists the ID under each pair of the item. The order the pairs are taken in does not show. */
    method Add(blind: Blind, id: string, attributes: map<string, string>)
      requires WellFormed(entries)
      modifies this
      ensures Added(old(entries), entries, blind, id, attributes)
    {
      StringOrder();
      var todo := attributes.Keys;
      ghost var done: map<string, string> := map[];
      while todo != {}
        invariant todo <= attributes.Keys
        invariant done == map k | k in attributes && k !in todo :: attributes[k]
        invariant Added(old(entries), entries, blind, id, done)
      {
        var k :| k in todo;
        ghost var was := entries;
        Put(blind(k, attributes[k]), id);
        AddedPair(old(entries), was, entries, blind, id, done, k, attributes[k]);
        done := done[k := attributes[k]];
        todo := todo - {k};
      }
      assert done == attributes;
    }

    method Put(b: string, id: string)
      requires WellFormed(entries)
      modifies this
      ensures WellFormed(entries)
      ensures forall c, x :: Has(entries, c, x) <==> Has(old(entries), c, x) || (c == b && x == id)
    {
      StringOrder();
      var ids := if b in entries then entries[b] else [];
      if id !in ids {
        ids := Sort(StringLess, ids + [id]);
        entries := entries[b := ids];
      }
    }

    /** Takes the ID out of all lists, and with it the lists that become empty. */
    method Remove(id: string)
      requires WellFormed(entries)
      modifies this
      ensures Removed(old(entries), entries, id)
    {
      var todo := entries.Keys;
      while todo != {}
        invariant WellFormed(entries)
        invariant forall b :: b in todo ==> b in entries && b in old(entries) && entries[b] == old(entries)[b]
        invariant forall b, x :: Has(entries, b, x) <==> Has(old(entries), b, x) && (b !in todo ==> x != id)
      {
        var b :| b in todo;
        var ids := Without(entries[b], id);
        if ids == [] {
          entries := map c | c in entries && c != b :: entries[c];
        } else {
          entries := entries[b := ids];
        }
        todo := todo - {b};
      }
    }

    /** The IDs listed under every pair of the query, in order; none for an empty query. */
    method Search(blind: Blind, query: map<string, string>) returns (ids: seq<string>)
      requires WellFormed(entries)
      ensures SortedBy(StringLess, ids)
      ensures forall id :: id in ids <==> Hit(entries, blind, query, id)
    {
      if query == map[] {
        return [];
      }
      var sets := [];
      var todo := query.Keys;
      while todo != {}
        invariant todo <= query.Keys
        invariant |sets| > 0 || todo != {}
        invariant forall s :: s in sets ==> SortedBy(StringLess, s)
        invariant forall id :: InAll(sets, id) <==> forall k :: k in query && k !in todo ==> Has(entries, blind(k, query[k]), id)
      {
        var k :| k in todo;
        var b := blind(k, query[k]);
        if b !in entries {
          assert forall id :: !Has(entries, b, id);
          return [];
        }
        InAllSnoc(sets, entries[b]);
        sets := sets + [entries[b]];
        todo := todo - {k};
      }
      ghost var found := sets;
      sets := SmallestFirst(sets);
      assert forall id :: InAll(sets, id) <==> InAll(found, id);
      ids := IntersectAll(sets);
    }
  }

  lemma AddedPair(was: Entries, mid: Entries, e: Entries, blind: Blind, id: string, done: map<string, string>, k: string, v: string)
    requires Added(was, mid, blind, id, done) && k !in done && WellFormed(e)
    requires forall b, x :: Has(e, b, x) <==> Has(mid, b, x) || (b == blind(k, v) && x == id)
    ensures Added(was, e, blind, id, done[k := v])
  {
    var more := done[k := v];
    forall b ensures Blinds(blind, more, b) <==> Blinds(blind, done, b) || b == blind(k, v) {
      if Blinds(blind, done, b) {
        var j :| j in done && blind(j, done[j]) == b;
        assert j in more && more[j] == done[j];
      }
      if b == blind(k, v) {
        assert k in more && more[k] == v;
      }
    }
  }

  /** A sorted choice from the first part of a sorted list can take the next element. */
  lemma ChosenSnoc(out: seq<string>, s: seq<string>, n: nat)
    requires n < |s| && SortedBy(StringLess, s) && SortedBy(StringLess, out)
    requires forall x :: x in out ==> x in s[..n]
    ensures SortedBy(StringLess, out + [s[n]])
  {
    forall i | 0 <= i < |out| ensures StringLess(out[i], s[n]) {
      assert out[i] in s[..n];
    }
  }

  method Without(ids: seq<string>, id: string) returns (out: seq<string>)
    requires SortedBy(StringLess, ids)
    ensures SortedBy(StringLess, out)
    ensures forall x :: x in out <==> x in ids && x != id
  {
    out := [];
    for n := 0 to |ids|
      invariant SortedBy(StringLess, out)
      invariant forall x :: x in out <==> x in ids[..n] && x != id
    {
      if ids[n] != id {
        ChosenSnoc(out, ids, n);
        out := out + [ids[n]];
      }
    }
    assert ids[..|ids|] == ids;
  }

  ghost predicate InAll(sets: seq<seq<string>>, id: string) {
    forall s :: s in sets ==> id in s
  }

  lemma InAllSnoc(sets: seq<seq<string>>, s: seq<string>)
    ensures forall id :: InAll(sets + [s], id) <==> InAll(sets, id) && id in s
  {
  }

  ghost predicate Ascending(sets: seq<seq<string>>) {
    forall i, j :: 0 <= i < j < |sets| ==> |sets[i]| <= |sets[j]|
  }

  /** Puts a set after those no larger than it. */
  method InsertBySize(r: seq<seq<string>>, s: seq<string>) returns (grown: seq<seq<string>>)
    requires Ascending(r)
    ensures Ascending(grown) && |grown| == |r| + 1
    ensures forall x :: x in grown <==> x in r || x == s
  {
    var k := 0;
    while k < |r| && |r[k]| <= |s|
      invariant k <= |r|
      invariant forall i :: 0 <= i < k ==> |r[i]| <= |s|
    {
      k := k + 1;
    }
    grown := r[..k] + [s] + r[k..];
    assert r == r[..k] + r[k..];
    assert forall x :: x in grown <==> x in r[..k] || x == s || x in r[k..];
  }

  /** The sets again, the smallest first. */
  method SmallestFirst(sets: seq<seq<string>>) returns (r: seq<seq<string>>)
    ensures Ascending(r) && |r| == |sets| && SameElements(r, sets)
  {
    r := [];
    for n := 0 to |sets|
      invariant Ascending(r) && |r| == n
      invariant SameElements(r, sets[..n])
    {
      assert sets[..n + 1] == sets[..n] + [sets[n]];
      r := InsertBySize(r, sets[n]);
    }
    assert sets[..|sets|] == sets;
  }

  method Intersect(a: seq<string>, b: seq<string>) returns (out: seq<string>)
    requires SortedBy(StringLess, a)
    ensures SortedBy(StringLess, out)
    ensures forall x :: x in out <==> x in a && x in b
  {
    out := [];
    for n := 0 to |a|
      invariant SortedBy(StringLess, out)
      invariant forall x :: x in out <==> x in a[..n] && x in b
    {
      if a[n] in b {
        ChosenSnoc(out, a, n);
        out := out + [a[n]];
      }
    }
    assert a[..|a|] == a;
  }

  method IntersectAll(sets: seq<seq<string>>) returns (out: seq<string>)
    requires |sets| > 0 && forall s :: s in sets ==> SortedBy(StringLess, s)
    ensures SortedBy(StringLess, out)
    ensures forall id :: id in out <==> InAll(sets, id)
  {
    out := sets[0];
    for n := 1 to |sets|
      invariant SortedBy(StringLess, out)
      invariant forall id :: id in out <==> InAll(sets[..n], id)
    {
      out := Intersect(out, sets[n]);
      InAllSnoc(sets[..n], sets[n]);
      assert sets[..n + 1] == sets[..n] + [sets[n]];
      if out == [] {
        assert forall id :: InAll(sets, id) ==> InAll(sets[..n + 1], id);
        return;
      }
    }
    assert sets[..|sets|] == sets;
  }
}
