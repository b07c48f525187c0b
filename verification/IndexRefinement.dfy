/** The blinded index agrees with reading every item, over every run of creates, deletes and
  * reindexings, for any blinding function.
  */
module IndexRefinement {
  import opened Wrappers
  import opened Ordering
  import opened Items
  import opened ItemAttributes
  import opened AttributeIndex
  import opened ItemStore

  // ---------- the invariants ----------

  /** Every item can be listed, and no ID is used in two collections. */
  ghost predicate Tidy(t: Texts) {
    && (forall l: Loc :: l in t ==> Visible(l))
    && (forall l: Loc, m: Loc :: l in t && m in t && l.id == m.id ==> l == m)
  }

  /** The index lists exactly the items carrying each pair. */
  ghost predicate Indexed(t: Texts, e: Entries, blind: Blind) {
    && WellFormed(e)
    && forall id, b :: Has(e, b, id) <==> Carries(t, blind, id, b)
  }

  /** No two items of a collection share one attribute map with something in it. */
  ghost predicate NoDuplicates(t: Texts) {
    forall l: Loc, m: Loc :: l in t && m in t && l.collection == m.collection ==>
      ItemAt(t, l).attributes == ItemAt(t, m).attributes != map[] ==> l == m
  }

  predicate ValuesNonEmpty(query: map<string, string>) {
    forall k :: k in query ==> query[k] != ""
  }

  // ---------- search is a scan ----------

  function Filter(items: seq<Item>, query: map<string, string>): seq<Item> {
    if items == [] then []
    else (if Matches(items[0], query) then [items[0]] else []) + Filter(items[1..], query)
  }

  lemma {:induction false} FilterIs(items: seq<Item>, query: map<string, string>)
    requires SortedBy(IdLess, items)
    ensures SortedBy(IdLess, Filter(items, query))
    ensures forall it :: it in Filter(items, query) <==> it in items && Matches(it, query)
  {
    if items != [] {
      FilterIs(items[1..], query);
      assert items == [items[0]] + items[1..];
      var rest := Filter(items[1..], query);
      forall i | 0 <= i < |rest| ensures IdLess(items[0], rest[i]) {
        assert rest[i] in rest;
      }
    }
  }

  /** An item with a query's pairs is listed under each of them. */
  lemma MatchIsHit(t: Texts, e: Entries, blind: Blind, collection: string, query: map<string, string>, it: Item)
    requires Tidy(t) && Indexed(t, e, blind)
    requires query != map[] && ValuesNonEmpty(query)
    requires Holds(t, collection, it) && Matches(it, query)
    ensures Hit(e, blind, query, it.id)
  {
    forall k | k in query ensures Has(e, blind(k, query[k]), it.id) {
      assert k in it.attributes && it.attributes[k] == query[k];
      assert Blinds(blind, ItemAt(t, Loc(collection, it.id)).attributes, blind(k, query[k]));
      assert Carries(t, blind, it.id, blind(k, query[k]));
    }
  }

  /** A search returns precisely the matching items of the listing, in its order. */
  lemma SearchIsScan(r: seq<Item>, listing: seq<Item>, t: Texts, e: Entries, blind: Blind, collection: string, query: map<string, string>)
    requires Tidy(t) && Indexed(t, e, blind)
    requires query != map[] && ValuesNonEmpty(query)
    requires IsSearch(r, t, e, blind, collection, query) && IsItems(listing, t, collection)
    ensures r == Filter(listing, query)
  {
    IdOrder();
    FilterIs(listing, query);
    forall it ensures it in r <==> it in Filter(listing, query) {
      if it in Filter(listing, query) {
        MatchIsHit(t, e, blind, collection, query, it);
      }
    }
    SortedUnique(IdLess, r, Filter(listing, query));
  }

  /** A damaged or stale index can hide items; it can never add one or misplace it. */
  lemma StaleSearchIsPartial(r: seq<Item>, listing: seq<Item>, t: Texts, e: Entries, blind: Blind, collection: string, query: map<string, string>)
    requires Tidy(t)
    requires IsSearch(r, t, e, blind, collection, query) && IsItems(listing, t, collection)
    ensures forall it :: it in r ==> it in Filter(listing, query)
  {
    FilterIs(listing, query);
  }

  /** A query for an empty value is different: a scan takes a missing attribute for an empty one,
    * the index does not.
    */
  lemma EmptyValueIsMissed(blind: Blind, id: string, key: string)
    requires VisibleName(id)
    ensures exists t: Texts, e: Entries, it: Item ::
      && Tidy(t) && Indexed(t, e, blind)
      && Holds(t, "login", it) && Matches(it, map[key := ""]) && !Hit(e, blind, map[key := ""], it.id)
  {
    var l := Loc("login", id);
    var t: Texts, e: Entries := map[l := ""], map[];
    var it := ItemAt(t, l);
    assert it == Item(id, "", map[], "", ZeroTime, ZeroTime);
    var query := map[key := ""];
    assert key in query && !Has(e, blind(key, query[key]), id);
    assert Tidy(t) && Indexed(t, e, blind) && Holds(t, "login", it) && Matches(it, query) && !Hit(e, blind, query, it.id);
  }

  // ---------- finding an item by its attributes ----------

  lemma SubsetOfSameSize<T>(a: set<T>, b: set<T>)
    requires a <= b && |a| == |b|
    ensures a == b
  {
    var rest := b - a;
    assert |rest| == |b| - |a|;
  }

  /** No other pair blinds like an empty value of the query's. */
  ghost predicate Discerns(blind: Blind, query: map<string, string>) {
    forall k, j, v :: k in query && query[k] == "" && blind(j, v) == blind(k, "") ==> j == k && v == ""
  }

  /** A query whose pairs can be told from a missing attribute: they have values, or no collisions. */
  ghost predicate Told(blind: Blind, query: map<string, string>) {
    ValuesNonEmpty(query) || Discerns(blind, query)
  }

  /** An item with a query's pairs is listed under each of them, empty values or not. */
  lemma PairsAreHit(t: Texts, e: Entries, blind: Blind, collection: string, query: map<string, string>, it: Item)
    requires Tidy(t) && Indexed(t, e, blind) && query != map[] && Holds(t, collection, it)
    requires forall k :: k in query ==> k in it.attributes && it.attributes[k] == query[k]
    ensures Hit(e, blind, query, it.id)
  {
    forall k | k in query ensures Has(e, blind(k, query[k]), it.id) {
      assert Blinds(blind, ItemAt(t, Loc(collection, it.id)).attributes, blind(k, query[k]));
      assert Carries(t, blind, it.id, blind(k, query[k]));
    }
  }

  /** A search result for a query that can be told carries each of its pairs. */
  lemma ResultHasPair(t: Texts, e: Entries, blind: Blind, collection: string, query: map<string, string>, it: Item, k: string)
    requires Tidy(t) && Indexed(t, e, blind) && Told(blind, query) && Holds(t, collection, it)
    requires Matches(it, query) && Hit(e, blind, query, it.id) && k in query
    ensures k in it.attributes && it.attributes[k] == query[k]
  {
    if query[k] == "" {
      assert Has(e, blind(k, query[k]), it.id) && Carries(t, blind, it.id, blind(k, ""));
      var c :| Loc(c, it.id) in t && Visible(Loc(c, it.id)) && Blinds(blind, ItemAt(t, Loc(c, it.id)).attributes, blind(k, ""));
      assert Loc(c, it.id) == Loc(collection, it.id);
      var j :| j in it.attributes && blind(j, it.attributes[j]) == blind(k, "");
      assert j == k;
    }
  }

  /** What is taken to have the same attributes has the same attributes, and nothing is overlooked. */
  lemma CandidateIsEqual(s: State, blind: Blind, collection: string, attributes: map<string, string>, it: Item)
    requires Tidy(s.texts) && Indexed(s.texts, EntriesOf(s.saved), blind)
    requires attributes != map[] && Told(blind, attributes)
    ensures Candidate(s, blind, collection, attributes, it) <==> Holds(s.texts, collection, it) && it.attributes == attributes
  {
    if Candidate(s, blind, collection, attributes, it) {
      forall k | k in attributes ensures k in it.attributes && it.attributes[k] == attributes[k] {
        ResultHasPair(s.texts, EntriesOf(s.saved), blind, collection, attributes, it, k);
      }
      SubsetOfSameSize(attributes.Keys, it.attributes.Keys);
      assert it.attributes == attributes;
    }
    if Holds(s.texts, collection, it) && it.attributes == attributes {
      PairsAreHit(s.texts, EntriesOf(s.saved), blind, collection, attributes, it);
    }
  }

  // ---------- one operation and the index ----------

  /** The pairs of every other item with this ID are among these. */
  ghost predicate OthersAreCovered(t: Texts, blind: Blind, collection: string, id: string, attributes: map<string, string>) {
    forall c, b :: c != collection && Loc(c, id) in t && Visible(Loc(c, id)) && Blinds(blind, ItemAt(t, Loc(c, id)).attributes, b)
      ==> Blinds(blind, attributes, b)
  }

  /** What one location comes to hold: an item with these attributes, or nothing. */
  ghost predicate Becomes(t: Texts, t': Texts, l: Loc, attributes: map<string, string>) {
    && (forall m :: m != l ==> (m in t' <==> m in t) && (m in t ==> t'[m] == t[m]))
    && (if l in t' then ItemAt(t', l).attributes == attributes else attributes == map[])
  }

  lemma CarriesAfter(t: Texts, t': Texts, l: Loc, attributes: map<string, string>, blind: Blind, id: string, b: string)
    requires Becomes(t, t', l, attributes) && Visible(l)
    ensures id != l.id ==> (Carries(t', blind, id, b) <==> Carries(t, blind, id, b))
    ensures id == l.id && Blinds(blind, attributes, b) ==> Carries(t', blind, id, b)
    ensures id == l.id && OthersAreCovered(t, blind, l.collection, id, attributes) ==> (Carries(t', blind, id, b) <==> Blinds(blind, attributes, b))
    ensures id == l.id && Carries(t', blind, id, b) && !Blinds(blind, attributes, b) ==> !OthersAreCovered(t, blind, l.collection, id, attributes)
  {
    if id != l.id {
      assert forall c :: Loc(c, id) != l;
    } else {
      if Blinds(blind, attributes, b) {
        assert Loc(l.collection, id) == l && l in t';
      }
      if Carries(t', blind, id, b) {
        var c :| Loc(c, id) in t' && Visible(Loc(c, id)) && Blinds(blind, ItemAt(t', Loc(c, id)).attributes, b);
        assert c == l.collection ==> Loc(c, id) == l;
        assert c != l.collection ==> ItemAt(t', Loc(c, id)) == ItemAt(t, Loc(c, id));
      }
    }
  }

  /** Recording what one location holds keeps the index right, exactly when items of the same ID
    * in other collections lose nothing by it.
    */
  lemma RecordingKeepsIndexExactly(t: Texts, t': Texts, e: Entries, e': Entries, blind: Blind, l: Loc, attributes: map<string, string>)
    requires Indexed(t, e, blind) && Visible(l)
    requires Becomes(t, t', l, attributes) && Reindexed(e, e', blind, l.id, attributes)
    ensures Indexed(t', e', blind) <==> OthersAreCovered(t, blind, l.collection, l.id, attributes)
  {
    if OthersAreCovered(t, blind, l.collection, l.id, attributes) {
      forall id, b ensures Has(e', b, id) <==> Carries(t', blind, id, b) {
        CarriesAfter(t, t', l, attributes, blind, id, b);
      }
    } else {
      var c, b :| c != l.collection && Loc(c, l.id) in t && Visible(Loc(c, l.id))
        && Blinds(blind, ItemAt(t, Loc(c, l.id)).attributes, b) && !Blinds(blind, attributes, b);
      assert ItemAt(t', Loc(c, l.id)) == ItemAt(t, Loc(c, l.id));
      assert Carries(t', blind, l.id, b) && !Has(e', b, l.id);
    }
  }

  lemma RemovedIsReindexed(e: Entries, e': Entries, blind: Blind, id: string)
    requires Removed(e, e', id)
    ensures Reindexed(e, e', blind, id, map[])
  {
  }

  lemma TidyCovers(t: Texts, t': Texts, blind: Blind, l: Loc, attributes: map<string, string>)
    requires Tidy(t') && Becomes(t, t', l, attributes)
    requires l in t || l in t'
    requires Tidy(t)
    ensures OthersAreCovered(t, blind, l.collection, l.id, attributes)
  {
    forall c | Loc(c, l.id) in t ensures c == l.collection {
      var m := Loc(c, l.id);
      assert m != l ==> m in t';
      assert m == l;
    }
  }

  /** The failing case: deleting an item under an ID that an item of another collection has as
    * well leaves that other item out of the index. */
  lemma SharedIdIsForgotten(s: State, s': State, blind: Blind, c: string, other: string, id: string)
    requires !s.saved.Unreadable? && Indexed(s.texts, EntriesOf(s.saved), blind) && Deletes(s, s', c, id)
    requires c != other && Loc(c, id) in s.texts && Visible(Loc(c, id))
    requires Loc(other, id) in s.texts && Visible(Loc(other, id)) && ItemAt(s.texts, Loc(other, id)).attributes != map[]
    ensures Loc(other, id) in s'.texts && !Indexed(s'.texts, EntriesOf(s'.saved), blind)
  {
    var l, left := Loc(c, id), ItemAt(s.texts, Loc(other, id)).attributes;
    assert Becomes(s.texts, s'.texts, l, map[]);
    RemovedIsReindexed(EntriesOf(s.saved), s'.saved.entries, blind, id);
    var k :| k in left;
    var b := blind(k, left[k]);
    assert Blinds(blind, ItemAt(s.texts, Loc(other, id)).attributes, b) && !Blinds(blind, map[], b);
    assert !OthersAreCovered(s.texts, blind, c, id, map[]);
    RecordingKeepsIndexExactly(s.texts, s'.texts, EntriesOf(s.saved), s'.saved.entries, blind, l, map[]);
  }

  // ---------- runs ----------

  datatype Op =
    | CreateOp(collection: string, item: Item, replace: bool, freshId: string, now: Time)
    | DeleteOp(collection: string, id: string)
    | ReindexOp

  ghost predicate Step(s: State, op: Op, s': State, blind: Blind) {
    match op
    case CreateOp(c, it, replace, freshId, now) => exists found :: Creates(s, s', blind, c, it, replace, freshId, now, found)
    case DeleteOp(c, id) => Deletes(s, s', c, id)
    case ReindexOp => Rebuilds(s, s', blind)
  }

  /** The name is not in use outside this place. */
  ghost predicate NameIsFree(t: Texts, collection: string, id: string) {
    VisibleName(id) && forall l: Loc :: l in t && l.id == id ==> l.collection == collection
  }

  /** What is asked of a caller: an item whose attributes survive printing, under a name that no
    * other collection uses; a fresh ID is new to the store.
    */
  ghost predicate Allowed(s: State, op: Op) {
    match op
    case CreateOp(c, it, _, freshId, _) =>
      && VisibleName(c) && AttributesSurvive(it)
      && if it.id == "" then VisibleName(freshId) && forall l: Loc :: l in s.texts ==> l.id != freshId
         else NameIsFree(s.texts, c, it.id)
    case _ => true
  }

  /** And for the attribute maps to stay apart: one that the index can tell. A pair with an empty
    * value might otherwise be found under the blinded key of another, with a missing attribute
    * taken for the empty value.
    */
  ghost predicate Tells(blind: Blind, op: Op) {
    op.CreateOp? ==> Told(blind, op.item.attributes)
  }

  /** A tidy store with a right index. */
  ghost predicate Searchable(s: State, blind: Blind) {
    Tidy(s.texts) && !s.saved.Unreadable? && Indexed(s.texts, EntriesOf(s.saved), blind)
  }

  lemma PrintedReads(raw: string, it: Item)
    requires Carried(it) && Prints(raw, it)
    ensures ItemFromSecret(it.id, raw) == it
  {
    var keys :| IsSortedKeys(keys, it.attributes) && raw == Printed(it, keys);
    ItemRoundTrip(it, keys);
  }

  /** The attributes of the item as stored survive too, and it keeps to its place. */
  lemma StampedIsStorable(s: State, blind: Blind, c: string, it: Item, freshId: string, now: Time, found: Option<Item>)
    requires Searchable(s, blind) && Allowed(s, CreateOp(c, it, true, freshId, now))
    requires Found(s, blind, c, it.attributes, found)
    ensures var stored := Stamped(it, found, freshId, now);
      && AttributesSurvive(stored) && stored.attributes == it.attributes && NameIsFree(s.texts, c, stored.id)
  {
    OnlyTextMatters(it, Stamped(it, found, freshId, now));
    if found.Some? {
      var l := Loc(c, found.value.id);
      assert Visible(l);
    }
  }

  /** After writing an item, every other text is as it was and its own place has the attributes. */
  lemma StoredIsThere(s: State, s': State, blind: Blind, c: string, stored: Item)
    requires AttributesSurvive(stored) && Stores(s, s', blind, c, stored)
    ensures var l := Loc(c, stored.id);
      && l in s'.texts && ItemAt(s'.texts, l).attributes == stored.attributes && Becomes(s.texts, s'.texts, l, stored.attributes)
  {
    var raw := s'.texts[Loc(c, stored.id)];
    var keys :| IsSortedKeys(keys, stored.attributes) && raw == Printed(stored, keys);
  }

  /** An item written at its own name keeps the store tidy and the index right. */
  lemma StoringKeepsIndex(s: State, s': State, blind: Blind, c: string, stored: Item)
    requires Searchable(s, blind)
    requires VisibleName(c) && AttributesSurvive(stored) && NameIsFree(s.texts, c, stored.id)
    requires Stores(s, s', blind, c, stored)
    ensures Searchable(s', blind)
  {
    var l := Loc(c, stored.id);
    StoredIsThere(s, s', blind, c, stored);
    assert forall m: Loc :: m in s'.texts <==> m in s.texts || m == l;
    forall m: Loc | m in s.texts && m.id == l.id ensures m == l {
      assert m.collection == c;
    }
    assert Tidy(s'.texts);
    TidyCovers(s.texts, s'.texts, blind, l, stored.attributes);
    RecordingKeepsIndexExactly(s.texts, s'.texts, EntriesOf(s.saved), s'.saved.entries, blind, l, stored.attributes);
  }

  /** An item with the attributes to be created is the one that is found. */
  lemma EqualIsFound(s: State, blind: Blind, c: string, attributes: map<string, string>, found: Option<Item>, m: Loc)
    requires Searchable(s, blind) && NoDuplicates(s.texts) && attributes != map[] && Told(blind, attributes)
    requires Found(s, blind, c, attributes, found)
    requires m in s.texts && m.collection == c && ItemAt(s.texts, m).attributes == attributes
    ensures found.Some? && found.value.id == m.id
  {
    var it := ItemAt(s.texts, m);
    ItemReads(m.id, s.texts[m]);
    CandidateIsEqual(s, blind, c, attributes, it);
    assert found.Some?;
    CandidateIsEqual(s, blind, c, attributes, found.value);
    var l := Loc(c, found.value.id);
    assert ItemAt(s.texts, l).attributes == ItemAt(s.texts, m).attributes;
    assert l == m;
  }

  lemma BecomesKeepsNoDuplicates(t: Texts, t': Texts, l: Loc, attributes: map<string, string>)
    requires NoDuplicates(t) && Becomes(t, t', l, attributes)
    requires attributes == map[] || forall m: Loc :: m in t && m.collection == l.collection && ItemAt(t, m).attributes == attributes ==> m == l
    ensures NoDuplicates(t')
  {
    forall m: Loc | m in t' && m != l ensures m in t && ItemAt(t', m) == ItemAt(t, m) {
    }
  }

  /** An item written where its attribute map was, or where that map was nowhere, is no duplicate. */
  lemma StoringKeepsNoDuplicates(s: State, s': State, blind: Blind, c: string, it: Item, freshId: string, now: Time, found: Option<Item>)
    requires Searchable(s, blind) && NoDuplicates(s.texts) && Told(blind, it.attributes)
    requires Allowed(s, CreateOp(c, it, true, freshId, now))
    requires Found(s, blind, c, it.attributes, found)
    requires Stores(s, s', blind, c, Stamped(it, found, freshId, now))
    ensures NoDuplicates(s'.texts)
  {
    var stored := Stamped(it, found, freshId, now);
    var l := Loc(c, stored.id);
    StampedIsStorable(s, blind, c, it, freshId, now, found);
    StoredIsThere(s, s', blind, c, stored);
    if it.attributes != map[] {
      forall m: Loc | m in s.texts && m.collection == c && ItemAt(s.texts, m).attributes == it.attributes ensures m == l {
        EqualIsFound(s, blind, c, it.attributes, found, m);
        assert Visible(m);
      }
    }
    BecomesKeepsNoDuplicates(s.texts, s'.texts, l, it.attributes);
  }

  /** The failing case: a pair with an empty value that blinds like another. The item found first is
    * not the one with these attributes, and replacing it makes two of them.
    */
  lemma CollisionMakesDuplicate(s: State, s': State, blind: Blind, c: string, it: Item, first: Item, equal: Item, freshId: string, now: Time)
    requires Searchable(s, blind) && Allowed(s, CreateOp(c, it, true, freshId, now)) && it.attributes != map[]
    requires Found(s, blind, c, it.attributes, Some(first)) && first.attributes != it.attributes
    requires Holds(s.texts, c, equal) && equal.attributes == it.attributes
    requires Creates(s, s', blind, c, it, true, freshId, now, Some(first))
    ensures !Told(blind, it.attributes) && !NoDuplicates(s'.texts)
  {
    if Told(blind, it.attributes) {
      CandidateIsEqual(s, blind, c, it.attributes, first);
    }
    var stored := Stamped(it, Some(first), freshId, now);
    StampedIsStorable(s, blind, c, it, freshId, now, Some(first));
    StoredIsThere(s, s', blind, c, stored);
    var l, m := Loc(c, stored.id), Loc(c, equal.id);
    assert l == Loc(c, first.id);
    assert m != l && m in s'.texts && ItemAt(s'.texts, m) == equal;
  }

  lemma DeletingKeeps(s: State, s': State, blind: Blind, c: string, id: string)
    requires Searchable(s, blind) && Deletes(s, s', c, id)
    ensures Searchable(s', blind) && (NoDuplicates(s.texts) ==> NoDuplicates(s'.texts))
  {
    var l := Loc(c, id);
    if l in s.texts {
      assert Becomes(s.texts, s'.texts, l, map[]);
      assert Tidy(s'.texts);
      TidyCovers(s.texts, s'.texts, blind, l, map[]);
      RemovedIsReindexed(EntriesOf(s.saved), s'.saved.entries, blind, id);
      RecordingKeepsIndexExactly(s.texts, s'.texts, EntriesOf(s.saved), s'.saved.entries, blind, l, map[]);
      assert forall m: Loc :: m in s'.texts ==> m in s.texts && ItemAt(s'.texts, m) == ItemAt(s.texts, m);
    }
  }

  /** Reindexing makes the index right whatever it was, for the items there are. */
  lemma ReindexRestores(s: State, s': State, blind: Blind)
    requires Rebuilds(s, s', blind)
    ensures !s'.saved.Unreadable? && Indexed(s'.texts, EntriesOf(s'.saved), blind)
    ensures Tidy(s.texts) ==> Searchable(s', blind)
    ensures NoDuplicates(s.texts) ==> NoDuplicates(s'.texts)
  {
  }

  lemma StepKeeps(s: State, op: Op, s': State, blind: Blind)
    requires Searchable(s, blind) && Allowed(s, op) && Step(s, op, s', blind)
    ensures Searchable(s', blind)
    ensures NoDuplicates(s.texts) && Tells(blind, op) ==> NoDuplicates(s'.texts)
  {
    match op
    case CreateOp(c, it, replace, freshId, now) =>
      var found :| Creates(s, s', blind, c, it, replace, freshId, now, found);
      if !(found.Some? && !replace) {
        StampedIsStorable(s, blind, c, it, freshId, now, found);
        StoringKeepsIndex(s, s', blind, c, Stamped(it, found, freshId, now));
        if NoDuplicates(s.texts) && Tells(blind, op) {
          StoringKeepsNoDuplicates(s, s', blind, c, it, freshId, now, found);
        }
      }
    case DeleteOp(c, id) =>
      DeletingKeeps(s, s', blind, c, id);
    case ReindexOp =>
      ReindexRestores(s, s', blind);
  }

  ghost predicate IsRun(states: seq<State>, ops: seq<Op>, blind: Blind) {
    && |states| == |ops| + 1
    && forall i :: 0 <= i < |ops| ==> Allowed(states[i], ops[i]) && Step(states[i], ops[i], states[i + 1], blind)
  }

  /** In a state, every search with values is the matching part of the listing. */
  ghost predicate SearchesScan(s: State, blind: Blind) {
    forall r, listing, c, query ::
      IsSearch(r, s.texts, EntriesOf(s.saved), blind, c, query) && IsItems(listing, s.texts, c) && query != map[] && ValuesNonEmpty(query)
      ==> r == Filter(listing, query)
  }

  lemma SearchableScans(s: State, blind: Blind)
    requires Searchable(s, blind)
    ensures SearchesScan(s, blind)
  {
    forall r, listing, c, query
      | IsSearch(r, s.texts, EntriesOf(s.saved), blind, c, query) && IsItems(listing, s.texts, c) && query != map[] && ValuesNonEmpty(query)
      ensures r == Filter(listing, query)
    {
      SearchIsScan(r, listing, s.texts, EntriesOf(s.saved), blind, c, query);
    }
  }

  /** After any sequence of creates, deletes and reindexings, the index is right and every search
    * is a scan.
    */
  lemma IndexRefinesScan(states: seq<State>, ops: seq<Op>, blind: Blind)
    requires IsRun(states, ops, blind) && Searchable(states[0], blind)
    ensures forall i :: 0 <= i < |states| ==> Searchable(states[i], blind) && SearchesScan(states[i], blind)
  {
    SearchableScans(states[0], blind);
    for n := 0 to |ops|
      invariant forall i :: 0 <= i <= n ==> Searchable(states[i], blind) && SearchesScan(states[i], blind)
    {
      StepKeeps(states[n], ops[n], states[n + 1], blind);
      SearchableScans(states[n + 1], blind);
    }
  }

  /** And if the index can tell what is created, no attribute map is stored twice in a collection. */
  lemma AttributesStayUnique(states: seq<State>, ops: seq<Op>, blind: Blind)
    requires IsRun(states, ops, blind) && Searchable(states[0], blind) && NoDuplicates(states[0].texts)
    requires forall i :: 0 <= i < |ops| ==> Tells(blind, ops[i])
    ensures forall i :: 0 <= i < |states| ==> NoDuplicates(states[i].texts)
  {
    for n := 0 to |ops|
      invariant Searchable(states[n], blind) && forall i :: 0 <= i <= n ==> NoDuplicates(states[i].texts)
    {
      StepKeeps(states[n], ops[n], states[n + 1], blind);
    }
  }

  /** Giving an existing item a new secret changes that item and no other. */
  lemma SettingASecretStaysInPlace(s: State, s': State, blind: Blind, c: string, it: Item, secret: string, freshId: string, now: Time, found: Option<Item>)
    requires Searchable(s, blind) && NoDuplicates(s.texts) && Holds(s.texts, c, it) && Told(blind, it.attributes)
    requires Creates(s, s', blind, c, it.(secret := secret), true, freshId, now, found)
    ensures var l := Loc(c, it.id);
      var stored := it.(secret := secret, created := if it.created.ZeroTime? then now else it.created, modified := now);
      && s'.texts.Keys == s.texts.Keys
      && (forall m :: m in s.texts && m != l ==> s'.texts[m] == s.texts[m])
      && Prints(s'.texts[l], stored)
      && (Carried(stored) ==> ItemAt(s'.texts, l) == stored)
  {
    var l := Loc(c, it.id);
    var given := it.(secret := secret);
    FoundIsItself(s, blind, c, it, found);
    var stored := Stamped(given, found, freshId, now);
    assert stored == given.(created := if it.created.ZeroTime? then now else it.created, modified := now);
    StoredInPlace(s, s', blind, c, stored);
  }

  lemma StoredInPlace(s: State, s': State, blind: Blind, c: string, stored: Item)
    requires Stores(s, s', blind, c, stored) && Loc(c, stored.id) in s.texts
    ensures s'.texts.Keys == s.texts.Keys
    ensures forall m :: m in s.texts && m != Loc(c, stored.id) ==> s'.texts[m] == s.texts[m]
    ensures Prints(s'.texts[Loc(c, stored.id)], stored)
    ensures Carried(stored) ==> ItemAt(s'.texts, Loc(c, stored.id)) == stored
  {
    if Carried(stored) {
      PrintedReads(s'.texts[Loc(c, stored.id)], stored);
    }
  }

  lemma FoundIsItself(s: State, blind: Blind, c: string, it: Item, found: Option<Item>)
    requires Searchable(s, blind) && NoDuplicates(s.texts) && Holds(s.texts, c, it) && Told(blind, it.attributes)
    requires Found(s, blind, c, it.attributes, found)
    ensures it.id != "" && (found.Some? ==> found.value == it)
  {
    assert Visible(Loc(c, it.id));
    if it.attributes != map[] {
      EqualIsFound(s, blind, c, it.attributes, found, Loc(c, it.id));
    }
  }
}
