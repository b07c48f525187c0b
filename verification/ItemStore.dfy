/** The Secret Service item store: entries of the password store with an attribute index beside
  * them. What each operation does is a relation between the states before and after it.
  */
module ItemStore {
  import opened Wrappers
  import opened Ordering
  import opened Items
  import opened AttributeIndex

  /** Where an item is kept. Both names are single path segments. */
  datatype Loc = Loc(collection: string, id: string)

  type Texts = map<Loc, string>

  /** The index file: absent, readable, or damaged. */
  datatype Saved = Absent | Readable(entries: Entries) | Unreadable

  datatype State = State(texts: Texts, saved: Saved)

  predicate VisibleName(name: string) {
    name != "" && name[0] != '.'
  }

  /** A listing leaves out names with a leading dot. */
  predicate Visible(l: Loc) {
    VisibleName(l.collection) && VisibleName(l.id)
  }

  function ItemAt(t: Texts, l: Loc): Item
    requires l in t
  {
    ItemFromSecret(l.id, t[l])
  }

  predicate Holds(t: Texts, collection: string, it: Item) {
    var l := Loc(collection, it.id);
    l in t && it == ItemAt(t, l)
  }

  function EntriesOf(saved: Saved): Entries {
    if saved.Readable? then saved.entries else map[]
  }

  predicate IdLess(a: Item, b: Item) {
    StringLess(a.id, b.id)
  }

  lemma IdOrder()
    ensures StrictOrder(IdLess)
  {
    StringOrder();
  }

  // ---------- what the operations promise ----------

  /** Every item of a collection that a listing shows, in ID order. */
  ghost predicate IsItems(r: seq<Item>, t: Texts, collection: string) {
    && SortedBy(IdLess, r)
    && forall it :: it in r <==> Holds(t, collection, it) && Visible(Loc(collection, it.id))
  }

  /** What the index names, read again and checked, in ID order. */
  ghost predicate IsSearch(r: seq<Item>, t: Texts, e: Entries, blind: Blind, collection: string, query: map<string, string>) {
    && SortedBy(IdLess, r)
    && forall it :: it in r <==> Holds(t, collection, it) && Matches(it, query) && Hit(e, blind, query, it.id)
  }

  ghost predicate Candidate(s: State, blind: Blind, collection: string, attributes: map<string, string>, it: Item) {
    && Holds(s.texts, collection, it)
    && Matches(it, attributes)
    && Hit(EntriesOf(s.saved), blind, attributes, it.id)
    && |it.attributes| == |attributes|
  }

  /** The first item in ID order taken to have exactly these attributes. */
  ghost predicate Found(s: State, blind: Blind, collection: string, attributes: map<string, string>, found: Option<Item>) {
    match found
    case Some(it) =>
      && !s.saved.Unreadable?
      && Candidate(s, blind, collection, attributes, it)
      && forall other :: Candidate(s, blind, collection, attributes, other) ==> !IdLess(other, it)
    case None => s.saved.Unreadable? || forall it :: !Candidate(s, blind, collection, attributes, it)
  }

  /** The item as stored: the ID and birth of the one it replaces, a fresh ID if it has none. */
  function Stamped(it: Item, found: Option<Item>, freshId: string, now: Time): Item {
    var named := if found.Some? then it.(id := found.value.id, created := found.value.created) else it;
    named.(
      id := if named.id == "" then freshId else named.id,
      created := if named.created.ZeroTime? then now else named.created,
      modified := now)
  }

  ghost predicate Reindexed(was: Entries, e: Entries, blind: Blind, id: string, attributes: map<string, string>) {
    && WellFormed(e)
    && forall b, x :: Has(e, b, x) <==> if x == id then Blinds(blind, attributes, b) else Has(was, b, x)
  }

  /** The item is written, then the index if it can be read. */
  ghost predicate Stores(s: State, s': State, blind: Blind, collection: string, it: Item) {
    var l := Loc(collection, it.id);
    && l in s'.texts && Prints(s'.texts[l], it)
    && s'.texts == s.texts[l := s'.texts[l]]
    && if s.saved.Unreadable? then s'.saved.Unreadable?
       else s'.saved.Readable? && Reindexed(EntriesOf(s.saved), s'.saved.entries, blind, it.id, it.attributes)
  }

  ghost predicate Creates(s: State, s': State, blind: Blind, collection: string, it: Item, replace: bool,
                          freshId: string, now: Time, found: Option<Item>)
  {
    && Found(s, blind, collection, it.attributes, found)
    && if found.Some? && !replace then s' == s
       else Stores(s, s', blind, collection, Stamped(it, found, freshId, now))
  }

  ghost predicate Deletes(s: State, s': State, collection: string, id: string) {
    var l := Loc(collection, id);
    if l !in s.texts then s' == s
    else
      && s'.texts == s.texts - {l}
      && if s.saved.Unreadable? then s'.saved.Unreadable?
         else s'.saved.Readable? && Removed(EntriesOf(s.saved), s'.saved.entries, id)
  }

  /** An item that a listing shows has this ID and a pair blinding to `b`. */
  ghost predicate Carries(t: Texts, blind: Blind, id: string, b: string) {
    exists c :: Loc(c, id) in t && Visible(Loc(c, id)) && Blinds(blind, ItemAt(t, Loc(c, id)).attributes, b)
  }

  ghost predicate Rebuilds(s: State, s': State, blind: Blind) {
    && s'.texts == s.texts
    && s'.saved.Readable? && WellFormed(s'.saved.entries)
    && forall b, id :: Has(s'.saved.entries, b, id) <==> Carries(s.texts, blind, id, b)
  }

  // ---------- steps of the loops ----------

  ghost predicate Answers(t: Texts, collection: string, query: map<string, string>, it: Item) {
    Holds(t, collection, it) && Matches(it, query)
  }

  /** The items read for these IDs that answer the query, in ID order. */
  ghost predicate ReadFor(r: seq<Item>, t: Texts, collection: string, query: map<string, string>, ids: seq<string>) {
    && SortedBy(IdLess, r)
    && forall it :: it in r <==> Answers(t, collection, query, it) && it.id in ids
  }

  lemma ReadAnother(r: seq<Item>, t: Texts, collection: string, query: map<string, string>, ids: seq<string>, n: nat, it: Item)
    requires n < |ids| && it.id == ids[n] && SortedBy(StringLess, ids)
    requires ReadFor(r, t, collection, query, ids[..n]) && Answers(t, collection, query, it)
    ensures ReadFor(r + [it], t, collection, query, ids[..n + 1])
  {
    assert ids[..n + 1] == ids[..n] + [ids[n]];
    forall i | 0 <= i < |r| ensures IdLess(r[i], it) {
      assert r[i] in r;
    }
    forall x ensures x in r + [it] <==> Answers(t, collection, query, x) && x.id in ids[..n + 1] {
      assert Answers(t, collection, query, x) && x.id == it.id ==> x == it;
    }
  }

  lemma ReadNone(r: seq<Item>, t: Texts, collection: string, query: map<string, string>, ids: seq<string>, n: nat)
    requires n < |ids| && ReadFor(r, t, collection, query, ids[..n])
    requires forall x: Item :: x.id == ids[n] ==> !Answers(t, collection, query, x)
    ensures ReadFor(r, t, collection, query, ids[..n + 1])
  {
    assert ids[..n + 1] == ids[..n] + [ids[n]];
  }

  /** Reads the items an index names, checking each again. */
  method ReadMatching(t: Texts, collection: string, ids: seq<string>, query: map<string, string>) returns (r: seq<Item>)
    requires SortedBy(StringLess, ids)
    ensures ReadFor(r, t, collection, query, ids)
  {
    r := [];
    for n := 0 to |ids|
      invariant ReadFor(r, t, collection, query, ids[..n])
    {
      var l := Loc(collection, ids[n]);
      if l !in t {
        ReadNone(r, t, collection, query, ids, n);
        continue;
      }
      var it := ItemAt(t, l);
      ItemReads(l.id, t[l]);
      if Matches(it, query) {
        ReadAnother(r, t, collection, query, ids, n, it);
        r := r + [it];
      } else {
        ReadNone(r, t, collection, query, ids, n);
      }
    }
    assert ids[..|ids|] == ids;
  }

  ghost predicate IsFirstOfSize(items: seq<Item>, size: nat, found: Option<Item>) {
    match found
    case None => forall i :: 0 <= i < |items| ==> |items[i].attributes| != size
    case Some(it) => exists n ::
      0 <= n < |items| && items[n] == it && |it.attributes| == size && forall i :: 0 <= i < n ==> |items[i].attributes| != size
  }

  method FirstOfSize(items: seq<Item>, size: nat) returns (found: Option<Item>)
    ensures IsFirstOfSize(items, size, found)
  {
    for n := 0 to |items|
      invariant forall i :: 0 <= i < n ==> |items[i].attributes| != size
    {
      if |items[n].attributes| == size {
        return Some(items[n]);
      }
    }
    return None;
  }

  /** The first search result with the right number of attributes. */
  lemma FirstIsFound(s: State, blind: Blind, collection: string, attributes: map<string, string>, items: seq<Item>, found: Option<Item>)
    requires !s.saved.Unreadable? && attributes != map[]
    requires IsSearch(items, s.texts, EntriesOf(s.saved), blind, collection, attributes)
    requires IsFirstOfSize(items, |attributes|, found)
    ensures Found(s, blind, collection, attributes, found)
  {
    IdOrder();
    if found.None? {
      assert forall it :: Candidate(s, blind, collection, attributes, it) ==> it in items;
    } else {
      var n :| 0 <= n < |items| && items[n] == found.value && forall i :: 0 <= i < n ==> |items[i].attributes| != |attributes|;
      assert items[n] in items;
      forall other | Candidate(s, blind, collection, attributes, other) ensures !IdLess(other, items[n]) {
        assert other in items;
        var i :| 0 <= i < |items| && items[i] == other;
        assert i >= n;
        if i > n {
          assert IdLess(items[n], items[i]);
        }
      }
    }
  }

  /** Some listed item of these collections has the ID and a pair blinding to `b`. */
  ghost predicate CarriesIn(t: Texts, blind: Blind, names: seq<string>, id: string, b: string) {
    exists c :: c in names && Loc(c, id) in t && Visible(Loc(c, id)) && Blinds(blind, ItemAt(t, Loc(c, id)).attributes, b)
  }

  ghost predicate ListedWith(items: seq<Item>, m: nat, blind: Blind, id: string, b: string)
    requires m <= |items|
  {
    exists i :: 0 <= i < m && items[i].id == id && Blinds(blind, items[i].attributes, b)
  }

  lemma CollectionAdded(t: Texts, blind: Blind, names: seq<string>, n: nat, items: seq<Item>)
    requires n < |names| && IsItems(items, t, names[n])
    ensures forall id, b :: CarriesIn(t, blind, names[..n + 1], id, b) <==> CarriesIn(t, blind, names[..n], id, b) || ListedWith(items, |items|, blind, id, b)
  {
    var c := names[n];
    assert names[..n + 1] == names[..n] + [c];
    forall id, b ensures CarriesIn(t, blind, names[..n + 1], id, b) <==> CarriesIn(t, blind, names[..n], id, b) || ListedWith(items, |items|, blind, id, b) {
      if Loc(c, id) in t && Visible(Loc(c, id)) && Blinds(blind, ItemAt(t, Loc(c, id)).attributes, b) {
        ItemReads(id, t[Loc(c, id)]);
        assert Holds(t, c, ItemAt(t, Loc(c, id)));
        assert ItemAt(t, Loc(c, id)) in items;
      }
      if ListedWith(items, |items|, blind, id, b) {
        var i :| 0 <= i < |items| && items[i].id == id && Blinds(blind, items[i].attributes, b);
        assert items[i] in items;
      }
    }
  }

  function LocsIn(t: Texts, names: seq<string>): set<Loc> {
    set l | l in t && Visible(l) && l.collection in names
  }

  function LocsOf(items: seq<Item>, c: string): seq<Loc> {
    seq(|items|, i requires 0 <= i < |items| => Loc(c, items[i].id))
  }

  lemma CollectionLocs(t: Texts, c: string, items: seq<Item>, l: Loc)
    requires IsItems(items, t, c)
    ensures l in LocsOf(items, c) <==> l in t && Visible(l) && l.collection == c
  {
    var locs := LocsOf(items, c);
    if l in t && Visible(l) && l.collection == c {
      ItemReads(l.id, t[l]);
      assert Holds(t, c, ItemAt(t, l));
      var i :| 0 <= i < |items| && items[i] == ItemAt(t, l);
      assert locs[i] == l;
    }
    if l in locs {
      var i :| 0 <= i < |items| && locs[i] == l;
      assert items[i] in items;
    }
  }

  lemma CollectionSize(t: Texts, c: string, items: seq<Item>)
    requires IsItems(items, t, c)
    ensures |LocsIn(t, [c])| == |items|
  {
    IdOrder();
    var locs := LocsOf(items, c);
    forall l ensures l in LocsIn(t, [c]) <==> l in locs { CollectionLocs(t, c, items, l); }
    forall i, j | 0 <= i < j < |locs| ensures locs[i] != locs[j] {
      assert IdLess(items[i], items[j]);
    }
    DistinctCount(locs, LocsIn(t, [c]));
  }

  lemma CollectionCounted(t: Texts, names: seq<string>, n: nat, items: seq<Item>)
    requires n < |names| && SortedBy(StringLess, names) && IsItems(items, t, names[n])
    ensures |LocsIn(t, names[..n + 1])| == |LocsIn(t, names[..n])| + |items|
  {
    var c := names[n];
    CollectionSize(t, c, items);
    forall x | x in names[..n] ensures x != c {
      StringLessIrreflexive(c);
    }
    assert names[..n + 1] == names[..n] + [c];
    assert LocsIn(t, names[..n + 1]) == LocsIn(t, names[..n]) + LocsIn(t, [c]);
    assert LocsIn(t, names[..n]) !! LocsIn(t, [c]);
  }

  lemma ListedWithSnoc(items: seq<Item>, m: nat, blind: Blind, id: string, b: string)
    requires m < |items|
    ensures ListedWith(items, m + 1, blind, id, b) <==> ListedWith(items, m, blind, id, b) || (id == items[m].id && Blinds(blind, items[m].attributes, b))
  {
  }

  /** Adds the items of one collection to an index. */
  method AddAll(ix: Index, blind: Blind, items: seq<Item>)
    requires WellFormed(ix.entries)
    modifies ix
    ensures WellFormed(ix.entries)
    ensures forall id, b :: Has(ix.entries, b, id) <==> Has(old(ix.entries), b, id) || ListedWith(items, |items|, blind, id, b)
  {
    for m := 0 to |items|
      invariant WellFormed(ix.entries)
      invariant forall id, b :: Has(ix.entries, b, id) <==> Has(old(ix.entries), b, id) || ListedWith(items, m, blind, id, b)
    {
      ix.Add(blind, items[m].id, items[m].attributes);
      forall id, b { ListedWithSnoc(items, m, blind, id, b); }
    }
  }

  // ---------- the store ----------

  class Store {
    const blind: Blind
    // The entries of the password store and the index file beside them.
    var texts: Texts
    var saved: Saved
    // The index in memory, once it was needed.
    var cached: Index?

    constructor (blind: Blind, texts: Texts, saved: Saved)
      requires saved.Readable? ==> WellFormed(saved.entries)
      ensures Valid() && Current() == State(texts, saved) && this.blind == blind
    {
      this.blind := blind;
      this.texts := texts;
      this.saved := saved;
      cached := null;
    }

    function Current(): State
      reads this
    {
      State(texts, saved)
    }

    /** The index in memory, if there is one, is the index on disk. */
    ghost predicate Valid()
      reads this, cached
    {
      && (saved.Readable? ==> WellFormed(saved.entries))
      && (cached != null ==> !saved.Unreadable? && cached.entries == EntriesOf(saved))
    }

    /** The index in memory or else on disk; none when the one on disk is damaged. */
    method OpenIndex() returns (ix: Index?)
      requires Valid()
      modifies this`cached
      ensures Valid() && (ix == null <==> saved.Unreadable?)
      ensures ix != null ==> ix == cached && ix.entries == EntriesOf(saved) && WellFormed(ix.entries)
      ensures cached == old(cached) || fresh(cached)
    {
      if cached != null {
        return cached;
      }
      if saved.Unreadable? {
        return null;
      }
      ix := new Index();
      if saved.Readable? {
        ix.entries := saved.entries;
      }
      cached := ix;
    }

    /** Every listed item of a collection. */
    method ListItems(collection: string) returns (r: seq<Item>)
      ensures IsItems(r, texts, collection)
    {
      var todo := set l | l in texts && l.collection == collection && Visible(l);
      r := [];
      while todo != {}
        invariant forall l :: l in todo ==> l in texts && l.collection == collection && Visible(l)
        invariant forall it :: it in r <==> Holds(texts, collection, it) && Visible(Loc(collection, it.id)) && Loc(collection, it.id) !in todo
        invariant forall i, j :: 0 <= i < j < |r| ==> r[i].id != r[j].id
      {
        var l :| l in todo;
        ItemReads(l.id, texts[l]);
        r := r + [ItemAt(texts, l)];
        todo := todo - {l};
      }
      StringOrder();
      IdOrder();
      r := Sort(IdLess, r);
    }

    /** The items matching every pair: all of them for an empty query, and otherwise those the
      * index names, each read and checked.
      */
    method Search(collection: string, query: map<string, string>) returns (r: seq<Item>, ok: bool)
      requires Valid()
      modifies this`cached
      ensures Valid() && (cached == old(cached) || fresh(cached))
      ensures ok <==> query == map[] || !saved.Unreadable?
      ensures !ok ==> r == []
      ensures query == map[] ==> IsItems(r, texts, collection)
      ensures ok && query != map[] ==> IsSearch(r, texts, EntriesOf(saved), blind, collection, query)
    {
      if query == map[] {
        r := ListItems(collection);
        return r, true;
      }
      var ix := OpenIndex();
      if ix == null {
        return [], false;
      }
      var ids := ix.Search(blind, query);
      r := ReadMatching(texts, collection, ids, query);
      ok := true;
    }

    /** The first search result with as many attributes as were asked for. */
    method FindByAttributes(collection: string, attributes: map<string, string>) returns (found: Option<Item>)
      requires Valid()
      modifies this`cached
      ensures Valid() && (cached == old(cached) || fresh(cached))
      ensures Found(Current(), blind, collection, attributes, found)
    {
      if attributes == map[] {
        return None;
      }
      var items, ok := Search(collection, attributes);
      if !ok {
        return None;
      }
      found := FirstOfSize(items, |attributes|);
      FirstIsFound(Current(), blind, collection, attributes, items, found);
    }

    /** Stores an item and updates the index, unless one with the same attributes is to be kept. */
    method CreateItem(collection: string, it: Item, replace: bool, freshId: string, now: Time)
      returns (r: Option<Item>, ghost found: Option<Item>)
      requires Valid() && now.Unix?
      modifies this, cached
      ensures Valid()
      ensures Creates(old(Current()), Current(), blind, collection, it, replace, freshId, now, found)
      ensures r == if found.Some? && !replace then found
                   else if old(saved).Unreadable? then None
                   else Some(Stamped(it, found, freshId, now))
    {
      var existing := FindByAttributes(collection, it.attributes);
      found := existing;
      if existing.Some? && !replace {
        return existing, existing;
      }
      var stored := it;
      if existing.Some? {
        stored := stored.(id := existing.value.id, created := existing.value.created);
      }
      if stored.id == "" {
        stored := stored.(id := freshId);
      }
      if stored.created.ZeroTime? {
        stored := stored.(created := now);
      }
      stored := stored.(modified := now);
      assert stored == Stamped(it, existing, freshId, now);

      var ok := StoreItem(collection, stored);
      return if ok then Some(stored) else None, existing;
    }

    /** Writes an item, and the index if there is one to be read. */
    method StoreItem(collection: string, it: Item) returns (ok: bool)
      requires Valid()
      modifies this, cached
      ensures Valid() && (ok <==> !old(saved).Unreadable?)
      ensures Stores(old(Current()), Current(), blind, collection, it)
    {
      var text := ToSecret(it);
      texts := texts[Loc(collection, it.id) := text];
      var ix := OpenIndex();
      if ix == null {
        return false;
      }
      ix.Remove(it.id);
      ix.Add(blind, it.id, it.attributes);
      saved := Readable(ix.entries);
      return true;
    }

    /** The item goes first, then its ID from the index. */
    method DeleteItem(collection: string, id: string) returns (ok: bool)
      requires Valid()
      modifies this, cached
      ensures Valid()
      ensures Deletes(old(Current()), Current(), collection, id)
      ensures ok <==> Loc(collection, id) in old(texts) && !old(saved).Unreadable?
    {
      var l := Loc(collection, id);
      if l !in texts {
        return false;
      }
      texts := texts - {l};
      var ix := OpenIndex();
      if ix == null {
        return false;
      }
      ix.Remove(id);
      saved := Readable(ix.entries);
      return true;
    }

    /** The names of the collections that hold a listed item, in order. */
    method Collections() returns (names: seq<string>)
      ensures SortedBy(StringLess, names)
      ensures forall c :: c in names <==> exists id :: Loc(c, id) in texts && Visible(Loc(c, id))
    {
      var todo := set l | l in texts && Visible(l);
      names := [];
      while todo != {}
        invariant forall l :: l in todo ==> l in texts && Visible(l)
        invariant forall c :: c in names ==> exists id :: Loc(c, id) in texts && Visible(Loc(c, id))
        invariant forall l :: l in texts && Visible(l) ==> l in todo || l.collection in names
        invariant forall i, j :: 0 <= i < j < |names| ==> names[i] != names[j]
      {
        var l :| l in todo;
        if l.collection !in names {
          assert Loc(l.collection, l.id) in texts;
          names := names + [l.collection];
        }
        todo := todo - {l};
      }
      StringOrder();
      names := Sort(StringLess, names);
    }

    /** A new index takes the place of the old one, even of a damaged one. */
    method Reindex() returns (count: nat)
      modifies this
      ensures Valid()
      ensures Rebuilds(old(Current()), Current(), blind)
      ensures count == |set l | l in texts && Visible(l)|
    {
      var ix := new Index();
      var names := Collections();
      count := 0;
      for n := 0 to |names|
        invariant fresh(ix) && WellFormed(ix.entries) && unchanged(this)
        invariant forall id, b :: Has(ix.entries, b, id) <==> CarriesIn(texts, blind, names[..n], id, b)
        invariant count == |LocsIn(texts, names[..n])|
      {
        var items := ListItems(names[n]);
        AddAll(ix, blind, items);
        count := count + |items|;
        CollectionAdded(texts, blind, names, n, items);
        CollectionCounted(texts, names, n, items);
      }
      assert names[..|names|] == names;
      assert LocsIn(texts, names) == set l | l in texts && Visible(l);
      cached := ix;
      saved := Readable(ix.entries);
    }
  }
}
