/** What a caller of the item store sees afterwards: the item that was created, the one that was
  * deleted, and which items a listing shows.
  */
module ItemEffects {
  import opened Wrappers
  import opened Items
  import opened AttributeIndex
  import opened ItemStore
  import opened IndexRefinement

  // ---------- creating ----------

  /** What is stored is what was given, except for its ID and its times: a replacement keeps the ID and
    * the birth of the item it replaces, and a new item without them gets fresh ones.
    */
  lemma StampMeans(it: Item, found: Option<Item>, freshId: string, now: Time)
    ensures var stored := Stamped(it, found, freshId, now);
      && stored.secret == it.secret && stored.caption == it.caption && stored.attributes == it.attributes
      && stored.modified == now
      && (found.Some? && found.value.id != "" ==> stored.id == found.value.id)
      && (found.Some? && found.value.created.Unix? ==> stored.created == found.value.created)
      && (found.None? ==> stored.id == if it.id != "" then it.id else freshId)
      && (found.None? ==> stored.created == if it.created.Unix? then it.created else now)
  {
  }

  /** A created item reads back whole, and every other text of the store is as it was. */
  lemma CreatedReadsBack(s: State, s': State, blind: Blind, c: string, it: Item, replace: bool, freshId: string, now: Time, found: Option<Item>)
    requires Creates(s, s', blind, c, it, replace, freshId, now, found) && (replace || found.None?)
    ensures var stored := Stamped(it, found, freshId, now);
      && Loc(c, stored.id) in s'.texts
      && (Carried(stored) ==> ItemAt(s'.texts, Loc(c, stored.id)) == stored)
      && forall l :: l != Loc(c, stored.id) ==> (l in s'.texts <==> l in s.texts) && (l in s.texts ==> s'.texts[l] == s.texts[l])
  {
    var stored := Stamped(it, found, freshId, now);
    if Carried(stored) {
      PrintedReads(s'.texts[Loc(c, stored.id)], stored);
    }
  }

  /** And a search for some of its attributes finds it, unless the index is damaged. */
  lemma CreatedIsFound(s: State, s': State, blind: Blind, c: string, it: Item, replace: bool, freshId: string, now: Time,
                       found: Option<Item>, query: map<string, string>, r: seq<Item>)
    requires Creates(s, s', blind, c, it, replace, freshId, now, found) && (replace || found.None?) && !s.saved.Unreadable?
    requires query != map[] && forall k :: k in query ==> k in it.attributes && it.attributes[k] == query[k]
    requires IsSearch(r, s'.texts, EntriesOf(s'.saved), blind, c, query)
    ensures var stored := Stamped(it, found, freshId, now); Carried(stored) ==> stored in r
  {
    var stored := Stamped(it, found, freshId, now);
    CreatedReadsBack(s, s', blind, c, it, replace, freshId, now, found);
    forall k | k in query ensures Has(EntriesOf(s'.saved), blind(k, query[k]), stored.id) {
      assert Blinds(blind, stored.attributes, blind(k, query[k]));
    }
  }

  // ---------- deleting ----------

  /** A deleted item is in no listing of its collection, and no search over the index finds its ID. */
  lemma DeletedIsGone(s: State, s': State, blind: Blind, c: string, id: string, query: map<string, string>, listing: seq<Item>, r: seq<Item>)
    requires Deletes(s, s', c, id)
    requires IsItems(listing, s'.texts, c) && IsSearch(r, s'.texts, EntriesOf(s'.saved), blind, c, query)
    ensures forall it :: it in listing || it in r ==> it.id != id
    ensures forall l :: l != Loc(c, id) ==> (l in s'.texts <==> l in s.texts) && (l in s.texts ==> s'.texts[l] == s.texts[l])
  {
  }

  // ---------- listing ----------

  /** A listing shows exactly the items of the collection whose names, like its own, have no leading dot. */
  lemma ListingShows(r: seq<Item>, t: Texts, c: string, id: string)
    requires IsItems(r, t, c)
    ensures (exists it :: it in r && it.id == id) <==>
      Loc(c, id) in t && c != "" && c[0] != '.' && id != "" && id[0] != '.'
  {
    if Loc(c, id) in t && Visible(Loc(c, id)) {
      ItemReads(id, t[Loc(c, id)]);
      assert Holds(t, c, ItemAt(t, Loc(c, id)));
      assert ItemAt(t, Loc(c, id)) in r;
    }
  }

  /** An empty query asks for nothing, so the index has no answer to it; every item matches it. */
  lemma EmptyQuery(e: Entries, blind: Blind, it: Item)
    ensures Matches(it, map[]) && !Hit(e, blind, map[], it.id)
  {
  }
}
