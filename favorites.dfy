/** The favorites list: a list of champion identifiers kept under one key of the
    browser's key-value store, and the records rendered from it. */
module Favorites {
  import opened Wrappers
  import opened Champions
  import Seqs

  /** `JSON.parse(localStorage.getItem('favorites')) || []`: a missing key reads as the
      empty list. */
  function Read(stored: Option<seq<string>>): (favs: seq<string>)
    ensures stored.None? ==> favs == []
    ensures stored.Some? ==> favs == stored.value
  {
    stored.GetOr([])
  }

  /** `addToFavorites`' list: `id` is appended only when it is absent. */
  function Add(favs: seq<string>, id: string): (r: seq<string>)
    ensures id in r
    ensures forall x :: x in r <==> x in favs || x == id
    ensures id in favs ==> r == favs
    ensures id !in favs ==> r == favs + [id]
  {
    if id in favs then favs else favs + [id]
  }

  /** `removeFromFavorites`' list: every occurrence of `id` is dropped. */
  function Remove(favs: seq<string>, id: string): (r: seq<string>)
    ensures id !in r
    ensures forall x :: x in r <==> x in favs && x != id
  {
    Seqs.Filter(x => x != id, favs)
  }

  /** `renderFavorites`' selection: the records whose identifier is in the list. */
  function Select(data: seq<Champion>, favs: seq<string>): (r: seq<Champion>)
    ensures forall c :: c in r <==> c in data && c.id in favs
  {
    Seqs.Filter((c: Champion) => c.id in favs, data)
  }

  /** The rendered favorites keep the order of the record list. */
  lemma SelectKeepsOrder(data: seq<Champion>, favs: seq<string>)
    ensures Seqs.IsSubseq(Select(data, favs), data)
  {
    Seqs.FilterIsSubseq((c: Champion) => c.id in favs, data);
  }

  /** Adding never introduces a duplicate. */
  lemma AddNoDuplicates(favs: seq<string>, id: string)
    requires Seqs.NoDuplicates(favs)
    ensures Seqs.NoDuplicates(Add(favs, id))
  {
  }

  /** Adding the same identifier twice is adding it once. */
  lemma AddTwice(favs: seq<string>, id: string)
    ensures Add(Add(favs, id), id) == Add(favs, id)
  {
  }

  /** An identifier that was absent occurs exactly once after one or more additions. */
  lemma AddOccursOnce(favs: seq<string>, id: string)
    requires id !in favs
    ensures multiset(Add(favs, id))[id] == 1
    ensures multiset(Add(Add(favs, id), id))[id] == 1
  {
  }

  /** Removing never introduces a duplicate. */
  lemma RemoveNoDuplicates(favs: seq<string>, id: string)
    requires Seqs.NoDuplicates(favs)
    ensures Seqs.NoDuplicates(Remove(favs, id))
  {
    Seqs.FilterNoDuplicates(x => x != id, favs);
  }

  /** Removing an identifier that is absent leaves the list as it is. */
  lemma RemoveAbsent(favs: seq<string>, id: string)
    requires id !in favs
    ensures Remove(favs, id) == favs
  {
    Seqs.FilterAll(x => x != id, favs);
  }

  /** Add then remove is the same as remove alone; from a list without `id` it gives
      back that list. */
  lemma RemoveAfterAdd(favs: seq<string>, id: string)
    ensures Remove(Add(favs, id), id) == Remove(favs, id)
    ensures id !in favs ==> Remove(Add(favs, id), id) == favs
  {
    if id !in favs {
      Seqs.FilterAppend(x => x != id, favs, [id]);
      assert Seqs.Filter(x => x != id, [id]) == [];
      RemoveAbsent(favs, id);
    }
  }
}
