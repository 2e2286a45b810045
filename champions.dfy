/** Champion records as fetched, the name filter, the lookup by identifier and the
    data vector of the radar chart. */
module Champions {
  import opened Wrappers
  import Seqs
  import Text

  /** The attribute bundle `info` of a record. */
  datatype Info = Info(attack: int, defense: int, magic: int, difficulty: int)

  /** A champion record: identifier, display name, description text (`blurb`), ratings. */
  datatype Champion = Champion(id: string, name: string, blurb: string, info: Info)

  /** The four rated attributes, which are also the radar chart's axes. */
  datatype Stat = Attack | Defense | Magic | Difficulty

  /** `info[stat]`. */
  function Rating(info: Info, stat: Stat): int {
    match stat
    case Attack => info.attack
    case Defense => info.defense
    case Magic => info.magic
    case Difficulty => info.difficulty
  }

  /** Radar axes, in the order of the chart's labels. */
  const RadarAxes: seq<Stat> := [Attack, Defense, Magic, Difficulty]

  /** The dataset of the detail view's radar chart: one value per axis. */
  function RadarData(info: Info): (r: seq<int>)
    ensures |r| == |RadarAxes|
    ensures forall k :: 0 <= k < |r| ==> r[k] == Rating(info, RadarAxes[k])
  {
    [info.attack, info.defense, info.magic, info.difficulty]
  }

  /** The search predicate: the lower-cased name contains the lower-cased term. */
  predicate NameMatches(term: string, c: Champion) {
    Text.Includes(Text.Lower(c.name), Text.Lower(term))
  }

  /** `championsData.filter(...)` for a search term. */
  function FilterByName(data: seq<Champion>, term: string): (r: seq<Champion>)
    ensures forall c :: c in r <==> c in data && NameMatches(term, c)
    ensures multiset(r) <= multiset(data)
  {
    Seqs.Filter(c => NameMatches(term, c), data)
  }

  /** The filter result keeps the records in the order of `data`. */
  lemma FilterByNameKeepsOrder(data: seq<Champion>, term: string)
    ensures Seqs.IsSubseq(FilterByName(data, term), data)
  {
    Seqs.FilterIsSubseq(c => NameMatches(term, c), data);
  }

  /** The empty search term keeps every record, in order. */
  lemma FilterByNameEmptyTerm(data: seq<Champion>)
    ensures FilterByName(data, "") == data
  {
    forall i | 0 <= i < |data| ensures NameMatches("", data[i]) {
      Text.IncludesEmpty(Text.Lower(data[i].name));
    }
    Seqs.FilterAll(c => NameMatches("", c), data);
  }

  /** The search ignores the case of the term: lower-casing it first changes nothing. */
  lemma FilterByNameIgnoresCase(data: seq<Champion>, term: string)
    ensures FilterByName(data, term) == FilterByName(data, Text.Lower(term))
  {
    Text.LowerIdempotent(term);
    Seqs.FilterAgree(c => NameMatches(term, c), c => NameMatches(Text.Lower(term), c), data);
  }

  /** `data.find(c => c.id === id)`: the first record with identifier `id`, if any. */
  function FindById(data: seq<Champion>, id: string): (r: Option<Champion>)
    ensures r.None? <==> forall k :: 0 <= k < |data| ==> data[k].id != id
    ensures r.Some? ==> exists k :: FirstWithId(data, id, k) && data[k] == r.value
  {
    if |data| == 0 then None
    else if data[0].id == id then
      assert FirstWithId(data, id, 0);
      Some(data[0])
    else
      var r := FindById(data[1..], id);
      if r.Some? then
        var k :| FirstWithId(data[1..], id, k) && data[1..][k] == r.value;
        assert FirstWithId(data, id, k + 1);
        r
      else
        r
  }

  /** `data[k]` is the first record with identifier `id`. */
  predicate FirstWithId(data: seq<Champion>, id: string, k: int) {
    0 <= k < |data| && data[k].id == id && forall j :: 0 <= j < k ==> data[j].id != id
  }

  /** What the detail view shows of a record: the record and its radar dataset. */
  datatype Details = Details(champion: Champion, radar: seq<int>)
}
