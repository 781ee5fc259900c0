/**
 * The read-only queries: stores by tag (`getStoresByTag`), text search
 * (`searchStores`) and the nearby-stores query behind the map (`mapStores`).
 * The text engine's relevance scores and the geo index's distances are
 * given as maps from store id; a store missing from the map does not match.
 */
module Queries {
  import opened Types
  import opened Ranking

  // ---------------------------------------------------------------- tags

  /** The `tags` condition of the query: one tag, or `{$exists: true}`. */
  datatype TagQuery = HasTag(tag: string) | TagsExist

  /** `tag || {$exists: true}`: an absent or empty route tag asks for any store that has a tags field. */
  function ChooseTagQuery(tag: Option<string>): (q: TagQuery)
    ensures q == TagsExist <==> tag == None || tag == Some("")
    ensures q.HasTag? ==> tag == Some(q.tag)
  {
    if tag.Some? && tag.value != "" then HasTag(tag.value) else TagsExist
  }

  /** MongoDB matching of `{tags: q}` against an array field. */
  predicate MatchesTag(s: Store, q: TagQuery)
    ensures MatchesTag(s, q) ==> s.fields.tags.Some?
    ensures q.TagsExist? ==> (MatchesTag(s, q) <==> s.fields.tags.Some?)
    ensures q.HasTag? ==> (MatchesTag(s, q) <==> s.fields.tags.Some? && q.tag in s.fields.tags.value)
  {
    match q
    case HasTag(t) => s.fields.tags.Some? && t in s.fields.tags.value
    case TagsExist => s.fields.tags.Some?
  }

  /** The stores matching the tag query, in collection order. */
  function FilterByTag(stores: seq<Store>, q: TagQuery): (r: seq<Store>)
    ensures forall s :: s in r <==> s in stores && MatchesTag(s, q)
    ensures multiset(r) <= multiset(stores)
    ensures |r| <= |stores|
  {
    if stores == [] then []
    else
      assert stores == [stores[0]] + stores[1..];
      (if MatchesTag(stores[0], q) then [stores[0]] else []) + FilterByTag(stores[1..], q)
  }

  /** getStoresByTag's store list. */
  function GetStoresByTag(stores: seq<Store>, tag: Option<string>): (r: seq<Store>)
    ensures forall s :: s in r ==> s in stores && s.fields.tags.Some?
    ensures multiset(r) <= multiset(stores)
    ensures tag.Some? && tag.value != "" ==>
              forall s :: s in r <==> s in stores && s.fields.tags.Some? && tag.value in s.fields.tags.value
    ensures tag.None? || tag == Some("") ==> forall s :: s in r <==> s in stores && s.fields.tags.Some?
  {
    FilterByTag(stores, ChooseTagQuery(tag))
  }

  /** A store whose tags field holds the empty array still matches when no tag is given. */
  lemma EmptyTagListMatchesWithoutTag(s: Store)
    requires s.fields.tags == Some([])
    ensures GetStoresByTag([s], None) == [s]
    ensures GetStoresByTag([s], Some("cafe")) == []
  {
    assert s in GetStoresByTag([s], None);
  }

  // ---------------------------------------------------------------- ranked reads

  /** A store with the number the database ranked it by (text score or distance). */
  datatype Scored = Scored(store: Store, value: real)

  /** The stores whose id the map covers, with their values, in collection order. */
  function Candidates(stores: seq<Store>, values: map<StoreId, real>): (r: seq<Scored>)
    decreases |stores|, 1
    ensures forall c :: c in r ==> c.store in stores && c.store.id in values && c.value == values[c.store.id]
    ensures forall s :: s in stores && s.id in values ==> Scored(s, values[s.id]) in r
    ensures |r| <= |stores|
    ensures DistinctIds(stores) ==> forall i, j :: 0 <= i < j < |r| ==> r[i].store.id != r[j].store.id
  {
    if stores == [] then []
    else
      var s := stores[0];
      assert stores == [s] + stores[1..];
      var tail := Candidates(stores[1..], values);
      CandidatesTail(stores, values);
      (if s.id in values then [Scored(s, values[s.id])] else []) + tail
  }

  /** With unique ids, no candidate drawn from the later stores shares the first store's id. */
  lemma CandidatesTail(stores: seq<Store>, values: map<StoreId, real>)
    requires |stores| > 0
    ensures DistinctIds(stores) ==> DistinctIds(stores[1..])
    ensures DistinctIds(stores) ==>
              forall c :: c in Candidates(stores[1..], values) ==> c.store.id != stores[0].id
    decreases |stores|, 0
  {
    if DistinctIds(stores) {
      forall c | c in Candidates(stores[1..], values)
        ensures c.store.id != stores[0].id
      {
        var k :| 0 <= k < |stores[1..]| && stores[1..][k] == c.store;
        assert stores[k + 1] == c.store;
      }
    }
  }

  function ScoredId(c: Scored): StoreId { c.store.id }

  /** With unique store ids, a selection from the candidates lists no store twice. */
  lemma SelectionDistinct(stores: seq<Store>, values: map<StoreId, real>, r: seq<Scored>)
    requires multiset(r) <= multiset(Candidates(stores, values))
    ensures DistinctIds(stores) ==> forall i, j :: 0 <= i < j < |r| ==> r[i].store.id != r[j].store.id
  {
    if DistinctIds(stores) {
      var cands := Candidates(stores, values);
      assert DistinctOn(cands, ScoredId);
      DistinctOnSub(r, cands, ScoredId);
      forall i, j | 0 <= i < j < |r|
        ensures r[i].store.id != r[j].store.id
      {
        assert ScoredId(r[i]) != ScoredId(r[j]);
      }
    }
  }

  lemma {:induction false} NoCandidates(stores: seq<Store>)
    ensures Candidates(stores, map[]) == []
  {
    if stores != [] {
      NoCandidates(stores[1..]);
    }
  }

  const SearchLimit: nat := 5

  function ScoreKey(c: Scored): real { -c.value }

  /**
   * searchStores: the text matches ranked by `textScore`, best first, at most
   * five. `scores` holds the score of every store matching the query.
   */
  function SearchStores(stores: seq<Store>, scores: map<StoreId, real>): (r: seq<Scored>)
    ensures |r| == Min(SearchLimit, |Candidates(stores, scores)|)
    ensures forall c :: c in r ==> c.store in stores && c.store.id in scores && c.value == scores[c.store.id]
    ensures forall i, j :: 0 <= i < j < |r| ==> r[i].value >= r[j].value
    ensures multiset(r) <= multiset(Candidates(stores, scores))
    ensures forall c :: multiset(r)[c] < multiset(Candidates(stores, scores))[c] ==>
              forall i :: 0 <= i < |r| ==> c.value <= r[i].value
    ensures DistinctIds(stores) ==> forall i, j :: 0 <= i < j < |r| ==> r[i].store.id != r[j].store.id
  {
    var cands := Candidates(stores, scores);
    var r := TopK(cands, ScoreKey, SearchLimit);
    SubMultisetMembers(r, cands);
    SelectionDistinct(stores, scores, r);
    r
  }

  /** A query that matches no store finds nothing. */
  lemma SearchWithoutMatches(stores: seq<Store>)
    ensures SearchStores(stores, map[]) == []
  {
    NoCandidates(stores);
  }

  const MaxDistance: real := 10000.0
  const MapLimit: nat := 10

  /** The `$maxDistance` cut: only distances up to 10000 m stay in the map. */
  function WithinRange(distances: map<StoreId, real>): (r: map<StoreId, real>)
    ensures forall id :: id in r <==> id in distances && distances[id] <= MaxDistance
    ensures forall id :: id in r ==> r[id] == distances[id]
  {
    map id | id in distances && distances[id] <= MaxDistance :: distances[id]
  }

  function DistanceKey(c: Scored): real { c.value }

  /**
   * The `$near` query with `limit(10)`: stores at most 10000 m away, nearest
   * first, at most ten, and no nearer store in range left out.
   */
  function NearestStores(stores: seq<Store>, distances: map<StoreId, real>): (r: seq<Scored>)
    ensures |r| <= MapLimit
    ensures |r| == Min(MapLimit, |Candidates(stores, WithinRange(distances))|)
    ensures forall c :: c in r ==>
              && c.store in stores && c.store.id in distances
              && c.value == distances[c.store.id] && c.value <= MaxDistance
    ensures forall i, j :: 0 <= i < j < |r| ==> r[i].value <= r[j].value
    ensures multiset(r) <= multiset(Candidates(stores, WithinRange(distances)))
    ensures forall c :: multiset(r)[c] < multiset(Candidates(stores, WithinRange(distances)))[c] ==>
              forall i :: 0 <= i < |r| ==> r[i].value <= c.value
    ensures DistinctIds(stores) ==> forall i, j :: 0 <= i < j < |r| ==> r[i].store.id != r[j].store.id
  {
    var cands := Candidates(stores, WithinRange(distances));
    var r := TopK(cands, DistanceKey, MapLimit);
    SubMultisetMembers(r, cands);
    SelectionDistinct(stores, WithinRange(distances), r);
    r
  }

  /** `select('slug name description location photo')`; `_id` comes along by default. */
  datatype Projection = Projection(
    id: StoreId, slug: string, name: Option<string>, description: Option<string>,
    location: Option<Location>, photo: Option<string>)

  function Project(s: Store): (p: Projection)
    ensures p.id == s.id && p.slug == s.slug && p.name == s.fields.name
    ensures p.description == s.fields.description && p.location == s.fields.location
    ensures p.photo == s.fields.photo
  {
    Projection(s.id, s.slug, s.fields.name, s.fields.description, s.fields.location, s.fields.photo)
  }

  /** mapStores: the nearest stores in range, each cut down to the selected fields. */
  function MapStores(stores: seq<Store>, distances: map<StoreId, real>): (r: seq<Projection>)
    ensures |r| <= MapLimit
    ensures |r| == |NearestStores(stores, distances)|
    ensures forall i :: 0 <= i < |r| ==> r[i] == Project(NearestStores(stores, distances)[i].store)
  {
    var near := NearestStores(stores, distances);
    seq(|near|, i requires 0 <= i < |near| => Project(near[i].store))
  }

  lemma NearbyCandidates(a: Store, b: Store, c: Store)
    requires a.id != b.id && b.id != c.id && a.id != c.id
    ensures var d := map[a.id := 5000.0, b.id := 8000.0, c.id := 15000.0];
            Candidates([c, b, a], WithinRange(d)) == [Scored(b, 8000.0), Scored(a, 5000.0)]
  {
    var d := map[a.id := 5000.0, b.id := 8000.0, c.id := 15000.0];
    var w := WithinRange(d);
    assert c.id !in w && w[b.id] == 8000.0 && w[a.id] == 5000.0;
    assert [c, b, a][1..] == [b, a] && [b, a][1..] == [a] && [a][1..] == [];
    assert Candidates([a], w) == [Scored(a, 5000.0)];
  }

  /** A store 8 km away ranks after one 5 km away. */
  lemma NearbyRanking(a: Store, b: Store)
    ensures TopK([Scored(b, 8000.0), Scored(a, 5000.0)], DistanceKey, MapLimit)
            == [Scored(a, 5000.0), Scored(b, 8000.0)]
  {
    var x, y := Scored(b, 8000.0), Scored(a, 5000.0);
    assert [x, y][1..] == [y] && [y][1..] == [];
    assert SortBy([y], DistanceKey) == [y];
    assert Insert(x, [y], DistanceKey) == [y, x];
    assert SortBy([x, y], DistanceKey) == [y, x];
    assert [y, x][..Min(MapLimit, 2)] == [y, x];
  }

  /** A store 15 km away is left out; one at 5 km is listed before one at 8 km. */
  lemma NearbyExample(a: Store, b: Store, c: Store)
    requires a.id != b.id && b.id != c.id && a.id != c.id
    ensures var d := map[a.id := 5000.0, b.id := 8000.0, c.id := 15000.0];
            NearestStores([c, b, a], d) == [Scored(a, 5000.0), Scored(b, 8000.0)]
  {
    NearbyCandidates(a, b, c);
    NearbyRanking(a, b);
  }
}
