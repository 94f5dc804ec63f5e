/**
 The team data repository: batched lookup of team entities by row key, the
 sorted list of their names, and the whole partition as a set ordered (and
 keyed) by team name.

 The table store is not part of this model. A filtered read is a function
 parameter from the batch of row keys in the filter to the entities the store
 returns; the read of the whole partition is the sequence it returned.
 */
module TeamData {
  import opened NullableRef
  import opened Chunking
  import OrdinalString
  import Permutation

  /** A row of the team data table; attributes the repository never reads are omitted. */
  datatype TeamDataEntity = TeamDataEntity(partitionKey: string, rowKey: string, name: string)

  /** The most row keys combined into one filter, so that the request URL stays short enough. */
  const MaxNoPerFilter: nat := 20

  /** A store read filtered on a batch of row keys. */
  type RowKeyQuery = seq<string> -> seq<TeamDataEntity>

  /** The store honours the filter: it returns only entities whose row key is in the batch. */
  ghost predicate HonoursRowKeyFilter(query: RowKeyQuery)
  {
    forall batch: seq<string>, e: TeamDataEntity :: e in query(batch) ==> e.rowKey in batch
  }

  /** A null id collection behaves like an empty one. */
  function IdsOrEmpty(teamIds: Nullable<seq<string>>): seq<string>
  {
    if teamIds.Null? then [] else teamIds.value
  }

  /** The answers of the store to each batch, in batch order. */
  function QueryEach(query: RowKeyQuery, batches: seq<seq<string>>): (r: seq<seq<TeamDataEntity>>)
    ensures |r| == |batches|
    ensures forall k :: 0 <= k < |r| ==> r[k] == query(batches[k])
  {
    seq(|batches|, k requires 0 <= k < |batches| => query(batches[k]))
  }

  /** Querying one more batch appends its answer to the concatenated results. */
  lemma QueryEachAppend(query: RowKeyQuery, batches: seq<seq<string>>, batch: seq<string>)
    ensures Flatten(QueryEach(query, batches + [batch])) == Flatten(QueryEach(query, batches)) + query(batch)
  {
    assert QueryEach(query, batches + [batch]) == QueryEach(query, batches) + [query(batch)];
    FlattenAppend(QueryEach(query, batches), [query(batch)]);
    assert Flatten([query(batch)]) == query(batch);
  }

  /** The functional reading of the batched lookup: answers to the batches of 20, concatenated. */
  function LookupByIds(teamIds: Nullable<seq<string>>, query: RowKeyQuery): seq<TeamDataEntity>
  {
    Flatten(QueryEach(query, Batches(IdsOrEmpty(teamIds), MaxNoPerFilter)))
  }

  /**
   GetTeamDataEntitiesByIdsAsync. `issued` records the batch of row keys in
   each store query, in the order the queries are made.
   */
  method GetTeamDataEntitiesByIds(teamIds: Nullable<seq<string>>, query: RowKeyQuery)
    returns (entities: seq<TeamDataEntity>, issued: seq<seq<string>>)
    ensures |IdsOrEmpty(teamIds)| == 0 ==> entities == [] && issued == []
    ensures |issued| == CeilDiv(|IdsOrEmpty(teamIds)|, MaxNoPerFilter)
    ensures forall k :: 0 <= k < |issued| ==> 0 < |issued[k]| <= MaxNoPerFilter
    ensures forall k :: 0 <= k < |issued| - 1 ==> |issued[k]| == MaxNoPerFilter
    ensures Flatten(issued) == IdsOrEmpty(teamIds)
    ensures issued == Batches(IdsOrEmpty(teamIds), MaxNoPerFilter)
    ensures entities == Flatten(QueryEach(query, issued))
    ensures entities == LookupByIds(teamIds, query)
  {
    if teamIds.Null? || |teamIds.value| == 0 {
      return [], [];
    }
    var ids := teamIds.value;
    ghost var batches := Batches(ids, MaxNoPerFilter);
    entities, issued := [], [];
    var batchAmount := CeilDiv(|ids|, MaxNoPerFilter);
    assert |batches| == batchAmount;
    var i := 0;
    while i < batchAmount
      invariant 0 <= i <= batchAmount
      invariant issued == batches[..i]
      invariant entities == Flatten(QueryEach(query, issued))
    {
      var currentIds := Take(Skip(ids, i * MaxNoPerFilter), MaxNoPerFilter);
      BatchAt(ids, MaxNoPerFilter, i);
      assert currentIds == batches[i];
      var data := query(currentIds);
      QueryEachAppend(query, issued, currentIds);
      entities := entities + data;
      issued := issued + [currentIds];
      assert batches[..i + 1] == batches[..i] + [batches[i]];
      i := i + 1;
    }
    assert issued == batches;
  }

  /** Every entity the lookup returns was answered to a batch, so its row key was requested. */
  lemma LookupReturnsOnlyRequestedIds(teamIds: Nullable<seq<string>>, query: RowKeyQuery, e: TeamDataEntity)
    requires HonoursRowKeyFilter(query)
    requires e in LookupByIds(teamIds, query)
    ensures e.rowKey in IdsOrEmpty(teamIds)
  {
    var ids := IdsOrEmpty(teamIds);
    var batches := Batches(ids, MaxNoPerFilter);
    var answers := QueryEach(query, batches);
    InFlatten(answers, e);
    var k :| 0 <= k < |answers| && e in answers[k];
    assert e.rowKey in batches[k];
    InFlatten(batches, e.rowKey);
  }

  /**
   Ids are not deduplicated: 21 copies of one id make two batches, and an
   entity matching that id is returned once per batch.
   */
  lemma RepeatedIdAcrossBatchesRepeatsEntity(e: TeamDataEntity)
    ensures var ids := seq(21, _ => e.rowKey);
            var query: RowKeyQuery := batch => if e.rowKey in batch then [e] else [];
            LookupByIds(NonNull(ids), query) == [e, e]
  {
    var ids := seq(21, _ => e.rowKey);
    var query: RowKeyQuery := batch => if e.rowKey in batch then [e] else [];
    var batches := Batches(ids, MaxNoPerFilter);
    assert batches == [ids[..20], ids[20..]] by {
      assert Batches(ids[20..], MaxNoPerFilter) == [ids[20..]];
    }
    assert ids[0] in ids[..20] && ids[20] in ids[20..];
    assert QueryEach(query, batches) == [[e], [e]];
    assert Flatten([[e], [e]]) == [e] + Flatten([[e]]);
  }

  function NameOf(e: TeamDataEntity): string
  {
    e.name
  }

  /** The projection `Select(p => p.Name)`. */
  function NamesOf(entities: seq<TeamDataEntity>): (r: seq<string>)
    ensures |r| == |entities|
    ensures forall k :: 0 <= k < |r| ==> r[k] == entities[k].name
  {
    Permutation.Map(NameOf, entities)
  }

  /** GetTeamNamesByIdsAsync: the names of the looked-up teams, in ascending order. */
  method GetTeamNamesByIds(ids: Nullable<seq<string>>, query: RowKeyQuery) returns (names: seq<string>)
    ensures OrdinalString.Sorted(names)
    ensures multiset(names) == multiset(NamesOf(LookupByIds(ids, query)))
  {
    var entities, _ := GetTeamDataEntitiesByIds(ids, query);
    names := OrdinalString.Sort(NamesOf(entities));
  }

  /** The names depend only on which entities the store returns, not on the order it returns them in. */
  lemma TeamNamesIgnoreStoreOrder(a: seq<TeamDataEntity>, b: seq<TeamDataEntity>)
    requires multiset(a) == multiset(b)
    ensures OrdinalString.Sort(NamesOf(a)) == OrdinalString.Sort(NamesOf(b))
  {
    Permutation.MapPreservesPermutation(NameOf, a, b);
    OrdinalString.SortIgnoresInputOrder(NamesOf(a), NamesOf(b));
  }

  /** TeamDataEntityComparer.Compare: entities are compared by name only. */
  function CompareByName(x: TeamDataEntity, y: TeamDataEntity): (r: int)
    ensures r == 0 <==> x.name == y.name
    ensures r < 0 <==> OrdinalString.Less(x.name, y.name)
    ensures r > 0 <==> OrdinalString.Less(y.name, x.name)
  {
    OrdinalString.CompareAgreesWithLessOrEqual(x.name, y.name);
    OrdinalString.CompareAgreesWithLessOrEqual(y.name, x.name);
    OrdinalString.CompareAntisymmetric(x.name, y.name);
    OrdinalString.Compare(x.name, y.name)
  }

  /** The invariant of a SortedSet under the name comparer: strictly ascending names. */
  predicate StrictlyAscendingByName(s: seq<TeamDataEntity>)
  {
    forall i, j :: 0 <= i < j < |s| ==> OrdinalString.Less(s[i].name, s[j].name)
  }

  lemma AscendingCons(x: TeamDataEntity, s: seq<TeamDataEntity>)
    requires StrictlyAscendingByName(s)
    requires forall y :: y in s ==> OrdinalString.Less(x.name, y.name)
    ensures StrictlyAscendingByName([x] + s)
  {
    forall i, j | 0 <= i < j < |[x] + s|
      ensures OrdinalString.Less(([x] + s)[i].name, ([x] + s)[j].name)
    {
      assert ([x] + s)[j] == s[j - 1];
      if i > 0 {
        assert ([x] + s)[i] == s[i - 1];
      }
    }
  }

  /** The head of a strictly ascending sequence precedes every later element; the tail stays ascending. */
  lemma AscendingTail(s: seq<TeamDataEntity>)
    requires StrictlyAscendingByName(s) && |s| > 0
    ensures StrictlyAscendingByName(s[1..])
    ensures forall y :: y in s[1..] ==> OrdinalString.Less(s[0].name, y.name)
  {
    forall y | y in s[1..]
      ensures OrdinalString.Less(s[0].name, y.name)
    {
      var j :| 0 <= j < |s[1..]| && s[1..][j] == y;
      assert s[j + 1] == y;
    }
    forall i, j | 0 <= i < j < |s[1..]|
      ensures OrdinalString.Less(s[1..][i].name, s[1..][j].name)
    {
      assert s[1..][i] == s[i + 1] && s[1..][j] == s[j + 1];
    }
  }

  function NamesIn(s: seq<TeamDataEntity>): set<string>
  {
    set e | e in s :: e.name
  }

  lemma NamesInCons(x: TeamDataEntity, s: seq<TeamDataEntity>)
    ensures NamesIn([x] + s) == {x.name} + NamesIn(s)
  {
    assert forall e :: e in [x] + s <==> e == x || e in s;
  }

  lemma NamesInSnoc(s: seq<TeamDataEntity>, x: TeamDataEntity)
    ensures NamesIn(s + [x]) == NamesIn(s) + {x.name}
  {
    assert forall e :: e in s + [x] <==> e == x || e in s;
  }

  /**
   SortedSet.Add under the name comparer: an entity whose name is already
   present is rejected and the set is unchanged; otherwise it is placed in
   name order.
   */
  function SortedSetAdd(s: seq<TeamDataEntity>, e: TeamDataEntity): (r: seq<TeamDataEntity>)
    requires StrictlyAscendingByName(s)
    ensures StrictlyAscendingByName(r)
    ensures forall x :: x in r ==> x in s || x == e
    ensures NamesIn(r) == NamesIn(s) + {e.name}
    ensures e.name in NamesIn(s) ==> r == s
    ensures e.name !in NamesIn(s) ==> e in r
    decreases |s|
  {
    if |s| == 0 then
      [e]
    else
      var c := CompareByName(e, s[0]);
      assert s == [s[0]] + s[1..];
      NamesInCons(s[0], s[1..]);
      if c == 0 then
        s
      else if c < 0 then
        forall x | x in s
          ensures OrdinalString.Less(e.name, x.name)
        {
          if x != s[0] {
            OrdinalString.LessTransitive(e.name, s[0].name, x.name);
          }
        }
        AscendingCons(e, s);
        NamesInCons(e, s);
        [e] + s
      else
        AscendingTail(s);
        var rest := SortedSetAdd(s[1..], e);
        NamesInCons(s[0], rest);
        AscendingCons(s[0], rest);
        [s[0]] + rest
  }

  /**
   The SortedSet constructor over the partition's entities with the name
   comparer, adding them in enumeration order.
   */
  function NewSortedSet(items: seq<TeamDataEntity>): (r: seq<TeamDataEntity>)
    ensures StrictlyAscendingByName(r)
    ensures forall x :: x in r ==> x in items
    ensures NamesIn(r) == NamesIn(items)
    decreases |items|
  {
    if |items| == 0 then
      []
    else
      var init, last := items[..|items| - 1], items[|items| - 1];
      assert items == init + [last];
      NamesInSnoc(init, last);
      SortedSetAdd(NewSortedSet(init), last)
  }

  lemma {:induction false} DistinctNamesCount(s: seq<TeamDataEntity>)
    requires forall i, j :: 0 <= i < j < |s| ==> s[i].name != s[j].name
    ensures |NamesIn(s)| == |s|
    decreases |s|
  {
    if |s| > 0 {
      assert s == [s[0]] + s[1..];
      NamesInCons(s[0], s[1..]);
      DistinctNamesCount(s[1..]);
      assert s[0].name !in NamesIn(s[1..]);
    }
  }

  lemma {:induction false} NamesCountBound(s: seq<TeamDataEntity>)
    ensures |NamesIn(s)| <= |s|
    ensures (exists i, j :: 0 <= i < j < |s| && s[i].name == s[j].name) ==> |NamesIn(s)| < |s|
    decreases |s|
  {
    if |s| > 0 {
      assert s == [s[0]] + s[1..];
      NamesInCons(s[0], s[1..]);
      NamesCountBound(s[1..]);
      if exists i, j :: 0 <= i < j < |s| && s[i].name == s[j].name {
        var i, j :| 0 <= i < j < |s| && s[i].name == s[j].name;
        if i == 0 {
          assert s[j] in s[1..];
        } else {
          assert s[1..][i - 1].name == s[1..][j - 1].name;
        }
      }
    }
  }

  /**
   GetAllSortedAlphabeticallyByNameAsync over the partition the store
   returned: one entity per distinct name, in strictly ascending name order.
   */
  function GetAllSortedAlphabeticallyByName(partition: seq<TeamDataEntity>): (r: seq<TeamDataEntity>)
    ensures StrictlyAscendingByName(r)
    ensures forall x :: x in r ==> x in partition
    ensures NamesIn(r) == NamesIn(partition)
    ensures |r| == |NamesIn(partition)|
  {
    var r := NewSortedSet(partition);
    DistinctNamesCount(r);
    r
  }

  /** No two entities of the sorted set share a name. */
  lemma AtMostOneEntityPerName(partition: seq<TeamDataEntity>, x: TeamDataEntity, y: TeamDataEntity)
    requires x in GetAllSortedAlphabeticallyByName(partition)
    requires y in GetAllSortedAlphabeticallyByName(partition)
    requires x.name == y.name
    ensures x == y
  {
    var r := GetAllSortedAlphabeticallyByName(partition);
    var i :| 0 <= i < |r| && r[i] == x;
    var j :| 0 <= j < |r| && r[j] == y;
    assert !(i < j) && !(j < i);
  }

  /** Two entities of the partition with the same name make the result shorter than the partition. */
  lemma SameNameEntitiesCollapse(partition: seq<TeamDataEntity>, i: nat, j: nat)
    requires i < j < |partition|
    requires partition[i].name == partition[j].name
    ensures |GetAllSortedAlphabeticallyByName(partition)| < |partition|
  {
    NamesCountBound(partition);
  }

}
