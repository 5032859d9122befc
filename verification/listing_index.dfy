/**
 * The Redis sorted sets that index the listings, one per partition key. A key
 * that exists always holds at least one entry (Redis deletes a sorted set whose
 * last member is removed), so "key absent" and "key present" are told apart by
 * the key's presence in `sets`.
 */
module ListingIndex {
  import opened Common
  import opened ZSet
  import opened IndexKeys

  /** `GOODS_IDS_TTL`: minutes an index lives after a rebuild. */
  const GOODS_IDS_TTL := 60

  /** Every stored set is well formed and non-empty. */
  ghost predicate WellFormed(sets: map<IndexKey, seq<Entry>>) {
    forall k :: k in sets ==> ZSet.Valid(sets[k]) && sets[k] != []
  }

  /** The id -> score map held under a key; empty when the key does not exist. */
  function Contents(sets: map<IndexKey, seq<Entry>>, k: IndexKey): map<int, int>
  {
    if k in sets then Scores(sets[k]) else map[]
  }

  /** `getIdsFromZSet`: None when the key does not exist, else up to `count` ids scored in [0, cursor - 1]. */
  function LookupIds(sets: map<IndexKey, seq<Entry>>, k: IndexKey, cursor: int, count: nat): (r: Option<seq<int>>)
    ensures r.None? <==> k !in sets
  {
    if k !in sets then None else Some(RevRangeByScore(sets[k], 0, cursor - 1, count))
  }

  /**
   * What a lookup on an existing key returns: at most `count` distinct indexed ids,
   * each scored in [0, cursor - 1], highest score first, with nothing in range skipped
   * ahead of the last one returned; in particular an empty answer (with count > 0)
   * means no indexed id scores below the cursor.
   */
  lemma LookupMeaning(sets: map<IndexKey, seq<Entry>>, k: IndexKey, cursor: int, count: nat)
    requires WellFormed(sets) && k in sets
    ensures var ids := LookupIds(sets, k, cursor, count).value;
      var c := Contents(sets, k);
      && |ids| <= count
      && (forall i :: 0 <= i < |ids| ==> ids[i] in c && 0 <= c[ids[i]] <= cursor - 1)
      && (forall i, j :: 0 <= i < j < |ids| ==> ids[i] != ids[j] && c[ids[i]] >= c[ids[j]])
      && (forall m :: m in c && 0 <= c[m] <= cursor - 1 && m !in ids ==>
            |ids| == count && (count > 0 ==> ids[count - 1] in c && c[m] <= c[ids[count - 1]]))
      && (count > 0 && ids == [] ==> forall m :: m in c ==> c[m] < 0 || c[m] >= cursor)
  {
    assert LookupIds(sets, k, cursor, count).value == RevRangeByScore(sets[k], 0, cursor - 1, count);
    assert Contents(sets, k) == Scores(sets[k]);
    RevRangeMeaning(sets[k], 0, cursor - 1, count);
  }

  /** `hasKey` followed by ZADD: the id is (re)scored only in a set that already exists. */
  function Upsert(sets: map<IndexKey, seq<Entry>>, k: IndexKey, id: int, score: int): map<IndexKey, seq<Entry>>
  {
    if k in sets then sets[k := Add(sets[k], id, score)] else sets
  }

  /** ZREM: the id leaves the set; a set left empty is deleted, as Redis does. */
  function Unindex(sets: map<IndexKey, seq<Entry>>, k: IndexKey, id: int): map<IndexKey, seq<Entry>>
  {
    if k !in sets then sets
    else
      var rest := Remove(sets[k], id);
      if rest == [] then sets - {k} else sets[k := rest]
  }

  lemma AddNonEmpty(s: seq<Entry>, m: int, score: int)
    requires ZSet.Valid(s)
    ensures Add(s, m, score) != []
  {
    AddMeaning(s, m, score);
    assert m in Scores(Add(s, m, score));
  }

  /**
   * Upsert keeps every set well formed, adds or rescores the id in an existing set
   * and leaves an absent key absent, and touches no other key.
   */
  lemma UpsertContents(sets: map<IndexKey, seq<Entry>>, k: IndexKey, id: int, score: int, other: IndexKey)
    requires WellFormed(sets)
    ensures WellFormed(Upsert(sets, k, id, score))
    ensures (other in Upsert(sets, k, id, score)) <==> other in sets
    ensures Contents(Upsert(sets, k, id, score), other) ==
      if other == k && k in sets then Contents(sets, k)[id := score] else Contents(sets, other)
  {
    if k in sets {
      AddMeaning(sets[k], id, score);
      AddNonEmpty(sets[k], id, score);
    }
  }

  /** Unindex keeps every set well formed, drops exactly the id from its key and touches no other key. */
  lemma UnindexContents(sets: map<IndexKey, seq<Entry>>, k: IndexKey, id: int, other: IndexKey)
    requires WellFormed(sets)
    ensures WellFormed(Unindex(sets, k, id))
    ensures Contents(Unindex(sets, k, id), other) ==
      if other == k then Contents(sets, k) - {id} else Contents(sets, other)
    ensures other != k ==> (other in Unindex(sets, k, id) <==> other in sets)
  {
    if k in sets {
      RemoveMeaning(sets[k], id);
    }
  }

  /** Removing an id that is not indexed under the key changes nothing. */
  lemma UnindexAbsent(sets: map<IndexKey, seq<Entry>>, k: IndexKey, id: int)
    requires WellFormed(sets) && id !in Contents(sets, k)
    ensures Unindex(sets, k, id) == sets
  {
    if k in sets {
      forall e | e in sets[k] ensures e.member != id {
        ScoresOfEntries(sets[k]);
      }
      RemoveAbsent(sets[k], id);
    }
  }

  /** Moving one row from the pending rows into the set leaves their union unchanged. */
  lemma MoveRow(scores: map<int, int>, rest: map<int, int>, id: int)
    requires id in rest
    ensures scores[id := rest[id]] + (rest - {id}) == scores + rest
  {
  }

  /** ZADD of a batch of (id, score) rows, one at a time: the rows override the set's scores. */
  method MergeRows(s: seq<Entry>, rows: map<int, int>) returns (r: seq<Entry>)
    requires ZSet.Valid(s)
    ensures ZSet.Valid(r) && Scores(r) == Scores(s) + rows
  {
    r := s;
    var rest := rows;
    while rest != map[]
      invariant ZSet.Valid(r)
      invariant Scores(r) + rest == Scores(s) + rows
      decreases |rest|
    {
      assert (forall m :: m !in rest) ==> rest == map[];
      var id :| id in rest;
      AddMeaning(r, id, rest[id]);
      MoveRow(Scores(r), rest, id);
      r := Add(r, id, rest[id]);
      rest := rest - {id};
    }
    assert Scores(r) + map[] == Scores(r);
  }

  /** The per-partition sorted sets, with the TTL (minutes) each key was last given. */
  class IndexStore {
    var sets: map<IndexKey, seq<Entry>>
    var ttl: map<IndexKey, int>

    ghost predicate Valid()
      reads this
    {
      WellFormed(sets)
    }

    constructor()
      ensures Valid() && sets == map[] && ttl == map[]
    {
      sets := map[];
      ttl := map[];
    }

    /** `hasKey` then ZADD. */
    method AddIfExists(k: IndexKey, id: int, score: int)
      requires Valid()
      modifies this
      ensures Valid()
      ensures sets == Upsert(old(sets), k, id, score) && ttl == old(ttl)
      ensures sets.Keys == old(sets.Keys)
    {
      UpsertContents(sets, k, id, score, k);
      if k in sets {
        sets := sets[k := Add(sets[k], id, score)];
      }
    }

    /** ZREM; a set emptied by it disappears together with its TTL. */
    method RemoveMember(k: IndexKey, id: int)
      requires Valid()
      modifies this
      ensures Valid()
      ensures sets == Unindex(old(sets), k, id)
      ensures ttl == if k in old(sets) && k !in sets then old(ttl) - {k} else old(ttl)
      ensures sets.Keys <= old(sets.Keys) && ttl == old(ttl) - (old(sets.Keys) - sets.Keys)
    {
      UnindexContents(sets, k, id, k);
      if k in sets {
        var rest := Remove(sets[k], id);
        if rest == [] {
          sets := sets - {k};
          ttl := ttl - {k};
        } else {
          sets := sets[k := rest];
        }
      }
    }

    /**
     * `rebuildZSet`: with no rows the key is left as it was (absent stays absent);
     * otherwise every (id, score) row is ZADDed into the set, merging with whatever
     * it held, and the key is given the 60-minute TTL.
     */
    method Rebuild(k: IndexKey, rows: map<int, int>)
      requires Valid()
      modifies this
      ensures Valid()
      ensures sets == Rebuilt(old(sets), k, rows)
      ensures ttl == if rows == map[] then old(ttl) else old(ttl)[k := GOODS_IDS_TTL]
    {
      if rows == map[] {
        return;
      }
      var s := MergeRows(if k in sets then sets[k] else [], rows);
      assert (forall m :: m !in rows) ==> rows == map[];
      var some :| some in rows;
      assert some in Scores(s);
      SameScoresSameSet(s, SortedFrom(Contents(sets, k) + rows));
      sets := sets[k := s];
      ttl := ttl[k := GOODS_IDS_TTL];
    }
  }

  /**
   * The sets after `rebuildZSet` reads `rows`: unchanged when there are none, else the
   * key holds the well-formed set of its old contents overridden by the rows.
   */
  ghost function Rebuilt(sets: map<IndexKey, seq<Entry>>, k: IndexKey, rows: map<int, int>): map<IndexKey, seq<Entry>>
  {
    if rows == map[] then sets else sets[k := SortedFrom(Contents(sets, k) + rows)]
  }

  /**
   * What a rebuild leaves: every set still well formed; other keys untouched; no
   * rows leave an absent key absent; otherwise the key exists and holds every row's
   * score, and each id indexed before and missing from the rows keeps its old score
   * (merge, not replace).
   */
  lemma RebuiltContents(sets: map<IndexKey, seq<Entry>>, k: IndexKey, rows: map<int, int>, other: IndexKey)
    requires WellFormed(sets)
    ensures WellFormed(Rebuilt(sets, k, rows))
    ensures other != k ==> Contents(Rebuilt(sets, k, rows), other) == Contents(sets, other)
    ensures rows == map[] ==> (k in Rebuilt(sets, k, rows) <==> k in sets)
    ensures rows != map[] ==> k in Rebuilt(sets, k, rows)
    ensures var after := Contents(Rebuilt(sets, k, rows), k);
      && (forall id :: id in rows ==> id in after && after[id] == rows[id])
      && (forall id :: id in Contents(sets, k) && id !in rows ==> id in after && after[id] == Contents(sets, k)[id])
      && (forall id :: id in after ==> id in rows || id in Contents(sets, k))
  {
    if rows != map[] {
      var s := SortedFrom(Contents(sets, k) + rows);
      assert (forall m :: m !in rows) ==> rows == map[];
      var some :| some in rows;
      assert some in Scores(s);
    }
  }
}
