/**
 * A Redis sorted set of ids scored by a millisecond timestamp, kept as the
 * sequence Redis walks for a reverse range: highest score first. Redis breaks ties
 * by the serialized member's bytes; the model orders equal scores by member id,
 * highest first, as a modelling choice. A listing index (category, owner, all goods,
 * offline, favourites, user list) is one such set.
 */
module ZSet {
  import opened Common

  datatype Entry = Entry(member: int, score: int)

  /** `a` comes before `b` in a reverse walk of the set. */
  predicate Above(a: Entry, b: Entry) {
    a.score > b.score || (a.score == b.score && a.member > b.member)
  }

  predicate Sorted(s: seq<Entry>) {
    forall i, j :: 0 <= i < j < |s| ==> Above(s[i], s[j])
  }

  predicate DistinctMembers(s: seq<Entry>) {
    forall i, j :: 0 <= i < j < |s| ==> s[i].member != s[j].member
  }

  /** A well-formed sorted set: in Redis order, each member once. */
  predicate Valid(s: seq<Entry>) {
    Sorted(s) && DistinctMembers(s)
  }

  /** The ids of the entries, in order. */
  function Members(s: seq<Entry>): (ids: seq<int>)
    ensures |ids| == |s|
    ensures forall i :: 0 <= i < |s| ==> ids[i] == s[i].member
  {
    if s == [] then [] else [s[0].member] + Members(s[1..])
  }

  /** The set as an id -> score map (what ZSCORE answers). */
  function Scores(s: seq<Entry>): map<int, int>
  {
    if s == [] then map[] else Scores(s[1..])[s[0].member := s[0].score]
  }

  /** Every entry of a set with distinct members is recorded in its score map. */
  lemma {:induction false} ScoresOfEntries(s: seq<Entry>)
    requires DistinctMembers(s)
    ensures forall e :: e in s ==> e.member in Scores(s) && Scores(s)[e.member] == e.score
  {
    if s != [] {
      assert s == [s[0]] + s[1..];
      DistinctCons(s[0], s[1..]);
      ScoresOfEntries(s[1..]);
    }
  }

  /** Every score the map records comes from an entry of the set. */
  lemma {:induction false} EntriesOfScores(s: seq<Entry>)
    ensures forall k :: k in Scores(s) ==> Entry(k, Scores(s)[k]) in s
  {
    if s != [] {
      EntriesOfScores(s[1..]);
      assert forall x :: x in s[1..] ==> x in s;
    }
  }

  /** ZREM: drop `m` from the set (a no-op when it is absent). */
  function Remove(s: seq<Entry>, m: int): seq<Entry>
  {
    if s == [] then []
    else if s[0].member == m then Remove(s[1..], m)
    else [s[0]] + Remove(s[1..], m)
  }

  /** Put `e` at its place in Redis order. */
  function Insert(s: seq<Entry>, e: Entry): seq<Entry>
  {
    if s == [] || Above(e, s[0]) then [e] + s
    else [s[0]] + Insert(s[1..], e)
  }

  /** ZADD of one member: insert it, or move it to its new score if already present. */
  function Add(s: seq<Entry>, m: int, score: int): seq<Entry>
  {
    Insert(Remove(s, m), Entry(m, score))
  }

  /** A set with `e` in front is in order iff `e` is above everything after it and the rest is in order. */
  lemma SortedCons(e: Entry, t: seq<Entry>)
    ensures Sorted([e] + t) <==> (forall x :: x in t ==> Above(e, x)) && Sorted(t)
  {
    var r := [e] + t;
    if (forall x :: x in t ==> Above(e, x)) && Sorted(t) {
      forall i, j | 0 <= i < j < |r| ensures Above(r[i], r[j]) {
        assert r[j] == t[j - 1] && t[j - 1] in t;
        if i > 0 {
          assert r[i] == t[i - 1];
        }
      }
    }
    if Sorted(r) {
      forall x | x in t ensures Above(e, x) {
        var k :| 0 <= k < |t| && t[k] == x;
        assert r[0] == e && r[k + 1] == x;
        assert Above(r[0], r[k + 1]);
      }
      forall i, j | 0 <= i < j < |t| ensures Above(t[i], t[j]) {
        assert r[i + 1] == t[i] && r[j + 1] == t[j];
      }
    }
  }

  /** Likewise for members occurring once. */
  lemma DistinctCons(e: Entry, t: seq<Entry>)
    ensures DistinctMembers([e] + t) <==> (forall x :: x in t ==> x.member != e.member) && DistinctMembers(t)
  {
    var r := [e] + t;
    if (forall x :: x in t ==> x.member != e.member) && DistinctMembers(t) {
      forall i, j | 0 <= i < j < |r| ensures r[i].member != r[j].member {
        assert r[j] == t[j - 1] && t[j - 1] in t;
        if i > 0 {
          assert r[i] == t[i - 1];
        }
      }
    }
    if DistinctMembers(r) {
      forall x | x in t ensures x.member != e.member {
        var k :| 0 <= k < |t| && t[k] == x;
        assert r[0] == e && r[k + 1] == x;
        assert r[0].member != r[k + 1].member;
      }
      forall i, j | 0 <= i < j < |t| ensures t[i].member != t[j].member {
        assert r[i + 1] == t[i] && r[j + 1] == t[j];
      }
    }
  }

  lemma {:induction false} RemoveElements(s: seq<Entry>, m: int)
    ensures forall e :: e in Remove(s, m) <==> e in s && e.member != m
    ensures |Remove(s, m)| <= |s|
  {
    if s != [] {
      RemoveElements(s[1..], m);
      assert forall e :: e in s <==> e == s[0] || e in s[1..];
    }
  }

  lemma {:induction false} RemoveValid(s: seq<Entry>, m: int)
    requires Valid(s)
    ensures Valid(Remove(s, m))
  {
    if s != [] {
      assert s == [s[0]] + s[1..];
      SortedCons(s[0], s[1..]);
      DistinctCons(s[0], s[1..]);
      RemoveValid(s[1..], m);
      RemoveElements(s[1..], m);
      if s[0].member != m {
        SortedCons(s[0], Remove(s[1..], m));
        DistinctCons(s[0], Remove(s[1..], m));
      }
    }
  }

  lemma {:induction false} InsertElements(s: seq<Entry>, e: Entry)
    ensures forall x :: x in Insert(s, e) <==> x in s || x == e
    ensures |Insert(s, e)| == |s| + 1
  {
    if s != [] && !Above(e, s[0]) {
      InsertElements(s[1..], e);
      assert forall x :: x in s <==> x == s[0] || x in s[1..];
    }
  }

  /** Above is a strict order on entries with different members. */
  lemma AboveTotal(a: Entry, b: Entry)
    requires a.member != b.member
    ensures Above(a, b) || Above(b, a)
  {
  }

  lemma AboveTransitive(a: Entry, b: Entry, c: Entry)
    requires Above(a, b) && Above(b, c)
    ensures Above(a, c)
  {
  }

  lemma {:induction false} InsertValid(s: seq<Entry>, e: Entry)
    requires Valid(s) && forall x :: x in s ==> x.member != e.member
    ensures Valid(Insert(s, e))
  {
    if s == [] {
    } else {
      assert s == [s[0]] + s[1..];
      SortedCons(s[0], s[1..]);
      DistinctCons(s[0], s[1..]);
      if Above(e, s[0]) {
        forall x | x in s ensures Above(e, x) {
          if x != s[0] {
            AboveTransitive(e, s[0], x);
          }
        }
        SortedCons(e, s);
        DistinctCons(e, s);
      } else {
        assert s[0] in s;
        AboveTotal(e, s[0]);
        assert forall x :: x in s[1..] ==> x in s;
        InsertValid(s[1..], e);
        InsertElements(s[1..], e);
        SortedCons(s[0], Insert(s[1..], e));
        DistinctCons(s[0], Insert(s[1..], e));
      }
    }
  }

  /** The entries of a valid set are determined by its score map: `e` is in `s` iff it records `e`'s score. */
  lemma EntryInValid(s: seq<Entry>, e: Entry)
    requires Valid(s)
    ensures e in s <==> e.member in Scores(s) && Scores(s)[e.member] == e.score
  {
    ScoresOfEntries(s);
    EntriesOfScores(s);
  }

  lemma {:induction false} ScoresRemove(s: seq<Entry>, m: int)
    ensures Scores(Remove(s, m)) == Scores(s) - {m}
  {
    if s != [] {
      ScoresRemove(s[1..], m);
      if s[0].member != m {
        assert Scores(s[1..])[s[0].member := s[0].score] - {m}
            == (Scores(s[1..]) - {m})[s[0].member := s[0].score];
      } else {
        assert Scores(s[1..])[s[0].member := s[0].score] - {m} == Scores(s[1..]) - {m};
      }
    }
  }

  lemma {:induction false} ScoresInsert(s: seq<Entry>, e: Entry)
    requires forall x :: x in s ==> x.member != e.member
    ensures Scores(Insert(s, e)) == Scores(s)[e.member := e.score]
  {
    if s != [] && !Above(e, s[0]) {
      assert s[0] in s;
      assert forall x :: x in s[1..] ==> x in s;
      ScoresInsert(s[1..], e);
      assert Scores(s[1..])[e.member := e.score][s[0].member := s[0].score]
          == Scores(s[1..])[s[0].member := s[0].score][e.member := e.score];
    }
  }

  /**
   * ZADD keeps the set well formed and updates exactly one score: afterwards the
   * set maps `m` to `score` and every other member as before.
   */
  lemma AddMeaning(s: seq<Entry>, m: int, score: int)
    requires Valid(s)
    ensures Valid(Add(s, m, score))
    ensures Scores(Add(s, m, score)) == Scores(s)[m := score]
  {
    var r := Remove(s, m);
    RemoveElements(s, m);
    RemoveValid(s, m);
    InsertValid(r, Entry(m, score));
    ScoresRemove(s, m);
    ScoresInsert(r, Entry(m, score));
    assert (Scores(s) - {m})[m := score] == Scores(s)[m := score];
  }

  /** ZREM keeps the set well formed and drops exactly `m` from its score map. */
  lemma RemoveMeaning(s: seq<Entry>, m: int)
    requires Valid(s)
    ensures Valid(Remove(s, m))
    ensures Scores(Remove(s, m)) == Scores(s) - {m}
  {
    RemoveValid(s, m);
    ScoresRemove(s, m);
  }

  /** Removing a member that is absent leaves the set as it was. */
  lemma {:induction false} RemoveAbsent(s: seq<Entry>, m: int)
    requires forall e :: e in s ==> e.member != m
    ensures Remove(s, m) == s
  {
    if s != [] {
      assert s[0] in s;
      assert forall e :: e in s[1..] ==> e in s;
      RemoveAbsent(s[1..], m);
    }
  }

  /** Taking a member out right after putting it in gives back the set it went into. */
  lemma {:induction false} RemoveInsert(s: seq<Entry>, e: Entry)
    requires forall x :: x in s ==> x.member != e.member
    ensures Remove(Insert(s, e), e.member) == s
  {
    if s == [] || Above(e, s[0]) {
      RemoveAbsent(s, e.member);
    } else {
      assert s[0] in s;
      assert forall x :: x in s[1..] ==> x in s;
      RemoveInsert(s[1..], e);
    }
  }

  /** ZADD is idempotent: adding the same (member, score) twice is adding it once. */
  lemma AddIdempotent(s: seq<Entry>, m: int, score: int)
    ensures Add(Add(s, m, score), m, score) == Add(s, m, score)
  {
    var r := Remove(s, m);
    RemoveElements(s, m);
    RemoveInsert(r, Entry(m, score));
  }

  /** The entries whose score lies in [lo, hi], in set order (ZREVRANGEBYSCORE without a limit). */
  function Range(s: seq<Entry>, lo: int, hi: int): seq<Entry>
  {
    if s == [] then []
    else if lo <= s[0].score <= hi then [s[0]] + Range(s[1..], lo, hi)
    else Range(s[1..], lo, hi)
  }

  lemma {:induction false} RangeElements(s: seq<Entry>, lo: int, hi: int)
    ensures forall e :: e in Range(s, lo, hi) <==> e in s && lo <= e.score <= hi
    ensures |Range(s, lo, hi)| <= |s|
  {
    if s != [] {
      RangeElements(s[1..], lo, hi);
      assert forall e :: e in s <==> e == s[0] || e in s[1..];
    }
  }

  lemma {:induction false} RangeValid(s: seq<Entry>, lo: int, hi: int)
    requires Valid(s)
    ensures Valid(Range(s, lo, hi))
  {
    if s != [] {
      assert s == [s[0]] + s[1..];
      SortedCons(s[0], s[1..]);
      DistinctCons(s[0], s[1..]);
      RangeValid(s[1..], lo, hi);
      RangeElements(s[1..], lo, hi);
      if lo <= s[0].score <= hi {
        SortedCons(s[0], Range(s[1..], lo, hi));
        DistinctCons(s[0], Range(s[1..], lo, hi));
      }
    }
  }

  /**
   * ZREVRANGEBYSCORE key hi lo LIMIT 0 count: the ids of the first `count` entries
   * scored in [lo, hi], highest score first.
   */
  function RevRangeByScore(s: seq<Entry>, lo: int, hi: int, count: nat): seq<int>
  {
    Members(Take(Range(s, lo, hi), count))
  }

  lemma RevRangeInRange(s: seq<Entry>, lo: int, hi: int, count: nat)
    requires Valid(s)
    ensures var ids := RevRangeByScore(s, lo, hi, count);
      && |ids| <= count
      && (forall i :: 0 <= i < |ids| ==> ids[i] in Scores(s) && lo <= Scores(s)[ids[i]] <= hi)
  {
    var r := Range(s, lo, hi);
    RangeElements(s, lo, hi);
    var t := Take(r, count);
    var ids := Members(t);
    assert t == r[..|t|];
    forall i | 0 <= i < |ids| ensures ids[i] in Scores(s) && lo <= Scores(s)[ids[i]] <= hi {
      assert t[i] == r[i];
      assert r[i] in r;
      EntryInValid(s, r[i]);
    }
  }

  lemma RevRangeOrdered(s: seq<Entry>, lo: int, hi: int, count: nat)
    requires Valid(s)
    ensures var ids := RevRangeByScore(s, lo, hi, count);
      forall i, j :: 0 <= i < j < |ids| ==>
        ids[i] != ids[j] && ids[i] in Scores(s) && ids[j] in Scores(s) && Scores(s)[ids[i]] >= Scores(s)[ids[j]]
  {
    var r := Range(s, lo, hi);
    RangeElements(s, lo, hi);
    RangeValid(s, lo, hi);
    var t := Take(r, count);
    var ids := Members(t);
    assert t == r[..|t|];
    forall i, j | 0 <= i < j < |ids|
      ensures ids[i] != ids[j] && ids[i] in Scores(s) && ids[j] in Scores(s) && Scores(s)[ids[i]] >= Scores(s)[ids[j]]
    {
      assert t[i] == r[i] && t[j] == r[j];
      assert r[i] in r && r[j] in r;
      assert Above(r[i], r[j]);
      EntryInValid(s, r[i]);
      EntryInValid(s, r[j]);
    }
  }

  lemma RevRangeComplete(s: seq<Entry>, lo: int, hi: int, count: nat)
    requires Valid(s)
    ensures var ids := RevRangeByScore(s, lo, hi, count);
      forall m :: m in Scores(s) && lo <= Scores(s)[m] <= hi && m !in ids ==>
        |ids| == count && (count > 0 ==> ids[count - 1] in Scores(s) && Scores(s)[m] <= Scores(s)[ids[count - 1]])
  {
    var r := Range(s, lo, hi);
    RangeElements(s, lo, hi);
    RangeValid(s, lo, hi);
    var t := Take(r, count);
    var ids := Members(t);
    assert t == r[..|t|];
    forall m | m in Scores(s) && lo <= Scores(s)[m] <= hi && m !in ids
      ensures |ids| == count && (count > 0 ==> ids[count - 1] in Scores(s) && Scores(s)[m] <= Scores(s)[ids[count - 1]])
    {
      var e := Entry(m, Scores(s)[m]);
      EntryInValid(s, e);
      assert e in r;
      var k :| 0 <= k < |r| && r[k] == e;
      assert forall i :: 0 <= i < |t| ==> ids[i] == r[i].member;
      assert k >= |t|;
      assert |t| == count;
      if count > 0 {
        assert t[count - 1] == r[count - 1];
        assert r[count - 1] in r;
        EntryInValid(s, r[count - 1]);
        assert Above(r[count - 1], r[k]);
      }
    }
  }

  /**
   * What a reverse range query returns from a well-formed set: at most `count`
   * distinct members, each scored in [lo, hi], in non-increasing score order; and
   * nothing in range is left out unless `count` ids were returned and it scores no
   * higher than the last of them.
   */
  lemma RevRangeMeaning(s: seq<Entry>, lo: int, hi: int, count: nat)
    requires Valid(s)
    ensures var ids := RevRangeByScore(s, lo, hi, count);
      && |ids| <= count
      && (forall i :: 0 <= i < |ids| ==> ids[i] in Scores(s) && lo <= Scores(s)[ids[i]] <= hi)
      && (forall i, j :: 0 <= i < j < |ids| ==> ids[i] != ids[j] && Scores(s)[ids[i]] >= Scores(s)[ids[j]])
      && (forall m :: m in Scores(s) && lo <= Scores(s)[m] <= hi && m !in ids ==>
            |ids| == count && (count > 0 ==> ids[count - 1] in Scores(s) && Scores(s)[m] <= Scores(s)[ids[count - 1]]))
  {
    RevRangeInRange(s, lo, hi, count);
    RevRangeOrdered(s, lo, hi, count);
    RevRangeComplete(s, lo, hi, count);
  }

  /** Entries scored below every entry of a prefix: a range cut just under an entry is what follows it. */
  lemma {:induction false} RangeBelowEntry(s: seq<Entry>, lo: int, k: nat)
    requires Valid(s)
    requires forall i, j :: 0 <= i < j < |s| ==> s[i].score > s[j].score
    requires k < |s|
    requires forall i :: 0 <= i < |s| ==> s[i].score >= lo
    ensures Range(s, lo, s[k].score - 1) == s[k + 1..]
  {
    if k == 0 {
      RangeAllBelow(s[1..], lo, s[0].score - 1);
    } else {
      assert s[0].score > s[k].score - 1 by { assert s[0].score > s[k].score; }
      assert s[1..][k - 1] == s[k];
      RangeBelowEntry(s[1..], lo, k - 1);
      assert s[1..][k..] == s[k + 1..];
    }
  }

  lemma {:induction false} RangeAllBelow(s: seq<Entry>, lo: int, hi: int)
    requires forall i :: 0 <= i < |s| ==> lo <= s[i].score <= hi
    ensures Range(s, lo, hi) == s
  {
    if s != [] {
      RangeAllBelow(s[1..], lo, hi);
    }
  }

  /** Narrowing the upper bound of a range can be done on the range itself. */
  lemma {:induction false} RangeOfRange(s: seq<Entry>, lo: int, h1: int, h2: int)
    requires h2 <= h1
    ensures Range(Range(s, lo, h1), lo, h2) == Range(s, lo, h2)
  {
    if s != [] {
      RangeOfRange(s[1..], lo, h1, h2);
    }
  }

  /** Scores strictly decrease along the set: no two members share a score. */
  predicate DistinctScores(s: seq<Entry>) {
    forall i, j :: 0 <= i < j < |s| ==> s[i].score != s[j].score
  }

  lemma DistinctScoresCons(e: Entry, t: seq<Entry>)
    ensures DistinctScores([e] + t) <==> (forall x :: x in t ==> x.score != e.score) && DistinctScores(t)
  {
    var r := [e] + t;
    if (forall x :: x in t ==> x.score != e.score) && DistinctScores(t) {
      forall i, j | 0 <= i < j < |r| ensures r[i].score != r[j].score {
        assert r[j] == t[j - 1] && t[j - 1] in t;
        if i > 0 {
          assert r[i] == t[i - 1];
        }
      }
    }
    if DistinctScores(r) {
      forall x | x in t ensures x.score != e.score {
        var k :| 0 <= k < |t| && t[k] == x;
        assert r[0] == e && r[k + 1] == x;
        assert r[0].score != r[k + 1].score;
      }
      forall i, j | 0 <= i < j < |t| ensures t[i].score != t[j].score {
        assert r[i + 1] == t[i] && r[j + 1] == t[j];
      }
    }
  }

  lemma {:induction false} RangeDistinctScores(s: seq<Entry>, lo: int, hi: int)
    requires DistinctScores(s)
    ensures DistinctScores(Range(s, lo, hi))
  {
    if s != [] {
      assert s == [s[0]] + s[1..];
      DistinctScoresCons(s[0], s[1..]);
      RangeDistinctScores(s[1..], lo, hi);
      RangeElements(s[1..], lo, hi);
      if lo <= s[0].score <= hi {
        DistinctScoresCons(s[0], Range(s[1..], lo, hi));
      }
    }
  }

  /**
   * The ids a client collects by paging through the set from `cursor`, `size` ids
   * per page, each page's cursor being the score of the previous page's last id.
   */
  function Walk(s: seq<Entry>, cursor: int, size: nat): seq<int>
    requires size > 0
    decreases |Range(s, 0, cursor - 1)|
  {
    var window := Range(s, 0, cursor - 1);
    if |window| <= size then Members(window)
    else
      var next := window[size - 1].score;
      RangeShrinks(s, cursor, next);
      Members(window[..size]) + Walk(s, next, size)
  }

  lemma RangeShrinks(s: seq<Entry>, cursor: int, next: int)
    requires exists e :: e in Range(s, 0, cursor - 1) && e.score == next
    ensures |Range(s, 0, next - 1)| < |Range(s, 0, cursor - 1)|
  {
    var e :| e in Range(s, 0, cursor - 1) && e.score == next;
    RangeElements(s, 0, cursor - 1);
    RangeOfRange(s, 0, cursor - 1, next - 1);
    FilterDropsOne(Range(s, 0, cursor - 1), 0, next - 1, e);
  }

  lemma {:induction false} FilterDropsOne(s: seq<Entry>, lo: int, hi: int, e: Entry)
    requires e in s && e.score > hi
    ensures |Range(s, lo, hi)| < |s|
  {
    RangeElements(s[1..], lo, hi);
    if s[0] != e {
      FilterDropsOne(s[1..], lo, hi, e);
    }
  }

  /** When no two ids share a score, the range below a returned entry is exactly what followed it. */
  lemma NextWindow(s: seq<Entry>, cursor: int, k: nat)
    requires Valid(s) && DistinctScores(s)
    requires k < |Range(s, 0, cursor - 1)|
    ensures var window := Range(s, 0, cursor - 1);
      Range(s, 0, window[k].score - 1) == window[k + 1..]
  {
    var window := Range(s, 0, cursor - 1);
    WindowStrictlyDescends(s, cursor);
    assert window[k].score <= cursor - 1 by {
      RangeElements(s, 0, cursor - 1);
      assert window[k] in window;
    }
    RangeBelowEntry(window, 0, k);
    RangeOfRange(s, 0, cursor - 1, window[k].score - 1);
  }

  /** With distinct scores, the window below a cursor is well formed, strictly descending and non-negative. */
  lemma WindowStrictlyDescends(s: seq<Entry>, cursor: int)
    requires Valid(s) && DistinctScores(s)
    ensures var window := Range(s, 0, cursor - 1);
      && Valid(window)
      && (forall i, j :: 0 <= i < j < |window| ==> window[i].score > window[j].score)
      && (forall i :: 0 <= i < |window| ==> window[i].score >= 0)
  {
    var window := Range(s, 0, cursor - 1);
    RangeElements(s, 0, cursor - 1);
    RangeValid(s, 0, cursor - 1);
    RangeDistinctScores(s, 0, cursor - 1);
    forall i, j | 0 <= i < j < |window| ensures window[i].score > window[j].score {
      assert Above(window[i], window[j]) && window[i].score != window[j].score;
    }
    forall i | 0 <= i < |window| ensures window[i].score >= 0 {
      assert window[i] in window;
    }
  }

  /**
   * Page cover: when no two ids share a score, paging from `cursor` returns every id
   * scored in [0, cursor - 1] exactly once, in order.
   */
  lemma {:induction false} WalkCovers(s: seq<Entry>, cursor: int, size: nat)
    requires Valid(s) && DistinctScores(s) && size > 0
    ensures Walk(s, cursor, size) == Members(Range(s, 0, cursor - 1))
    decreases |Range(s, 0, cursor - 1)|
  {
    var window := Range(s, 0, cursor - 1);
    if |window| > size {
      var next := window[size - 1].score;
      NextWindow(s, cursor, size - 1);
      assert Range(s, 0, next - 1) == window[size..];
      WalkCovers(s, next, size);
      assert window[..size] + window[size..] == window;
      MembersAppend(window[..size], window[size..]);
    }
  }

  lemma {:induction false} MembersAppend(a: seq<Entry>, b: seq<Entry>)
    ensures Members(a + b) == Members(a) + Members(b)
  {
  }

  /** With two ids on the same score, a page boundary between them loses the second one. */
  lemma TiedScoresSplitAcrossPages()
    ensures var s := [Entry(2, 5), Entry(1, 5)];
      Valid(s) && Members(Range(s, 0, 9)) == [2, 1] && Walk(s, 10, 1) == [2]
  {
    var s := [Entry(2, 5), Entry(1, 5)];
    assert Range(s, 0, 9) == s;
    assert Range(s, 0, 4) == [];
  }

  /** The head of a well-formed set comes before every other entry. */
  lemma HeadAbove(s: seq<Entry>, e: Entry)
    requires Valid(s) && s != [] && e in s && e != s[0]
    ensures Above(s[0], e)
  {
    var k :| 0 <= k < |s| && s[k] == e;
  }

  /** A well-formed set is determined by its score map: Redis order leaves no freedom. */
  lemma {:induction false} SameScoresSameSet(s: seq<Entry>, t: seq<Entry>)
    requires Valid(s) && Valid(t) && Scores(s) == Scores(t)
    ensures s == t
    decreases |s|
  {
    if s == [] || t == [] {
      if s != [] {
        EntryInValid(s, s[0]);
      } else if t != [] {
        EntryInValid(t, t[0]);
      }
    } else {
      EntryInValid(s, s[0]);
      EntryInValid(t, s[0]);
      EntryInValid(t, t[0]);
      EntryInValid(s, t[0]);
      if s[0] != t[0] {
        HeadAbove(s, t[0]);
        HeadAbove(t, s[0]);
        assert false;
      }
      var h := s[0];
      assert s == [h] + s[1..] && t == [h] + t[1..];
      DistinctCons(h, s[1..]);
      DistinctCons(h, t[1..]);
      SortedCons(h, s[1..]);
      SortedCons(h, t[1..]);
      RemoveAbsent(s[1..], h.member);
      RemoveAbsent(t[1..], h.member);
      ScoresRemove(s, h.member);
      ScoresRemove(t, h.member);
      assert Remove(s, h.member) == s[1..] && Remove(t, h.member) == t[1..];
      SameScoresSameSet(s[1..], t[1..]);
    }
  }

  /** Every id -> score map is the score map of some well-formed set. */
  lemma {:induction false} SomeSetHasScores(rows: map<int, int>)
    ensures exists s :: Valid(s) && Scores(s) == rows
    decreases |rows|
  {
    if rows == map[] {
      var empty: seq<Entry> := [];
      assert Valid(empty) && Scores(empty) == rows;
    } else {
      assert (forall k :: k !in rows) ==> rows == map[];
      var key0 :| key0 in rows;
      var rest := rows - {key0};
      assert |rest| < |rows|;
      SomeSetHasScores(rest);
      var s :| Valid(s) && Scores(s) == rest;
      AddMeaning(s, key0, rows[key0]);
      assert rest[key0 := rows[key0]] == rows;
    }
  }

  /** The well-formed set holding exactly the given scores, i.e. the order a database sort gives them. */
  ghost function SortedFrom(rows: map<int, int>): (s: seq<Entry>)
    ensures Valid(s) && Scores(s) == rows
  {
    SomeSetHasScores(rows);
    var s :| Valid(s) && Scores(s) == rows; s
  }

  /** The members of a prefix are the prefix of the members. */
  lemma {:induction false} MembersTake(s: seq<Entry>, n: nat)
    ensures Members(Take(s, n)) == Take(Members(s), n)
  {
    var l := Take(s, n);
    assert |Members(l)| == |l|;
    forall i | 0 <= i < |l| ensures Members(l)[i] == Members(s)[i] {
      assert l[i] == s[i];
    }
  }
}
