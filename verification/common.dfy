/**
 * Shared shapes of the marketplace services: optional values (the Java `null`),
 * the cursor page returned by every listing, and the cursor/size defaults the
 * listing endpoints apply before querying.
 */
module Common {

  datatype Option<T> = None | Some(value: T)

  /** `PageResult`: a page of items, the cursor for the next request and whether more follow. */
  datatype Page<T> = Page(list: seq<T>, nextCursor: Option<int>, hasMore: bool)

  /** `PageResult.empty()` */
  function EmptyPage<T>(): (p: Page<T>)
    ensures p.list == [] && p.nextCursor == None && !p.hasMore
  {
    Page([], None, false)
  }

  /** A missing or non-positive cursor means "start from the newest item", i.e. the current time. */
  function NormalizeCursor(cursor: Option<int>, now: int): (c: int)
    ensures cursor.Some? && cursor.value > 0 ==> c == cursor.value
    ensures cursor.None? || cursor.value <= 0 ==> c == now
  {
    if cursor.None? || cursor.value <= 0 then now else cursor.value
  }

  /** A missing or non-positive page size is replaced by the endpoint's default. */
  function NormalizeSize(size: Option<int>, default: nat): (n: nat)
    requires default > 0
    ensures n > 0
    ensures size.Some? && size.value > 0 ==> n == size.value
    ensures size.None? || size.value <= 0 ==> n == default
  {
    if size.None? || size.value <= 0 then default else size.value
  }

  function Min(a: int, b: int): int { if a <= b then a else b }

  /** The first `n` elements of `s`, or all of `s` when it is shorter. */
  function Take<T>(s: seq<T>, n: nat): (r: seq<T>)
    ensures |r| == Min(|s|, n)
    ensures r == s[..|r|]
  {
    if n >= |s| then s else s[..n]
  }

  lemma TakeOfTake<T>(s: seq<T>, a: nat, b: nat)
    requires b <= a
    ensures Take(Take(s, a), b) == Take(s, b)
  {
  }

  /**
   * `buildPageResult`: the listing fetched `size + 1` items; keep `size` of them,
   * report whether the extra one was there, and take the next cursor from the
   * timestamp of the last item kept.
   */
  function BuildPage<T>(list: seq<T>, size: nat, stamp: T -> int): Page<T>
  {
    if list == [] then EmptyPage()
    else
      var hasMore := |list| > size;
      var kept := if hasMore then list[..size] else list;
      Page(kept, if kept == [] then None else Some(stamp(kept[|kept| - 1])), hasMore)
  }

  /**
   * What a page means: it is the first min(length, size) fetched items, it has more
   * exactly when more than `size` were fetched, and its cursor is the stamp of its
   * last item (none for an empty page).
   */
  lemma BuildPageMeaning<T>(list: seq<T>, size: nat, stamp: T -> int)
    ensures var p := BuildPage(list, size, stamp);
      && p.list == Take(list, size)
      && (p.hasMore <==> |list| > size)
      && p.list + list[|p.list|..] == list
      && (p.nextCursor.Some? <==> p.list != [])
      && (p.list != [] ==> p.nextCursor.value == stamp(p.list[|p.list| - 1]))
  {
  }

  /**
   * The over-fetch trick: when the fetch returns the first `size + 1` items of some
   * window, the page holds the first `size` items of that window and reports more
   * exactly when the window is longer than `size`.
   */
  lemma OverFetch<T>(window: seq<T>, size: nat, stamp: T -> int)
    ensures var p := BuildPage(Take(window, size + 1), size, stamp);
      && p.list == Take(window, size)
      && (p.hasMore <==> |window| > size)
  {
    var fetched := Take(window, size + 1);
    BuildPageMeaning(fetched, size, stamp);
    assert Take(fetched, size) == Take(window, size);
  }

  /**
   * The comment listings' variant of page assembly: the cursor is only given when
   * more items follow.
   */
  function BuildCursorPageOnlyWhenMore<T>(list: seq<T>, size: nat, stamp: T -> int): Page<T>
  {
    if list == [] then EmptyPage()
    else
      var hasMore := |list| > size;
      var kept := if hasMore then list[..size] else list;
      Page(kept, if hasMore && kept != [] then Some(stamp(kept[|kept| - 1])) else None, hasMore)
  }

  /**
   * The two page rules agree on the list and on `hasMore`; the comment rule gives a
   * cursor exactly when the listing rule does and more items follow.
   */
  lemma CommentPageAgreesWithListingPage<T>(list: seq<T>, size: nat, stamp: T -> int)
    ensures var p := BuildPage(list, size, stamp);
      var q := BuildCursorPageOnlyWhenMore(list, size, stamp);
      && q.list == p.list && q.hasMore == p.hasMore
      && q.nextCursor == (if p.hasMore then p.nextCursor else None)
  {
  }

  /** Updating a union at a key is updating its right operand there. */
  lemma UpdateUnion<V>(a: map<int, V>, b: map<int, V>, k: int, v: V)
    ensures (a + b)[k := v] == a + b[k := v]
  {
    var l := (a + b)[k := v];
    var r := a + b[k := v];
    assert forall x :: x in l <==> x in r;
    assert forall x :: x in l ==> l[x] == r[x];
  }

  /** `String.startsWith`. */
  predicate StartsWith(s: string, prefix: string) {
    |prefix| <= |s| && s[..|prefix|] == prefix
  }
}
