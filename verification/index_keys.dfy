/**
 * Names of the Redis sorted sets that index the listings. A name is a prefix, the
 * decimal id of the partition (as Java prints a `Long`) and a suffix; the lemma
 * at the end shows that no two partitions share a name.
 */
module IndexKeys {

  /** The listing partitions that keep an id -> timestamp index. */
  datatype IndexKey =
    | CategoryIndex(categoryId: int)
    | OwnerIndex(ownerId: int)
    | AllGoodsIndex
    | OfflineIndex(ownerId: int)
    | FavoriteIndex(userId: int)
    | UserListIndex

  const FAVORITE_USER_IDS_KEY := "favorite:user:"
  const FAVORITE_USER_IDS_SUFFIX := ":ids"
  const GOODS_CAT_IDS_KEY := "goods:cat:"
  const GOODS_CAT_IDS_SUFFIX := ":ids"
  const GOODS_OWNER_IDS_KEY := "goods:owner:"
  const GOODS_OWNER_IDS_SUFFIX := ":ids"
  const GOODS_ALL_IDS_KEY := "goods:all"
  const GOODS_ALL_IDS_SUFFIX := ":ids"
  const GOODS_OFFLINE_IDS_KEY := "goods:offline:"
  const GOODS_OFFLINE_IDS_SUFFIX := ":ids"
  const USER_LIST_IDS_KEY := "user:list:ids"

  function DigitChar(d: nat): char
    requires d < 10
  {
    "0123456789"[d]
  }

  predicate IsDigit(c: char) {
    '0' <= c <= '9'
  }

  /** Decimal digits of a non-negative number, most significant first. */
  function NatToString(n: nat): (s: string)
    ensures |s| >= 1
    ensures forall i :: 0 <= i < |s| ==> IsDigit(s[i])
    ensures n >= 10 ==> |s| >= 2
    decreases n
  {
    if n < 10 then [DigitChar(n)] else NatToString(n / 10) + [DigitChar(n % 10)]
  }

  /** `Long.toString`: a minus sign before the digits of a negative number. */
  function LongToString(n: int): (s: string)
    ensures forall i :: 0 <= i < |s| ==> s[i] == '-' || IsDigit(s[i])
  {
    if n < 0 then "-" + NatToString(-n) else NatToString(n)
  }

  lemma {:induction false} NatToStringInjective(a: nat, b: nat)
    requires NatToString(a) == NatToString(b)
    ensures a == b
    decreases a
  {
    var sa, sb := NatToString(a), NatToString(b);
    if a < 10 && b < 10 {
      assert sa[0] == DigitChar(a) && sb[0] == DigitChar(b);
    } else if a < 10 || b < 10 {
      assert false;
    } else {
      assert sa[|sa| - 1] == DigitChar(a % 10) && sb[|sb| - 1] == DigitChar(b % 10);
      assert sa[..|sa| - 1] == NatToString(a / 10);
      assert sb[..|sb| - 1] == NatToString(b / 10);
      NatToStringInjective(a / 10, b / 10);
    }
  }

  lemma LongToStringSign(n: int)
    ensures |LongToString(n)| >= 1
    ensures LongToString(n)[0] == '-' <==> n < 0
  {
    if n >= 0 {
      assert IsDigit(NatToString(n)[0]);
    }
  }

  lemma LongToStringInjective(a: int, b: int)
    requires LongToString(a) == LongToString(b)
    ensures a == b
  {
    LongToStringSign(a);
    LongToStringSign(b);
    if a < 0 {
      assert LongToString(a)[1..] == NatToString(-a);
      assert LongToString(b)[1..] == NatToString(-b);
      NatToStringInjective(-a, -b);
    } else {
      NatToStringInjective(a, b);
    }
  }

  /** `buildZSetKey`: prefix, then the id as Java prints it, then the suffix. */
  function BuildZSetKey(prefix: string, id: int, suffix: string): (key: string)
    ensures |key| == |prefix| + |LongToString(id)| + |suffix|
    ensures key[..|prefix|] == prefix && key[|key| - |suffix|..] == suffix
    ensures key[|prefix|..|key| - |suffix|] == LongToString(id)
  {
    prefix + LongToString(id) + suffix
  }

  /** The Redis key of each partition's index. */
  function KeyName(k: IndexKey): string
  {
    match k
    case CategoryIndex(c) => BuildZSetKey(GOODS_CAT_IDS_KEY, c, GOODS_CAT_IDS_SUFFIX)
    case OwnerIndex(o) => BuildZSetKey(GOODS_OWNER_IDS_KEY, o, GOODS_OWNER_IDS_SUFFIX)
    case AllGoodsIndex => GOODS_ALL_IDS_KEY + GOODS_ALL_IDS_SUFFIX
    case OfflineIndex(o) => BuildZSetKey(GOODS_OFFLINE_IDS_KEY, o, GOODS_OFFLINE_IDS_SUFFIX)
    case FavoriteIndex(u) => BuildZSetKey(FAVORITE_USER_IDS_KEY, u, FAVORITE_USER_IDS_SUFFIX)
    case UserListIndex => USER_LIST_IDS_KEY
  }

  lemma SameAffixesSameId(prefix: string, a: int, b: int, suffix: string)
    requires BuildZSetKey(prefix, a, suffix) == BuildZSetKey(prefix, b, suffix)
    ensures a == b
  {
    var ka := BuildZSetKey(prefix, a, suffix);
    assert ka[|prefix|..|ka| - |suffix|] == LongToString(a);
    assert ka[|prefix|..|ka| - |suffix|] == LongToString(b);
    LongToStringInjective(a, b);
  }

  /** The first eight characters of each partition's key tell the partitions apart. */
  function Tag(k: IndexKey): string
  {
    match k
    case CategoryIndex(_) => "goods:ca"
    case OwnerIndex(_) => "goods:ow"
    case AllGoodsIndex => "goods:al"
    case OfflineIndex(_) => "goods:of"
    case FavoriteIndex(_) => "favorite"
    case UserListIndex => "user:lis"
  }

  lemma KeyNameTag(k: IndexKey)
    ensures |KeyName(k)| >= 8 && KeyName(k)[..8] == Tag(k)
  {
  }

  /** Two different partitions never share a Redis key. */
  lemma KeyNameInjective(a: IndexKey, b: IndexKey)
    requires KeyName(a) == KeyName(b)
    ensures a == b
  {
    KeyNameTag(a);
    KeyNameTag(b);
    assert Tag(a) == Tag(b);
    match a
    case CategoryIndex(x) =>
      SameAffixesSameId(GOODS_CAT_IDS_KEY, x, b.categoryId, GOODS_CAT_IDS_SUFFIX);
    case OwnerIndex(x) =>
      SameAffixesSameId(GOODS_OWNER_IDS_KEY, x, b.ownerId, GOODS_OWNER_IDS_SUFFIX);
    case AllGoodsIndex =>
    case OfflineIndex(x) =>
      SameAffixesSameId(GOODS_OFFLINE_IDS_KEY, x, b.ownerId, GOODS_OFFLINE_IDS_SUFFIX);
    case FavoriteIndex(x) =>
      SameAffixesSameId(FAVORITE_USER_IDS_KEY, x, b.userId, FAVORITE_USER_IDS_SUFFIX);
    case UserListIndex =>
  }
}
