/**
 * The scan order of the mapper: the records sorted by parsed histology date with the
 * comparator `comparing(date, nullsLast(naturalOrder())).reversed()` and a stable sort.
 * Reversing the comparator also reverses where absent keys go, so undated records come
 * first, then dated records from newest to oldest.
 */
module DateOrder {
  import opened Wrappers
  import opened Histologie

  /** The external date parser, applied to the raw (possibly absent) date field. */
  type DateParser = Option<string> -> Option<Instant>

  /** The sort key of a record: its parsed date, absent when the field is absent or does not parse. */
  function DateKey(h: V2Histologie, parse: DateParser): Option<Instant>
  {
    parse(h.datum)
  }

  /** `Comparator.nullsLast(Comparator.naturalOrder())` on keys: negative, zero or positive. */
  function NullsLastCompare(x: Option<Instant>, y: Option<Instant>): (c: int)
    ensures c == 0 <==> x == y
    ensures x.None? && y.Some? ==> c > 0
    ensures x.Some? && y.None? ==> c < 0
    ensures x.Some? && y.Some? ==> (c < 0 <==> x.value < y.value) && (c > 0 <==> x.value > y.value)
  {
    match (x, y)
    case (None, None) => 0
    case (None, Some(_)) => 1
    case (Some(_), None) => -1
    case (Some(a), Some(b)) => if a < b then -1 else if a == b then 0 else 1
  }

  /** The same comparator after `.reversed()`: the order the mapper sorts by. */
  function ByDateDescCompare(x: Option<Instant>, y: Option<Instant>): (c: int)
    ensures c < 0 <==> NullsLastCompare(x, y) > 0
    ensures c > 0 <==> NullsLastCompare(x, y) < 0
    ensures c == 0 <==> NullsLastCompare(x, y) == 0
  {
    NullsLastCompare(y, x)
  }

  /** A record with key `x` may stand before one with key `y` in the sorted order. */
  predicate MayPrecede(x: Option<Instant>, y: Option<Instant>)
  {
    ByDateDescCompare(x, y) <= 0
  }

  /** What the reversed comparator means: absent keys first, then newest to oldest; ties only on equal keys. */
  lemma ByDateDescMeaning(x: Option<Instant>, y: Option<Instant>)
    ensures MayPrecede(x, y) <==> x.None? || (y.Some? && x.value >= y.value)
    ensures ByDateDescCompare(x, y) == 0 <==> x == y
    ensures x.None? && y.Some? ==> ByDateDescCompare(x, y) < 0
  {
  }

  predicate SortedByDateDesc(r: seq<V2Histologie>, parse: DateParser)
  {
    forall i, j :: 0 <= i < j < |r| ==> MayPrecede(DateKey(r[i], parse), DateKey(r[j], parse))
  }

  /** The records of `s` whose key is `k`, in the order of `s`. */
  function WithDateKey(s: seq<V2Histologie>, k: Option<Instant>, parse: DateParser): seq<V2Histologie>
  {
    if s == [] then []
    else (if DateKey(s[0], parse) == k then [s[0]] else []) + WithDateKey(s[1..], k, parse)
  }

  /** `r` is a stable sort of `s` by the reversed comparator. */
  ghost predicate IsStableSortByDateDesc(r: seq<V2Histologie>, s: seq<V2Histologie>, parse: DateParser)
  {
    SortedByDateDesc(r, parse)
    && multiset(r) == multiset(s)
    && forall k :: WithDateKey(r, k, parse) == WithDateKey(s, k, parse)
  }

  /** Inserts `x` before the first element it may precede; equal keys keep `x` in front. */
  function Insert(x: V2Histologie, t: seq<V2Histologie>, parse: DateParser): (r: seq<V2Histologie>)
    ensures multiset(r) == multiset([x] + t)
    ensures |r| == |t| + 1
  {
    if t == [] then [x]
    else if MayPrecede(DateKey(x, parse), DateKey(t[0], parse)) then [x] + t
    else
      assert t == [t[0]] + t[1..];
      [t[0]] + Insert(x, t[1..], parse)
  }

  /** A reference stable sort (insertion sort) standing for `source.stream().sorted(byDateDesc)`. */
  function SortByDateDesc(s: seq<V2Histologie>, parse: DateParser): (r: seq<V2Histologie>)
    ensures multiset(r) == multiset(s)
    ensures |r| == |s|
  {
    if s == [] then []
    else
      assert s == [s[0]] + s[1..];
      Insert(s[0], SortByDateDesc(s[1..], parse), parse)
  }

  lemma {:induction false} WithDateKeyMember(t: seq<V2Histologie>, k: Option<Instant>, parse: DateParser, x: V2Histologie)
    ensures x in WithDateKey(t, k, parse) <==> x in t && DateKey(x, parse) == k
  {
    if t != [] {
      WithDateKeyMember(t[1..], k, parse, x);
      assert t == [t[0]] + t[1..];
    }
  }

  /** Every record of `Insert(x, t)` is `x` or a record of `t`. */
  lemma InsertMembers(x: V2Histologie, t: seq<V2Histologie>, parse: DateParser)
    ensures forall y :: y in Insert(x, t, parse) ==> y == x || y in t
  {
    forall y | y in Insert(x, t, parse) ensures y == x || y in t {
      assert y in multiset(Insert(x, t, parse));
    }
  }

  /** A sorted sequence stays sorted after its first record is dropped. */
  lemma SortedTail(t: seq<V2Histologie>, parse: DateParser)
    requires t != [] && SortedByDateDesc(t, parse)
    ensures SortedByDateDesc(t[1..], parse)
  {
    forall i, j | 0 <= i < j < |t| - 1
      ensures MayPrecede(DateKey(t[1..][i], parse), DateKey(t[1..][j], parse))
    {
      assert t[1..][i] == t[i + 1] && t[1..][j] == t[j + 1];
    }
  }

  lemma {:induction false} InsertSorted(x: V2Histologie, t: seq<V2Histologie>, parse: DateParser)
    requires SortedByDateDesc(t, parse)
    ensures SortedByDateDesc(Insert(x, t, parse), parse)
  {
    if t != [] && !MayPrecede(DateKey(x, parse), DateKey(t[0], parse)) {
      var rest := Insert(x, t[1..], parse);
      SortedTail(t, parse);
      InsertSorted(x, t[1..], parse);
      InsertMembers(x, t[1..], parse);
      var r := [t[0]] + rest;
      assert Insert(x, t, parse) == r;
      forall j | 0 < j < |r|
        ensures MayPrecede(DateKey(t[0], parse), DateKey(r[j], parse))
      {
        var y := rest[j - 1];
        assert y == x || y in t[1..];
        if y != x {
          var m :| 0 <= m < |t[1..]| && t[1..][m] == y;
          assert t[m + 1] == y;
        }
      }
      forall i, j | 0 <= i < j < |r| ensures MayPrecede(DateKey(r[i], parse), DateKey(r[j], parse)) {
        if 0 < i {
          assert r[i] == rest[i - 1] && r[j] == rest[j - 1];
        }
      }
    }
  }

  lemma {:induction false} InsertWithDateKey(x: V2Histologie, t: seq<V2Histologie>, k: Option<Instant>, parse: DateParser)
    ensures WithDateKey(Insert(x, t, parse), k, parse)
         == (if DateKey(x, parse) == k then [x] else []) + WithDateKey(t, k, parse)
  {
    if t == [] {
    } else if MayPrecede(DateKey(x, parse), DateKey(t[0], parse)) {
      assert ([x] + t)[1..] == t;
    } else {
      var rest := Insert(x, t[1..], parse);
      InsertWithDateKey(x, t[1..], k, parse);
      assert ([t[0]] + rest)[1..] == rest;
      var w := WithDateKey(t[1..], k, parse);
      assert WithDateKey(t, k, parse) == (if DateKey(t[0], parse) == k then [t[0]] else []) + w;
      assert WithDateKey([t[0]] + rest, k, parse)
          == (if DateKey(t[0], parse) == k then [t[0]] else []) + WithDateKey(rest, k, parse);
      assert DateKey(t[0], parse) != DateKey(x, parse);
      if DateKey(x, parse) == k {
        assert WithDateKey(rest, k, parse) == [x] + w;
      } else if DateKey(t[0], parse) == k {
        assert WithDateKey(rest, k, parse) == w;
      } else {
        assert WithDateKey(rest, k, parse) == w;
      }
    }
  }

  /** The reference sort is a stable sort by the reversed comparator. */
  lemma {:induction false} SortByDateDescIsStableSort(s: seq<V2Histologie>, parse: DateParser)
    ensures IsStableSortByDateDesc(SortByDateDesc(s, parse), s, parse)
  {
    if s != [] {
      var tail := SortByDateDesc(s[1..], parse);
      SortByDateDescIsStableSort(s[1..], parse);
      InsertSorted(s[0], tail, parse);
      forall k
        ensures WithDateKey(SortByDateDesc(s, parse), k, parse) == WithDateKey(s, k, parse)
      {
        InsertWithDateKey(s[0], tail, k, parse);
      }
    }
  }

  lemma FirstKeyClassNonEmpty(t: seq<V2Histologie>, parse: DateParser)
    ensures t != [] ==> WithDateKey(t, DateKey(t[0], parse), parse) != []
  {
  }

  /** In a sorted sequence the first record may precede every record of the sequence. */
  lemma SortedHeadPrecedes(t: seq<V2Histologie>, y: V2Histologie, parse: DateParser)
    requires SortedByDateDesc(t, parse) && y in t
    ensures MayPrecede(DateKey(t[0], parse), DateKey(y, parse))
  {
    var i :| 0 <= i < |t| && t[i] == y;
    if i > 0 {
      assert MayPrecede(DateKey(t[0], parse), DateKey(t[i], parse));
    } else {
      ByDateDescMeaning(DateKey(y, parse), DateKey(y, parse));
    }
  }

  /** Two sorted sequences with the same key classes start with records of the same key. */
  lemma SameKeyClassesSameHeadKey(t1: seq<V2Histologie>, t2: seq<V2Histologie>, parse: DateParser)
    requires t1 != [] && t2 != []
    requires SortedByDateDesc(t1, parse) && SortedByDateDesc(t2, parse)
    requires forall k :: WithDateKey(t1, k, parse) == WithDateKey(t2, k, parse)
    ensures DateKey(t1[0], parse) == DateKey(t2[0], parse)
  {
    var a, b := t1[0], t2[0];
    var ka, kb := DateKey(a, parse), DateKey(b, parse);
    WithDateKeyMember(t2, kb, parse, b);
    WithDateKeyMember(t1, kb, parse, b);
    WithDateKeyMember(t1, ka, parse, a);
    WithDateKeyMember(t2, ka, parse, a);
    assert WithDateKey(t1, kb, parse) == WithDateKey(t2, kb, parse);
    assert WithDateKey(t1, ka, parse) == WithDateKey(t2, ka, parse);
    SortedHeadPrecedes(t1, b, parse);
    SortedHeadPrecedes(t2, a, parse);
    ByDateDescMeaning(ka, kb);
    ByDateDescMeaning(kb, ka);
  }

  /** Two sorted sequences with the same key classes start with the same record. */
  lemma SameKeyClassesSameHead(t1: seq<V2Histologie>, t2: seq<V2Histologie>, parse: DateParser)
    requires t1 != [] && t2 != []
    requires SortedByDateDesc(t1, parse) && SortedByDateDesc(t2, parse)
    requires forall k :: WithDateKey(t1, k, parse) == WithDateKey(t2, k, parse)
    ensures t1[0] == t2[0]
  {
    SameKeyClassesSameHeadKey(t1, t2, parse);
    var a, b := t1[0], t2[0];
    var k := DateKey(a, parse);
    assert WithDateKey(t1, k, parse) == WithDateKey(t2, k, parse);
    assert WithDateKey(t1, k, parse) == [a] + WithDateKey(t1[1..], k, parse);
    assert WithDateKey(t2, k, parse) == [b] + WithDateKey(t2[1..], k, parse);
    assert WithDateKey(t1, k, parse)[0] == a && WithDateKey(t2, k, parse)[0] == b;
  }

  /** Removing the same first record from two sequences with the same key classes keeps them the same. */
  lemma SameKeyClassesTails(t1: seq<V2Histologie>, t2: seq<V2Histologie>, parse: DateParser)
    requires t1 != [] && t2 != [] && t1[0] == t2[0]
    requires forall k :: WithDateKey(t1, k, parse) == WithDateKey(t2, k, parse)
    ensures forall k :: WithDateKey(t1[1..], k, parse) == WithDateKey(t2[1..], k, parse)
  {
    var a := t1[0];
    forall k
      ensures WithDateKey(t1[1..], k, parse) == WithDateKey(t2[1..], k, parse)
    {
      var w1, w2 := WithDateKey(t1[1..], k, parse), WithDateKey(t2[1..], k, parse);
      assert WithDateKey(t1, k, parse) == WithDateKey(t2, k, parse);
      if k == DateKey(a, parse) {
        assert WithDateKey(t1, k, parse) == [a] + w1;
        assert WithDateKey(t2, k, parse) == [a] + w2;
        assert ([a] + w1)[1..] == w1 && ([a] + w2)[1..] == w2;
      } else {
        assert [] + w1 == w1 && [] + w2 == w2;
        assert WithDateKey(t1, k, parse) == w1;
        assert WithDateKey(t2, k, parse) == w2;
      }
    }
  }

  /** Two sorted sequences with the same key classes, each in the same order, are equal. */
  lemma {:induction false} SortedSameKeyClassesEqual(t1: seq<V2Histologie>, t2: seq<V2Histologie>, parse: DateParser)
    requires SortedByDateDesc(t1, parse) && SortedByDateDesc(t2, parse)
    requires forall k :: WithDateKey(t1, k, parse) == WithDateKey(t2, k, parse)
    ensures t1 == t2
    decreases |t1| + |t2|
  {
    FirstKeyClassNonEmpty(t1, parse);
    FirstKeyClassNonEmpty(t2, parse);
    if t1 == [] || t2 == [] {
    } else {
      SameKeyClassesSameHead(t1, t2, parse);
      SameKeyClassesTails(t1, t2, parse);
      SortedTail(t1, parse);
      SortedTail(t2, parse);
      SortedSameKeyClassesEqual(t1[1..], t2[1..], parse);
      assert t1 == [t1[0]] + t1[1..] && t2 == [t2[0]] + t2[1..];
    }
  }

  /** The stable sort is unique: every stable sort of `s` by this comparator is the reference sort. */
  lemma StableSortIsUnique(r: seq<V2Histologie>, s: seq<V2Histologie>, parse: DateParser)
    requires IsStableSortByDateDesc(r, s, parse)
    ensures r == SortByDateDesc(s, parse)
  {
    SortByDateDescIsStableSort(s, parse);
    SortedSameKeyClassesEqual(r, SortByDateDesc(s, parse), parse);
  }

  /** In a sorted sequence the undated records form a prefix. */
  lemma {:induction false} SortedUndatedPrefix(t: seq<V2Histologie>, parse: DateParser)
    requires SortedByDateDesc(t, parse)
    ensures var u := WithDateKey(t, None, parse);
      |u| <= |t| && t[..|u|] == u
      && forall i :: |u| <= i < |t| ==> DateKey(t[i], parse).Some?
  {
    if t != [] {
      SortedTail(t, parse);
      SortedUndatedPrefix(t[1..], parse);
      if DateKey(t[0], parse).Some? {
        forall i | 0 < i < |t| ensures DateKey(t[i], parse).Some? {
          assert MayPrecede(DateKey(t[0], parse), DateKey(t[i], parse));
        }
        NoneAbsent(t, parse);
      } else {
        var u' := WithDateKey(t[1..], None, parse);
        assert t[1..][..|u'|] == t[1..|u'| + 1];
        assert t[..|u'| + 1] == [t[0]] + t[1..|u'| + 1];
      }
    }
  }

  lemma {:induction false} NoneAbsent(t: seq<V2Histologie>, parse: DateParser)
    requires forall i :: 0 <= i < |t| ==> DateKey(t[i], parse).Some?
    ensures WithDateKey(t, None, parse) == []
  {
    if t != [] {
      NoneAbsent(t[1..], parse);
    }
  }

  /**
   * The scan order: the undated records of the input first, in input order, then the dated
   * ones, newest first, and a permutation of the input.
   */
  lemma SortByDateDescUndatedFirst(s: seq<V2Histologie>, parse: DateParser)
    ensures var r, u := SortByDateDesc(s, parse), WithDateKey(s, None, parse);
      |u| <= |r| && r[..|u|] == u
      && (forall i :: |u| <= i < |r| ==> DateKey(r[i], parse).Some?)
      && (forall i, j :: |u| <= i < j < |r| ==> DateKey(r[i], parse).value >= DateKey(r[j], parse).value)
      && multiset(r) == multiset(s)
  {
    var r := SortByDateDesc(s, parse);
    SortByDateDescIsStableSort(s, parse);
    SortedUndatedPrefix(r, parse);
    var u := WithDateKey(s, None, parse);
    forall i, j | |u| <= i < j < |r|
      ensures DateKey(r[i], parse).value >= DateKey(r[j], parse).value
    {
      ByDateDescMeaning(DateKey(r[i], parse), DateKey(r[j], parse));
    }
  }
}
