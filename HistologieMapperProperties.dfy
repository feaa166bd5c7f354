/** Properties of the merge, stated over the scan order and over the input. */
module HistologieMapperProperties {
  import opened Wrappers
  import opened Histologie
  import opened DateOrder
  import opened Grading
  import opened HistologieMapper

  lemma FirstAtUnique(s: seq<V2Histologie>, k1: int, k2: int, p: V2Histologie -> bool)
    requires FirstAt(s, k1, p) && FirstAt(s, k2, p)
    ensures k1 == k2
  {
  }

  /**
   * The identifier is that of the first record in scan order that has one, and absent if none
   * has; the submission number comes from that same record, so no other record's number is used.
   */
  lemma IdentityFromFirstIdRecord(s: seq<V2Histologie>, parse: DateParser)
    ensures var r := Scan(s, parse);
      && (r.histologieID.None? <==> forall j :: 0 <= j < |s| ==> s[j].histologieID.None?)
      && (r.histologieID.None? ==> r.einsendeNr.None?)
      && forall k :: FirstAt(s, k, HasId) ==>
           r.histologieID == s[k].histologieID && r.einsendeNr == s[k].einsendeNr
  {
    forall k | FirstAt(s, k, HasId)
      ensures Scan(s, parse).histologieID == s[k].histologieID
      ensures Scan(s, parse).einsendeNr == s[k].einsendeNr
    {
      FirstAtUnique(s, k, FirstIndex(s, HasId).value, HasId);
    }
  }

  /** The last date that parses in `s` is that of the last record whose date parses. */
  lemma LastDateIsLastParsed(s: seq<V2Histologie>, parse: DateParser)
    ensures LastDate(s, parse).None? <==> forall j :: 0 <= j < |s| ==> DateKey(s[j], parse).None?
    ensures forall i :: (0 <= i < |s| && DateKey(s[i], parse).Some?
      && forall j :: i < j < |s| ==> DateKey(s[j], parse).None?) ==> LastDate(s, parse) == DateKey(s[i], parse)
  {
    forall i | 0 <= i < |s| && DateKey(s[i], parse).Some? && (forall j :: i < j < |s| ==> DateKey(s[j], parse).None?)
      ensures LastDate(s, parse) == DateKey(s[i], parse)
    {
      var l := LastDatedIndex(s, parse).value;
      assert !(l < i) && !(i < l);
    }
  }

  /**
   * The output date is the last date that parses among the records up to and including the
   * first record with an identifier: that record's own date when it parses, otherwise the
   * last parseable date before it; with no identifier at all, the last parseable date of the
   * whole scan; absent when none of those dates parses.
   */
  lemma DatumRule(s: seq<V2Histologie>, parse: DateParser)
    ensures forall k :: FirstAt(s, k, HasId) ==> Scan(s, parse).datum == LastDate(s[..k + 1], parse)
    ensures (forall j :: 0 <= j < |s| ==> s[j].histologieID.None?) ==> Scan(s, parse).datum == LastDate(s, parse)
    ensures (forall j :: 0 <= j < |s| ==> DateKey(s[j], parse).None?) ==> Scan(s, parse).datum.None?
  {
    forall k | FirstAt(s, k, HasId)
      ensures Scan(s, parse).datum == LastDate(s[..k + 1], parse)
    {
      FirstAtUnique(s, k, FirstIndex(s, HasId).value, HasId);
      var t := s[..k + 1];
      assert t[..k] == s[..k] && t[k] == s[k];
      assert t[..|t| - 1] == s[..k];
    }
    if forall j :: 0 <= j < |s| ==> DateKey(s[j], parse).None? {
      LastDateIsLastParsed(s, parse);
      match FirstIndex(s, HasId)
      case Some(k) =>
        LastDateIsLastParsed(s[..k], parse);
      case None =>
    }
  }

  /** The sentinel pair is set as a whole from the first record carrying both values, or not at all. */
  lemma SentinelPairAtomic(s: seq<V2Histologie>, parse: DateParser)
    ensures var r := Scan(s, parse);
      && (r.sentinelLKUntersucht.Some? <==> r.sentinelLKBefallen.Some?)
      && (r.sentinelLKUntersucht.None? <==> forall j :: 0 <= j < |s| ==> !HasSentinelPair(s[j]))
      && forall k :: FirstAt(s, k, HasSentinelPair) ==>
           r.sentinelLKUntersucht == s[k].sentinelLKUntersucht && r.sentinelLKBefallen == s[k].sentinelLKBefallen
  {
    forall k | FirstAt(s, k, HasSentinelPair)
      ensures Scan(s, parse).sentinelLKUntersucht == s[k].sentinelLKUntersucht
      ensures Scan(s, parse).sentinelLKBefallen == s[k].sentinelLKBefallen
    {
      FirstAtUnique(s, k, FirstIndex(s, HasSentinelPair).value, HasSentinelPair);
    }
  }

  /** The lymph-node pair follows the same rule, independently of the sentinel pair. */
  lemma LKPairAtomic(s: seq<V2Histologie>, parse: DateParser)
    ensures var r := Scan(s, parse);
      && (r.lkUntersucht.Some? <==> r.lkBefallen.Some?)
      && (r.lkUntersucht.None? <==> forall j :: 0 <= j < |s| ==> !HasLKPair(s[j]))
      && forall k :: FirstAt(s, k, HasLKPair) ==>
           r.lkUntersucht == s[k].lkUntersucht && r.lkBefallen == s[k].lkBefallen
  {
    forall k | FirstAt(s, k, HasLKPair)
      ensures Scan(s, parse).lkUntersucht == s[k].lkUntersucht
      ensures Scan(s, parse).lkBefallen == s[k].lkBefallen
    {
      FirstAtUnique(s, k, FirstIndex(s, HasLKPair).value, HasLKPair);
    }
  }

  /** The free text is the first one in scan order; absent only if no record has one. */
  lemma FreitextFirstWins(s: seq<V2Histologie>, parse: DateParser)
    ensures var r := Scan(s, parse);
      && (r.morphologieFreitext.None? <==> forall j :: 0 <= j < |s| ==> s[j].morphologieFreitext.None?)
      && forall k :: FirstAt(s, k, HasFreitext) ==> r.morphologieFreitext == s[k].morphologieFreitext
  {
    forall k | FirstAt(s, k, HasFreitext)
      ensures Scan(s, parse).morphologieFreitext == s[k].morphologieFreitext
    {
      FirstAtUnique(s, k, FirstIndex(s, HasFreitext).value, HasFreitext);
    }
  }

  /** Scanning two stretches of records one after the other appends their morphology entries. */
  lemma {:induction false} MorphologiesConcat(a: seq<V2Histologie>, b: seq<V2Histologie>)
    ensures Morphologies(a + b) == Morphologies(a) + Morphologies(b)
    decreases |b|
  {
    if b == [] {
      assert a + b == a;
    } else {
      var b' := b[..|b| - 1];
      MorphologiesConcat(a, b');
      assert (a + b)[..|a + b| - 1] == a + b';
      assert (a + b)[|a + b| - 1] == b[|b| - 1];
    }
  }

  /** The coded records of two stretches scanned in sequence are those of the first, then those of the second. */
  lemma {:induction false} CodedRecordsConcat(a: seq<V2Histologie>, b: seq<V2Histologie>)
    ensures CodedRecords(a + b) == CodedRecords(a) + CodedRecords(b)
    decreases |b|
  {
    if b == [] {
      assert a + b == a;
    } else {
      var b' := b[..|b| - 1];
      assert (a + b)[..|a + b| - 1] == a + b';
      assert (a + b)[|a + b| - 1] == b[|b| - 1];
      CodedRecordsConcat(a, b');
    }
  }

  /**
   * The morphology list holds, position by position, the code and version of each record with a
   * code, in scan order: one entry per such record, duplicates kept, a missing version copied.
   */
  lemma {:induction false} MorphologiesAreCodedRecords(s: seq<V2Histologie>)
    ensures var m, c := Morphologies(s), CodedRecords(s);
      |m| == |c| && forall i :: 0 <= i < |c| ==>
        m[i].code == c[i].morphologieCode.value && m[i].version == c[i].morphologieICDOVersion
  {
    if s != [] {
      MorphologiesAreCodedRecords(s[..|s| - 1]);
    }
  }

  /**
   * Records scanned later never overwrite a set-once field: the identity (with the date that
   * came with it), either pair and the free text stay as they are, and later morphology codes
   * are only appended.
   */
  lemma LaterRecordsNeverOverwrite(s: seq<V2Histologie>, t: seq<V2Histologie>, parse: DateParser)
    ensures var r, r' := Scan(s, parse), Scan(s + t, parse);
      && (r.histologieID.Some? ==>
            r'.histologieID == r.histologieID && r'.einsendeNr == r.einsendeNr && r'.datum == r.datum)
      && (r.sentinelLKUntersucht.Some? ==>
            r'.sentinelLKUntersucht == r.sentinelLKUntersucht && r'.sentinelLKBefallen == r.sentinelLKBefallen)
      && (r.lkUntersucht.Some? ==> r'.lkUntersucht == r.lkUntersucht && r'.lkBefallen == r.lkBefallen)
      && (r.morphologieFreitext.Some? ==> r'.morphologieFreitext == r.morphologieFreitext)
      && r'.morphologieICDO == r.morphologieICDO + Morphologies(t)
  {
    FirstIndexAppend(s, t, HasId);
    FirstIndexAppend(s, t, HasSentinelPair);
    FirstIndexAppend(s, t, HasLKPair);
    FirstIndexAppend(s, t, HasFreitext);
    MorphologiesConcat(s, t);
    match FirstIndex(s, HasId)
    case Some(k) =>
      assert (s + t)[..k] == s[..k] && (s + t)[k] == s[k];
    case None =>
  }

  /** In a sorted sequence the last parseable date is the earliest one. */
  lemma SortedLastDateIsEarliest(r: seq<V2Histologie>, parse: DateParser)
    requires SortedByDateDesc(r, parse)
    ensures forall i :: 0 <= i < |r| && DateKey(r[i], parse).Some? ==>
      LastDate(r, parse).Some? && LastDate(r, parse).value <= DateKey(r[i], parse).value
  {
    forall i | 0 <= i < |r| && DateKey(r[i], parse).Some?
      ensures LastDate(r, parse).Some? && LastDate(r, parse).value <= DateKey(r[i], parse).value
    {
      var l := LastDatedIndex(r, parse).value;
      if i < l {
        assert MayPrecede(DateKey(r[i], parse), DateKey(r[l], parse));
        ByDateDescMeaning(DateKey(r[i], parse), DateKey(r[l], parse));
      }
    }
  }

  /** A scan over records without identifiers ends with the last parseable date. */
  lemma NoIdScanDatum(r: seq<V2Histologie>, parse: DateParser)
    requires forall i :: 0 <= i < |r| ==> r[i].histologieID.None?
    ensures Scan(r, parse).datum == LastDate(r, parse)
  {
    assert FirstIndex(r, HasId).None?;
    assert Scan(r, parse).datum == ScanDatum(r, parse);
  }

  /** With no identifier anywhere, the output date is the last parseable date of the scan order. */
  lemma NoIdMergedDatum(source: seq<V2Histologie>, parse: DateParser)
    requires forall j :: 0 <= j < |source| ==> source[j].histologieID.None?
    ensures Merged(source, parse).datum == LastDate(SortByDateDesc(source, parse), parse)
  {
    var r := SortByDateDesc(source, parse);
    assert multiset(r) == multiset(source);
    forall i | 0 <= i < |r| ensures r[i].histologieID.None? {
      assert r[i] in multiset(source);
    }
    NoIdScanDatum(r, parse);
    assert Merged(source, parse).datum == Scan(r, parse).datum;
  }

  /**
   * With no identifier anywhere, the date that survives is the earliest parseable date of the
   * input, because later (older) records in the scan overwrite earlier (newer) ones.
   */
  lemma NoIdDateIsEarliest(source: seq<V2Histologie>, parse: DateParser)
    requires forall j :: 0 <= j < |source| ==> source[j].histologieID.None?
    ensures var d := Merged(source, parse).datum;
      && (d.None? <==> forall j :: 0 <= j < |source| ==> DateKey(source[j], parse).None?)
      && (d.Some? ==> forall j :: 0 <= j < |source| && DateKey(source[j], parse).Some? ==>
            d.value <= DateKey(source[j], parse).value)
      && (d.Some? ==> exists j :: 0 <= j < |source| && DateKey(source[j], parse) == d)
  {
    var r := SortByDateDesc(source, parse);
    SortByDateDescIsStableSort(source, parse);
    assert SortedByDateDesc(r, parse);
    NoIdMergedDatum(source, parse);
    SortedLastDateIsEarliest(r, parse);
    forall j | 0 <= j < |source| && DateKey(source[j], parse).Some?
      ensures LastDate(r, parse).Some? && LastDate(r, parse).value <= DateKey(source[j], parse).value
    {
      assert source[j] in multiset(r);
      var i :| 0 <= i < |r| && r[i] == source[j];
    }
    if forall j :: 0 <= j < |source| ==> DateKey(source[j], parse).None? {
      forall i | 0 <= i < |r| ensures DateKey(r[i], parse).None? {
        assert r[i] in multiset(source);
      }
      assert LastDatedIndex(r, parse).None?;
    }
    if LastDatedIndex(r, parse).Some? {
      var l := LastDatedIndex(r, parse).value;
      assert r[l] in multiset(source);
      var j :| 0 <= j < |source| && source[j] == r[l];
      assert DateKey(source[j], parse) == LastDate(r, parse);
    }
  }

  /** A single record maps to its own fields; a pair counts only when complete, the number only with an identifier. */
  lemma SingleRecord(h: V2Histologie, parse: DateParser)
    ensures Merged([h], parse) == V3Histologie(
      histologieID := h.histologieID,
      einsendeNr := if HasId(h) then h.einsendeNr else None,
      datum := DateKey(h, parse),
      sentinelLKUntersucht := if HasSentinelPair(h) then h.sentinelLKUntersucht else None,
      sentinelLKBefallen := if HasSentinelPair(h) then h.sentinelLKBefallen else None,
      lkUntersucht := if HasLKPair(h) then h.lkUntersucht else None,
      lkBefallen := if HasLKPair(h) then h.lkBefallen else None,
      morphologieICDO := if HasMorphologieCode(h) then [MorphologieOf(h)] else [],
      morphologieFreitext := h.morphologieFreitext,
      grading := h.grading)
  {
    assert SortByDateDesc([h], parse) == [h];
    assert [h][..0] == [] && [h][1..] == [];
    var r := Scan([h], parse);
    assert r.histologieID == h.histologieID;
    assert r.datum == DateKey(h, parse) by {
      assert LastDatedIndex([h][..0], parse).None?;
    }
    var entries: seq<Morphologie> := if HasMorphologieCode(h) then [MorphologieOf(h)] else [];
    assert Morphologies([h]) == Morphologies([]) + entries;
    assert [] + entries == entries;
    assert WorstGradingIndex([h][..0]).None?;
    assert WorstGrading([h]) == h.grading;
  }

  /** A record carrying only a date and a grading. */
  function DatedGrading(datum: Option<string>, grading: Option<string>): V2Histologie
  {
    V2Histologie(None, None, datum, None, None, None, None, None, None, None, grading)
  }

  /** A parser that knows two dates and rejects everything else. */
  function ExampleParser(d: Option<string>): Option<Instant>
  {
    if d == Some("2020-01-01") then Some(20200101)
    else if d == Some("2022-06-15") then Some(20220615)
    else None
  }

  /** The three example records carry the dates 2020-01-01, 2022-06-15 and an unparsable one. */
  function OlderRecord(): V2Histologie { DatedGrading(Some("2020-01-01"), None) }
  function NewerRecord(): V2Histologie { DatedGrading(Some("2022-06-15"), None) }
  function UndatedRecord(): V2Histologie { DatedGrading(Some("n/a"), None) }

  /** The keys of the example records, and how they compare. */
  lemma ExampleKeys()
    ensures DateKey(OlderRecord(), ExampleParser) == Some(20200101)
    ensures DateKey(NewerRecord(), ExampleParser) == Some(20220615)
    ensures DateKey(UndatedRecord(), ExampleParser) == None
    ensures !MayPrecede(DateKey(NewerRecord(), ExampleParser), DateKey(UndatedRecord(), ExampleParser))
    ensures !MayPrecede(DateKey(OlderRecord(), ExampleParser), DateKey(UndatedRecord(), ExampleParser))
    ensures !MayPrecede(DateKey(OlderRecord(), ExampleParser), DateKey(NewerRecord(), ExampleParser))
  {
  }

  /** The newer record goes behind the undated one. */
  lemma ExampleInsertNewer()
    ensures Insert(NewerRecord(), [UndatedRecord()], ExampleParser) == [UndatedRecord(), NewerRecord()]
  {
    ExampleKeys();
    assert [UndatedRecord()][1..] == [];
  }

  /** The older record goes behind both. */
  lemma ExampleInsertOlder()
    ensures Insert(OlderRecord(), [UndatedRecord(), NewerRecord()], ExampleParser)
         == [UndatedRecord(), NewerRecord(), OlderRecord()]
  {
    ExampleKeys();
    var older, newer := OlderRecord(), NewerRecord();
    assert [newer][1..] == [];
    assert Insert(older, [newer], ExampleParser) == [newer, older];
    assert [UndatedRecord(), newer][1..] == [newer];
  }

  /** Dates 2020-01-01, 2022-06-15 and an unparsable one are scanned unparsable first, then newest to oldest. */
  lemma DateOrderExample()
    ensures SortByDateDesc([OlderRecord(), NewerRecord(), UndatedRecord()], ExampleParser)
         == [UndatedRecord(), NewerRecord(), OlderRecord()]
  {
    var older, newer, undated := OlderRecord(), NewerRecord(), UndatedRecord();
    assert [undated][1..] == [];
    assert SortByDateDesc([undated], ExampleParser) == [undated];
    ExampleInsertNewer();
    ExampleInsertOlder();
    assert [older, newer, undated][1..] == [newer, undated];
    assert [newer, undated][1..] == [undated];
    assert SortByDateDesc([newer, undated], ExampleParser) == [undated, newer];
  }

  /** {"1","H","B"} resolves to "H" (the most severe of the three). */
  lemma GradingExampleHighGrade()
    ensures WorstGrading([DatedGrading(None, Some("1")), DatedGrading(None, Some("H")), DatedGrading(None, Some("B"))])
         == Some("H")
  {
    var one, high, b := DatedGrading(None, Some("1")), DatedGrading(None, Some("H")), DatedGrading(None, Some("B"));
    assert GradingSeverity(Some("1")) == 40 && GradingSeverity(Some("H")) == 90 && GradingSeverity(Some("B")) == 30;
    assert [one, high, b][..2] == [one, high] && [one, high][..1] == [one] && [one][..0] == [];
    assert WorstGradingIndex([one]) == Some(0);
    assert WorstGradingIndex([one, high]) == Some(1);
    assert WorstGradingIndex([one, high, b]) == Some(1);
  }

  /** "B" alone resolves to "B" without a warning; {"B","1"} resolves to "1" with one. */
  lemma GradingExampleBorderline()
    ensures WorstGrading([DatedGrading(None, Some("B"))]) == Some("B")
    ensures !GradingInconsistent([DatedGrading(None, Some("B"))])
    ensures WorstGrading([DatedGrading(None, Some("B")), DatedGrading(None, Some("1"))]) == Some("1")
    ensures GradingInconsistent([DatedGrading(None, Some("B")), DatedGrading(None, Some("1"))])
  {
    var one, b := DatedGrading(None, Some("1")), DatedGrading(None, Some("B"));
    assert GradingSeverity(Some("1")) == 40 && GradingSeverity(Some("B")) == 30;
    assert [b, one][..1] == [b] && [b][..0] == [];
    assert WorstGradingIndex([b]) == Some(0);
    assert WorstGradingIndex([b, one]) == Some(1);
    assert [b, one][1].grading.value != "B";
  }
}
