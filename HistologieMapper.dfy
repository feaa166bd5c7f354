/**
 * `HistologieMapper.map`: merges the oBDS v2 histology records of one case into one oBDS v3
 * histology record. The records are scanned once in date order (undated first, then newest
 * to oldest) with set-once guards for the identity, the two lymph-node pairs and the
 * morphology free text, while every morphology code is appended; the grading is resolved
 * over the unsorted input.
 */
module HistologieMapper {
  import opened Wrappers
  import opened Histologie
  import opened DateOrder
  import opened Grading

  predicate HasId(h: V2Histologie) { h.histologieID.Some? }

  predicate HasSentinelPair(h: V2Histologie) { h.sentinelLKUntersucht.Some? && h.sentinelLKBefallen.Some? }

  predicate HasLKPair(h: V2Histologie) { h.lkUntersucht.Some? && h.lkBefallen.Some? }

  predicate HasFreitext(h: V2Histologie) { h.morphologieFreitext.Some? }

  predicate HasMorphologieCode(h: V2Histologie) { h.morphologieCode.Some? }

  /** `k` is the first position of `s` whose record satisfies `p`. */
  predicate FirstAt(s: seq<V2Histologie>, k: int, p: V2Histologie -> bool)
  {
    0 <= k < |s| && p(s[k]) && forall j :: 0 <= j < k ==> !p(s[j])
  }

  /** The first position whose record satisfies `p`, if any. */
  function FirstIndex(s: seq<V2Histologie>, p: V2Histologie -> bool): (r: Option<nat>)
    ensures r.Some? ==> FirstAt(s, r.value, p)
    ensures r.None? <==> forall j :: 0 <= j < |s| ==> !p(s[j])
  {
    if s == [] then None
    else if p(s[0]) then Some(0)
    else match FirstIndex(s[1..], p)
      case None => None
      case Some(k) => Some(k + 1)
  }

  /** The last position whose date parses, if any. */
  function LastDatedIndex(s: seq<V2Histologie>, parse: DateParser): (r: Option<nat>)
    ensures r.Some? ==> r.value < |s| && DateKey(s[r.value], parse).Some?
    ensures r.Some? ==> forall j :: r.value < j < |s| ==> DateKey(s[j], parse).None?
    ensures r.None? <==> forall j :: 0 <= j < |s| ==> DateKey(s[j], parse).None?
  {
    if s == [] then None
    else if DateKey(s[|s| - 1], parse).Some? then Some(|s| - 1)
    else
      assert forall j :: 0 <= j < |s| - 1 ==> s[..|s| - 1][j] == s[j];
      LastDatedIndex(s[..|s| - 1], parse)
  }

  /** The last date that parses in `s`, if any. */
  function LastDate(s: seq<V2Histologie>, parse: DateParser): Option<Instant>
  {
    match LastDatedIndex(s, parse)
    case None => None
    case Some(i) => DateKey(s[i], parse)
  }

  /**
   * The output date after scanning `s`: while no identifier has been taken every parseable
   * date overwrites the previous one; the record whose identifier is taken contributes its
   * date if it parses; after that the date no longer changes.
   */
  function ScanDatum(s: seq<V2Histologie>, parse: DateParser): Option<Instant>
  {
    match FirstIndex(s, HasId)
    case Some(k) => if DateKey(s[k], parse).Some? then DateKey(s[k], parse) else LastDate(s[..k], parse)
    case None => LastDate(s, parse)
  }

  function MorphologieOf(h: V2Histologie): Morphologie
    requires HasMorphologieCode(h)
  {
    Morphologie(h.morphologieCode.value, h.morphologieICDOVersion)
  }

  /** One morphology entry per record with a code, appended in scan order, duplicates kept. */
  function Morphologies(s: seq<V2Histologie>): seq<Morphologie>
  {
    if s == [] then []
    else
      var h := s[|s| - 1];
      Morphologies(s[..|s| - 1]) + (if HasMorphologieCode(h) then [MorphologieOf(h)] else [])
  }

  /** The records of `s` that carry a morphology code, in the order of `s`. */
  function CodedRecords(s: seq<V2Histologie>): (r: seq<V2Histologie>)
    ensures forall i :: 0 <= i < |r| ==> HasMorphologieCode(r[i])
    ensures forall x :: x in r <==> x in s && HasMorphologieCode(x)
    ensures |r| <= |s|
  {
    if s == [] then []
    else
      var h := s[|s| - 1];
      CodedRecords(s[..|s| - 1]) + (if HasMorphologieCode(h) then [h] else [])
  }

  /**
   * The fields the scan produces from the records `s`, field by field: identity from the
   * first record with an identifier, each lymph-node pair from the first record carrying
   * both of its values, the free text from the first record with one, all morphology codes.
   * The grading is not part of the scan.
   */
  function Scan(s: seq<V2Histologie>, parse: DateParser): V3Histologie
  {
    var id := FirstIndex(s, HasId);
    var sentinel := FirstIndex(s, HasSentinelPair);
    var lk := FirstIndex(s, HasLKPair);
    var text := FirstIndex(s, HasFreitext);
    V3Histologie(
      histologieID := if id.Some? then s[id.value].histologieID else None,
      einsendeNr := if id.Some? then s[id.value].einsendeNr else None,
      datum := ScanDatum(s, parse),
      sentinelLKUntersucht := if sentinel.Some? then s[sentinel.value].sentinelLKUntersucht else None,
      sentinelLKBefallen := if sentinel.Some? then s[sentinel.value].sentinelLKBefallen else None,
      lkUntersucht := if lk.Some? then s[lk.value].lkUntersucht else None,
      lkBefallen := if lk.Some? then s[lk.value].lkBefallen else None,
      morphologieICDO := Morphologies(s),
      morphologieFreitext := if text.Some? then s[text.value].morphologieFreitext else None,
      grading := None)
  }

  /** The record `map` returns for a non-empty input. */
  function Merged(source: seq<V2Histologie>, parse: DateParser): V3Histologie
  {
    Scan(SortByDateDesc(source, parse), parse).(grading := WorstGrading(source))
  }

  lemma {:induction false} FirstIndexAppend(s: seq<V2Histologie>, t: seq<V2Histologie>, p: V2Histologie -> bool)
    ensures FirstIndex(s + t, p)
         == if FirstIndex(s, p).Some? then FirstIndex(s, p)
            else match FirstIndex(t, p) case None => None case Some(k) => Some(|s| + k)
  {
    if s == [] {
      assert s + t == t;
    } else if p(s[0]) {
      assert (s + t)[0] == s[0];
    } else {
      assert (s + t)[0] == s[0];
      assert (s + t)[1..] == s[1..] + t;
      FirstIndexAppend(s[1..], t, p);
    }
  }

  lemma LastDatedIndexSnoc(s: seq<V2Histologie>, x: V2Histologie, parse: DateParser)
    ensures LastDate(s + [x], parse) == if DateKey(x, parse).Some? then DateKey(x, parse) else LastDate(s, parse)
  {
    assert (s + [x])[..|s|] == s;
    assert (s + [x])[|s|] == x;
  }

  lemma MorphologiesSnoc(s: seq<V2Histologie>, x: V2Histologie)
    ensures Morphologies(s + [x]) == Morphologies(s) + (if HasMorphologieCode(x) then [MorphologieOf(x)] else [])
  {
    assert (s + [x])[..|s|] == s;
  }

  /**
   * How the scan result changes when one more record `x` is scanned: the identity is taken
   * from `x` only while none has been taken (its submission number with it).
   */
  lemma ScanIdentitySnoc(s: seq<V2Histologie>, x: V2Histologie, parse: DateParser)
    ensures var r, r' := Scan(s, parse), Scan(s + [x], parse);
      && r'.histologieID == (if r.histologieID.None? then x.histologieID else r.histologieID)
      && r'.einsendeNr == (if r.histologieID.None? && HasId(x) then x.einsendeNr else r.einsendeNr)
  {
    assert (s + [x])[|s|] == x;
    FirstIndexAppend(s, [x], HasId);
  }

  /** The date follows `x` while no identifier has been taken before `x`, if `x`'s date parses. */
  lemma ScanDatumSnoc(s: seq<V2Histologie>, x: V2Histologie, parse: DateParser)
    ensures var r, r' := Scan(s, parse), Scan(s + [x], parse);
      r'.datum == (if r.histologieID.Some? || DateKey(x, parse).None? then r.datum else DateKey(x, parse))
  {
    var t := s + [x];
    assert t[|s|] == x;
    FirstIndexAppend(s, [x], HasId);
    LastDatedIndexSnoc(s, x, parse);
    match FirstIndex(s, HasId)
    case Some(k) =>
      assert t[..k] == s[..k];
    case None =>
      assert t[..|s|] == s;
  }

  /** The sentinel pair is taken from `x`, both values together, only while neither is set. */
  lemma ScanSentinelSnoc(s: seq<V2Histologie>, x: V2Histologie, parse: DateParser)
    ensures var r, r' := Scan(s, parse), Scan(s + [x], parse);
      && (r.sentinelLKUntersucht.None? <==> r.sentinelLKBefallen.None?)
      && if r.sentinelLKUntersucht.None? && HasSentinelPair(x)
         then r'.sentinelLKUntersucht == x.sentinelLKUntersucht && r'.sentinelLKBefallen == x.sentinelLKBefallen
         else r'.sentinelLKUntersucht == r.sentinelLKUntersucht && r'.sentinelLKBefallen == r.sentinelLKBefallen
  {
    assert (s + [x])[|s|] == x;
    FirstIndexAppend(s, [x], HasSentinelPair);
  }

  /** The same rule for the lymph-node pair, independently of the sentinel pair. */
  lemma ScanLKSnoc(s: seq<V2Histologie>, x: V2Histologie, parse: DateParser)
    ensures var r, r' := Scan(s, parse), Scan(s + [x], parse);
      && (r.lkUntersucht.None? <==> r.lkBefallen.None?)
      && if r.lkUntersucht.None? && HasLKPair(x)
         then r'.lkUntersucht == x.lkUntersucht && r'.lkBefallen == x.lkBefallen
         else r'.lkUntersucht == r.lkUntersucht && r'.lkBefallen == r.lkBefallen
  {
    assert (s + [x])[|s|] == x;
    FirstIndexAppend(s, [x], HasLKPair);
  }

  /** A code of `x` is appended; the free text is taken from `x` only while none is set. */
  lemma ScanMorphologieSnoc(s: seq<V2Histologie>, x: V2Histologie, parse: DateParser)
    ensures var r, r' := Scan(s, parse), Scan(s + [x], parse);
      && r'.morphologieICDO == r.morphologieICDO + (if HasMorphologieCode(x) then [MorphologieOf(x)] else [])
      && r'.morphologieFreitext == (if r.morphologieFreitext.None? then x.morphologieFreitext else r.morphologieFreitext)
      && r'.grading == r.grading == None
  {
    assert (s + [x])[|s|] == x;
    FirstIndexAppend(s, [x], HasFreitext);
    MorphologiesSnoc(s, x);
  }

  /** The first record with an identifier sets it, its submission number and its date. */
  function TakeIdentity(r: V3Histologie, x: V2Histologie, parse: DateParser): V3Histologie
  {
    if HasId(x) && r.histologieID.None? then
      r.(histologieID := x.histologieID,
         einsendeNr := if x.einsendeNr.Some? then x.einsendeNr else r.einsendeNr,
         datum := if DateKey(x, parse).Some? then DateKey(x, parse) else r.datum)
    else r
  }

  /** A record with both sentinel values sets both while neither is set. */
  function TakeSentinelPair(r: V3Histologie, x: V2Histologie): V3Histologie
  {
    if HasSentinelPair(x) && r.sentinelLKUntersucht.None? && r.sentinelLKBefallen.None? then
      r.(sentinelLKUntersucht := x.sentinelLKUntersucht, sentinelLKBefallen := x.sentinelLKBefallen)
    else r
  }

  /** The same for the lymph-node pair. */
  function TakeLKPair(r: V3Histologie, x: V2Histologie): V3Histologie
  {
    if HasLKPair(x) && r.lkUntersucht.None? && r.lkBefallen.None? then
      r.(lkUntersucht := x.lkUntersucht, lkBefallen := x.lkBefallen)
    else r
  }

  /** A record with a morphology code appends it with its version. */
  function AppendMorphologie(r: V3Histologie, x: V2Histologie): V3Histologie
  {
    if HasMorphologieCode(x) then r.(morphologieICDO := r.morphologieICDO + [MorphologieOf(x)]) else r
  }

  /** The free text is set once. */
  function TakeFreitext(r: V3Histologie, x: V2Histologie): V3Histologie
  {
    if HasFreitext(x) && r.morphologieFreitext.None? then r.(morphologieFreitext := x.morphologieFreitext) else r
  }

  /** While no identifier is set, a parseable date overwrites the date. */
  function FollowDatum(r: V3Histologie, x: V2Histologie, parse: DateParser): V3Histologie
  {
    if r.histologieID.None? && DateKey(x, parse).Some? then r.(datum := DateKey(x, parse)) else r
  }

  /** The effect of scanning one more record `x` on the fields `r` collected so far: the six blocks in order. */
  function Step(r: V3Histologie, x: V2Histologie, parse: DateParser): V3Histologie
  {
    FollowDatum(TakeFreitext(AppendMorphologie(TakeLKPair(TakeSentinelPair(TakeIdentity(r, x, parse), x), x), x), x), x, parse)
  }

  /** The field-by-field rules of `Scan` and the record-by-record step agree. */
  lemma ScanStep(s: seq<V2Histologie>, x: V2Histologie, parse: DateParser)
    ensures Scan(s + [x], parse) == Step(Scan(s, parse), x, parse)
  {
    ScanIdentitySnoc(s, x, parse);
    ScanDatumSnoc(s, x, parse);
    ScanSentinelSnoc(s, x, parse);
    ScanLKSnoc(s, x, parse);
    ScanMorphologieSnoc(s, x, parse);
  }

  method MapIdentity(mappedHisto: V3HistologieTyp, v2Histo: V2Histologie, parse: DateParser)
    modifies mappedHisto
    ensures mappedHisto.Value() == TakeIdentity(old(mappedHisto.Value()), v2Histo, parse)
  {
    if v2Histo.histologieID.Some? && mappedHisto.histologieID.None? {
      mappedHisto.histologieID := v2Histo.histologieID;
      if v2Histo.einsendeNr.Some? {
        // `map` logs a warning here, whose text says no number is mapped, but copies the number
        mappedHisto.einsendeNr := v2Histo.einsendeNr;
      }
      var datum := parse(v2Histo.datum);
      if datum.Some? {
        mappedHisto.datum := datum;
      }
    }
  }

  method MapSentinelPair(mappedHisto: V3HistologieTyp, v2Histo: V2Histologie)
    modifies mappedHisto
    ensures mappedHisto.Value() == TakeSentinelPair(old(mappedHisto.Value()), v2Histo)
  {
    if v2Histo.sentinelLKUntersucht.Some? && v2Histo.sentinelLKBefallen.Some?
      && mappedHisto.sentinelLKUntersucht.None? && mappedHisto.sentinelLKBefallen.None?
    {
      mappedHisto.sentinelLKUntersucht := v2Histo.sentinelLKUntersucht;
      mappedHisto.sentinelLKBefallen := v2Histo.sentinelLKBefallen;
    }
  }

  method MapLKPair(mappedHisto: V3HistologieTyp, v2Histo: V2Histologie)
    modifies mappedHisto
    ensures mappedHisto.Value() == TakeLKPair(old(mappedHisto.Value()), v2Histo)
  {
    if v2Histo.lkUntersucht.Some? && v2Histo.lkBefallen.Some?
      && mappedHisto.lkUntersucht.None? && mappedHisto.lkBefallen.None?
    {
      mappedHisto.lkUntersucht := v2Histo.lkUntersucht;
      mappedHisto.lkBefallen := v2Histo.lkBefallen;
    }
  }

  method MapMorphologie(mappedHisto: V3HistologieTyp, v2Histo: V2Histologie)
    modifies mappedHisto
    ensures mappedHisto.Value() == AppendMorphologie(old(mappedHisto.Value()), v2Histo)
  {
    if v2Histo.morphologieCode.Some? {
      var morphologieCode := Morphologie(v2Histo.morphologieCode.value, v2Histo.morphologieICDOVersion);
      // this may add duplicate codes; the consumer of the v3 record removes them
      mappedHisto.morphologieICDO := mappedHisto.morphologieICDO + [morphologieCode];
    }
  }

  method MapFreitext(mappedHisto: V3HistologieTyp, v2Histo: V2Histologie)
    modifies mappedHisto
    ensures mappedHisto.Value() == TakeFreitext(old(mappedHisto.Value()), v2Histo)
  {
    if v2Histo.morphologieFreitext.Some? && mappedHisto.morphologieFreitext.None? {
      mappedHisto.morphologieFreitext := v2Histo.morphologieFreitext;
    }
  }

  method MapDatumWhileNoId(mappedHisto: V3HistologieTyp, v2Histo: V2Histologie, parse: DateParser)
    modifies mappedHisto
    ensures mappedHisto.Value() == FollowDatum(old(mappedHisto.Value()), v2Histo, parse)
  {
    if mappedHisto.histologieID.None? {
      var datum := parse(v2Histo.datum);
      if datum.Some? {
        mappedHisto.datum := datum;
      }
    }
  }

  /** One pass of the loop body of `map`: updates `mappedHisto` with the next record in scan order. */
  method ScanRecord(mappedHisto: V3HistologieTyp, v2Histo: V2Histologie, parse: DateParser)
    modifies mappedHisto
    ensures mappedHisto.Value() == Step(old(mappedHisto.Value()), v2Histo, parse)
  {
    MapIdentity(mappedHisto, v2Histo, parse);
    MapSentinelPair(mappedHisto, v2Histo);
    MapLKPair(mappedHisto, v2Histo);
    MapMorphologie(mappedHisto, v2Histo);
    MapFreitext(mappedHisto, v2Histo);
    MapDatumWhileNoId(mappedHisto, v2Histo, parse);
  }

  /** A fresh v3 record filled in by scanning `sorted` once, in order. */
  method ScanAll(sorted: seq<V2Histologie>, parse: DateParser) returns (mappedHisto: V3HistologieTyp)
    ensures fresh(mappedHisto)
    ensures mappedHisto.Value() == Scan(sorted, parse)
  {
    mappedHisto := new V3HistologieTyp();
    for i := 0 to |sorted|
      invariant mappedHisto.Value() == Scan(sorted[..i], parse)
    {
      ScanStep(sorted[..i], sorted[i], parse);
      ScanRecord(mappedHisto, sorted[i], parse);
      assert sorted[..i + 1] == sorted[..i] + [sorted[i]];
    }
    assert sorted[..|sorted|] == sorted;
  }

  /**
   * `map`: absent for a null or empty list; otherwise the merged record, and whether the
   * gradings mix "B" with other codes (the condition under which a warning is logged).
   */
  method Map(source: Option<seq<V2Histologie>>, parse: DateParser)
    returns (result: Option<V3Histologie>, gradingInconsistent: bool)
    ensures result.None? <==> source.None? || source.value == []
    ensures result.Some? ==> result.value == Merged(source.value, parse)
    ensures gradingInconsistent <==> result.Some? && GradingInconsistent(source.value)
  {
    if source.None? || source.value == [] {
      return None, false;
    }
    var sorted := SortByDateDesc(source.value, parse);
    var mappedHisto := ScanAll(sorted, parse);

    var worstGrading := WorstGrading(source.value);
    if worstGrading.Some? {
      mappedHisto.grading := worstGrading;
    }

    var hasB := HasB(source.value);
    var hasAnyNonB := HasAnyNonB(source.value);
    gradingInconsistent := hasB && hasAnyNonB;

    result := Some(mappedHisto.Value());
  }
}
