/**
 * Grading resolution over the unsorted input: the severity table, the "worst" grading
 * (`filter(nonNull).max(comparingInt(gradingSeverity))`) and the check for a Borderline
 * grading mixed with other gradings.
 */
module Grading {
  import opened Wrappers
  import opened Histologie

  /** Java's `Integer.MIN_VALUE`, the severity of an absent grading. */
  const IntegerMinValue: int := -0x8000_0000

  /** The twelve grading codes of the table, from most to least severe. */
  const KnownGradings: seq<string> := ["4", "H", "3", "M", "2", "L", "1", "B", "0", "X", "U", "T"]

  /** The fixed severity rank of a grading code; unknown codes rank -1, an absent grading lowest of all. */
  function GradingSeverity(grading: Option<string>): (rank: int)
    ensures grading.Some? ==> (rank == -1 <==> grading.value !in KnownGradings)
    ensures grading.Some? ==> rank >= -1
    ensures grading.None? ==> rank < -1
  {
    match grading
    case None => IntegerMinValue
    case Some(g) =>
      match g
      case "4" => 100  // undifferentiated
      case "H" => 90   // high grade
      case "3" => 80   // poorly differentiated
      case "M" => 70   // intermediate
      case "2" => 60   // moderately differentiated
      case "L" => 50   // low grade
      case "1" => 40   // well differentiated
      case "B" => 30   // borderline
      case "0" => 20   // conjunctival melanoma
      case "X" => 10   // cannot be determined
      case "U" => 5    // unknown
      case "T" => 0    // not applicable
      case _ => -1
  }

  /** The ranks the table gives the codes of `KnownGradings`, position by position. */
  const KnownRanks: seq<int> := [100, 90, 80, 70, 60, 50, 40, 30, 20, 10, 5, 0]

  lemma {:induction false} KnownGradingRanks()
    ensures forall i :: 0 <= i < |KnownGradings| ==> GradingSeverity(Some(KnownGradings[i])) == KnownRanks[i]
  {
  }

  /** The table ranks the known codes strictly in the order of `KnownGradings`, so no two share a rank. */
  lemma SeverityStrictlyDecreasing()
    ensures forall i, j :: 0 <= i < j < |KnownGradings| ==>
      GradingSeverity(Some(KnownGradings[i])) > GradingSeverity(Some(KnownGradings[j]))
    ensures forall a, b :: a in KnownGradings && b in KnownGradings && a != b ==>
      GradingSeverity(Some(a)) != GradingSeverity(Some(b))
  {
    KnownGradingRanks();
    forall a, b | a in KnownGradings && b in KnownGradings && a != b
      ensures GradingSeverity(Some(a)) != GradingSeverity(Some(b))
    {
      var i :| 0 <= i < |KnownGradings| && KnownGradings[i] == a;
      var j :| 0 <= j < |KnownGradings| && KnownGradings[j] == b;
      assert i != j;
    }
  }

  /** An unknown code ranks below every known one, and an absent grading below every unknown one. */
  lemma UnknownRanksBelowKnown(unknown: string, known: string)
    requires unknown !in KnownGradings && known in KnownGradings
    ensures GradingSeverity(Some(unknown)) < GradingSeverity(Some(known))
    ensures GradingSeverity(None) < GradingSeverity(Some(unknown))
  {
  }

  /**
   * The index of the grading `Stream.max` returns: a left fold over the non-null gradings
   * that keeps the current maximum unless the next one is strictly more severe. It is the
   * first non-null grading of maximal severity; absent only when every grading is absent.
   */
  function WorstGradingIndex(source: seq<V2Histologie>): (r: Option<nat>)
    ensures r.None? <==> forall j :: 0 <= j < |source| ==> source[j].grading.None?
    ensures r.Some? ==> r.value < |source| && source[r.value].grading.Some?
  {
    if source == [] then None
    else
      var last := |source| - 1;
      var previous := WorstGradingIndex(source[..last]);
      assert forall j :: 0 <= j < last ==> source[..last][j] == source[j];
      if source[last].grading.None? then previous
      else if previous.Some?
        && GradingSeverity(source[previous.value].grading) >= GradingSeverity(source[last].grading)
      then previous
      else Some(last)
  }

  /**
   * The fold keeps the first grading of maximal severity: none is more severe, and every
   * earlier non-null grading is strictly less severe.
   */
  lemma {:induction false} WorstGradingIndexIsFirstMaximal(source: seq<V2Histologie>)
    ensures var r := WorstGradingIndex(source);
      r.Some? ==>
        && (forall j :: 0 <= j < |source| && source[j].grading.Some? ==>
              GradingSeverity(source[j].grading) <= GradingSeverity(source[r.value].grading))
        && (forall j :: 0 <= j < r.value && source[j].grading.Some? ==>
              GradingSeverity(source[j].grading) < GradingSeverity(source[r.value].grading))
  {
    if source != [] {
      var last := |source| - 1;
      WorstGradingIndexIsFirstMaximal(source[..last]);
      assert forall j :: 0 <= j < last ==> source[..last][j] == source[j];
    }
  }

  /** The resolved grading: the most severe non-null input grading, earliest on ties. */
  function WorstGrading(source: seq<V2Histologie>): (g: Option<string>)
    ensures g.None? <==> forall j :: 0 <= j < |source| ==> source[j].grading.None?
    ensures g.Some? ==> exists i :: 0 <= i < |source| && source[i].grading == g
    ensures g.Some? ==> forall j :: 0 <= j < |source| && source[j].grading.Some? ==>
      GradingSeverity(source[j].grading) <= GradingSeverity(g)
    ensures g.Some? ==> exists i ::
      && 0 <= i < |source| && source[i].grading == g
      && (forall j :: 0 <= j < i && source[j].grading.Some? ==> GradingSeverity(source[j].grading) < GradingSeverity(g))
  {
    WorstGradingIndexIsFirstMaximal(source);
    match WorstGradingIndex(source)
    case None => None
    case Some(i) => source[i].grading
  }

  /** `anyMatch("B"::equals)` over all gradings, absent ones included. */
  function HasB(source: seq<V2Histologie>): (b: bool)
    ensures b <==> "B" in DistinctGradings(source)
  {
    exists i :: 0 <= i < |source| && source[i].grading == Some("B")
  }

  /** `filter(nonNull).anyMatch(g -> !"B".equals(g))`. */
  function HasAnyNonB(source: seq<V2Histologie>): (b: bool)
    ensures b <==> exists g :: g in DistinctGradings(source) && g != "B"
  {
    assert forall i :: 0 <= i < |source| && source[i].grading.Some? ==> source[i].grading.value in DistinctGradings(source);
    exists i :: 0 <= i < |source| && source[i].grading.Some? && source[i].grading.value != "B"
  }

  /**
   * The condition under which the mapper warns that "B" is combined with other gradings: the
   * distinct non-null gradings hold "B" and at least one other code.
   */
  function GradingInconsistent(source: seq<V2Histologie>): (b: bool)
    ensures b <==> "B" in DistinctGradings(source) && |DistinctGradings(source)| >= 2
    ensures b ==> |source| >= 2
  {
    OtherIffAtLeastTwo(DistinctGradings(source), "B");
    HasB(source) && HasAnyNonB(source)
  }

  /** The distinct non-null gradings of the input. */
  function DistinctGradings(source: seq<V2Histologie>): set<string>
  {
    set i | 0 <= i < |source| && source[i].grading.Some? :: source[i].grading.value
  }

  /** A set holding `x` holds some other element exactly when it has at least two elements. */
  lemma OtherIffAtLeastTwo(d: set<string>, x: string)
    ensures x in d ==> ((exists g :: g in d && g != x) <==> |d| >= 2)
  {
    if x in d {
      if exists g :: g in d && g != x {
        var g :| g in d && g != x;
        assert |{x, g}| == 2;
        SubsetCardinality({x, g}, d);
      }
      if |d| >= 2 {
        var others := d - {x};
        assert |others| == |d| - 1;
        var g :| g in others;
        assert g in d && g != x;
      }
    }
  }

  lemma SubsetCardinality(a: set<string>, b: set<string>)
    requires a <= b
    ensures |a| <= |b|
    decreases |b|
  {
    if b != {} {
      var x :| x in b;
      SubsetCardinality(a - {x}, b - {x});
    }
  }
}
