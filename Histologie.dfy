/**
 * The record shapes the mapper reads and writes: the oBDS v2 histology record
 * (`de.basisdatensatz.obds.v2.HistologieTyp`), the oBDS v3 morphology entry
 * (`MorphologieICDOTyp`) and the oBDS v3 histology record (`de.basisdatensatz.obds.v3.HistologieTyp`),
 * once as a value and once as the mutable object the mapper fills in.
 */
module Histologie {
  import opened Wrappers

  /** A parsed histology date, represented by its instant on the time line. */
  type Instant = int

  /** An oBDS v2 histology record; any subset of its fields may be absent. */
  datatype V2Histologie = V2Histologie(
    histologieID: Option<string>,
    einsendeNr: Option<string>,
    datum: Option<string>,
    sentinelLKUntersucht: Option<int>,
    sentinelLKBefallen: Option<int>,
    lkUntersucht: Option<int>,
    lkBefallen: Option<int>,
    morphologieCode: Option<string>,
    morphologieICDOVersion: Option<string>,
    morphologieFreitext: Option<string>,
    grading: Option<string>)

  /** One ICD-O morphology entry of the v3 record: a code and its (possibly absent) code-set version. */
  datatype Morphologie = Morphologie(code: string, version: Option<string>)

  /** The field values of an oBDS v3 histology record. */
  datatype V3Histologie = V3Histologie(
    histologieID: Option<string>,
    einsendeNr: Option<string>,
    datum: Option<Instant>,
    sentinelLKUntersucht: Option<int>,
    sentinelLKBefallen: Option<int>,
    lkUntersucht: Option<int>,
    lkBefallen: Option<int>,
    morphologieICDO: seq<Morphologie>,
    morphologieFreitext: Option<string>,
    grading: Option<string>)

  /** The v3 record as a freshly constructed object holds it: nothing set, no morphology entries. */
  const EmptyV3Histologie: V3Histologie :=
    V3Histologie(None, None, None, None, None, None, None, [], None, None)

  /** The mutable v3 record object that the mapper fills in field by field. */
  class V3HistologieTyp {
    var histologieID: Option<string>
    var einsendeNr: Option<string>
    var datum: Option<Instant>
    var sentinelLKUntersucht: Option<int>
    var sentinelLKBefallen: Option<int>
    var lkUntersucht: Option<int>
    var lkBefallen: Option<int>
    var morphologieICDO: seq<Morphologie>
    var morphologieFreitext: Option<string>
    var grading: Option<string>

    /** The record's current field values. */
    function Value(): V3Histologie
      reads this
    {
      V3Histologie(histologieID, einsendeNr, datum, sentinelLKUntersucht, sentinelLKBefallen,
                   lkUntersucht, lkBefallen, morphologieICDO, morphologieFreitext, grading)
    }

    constructor ()
      ensures Value() == EmptyV3Histologie
    {
      histologieID, einsendeNr, datum := None, None, None;
      sentinelLKUntersucht, sentinelLKBefallen := None, None;
      lkUntersucht, lkBefallen := None, None;
      morphologieICDO := [];
      morphologieFreitext, grading := None, None;
    }
  }
}
