# HistologieMapper, modelled in Dafny

This project models `HistologieMapper.map` of the oBDS 2 to oBDS 3 converter. The method
merges all oBDS v2 histology records (`HistologieTyp`) of one case into a single oBDS v3
histology record. It works in four steps:

1. It sorts the records by parsed histology date with
   `comparing(date, nullsLast(naturalOrder())).reversed()` and a stable sort. Because
   `reversed()` also flips where absent keys go, records without a parseable date come
   **first**, in input order. The dated records follow, newest first.
2. It walks the sorted list once, filling a fresh v3 object:
   - the first record with a `HistologieID` sets the ID, its date (if that parses) and its
     `EinsendeNr`;
   - while no ID is set, every parseable date overwrites the output date;
   - each lymph-node pair (sentinel, and ordinary) is taken as a whole from the first record
     that has both of its values;
   - the first free text wins;
   - every morphology code is appended together with its version.
3. It resolves the grading over the unsorted input. The result is the non-null grading of
   highest severity in a fixed table; on a tie the earlier grading wins, because `Stream.max`
   keeps the earlier element.
4. It computes whether a Borderline grading "B" is mixed with other gradings (the source
   logs a warning when it is).

The submission number follows the code, not the log text. When the first ID-bearing record
has an `EinsendeNr`, the code copies it (line 42). The warning logged next to that copy says
that no number is mapped. The model copies the number.

Layout:
- `Wrappers.dfy`: the `Option` type used for every nullable field.
- `Histologie.dfy`: the v2 record, the v3 morphology entry, and the v3 record. The v3 record
  exists as a value and as the mutable class `V3HistologieTyp` that the mapper fills in.
- `DateOrder.dfy`: the comparator and a reference stable sort. The sort is proved sorted, a
  permutation, stable, and equal to every other stable sort by that comparator.
- `Grading.dfy`: the severity table, the argmax fold and the B-inconsistency condition.
- `HistologieMapper.dfy`: the scan.
  - `Scan` is a field-by-field definition of the scan result.
  - `Step` gives the effect of one loop pass; `ScanStep` proves that `Step` agrees with `Scan`.
  - One method per guarded block of the loop body (`MapIdentity` through `MapDatumWhileNoId`).
  - The loop (`ScanAll`) and `Map` itself.
- `HistologieMapperProperties.dfy`: the properties of the merge, plus a few concrete examples.

The date parser `MapperUtils.mapDateString` is a parameter `parse` of type
`Option<string> -> Option<Instant>`. It receives the raw date field, which may be absent. A
parsed date is represented by its instant (an `int`), which serves both as the sort key and
as the stored output date.

## Model

| member | source | states |
|---|---|---|
| `HistologieMapper.Map` | lib/src/main/java/io/github/bzkf/obds2toobds3/HistologieMapper.java:18-119 | Returns no record exactly when the list is null or empty. Otherwise returns `Merged(source)`: the scan of the date-sorted records, with the resolved grading. The returned flag holds exactly when the input is non-empty and some grading is "B" while another non-null grading is not. |
| `HistologieMapper.Merged` | lib/src/main/java/io/github/bzkf/obds2toobds3/HistologieMapper.java:18-119 | Definition: the record `map` returns for a non-empty list is the scan of the date-sorted records, with the grading replaced by the resolved grading of the unsorted input. |
| `HistologieMapper.Scan` | lib/src/main/java/io/github/bzkf/obds2toobds3/HistologieMapper.java:37-86 | Definition: the fields after scanning a sequence of records, one rule per field. The identifier and submission number come from the first record with an identifier, the date from `ScanDatum`, each lymph-node pair from the first record carrying both values, the free text from the first record with one, and all morphology codes in order. The grading is left absent. |
| `HistologieMapper.Step` | lib/src/main/java/io/github/bzkf/obds2toobds3/HistologieMapper.java:37-86 | Definition: one loop pass, as the six guarded blocks applied in source order (identity, sentinel pair, lymph-node pair, morphology, free text, date while no identifier). |
| `HistologieMapper.ScanAll` | lib/src/main/java/io/github/bzkf/obds2toobds3/HistologieMapper.java:23-86 | A fresh v3 object that, after the loop over the sorted records, holds `Scan(sorted)`. The loop invariant says the object holds the scan of the records visited so far. |
| `HistologieMapper.ScanRecord` | lib/src/main/java/io/github/bzkf/obds2toobds3/HistologieMapper.java:37-86 | One loop pass changes the object's value from `r` to `Step(r, record)`. |
| `HistologieMapper.MapIdentity` | lib/src/main/java/io/github/bzkf/obds2toobds3/HistologieMapper.java:38-51 | Sets the ID, the submission number (when present) and the parsed date (when it parses), and only when the record has an ID and the object has none yet. |
| `HistologieMapper.MapSentinelPair` | lib/src/main/java/io/github/bzkf/obds2toobds3/HistologieMapper.java:53-59 | Sets both sentinel values together, only when the record has both and the object has neither. |
| `HistologieMapper.MapLKPair` | lib/src/main/java/io/github/bzkf/obds2toobds3/HistologieMapper.java:61-67 | Same rule for the ordinary lymph-node pair. |
| `HistologieMapper.MapMorphologie` | lib/src/main/java/io/github/bzkf/obds2toobds3/HistologieMapper.java:69-75 | Appends (code, version) when the record has a code; the version is copied even when absent. |
| `HistologieMapper.MapFreitext` | lib/src/main/java/io/github/bzkf/obds2toobds3/HistologieMapper.java:77-80 | Sets the free text only when the object has none. |
| `HistologieMapper.MapDatumWhileNoId` | lib/src/main/java/io/github/bzkf/obds2toobds3/HistologieMapper.java:82-85 | While the object has no ID, overwrites the date with the record's date when that parses. |
| `Histologie.V3HistologieTyp.constructor` | lib/src/main/java/io/github/bzkf/obds2toobds3/HistologieMapper.java:23 | A new v3 object has no fields set and an empty morphology list. |
| `HistologieMapper.ScanStep` | lib/src/main/java/io/github/bzkf/obds2toobds3/HistologieMapper.java:37-86 | Scanning one more record turns the field-by-field scan result `Scan(s)` into `Scan(s + [x])`, which equals `Step(Scan(s), x)`. This connects the declarative field rules to the loop. |
| `HistologieMapper.ScanIdentitySnoc` | lib/src/main/java/io/github/bzkf/obds2toobds3/HistologieMapper.java:38-47 | A further record changes the ID and submission number only while no ID has been taken. |
| `HistologieMapper.ScanDatumSnoc` | lib/src/main/java/io/github/bzkf/obds2toobds3/HistologieMapper.java:49-85 | A further record changes the date only while no ID has been taken before it, and only to its own parseable date. |
| `HistologieMapper.ScanSentinelSnoc` | lib/src/main/java/io/github/bzkf/obds2toobds3/HistologieMapper.java:53-59 | The two sentinel fields are always both set or both unset. A further record sets them only while unset and only if it carries both. |
| `HistologieMapper.ScanLKSnoc` | lib/src/main/java/io/github/bzkf/obds2toobds3/HistologieMapper.java:61-67 | Same rule for the lymph-node pair. |
| `HistologieMapper.ScanMorphologieSnoc` | lib/src/main/java/io/github/bzkf/obds2toobds3/HistologieMapper.java:69-80 | A further record appends its morphology entry if it has a code. It sets the free text only while none is set. |
| `HistologieMapper.FirstIndex` | lib/src/main/java/io/github/bzkf/obds2toobds3/HistologieMapper.java:38-80 | The first-wins guard: the result is the first position whose record satisfies the condition, or none when no record does. |
| `HistologieMapper.LastDatedIndex` | lib/src/main/java/io/github/bzkf/obds2toobds3/HistologieMapper.java:82-85 | The last position whose date parses, or none when no date parses. |
| `HistologieMapper.CodedRecords` | lib/src/main/java/io/github/bzkf/obds2toobds3/HistologieMapper.java:69 | Keeps exactly the records of the input that carry a morphology code: a record is in the result iff it is in the input and has a code, and the result is no longer than the input. |
| `HistologieMapperProperties.CodedRecordsConcat` | lib/src/main/java/io/github/bzkf/obds2toobds3/HistologieMapper.java:69-75 | The coded records of two stretches scanned in sequence are those of the first followed by those of the second, so the input order is kept. |
| `HistologieMapperProperties.IdentityFromFirstIdRecord` | lib/src/main/java/io/github/bzkf/obds2toobds3/HistologieMapper.java:38-47 | The output ID is the ID of the first record in scan order that has one; it is absent iff no record has one. The submission number comes from that same record; with no ID it is absent. |
| `HistologieMapperProperties.LastDateIsLastParsed` | lib/src/main/java/io/github/bzkf/obds2toobds3/HistologieMapper.java:82-85 | `LastDate` is the date of the last record whose date parses, and is absent iff none parses. |
| `HistologieMapperProperties.DatumRule` | lib/src/main/java/io/github/bzkf/obds2toobds3/HistologieMapper.java:38-85 | With `k` the first record with an ID, the date is the last parseable date among records `0..k`. That is `k`'s own date if it parses, otherwise the last parseable date before `k`. With no ID, it is the last parseable date of the whole scan. If nothing parses, it is absent. |
| `HistologieMapperProperties.SentinelPairAtomic` | lib/src/main/java/io/github/bzkf/obds2toobds3/HistologieMapper.java:53-59 | The sentinel pair is never half set. It is absent iff no record carries both values. Otherwise both values come from the first record that does. |
| `HistologieMapperProperties.LKPairAtomic` | lib/src/main/java/io/github/bzkf/obds2toobds3/HistologieMapper.java:61-67 | Same, independently, for the lymph-node pair. |
| `HistologieMapperProperties.FreitextFirstWins` | lib/src/main/java/io/github/bzkf/obds2toobds3/HistologieMapper.java:77-80 | The free text is the first non-null one in scan order, and absent iff no record has one. |
| `HistologieMapperProperties.MorphologiesConcat` | lib/src/main/java/io/github/bzkf/obds2toobds3/HistologieMapper.java:69-75 | The morphology list of two stretches of records scanned in sequence is the concatenation of their lists. It only grows, in scan order. |
| `HistologieMapperProperties.MorphologiesAreCodedRecords` | lib/src/main/java/io/github/bzkf/obds2toobds3/HistologieMapper.java:69-75 | Entry `i` is the code and version of the `i`-th record with a code, in scan order. The length equals the number of such records, so duplicates are kept. |
| `HistologieMapperProperties.LaterRecordsNeverOverwrite` | lib/src/main/java/io/github/bzkf/obds2toobds3/HistologieMapper.java:37-86 | Once set, later records never change the ID (with its number and date), either pair, or the free text. Later morphology codes are only appended. |
| `HistologieMapperProperties.NoIdDateIsEarliest` | lib/src/main/java/io/github/bzkf/obds2toobds3/HistologieMapper.java:25-85 | When no record has an ID, the output date is the earliest parseable date of the input, and absent iff none parses. This holds because older records come later in the scan and overwrite. |
| `HistologieMapperProperties.SingleRecord` | lib/src/main/java/io/github/bzkf/obds2toobds3/HistologieMapper.java:18-119 | One record maps to its own fields. A lymph-node pair is copied only when complete. The submission number is copied only together with an ID. |
| `HistologieMapperProperties.DateOrderExample` | lib/src/main/java/io/github/bzkf/obds2toobds3/HistologieMapper.java:25-35 | Records dated 2020-01-01, 2022-06-15 and with an unparsable date are scanned as unparsable, 2022-06-15, 2020-01-01. |
| `HistologieMapperProperties.GradingExampleHighGrade` | lib/src/main/java/io/github/bzkf/obds2toobds3/HistologieMapper.java:88-94 | Gradings "1", "H", "B" resolve to "H". |
| `HistologieMapperProperties.GradingExampleBorderline` | lib/src/main/java/io/github/bzkf/obds2toobds3/HistologieMapper.java:88-116 | "B" alone resolves to "B" with no inconsistency. "B" with "1" resolves to "1" and is inconsistent. |
| `DateOrder.DateKey` | lib/src/main/java/io/github/bzkf/obds2toobds3/HistologieMapper.java:27-31 | Definition: the sort key of a record is the parser's result on its date field; the conversion to `Instant` at lines 29-30 is folded into `parse`. |
| `DateOrder.NullsLastCompare` | lib/src/main/java/io/github/bzkf/obds2toobds3/HistologieMapper.java:32 | `nullsLast(naturalOrder())`: zero iff the keys are equal, an absent key compares greater than a present one, and two present keys compare as their instants. |
| `DateOrder.ByDateDescCompare` | lib/src/main/java/io/github/bzkf/obds2toobds3/HistologieMapper.java:25-33 | `.reversed()`: negative exactly when the nulls-last comparison is positive, positive exactly when it is negative, and zero exactly when it is zero. |
| `DateOrder.ByDateDescMeaning` | lib/src/main/java/io/github/bzkf/obds2toobds3/HistologieMapper.java:25-33 | Under the reversed nulls-last comparator, a key may precede another iff it is absent, or both are present and it is no earlier. An absent key sorts strictly before a present one. The comparator is zero only on equal keys. |
| `DateOrder.SortByDateDesc` | lib/src/main/java/io/github/bzkf/obds2toobds3/HistologieMapper.java:35 | The scan order is a permutation of the input. |
| `DateOrder.SortByDateDescIsStableSort` | lib/src/main/java/io/github/bzkf/obds2toobds3/HistologieMapper.java:25-35 | The scan order is a stable sort of the input by the comparator: sorted, a permutation, and within each date key in input order. |
| `DateOrder.StableSortIsUnique` | lib/src/main/java/io/github/bzkf/obds2toobds3/HistologieMapper.java:25-35 | Every stable sort of the input by this comparator equals the reference sort. Java's sort therefore yields exactly the modelled scan order. |
| `DateOrder.SortByDateDescUndatedFirst` | lib/src/main/java/io/github/bzkf/obds2toobds3/HistologieMapper.java:25-35 | The scan order starts with the input's undated records, in input order. All later records are dated, in non-increasing date order. |
| `Grading.GradingSeverity` | lib/src/main/java/io/github/bzkf/obds2toobds3/HistologieMapper.java:122-141 | A present code ranks -1 iff it is not one of the twelve table codes; present codes rank at least -1. An absent grading ranks below -1. |
| `Grading.KnownGradingRanks` | lib/src/main/java/io/github/bzkf/obds2toobds3/HistologieMapper.java:127-139 | The twelve codes 4, H, 3, M, 2, L, 1, B, 0, X, U, T rank 100, 90, 80, 70, 60, 50, 40, 30, 20, 10, 5, 0. |
| `Grading.SeverityStrictlyDecreasing` | lib/src/main/java/io/github/bzkf/obds2toobds3/HistologieMapper.java:127-139 | Ranks strictly decrease along the table order, so distinct known codes never share a rank. |
| `Grading.UnknownRanksBelowKnown` | lib/src/main/java/io/github/bzkf/obds2toobds3/HistologieMapper.java:123-140 | Every unknown code ranks below every known code, and an absent grading ranks below every unknown code. |
| `Grading.WorstGradingIndex` | lib/src/main/java/io/github/bzkf/obds2toobds3/HistologieMapper.java:88-92 | The chosen position is absent iff all input gradings are null; otherwise it lies in range and its grading is non-null. |
| `Grading.WorstGradingIndexIsFirstMaximal` | lib/src/main/java/io/github/bzkf/obds2toobds3/HistologieMapper.java:88-92 | The chosen grading has maximal severity, and every earlier non-null grading is strictly less severe, so ties go to the first in input order (`Stream.max` keeps the earlier element). |
| `Grading.WorstGrading` | lib/src/main/java/io/github/bzkf/obds2toobds3/HistologieMapper.java:88-94 | The grading is absent iff every input grading is null. Otherwise it is the grading of some input record that no input grading outranks, and every earlier non-null grading ranks strictly lower, so of two equally severe gradings (two unknown codes, say) the first wins, as `Stream.max` does. |
| `Grading.HasB` | lib/src/main/java/io/github/bzkf/obds2toobds3/HistologieMapper.java:96-99 | Some input grading is "B" iff "B" is among the distinct non-null gradings. |
| `Grading.HasAnyNonB` | lib/src/main/java/io/github/bzkf/obds2toobds3/HistologieMapper.java:101-105 | Some non-null input grading is not "B" iff the distinct non-null gradings contain a code other than "B". |
| `Grading.GradingInconsistent` | lib/src/main/java/io/github/bzkf/obds2toobds3/HistologieMapper.java:96-116 | The warning condition `hasB && hasAnyNonB` (line 107) holds iff the distinct non-null gradings contain "B" and at least one other code; it can hold only when the input has at least two records. |

## Left out

- The SLF4J warnings (lines 43-46 and 116) are not modelled: they are side effects only. The
  Borderline condition is returned as a boolean instead. The sorted list of distinct gradings
  (lines 108-114) exists only to build the message text, so it is not modelled either.
- `MapperUtils.mapDateString` and the conversion to `GregorianCalendar` and `Instant` are not
  part of this model. The parser is a function parameter. The model stores the instant where
  the source stores the parsed date object, so two date strings that parse to the same instant
  are indistinguishable in the model.
- The JAXB classes for oBDS v2 and v3 are replaced by Dafny datatypes and one class. The
  lymph-node counts are modelled as integers; the rules about them do not depend on their type.
- Java's sorting algorithm is not modelled. A stable insertion sort stands for it, and
  `StableSortIsUnique` proves that every stable sort by the same comparator gives the same order.
- A list that contains `null` elements is not modelled (the source would throw a
  `NullPointerException`); a null list is modelled as `None`.
- The `MorphologieICDO` list is updated in place in the source. The model reassigns a `seq`
  field instead, which is the same as long as no one else holds a reference to the list.
