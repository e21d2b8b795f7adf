/**
 * LabEvents2HpoFactory of src/main/java/org/jax/lab2hpo: the converter from
 * a MIMIC lab result to an HPO outcome. The LOINC code of the local test
 * comes from its lab summary. The scale of the LOINC test and the flag,
 * unit, normal range and mean then choose an interpretation code: L, H or N
 * for a quantitative test ("Qn"), NEG or POS for an ordinal one ("Ord").
 * The annotation of the LOINC code maps that code to the outcome.
 */
module LabEvents2Hpo {
  import opened Wrappers
  import opened Text
  import opened LabCodes

  /** A normal range: results from min to max, both included, are normal. */
  datatype NormalRange = NormalRange(min: real, max: real)

  /**
   * org.jax.lab2hpo.LabSummary, as its getters show it: the LOINC code of a
   * local test, its primary unit, and a normal range and a mean per unit.
   */
  datatype QnSummary = QnSummary(loinc: string, primaryUnit: string,
                                 normalRangeByUnit: map<string, NormalRange>, meanByUnit: map<string, real>)

  /** Platelets counted by hand, whose result is text such as "HIGH" or "RARE". */
  const PlateletItem := 51266

  /** The flag, lower-cased, contains "abnormal". */
  predicate Abnormal(flag: string) {
    Contains(ToLower(flag), "abnormal")
  }

  /** All characters of s from index `from` on are c. */
  predicate AllFrom(s: string, from: nat, c: char) {
    forall i :: from <= i < |s| ==> s[i] == c
  }

  /** s matches the whole regular expression ^NORMAL|^NEG*: "NORMAL", or "NE" and then only Gs. */
  predicate NegativeMatch(s: string) {
    s == "NORMAL" || (|s| >= 2 && s[..2] == "NE" && AllFrom(s, 2, 'G'))
  }

  /** s matches the whole regular expression ^POS*: "PO" and then only Ss. */
  predicate PositiveMatch(s: string) {
    |s| >= 2 && s[..2] == "PO" && AllFrom(s, 2, 'S')
  }

  /**
   * qnTextualResult: a textual result of a quantitative test has a code only
   * for the platelet count: H when it contains "HIGH", otherwise L when it
   * contains "LOW" or "RARE".
   */
  function QnTextualResult(event: LabEvent): (r: Option<string>)
    ensures event.itemId != PlateletItem ==> r == None
    ensures r == Some("H") <==> event.itemId == PlateletItem && Contains(event.value, "HIGH")
    ensures r == Some("L") <==> (event.itemId == PlateletItem && !Contains(event.value, "HIGH")
                                 && (Contains(event.value, "LOW") || Contains(event.value, "RARE")))
    ensures r.Some? ==> r.value == "H" || r.value == "L"
  {
    if event.itemId == PlateletItem then
      if Contains(event.value, "HIGH") then Some("H")
      else if Contains(event.value, "LOW") || Contains(event.value, "RARE") then Some("L")
      else None
    else
      None
  }

  /**
   * ordTextualResult: String.matches is a whole-string match of the
   * upper-cased value; NEG for "NORMAL" or "NE" followed by Gs, POS for "PO"
   * followed by Ss. The two patterns never both match.
   */
  function OrdTextualResult(event: LabEvent): (r: Option<string>)
    ensures r == Some("NEG") <==> NegativeMatch(ToUpper(event.value))
    ensures r == Some("POS") <==> PositiveMatch(ToUpper(event.value))
    ensures r.Some? ==> r.value == "NEG" || r.value == "POS"
  {
    var upper := ToUpper(event.value);
    if NegativeMatch(upper) then
      assert upper[..2] != "PO" by { assert upper[0] == 'N'; }
      Some("NEG")
    else if PositiveMatch(upper) then Some("POS")
    else None
  }

  /** Some values and their ordinal codes: only whole-string matches count. */
  lemma OrdTextualExamples(itemId: int, valueNum: real, uom: string, flag: string)
    ensures OrdTextualResult(LabEvent(itemId, "neg", valueNum, uom, flag)) == Some("NEG")
    ensures OrdTextualResult(LabEvent(itemId, "Normal", valueNum, uom, flag)) == Some("NEG")
    ensures OrdTextualResult(LabEvent(itemId, "POS", valueNum, uom, flag)) == Some("POS")
    ensures OrdTextualResult(LabEvent(itemId, "NEGATIVE", valueNum, uom, flag)) == None
    ensures OrdTextualResult(LabEvent(itemId, "POSITIVE", valueNum, uom, flag)) == None
  {
    assert ToUpper("neg") == "NEG";
    assert ToUpper("Normal") == "NORMAL";
    assert ToUpper("POS") == "POS";
    var negative := ToUpper("NEGATIVE");
    assert negative == "NEGATIVE" && negative[3] != 'G';
    var positive := ToUpper("POSITIVE");
    assert positive == "POSITIVE" && positive[3] != 'S' && positive[0] == 'P';
  }

  /**
   * ordLab2hpo: the textual code; a value with no textual code but a numeric
   * result and a summary has no code either, so the answer is always the
   * textual one.
   */
  function OrdLab2hpo(event: LabEvent, summary: Option<QnSummary>): (r: Option<string>)
    ensures r == OrdTextualResult(event)
  {
    var code := OrdTextualResult(event);
    if code.None? && event.valueNum != DoubleMax && summary.Some? then None else code
  }

  /** A test with one abnormal direction: that direction's code when flagged abnormal, N otherwise. */
  function OneSidedQn(event: LabEvent, abnormalCode: string): (r: string)
    requires abnormalCode != "N"
    ensures r == abnormalCode <==> Abnormal(event.flag)
    ensures r == "N" <==> !Abnormal(event.flag)
  {
    if Abnormal(event.flag) then abnormalCode else "N"
  }

  /** noLowQn: a test that has no low outcome is H when flagged abnormal, N otherwise. */
  function NoLowQn(event: LabEvent): (r: string)
    ensures r == "H" <==> Abnormal(event.flag)
    ensures r == "N" <==> !Abnormal(event.flag)
  {
    OneSidedQn(event, "H")
  }

  /** noHighQn: a test that has no high outcome is L when flagged abnormal, N otherwise. */
  function NoHighQn(event: LabEvent): (r: string)
    ensures r == "L" <==> Abnormal(event.flag)
    ensures r == "N" <==> !Abnormal(event.flag)
  {
    OneSidedQn(event, "L")
  }

  /**
   * qnWithPrimaryUnit: with no normal range for the unit there is no code.
   * Below the range is L, above it H, within it N; but a result within the
   * range that the lab flagged abnormal is L below the mean of the primary
   * unit and H otherwise. Unboxing a missing mean throws.
   */
  function QnWithPrimaryUnit(event: LabEvent, summary: QnSummary): (r: Result<Option<string>, LabError>)
    ensures r == Ok(None) <==> event.valueUom !in summary.normalRangeByUnit
    ensures r.Err? <==> (event.valueUom in summary.normalRangeByUnit
                         && summary.normalRangeByUnit[event.valueUom].min <= event.valueNum <= summary.normalRangeByUnit[event.valueUom].max
                         && Abnormal(event.flag) && summary.primaryUnit !in summary.meanByUnit)
    ensures r == Ok(Some("N")) <==> (event.valueUom in summary.normalRangeByUnit
                                     && summary.normalRangeByUnit[event.valueUom].min <= event.valueNum <= summary.normalRangeByUnit[event.valueUom].max
                                     && !Abnormal(event.flag))
    ensures r == Ok(Some("L")) <==> (event.valueUom in summary.normalRangeByUnit
                                     && (event.valueNum < summary.normalRangeByUnit[event.valueUom].min
                                         || (event.valueNum <= summary.normalRangeByUnit[event.valueUom].max
                                             && Abnormal(event.flag) && summary.primaryUnit in summary.meanByUnit
                                             && event.valueNum < summary.meanByUnit[summary.primaryUnit])))
    ensures r == Ok(Some("H")) <==> (event.valueUom in summary.normalRangeByUnit
                                     && summary.normalRangeByUnit[event.valueUom].min <= event.valueNum
                                     && (summary.normalRangeByUnit[event.valueUom].max < event.valueNum
                                         || (Abnormal(event.flag) && summary.primaryUnit in summary.meanByUnit
                                             && event.valueNum >= summary.meanByUnit[summary.primaryUnit])))
    ensures r.Ok? && r.value.Some? ==> r.value.value in {"L", "H", "N"}
  {
    if event.valueUom !in summary.normalRangeByUnit then
      Ok(None)
    else
      var range := summary.normalRangeByUnit[event.valueUom];
      var observed := event.valueNum;
      var code := if observed < range.min then "L" else if observed > range.max then "H" else "N";
      if code == "N" && Abnormal(event.flag) then
        if summary.primaryUnit !in summary.meanByUnit then
          Err(NullPointer("mean of the primary unit"))
        else if observed < summary.meanByUnit[summary.primaryUnit] then
          Ok(Some("L"))
        else
          Ok(Some("H"))
      else
        Ok(Some(code))
  }

  /** qnNonPrimaryUnit: a result in another unit than the primary one is skipped. */
  function QnNonPrimaryUnit(event: LabEvent, summary: QnSummary): Option<string> {
    None
  }

  /**
   * The code qnLab2hpo answers: without a summary, the textual code; in the
   * primary unit, the range-based code; in any other unit, none.
   */
  function QnLab2hpoCode(event: LabEvent, summary: Option<QnSummary>): (r: Result<Option<string>, LabError>)
    ensures summary.None? ==> r == Ok(QnTextualResult(event))
    ensures summary.Some? && event.valueUom != summary.value.primaryUnit ==> r == Ok(None)
    ensures summary.Some? && event.valueUom == summary.value.primaryUnit ==> r == QnWithPrimaryUnit(event, summary.value)
    ensures r.Ok? && r.value.Some? ==> r.value.value in {"L", "H", "N"}
  {
    match summary
    case None => Ok(QnTextualResult(event))
    case Some(s) =>
      if event.valueUom == s.primaryUnit then QnWithPrimaryUnit(event, s) else Ok(QnNonPrimaryUnit(event, s))
  }

  /** Every annotated LOINC code has a LOINC table entry; otherwise the factory exits. */
  predicate EntriesPresent(annotations: map<LoincId, Annotation>, entries: map<LoincId, LoincEntry>) {
    forall k :: k in annotations ==> k in entries
  }

  /** k is an annotated quantitative test whose candidates lack the FHIR code. */
  predicate QnLacking(annotations: map<LoincId, Annotation>, entries: map<LoincId, LoincEntry>, k: LoincId, code: string) {
    && k in annotations && k in entries
    && entries[k].scale == "Qn"
    && Fhir(code) !in annotations[k].candidates
  }

  /** The annotated quantitative tests without a candidate for the code. */
  function QnWithout(annotations: map<LoincId, Annotation>, entries: map<LoincId, LoincEntry>, code: string): (r: set<LoincId>)
    ensures forall k :: k in r <==> QnLacking(annotations, entries, k, code)
  {
    set k | k in annotations.Keys && QnLacking(annotations, entries, k, code)
  }

  class LabEvents2HpoFactory {
    const labSummaryMap: map<int, QnSummary>
    const annotationMap: map<LoincId, Annotation>
    const loincEntryMap: map<LoincId, LoincEntry>
    /** The quantitative tests whose annotation has no L outcome. */
    const qnNoLow: set<LoincId>
    /** The quantitative tests whose annotation has no H outcome. */
    const qnNoHigh: set<LoincId>
    /** The quantitative tests with neither a summary nor a textual code. */
    var failedQnWithTextResult: set<int>

    ghost predicate Valid() {
      && EntriesPresent(annotationMap, loincEntryMap)
      && qnNoLow == QnWithout(annotationMap, loincEntryMap, "L")
      && qnNoHigh == QnWithout(annotationMap, loincEntryMap, "H")
    }

    /**
     * The constructor scans the annotations: a quantitative test lacking the
     * L candidate goes into qnNoLow, one lacking H into qnNoHigh. A missing
     * LOINC table entry ends the program, so it is required not to happen.
     */
    constructor (labSummaryMap: map<int, QnSummary>, annotationMap: map<LoincId, Annotation>,
                 loincEntryMap: map<LoincId, LoincEntry>)
      requires EntriesPresent(annotationMap, loincEntryMap)
      ensures Valid()
      ensures this.labSummaryMap == labSummaryMap && this.annotationMap == annotationMap
      ensures this.loincEntryMap == loincEntryMap && failedQnWithTextResult == {}
    {
      var noLow: set<LoincId> := {};
      var noHigh: set<LoincId> := {};
      var remaining := annotationMap.Keys;
      while remaining != {}
        invariant remaining <= annotationMap.Keys
        invariant forall k :: k in noLow <==> k !in remaining && QnLacking(annotationMap, loincEntryMap, k, "L")
        invariant forall k :: k in noHigh <==> k !in remaining && QnLacking(annotationMap, loincEntryMap, k, "H")
        decreases |remaining|
      {
        var loincId :| loincId in remaining;
        var entry := loincEntryMap[loincId];
        if entry.scale == "Qn" {
          if Fhir("L") !in annotationMap[loincId].candidates {
            noLow := noLow + {loincId};
          }
          if Fhir("H") !in annotationMap[loincId].candidates {
            noHigh := noHigh + {loincId};
          }
        }
        remaining := remaining - {loincId};
      }
      this.labSummaryMap := labSummaryMap;
      this.annotationMap := annotationMap;
      this.loincEntryMap := loincEntryMap;
      qnNoLow := noLow;
      qnNoHigh := noHigh;
      failedQnWithTextResult := {};
    }

    /**
     * qnLab2hpo: the code of QnLab2hpoCode; a test without a summary and
     * without a textual code is recorded as failed. The record only grows.
     */
    method QnLab2hpo(event: LabEvent, summary: Option<QnSummary>) returns (r: Result<Option<string>, LabError>)
      modifies this`failedQnWithTextResult
      ensures r == QnLab2hpoCode(event, summary)
      ensures failedQnWithTextResult
              == old(failedQnWithTextResult) + (if summary.None? && r == Ok(None) then {event.itemId} else {})
      ensures old(failedQnWithTextResult) <= failedQnWithTextResult
    {
      if summary.None? {
        var code := QnTextualResult(event);
        if code.None? {
          failedQnWithTextResult := failedQnWithTextResult + {event.itemId};
        }
        return Ok(code);
      }
      var primaryUnit := summary.value.primaryUnit;
      var observedUnit := event.valueUom;
      if observedUnit == primaryUnit {
        r := QnWithPrimaryUnit(event, summary.value);
      } else {
        r := Ok(QnNonPrimaryUnit(event, summary.value));
      }
    }

    /**
     * The interpretation code convert chooses for an annotated test, in this
     * order: a test without L outcome by noLowQn, one without H by noHighQn,
     * other quantitative tests by qnLab2hpo, ordinal tests by ordLab2hpo,
     * and no code for any other scale.
     */
    function InterpretationCode(event: LabEvent, summary: QnSummary, loincId: LoincId): (r: Result<Option<string>, LabError>)
      requires Valid() && loincId in annotationMap
      ensures loincId in qnNoLow ==> r == Ok(Some(NoLowQn(event)))
      ensures loincId !in qnNoLow && loincId in qnNoHigh ==> r == Ok(Some(NoHighQn(event)))
      ensures loincEntryMap[loincId].scale == "Qn" ==> (r.Ok? && r.value.Some? ==> r.value.value in {"L", "H", "N"})
      ensures loincEntryMap[loincId].scale == "Qn" && Fhir("L") !in annotationMap[loincId].candidates ==> r.Ok? && r.value != Some("L")
      ensures loincId !in qnNoLow && loincId !in qnNoHigh && loincEntryMap[loincId].scale == "Qn"
              ==> r == QnLab2hpoCode(event, Some(summary))
      ensures loincEntryMap[loincId].scale == "Ord" ==> r == Ok(OrdTextualResult(event))
      ensures loincEntryMap[loincId].scale != "Qn" && loincEntryMap[loincId].scale != "Ord" ==> r == Ok(None)
    {
      var loincScale := loincEntryMap[loincId].scale;
      if loincId in qnNoLow then
        Ok(Some(NoLowQn(event)))
      else if loincId in qnNoHigh then
        Ok(Some(NoHighQn(event)))
      else if loincScale == "Qn" then
        QnLab2hpoCode(event, Some(summary))
      else if loincScale == "Ord" then
        Ok(OrdLab2hpo(event, Some(summary)))
      else
        Ok(None)
    }

    /**
     * convert: the summary of the local test gives its LOINC code. The
     * errors come in this order: no summary (a NullPointerException), a
     * blank LOINC code, a code that is not annotated, no interpretation code,
     * an interpretation code without candidate. Otherwise the outcome is the
     * candidate of the interpretation code; convert never answers empty.
     */
    function Convert(event: LabEvent): (r: Result<TestOutcome, LabError>)
      requires Valid()
      ensures event.itemId !in labSummaryMap ==> r.Err? && r.error.NullPointer?
      ensures event.itemId in labSummaryMap && IsBlank(labSummaryMap[event.itemId].loinc)
              ==> r == Err(LocalLabTestNotMappedToLoinc)
      ensures event.itemId in labSummaryMap && !IsBlank(labSummaryMap[event.itemId].loinc)
              && labSummaryMap[event.itemId].loinc !in annotationMap
              ==> r == Err(LoincCodeNotAnnotated)
      ensures r.Ok? ==> (event.itemId in labSummaryMap && labSummaryMap[event.itemId].loinc in annotationMap
                         && exists code :: (InterpretationCode(event, labSummaryMap[event.itemId], labSummaryMap[event.itemId].loinc) == Ok(Some(code))
                                            && Fhir(code) in annotationMap[labSummaryMap[event.itemId].loinc].candidates
                                            && r.value == annotationMap[labSummaryMap[event.itemId].loinc].candidates[Fhir(code)]))
      ensures r == Err(UnableToInterpretate) <==> (event.itemId in labSummaryMap && !IsBlank(labSummaryMap[event.itemId].loinc)
                                                  && labSummaryMap[event.itemId].loinc in annotationMap
                                                  && InterpretationCode(event, labSummaryMap[event.itemId], labSummaryMap[event.itemId].loinc) == Ok(None))
      ensures r == Err(UnrecognizedCode) <==> (event.itemId in labSummaryMap && !IsBlank(labSummaryMap[event.itemId].loinc)
                                              && labSummaryMap[event.itemId].loinc in annotationMap
                                              && var c := InterpretationCode(event, labSummaryMap[event.itemId], labSummaryMap[event.itemId].loinc);
                                              c.Ok? && c.value.Some? && Fhir(c.value.value) !in annotationMap[labSummaryMap[event.itemId].loinc].candidates)
    {
      if event.itemId !in labSummaryMap then
        Err(NullPointer("lab summary"))
      else
        var labSummary := labSummaryMap[event.itemId];
        var loinc := labSummary.loinc;
        if IsBlank(loinc) then
          Err(LocalLabTestNotMappedToLoinc)
        else if loinc !in annotationMap then
          Err(LoincCodeNotAnnotated)
        else
          match InterpretationCode(event, labSummary, loinc)
          case Err(e) => Err(e)
          case Ok(None) => Err(UnableToInterpretate)
          case Ok(Some(code)) => CandidateFor(annotationMap[loinc], code)
    }

    /**
     * A test that has no L outcome never comes out as the L candidate: its
     * code is H when the result is flagged abnormal and N otherwise.
     */
    lemma NoLowTestIsHighOrNormal(event: LabEvent)
      requires Valid() && event.itemId in labSummaryMap
      requires labSummaryMap[event.itemId].loinc in qnNoLow
      ensures var loinc := labSummaryMap[event.itemId].loinc;
              !IsBlank(loinc) ==> Convert(event) == CandidateFor(annotationMap[loinc], if Abnormal(event.flag) then "H" else "N")
    {
    }

    /** A test of another scale than Qn and Ord always fails to be interpreted. */
    lemma OtherScaleUninterpreted(event: LabEvent)
      requires Valid() && event.itemId in labSummaryMap
      requires var loinc := labSummaryMap[event.itemId].loinc;
               !IsBlank(loinc) && loinc in annotationMap
               && loincEntryMap[loinc].scale != "Qn" && loincEntryMap[loinc].scale != "Ord"
      ensures Convert(event) == Err(UnableToInterpretate)
    {
    }
  }
}
