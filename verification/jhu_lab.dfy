/**
 * JHULabView2HpoFactory of src/main/java/org/jax/lab2hpo: the converter
 * from a Johns Hopkins lab result, which carries its own LOINC code and
 * normal range, to an HPO outcome. The result is L below the range, H above
 * it and N within it.
 */
module JhuLab {
  import opened Wrappers
  import opened LabCodes

  /** The fields of a JHULab row the converter reads; the range ends are text. */
  datatype JhuResult = JhuResult(loincId: LoincId, resultNum: real, rangeLow: string, rangeHigh: string)

  /**
   * The code of a value against a range: L below low, otherwise H above
   * high, otherwise N. Exactly one applies, and L wins when low > high.
   */
  function RangeCode(value: real, low: real, high: real): (r: string)
    ensures r == "L" <==> value < low
    ensures r == "H" <==> low <= value && value > high
    ensures r == "N" <==> low <= value <= high
  {
    if value < low then "L" else if value > high then "H" else "N"
  }

  /**
   * convert: a LOINC code without annotation throws before anything else;
   * then the two range ends are parsed, each throwing when it is not a
   * number; then the candidate of the range code is the outcome, and a range
   * code without candidate throws. convert never answers empty.
   * `parseFloat` stands for Float.parseFloat.
   */
  function Convert(annotationMap: map<LoincId, Annotation>, lab: JhuResult, parseFloat: string -> Option<real>)
    : (r: Result<TestOutcome, LabError>)
    ensures lab.loincId !in annotationMap ==> r == Err(LoincCodeNotAnnotated)
    ensures lab.loincId in annotationMap && parseFloat(lab.rangeLow).None? ==> r == Err(NumberFormat(lab.rangeLow))
    ensures lab.loincId in annotationMap && parseFloat(lab.rangeLow).Some? && parseFloat(lab.rangeHigh).None?
            ==> r == Err(NumberFormat(lab.rangeHigh))
    ensures lab.loincId in annotationMap && parseFloat(lab.rangeLow).Some? && parseFloat(lab.rangeHigh).Some?
            ==> var code := RangeCode(lab.resultNum, parseFloat(lab.rangeLow).value, parseFloat(lab.rangeHigh).value);
                && (r.Ok? <==> Fhir(code) in annotationMap[lab.loincId].candidates)
                && (r.Ok? ==> r.value == annotationMap[lab.loincId].candidates[Fhir(code)])
                && (r.Err? ==> r.error == UnrecognizedCode)
  {
    if lab.loincId !in annotationMap then
      Err(LoincCodeNotAnnotated)
    else
      match parseFloat(lab.rangeLow)
      case None => Err(NumberFormat(lab.rangeLow))
      case Some(low) =>
        match parseFloat(lab.rangeHigh)
        case None => Err(NumberFormat(lab.rangeHigh))
        case Some(high) =>
          CandidateFor(annotationMap[lab.loincId], RangeCode(lab.resultNum, low, high))
  }
}
