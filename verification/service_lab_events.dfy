/**
 * LabEvents2HpoFactory of src/main/java/org/jax/service: the older converter
 * from a MIMIC lab result to an HPO outcome. It interprets only numeric
 * results in the primary unit of the test, comparing the result with the
 * mean of that unit and reading the flag: "abnormal" above the mean is H
 * (or POS), "abnormal" below it is L (or NEG), no flag is N (or NEG). Where
 * it finds nothing to say it answers empty rather than throwing.
 */
module ServiceLabEvents {
  import opened Wrappers
  import opened LabCodes

  /** String.replace("\"", ""): every double quote removed. */
  function RemoveQuotes(s: string): (r: string)
    ensures '"' !in r
    ensures |r| <= |s|
    ensures forall c :: c != '"' ==> multiset(r)[c] == multiset(s)[c]
  {
    if s == [] then []
    else
      assert s == [s[0]] + s[1..];
      if s[0] == '"' then RemoveQuotes(s[1..]) else [s[0]] + RemoveQuotes(s[1..])
  }

  /**
   * RemoveQuotes works character by character and keeps the order: removing
   * the quotes of a concatenation concatenates the two results.
   */
  lemma {:induction false} RemoveQuotesAppend(a: string, b: string)
    ensures RemoveQuotes(a + b) == RemoveQuotes(a) + RemoveQuotes(b)
  {
    if a != [] {
      assert (a + b)[0] == a[0] && (a + b)[1..] == a[1..] + b;
      RemoveQuotesAppend(a[1..], b);
    } else {
      assert a + b == b;
    }
  }

  /** A single character is dropped exactly when it is a double quote, and kept otherwise. */
  lemma RemoveQuotesChar(c: char)
    ensures RemoveQuotes([c]) == if c == '"' then [] else [c]
  {
  }

  /**
   * The code of a numeric result in the primary unit, from its flag, its
   * value, the mean of the primary unit and the scale of the test. A result
   * equal to the mean, a flag other than "abnormal" or empty, and a scale
   * other than Qn and Ord all give no code.
   */
  function NumericCode(flag: string, observed: real, mean: real, scale: string): (r: Option<string>)
    ensures r == Some("H") <==> flag == "abnormal" && observed > mean && scale == "Qn"
    ensures r == Some("POS") <==> flag == "abnormal" && observed > mean && scale == "Ord"
    ensures r == Some("L") <==> flag == "abnormal" && observed < mean && scale == "Qn"
    ensures r == Some("NEG") <==> scale == "Ord" && (flag == "" || (flag == "abnormal" && observed < mean))
    ensures r == Some("N") <==> flag == "" && scale == "Qn"
    ensures r.Some? ==> r.value in {"H", "POS", "L", "NEG", "N"}
  {
    if flag == "abnormal" && observed > mean then
      if scale == "Qn" then Some("H") else if scale == "Ord" then Some("POS") else None
    else if flag == "abnormal" && observed < mean then
      if scale == "Qn" then Some("L") else if scale == "Ord" then Some("NEG") else None
    else if flag == "" then
      if scale == "Qn" then Some("N") else if scale == "Ord" then Some("NEG") else None
    else
      None
  }

  /** The maps the converter holds; it never changes them. */
  datatype Factory = Factory(
    local2LoincMap: map<int, LoincId>,
    primaryUnits: map<int, string>,
    primaryMeans: map<int, real>,
    annotationMap: map<LoincId, Annotation>,
    loincEntryMap: map<LoincId, LoincEntry>)
  {
    /** The result is numeric and the test has a primary mean. */
    predicate Numeric(event: LabEvent) {
      event.valueNum != DoubleMax && event.itemId in primaryMeans
    }

    /** The unit of the result, quotes removed, is the primary unit of the test. */
    predicate InPrimaryUnit(event: LabEvent) {
      event.itemId in primaryUnits && RemoveQuotes(event.valueUom) == primaryUnits[event.itemId]
    }

    /**
     * convert: a local test without LOINC code, then a LOINC code without
     * annotation, throw. A textual result, a test without primary mean and a
     * result in another unit answer empty. A missing LOINC table entry throws
     * (a NullPointerException). Otherwise the code of the result picks the
     * candidate, and no code or no candidate answers empty.
     */
    function Convert(event: LabEvent): (r: Result<Option<TestOutcome>, LabError>)
      ensures r == Err(LocalLabTestNotMappedToLoinc) <==> event.itemId !in local2LoincMap
      ensures r == Err(LoincCodeNotAnnotated)
              <==> event.itemId in local2LoincMap && local2LoincMap[event.itemId] !in annotationMap
      ensures r.Err? && r.error.NullPointer?
              <==> (&& event.itemId in local2LoincMap && local2LoincMap[event.itemId] in annotationMap
                    && Numeric(event) && InPrimaryUnit(event) && local2LoincMap[event.itemId] !in loincEntryMap)
      ensures r.Err? ==> (r == Err(LocalLabTestNotMappedToLoinc) || r == Err(LoincCodeNotAnnotated)
                          || (r.error.NullPointer? && local2LoincMap[event.itemId] !in loincEntryMap))
      ensures event.itemId in local2LoincMap && local2LoincMap[event.itemId] in annotationMap
              && (!Numeric(event) || !InPrimaryUnit(event))
              ==> r == Ok(None)
      ensures r.Ok? && r.value.Some? ==>
                (Numeric(event) && InPrimaryUnit(event)
                 && var loinc := local2LoincMap[event.itemId];
                 && loinc in annotationMap && loinc in loincEntryMap
                 && var code := NumericCode(event.flag, event.valueNum, primaryMeans[event.itemId], loincEntryMap[loinc].scale);
                 && code.Some? && Fhir(code.value) in annotationMap[loinc].candidates
                 && r.value.value == annotationMap[loinc].candidates[Fhir(code.value)])
      ensures (&& event.itemId in local2LoincMap && Numeric(event) && InPrimaryUnit(event)
               && local2LoincMap[event.itemId] in annotationMap && local2LoincMap[event.itemId] in loincEntryMap)
              ==> var loinc := local2LoincMap[event.itemId];
                  var candidates := annotationMap[loinc].candidates;
                  var code := NumericCode(event.flag, event.valueNum, primaryMeans[event.itemId], loincEntryMap[loinc].scale);
                  && (code.Some? && Fhir(code.value) in candidates ==> r == Ok(Some(candidates[Fhir(code.value)])))
                  && (code.None? || Fhir(code.value) !in candidates ==> r == Ok(None))
    {
      if event.itemId !in local2LoincMap then
        Err(LocalLabTestNotMappedToLoinc)
      else
        var loincId := local2LoincMap[event.itemId];
        if loincId !in annotationMap then
          Err(LoincCodeNotAnnotated)
        else if event.valueNum != DoubleMax && event.itemId in primaryMeans then
          var observedUnit := RemoveQuotes(event.valueUom);
          if event.itemId !in primaryUnits || observedUnit != primaryUnits[event.itemId] then
            Ok(None)
          else if loincId !in loincEntryMap then
            Err(NullPointer("LOINC table entry"))
          else
            var mean := primaryMeans[event.itemId];
            var code := NumericCode(event.flag, event.valueNum, mean, loincEntryMap[loincId].scale);
            if code.None? then
              Ok(None)
            else
              match CandidateFor(annotationMap[loincId], code.value)
              case Ok(outcome) => Ok(Some(outcome))
              case Err(_) => Ok(None)
        else
          Ok(None)
    }

    /**
     * A quantitative result flagged "abnormal" above the mean comes out as
     * the H candidate, and below the mean as the L candidate, whenever the
     * annotation has one.
     */
    lemma AbnormalQnFollowsMean(event: LabEvent)
      requires event.itemId in local2LoincMap
      requires var loinc := local2LoincMap[event.itemId];
               loinc in annotationMap && loinc in loincEntryMap && loincEntryMap[loinc].scale == "Qn"
      requires Numeric(event) && InPrimaryUnit(event) && event.flag == "abnormal"
      ensures var candidates := annotationMap[local2LoincMap[event.itemId]].candidates;
              && (event.valueNum > primaryMeans[event.itemId] && Fhir("H") in candidates
                  ==> Convert(event) == Ok(Some(candidates[Fhir("H")])))
              && (event.valueNum < primaryMeans[event.itemId] && Fhir("L") in candidates
                  ==> Convert(event) == Ok(Some(candidates[Fhir("L")])))
              && (event.valueNum == primaryMeans[event.itemId] ==> Convert(event) == Ok(None))
    {
    }
  }
}
