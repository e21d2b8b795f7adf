/**
 * The values the three lab converters share: a lab result, the LOINC
 * annotation it is looked up in (abstract stand-ins for the loinc2hpo
 * library's LoincId, LoincEntry, Code, HpoTerm4TestOutcome and
 * LOINC2HpoAnnotationImpl), the interpretation codes of the HL7 FHIR
 * observation-interpretation code system, and the exceptions the converters
 * throw.
 */
module LabCodes {
  import opened Wrappers

  /** A LOINC code such as "778-1"; LoincId is taken to be its text. */
  type LoincId = string

  /** HpoTerm4TestOutcome: an HPO term id and whether it is negated. */
  datatype TestOutcome = TestOutcome(hpoId: string, isNegated: bool)

  /** An interpretation code of a code system. Two codes are equal when both parts are. */
  datatype Code = Code(system: string, code: string)

  /** new Code(new Coding().setSystem("FHIR").setCode(code)). */
  function Fhir(code: string): (r: Code)
    ensures r.system == "FHIR" && r.code == code
  {
    Code("FHIR", code)
  }

  /** LOINC2HpoAnnotationImpl: the HPO outcome for each interpretation code. */
  datatype Annotation = Annotation(candidates: map<Code, TestOutcome>)

  /** LoincEntry: only the scale ("Qn", "Ord", "Nom", ...) is used. */
  datatype LoincEntry = LoincEntry(scale: string)

  /** The exceptions the converters throw, the NullPointerExceptions included. */
  datatype LabError =
    | LocalLabTestNotMappedToLoinc
    | LoincCodeNotAnnotated
    | UnableToInterpretate
    | UnrecognizedCode
    | NumberFormat(text: string)
    | NullPointer(what: string)

  /**
   * A result of MIMIC's LABEVENTS table. valueNum holds Double.MAX_VALUE when
   * the result has no numeric value.
   */
  datatype LabEvent = LabEvent(itemId: int, value: string, valueNum: real, valueUom: string, flag: string)

  /** Double.MAX_VALUE, (2^53 - 1) * 2^971, exactly. */
  const DoubleMax: real := 179769313486231570814527423731704356798070567525844996598917476803157260780028538760589558632766878171540458953514382464234321326889464182768467546703537516986049910576551282076245490090389328944075868508455133942304583236903222948165808559332123348274797826204144723168738177180919299881250404026184124858368.0

  /**
   * The candidate of an annotation for a FHIR interpretation code; the
   * converters that throw raise UnrecognizedCodeException without one.
   */
  function CandidateFor(annotation: Annotation, code: string): (r: Result<TestOutcome, LabError>)
    ensures r.Ok? <==> Fhir(code) in annotation.candidates
    ensures r.Ok? ==> r.value == annotation.candidates[Fhir(code)]
    ensures r.Err? ==> r.error == UnrecognizedCode
  {
    if Fhir(code) in annotation.candidates then Ok(annotation.candidates[Fhir(code)]) else Err(UnrecognizedCode)
  }
}
