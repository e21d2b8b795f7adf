/**
 * NoteEventFactory.get_radiology_final_report of
 * src/main/java/org/jax/text2hpo/NoteEventFactory.java: a radiology note is
 * cut into sections at a line of 78 underscores, and the first section that
 * holds the words FINAL REPORT is the report.
 */
module NoteEvents {
  import opened Wrappers
  import opened Text

  /** The line of 78 underscores between the sections of a note. */
  const SectionSep: string := "______________________________________________________________________________"

  /** The heading that marks the final report. */
  const FinalReport: string := "FINAL REPORT"

  /** text.split(SECTION_SEP). */
  function Sections(text: string): seq<string> {
    JavaSplit(text, SectionSep)
  }

  /** Every section is free of the separator. */
  lemma SectionsFree(text: string)
    ensures forall k :: 0 <= k < |Sections(text)| ==> !Contains(Sections(text)[k], SectionSep)
  {
    SplitPiecesFree(text, SectionSep);
  }

  /** The sections, separators put back, give the note again, up to the empty sections at its end. */
  lemma SectionsRejoin(text: string)
    ensures |Sections(text)| >= 1 ==> exists n: nat :: text == Join(Sections(text), SectionSep) + RepeatSep(SectionSep, n)
  {
    var all := SplitAll(text, SectionSep);
    SplitJoin(text, SectionSep);
    var r := Sections(text);
    if |r| >= 1 {
      JoinPrefix(all, SectionSep, |r|);
    }
  }

  /** n copies of the separator, each after an empty section. */
  function RepeatSep(sep: string, n: nat): string {
    if n == 0 then [] else sep + RepeatSep(sep, n - 1)
  }

  /** Joining pieces whose tail after position m is empty adds only separators. */
  lemma {:induction false} JoinPrefix(pieces: seq<string>, sep: string, m: nat)
    requires 1 <= m <= |pieces|
    requires forall k :: m <= k < |pieces| ==> pieces[k] == []
    ensures Join(pieces, sep) == Join(pieces[..m], sep) + RepeatSep(sep, |pieces| - m)
    decreases |pieces|
  {
    if m == |pieces| {
      assert pieces[..m] == pieces;
    } else {
      var front := pieces[..|pieces| - 1];
      var last := pieces[|pieces| - 1];
      JoinPrefix(front, sep, m);
      assert front[..m] == pieces[..m];
      assert front + [last] == pieces;
      JoinSnoc(front, sep, last);
      RepeatSnoc(sep, |pieces| - 1 - m);
      assert last == [];
      var head, tail := Join(pieces[..m], sep), RepeatSep(sep, |front| - m);
      calc {
        Join(pieces, sep);
        Join(front, sep) + sep + last;
        Join(front, sep) + sep;
        (head + tail) + sep;
        head + (tail + sep);
        head + RepeatSep(sep, |pieces| - m);
      }
    }
  }

  lemma {:induction false} JoinSnoc(pieces: seq<string>, sep: string, last: string)
    requires |pieces| >= 1
    ensures Join(pieces + [last], sep) == Join(pieces, sep) + sep + last
    decreases |pieces|
  {
    if |pieces| == 1 {
      assert (pieces + [last])[1..] == [last];
    } else {
      JoinSnoc(pieces[1..], sep, last);
      assert (pieces + [last])[1..] == pieces[1..] + [last];
    }
  }

  lemma {:induction false} RepeatSnoc(sep: string, n: nat)
    ensures RepeatSep(sep, n + 1) == RepeatSep(sep, n) + sep
  {
    if n > 0 {
      RepeatSnoc(sep, n - 1);
    }
  }

  /** The first section, in order, that contains FINAL REPORT. */
  function FirstWithReport(sections: seq<string>): Option<string> {
    if sections == [] then None
    else if Contains(sections[0], FinalReport) then Some(sections[0])
    else FirstWithReport(sections[1..])
  }

  /** The value of get_radiology_final_report(text). */
  function FinalReportOf(text: string): Option<string> {
    if Trim(ToLower(text)) == "null" then None else FirstWithReport(Sections(text))
  }

  /**
   * The search finds the first section holding FINAL REPORT, and finds
   * nothing exactly when no section holds it.
   */
  lemma {:induction false} FirstWithReportIsFirst(sections: seq<string>)
    ensures FirstWithReport(sections).Some? ==> exists k :: (0 <= k < |sections|
              && FirstWithReport(sections) == Some(sections[k])
              && Contains(sections[k], FinalReport)
              && (forall j :: 0 <= j < k ==> !Contains(sections[j], FinalReport)))
    ensures FirstWithReport(sections).None? <==> forall k :: 0 <= k < |sections| ==> !Contains(sections[k], FinalReport)
  {
    if sections != [] && !Contains(sections[0], FinalReport) {
      var rest := sections[1..];
      FirstWithReportIsFirst(rest);
      if FirstWithReport(rest).Some? {
        var k :| 0 <= k < |rest| && FirstWithReport(rest) == Some(rest[k])
                 && Contains(rest[k], FinalReport)
                 && (forall j :: 0 <= j < k ==> !Contains(rest[j], FinalReport));
        assert sections[k + 1] == rest[k];
        forall j | 0 <= j < k + 1 ensures !Contains(sections[j], FinalReport) {
          if j > 0 {
            assert sections[j] == rest[j - 1];
          }
        }
      }
      forall k | 0 <= k < |sections| && k > 0 ensures sections[k] == rest[k - 1] { }
    }
  }

  /** A report found contains FINAL REPORT and no separator line. */
  lemma ReportHasNoSeparator(text: string)
    requires FinalReportOf(text).Some?
    ensures Contains(FinalReportOf(text).value, FinalReport)
    ensures !Contains(FinalReportOf(text).value, SectionSep)
  {
    var sections := Sections(text);
    FirstWithReportIsFirst(sections);
    SectionsFree(text);
  }

  /** A note with no separator line that contains FINAL REPORT is its own report. */
  lemma WholeNoteIsReport(text: string)
    requires Trim(ToLower(text)) != "null"
    requires !Contains(text, SectionSep) && Contains(text, FinalReport)
    ensures FinalReportOf(text) == Some(text)
  {
    assert Sections(text) == [text];
  }

  /** Nothing for a "null" note, and nothing when no section holds FINAL REPORT. */
  lemma NoReport(text: string)
    ensures FinalReportOf(text).None? <==>
              Trim(ToLower(text)) == "null"
              || forall k :: 0 <= k < |Sections(text)| ==> !Contains(Sections(text)[k], FinalReport)
  {
    FirstWithReportIsFirst(Sections(text));
  }

  /**
   * get_radiology_final_report: the loop over the sections returns the first
   * that contains FINAL REPORT.
   */
  method RadiologyFinalReport(text: string) returns (r: Option<string>)
    ensures r == FinalReportOf(text)
  {
    if Trim(ToLower(text)) == "null" {
      return None;
    }
    var sections := Sections(text);
    for k := 0 to |sections|
      invariant FirstWithReport(sections) == FirstWithReport(sections[k..])
    {
      if Contains(sections[k], FinalReport) {
        return Some(sections[k]);
      }
      assert sections[k..][1..] == sections[k + 1..];
    }
    return None;
  }
}
