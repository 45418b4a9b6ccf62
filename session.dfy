/** The session state the page keeps between reruns (app.py lines 44-66),
    and the actions on it: the translation toggle (line 166), an inference
    run (lines 168-234), the clear button (lines 236-242) and the choice of
    what the right-hand column shows (lines 244-272). */
module SessionState {
  import opened Wrappers
  import opened PyText
  import Sections
  import opened Translator

  /** The four sections, under the names the session stores them by. */
  datatype Key = ThoughtReport | Report | ThoughtConclusion | Conclusion

  /** The keys in the order lines 54-58 and 64 list them. */
  const Keys: seq<Key> := [ThoughtReport, Report, ThoughtConclusion, Conclusion]
  const AllKeys: set<Key> := {ThoughtReport, Report, ThoughtConclusion, Conclusion}

  /** Every key mapped to the empty string. */
  function Blank(): (m: map<Key, string>)
    ensures m.Keys == AllKeys
    ensures forall k :: k in m ==> m[k] == ""
  {
    map k | k in AllKeys :: ""
  }

  /** The extracted sections, stored under their keys (lines 208-211). */
  function SectionMap(x: Sections.Extracted): (m: map<Key, string>)
    ensures m.Keys == AllKeys
  {
    map[ThoughtReport := x.thoughtReport, Report := x.report,
        ThoughtConclusion := x.thoughtConclusion, Conclusion := x.conclusion]
  }

  /** The four translation calls of lines 218-227, in that order. */
  function Jobs(sections: map<Key, string>, c1: Call, c2: Call, c3: Call, c4: Call): seq<Job>
    requires sections.Keys == AllKeys
  {
    [Job(sections[ThoughtReport], c1), Job(sections[Report], c2),
     Job(sections[ThoughtConclusion], c3), Job(sections[Conclusion], c4)]
  }

  /** Four results, stored under the keys in order. */
  function ResultMap(rs: seq<string>): (m: map<Key, string>)
    requires |rs| == 4
    ensures m.Keys == AllKeys
  {
    map[ThoughtReport := rs[0], Report := rs[1], ThoughtConclusion := rs[2], Conclusion := rs[3]]
  }

  // ----------------------------------------------------------------- view

  /** What one text area shows: the translation when translations are on
      and there is one, the original otherwise (lines 249-272). */
  function Shown(show: bool, original: string, translated: string): (r: string)
    ensures r == original || r == translated
    ensures !show ==> r == original
  {
    if show && translated != "" then translated else original
  }

  /** The right-hand column's four text areas, in display order. */
  datatype View = View(thoughtReport: string, thoughtConclusion: string, report: string, conclusion: string)

  function Field(v: View, k: Key): string {
    match k
    case ThoughtReport => v.thoughtReport
    case Report => v.report
    case ThoughtConclusion => v.thoughtConclusion
    case Conclusion => v.conclusion
  }

  /** The right-hand column: nothing unless there is a report (line 245),
      else the four text areas. */
  function ViewOf(sections: map<Key, string>, results: map<Key, string>, show: bool): (v: Option<View>)
    requires sections.Keys == AllKeys && results.Keys == AllKeys
    ensures v.None? <==> sections[Report] == ""
  {
    if sections[Report] == "" then None
    else Some(View(
      Shown(show, sections[ThoughtReport], results[ThoughtReport]),
      Shown(show, sections[ThoughtConclusion], results[ThoughtConclusion]),
      Shown(show, sections[Report], results[Report]),
      Shown(show, sections[Conclusion], results[Conclusion])))
  }

  /** Each text area shows the translation exactly when translations are on
      and that translation is not empty, and the original otherwise. */
  lemma ViewField(sections: map<Key, string>, results: map<Key, string>, show: bool, k: Key)
    requires sections.Keys == AllKeys && results.Keys == AllKeys && sections[Report] != ""
    ensures show && results[k] != "" ==> Field(ViewOf(sections, results, show).value, k) == results[k]
    ensures !(show && results[k] != "") ==> Field(ViewOf(sections, results, show).value, k) == sections[k]
  {
  }

  /** With translations off, the column shows the stored sections as they are. */
  lemma ToggleOffShowsOriginals(sections: map<Key, string>, results: map<Key, string>)
    requires sections.Keys == AllKeys && results.Keys == AllKeys && sections[Report] != ""
    ensures ViewOf(sections, results, false) == Some(View(sections[ThoughtReport], sections[ThoughtConclusion],
                                                          sections[Report], sections[Conclusion]))
  {
  }

  /** An empty section shows as empty and a non-empty section never does,
      whatever its translation came to: a translation of a non-empty
      section is either text or the fallback, and an empty translation
      (a `trans_result` with no lines) falls back to the original. */
  lemma ShownEmptyIff(show: bool, text: string, last: real, c: Call, md5: string -> string)
    ensures Shown(show, text, Translate(last, text, "en", "zh", c, md5).result) == "" <==> text == ""
  {
    if text == "" {
      assert AllSpace(text);
    }
  }

  /** A failed translation shows the failure prefix followed by the section. */
  lemma FailureShowsOriginal(text: string, last: real, c: Call, md5: string -> string)
    requires !AllSpace(text) && !Translated(c.exchange)
    ensures Shown(true, text, Translate(last, text, "en", "zh", c, md5).result) == FailurePrefix + text
  {
  }

  /** What the four translation calls of one run do to the timestamp and
      the results, one call after another. */
  lemma {:induction false} RunFour(last: real, jobs: seq<Job>, md5: string -> string)
    requires |jobs| == 4
    ensures var o1 := Translate(last, jobs[0].text, "en", "zh", jobs[0].call, md5);
      var o2 := Translate(o1.last, jobs[1].text, "en", "zh", jobs[1].call, md5);
      var o3 := Translate(o2.last, jobs[2].text, "en", "zh", jobs[2].call, md5);
      var o4 := Translate(o3.last, jobs[3].text, "en", "zh", jobs[3].call, md5);
      var b := Run(last, jobs, md5);
      b.results == [o1.result, o2.result, o3.result, o4.result] && b.last == o4.last
  {
    var o1 := Translate(last, jobs[0].text, "en", "zh", jobs[0].call, md5);
    var o2 := Translate(o1.last, jobs[1].text, "en", "zh", jobs[1].call, md5);
    var o3 := Translate(o2.last, jobs[2].text, "en", "zh", jobs[2].call, md5);
    var o4 := Translate(o3.last, jobs[3].text, "en", "zh", jobs[3].call, md5);
    var j1, j2, j3 := jobs[1..], jobs[2..], jobs[3..];
    assert j1[0] == jobs[1] && j1[1..] == j2;
    assert j2[0] == jobs[2] && j2[1..] == j3;
    assert j3[0] == jobs[3] && j3[1..] == [];
    RunStep(last, jobs, md5);
    RunStep(o1.last, j1, md5);
    RunStep(o2.last, j2, md5);
    RunStep(o3.last, j3, md5);
    var b4 := Run(o4.last, j3[1..], md5);
    assert b4.results == [];
    var b3 := Run(o3.last, j3, md5);
    assert b3.results == [o4.result];
    var b2 := Run(o2.last, j2, md5);
    assert b2.results == [o3.result] + b3.results == [o3.result, o4.result];
    var b1 := Run(o1.last, j1, md5);
    assert b1.results == [o2.result] + b2.results == [o2.result, o3.result, o4.result];
  }

  /** The first call of a run, then the rest. */
  lemma RunStep(last: real, jobs: seq<Job>, md5: string -> string)
    requires jobs != []
    ensures var o := Translate(last, jobs[0].text, "en", "zh", jobs[0].call, md5);
      var rest := Run(o.last, jobs[1..], md5);
      Run(last, jobs, md5).results == [o.result] + rest.results && Run(last, jobs, md5).last == rest.last
  {
  }

  /** Storing four results one key after another gives their map. */
  lemma StoredInOrder(m: map<Key, string>, r1: string, r2: string, r3: string, r4: string)
    requires m.Keys == AllKeys
    ensures m[ThoughtReport := r1][Report := r2][ThoughtConclusion := r3][Conclusion := r4] == ResultMap([r1, r2, r3, r4])
  {
  }

  // -------------------------------------------------------------- session

  class Session {
    /** `st.session_state.thought_report` and the other three sections. */
    var sections: map<Key, string>
    /** `st.session_state.translation_results`. */
    var translationResults: map<Key, string>
    /** `st.session_state.show_translation`. */
    var showTranslation: bool
    /** `st.session_state.last_translation_time`, in seconds. */
    var lastTranslationTime: real

    /** Both dictionaries hold exactly the four keys. */
    predicate Valid()
      reads this
    {
      sections.Keys == AllKeys && translationResults.Keys == AllKeys
    }

    /** Lines 44-66: a fresh session. */
    constructor ()
      ensures Valid()
      ensures sections == Blank() && translationResults == Blank()
      ensures showTranslation && lastTranslationTime == 0.0
    {
      sections := Blank();
      translationResults := Blank();
      showTranslation := true;
      lastTranslationTime := 0.0;
    }

    /** Line 166: the checkbox's value, read on every rerun. */
    method SetShowTranslation(on: bool)
      modifies this`showTranslation
      ensures showTranslation == on
    {
      showTranslation := on;
    }

    /** `translate_text(text)` with the default languages: it reads and then
        overwrites the timestamp, and returns the text, the request it sent
        and how long it slept. */
    method TranslateText(text: string, c: Call, md5: string -> string) returns (r: string, request: Option<Request>, slept: real)
      modifies this`lastTranslationTime
      ensures Outcome(r, lastTranslationTime, slept, request) == Translate(old(lastTranslationTime), text, "en", "zh", c, md5)
    {
      if AllSpace(text) {
        return "", None, 0.0;
      }
      var elapsed := c.now - lastTranslationTime;
      slept := 0.0;
      if elapsed < MinSpacing {
        slept := MinSpacing - elapsed;
      }
      lastTranslationTime := c.later;
      var salt := c.salt;
      request := Some(BuildRequest(text, "en", "zh", salt, md5));
      r := ResponseText(text, c.exchange);
    }

    /** Lines 230-231 (and 239-240): every translation result set to "". */
    method ClearTranslations()
      requires Valid()
      modifies this`translationResults
      ensures Valid() && translationResults == Blank()
    {
      var i := 0;
      while i < |Keys|
        invariant 0 <= i <= |Keys|
        invariant translationResults.Keys == AllKeys
        invariant forall j :: 0 <= j < i ==> translationResults[Keys[j]] == ""
      {
        translationResults := translationResults[Keys[i] := ""];
        i := i + 1;
      }
      forall k | k in AllKeys
        ensures translationResults[k] == ""
      {
        assert k == Keys[0] || k == Keys[1] || k == Keys[2] || k == Keys[3];
      }
    }

    /** Lines 236-242, the clear button: the four sections and the four
        results emptied and the timestamp reset to 0; the toggle stays. */
    method Clear()
      requires Valid()
      modifies this`sections, this`translationResults, this`lastTranslationTime
      ensures Valid()
      ensures sections == Blank() && translationResults == Blank() && lastTranslationTime == 0.0
      ensures CurrentView() == None
    {
      for i := 0 to |Keys|
        invariant sections.Keys == AllKeys && translationResults.Keys == AllKeys
        invariant forall j :: 0 <= j < i ==> sections[Keys[j]] == ""
      {
        sections := sections[Keys[i] := ""];
      }
      forall k | k in AllKeys
        ensures sections[k] == ""
      {
        assert k == Keys[0] || k == Keys[1] || k == Keys[2] || k == Keys[3];
      }
      ClearTranslations();
      lastTranslationTime := 0.0;
    }

    /** Lines 168-234, one press of the inference button.  Without an image
        or a loaded model only a warning shows; otherwise the answer is cut
        into the four sections and, with translations on, each is
        translated in turn, or with translations off every result is
        cleared.  `answer` stands for the model's output and `c1`..`c4`
        for the world each of the four translation calls meets. */
    method Infer(uploaded: bool, modelLoaded: bool, answer: string, c1: Call, c2: Call, c3: Call, c4: Call,
                 md5: string -> string)
      requires Valid()
      modifies this`sections, this`translationResults, this`lastTranslationTime
      ensures Valid()
      ensures !(uploaded && modelLoaded) ==>
                && sections == old(sections) && translationResults == old(translationResults)
                && lastTranslationTime == old(lastTranslationTime)
      ensures uploaded && modelLoaded ==> sections == SectionMap(Sections.ExtractAll(answer))
      ensures uploaded && modelLoaded && showTranslation ==>
                var b := Run(old(lastTranslationTime), Jobs(sections, c1, c2, c3, c4), md5);
                translationResults == ResultMap(b.results) && lastTranslationTime == b.last
      ensures uploaded && modelLoaded && !showTranslation ==>
                translationResults == Blank() && lastTranslationTime == old(lastTranslationTime)
    {
      if !uploaded || !modelLoaded {
        return;
      }
      var x := StoreSections(answer);
      UpdateTranslations(c1, c2, c3, c4, md5);
    }

    /** Lines 208-211: the four sections cut from the answer, each stored
        under its key; `x` is what the extractor returned. */
    method StoreSections(answer: string) returns (x: Sections.Extracted)
      modifies this`sections
      ensures x == Sections.ExtractAll(answer)
      ensures sections == SectionMap(x)
    {
      x := Sections.ExtractAll(answer);
      sections := SectionMap(x);
    }

    /** Lines 215-231: with translations on, each section translated in
        turn; with them off, every result cleared. */
    method UpdateTranslations(c1: Call, c2: Call, c3: Call, c4: Call, md5: string -> string)
      requires Valid()
      modifies this`translationResults, this`lastTranslationTime
      ensures Valid()
      ensures showTranslation ==>
                var b := Run(old(lastTranslationTime), Jobs(sections, c1, c2, c3, c4), md5);
                translationResults == ResultMap(b.results) && lastTranslationTime == b.last
      ensures !showTranslation ==>
                translationResults == Blank() && lastTranslationTime == old(lastTranslationTime)
    {
      if showTranslation {
        TranslateSections(c1, c2, c3, c4, md5);
      } else {
        ClearTranslations();
      }
    }

    /** Lines 218-227: each section translated in turn, its result stored
        under its key. */
    method TranslateSections(c1: Call, c2: Call, c3: Call, c4: Call, md5: string -> string)
      requires Valid()
      modifies this`translationResults, this`lastTranslationTime
      ensures Valid()
      ensures var b := Run(old(lastTranslationTime), Jobs(sections, c1, c2, c3, c4), md5);
                translationResults == ResultMap(b.results) && lastTranslationTime == b.last
    {
      ghost var m0, l0 := translationResults, lastTranslationTime;
      ghost var jobs := Jobs(sections, c1, c2, c3, c4);
      RunFour(l0, jobs, md5);
      var r1, _, _ := TranslateText(sections[ThoughtReport], c1, md5);
      translationResults := translationResults[ThoughtReport := r1];
      var r2, _, _ := TranslateText(sections[Report], c2, md5);
      translationResults := translationResults[Report := r2];
      var r3, _, _ := TranslateText(sections[ThoughtConclusion], c3, md5);
      translationResults := translationResults[ThoughtConclusion := r3];
      var r4, _, _ := TranslateText(sections[Conclusion], c4, md5);
      translationResults := translationResults[Conclusion := r4];
      assert Run(l0, jobs, md5).results == [r1, r2, r3, r4];
      StoredInOrder(m0, r1, r2, r3, r4);
    }

    /** The right-hand column for the current state. */
    function CurrentView(): (v: Option<View>)
      requires Valid()
      reads this
      ensures v.None? <==> sections[Report] == ""
    {
      ViewOf(sections, translationResults, showTranslation)
    }
  }
}
