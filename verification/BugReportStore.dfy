/**
  The store agents file bug reports in: what each operation refuses, what it writes, and
  that what was filed is what is read, before and after the report is resolved.
*/
module BugReportStore {
  import opened Options
  import opened Text
  import opened BugReportFormat
  import opened BugReportRoundTrip

  const MAXIMUM_TITLE := 200
  const MAXIMUM_DESCRIPTION := 20000
  const MAXIMUM_LABEL := 100
  const MAXIMUM_RESOLUTION := 5000
  const MAXIMUM_OPEN := 1000

  datatype Error =
    | EmptyTitle | TitleTooLong | EmptyDescription | DescriptionTooLong | BadSeverity | LabelTooLong
    | TooManyOpen | NoSuchReport | EmptyResolution | ResolutionTooLong | AlreadyResolved

  // `_optional_label`: an empty label is no label.
  function LabelOf(value: Option<string>): Option<string> {
    if value.None? || SingleLine(value.value) == "" then None else Some(SingleLine(value.value))
  }

  predicate LabelFits(value: Option<string>) {
    value.Some? ==> |SingleLine(value.value)| <= MAXIMUM_LABEL
  }

  // What the text of a submission is refused for, in the order it is looked at.
  function Refused(title: string, description: string, severity: string, component: Option<string>, reporter: Option<string>): Option<Error> {
    if SingleLine(title) == "" then Some(EmptyTitle)
    else if |SingleLine(title)| > MAXIMUM_TITLE then Some(TitleTooLong)
    else if Strip(description) == "" then Some(EmptyDescription)
    else if |Strip(description)| > MAXIMUM_DESCRIPTION then Some(DescriptionTooLong)
    else if severity !in SEVERITIES then Some(BadSeverity)
    else if !LabelFits(component) || !LabelFits(reporter) then Some(LabelTooLong)
    else None
  }

  ghost predicate TitleFits(title: string) {
    Words(title) != [] && |SingleLine(title)| <= 200
  }

  ghost predicate DescriptionFits(description: string) {
    !AllSpace(description) && |Strip(description)| <= 20000
  }

  ghost predicate LabelsFit(component: Option<string>, reporter: Option<string>) {
    && (component.Some? ==> |SingleLine(component.value)| <= 100)
    && (reporter.Some? ==> |SingleLine(reporter.value)| <= 100)
  }

  // Which texts are refused, and for what: the title first, then the description, the
  // severity and the labels.
  lemma RefusedFor(title: string, description: string, severity: string, component: Option<string>, reporter: Option<string>)
    ensures var refused := Refused(title, description, severity, component, reporter);
            var fits := TitleFits(title) && DescriptionFits(description);
            var known := severity in {"low", "medium", "high", "critical"};
            && (refused == Some(EmptyTitle) <==> Words(title) == [])
            && (refused == Some(TitleTooLong) <==> |SingleLine(title)| > 200)
            && (refused == Some(EmptyDescription) <==> TitleFits(title) && AllSpace(description))
            && (refused == Some(DescriptionTooLong) <==> TitleFits(title) && |Strip(description)| > 20000)
            && (refused == Some(BadSeverity) <==> fits && !known)
            && (refused == Some(LabelTooLong) <==> fits && known && !LabelsFit(component, reporter))
            && (refused == None <==> fits && known && LabelsFit(component, reporter))
  {
    NoWords(title);
    NothingLeft(description);
    assert severity in SEVERITIES <==> severity in {"low", "medium", "high", "critical"};
  }

  lemma NoWords(s: string)
    ensures SingleLine(s) == "" <==> Words(s) == []
  {
    WordsAreWords(s);
    JoinedWordsOneLine(Words(s));
  }

  lemma NothingLeft(s: string)
    ensures Strip(s) == "" <==> AllSpace(s)
  {
    if Strip(s) == "" {
      StripIs(s, "");
      var a, b :| AllSpace(a) && AllSpace(b) && s == a + "" + b;
      assert s == a + b;
    }
    if AllSpace(s) {
      StripPadded(s, "", "");
      assert s + "" + "" == s;
    }
  }

  // The title and the labels of a filed report have the words given, one space apart, and
  // the description is the text given without the spaces around it.
  ghost predicate FiledFrom(r: Report, title: string, description: string, severity: string,
                            component: Option<string>, reporter: Option<string>)
  {
    && SingleSpaced(r.title) && Words(r.title) == Words(title)
    && Stripped(r.description)
    && (exists a, b :: AllSpace(a) && AllSpace(b) && description == a + r.description + b)
    && r.severity == severity && LabelFrom(r.component, component) && LabelFrom(r.reporter, reporter)
  }

  ghost predicate LabelFrom(kept: Option<string>, value: Option<string>) {
    && (kept.None? <==> value.None? || Words(value.value) == [])
    && (kept.Some? ==> SingleSpaced(kept.value) && Words(kept.value) == Words(value.value))
  }

  lemma LabelOfIs(value: Option<string>)
    ensures LabelFrom(LabelOf(value), value)
  {
    if value.Some? {
      NoWords(value.value);
      SingleLineIs(value.value);
    }
  }

  lemma SingleLineIs(s: string)
    ensures SingleSpaced(SingleLine(s)) && Words(SingleLine(s)) == Words(s)
  {
    WordsAreWords(s);
    JoinedWordsSpaced(Words(s));
    SingleLineKeepsWords(s);
  }

  lemma FiledIsFrom(r: Report, title: string, description: string, severity: string,
      component: Option<string>, reporter: Option<string>)
    requires r.title == SingleLine(title) && r.description == Strip(description) && r.severity == severity
    requires r.component == LabelOf(component) && r.reporter == LabelOf(reporter)
    ensures FiledFrom(r, title, description, severity, component, reporter)
  {
    SingleLineIs(title);
    LabelOfIs(component);
    LabelOfIs(reporter);
    StripIs(description, r.description);
  }

  lemma OneLineNoBreaks(s: string)
    requires OneLine(s)
    ensures NoBreaks(s)
  {
  }

  lemma LabelOfIsLabel(value: Option<string>)
    ensures LabelOf(value).Some? ==> Label(LabelOf(value).value)
  {
    if value.Some? {
      SingleLineIsOneLine(value.value);
      OneLineNoBreaks(SingleLine(value.value));
    }
  }

  lemma SeverityIsLabel(severity: string)
    requires severity in SEVERITIES
    ensures Label(severity)
  {
  }

  function ResolutionNote(at: string, resolution: string): string {
    "Resolved " + at + ".\n\n" + resolution
  }

  function Resolve(r: Report, note: string): Report {
    r.(status := "resolved", resolution := Some(note))
  }

  lemma NoteIsStripped(at: string, resolution: string)
    requires resolution != [] && Stripped(resolution)
    ensures ResolutionNote(at, resolution) != [] && Stripped(ResolutionNote(at, resolution))
  {
  }

  // Only the text the caller gives decides whether the note imitates the heading.
  lemma NoteImitates(at: string, resolution: string)
    requires NoBreaks(at)
    ensures ImitatesHeading(ResolutionNote(at, resolution)) <==> ImitatesHeading(resolution)
  {
    var stamp := "\nResolved " + at + ".\n";
    var section := "\n" + resolution + "\n";
    var s := "\n" + ResolutionNote(at, resolution) + "\n";
    assert s == stamp + section;
    forall j: nat | j < |stamp| ensures !OccursAt(s, RESOLUTION_HEADING, j) {
      OccursFirstTwo(s, RESOLUTION_HEADING, j);
      assert 0 < j < |stamp| - 1 ==> s[j] == ("Resolved " + at + ".")[j - 1];
      assert s[1] == 'R' && s[|stamp|] == '\n';
    }
    forall j: nat | j >= |stamp|
      ensures OccursAt(s, RESOLUTION_HEADING, j) <==> OccursAt(section, RESOLUTION_HEADING, j - |stamp|)
    {
      OccursShift(stamp, section, RESOLUTION_HEADING, j);
    }
    if i: nat :| OccursAt(section, RESOLUTION_HEADING, i) {
      assert OccursAt(s, RESOLUTION_HEADING, i + |stamp|);
    }
  }

  // So the caller can tell beforehand whether a resolved report will read back in full.
  lemma StampedNoteImitates(at: string, resolution: string)
    requires NoBreaks(at)
    ensures ImitatesHeading(Newlines(ResolutionNote(at, resolution))) <==> ImitatesHeading(Newlines(resolution))
  {
    var stamp := "Resolved " + at + ".\n\n";
    assert forall i :: 0 <= i < |at| ==> !IsLineBreak(at[i]);
    NewlinesIdentity(stamp);
    NewlinesConcat(stamp, resolution);
    NoteImitates(at, Newlines(resolution));
  }

  // Every field but the two free texts.
  ghost predicate SameFiling(a: Report, b: Report) {
    a.(description := "", resolution := None) == b.(description := "", resolution := None)
  }

  lemma HeadReadBack(r: Report)
    requires Storable(r)
    ensures var out := Parse(Newlines(Render(r))); out.Some? && SameFiling(out.value, r)
  {
    NormalisedIsStorable(r);
    ParseIs(Normalised(r));
  }

  // Each file holds the rendering of what was filed, or of that with its note added.
  ghost predicate FilesAgree(filed: map<string, Report>, notes: map<string, string>,
      openReports: map<string, string>, resolvedReports: map<string, string>) {
    && openReports.Keys !! resolvedReports.Keys
    && notes.Keys == resolvedReports.Keys
    && (forall id :: id in openReports ==> id in filed && OpenFile(filed[id], id, openReports[id]))
    && (forall id :: id in resolvedReports ==> id in notes && id in filed && ResolvedFile(filed[id], id, notes[id], resolvedReports[id]))
  }

  lemma FilingKeeps(filed: map<string, Report>, notes: map<string, string>,
      openReports: map<string, string>, resolvedReports: map<string, string>, report: Report, text: string)
    requires FilesAgree(filed, notes, openReports, resolvedReports) && OpenFile(report, report.id, text)
    requires report.id !in resolvedReports
    ensures FilesAgree(filed[report.id := report], notes, openReports[report.id := text], resolvedReports)
  {
  }

  lemma ResolvingKeeps(filed: map<string, Report>, notes: map<string, string>,
      openReports: map<string, string>, resolvedReports: map<string, string>, id: string, note: string, text: string)
    requires FilesAgree(filed, notes, openReports, resolvedReports) && id in openReports
    requires ResolvedFile(filed[id], id, note, text)
    ensures FilesAgree(filed, notes[id := note], openReports - {id}, resolvedReports[id := text])
  {
  }

  ghost predicate OpenFile(filed: Report, id: string, text: string) {
    FiledAs(filed, id) && text == Render(filed)
  }

  ghost predicate ResolvedFile(filed: Report, id: string, note: string, text: string) {
    FiledAs(filed, id) && note != [] && Stripped(note) && text == Render(Resolve(Normalised(filed), note))
  }

  ghost predicate FiledAs(r: Report, id: string) {
    Storable(r) && r.id == id && r.resolution.None?
  }

  // What a resolved report reads back as: its head always, all of it exactly when the
  // note does not imitate the heading above it.
  ghost predicate ReadsResolved(filed: Report, note: string, out: Report) {
    && SameFiling(out, filed.(status := "resolved"))
    && (out == Resolve(Normalised(filed), Newlines(note)) <==> !ImitatesHeading(Newlines(note)))
  }

  lemma FiledIsStorable(title: string, description: string, severity: string, component: Option<string>, reporter: Option<string>,
      token: string, id: string, at: string)
    requires Refused(title, description, severity, component, reporter).None?
    requires Label(id) && Label(at) && NoBreaks(token)
    ensures FiledAs(Report(id, SingleLine(title), "open", severity, at, LabelOf(component), LabelOf(reporter),
                           token, Strip(description), None), id)
  {
    SingleLineIsOneLine(title);
    LabelOfIsLabel(component);
    LabelOfIsLabel(reporter);
    SeverityIsLabel(severity);
    StripIsStripped(description);
  }

  lemma ResolvedReads(filed: Report, note: string)
    requires FiledAs(filed, filed.id) && note != [] && Stripped(note)
    ensures var out := Parse(Newlines(Render(Resolve(Normalised(filed), note))));
            out.Some? && ReadsResolved(filed, note, out.value)
  {
    var resolved := Resolve(Normalised(filed), note);
    NormalisedIsStorable(filed);
    HeadReadBack(resolved);
    ReadBack(resolved);
    NewlinesHasNoReturn(filed.description);
    NewlinesIdentity(Newlines(filed.description));
  }

  class Store {
    // The files of the two directories, by report id.
    var openReports: map<string, string>
    var resolvedReports: map<string, string>
    // What was filed under each id, and the note of each resolved report.
    ghost var filed: map<string, Report>
    ghost var notes: map<string, string>

    ghost predicate Valid()
      reads this
    {
      FilesAgree(filed, notes, openReports, resolvedReports)
    }

    constructor ()
      ensures Valid() && openReports == map[] && resolvedReports == map[]
    {
      openReports, resolvedReports, filed, notes := map[], map[], map[], map[];
    }

    // `id`, `at` and `token` come from the clock, the random source and the caller's role.
    method File(title: string, description: string, severity: string, component: Option<string>, reporter: Option<string>,
        token: string, id: string, at: string)
      returns (out: Result<Report, Error>)
      requires Valid() && Label(id) && Label(at) && NoBreaks(token)
      requires id !in openReports && id !in resolvedReports
      modifies this`openReports, this`filed
      ensures Valid()
      ensures out == match Refused(title, description, severity, component, reporter)
                     case Some(error) => Err(error)
                     case None =>
                       if |old(openReports)| >= MAXIMUM_OPEN then Err(TooManyOpen)
                       else Ok(Report(id, SingleLine(title), "open", severity, at, LabelOf(component), LabelOf(reporter),
                                      token, Strip(description), None))
      ensures out.Ok? <==>
                && |old(openReports)| < 1000 && TitleFits(title) && DescriptionFits(description)
                && severity in {"low", "medium", "high", "critical"} && LabelsFit(component, reporter)
      ensures out.Ok? ==> FiledFrom(out.value, title, description, severity, component, reporter)
      ensures out.Err? ==> openReports == old(openReports) && filed == old(filed)
      ensures out.Ok? ==> openReports == old(openReports)[id := Render(out.value)] && filed == old(filed)[id := out.value]
    {
      RefusedFor(title, description, severity, component, reporter);
      var refused := Refused(title, description, severity, component, reporter);
      if refused.Some? {
        out := Err(refused.value);
      } else if |openReports| >= MAXIMUM_OPEN {
        out := Err(TooManyOpen);
      } else {
        var report := Report(id, SingleLine(title), "open", severity, at, LabelOf(component), LabelOf(reporter),
                             token, Strip(description), None);
        FiledIsStorable(title, description, severity, component, reporter, token, id, at);
        FiledIsFrom(report, title, description, severity, component, reporter);
        var text := RenderReport(report);
        Write(report, text);
        out := Ok(report);
      }
    }

    method Write(report: Report, text: string)
      requires Valid() && OpenFile(report, report.id, text)
      requires report.id !in openReports && report.id !in resolvedReports
      modifies this`openReports, this`filed
      ensures Valid()
      ensures openReports == old(openReports)[report.id := text] && filed == old(filed)[report.id := report]
    {
      FilingKeeps(filed, notes, openReports, resolvedReports, report, text);
      openReports := openReports[report.id := text];
      filed := filed[report.id := report];
    }

    method Find(id: string) returns (text: Option<string>)
      ensures text == if id in openReports then Some(openReports[id])
                      else if id in resolvedReports then Some(resolvedReports[id])
                      else None
    {
      if id in openReports {
        text := Some(openReports[id]);
      } else if id in resolvedReports {
        text := Some(resolvedReports[id]);
      } else {
        text := None;
      }
    }

    method Get(id: string) returns (out: Result<Report, Error>)
      requires Valid()
      ensures out.Err? <==> id !in openReports && id !in resolvedReports
      ensures out.Err? ==> out.error == NoSuchReport
      ensures id in openReports ==> id in filed && out == Ok(Normalised(filed[id]))
      ensures id in resolvedReports ==> id in filed && id in notes && ReadsResolved(filed[id], notes[id], out.value)
    {
      var text := Find(id);
      if text.None? {
        return Err(NoSuchReport);
      }
      ReadsFiles(id);
      var report := ParseReport(Newlines(text.value));
      out := Ok(report.value);
    }

    lemma ReadsFiles(id: string)
      requires Valid()
      ensures id in openReports ==> id in filed && Parse(Newlines(openReports[id])) == Some(Normalised(filed[id]))
      ensures id in resolvedReports ==> id in filed && id in notes && Parse(Newlines(resolvedReports[id])).Some?
                                        && ReadsResolved(filed[id], notes[id], Parse(Newlines(resolvedReports[id])).value)
    {
      if id in openReports {
        ReadBack(filed[id]);
      } else if id in resolvedReports {
        ResolvedReads(filed[id], notes[id]);
      }
    }

    method ResolveReport(id: string, text: string, at: string) returns (out: Result<Report, Error>)
      requires Valid() && NoBreaks(at)
      modifies this`openReports, this`resolvedReports, this`notes
      ensures Valid()
      ensures out.Err? <==> AllSpace(text) || |Strip(text)| > 5000 || id !in old(openReports)
      ensures out.Err? ==> openReports == old(openReports) && resolvedReports == old(resolvedReports) && notes == old(notes)
      ensures out.Err? ==>
                out.error == if AllSpace(text) then EmptyResolution
                             else if |Strip(text)| > 5000 then ResolutionTooLong
                             else if id in resolvedReports then AlreadyResolved
                             else NoSuchReport
      ensures out.Ok? ==>
                id in filed
                && out.value == Normalised(filed[id]).(status := "resolved", resolution := Some("Resolved " + at + ".\n\n" + Strip(text)))
      ensures out.Ok? ==> openReports == old(openReports) - {id}
                          && resolvedReports == old(resolvedReports)[id := Render(out.value)]
                          && notes == old(notes)[id := ResolutionNote(at, Strip(text))]
    {
      var resolution := Strip(text);
      NothingLeft(text);
      if resolution == "" {
        out := Err(EmptyResolution);
      } else if |resolution| > MAXIMUM_RESOLUTION {
        out := Err(ResolutionTooLong);
      } else {
        StripIsStripped(text);
        out := Settle(id, resolution, at);
      }
    }

    // The part of `resolve` under the lock.
    method Settle(id: string, resolution: string, at: string) returns (out: Result<Report, Error>)
      requires Valid() && NoBreaks(at) && resolution != [] && Stripped(resolution)
      modifies this`openReports, this`resolvedReports, this`notes
      ensures Valid()
      ensures id !in old(openReports) ==>
                && out == Err(if id in old(resolvedReports) then AlreadyResolved else NoSuchReport)
                && openReports == old(openReports) && resolvedReports == old(resolvedReports) && notes == old(notes)
      ensures id in old(openReports) ==>
                && id in filed
                && out == Ok(Resolve(Normalised(filed[id]), ResolutionNote(at, resolution)))
                && openReports == old(openReports) - {id}
                && resolvedReports == old(resolvedReports)[id := Render(out.value)]
                && notes == old(notes)[id := ResolutionNote(at, resolution)]
    {
      var current := Get(id);
      if current.Err? {
        out := Err(NoSuchReport);
      } else if current.value.status != "open" {
        out := Err(AlreadyResolved);
      } else {
        var note := ResolutionNote(at, resolution);
        var resolved := Resolve(current.value, note);
        NoteIsStripped(at, resolution);
        var text := RenderReport(resolved);
        assert OpenFile(filed[id], id, openReports[id]);
        ResolvingKeeps(filed, notes, openReports, resolvedReports, id, note, text);
        Move(id, note, text);
        out := Ok(resolved);
      }
    }

    // The file under its new name, and the old one gone.
    method Move(id: string, note: string, text: string)
      modifies this`openReports, this`resolvedReports, this`notes
      ensures openReports == old(openReports) - {id} && notes == old(notes)[id := note]
      ensures resolvedReports == old(resolvedReports)[id := text]
    {
      resolvedReports := resolvedReports[id := text];
      openReports := openReports - {id};
      notes := notes[id := note];
    }
  }
}
