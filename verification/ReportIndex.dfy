/** The LLM report printer and the index parser that reads it back. */
module ReportIndex {
  import opened Common
  import opened Text

  datatype Report = Report(
    reportId: string, reportType: string, target: string, date: string, purpose: string, status: string,
    summary: seq<string>, completed: seq<string>, inProgress: seq<string>, issues: seq<string>, impact: string,
    userAction: string, nextActions: seq<string>, finalState: string, technicalReferences: seq<string>)

  datatype Index = Index(
    reportType: string, target: string, date: string, status: string, purpose: string, readWhen: seq<string>, summary: seq<string>)

  // ---- Printing ----

  /** A heading and the lines of its body; the body text is these lines joined by newlines. */
  datatype Section = Section(heading: string, lines: seq<string>)

  function Bullets(values: seq<string>): seq<string> {
    if values == [] then [] else ["- " + values[0]] + Bullets(values[1..])
  }

  /** `_lines` */
  function BulletLines(values: seq<string>): seq<string> {
    Bullets(if values == [] then ["Unknown"] else values)
  }

  function KeyLine(key: string, value: string): string {
    key + ": " + value
  }

  function ReadWhen(r: Report): string {
    "Read when reviewing " + r.target + " " + r.reportType + "."
  }

  function Sections(r: Report): seq<Section> {
    [Section("REPORT_META", [KeyLine("report_id", r.reportId), KeyLine("report_type", r.reportType), KeyLine("target", r.target), KeyLine("date", r.date), KeyLine("status", r.status)]),
     Section("PURPOSE", [r.purpose]),
     Section("READ_WHEN", [ReadWhen(r)]),
     Section("SUMMARY", BulletLines(r.summary)),
     Section("CURRENT_STATE", [KeyLine("status", r.status), KeyLine("impact", r.impact)]),
     Section("COMPLETED", BulletLines(r.completed)),
     Section("IN_PROGRESS", BulletLines(r.inProgress)),
     Section("ISSUES", BulletLines(r.issues)),
     Section("USER_ACTION", [r.userAction]),
     Section("NEXT", BulletLines(r.nextActions)),
     Section("FINAL_STATE", [r.finalState]),
     Section("TECHNICAL_REFERENCES", BulletLines(r.technicalReferences))]
  }

  function SectionText(s: Section): string {
    "## " + s.heading + "\n" + Joined(s.lines, false)
  }

  /** Sections separated by a blank line, with a final newline. */
  function RenderSections(secs: seq<Section>): string {
    if secs == [] then "\n"
    else if |secs| == 1 then SectionText(secs[0]) + "\n"
    else SectionText(secs[0]) + "\n\n" + RenderSections(secs[1..])
  }

  /** `render_llm_report` */
  function RenderLlm(r: Report): string {
    RenderSections(Sections(r))
  }

  // ---- Parsing ----

  /** The `_sections` loop from a given dictionary and current heading. */
  function Collect(lines: seq<string>, found: map<string, seq<string>>, current: Option<string>): map<string, seq<string>>
    requires current.Some? ==> current.value in found
    decreases |lines|
  {
    if lines == [] then found
    else if StartsWith(lines[0], "## ") then
      var heading := Strip(lines[0][3..]);
      Collect(lines[1..], found[heading := []], Some(heading))
    else if current.Some? then Collect(lines[1..], found[current.value := found[current.value] + [lines[0]]], current)
    else Collect(lines[1..], found, current)
  }

  function ColonAt(line: string): nat {
    if line == "" || line[0] == ':' then 0 else 1 + ColonAt(line[1..])
  }

  /** The metadata dictionary: the last line with a key wins. */
  function Meta(lines: seq<string>): map<string, string> {
    if lines == [] then map[]
    else
      var earlier, line := Meta(lines[..|lines| - 1]), lines[|lines| - 1];
      var n := ColonAt(line);
      if n < |line| then earlier[Strip(line[..n]) := Strip(line[n + 1..])] else earlier
  }

  function MetaField(meta: map<string, string>, key: string): string {
    if key in meta then meta[key] else ""
  }

  /** Non-empty stripped text of the "- " lines. */
  function BulletValues(lines: seq<string>): seq<string> {
    if lines == [] then []
    else if StartsWith(lines[0], "- ") && Strip(lines[0][2..]) != "" then [Strip(lines[0][2..])] + BulletValues(lines[1..])
    else BulletValues(lines[1..])
  }

  function NonEmptyLines(lines: seq<string>): seq<string> {
    if lines == [] then [] else if lines[0] == "" then NonEmptyLines(lines[1..]) else [lines[0]] + NonEmptyLines(lines[1..])
  }

  function StrippedLines(lines: seq<string>): seq<string> {
    if lines == [] then []
    else if Strip(lines[0]) == "" then StrippedLines(lines[1..]) else [Strip(lines[0])] + StrippedLines(lines[1..])
  }

  function IndexOf(found: map<string, seq<string>>): Option<Index> {
    if "REPORT_META" !in found || "PURPOSE" !in found || "READ_WHEN" !in found || "SUMMARY" !in found then None
    else
      var meta := Meta(found["REPORT_META"]);
      Some(Index(MetaField(meta, "report_type"), MetaField(meta, "target"), MetaField(meta, "date"), MetaField(meta, "status"),
                 Strip(Joined(NonEmptyLines(found["PURPOSE"]), false)), StrippedLines(found["READ_WHEN"]), BulletValues(found["SUMMARY"])))
  }

  /** `extract_report_index`; None where it raises. */
  function ExtractIndex(markdown: string): Option<Index> {
    IndexOf(Collect(SplitLines(markdown), map[], None))
  }

  /** `_sections` as the source loops. */
  method CollectSections(markdown: string) returns (found: map<string, seq<string>>)
    ensures found == Collect(SplitLines(markdown), map[], None)
  {
    hide SplitLines, Strip;
    var lines := SplitLines(markdown);
    found := map[];
    var current: Option<string> := None;
    var i := 0;
    while i < |lines|
      invariant 0 <= i <= |lines|
      invariant current.Some? ==> current.value in found
      invariant Collect(lines[i..], found, current) == Collect(lines, map[], None)
    {
      assert lines[i..][1..] == lines[i + 1..];
      if StartsWith(lines[i], "## ") {
        current := Some(Strip(lines[i][3..]));
        found := found[current.value := []];
      } else if current.Some? {
        found := found[current.value := found[current.value] + [lines[i]]];
      }
      i := i + 1;
    }
  }

  // ---- From printed text to lines ----

  lemma {:induction false} JoinedAppend(a: seq<string>, b: seq<string>, final: bool)
    requires a != [] && b != []
    ensures Joined(a + b, final) == Joined(a, false) + "\n" + Joined(b, final)
    decreases |a|
  {
    if |a| == 1 {
      assert (a + b)[1..] == b;
    } else {
      JoinedAppend(a[1..], b, final);
      assert (a + b)[1..] == a[1..] + b;
      assert Joined(a, false) == a[0] + "\n" + Joined(a[1..], false);
    }
  }

  /** The lines of a printed report: heading, body, and a blank line between sections. */
  function FlatLines(secs: seq<Section>): seq<string> {
    if secs == [] then []
    else ["## " + secs[0].heading] + secs[0].lines + if |secs| == 1 then [] else [""] + FlatLines(secs[1..])
  }

  lemma JoinedOne(line: string)
    ensures Joined([line], false) == line
  {}

  lemma {:induction false} SectionIsJoined(s: Section)
    requires s.lines != []
    ensures SectionText(s) == Joined(["## " + s.heading] + s.lines, false)
  {
    hide Joined;
    JoinedOne("## " + s.heading);
    JoinedAppend(["## " + s.heading], s.lines, false);
  }

  /** A printed report is its lines joined, with a final newline. */
  lemma {:induction false} RenderIsJoined(secs: seq<Section>)
    requires secs != [] && forall i :: 0 <= i < |secs| ==> secs[i].lines != []
    ensures RenderSections(secs) == Joined(FlatLines(secs), true)
    decreases |secs|
  {
    hide Joined, SectionText;
    var block := ["## " + secs[0].heading] + secs[0].lines;
    SectionIsJoined(secs[0]);
    if |secs| == 1 {
      JoinedFinal(block);
      assert FlatLines(secs) == block;
    } else {
      var rest := FlatLines(secs[1..]);
      RenderIsJoined(secs[1..]);
      BlankThen(block, rest);
      assert FlatLines(secs) == block + ([""] + rest);
    }
  }

  lemma {:induction false} BlankThen(block: seq<string>, rest: seq<string>)
    requires block != [] && rest != []
    ensures Joined(block + ([""] + rest), true) == Joined(block, false) + "\n\n" + Joined(rest, true)
  {
    hide Joined;
    JoinedOne("");
    JoinedAppend([""], rest, true);
    JoinedAppend(block, [""] + rest, true);
    assert Joined(block, false) + "\n" + ("" + "\n" + Joined(rest, true)) == Joined(block, false) + "\n\n" + Joined(rest, true);
  }

  lemma {:induction false} JoinedFinal(lines: seq<string>)
    requires lines != []
    ensures Joined(lines, true) == Joined(lines, false) + "\n"
    decreases |lines|
  {
    if |lines| > 1 {
      JoinedFinal(lines[1..]);
    }
  }

  // ---- From printed text to the lines the parser sees ----

  /** The sections with every line that holds breaks taken apart. */
  function Expanded(secs: seq<Section>): seq<Section> {
    if secs == [] then [] else [Section(secs[0].heading, PhysicalAll(secs[0].lines))] + Expanded(secs[1..])
  }

  lemma {:induction false} ExpandedAt(secs: seq<Section>)
    ensures |Expanded(secs)| == |secs|
    ensures forall i :: 0 <= i < |secs| ==> Expanded(secs)[i] == Section(secs[i].heading, PhysicalAll(secs[i].lines))
  {
    if secs != [] { ExpandedAt(secs[1..]); }
  }

  lemma {:induction false} HeadingPhysical(heading: string)
    requires SingleLine(heading)
    ensures Physical("## " + heading) == ["## " + heading] && Physical("") == [""]
  {
    PhysicalSingle("## " + heading);
    PhysicalSingle("");
  }

  lemma {:induction false} PhysicalCons(line: string, rest: seq<string>)
    ensures PhysicalAll([line] + rest) == Physical(line) + PhysicalAll(rest)
  {
    assert ([line] + rest)[1..] == rest;
  }

  /** Line by line, a printed report is its expanded sections. */
  lemma {:induction false} FlatPhysical(secs: seq<Section>)
    requires forall i :: 0 <= i < |secs| ==> SingleLine(secs[i].heading)
    ensures PhysicalAll(FlatLines(secs)) == FlatLines(Expanded(secs))
    decreases |secs|
  {
    hide Physical, PhysicalAll, SingleLine;
    if secs == [] {
      NothingPhysical();
    } else {
      var s, rest := secs[0], secs[1..];
      var tail := if |secs| == 1 then [] else [""] + FlatLines(rest);
      HeadingPhysical(s.heading);
      assert FlatLines(secs) == ["## " + s.heading] + (s.lines + tail);
      PhysicalCons("## " + s.heading, s.lines + tail);
      PhysicalAppend(s.lines, tail);
      FlatPhysical(rest);
      ExpandedAt(secs);
      NothingPhysical();
      PhysicalCons("", FlatLines(rest));
      assert Expanded(secs)[1..] == Expanded(rest);
    }
  }

  lemma NothingPhysical()
    ensures PhysicalAll([]) == []
  {}

  // ---- From lines to sections ----

  predicate Body(lines: seq<string>) {
    forall i :: 0 <= i < |lines| ==> !StartsWith(lines[i], "## ")
  }

  lemma {:induction false} CollectBody(body: seq<string>, rest: seq<string>, found: map<string, seq<string>>, heading: string)
    requires Body(body) && heading in found
    ensures Collect(body + rest, found, Some(heading)) == Collect(rest, found[heading := found[heading] + body], Some(heading))
    decreases |body|
  {
    hide Strip;
    if body == [] {
      assert body + rest == rest && found[heading] + body == found[heading];
      assert found[heading := found[heading]] == found;
    } else {
      var found' := found[heading := found[heading] + [body[0]]];
      assert (body + rest)[1..] == body[1..] + rest;
      assert (body + rest)[0] == body[0];
      CollectBody(body[1..], rest, found', heading);
      assert found'[heading] + body[1..] == found[heading] + body;
      assert found'[heading := found'[heading] + body[1..]] == found[heading := found[heading] + body];
    }
  }

  lemma {:induction false} CollectHeading(heading: string, rest: seq<string>, found: map<string, seq<string>>, current: Option<string>)
    requires Trimmed(heading) && (current.Some? ==> current.value in found)
    ensures Collect(["## " + heading] + rest, found, current) == Collect(rest, found[heading := []], Some(heading))
  {
    StripTrims(heading);
    var line := "## " + heading;
    assert line[..3] == "## " && line[3..] == heading;
    assert ([line] + rest)[1..] == rest;
  }

  /** Collecting one printed section. */
  lemma {:induction false} CollectSection(s: Section, tail: seq<string>, rest: seq<string>, found: map<string, seq<string>>, current: Option<string>)
    requires Trimmed(s.heading) && Body(s.lines + tail) && (current.Some? ==> current.value in found)
    ensures Collect(["## " + s.heading] + (s.lines + tail) + rest, found, current) == Collect(rest, found[s.heading := s.lines + tail], Some(s.heading))
  {
    hide Collect;
    var body := s.lines + tail;
    assert ["## " + s.heading] + body + rest == ["## " + s.heading] + (body + rest);
    CollectHeading(s.heading, body + rest, found, current);
    CollectBody(body, rest, found[s.heading := []], s.heading);
    assert [] + body == body;
    assert found[s.heading := []][s.heading := body] == found[s.heading := body];
  }

  /** Sections in front of others: each is followed by a blank line. */
  function FlatClosed(secs: seq<Section>): seq<string> {
    if secs == [] then [] else ["## " + secs[0].heading] + (secs[0].lines + [""]) + FlatClosed(secs[1..])
  }

  lemma Regroup<T>(a: seq<T>, b: seq<T>, c: seq<T>, d: seq<T>, e: seq<T>)
    ensures a + b + (c + (d + e)) == a + (b + c) + d + e
  {}

  lemma {:induction false} FlatCons(s: Section, rest: seq<Section>)
    ensures rest != [] ==> FlatLines([s] + rest) == ["## " + s.heading] + s.lines + ([""] + FlatLines(rest))
    ensures FlatClosed([s] + rest) == ["## " + s.heading] + (s.lines + [""]) + FlatClosed(rest)
  {
    assert ([s] + rest)[1..] == rest;
  }

  lemma {:induction false} FlatAppend(a: seq<Section>, b: seq<Section>)
    requires b != []
    ensures FlatLines(a + b) == FlatClosed(a) + FlatLines(b)
  {
    if a == [] {
      assert a + b == b;
      assert FlatClosed(a) + FlatLines(b) == FlatLines(b);
    } else {
      hide FlatLines, FlatClosed;
      FlatAppend(a[1..], b);
      assert a + b == [a[0]] + (a[1..] + b) && a == [a[0]] + a[1..];
      FlatCons(a[0], a[1..] + b);
      FlatCons(a[0], a[1..]);
      Regroup(["## " + a[0].heading], a[0].lines, [""], FlatClosed(a[1..]), FlatLines(b));
    }
  }

  /** The dictionary after these sections: each heading holds its lines and the blank line behind them. */
  function Filed(secs: seq<Section>, found: map<string, seq<string>>): map<string, seq<string>>
    decreases |secs|
  {
    if secs == [] then found else Filed(secs[1..], found[secs[0].heading := secs[0].lines + [""]])
  }

  function Latest(secs: seq<Section>, current: Option<string>): Option<string> {
    if secs == [] then current else Some(secs[|secs| - 1].heading)
  }

  lemma {:induction false} FiledKeeps(secs: seq<Section>, found: map<string, seq<string>>)
    ensures forall k :: k in found ==> k in Filed(secs, found)
    ensures secs != [] ==> secs[|secs| - 1].heading in Filed(secs, found)
    decreases |secs|
  {
    if secs != [] { FiledKeeps(secs[1..], found[secs[0].heading := secs[0].lines + [""]]); }
  }

  /** The parser files every printed section under its heading and goes on behind them. */
  lemma {:induction false} CollectRecovers(secs: seq<Section>, rest: seq<string>, found: map<string, seq<string>>, current: Option<string>)
    requires forall i :: 0 <= i < |secs| ==> Trimmed(secs[i].heading) && Body(secs[i].lines)
    requires current.Some? ==> current.value in found
    ensures Latest(secs, current).Some? ==> Latest(secs, current).value in Filed(secs, found)
    ensures Collect(FlatClosed(secs) + rest, found, current) == Collect(rest, Filed(secs, found), Latest(secs, current))
    decreases |secs|
  {
    hide Collect, Trimmed;
    FiledKeeps(secs, found);
    if secs == [] {
      assert FlatClosed(secs) + rest == rest;
    } else {
      var s, more := secs[0], FlatClosed(secs[1..]) + rest;
      assert Body(s.lines + [""]);
      assert FlatClosed(secs) + rest == ["## " + s.heading] + (s.lines + [""]) + more;
      CollectSection(s, [""], more, found, current);
      CollectRecovers(secs[1..], rest, found[s.heading := s.lines + [""]], Some(s.heading));
    }
  }

  predicate Indexed(heading: string) {
    heading == "REPORT_META" || heading == "PURPOSE" || heading == "READ_WHEN" || heading == "SUMMARY"
  }

  /** No line opens a section that the index reads. */
  predicate Quiet(lines: seq<string>) {
    forall i :: 0 <= i < |lines| && StartsWith(lines[i], "## ") ==> !Indexed(Strip(lines[i][3..]))
  }

  /** Quiet lines leave every indexed section alone that is not the current one. */
  lemma {:induction false} CollectKeeps(lines: seq<string>, found: map<string, seq<string>>, current: Option<string>, key: string)
    requires Quiet(lines) && Indexed(key) && key in found && current != Some(key)
    requires current.Some? ==> current.value in found
    ensures var out := Collect(lines, found, current); key in out && out[key] == found[key]
    decreases |lines|
  {
    hide Strip, StartsWith, Indexed;
    if lines != [] {
      var rest := lines[1..];
      assert forall i :: 0 <= i < |rest| ==> rest[i] == lines[i + 1];
      if StartsWith(lines[0], "## ") {
        LongEnough(lines[0]);
        var heading := Strip(lines[0][3..]);
        CollectKeeps(rest, found[heading := []], Some(heading), key);
      } else if current.Some? {
        CollectKeeps(rest, found[current.value := found[current.value] + [lines[0]]], current, key);
      } else {
        CollectKeeps(rest, found, current, key);
      }
    }
  }

  lemma LongEnough(line: string)
    requires StartsWith(line, "## ")
    ensures |line| >= 3
  {}

  lemma {:induction false} QuietHeading(heading: string)
    requires Trimmed(heading) && !Indexed(heading)
    ensures Quiet(["## " + heading]) && Quiet([""])
  {
    var line := "## " + heading;
    StripTrims(heading);
    assert line[3..] == heading;
  }

  lemma QuietAppend(a: seq<string>, b: seq<string>)
    requires Quiet(a) && Quiet(b)
    ensures Quiet(a + b)
  {}

  lemma {:induction false} FlatQuiet(secs: seq<Section>)
    requires forall i :: 0 <= i < |secs| ==> Trimmed(secs[i].heading) && !Indexed(secs[i].heading) && Quiet(secs[i].lines)
    ensures Quiet(FlatLines(secs))
    decreases |secs|
  {
    if secs != [] {
      hide Quiet, Trimmed, Indexed;
      FlatQuiet(secs[1..]);
      QuietHeading(secs[0].heading);
      QuietAppend(["## " + secs[0].heading], secs[0].lines);
      QuietAppend([""], FlatLines(secs[1..]));
      if |secs| > 1 {
        QuietAppend(["## " + secs[0].heading] + secs[0].lines, [""] + FlatLines(secs[1..]));
      } else {
        assert FlatLines(secs) == ["## " + secs[0].heading] + secs[0].lines;
      }
    }
  }

  // ---- The sections of a report ----

  lemma TwelveSections(r: Report)
    ensures |Sections(r)| == 12
    ensures Sections(r)[0].heading == "REPORT_META" && Sections(r)[1] == Section("PURPOSE", [r.purpose])
    ensures Sections(r)[0].lines == [KeyLine("report_id", r.reportId), KeyLine("report_type", r.reportType), KeyLine("target", r.target), KeyLine("date", r.date), KeyLine("status", r.status)]
    ensures Sections(r)[2] == Section("READ_WHEN", [ReadWhen(r)]) && Sections(r)[3] == Section("SUMMARY", BulletLines(r.summary))
    ensures Sections(r)[4].heading == "CURRENT_STATE"
  {}

  predicate Plain(heading: string) {
    Trimmed(heading) && SingleLine(heading)
  }

  lemma IndexedHeadingsPlain()
    ensures Plain("REPORT_META") && Plain("PURPOSE") && Plain("READ_WHEN") && Plain("SUMMARY")
  {}

  lemma StateHeadingsPlain()
    ensures Plain("CURRENT_STATE") && Plain("COMPLETED") && Plain("IN_PROGRESS") && Plain("ISSUES")
  {}

  lemma OutcomeHeadingsPlain()
    ensures Plain("USER_ACTION") && Plain("NEXT") && Plain("FINAL_STATE") && Plain("TECHNICAL_REFERENCES")
  {}

  lemma {:induction false} HeadingsPlain(r: Report)
    ensures forall i :: 0 <= i < |Sections(r)| ==> Plain(Sections(r)[i].heading)
  {
    hide BulletLines, ReadWhen, KeyLine, Plain;
    IndexedHeadingsPlain();
    StateHeadingsPlain();
    OutcomeHeadingsPlain();
  }

  lemma {:induction false} BulletsNotEmpty(values: seq<string>)
    ensures BulletLines(values) != []
  {}

  lemma {:induction false} LinesNotEmpty(r: Report)
    ensures forall i :: 0 <= i < |Sections(r)| ==> Sections(r)[i].lines != []
  {
    hide BulletLines, ReadWhen, KeyLine;
    BulletsNotEmpty(r.summary);
    BulletsNotEmpty(r.completed);
    BulletsNotEmpty(r.inProgress);
    BulletsNotEmpty(r.issues);
    BulletsNotEmpty(r.nextActions);
    BulletsNotEmpty(r.technicalReferences);
  }

  lemma {:induction false} LaterNotIndexed(r: Report)
    ensures forall i :: 4 <= i < |Sections(r)| ==> !Indexed(Sections(r)[i].heading)
  {
    hide BulletLines, ReadWhen, KeyLine;
    var keys := seq(|Sections(r)|, i requires 0 <= i < |Sections(r)| && Sections(r)[i].heading != "" => (|Sections(r)[i].heading|, Sections(r)[i].heading[0]));
    assert keys == [(11, 'R'), (7, 'P'), (9, 'R'), (7, 'S'), (13, 'C'), (9, 'C'), (11, 'I'), (6, 'I'), (11, 'U'), (4, 'N'), (11, 'F'), (20, 'T')];
    forall i | 4 <= i < |Sections(r)|
      ensures !Indexed(Sections(r)[i].heading)
    {
      assert keys[i] == (|Sections(r)[i].heading|, Sections(r)[i].heading[0]);
    }
  }

  /**
   The headings of the printed report can be told from its contents: no line of an indexed section
   looks like a heading, and no line of a later section looks like the heading of an indexed one.
   Fields may hold any other line breaks.
   */
  predicate IndexSafe(r: Report) {
    && (forall i :: 0 <= i < 4 ==> Body(PhysicalAll(Sections(r)[i].lines)))
    && (forall i :: 4 <= i < 12 ==> Quiet(PhysicalAll(Sections(r)[i].lines)))
  }

  /** The dictionary entries behind the first four sections. */
  lemma {:induction false} FiledFour(a: Section, b: Section, c: Section, d: Section)
    requires a.heading == "REPORT_META" && b.heading == "PURPOSE" && c.heading == "READ_WHEN" && d.heading == "SUMMARY"
    ensures var found := Filed([a, b, c, d], map[]);
            && "REPORT_META" in found && "PURPOSE" in found && "READ_WHEN" in found && "SUMMARY" in found
            && found["REPORT_META"] == a.lines + [""] && found["PURPOSE"] == b.lines + [""]
            && found["READ_WHEN"] == c.lines + [""] && found["SUMMARY"] == d.lines + [""]
  {
    IndexedDiffer();
    assert [a, b, c, d][1..] == [b, c, d] && [b, c, d][1..] == [c, d] && [c, d][1..] == [d] && [d][1..] == [];
    var f1 := map[a.heading := a.lines + [""]];
    var f2 := f1[b.heading := b.lines + [""]];
    var f3 := f2[c.heading := c.lines + [""]];
    var f4 := f3[d.heading := d.lines + [""]];
    assert Filed([d], f3) == Filed([], f4) == f4;
    assert Filed([c, d], f2) == f4;
    assert Filed([b, c, d], f1) == f4;
  }

  lemma IndexedDiffer()
    ensures "REPORT_META" != "PURPOSE" && "REPORT_META" != "READ_WHEN" && "REPORT_META" != "SUMMARY"
    ensures "PURPOSE" != "READ_WHEN" && "PURPOSE" != "SUMMARY" && "READ_WHEN" != "SUMMARY"
  {
    assert |"REPORT_META"| == 11 && |"PURPOSE"| == 7 && |"READ_WHEN"| == 9 && |"SUMMARY"| == 7;
    assert "PURPOSE"[0] == 'P' && "SUMMARY"[0] == 'S';
  }

  /** The lines of the whole report: four indexed sections, then the lines of the others. */
  lemma {:induction false} RenderedLines(r: Report)
    ensures |Expanded(Sections(r))| == 12
    ensures SplitLines(RenderLlm(r)) == FlatClosed(Expanded(Sections(r))[..4]) + FlatLines(Expanded(Sections(r))[4..])
  {
    hide Sections, Expanded, FlatClosed, Joined, SplitLines, SingleLine, Trimmed, PhysicalAll, RenderSections;
    var secs := Sections(r);
    LinesNotEmpty(r);
    HeadingsPlain(r);
    TwelveSections(r);
    RenderIsJoined(secs);
    assert FlatLines(secs) != [];
    SplitJoinedPhysical(FlatLines(secs));
    FlatPhysical(secs);
    ExpandedAt(secs);
    var all := Expanded(secs);
    assert all[..4] + all[4..] == all;
    FlatAppend(all[..4], all[4..]);
  }

  /** Behind a first line that is a heading, quiet lines keep all four sections. */
  lemma {:induction false} LaterSectionsKeep(secs: seq<Section>, found: map<string, seq<string>>, current: Option<string>, key: string)
    requires secs != [] && Indexed(key) && key in found && (current.Some? ==> current.value in found)
    requires forall i :: 0 <= i < |secs| ==> Trimmed(secs[i].heading) && !Indexed(secs[i].heading) && Quiet(secs[i].lines)
    ensures var out := Collect(FlatLines(secs), found, current); key in out && out[key] == found[key]
  {
    hide Collect, Trimmed, Quiet, Indexed;
    FlatQuiet(secs);
    var rest := FlatLines(secs)[1..];
    assert FlatLines(secs) == ["## " + secs[0].heading] + rest;
    CollectHeading(secs[0].heading, rest, found, current);
    QuietTail(FlatLines(secs));
    CollectKeeps(rest, found[secs[0].heading := []], Some(secs[0].heading), key);
  }

  lemma QuietTail(lines: seq<string>)
    requires Quiet(lines) && lines != []
    ensures Quiet(lines[1..])
  {}

  /** What the parser holds for the four indexed sections of a report whose headings can be told apart. */
  lemma {:induction false} SectionsRead(r: Report)
    requires IndexSafe(r)
    ensures var found := Collect(SplitLines(RenderLlm(r)), map[], None);
            && "REPORT_META" in found && found["REPORT_META"] == PhysicalAll(Sections(r)[0].lines) + [""]
            && "PURPOSE" in found && found["PURPOSE"] == PhysicalAll([r.purpose]) + [""]
            && "READ_WHEN" in found && found["READ_WHEN"] == PhysicalAll([ReadWhen(r)]) + [""]
            && "SUMMARY" in found && found["SUMMARY"] == PhysicalAll(BulletLines(r.summary)) + [""]
  {
    hide Sections, Expanded, FlatLines, FlatClosed, Collect, SplitLines, RenderLlm, Trimmed, Quiet, Body, PhysicalAll, ReadWhen, BulletLines, Filed, SingleLine;
    var secs := Sections(r);
    var all := Expanded(secs);
    TwelveSections(r);
    ExpandedAt(secs);
    HeadingsPlain(r);
    LaterNotIndexed(r);
    RenderedLines(r);
    var first, later := all[..4], all[4..];
    CollectRecovers(first, FlatLines(later), map[], None);
    assert first == [all[0], all[1], all[2], all[3]];
    FiledFour(all[0], all[1], all[2], all[3]);
    var found := Filed(first, map[]);
    forall key | Indexed(key)
      ensures var out := Collect(SplitLines(RenderLlm(r)), map[], None); key in out && out[key] == found[key]
    {
      assert key in found;
      LaterSectionsKeep(later, found, Latest(first, None), key);
    }
    assert Indexed("REPORT_META") && Indexed("PURPOSE") && Indexed("READ_WHEN") && Indexed("SUMMARY");
  }

  // ---- Reading the recovered sections ----

  lemma {:induction false} BulletReadsBack(value: string, rest: seq<string>)
    requires Trimmed(value) && value != ""
    ensures BulletValues(["- " + value] + rest) == [value] + BulletValues(rest)
  {
    var line := "- " + value;
    StripTrims(value);
    assert line[..2] == "- " && line[2..] == value;
    assert ([line] + rest)[1..] == rest;
  }

  /** Single-line values print as bullets and read back, as long as each is trimmed and not empty. */
  lemma {:induction false} BulletsReadBack(values: seq<string>, tail: seq<string>)
    requires forall i :: 0 <= i < |values| ==> Trimmed(values[i]) && values[i] != ""
    ensures BulletValues(Bullets(values) + tail) == values + BulletValues(tail)
    decreases |values|
  {
    hide Strip, Trimmed, BulletValues;
    if values == [] {
      assert Bullets(values) + tail == tail && values + BulletValues(tail) == BulletValues(tail);
    } else {
      var more := values[1..];
      BulletReadsBack(values[0], Bullets(more) + tail);
      AppendAssociates(["- " + values[0]], Bullets(more), tail);
      BulletsReadBack(more, tail);
      AppendAssociates([values[0]], more, BulletValues(tail));
      assert values == [values[0]] + more;
    }
  }

  lemma {:induction false} ColonAfter(key: string, value: string)
    requires forall i :: 0 <= i < |key| ==> key[i] != ':'
    ensures ColonAt(key + ":" + value) == |key|
    decreases |key|
  {
    if key != "" {
      assert (key + ":" + value)[1..] == key[1..] + ":" + value;
      ColonAfter(key[1..], value);
    }
  }

  /** One "key: value" line enters the metadata under its key. */
  lemma {:induction false} MetaLine(lines: seq<string>, key: string, value: string)
    requires forall i :: 0 <= i < |key| ==> key[i] != ':'
    requires Trimmed(key)
    ensures Meta(lines + [KeyLine(key, value)]) == Meta(lines)[key := Strip(" " + value)]
  {
    hide Strip;
    var line := KeyLine(key, value);
    assert line == key + ":" + (" " + value);
    ColonAfter(key, " " + value);
    assert line[..|key|] == key && line[|key| + 1..] == " " + value;
    StripTrims(key);
    assert (lines + [line])[..|lines|] == lines;
  }

  lemma {:induction false} MetaBlank(lines: seq<string>)
    ensures Meta(lines + [""]) == Meta(lines)
  {
    assert (lines + [""])[..|lines|] == lines;
  }

  lemma {:induction false} MetaReadsBack(r: Report, id: seq<string>, lines: seq<string>)
    requires Trimmed(r.reportType) && Trimmed(r.target) && Trimmed(r.date) && Trimmed(r.status)
    requires lines == id + [KeyLine("report_type", r.reportType), KeyLine("target", r.target), KeyLine("date", r.date), KeyLine("status", r.status), ""]
    ensures var meta := Meta(lines);
            && MetaField(meta, "report_type") == r.reportType && MetaField(meta, "target") == r.target
            && MetaField(meta, "date") == r.date && MetaField(meta, "status") == r.status
  {
    hide Strip, Meta;
    var n := |id|;
    MetaLine(lines[..n], "report_type", r.reportType);
    MetaLine(lines[..n + 1], "target", r.target);
    MetaLine(lines[..n + 2], "date", r.date);
    MetaLine(lines[..n + 3], "status", r.status);
    MetaBlank(lines[..n + 4]);
    assert lines[..n] + [KeyLine("report_type", r.reportType)] == lines[..n + 1];
    assert lines[..n + 1] + [KeyLine("target", r.target)] == lines[..n + 2];
    assert lines[..n + 2] + [KeyLine("date", r.date)] == lines[..n + 3];
    assert lines[..n + 3] + [KeyLine("status", r.status)] == lines[..n + 4];
    assert lines[..n + 4] + [""] == lines;
    StripLeadingBlank(r.reportType);
    StripLeadingBlank(r.target);
    StripLeadingBlank(r.date);
    StripLeadingBlank(r.status);
    assert "target"[0] != "status"[0];
  }

  /** A value that is one line without outer white space. */
  predicate Field(value: string) {
    SingleLine(value) && Trimmed(value)
  }

  /** Every value the metadata can hold is such a field. */
  lemma {:induction false} MetaValuesAreFields(lines: seq<string>, key: string)
    requires forall i :: 0 <= i < |lines| ==> SingleLine(lines[i])
    ensures Field(MetaField(Meta(lines), key))
    decreases |lines|
  {
    hide Strip, Trimmed, SingleLine;
    if lines == [] {
      EmptyField();
    } else {
      var init, line := lines[..|lines| - 1], lines[|lines| - 1];
      MetaValuesAreFields(init, key);
      var n := ColonAt(line);
      if n < |line| {
        SliceSingle(line, n + 1);
        FieldOf(line[n + 1..]);
      }
    }
  }

  lemma EmptyField()
    ensures Field("")
  {}

  lemma SliceSingle(line: string, n: nat)
    requires SingleLine(line) && n <= |line|
    ensures SingleLine(line[n..])
  {}

  lemma {:induction false} FieldOf(line: string)
    requires SingleLine(line)
    ensures Field(Strip(line)) && SingleLine("")
  {
    StripTrims(line);
    var i, j := StripIsSlice(line);
  }

  /** The summary values read from any lines are fields, and not empty. */
  lemma {:induction false} BulletValuesAreFields(lines: seq<string>)
    requires forall i :: 0 <= i < |lines| ==> SingleLine(lines[i])
    ensures forall i :: 0 <= i < |BulletValues(lines)| ==> Field(BulletValues(lines)[i]) && BulletValues(lines)[i] != ""
    decreases |lines|
  {
    hide Strip, Field, SingleLine;
    if lines != [] {
      BulletValuesAreFields(lines[1..]);
      if |lines[0]| >= 2 {
        SliceSingle(lines[0], 2);
        FieldOf(lines[0][2..]);
      }
    }
  }

  lemma BlankHasNoBullet()
    ensures BulletValues([""]) == []
  {}

  lemma UnknownIsTidy()
    ensures Trimmed("Unknown") && "Unknown" != ""
  {}

  // ---- The purpose, which may span lines ----

  /** Breaks are newlines, and no line between two of them is empty. */
  predicate NoBlankLine(s: string) {
    forall i :: 0 <= i < |s| && IsBreak(s[i]) ==> s[i] == '\n' && (i + 1 < |s| ==> s[i + 1] != '\n')
  }

  /** Text that the index gives back unchanged as a purpose. */
  predicate Stanza(purpose: string) {
    Trimmed(purpose) && NoBlankLine(purpose)
  }

  function PurposeRead(purpose: string): string {
    Strip(Joined(NonEmptyLines(Physical(purpose) + [""]), false))
  }

  lemma {:induction false} NonEmptyAppend(a: seq<string>, b: seq<string>)
    ensures NonEmptyLines(a + b) == NonEmptyLines(a) + NonEmptyLines(b)
  {
    if a == [] {
      assert a + b == b;
    } else {
      NonEmptyAppend(a[1..], b);
      assert (a + b)[1..] == a[1..] + b && (a + b)[0] == a[0];
      AppendAssociates([a[0]], NonEmptyLines(a[1..]), NonEmptyLines(b));
    }
  }

  lemma {:induction false} NonEmptyMembers(lines: seq<string>)
    requires forall i :: 0 <= i < |lines| ==> SingleLine(lines[i])
    ensures forall i :: 0 <= i < |NonEmptyLines(lines)| ==> SingleLine(NonEmptyLines(lines)[i]) && NonEmptyLines(lines)[i] != ""
  {
    hide SingleLine;
    if lines != [] { NonEmptyMembers(lines[1..]); }
  }

  lemma {:induction false} JoinedNoBlank(lines: seq<string>)
    requires forall i :: 0 <= i < |lines| ==> SingleLine(lines[i]) && lines[i] != ""
    ensures NoBlankLine(Joined(lines, false))
    ensures lines != [] ==> Joined(lines, false) != "" && !IsBreak(Joined(lines, false)[0])
    decreases |lines|
  {
    if |lines| > 1 {
      JoinedNoBlank(lines[1..]);
      var rest, all := Joined(lines[1..], false), Joined(lines, false);
      assert all == lines[0] + "\n" + rest;
      var n := |lines[0]|;
      assert forall i :: 0 <= i < n ==> all[i] == lines[0][i];
      forall i | 0 <= i < |all| && IsBreak(all[i])
        ensures all[i] == '\n' && (i + 1 < |all| ==> all[i + 1] != '\n')
      {
        assert i >= n;
        if i > n {
          assert all[i] == rest[i - n - 1];
          if i + 1 < |all| { assert all[i + 1] == rest[i - n]; }
        } else {
          assert all[n] == '\n' && all[n + 1] == rest[0];
        }
      }
    } else if |lines| == 1 {
      assert Joined(lines, false) == lines[0];
    }
  }

  /** A stanza is its own physical lines, none of them empty. */
  lemma {:induction false} StanzaLines(p: string)
    requires p != "" && NoBlankLine(p) && !IsBreak(p[0]) && !IsBreak(p[|p| - 1])
    ensures NonEmptyLines(Physical(p)) == Physical(p) && Physical(p) != [] && Joined(Physical(p), false) == p
    decreases |p|
  {
    var n := LineEnd(p);
    if n == |p| {
      PhysicalSingle(p);
      assert [p][1..] == [];
    } else {
      var line, next := p[..n], p[n + 1..];
      assert p == line + "\n" + next;
      assert next[0] == p[n + 1] && next[|next| - 1] == p[|p| - 1];
      assert NoBlankLine(next) by { assert forall i :: 0 <= i < |next| ==> next[i] == p[n + 1 + i]; }
      StanzaLines(next);
      StanzaCons(line, next);
    }
  }

  lemma {:induction false} StanzaCons(line: string, next: string)
    requires SingleLine(line) && line != ""
    requires NonEmptyLines(Physical(next)) == Physical(next) && Physical(next) != [] && Joined(Physical(next), false) == next
    ensures var p := line + "\n" + next; NonEmptyLines(Physical(p)) == Physical(p) && Joined(Physical(p), false) == p && Physical(p) != []
  {
    hide SplitLines, SingleLine;
    var p := line + "\n" + next;
    assert p + "\n" == line + "\n" + (next + "\n");
    SplitFirst(line, next + "\n");
    assert Physical(p) == [line] + Physical(next);
    assert ([line] + Physical(next))[1..] == Physical(next);
  }

  /** The index gives a purpose back unchanged if and only if it is trimmed and has no empty line or foreign break. */
  lemma {:induction false} PurposeExactly(p: string)
    ensures PurposeRead(p) == p <==> Stanza(p)
  {
    var lines := Physical(p);
    NonEmptyAppend(lines, [""]);
    assert NonEmptyLines([""]) == [] by { assert [""][1..] == []; }
    assert NonEmptyLines(lines + [""]) == NonEmptyLines(lines);
    if Stanza(p) {
      if p == "" {
        PhysicalSingle("");
        assert [""][1..] == [];
      } else {
        SpaceAtBreaks(p);
        StanzaLines(p);
      }
      StripTrims(p);
    }
    if PurposeRead(p) == p {
      PurposeIsStanza(lines);
    }
  }

  lemma SpaceAtBreaks(p: string)
    requires p != "" && Trimmed(p)
    ensures !IsBreak(p[0]) && !IsBreak(p[|p| - 1])
  {}

  lemma {:induction false} PurposeIsStanza(lines: seq<string>)
    requires forall i :: 0 <= i < |lines| ==> SingleLine(lines[i])
    ensures Stanza(Strip(Joined(NonEmptyLines(lines), false)))
  {
    hide Strip, Joined, NonEmptyLines, SingleLine, Trimmed, NoBlankLine;
    NonEmptyMembers(lines);
    JoinedNoBlank(NonEmptyLines(lines));
    var text := Joined(NonEmptyLines(lines), false);
    StripTrims(text);
    var i, j := StripIsSlice(text);
    NoBlankSlice(text, i, j);
  }

  lemma {:induction false} NoBlankSlice(text: string, i: nat, j: nat)
    requires NoBlankLine(text) && i <= j <= |text|
    ensures NoBlankLine(text[i..j])
  {
    assert forall k :: 0 <= k < j - i ==> text[i..j][k] == text[i + k];
  }

  // ---- The round trip ----

  function IndexFor(r: Report): Index {
    Index(r.reportType, r.target, r.date, r.status, r.purpose, [ReadWhen(r)], r.summary)
  }

  /** The indexed fields are single trimmed lines, the purpose a stanza, and there is a summary of non-empty items. */
  predicate Recoverable(r: Report) {
    && Field(r.reportType) && Field(r.target) && Field(r.date) && Field(r.status) && Stanza(r.purpose)
    && r.summary != [] && forall i :: 0 <= i < |r.summary| ==> Field(r.summary[i]) && r.summary[i] != ""
  }

  lemma {:induction false} ReadWhenReadsBack(r: Report)
    requires SingleLine(r.target) && SingleLine(r.reportType)
    ensures StrippedLines(PhysicalAll([ReadWhen(r)]) + [""]) == [ReadWhen(r)]
  {
    var line := ReadWhen(r);
    assert line[0] == 'R' && line[|line| - 1] == '.';
    StripTrims(line);
    StripTrims("");
    PhysicalAllSingle([line]);
    var lines := [line, ""];
    assert lines == [line] + [""];
    assert lines[1..] == [""] && lines[1..][1..] == [];
    assert StrippedLines(lines[1..]) == [];
  }

  lemma {:induction false} MetaRecovered(r: Report)
    requires Field(r.reportType) && Field(r.target) && Field(r.date) && Field(r.status)
    ensures var meta := Meta(PhysicalAll(Sections(r)[0].lines) + [""]);
            && MetaField(meta, "report_type") == r.reportType && MetaField(meta, "target") == r.target
            && MetaField(meta, "date") == r.date && MetaField(meta, "status") == r.status
  {
    hide Meta, Physical, PhysicalAll, Sections, Trimmed;
    TwelveSections(r);
    var id := KeyLine("report_id", r.reportId);
    var rest := [KeyLine("report_type", r.reportType), KeyLine("target", r.target), KeyLine("date", r.date), KeyLine("status", r.status)];
    assert Sections(r)[0].lines == [id] + rest;
    PhysicalCons(id, rest);
    KeyLineSingle("report_type", r.reportType);
    KeyLineSingle("target", r.target);
    KeyLineSingle("date", r.date);
    KeyLineSingle("status", r.status);
    hide SingleLine, KeyLine;
    PhysicalAllSingle(rest);
    MetaReadsBack(r, Physical(id), Physical(id) + rest + [""]);
  }

  lemma KeyLineSingle(key: string, value: string)
    requires SingleLine(key) && SingleLine(value)
    ensures SingleLine(KeyLine(key, value))
  {}

  lemma {:induction false} SummaryRecovered(summary: seq<string>)
    requires summary != [] && forall i :: 0 <= i < |summary| ==> Field(summary[i]) && summary[i] != ""
    ensures BulletValues(PhysicalAll(BulletLines(summary)) + [""]) == summary
  {
    BulletsInert(summary);
    hide Strip, Trimmed, SingleLine, BulletValues;
    PhysicalAllSingle(BulletLines(summary));
    BulletsReadBack(summary, [""]);
    BlankHasNoBullet();
    assert summary + [] == summary;
  }

  lemma {:induction false} UnknownRecovered()
    ensures BulletValues(PhysicalAll(BulletLines([])) + [""]) == ["Unknown"]
  {
    UnknownIsTidy();
    BulletInert("");
    hide Strip, Trimmed, SingleLine, BulletValues, Inert;
    SummaryRecovered(["Unknown"]);
  }

  lemma {:induction false} LinesWithBlank(lines: seq<string>)
    ensures forall i :: 0 <= i < |PhysicalAll(lines) + [""]| ==> SingleLine((PhysicalAll(lines) + [""])[i])
  {
    PhysicalLinesSingle(lines);
  }

  /**
   Round trip, for every report whose headings can be told from its contents, line breaks in any
   field included: the index read from the printed report has its type, target, date, status,
   purpose, read-when line and whole summary if and only if the report is recoverable.
   */
  lemma {:induction false} RoundTripExactly(r: Report)
    requires IndexSafe(r)
    ensures ExtractIndex(RenderLlm(r)).Some?
    ensures ExtractIndex(RenderLlm(r)) == Some(IndexFor(r)) <==> Recoverable(r)
  {
    hide Collect, SplitLines, RenderLlm, Sections, Strip, Trimmed, IndexSafe, ReadWhen, Meta, MetaField, BulletValues, StrippedLines, NonEmptyLines,
      Joined, Physical, PhysicalAll, BulletLines, Field, Stanza;
    TwelveSections(r);
    SectionsRead(r);
    PurposeExactly(r.purpose);
    PhysicalOne(r.purpose);
    var index := ExtractIndex(RenderLlm(r)).value;
    if index == IndexFor(r) {
      LinesWithBlank(Sections(r)[0].lines);
      MetaValuesAreFields(PhysicalAll(Sections(r)[0].lines) + [""], "report_type");
      MetaValuesAreFields(PhysicalAll(Sections(r)[0].lines) + [""], "target");
      MetaValuesAreFields(PhysicalAll(Sections(r)[0].lines) + [""], "date");
      MetaValuesAreFields(PhysicalAll(Sections(r)[0].lines) + [""], "status");
      LinesWithBlank(BulletLines(r.summary));
      BulletValuesAreFields(PhysicalAll(BulletLines(r.summary)) + [""]);
      UnknownRecovered();
    }
    if Recoverable(r) {
      MetaRecovered(r);
      FieldIsSingle(r.target);
      FieldIsSingle(r.reportType);
      ReadWhenReadsBack(r);
      SummaryRecovered(r.summary);
    }
  }

  lemma FieldIsSingle(value: string)
    requires Field(value)
    ensures SingleLine(value)
  {}

  lemma {:induction false} PhysicalOne(s: string)
    ensures PhysicalAll([s]) == Physical(s)
  {
    assert [s][1..] == [];
    assert Physical(s) + [] == Physical(s);
  }

  // ---- Reports whose fields are single lines ----

  predicate SingleLines(values: seq<string>) {
    forall i :: 0 <= i < |values| ==> SingleLine(values[i])
  }

  /** Every printed field is one line, and no free-standing field looks like a heading. */
  predicate Printable(r: Report) {
    && SingleLine(r.reportId) && SingleLine(r.reportType) && SingleLine(r.target) && SingleLine(r.date) && SingleLine(r.status)
    && SingleLine(r.purpose) && SingleLine(r.impact) && SingleLine(r.userAction) && SingleLine(r.finalState)
    && SingleLines(r.summary) && SingleLines(r.completed) && SingleLines(r.inProgress) && SingleLines(r.issues)
    && SingleLines(r.nextActions) && SingleLines(r.technicalReferences)
    && !StartsWith(r.purpose, "## ") && !StartsWith(r.userAction, "## ") && !StartsWith(r.finalState, "## ")
  }

  /** The indexed fields carry no outer white space, and summary items are not empty. */
  predicate Tidy(r: Report) {
    && Trimmed(r.reportType) && Trimmed(r.target) && Trimmed(r.date) && Trimmed(r.status) && Trimmed(r.purpose)
    && forall i :: 0 <= i < |r.summary| ==> Trimmed(r.summary[i]) && r.summary[i] != ""
  }

  /** A line that is safe in a section body. */
  predicate Inert(line: string) {
    SingleLine(line) && !StartsWith(line, "## ")
  }

  lemma {:induction false} InertAfter(prefix: string, value: string)
    requires prefix != "" && prefix[0] != '#' && SingleLine(prefix) && SingleLine(value)
    ensures Inert(prefix + value)
  {
    assert "## "[0] == '#';
  }

  lemma {:induction false} KeyLineInert(key: string, value: string)
    requires key != "" && key[0] != '#' && SingleLine(key) && SingleLine(value)
    ensures Inert(KeyLine(key, value))
  {
    InertAfter(key, ": " + value);
    assert KeyLine(key, value) == key + (": " + value);
  }

  lemma {:induction false} BulletsInert(values: seq<string>)
    requires SingleLines(values)
    ensures forall i :: 0 <= i < |Bullets(values)| ==> Inert(Bullets(values)[i])
    ensures |Bullets(values)| == |values|
  {
    if values != [] {
      BulletInert(values[0]);
      hide SingleLine, Inert;
      BulletsInert(values[1..]);
    }
  }

  lemma {:induction false} BulletInert(value: string)
    requires SingleLine(value)
    ensures Inert("- " + value) && SingleLine("Unknown")
  {
    InertAfter("- ", value);
  }

  lemma {:induction false} BulletLinesInert(values: seq<string>)
    requires SingleLines(values)
    ensures forall i :: 0 <= i < |BulletLines(values)| ==> Inert(BulletLines(values)[i])
    ensures BulletLines(values) != []
  {
    BulletInert("");
    hide SingleLine, Inert, Bullets;
    BulletsInert(if values == [] then ["Unknown"] else values);
  }

  lemma {:induction false} MetaInert(r: Report)
    requires Printable(r)
    ensures forall s :: s in Sections(r)[0].lines ==> Inert(s)
  {
    KeyLineInert("report_id", r.reportId);
    KeyLineInert("report_type", r.reportType);
    KeyLineInert("target", r.target);
    KeyLineInert("date", r.date);
    KeyLineInert("status", r.status);
  }

  lemma {:induction false} StateInert(r: Report)
    requires Printable(r)
    ensures Inert(ReadWhen(r)) && Inert(KeyLine("status", r.status)) && Inert(KeyLine("impact", r.impact))
  {
    KeyLineInert("status", r.status);
    KeyLineInert("impact", r.impact);
    InertAfter("Read when reviewing ", r.target + " " + r.reportType + ".");
    assert ReadWhen(r) == "Read when reviewing " + (r.target + " " + r.reportType + ".");
  }

  lemma {:induction false} SectionsAreInert(r: Report)
    requires Printable(r)
    ensures forall i :: 0 <= i < |Sections(r)| ==> Sections(r)[i].lines != []
    ensures forall i, j :: 0 <= i < |Sections(r)| && 0 <= j < |Sections(r)[i].lines| ==> Inert(Sections(r)[i].lines[j])
  {
    hide SingleLine, SingleLines, BulletLines, ReadWhen;
    MetaInert(r);
    StateInert(r);
    BulletLinesInert(r.summary);
    BulletLinesInert(r.completed);
    BulletLinesInert(r.inProgress);
    BulletLinesInert(r.issues);
    BulletLinesInert(r.nextActions);
    BulletLinesInert(r.technicalReferences);
  }

  lemma {:induction false} PrintableIsSafe(r: Report)
    requires Printable(r)
    ensures IndexSafe(r)
  {
    hide Sections, Printable, PhysicalAll, SingleLine, StartsWith, Strip;
    SectionsAreInert(r);
    TwelveSections(r);
    forall i | 0 <= i < 12
      ensures PhysicalAll(Sections(r)[i].lines) == Sections(r)[i].lines && Body(Sections(r)[i].lines)
    {
      PhysicalAllSingle(Sections(r)[i].lines);
    }
  }

  /** For single-line fields: recovered if and only if they are tidy and there is a summary. */
  lemma {:induction false} IndexRecoversReport(r: Report)
    requires Printable(r)
    ensures ExtractIndex(RenderLlm(r)) == Some(IndexFor(r)) <==> Tidy(r) && r.summary != []
  {
    hide ExtractIndex, RenderLlm, IndexSafe, Trimmed, StartsWith, IndexFor;
    PrintableIsSafe(r);
    RoundTripExactly(r);
  }

  /** An empty summary does not survive: it is printed as, and read back as, the fact "Unknown". */
  lemma {:induction false} EmptySummaryReadsUnknown(r: Report)
    requires IndexSafe(r) && r.summary == []
    ensures ExtractIndex(RenderLlm(r)).Some? && ExtractIndex(RenderLlm(r)).value.summary == ["Unknown"]
  {
    hide Collect, SplitLines, RenderLlm, Sections, Strip, IndexSafe, ReadWhen, Meta, BulletValues, StrippedLines, NonEmptyLines, Joined, PhysicalAll, BulletLines;
    SectionsRead(r);
    UnknownRecovered();
  }

  // ---- A field that opens a section ----

  lemma {:induction false} OneBullet(item: string)
    ensures BulletLines([item]) == ["- " + item]
  {
    assert [item][1..] == [];
    assert Bullets([item]) == ["- " + [item][0]] + Bullets([item][1..]);
  }

  /** The lines of a summary item that holds a heading. */
  lemma {:induction false} HeadingItemLines(x: string, y: string)
    requires SingleLine(x) && SingleLine(y)
    ensures PhysicalAll(BulletLines([x + "\n## PURPOSE\n" + y])) == ["- " + x, "## " + "PURPOSE", y]
  {
    var item := x + "\n## PURPOSE\n" + y;
    OneBullet(item);
    PhysicalOne("- " + item);
    assert SingleLine("- " + x) && SingleLine("## " + "PURPOSE");
    hide SplitLines, SingleLine;
    assert "- " + item + "\n" == ("- " + x) + "\n" + ("## " + "PURPOSE" + "\n" + (y + "\n"));
    SplitFirst("- " + x, "## " + "PURPOSE" + "\n" + (y + "\n"));
    SplitFirst("## " + "PURPOSE", y + "\n");
    PhysicalSingle(y);
    assert ["- " + x] + (["## " + "PURPOSE"] + [y]) == ["- " + x, "## " + "PURPOSE", y];
  }

  /** The lines of the report: three sections, the two that the item makes of the summary, and the rest. */
  lemma {:induction false} HeadingItemReport(r: Report, x: string, y: string)
    requires SingleLine(x) && SingleLine(y) && r.summary == [x + "\n## PURPOSE\n" + y]
    ensures |Expanded(Sections(r))| == 12
    ensures var all := Expanded(Sections(r));
            SplitLines(RenderLlm(r)) ==
            FlatClosed(all[..3]) + (["## " + "SUMMARY"] + (["- " + x] + []) + (["## " + "PURPOSE"] + ([y] + [""]) + FlatLines(all[4..])))
  {
    hide Sections, Expanded, FlatLines, SplitLines, RenderLlm, PhysicalAll, SingleLine, BulletLines;
    TwelveSections(r);
    ExpandedAt(Sections(r));
    RenderedLines(r);
    HeadingItemLines(x, y);
    var all := Expanded(Sections(r));
    assert all[..4] == all[..3] + [all[3]];
    ClosedLast(all[..3], all[3]);
    assert all[3].lines + [""] == ["- " + x] + ["## " + "PURPOSE", y, ""];
    assert ["## " + "SUMMARY"] + (["- " + x] + ["## " + "PURPOSE", y, ""]) + FlatLines(all[4..]) ==
           ["## " + "SUMMARY"] + (["- " + x] + []) + (["## " + "PURPOSE"] + ([y] + [""]) + FlatLines(all[4..]));
    AppendAssociates(FlatClosed(all[..3]), ["## " + "SUMMARY"] + (all[3].lines + [""]), FlatLines(all[4..]));
  }

  lemma {:induction false} ClosedLast(secs: seq<Section>, s: Section)
    ensures FlatClosed(secs + [s]) == FlatClosed(secs) + (["## " + s.heading] + (s.lines + [""]))
  {
    if secs == [] {
      assert secs + [s] == [s] && [s][1..] == [];
    } else {
      ClosedLast(secs[1..], s);
      assert (secs + [s])[1..] == secs[1..] + [s];
      AppendAssociates(["## " + secs[0].heading] + (secs[0].lines + [""]), FlatClosed(secs[1..]), ["## " + s.heading] + (s.lines + [""]));
    }
  }

  /** Collecting a section that another heading cuts short, and the section it opens. */
  lemma {:induction false} CollectCutShort(x: string, y: string, rest: seq<string>, found: map<string, seq<string>>, current: Option<string>)
    requires !StartsWith(y, "## ") && (current.Some? ==> current.value in found)
    ensures Collect(["## " + "SUMMARY"] + (["- " + x] + []) + (["## " + "PURPOSE"] + ([y] + [""]) + rest), found, current) ==
            Collect(rest, found["SUMMARY" := ["- " + x] + []]["PURPOSE" := [y] + [""]], Some("PURPOSE"))
  {
    IndexedHeadingsPlain();
    assert !StartsWith("- " + x, "## ") by { assert ("- " + x)[0] != "## "[0]; }
    hide Collect, Trimmed;
    CollectSection(Section("SUMMARY", ["- " + x]), [], ["## " + "PURPOSE"] + ([y] + [""]) + rest, found, current);
    CollectSection(Section("PURPOSE", [y]), [""], rest, found["SUMMARY" := ["- " + x] + []], Some("SUMMARY"));
  }

  /**
   Outside `IndexSafe` a field speaks for another: a summary item with a heading line inside replaces
   the purpose by the text behind it, whatever the purpose is.
   */
  lemma {:induction false} HeadingItemTakesPurpose(r: Report, x: string, y: string)
    requires Printable(r.(summary := [])) && r.summary == [x + "\n## PURPOSE\n" + y]
    requires SingleLine(x) && Field(y) && !StartsWith(y, "## ")
    ensures ExtractIndex(RenderLlm(r)).Some? && ExtractIndex(RenderLlm(r)).value.purpose == y
    ensures ExtractIndex(RenderLlm(r)) != Some(IndexFor(r))
  {
    hide Collect, SplitLines, RenderLlm, Sections, Expanded, FlatLines, FlatClosed, Filed, Strip, Trimmed, Quiet, Body, Printable, StartsWith, PhysicalAll,
      SingleLine, ReadWhen, BulletLines, Meta, BulletValues, StrippedLines, NonEmptyLines, Joined;
    var r0 := r.(summary := []);
    PrintableIsSafe(r0);
    SameOtherSections(r, r0);
    TwelveSections(r);
    ExpandedAt(Sections(r));
    HeadingsPlain(r);
    LaterNotIndexed(r);
    HeadingItemReport(r, x, y);
    var all := Expanded(Sections(r));
    var first, later := all[..3], all[4..];
    var rest := FlatLines(later);
    CollectRecovers(first, ["## " + "SUMMARY"] + (["- " + x] + []) + (["## " + "PURPOSE"] + ([y] + [""]) + rest), map[], None);
    var f3 := Filed(first, map[]);
    CollectCutShort(x, y, rest, f3, Latest(first, None));
    var f5 := f3["SUMMARY" := ["- " + x] + []]["PURPOSE" := [y] + [""]];
    assert first == [all[0], all[1], all[2]];
    FiledThree(all[0], all[1], all[2]);
    forall key | Indexed(key)
      ensures var out := Collect(SplitLines(RenderLlm(r)), map[], None); key in out && out[key] == f5[key]
    {
      LaterSectionsKeep(later, f5, Some("PURPOSE"), key);
    }
    assert Indexed("REPORT_META") && Indexed("PURPOSE") && Indexed("READ_WHEN") && Indexed("SUMMARY");
    PhysicalSingle(y);
    FieldIsStanza(y);
    PurposeExactly(y);
    SummaryLineIsPlain(r, ExtractIndex(RenderLlm(r)).value.summary, x, y);
  }

  lemma {:induction false} FiledThree(a: Section, b: Section, c: Section)
    requires a.heading == "REPORT_META" && b.heading == "PURPOSE" && c.heading == "READ_WHEN"
    ensures var found := Filed([a, b, c], map[]); "REPORT_META" in found && "PURPOSE" in found && "READ_WHEN" in found
  {
    assert [a, b, c][1..] == [b, c] && [b, c][1..] == [c] && [c][1..] == [];
    var f1 := map[a.heading := a.lines + [""]];
    var f2 := f1[b.heading := b.lines + [""]];
    assert Filed([c], f2) == Filed([], f2[c.heading := c.lines + [""]]);
    assert Filed([b, c], f1) == Filed([c], f2);
  }

  lemma SameOtherSections(r: Report, r0: Report)
    requires r0 == r.(summary := r0.summary)
    ensures |Sections(r)| == |Sections(r0)| == 12
    ensures forall i :: 0 <= i < 12 && i != 3 ==> Sections(r)[i] == Sections(r0)[i]
  {}

  lemma FieldIsStanza(y: string)
    requires Field(y)
    ensures Stanza(y) && SingleLine(y)
  {}

  /** The item itself is never read back: values of the index hold no line break. */
  lemma {:induction false} SummaryLineIsPlain(r: Report, summary: seq<string>, x: string, y: string)
    requires r.summary == [x + "\n## PURPOSE\n" + y]
    requires SingleLine(x) && summary == BulletValues(["- " + x] + [])
    ensures summary != r.summary
  {
    assert SingleLine("- " + x);
    BulletValuesAreFields(["- " + x] + []);
    assert r.summary[0][|x|] == '\n';
  }

  // ---- A field that repeats a section ----

  lemma {:induction false} FiledInTwo(a: seq<Section>, b: seq<Section>, found: map<string, seq<string>>)
    ensures Filed(a + b, found) == Filed(b, Filed(a, found))
    decreases |a|
  {
    if a == [] {
      assert a + b == b;
    } else {
      assert (a + b)[1..] == a[1..] + b;
      FiledInTwo(a[1..], b, found[a[0].heading := a[0].lines + [""]]);
    }
  }

  lemma {:induction false} FiledOther(secs: seq<Section>, found: map<string, seq<string>>, key: string)
    requires key in found && forall i :: 0 <= i < |secs| ==> secs[i].heading != key
    ensures key in Filed(secs, found) && Filed(secs, found)[key] == found[key]
    decreases |secs|
  {
    if secs != [] { FiledOther(secs[1..], found[secs[0].heading := secs[0].lines + [""]], key); }
  }

  lemma {:induction false} RepeatedLines(x: string, p: string)
    requires SingleLine(x) && SingleLine(p)
    ensures PhysicalAll([x + "\n## PURPOSE\n" + p]) == [x, "## " + "PURPOSE", p]
  {
    var text := x + "\n## PURPOSE\n" + p;
    PhysicalOne(text);
    assert SingleLine("## " + "PURPOSE");
    hide SplitLines, SingleLine;
    assert text + "\n" == x + "\n" + ("## " + "PURPOSE" + "\n" + (p + "\n"));
    SplitFirst(x, "## " + "PURPOSE" + "\n" + (p + "\n"));
    SplitFirst("## " + "PURPOSE", p + "\n");
    PhysicalSingle(p);
    assert [x] + (["## " + "PURPOSE"] + [p]) == [x, "## " + "PURPOSE", p];
  }

  lemma UserActionSection(r: Report)
    ensures |Sections(r)| == 12 && Sections(r)[8] == Section("USER_ACTION", [r.userAction])
  {}

  lemma {:induction false} RepeatedReport(r: Report, x: string)
    requires SingleLine(x) && SingleLine(r.purpose) && r.userAction == x + "\n## PURPOSE\n" + r.purpose
    ensures |Expanded(Sections(r))| == 12
    ensures var all := Expanded(Sections(r));
            SplitLines(RenderLlm(r)) ==
            FlatClosed(all[..8]) + (["## " + "USER_ACTION"] + ([x] + []) + (["## " + "PURPOSE"] + ([r.purpose] + [""]) + FlatLines(all[9..])))
  {
    hide Sections, Expanded, FlatLines, FlatClosed, SplitLines, RenderLlm, PhysicalAll, SingleLine;
    UserActionSection(r);
    ExpandedAt(Sections(r));
    RenderedLines(r);
    RepeatedLines(x, r.purpose);
    var all := Expanded(Sections(r));
    assert all[4..] == all[4..8] + all[8..] && all[..4] + all[4..8] == all[..8] && all[8..] == [all[8]] + all[9..];
    FlatAppend(all[4..8], all[8..]);
    ClosedInTwo(all[..4], all[4..8]);
    FlatAppend([all[8]], all[9..]);
    FlatCons(all[8], []);
    NothingClosed();
    assert [all[8]] + [] == [all[8]];
    var block := ["## " + "USER_ACTION"] + (all[8].lines + [""]);
    assert FlatLines(all[8..]) == block + FlatLines(all[9..]);
    AppendAssociates(FlatClosed(all[..4]), FlatClosed(all[4..8]), FlatLines(all[8..]));
    assert block + FlatLines(all[9..]) ==
           ["## " + "USER_ACTION"] + ([x] + []) + (["## " + "PURPOSE"] + ([r.purpose] + [""]) + FlatLines(all[9..]));
  }

  lemma NothingClosed()
    ensures FlatClosed([]) == []
  {}

  lemma {:induction false} ClosedInTwo(a: seq<Section>, b: seq<Section>)
    ensures FlatClosed(a + b) == FlatClosed(a) + FlatClosed(b)
  {
    if a == [] {
      assert a + b == b;
    } else {
      ClosedInTwo(a[1..], b);
      assert (a + b)[1..] == a[1..] + b;
      AppendAssociates(["## " + a[0].heading] + (a[0].lines + [""]), FlatClosed(a[1..]), FlatClosed(b));
    }
  }

  /** Collecting a user action that another heading cuts short, and the section it opens. */
  lemma {:induction false} CollectRepeated(x: string, p: string, rest: seq<string>, found: map<string, seq<string>>, current: Option<string>)
    requires !StartsWith(x, "## ") && !StartsWith(p, "## ") && (current.Some? ==> current.value in found)
    ensures Collect(["## " + "USER_ACTION"] + ([x] + []) + (["## " + "PURPOSE"] + ([p] + [""]) + rest), found, current) ==
            Collect(rest, found["USER_ACTION" := [x] + []]["PURPOSE" := [p] + [""]], Some("PURPOSE"))
  {
    IndexedHeadingsPlain();
    OutcomeHeadingsPlain();
    hide Collect, Trimmed;
    CollectSection(Section("USER_ACTION", [x]), [], ["## " + "PURPOSE"] + ([p] + [""]) + rest, found, current);
    CollectSection(Section("PURPOSE", [p]), [""], rest, found["USER_ACTION" := [x] + []], Some("USER_ACTION"));
  }

  /** What eight filed sections hold under the indexed headings. */
  lemma {:induction false} FiledEight(r: Report)
    ensures |Expanded(Sections(r))| == 12
    ensures var all := Expanded(Sections(r));
            var found := Filed(all[..8], map[]);
            && "REPORT_META" in found && found["REPORT_META"] == PhysicalAll(Sections(r)[0].lines) + [""]
            && "PURPOSE" in found && found["PURPOSE"] == PhysicalAll([r.purpose]) + [""]
            && "READ_WHEN" in found && found["READ_WHEN"] == PhysicalAll([ReadWhen(r)]) + [""]
            && "SUMMARY" in found && found["SUMMARY"] == PhysicalAll(BulletLines(r.summary)) + [""]
  {
    hide Sections, Expanded, Filed, PhysicalAll, ReadWhen, BulletLines;
    TwelveSections(r);
    ExpandedAt(Sections(r));
    LaterNotIndexed(r);
    var all := Expanded(Sections(r));
    assert all[..8] == all[..4] + all[4..8] && all[..4] == [all[0], all[1], all[2], all[3]];
    FiledInTwo(all[..4], all[4..8], map[]);
    FiledFour(all[0], all[1], all[2], all[3]);
    var found := Filed(all[..4], map[]);
    forall key | Indexed(key)
      ensures key in Filed(all[4..8], found) && Filed(all[4..8], found)[key] == found[key]
    {
      FiledOther(all[4..8], found, key);
    }
    assert Indexed("REPORT_META") && Indexed("PURPOSE") && Indexed("READ_WHEN") && Indexed("SUMMARY");
  }

  /**
   Outside `IndexSafe` the round trip does not always fail: a later field that repeats the purpose
   under its heading leaves the index as it was.
   */
  lemma {:induction false} RepeatedPurposeRecovers(r: Report, x: string)
    requires Printable(r.(userAction := "")) && Recoverable(r) && r.userAction == x + "\n## PURPOSE\n" + r.purpose
    requires SingleLine(x) && !StartsWith(x, "## ")
    ensures !IndexSafe(r) && ExtractIndex(RenderLlm(r)) == Some(IndexFor(r))
  {
    hide Collect, SplitLines, RenderLlm, Sections, Expanded, FlatLines, FlatClosed, Filed, Strip, Trimmed, Quiet, Body, StartsWith, PhysicalAll,
      SingleLine, ReadWhen, BulletLines, Meta, MetaField, BulletValues, StrippedLines, NonEmptyLines, Joined, Field, Stanza, SingleLines;
    var r0 := r.(userAction := "");
    PrintableIsSafe(r0);
    OtherThanUserAction(r, r0);
    TwelveSections(r);
    UserActionSection(r);
    ExpandedAt(Sections(r));
    HeadingsPlain(r);
    LaterNotIndexed(r);
    RepeatedReport(r, x);
    RepeatedIsLoud(x, r.purpose);
    FiledEight(r);
    var all := Expanded(Sections(r));
    var first, later, rest := all[..8], all[9..], FlatLines(all[9..]);
    forall i | 0 <= i < 8
      ensures Body(first[i].lines)
    {
      PrintableBody(r0, i);
    }
    CollectRecovers(first, ["## " + "USER_ACTION"] + ([x] + []) + (["## " + "PURPOSE"] + ([r.purpose] + [""]) + rest), map[], None);
    var f8 := Filed(first, map[]);
    CollectRepeated(x, r.purpose, rest, f8, Latest(first, None));
    var f := f8["USER_ACTION" := [x] + []]["PURPOSE" := [r.purpose] + [""]];
    PhysicalOne(r.purpose);
    PhysicalSingle(r.purpose);
    IndexedDiffer();
    forall key | Indexed(key)
      ensures var out := Collect(SplitLines(RenderLlm(r)), map[], None); key in out && out[key] == f8[key]
    {
      NotUserAction(key);
      LaterSectionsKeep(later, f, Some("PURPOSE"), key);
    }
    assert Indexed("REPORT_META") && Indexed("PURPOSE") && Indexed("READ_WHEN") && Indexed("SUMMARY");
    PurposeExactly(r.purpose);
    MetaRecovered(r);
    FieldIsSingle(r.target);
    FieldIsSingle(r.reportType);
    ReadWhenReadsBack(r);
    SummaryRecovered(r.summary);
  }

  lemma NotUserAction(key: string)
    requires Indexed(key)
    ensures key != "USER_ACTION"
  {
    assert |"USER_ACTION"| == 11 && "USER_ACTION"[0] == 'U' && |"PURPOSE"| == 7 && |"READ_WHEN"| == 9 && |"SUMMARY"| == 7 && "REPORT_META"[0] == 'R';
  }

  lemma OtherThanUserAction(r: Report, r0: Report)
    requires r0 == r.(userAction := r0.userAction)
    ensures |Sections(r)| == |Sections(r0)| == 12
    ensures forall i :: 0 <= i < 12 && i != 8 ==> Sections(r)[i] == Sections(r0)[i]
  {}

  lemma {:induction false} PrintableBody(r: Report, i: nat)
    requires Printable(r) && i < 12
    ensures |Sections(r)| == 12 && Body(PhysicalAll(Sections(r)[i].lines))
  {
    hide Sections, Printable, PhysicalAll, SingleLine, StartsWith;
    SectionsAreInert(r);
    TwelveSections(r);
    PhysicalAllSingle(Sections(r)[i].lines);
  }

  lemma {:induction false} RepeatedIsLoud(x: string, p: string)
    requires SingleLine(x) && SingleLine(p)
    ensures !Quiet(PhysicalAll([x + "\n## PURPOSE\n" + p]))
  {
    hide PhysicalAll;
    RepeatedLines(x, p);
    IndexedHeadingsPlain();
    StripTrims("PURPOSE");
    var lines := [x, "## " + "PURPOSE", p];
    assert lines[1][3..] == "PURPOSE" && StartsWith(lines[1], "## ");
  }
}
