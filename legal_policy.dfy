/** The Indian legal policy ingestor: a line-by-line state machine that cuts
    an Act's text into numbered sections grouped under chapters, and the
    rendering of each section as an ingested record. Finding and reading
    the document on disk is not modelled: ingest receives the text, or
    nothing when no document exists. */
module LegalPolicy {
  import opened Wrappers
  import opened Text
  import opened PluginBase

  const SourceTypes: seq<string> := ["indian_legal", "indian_policy", "legal_policy", "default"]

  /** can_handle. */
  predicate CanHandle(sourceType: string) {
    Handles(sourceType, SourceTypes)
  }

  /** The plugin answers to its four source types, in any letter case. */
  lemma CanHandleSourceTypes()
    ensures forall s :: CanHandle(s) <==> CanHandle(Lower(s))
    ensures forall i :: 0 <= i < |SourceTypes| ==> CanHandle(SourceTypes[i])
  {
    HandlesAnyCase(SourceTypes);
  }

  // ---------------------------------------------------------------------
  // Sections
  // ---------------------------------------------------------------------

  /** A section record. Its subtitle is always None and its type always
      "section", so neither is stored. `content` is the section's lines
      joined by "\n". */
  datatype Section = Section(chapter: Option<string>, title: string, content: string)

  /** `s[:n]`. */
  function Prefix(s: string, n: nat): string {
    if |s| <= n then s else s[..n]
  }

  /** How a stripped line is treated. */
  datatype LineKind = Blank | ChapterLine | Heading | Subsection | Content | Ignored

  function Classify(line: string): LineKind {
    if line == "" then Blank
    else if StartsWith(line, "CHAPTER") then ChapterLine
    else if IsDigit(line[0]) && Contains(Prefix(line, 10), ". ") then Heading
    else if StartsWith(line, "(") && ')' in Prefix(line, 5) then Subsection
    else if !StartsWith(line, "#") then Content
    else Ignored
  }

  predicate IsBodyLine(line: string) {
    Classify(line) == Subsection || Classify(line) == Content
  }

  /** The state of the parser between two lines. */
  datatype Parser = Parser(chapter: Option<string>, section: Option<string>, content: seq<string>, sections: seq<Section>)

  const Start: Parser := Parser(None, None, [], [])

  /** The sections once the open section, if it has a title and some
      content, is saved. */
  function Flush(p: Parser): seq<Section> {
    if p.section.Some? && p.section.value != "" && p.content != [] then
      p.sections + [Section(p.chapter, p.section.value, Join(p.content, "\n"))]
    else p.sections
  }

  /** One line: a chapter line saves the open section and closes it, a
      heading saves it and opens a new one, body lines join the open
      section's content, and blank and '#' lines are skipped. */
  function Step(p: Parser, raw: string): Parser {
    var line := Strip(raw);
    match Classify(line)
    case Blank => p
    case ChapterLine => Parser(Some(line), None, [], Flush(p))
    case Heading => Parser(p.chapter, Some(line), [], Flush(p))
    case Subsection => p.(content := p.content + [line])
    case Content => p.(content := p.content + [line])
    case Ignored => p
  }

  /** The parser after the lines. */
  function Run(lines: seq<string>): Parser {
    if lines == [] then Start
    else Step(Run(lines[..|lines| - 1]), lines[|lines| - 1])
  }

  /** The sections of the lines, the last one saved too. */
  function ParsedSections(lines: seq<string>): seq<Section> {
    Flush(Run(lines))
  }

  /** _parse_policy_content. */
  method ParsePolicyContent(content: string) returns (sections: seq<Section>)
    ensures sections == ParsedSections(Split(content, '\n'))
  {
    var lines := Split(content, '\n');
    sections := [];
    var chapter: Option<string> := None;
    var section: Option<string> := None;
    var current: seq<string> := [];
    var i := 0;
    while i < |lines|
      invariant 0 <= i <= |lines|
      invariant Parser(chapter, section, current, sections) == Run(lines[..i])
    {
      ghost var before := Parser(chapter, section, current, sections);
      RunPrefixStep(lines, i);
      var line := Strip(lines[i]);
      if line == "" {
      } else if StartsWith(line, "CHAPTER") {
        if section.Some? && section.value != "" && current != [] {
          sections := sections + [Section(chapter, section.value, Join(current, "\n"))];
        }
        chapter, section, current := Some(line), None, [];
      } else if IsDigit(line[0]) && Contains(Prefix(line, 10), ". ") {
        if section.Some? && section.value != "" && current != [] {
          sections := sections + [Section(chapter, section.value, Join(current, "\n"))];
        }
        section, current := Some(line), [];
      } else if StartsWith(line, "(") && ')' in Prefix(line, 5) {
        current := current + [line];
      } else if !StartsWith(line, "#") {
        current := current + [line];
      }
      assert Parser(chapter, section, current, sections) == Step(before, lines[i]);
      i := i + 1;
    }
    assert lines[..|lines|] == lines;
    if section.Some? && section.value != "" && current != [] {
      sections := sections + [Section(chapter, section.value, Join(current, "\n"))];
    }
  }

  // ---------------------------------------------------------------------
  // What the sections look like
  // ---------------------------------------------------------------------

  /** A saved section: titled by a heading line, under a chapter line if
      any, with non-empty content whose lines are all body lines. */
  predicate GoodSection(s: Section) {
    && Classify(s.title) == Heading && '\n' !in s.title
    && (s.chapter.Some? ==> Classify(s.chapter.value) == ChapterLine && '\n' !in s.chapter.value)
    && s.content != ""
    && forall l :: l in Split(s.content, '\n') ==> IsBodyLine(l)
  }

  predicate GoodParser(p: Parser) {
    && (p.chapter.Some? ==> Classify(p.chapter.value) == ChapterLine && '\n' !in p.chapter.value)
    && (p.section.Some? ==> Classify(p.section.value) == Heading && '\n' !in p.section.value)
    && (forall l :: l in p.content ==> IsBodyLine(l) && '\n' !in l)
    && forall s :: s in p.sections ==> GoodSection(s)
  }

  lemma JoinNonEmpty(parts: seq<string>, sep: string)
    requires parts != [] && parts[0] != ""
    ensures Join(parts, sep) != ""
  {
    if |parts| > 1 {
      assert Join(parts, sep) == parts[0] + sep + Join(parts[1..], sep);
    }
  }

  lemma FlushGood(p: Parser)
    requires GoodParser(p)
    ensures forall s :: s in Flush(p) ==> GoodSection(s)
  {
    if p.section.Some? && p.section.value != "" && p.content != [] {
      var s := Section(p.chapter, p.section.value, Join(p.content, "\n"));
      assert p.content[0] in p.content;
      JoinNonEmpty(p.content, "\n");
      SplitJoin(p.content, '\n');
      assert GoodSection(s);
    }
  }

  lemma StepGood(p: Parser, raw: string)
    requires GoodParser(p) && '\n' !in raw
    ensures GoodParser(Step(p, raw))
  {
    StripShape(raw);
    FlushGood(p);
  }

  lemma {:induction false} RunGood(lines: seq<string>)
    requires forall l :: l in lines ==> '\n' !in l
    ensures GoodParser(Run(lines))
  {
    if lines != [] {
      var n := |lines| - 1;
      assert forall l :: l in lines[..n] ==> l in lines;
      RunGood(lines[..n]);
      assert lines[n] in lines;
      StepGood(Run(lines[..n]), lines[n]);
    }
  }

  /** Every section has a heading for its title, a chapter line (if any)
      for its chapter, and non-empty content made of body lines only. */
  lemma SectionsWellFormed(lines: seq<string>)
    requires forall l :: l in lines ==> '\n' !in l
    ensures forall s :: s in ParsedSections(lines) ==> GoodSection(s)
  {
    RunGood(lines);
    FlushGood(Run(lines));
  }

  /** A body line is neither blank nor a '#' line. */
  lemma BodyLinePlain(l: string)
    requires IsBodyLine(l)
    ensures l != "" && !StartsWith(l, "#")
  {
    if Classify(l) == Subsection {
      assert l[0] == '(';
    }
  }

  /** Running one more line of a prefix steps the parser once more. */
  lemma RunPrefixStep(lines: seq<string>, i: nat)
    requires i < |lines|
    ensures Run(lines[..i + 1]) == Step(Run(lines[..i]), lines[i])
  {
    assert lines[..i + 1][..i] == lines[..i];
  }

  lemma RunSnoc(lines: seq<string>, x: string)
    ensures Run(lines + [x]) == Step(Run(lines), x)
  {
    assert (lines + [x])[..|lines|] == lines;
  }

  /** A document without a heading line has no sections: content before the
      first heading is dropped. */
  lemma {:induction false} NoHeadingNoSections(lines: seq<string>)
    requires forall i :: 0 <= i < |lines| ==> Classify(Strip(lines[i])) != Heading
    ensures Run(lines).section.None?
    ensures ParsedSections(lines) == []
  {
    if lines != [] {
      var n := |lines| - 1;
      NoHeadingNoSections(lines[..n]);
    }
  }

  /** Body lines after a chapter line, before the next heading, are
      dropped. */
  lemma ContentAfterChapterDropped(lines: seq<string>, chapter: string, body: string)
    requires Classify(Strip(chapter)) == ChapterLine && IsBodyLine(Strip(body))
    ensures ParsedSections(lines + [chapter, body]) == ParsedSections(lines)
    ensures Run(lines + [chapter, body]).chapter == Some(Strip(chapter))
  {
    RunSnoc(lines, chapter);
    assert lines + [chapter, body] == (lines + [chapter]) + [body];
    RunSnoc(lines + [chapter], body);
  }

  /** A heading followed directly by another heading gives no section. */
  lemma EmptyHeadingVanishes(lines: seq<string>, first: string, second: string)
    requires Classify(Strip(first)) == Heading && Classify(Strip(second)) == Heading
    ensures Run(lines + [first, second]).sections == ParsedSections(lines)
    ensures Run(lines + [first, second]).section == Some(Strip(second))
  {
    RunSnoc(lines, first);
    assert lines + [first, second] == (lines + [first]) + [second];
    RunSnoc(lines + [first], second);
  }

  lemma StepKeepsSections(p: Parser, raw: string)
    ensures p.sections <= Step(p, raw).sections
  {
  }

  lemma PrefixTransitive(a: seq<Section>, b: seq<Section>, c: seq<Section>)
    requires a <= b && b <= c
    ensures a <= c
  {
    assert c[..|b|] == b;
    assert b[..|a|] == a;
    assert c[..|a|] == a;
  }

  /** Saved sections are never changed by later lines: sections come out
      in document order. */
  lemma {:induction false} SectionsOnlyGrow(lines: seq<string>, i: nat)
    requires i <= |lines|
    ensures Run(lines[..i]).sections <= Run(lines).sections
    decreases |lines|
  {
    if i == |lines| {
      assert lines[..i] == lines;
    } else {
      var init := lines[..|lines| - 1];
      assert lines[..i] == init[..i];
      SectionsOnlyGrow(init, i);
      StepKeepsSections(Run(init), lines[|lines| - 1]);
      PrefixTransitive(Run(init[..i]).sections, Run(init).sections, Run(lines).sections);
    }
  }

  // ---------------------------------------------------------------------
  // Records
  // ---------------------------------------------------------------------

  const ActDate: string := "2023-08-11T00:00:00Z"
  const Government: string := "Government of India"

  datatype PolicyMetadata = PolicyMetadata(
    platform: string, sectionType: string, chapter: Option<string>, title: string, subtitle: Option<string>)

  datatype PolicyRecord = PolicyRecord(
    text: string, source: string, timestamp: string, author: string, metadata: PolicyMetadata)

  const NoneText: string := "None"

  /** How a field that may be None is written into a string. */
  function OptionText(o: Option<string>): string {
    if o.Some? then o.value else NoneText
  }

  /** The record of one section. */
  function SectionRecord(s: Section, source: string): PolicyRecord {
    PolicyRecord(OptionText(s.chapter) + "\n" + (s.title + "\n" + (NoneText + "\n" + s.content)),
                 source, ActDate, Government,
                 PolicyMetadata("legal_policy", "section", s.chapter, s.title, None))
  }

  function SectionRecords(sections: seq<Section>, source: string): seq<PolicyRecord> {
    if sections == [] then []
    else
      var n := |sections| - 1;
      SectionRecords(sections[..n], source) + [SectionRecord(sections[n], source)]
  }

  /** One record per section, in order. */
  lemma {:induction false} SectionRecordsShape(sections: seq<Section>, source: string)
    ensures |SectionRecords(sections, source)| == |sections|
    ensures forall i :: 0 <= i < |sections| ==> SectionRecords(sections, source)[i] == SectionRecord(sections[i], source)
  {
    if sections != [] {
      var n := |sections| - 1;
      SectionRecordsShape(sections[..n], source);
    }
  }

  /** _format_policy_sections. */
  method FormatPolicySections(sections: seq<Section>, source: string) returns (records: seq<PolicyRecord>)
    ensures records == SectionRecords(sections, source)
  {
    records := [];
    var i := 0;
    while i < |sections|
      invariant 0 <= i <= |sections|
      invariant records == SectionRecords(sections[..i], source)
    {
      assert sections[..i + 1][..i] == sections[..i];
      var s := sections[i];
      records := records + [PolicyRecord(OptionText(s.chapter) + "\n" + (s.title + "\n" + (NoneText + "\n" + s.content)),
                                         source, ActDate, Government,
                                         PolicyMetadata("legal_policy", "section", s.chapter, s.title, None))];
      i := i + 1;
    }
    assert sections[..|sections|] == sections;
  }

  /** A record's text, the f-string of chapter, title, subtitle and
      content, splits back into those and the section's content lines. */
  lemma RecordTextLines(s: Section, source: string)
    requires '\n' !in s.title && '\n' !in OptionText(s.chapter)
    ensures Split(SectionRecord(s, source).text, '\n') ==
            [OptionText(s.chapter), s.title, NoneText] + Split(s.content, '\n')
  {
    var rest2 := NoneText + "\n" + s.content;
    var rest1 := s.title + "\n" + rest2;
    assert '\n' !in NoneText;
    var c, lines := OptionText(s.chapter), Split(s.content, '\n');
    assert SectionRecord(s, source).text == c + "\n" + rest1;
    SplitAfter(NoneText, '\n', s.content);
    SplitAfter(s.title, '\n', rest2);
    SplitAfter(c, '\n', rest1);
    ConsThree(c, s.title, NoneText, lines);
  }

  lemma ConsThree<T>(a: T, b: T, c: T, rest: seq<T>)
    ensures [a] + ([b] + ([c] + rest)) == [a, b, c] + rest
  {
    assert [a] + ([b] + ([c] + rest)) == [a, b, c] + rest;
  }

  /** ingest on the document's text (`None` when no document is found). */
  method Ingest(document: Option<string>, source: string) returns (records: seq<PolicyRecord>)
    ensures document.None? ==> records == []
    ensures document.Some? ==> records == SectionRecords(ParsedSections(Split(document.value, '\n')), source)
  {
    if document.None? {
      return [];
    }
    var sections := ParsePolicyContent(document.value);
    records := FormatPolicySections(sections, source);
  }
}
