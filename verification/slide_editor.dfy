// The live-edit server of the slides extension: edits coming from the
// browser are applied to the markdown source of a presentation. The source
// is cut into slides at "\n---\n", each slide is edited line by line, and
// the slides are joined again. Reading and atomically rewriting the file,
// and the lock around it, are not modelled: the content is a parameter and
// the new content (or the error) is the result.

module SlideEditor {
  import opened Common

  const SlideSeparator: string := "\n---\n"
  const SectionSeparator: string := "* * *"

  // ---------------------------------------------------------------------
  // Edits
  // ---------------------------------------------------------------------

  datatype SlideAction =
    | SetTitle(text: string)
    | EditMarkdown(sectionIndex: int, content: string)
    | OtherAction  // any other action type, which the server skips

  datatype SlideEdit = SlideEdit(slideIndex: int, actions: seq<SlideAction>)

  /** The `ValueError`s the server raises. */
  datatype EditError =
    | InvalidSlideIndex(slideIndex: int, totalSlides: nat)
    | InvalidSectionIndex(sectionIndex: int, totalSections: nat)

  datatype Outcome<T> = Ok(value: T) | Failed(error: EditError)

  // ---------------------------------------------------------------------
  // Title replacement
  // ---------------------------------------------------------------------

  /** A line that, stripped of surrounding whitespace, starts with "# ". */
  predicate IsTitleLine(line: string)
  {
    StartsWith(PyStrip(line), "# ")
  }

  /** What the line scans need to know about one line. */
  datatype LineInfo = LineInfo(
    title: bool,         // stripped, it starts with "# "
    metadataOpen: bool,  // it opens a slide- or section-metadata block
    fence: bool,         // it closes a block
    overlayOpen: bool,   // it opens an SVG overlay block
    separator: bool,     // it is the section separator
    text: bool)          // it is neither blank nor a title line

  function Classify(line: string): (r: LineInfo)
    ensures r.separator <==> line == SectionSeparator
    ensures r.title == IsTitleLine(line)
  {
    LineInfo(IsTitleLine(line),
             line == "```yaml slide-metadata" || line == "```yaml section-metadata",
             line == "```",
             line == "```svg slide-overlay",
             line == SectionSeparator,
             PyStrip(line) != "" && !StartsWith(PyStrip(line), "# "))
  }

  /** The classification of every line of a slide. */
  function Classified(lines: seq<string>): (r: seq<LineInfo>)
    ensures |r| == |lines|
    ensures forall k :: 0 <= k < |lines| ==> (r[k].separator <==> lines[k] == SectionSeparator)
  {
    seq(|lines|, k requires 0 <= k < |lines| => Classify(lines[k]))
  }

  /** The index of the first title line. */
  function FirstTitle(infos: seq<LineInfo>): (r: Option<nat>)
    ensures r.Some? ==> r.value < |infos| && infos[r.value].title
    ensures r.Some? ==> forall k :: 0 <= k < r.value ==> !infos[k].title
    ensures r.None? ==> forall k :: 0 <= k < |infos| ==> !infos[k].title
  {
    if |infos| == 0 then None
    else if infos[0].title then Some(0)
    else match FirstTitle(infos[1..])
      case None => None
      case Some(i) => Some(i + 1)
  }

  /** The lines with the first title line replaced by "# " + `title`. */
  function Retitle(lines: seq<string>, title: string): seq<string>
  {
    RetitleAt(lines, FirstTitle(Classified(lines)), title)
  }

  /** The lines with line `first`, if any, replaced by "# " + `title`. */
  function RetitleAt(lines: seq<string>, first: Option<nat>, title: string): seq<string>
  {
    match first
    case None => lines
    case Some(i) => if i < |lines| then lines[i := "# " + title] else lines
  }

  /**
   * Only the first line that is a title line, if any, changes, and it
   * becomes "# " + `title`; the number of lines is kept.
   */
  lemma RetitleSpec(lines: seq<string>, title: string)
    ensures var r := Retitle(lines, title);
            && |r| == |lines|
            && (forall k :: 0 <= k < |lines| && !IsTitleLine(lines[k]) ==> r[k] == lines[k])
            && (forall k :: 0 <= k < |lines| && IsTitleLine(lines[k]) && (forall j :: 0 <= j < k ==> !IsTitleLine(lines[j])) ==>
                  r[k] == "# " + title)
            && (forall k, j :: 0 <= j < k < |lines| && IsTitleLine(lines[j]) ==> r[k] == lines[k])
  {
    var infos := Classified(lines);
    assert forall k :: 0 <= k < |lines| ==> infos[k] == Classify(lines[k]);
  }

  /** What `_update_title` returns. */
  function TitleUpdated(slide: string, title: string): string
  {
    Join(Retitle(Split(slide, "\n"), title), "\n")
  }

  /** Line `k` after the title replacement, given the index of the first title line. */
  function RetitledLine(lines: seq<string>, first: Option<nat>, title: string, k: nat): string
    requires k < |lines|
  {
    if first == Some(k) then "# " + title else lines[k]
  }

  lemma RetitledPrefixStep(lines: seq<string>, first: Option<nat>, title: string, updated: seq<string>, i: nat)
    requires i < |lines| && |updated| == i
    requires forall k :: 0 <= k < i ==> updated[k] == RetitledLine(lines, first, title, k)
    ensures forall k :: 0 <= k <= i ==>
              (updated + [RetitledLine(lines, first, title, i)])[k] == RetitledLine(lines, first, title, k)
  {
  }

  /** The loop of `_update_title`: one pass over the lines with a "title found" flag, each line classified once. */
  method RetitleLines(lines: seq<string>, infos: seq<LineInfo>, newTitle: string) returns (updatedLines: seq<string>)
    requires |infos| == |lines|
    ensures updatedLines == RetitleAt(lines, FirstTitle(infos), newTitle)
  {
    ghost var first := FirstTitle(infos);
    updatedLines := [];
    var titleFound := false;
    var i := 0;
    while i < |lines|
      invariant 0 <= i <= |lines|
      invariant |updatedLines| == i
      invariant forall k :: 0 <= k < i ==> updatedLines[k] == RetitledLine(lines, first, newTitle, k)
      invariant titleFound <==> first.Some? && first.value < i
    {
      var line := lines[i];
      ghost var before := updatedLines;
      if !titleFound && infos[i].title {
        assert first == Some(i);
        updatedLines := updatedLines + ["# " + newTitle];
        titleFound := true;
      } else {
        assert first != Some(i);
        updatedLines := updatedLines + [line];
      }
      assert updatedLines == before + [RetitledLine(lines, first, newTitle, i)];
      RetitledPrefixStep(lines, first, newTitle, before, i);
      i := i + 1;
    }
  }

  /** `_update_title`: split into lines, replace the first title line, join. */
  method UpdateTitle(slide: string, newTitle: string) returns (r: string)
    ensures r == TitleUpdated(slide, newTitle)
    ensures FirstTitle(Classified(Split(slide, "\n"))).None? ==> r == slide
  {
    var lines := Split(slide, "\n");
    var updatedLines := RetitleLines(lines, Classified(lines), newTitle);
    r := Join(updatedLines, "\n");
    JoinSplit(slide, "\n");
  }

  /**
   * With a one-line title, the new slide has the same lines as the old one,
   * except that the first title line is replaced.
   */
  lemma TitleUpdatedLines(slide: string, title: string)
    requires '\n' !in title
    ensures Split(TitleUpdated(slide, title), "\n") == Retitle(Split(slide, "\n"), title)
  {
    var lines := Split(slide, "\n");
    var r := Retitle(lines, title);
    SplitCharFree(slide, '\n');
    assert forall k :: 0 <= k < |r| ==> '\n' !in r[k];
    JoinSingleChar(r, '\n');
  }

  // ---------------------------------------------------------------------
  // Section boundaries
  // ---------------------------------------------------------------------

  /** The flags and partial result of the line scan in `_update_markdown_section`. */
  datatype ScanState = ScanState(
    sections: seq<(nat, int)>,   // (first line, last line) of each closed section
    start: Option<nat>,          // first line of the open section
    inMetadata: bool,
    inOverlay: bool,
    titleSeen: bool)

  const InitialScan := ScanState([], None, false, false, false)

  /** One line of the scan; `i` is the line's index. */
  function ScanStep(st: ScanState, i: nat, line: LineInfo): (r: ScanState)
    // a line inside a metadata or overlay block never opens or closes a section
    ensures st.inMetadata || st.inOverlay ==> r.sections == st.sections && r.start == st.start
    // only a section separator closes a section, and it always opens the next one
    ensures !line.separator ==> r.sections == st.sections
    ensures r.sections == st.sections || (line.separator && st.start.Some? && r.sections == st.sections + [(st.start.value, i - 1)])
    ensures r.start == st.start || r.start == Some(i) || (line.separator && r.start == Some(i + 1))
    ensures r.start.Some? || st.start.None?
    ensures r.sections != st.sections ==> r.start == Some(i + 1)
  {
    if line.title && !st.titleSeen then st.(titleSeen := true)
    else if line.metadataOpen then st.(inMetadata := true)
    else if st.inMetadata && line.fence then st.(inMetadata := false)
    else if line.overlayOpen then st.(inOverlay := true)
    else if st.inOverlay && line.fence then st.(inOverlay := false)
    else if st.inMetadata || st.inOverlay then st
    else if line.separator then
      st.(sections := if st.start.Some? then st.sections + [(st.start.value, i - 1)] else st.sections,
          start := Some(i + 1))
    else if st.start.None? && line.text then st.(start := Some(i))
    else st
  }

  /** The scan state after the first `n` lines. */
  function Scan(infos: seq<LineInfo>, n: nat): ScanState
    requires n <= |infos|
  {
    if n == 0 then InitialScan else ScanStep(Scan(infos, n - 1), n - 1, infos[n - 1])
  }

  /** The sections found in classified lines, as (first line, last line) pairs. */
  function SectionsOf(infos: seq<LineInfo>): seq<(nat, int)>
  {
    var st := Scan(infos, |infos|);
    if st.start.Some? then st.sections + [(st.start.value, |infos| - 1)] else st.sections
  }

  /** The sections of a slide. */
  function Sections(lines: seq<string>): seq<(nat, int)>
  {
    SectionsOf(Classified(lines))
  }

  /** Sections lie within the first `n` lines, in order and without overlap. */
  ghost predicate WellFormed(sections: seq<(nat, int)>, n: nat)
  {
    && (forall k :: 0 <= k < |sections| ==> sections[k].0 <= sections[k].1 + 1 <= n)
    && (forall i, j :: 0 <= i < j < |sections| ==> sections[i].1 < sections[j].0)
  }

  /** Each of the sections ends on the line before a separator among the first `n` lines. */
  ghost predicate EndAtSeparators(sections: seq<(nat, int)>, lines: seq<string>, n: nat)
    requires n <= |lines|
  {
    forall k :: 0 <= k < |sections| ==> 0 <= sections[k].1 + 1 < n && lines[sections[k].1 + 1] == SectionSeparator
  }

  lemma WellFormedAppend(sections: seq<(nat, int)>, s: nat, e: int, n: nat)
    requires WellFormed(sections, n)
    requires s <= e + 1 <= n
    requires |sections| > 0 ==> sections[|sections| - 1].1 < s
    ensures WellFormed(sections + [(s, e)], n)
  {
  }

  lemma EndAtSeparatorsAppend(sections: seq<(nat, int)>, lines: seq<string>, s: nat, n: nat)
    requires n < |lines| && lines[n] == SectionSeparator
    requires EndAtSeparators(sections, lines, n)
    ensures EndAtSeparators(sections + [(s, n - 1)], lines, n + 1)
  {
  }

  /** The facts the scan keeps about its state after `n` lines. */
  ghost predicate ScanFacts(st: ScanState, lines: seq<string>, n: nat)
    requires n <= |lines|
  {
    && WellFormed(st.sections, n)
    && EndAtSeparators(st.sections, lines, n)
    && (st.start.Some? ==> st.start.value <= n)
    && (st.start.Some? && |st.sections| > 0 ==> st.sections[|st.sections| - 1].1 < st.start.value)
    && (|st.sections| > 0 ==> st.start.Some?)
  }

  /** One step of the scan keeps its facts. */
  lemma ScanStepFacts(st: ScanState, line: LineInfo, lines: seq<string>, n: nat)
    requires n < |lines|
    requires line.separator ==> lines[n] == SectionSeparator
    requires ScanFacts(st, lines, n)
    ensures ScanFacts(ScanStep(st, n, line), lines, n + 1)
  {
    var r := ScanStep(st, n, line);
    if r.sections == st.sections {
      assert EndAtSeparators(r.sections, lines, n + 1);
    } else {
      WellFormedAppend(st.sections, st.start.value, n - 1, n + 1);
      EndAtSeparatorsAppend(st.sections, lines, st.start.value, n);
    }
  }

  /** What the scan keeps true: closed sections are well formed, each ends just before a separator, and the open one starts after them. */
  lemma {:induction false} ScanInvariant(infos: seq<LineInfo>, lines: seq<string>, n: nat)
    requires |infos| == |lines| && n <= |lines|
    requires forall k :: 0 <= k < |lines| ==> (infos[k].separator <==> lines[k] == SectionSeparator)
    ensures ScanFacts(Scan(infos, n), lines, n)
  {
    if n > 0 {
      ScanInvariant(infos, lines, n - 1);
      ScanStepFacts(Scan(infos, n - 1), infos[n - 1], lines, n - 1);
    }
  }

  /**
   * The sections of a slide are in order and disjoint; every section but
   * the last ends on the line before a separator, and the last one runs to
   * the end of the slide.
   */
  lemma SectionsShape(lines: seq<string>)
    ensures WellFormed(Sections(lines), |lines|)
    ensures forall k :: 0 <= k < |Sections(lines)| - 1 ==>
              Sections(lines)[k].1 + 1 < |lines| && lines[Sections(lines)[k].1 + 1] == SectionSeparator
    ensures |Sections(lines)| > 0 ==> Sections(lines)[|Sections(lines)| - 1].1 == |lines| - 1
  {
    SectionsOfShape(Classified(lines), lines);
  }

  lemma SectionsOfShape(infos: seq<LineInfo>, lines: seq<string>)
    requires |infos| == |lines|
    requires forall k :: 0 <= k < |lines| ==> (infos[k].separator <==> lines[k] == SectionSeparator)
    ensures WellFormed(SectionsOf(infos), |lines|)
    ensures forall k :: 0 <= k < |SectionsOf(infos)| - 1 ==>
              SectionsOf(infos)[k].1 + 1 < |lines| && lines[SectionsOf(infos)[k].1 + 1] == SectionSeparator
    ensures |SectionsOf(infos)| > 0 ==> SectionsOf(infos)[|SectionsOf(infos)| - 1].1 == |lines| - 1
  {
    ScanInvariant(infos, lines, |lines|);
    FinalSections(Scan(infos, |infos|), lines, SectionsOf(infos));
  }

  /** Closing the section still open at the end of the scan keeps the sections in order and ending at separators. */
  lemma FinalSections(st: ScanState, lines: seq<string>, r: seq<(nat, int)>)
    requires ScanFacts(st, lines, |lines|)
    requires r == if st.start.Some? then st.sections + [(st.start.value, |lines| - 1)] else st.sections
    ensures && WellFormed(r, |lines|)
            && (forall k :: 0 <= k < |r| - 1 ==> r[k].1 + 1 < |lines| && lines[r[k].1 + 1] == SectionSeparator)
            && (|r| > 0 ==> r[|r| - 1].1 == |lines| - 1)
  {
    if st.start.Some? {
      WellFormedAppend(st.sections, st.start.value, |lines| - 1, |lines|);
      forall k | 0 <= k < |r| - 1
        ensures r[k].1 + 1 < |lines| && lines[r[k].1 + 1] == SectionSeparator
      {
        assert r[k] == st.sections[k];
      }
    }
  }


  /** A section lies within the lines of its slide. */
  lemma SectionBounds(lines: seq<string>, k: int)
    requires 0 <= k < |Sections(lines)|
    ensures Sections(lines)[k].0 <= Sections(lines)[k].1 + 1 <= |lines|
  {
    SectionsShape(lines);
  }

  /** What `_update_markdown_section` returns. */
  function SectionReplaced(slide: string, sectionIndex: int, newContent: string): (r: Outcome<string>)
    ensures r.Failed? <==> sectionIndex < 0 || sectionIndex >= |Sections(Split(slide, "\n"))|
    ensures r.Failed? ==> r.error == InvalidSectionIndex(sectionIndex, |Sections(Split(slide, "\n"))|)
  {
    var lines := Split(slide, "\n");
    var sections := Sections(lines);
    if sectionIndex < 0 || sectionIndex >= |sections| then
      Failed(InvalidSectionIndex(sectionIndex, |sections|))
    else
      SectionBounds(lines, sectionIndex);
      var (s, e) := sections[sectionIndex];
      Ok(ReplaceLines(lines, s, e, newContent))
  }

  /** Lines [s, e] give way to the stripped new content, or to nothing when that is empty; the lines are joined again. */
  function ReplaceLines(lines: seq<string>, s: nat, e: int, newContent: string): string
    requires s <= e + 1 <= |lines|
  {
    var stripped := PyStrip(newContent);
    Join(lines[..s] + (if stripped != "" then [stripped] else []) + lines[e + 1..], "\n")
  }

  /**
   * With one-line new content, the lines before the section and the lines
   * after it are kept, and the section is replaced by the stripped content,
   * or removed when that is empty.
   */
  lemma SectionReplacedLines(slide: string, sectionIndex: nat, newContent: string)
    requires '\n' !in newContent
    requires sectionIndex < |Sections(Split(slide, "\n"))|
    ensures var lines := Split(slide, "\n");
            var sec := Sections(lines)[sectionIndex];
            var out := Split(SectionReplaced(slide, sectionIndex, newContent).value, "\n");
            var mid := if PyStrip(newContent) != "" then 1 else 0;
            var kept := sec.0 + mid + (|lines| - sec.1 - 1);
            && 0 <= sec.0 <= sec.1 + 1 <= |lines|
            && (kept == 0 ==> SectionReplaced(slide, sectionIndex, newContent).value == "")
            && (kept > 0 ==> Spliced(out, lines, sec.0, sec.1, if mid == 1 then [PyStrip(newContent)] else []))
  {
    var lines := Split(slide, "\n");
    SectionBounds(lines, sectionIndex);
    var (s, e) := Sections(lines)[sectionIndex];
    assert SectionReplaced(slide, sectionIndex, newContent).value == ReplaceLines(lines, s, e, newContent);
    SplitCharFree(slide, '\n');
    ReplaceLinesSpec(lines, s, e, newContent);
  }

  /** The splice on lines without newlines, for new content without one. */
  lemma ReplaceLinesSpec(lines: seq<string>, s: nat, e: int, newContent: string)
    requires s <= e + 1 <= |lines|
    requires '\n' !in newContent && forall k :: 0 <= k < |lines| ==> '\n' !in lines[k]
    ensures var middle := if PyStrip(newContent) != "" then [PyStrip(newContent)] else [];
            var kept := s + |middle| + (|lines| - e - 1);
            && (kept == 0 ==> ReplaceLines(lines, s, e, newContent) == "")
            && (kept > 0 ==> Spliced(Split(ReplaceLines(lines, s, e, newContent), "\n"), lines, s, e, middle))
  {
    var stripped := PyStrip(newContent);
    var middle := if stripped != "" then [stripped] else [];
    var parts := lines[..s] + middle + lines[e + 1..];
    assert ReplaceLines(lines, s, e, newContent) == Join(parts, "\n");
    if |parts| > 0 {
      StripKeepsAbsent(newContent, '\n');
      SpliceLines(lines, s, e, middle);
    } else {
      assert parts == [];
    }
  }


  /** `out` is `lines` with lines `s` to `e` replaced by `middle`. */
  ghost predicate Spliced(out: seq<string>, lines: seq<string>, s: nat, e: int, middle: seq<string>)
    requires s <= e + 1 <= |lines|
  {
    && |out| == s + |middle| + (|lines| - e - 1)
    && out[..s] == lines[..s]
    && out[s..s + |middle|] == middle
    && out[s + |middle|..] == lines[e + 1..]
  }

  lemma NewlineFreeConcat(a: seq<string>, b: seq<string>)
    requires forall k :: 0 <= k < |a| ==> '\n' !in a[k]
    requires forall k :: 0 <= k < |b| ==> '\n' !in b[k]
    ensures forall k :: 0 <= k < |a + b| ==> '\n' !in (a + b)[k]
  {
    forall k | 0 <= k < |a + b|
      ensures '\n' !in (a + b)[k]
    {
      if k < |a| {
        assert (a + b)[k] == a[k];
      } else {
        assert (a + b)[k] == b[k - |a|];
      }
    }
  }

  lemma ConcatPieces<T>(a: seq<T>, b: seq<T>, c: seq<T>)
    ensures (a + b + c)[..|a|] == a
    ensures (a + b + c)[|a|..|a| + |b|] == b
    ensures (a + b + c)[|a| + |b|..] == c
  {
    assert (a + b + c)[..|a|] == a;
    assert (a + b + c)[|a|..|a| + |b|] == b;
  }

  /** Joining a splice of newline-free lines and splitting it again gives the splice back. */
  lemma SpliceLines(lines: seq<string>, s: nat, e: int, middle: seq<string>)
    requires s <= e + 1 <= |lines|
    requires forall k :: 0 <= k < |lines| ==> '\n' !in lines[k]
    requires forall k :: 0 <= k < |middle| ==> '\n' !in middle[k]
    requires s + |middle| + (|lines| - e - 1) > 0
    ensures Spliced(Split(Join(lines[..s] + middle + lines[e + 1..], "\n"), "\n"), lines, s, e, middle)
  {
    var parts := lines[..s] + middle + lines[e + 1..];
    SplicePieces(lines, s, e, middle);
    JoinSingleChar(parts, '\n');
  }

  /** The splice itself keeps the pieces apart and brings no newline in. */
  lemma SplicePieces(lines: seq<string>, s: nat, e: int, middle: seq<string>)
    requires s <= e + 1 <= |lines|
    requires forall k :: 0 <= k < |lines| ==> '\n' !in lines[k]
    requires forall k :: 0 <= k < |middle| ==> '\n' !in middle[k]
    ensures var parts := lines[..s] + middle + lines[e + 1..];
            && Spliced(parts, lines, s, e, middle)
            && forall k :: 0 <= k < |parts| ==> '\n' !in parts[k]
  {
    var pre, post := lines[..s], lines[e + 1..];
    assert forall k :: 0 <= k < |pre| ==> pre[k] == lines[k];
    assert forall k :: 0 <= k < |post| ==> post[k] == lines[e + 1 + k];
    NewlineFreeConcat(pre, middle);
    NewlineFreeConcat(pre + middle, post);
    ConcatPieces(pre, middle, post);
  }

  /** Stripping cannot introduce a character. */
  lemma StripKeepsAbsent(s: string, c: char)
    requires c !in s
    ensures c !in PyStrip(s)
  {
    TrimChars(s, PythonSpace);
  }

  /** The line scan of `_update_markdown_section`, each line classified once. */
  method ScanSections(lines: seq<string>) returns (sections: seq<(nat, int)>)
    ensures sections == Sections(lines)
  {
    sections := ScanLines(Classified(lines));
  }

  /** The loop of the line scan, over the classified lines. */
  method ScanLines(infos: seq<LineInfo>) returns (sections: seq<(nat, int)>)
    ensures sections == SectionsOf(infos)
  {
    var currentSectionStart: Option<nat> := None;
    var inMetadataBlock := false;
    var inOverlayBlock := false;
    var titleSeen := false;
    sections := [];
    var i := 0;
    while i < |infos|
      invariant 0 <= i <= |infos|
      invariant Scan(infos, i) == ScanState(sections, currentSectionStart, inMetadataBlock, inOverlayBlock, titleSeen)
    {
      var line := infos[i];
      if line.title && !titleSeen {
        titleSeen := true;
      } else if line.metadataOpen {
        inMetadataBlock := true;
      } else if inMetadataBlock && line.fence {
        inMetadataBlock := false;
      } else if line.overlayOpen {
        inOverlayBlock := true;
      } else if inOverlayBlock && line.fence {
        inOverlayBlock := false;
      } else if inMetadataBlock || inOverlayBlock {
      } else if line.separator {
        if currentSectionStart.Some? {
          sections := sections + [(currentSectionStart.value, i - 1)];
        }
        currentSectionStart := Some(i + 1);
      } else if currentSectionStart.None? && line.text {
        currentSectionStart := Some(i);
      }
      i := i + 1;
    }
    if currentSectionStart.Some? {
      sections := sections + [(currentSectionStart.value, |infos| - 1)];
    }
  }

  /** `_update_markdown_section`: the line scan, then the splice. */
  method UpdateSection(slide: string, sectionIndex: int, newContent: string) returns (r: Outcome<string>)
    ensures r == SectionReplaced(slide, sectionIndex, newContent)
  {
    var lines := Split(slide, "\n");
    var sections := ScanSections(lines);
    if sectionIndex < 0 || sectionIndex >= |sections| {
      return Failed(InvalidSectionIndex(sectionIndex, |sections|));
    }
    SectionBounds(lines, sectionIndex);
    var (sectionStart, sectionEnd) := sections[sectionIndex];
    var updated := SpliceSection(lines, sectionStart, sectionEnd, newContent);
    r := Ok(updated);
  }

  /** The splice of `_update_markdown_section`: the section's lines give way to the stripped new content. */
  method SpliceSection(lines: seq<string>, sectionStart: nat, sectionEnd: int, newContent: string) returns (r: string)
    requires sectionStart <= sectionEnd + 1 <= |lines|
    ensures r == ReplaceLines(lines, sectionStart, sectionEnd, newContent)
  {
    var updatedLines := lines[..sectionStart];
    var stripped := PyStrip(newContent);
    if stripped != "" {
      updatedLines := updatedLines + [stripped];
    }
    updatedLines := updatedLines + lines[sectionEnd + 1..];
    assert updatedLines == lines[..sectionStart] + (if stripped != "" then [stripped] else []) + lines[sectionEnd + 1..];
    r := Join(updatedLines, "\n");
  }

  // ---------------------------------------------------------------------
  // Applying a batch of edits
  // ---------------------------------------------------------------------

  /** One action on one slide; unknown actions leave the slide alone. */
  function ApplyAction(slide: string, a: SlideAction): Outcome<string>
  {
    match a
    case SetTitle(text) => Ok(TitleUpdated(slide, text))
    case EditMarkdown(k, content) => SectionReplaced(slide, k, content)
    case OtherAction => Ok(slide)
  }

  /** The actions of one edit, in order, stopping at the first error. */
  function ApplyActions(slide: string, actions: seq<SlideAction>): Outcome<string>
    decreases |actions|
  {
    if |actions| == 0 then Ok(slide)
    else match ApplyAction(slide, actions[0])
      case Failed(err) => Failed(err)
      case Ok(s) => ApplyActions(s, actions[1..])
  }

  /** The actions a slide edit actually performs. */
  function KnownActions(actions: seq<SlideAction>): (r: seq<SlideAction>)
    ensures |r| <= |actions|
    ensures forall k :: 0 <= k < |r| ==> !r[k].OtherAction?
  {
    if |actions| == 0 then []
    else if actions[0].OtherAction? then KnownActions(actions[1..])
    else [actions[0]] + KnownActions(actions[1..])
  }

  /** Unknown action types are skipped. */
  lemma {:induction false} UnknownActionsIgnored(slide: string, actions: seq<SlideAction>)
    ensures ApplyActions(slide, actions) == ApplyActions(slide, KnownActions(actions))
    decreases |actions|
  {
    if |actions| > 0 {
      match ApplyAction(slide, actions[0])
      case Failed(_) =>
      case Ok(s) =>
        UnknownActionsIgnored(s, actions[1..]);
        if !actions[0].OtherAction? {
          assert ([actions[0]] + KnownActions(actions[1..]))[1..] == KnownActions(actions[1..]);
        }
    }
  }

  /** No edit of the batch names slide `j`. */
  predicate Untouched(edits: seq<SlideEdit>, j: int)
  {
    forall i :: 0 <= i < |edits| ==> edits[i].slideIndex != j
  }

  /** The edits, in order, on the list of slides, stopping at the first error. */
  function ApplySlideEdits(slides: seq<string>, edits: seq<SlideEdit>): (r: Outcome<seq<string>>)
    // the number of slides never changes
    ensures r.Ok? ==> |r.value| == |slides|
    // a slide no edit names keeps its text
    ensures r.Ok? ==> forall j :: 0 <= j < |slides| && Untouched(edits, j) ==> r.value[j] == slides[j]
    decreases |edits|
  {
    if |edits| == 0 then Ok(slides)
    else
      var idx := edits[0].slideIndex;
      if idx < 0 || idx >= |slides| then Failed(InvalidSlideIndex(idx, |slides|))
      else match ApplyActions(slides[idx], edits[0].actions)
        case Failed(err) => Failed(err)
        case Ok(s) =>
          var rest := ApplySlideEdits(slides[idx := s], edits[1..]);
          assert forall j :: Untouched(edits, j) ==> Untouched(edits[1..], j) by {
            forall j | Untouched(edits, j)
              ensures Untouched(edits[1..], j)
            {
              forall i | 0 <= i < |edits[1..]|
                ensures edits[1..][i].slideIndex != j
              {
                assert edits[1..][i] == edits[i + 1];
              }
            }
          }
          rest
  }

  /** An edit naming a slide that does not exist makes the whole batch fail. */
  lemma {:induction false} InvalidSlideIndexFails(slides: seq<string>, edits: seq<SlideEdit>, i: nat)
    requires i < |edits|
    requires edits[i].slideIndex < 0 || edits[i].slideIndex >= |slides|
    ensures ApplySlideEdits(slides, edits).Failed?
    decreases i
  {
    var idx := edits[0].slideIndex;
    if i > 0 && 0 <= idx < |slides| {
      match ApplyActions(slides[idx], edits[0].actions)
      case Failed(_) =>
      case Ok(s) =>
        assert edits[1..][i - 1] == edits[i];
        InvalidSlideIndexFails(slides[idx := s], edits[1..], i - 1);
    }
  }

  /** What `apply_edits` writes back, or the error it raises. */
  function EditedContent(content: string, edits: seq<SlideEdit>): Outcome<string>
  {
    match ApplySlideEdits(Split(content, SlideSeparator), edits)
    case Failed(err) => Failed(err)
    case Ok(slides) => Ok(Join(slides, SlideSeparator))
  }

  /** With no edits the content is written back unchanged. */
  lemma NoEditsKeepContent(content: string)
    ensures EditedContent(content, []) == Ok(content)
  {
    JoinSplit(content, SlideSeparator);
  }

  /** The inner loop of `apply_edits`: the actions of one edit on its slide. */
  method ApplyActionsTo(slide: string, actions: seq<SlideAction>) returns (r: Outcome<string>)
    ensures r == ApplyActions(slide, actions)
  {
    var current := slide;
    var a := 0;
    while a < |actions|
      invariant 0 <= a <= |actions|
      invariant ApplyActions(slide, actions) == ApplyActions(current, actions[a..])
    {
      var action := actions[a];
      assert actions[a..][0] == action && actions[a..][1..] == actions[a + 1..];
      match action {
        case SetTitle(text) =>
          current := UpdateTitle(current, text);
        case EditMarkdown(k, newContent) =>
          var updated := UpdateSection(current, k, newContent);
          if updated.Failed? {
            return Failed(updated.error);
          }
          current := updated.value;
        case OtherAction =>
      }
      a := a + 1;
    }
    r := Ok(current);
  }

  /** `apply_edits`: the slides list is updated in place, action by action. */
  method ApplyEdits(content: string, edits: seq<SlideEdit>) returns (r: Outcome<string>)
    ensures r == EditedContent(content, edits)
  {
    var slides := Split(content, SlideSeparator);
    ghost var slides0 := slides;
    var e := 0;
    while e < |edits|
      invariant 0 <= e <= |edits|
      invariant ApplySlideEdits(slides0, edits) == ApplySlideEdits(slides, edits[e..])
    {
      var slideIndex := edits[e].slideIndex;
      var actions := edits[e].actions;
      if slideIndex < 0 || slideIndex >= |slides| {
        return Failed(InvalidSlideIndex(slideIndex, |slides|));
      }
      var updated := ApplyActionsTo(slides[slideIndex], actions);
      if updated.Failed? {
        return Failed(updated.error);
      }
      slides := slides[slideIndex := updated.value];
      assert edits[e..][0] == edits[e] && edits[e..][1..] == edits[e + 1..];
      e := e + 1;
    }
    r := Ok(Join(slides, SlideSeparator));
  }
}
