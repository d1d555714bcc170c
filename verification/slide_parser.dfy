// The markdown reader of the slides extension: a presentation is cut into
// slides at "\n---\n", and each slide is read line by line into a title, a
// slide type, slide metadata and a list of sections with their own
// metadata and content. YAML parsing is a parameter: it maps the text of a
// metadata block to the items of the dictionary it denotes (values already
// rendered as strings), to `NotDict` when the text denotes something else,
// or to `YamlError` when the parser raises, which ends the whole parse.

module SlideParser {
  import opened Common

  const SlideSeparator: string := "\n---\n"
  const SectionSeparator: string := "* * *"
  const SlideMetadataOpen: string := "```yaml slide-metadata"
  const SectionMetadataOpen: string := "```yaml section-metadata"
  const Fence: string := "```"
  const SlideTypeKey: string := "slide-type"

  /**
   * What `yaml.safe_load` makes of a metadata block: it raises on text that
   * is not YAML, and otherwise yields a value that `isinstance(metadata, dict)`
   * accepts (its items, values rendered by `str`) or not.
   */
  datatype YamlResult = YamlError | NotDict | Dict(items: seq<(string, string)>)

  type Yaml = string -> YamlResult

  /** The `ValueError`s raised for misplaced metadata blocks. */
  datatype ParseError =
    | NestedSlideMetadata
    | SlideMetadataInSectionMetadata
    | NestedSectionMetadata
    | SectionMetadataInSlideMetadata
    | InvalidYaml  // the exception `yaml.safe_load` raises, passed on to the caller

  datatype Parsed<T> = Parsed(value: T) | ParseFailed(error: ParseError)

  datatype Section = Section(metadata: map<string, string>, content: string)

  datatype Slide = Slide(title: string, slideType: string, metadata: map<string, string>, sections: seq<Section>)

  const EmptySection := Section(map[], "")

  // ---------------------------------------------------------------------
  // Metadata dictionaries
  // ---------------------------------------------------------------------

  /** The value of the last item with key `k`. */
  function LastValue(items: seq<(string, string)>, k: string): (r: Option<string>)
    ensures r.Some? <==> exists i :: 0 <= i < |items| && items[i].0 == k
    ensures r.Some? ==> exists i :: 0 <= i < |items| && items[i] == (k, r.value)
  {
    if |items| == 0 then None
    else if items[|items| - 1].0 == k then Some(items[|items| - 1].1)
    else
      var r := LastValue(items[..|items| - 1], k);
      assert forall i :: 0 <= i < |items| - 1 ==> items[..|items| - 1][i] == items[i];
      r
  }

  /** `metadata[key] = value` for every item, in order, except for the keys in `excluded`. */
  function StoreItems(m: map<string, string>, items: seq<(string, string)>, excluded: set<string>): map<string, string>
  {
    if |items| == 0 then m
    else
      var m' := StoreItems(m, items[..|items| - 1], excluded);
      var (k, v) := items[|items| - 1];
      if k in excluded then m' else m'[k := v]
  }

  /** After storing the items, a key is present iff it was or some non-excluded item has it, and holds the last such value. */
  lemma {:induction false} StoreItemsSpec(m: map<string, string>, items: seq<(string, string)>, excluded: set<string>)
    ensures var r := StoreItems(m, items, excluded);
            forall k :: (k in r <==> k in m || (k !in excluded && LastValue(items, k).Some?))
                     && (k in r ==> r[k] == if k !in excluded && LastValue(items, k).Some? then LastValue(items, k).value else m[k])
  {
    if |items| > 0 {
      StoreItemsSpec(m, items[..|items| - 1], excluded);
    }
  }

  /** The slide type after the items of a slide-metadata block: the last "slide-type" value, if any. */
  function SlideTypeAfter(slideType: string, items: seq<(string, string)>): string
  {
    match LastValue(items, SlideTypeKey)
    case None => slideType
    case Some(v) => v
  }

  /** The loop over the items of a slide-metadata block. */
  method ApplySlideMetadata(slideType: string, metadata: map<string, string>, items: seq<(string, string)>)
    returns (newType: string, newMetadata: map<string, string>)
    ensures newType == SlideTypeAfter(slideType, items)
    ensures newMetadata == StoreItems(metadata, items, {SlideTypeKey})
  {
    newType, newMetadata := slideType, metadata;
    var i := 0;
    while i < |items|
      invariant 0 <= i <= |items|
      invariant newType == SlideTypeAfter(slideType, items[..i])
      invariant newMetadata == StoreItems(metadata, items[..i], {SlideTypeKey})
    {
      var (key, value) := items[i];
      assert items[..i + 1][..i] == items[..i];
      if key == SlideTypeKey {
        newType := value;
      } else {
        newMetadata := newMetadata[key := value];
      }
      i := i + 1;
    }
    assert items[..|items|] == items;
  }

  /** The loop over the items of a section-metadata block. */
  method ApplySectionMetadata(metadata: map<string, string>, items: seq<(string, string)>)
    returns (newMetadata: map<string, string>)
    ensures newMetadata == StoreItems(metadata, items, {})
  {
    newMetadata := metadata;
    var i := 0;
    while i < |items|
      invariant 0 <= i <= |items|
      invariant newMetadata == StoreItems(metadata, items[..i], {})
    {
      var (key, value) := items[i];
      assert items[..i + 1][..i] == items[..i];
      newMetadata := newMetadata[key := value];
      i := i + 1;
    }
    assert items[..|items|] == items;
  }

  // ---------------------------------------------------------------------
  // Titles and content lines
  // ---------------------------------------------------------------------

  /** Python `s.lstrip("# ")`: leading '#' and ' ' characters removed. */
  function LStripHashSpace(s: string): string
    decreases |s|
  {
    if |s| > 0 && (s[0] == '#' || s[0] == ' ') then LStripHashSpace(s[1..]) else s
  }

  /** The title a "# " line carries. */
  function TitleText(line: string): string
  {
    PyStrip(LStripHashSpace(line))
  }

  /** Adding a content line: "\n" + line after non-empty content, the line itself otherwise. */
  function AppendLine(content: string, line: string): string
  {
    if content != "" then content + "\n" + line else line
  }

  /** The content after adding `lines` one by one to `content`. */
  function Accumulated(content: string, lines: seq<string>): string
  {
    if |lines| == 0 then content else AppendLine(Accumulated(content, lines[..|lines| - 1]), lines[|lines| - 1])
  }

  /** `lines` without its leading empty lines. */
  function DropLeadingEmpty(lines: seq<string>): (r: seq<string>)
    ensures |r| > 0 ==> r[0] != ""
  {
    if |lines| == 0 then []
    else if lines[0] == "" then DropLeadingEmpty(lines[1..])
    else lines
  }

  lemma {:induction false} DropLeadingEmptySnoc(lines: seq<string>, line: string)
    ensures DropLeadingEmpty(lines + [line]) ==
              if DropLeadingEmpty(lines) == [] then (if line == "" then [] else [line])
              else DropLeadingEmpty(lines) + [line]
    decreases |lines|
  {
    if |lines| > 0 {
      assert (lines + [line])[1..] == lines[1..] + [line];
      if lines[0] == "" {
        DropLeadingEmptySnoc(lines[1..], line);
      }
    }
  }

  lemma {:induction false} JoinNonEmpty(parts: seq<string>, sep: string)
    requires |parts| > 0 && parts[0] != ""
    ensures Join(parts, sep) != ""
  {
    if |parts| > 1 {
      assert |Join(parts, sep)| >= |parts[0]|;
    }
  }

  lemma JoinSnoc(parts: seq<string>, sep: string, line: string)
    requires |parts| > 0
    ensures Join(parts + [line], sep) == Join(parts, sep) + sep + line
    decreases |parts|
  {
    if |parts| > 1 {
      assert (parts + [line])[1..] == parts[1..] + [line];
      JoinSnoc(parts[1..], sep, line);
    }
  }

  /**
   * Accumulating content lines joins them with "\n", except that empty
   * lines before the first non-empty one leave no trace.
   */
  lemma {:induction false} AccumulatedJoins(lines: seq<string>)
    ensures Accumulated("", lines) == Join(DropLeadingEmpty(lines), "\n")
  {
    if |lines| > 0 {
      var init, line := lines[..|lines| - 1], lines[|lines| - 1];
      assert lines == init + [line];
      AccumulatedJoins(init);
      DropLeadingEmptySnoc(init, line);
      var d := DropLeadingEmpty(init);
      if d != [] {
        JoinNonEmpty(d, "\n");
        JoinSnoc(d, "\n", line);
      }
    }
  }

  // ---------------------------------------------------------------------
  // The line loop of one slide
  // ---------------------------------------------------------------------

  /** The parsed slide so far, the two block flags and the collected YAML lines. */
  datatype LineState = LineState(
    slide: Slide,
    inSlideMetadata: bool,
    inSectionMetadata: bool,
    slideYaml: seq<string>,
    sectionYaml: seq<string>)

  const InitialState := LineState(Slide("", "normal", map[], [EmptySection]), false, false, [], [])

  /** One iteration of the line loop. */
  function Step(st: LineState, line: string, yaml: Yaml): (r: Parsed<LineState>)
    requires |st.slide.sections| > 0
    ensures r.Parsed? ==> |r.value.slide.sections| > 0
  {
    var slide := st.slide;
    var last := slide.sections[|slide.sections| - 1];
    if StartsWith(line, "# ") && slide.title == "" then
      Parsed(st.(slide := slide.(title := TitleText(line))))
    else if line == SectionSeparator then
      Parsed(st.(slide := slide.(sections := slide.sections + [EmptySection])))
    else if line == SlideMetadataOpen then
      if st.inSlideMetadata then ParseFailed(NestedSlideMetadata)
      else if st.inSectionMetadata then ParseFailed(SlideMetadataInSectionMetadata)
      else Parsed(st.(inSlideMetadata := true, slideYaml := []))
    else if line == SectionMetadataOpen then
      if st.inSectionMetadata then ParseFailed(NestedSectionMetadata)
      else if st.inSlideMetadata then ParseFailed(SectionMetadataInSlideMetadata)
      else Parsed(st.(inSectionMetadata := true, sectionYaml := []))
    else if st.inSlideMetadata then
      if line == Fence then
        match yaml(Join(st.slideYaml, "\n"))
        case YamlError => ParseFailed(InvalidYaml)
        case NotDict => Parsed(st.(inSlideMetadata := false, slideYaml := []))
        case Dict(items) =>
          var newSlide := slide.(slideType := SlideTypeAfter(slide.slideType, items),
                                 metadata := StoreItems(slide.metadata, items, {SlideTypeKey}));
          Parsed(st.(inSlideMetadata := false, slide := newSlide, slideYaml := []))
      else Parsed(st.(slideYaml := st.slideYaml + [line]))
    else if st.inSectionMetadata then
      if line == Fence then
        match yaml(Join(st.sectionYaml, "\n"))
        case YamlError => ParseFailed(InvalidYaml)
        case NotDict => Parsed(st.(inSectionMetadata := false, sectionYaml := []))
        case Dict(items) =>
          var newLast := last.(metadata := StoreItems(last.metadata, items, {}));
          Parsed(st.(inSectionMetadata := false, slide := slide.(sections := slide.sections[|slide.sections| - 1 := newLast]), sectionYaml := []))
      else Parsed(st.(sectionYaml := st.sectionYaml + [line]))
    else
      Parsed(st.(slide := slide.(sections := slide.sections[|slide.sections| - 1 := last.(content := AppendLine(last.content, line))])))
  }

  /** The YAML text of the block that is open, if any. */
  function OpenBlockYaml(st: LineState): string
  {
    if st.inSlideMetadata then Join(st.slideYaml, "\n") else Join(st.sectionYaml, "\n")
  }

  /**
   * A line fails exactly when it opens a metadata block inside another one,
   * or closes a block whose text YAML cannot parse.
   */
  lemma StepFails(st: LineState, line: string, yaml: Yaml)
    requires |st.slide.sections| > 0
    ensures Step(st, line, yaml).ParseFailed? <==>
              || ((line == SlideMetadataOpen || line == SectionMetadataOpen) && (st.inSlideMetadata || st.inSectionMetadata))
              || (line == Fence && (st.inSlideMetadata || st.inSectionMetadata) && yaml(OpenBlockYaml(st)) == YamlError)
    ensures Step(st, line, yaml).ParseFailed? && line == Fence ==> Step(st, line, yaml).error == InvalidYaml
  {
    if line == SlideMetadataOpen || line == SectionMetadataOpen || line == Fence {
      assert !StartsWith(line, "# ") by {
        assert line[0] == '`';
      }
    }
  }

  /** Only the section separator adds a section, exactly one, and only a first "# " line sets the title. */
  lemma StepShape(st: LineState, line: string, yaml: Yaml)
    requires |st.slide.sections| > 0 && Step(st, line, yaml).Parsed?
    ensures var r := Step(st, line, yaml).value;
            && |r.slide.sections| == |st.slide.sections| + (if line == SectionSeparator then 1 else 0)
            && r.slide.title == if StartsWith(line, "# ") && st.slide.title == "" then TitleText(line) else st.slide.title
  {
    if line == SectionSeparator {
      assert !StartsWith(line, "# ") by {
        assert line[0] == '*';
      }
    }
  }

  /** A line that is neither a separator, a block opener, nor a title line for a slide without one. */
  predicate Plain(line: string, title: string)
  {
    line != SectionSeparator && line != SlideMetadataOpen && line != SectionMetadataOpen
    && !(StartsWith(line, "# ") && title == "")
  }

  /** Outside metadata blocks, a plain line is added to the content of the last section. */
  lemma StepPlain(st: LineState, line: string, yaml: Yaml)
    requires |st.slide.sections| > 0 && !st.inSlideMetadata && !st.inSectionMetadata && Plain(line, st.slide.title)
    ensures var n := |st.slide.sections|;
            var last := st.slide.sections[n - 1];
            Step(st, line, yaml) == Parsed(st.(slide := st.slide.(sections := st.slide.sections[n - 1 := last.(content := AppendLine(last.content, line))])))
  {
  }

  /** A block opener that does not fail opens its block. */
  lemma StepOpens(st: LineState, line: string, yaml: Yaml)
    requires |st.slide.sections| > 0 && (line == SlideMetadataOpen || line == SectionMetadataOpen)
    requires Step(st, line, yaml).Parsed?
    ensures Step(st, line, yaml).value.inSlideMetadata || Step(st, line, yaml).value.inSectionMetadata
  {
    assert !StartsWith(line, "# ") by {
      assert line[0] == '`';
    }
  }

  /** Inside a metadata block, a line that neither closes nor opens a block keeps the block open. */
  lemma StepInBlock(st: LineState, line: string, yaml: Yaml)
    requires |st.slide.sections| > 0 && (st.inSlideMetadata || st.inSectionMetadata)
    requires line != Fence && line != SlideMetadataOpen && line != SectionMetadataOpen
    ensures Step(st, line, yaml).Parsed?
    ensures Step(st, line, yaml).value.inSlideMetadata == st.inSlideMetadata
    ensures Step(st, line, yaml).value.inSectionMetadata == st.inSectionMetadata
  {
  }

  /** The state after the line loop has run over `lines`. */
  function Lines(st: LineState, lines: seq<string>, yaml: Yaml): (r: Parsed<LineState>)
    requires |st.slide.sections| > 0
    ensures r.Parsed? ==> |r.value.slide.sections| > 0
  {
    if |lines| == 0 then Parsed(st)
    else match Lines(st, lines[..|lines| - 1], yaml)
      case ParseFailed(e) => ParseFailed(e)
      case Parsed(s) => Step(s, lines[|lines| - 1], yaml)
  }

  /** The loop over `a + b` is the loop over `b` from where the loop over `a` stopped. */
  lemma {:induction false} LinesAppend(st: LineState, a: seq<string>, b: seq<string>, yaml: Yaml)
    requires |st.slide.sections| > 0
    ensures Lines(st, a + b, yaml) ==
              match Lines(st, a, yaml)
              case ParseFailed(e) => ParseFailed(e)
              case Parsed(s) => Lines(s, b, yaml)
    decreases |b|
  {
    if |b| == 0 {
      assert a + b == a;
    } else {
      var b' := b[..|b| - 1];
      assert (a + b)[..|a + b| - 1] == a + b';
      assert (a + b)[|a + b| - 1] == b[|b| - 1];
      LinesAppend(st, a, b', yaml);
    }
  }

  /** The number of lines equal to `x`. */
  function CountOf(lines: seq<string>, x: string): nat
  {
    if |lines| == 0 then 0
    else CountOf(lines[..|lines| - 1], x) + (if lines[|lines| - 1] == x then 1 else 0)
  }

  /** The title a slide gets: the first "# " line whose title text is not empty. */
  function FirstTitle(lines: seq<string>): string
  {
    if |lines| == 0 then ""
    else if StartsWith(lines[0], "# ") && TitleText(lines[0]) != "" then TitleText(lines[0])
    else FirstTitle(lines[1..])
  }

  lemma {:induction false} FirstTitleSnoc(lines: seq<string>, line: string)
    ensures FirstTitle(lines + [line]) ==
              if FirstTitle(lines) != "" then FirstTitle(lines)
              else if StartsWith(line, "# ") then TitleText(line) else ""
    decreases |lines|
  {
    if |lines| == 0 {
      assert [line][1..] == [];
    } else {
      assert (lines + [line])[0] == lines[0];
      assert (lines + [line])[1..] == lines[1..] + [line];
      FirstTitleSnoc(lines[1..], line);
    }
  }

  /**
   * Every section separator adds one section and nothing else does; the
   * title is that of the first "# " line with a non-empty title, or stays
   * what it was.
   */
  lemma {:induction false} LinesShape(st: LineState, lines: seq<string>, yaml: Yaml)
    requires |st.slide.sections| > 0 && Lines(st, lines, yaml).Parsed?
    ensures var r := Lines(st, lines, yaml).value;
            && |r.slide.sections| == |st.slide.sections| + CountOf(lines, SectionSeparator)
            && r.slide.title == if st.slide.title != "" then st.slide.title else FirstTitle(lines)
  {
    if |lines| > 0 {
      var init, line := lines[..|lines| - 1], lines[|lines| - 1];
      LinesShape(st, init, yaml);
      StepShape(Lines(st, init, yaml).value, line, yaml);
      assert lines == init + [line];
      FirstTitleSnoc(init, line);
    }
  }

  /** A slide has one section more than it has section separator lines, and its title is the first non-empty "# " title. */
  lemma ParsedSlideShape(raw: string, yaml: Yaml)
    requires ParseSlide(raw, yaml).Parsed?
    ensures |ParseSlide(raw, yaml).value.sections| == 1 + CountOf(SlideLines(raw), SectionSeparator)
    ensures ParseSlide(raw, yaml).value.title == FirstTitle(SlideLines(raw))
  {
    LinesShape(InitialState, SlideLines(raw), yaml);
  }

  /** Outside metadata blocks, plain lines are accumulated into the content of the last section. */
  lemma {:induction false} PlainLinesAccumulate(st: LineState, lines: seq<string>, yaml: Yaml)
    requires |st.slide.sections| > 0 && !st.inSlideMetadata && !st.inSectionMetadata
    requires forall k :: 0 <= k < |lines| ==> Plain(lines[k], st.slide.title)
    ensures var n := |st.slide.sections|;
            var last := st.slide.sections[n - 1];
            Lines(st, lines, yaml) == Parsed(st.(slide := st.slide.(sections := st.slide.sections[n - 1 := last.(content := Accumulated(last.content, lines))])))
  {
    if |lines| > 0 {
      var init, line := lines[..|lines| - 1], lines[|lines| - 1];
      var n := |st.slide.sections|;
      var last := st.slide.sections[n - 1];
      assert forall k :: 0 <= k < |init| ==> init[k] == lines[k];
      PlainLinesAccumulate(st, init, yaml);
      var mid := st.(slide := st.slide.(sections := st.slide.sections[n - 1 := last.(content := Accumulated(last.content, init))]));
      StepPlain(mid, line, yaml);
      assert mid.slide.sections[n - 1 := mid.slide.sections[n - 1].(content := AppendLine(Accumulated(last.content, init), line))]
          == st.slide.sections[n - 1 := last.(content := Accumulated(last.content, lines))];
    } else {
      var n := |st.slide.sections|;
      assert st.slide.sections[n - 1 := st.slide.sections[n - 1].(content := st.slide.sections[n - 1].content)] == st.slide.sections;
    }
  }

  /** Inside a metadata block, lines that neither close nor open a block keep it open. */
  lemma {:induction false} BlockStaysOpen(st: LineState, lines: seq<string>, yaml: Yaml)
    requires |st.slide.sections| > 0 && (st.inSlideMetadata || st.inSectionMetadata)
    requires forall k :: 0 <= k < |lines| ==> lines[k] != Fence && lines[k] != SlideMetadataOpen && lines[k] != SectionMetadataOpen
    ensures Lines(st, lines, yaml).Parsed?
    ensures Lines(st, lines, yaml).value.inSlideMetadata == st.inSlideMetadata
    ensures Lines(st, lines, yaml).value.inSectionMetadata == st.inSectionMetadata
  {
    if |lines| > 0 {
      var init := lines[..|lines| - 1];
      BlockStaysOpen(st, init, yaml);
      StepInBlock(Lines(st, init, yaml).value, lines[|lines| - 1], yaml);
    }
  }

  /**
   * A metadata block opened while another one is still open (no "```"
   * line in between) makes the slide fail, whatever precedes and follows.
   */
  lemma NestedMetadataFails(before: seq<string>, open1: string, middle: seq<string>, open2: string, after: seq<string>, yaml: Yaml)
    requires open1 == SlideMetadataOpen || open1 == SectionMetadataOpen
    requires open2 == SlideMetadataOpen || open2 == SectionMetadataOpen
    requires forall k :: 0 <= k < |middle| ==> middle[k] != Fence && middle[k] != SlideMetadataOpen && middle[k] != SectionMetadataOpen
    ensures Lines(InitialState, before + [open1] + middle + [open2] + after, yaml).ParseFailed?
  {
    var segment := [open1] + middle + [open2];
    assert before + [open1] + middle + [open2] + after == (before + segment) + after;
    LinesAppend(InitialState, before + segment, after, yaml);
    LinesAppend(InitialState, before, segment, yaml);
    if Lines(InitialState, before, yaml).Parsed? {
      OpenedTwice(Lines(InitialState, before, yaml).value, open1, middle, open2, yaml);
    }
  }

  /** From any state, a block opener, lines that keep a block open, and a second opener fail. */
  lemma OpenedTwice(st: LineState, open1: string, middle: seq<string>, open2: string, yaml: Yaml)
    requires |st.slide.sections| > 0
    requires open1 == SlideMetadataOpen || open1 == SectionMetadataOpen
    requires open2 == SlideMetadataOpen || open2 == SectionMetadataOpen
    requires forall k :: 0 <= k < |middle| ==> middle[k] != Fence && middle[k] != SlideMetadataOpen && middle[k] != SectionMetadataOpen
    ensures Lines(st, [open1] + middle + [open2], yaml).ParseFailed?
  {
    LinesAppend(st, [open1] + middle, [open2], yaml);
    LinesAppend(st, [open1], middle, yaml);
    assert Lines(st, [open1], yaml) == Step(st, open1, yaml) by {
      assert [open1][..0] == [];
    }
    StepFails(st, open1, yaml);
    if Step(st, open1, yaml).Parsed? {
      StepOpens(st, open1, yaml);
      var s1 := Step(st, open1, yaml).value;
      BlockStaysOpen(s1, middle, yaml);
      var s2 := Lines(s1, middle, yaml).value;
      StepFails(s2, open2, yaml);
      assert Lines(s2, [open2], yaml) == Step(s2, open2, yaml) by {
        assert [open2][..0] == [];
      }
    }
  }

  /** Once the loop fails on a prefix of the lines, it fails with that error. */
  lemma {:induction false} LinesFailedPrefix(lines: seq<string>, n: nat, yaml: Yaml)
    requires n <= |lines| && Lines(InitialState, lines[..n], yaml).ParseFailed?
    ensures Lines(InitialState, lines, yaml) == Lines(InitialState, lines[..n], yaml)
    decreases |lines| - n
  {
    if n < |lines| {
      var init := lines[..|lines| - 1];
      assert init[..n] == lines[..n];
      LinesFailedPrefix(init, n, yaml);
    } else {
      assert lines[..n] == lines;
    }
  }

  /** The lines of a raw slide: stripped, then split at "\n". */
  function SlideLines(raw: string): seq<string>
  {
    Split(PyStrip(raw), "\n")
  }

  /** One slide as `parse_markdown_to_slides` reads it. */
  function ParseSlide(raw: string, yaml: Yaml): Parsed<Slide>
  {
    match Lines(InitialState, SlideLines(raw), yaml)
    case ParseFailed(e) => ParseFailed(e)
    case Parsed(st) => Parsed(st.slide)
  }

  /** The outcome of each raw chunk, read on its own. */
  function SlideResults(raws: seq<string>, yaml: Yaml): (r: seq<Parsed<Slide>>)
    ensures |r| == |raws| && forall i :: 0 <= i < |raws| ==> r[i] == ParseSlide(raws[i], yaml)
  {
    seq(|raws|, i requires 0 <= i < |raws| => ParseSlide(raws[i], yaml))
  }

  /** The values of a list of outcomes, stopping at the first error. */
  function Collect<T>(results: seq<Parsed<T>>): (r: Parsed<seq<T>>)
    ensures r.Parsed? ==> |r.value| == |results|
  {
    if |results| == 0 then Parsed([])
    else
      match Collect(results[..|results| - 1])
      case ParseFailed(e) => ParseFailed(e)
      case Parsed(values) =>
        match results[|results| - 1]
        case ParseFailed(e) => ParseFailed(e)
        case Parsed(v) => Parsed(values + [v])
  }

  /** Every outcome is kept in order; the whole fails iff one outcome does. */
  lemma {:induction false} CollectSpec<T>(results: seq<Parsed<T>>)
    ensures var r := Collect(results);
            && (r.Parsed? ==> forall i :: 0 <= i < |results| ==> results[i] == Parsed(r.value[i]))
            && (r.ParseFailed? <==> exists i :: 0 <= i < |results| && results[i].ParseFailed?)
  {
    if |results| > 0 {
      var init := results[..|results| - 1];
      assert forall i :: 0 <= i < |init| ==> init[i] == results[i];
      CollectSpec(init);
    }
  }

  /** Once a prefix of the outcomes fails, the whole list fails with the same error. */
  lemma {:induction false} CollectFailedPrefix<T>(results: seq<Parsed<T>>, n: nat)
    requires n <= |results| && Collect(results[..n]).ParseFailed?
    ensures Collect(results) == Collect(results[..n])
    decreases |results| - n
  {
    if n < |results| {
      var init := results[..|results| - 1];
      assert init[..n] == results[..n];
      CollectFailedPrefix(init, n);
    } else {
      assert results[..n] == results;
    }
  }

  /** What `parse_markdown_to_slides` hands to `create_slide`, one slide per "\n---\n" chunk. */
  function ParseMarkdown(md: string, yaml: Yaml): Parsed<seq<Slide>>
  {
    Collect(SlideResults(Split(md, SlideSeparator), yaml))
  }

  /**
   * One slide per chunk, each read on its own; the whole fails iff one of
   * the chunks does.
   */
  lemma ParseMarkdownSpec(md: string, yaml: Yaml, results: seq<Parsed<Slide>>)
    requires results == SlideResults(Split(md, SlideSeparator), yaml)
    ensures ParseMarkdown(md, yaml).Parsed? ==>
              |ParseMarkdown(md, yaml).value| == |results| &&
              forall i :: 0 <= i < |results| ==> results[i] == Parsed(ParseMarkdown(md, yaml).value[i])
    ensures ParseMarkdown(md, yaml).ParseFailed? <==> exists i :: 0 <= i < |results| && results[i].ParseFailed?
  {
    CollectSpec(results);
  }

  // ---------------------------------------------------------------------
  // The loops
  // ---------------------------------------------------------------------

  /** The line loop of one slide. */
  method ParseSlideLines(lines: seq<string>, yaml: Yaml) returns (r: Parsed<Slide>)
    ensures r == match Lines(InitialState, lines, yaml)
                 case ParseFailed(e) => ParseFailed(e)
                 case Parsed(st) => Parsed(st.slide)
  {
    var title, slideType, metadata, sections := "", "normal", map[], [EmptySection];
    var inSlideMetadataBlock, inSectionMetadataBlock := false, false;
    var slideMetadataYamlLines: seq<string>, sectionMetadataYamlLines: seq<string> := [], [];
    var i := 0;
    while i < |lines|
      invariant 0 <= i <= |lines|
      invariant Lines(InitialState, lines[..i], yaml) ==
                Parsed(LineState(Slide(title, slideType, metadata, sections), inSlideMetadataBlock,
                                 inSectionMetadataBlock, slideMetadataYamlLines, sectionMetadataYamlLines))
    {
      var line := lines[i];
      assert lines[..i + 1][..i] == lines[..i];
      var st := ParseLine(LineState(Slide(title, slideType, metadata, sections), inSlideMetadataBlock,
                                    inSectionMetadataBlock, slideMetadataYamlLines, sectionMetadataYamlLines), line, yaml);
      if st.ParseFailed? {
        LinesFailedPrefix(lines, i + 1, yaml);
        return ParseFailed(st.error);
      }
      title, slideType, metadata, sections := st.value.slide.title, st.value.slide.slideType, st.value.slide.metadata, st.value.slide.sections;
      inSlideMetadataBlock, inSectionMetadataBlock := st.value.inSlideMetadata, st.value.inSectionMetadata;
      slideMetadataYamlLines, sectionMetadataYamlLines := st.value.slideYaml, st.value.sectionYaml;
      i := i + 1;
    }
    assert lines[..|lines|] == lines;
    r := Parsed(Slide(title, slideType, metadata, sections));
  }

  /** The body of the line loop. */
  method ParseLine(st: LineState, line: string, yaml: Yaml) returns (r: Parsed<LineState>)
    requires |st.slide.sections| > 0
    ensures r == Step(st, line, yaml)
  {
    var sections := st.slide.sections;
    if StartsWith(line, "# ") && st.slide.title == "" {
      r := Parsed(st.(slide := st.slide.(title := TitleText(line))));
    } else if line == SectionSeparator {
      r := Parsed(st.(slide := st.slide.(sections := sections + [EmptySection])));
    } else if line == SlideMetadataOpen {
      if st.inSlideMetadata {
        return ParseFailed(NestedSlideMetadata);
      }
      if st.inSectionMetadata {
        return ParseFailed(SlideMetadataInSectionMetadata);
      }
      r := Parsed(st.(inSlideMetadata := true, slideYaml := []));
    } else if line == SectionMetadataOpen {
      if st.inSectionMetadata {
        return ParseFailed(NestedSectionMetadata);
      }
      if st.inSlideMetadata {
        return ParseFailed(SectionMetadataInSlideMetadata);
      }
      r := Parsed(st.(inSectionMetadata := true, sectionYaml := []));
    } else if st.inSlideMetadata {
      if line == Fence {
        var metadata := yaml(Join(st.slideYaml, "\n"));
        match metadata {
          case YamlError =>
            return ParseFailed(InvalidYaml);
          case NotDict =>
            r := Parsed(st.(inSlideMetadata := false, slideYaml := []));
          case Dict(items) =>
            var slideType, slideMetadata := ApplySlideMetadata(st.slide.slideType, st.slide.metadata, items);
            var slide := st.slide.(slideType := slideType, metadata := slideMetadata);
            r := Parsed(st.(inSlideMetadata := false, slide := slide, slideYaml := []));
        }
      } else {
        r := Parsed(st.(slideYaml := st.slideYaml + [line]));
      }
    } else if st.inSectionMetadata {
      if line == Fence {
        var last := sections[|sections| - 1];
        var metadata := yaml(Join(st.sectionYaml, "\n"));
        match metadata {
          case YamlError =>
            return ParseFailed(InvalidYaml);
          case NotDict =>
            r := Parsed(st.(inSectionMetadata := false, sectionYaml := []));
          case Dict(items) =>
            var sectionMetadata := ApplySectionMetadata(last.metadata, items);
            last := last.(metadata := sectionMetadata);
            r := Parsed(st.(inSectionMetadata := false, slide := st.slide.(sections := sections[|sections| - 1 := last]), sectionYaml := []));
        }
      } else {
        r := Parsed(st.(sectionYaml := st.sectionYaml + [line]));
      }
    } else {
      var last := sections[|sections| - 1];
      if last.content != "" {
        last := last.(content := last.content + "\n" + line);
      } else {
        last := last.(content := line);
      }
      r := Parsed(st.(slide := st.slide.(sections := sections[|sections| - 1 := last])));
    }
  }

  /** `parse_markdown_to_slides`, without the final `create_slide` calls. */
  method ParseMarkdownToSlides(mdContent: string, yaml: Yaml) returns (r: Parsed<seq<Slide>>)
    ensures r == ParseMarkdown(mdContent, yaml)
  {
    var rawSlides := Split(mdContent, SlideSeparator);
    ghost var results := SlideResults(rawSlides, yaml);
    var parsedSlides: seq<Slide> := [];
    var i := 0;
    while i < |rawSlides|
      invariant 0 <= i <= |rawSlides|
      invariant Collect(results[..i]) == Parsed(parsedSlides)
    {
      assert results[..i + 1][..i] == results[..i];
      var lines := Split(PyStrip(rawSlides[i]), "\n");
      var parsed := ParseSlideLines(lines, yaml);
      assert parsed == results[i];
      if parsed.ParseFailed? {
        CollectFailedPrefix(results, i + 1);
        return ParseFailed(parsed.error);
      }
      parsedSlides := parsedSlides + [parsed.value];
      i := i + 1;
    }
    assert results[..|rawSlides|] == results;
    r := Parsed(parsedSlides);
  }
}
