// The markdown view of the slides extension: the text of one section is
// taken from the latest live edit for that section, if any, and cut into
// fragments. Lines between "::: incremental" and ":::" that start with a
// bullet become fragments of their own, so a presenter can reveal them one
// at a time; in presentation mode only the fragments up to the current one
// are shown. Rendering, the zarr fetch and the fragment-count registration
// are not modelled.

module MarkdownFragments {
  import opened Common

  const IncrementalOpen: string := "::: incremental"
  const IncrementalClose: string := ":::"

  // ---------------------------------------------------------------------
  // Live edits
  // ---------------------------------------------------------------------

  /** The edit actions the view looks at; any other action type is skipped. */
  datatype EditAction =
    | EditMarkdown(sectionIndex: int, content: string)
    | OtherAction

  predicate EditsSection(a: EditAction, sectionIndex: int)
  {
    a.EditMarkdown? && a.sectionIndex == sectionIndex
  }

  /** The content after the actions of one slide: the last edit of the section wins. */
  function LastEdit(content: string, actions: seq<EditAction>, sectionIndex: int): string
  {
    if |actions| == 0 then content
    else
      var last := actions[|actions| - 1];
      if EditsSection(last, sectionIndex) then last.content
      else LastEdit(content, actions[..|actions| - 1], sectionIndex)
  }

  /** No action from index `from` on edits the section. */
  ghost predicate NoEditFrom(actions: seq<EditAction>, from: int, sectionIndex: int)
  {
    forall k :: from <= k < |actions| && 0 <= k ==> !EditsSection(actions[k], sectionIndex)
  }

  /** Without an edit of the section the content is kept. */
  lemma {:induction false} LastEditUntouched(content: string, actions: seq<EditAction>, sectionIndex: int)
    requires NoEditFrom(actions, 0, sectionIndex)
    ensures LastEdit(content, actions, sectionIndex) == content
  {
    if |actions| > 0 {
      var init := actions[..|actions| - 1];
      assert NoEditFrom(init, 0, sectionIndex) by {
        forall k | 0 <= k < |init| ensures !EditsSection(init[k], sectionIndex) {
          assert init[k] == actions[k];
        }
      }
      LastEditUntouched(content, init, sectionIndex);
    }
  }

  /** Otherwise the content is that of the last edit of the section. */
  lemma {:induction false} LastEditWins(content: string, actions: seq<EditAction>, sectionIndex: int, j: nat)
    requires j < |actions| && EditsSection(actions[j], sectionIndex) && NoEditFrom(actions, j + 1, sectionIndex)
    ensures LastEdit(content, actions, sectionIndex) == actions[j].content
  {
    var n := |actions| - 1;
    if j < n {
      var init := actions[..n];
      assert !EditsSection(actions[n], sectionIndex);
      assert init[j] == actions[j];
      assert NoEditFrom(init, j + 1, sectionIndex) by {
        forall k | j + 1 <= k < n ensures !EditsSection(init[k], sectionIndex) {
          assert init[k] == actions[k];
        }
      }
      LastEditWins(content, init, sectionIndex, j);
    }
  }

  /** The content the view shows: edits apply only when the slide and section are known. */
  function EditedContent(content: string, slideEdits: Option<map<int, seq<EditAction>>>,
                         sectionIndex: Option<int>, slideIndex: Option<int>): string
  {
    if slideEdits.None? || sectionIndex.None? || slideIndex.None? then content
    else if slideIndex.value !in slideEdits.value then content
    else LastEdit(content, slideEdits.value[slideIndex.value], sectionIndex.value)
  }

  /** The `editedContent` memo. */
  method ComputeEditedContent(content: string, slideEdits: Option<map<int, seq<EditAction>>>,
                              sectionIndex: Option<int>, slideIndex: Option<int>) returns (r: string)
    ensures r == EditedContent(content, slideEdits, sectionIndex, slideIndex)
  {
    if slideEdits.None? || sectionIndex.None? || slideIndex.None? {
      return content;
    }
    if slideIndex.value !in slideEdits.value {
      return content;
    }
    var actions := slideEdits.value[slideIndex.value];
    var modifiedContent := content;
    var i := 0;
    while i < |actions|
      invariant 0 <= i <= |actions|
      invariant LastEdit(content, actions[..i], sectionIndex.value) == modifiedContent
    {
      assert actions[..i + 1][..i] == actions[..i];
      if actions[i].EditMarkdown? && actions[i].sectionIndex == sectionIndex.value {
        modifiedContent := actions[i].content;
      }
      i := i + 1;
    }
    assert actions[..|actions|] == actions;
    r := modifiedContent;
  }

  // ---------------------------------------------------------------------
  // Fragments
  // ---------------------------------------------------------------------

  predicate IsOpenMarker(line: string) { JsTrim(line) == IncrementalOpen }

  predicate IsCloseMarker(line: string) { JsTrim(line) == IncrementalClose }

  predicate IsMarker(line: string) { IsOpenMarker(line) || IsCloseMarker(line) }

  predicate IsBullet(line: string) { StartsWith(line, "* ") || StartsWith(line, "- ") }

  /** The loop state: fragments so far (as lines), the pending lines, the block flag. */
  datatype FragState = FragState(done: seq<seq<string>>, current: seq<string>, inIncremental: bool)

  /** `pushCurrentFragment`: the pending lines become a fragment when there are any. */
  function Flush(st: FragState): FragState
  {
    if |st.current| > 0 then st.(done := st.done + [st.current], current := []) else st
  }

  /** One iteration of the line loop. */
  function FragStep(st: FragState, line: string): FragState
  {
    if IsOpenMarker(line) then Flush(st).(inIncremental := true)
    else if IsCloseMarker(line) then Flush(st).(inIncremental := false)
    else if st.inIncremental && IsBullet(line) then
      var f := Flush(st);
      f.(done := f.done + [[line]])
    else st.(current := st.current + [line])
  }

  /** The state after the line loop has read `lines`. */
  function Scan(lines: seq<string>): FragState
  {
    if |lines| == 0 then FragState([], [], false)
    else FragStep(Scan(lines[..|lines| - 1]), lines[|lines| - 1])
  }

  /** The fragments of a content, each as its list of lines. */
  function FragmentLines(content: string): seq<seq<string>>
  {
    Flush(Scan(Split(content, "\n"))).done
  }

  function JoinEach(groups: seq<seq<string>>): (r: seq<string>)
    ensures |r| == |groups|
  {
    seq(|groups|, i requires 0 <= i < |groups| => Join(groups[i], "\n"))
  }

  /** `getFragmentsForContent`. */
  function Fragments(content: string): seq<string>
  {
    JoinEach(FragmentLines(content))
  }

  /** The lines of a list of fragments, in order. */
  function Flatten(groups: seq<seq<string>>): seq<string>
  {
    if |groups| == 0 then [] else Flatten(groups[..|groups| - 1]) + groups[|groups| - 1]
  }

  /** The input lines that are not block markers, in order. */
  function NonMarkers(lines: seq<string>): seq<string>
  {
    if |lines| == 0 then []
    else
      var init := NonMarkers(lines[..|lines| - 1]);
      if IsMarker(lines[|lines| - 1]) then init else init + [lines[|lines| - 1]]
  }

  /** What holds of the state once the lines read so far, without markers, are `kept`. */
  ghost predicate FragInvariant(st: FragState, kept: seq<string>)
  {
    && (forall k :: 0 <= k < |st.done| ==> |st.done[k]| > 0)
    && Flatten(st.done) + st.current == kept
  }

  lemma FlattenSnoc(groups: seq<seq<string>>, g: seq<string>)
    ensures Flatten(groups + [g]) == Flatten(groups) + g
  {
    assert (groups + [g])[..|groups|] == groups;
  }

  lemma FlushKeeps(st: FragState, kept: seq<string>)
    requires FragInvariant(st, kept)
    ensures FragInvariant(Flush(st), kept)
    ensures |Flush(st).current| == 0
  {
    if |st.current| > 0 {
      FlattenSnoc(st.done, st.current);
    }
  }

  lemma StepKeeps(st: FragState, kept: seq<string>, line: string)
    requires FragInvariant(st, kept)
    ensures FragInvariant(FragStep(st, line), if IsMarker(line) then kept else kept + [line])
  {
    FlushKeeps(st, kept);
    if !IsMarker(line) && st.inIncremental && IsBullet(line) {
      FlattenSnoc(Flush(st).done, [line]);
    }
  }

  lemma {:induction false} ScanInvariant(lines: seq<string>)
    ensures FragInvariant(Scan(lines), NonMarkers(lines))
  {
    if |lines| > 0 {
      var init := lines[..|lines| - 1];
      ScanInvariant(init);
      StepKeeps(Scan(init), NonMarkers(init), lines[|lines| - 1]);
    }
  }

  /**
   * Every fragment holds at least one line, and the fragments' lines, in
   * order, are the content's lines without the block markers.
   */
  lemma FragmentLinesSpec(content: string)
    ensures forall k :: 0 <= k < |FragmentLines(content)| ==> |FragmentLines(content)[k]| > 0
    ensures Flatten(FragmentLines(content)) == NonMarkers(Split(content, "\n"))
  {
    var lines := Split(content, "\n");
    ScanInvariant(lines);
    FlushKeeps(Scan(lines), NonMarkers(lines));
  }

  lemma {:induction false} NonMarkersHasNoMarker(lines: seq<string>)
    ensures forall k :: 0 <= k < |NonMarkers(lines)| ==> !IsMarker(NonMarkers(lines)[k])
  {
    if |lines| > 0 {
      NonMarkersHasNoMarker(lines[..|lines| - 1]);
    }
  }

  lemma {:induction false} FlattenHas(groups: seq<seq<string>>, k: nat, j: nat)
    requires k < |groups| && j < |groups[k]|
    ensures groups[k][j] in Flatten(groups)
  {
    var init := groups[..|groups| - 1];
    if k < |groups| - 1 {
      assert init[k] == groups[k];
      FlattenHas(init, k, j);
    }
  }

  /** No marker line ever reaches a fragment. */
  lemma MarkersDropped(content: string)
    ensures forall k, j :: 0 <= k < |FragmentLines(content)| && 0 <= j < |FragmentLines(content)[k]| ==>
              !IsMarker(FragmentLines(content)[k][j])
  {
    var groups := FragmentLines(content);
    FragmentLinesSpec(content);
    NonMarkersHasNoMarker(Split(content, "\n"));
    forall k, j | 0 <= k < |groups| && 0 <= j < |groups[k]|
      ensures !IsMarker(groups[k][j])
    {
      FlattenHas(groups, k, j);
    }
  }

  /** Fragments that were pushed are never taken back. */
  lemma {:induction false} ScanGrows(a: seq<string>, b: seq<string>)
    ensures Scan(a).done <= Scan(a + b).done
    decreases |b|
  {
    if |b| > 0 {
      var init := b[..|b| - 1];
      assert (a + b)[..|a + b| - 1] == a + init;
      ScanGrows(a, init);
    } else {
      assert a + b == a;
    }
  }

  /**
   * A bullet line read inside an incremental block is a fragment on its own,
   * whatever follows it.
   */
  lemma BulletIsFragment(before: seq<string>, line: string, after: seq<string>)
    requires Scan(before).inIncremental && IsBullet(line) && !IsMarker(line)
    ensures [line] in Flush(Scan(before + [line] + after)).done
  {
    var all := before + [line] + after;
    assert all[..|before + [line]|] == before + [line];
    assert (before + [line])[..|before|] == before;
    var d := Scan(before + [line]).done;
    assert d[|d| - 1] == [line];
    ScanGrows(before + [line], after);
    var e := Scan(all).done;
    assert e[|d| - 1] == [line];
  }

  /** Joining the joined fragments gives the joined lines they hold. */
  lemma {:induction false} JoinFlatten(groups: seq<seq<string>>)
    requires forall k :: 0 <= k < |groups| ==> |groups[k]| > 0
    ensures Join(JoinEach(groups), "\n") == Join(Flatten(groups), "\n")
  {
    if |groups| > 0 {
      var init := groups[..|groups| - 1];
      var g := groups[|groups| - 1];
      JoinFlatten(init);
      assert JoinEach(groups) == JoinEach(init) + [Join(g, "\n")];
      JoinAppend(JoinEach(init), [Join(g, "\n")]);
      JoinAppend(Flatten(init), g);
      assert |init| > 0 ==> |Flatten(init)| > 0 by {
        if |init| > 0 {
          assert init[..|init| - 1] + [init[|init| - 1]] == init;
        }
      }
    }
  }

  /** Join of a concatenation, for the "\n" separator and two non-empty lists. */
  lemma {:induction false} JoinAppend(a: seq<string>, b: seq<string>)
    ensures |a| > 0 && |b| > 0 ==> Join(a + b, "\n") == Join(a, "\n") + "\n" + Join(b, "\n")
    ensures |a| == 0 ==> Join(a + b, "\n") == Join(b, "\n")
    ensures |b| == 0 ==> Join(a + b, "\n") == Join(a, "\n")
  {
    if |a| == 0 {
      assert a + b == b;
    } else if |b| == 0 {
      assert a + b == a;
    } else if |a| == 1 {
      assert a + b == [a[0]] + b;
    } else {
      JoinAppend(a[1..], b);
      assert a + b == [a[0]] + (a[1..] + b);
    }
  }

  /** The `visibleContent` memo. */
  function VisibleContent(fragments: seq<string>, isPresentationMode: bool, currentFragmentIndex: int): string
  {
    if isPresentationMode then Join(JsSlice(fragments, 0, currentFragmentIndex + 1), "\n")
    else Join(fragments, "\n")
  }

  /**
   * In presentation mode exactly the first `currentFragmentIndex + 1`
   * fragments are shown (all of them when there are fewer); otherwise all.
   */
  lemma VisibleFragments(fragments: seq<string>, isPresentationMode: bool, currentFragmentIndex: int)
    requires currentFragmentIndex >= 0
    ensures var shown := if isPresentationMode then Min(currentFragmentIndex + 1, |fragments|) else |fragments|;
            VisibleContent(fragments, isPresentationMode, currentFragmentIndex) == Join(fragments[..shown], "\n")
  {
    assert fragments[..|fragments|] == fragments;
  }

  /** Outside presentation mode the view shows the content without its marker lines. */
  lemma FullContentShown(content: string)
    ensures VisibleContent(Fragments(content), false, 0) == Join(NonMarkers(Split(content, "\n")), "\n")
  {
    FragmentLinesSpec(content);
    JoinFlatten(FragmentLines(content));
  }

  lemma JoinEachSnoc(groups: seq<seq<string>>, g: seq<string>)
    ensures JoinEach(groups + [g]) == JoinEach(groups) + [Join(g, "\n")]
  {
    assert forall k :: 0 <= k < |groups| ==> (groups + [g])[k] == groups[k];
  }

  /** `getFragmentsForContent`, as the loop it is. */
  method GetFragmentsForContent(content: string) returns (fragments: seq<string>)
    ensures fragments == Fragments(content)
  {
    var lines := Split(content, "\n");
    fragments := [];
    var currentFragmentLines: seq<string> := [];
    var inIncremental := false;
    ghost var done: seq<seq<string>> := [];
    var i := 0;
    while i < |lines|
      invariant 0 <= i <= |lines|
      invariant Scan(lines[..i]) == FragState(done, currentFragmentLines, inIncremental)
      invariant fragments == JoinEach(done)
    {
      assert lines[..i + 1][..i] == lines[..i];
      fragments, done, currentFragmentLines, inIncremental :=
        ReadLine(fragments, done, currentFragmentLines, inIncremental, lines[i]);
      i := i + 1;
    }
    assert lines[..|lines|] == lines;
    fragments, done, currentFragmentLines := PushCurrentFragment(fragments, done, currentFragmentLines);
  }

  /** The body of the line loop. */
  method ReadLine(fragments: seq<string>, ghost done: seq<seq<string>>, currentFragmentLines: seq<string>,
                  inIncremental: bool, line: string)
    returns (fragments': seq<string>, ghost done': seq<seq<string>>, currentFragmentLines': seq<string>,
             inIncremental': bool)
    requires fragments == JoinEach(done)
    ensures FragState(done', currentFragmentLines', inIncremental') ==
            FragStep(FragState(done, currentFragmentLines, inIncremental), line)
    ensures fragments' == JoinEach(done')
  {
    inIncremental' := inIncremental;
    if JsTrim(line) == IncrementalOpen {
      fragments', done', currentFragmentLines' := PushCurrentFragment(fragments, done, currentFragmentLines);
      inIncremental' := true;
    } else if JsTrim(line) == IncrementalClose {
      fragments', done', currentFragmentLines' := PushCurrentFragment(fragments, done, currentFragmentLines);
      inIncremental' := false;
    } else if inIncremental && (StartsWith(line, "* ") || StartsWith(line, "- ")) {
      fragments', done', currentFragmentLines' := PushCurrentFragment(fragments, done, currentFragmentLines);
      ghost var f := Flush(FragState(done, currentFragmentLines, inIncremental));
      assert done' == f.done;
      currentFragmentLines' := currentFragmentLines' + [line];
      assert currentFragmentLines' == [line];
      fragments', done', currentFragmentLines' := PushCurrentFragment(fragments', done', currentFragmentLines');
      assert done' == f.done + [[line]];
    } else {
      fragments', done', currentFragmentLines' := fragments, done, currentFragmentLines + [line];
    }
  }

  /** `pushCurrentFragment`. */
  method PushCurrentFragment(fragments: seq<string>, ghost done: seq<seq<string>>, currentFragmentLines: seq<string>)
    returns (fragments': seq<string>, ghost done': seq<seq<string>>, currentFragmentLines': seq<string>)
    requires fragments == JoinEach(done)
    ensures done' == Flush(FragState(done, currentFragmentLines, false)).done
    ensures currentFragmentLines' == []
    ensures fragments' == JoinEach(done')
  {
    fragments', done', currentFragmentLines' := fragments, done, currentFragmentLines;
    if |currentFragmentLines| > 0 {
      JoinEachSnoc(done, currentFragmentLines);
      fragments' := fragments + [Join(currentFragmentLines, "\n")];
      done' := done + [currentFragmentLines];
      currentFragmentLines' := [];
    }
  }
}
