// The slide view of the slides extension: the title and the positions of
// the drawn elements are taken from the slide's stored attributes, with
// the live edits of the slide laid over them, and the heights of the
// header, title and content area are computed from the slide's height.
// Sizes are whole pixels here; drawing is not modelled.

module SlideView {
  import opened Common

  datatype Point = Point(x: int, y: int)

  /** The stored title; absent font size, family or color are `None`. */
  datatype TitleConfig = TitleConfig(text: string, fontSize: Option<int>, fontFamily: Option<string>, color: Option<string>)

  datatype Direction = Right | Left | Up | Down

  /** An arrow shape placed on the slide. */
  datatype SlideElement = SlideElement(direction: Direction, position: Point, width: int, height: int,
                                       stroke: string, strokeWidth: int, fill: string)

  /**
   * The live edits of one slide, as far as this view reads them. A position
   * update made elsewhere may carry no element index; it then matches no element.
   */
  datatype SlideEditAction =
    | SetTitle(text: string)
    | UpdateElementPosition(elementIndex: Option<int>, position: Point)
    | OtherAction

  // ---------------------------------------------------------------------
  // Title
  // ---------------------------------------------------------------------

  /** The text of the last `set_title` edit, if any (`filter(...).pop()`). */
  function LastTitleEdit(edits: seq<SlideEditAction>): Option<string>
  {
    if |edits| == 0 then None
    else if edits[|edits| - 1].SetTitle? then Some(edits[|edits| - 1].text)
    else LastTitleEdit(edits[..|edits| - 1])
  }

  /** The title shown: none without a stored title, else the stored one with the last edited text. */
  function EffectiveTitle(baseTitle: Option<TitleConfig>, edits: seq<SlideEditAction>): Option<TitleConfig>
  {
    if baseTitle.None? then None
    else
      match LastTitleEdit(edits)
      case Some(text) => Some(baseTitle.value.(text := text))
      case None => baseTitle
  }

  /** No `set_title` edit at or after index `from`. */
  ghost predicate NoTitleEditFrom(edits: seq<SlideEditAction>, from: int)
  {
    forall k :: from <= k < |edits| && 0 <= k ==> !edits[k].SetTitle?
  }

  lemma {:induction false} LastTitleEditNone(edits: seq<SlideEditAction>)
    ensures LastTitleEdit(edits).None? <==> NoTitleEditFrom(edits, 0)
  {
    if |edits| > 0 {
      var init := edits[..|edits| - 1];
      LastTitleEditNone(init);
      assert forall k :: 0 <= k < |init| ==> init[k] == edits[k];
    }
  }

  lemma {:induction false} LastTitleEditWins(edits: seq<SlideEditAction>, j: nat)
    requires j < |edits| && edits[j].SetTitle? && NoTitleEditFrom(edits, j + 1)
    ensures LastTitleEdit(edits) == Some(edits[j].text)
  {
    var n := |edits| - 1;
    if j < n {
      var init := edits[..n];
      assert !edits[n].SetTitle?;
      assert init[j] == edits[j];
      assert NoTitleEditFrom(init, j + 1) by {
        forall k | j + 1 <= k < n ensures !init[k].SetTitle? {
          assert init[k] == edits[k];
        }
      }
      LastTitleEditWins(init, j);
    }
  }

  /**
   * Without a stored title there is none; with one, its text is that of the
   * last `set_title` edit, or the stored text when there is no such edit,
   * and its font size, family and color are always the stored ones.
   */
  lemma TitleSpec(baseTitle: Option<TitleConfig>, edits: seq<SlideEditAction>)
    ensures baseTitle.None? ==> EffectiveTitle(baseTitle, edits).None?
    ensures baseTitle.Some? ==>
              var t := EffectiveTitle(baseTitle, edits);
              && t.Some?
              && t.value.fontSize == baseTitle.value.fontSize
              && t.value.fontFamily == baseTitle.value.fontFamily
              && t.value.color == baseTitle.value.color
              && (NoTitleEditFrom(edits, 0) ==> t == baseTitle)
              && (forall j :: 0 <= j < |edits| && edits[j].SetTitle? && NoTitleEditFrom(edits, j + 1) ==>
                    t.value.text == edits[j].text)
  {
    LastTitleEditNone(edits);
    forall j | 0 <= j < |edits| && edits[j].SetTitle? && NoTitleEditFrom(edits, j + 1)
      ensures LastTitleEdit(edits) == Some(edits[j].text)
    {
      LastTitleEditWins(edits, j);
    }
  }

  // ---------------------------------------------------------------------
  // Elements
  // ---------------------------------------------------------------------

  predicate MovesElement(a: SlideEditAction, index: int)
  {
    a.UpdateElementPosition? && a.elementIndex == Some(index)
  }

  predicate IsPositionUpdate(a: SlideEditAction) { a.UpdateElementPosition? }

  /** The position of the last update of element `index`, if any. */
  function LastPositionFor(edits: seq<SlideEditAction>, index: int): Option<Point>
  {
    if |edits| == 0 then None
    else if MovesElement(edits[|edits| - 1], index) then Some(edits[|edits| - 1].position)
    else LastPositionFor(edits[..|edits| - 1], index)
  }

  /** The `elements` memo: stored elements (none when absent), moved by the edits. */
  function Elements(baseElements: Option<seq<SlideElement>>, edits: seq<SlideEditAction>): seq<SlideElement>
  {
    var base := if baseElements.Some? then baseElements.value else [];
    if forall k :: 0 <= k < |edits| ==> !IsPositionUpdate(edits[k]) then base
    else
      seq(|base|, i requires 0 <= i < |base| =>
        match LastPositionFor(edits, i)
        case Some(p) => base[i].(position := p)
        case None => base[i])
  }

  ghost predicate NoMoveFrom(edits: seq<SlideEditAction>, from: int, index: int)
  {
    forall k :: from <= k < |edits| && 0 <= k ==> !MovesElement(edits[k], index)
  }

  lemma {:induction false} LastPositionNone(edits: seq<SlideEditAction>, index: int)
    ensures LastPositionFor(edits, index).None? <==> NoMoveFrom(edits, 0, index)
  {
    if |edits| > 0 {
      var init := edits[..|edits| - 1];
      LastPositionNone(init, index);
      assert forall k :: 0 <= k < |init| ==> init[k] == edits[k];
    }
  }

  lemma {:induction false} LastPositionWins(edits: seq<SlideEditAction>, index: int, j: nat)
    requires j < |edits| && MovesElement(edits[j], index) && NoMoveFrom(edits, j + 1, index)
    ensures LastPositionFor(edits, index) == Some(edits[j].position)
  {
    var n := |edits| - 1;
    if j < n {
      var init := edits[..n];
      assert !MovesElement(edits[n], index);
      assert init[j] == edits[j];
      assert NoMoveFrom(init, j + 1, index) by {
        forall k | j + 1 <= k < n ensures !MovesElement(init[k], index) {
          assert init[k] == edits[k];
        }
      }
      LastPositionWins(init, index, j);
    }
  }

  /**
   * The elements keep their number and order; each takes the position of the
   * last update naming its index and is otherwise unchanged.
   */
  lemma ElementsSpec(baseElements: Option<seq<SlideElement>>, edits: seq<SlideEditAction>)
    ensures var base := if baseElements.Some? then baseElements.value else [];
            var r := Elements(baseElements, edits);
            && |r| == |base|
            && (forall i :: 0 <= i < |base| && NoMoveFrom(edits, 0, i) ==> r[i] == base[i])
            && (forall i, j ::
                  0 <= i < |base| && 0 <= j < |edits| && MovesElement(edits[j], i) && NoMoveFrom(edits, j + 1, i)
                  ==> r[i] == base[i].(position := edits[j].position))
  {
    var base := if baseElements.Some? then baseElements.value else [];
    var r := Elements(baseElements, edits);
    forall i | 0 <= i < |base| && NoMoveFrom(edits, 0, i)
      ensures r[i] == base[i]
    {
      LastPositionNone(edits, i);
    }
    forall i, j | 0 <= i < |base| && 0 <= j < |edits| && MovesElement(edits[j], i) && NoMoveFrom(edits, j + 1, i)
      ensures r[i] == base[i].(position := edits[j].position)
    {
      LastPositionWins(edits, i, j);
    }
  }

  // ---------------------------------------------------------------------
  // Heights
  // ---------------------------------------------------------------------

  /** The heights of the slide's parts. */
  datatype Layout = Layout(contentAreaHeight: int, titleHeight: int, viewWrapperHeight: int)

  const ContentPadding: int := 40
  const DefaultTitleFontSize: int := 32
  const TitleMargin: int := 20

  /** `x || d` for a number: an absent or zero value falls back to `d`. */
  function OrDefault(x: Option<int>, d: int): int
  {
    if x.None? || x.value == 0 then d else x.value
  }

  /**
   * Header, footer, title, padding and the view wrapper add up to the slide
   * height; the title takes its font size (32 by default) plus a 20-pixel
   * margin when shown, and no room otherwise.
   */
  function SlideLayout(height: int, headerHeight: Option<int>, footerHeight: Option<int>,
                       title: Option<TitleConfig>, hideTitle: Option<bool>): (l: Layout)
    ensures l.contentAreaHeight + OrDefault(headerHeight, 0) + OrDefault(footerHeight, 0) == height
    ensures l.viewWrapperHeight + l.titleHeight + ContentPadding == l.contentAreaHeight
    ensures title.None? || hideTitle == Some(true) ==> l.titleHeight == 0
    ensures title.Some? && hideTitle != Some(true) ==>
              l.titleHeight == (if title.value.fontSize.Some? && title.value.fontSize.value != 0
                                then title.value.fontSize.value else 32) + 20
  {
    var showTitle := title.Some? && !(hideTitle == Some(true));
    var titleFontSize := if showTitle then OrDefault(title.value.fontSize, DefaultTitleFontSize) else 0;
    var titleMargin := if showTitle then TitleMargin else 0;
    var titleHeight := if title.Some? then titleFontSize + titleMargin else 0;
    var contentAreaHeight := height - OrDefault(headerHeight, 0) - OrDefault(footerHeight, 0);
    Layout(contentAreaHeight, titleHeight, contentAreaHeight - titleHeight - ContentPadding)
  }
}
