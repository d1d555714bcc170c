// The vertical layout of the figure viewer: items are stacked top to
// bottom, each taking its own height plus a title bar when titles are
// shown, inside a scrolling view. An item is rendered once it has been at
// least partly inside the scrolled window, and stays rendered afterwards.
// Sizes are whole pixels here.

module VerticalLayout {
  import opened Common

  const TitleBarHeight: int := 30

  /** An item; a title that is absent or empty counts as none. */
  datatype LayoutItem = LayoutItem(name: string, height: int, title: Option<string>)

  datatype Position = Position(y: int, height: int, titleHeight: int)

  predicate HasTitle(item: LayoutItem)
  {
    item.title.Some? && item.title.value != ""
  }

  function TitleHeight(item: LayoutItem, showTitles: bool): int
  {
    if showTitles && HasTitle(item) then TitleBarHeight else 0
  }

  /** The height an item takes, title bar included. */
  function ItemHeight(item: LayoutItem, showTitles: bool): int
  {
    TitleHeight(item, showTitles) + item.height
  }

  /** The sum of the items' heights. */
  function TotalHeight(items: seq<LayoutItem>, showTitles: bool): int
  {
    if |items| == 0 then 0
    else TotalHeight(items[..|items| - 1], showTitles) + ItemHeight(items[|items| - 1], showTitles)
  }

  /** The positions of the items: each one starts where the items before it end. */
  function Layout(items: seq<LayoutItem>, showTitles: bool): (r: seq<Position>)
    ensures |r| == |items|
  {
    if |items| == 0 then []
    else
      var init, item := items[..|items| - 1], items[|items| - 1];
      Layout(init, showTitles) + [Position(TotalHeight(init, showTitles), ItemHeight(item, showTitles),
                                           TitleHeight(item, showTitles))]
  }

  /** The height of the scrolled window: the layout's title bar, if any, is taken off. */
  function ScrollViewHeight(height: int, layoutTitle: Option<string>): int
  {
    height - (if layoutTitle.Some? && layoutTitle.value != "" then TitleBarHeight else 0)
  }

  /**
   * The title bar is taken off only for a layout title that JavaScript
   * counts as true: an absent or empty title leaves the whole height.
   */
  lemma ScrollViewHeightSpec(height: int, layoutTitle: Option<string>)
    ensures layoutTitle.None? || layoutTitle == Some("") ==> ScrollViewHeight(height, layoutTitle) == height
    ensures layoutTitle.Some? && layoutTitle.value != "" ==> ScrollViewHeight(height, layoutTitle) == height - 30
  {
  }

  /** Each position starts where the one before it ends, the first at 0. */
  ghost predicate Stacked(positions: seq<Position>)
  {
    && (|positions| > 0 ==> positions[0].y == 0)
    && forall i :: 0 <= i < |positions| - 1 ==> positions[i + 1].y == positions[i].y + positions[i].height
  }

  lemma {:induction false} LayoutOffsets(items: seq<LayoutItem>, showTitles: bool)
    ensures forall i :: 0 <= i < |items| ==>
              Layout(items, showTitles)[i] ==
              Position(TotalHeight(items[..i], showTitles), ItemHeight(items[i], showTitles), TitleHeight(items[i], showTitles))
  {
    if |items| > 0 {
      var init := items[..|items| - 1];
      LayoutOffsets(init, showTitles);
      assert forall i :: 0 <= i < |init| ==> items[..i] == init[..i] && items[i] == init[i];
    }
  }

  /**
   * Item i starts at the total height of the items before it and takes its
   * own height plus a 30-pixel title bar when titles are shown and it has a
   * title; the items are stacked without gaps, and the last one ends at the
   * total height.
   */
  lemma LayoutSpec(items: seq<LayoutItem>, showTitles: bool)
    ensures var r := Layout(items, showTitles);
            && Stacked(r)
            && (forall i :: 0 <= i < |items| ==>
                  && r[i].y == TotalHeight(items[..i], showTitles)
                  && r[i].height == items[i].height + (if showTitles && HasTitle(items[i]) then 30 else 0))
            && (|items| > 0 ==> TotalHeight(items, showTitles) == r[|items| - 1].y + r[|items| - 1].height)
  {
    LayoutOffsets(items, showTitles);
    var r := Layout(items, showTitles);
    forall i | 0 <= i < |items| - 1
      ensures r[i + 1].y == r[i].y + r[i].height
    {
      assert items[..i + 1][..i] == items[..i];
    }
  }

  /** The `itemPositions` memo. */
  method ItemPositions(items: seq<LayoutItem>, showTitles: bool) returns (positions: seq<Position>, totalHeight: int)
    ensures positions == Layout(items, showTitles)
    ensures totalHeight == TotalHeight(items, showTitles)
  {
    positions := [];
    var currentY := 0;
    var i := 0;
    while i < |items|
      invariant 0 <= i <= |items|
      invariant positions == Layout(items[..i], showTitles)
      invariant currentY == TotalHeight(items[..i], showTitles)
    {
      var item := items[i];
      var titleHeight := if showTitles && item.title.Some? && item.title.value != "" then TitleBarHeight else 0;
      var itemHeight := item.height;
      var totalHeight := titleHeight + itemHeight;
      assert items[..i + 1][..i] == items[..i];
      positions := positions + [Position(currentY, totalHeight, titleHeight)];
      currentY := currentY + totalHeight;
      i := i + 1;
    }
    assert items[..|items|] == items;
    totalHeight := currentY;
  }

  // ---------------------------------------------------------------------
  // Visibility
  // ---------------------------------------------------------------------

  /** Item i is at least partly inside the window [scrollTop, scrollTop + viewHeight). */
  predicate Visible(positions: seq<Position>, scrollTop: int, viewHeight: int, i: int)
    requires 0 <= i < |positions|
  {
    positions[i].y + positions[i].height > scrollTop && positions[i].y < scrollTop + viewHeight
  }

  function VisibleIndices(positions: seq<Position>, scrollTop: int, viewHeight: int): set<int>
  {
    set i | 0 <= i < |positions| && Visible(positions, scrollTop, viewHeight, i)
  }

  lemma {:induction false} StackedMonotone(positions: seq<Position>, a: nat, b: nat)
    requires Stacked(positions) && a < b < |positions|
    requires forall k :: 0 <= k < |positions| ==> positions[k].height >= 0
    ensures positions[a].y + positions[a].height <= positions[b].y
    decreases b - a
  {
    if a + 1 < b {
      StackedMonotone(positions, a + 1, b);
    }
  }

  /**
   * With stacked positions of non-negative height, the visible items form a
   * contiguous run: an item between two visible ones is visible.
   */
  lemma VisibleContiguous(positions: seq<Position>, scrollTop: int, viewHeight: int, i: nat, j: nat, k: nat)
    requires Stacked(positions) && forall n :: 0 <= n < |positions| ==> positions[n].height >= 0
    requires i < j < k < |positions|
    requires Visible(positions, scrollTop, viewHeight, i) && Visible(positions, scrollTop, viewHeight, k)
    ensures Visible(positions, scrollTop, viewHeight, j)
  {
    StackedMonotone(positions, i, j);
    StackedMonotone(positions, j, k);
  }

  /** The "visible once" set after the window has been at each of `scrolls` in turn. */
  function VisibleOnce(positions: seq<Position>, viewHeight: int, scrolls: seq<int>): set<int>
  {
    if |scrolls| == 0 then {}
    else VisibleOnce(positions, viewHeight, scrolls[..|scrolls| - 1]) +
         VisibleIndices(positions, scrolls[|scrolls| - 1], viewHeight)
  }

  /** An item is in the "visible once" set iff it was visible at one of the scroll positions. */
  lemma {:induction false} VisibleOnceSpec(positions: seq<Position>, viewHeight: int, scrolls: seq<int>, i: int)
    ensures i in VisibleOnce(positions, viewHeight, scrolls) <==>
              0 <= i < |positions| && exists k :: 0 <= k < |scrolls| && Visible(positions, scrolls[k], viewHeight, i)
  {
    if |scrolls| > 0 {
      var init := scrolls[..|scrolls| - 1];
      VisibleOnceSpec(positions, viewHeight, init, i);
      assert forall k :: 0 <= k < |init| ==> init[k] == scrolls[k];
    }
  }

  /** The "visible once" set only grows as the window moves. */
  lemma {:induction false} VisibleOnceGrows(positions: seq<Position>, viewHeight: int, scrolls: seq<int>, n: nat)
    requires n <= |scrolls|
    ensures VisibleOnce(positions, viewHeight, scrolls[..n]) <= VisibleOnce(positions, viewHeight, scrolls)
    decreases |scrolls| - n
  {
    if n < |scrolls| {
      var init := scrolls[..|scrolls| - 1];
      assert init[..n] == scrolls[..n];
      VisibleOnceGrows(positions, viewHeight, init, n);
    } else {
      assert scrolls[..n] == scrolls;
    }
  }
}
