/**
 * The picker's state: the tabs sorted for display, the search results, and
 * one cursor for each; how the cursors move; and the two layouts that fit
 * the tabs or the results into a row budget.
 */
module TabList {
  import opened Wrappers
  import opened Ui
  import Measure

  /** The largest `usize` of the wasm32 target zellij plugins are built for, where `saturating_add` stops. */
  const UsizeMax: nat := 0xFFFF_FFFF

  function Min(a: nat, b: nat): (m: nat)
    ensures m <= a && m <= b && (m == a || m == b)
  {
    if a <= b then a else b
  }

  /** `slice::get(i..j)`: the sub-slice, or nothing when the range is reversed or runs past the end. */
  function Get<T>(s: seq<T>, i: nat, j: nat): (r: Option<seq<T>>)
    ensures r.Some? <==> i <= j <= |s|
    ensures r.Some? ==> r.value == s[i..j]
  {
    if i <= j <= |s| then Some(s[i..j]) else Option.None
  }

  // ---------------------------------------------------------------------------
  // The display window

  /** `(start_index, anchor_index, end_index, lines_left_to_remove)`. */
  datatype Window = Window(start: nat, anchor: nat, end: nat, linesLeftToRemove: nat)

  /** How many lines the window keeps: one when more lines must go than there are, otherwise the rest. */
  function CountToRender(totalCount: nat, lineCountToRemove: nat): (c: nat)
    ensures c >= 1 || totalCount == lineCountToRemove
    ensures lineCountToRemove <= totalCount ==> c + lineCountToRemove == totalCount
    ensures lineCountToRemove > totalCount ==> c == 1
  {
    if lineCountToRemove > totalCount then 1 else totalCount - lineCountToRemove
  }

  /**
   * `minimize_lines`: a window of `CountToRender` lines, centred on the
   * anchor where the list allows, shifted back when it would run past the
   * end, with the deficit it could not absorb.
   */
  function MinimizeLines(totalCount: nat, lineCountToRemove: nat, selectedIndex: Option<nat>): (w: Window)
    ensures w.anchor == selectedIndex.UnwrapOr(0)
    ensures lineCountToRemove > totalCount ==> w.linesLeftToRemove == lineCountToRemove - totalCount + 1
    ensures lineCountToRemove <= totalCount ==> w.linesLeftToRemove == 0
    ensures w.start <= w.end <= totalCount
    ensures w.end - w.start == Min(CountToRender(totalCount, lineCountToRemove), totalCount)
    ensures CountToRender(totalCount, lineCountToRemove) >= 1 && w.anchor < totalCount
        ==> w.start <= w.anchor < w.end
    ensures 0 < w.start && w.end < totalCount
        ==> w.anchor - w.start == CountToRender(totalCount, lineCountToRemove) / 2
  {
    var count := CountToRender(totalCount, lineCountToRemove);
    var left := if lineCountToRemove > totalCount
      then Measure.SaturatingSub(lineCountToRemove, totalCount) + 1 else 0;
    var anchor := selectedIndex.UnwrapOr(0);
    var start := Measure.SaturatingSub(anchor, count / 2);
    var end := start + count;
    if end > totalCount then
      Window(Measure.SaturatingSub(start, end - totalCount), anchor, totalCount, left)
    else
      Window(start, anchor, end, left)
  }

  lemma MinimizeLinesCentred()
    ensures MinimizeLines(10, 3, Some(5)) == Window(2, 5, 9, 0)
    ensures MinimizeLines(5, 7, Option.None) == Window(0, 0, 1, 3)
    ensures MinimizeLines(20, 15, Some(10)) == Window(8, 10, 13, 0)
  {
  }

  /** Near the end of the list the window is shifted back rather than shortened. */
  lemma MinimizeLinesShiftedBack()
    ensures MinimizeLines(10, 4, Some(9)) == Window(4, 9, 10, 0)
  {
  }

  /** Removing exactly as many lines as there are leaves an empty window at the anchor. */
  lemma MinimizeLinesEmpty(totalCount: nat, selectedIndex: Option<nat>)
    requires selectedIndex.UnwrapOr(0) < totalCount
    ensures var w := MinimizeLines(totalCount, totalCount, selectedIndex);
      w.start == w.end == w.anchor && w.linesLeftToRemove == 0
  {
  }

  // ---------------------------------------------------------------------------
  // Laying out a windowed list (`render_assets!`)

  /** A tab's line carrying `count` hidden results. */
  function TabView(t: TabUiInfo, count: nat, maxCols: nat, colors: Colors, w: char -> nat): LineView
  {
    t.View(maxCols, colors, w).(truncatedResultCount := count)
  }

  /** The count of entries hidden after the window. */
  function HiddenBelow<T>(assets: seq<T>, win: Window): nat
  {
    Measure.SaturatingSub(|assets|, win.end)
  }

  /** The lines above the anchor; the first of them carries the count hidden above. */
  function AboveViews(assets: seq<TabUiInfo>, win: Window, maxCols: nat, colors: Colors, w: char -> nat): seq<LineView>
  {
    match Get(assets, win.start, win.anchor)
    case None => []
    case Some(xs) =>
      seq(|xs|, k requires 0 <= k < |xs| => TabView(xs[k], if k == 0 then win.start else 0, maxCols, colors, w))
  }

  /** The count hidden above that no line above the anchor took. */
  function PendingAbove<T>(assets: seq<T>, win: Window): nat
  {
    match Get(assets, win.start, win.anchor)
    case Some(xs) => if xs == [] then win.start else 0
    case None => win.start
  }

  /**
   * The anchor's line, when the anchor is a tab: made selected, with the
   * pending counts, only when there is a selection and no deeper selection;
   * otherwise plain and without a count.
   */
  function AnchorViews(assets: seq<TabUiInfo>, win: Window, selectedIndex: Option<nat>, hasDeeperSelectedAssets: bool,
                       maxCols: nat, colors: Colors, w: char -> nat): seq<LineView>
  {
    if win.anchor < |assets| then
      var plain := assets[win.anchor].View(maxCols, colors, w);
      if selectedIndex.Some? && !hasDeeperSelectedAssets then
        var below := if win.anchor + 1 >= win.end then HiddenBelow(assets, win) else 0;
        [Selected(plain, ListArrows, true).(truncatedResultCount := PendingAbove(assets, win) + below)]
      else
        [plain]
    else
      []
  }

  /** The lines below the anchor, in index order; the last of them carries the count hidden below. */
  function BelowViews(assets: seq<TabUiInfo>, win: Window, maxCols: nat, colors: Colors, w: char -> nat): seq<LineView>
  {
    match Get(assets, win.anchor + 1, win.end)
    case None => []
    case Some(ys) => TrailingViews(ys, HiddenBelow(assets, win), maxCols, colors, w)
  }

  /** The lines of `ys` in order, the last of them carrying `count`. */
  function TrailingViews(ys: seq<TabUiInfo>, count: nat, maxCols: nat, colors: Colors, w: char -> nat): seq<LineView>
  {
    seq(|ys|, k requires 0 <= k < |ys| => TabView(ys[k], if k == |ys| - 1 then count else 0, maxCols, colors, w))
  }

  /**
   * The `render_assets!` macro: the lines up to and including the anchor,
   * the lines after it, and the deficit the window could not absorb.
   */
  method RenderAssets(assets: seq<TabUiInfo>, lineCountToRemove: nat, selectedIndex: Option<nat>,
                      hasDeeperSelectedAssets: bool, maxCols: nat, colors: Colors, w: char -> nat)
    returns (untilSelected: seq<LineToRender>, afterSelected: seq<LineToRender>, linesLeftToRemove: nat)
    ensures var win := MinimizeLines(|assets|, lineCountToRemove, selectedIndex);
      && ViewsOf(untilSelected)
         == AboveViews(assets, win, maxCols, colors, w)
          + AnchorViews(assets, win, selectedIndex, hasDeeperSelectedAssets, maxCols, colors, w)
      && ViewsOf(afterSelected) == BelowViews(assets, win, maxCols, colors, w)
      && linesLeftToRemove == win.linesLeftToRemove
    ensures forall k :: 0 <= k < |untilSelected| ==> fresh(untilSelected[k])
    ensures forall k :: 0 <= k < |afterSelected| ==> fresh(afterSelected[k])
  {
    var win := MinimizeLines(|assets|, lineCountToRemove, selectedIndex);
    var truncatedResultCountBelow := Measure.SaturatingSub(|assets|, win.end);
    var above, truncatedResultCountAbove := RenderAbove(assets, win, maxCols, colors, w);
    ghost var aboveViews := ViewsOf(above);
    var anchorLine := RenderAnchor(assets, win, selectedIndex, hasDeeperSelectedAssets,
                                   truncatedResultCountAbove, truncatedResultCountBelow, maxCols, colors, w);
    assert ViewsOf(above) == aboveViews;
    untilSelected := above + anchorLine;
    ViewsOfAppend(above, anchorLine);
    ghost var untilViews := ViewsOf(untilSelected);
    afterSelected := RenderBelow(assets, win, truncatedResultCountBelow, maxCols, colors, w);
    assert ViewsOf(untilSelected) == untilViews;
    linesLeftToRemove := win.linesLeftToRemove;
    forall k | 0 <= k < |untilSelected| ensures fresh(untilSelected[k]) {
      if k < |above| {
        assert untilSelected[k] == above[k];
      } else {
        assert untilSelected[k] == anchorLine[k - |above|];
      }
    }
  }

  /** A tab's line, made fresh, carrying `count` hidden results. */
  method RenderTab(t: TabUiInfo, count: nat, maxCols: nat, colors: Colors, w: char -> nat) returns (asset: LineToRender)
    ensures fresh(asset) && asset.View() == TabView(t, count, maxCols, colors, w)
  {
    asset := t.AsLineToRender(maxCols, colors, w);
    asset.AddTruncatedResults(count);
  }

  /** The lines before the anchor; the count hidden above goes on the first of them, if there is one. */
  method RenderAbove(assets: seq<TabUiInfo>, win: Window, maxCols: nat, colors: Colors, w: char -> nat)
    returns (lines: seq<LineToRender>, truncatedResultCountAbove: nat)
    ensures ViewsOf(lines) == AboveViews(assets, win, maxCols, colors, w)
    ensures truncatedResultCountAbove == PendingAbove(assets, win)
    ensures forall k :: 0 <= k < |lines| ==> fresh(lines[k])
  {
    ghost var above := AboveViews(assets, win, maxCols, colors, w);
    truncatedResultCountAbove := win.start;
    lines := [];
    var assetsBefore := Get(assets, win.start, win.anchor);
    if assetsBefore.Some? {
      var xs := assetsBefore.value;
      for i := 0 to |xs|
        invariant |lines| == i
        invariant forall k :: 0 <= k < i ==> fresh(lines[k]) && lines[k].View() == above[k]
        invariant truncatedResultCountAbove == if i == 0 then win.start else 0
      {
        var asset := RenderTab(xs[i], truncatedResultCountAbove, maxCols, colors, w);
        truncatedResultCountAbove := 0;
        lines := lines + [asset];
      }
    }
  }

  /** The anchor's line, if the anchor is a tab. */
  method RenderAnchor(assets: seq<TabUiInfo>, win: Window, selectedIndex: Option<nat>, hasDeeperSelectedAssets: bool,
                      truncatedResultCountAbove: nat, truncatedResultCountBelow: nat,
                      maxCols: nat, colors: Colors, w: char -> nat)
    returns (lines: seq<LineToRender>)
    requires truncatedResultCountAbove == PendingAbove(assets, win)
    requires truncatedResultCountBelow == HiddenBelow(assets, win)
    ensures ViewsOf(lines) == AnchorViews(assets, win, selectedIndex, hasDeeperSelectedAssets, maxCols, colors, w)
    ensures forall k :: 0 <= k < |lines| ==> fresh(lines[k])
  {
    lines := [];
    if win.anchor < |assets| {
      ghost var expected := AnchorViews(assets, win, selectedIndex, hasDeeperSelectedAssets, maxCols, colors, w);
      var selectedAsset := assets[win.anchor].AsLineToRender(maxCols, colors, w);
      if selectedIndex.Some? && !hasDeeperSelectedAssets {
        selectedAsset.MakeSelected(true);
        selectedAsset.AddTruncatedResults(truncatedResultCountAbove);
        if win.anchor + 1 >= win.end {
          selectedAsset.AddTruncatedResults(truncatedResultCountBelow);
        }
      }
      assert selectedAsset.View() == expected[0];
      lines := [selectedAsset];
      ViewsOfSingleton(selectedAsset);
    }
  }

  /** The lines after the anchor, built from the last back and put in index order; the last carries the count hidden below. */
  method RenderBelow(assets: seq<TabUiInfo>, win: Window, truncatedResultCountBelow: nat,
                     maxCols: nat, colors: Colors, w: char -> nat)
    returns (lines: seq<LineToRender>)
    requires truncatedResultCountBelow == HiddenBelow(assets, win)
    ensures ViewsOf(lines) == BelowViews(assets, win, maxCols, colors, w)
    ensures forall k :: 0 <= k < |lines| ==> fresh(lines[k])
  {
    lines := [];
    var assetsAfter := Get(assets, win.anchor + 1, win.end);
    if assetsAfter.Some? {
      lines := RenderTrailing(assetsAfter.value, truncatedResultCountBelow, maxCols, colors, w);
    }
  }

  /** The loop of `RenderBelow`: from the last tab back, each line put in front, the count on the first one built. */
  method RenderTrailing(ys: seq<TabUiInfo>, truncatedResultCountBelow: nat, maxCols: nat, colors: Colors, w: char -> nat)
    returns (lines: seq<LineToRender>)
    ensures ViewsOf(lines) == TrailingViews(ys, truncatedResultCountBelow, maxCols, colors, w)
    ensures forall k :: 0 <= k < |lines| ==> fresh(lines[k])
  {
    ghost var belowLines := TrailingViews(ys, truncatedResultCountBelow, maxCols, colors, w);
    var countBelow := truncatedResultCountBelow;
    lines := [];
    var j: nat := |ys|;
    while j > 0
      invariant j <= |ys|
      invariant ViewsOf(lines) == belowLines[j..]
      invariant forall k :: 0 <= k < |lines| ==> fresh(lines[k])
      invariant countBelow == if j == |ys| then truncatedResultCountBelow else 0
    {
      j := j - 1;
      assert belowLines[j] == TabView(ys[j], countBelow, maxCols, colors, w);
      lines := PrependTab(ys[j], countBelow, lines, belowLines, j, maxCols, colors, w);
      countBelow := 0;
    }
    assert belowLines[0..] == belowLines;
  }

  /** One turn of the loop in `RenderBelow`: the tab's line goes in front of those built so far. */
  method PrependTab(t: TabUiInfo, count: nat, lines: seq<LineToRender>, ghost expected: seq<LineView>, ghost j: nat,
                    maxCols: nat, colors: Colors, w: char -> nat)
    returns (next: seq<LineToRender>)
    requires j < |expected| && expected[j] == TabView(t, count, maxCols, colors, w)
    requires ViewsOf(lines) == expected[j + 1..]
    ensures ViewsOf(next) == expected[j..]
    ensures |next| == |lines| + 1 && fresh(next[0]) && next[1..] == lines
  {
    var asset := RenderTab(t, count, maxCols, colors, w);
    next := [asset] + lines;
    ViewsOfAppend([asset], lines);
    ViewsOfSingleton(asset);
    assert expected[j..] == [expected[j]] + expected[j + 1..];
  }

  /**
   * What `render_list` shows: the window over the tabs for a deficit of
   * the tabs that do not fit in `maxRows`, anchored at the browsing
   * cursor, with a deeper selection exactly when there is a cursor.
   */
  function ListViews(tabs: seq<TabUiInfo>, maxRows: nat, selectedIndex: Option<nat>,
                     maxCols: nat, colors: Colors, w: char -> nat): seq<LineView>
  {
    var win := MinimizeLines(|tabs|, Measure.SaturatingSub(|tabs|, maxRows), selectedIndex);
    AboveViews(tabs, win, maxCols, colors, w)
      + AnchorViews(tabs, win, selectedIndex, selectedIndex.Some?, maxCols, colors, w)
      + BelowViews(tabs, win, maxCols, colors, w)
  }

  /** The count of hidden tabs a line of the list carries. */
  function ShownCount(k: nat, win: Window, total: nat): nat
  {
    if k == 0 && win.start < win.anchor then win.start
    else if k == win.end - win.start - 1 && win.anchor + 1 < win.end then Measure.SaturatingSub(total, win.end)
    else 0
  }

  /**
   * With a cursor on a tab (or none), and at least one row, the list shows
   * exactly the tabs of `win`, the window `render_list` computes, in index order, as many as fit; none
   * is marked selected; the first line carries the tabs hidden above
   * unless it is the anchor, the last the tabs hidden below unless it is
   * the anchor.
   */
  lemma ListViewsShape(tabs: seq<TabUiInfo>, maxRows: nat, selectedIndex: Option<nat>,
                        maxCols: nat, colors: Colors, w: char -> nat, win: Window)
    requires maxRows >= 1
    requires selectedIndex.UnwrapOr(0) < |tabs|
    requires win == MinimizeLines(|tabs|, Measure.SaturatingSub(|tabs|, maxRows), selectedIndex)
    ensures var vs := ListViews(tabs, maxRows, selectedIndex, maxCols, colors, w);
      && win.start <= win.anchor < win.end
      && |vs| == Min(maxRows, |tabs|) == win.end - win.start
      && forall k :: 0 <= k < |vs| ==> vs[k] == TabView(tabs[win.start + k], ShownCount(k, win, |tabs|), maxCols, colors, w)
  {
    RowsWindow(|tabs|, maxRows, selectedIndex);
    ListViewsLines(tabs, maxRows, selectedIndex, maxCols, colors, w, win);
  }

  /** The list is the window's layout, line by line. */
  lemma ListViewsLines(tabs: seq<TabUiInfo>, maxRows: nat, selectedIndex: Option<nat>,
                       maxCols: nat, colors: Colors, w: char -> nat, win: Window)
    requires win == MinimizeLines(|tabs|, Measure.SaturatingSub(|tabs|, maxRows), selectedIndex)
    requires win.start <= win.anchor < win.end <= |tabs|
    ensures var vs := ListViews(tabs, maxRows, selectedIndex, maxCols, colors, w);
      && |vs| == win.end - win.start
      && forall k :: 0 <= k < |vs| ==> vs[k] == TabView(tabs[win.start + k], ShownCount(k, win, |tabs|), maxCols, colors, w)
  {
    LayoutShape(tabs, win, selectedIndex, maxCols, colors, w, ListViews(tabs, maxRows, selectedIndex, maxCols, colors, w));
  }

  /** The window `render_list` asks for holds the anchor and as many tabs as there are rows, or all of them. */
  lemma RowsWindow(totalCount: nat, maxRows: nat, selectedIndex: Option<nat>)
    requires maxRows >= 1
    requires selectedIndex.UnwrapOr(0) < totalCount
    ensures var win := MinimizeLines(totalCount, Measure.SaturatingSub(totalCount, maxRows), selectedIndex);
      && win.start <= win.anchor < win.end <= totalCount
      && win.end - win.start == Min(maxRows, totalCount)
  {
    var remove := Measure.SaturatingSub(totalCount, maxRows);
    assert CountToRender(totalCount, remove) == Min(maxRows, totalCount);
  }

  /** The three parts of a window whose anchor is inside it, laid end to end. */
  lemma LayoutShape(tabs: seq<TabUiInfo>, win: Window, selectedIndex: Option<nat>, maxCols: nat, colors: Colors, w: char -> nat,
                     vs: seq<LineView>)
    requires win.start <= win.anchor < win.end <= |tabs|
    requires vs == AboveViews(tabs, win, maxCols, colors, w)
                   + AnchorViews(tabs, win, selectedIndex, selectedIndex.Some?, maxCols, colors, w)
                   + BelowViews(tabs, win, maxCols, colors, w)
    ensures |vs| == win.end - win.start
    ensures forall k :: 0 <= k < |vs| ==> vs[k] == TabView(tabs[win.start + k], ShownCount(k, win, |tabs|), maxCols, colors, w)
  {
    var above := AboveViews(tabs, win, maxCols, colors, w);
    var anchorLine := AnchorViews(tabs, win, selectedIndex, selectedIndex.Some?, maxCols, colors, w);
    var below := BelowViews(tabs, win, maxCols, colors, w);
    AboveShape(tabs, win, maxCols, colors, w);
    BelowShape(tabs, win, maxCols, colors, w);
    assert anchorLine == [TabView(tabs[win.anchor], 0, maxCols, colors, w)];
    var line := (t: TabUiInfo, count: nat) => TabView(t, count, maxCols, colors, w);
    Stitch(tabs, win, above, anchorLine, below, line);
  }

  /**
   * The lines above, at and below the anchor, each as its shape lemma gives
   * it, laid end to end: line `k` shows entry `start + k` with the count
   * `ShownCount` gives it.
   */
  lemma Stitch<A, T>(entries: seq<A>, win: Window, above: seq<T>, anchorLine: seq<T>, below: seq<T>, line: (A, nat) -> T)
    requires win.start <= win.anchor < win.end <= |entries|
    requires |above| == win.anchor - win.start
    requires forall k :: 0 <= k < |above| ==> above[k] == line(entries[win.start + k], if k == 0 then win.start else 0)
    requires anchorLine == [line(entries[win.anchor], 0)]
    requires |below| == win.end - win.anchor - 1
    requires forall k :: 0 <= k < |below| ==>
               below[k] == line(entries[win.anchor + 1 + k], if k == |below| - 1 then |entries| - win.end else 0)
    ensures var vs := above + anchorLine + below;
      && |vs| == win.end - win.start
      && forall k :: 0 <= k < |vs| ==> vs[k] == line(entries[win.start + k], ShownCount(k, win, |entries|))
  {
    var vs := above + anchorLine + below;
    forall k | 0 <= k < |vs|
      ensures vs[k] == line(entries[win.start + k], ShownCount(k, win, |entries|))
    {
      ConcatAt(above, anchorLine, below, k);
      if k < |above| {
        assert ShownCount(k, win, |entries|) == if k == 0 then win.start else 0;
      } else if k == |above| {
        assert ShownCount(k, win, |entries|) == 0;
      } else {
        assert ShownCount(k, win, |entries|) == if k - |above| - 1 == |below| - 1 then |entries| - win.end else 0;
      }
    }
  }

  /** Indexing three sequences laid end to end. */
  lemma ConcatAt<T>(a: seq<T>, b: seq<T>, c: seq<T>, k: nat)
    requires k < |a| + |b| + |c|
    ensures (a + b + c)[k] == if k < |a| then a[k] else if k < |a| + |b| then b[k - |a|] else c[k - |a| - |b|]
  {
  }

  /** Above the anchor the list shows the tabs from the window's start, the first with the count hidden above. */
  lemma AboveShape(tabs: seq<TabUiInfo>, win: Window, maxCols: nat, colors: Colors, w: char -> nat)
    requires win.start <= win.anchor < |tabs|
    ensures var above := AboveViews(tabs, win, maxCols, colors, w);
      && |above| == win.anchor - win.start
      && forall k :: 0 <= k < |above| ==> above[k] == TabView(tabs[win.start + k], if k == 0 then win.start else 0, maxCols, colors, w)
  {
  }

  /** Below the anchor the list shows the tabs up to the window's end, the last with the count hidden below. */
  lemma BelowShape(tabs: seq<TabUiInfo>, win: Window, maxCols: nat, colors: Colors, w: char -> nat)
    requires win.anchor < win.end <= |tabs|
    ensures var below := BelowViews(tabs, win, maxCols, colors, w);
      && |below| == win.end - win.anchor - 1
      && forall k :: 0 <= k < |below| ==>
           below[k] == TabView(tabs[win.anchor + 1 + k], if k == |below| - 1 then |tabs| - win.end else 0, maxCols, colors, w)
  {
  }

  /** No line of the list is ever marked selected: the anchor's selected form is unreachable from `render_list`. */
  lemma ListNeverSelected(tabs: seq<TabUiInfo>, maxRows: nat, selectedIndex: Option<nat>,
                          maxCols: nat, colors: Colors, w: char -> nat)
    ensures var vs := ListViews(tabs, maxRows, selectedIndex, maxCols, colors, w);
      forall k :: 0 <= k < |vs| ==> !vs[k].isSelected
  {
    var win := MinimizeLines(|tabs|, Measure.SaturatingSub(|tabs|, maxRows), selectedIndex);
    var above := AboveViews(tabs, win, maxCols, colors, w);
    var anchorLine := AnchorViews(tabs, win, selectedIndex, selectedIndex.Some?, maxCols, colors, w);
    var below := BelowViews(tabs, win, maxCols, colors, w);
    var vs := ListViews(tabs, maxRows, selectedIndex, maxCols, colors, w);
    forall k | 0 <= k < |vs| ensures !vs[k].isSelected {
      if k < |above| {
        assert vs[k] == above[k];
      } else if k < |above| + |anchorLine| {
        assert vs[k] == anchorLine[k - |above|];
      } else {
        assert vs[k] == below[k - |above| - |anchorLine|];
      }
    }
  }

  /**
   * With three rows or more, the counts on the first and last lines add up
   * to every tab the window hides.
   */
  lemma ListCountsComplete(tabs: seq<TabUiInfo>, maxRows: nat, selectedIndex: Option<nat>,
                           maxCols: nat, colors: Colors, w: char -> nat)
    requires maxRows >= 3
    requires selectedIndex.UnwrapOr(0) < |tabs|
    ensures var vs := ListViews(tabs, maxRows, selectedIndex, maxCols, colors, w);
      var win := MinimizeLines(|tabs|, Measure.SaturatingSub(|tabs|, maxRows), selectedIndex);
      && vs[0].truncatedResultCount == win.start
      && vs[|vs| - 1].truncatedResultCount == |tabs| - win.end
      && (forall k :: 0 < k < |vs| - 1 ==> vs[k].truncatedResultCount == 0)
  {
    ListViewsShape(tabs, maxRows, selectedIndex, maxCols, colors, w,
                   MinimizeLines(|tabs|, Measure.SaturatingSub(|tabs|, maxRows), selectedIndex));
  }

  /**
   * With two rows and the cursor neither on the first tab nor on the last,
   * the list shows the tab before the cursor and the cursor's tab; the tabs
   * hidden below are counted on no line, so the counts shown fall short of
   * the `len - 2` tabs hidden.
   */
  lemma ListTwoRowsLosesBelow(tabs: seq<TabUiInfo>, selectedIndex: Option<nat>, maxCols: nat, colors: Colors, w: char -> nat)
    requires 1 <= selectedIndex.UnwrapOr(0) && selectedIndex.UnwrapOr(0) + 1 < |tabs|
    ensures var a := selectedIndex.UnwrapOr(0);
      var vs := ListViews(tabs, 2, selectedIndex, maxCols, colors, w);
      && vs == [TabView(tabs[a - 1], a - 1, maxCols, colors, w), TabView(tabs[a], 0, maxCols, colors, w)]
      && vs[0].truncatedResultCount + vs[1].truncatedResultCount < |tabs| - 2
  {
    var a := selectedIndex.UnwrapOr(0);
    var win := MinimizeLines(|tabs|, |tabs| - 2, selectedIndex);
    assert win == Window(a - 1, a, a + 1, 0);
    ListViewsShape(tabs, 2, selectedIndex, maxCols, colors, w, win);
  }

  /** Ten tabs with the cursor on the sixth: the fifth and sixth are shown, and nothing says that four more follow. */
  lemma ListTwoRowsExample(tabs: seq<TabUiInfo>, maxCols: nat, colors: Colors, w: char -> nat)
    requires |tabs| == 10
    ensures var vs := ListViews(tabs, 2, Some(5), maxCols, colors, w);
      && |vs| == 2
      && vs[0].truncatedResultCount == 4
      && vs[1].truncatedResultCount == 0
  {
    ListTwoRowsLosesBelow(tabs, Some(5), maxCols, colors, w);
  }

  /** With two rows and the cursor on the first tab (or none), the second line carries every tab hidden below. */
  lemma ListTwoRowsAtTop(tabs: seq<TabUiInfo>, selectedIndex: Option<nat>, maxCols: nat, colors: Colors, w: char -> nat)
    requires selectedIndex.UnwrapOr(0) == 0 && 2 <= |tabs|
    ensures ListViews(tabs, 2, selectedIndex, maxCols, colors, w)
         == [TabView(tabs[0], 0, maxCols, colors, w), TabView(tabs[1], |tabs| - 2, maxCols, colors, w)]
  {
    var win := MinimizeLines(|tabs|, |tabs| - 2, selectedIndex);
    assert win == Window(0, 0, 2, 0);
    ListViewsShape(tabs, 2, selectedIndex, maxCols, colors, w, win);
  }

  /** With one row only the cursor's tab is shown, and neither the tabs above nor those below are counted. */
  lemma ListOneRow(tabs: seq<TabUiInfo>, selectedIndex: Option<nat>, maxCols: nat, colors: Colors, w: char -> nat)
    requires selectedIndex.UnwrapOr(0) < |tabs|
    ensures ListViews(tabs, 1, selectedIndex, maxCols, colors, w)
         == [TabView(tabs[selectedIndex.UnwrapOr(0)], 0, maxCols, colors, w)]
  {
    var a := selectedIndex.UnwrapOr(0);
    var win := MinimizeLines(|tabs|, |tabs| - 1, selectedIndex);
    assert win == Window(a, a, a + 1, 0);
    ListViewsShape(tabs, 1, selectedIndex, maxCols, colors, w, win);
  }

  /** A cursor past the end of the tabs, which `set_tabs` can leave behind, shows an empty list. */
  lemma ListStaleCursorEmpty(tabs: seq<TabUiInfo>, maxRows: nat, selectedIndex: Option<nat>,
                             maxCols: nat, colors: Colors, w: char -> nat)
    requires selectedIndex.UnwrapOr(0) > |tabs|
    ensures ListViews(tabs, maxRows, selectedIndex, maxCols, colors, w) == []
  {
    var win := MinimizeLines(|tabs|, Measure.SaturatingSub(|tabs|, maxRows), selectedIndex);
    assert Get(tabs, win.start, win.anchor).None?;
    assert Get(tabs, win.anchor + 1, win.end).None?;
  }

  /**
   * A cursor just past the last tab, which `set_tabs` can leave behind,
   * shows the last `Min(maxRows, len)` tabs in order, none of them marked:
   * the first carries the tabs hidden above and the others carry nothing.
   */
  lemma ListCursorAtEnd(tabs: seq<TabUiInfo>, maxRows: nat, maxCols: nat, colors: Colors, w: char -> nat)
    ensures var n := |tabs|;
      var m := Min(maxRows, n);
      var vs := ListViews(tabs, maxRows, Some(n), maxCols, colors, w);
      && |vs| == m
      && forall k :: 0 <= k < m ==> vs[k] == TabView(tabs[n - m + k], if k == 0 then n - m else 0, maxCols, colors, w)
  {
    var n := |tabs|;
    var m := Min(maxRows, n);
    var win := MinimizeLines(n, Measure.SaturatingSub(n, maxRows), Some(n));
    assert win == Window(n - m, n, n, 0);
    assert Get(tabs, win.start, win.anchor) == Some(tabs[n - m..n]);
    assert Get(tabs, win.anchor + 1, win.end).None?;
  }

  /** Three tabs, five rows and the cursor at 3: all three tabs are shown, none counting a hidden tab. */
  lemma ListCursorAtEndExample(tabs: seq<TabUiInfo>, maxCols: nat, colors: Colors, w: char -> nat)
    requires |tabs| == 3
    ensures ListViews(tabs, 5, Some(3), maxCols, colors, w)
         == [TabView(tabs[0], 0, maxCols, colors, w), TabView(tabs[1], 0, maxCols, colors, w),
             TabView(tabs[2], 0, maxCols, colors, w)]
  {
    ListCursorAtEnd(tabs, 5, maxCols, colors, w);
  }

  /** With no rows at all the anchor's line is still shown, alone. */
  lemma ListZeroRows(tabs: seq<TabUiInfo>, selectedIndex: Option<nat>, maxCols: nat, colors: Colors, w: char -> nat)
    requires selectedIndex.UnwrapOr(0) < |tabs|
    ensures ListViews(tabs, 0, selectedIndex, maxCols, colors, w)
         == [TabView(tabs[selectedIndex.UnwrapOr(0)], 0, maxCols, colors, w)]
  {
    var win := MinimizeLines(|tabs|, |tabs|, selectedIndex);
    MinimizeLinesEmpty(|tabs|, selectedIndex);
    assert tabs[win.start..win.anchor] == [];
    assert Get(tabs, win.anchor + 1, win.end).None?;
  }

  // ---------------------------------------------------------------------------
  // Search results

  /** The browsing cursor: the selected tab, if any. */
  datatype SelectedIndex = SelectedIndex(index: Option<nat>)

  /** One fuzzy-matched entry, with the character indices that matched. */
  datatype SearchResult = SearchResult(
    score: int, indices: seq<nat>, listItem: ListItem,
    tabName: string, tabPosition: Option<nat>, isCurrentTab: bool)
  {
    function LinesToRender(): (n: nat)
      ensures n <= 1
      ensures n == 1 <==> listItem.tabName.Some?
    {
      listItem.LineCount()
    }

    /** The lines of the result, its matched characters highlighted. */
    function Views(maxWidth: nat, w: char -> nat): (vs: seq<LineView>)
      ensures |vs| == LinesToRender()
      ensures forall k :: 0 <= k < |vs| ==> !vs[k].isSelected && vs[k].truncatedResultCount == 0
    {
      listItem.Views(Some(indices), maxWidth, w)
    }

    method Render(maxWidth: nat, w: char -> nat) returns (lines: seq<LineToRender>)
      ensures ViewsOf(lines) == Views(maxWidth, w)
      ensures forall k :: 0 <= k < |lines| ==> fresh(lines[k])
      ensures |lines| == LinesToRender()
    {
      lines := listItem.Render(Some(indices), maxWidth, w);
    }
  }

  /** The rows a result takes. */
  function LineCountOf(r: SearchResult): nat
  {
    r.LinesToRender()
  }

  /** A result's lines marked selected, the arrows on the first only. */
  function MarkSelected(vs: seq<LineView>): (ms: seq<LineView>)
    ensures |ms| == |vs|
    ensures forall j :: 0 <= j < |vs| ==> ms[j] == Selected(vs[j], SearchArrows, j == 0)
  {
    seq(|vs|, j requires 0 <= j < |vs| => Selected(vs[j], SearchArrows, j == 0))
  }

  /** The lines of one result, marked selected when it is under the search cursor. */
  function ResultViews(result: SearchResult, selected: bool, maxCols: nat, w: char -> nat): (vs: seq<LineView>)
    ensures |vs| == LineCountOf(result)
    ensures forall k :: 0 <= k < |vs| ==> vs[k].isSelected == selected
  {
    var lines := result.Views(maxCols, w);
    if selected then MarkSelected(lines) else lines
  }

  /** The lines of `results`, the one at the search cursor marked selected. */
  function ResultsViews(results: seq<SearchResult>, selectedSearchIndex: Option<nat>, maxCols: nat, w: char -> nat): (vs: seq<LineView>)
    ensures |vs| == Measure.Sum(results, LineCountOf)
  {
    if results == [] then []
    else
      var i := |results| - 1;
      ResultsViews(results[..i], selectedSearchIndex, maxCols, w)
        + ResultViews(results[i], Some(i) == selectedSearchIndex, maxCols, w)
  }

  /** What `render_search_results` shows: the longest run of leading results that fits in `maxRows`. */
  function SearchViews(results: seq<SearchResult>, selectedSearchIndex: Option<nat>, maxRows: nat, maxCols: nat, w: char -> nat)
    : (vs: seq<LineView>)
    ensures |vs| <= maxRows
  {
    ResultsViews(results[..Measure.FitLength(results, LineCountOf, maxRows)], selectedSearchIndex, maxCols, w)
  }

  /** Exactly the lines of the result under the search cursor are marked selected. */
  lemma ResultsSelection(results: seq<SearchResult>, selectedSearchIndex: Option<nat>, maxCols: nat, w: char -> nat, k: nat)
    requires k < |ResultsViews(results, selectedSearchIndex, maxCols, w)|
    ensures ResultsViews(results, selectedSearchIndex, maxCols, w)[k].isSelected
        <==> selectedSearchIndex.Some? && selectedSearchIndex.value < |results|
             && Measure.Sum(results[..selectedSearchIndex.value], LineCountOf) <= k
             && k < Measure.Sum(results[..selectedSearchIndex.value + 1], LineCountOf)
  {
    var block := (r: SearchResult, i: nat) => ResultViews(r, Some(i) == selectedSearchIndex, maxCols, w);
    forall r: SearchResult, i: nat ensures |block(r, i)| == LineCountOf(r) {
      assert block(r, i) == ResultViews(r, Some(i) == selectedSearchIndex, maxCols, w);
    }
    forall r: SearchResult, i: nat, j | 0 <= j < |block(r, i)| ensures block(r, i)[j].isSelected <==> Some(i) == selectedSearchIndex {
      assert block(r, i) == ResultViews(r, Some(i) == selectedSearchIndex, maxCols, w);
    }
    ResultsViewsAreBlocks(results, selectedSearchIndex, maxCols, w);
    BlocksSelection(results, block, LineCountOf, selectedSearchIndex, k);
  }

  /** The blocks of `xs` one after another, the `i`-th built from `xs[i]` and `i`. */
  function Blocks<A, T>(xs: seq<A>, block: (A, nat) -> seq<T>): seq<T>
  {
    if xs == [] then [] else Blocks(xs[..|xs| - 1], block) + block(xs[|xs| - 1], |xs| - 1)
  }

  lemma {:induction false} ResultsViewsAreBlocks(results: seq<SearchResult>, selectedSearchIndex: Option<nat>, maxCols: nat, w: char -> nat)
    ensures ResultsViews(results, selectedSearchIndex, maxCols, w)
         == Blocks(results, (r: SearchResult, i: nat) => ResultViews(r, Some(i) == selectedSearchIndex, maxCols, w))
  {
    if results != [] {
      ResultsViewsAreBlocks(results[..|results| - 1], selectedSearchIndex, maxCols, w);
    }
  }

  /**
   * In blocks of fixed sizes whose lines are flagged exactly in the block at
   * `sel`, line `k` is flagged exactly when it lies within that block.
   */
  lemma {:induction false} BlocksSelection<A>(xs: seq<A>, block: (A, nat) -> seq<LineView>, size: A -> nat, sel: Option<nat>, k: nat)
    requires forall a, i: nat :: |block(a, i)| == size(a)
    requires forall a, i: nat, j :: 0 <= j < |block(a, i)| ==> (block(a, i)[j].isSelected <==> Some(i) == sel)
    requires k < |Blocks(xs, block)|
    ensures |Blocks(xs, block)| == Measure.Sum(xs, size)
    ensures Blocks(xs, block)[k].isSelected
        <==> sel.Some? && sel.value < |xs|
             && Measure.Sum(xs[..sel.value], size) <= k && k < Measure.Sum(xs[..sel.value + 1], size)
    decreases |xs|
  {
    assert xs != [];
    var i := |xs| - 1;
    var before := xs[..i];
    var rest := Blocks(before, block);
    var last := block(xs[i], i);
    BlocksLength(before, block, size);
    if k < |rest| {
      assert (rest + last)[k] == rest[k];
      BlocksSelection(before, block, size, sel, k);
      SelectionInRest(xs, size, sel, k, rest[k].isSelected);
    } else {
      assert xs == before + [xs[i]];
      Measure.SumSnoc(before, xs[i], size);
      assert (rest + last)[k] == last[k - |rest|];
      SelectionInLast(xs, size, sel, k, last[k - |rest|].isSelected);
    }
  }

  /** A line within the blocks before the last lies in the cursor's block of `xs` iff it does in theirs. */
  lemma SelectionInRest<A>(xs: seq<A>, size: A -> nat, sel: Option<nat>, k: nat, flag: bool)
    requires xs != [] && k < Measure.Sum(xs[..|xs| - 1], size)
    requires var before := xs[..|xs| - 1];
      flag <==> (sel.Some? && sel.value < |before|
                 && Measure.Sum(before[..sel.value], size) <= k && k < Measure.Sum(before[..sel.value + 1], size))
    ensures flag <==> (sel.Some? && sel.value < |xs|
                       && Measure.Sum(xs[..sel.value], size) <= k && k < Measure.Sum(xs[..sel.value + 1], size))
  {
    var i := |xs| - 1;
    var before := xs[..i];
    if sel.Some? && sel.value < |xs| {
      var s := sel.value;
      if s == i {
        assert xs[..s] == before;
      } else {
        PrefixOfPrefix(xs, i, s);
        PrefixOfPrefix(xs, i, s + 1);
      }
    }
  }

  /** A line within the last block lies in the cursor's block iff the cursor is on the last. */
  lemma SelectionInLast<A>(xs: seq<A>, size: A -> nat, sel: Option<nat>, k: nat, flag: bool)
    requires xs != []
    requires Measure.Sum(xs[..|xs| - 1], size) <= k < Measure.Sum(xs, size)
    requires flag <==> Some(|xs| - 1) == sel
    ensures flag <==> (sel.Some? && sel.value < |xs|
                       && Measure.Sum(xs[..sel.value], size) <= k && k < Measure.Sum(xs[..sel.value + 1], size))
  {
    var i := |xs| - 1;
    if sel.Some? && sel.value < i {
      Measure.SumPrefixMonotone(xs, sel.value + 1, i, size);
    }
    if sel == Some(i) {
      assert xs[..i + 1] == xs;
    }
  }

  lemma {:induction false} BlocksLength<A, T>(xs: seq<A>, block: (A, nat) -> seq<T>, size: A -> nat)
    requires forall a, i: nat :: |block(a, i)| == size(a)
    ensures |Blocks(xs, block)| == Measure.Sum(xs, size)
    decreases |xs|
  {
    if xs != [] {
      BlocksLength(xs[..|xs| - 1], block, size);
    }
  }

  lemma PrefixOfPrefix<T>(s: seq<T>, n: nat, m: nat)
    requires m <= n <= |s|
    ensures s[..n][..m] == s[..m]
  {
  }

  /** A result is drawn only if it and every result before it fit in the rows. */
  lemma SearchSelection(results: seq<SearchResult>, selectedSearchIndex: Option<nat>, maxRows: nat, maxCols: nat, w: char -> nat, k: nat)
    requires k < |SearchViews(results, selectedSearchIndex, maxRows, maxCols, w)|
    ensures SearchViews(results, selectedSearchIndex, maxRows, maxCols, w)[k].isSelected
        <==> selectedSearchIndex.Some? && selectedSearchIndex.value < Measure.FitLength(results, LineCountOf, maxRows)
             && Measure.Sum(results[..selectedSearchIndex.value], LineCountOf) <= k
             && k < Measure.Sum(results[..selectedSearchIndex.value + 1], LineCountOf)
  {
    var n := Measure.FitLength(results, LineCountOf, maxRows);
    ResultsSelection(results[..n], selectedSearchIndex, maxCols, w, k);
    if selectedSearchIndex.Some? && selectedSearchIndex.value < n {
      var s := selectedSearchIndex.value;
      PrefixOfPrefix(results, n, s);
      PrefixOfPrefix(results, n, s + 1);
    }
  }

  // ---------------------------------------------------------------------------
  // Cursor moves

  /** A cursor is on an entry of a list of `count`, or on nothing. */
  predicate ValidCursor(cursor: Option<nat>, count: nat)
  {
    cursor.None? || cursor.value < count
  }

  /** Browsing down: onto the first tab, to the next, or off the end back to no selection. */
  function BrowseDown(cursor: Option<nat>, count: nat): (r: Option<nat>)
    ensures ValidCursor(cursor, count) ==> ValidCursor(r, count)
    ensures cursor.None? ==> (r.Some? <==> count != 0) && (r.Some? ==> r.value == 0)
    ensures cursor.Some? ==> (r.Some? <==> cursor.value + 1 < count) && (r.Some? ==> r.value == cursor.value + 1)
  {
    match cursor
    case None => if count != 0 then Some(0) else Option.None
    case Some(i) => if count > i + 1 then Some(i + 1) else Option.None
  }

  /** Browsing up: onto the last tab, to the previous, or off the top back to no selection. */
  function BrowseUp(cursor: Option<nat>, count: nat): (r: Option<nat>)
    ensures ValidCursor(cursor, count) ==> ValidCursor(r, count)
    ensures cursor.None? ==> (r.Some? <==> count != 0) && (r.Some? ==> r.value + 1 == count)
    ensures cursor.Some? ==> (r.Some? <==> cursor.value > 0) && (r.Some? ==> r.value + 1 == cursor.value)
  {
    match cursor
    case None => if count != 0 then Some(Measure.SaturatingSub(count, 1)) else Option.None
    case Some(i) => if i > 0 then Some(i - 1) else Option.None
  }

  /** On valid cursors, browsing up undoes browsing down and the other way round. */
  lemma BrowseInverse(cursor: Option<nat>, count: nat)
    requires ValidCursor(cursor, count)
    ensures BrowseUp(BrowseDown(cursor, count), count) == cursor
    ensures BrowseDown(BrowseUp(cursor, count), count) == cursor
  {
  }

  /** Between two neighbouring tabs, down steps from the first to the second and up steps back. */
  lemma BrowseSteps(i: nat, count: nat)
    requires i + 1 < count
    ensures BrowseDown(Some(i), count) == Some(i + 1)
    ensures BrowseUp(Some(i + 1), count) == Some(i)
  {
  }

  /** From no selection over three tabs, going down visits each tab and returns to no selection. */
  lemma BrowseDownCycle()
    ensures BrowseDown(Option.None, 3) == Some(0)
    ensures BrowseDown(Some(0), 3) == Some(1)
    ensures BrowseDown(Some(1), 3) == Some(2)
    ensures BrowseDown(Some(2), 3) == Option.None
  {
  }

  /** The wrap rules: off either end of a non-empty list onto no selection, and from no selection onto either end. */
  lemma BrowseWraps(count: nat)
    requires count > 0
    ensures BrowseDown(Option.None, count) == Some(0)
    ensures BrowseDown(Some(count - 1), count) == Option.None
    ensures BrowseUp(Option.None, count) == Some(count - 1)
    ensures BrowseUp(Some(0), count) == Option.None
  {
  }

  /** Searching down: onto the first result, or one further with no upper bound but `usize`'s. */
  function SearchDown(cursor: Option<nat>, count: nat): (r: Option<nat>)
    ensures cursor.None? ==> (r.Some? <==> count != 0) && (r.Some? ==> r.value == 0)
    ensures cursor.Some? && cursor.value < UsizeMax ==> r == Some(cursor.value + 1)
    ensures cursor.Some? && cursor.value >= UsizeMax ==> r == cursor
  {
    match cursor
    case None => if count != 0 then Some(0) else Option.None
    case Some(i) => Some(if i < UsizeMax then i + 1 else i)
  }

  /** Searching up: onto the first result, or one back, stopping at the first. */
  function SearchUp(cursor: Option<nat>, count: nat): (r: Option<nat>)
    ensures cursor.None? ==> (r.Some? <==> count != 0) && (r.Some? ==> r.value == 0)
    ensures cursor.Some? ==> r == Some(Measure.SaturatingSub(cursor.value, 1))
  {
    match cursor
    case None => if count != 0 then Some(0) else Option.None
    case Some(i) => Some(Measure.SaturatingSub(i, 1))
  }

  /** Searching down from the last result leaves the range of results. */
  lemma SearchDownLeavesRange(count: nat)
    requires 0 < count < UsizeMax
    ensures SearchDown(Some(count - 1), count) == Some(count)
    ensures !ValidCursor(SearchDown(Some(count - 1), count), count)
  {
  }

  // ---------------------------------------------------------------------------
  // Keeping the search cursor within the rows

  /** The rows of the results up to and including the `i`-th (`take(i + 1)`). */
  function RowsUntil(results: seq<SearchResult>, i: nat): nat
  {
    Measure.Sum(results[..Min(i + 1, |results|)], LineCountOf)
  }

  /** The search cursor after `update_rows`: dropped when its result is past the rows, or past the results. */
  function UpdatedSearchIndex(cursor: Option<nat>, results: seq<SearchResult>, rows: nat): (r: Option<nat>)
    ensures r.None? || r == cursor
    ensures r.Some? ==> r.value < |results| && Measure.Sum(results[..r.value + 1], LineCountOf) <= rows
    ensures cursor.Some? && cursor.value < |results| && Measure.Sum(results[..cursor.value + 1], LineCountOf) <= rows
        ==> r == cursor
  {
    match cursor
    case None => Option.None
    case Some(i) => if RowsUntil(results, i) > rows || i >= |results| then Option.None else cursor
  }

  /** A search cursor that survives `update_rows` is on a result `render_search_results` draws. */
  lemma UpdatedCursorIsDrawn(cursor: Option<nat>, results: seq<SearchResult>, rows: nat)
    requires UpdatedSearchIndex(cursor, results, rows).Some?
    ensures UpdatedSearchIndex(cursor, results, rows).value < Measure.FitLength(results, LineCountOf, rows)
  {
    var i := UpdatedSearchIndex(cursor, results, rows).value;
    Measure.FitLengthCovers(results, LineCountOf, rows, i);
  }

  /** Moving past the last result and then fitting the rows drops the search cursor. */
  lemma SearchDownThenUpdateRows(results: seq<SearchResult>, rows: nat)
    requires 0 < |results| < UsizeMax
    ensures UpdatedSearchIndex(SearchDown(Some(|results| - 1), |results|), results, rows).None?
  {
  }

  // ---------------------------------------------------------------------------
  // Sorting the tabs

  /** Lexicographic order of names by character, as `String::cmp` compares them. */
  predicate NameLe(a: string, b: string)
  {
    a == [] || (b != [] && (a[0] < b[0] || (a[0] == b[0] && NameLe(a[1..], b[1..]))))
  }

  lemma NameLeTotal(a: string, b: string)
    ensures NameLe(a, b) || NameLe(b, a)
  {
  }

  lemma {:induction false} NameLeTransitive(a: string, b: string, c: string)
    requires NameLe(a, b) && NameLe(b, c)
    ensures NameLe(a, c)
  {
    if a != [] && b != [] && c != [] && a[0] == b[0] == c[0] {
      NameLeTransitive(a[1..], b[1..], c[1..]);
    }
  }

  /** `a` may come before `b` under the comparator of `set_tabs`: current tabs after the others, the others by name. */
  predicate TabBefore(a: TabUiInfo, b: TabUiInfo)
  {
    (a.isCurrentTab ==> b.isCurrentTab)
    && (!a.isCurrentTab && !b.isCurrentTab ==> NameLe(a.name, b.name))
  }

  predicate TabsOrdered(tabs: seq<TabUiInfo>)
  {
    forall i, j :: 0 <= i < j < |tabs| ==> TabBefore(tabs[i], tabs[j])
  }

  /** The count of tabs marked current. */
  function CurrentCount(tabs: seq<TabUiInfo>): nat
  {
    if tabs == [] then 0 else (if tabs[0].isCurrentTab then 1 else 0) + CurrentCount(tabs[1..])
  }

  function Insert(t: TabUiInfo, tabs: seq<TabUiInfo>): (r: seq<TabUiInfo>)
    requires TabsOrdered(tabs)
    ensures TabsOrdered(r)
    ensures multiset(r) == multiset(tabs) + multiset{t}
    ensures CurrentCount(r) == CurrentCount(tabs) + (if t.isCurrentTab then 1 else 0)
  {
    if tabs == [] then [t]
    else if TabBefore(t, tabs[0]) then
      InsertFront(t, tabs);
      [t] + tabs
    else
      OrderedTail(tabs);
      var rest := Insert(t, tabs[1..]);
      InsertAfterHead(t, tabs, rest);
      [tabs[0]] + rest
  }

  /** The tab goes after the head: the head followed by the tab inserted into the tail. */
  lemma InsertAfterHead(t: TabUiInfo, tabs: seq<TabUiInfo>, rest: seq<TabUiInfo>)
    requires tabs != [] && TabsOrdered(tabs) && !TabBefore(t, tabs[0])
    requires TabsOrdered(rest) && multiset(rest) == multiset(tabs[1..]) + multiset{t}
    requires CurrentCount(rest) == CurrentCount(tabs[1..]) + (if t.isCurrentTab then 1 else 0)
    ensures TabsOrdered([tabs[0]] + rest)
    ensures multiset([tabs[0]] + rest) == multiset(tabs) + multiset{t}
    ensures CurrentCount([tabs[0]] + rest) == CurrentCount(tabs) + (if t.isCurrentTab then 1 else 0)
  {
    NameLeTotal(t.name, tabs[0].name);
    assert tabs == [tabs[0]] + tabs[1..];
    InsertBehind(tabs[0], rest, t, tabs[1..]);
  }

  lemma OrderedTail(tabs: seq<TabUiInfo>)
    requires tabs != [] && TabsOrdered(tabs)
    ensures TabsOrdered(tabs[1..])
  {
    forall i, j | 0 <= i < j < |tabs| - 1 ensures TabBefore(tabs[1..][i], tabs[1..][j]) {
      assert tabs[1..][i] == tabs[i + 1] && tabs[1..][j] == tabs[j + 1];
    }
  }

  lemma InsertFront(t: TabUiInfo, tabs: seq<TabUiInfo>)
    requires TabsOrdered(tabs) && tabs != [] && TabBefore(t, tabs[0])
    ensures TabsOrdered([t] + tabs)
    ensures CurrentCount([t] + tabs) == CurrentCount(tabs) + (if t.isCurrentTab then 1 else 0)
  {
    var r := [t] + tabs;
    assert r[1..] == tabs;
    forall j | 1 <= j < |r| ensures TabBefore(t, r[j]) {
      if j > 1 && !t.isCurrentTab && !r[j].isCurrentTab {
        NameLeTransitive(t.name, tabs[0].name, r[j].name);
      }
    }
  }

  lemma InsertBehind(h: TabUiInfo, rest: seq<TabUiInfo>, t: TabUiInfo, tail: seq<TabUiInfo>)
    requires TabsOrdered(rest) && TabsOrdered([h] + tail) && TabBefore(h, t)
    requires multiset(rest) == multiset(tail) + multiset{t}
    ensures TabsOrdered([h] + rest)
    ensures CurrentCount([h] + rest) == (if h.isCurrentTab then 1 else 0) + CurrentCount(rest)
  {
    var r := [h] + rest;
    assert r[1..] == rest;
    forall j | 1 <= j < |r| ensures TabBefore(h, r[j]) {
      assert r[j] in multiset(rest);
      if r[j] != t {
        assert r[j] in multiset(tail);
        var m :| 0 <= m < |tail| && tail[m] == r[j];
        var ht := [h] + tail;
        assert ht[0] == h && ht[m + 1] == r[j];
        assert TabBefore(ht[0], ht[m + 1]);
      }
    }
  }

  /** The order `set_tabs` leaves the tabs in: a permutation of them, current tabs last, the rest by name. */
  function SortTabs(tabs: seq<TabUiInfo>): (r: seq<TabUiInfo>)
    ensures TabsOrdered(r)
    ensures multiset(r) == multiset(tabs)
    ensures CurrentCount(r) == CurrentCount(tabs)
  {
    if tabs == [] then []
    else
      assert tabs == [tabs[0]] + tabs[1..];
      Insert(tabs[0], SortTabs(tabs[1..]))
  }

  lemma {:induction false} NoCurrent(tabs: seq<TabUiInfo>)
    requires CurrentCount(tabs) == 0
    ensures forall k :: 0 <= k < |tabs| ==> !tabs[k].isCurrentTab
  {
    if tabs != [] {
      NoCurrent(tabs[1..]);
      assert forall k :: 1 <= k < |tabs| ==> tabs[k] == tabs[1..][k - 1];
    }
  }

  /** In an ordered list with exactly one current tab, that tab is last. */
  lemma {:induction false} OneCurrentIsLast(tabs: seq<TabUiInfo>)
    requires TabsOrdered(tabs) && CurrentCount(tabs) == 1
    ensures tabs[|tabs| - 1].isCurrentTab
    ensures forall k :: 0 <= k < |tabs| - 1 ==> !tabs[k].isCurrentTab
  {
    var tail := tabs[1..];
    assert forall k :: 1 <= k < |tabs| ==> tabs[k] == tail[k - 1];
    if tabs[0].isCurrentTab {
      NoCurrent(tail);
    } else {
      assert TabsOrdered(tail) by {
        forall i, j | 0 <= i < j < |tail| ensures TabBefore(tail[i], tail[j]) {
          assert TabBefore(tabs[i + 1], tabs[j + 1]);
        }
      }
      OneCurrentIsLast(tail);
    }
  }

  /** After `set_tabs`, a single current tab is the last line of the list, and the others are sorted by name. */
  lemma SortTabsCurrentLast(tabs: seq<TabUiInfo>)
    requires CurrentCount(tabs) == 1
    ensures var r := SortTabs(tabs);
      && |r| == |tabs|
      && r[|r| - 1].isCurrentTab
      && (forall k :: 0 <= k < |r| - 1 ==> !r[k].isCurrentTab)
      && (forall i, j :: 0 <= i < j < |r| - 1 ==> NameLe(r[i].name, r[j].name))
  {
    var r := SortTabs(tabs);
    assert |r| == |multiset(r)| == |multiset(tabs)| == |tabs|;
    OneCurrentIsLast(r);
  }

  /** One step of `render_search_results`: the result's lines, made selected when it is under the cursor, arrows on the first only. */
  method RenderResult(result: SearchResult, selected: bool, maxCols: nat, w: char -> nat) returns (lines: seq<LineToRender>)
    ensures ViewsOf(lines) == ResultViews(result, selected, maxCols, w)
    ensures forall k :: 0 <= k < |lines| ==> fresh(lines[k])
  {
    lines := result.Render(maxCols, w);
    ghost var plain := ViewsOf(lines);
    if selected {
      var renderArrows := true;
      for j := 0 to |lines|
        invariant renderArrows == (j == 0)
        invariant forall k :: 0 <= k < j ==> lines[k].View() == Selected(plain[k], SearchArrows, k == 0)
        invariant forall k :: j <= k < |lines| ==> lines[k].View() == plain[k]
      {
        lines[j].MakeSelectedAsSearch(renderArrows);
        renderArrows := false;
      }
    }
  }

  /** One step of `render_search_results` that takes result `i`: its lines go after those already taken. */
  method TakeResult(lines: seq<LineToRender>, results: seq<SearchResult>, cursor: Option<nat>, i: nat, maxCols: nat, w: char -> nat)
    returns (next: seq<LineToRender>)
    requires i < |results|
    requires ViewsOf(lines) == ResultsViews(results[..i], cursor, maxCols, w)
    ensures ViewsOf(next) == ResultsViews(results[..i + 1], cursor, maxCols, w)
    ensures |lines| <= |next| && next[..|lines|] == lines
    ensures forall k :: |lines| <= k < |next| ==> fresh(next[k])
  {
    var resultLines := RenderResult(results[i], Some(i) == cursor, maxCols, w);
    next := lines + resultLines;
    ViewsOfAppend(lines, resultLines);
    ResultsViewsStep(results, cursor, maxCols, w, i);
    forall k | |lines| <= k < |next| ensures fresh(next[k]) {
      assert next[k] == resultLines[k - |lines|];
    }
    assert next[..|lines|] == lines;
  }

  /** The lines of the first `i + 1` results are those of the first `i`, then those of result `i`, and their rows add up. */
  lemma ResultsViewsStep(results: seq<SearchResult>, selectedSearchIndex: Option<nat>, maxCols: nat, w: char -> nat, i: nat)
    requires i < |results|
    ensures ResultsViews(results[..i + 1], selectedSearchIndex, maxCols, w)
         == ResultsViews(results[..i], selectedSearchIndex, maxCols, w)
          + ResultViews(results[i], Some(i) == selectedSearchIndex, maxCols, w)
    ensures Measure.Sum(results[..i + 1], LineCountOf) == Measure.Sum(results[..i], LineCountOf) + LineCountOf(results[i])
  {
    assert results[..i + 1][..i] == results[..i];
    assert results[..i + 1] == results[..i] + [results[i]];
    Measure.SumSnoc(results[..i], results[i], LineCountOf);
  }

  // ---------------------------------------------------------------------------
  // The picker's state

  class TabList {
    var tabUiInfos: seq<TabUiInfo>
    var selectedIndex: SelectedIndex
    var selectedSearchIndex: Option<nat>
    var searchResults: seq<SearchResult>
    var isSearching: bool

    /** `TabList::default()`: no tabs, no results, no cursors, browsing. */
    constructor ()
      ensures tabUiInfos == [] && selectedIndex == SelectedIndex(Option.None)
      ensures selectedSearchIndex.None? && searchResults == [] && !isSearching
    {
      tabUiInfos := [];
      selectedIndex := SelectedIndex(Option.None);
      selectedSearchIndex := Option.None;
      searchResults := [];
      isSearching := false;
    }

    /** Replaces the tabs with `tabs` in display order; the cursors are kept as they were. */
    method SetTabs(tabs: seq<TabUiInfo>)
      modifies this
      ensures multiset(tabUiInfos) == multiset(tabs)
      ensures TabsOrdered(tabUiInfos)
      ensures selectedIndex == old(selectedIndex) && selectedSearchIndex == old(selectedSearchIndex)
      ensures searchResults == old(searchResults) && isSearching == old(isSearching)
    {
      tabUiInfos := SortTabs(tabs);
    }

    /** Drops the search cursor when its result would not be drawn in `rows` rows. */
    method UpdateRows(rows: nat)
      modifies this
      ensures selectedSearchIndex == UpdatedSearchIndex(old(selectedSearchIndex), searchResults, rows)
      ensures tabUiInfos == old(tabUiInfos) && selectedIndex == old(selectedIndex)
      ensures searchResults == old(searchResults) && isSearching == old(isSearching)
    {
      if selectedSearchIndex.Some? {
        var i := selectedSearchIndex.value;
        var results := searchResults;
        var searchResultRowsUntilSelected := 0;
        for k := 0 to Min(i + 1, |results|)
          modifies {}
          invariant searchResultRowsUntilSelected == Measure.Sum(results[..k], LineCountOf)
        {
          assert results[..k + 1] == results[..k] + [results[k]];
          Measure.SumSnoc(results[..k], results[k], LineCountOf);
          searchResultRowsUntilSelected := searchResultRowsUntilSelected + results[k].LinesToRender();
        }
        if searchResultRowsUntilSelected > rows || i >= |results| {
          selectedSearchIndex := Option.None;
        }
      }
    }

    /** The tabs, or while searching the results, laid out in `maxRows` rows of `maxCols` columns. */
    method Render(maxRows: nat, maxCols: nat, colors: Colors, w: char -> nat) returns (lines: seq<LineToRender>)
      ensures isSearching ==> ViewsOf(lines) == SearchViews(searchResults, selectedSearchIndex, maxRows, maxCols, w)
      ensures !isSearching ==> ViewsOf(lines) == ListViews(tabUiInfos, maxRows, selectedIndex.index, maxCols, colors, w)
      ensures forall k :: 0 <= k < |lines| ==> fresh(lines[k])
    {
      if isSearching {
        lines := RenderSearchResults(maxRows, maxCols, w);
      } else {
        lines := RenderList(maxRows, maxCols, colors, w);
      }
    }

    /** Takes results in order while their lines fit, stopping at the first that does not. */
    method RenderSearchResults(maxRows: nat, maxCols: nat, w: char -> nat) returns (linesToRender: seq<LineToRender>)
      ensures ViewsOf(linesToRender) == SearchViews(searchResults, selectedSearchIndex, maxRows, maxCols, w)
      ensures forall k :: 0 <= k < |linesToRender| ==> fresh(linesToRender[k])
    {
      linesToRender := [];
      var results := searchResults;
      var cursor := selectedSearchIndex;
      var i := 0;
      while i < |results|
        invariant i <= |results|
        invariant Measure.Sum(results[..i], LineCountOf) <= maxRows
        invariant |linesToRender| == Measure.Sum(results[..i], LineCountOf)
        invariant forall k :: 0 <= k < |linesToRender| ==> fresh(linesToRender[k])
        invariant ViewsOf(linesToRender) == ResultsViews(results[..i], cursor, maxCols, w)
      {
        var result := results[i];
        ResultsViewsStep(results, cursor, maxCols, w, i);
        if |linesToRender| + result.LinesToRender() <= maxRows {
          var next := TakeResult(linesToRender, results, cursor, i, maxCols, w);
          forall k | 0 <= k < |linesToRender| ensures fresh(next[k]) {
            assert next[k] == next[..|linesToRender|][k];
          }
          linesToRender := next;
          i := i + 1;
        } else {
          Measure.FitLengthUnique(results, LineCountOf, maxRows, i);
          break;
        }
      }
      if i == |results| {
        assert results[..i] == results;
        Measure.FitLengthUnique(results, LineCountOf, maxRows, i);
      }
    }

    /** The tabs windowed around the browsing cursor, in index order. */
    method RenderList(maxRows: nat, maxCols: nat, colors: Colors, w: char -> nat) returns (linesToRender: seq<LineToRender>)
      ensures ViewsOf(linesToRender) == ListViews(tabUiInfos, maxRows, selectedIndex.index, maxCols, colors, w)
      ensures forall k :: 0 <= k < |linesToRender| ==> fresh(linesToRender[k])
    {
      var totalLinesToRender := TotalLinesToRender();
      var lineCountToRemove := Measure.SaturatingSub(totalLinesToRender, maxRows);
      var untilSelected, afterSelected, linesLeft := RenderTabs(lineCountToRemove, maxCols, colors, w);
      linesToRender := untilSelected + afterSelected;
      ViewsOfAppend(untilSelected, afterSelected);
    }

    /** One line per tab. */
    function TotalLinesToRender(): (n: nat)
      reads this
      ensures n == |tabUiInfos|
    {
      |tabUiInfos|
    }

    /** `render_assets!` over the tabs, with a deeper selection exactly when a tab is selected. */
    method RenderTabs(lineCountToRemove: nat, maxCols: nat, colors: Colors, w: char -> nat)
      returns (untilSelected: seq<LineToRender>, afterSelected: seq<LineToRender>, linesLeftToRemove: nat)
      ensures var win := MinimizeLines(|tabUiInfos|, lineCountToRemove, selectedIndex.index);
        && ViewsOf(untilSelected)
           == AboveViews(tabUiInfos, win, maxCols, colors, w)
            + AnchorViews(tabUiInfos, win, selectedIndex.index, selectedIndex.index.Some?, maxCols, colors, w)
        && ViewsOf(afterSelected) == BelowViews(tabUiInfos, win, maxCols, colors, w)
        && linesLeftToRemove == win.linesLeftToRemove
      ensures forall k :: 0 <= k < |untilSelected| ==> fresh(untilSelected[k])
      ensures forall k :: 0 <= k < |afterSelected| ==> fresh(afterSelected[k])
    {
      untilSelected, afterSelected, linesLeftToRemove :=
        RenderAssets(tabUiInfos, lineCountToRemove, selectedIndex.index, selectedIndex.index.Some?, maxCols, colors, w);
    }

    method MoveSelectionDown()
      modifies this
      ensures isSearching ==>
        selectedSearchIndex == SearchDown(old(selectedSearchIndex), |searchResults|) && selectedIndex == old(selectedIndex)
      ensures !isSearching ==>
        selectedIndex == SelectedIndex(BrowseDown(old(selectedIndex.index), |tabUiInfos|)) && selectedSearchIndex == old(selectedSearchIndex)
      ensures tabUiInfos == old(tabUiInfos) && searchResults == old(searchResults) && isSearching == old(isSearching)
    {
      if isSearching {
        match selectedSearchIndex {
          case Some(searchIndex) =>
            selectedSearchIndex := Some(if searchIndex < UsizeMax then searchIndex + 1 else searchIndex);
          case None =>
            if searchResults != [] {
              selectedSearchIndex := Some(0);
            }
        }
      } else {
        match selectedIndex {
          case SelectedIndex(None) =>
            if tabUiInfos != [] {
              selectedIndex := SelectedIndex(Some(0));
            }
          case SelectedIndex(Some(selectedTab)) =>
            if |tabUiInfos| > selectedTab + 1 {
              selectedIndex := SelectedIndex(Some(selectedTab + 1));
            } else {
              selectedIndex := SelectedIndex(Option.None);
            }
        }
      }
    }

    method MoveSelectionUp()
      modifies this
      ensures isSearching ==>
        selectedSearchIndex == SearchUp(old(selectedSearchIndex), |searchResults|) && selectedIndex == old(selectedIndex)
      ensures !isSearching ==>
        selectedIndex == SelectedIndex(BrowseUp(old(selectedIndex.index), |tabUiInfos|)) && selectedSearchIndex == old(selectedSearchIndex)
      ensures tabUiInfos == old(tabUiInfos) && searchResults == old(searchResults) && isSearching == old(isSearching)
    {
      if isSearching {
        match selectedSearchIndex {
          case Some(searchIndex) =>
            selectedSearchIndex := Some(Measure.SaturatingSub(searchIndex, 1));
          case None =>
            if searchResults != [] {
              selectedSearchIndex := Some(0);
            }
        }
      } else {
        match selectedIndex {
          case SelectedIndex(None) =>
            if tabUiInfos != [] {
              selectedIndex := SelectedIndex(Some(Measure.SaturatingSub(|tabUiInfos|, 1)));
            }
          case SelectedIndex(Some(selectedTab)) =>
            if selectedTab > 0 {
              selectedIndex := SelectedIndex(Some(selectedTab - 1));
            } else {
              selectedIndex := SelectedIndex(Option.None);
            }
        }
      }
    }
  }
}
