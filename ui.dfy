/**
 * Line composition (src/ui/mod.rs): styled spans rendered into a line under a
 * column budget, the line's selection marker and its "[+N]" indicator.
 *
 * Display width comes from the unicode_width crate in the source; here it is
 * the parameter `w`, the width of one character (control characters, which
 * the crate gives no width, count as whatever `w` says, normally 0), and the
 * width of a string is the sum of the widths of its characters.
 */
module Ui {
  import opened Wrappers
  import opened Ansi
  import Measure

  // ---------------------------------------------------------------------------
  // Colours

  type Byte = x: nat | x < 256

  /** zellij's `PaletteColor`. */
  datatype PaletteColor = EightBit(byte: Byte) | Rgb(r: Byte, g: Byte, b: Byte)

  /** The roles of zellij's `Palette` that the plugin reads. */
  datatype Palette = Palette(
    green: PaletteColor, red: PaletteColor, cyan: PaletteColor,
    magenta: PaletteColor, orange: PaletteColor, bg: PaletteColor)

  /** The parameters that name a colour after the 38 (foreground) or 48 (background) selector. */
  function ColorParams(color: PaletteColor): (p: string)
    ensures IsParams(p)
  {
    match color
    case EightBit(byte) =>
      DecimalIsParams(byte);
      "5;" + Decimal(byte)
    case Rgb(r, g, b) =>
      DecimalIsParams(r);
      DecimalIsParams(g);
      DecimalIsParams(b);
      "2;" + Decimal(r) + ";" + Decimal(g) + ";" + Decimal(b)
  }

  /** zellij's `Colors`: the palette a line is styled with. */
  datatype Colors = Colors(palette: Palette) {

    function Bold(text: string): (s: string)
      ensures NoEsc(text) ==> Complete(s) && Visible(s) == text
    {
      Wrapped("1", text, "22");
      Sgr("1") + text + Sgr("22")
    }

    /** Text in a bold foreground colour, reset afterwards. */
    function Color(color: PaletteColor, text: string): (s: string)
      ensures NoEsc(text) ==> Complete(s) && Visible(s) == text
    {
      Wrapped("38;" + ColorParams(color) + ";1", text, "39;22");
      Sgr("38;" + ColorParams(color) + ";1") + text + Sgr("39;22")
    }

    function Orange(text: string): string { Color(palette.orange, text) }
    function Green(text: string): string { Color(palette.green, text) }
    function Red(text: string): string { Color(palette.red, text) }
    function Cyan(text: string): string { Color(palette.cyan, text) }
    function Magenta(text: string): string { Color(palette.magenta, text) }
  }

  // ---------------------------------------------------------------------------
  // Span styles

  datatype SpanStyle =
    | None
    | Bold
    | Foreground(color: PaletteColor)
    | ForegroundBold(color: PaletteColor)
    | Background(color: PaletteColor)
  {
    /** The text wrapped in the escape sequences of this style. */
    function StyleString(toStyle: string): (s: string)
      ensures this == SpanStyle.None ==> s == toStyle
      ensures NoEsc(toStyle) ==> Complete(s) && Visible(s) == toStyle
    {
      match this
      case None =>
        PlainVisible(toStyle);
        toStyle
      case Bold =>
        Wrapped("1", toStyle, "22");
        Sgr("1") + toStyle + Sgr("22")
      case Foreground(color) =>
        Wrapped("38;" + ColorParams(color), toStyle, "39");
        Sgr("38;" + ColorParams(color)) + toStyle + Sgr("39")
      case Background(color) =>
        Wrapped("48;" + ColorParams(color), toStyle, "39");
        Sgr("48;" + ColorParams(color)) + toStyle + Sgr("39")
      case ForegroundBold(color) =>
        Wrapped("38;" + ColorParams(color) + ";1", toStyle, "39;22");
        Sgr("38;" + ColorParams(color) + ";1") + toStyle + Sgr("39;22")
    }
  }

  /** `Colors::color` writes the same escapes as the bold-foreground span style. */
  lemma ColorIsForegroundBold(colors: Colors, color: PaletteColor, text: string)
    ensures colors.Color(color, text) == ForegroundBold(color).StyleString(text)
  {
  }

  /** `Colors::bold` writes the same escapes as the bold span style. */
  lemma BoldIsBoldStyle(colors: Colors, text: string)
    ensures colors.Bold(text) == Bold.StyleString(text)
  {
  }

  // ---------------------------------------------------------------------------
  // Lines

  /** The six columns an unselected line, or a selected one without arrows, is indented by. */
  const Blank: string := "      "
  /** The arrows of a selected tab in the list. */
  const ListArrows: string := "<←↓↑→>"
  /** The arrows of a selected search result. */
  const SearchArrows: string := " <↓↑> "

  /** The abstract value of a `LineToRender`. */
  datatype LineView = LineView(line: string, isSelected: bool, truncatedResultCount: nat, colors: Colors)

  /**
   * What `make_selected` and `make_selected_as_search` put in front of a
   * line: the background colour, an erase to the end of the line (which
   * fills it with that background), the background colour again, then the
   * arrows in magenta or six blanks.
   */
  function SelectionPrefix(colors: Colors, arrows: string, addArrows: bool): string
  {
    var background := Sgr("48;" + ColorParams(colors.palette.bg));
    background + Csi("", 'K') + background + (if addArrows then colors.Magenta(arrows) else Blank)
  }

  /** The line `v` once it is made selected with the given arrows. */
  function Selected(v: LineView, arrows: string, addArrows: bool): (r: LineView)
    ensures r.isSelected && r.truncatedResultCount == v.truncatedResultCount && r.colors == v.colors
    ensures r.line == SelectionPrefix(v.colors, arrows, addArrows) + v.line
  {
    v.(line := SelectionPrefix(v.colors, arrows, addArrows) + v.line, isSelected := true)
  }

  /** The selection prefix shows only the arrows (or six blanks) and leaves the rest of the line to read as before. */
  lemma SelectionPrefixVisible(colors: Colors, arrows: string, addArrows: bool, rest: string)
    requires NoEsc(arrows) && Complete(rest)
    ensures Complete(SelectionPrefix(colors, arrows, addArrows) + rest)
    ensures Visible(SelectionPrefix(colors, arrows, addArrows) + rest)
         == (if addArrows then arrows else Blank) + Visible(rest)
  {
    var background := Sgr("48;" + ColorParams(colors.palette.bg));
    var glyphs := if addArrows then colors.Magenta(arrows) else Blank;
    CsiInvisible("48;" + ColorParams(colors.palette.bg), 'm');
    CsiInvisible("", 'K');
    BlankPlain();
    HiddenThenShown(background, Csi("", 'K'), background, glyphs, rest);
  }

  /** Three invisible pieces followed by two complete ones read as the last two. */
  lemma HiddenThenShown(a: string, b: string, c: string, d: string, e: string)
    requires Complete(a) && Visible(a) == [] && Complete(b) && Visible(b) == []
    requires Complete(c) && Visible(c) == [] && Complete(d) && Complete(e)
    ensures Complete(a + b + c + d + e) && Visible(a + b + c + d + e) == Visible(d) + Visible(e)
  {
    Join(a, b);
    Join(a + b, c);
    Join(a + b + c, d);
    Join(a + b + c + d, e);
  }

  lemma BlankPlain()
    ensures NoEsc(Blank) && Complete(Blank) && Visible(Blank) == Blank
  {
    PlainVisible(Blank);
  }

  /** The "[+N]" indicator as it reads on screen. */
  function MoreText(count: nat): string
  {
    if count > 0 then " [+" + Decimal(count) + "]" else ""
  }

  lemma MoreTextPlain(count: nat)
    ensures NoEsc(MoreText(count))
  {
    if count > 0 {
      DecimalIsParams(count);
      NoEscJoin(" [+", Decimal(count));
      NoEscJoin(" [+" + Decimal(count), "]");
    }
  }

  /** A line being composed, with its selection state and its count of hidden results. */
  class LineToRender {
    var line: string
    var isSelected: bool
    var truncatedResultCount: nat
    const colors: Colors

    /** `LineToRender::new`: an empty, unselected line with no hidden results. */
    constructor (colors: Colors)
      ensures View() == LineView("", false, 0, colors)
    {
      line := "";
      isSelected := false;
      truncatedResultCount := 0;
      this.colors := colors;
    }

    function View(): LineView
      reads this
    {
      LineView(line, isSelected, truncatedResultCount, colors)
    }

    method Append(toAppend: string)
      modifies this
      ensures View() == old(View()).(line := old(line) + toAppend)
    {
      line := line + toAppend;
    }

    method MakeSelectedAsSearch(addArrows: bool)
      modifies this
      ensures View() == Selected(old(View()), SearchArrows, addArrows)
    {
      Select(SearchArrows, addArrows);
    }

    method MakeSelected(addArrows: bool)
      modifies this
      ensures View() == Selected(old(View()), ListArrows, addArrows)
    {
      Select(ListArrows, addArrows);
    }

    /** The body `make_selected` and `make_selected_as_search` share; only their arrows differ. */
    method Select(arrows: string, addArrows: bool)
      modifies this
      ensures View() == Selected(old(View()), arrows, addArrows)
    {
      isSelected := true;
      var glyphs := if addArrows then colors.Magenta(arrows) else Blank;
      var background := Sgr("48;" + ColorParams(colors.palette.bg));
      line := background + Csi("", 'K') + background + glyphs + line;
    }

    method AddTruncatedResults(resultCount: nat)
      modifies this
      ensures View() == old(View()).(truncatedResultCount := old(truncatedResultCount) + resultCount)
    {
      truncatedResultCount := truncatedResultCount + resultCount;
    }

    /** The string written to the terminal for this line. */
    function Render(): (r: string)
      reads this
      ensures isSelected ==> r == line
      ensures !isSelected ==> Sgr("49") + Blank + line <= r
      ensures !isSelected && truncatedResultCount == 0 ==> r == Sgr("49") + Blank + line
    {
      var more := if truncatedResultCount > 0
        then colors.Red(" [+" + Decimal(truncatedResultCount) + "]")
        else "";
      if isSelected then line else Sgr("49") + Blank + line + more
    }
  }

  /**
   * A selected line is written as it is, and never with its "[+N]"; an
   * unselected one is indented by six blanks after a background reset and
   * ends with "[+N]" exactly when it hides results.
   */
  lemma RenderVisible(l: LineToRender)
    requires Complete(l.line)
    ensures l.isSelected ==> l.Render() == l.line
    ensures Visible(l.Render())
         == if l.isSelected then Visible(l.line)
            else Blank + Visible(l.line) + MoreText(l.truncatedResultCount)
  {
    if !l.isSelected {
      var n := l.truncatedResultCount;
      var more := if n > 0 then l.colors.Red(" [+" + Decimal(n) + "]") else "";
      MoreVisible(l.colors, n);
      CsiInvisible("49", 'm');
      BlankPlain();
      HiddenThenThree(Sgr("49"), Blank, l.line, more);
    }
  }

  /** An invisible piece followed by three complete ones reads as the three. */
  lemma HiddenThenThree(a: string, b: string, c: string, d: string)
    requires Complete(a) && Visible(a) == [] && Complete(b) && Complete(c) && Complete(d)
    ensures Complete(a + b + c + d) && Visible(a + b + c + d) == Visible(b) + Visible(c) + Visible(d)
  {
    Join(a, b);
    Join(a + b, c);
    Join(a + b + c, d);
  }

  lemma MoreVisible(colors: Colors, n: nat)
    ensures var more := if n > 0 then colors.Red(" [+" + Decimal(n) + "]") else "";
      Complete(more) && Visible(more) == MoreText(n)
  {
    if n > 0 {
      var text := " [+" + Decimal(n) + "]";
      MoreTextPlain(n);
      assert MoreText(n) == text;
      assert colors.Red(text) == colors.Color(colors.palette.red, text);
    }
  }

  /** The abstract values of a sequence of lines. */
  function ViewsOf(lines: seq<LineToRender>): (vs: seq<LineView>)
    reads lines
    ensures |vs| == |lines|
    ensures forall k :: 0 <= k < |lines| ==> vs[k] == lines[k].View()
  {
    seq(|lines|, k reads lines requires 0 <= k < |lines| => lines[k].View())
  }

  // ---------------------------------------------------------------------------
  // Width and truncation

  lemma ViewsOfSingleton(l: LineToRender)
    ensures ViewsOf([l]) == [l.View()]
  {
  }

  /** The views of two runs of lines put together are the views of each, put together. */
  lemma ViewsOfAppend(a: seq<LineToRender>, b: seq<LineToRender>)
    ensures ViewsOf(a + b) == ViewsOf(a) + ViewsOf(b)
  {
    var joined := ViewsOf(a + b);
    var parts := ViewsOf(a) + ViewsOf(b);
    forall k | 0 <= k < |joined| ensures joined[k] == parts[k] {
      if k < |a| {
        assert (a + b)[k] == a[k];
      } else {
        assert (a + b)[k] == b[k - |a|];
      }
    }
  }

  /** The display width of a string: the sum of the widths of its characters. */
  function Width(s: string, w: char -> nat): nat
  {
    Measure.Sum(s, w)
  }

  /**
   * The text a span keeps under a column budget: its longest prefix whose
   * width fits the budget, found the way the source finds it, one character
   * at a time up to the first one that would not fit.
   */
  function Truncation(text: string, budget: nat, w: char -> nat): (t: string)
    ensures t <= text
  {
    text[..Measure.FitLength(text, w, budget)]
  }

  /** The truncation is a prefix that fits; it is the whole text when that fits, otherwise one more character would not. */
  lemma TruncationFits(text: string, budget: nat, w: char -> nat)
    ensures var t := Truncation(text, budget, w);
      && t <= text
      && Width(t, w) <= budget
      && (t == text || Width(text[..|t| + 1], w) > budget)
      && (Width(text, w) <= budget ==> t == text)
  {
    FitsWhole(text, budget, w);
  }

  lemma FitsWhole(text: string, budget: nat, w: char -> nat)
    ensures Width(text, w) <= budget ==> Measure.FitLength(text, w, budget) == |text| && text[..|text|] == text
  {
    if Width(text, w) <= budget {
      Measure.FitLengthAll(text, w, budget);
    }
  }

  /** The truncation loop of `TruncatableUiSpan::render`, with its shortcut for text that fits. */
  method Truncate(text: string, remainingCols: nat, w: char -> nat) returns (truncated: string)
    ensures truncated == Truncation(text, remainingCols, w)
  {
    if remainingCols >= Width(text, w) {
      FitsWhole(text, remainingCols, w);
      truncated := text;
    } else {
      truncated := "";
      var i := 0;
      while i < |text|
        invariant i <= |text|
        invariant truncated == text[..i]
        invariant Width(truncated, w) <= remainingCols
      {
        if Width(truncated, w) + w(text[i]) <= remainingCols {
          Measure.SumSnoc(truncated, text[i], w);
          assert text[..i + 1] == truncated + [text[i]];
          truncated := truncated + [text[i]];
          i := i + 1;
        } else {
          Measure.SumSnoc(truncated, text[i], w);
          assert text[..i + 1] == truncated + [text[i]];
          break;
        }
      }
      Measure.FitLengthUnique(text, w, remainingCols, i);
    }
  }

  // ---------------------------------------------------------------------------
  // Highlighting

  /** Each character of `truncated` styled on its own: with `indexStyle` at the given indices, otherwise with `style`. */
  function StyledChars(truncated: string, style: SpanStyle, indexStyle: SpanStyle, indices: seq<nat>): (pieces: seq<string>)
    ensures |pieces| == |truncated|
  {
    seq(|truncated|, i requires 0 <= i < |truncated| =>
      (if i in indices then indexStyle else style).StyleString([truncated[i]]))
  }

  function Concat(pieces: seq<string>): string
  {
    if pieces == [] then "" else Concat(pieces[..|pieces| - 1]) + pieces[|pieces| - 1]
  }

  /** The highlighting loop of `TruncatableUiSpan::render`. */
  method HighlightChars(truncated: string, style: SpanStyle, indexStyle: SpanStyle, indices: seq<nat>)
    returns (rendered: string)
    ensures rendered == Concat(StyledChars(truncated, style, indexStyle, indices))
  {
    rendered := "";
    ghost var pieces := StyledChars(truncated, style, indexStyle, indices);
    for i := 0 to |truncated|
      invariant rendered == Concat(pieces[..i])
    {
      assert pieces[..i + 1][..i] == pieces[..i];
      if i in indices {
        rendered := rendered + indexStyle.StyleString([truncated[i]]);
      } else {
        rendered := rendered + style.StyleString([truncated[i]]);
      }
    }
    assert pieces[..|truncated|] == pieces;
  }

  /** Indices at or beyond the end of the truncated text make no difference. */
  lemma IndicesBeyondTextIgnored(truncated: string, style: SpanStyle, indexStyle: SpanStyle, a: seq<nat>, b: seq<nat>)
    requires forall i :: 0 <= i < |truncated| ==> (i in a <==> i in b)
    ensures StyledChars(truncated, style, indexStyle, a) == StyledChars(truncated, style, indexStyle, b)
  {
  }

  /** However its characters are styled, a highlighted text reads as the text. */
  lemma HighlightVisible(pieces: seq<string>, t: string, style: SpanStyle, indexStyle: SpanStyle, indices: seq<nat>)
    requires NoEsc(t) && pieces == StyledChars(t, style, indexStyle, indices)
    ensures Complete(Concat(pieces)) && Visible(Concat(pieces)) == t
  {
    forall i | 0 <= i < |pieces|
      ensures Complete(pieces[i]) && Visible(pieces[i]) == [t[i]]
    {
      var c := [t[i]];
      assert NoEsc(c);
      var st := if i in indices then indexStyle else style;
      assert pieces[i] == st.StyleString(c);
    }
    PiecesVisible(pieces, t);
  }

  /** Pieces that each read as one character of `t` read, joined, as `t`. */
  lemma {:induction false} PiecesVisible(pieces: seq<string>, t: string)
    requires |pieces| == |t|
    requires forall i :: 0 <= i < |pieces| ==> Complete(pieces[i]) && Visible(pieces[i]) == [t[i]]
    ensures Complete(Concat(pieces)) && Visible(Concat(pieces)) == t
    decreases |t|
  {
    if t != [] {
      var n := |t| - 1;
      var pieces', t' := pieces[..n], t[..n];
      assert forall i :: 0 <= i < |pieces'| ==> pieces'[i] == pieces[i] && t'[i] == t[i];
      PiecesVisible(pieces', t');
      assert Concat(pieces) == Concat(pieces') + pieces[n];
      Join(Concat(pieces'), pieces[n]);
      assert t == t' + [t[n]];
    }
  }

  // ---------------------------------------------------------------------------
  // Spans

  /** What rendering a span appends to the line, and the column budget left after it. */
  datatype Rendered = Rendered(text: string, remainingCols: nat)

  datatype StringAndLength = StringAndLength(text: string, length: nat)

  /** A text truncated to the budget and styled, optionally highlighting some of its characters. */
  datatype TruncatableUiSpan = TruncatableUiSpan(text: string, style: SpanStyle) {

    /**
     * The output of `render`: the truncation of the text, styled; its width
     * fits the budget and is charged to it exactly (the saturating
     * subtraction never saturates).
     */
    function Output(indices: Option<(SpanStyle, seq<nat>)>, remainingCols: nat, w: char -> nat): (r: Rendered)
      ensures Width(Truncation(text, remainingCols, w), w) <= remainingCols
      ensures r.remainingCols == remainingCols - Width(Truncation(text, remainingCols, w), w)
      ensures indices.None? ==> r.text == style.StyleString(Truncation(text, remainingCols, w))
      ensures NoEsc(text) ==> Complete(r.text) && Visible(r.text) == Truncation(text, remainingCols, w)
    {
      var truncated := Truncation(text, remainingCols, w);
      TruncationFits(text, remainingCols, w);
      var rendered :=
        match indices
        case Some((indexStyle, idx)) => Concat(StyledChars(truncated, style, indexStyle, idx))
        case None => style.StyleString(truncated);
      TruncatableVisible(this, indices, truncated);
      Rendered(rendered, Measure.SaturatingSub(remainingCols, Width(truncated, w)))
    }

    method Render(indices: Option<(SpanStyle, seq<nat>)>, lineToRender: LineToRender, remainingCols: nat, w: char -> nat)
      returns (newRemainingCols: nat)
      modifies lineToRender
      ensures lineToRender.View() == old(lineToRender.View()).(line := old(lineToRender.line) + Output(indices, remainingCols, w).text)
      ensures newRemainingCols == Output(indices, remainingCols, w).remainingCols
    {
      var truncated := Truncate(text, remainingCols, w);
      var rendered := "";
      match indices {
        case Some((indexStyle, idx)) =>
          rendered := HighlightChars(truncated, style, indexStyle, idx);
        case None =>
          rendered := rendered + style.StyleString(truncated);
      }
      newRemainingCols := Measure.SaturatingSub(remainingCols, Width(truncated, w));
      lineToRender.Append(rendered);
    }
  }

  /** Styling, highlighted or not, shows a plain truncated text as it is. */
  lemma TruncatableVisible(span: TruncatableUiSpan, indices: Option<(SpanStyle, seq<nat>)>, truncated: string)
    requires truncated <= span.text
    ensures NoEsc(span.text) ==>
      var rendered := match indices
        case Some((indexStyle, idx)) => Concat(StyledChars(truncated, span.style, indexStyle, idx))
        case None => span.style.StyleString(truncated);
      Complete(rendered) && Visible(rendered) == truncated
  {
    if NoEsc(span.text) {
      assert NoEsc(truncated) by {
        forall i | 0 <= i < |truncated| ensures truncated[i] != Esc {
          assert truncated[i] == span.text[i];
        }
      }
      if indices.Some? {
        var (indexStyle, idx) := indices.value;
        HighlightVisible(StyledChars(truncated, span.style, indexStyle, idx), truncated, span.style, indexStyle, idx);
      }
    }
  }

  /** The index of the first alternative whose length is strictly less than the budget. */
  function FirstFit(alternatives: seq<StringAndLength>, remainingCols: nat): (k: Option<nat>)
    ensures k.Some? ==> k.value < |alternatives| && alternatives[k.value].length < remainingCols
    ensures k.Some? ==> forall j :: 0 <= j < k.value ==> alternatives[j].length >= remainingCols
    ensures k.None? ==> forall j :: 0 <= j < |alternatives| ==> alternatives[j].length >= remainingCols
  {
    if alternatives == [] then Option.None
    else if alternatives[0].length < remainingCols then Some(0)
    else match FirstFit(alternatives[1..], remainingCols)
      case Some(k) => Some(k + 1)
      case None => Option.None
  }

  /** Alternative renderings of one span, longest first; the first that fits is used. */
  datatype UiSpanTelescope = UiSpanTelescope(alternatives: seq<StringAndLength>) {

    function Output(remainingCols: nat): (r: Rendered)
      ensures r.remainingCols <= remainingCols
    {
      match FirstFit(alternatives, remainingCols)
      case Some(k) => Rendered(alternatives[k].text, remainingCols - alternatives[k].length)
      case None => Rendered("", remainingCols)
    }

    method Render(lineToRender: LineToRender, remainingCols: nat) returns (newRemainingCols: nat)
      modifies lineToRender
      ensures lineToRender.View() == old(lineToRender.View()).(line := old(lineToRender.line) + Output(remainingCols).text)
      ensures newRemainingCols == Output(remainingCols).remainingCols
    {
      newRemainingCols := remainingCols;
      var i := 0;
      while i < |alternatives|
        invariant i <= |alternatives|
        invariant forall j :: 0 <= j < i ==> alternatives[j].length >= remainingCols
        invariant newRemainingCols == remainingCols
        invariant lineToRender.View() == old(lineToRender.View())
      {
        if alternatives[i].length < newRemainingCols {
          lineToRender.Append(alternatives[i].text);
          newRemainingCols := newRemainingCols - alternatives[i].length;
          break;
        }
        i := i + 1;
      }
      assert old(lineToRender.line) + "" == old(lineToRender.line);
    }
  }

  datatype UiSpan = Telescope(telescope: UiSpanTelescope) | Truncatable(truncatable: TruncatableUiSpan) {

    function Output(indices: Option<(SpanStyle, seq<nat>)>, remainingCols: nat, w: char -> nat): (r: Rendered)
      ensures r.remainingCols <= remainingCols
    {
      match this
      case Telescope(t) => t.Output(remainingCols)
      case Truncatable(t) => t.Output(indices, remainingCols, w)
    }

    method Render(indices: Option<(SpanStyle, seq<nat>)>, lineToRender: LineToRender, remainingCols: nat, w: char -> nat)
      returns (newRemainingCols: nat)
      modifies lineToRender
      ensures lineToRender.View() == old(lineToRender.View()).(line := old(lineToRender.line) + Output(indices, remainingCols, w).text)
      ensures newRemainingCols == Output(indices, remainingCols, w).remainingCols
    {
      match this {
        case Telescope(t) =>
          newRemainingCols := t.Render(lineToRender, remainingCols);
        case Truncatable(t) =>
          newRemainingCols := t.Render(indices, lineToRender, remainingCols, w);
      }
    }
  }

  /** Spans rendered left to right into one line, each given what the ones before it left of the budget. */
  function SpansOutput(spans: seq<UiSpan>, indices: Option<(SpanStyle, seq<nat>)>, remainingCols: nat, w: char -> nat): (r: Rendered)
    ensures r.remainingCols <= remainingCols
  {
    if spans == [] then Rendered("", remainingCols)
    else
      var before := SpansOutput(spans[..|spans| - 1], indices, remainingCols, w);
      var last := spans[|spans| - 1].Output(indices, before.remainingCols, w);
      Rendered(before.text + last.text, last.remainingCols)
  }

  /** Rendering spans into a line one after another, threading the budget, as the source's loops do. */
  method RenderSpans(spans: seq<UiSpan>, indices: Option<(SpanStyle, seq<nat>)>, lineToRender: LineToRender, remainingCols: nat, w: char -> nat)
    returns (newRemainingCols: nat)
    modifies lineToRender
    ensures lineToRender.View() == old(lineToRender.View()).(line := old(lineToRender.line) + SpansOutput(spans, indices, remainingCols, w).text)
    ensures newRemainingCols == SpansOutput(spans, indices, remainingCols, w).remainingCols
  {
    ghost var v0 := lineToRender.View();
    newRemainingCols := remainingCols;
    for i := 0 to |spans|
      invariant lineToRender.View() == v0.(line := v0.line + SpansOutput(spans[..i], indices, remainingCols, w).text)
      invariant newRemainingCols == SpansOutput(spans[..i], indices, remainingCols, w).remainingCols
    {
      SpansOutputStep(spans, i, indices, remainingCols, w);
      newRemainingCols := RenderAfter(spans[i], indices, lineToRender, newRemainingCols, w, v0, SpansOutput(spans[..i], indices, remainingCols, w).text);
    }
    assert spans[..|spans|] == spans;
  }

  /** One turn of the loop in `RenderSpans`: a span rendered after text the spans before it wrote. */
  method RenderAfter(span: UiSpan, indices: Option<(SpanStyle, seq<nat>)>, lineToRender: LineToRender,
                     cols: nat, w: char -> nat, ghost v0: LineView, ghost written: string)
    returns (next: nat)
    requires lineToRender.View() == v0.(line := v0.line + written)
    modifies lineToRender
    ensures lineToRender.View() == v0.(line := v0.line + (written + span.Output(indices, cols, w).text))
    ensures next == span.Output(indices, cols, w).remainingCols
  {
    ghost var mid := lineToRender.View();
    next := span.Render(indices, lineToRender, cols, w);
    AppendTwice(v0, written, span.Output(indices, cols, w).text, mid, lineToRender.View());
  }

  /** Appending `a` and then `b` to a line's text appends `a + b`. */
  lemma AppendTwice(v0: LineView, a: string, b: string, mid: LineView, now: LineView)
    requires mid == v0.(line := v0.line + a) && now == mid.(line := mid.line + b)
    ensures now == v0.(line := v0.line + (a + b))
  {
    assert v0.line + a + b == v0.line + (a + b);
  }

  lemma SpansOutputStep(spans: seq<UiSpan>, i: nat, indices: Option<(SpanStyle, seq<nat>)>, remainingCols: nat, w: char -> nat)
    requires i < |spans|
    ensures var before := SpansOutput(spans[..i], indices, remainingCols, w);
      var last := spans[i].Output(indices, before.remainingCols, w);
      SpansOutput(spans[..i + 1], indices, remainingCols, w) == Rendered(before.text + last.text, last.remainingCols)
  {
    assert spans[..i + 1][..i] == spans[..i];
  }

  // ---------------------------------------------------------------------------
  // Tabs and list items

  /** The part of zellij's `TabInfo` the plugin reads. */
  datatype TabInfo = TabInfo(name: string, position: nat, active: bool)

  datatype TabUiInfo = TabUiInfo(name: string, position: nat, isCurrentTab: bool) {

    static function FromTabInfo(tabInfo: TabInfo): (t: TabUiInfo)
      ensures t.name == tabInfo.name && t.position == tabInfo.position
      ensures t.isCurrentTab <==> tabInfo.active
    {
      TabUiInfo(tabInfo.name, tabInfo.position, tabInfo.active)
    }

    /** The line `as_line_to_render` produces for this tab. */
    function View(maxCols: nat, colors: Colors, w: char -> nat): LineView
    {
      LineView(Truncation(name, maxCols, w), false, 0, colors)
    }

    /** A fresh, unselected line with no hidden results that holds the tab's name truncated to `maxCols`. */
    method AsLineToRender(maxCols: nat, colors: Colors, w: char -> nat) returns (lineToRender: LineToRender)
      ensures fresh(lineToRender)
      ensures lineToRender.View() == View(maxCols, colors, w)
    {
      lineToRender := new LineToRender(colors);
      var uiSpans := BuildTabUiLine(this, colors);
      var cols := RenderSpans(uiSpans, Option.None, lineToRender, maxCols, w);
      TabUiLineIsName(this, colors, maxCols, w);
    }
  }

  /** The spans of a tab's line: its name, unstyled and truncatable. */
  function BuildTabUiLine(tabUiInfo: TabUiInfo, colors: Colors): seq<UiSpan>
  {
    [Truncatable(TruncatableUiSpan(tabUiInfo.name, SpanStyle.None))]
  }

  /** A tab's line reads as its name truncated to the budget, with no escape sequence added. */
  lemma TabUiLineIsName(tabUiInfo: TabUiInfo, colors: Colors, maxCols: nat, w: char -> nat)
    ensures SpansOutput(BuildTabUiLine(tabUiInfo, colors), Option.None, maxCols, w).text
         == Truncation(tabUiInfo.name, maxCols, w)
  {
    var spans := BuildTabUiLine(tabUiInfo, colors);
    assert spans[..0] == [];
  }

  /** One entry of the search results as the scorer built it. */
  datatype ListItem = ListItem(name: string, tabName: Option<seq<UiSpan>>, colors: Colors) {

    function LineCount(): (n: nat)
      ensures n <= 1
      ensures n == 1 <==> tabName.Some?
    {
      var lineCount := 0;
      if tabName.Some? then lineCount + 1 else lineCount
    }

    /** The lines `render` produces: none without spans, otherwise one line holding all spans. */
    function Views(indices: Option<seq<nat>>, maxCols: nat, w: char -> nat): (vs: seq<LineView>)
      ensures |vs| == LineCount()
      ensures forall k :: 0 <= k < |vs| ==> !vs[k].isSelected && vs[k].truncatedResultCount == 0
    {
      match tabName
      case None => []
      case Some(spans) => [LineView(SpansOutput(spans, Highlight(indices), maxCols, w).text, false, 0, colors)]
    }

    /** Matched characters of a result are shown in bold magenta. */
    function Highlight(indices: Option<seq<nat>>): (styled: Option<(SpanStyle, seq<nat>)>)
      ensures styled.Some? <==> indices.Some?
      ensures indices.Some? ==> styled.value == (ForegroundBold(colors.palette.magenta), indices.value)
    {
      match indices
      case Some(idx) => Some((ForegroundBold(colors.palette.magenta), idx))
      case None => Option.None
    }

    method Render(indices: Option<seq<nat>>, maxCols: nat, w: char -> nat) returns (lines: seq<LineToRender>)
      ensures |lines| == LineCount()
      ensures forall k :: 0 <= k < |lines| ==> fresh(lines[k])
      ensures ViewsOf(lines) == Views(indices, maxCols, w)
    {
      lines := [];
      if tabName.Some? {
        var lineToRender := new LineToRender(colors);
        var remainingCols := RenderSpans(tabName.value, Highlight(indices), lineToRender, maxCols, w);
        lines := lines + [lineToRender];
        assert lines[..0] == [];
        assert lineToRender.line == SpansOutput(tabName.value, Highlight(indices), maxCols, w).text;
      }
    }
  }
}
