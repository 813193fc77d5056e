/**
  The frame composer: `render_state`, `render_header`, `render_search`,
  `render_list`, `render_safe_area` and the two string components, producing
  a sequence of output tokens. Termion's escape sequences are kept as opaque
  tokens; plain text is a `Text` token.
 */
module Render {
  import opened Wrappers
  import opened Screen

  /** Terminal coordinates are `u16` in termion. */
  type U16 = x: int | 0 <= x < 0x1_0000

  datatype Token =
    | Goto(col: U16, row: U16)
    | ClearAfterCursor
    | FgYellow
    | FgLightBlack
    | FgReset
    | Text(text: string)

  const Header: string := "  ---------- projects ----------\n\r"
  const InsertIndicator: string := "  [i] "
  const NormalIndicator: string := "  [n] "
  const InsertHint: string := "type to search"
  const NormalHint: string := "press i to search"
  const SelectedMarker: string := "\U{2192} "
  const UnselectedMarker: string := "  "
  /** `render_search` ends its line with CR LF, the other writers with LF CR. */
  const SearchEnd: string := "\r\n"
  const ItemEnd: string := "\n\r"

  function Indicator(mode: Mode): string {
    if mode == Insert then InsertIndicator else NormalIndicator
  }

  function Hint(mode: Mode): string {
    if mode == Insert then InsertHint else NormalHint
  }

  /** `components::search_line`: the mode indicator, then the buffer, or a
      dimmed per-mode hint when the buffer is empty. */
  function SearchLine(mode: Mode, term: string): (r: seq<Token>)
    ensures |r| == if term == [] then 4 else 2
    ensures r[0] == Text(Indicator(mode))
    ensures term != [] ==> r[1..] == [Text(term)]
    ensures term == [] ==> r[1..] == [FgLightBlack, Text(Hint(mode)), FgReset]
  {
    var shown := if term == [] then [FgLightBlack, Text(Hint(mode)), FgReset] else [Text(term)];
    [Text(Indicator(mode))] + shown
  }

  /** Reads the mode and the buffer back off a search line. */
  function ParseSearchLine(r: seq<Token>): Option<(Mode, string)>
  {
    if |r| == 0 || !r[0].Text? then None
    else
      var mode := if r[0].text == InsertIndicator then Insert else Normal;
      if r[0] != Text(Indicator(mode)) then None
      else if r[1..] == [FgLightBlack, Text(Hint(mode)), FgReset] then Some((mode, []))
      else if |r| == 2 && r[1].Text? && r[1].text != [] then Some((mode, r[1].text))
      else None
  }

  /** The search line shows the mode and the buffer without loss, the empty
      buffer included: decoding it gives both back. */
  lemma SearchLineRoundTrip(mode: Mode, term: string)
    ensures ParseSearchLine(SearchLine(mode, term)) == Some((mode, term))
  {
  }

  /** `components::selectable_list_item`: an arrow and yellow for the
      selected entry, two spaces and the default colour for the others. */
  function ListItem(selected: bool, name: string): (r: seq<Token>)
    ensures |r| == 4 && r[2] == Text(name) && r[3] == FgReset
    ensures r[0] == Text(SelectedMarker) <==> selected
    ensures r[1] == FgYellow <==> selected
  {
    if selected then [Text(SelectedMarker), FgYellow, Text(name), FgReset]
    else [Text(UnselectedMarker), FgReset, Text(name), FgReset]
  }

  /** Reads the selection flag and the name back off a list item. */
  function ParseListItem(r: seq<Token>): Option<(bool, string)>
  {
    if |r| != 4 || !r[2].Text? || r[3] != FgReset then None
    else if r[0] == Text(SelectedMarker) && r[1] == FgYellow then Some((true, r[2].text))
    else if r[0] == Text(UnselectedMarker) && r[1] == FgReset then Some((false, r[2].text))
    else None
  }

  lemma ListItemRoundTrip(selected: bool, name: string)
    ensures ParseListItem(ListItem(selected, name)) == Some((selected, name))
  {
  }

  /** One row of `render_list`: the item and its terminator. */
  function ItemLine(selected: bool, name: string): seq<Token>
  {
    ListItem(selected, name) + [Text(ItemEnd)]
  }

  /** `render_list` from position `from` on: one row per entry, in order,
      highlighted when the position is the selected index. */
  function Items(projects: seq<string>, from: nat, selected: nat): (r: seq<Token>)
    requires from <= |projects|
    ensures |r| == 5 * (|projects| - from)
    decreases |projects| - from
  {
    if from == |projects| then []
    else ItemLine(from == selected, projects[from]) + Items(projects, from + 1, selected)
  }

  /** `render_list`: the item lines of the reference description, in list order. */
  function RenderList(s: ScreenState): (r: seq<Token>)
    ensures |r| == 5 * |s.projects|
    ensures r == Join(ItemLines(s.projects, 0, s.selected))
  {
    ItemsAreLines(s.projects, 0, s.selected);
    Items(s.projects, 0, s.selected)
  }

  /** `render_state`: jump to the anchor, clear everything below it, then the
      header, the search line and the list. */
  function RenderState(s: ScreenState, col: U16, row: U16): (r: seq<Token>)
    ensures r == [Goto(col, row), ClearAfterCursor] + Join(FrameLines(s))
  {
    FrameIsLines(s);
    [Goto(col, row), ClearAfterCursor]
    + [Text(Header)]
    + SearchLine(s.mode, s.searchTerm) + [Text(SearchEnd)]
    + RenderList(s)
  }

  /** `render_safe_area`: `n` empty lines, written one at a time. */
  method RenderSafeArea(n: U16) returns (out: seq<Token>)
    ensures |out| == n
    ensures forall i :: 0 <= i < |out| ==> out[i] == Text(ItemEnd)
  {
    out := [];
    var i := 0;
    while i < n
      invariant i <= n
      invariant |out| == i
      invariant forall j :: 0 <= j < |out| ==> out[j] == Text(ItemEnd)
    {
      out := out + [Text(ItemEnd)];
      i := i + 1;
    }
  }

  // ---------------------------------------------------------------------
  // The frame as a list of lines

  function Join(lines: seq<seq<Token>>): seq<Token>
    decreases |lines|
  {
    if lines == [] then [] else lines[0] + Join(lines[1..])
  }

  lemma {:induction false} JoinAppend(a: seq<seq<Token>>, b: seq<seq<Token>>)
    ensures Join(a + b) == Join(a) + Join(b)
    decreases |a|
  {
    if a == [] {
      assert a + b == b;
    } else {
      assert (a + b)[0] == a[0];
      assert (a + b)[1..] == a[1..] + b;
      JoinAppend(a[1..], b);
      calc {
        Join(a + b);
        a[0] + Join(a[1..] + b);
        a[0] + (Join(a[1..]) + Join(b));
      }
    }
  }

  /** The rows of the list, indexed directly by list position. */
  function ItemLines(projects: seq<string>, from: nat, selected: nat): (r: seq<seq<Token>>)
    requires from <= |projects|
  {
    seq(|projects| - from, k requires 0 <= k < |projects| - from =>
      ItemLine(from + k == selected, projects[from + k]))
  }

  /** The recursive renderer writes exactly the rows `ItemLines` describes. */
  lemma {:induction false} ItemsAreLines(projects: seq<string>, from: nat, selected: nat)
    requires from <= |projects|
    ensures Items(projects, from, selected) == Join(ItemLines(projects, from, selected))
    decreases |projects| - from
  {
    var lines := ItemLines(projects, from, selected);
    if from < |projects| {
      assert Join(lines) == lines[0] + Join(lines[1..]);
      assert lines[0] == ItemLine(from == selected, projects[from]);
      assert lines[1..] == ItemLines(projects, from + 1, selected);
      ItemsAreLines(projects, from + 1, selected);
    }
  }

  /** The frame's lines: the header, the search line, then one per project. */
  function FrameLines(s: ScreenState): seq<seq<Token>>
  {
    [[Text(Header)], SearchLine(s.mode, s.searchTerm) + [Text(SearchEnd)]]
    + ItemLines(s.projects, 0, s.selected)
  }

  predicate EndsLine(line: seq<Token>) {
    |line| > 0 && line[|line| - 1].Text? &&
    var t := line[|line| - 1].text;
    |t| >= 2 && (t[|t| - 2..] == ItemEnd || t[|t| - 2..] == SearchEnd)
  }

  /** Header, search line and item lines, joined, are the frame after the
      anchor jump and the clear. */
  lemma FrameIsLines(s: ScreenState)
    ensures Join(FrameLines(s))
      == [Text(Header)] + SearchLine(s.mode, s.searchTerm) + [Text(SearchEnd)]
         + Items(s.projects, 0, s.selected)
  {
    var top := [[Text(Header)], SearchLine(s.mode, s.searchTerm) + [Text(SearchEnd)]];
    ItemsAreLines(s.projects, 0, s.selected);
    JoinAppend(top, ItemLines(s.projects, 0, s.selected));
    assert Join(top) == [Text(Header)] + (SearchLine(s.mode, s.searchTerm) + [Text(SearchEnd)]) by {
      assert top[1..][1..] == [];
    }
  }

  lemma FrameItemLine(s: ScreenState, k: nat)
    requires k < |s.projects|
    ensures FrameLines(s)[2 + k] == ItemLine(k == s.selected, s.projects[k])
  {
  }

  /** There are `2 + |projects|` lines, each closed by a line feed and a
      carriage return (in either order). */
  lemma FrameLinesShape(s: ScreenState)
    ensures |FrameLines(s)| == 2 + |s.projects|
    ensures forall k :: 0 <= k < |FrameLines(s)| ==> EndsLine(FrameLines(s)[k])
  {
    var lines := FrameLines(s);
    forall k | 0 <= k < |lines|
      ensures EndsLine(lines[k])
    {
      if k >= 2 {
        FrameItemLine(s, k - 2);
      }
    }
  }

  /** Line `2 + k` shows project `k`, marked exactly when `k` is the selected index. */
  lemma FrameRowsShowProjects(s: ScreenState)
    ensures forall k :: 0 <= k < |s.projects| ==>
      ParseListItem(FrameLines(s)[2 + k][..4]) == Some((k == s.selected, s.projects[k]))
  {
    forall k | 0 <= k < |s.projects|
      ensures ParseListItem(FrameLines(s)[2 + k][..4]) == Some((k == s.selected, s.projects[k]))
    {
      FrameItemLine(s, k);
      assert FrameLines(s)[2 + k][..4] == ListItem(k == s.selected, s.projects[k]);
      ListItemRoundTrip(k == s.selected, s.projects[k]);
    }
  }

  // ---------------------------------------------------------------------
  // Reading a frame back

  /** What a frame shows: where it is drawn, the mode, the buffer, which row
      is highlighted (if any) and the rows themselves. */
  datatype View = View(
    col: U16, row: U16,
    mode: Mode, searchTerm: string,
    highlighted: Option<nat>,
    projects: seq<string>)

  function ViewOf(s: ScreenState, col: U16, row: U16): View
  {
    View(col, row, s.mode, s.searchTerm,
         if s.selected < |s.projects| then Some(s.selected) else None,
         s.projects)
  }

  /** Decodes rows of five tokens; `from` is the position of the first row. */
  function DecodeItems(ts: seq<Token>, from: nat): Option<(seq<string>, Option<nat>)>
    decreases |ts|
  {
    if ts == [] then Some(([], None))
    else if |ts| < 5 || ts[4] != Text(ItemEnd) then None
    else
      match ParseListItem(ts[..4])
      case None => None
      case Some(item) =>
        match DecodeItems(ts[5..], from + 1)
        case None => None
        case Some(rest) =>
          Some(([item.1] + rest.0, if item.0 then Some(from) else rest.1))
  }

  /** Decodes what follows the header: the search line, its terminator and the rows. */
  function DecodeBody(body: seq<Token>): Option<(Mode, string, Option<nat>, seq<string>)>
  {
    var n := if |body| > 1 && body[1] == FgLightBlack then 4 else 2;
    if |body| <= n || body[n] != Text(SearchEnd) then None
    else
      match ParseSearchLine(body[..n])
      case None => None
      case Some(search) =>
        match DecodeItems(body[n + 1..], 0)
        case None => None
        case Some(items) => Some((search.0, search.1, items.1, items.0))
  }

  function DecodeFrame(f: seq<Token>): Option<View>
  {
    if |f| < 3 || !f[0].Goto? || f[1] != ClearAfterCursor || f[2] != Text(Header) then None
    else
      match DecodeBody(f[3..])
      case None => None
      case Some(b) => Some(View(f[0].col, f[0].row, b.0, b.1, b.2, b.3))
  }

  lemma {:induction false} DecodeItemsRoundTrip(projects: seq<string>, from: nat, selected: nat)
    requires from <= |projects|
    ensures DecodeItems(Items(projects, from, selected), from)
      == Some((projects[from..], if from <= selected < |projects| then Some(selected) else None))
    decreases |projects| - from
  {
    if from < |projects| {
      var ts := Items(projects, from, selected);
      var line := ListItem(from == selected, projects[from]);
      var rest := Items(projects, from + 1, selected);
      assert ts == line + [Text(ItemEnd)] + rest;
      assert ts[..4] == line;
      assert ts[4] == Text(ItemEnd);
      assert ts[5..] == rest;
      ListItemRoundTrip(from == selected, projects[from]);
      DecodeItemsRoundTrip(projects, from + 1, selected);
      assert projects[from..] == [projects[from]] + projects[from + 1..];
    } else {
      assert projects[from..] == [];
    }
  }

  /** The frame shows the whole state: decoding it recovers the anchor, the
      mode, the buffer, the rows and the highlighted position. */
  lemma BodyRoundTrip(s: ScreenState)
    ensures DecodeBody(SearchLine(s.mode, s.searchTerm) + [Text(SearchEnd)] + RenderList(s))
      == Some((s.mode, s.searchTerm,
               if s.selected < |s.projects| then Some(s.selected) else None,
               s.projects))
  {
    var line := SearchLine(s.mode, s.searchTerm);
    var body := line + [Text(SearchEnd)] + RenderList(s);
    var n := |line|;
    assert body[..n] == line;
    assert body[n] == Text(SearchEnd);
    assert body[n + 1..] == RenderList(s);
    SearchLineRoundTrip(s.mode, s.searchTerm);
    DecodeItemsRoundTrip(s.projects, 0, s.selected);
    assert s.projects[0..] == s.projects;
  }

  lemma FrameRoundTrip(s: ScreenState, col: U16, row: U16)
    ensures DecodeFrame(RenderState(s, col, row)) == Some(ViewOf(s, col, row))
  {
    var f := RenderState(s, col, row);
    assert f[3..] == SearchLine(s.mode, s.searchTerm) + [Text(SearchEnd)] + RenderList(s);
    BodyRoundTrip(s);
  }

  /** Two valid states drawn as the same frame are the same state. */
  lemma FrameDeterminesState(s: ScreenState, t: ScreenState, col: U16, row: U16)
    requires Valid(s) && Valid(t)
    requires RenderState(s, col, row) == RenderState(t, col, row)
    ensures s == t
  {
    FrameRoundTrip(s, col, row);
    FrameRoundTrip(t, col, row);
    assert ViewOf(s, col, row) == ViewOf(t, col, row);
  }
}
