/**
  Concrete sessions with the four-entry list the renderer is built around,
  and with an empty list.
 */
module Scenarios {
  import opened Screen
  import opened Dispatch
  import opened Render
  import opened Session

  const Fixture: seq<string> := ["one", "two", "three", "four"]

  /** Two down presses from the start select "three", the third row. */
  lemma TwoDownsSelectThree(col: U16, row: U16)
    ensures Run(New(Fixture), [Pressed(Down), Pressed(Char('j'))]) == Continue(New(Fixture).(selected := 2))
    ensures FrameLines(New(Fixture).(selected := 2))[4][..4] == ListItem(true, "three")
  {
    FrameItemLine(New(Fixture).(selected := 2), 2);
  }

  /** An empty list: navigation keeps the selection at 0 and the frame holds
      the header and the search line only. */
  lemma EmptyListFrame(col: U16, row: U16)
    ensures Run(New([]), [Pressed(Up), Pressed(Down), Pressed(Char('j'))]) == Continue(New([]))
    ensures |FrameLines(New([]))| == 2
    ensures RenderState(New([]), col, row) ==
      [Goto(col, row), ClearAfterCursor, Text(Header),
       Text(NormalIndicator), FgLightBlack, Text(NormalHint), FgReset, Text(SearchEnd)]
  {
  }

  /** `i`, `a`, `b` gives search mode with buffer "ab"; Esc goes back to
      normal mode with the selection where it was. */
  lemma TypeThenLeave(projects: seq<string>)
    ensures Run(New(projects), [Pressed(Char('i')), Pressed(Char('a')), Pressed(Char('b'))])
      == Continue(New(projects).(mode := Insert, searchTerm := "ab"))
    ensures Run(New(projects), [Pressed(Char('i')), Pressed(Char('a')), Pressed(Char('b')), Pressed(Esc)])
      == Continue(New(projects).(searchTerm := "ab"))
  {
  }

  /** `q` at once: hide the cursor, draw once, show the cursor, stop. */
  lemma QuitAtOnce(projects: seq<string>, col: U16, row: U16)
    ensures Start(projects, col, row, [Pressed(Char('q'))])
      == Transcript([HideCursor, Frame(RenderState(New(projects), col, row)), ShowCursor], Quitted)
  {
  }
}
