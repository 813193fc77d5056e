/**
  The navigator's single piece of state and the four actions that change it
  (moving the selection up and down, entering search mode, leaving it).
 */
module Screen {

  datatype Mode = Normal | Insert

  datatype ScreenState = ScreenState(
    mode: Mode,
    searchTerm: string,
    selected: nat,
    projects: seq<string>)

  function Max(a: int, b: int): int { if a < b then b else a }

  function Min(a: int, b: int): int { if a < b then a else b }

  /** The selection points into the list, and is 0 when the list is empty. */
  predicate Valid(s: ScreenState) {
    s.selected < Max(1, |s.projects|)
  }

  /** `ScreenState::new(projects)`: normal mode, empty search term, first entry. */
  function New(projects: seq<string>): (s: ScreenState)
    ensures Valid(s)
    ensures s.mode == Normal && s.searchTerm == [] && s.selected == 0
    ensures s.projects == projects
  {
    ScreenState(Normal, [], 0, projects)
  }

  /** `move_up_list`: one entry up, clamped at the top, never wrapping. */
  function MoveUp(s: ScreenState): (r: ScreenState)
    ensures r.mode == s.mode && r.searchTerm == s.searchTerm && r.projects == s.projects
    ensures |s.projects| == 0 ==> r.selected == 0
    ensures |s.projects| > 0 ==> r.selected == Max(s.selected - 1, 0)
    ensures Valid(s) ==> Valid(r)
  {
    var index :=
      if |s.projects| == 0 then 0
      else if s.selected == 0 then 0
      else s.selected - 1;
    s.(selected := index)
  }

  /** `move_down_list`: one entry down, clamped at the last entry, never wrapping. */
  function MoveDown(s: ScreenState): (r: ScreenState)
    ensures r.mode == s.mode && r.searchTerm == s.searchTerm && r.projects == s.projects
    ensures |s.projects| == 0 ==> r.selected == 0
    ensures |s.projects| > 0 ==> r.selected == Min(s.selected + 1, |s.projects| - 1)
    ensures Valid(r)
  {
    var next := s.selected + 1;
    var index :=
      if |s.projects| == 0 then 0
      else if next >= |s.projects| then |s.projects| - 1
      else next;
    s.(selected := index)
  }

  /** `search_for`: enter search mode with the given term as the buffer. */
  function SearchFor(s: ScreenState, term: string): (r: ScreenState)
    ensures r.mode == Insert && r.searchTerm == term
    ensures r.selected == s.selected && r.projects == s.projects
  {
    s.(mode := Insert, searchTerm := term)
  }

  /** `normal_mode`: leave search mode; the buffer is kept as the last search. */
  function NormalMode(s: ScreenState): (r: ScreenState)
    ensures r.mode == Normal
    ensures r.searchTerm == s.searchTerm && r.selected == s.selected && r.projects == s.projects
  {
    s.(mode := Normal)
  }

  /** Moving up is a no-op exactly at the top of the list. */
  lemma MoveUpFixedPoint(s: ScreenState)
    requires Valid(s)
    ensures MoveUp(s) == s <==> s.selected == 0
  {
  }

  /** Moving down is a no-op exactly at the last entry (or on an empty list). */
  lemma MoveDownFixedPoint(s: ScreenState)
    requires Valid(s)
    ensures MoveDown(s) == s <==> s.selected == Max(|s.projects| - 1, 0)
  {
  }

  /** Away from the ends, one move is undone by the opposite move. */
  lemma MoveInverse(s: ScreenState)
    requires Valid(s)
    ensures s.selected > 0 ==> MoveDown(MoveUp(s)) == s
    ensures s.selected + 1 < |s.projects| ==> MoveUp(MoveDown(s)) == s
  {
  }

  /** `n` applications of `move_up_list`. */
  function MoveUpTimes(s: ScreenState, n: nat): ScreenState
    decreases n
  {
    if n == 0 then s else MoveUpTimes(MoveUp(s), n - 1)
  }

  /** `n` applications of `move_down_list`. */
  function MoveDownTimes(s: ScreenState, n: nat): ScreenState
    decreases n
  {
    if n == 0 then s else MoveDownTimes(MoveDown(s), n - 1)
  }

  /** Repeated up moves saturate at the top: no wrap-around, ever. */
  lemma {:induction false} MoveUpTimesClamps(s: ScreenState, n: nat)
    requires Valid(s)
    ensures MoveUpTimes(s, n) == s.(selected := Max(s.selected - n, 0))
    decreases n
  {
    if n > 0 {
      MoveUpTimesClamps(MoveUp(s), n - 1);
    }
  }

  /** Repeated down moves saturate at the last entry: no wrap-around, ever. */
  lemma {:induction false} MoveDownTimesClamps(s: ScreenState, n: nat)
    requires Valid(s)
    ensures MoveDownTimes(s, n) == s.(selected := Min(s.selected + n, Max(|s.projects| - 1, 0)))
    decreases n
  {
    if n > 0 {
      MoveDownTimesClamps(MoveDown(s), n - 1);
    }
  }
}
