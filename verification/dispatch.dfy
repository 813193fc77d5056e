/**
  The body of the key loop in `start`, taken out of its I/O shell: one key
  event and the current state give the next state, the quit signal, or the
  panic the Rust code would raise.
 */
module Dispatch {
  import opened Utf8
  import opened Screen

  /** The key categories the dispatcher distinguishes; every other key
      termion decodes (Left, Right, Ctrl-, Alt-modified, ...) is `Other`. */
  datatype Key = Char(c: char) | Up | Down | Esc | Backspace | Other

  /** One item of the key stream: a decoded key, or a read error. */
  datatype Event = Pressed(key: Key) | ReadFailed

  /** Why the loop panics: `unwrap` on a read error, or `truncate` off a char boundary. */
  datatype Fault = InputError | NotCharBoundary

  datatype Outcome = Continue(state: ScreenState) | Quit | Panic(fault: Fault)

  function Last(s: string): char
    requires s != []
  {
    s[|s| - 1]
  }

  /** The Backspace arm: `truncate(len - 1)` on a non-empty buffer, then `search_for`. */
  function Erase(s: ScreenState): (r: Outcome)
    ensures r.Panic? <==> s.searchTerm != [] && !IsAscii(Last(s.searchTerm))
    ensures r.Continue? ==> r.state == SearchFor(s, if s.searchTerm == [] then [] else s.searchTerm[..|s.searchTerm| - 1])
    ensures !r.Quit?
  {
    var term := s.searchTerm;
    if ByteLen(term) > 0 then
      TruncateDropsLast(term, ByteLen(term) - 1);
      match Truncate(term, ByteLen(term) - 1)
      case None => Panic(NotCharBoundary)
      case Some(t) => Continue(SearchFor(s, t))
    else
      Continue(SearchFor(s, term))
  }

  /** One pass of the `for c in stdin.keys()` loop body. */
  function Step(s: ScreenState, e: Event): (r: Outcome)
    ensures r == Quit <==> s.mode == Normal && e == Pressed(Char('q'))
    ensures r.Panic? <==>
      e == ReadFailed ||
      (s.mode == Insert && e == Pressed(Backspace) && s.searchTerm != [] && !IsAscii(Last(s.searchTerm)))
    ensures e == ReadFailed ==> r == Panic(InputError)
    ensures r.Continue? ==> r.state.projects == s.projects
    ensures r.Continue? && Valid(s) ==> Valid(r.state)
    ensures r.Continue? && s.mode == Insert ==> r.state.selected == s.selected
    ensures r.Continue? && s.mode == Normal ==> r.state.searchTerm == s.searchTerm
    ensures s.mode == Normal && (e == Pressed(Up) || e == Pressed(Char('k'))) ==> r == Continue(MoveUp(s))
    ensures s.mode == Normal && (e == Pressed(Down) || e == Pressed(Char('j'))) ==> r == Continue(MoveDown(s))
  {
    match e
    case ReadFailed => Panic(InputError)
    case Pressed(k) =>
      match s.mode
      case Normal =>
        if k == Char('k') || k == Up then Continue(MoveUp(s))
        else if k == Char('j') || k == Down then Continue(MoveDown(s))
        else if k == Char('i') || k == Char('s') then Continue(SearchFor(s, s.searchTerm))
        else if k == Char('q') then Quit
        else Continue(s)
      case Insert =>
        match k
        case Esc => Continue(NormalMode(s))
        case Backspace => Erase(s)
        case Char(c) => Continue(SearchFor(s, s.searchTerm + [c]))
        case _ => Continue(s)
  }

  /** Entering search mode keeps the previous search term, and Esc returns to
      exactly the state before: Normal, `i`/`s`, Esc is the identity. */
  lemma ModeRoundTrip(s: ScreenState, c: char)
    requires s.mode == Normal
    requires c == 'i' || c == 's'
    ensures Step(s, Pressed(Char(c))) == Continue(s.(mode := Insert))
    ensures Step(s.(mode := Insert), Pressed(Esc)) == Continue(s)
  {
  }

  /** In search mode a character is appended, and Backspace then restores the
      previous buffer exactly when that character is one byte long; after a
      wider character the byte-wise truncate panics. */
  lemma {:induction false} AppendThenErase(s: ScreenState, c: char)
    requires s.mode == Insert
    ensures Step(s, Pressed(Char(c))) == Continue(s.(searchTerm := s.searchTerm + [c]))
    ensures Step(s.(searchTerm := s.searchTerm + [c]), Pressed(Backspace))
      == if IsAscii(c) then Continue(s) else Panic(NotCharBoundary)
  {
    var t := s.searchTerm + [c];
    assert t[..|t| - 1] == s.searchTerm;
  }

  /** Backspace on an empty buffer changes nothing. */
  lemma EraseEmpty(s: ScreenState)
    requires s.mode == Insert && s.searchTerm == []
    ensures Step(s, Pressed(Backspace)) == Continue(s)
  {
  }

  /** Keys with no binding in the current mode leave the state unchanged. */
  lemma IgnoredKeys(s: ScreenState, k: Key)
    requires
      (s.mode == Insert && (k == Up || k == Down || k == Other)) ||
      (s.mode == Normal && (k == Esc || k == Backspace || k == Other ||
        (k.Char? && k.c !in "kjisq")))
    ensures Step(s, Pressed(k)) == Continue(s)
  {
  }

  /** Feeding a sequence of events to the step, stopping at the first quit or
      panic. The bounds invariant survives every sequence of key presses. */
  function Run(s: ScreenState, events: seq<Event>): (r: Outcome)
    ensures r.Continue? && Valid(s) ==> Valid(r.state)
    ensures r.Continue? ==> r.state.projects == s.projects
    decreases |events|
  {
    if events == [] then Continue(s)
    else
      match Step(s, events[0])
      case Continue(next) => Run(next, events[1..])
      case other => other
  }

  /** `n` presses of one key. */
  function Presses(k: Key, n: nat): seq<Event> {
    seq(n, _ => Pressed(k))
  }

  /** In Normal mode, `n` presses of Up are `n` applications of `move_up_list`,
      which saturate at the top. */
  lemma {:induction false} RepeatedUp(s: ScreenState, n: nat)
    requires s.mode == Normal
    ensures Run(s, Presses(Up, n)) == Continue(MoveUpTimes(s, n))
    ensures Valid(s) ==> Run(s, Presses(Up, n)) == Continue(s.(selected := Max(s.selected - n, 0)))
    decreases n
  {
    if n > 0 {
      assert Presses(Up, n)[0] == Pressed(Up);
      assert Presses(Up, n)[1..] == Presses(Up, n - 1);
      RepeatedUp(MoveUp(s), n - 1);
    }
    if Valid(s) {
      MoveUpTimesClamps(s, n);
    }
  }

  /** In Normal mode, `n` presses of Down are `n` applications of
      `move_down_list`, which saturate at the last entry. */
  lemma {:induction false} RepeatedDown(s: ScreenState, n: nat)
    requires s.mode == Normal
    ensures Run(s, Presses(Down, n)) == Continue(MoveDownTimes(s, n))
    ensures Valid(s) ==>
      Run(s, Presses(Down, n)) == Continue(s.(selected := Min(s.selected + n, Max(|s.projects| - 1, 0))))
    decreases n
  {
    if n > 0 {
      assert Presses(Down, n)[0] == Pressed(Down);
      assert Presses(Down, n)[1..] == Presses(Down, n - 1);
      RepeatedDown(MoveDown(s), n - 1);
    }
    if Valid(s) {
      MoveDownTimesClamps(s, n);
    }
  }

  /** On an empty list no sequence of navigation keys moves the selection off 0. */
  lemma EmptyListStaysAtZero(s: ScreenState, events: seq<Event>)
    requires Valid(s) && s.projects == []
    ensures Run(s, events).Continue? ==> Run(s, events).state.selected == 0
  {
  }
}
