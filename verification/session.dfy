/**
  The event loop of `start`, seen as a pure function from the key stream to
  what is written on the terminal: a frame after every handled key, the
  cursor shown again on quit, nothing more after a panic.
 */
module Session {
  import opened Screen
  import opened Dispatch
  import opened Render

  /** How the loop stopped: `q`, end of the key stream, or a panic. */
  datatype Ending = Quitted | InputClosed | Panicked(fault: Fault)

  /** What the loop writes: a whole frame, or one of the cursor-visibility
      sequences. */
  datatype Write = Frame(tokens: seq<Token>) | HideCursor | ShowCursor

  datatype Transcript = Transcript(output: seq<Write>, ending: Ending)

  /** The `for c in stdin.keys()` loop, drawing at the fixed anchor. It writes
      at most one thing per key read, a frame after every handled key, and
      nothing but frames except the cursor-show that ends a quit. */
  function Loop(s: ScreenState, col: U16, row: U16, events: seq<Event>): (r: Transcript)
    ensures |r.output| <= |events|
    ensures r.ending == InputClosed ==> |r.output| == |events|
    ensures OnlyFrames(r)
    ensures r.ending == Quitted ==> |r.output| > 0 && r.output[|r.output| - 1] == ShowCursor
    decreases |events|
  {
    if events == [] then Transcript([], InputClosed)
    else
      match Step(s, events[0])
      case Quit => Transcript([ShowCursor], Quitted)
      case Panic(f) => Transcript([], Panicked(f))
      case Continue(next) =>
        var rest := Loop(next, col, row, events[1..]);
        OnlyFramesCons(Frame(RenderState(next, col, row)), rest);
        Transcript([Frame(RenderState(next, col, row))] + rest.output, rest.ending)
  }

  /** `start` from the moment the anchor is known: hide the cursor, draw the
      initial state, then run the loop. */
  function Start(projects: seq<string>, col: U16, row: U16, events: seq<Event>): (r: Transcript)
    ensures |r.output| >= 2 && r.output[0] == HideCursor
    ensures r.output[1] == Frame(RenderState(New(projects), col, row))
    ensures r.output[2..] == Loop(New(projects), col, row, events).output
    ensures r.ending == Quitted <==> Run(New(projects), events) == Quit
    ensures forall f :: r.ending == Panicked(f) <==> Run(New(projects), events) == Panic(f)
    ensures r.ending == InputClosed <==> Run(New(projects), events).Continue?
    ensures r.ending == InputClosed ==> |r.output| == 2 + |events|
  {
    var s := New(projects);
    LoopEndsLikeRun(s, col, row, events);
    var rest := Loop(s, col, row, events);
    Transcript([HideCursor, Frame(RenderState(s, col, row))] + rest.output, rest.ending)
  }

  /** The loop ends the way the pure step sequence does. */
  lemma {:induction false} LoopEndsLikeRun(s: ScreenState, col: U16, row: U16, events: seq<Event>)
    ensures Loop(s, col, row, events).ending == Quitted <==> Run(s, events) == Quit
    ensures forall f :: Loop(s, col, row, events).ending == Panicked(f) <==> Run(s, events) == Panic(f)
    ensures Loop(s, col, row, events).ending == InputClosed <==> Run(s, events).Continue?
    decreases |events|
  {
    if events != [] {
      match Step(s, events[0])
      case Continue(next) => LoopEndsLikeRun(next, col, row, events[1..]);
      case _ =>
    }
  }

  /** The cursor is shown again once when the user quits, and never otherwise. */
  lemma {:induction false} LoopShowsCursorOnQuit(s: ScreenState, col: U16, row: U16, events: seq<Event>)
    ensures multiset(Loop(s, col, row, events).output)[ShowCursor]
      == if Loop(s, col, row, events).ending == Quitted then 1 else 0
    ensures HideCursor !in Loop(s, col, row, events).output
    decreases |events|
  {
    if events != [] {
      match Step(s, events[0])
      case Continue(next) =>
        var rest := Loop(next, col, row, events[1..]);
        LoopShowsCursorOnQuit(next, col, row, events[1..]);
        assert multiset([Frame(RenderState(next, col, row))] + rest.output)
          == multiset([Frame(RenderState(next, col, row))]) + multiset(rest.output);
      case _ =>
    }
  }

  /** Over a whole session the cursor is hidden once, and shown again exactly
      once if and only if the session ended with `q`. */
  lemma SessionCursorBalance(projects: seq<string>, col: U16, row: U16, events: seq<Event>)
    ensures multiset(Start(projects, col, row, events).output)[HideCursor] == 1
    ensures multiset(Start(projects, col, row, events).output)[ShowCursor]
      == if Start(projects, col, row, events).ending == Quitted then 1 else 0
  {
    var s := New(projects);
    var head := [HideCursor, Frame(RenderState(s, col, row))];
    var rest := Loop(s, col, row, events);
    LoopShowsCursorOnQuit(s, col, row, events);
    assert multiset(rest.output)[HideCursor] == 0;
    assert multiset(head + rest.output) == multiset(head) + multiset(rest.output);
  }

  /** Nothing after `q` is read: events following a quit change nothing. */
  lemma {:induction false} QuitStopsLoop(s: ScreenState, col: U16, row: U16, events: seq<Event>, later: seq<Event>)
    requires Loop(s, col, row, events).ending == Quitted
    ensures Loop(s, col, row, events + later) == Loop(s, col, row, events)
    decreases |events|
  {
    assert events != [];
    LoopFirstKey(s, col, row, events);
    LoopFirstKeyAppend(s, col, row, events, later);
    if Step(s, events[0]).Continue? {
      var next := Step(s, events[0]).state;
      LoopHandledKey(s, col, row, events, next);
      LoopHandledKeyAppend(s, col, row, events, later, next);
      QuitStopsLoop(next, col, row, events[1..], later);
    }
  }

  /** A quit on the first key ignores whatever follows. */
  lemma LoopFirstKeyAppend(s: ScreenState, col: U16, row: U16, events: seq<Event>, later: seq<Event>)
    requires events != []
    ensures Step(s, events[0]) == Quit ==> Loop(s, col, row, events + later) == Transcript([ShowCursor], Quitted)
  {
    assert (events + later)[0] == events[0];
    LoopFirstKey(s, col, row, events + later);
  }

  /** `LoopHandledKey` with more events appended. */
  lemma LoopHandledKeyAppend(s: ScreenState, col: U16, row: U16, events: seq<Event>, later: seq<Event>, next: ScreenState)
    requires events != [] && Step(s, events[0]) == Continue(next)
    ensures Loop(s, col, row, events + later) == Transcript(
      [Frame(RenderState(next, col, row))] + Loop(next, col, row, events[1..] + later).output,
      Loop(next, col, row, events[1..] + later).ending)
  {
    var all := events + later;
    assert all[0] == events[0];
    assert all[1..] == events[1..] + later;
    LoopHandledKey(s, col, row, all, next);
  }

  /** The redraw after every handled key: the `k`-th write, when it is a frame,
      shows the state after the first `k + 1` keys. */
  lemma {:induction false} LoopFrameShowsState(s: ScreenState, col: U16, row: U16, events: seq<Event>, k: nat)
    requires k < |Loop(s, col, row, events).output| && Loop(s, col, row, events).output[k].Frame?
    ensures k < |events| && Run(s, events[..k + 1]).Continue?
    ensures Loop(s, col, row, events).output[k] == Frame(RenderState(Run(s, events[..k + 1]).state, col, row))
    decreases |events|
  {
    var next := LoopFrameHandled(s, col, row, events, k);
    if k == 0 {
      LoopFirstFrame(s, col, row, events, next);
    } else {
      LoopLaterFrame(s, col, row, events, k, next);
      LoopFrameShowsState(next, col, row, events[1..], k - 1);
    }
  }

  /** A frame anywhere in the output means the first key was handled. */
  lemma LoopFrameHandled(s: ScreenState, col: U16, row: U16, events: seq<Event>, k: nat) returns (next: ScreenState)
    requires k < |Loop(s, col, row, events).output| && Loop(s, col, row, events).output[k].Frame?
    ensures events != [] && Step(s, events[0]) == Continue(next)
  {
    assert events != [];
    LoopFirstKey(s, col, row, events);
    next := Step(s, events[0]).state;
  }

  /** The first write after a handled key is that key's redraw. */
  lemma LoopFirstFrame(s: ScreenState, col: U16, row: U16, events: seq<Event>, next: ScreenState)
    requires events != [] && Step(s, events[0]) == Continue(next)
    ensures Run(s, events[..1]) == Continue(next)
    ensures Loop(s, col, row, events).output[0] == Frame(RenderState(next, col, row))
  {
    RunPrefixHandledKey(s, events, 0, next);
  }

  /** Write `k > 0` is write `k - 1` of the loop after the first key. */
  lemma LoopLaterFrame(s: ScreenState, col: U16, row: U16, events: seq<Event>, k: nat, next: ScreenState)
    requires events != [] && Step(s, events[0]) == Continue(next)
    requires 0 < k < |Loop(s, col, row, events).output|
    ensures k - 1 < |Loop(next, col, row, events[1..]).output|
    ensures Loop(s, col, row, events).output[k] == Loop(next, col, row, events[1..]).output[k - 1]
    ensures k < |events| ==> Run(s, events[..k + 1]) == Run(next, events[1..][..k])
  {
    LoopHandledKey(s, col, row, events, next);
    if k < |events| {
      RunPrefixHandledKey(s, events, k, next);
    }
  }

  /** A first key that quits or panics leaves no frame behind. */
  lemma LoopFirstKey(s: ScreenState, col: U16, row: U16, events: seq<Event>)
    requires events != []
    ensures Step(s, events[0]) == Quit ==> Loop(s, col, row, events) == Transcript([ShowCursor], Quitted)
    ensures Step(s, events[0]).Panic? ==> Loop(s, col, row, events) == Transcript([], Panicked(Step(s, events[0]).fault))
  {
  }

  /** One handled key: its frame, then whatever the rest of the loop writes. */
  lemma LoopHandledKey(s: ScreenState, col: U16, row: U16, events: seq<Event>, next: ScreenState)
    requires events != [] && Step(s, events[0]) == Continue(next)
    ensures Loop(s, col, row, events) == Transcript(
      [Frame(RenderState(next, col, row))] + Loop(next, col, row, events[1..]).output,
      Loop(next, col, row, events[1..]).ending)
  {
  }

  /** Running the first `k + 1` keys is running `k` keys after the first. */
  lemma RunPrefixHandledKey(s: ScreenState, events: seq<Event>, k: nat, next: ScreenState)
    requires k < |events| && Step(s, events[0]) == Continue(next)
    ensures k == 0 ==> Run(s, events[..k + 1]) == Continue(next)
    ensures k > 0 ==> Run(s, events[..k + 1]) == Run(next, events[1..][..k])
  {
    var prefix := events[..k + 1];
    assert prefix[0] == events[0];
    assert prefix[1..] == events[1..][..k];
  }

  /** Over a whole session, the frame at position `k` (after the cursor hide)
      shows the state after the first `k - 1` keys: the initial state first,
      then a redraw after every handled key. */
  lemma SessionFrameShowsState(projects: seq<string>, col: U16, row: U16, events: seq<Event>, k: nat)
    requires 1 <= k < |Start(projects, col, row, events).output|
    requires Start(projects, col, row, events).output[k].Frame?
    ensures k - 1 <= |events| && Run(New(projects), events[..k - 1]).Continue?
    ensures Start(projects, col, row, events).output[k]
      == Frame(RenderState(Run(New(projects), events[..k - 1]).state, col, row))
  {
    if k == 1 {
      SessionFirstFrame(projects, col, row, events, k);
    } else {
      SessionLaterFrame(projects, col, row, events, k);
    }
  }

  /** The session's first frame shows the initial state, reached by no keys. */
  lemma SessionFirstFrame(projects: seq<string>, col: U16, row: U16, events: seq<Event>, k: nat)
    requires k == 1
    ensures Run(New(projects), events[..k - 1]) == Continue(New(projects))
    ensures Start(projects, col, row, events).output[k] == Frame(RenderState(New(projects), col, row))
  {
    assert events[..k - 1] == [];
  }

  /** The session's later frames are the loop's, shifted by the two opening writes. */
  lemma SessionLaterFrame(projects: seq<string>, col: U16, row: U16, events: seq<Event>, k: nat)
    requires 2 <= k < |Start(projects, col, row, events).output|
    requires Start(projects, col, row, events).output[k].Frame?
    ensures k - 1 <= |events| && Run(New(projects), events[..k - 1]).Continue?
    ensures Start(projects, col, row, events).output[k]
      == Frame(RenderState(Run(New(projects), events[..k - 1]).state, col, row))
  {
    SessionLoopFrame(projects, col, row, events, k);
    LoopFrameAfterKeys(New(projects), col, row, events, k - 1);
  }

  /** `LoopFrameShowsState` indexed by the number of keys read. */
  lemma LoopFrameAfterKeys(s: ScreenState, col: U16, row: U16, events: seq<Event>, n: nat)
    requires 1 <= n && n - 1 < |Loop(s, col, row, events).output|
    requires Loop(s, col, row, events).output[n - 1].Frame?
    ensures n <= |events| && Run(s, events[..n]).Continue?
    ensures Loop(s, col, row, events).output[n - 1] == Frame(RenderState(Run(s, events[..n]).state, col, row))
  {
    var j := n - 1;
    LoopFrameShowsState(s, col, row, events, j);
    assert events[..j + 1] == events[..n];
  }

  /** Session write `k >= 2` is loop write `k - 2`. */
  lemma SessionLoopFrame(projects: seq<string>, col: U16, row: U16, events: seq<Event>, k: nat)
    requires 2 <= k < |Start(projects, col, row, events).output|
    ensures k - 1 - 1 < |Loop(New(projects), col, row, events).output|
    ensures Start(projects, col, row, events).output[k] == Loop(New(projects), col, row, events).output[k - 1 - 1]
  {
    var r := Start(projects, col, row, events);
    assert r.output[k] == r.output[2..][k - 2];
  }

  /** While the loop is running, the last frame written shows the latest state. */
  lemma {:induction false} LastFrameShowsState(s: ScreenState, col: U16, row: U16, events: seq<Event>)
    requires events != [] && Run(s, events).Continue?
    ensures Loop(s, col, row, events).ending == InputClosed
    ensures EndsWith(Loop(s, col, row, events).output, Frame(RenderState(Run(s, events).state, col, row)))
    decreases |events|
  {
    LoopEndsLikeRun(s, col, row, events);
    match Step(s, events[0])
    case Continue(next) =>
      if events[1..] != [] {
        LastFrameShowsState(next, col, row, events[1..]);
      }
  }

  /** Every write is a frame. */
  predicate AllFrames(ws: seq<Write>) {
    ws == [] || (ws[0].Frame? && AllFrames(ws[1..]))
  }

  /** Every write is a frame, except a cursor-show that is the last write of a quit. */
  predicate OnlyFrames(t: Transcript) {
    AllFrames(t.output) ||
    (t.ending == Quitted && t.output != [] && t.output[|t.output| - 1] == ShowCursor
     && AllFrames(t.output[..|t.output| - 1]))
  }

  /** A frame written in front keeps `OnlyFrames`. */
  lemma OnlyFramesCons(f: Write, t: Transcript)
    requires f.Frame? && OnlyFrames(t)
    ensures OnlyFrames(Transcript([f] + t.output, t.ending))
  {
    var ws := [f] + t.output;
    assert ws[1..] == t.output;
    if !AllFrames(t.output) {
      var n := |t.output| - 1;
      assert ws[..|ws| - 1][1..] == t.output[..n];
    }
  }

  predicate EndsWith(a: seq<Write>, w: Write) {
    |a| > 0 && a[|a| - 1] == w
  }
}
