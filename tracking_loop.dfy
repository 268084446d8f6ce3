/**
 * One iteration of the tracking loop of `LaunchTrack`, and the whole loop,
 * as functions on the selection state. An iteration reads a frame,
 * initialises or runs the tracker, draws, and polls the keyboard for 30 ms;
 * the mouse callbacks queued up meanwhile run inside that poll, so they take
 * effect after the frame step and before the key test.
 */
module TrackingLoop {
  import opened Rects
  import opened MouseSelection

  const KEY_ESC: int := 27
  const KEY_RESET: int := 114  // 'r'
  /** What the key poll returns when no key was pressed before its timeout. */
  const NO_KEY: int := -1

  /**
   * What an iteration does outside the selection state: the calls it makes
   * on the tracker (with the frame passed and the box passed or returned)
   * and the rectangles it overlays on the frame.
   */
  datatype Effect<F> =
    | TrackerInit(frame: F, box: Rect)
    | TrackerTrack(frame: F, box: Rect)
    | DrawSelection(box: Rect)
    | DrawTracked(box: Rect)

  datatype FrameResult<F> = FrameResult(state: Selection, effects: seq<Effect<F>>)

  /** The user input one key poll sees: the mouse events it delivers and the key code it returns. */
  datatype Poll = Poll(events: seq<MouseEvent>, key: int)

  /** Why the loop ended: a frame read failed, or Esc was pressed. */
  datatype Stop = ReadFailed | EscPressed

  datatype LoopResult<F> = LoopResult(state: Selection, trace: seq<Effect<F>>, stop: Stop)

  datatype KeyResult = KeyResult(state: Selection, quit: bool)

  /**
   * The frame step: a pending commit is handed to the tracker's init and
   * consumed; the rectangle being dragged is drawn when both extents are
   * positive; while tracking, the box becomes the tracker's output.
   */
  function OnFrame<F>(s: Selection, img: F, track: F -> Rect): FrameResult<F>
  {
    if !s.trackerInit then
      var s1 := if s.boxInit then s.(trackerInit := true, boxInit := false) else s;
      var init := if s.boxInit then [TrackerInit(img, s.bbox)] else [];
      var draw := if s1.drawingBox && s1.bbox.width > 0 && s1.bbox.height > 0 then [DrawSelection(s1.bbox)] else [];
      FrameResult(s1, init + draw)
    else
      var b := track(img);
      FrameResult(s.(bbox := b), [TrackerTrack(img, b), DrawTracked(b)])
  }

  /** The key test after the poll: Esc quits first; otherwise 'r' or an active drag resets. */
  function OnKey(s: Selection, key: int): KeyResult
  {
    if key == KEY_ESC then KeyResult(s, true)
    else if key == KEY_RESET || s.drawingBox then KeyResult(s.(trackerInit := false, boxInit := false), false)
    else KeyResult(s, false)
  }

  /** The input of the i-th poll; polls past the end of the script see no event and time out. */
  function PollAt(polls: seq<Poll>, i: nat): Poll
  {
    if i < |polls| then polls[i] else Poll([], NO_KEY)
  }

  /**
   * One iteration on a frame that was read successfully: frame step, the
   * poll's mouse callbacks, key test.
   */
  function Iterate<F>(s: Selection, img: F, poll: Poll, track: F -> Rect): (KeyResult, seq<Effect<F>>)
  {
    var fr := OnFrame(s, img, track);
    (OnKey(Replay(fr.state, poll.events), poll.key), fr.effects)
  }

  /**
   * The loop from its i-th iteration on. frames are the frames the loop
   * reads in turn; reading past the last one fails.
   */
  function Loop<F>(s: Selection, frames: seq<F>, polls: seq<Poll>, track: F -> Rect, i: nat): LoopResult<F>
    decreases |frames| - i
  {
    if i >= |frames| then LoopResult(s, [], ReadFailed)
    else
      var (k, effects) := Iterate(s, frames[i], PollAt(polls, i), track);
      if k.quit then LoopResult(k.state, effects, EscPressed)
      else
        var rest := Loop(k.state, frames, polls, track, i + 1);
        LoopResult(rest.state, effects + rest.trace, rest.stop)
  }

  /**
   * The frames the loop reads: the capture's first frame is taken by the
   * read before the loop (and only shown), so the loop starts at the second.
   */
  function LoopFrames<F>(video: seq<F>): (frames: seq<F>)
    ensures |video| > 0 ==> video == [video[0]] + frames
    ensures |video| == 0 ==> frames == []
  {
    if |video| == 0 then [] else video[1..]
  }

  /** Esc ends the loop and leaves the flags and the box as they are. */
  lemma EscQuits(s: Selection)
    ensures OnKey(s, KEY_ESC) == KeyResult(s, true)
  {
  }

  /**
   * Any key other than Esc continues the loop; 'r' or an active drag clears
   * both tracker_init and box_init, and nothing else changes.
   */
  lemma ResetClearsFlags(s: Selection, key: int)
    requires key != KEY_ESC
    ensures var k := OnKey(s, key);
      !k.quit &&
      if key == KEY_RESET || s.drawingBox then k.state == s.(trackerInit := false, boxInit := false)
      else k.state == s
  {
  }

  /**
   * A pending commit is consumed exactly once: the frame step hands the
   * current box to init, and afterwards tracker_init is set, box_init is
   * clear and nothing else has changed; the dragged box is then drawn under
   * the same condition as in an idle step, and the tracker is called no
   * further.
   */
  lemma CommitConsumedOnce<F>(s: Selection, img: F, track: F -> Rect)
    requires !s.trackerInit && s.boxInit
    ensures var r := OnFrame(s, img, track);
      r.state == s.(trackerInit := true, boxInit := false) &&
      |r.effects| >= 1 && r.effects[0] == TrackerInit(img, s.bbox) &&
      r.effects[1..] == (if s.drawingBox && s.bbox.width > 0 && s.bbox.height > 0 then [DrawSelection(s.bbox)] else [])
  {
  }

  /** With neither a commit pending nor tracking, the frame step changes no flag and not the box. */
  lemma IdleFrameKeepsState<F>(s: Selection, img: F, track: F -> Rect)
    requires !s.trackerInit && !s.boxInit
    ensures var r := OnFrame(s, img, track);
      r.state == s &&
      r.effects == (if s.drawingBox && s.bbox.width > 0 && s.bbox.height > 0 then [DrawSelection(s.bbox)] else [])
  {
  }

  /** While tracking, the box becomes exactly the tracker's output for the frame. */
  lemma TrackingTakesTrackerBox<F>(s: Selection, img: F, track: F -> Rect)
    requires s.trackerInit
    ensures var r := OnFrame(s, img, track);
      r.state == s.(bbox := track(img)) && r.effects == [TrackerTrack(img, track(img)), DrawTracked(track(img))]
  {
  }

  /**
   * What holds whenever the loop is about to read a frame: a drag in
   * progress means neither tracking nor a pending commit, and a pending
   * commit that the next frame step will hand to init is a normal box.
   */
  predicate LoopHead(s: Selection)
  {
    (s.drawingBox ==> !s.trackerInit && !s.boxInit) &&
    (!s.trackerInit && s.boxInit ==> IsNormal(s.bbox))
  }

  /** What every mouse event keeps: once the drag is over, a pending commit is a normal box. */
  predicate CommitNormal(s: Selection)
  {
    !s.drawingBox && !s.trackerInit && s.boxInit ==> IsNormal(s.bbox)
  }

  lemma {:induction false} ReplayKeepsCommitNormal(s: Selection, events: seq<MouseEvent>)
    requires CommitNormal(s)
    ensures CommitNormal(Replay(s, events))
  {
    if events != [] {
      ReplayKeepsCommitNormal(s, events[..|events| - 1]);
    }
  }

  /** An iteration that does not quit re-establishes LoopHead, whatever the mouse did. */
  lemma IterateKeepsLoopHead<F>(s: Selection, img: F, poll: Poll, track: F -> Rect)
    requires LoopHead(s)
    ensures var (k, _) := Iterate(s, img, poll, track);
      !k.quit ==> LoopHead(k.state)
  {
    ReplayKeepsCommitNormal(OnFrame(s, img, track).state, poll.events);
  }

  /** What each effect promises: init gets a normal box, track's result is passed on unchanged, a drawn selection has positive extents. */
  predicate EffectSound<F>(e: Effect<F>, track: F -> Rect)
  {
    match e
    case TrackerInit(_, b) => IsNormal(b)
    case TrackerTrack(f, b) => b == track(f)
    case DrawSelection(b) => b.width > 0 && b.height > 0
    case DrawTracked(b) => true
  }

  /**
   * Over a whole run from any state satisfying LoopHead (the start state
   * does), the tracker is only ever initialised with a normal box. The other
   * conditions of TraceSound (a tracked box is the tracker's output, a drawn
   * selection has positive extents) hold by construction of the frame step.
   */
  lemma {:induction false} LoopEffectsSound<F>(s: Selection, frames: seq<F>, polls: seq<Poll>, track: F -> Rect, i: nat)
    requires LoopHead(s)
    ensures TraceSound(Loop(s, frames, polls, track, i).trace, track)
    decreases |frames| - i
  {
    if i < |frames| {
      var (kr, effects) := Iterate(s, frames[i], PollAt(polls, i), track);
      assert TraceSound(effects, track);
      if !kr.quit {
        IterateKeepsLoopHead(s, frames[i], PollAt(polls, i), track);
        LoopEffectsSound(kr.state, frames, polls, track, i + 1);
        var rest := Loop(kr.state, frames, polls, track, i + 1).trace;
        assert Loop(s, frames, polls, track, i).trace == effects + rest;
        TraceSoundAppend(effects, rest, track);
      }
    }
  }

  predicate TraceSound<F>(trace: seq<Effect<F>>, track: F -> Rect)
  {
    forall j | 0 <= j < |trace| :: EffectSound(trace[j], track)
  }

  lemma TraceSoundAppend<F>(a: seq<Effect<F>>, b: seq<Effect<F>>, track: F -> Rect)
    requires TraceSound(a, track) && TraceSound(b, track)
    ensures TraceSound(a + b, track)
  {
    assert forall j | |a| <= j < |a + b| :: (a + b)[j] == b[j - |a|];
  }

  lemma StartIsLoopHead()
    ensures LoopHead(Start)
  {
  }

  /** While a drag is in progress at the top of the loop, the frame step makes no tracker call. */
  lemma NoTrackerCallWhileDragging<F>(s: Selection, img: F, track: F -> Rect)
    requires LoopHead(s) && s.drawingBox
    ensures forall e | e in OnFrame(s, img, track).effects :: e.DrawSelection?
  {
  }

  /**
   * Although the release handler refuses to commit a degenerate box, the
   * tracker can still be initialised with one: a commit followed, within the
   * same poll, by a click without a move leaves box_init set and the box of
   * zero size, because neither left-button down nor the degenerate release
   * clears box_init.
   */
  lemma DegenerateInitAfterClick()
    ensures var events := [MouseEvent(EVENT_LBUTTONDOWN, 10, 10), MouseEvent(EVENT_MOUSEMOVE, 50, 40),
                           MouseEvent(EVENT_LBUTTONUP, 50, 40), MouseEvent(EVENT_LBUTTONDOWN, 7, 7),
                           MouseEvent(EVENT_LBUTTONUP, 7, 7)];
      Loop(Start, [0, 1, 2], [Poll(events, NO_KEY)], (f: int) => Rect(0, 0, 1, 1), 0).trace
        == [TrackerInit(1, Rect(7, 7, 0, 0)), TrackerTrack(2, Rect(0, 0, 1, 1)), DrawTracked(Rect(0, 0, 1, 1))]
  {
    var events := [MouseEvent(EVENT_LBUTTONDOWN, 10, 10), MouseEvent(EVENT_MOUSEMOVE, 50, 40),
                   MouseEvent(EVENT_LBUTTONUP, 50, 40), MouseEvent(EVENT_LBUTTONDOWN, 7, 7),
                   MouseEvent(EVENT_LBUTTONUP, 7, 7)];
    assert events[..1][..0] == [];
    assert Replay(Start, events[..1]) == Selection(Rect(10, 10, 0, 0), true, false, false);
    assert events[..2][..1] == events[..1];
    assert Replay(Start, events[..2]) == Selection(Rect(10, 10, 40, 30), true, false, false);
    assert events[..3][..2] == events[..2];
    assert Replay(Start, events[..3]) == Selection(Rect(10, 10, 40, 30), false, false, true);
    assert events[..4][..3] == events[..3];
    assert Replay(Start, events[..4]) == Selection(Rect(7, 7, 0, 0), true, false, true);
    assert events[..5][..4] == events[..4] && events[..5] == events;
    assert Replay(Start, events) == Selection(Rect(7, 7, 0, 0), false, false, true);
  }

  /** Esc read in the poll of a successfully read frame ends the loop in that same iteration. */
  lemma EscEndsLoopThisIteration<F>(s: Selection, frames: seq<F>, polls: seq<Poll>, track: F -> Rect, i: nat)
    requires i < |frames| && PollAt(polls, i).key == KEY_ESC
    ensures var fr := OnFrame(s, frames[i], track);
      Loop(s, frames, polls, track, i) ==
      LoopResult(Replay(fr.state, PollAt(polls, i).events), fr.effects, EscPressed)
  {
  }

  /** A failed read ends the loop at once, with nothing done and the state unchanged. */
  lemma ReadFailureEndsLoop<F>(s: Selection, frames: seq<F>, polls: seq<Poll>, track: F -> Rect, i: nat)
    requires i >= |frames|
    ensures Loop(s, frames, polls, track, i) == LoopResult(s, [], ReadFailed)
  {
  }

  /** Without Esc, the loop runs until a frame read fails. */
  lemma {:induction false} NoEscRunsToEnd<F>(s: Selection, frames: seq<F>, polls: seq<Poll>, track: F -> Rect, i: nat)
    requires forall j :: i <= j < |frames| ==> PollAt(polls, j).key != KEY_ESC
    ensures Loop(s, frames, polls, track, i).stop == ReadFailed
    decreases |frames| - i
  {
    if i < |frames| {
      var (k, _) := Iterate(s, frames[i], PollAt(polls, i), track);
      NoEscRunsToEnd(k.state, frames, polls, track, i + 1);
    }
  }
}
