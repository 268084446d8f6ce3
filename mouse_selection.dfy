/**
 * The selection state shared by the mouse callback and the tracking loop
 * (the globals `bbox`, `drawing_box`, `tracker_init` and `box_init`), and
 * the effect of one mouse event on it, as a function on values.
 */
module MouseSelection {
  import opened Rects

  /** OpenCV mouse event codes the callback distinguishes; every other code is ignored. */
  const EVENT_MOUSEMOVE: int := 0
  const EVENT_LBUTTONDOWN: int := 1
  const EVENT_LBUTTONUP: int := 4

  datatype MouseEvent = MouseEvent(kind: int, x: int, y: int)

  /**
   * drawingBox: a left-button drag is in progress;
   * trackerInit: the tracker has been initialised and is tracking;
   * boxInit: a box has been committed and awaits the tracker's init call.
   */
  datatype Selection = Selection(bbox: Rect, drawingBox: bool, trackerInit: bool, boxInit: bool)

  /** The globals at program start: a default-constructed cv::Rect and all flags false. */
  const Start: Selection := Selection(Rect(0, 0, 0, 0), false, false, false)

  /** The effect of one call of the mouse callback. */
  function OnMouse(s: Selection, e: MouseEvent): Selection
  {
    if e.kind == EVENT_LBUTTONDOWN then
      s.(drawingBox := true, trackerInit := false, bbox := Rect(e.x, e.y, 0, 0))
    else if e.kind == EVENT_LBUTTONUP then
      var b := Normalize(s.bbox);
      s.(bbox := b, drawingBox := false, boxInit := s.boxInit || !IsDegenerate(b))
    else if e.kind == EVENT_MOUSEMOVE && s.drawingBox then
      s.(bbox := s.bbox.(width := e.x - s.bbox.x, height := e.y - s.bbox.y))
    else
      s
  }

  /** The state after a batch of callbacks, delivered in order (the last event applied last). */
  function Replay(s: Selection, events: seq<MouseEvent>): Selection
  {
    if events == [] then s
    else OnMouse(Replay(s, events[..|events| - 1]), events[|events| - 1])
  }

  /** Releasing the left button in state s commits a box. */
  predicate Commits(s: Selection, e: MouseEvent)
  {
    e.kind == EVENT_LBUTTONUP && !IsDegenerate(Normalize(s.bbox))
  }

  /** Some event of the batch, in the state it is delivered in, commits a box. */
  predicate SomeCommit(s: Selection, events: seq<MouseEvent>)
  {
    events != [] &&
    (SomeCommit(s, events[..|events| - 1]) ||
     Commits(Replay(s, events[..|events| - 1]), events[|events| - 1]))
  }

  /** Left-button down anchors a zero-size box at the cursor, starts a drag and stops tracking. */
  lemma ButtonDownAnchors(s: Selection, x: int, y: int)
    ensures var r := OnMouse(s, MouseEvent(EVENT_LBUTTONDOWN, x, y));
      r.bbox == Rect(x, y, 0, 0) && r.drawingBox && !r.trackerInit && r.boxInit == s.boxInit
  {
  }

  /**
   * A move during a drag stretches the box from the fixed anchor to the
   * cursor (the extents may be negative); a move with no drag changes nothing.
   */
  lemma MoveResizes(s: Selection, x: int, y: int)
    ensures var r := OnMouse(s, MouseEvent(EVENT_MOUSEMOVE, x, y));
      if s.drawingBox then
        r == s.(bbox := Rect(s.bbox.x, s.bbox.y, x - s.bbox.x, y - s.bbox.y))
      else
        r == s
  {
  }

  /**
   * Left-button up ends the drag, leaves a normal box covering what the drag
   * covered, and sets boxInit exactly when that box has non-zero width and
   * height; for a degenerate box boxInit keeps its previous value. The cursor
   * position of the release itself is not used. Tracking is not touched.
   */
  lemma ButtonUpNormalizes(s: Selection, x: int, y: int)
    ensures var r := OnMouse(s, MouseEvent(EVENT_LBUTTONUP, x, y));
      && !r.drawingBox
      && IsNormal(r.bbox)
      && Cover(r.bbox.x, r.bbox.width) == Cover(s.bbox.x, s.bbox.width)
      && Cover(r.bbox.y, r.bbox.height) == Cover(s.bbox.y, s.bbox.height)
      && (r.boxInit <==> s.boxInit || (r.bbox.width != 0 && r.bbox.height != 0))
      && r.trackerInit == s.trackerInit
  {
  }

  /** Events other than left-button down, up and mouse move leave the state as it is. */
  lemma OtherEventsIgnored(s: Selection, e: MouseEvent)
    requires e.kind != EVENT_LBUTTONDOWN && e.kind != EVENT_LBUTTONUP && e.kind != EVENT_MOUSEMOVE
    ensures OnMouse(s, e) == s
  {
  }

  /**
   * Mouse events never clear boxInit: after a batch it is set exactly when it
   * was set before or some release in the batch committed a non-degenerate box.
   */
  lemma {:induction false} ReplayBoxInit(s: Selection, events: seq<MouseEvent>)
    ensures Replay(s, events).boxInit <==> s.boxInit || SomeCommit(s, events)
  {
    if events != [] {
      ReplayBoxInit(s, events[..|events| - 1]);
    }
  }

  /** The cursor position of the last move of a drag anchored at (x0, y0). */
  function DragEnd(x0: int, y0: int, moves: seq<MouseEvent>): (int, int)
  {
    if moves == [] then (x0, y0) else (moves[|moves| - 1].x, moves[|moves| - 1].y)
  }

  /**
   * Press at (x0, y0) followed by any number of moves: the drag is in
   * progress and the box spans from the anchor to the last cursor position.
   */
  lemma {:induction false} DragSpansAnchorToCursor(s: Selection, x0: int, y0: int, moves: seq<MouseEvent>)
    requires forall i :: 0 <= i < |moves| ==> moves[i].kind == EVENT_MOUSEMOVE
    ensures var (x1, y1) := DragEnd(x0, y0, moves);
      Replay(s, [MouseEvent(EVENT_LBUTTONDOWN, x0, y0)] + moves) ==
      s.(bbox := Rect(x0, y0, x1 - x0, y1 - y0), drawingBox := true, trackerInit := false)
  {
    var down := [MouseEvent(EVENT_LBUTTONDOWN, x0, y0)];
    if moves == [] {
      assert down[..0] == [];
    } else {
      var n := |moves|;
      DragSpansAnchorToCursor(s, x0, y0, moves[..n - 1]);
      assert (down + moves)[..n] == down + moves[..n - 1];
    }
  }

  /**
   * A complete drag (press, moves, release) leaves the normalised box from
   * the anchor to the last cursor position, and commits it exactly when
   * that box is non-degenerate (or a commit was already pending).
   */
  lemma DragAndRelease(s: Selection, x0: int, y0: int, moves: seq<MouseEvent>, up: MouseEvent)
    requires forall i :: 0 <= i < |moves| ==> moves[i].kind == EVENT_MOUSEMOVE
    requires up.kind == EVENT_LBUTTONUP
    ensures var (x1, y1) := DragEnd(x0, y0, moves);
      var b := Normalize(Rect(x0, y0, x1 - x0, y1 - y0));
      var r := Replay(s, [MouseEvent(EVENT_LBUTTONDOWN, x0, y0)] + moves + [up]);
      r.bbox == b && !r.drawingBox && !r.trackerInit &&
      (r.boxInit <==> s.boxInit || !IsDegenerate(b))
  {
    var evs := [MouseEvent(EVENT_LBUTTONDOWN, x0, y0)] + moves;
    DragSpansAnchorToCursor(s, x0, y0, moves);
    assert (evs + [up])[..|evs|] == evs;
  }

  /** Dragging from (10, 10) to (5, 5) and releasing commits the box (5, 5, 5, 5). */
  lemma DragBackwardsExample()
    ensures Replay(Start, [MouseEvent(EVENT_LBUTTONDOWN, 10, 10), MouseEvent(EVENT_MOUSEMOVE, 5, 5),
                           MouseEvent(EVENT_LBUTTONUP, 5, 5)])
         == Selection(Rect(5, 5, 5, 5), false, false, true)
  {
    var down, move, up := MouseEvent(EVENT_LBUTTONDOWN, 10, 10), MouseEvent(EVENT_MOUSEMOVE, 5, 5),
                          MouseEvent(EVENT_LBUTTONUP, 5, 5);
    DragAndRelease(Start, 10, 10, [move], up);
    assert [down] + [move] + [up] == [down, move, up];
  }
}
