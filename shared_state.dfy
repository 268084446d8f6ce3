/**
 * The file-scope globals `bbox`, `drawing_box`, `tracker_init` and
 * `box_init`, updated in place by the mouse callback and by the tracking
 * loop. Each method is proved to perform the step the corresponding
 * function of MouseSelection or TrackingLoop describes.
 */
module SharedState {
  import opened Rects
  import opened MouseSelection
  import opened TrackingLoop

  class Globals {
    var bbox: Rect
    var drawingBox: bool
    var trackerInit: bool
    var boxInit: bool

    /** The globals as a value. */
    function State(): Selection
      reads this
    {
      Selection(bbox, drawingBox, trackerInit, boxInit)
    }

    /** Static initialisation: a default cv::Rect and all three flags false. */
    constructor ()
      ensures State() == Start
    {
      bbox := Rect(0, 0, 0, 0);
      drawingBox := false;
      trackerInit := false;
      boxInit := false;
    }

    /** mouse_callback; the flags and user-data arguments are unused. */
    method MouseCallback(event: int, x: int, y: int)
      modifies this
      ensures State() == OnMouse(old(State()), MouseEvent(event, x, y))
      ensures event == EVENT_LBUTTONUP ==> IsNormal(bbox) && !drawingBox
    {
      if event == EVENT_LBUTTONDOWN {
        drawingBox := true;
        trackerInit := false;
        bbox := Rect(x, y, 0, 0);
      } else if event == EVENT_LBUTTONUP {
        if bbox.width < 0 {
          bbox := bbox.(x := bbox.x + bbox.width);
          bbox := bbox.(width := bbox.width * -1);
        }
        if bbox.height < 0 {
          bbox := bbox.(y := bbox.y + bbox.height);
          bbox := bbox.(height := bbox.height * -1);
        }
        drawingBox := false;
        if bbox.height != 0 && bbox.width != 0 {
          boxInit := true;
        }
      } else if event == EVENT_MOUSEMOVE {
        if drawingBox {
          bbox := bbox.(width := x - bbox.x);
          bbox := bbox.(height := y - bbox.y);
        }
      }
    }

    /**
     * The part of a loop iteration between the frame read and the key poll:
     * initialise the tracker with a committed box, or run it while tracking,
     * and draw. The tracker is the function track; what was called on it and
     * what was drawn is returned in effects.
     */
    method FrameStep<F>(img: F, track: F -> Rect) returns (effects: seq<Effect<F>>)
      modifies this
      ensures FrameResult(State(), effects) == OnFrame(old(State()), img, track)
    {
      effects := [];
      if !trackerInit {
        if boxInit {
          effects := effects + [TrackerInit(img, bbox)];
          trackerInit := true;
          boxInit := false;
        }
        if drawingBox && bbox.width > 0 && bbox.height > 0 {
          effects := effects + [DrawSelection(bbox)];
        }
      } else {
        bbox := track(img);
        effects := [TrackerTrack(img, bbox), DrawTracked(bbox)];
      }
    }

    /** The key test after the poll; quit means the loop breaks. */
    method KeyTest(key: int) returns (quit: bool)
      modifies this
      ensures KeyResult(State(), quit) == OnKey(old(State()), key)
      ensures quit <==> key == KEY_ESC
    {
      if key == KEY_ESC {
        return true;
      } else if key == KEY_RESET || drawingBox {
        trackerInit := false;
        boxInit := false;
      }
      return false;
    }

    /** The mouse callbacks delivered, in order, while the key poll waits. */
    method DeliverEvents(events: seq<MouseEvent>)
      modifies this
      ensures State() == Replay(old(State()), events)
    {
      ghost var s0 := State();
      for j := 0 to |events|
        invariant State() == Replay(s0, events[..j])
      {
        assert events[..j + 1][..j] == events[..j];
        MouseCallback(events[j].kind, events[j].x, events[j].y);
      }
      assert events[..|events|] == events;
    }

    /**
     * The `while (true)` loop of LaunchTrack: read a frame (past the last
     * one the read fails and the loop returns), frame step, poll, key test.
     */
    method TrackLoop<F>(frames: seq<F>, polls: seq<Poll>, track: F -> Rect) returns (r: LoopResult<F>)
      modifies this
      ensures r == Loop(old(State()), frames, polls, track, 0)
      ensures State() == r.state
    {
      var trace: seq<Effect<F>> := [];
      var i := 0;
      while true
        invariant 0 <= i <= |frames|
        invariant Loop(old(State()), frames, polls, track, 0) ==
          var rest := Loop(State(), frames, polls, track, i);
          LoopResult(rest.state, trace + rest.trace, rest.stop)
        decreases |frames| - i
      {
        if i == |frames| {
          return LoopResult(State(), trace, ReadFailed);
        }
        ghost var before, done := State(), trace;
        var img := frames[i];
        var effects := FrameStep(img, track);
        trace := trace + effects;
        var poll := PollAt(polls, i);
        DeliverEvents(poll.events);
        var quit := KeyTest(poll.key);
        assert (KeyResult(State(), quit), effects) == Iterate(before, img, poll, track);
        if quit {
          return LoopResult(State(), trace, EscPressed);
        }
        i := i + 1;
        ghost var rest := Loop(State(), frames, polls, track, i);
        assert Loop(before, frames, polls, track, i - 1) == LoopResult(rest.state, effects + rest.trace, rest.stop);
        assert done + (effects + rest.trace) == trace + rest.trace;
      }
    }
  }
}
