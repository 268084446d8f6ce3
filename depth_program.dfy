/**
 * The depth-camera program: no arguments; it builds the tracker and runs
 * the same tracking loop on the colour frames of the camera stream, the
 * first of which is taken before the loop.
 */
module DepthProgram {
  import opened Rects
  import opened MouseSelection
  import opened TrackingLoop
  import opened SharedState
  import opened Wrappers

  /**
   * LaunchTrack of the depth program on a camera that delivers stream.
   * The loop has no failing read of its own: it ends on Esc, and otherwise
   * when the modelled stream runs out.
   */
  method LaunchTrackDepth<F>(g: Globals, stream: seq<F>, polls: seq<Poll>, track: F -> Rect)
    returns (r: LoopResult<F>)
    modifies g
    ensures r == Loop(old(g.State()), LoopFrames(stream), polls, track, 0)
    ensures g.State() == r.state
  {
    var frames := LoopFrames(stream);
    r := g.TrackLoop(frames, polls, track);
  }

  /** main of the depth program: -1 when the tracker factory fails, else 0 after the loop. */
  method RunDepthMain<F>(trackerCreated: bool, stream: seq<F>, polls: seq<Poll>, track: F -> Rect)
    returns (status: int, result: Option<LoopResult<F>>)
    ensures !trackerCreated ==> status == -1 && result == None
    ensures trackerCreated ==>
      status == 0 && result == Some(Loop(Start, LoopFrames(stream), polls, track, 0))
    ensures result.Some? ==> TraceSound(result.value.trace, track)
  {
    var g := new Globals();
    if !trackerCreated {
      return -1, None;
    }
    var r := LaunchTrackDepth(g, stream, polls, track);
    LoopEffectsSound(Start, LoopFrames(stream), polls, track, 0);
    return 0, Some(r);
  }
}
