/**
 * The video/webcam program: `main` checks its argument count and builds the
 * tracker, and `LaunchTrack` checks the mode, shows the first frame and runs
 * the tracking loop on the frames after it.
 */
module MainProgram {
  import opened Rects
  import opened MouseSelection
  import opened TrackingLoop
  import opened SharedState
  import opened Wrappers

  /** LaunchTrack's outcome: the mode was refused, or the loop ran and ended. */
  datatype Launch<F> = BadMode | Ran(result: LoopResult<F>)

  /** What LaunchTrack does from selection state s: mode 0 (video file) and 1 (webcam) run the loop. */
  function LaunchSpec<F>(s: Selection, mode: int, video: seq<F>, polls: seq<Poll>, track: F -> Rect): Launch<F>
  {
    if mode == 0 || mode == 1 then Ran(Loop(s, LoopFrames(video), polls, track, 0)) else BadMode
  }

  /**
   * LaunchTrack on the capture whose frames are video (an unopenable source
   * has none). The tracker is the function track.
   */
  method LaunchTrack<F>(g: Globals, mode: int, video: seq<F>, polls: seq<Poll>, track: F -> Rect)
    returns (l: Launch<F>)
    modifies g
    ensures l == LaunchSpec(old(g.State()), mode, video, polls, track)
    ensures l.BadMode? ==> g.State() == old(g.State())
    ensures l.Ran? ==> g.State() == l.result.state
  {
    if mode == 0 || mode == 1 {
      var frames := LoopFrames(video);
      var r := g.TrackLoop(frames, polls, track);
      l := Ran(r);
    } else {
      l := BadMode;
    }
  }

  /**
   * main with argc arguments, of which mode is the parsed first; trackerCreated
   * says whether the tracker factory returned a tracker. A wrong argument count
   * or a missing tracker exits with -1 before anything runs; otherwise main
   * exits with 0 whatever LaunchTrack did, a refused mode included.
   */
  method RunMain<F>(argc: int, mode: int, trackerCreated: bool, video: seq<F>, polls: seq<Poll>, track: F -> Rect)
    returns (status: int, launch: Option<Launch<F>>)
    ensures argc != 3 || !trackerCreated ==> status == -1 && launch == None
    ensures argc == 3 && trackerCreated ==>
      status == 0 && launch == Some(LaunchSpec(Start, mode, video, polls, track))
    ensures launch.Some? ==> (launch.value.BadMode? <==> mode != 0 && mode != 1)
    ensures launch.Some? && launch.value.Ran? ==> TraceSound(launch.value.result.trace, track)
  {
    var g := new Globals();
    if argc != 3 {
      return -1, None;
    }
    if !trackerCreated {
      return -1, None;
    }
    var l := LaunchTrack(g, mode, video, polls, track);
    if l.Ran? {
      LoopEffectsSound(Start, LoopFrames(video), polls, track, 0);
    }
    return 0, Some(l);
  }
}
