# Rectangle selection and tracking loop of faster-uav-tracker

The tracker demo lets the user drag a bounding box on a video with the left
mouse button. The box is handed to a visual object tracker, and the tracker's
box is then drawn frame by frame. This project models the part of the demo
that is plain logic, and proves properties of it:

- the global selection state: the box `bbox` and the three flags
  `drawing_box`, `tracker_init` and `box_init`;
- the mouse callback that drags and commits a box;
- the per-frame flag handling of the tracking loop;
- the argument and mode guards of the two programs.

`d435.cpp` holds a verbatim copy of the mouse callback (d435.cpp:22-54), of
the loop's init branch and tracking branch (d435.cpp:103-112, 115-123) and of
its key test (d435.cpp:139-149). The model shares one definition of them. Each
row below that cites only lines within main.cpp:15-47, 72-92 or 99-109 applies
equally to those copies. The argument and mode checks and the failing frame
read have no counterpart in d435.cpp; its read before the loop is
`pipe.wait_for_frames()` at d435.cpp:69.

Structure:

- `rects.dfy` (`Rects`): `cv::Rect` as a value, and the normalisation done on
  button release.
- `mouse_selection.dfy` (`MouseSelection`): the selection state as a value and
  `OnMouse`, the effect of one callback. `Replay` applies a batch of callbacks.
- `tracking_loop.dfy` (`TrackingLoop`): the frame step `OnFrame`, the key test
  `OnKey`, one iteration and the whole loop `Loop`. The tracker calls and the
  overlays an iteration makes are recorded as a trace of effects.
- `shared_state.dfy` (`SharedState`): class `Globals`, whose fields are the
  globals. Its methods update them in place as the source does, and each is
  proved to perform the step the functions above describe.
- `main_program.dfy` (`MainProgram`): `LaunchTrack` and `main` of the
  video/webcam program. `depth_program.dfy` (`DepthProgram`): the same for the
  depth-camera program.
- `wrappers.dfy`: an `Option` type.

Inputs stand in for what the program gets from outside:

- The video is a finite sequence of frames of an arbitrary type `F`. The read
  before the loop takes the first frame. A read past the last frame fails.
- Each key poll is a `Poll`: the mouse events delivered during the poll, and
  the key code returned. Polls beyond the given script deliver nothing and
  return -1, the code for a poll that timed out.
- The tracker is a function `track: F -> Rect`. `init` and `track` calls
  appear in the trace with the frame and the box that was passed or returned.
- `argc`, the parsed `Mode` and whether the tracker factory returned a tracker
  are parameters.

Two behaviours of the code are easy to miss, and the model keeps both:

- A mode other than 0 or 1 makes `LaunchTrack` print a message and return.
  `main` then exits with 0, not with a nonzero status (main.cpp:115-118, 145-147).
- Left-button down clears `tracker_init` but not `box_init`. A degenerate
  release leaves `box_init` as it was (main.cpp:17-22, 33-37). As a result, a
  commit followed within the same poll by a click without a move makes the
  tracker initialise on a zero-size box (`TrackingLoop.DegenerateInitAfterClick`).
  What is proved for every run is weaker: every box passed to `init` is normal,
  meaning both of its extents are non-negative (`TrackingLoop.LoopEffectsSound`).

## Model

| member | source | states |
|---|---|---|
| `Rects.Normalize` | main.cpp:25-32 | the released box has non-negative width and height, covers on each axis exactly the interval the dragged box covered, and is degenerate exactly when the dragged box was |
| `Rects.NormalizeShiftsOrigin` | main.cpp:25-32 | closed form of the normalisation: origin' = origin + min(0, size) and size' = abs(size), on both axes |
| `Rects.NormalizeUnique` | main.cpp:25-32 | any box with non-negative extents that covers the same intervals as the dragged box is the normalised box |
| `Rects.NormalizeIdempotent` | main.cpp:25-32 | normalising a box that is already normal changes nothing, so normalising twice is normalising once |
| `MouseSelection.OnMouse` | main.cpp:15-47 | no contract of its own: the effect of one callback on the globals; described by `ButtonDownAnchors`, `MoveResizes`, `ButtonUpNormalizes` and `OtherEventsIgnored`, and performed in place by `SharedState.Globals.MouseCallback` |
| `MouseSelection.Replay` | main.cpp:99 | no contract of its own: the callbacks dispatched during one key poll, applied in order; described by `ReplayBoxInit`, `DragSpansAnchorToCursor`, `DragAndRelease` and `TrackingLoop.ReplayKeepsCommitNormal`, and performed by `SharedState.Globals.DeliverEvents` |
| `MouseSelection.ButtonDownAnchors` | main.cpp:17-22 | left-button down sets `drawing_box`, clears `tracker_init`, anchors the box (x, y, 0, 0) at the cursor and leaves `box_init` unchanged |
| `MouseSelection.MoveResizes` | main.cpp:39-45 | a move during a drag sets width = x - bbox.x and height = y - bbox.y and keeps the anchor; with no drag the state is unchanged |
| `MouseSelection.ButtonUpNormalizes` | main.cpp:23-38 | left-button up clears `drawing_box`, leaves a normal box covering the same intervals, sets `box_init` if and only if it was set or the new width and height are both non-zero, and leaves `tracker_init` alone |
| `MouseSelection.OtherEventsIgnored` | main.cpp:16-46 | events other than left down, left up and move leave the state unchanged |
| `MouseSelection.ReplayBoxInit` | main.cpp:33-37 | after any batch of mouse events, `box_init` is set if and only if it was set before or some release in the batch found a non-degenerate box |
| `MouseSelection.DragSpansAnchorToCursor` | main.cpp:15-47 | a press at (x0, y0) followed by any number of moves leaves a drag in progress, tracking off, and the box spanning from the anchor to the last cursor position |
| `MouseSelection.DragAndRelease` | main.cpp:15-47 | press, moves, release leaves the normalised anchor-to-last-cursor box with the drag over and tracking off, and commits it if and only if it is non-degenerate (or a commit was pending) |
| `MouseSelection.DragBackwardsExample` | main.cpp:15-47 | dragging from (10, 10) to (5, 5) from the start state commits the box (5, 5, 5, 5) |
| `TrackingLoop.LoopFrames` | main.cpp:58-65 | the loop reads the frames after the first, which the read before the loop takes; an empty capture gives the loop no frame |
| `TrackingLoop.OnFrame` | main.cpp:71-92 | no contract of its own: the frame step; described by `CommitConsumedOnce`, `IdleFrameKeepsState`, `TrackingTakesTrackerBox` and `NoTrackerCallWhileDragging`, and performed in place by `SharedState.Globals.FrameStep` |
| `TrackingLoop.OnKey` | main.cpp:99-109 | no contract of its own: the key test; described by `EscQuits` and `ResetClearsFlags`, and performed in place by `SharedState.Globals.KeyTest` |
| `TrackingLoop.PollAt` | main.cpp:99 | no contract of its own: the input of a poll, where a poll past the end of the script sees no event and returns -1, as when the wait times out |
| `TrackingLoop.Iterate` | main.cpp:64-110 | no contract of its own: one iteration on a frame that was read (frame step, callbacks, key test); described by `IterateKeepsLoopHead` |
| `TrackingLoop.Loop` | main.cpp:64-110 | no contract of its own: the whole loop; described by `LoopEffectsSound`, `EscEndsLoopThisIteration`, `ReadFailureEndsLoop`, `NoEscRunsToEnd` and `DegenerateInitAfterClick`, and performed in place by `SharedState.Globals.TrackLoop` |
| `TrackingLoop.EscQuits` | main.cpp:99-102 | key 27 ends the loop and leaves the box and all flags unchanged |
| `TrackingLoop.ResetClearsFlags` | main.cpp:104-109 | any other key continues the loop; key 114 or an active drag clears `tracker_init` and `box_init` and nothing else, and otherwise nothing changes |
| `TrackingLoop.CommitConsumedOnce` | main.cpp:72-77 | with a pending commit and no tracking, the frame step calls init with the current box first, then sets `tracker_init` and clears `box_init` and changes nothing else in the state; after the init call it draws the dragged box exactly when a drag is in progress with positive width and height, and calls the tracker no further |
| `TrackingLoop.IdleFrameKeepsState` | main.cpp:72-81 | with no commit pending and no tracking, the frame step changes no flag and not the box, and draws the dragged box exactly when a drag is in progress with positive width and height |
| `TrackingLoop.TrackingTakesTrackerBox` | main.cpp:84-92 | while tracking, the box becomes exactly the tracker's output for the frame, which is drawn |
| `TrackingLoop.ReplayKeepsCommitNormal` | main.cpp:15-47 | if, with the drag over, a pending commit was a normal box before a batch of mouse events, it still is after the batch |
| `TrackingLoop.IterateKeepsLoopHead` | main.cpp:64-110 | an iteration that does not quit restores the loop invariant: a drag in progress means no tracking and no pending commit, and a pending commit that init will consume is a normal box |
| `TrackingLoop.StartIsLoopHead` | main.cpp:10-13 | the initial globals satisfy the loop invariant |
| `TrackingLoop.LoopEffectsSound` | main.cpp:64-110 | over a whole run from the start state (or any state satisfying the loop invariant), init only receives boxes with non-negative width and height; the other conditions checked on the trace (a tracked box is the tracker's output, a drawn selection has positive extents) hold by construction of the frame step |
| `TrackingLoop.NoTrackerCallWhileDragging` | main.cpp:72-92 | at the top of the loop, a drag in progress means the frame step makes no tracker call and at most draws the selection |
| `TrackingLoop.DegenerateInitAfterClick` | main.cpp:17-37 | a commit followed within one poll by a click without a move leads to init being called with the zero-size box (7, 7, 0, 0) |
| `TrackingLoop.EscEndsLoopThisIteration` | main.cpp:99-102 | Esc seen in the poll of a frame that was read ends the loop in that same iteration |
| `TrackingLoop.ReadFailureEndsLoop` | main.cpp:65-69 | a failed read ends the loop at once, with no tracker call or drawing and the state unchanged |
| `TrackingLoop.NoEscRunsToEnd` | main.cpp:64-110 | if no poll from iteration i on returns 27, the loop ends by a failed read |
| `SharedState.Globals.constructor` | main.cpp:10-13 | the globals start with a default box (0, 0, 0, 0) and all flags false |
| `SharedState.Globals.MouseCallback` | main.cpp:15-47 | the in-place callback performs exactly `OnMouse`; after a release the box is normal and no drag is in progress |
| `SharedState.Globals.FrameStep` | main.cpp:71-92 | the in-place frame step performs exactly `OnFrame` and returns its tracker calls and overlays |
| `SharedState.Globals.KeyTest` | main.cpp:99-109 | the in-place key test performs exactly `OnKey` and reports a quit if and only if the key is 27 |
| `SharedState.Globals.DeliverEvents` | main.cpp:99 | the callbacks run during the key poll apply the batch's events in order |
| `SharedState.Globals.TrackLoop` | main.cpp:64-110 | the `while (true)` loop produces exactly the state, trace and stop reason of `Loop` |
| `MainProgram.LaunchSpec` | main.cpp:54-118 | no contract of its own: modes 0 and 1 run the loop on the frames after the first, any other mode refuses; performed by `MainProgram.LaunchTrack` and used in the contract of `MainProgram.RunMain` |
| `MainProgram.LaunchTrack` | main.cpp:50-118 | mode 0 or 1 runs the loop on the frames after the first and leaves the globals in the loop's final state; any other mode returns before the loop and touches no global |
| `MainProgram.RunMain` | main.cpp:122-148 | argc other than 3, or a missing tracker, exits with -1 and no loop; otherwise exit 0 after `LaunchTrack`, which refuses exactly the modes other than 0 and 1; every trace of a run is sound |
| `DepthProgram.LaunchTrackDepth` | d435.cpp:86-150 | the depth loop is the same loop on the colour frames after the first, and leaves the globals in the loop's final state |
| `DepthProgram.RunDepthMain` | d435.cpp:156-172 | a missing tracker exits with -1; otherwise exit 0 after the loop started from the initial globals, whose trace is sound |

## Left out

- OpenCV display and rendering are left out: windows, `imshow`, `putText`, and the pixel contents of the rectangles drawn. The rectangles appear only as `DrawSelection` and `DrawTracked` effects.
- `imshow` of the first frame of an empty capture: OpenCV raises there, and the model lets the loop start and fail its first read.
- The blocking nature and the 30 ms timeout of `waitKey` are left out. A poll is a scripted batch of mouse events plus a key code.
- The trackers (LightTrack, OSTrack) are foreign TensorRT-backed libraries. `track` is an arbitrary function of the frame, so the model does not capture tracker state carried from `init` to later `track` calls.
- The `std::chrono` timing and its floating-point printout (main.cpp:85-90) are left out, as are all console messages.
- `atoi` parsing of the mode and storing `path` are left out; the mode is an integer input and the capture is its frame sequence. `cap.open` failing is modelled as an empty capture.
- The RealSense path of d435.cpp is left out: stream configuration, alignment, intrinsics, `get_distance` and deprojection (d435.cpp:61-75, 88-100, 124-131). It is foreign-SDK, floating-point code, and as written it does not compile (undeclared `cap`, `path`, `color_w`, `pixe_center`, `detect_object`; missing semicolons at lines 125-126).
- `DepthProgram.LaunchTrackDepth`: `wait_for_frames` blocks and raises on timeout. The model gives the camera a finite stream and ends the loop when the stream runs out, which the source does not do.
- The camera constants of d435.cpp (640x480 at 60 Hz) are left out; they only configure the SDK.
- A webcam delivers frames without end; the model covers finite runs only.
- `Rects.Normalize`: the model uses unbounded integers. `cv::Rect` holds 32-bit `int`s, and `bbox.x += bbox.width`, `bbox.width *= -1` and `x - bbox.x` (main.cpp:26-27, 30-31, 42-43) could overflow only at coordinates far outside any window.
