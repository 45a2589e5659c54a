# Fabric defect detection controller — Dafny model

This project models the control logic of `app/defect_detection.py`, the script that runs a
YOLO defect detector on frames from a Hikvision GigE camera on a Jetson board and stops the
fabric machine through a relay when a defect is seen. The script is written at module level;
the model lifts its logic into five modules:

- `HexCode` — `to_hex_str`, which prints SDK error codes in lower-case hex. A negative code is
  shifted by 2^32 first. `ToHexStr` is the digit-peeling loop. It is proved to produce the
  canonical hex spelling (`Hex`) of the shifted value. `Hex` and `HexValue` are proved inverse
  in both directions.
- `CameraSelect` — start-up camera selection. This covers the four octets of a GigE device's
  `nCurrentIp`, the dotted-quad string built from them, and the scan that records the index of
  the device whose string equals `CAMERA_IP` (the last match wins). It also covers the three
  ways start-up can exit: enumeration failed, no devices, target not found.
- `FpsWindow` — the `deque(maxlen=30)` of FPS samples, as a sequence type bounded by 30. It is
  proved to always hold the most recent samples of the whole history.
- `Inspection` — the shared state as a value (`State`), with one function per event:
  - a grab at the top of the main loop;
  - the rest of the iteration, given the classifier's boxes;
  - `/api/stop`, `/api/resume`;
  - the cleanup block.

  `Inv` is the consistency these keep. The lemmas show that every interleaving of events from
  start-up keeps it. They also state what one iteration does to the counters, the defect log,
  the relay, the FPS window and `live_stats`.
- `ControllerLoop` — class `Controller`, whose fields are the script's globals:
  - `machine_paused`, the flag of `pause_event`, the relay pin level;
  - `frame_count`, `defect_frame_count`, `defect_log`, `fps_queue`, `live_stats`.

  Its methods update them in place: `ActivateRelay`, `DeactivateRelay`, `Stop`, `Resume`,
  `Acquire`, `Cycle` (with the `for box in boxes` loop in `LogBoxes`), `Cleanup`.
  `ActivateRelay` and `DeactivateRelay` are proved to change the object exactly as
  `Inspection.Activate` and `Inspection.Deactivate` say. They do not keep `Inv` on their own:
  activating after cleanup would drive the pin HIGH. `LogBoxes` is proved to append exactly
  `Inspection.LogEntries` to `defect_log` and to change nothing else. `Stop`, `Resume`, `Acquire`,
  `Cycle` and `Cleanup` are proved to change the object exactly as `Inspection.Apply` says for
  their event. They keep `Valid()`, which is `Inv` plus the FPS window holding the most recent
  samples of the whole history.

The blocking `pause_event.wait()` is modelled as the iteration ending in phase `Waiting`. Only a
resume request (or shutdown) leaves that phase. The `/api/stop` and `/api/resume` routes are
served only when `ENABLE_WEB` starts the web thread (app/defect_detection.py:406-408), so with the
web server off they never happen.

The message printed before the wait (app/defect_detection.py:731) names a "physical button" as
a second resume signal, but no code reads a button or any other input. After the
`pause_event.set()` at start-up (line 50), the only code that sets `pause_event` is
`deactivate_relay`, called from `POST /api/resume`. So with `ENABLE_WEB` off, the first pause
blocks until the process is interrupted. `Inspection.WaitingWithoutWebHolds` states this.
Among the modelled operations, the relay pin is driven HIGH by `activate_relay` and stays HIGH
until `deactivate_relay` or cleanup. The one other writer of the pin is the `/api/test_relay`
route, which is not modelled (see "## Left out"). The model follows the code.

## Model

| member | source | states |
|---|---|---|
| HexCode.Hex | app/defect_detection.py:421-425 | the digits are non-empty, only `0-9a-f`, and never start with `0` unless the string is `"0"` |
| HexCode.HexRoundTrip | app/defect_detection.py:415-426 | parsing the printed digits gives back the number |
| HexCode.CanonicalIsHexOfValue | app/defect_detection.py:415-426 | every canonical hex string is the printed form of its own value, so the printed form is unique |
| HexCode.HexLength | app/defect_detection.py:421-425 | a value below 16^k prints in at most k digits |
| HexCode.ToHexStr | app/defect_detection.py:415-426 | the result is canonical hex whose value is the code, shifted by 2^32 when negative; for a 32-bit code that is `num mod 2^32` in at most 8 digits |
| CameraSelect.Octets | app/defect_detection.py:500-503 | each of `nip1..nip4` is below 256, and `nip1*2^24 + nip2*2^16 + nip3*2^8 + nip4` equals `nCurrentIp` |
| CameraSelect.Decimal | app/defect_detection.py:504 | Python's `str` of an octet is non-empty; `DecimalDigits` and `DecimalRoundTrip` state that it is digits only and reads back as the octet |
| CameraSelect.DottedQuad | app/defect_detection.py:500-504 | the f-string of the four octets; `DottedQuadInjective` states that it is one-to-one and `DefaultTargetAddress` gives its value on the default camera address |
| CameraSelect.Matches | app/defect_detection.py:499-508 | the condition that records an index: GigE and dotted quad equal to the target; `MatchesAddress` states it as an address comparison |
| CameraSelect.DecimalDigits | app/defect_detection.py:504 | the decimal form of an octet consists only of the digits `0-9` |
| CameraSelect.DecimalRoundTrip | app/defect_detection.py:504 | the decimal digits of an octet read back as the octet |
| CameraSelect.DottedQuadInjective | app/defect_detection.py:500-504 | two addresses with the same dotted-quad string are the same address |
| CameraSelect.MatchesAddress | app/defect_detection.py:499-509 | when the target is a dotted quad, a device matches exactly when it is GigE and at that address |
| CameraSelect.DefaultTargetAddress | app/defect_detection.py:86 | the default target `169.254.147.1` is the dotted quad of `0xA9FE9301` |
| CameraSelect.FindTargetCamera | app/defect_detection.py:495-511 | the index is `-1` exactly when no device matches; otherwise the device is GigE, matches the target, and no later device matches (last match wins) |
| CameraSelect.SelectTargetCamera | app/defect_detection.py:473-515 | start-up fails with the hex code exactly when enumeration returns non-zero; it fails with no devices exactly on an empty list; it fails with target not found exactly when nothing matches; otherwise it selects the last matching device |
| FpsWindow.Append | app/defect_detection.py:739 | appending puts the sample last, grows a non-full deque by one, and keeps a full one at 30 |
| FpsWindow.Recent | app/defect_detection.py:592 | the contents of the deque after a history of appends; `AppendKeepsRecent` and `AppendAllRecent` state that appending keeps it |
| FpsWindow.AppendKeepsRecent | app/defect_detection.py:592 | appending to the window of a history gives the window of the extended history |
| FpsWindow.AppendAllRecent | app/defect_detection.py:739 | appending any run of samples leaves exactly the 30 most recent samples of the whole history |
| Inspection.Init | app/defect_detection.py:36-50 | the start state keeps the invariant: running, event set, pin LOW, counters zero, log and deque empty |
| Inspection.Activate | app/defect_detection.py:52-60 | afterwards the machine is paused with the event cleared, and the pin is HIGH if the relay is usable; nothing else changes |
| Inspection.Deactivate | app/defect_detection.py:62-70 | afterwards the machine runs with the event set, and the pin is LOW if the relay is usable; nothing else changes |
| Inspection.Cleanup | app/defect_detection.py:798-801 | the loop is finished, a usable relay pin is LOW, and nothing else changes |
| Inspection.Acquire | app/defect_detection.py:615-646 | the grab step; `GrabBookkeeping` states that a failed grab changes nothing and a successful one only counts the frame |
| Inspection.RecordDefects | app/defect_detection.py:674-711 | the defect branch; `DefectCycle` and `CleanCycle` state what it does with and without boxes |
| Inspection.EndOfCycle | app/defect_detection.py:713-790 | the end of an iteration; `PausedCycleSkipsPublication` and `PublishedCycleStats` state the paused and the running case |
| Inspection.Cycle | app/defect_detection.py:646-790 | one iteration after a grab; `CyclePreservesInv` states that it keeps the invariant |
| Inspection.Enabled | app/defect_detection.py:370-408 | loop steps only in their phase; web requests only with the web server on and before cleanup; `WaitingWithoutWebHolds` states the consequence |
| Inspection.Apply | app/defect_detection.py:370-380 | one event's effect; `ApplyPreservesInv` and `ApplyKeepsConfig` state that every event keeps the invariant and the configuration |
| Inspection.LogEntries | app/defect_detection.py:678-690 | one row per box, in box order, each tagged with the current frame number |
| Inspection.RelayIdempotent | app/defect_detection.py:52-70 | activating twice is activating once; likewise deactivating |
| Inspection.CyclePreservesInv | app/defect_detection.py:646-790 | one iteration keeps the invariant: paused iff event cleared, pin tied to pause, defect frames at most frames and at most log rows, log rows tagged with past frames in order, published totals never ahead |
| Inspection.ApplyPreservesInv | app/defect_detection.py:370-380 | every event keeps the invariant, including web stop and resume requests between iterations |
| Inspection.RunPreservesInv | app/defect_detection.py:610-801 | every sequence of events keeps the invariant |
| Inspection.RunKeepsConfig | app/defect_detection.py:27-44 | the relay and web flags fixed at start-up never change |
| Inspection.ReachableStates | app/defect_detection.py:46-70 | from start-up, `machine_paused` is always the negation of the event flag, a usable pin is HIGH exactly while paused, and the pin is LOW after cleanup; defect frames never exceed frames or log rows, and published totals never run ahead |
| Inspection.GrabBookkeeping | app/defect_detection.py:615-646 | a failed grab changes nothing; a successful grab adds exactly one to `frame_count` and changes nothing else |
| Inspection.DefectCycle | app/defect_detection.py:674-711 | with boxes: `defect_frame_count` goes up by one, one row per box is appended in order with the current frame, earlier rows stay, and the machine ends paused; the relay is activated only if it was not already paused |
| Inspection.CleanCycle | app/defect_detection.py:674-711 | with no boxes: defect count, log, frame count and relay state are unchanged |
| Inspection.PausedCycleSkipsPublication | app/defect_detection.py:713-734 | a cycle that ends paused blocks in `Waiting`, appends no FPS sample, and of `live_stats` sets only `machine_paused` |
| Inspection.WaitingOnlyResumeLeaves | app/defect_detection.py:730-734 | while blocked, no grab, cycle or stop moves the loop; with the web server on, a resume sends it to the next grab with the machine running; with it off, a resume cannot arrive and changes nothing |
| Inspection.WaitingWithoutWebHolds | app/defect_detection.py:406-408 | with the web server off, a loop blocked at the pause stays exactly as it is under every sequence of events without shutdown |
| Inspection.PublishedCycleStats | app/defect_detection.py:736-785 | a running cycle with the web page on publishes `total_defects == len(defect_log)`, `defect_frames_saved == defect_frame_count`, the frame count, the current defects and `machine_paused == False`, and appends the sample to the window |
| Inspection.ManualStopHoldsNextCycle | app/defect_detection.py:710-734 | after `/api/stop`, the next frame is counted; even with no boxes it is held at the pause, with no log change and no FPS sample |
| Inspection.TwoBoxFrame | app/defect_detection.py:674-711 | a first frame with boxes `hole`, `stain` adds the two rows in order tagged frame 1, counts one saved frame, drives the pin HIGH and waits |
| Inspection.CleanFramesKeepRunning | app/defect_detection.py:674-785 | any number of frames without boxes are all counted and leave the defect count, log and relay alone; the machine keeps running and the window holds the most recent samples |
| ControllerLoop.Controller.constructor | app/defect_detection.py:46-50 | the object starts in the start state with the invariant holding |
| ControllerLoop.Controller.ActivateRelay | app/defect_detection.py:52-60 | the fields change as `Inspection.Activate` says |
| ControllerLoop.Controller.DeactivateRelay | app/defect_detection.py:62-70 | the fields change as `Inspection.Deactivate` says |
| ControllerLoop.Controller.Stop | app/defect_detection.py:376-380 | paused, event cleared, pin HIGH when the relay is usable; the invariant is kept |
| ControllerLoop.Controller.Resume | app/defect_detection.py:370-374 | running, event set, pin LOW, and a waiting loop released; the invariant is kept |
| ControllerLoop.Controller.Acquire | app/defect_detection.py:615-646 | a failed grab leaves the object unchanged; a successful one counts the frame |
| ControllerLoop.Controller.LogBoxes | app/defect_detection.py:678-690 | `defect_log` becomes the old log followed by one row per box |
| ControllerLoop.Controller.Cycle | app/defect_detection.py:646-790 | the fields change as `Inspection.Cycle` says; the invariant is kept; the FPS history grows by the sample exactly when the cycle is not paused |
| ControllerLoop.Controller.Cleanup | app/defect_detection.py:798-801 | the pin is LOW and the loop finished; the invariant is kept |

## Left out

- Camera SDK calls, ctypes buffers, pixel-format reshaping and OpenCV conversions: foreign library code. A grab is a success flag, and the classifier's output is a sequence of detections given as input.
- YOLO model loading, warm-up and inference: an external classifier. A detection carries its class name, so the `model.names` lookup happens before the model sees it.
- Drawing, overlays, display windows, and the `q` key that leaves the loop: display I/O. Leaving the loop is modelled only as the shutdown event.
- The Flask server, HTML page, MJPEG stream, `latest_frame` and `/api/stats`: network and UI. `/api/stop` and `/api/resume` are modelled as events that arrive between the loop's steps. Locks and `threading.Event` blocking are not modelled, and neither are races with a request inside one step.
- `/api/test_relay` (app/defect_detection.py:382-400): a hardware test that drives the relay pin HIGH, sleeps two seconds, and drives it LOW, whatever the pause state. It never touches `machine_paused` or `pause_event`, so a test during a pause leaves the pin LOW while the loop still waits. Sleeps and a request that overlaps the loop are outside this model. The pin/pause clause of `Inspection.Inv` and `Inspection.ReachableStates` ("a usable pin is HIGH exactly while paused") therefore covers only runs in which this route is never called.
- Inspection.Cleanup: the script catches only `KeyboardInterrupt` (line 792), and the cleanup block (798-801) follows the `try` without a `finally`. Any other exception in the loop ends the script without cleanup. Examples are a `ValueError` from `frame.reshape` (629) and a failure in `model.predict` (665). A pin that `activate_relay` drove HIGH then stays HIGH. The model's `Shutdown` event always runs cleanup, so the pin-LOW guarantee after the loop, including the `phase == Finished ==> !pinHigh` clause of `Inspection.ReachableStates`, covers only the Ctrl+C and `q` exits.
- FPS and uptime arithmetic, averaging, timestamps, the `time` column of the log, and the `%.2f`/bbox string formatting: floats and wall clock. FPS samples are opaque reals. Confidence and box are stored unformatted. `live_stats` fields `fps`, `uptime`, `model` and `camera_ip` are not modelled.
- Saving defect images, the CSV log at shutdown, the console status line and the summary: file and console I/O.
- GPIO set-up: `RELAY_ENABLED and GPIO` is one flag fixed at start-up. Once set-up has finished, GPIO is usable exactly when `RELAY_ENABLED` is still true.
- Model-path fallback, camera handle and open, packet size, trigger mode, frame rate, exposure, gain and start-grabbing: SDK configuration calls. Only enumeration and target selection are modelled.
- HexCode.ToHexStr: requires the code to be at least -2^32. Below that, Python prints the still-negative shifted value as a signed decimal; SDK status codes are 32-bit, so this never happens.
- CameraSelect.Octets: works on `nCurrentIp` as the non-negative integer Python reads. Each mask-and-shift is written as division and remainder by a power of two, which is equal on non-negative integers.
- ControllerLoop.Controller.Stop: requires the loop not to have finished cleanup. After cleanup the process is exiting, and web requests that arrive then are not modelled. It also requires the web server to be on, since the route exists only then.
- ControllerLoop.Controller.Resume: requires the loop not to have finished cleanup and the web server to be on, for the same reasons.
