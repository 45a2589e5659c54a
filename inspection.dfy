/** The inspection loop's bookkeeping and the pause/relay state machine, as values:
    one `State` per point between events, and one function per event. The class
    in module ControllerLoop is proved to follow these functions. */
module Inspection {
  import FpsWindow

  /** Pixel box `(x1, y1)-(x2, y2)` of one detection. */
  datatype BBox = BBox(x1: int, y1: int, x2: int, y2: int)

  /** One box the classifier returns: class name, confidence (never inspected here) and box. */
  datatype Detection = Detection(className: string, confidence: real, bbox: BBox)

  /** One row of `defect_log`: the frame it was seen in, the class, confidence and box. */
  datatype Entry = Entry(frame: nat, className: string, confidence: real, bbox: BBox)

  /** Where the main loop stands: before a grab, between grab and detection,
      blocked in `pause_event.wait()`, or after cleanup. */
  datatype Phase = Grabbing | Inferring | Waiting | Finished

  /** The integer and flag fields of `live_stats` that the loop writes. */
  datatype LiveStats = LiveStats(
    frameCount: nat,
    currentDefects: nat,
    totalDefects: nat,
    defectFramesSaved: nat,
    machinePaused: bool,
    relayEnabled: bool)

  /** Everything the loop, the relay functions and the web endpoints share.
      `relayEnabled` stands for `RELAY_ENABLED and GPIO`, `webEnabled` for `ENABLE_WEB`,
      `paused` for `machine_paused`, `eventSet` for the flag of `pause_event`,
      `pinHigh` for the level driven on the relay pin. */
  datatype State = State(
    relayEnabled: bool,
    webEnabled: bool,
    phase: Phase,
    paused: bool,
    eventSet: bool,
    pinHigh: bool,
    frameCount: nat,
    defectFrameCount: nat,
    defectLog: seq<Entry>,
    fpsQueue: FpsWindow.Window<real>,
    stats: LiveStats)

  /** The consistency the loop and the relay functions keep between events. */
  ghost predicate Inv(s: State) {
    && s.paused == !s.eventSet
    && (s.phase != Finished ==> s.pinHigh == (s.relayEnabled && s.paused))
    && (s.phase == Finished ==> !s.pinHigh)
    && (s.phase == Waiting ==> s.paused)
    && s.defectFrameCount <= s.frameCount
    && (s.phase == Inferring ==> s.defectFrameCount < s.frameCount)
    && s.defectFrameCount <= |s.defectLog|
    && (forall i :: 0 <= i < |s.defectLog| ==> 1 <= s.defectLog[i].frame <= s.frameCount)
    && (forall i, j :: 0 <= i < j < |s.defectLog| ==> s.defectLog[i].frame <= s.defectLog[j].frame)
    && s.stats.frameCount <= s.frameCount
    && s.stats.totalDefects <= |s.defectLog|
    && s.stats.defectFramesSaved <= s.defectFrameCount
    && s.stats.relayEnabled == s.relayEnabled
  }

  /** Module start-up: counters zero, machine running (`pause_event` set), pin set up LOW. */
  function Init(relayEnabled: bool, webEnabled: bool): (s: State)
    ensures Inv(s)
    ensures s.phase == Grabbing && !s.paused && s.eventSet && !s.pinHigh
    ensures s.frameCount == 0 && s.defectFrameCount == 0 && s.defectLog == [] && s.fpsQueue == []
  {
    State(relayEnabled, webEnabled, Grabbing, false, true, false, 0, 0, [], [],
          LiveStats(0, 0, 0, 0, false, relayEnabled))
  }

  /** `activate_relay`: drive the pin HIGH when the relay is usable, mark paused, clear the event. */
  function Activate(s: State): (r: State)
    ensures r.paused && !r.eventSet
    ensures r.pinHigh == (s.relayEnabled || s.pinHigh)
    ensures r.(paused := s.paused, eventSet := s.eventSet, pinHigh := s.pinHigh) == s
  {
    s.(pinHigh := if s.relayEnabled then true else s.pinHigh, paused := true, eventSet := false)
  }

  /** `deactivate_relay`: drive the pin LOW when the relay is usable, mark running, set the event. */
  function Deactivate(s: State): (r: State)
    ensures !r.paused && r.eventSet
    ensures r.pinHigh == (!s.relayEnabled && s.pinHigh)
    ensures r.(paused := s.paused, eventSet := s.eventSet, pinHigh := s.pinHigh) == s
  {
    s.(pinHigh := if s.relayEnabled then false else s.pinHigh, paused := false, eventSet := true)
  }

  /** The cleanup block: force the pin LOW when the relay is usable; the loop is over. */
  function Cleanup(s: State): (r: State)
    ensures r.phase == Finished
    ensures s.relayEnabled ==> !r.pinHigh
    ensures r.(phase := s.phase, pinHigh := s.pinHigh) == s
  {
    s.(pinHigh := if s.relayEnabled then false else s.pinHigh, phase := Finished)
  }

  /** `MV_CC_GetImageBuffer` at the top of the loop: a non-zero status skips the
      iteration; a frame is counted otherwise. */
  function Acquire(s: State, ok: bool): (r: State)
    requires s.phase == Grabbing
  {
    if ok then s.(frameCount := s.frameCount + 1, phase := Inferring) else s
  }

  function ToEntry(frame: nat, d: Detection): Entry {
    Entry(frame, d.className, d.confidence, d.bbox)
  }

  /** The rows the `for box in boxes` loop appends for one frame. */
  function LogEntries(frame: nat, dets: seq<Detection>): (r: seq<Entry>)
    ensures |r| == |dets|
    ensures forall i :: 0 <= i < |r| ==> r[i] == ToEntry(frame, dets[i])
  {
    if dets == [] then [] else LogEntries(frame, dets[..|dets| - 1]) + [ToEntry(frame, dets[|dets| - 1])]
  }

  /** The stats the loop publishes at the end of a running cycle. */
  function Published(s: State, currentDefects: nat): LiveStats {
    LiveStats(s.frameCount, currentDefects, |s.defectLog|, s.defectFrameCount, s.paused, s.relayEnabled)
  }

  /** The defect branch of an iteration: count the frame, log its boxes, and stop the
      machine unless it is already stopped. */
  function RecordDefects(s: State, dets: seq<Detection>): State {
    if |dets| > 0 then
      var logged := s.(defectFrameCount := s.defectFrameCount + 1,
                       defectLog := s.defectLog + LogEntries(s.frameCount, dets));
      if !logged.paused then Activate(logged) else logged
    else s
  }

  /** The end of an iteration: `pause_event.wait()` then `continue` when paused (no FPS
      sample; of the stats only the paused flag), otherwise append the FPS sample and
      publish the counters. */
  function EndOfCycle(s: State, currentDefects: nat, fps: real): State {
    if s.paused then
      s.(phase := if s.eventSet then Grabbing else Waiting,
         stats := if s.webEnabled then s.stats.(machinePaused := true) else s.stats)
    else
      s.(phase := Grabbing,
         fpsQueue := FpsWindow.Append(s.fpsQueue, fps),
         stats := if s.webEnabled then Published(s, currentDefects) else s.stats)
  }

  /** The rest of one loop iteration after a successful grab, given the classifier's
      boxes and the instantaneous frame rate measured for this iteration. */
  function Cycle(s: State, dets: seq<Detection>, fps: real): State
    requires s.phase == Inferring
  {
    EndOfCycle(RecordDefects(s, dets), |dets|, fps)
  }

  /** The events that drive the state: loop steps, web requests and shutdown. */
  datatype Event =
    | Grab(ok: bool)
    | Detect(detections: seq<Detection>, fps: real)
    | StopRequest      // POST /api/stop
    | ResumeRequest    // POST /api/resume
    | Shutdown         // loop left by an interrupt; the cleanup block runs

  /** Whether the event can happen in this state: the loop's own steps only in their
      phase; web requests only when the web server was started, and until cleanup. */
  predicate Enabled(s: State, e: Event) {
    match e
    case Grab(_) => s.phase == Grabbing
    case Detect(_, _) => s.phase == Inferring
    case StopRequest => s.webEnabled && s.phase != Finished
    case ResumeRequest => s.webEnabled && s.phase != Finished
    case Shutdown => true
  }

  /** The effect of one event; an event that cannot happen leaves the state alone.
      Resuming also releases a loop blocked in `pause_event.wait()`. */
  function Apply(s: State, e: Event): State {
    if !Enabled(s, e) then s
    else match e
      case Grab(ok) => Acquire(s, ok)
      case Detect(dets, fps) => Cycle(s, dets, fps)
      case StopRequest => Activate(s)
      case ResumeRequest =>
        var r := Deactivate(s);
        if r.phase == Waiting then r.(phase := Grabbing) else r
      case Shutdown => Cleanup(s)
  }

  function Run(s: State, events: seq<Event>): State
    decreases |events|
  {
    if events == [] then s else Run(Apply(s, events[0]), events[1..])
  }

  // ---------------------------------------------------------------------------
  // Relay functions

  /** Activating twice is activating once, and likewise for deactivating. */
  lemma RelayIdempotent(s: State)
    ensures Activate(Activate(s)) == Activate(s)
    ensures Deactivate(Deactivate(s)) == Deactivate(s)
  {
  }

  // ---------------------------------------------------------------------------
  // The invariant

  lemma CyclePreservesInv(s: State, dets: seq<Detection>, fps: real)
    requires Inv(s) && s.phase == Inferring
    ensures Inv(Cycle(s, dets, fps))
  {
    var r := Cycle(s, dets, fps);
    if |dets| > 0 {
      var log := s.defectLog + LogEntries(s.frameCount, dets);
      assert r.defectLog == log;
      forall i, j | 0 <= i < j < |log| ensures log[i].frame <= log[j].frame {
        if j >= |s.defectLog| {
          assert log[j] == ToEntry(s.frameCount, dets[j - |s.defectLog|]);
        }
      }
    }
  }

  lemma ApplyPreservesInv(s: State, e: Event)
    requires Inv(s)
    ensures Inv(Apply(s, e))
  {
    if Enabled(s, e) && e.Detect? {
      CyclePreservesInv(s, e.detections, e.fps);
    }
  }

  lemma {:induction false} RunPreservesInv(s: State, events: seq<Event>)
    requires Inv(s)
    ensures Inv(Run(s, events))
    decreases |events|
  {
    if events != [] {
      ApplyPreservesInv(s, events[0]);
      RunPreservesInv(Apply(s, events[0]), events[1..]);
    }
  }

  lemma ApplyKeepsConfig(s: State, e: Event)
    ensures Apply(s, e).relayEnabled == s.relayEnabled && Apply(s, e).webEnabled == s.webEnabled
  {
  }

  /** The configuration flags never change. */
  lemma {:induction false} RunKeepsConfig(s: State, events: seq<Event>)
    ensures Run(s, events).relayEnabled == s.relayEnabled
    ensures Run(s, events).webEnabled == s.webEnabled
    decreases |events|
  {
    if events != [] {
      ApplyKeepsConfig(s, events[0]);
      RunKeepsConfig(Apply(s, events[0]), events[1..]);
    }
  }

  /** From start-up, whatever the interleaving of loop steps, web requests and shutdown:
      `machine_paused` is the negation of the event flag, the usable relay pin is HIGH
      exactly while paused, defect frames never outnumber frames, and the published
      totals never run ahead of the real ones. */
  lemma {:induction false} ReachableStates(relayEnabled: bool, webEnabled: bool, events: seq<Event>)
    ensures var s := Run(Init(relayEnabled, webEnabled), events);
      && s.paused == !s.eventSet
      && (relayEnabled && s.phase != Finished ==> s.pinHigh == s.paused)
      && (s.phase == Finished ==> !s.pinHigh)
      && s.defectFrameCount <= s.frameCount
      && s.defectFrameCount <= |s.defectLog|
      && s.stats.totalDefects <= |s.defectLog|
      && s.stats.defectFramesSaved <= s.defectFrameCount
  {
    RunPreservesInv(Init(relayEnabled, webEnabled), events);
    RunKeepsConfig(Init(relayEnabled, webEnabled), events);
  }

  // ---------------------------------------------------------------------------
  // One loop iteration

  /** A failed grab changes nothing; a successful one counts exactly one frame. */
  lemma GrabBookkeeping(s: State, ok: bool)
    requires s.phase == Grabbing
    ensures !ok ==> Apply(s, Grab(ok)) == s
    ensures ok ==> Apply(s, Grab(ok)).frameCount == s.frameCount + 1
    ensures ok ==> Apply(s, Grab(ok)).(frameCount := s.frameCount, phase := s.phase) == s
  {
  }

  /** A cycle with boxes counts one defect frame, appends one row per box in box order
      tagged with the current frame, and stops the machine, calling the relay only
      when it was not already stopped. */
  lemma DefectCycle(s: State, dets: seq<Detection>, fps: real)
    requires s.phase == Inferring && |dets| > 0
    ensures var r := Cycle(s, dets, fps);
      && r.defectFrameCount == s.defectFrameCount + 1
      && r.frameCount == s.frameCount
      && |r.defectLog| == |s.defectLog| + |dets|
      && r.defectLog[..|s.defectLog|] == s.defectLog
      && (forall i :: 0 <= i < |dets| ==>
            r.defectLog[|s.defectLog| + i] == Entry(s.frameCount, dets[i].className, dets[i].confidence, dets[i].bbox))
      && r.paused
      && (!s.paused ==> !r.eventSet && r.pinHigh == (s.relayEnabled || s.pinHigh))
      && (s.paused ==> r.eventSet == s.eventSet && r.pinHigh == s.pinHigh)
  {
    var r := Cycle(s, dets, fps);
    assert r.defectLog == s.defectLog + LogEntries(s.frameCount, dets);
  }

  /** A cycle without boxes touches neither the defect count, nor the log, nor the relay. */
  lemma CleanCycle(s: State, fps: real)
    requires s.phase == Inferring
    ensures var r := Cycle(s, [], fps);
      && r.defectFrameCount == s.defectFrameCount
      && r.defectLog == s.defectLog
      && r.frameCount == s.frameCount
      && r.paused == s.paused && r.eventSet == s.eventSet && r.pinHigh == s.pinHigh
  {
  }

  /** A cycle that finds the machine stopped blocks and skips the rest of the iteration:
      no FPS sample, and of `live_stats` only the paused flag is written. Only a resume
      request releases it (or shutdown ends the loop). */
  lemma PausedCycleSkipsPublication(s: State, dets: seq<Detection>, fps: real)
    requires Inv(s) && s.phase == Inferring
    requires Cycle(s, dets, fps).paused
    ensures var r := Cycle(s, dets, fps);
      && r.phase == Waiting
      && r.fpsQueue == s.fpsQueue
      && r.stats == if s.webEnabled then s.stats.(machinePaused := true) else s.stats
  {
  }

  /** While the loop waits, no grab, cycle or stop request moves it; a resume request,
      which only the web server can send, returns it to the top of the loop with the
      machine running. */
  lemma WaitingOnlyResumeLeaves(s: State, e: Event)
    requires Inv(s) && s.phase == Waiting
    ensures !e.ResumeRequest? && !e.Shutdown? ==> Apply(s, e).phase == Waiting
    ensures e.ResumeRequest? && s.webEnabled ==>
              Apply(s, e).phase == Grabbing && !Apply(s, e).paused && Apply(s, e).eventSet
    ensures e.ResumeRequest? && !s.webEnabled ==> Apply(s, e) == s
  {
  }

  /** Without the web server nothing sends a resume, so once the loop blocks at the
      pause, every sequence of events without shutdown leaves the state as it is. */
  lemma {:induction false} WaitingWithoutWebHolds(s: State, events: seq<Event>)
    requires s.phase == Waiting && !s.webEnabled
    requires forall i :: 0 <= i < |events| ==> !events[i].Shutdown?
    ensures Run(s, events) == s
    decreases |events|
  {
    if events != [] {
      assert Apply(s, events[0]) == s;
      WaitingWithoutWebHolds(s, events[1..]);
    }
  }

  /** A cycle that goes on running appends its sample to the FPS window and, with the
      web page enabled, publishes counters that agree with the loop's own. */
  lemma PublishedCycleStats(s: State, dets: seq<Detection>, fps: real)
    requires Inv(s) && s.phase == Inferring && s.webEnabled
    requires !Cycle(s, dets, fps).paused
    ensures var r := Cycle(s, dets, fps);
      && r.phase == Grabbing
      && r.stats.totalDefects == |r.defectLog|
      && r.stats.defectFramesSaved == r.defectFrameCount
      && r.stats.frameCount == r.frameCount
      && r.stats.currentDefects == |dets|
      && !r.stats.machinePaused
      && r.defectFrameCount <= r.frameCount
      && r.fpsQueue == FpsWindow.Append(s.fpsQueue, fps)
  {
    CyclePreservesInv(s, dets, fps);
  }

  // ---------------------------------------------------------------------------
  // Scenarios

  lemma RunTwo(s: State, e1: Event, e2: Event)
    ensures Run(s, [e1, e2]) == Apply(Apply(s, e1), e2)
  {
    var s2 := Apply(Apply(s, e1), e2);
    assert [e1, e2][1..] == [e2];
    assert Run(s2, []) == s2;
    assert Run(Apply(s, e1), [e2]) == Run(s2, []);
  }

  lemma RunThree(s: State, e1: Event, e2: Event, e3: Event)
    ensures Run(s, [e1, e2, e3]) == Apply(Apply(Apply(s, e1), e2), e3)
  {
    assert [e1, e2, e3][1..] == [e2, e3];
    RunTwo(Apply(s, e1), e2, e3);
  }

  /** A manual stop between cycles: the next grab is counted, a frame without
      boxes is still held at the pause, and nothing is published. */
  lemma ManualStopHoldsNextCycle(s: State, fps: real)
    requires Inv(s) && s.phase == Grabbing && !s.paused && s.webEnabled
    ensures var r := Run(s, [StopRequest, Grab(true), Detect([], fps)]);
      && r.phase == Waiting
      && r.frameCount == s.frameCount + 1
      && r.defectLog == s.defectLog && r.defectFrameCount == s.defectFrameCount
      && r.fpsQueue == s.fpsQueue
  {
    var s1 := Apply(s, StopRequest);
    var s2 := Apply(s1, Grab(true));
    var s3 := Apply(s2, Detect([], fps));
    RunThree(s, StopRequest, Grab(true), Detect([], fps));
  }

  /** A frame with two boxes adds two rows, one saved frame, and stops the machine. */
  lemma TwoBoxFrame(fps: real, b1: BBox, b2: BBox)
    ensures var s := Run(Init(true, true), [Grab(true), Detect([Detection("hole", 0.81, b1), Detection("stain", 0.65, b2)], fps)]);
      && |s.defectLog| == 2
      && s.defectLog[0] == Entry(1, "hole", 0.81, b1)
      && s.defectLog[1] == Entry(1, "stain", 0.65, b2)
      && s.defectFrameCount == 1
      && s.paused && s.pinHigh && s.phase == Waiting
  {
    var dets := [Detection("hole", 0.81, b1), Detection("stain", 0.65, b2)];
    var s0 := Init(true, true);
    var s1 := Apply(s0, Grab(true));
    var s2 := Apply(s1, Detect(dets, fps));
    RunTwo(s0, Grab(true), Detect(dets, fps));
    DefectCycle(s1, dets, fps);
  }

  /** Grab-and-detect pairs with no boxes, one per FPS sample. */
  function CleanFrames(samples: seq<real>): (events: seq<Event>)
    ensures |events| == 2 * |samples|
  {
    if samples == [] then [] else [Grab(true), Detect([], samples[0])] + CleanFrames(samples[1..])
  }

  lemma {:induction false} RunAppend(s: State, a: seq<Event>, b: seq<Event>)
    ensures Run(s, a + b) == Run(Run(s, a), b)
    decreases |a|
  {
    if a == [] {
      assert a + b == b;
    } else {
      assert (a + b)[0] == a[0];
      assert (a + b)[1..] == a[1..] + b;
      RunAppend(Apply(s, a[0]), a[1..], b);
    }
  }

  /** One grab-and-detect pair without boxes, with the machine running. */
  lemma CleanFrame(s: State, x: real)
    requires Inv(s) && s.phase == Grabbing && !s.paused
    ensures var r := Run(s, [Grab(true), Detect([], x)]);
      && Inv(r) && r.phase == Grabbing && !r.paused && r.pinHigh == s.pinHigh
      && r.frameCount == s.frameCount + 1
      && r.defectFrameCount == s.defectFrameCount
      && r.defectLog == s.defectLog
      && r.fpsQueue == FpsWindow.Append(s.fpsQueue, x)
  {
    var s1 := Apply(s, Grab(true));
    RunTwo(s, Grab(true), Detect([], x));
    ApplyPreservesInv(s, Grab(true));
    ApplyPreservesInv(s1, Detect([], x));
  }

  /** Frames without defects, with the machine running: frames are counted, the
      defect totals and the relay stay as they were, the machine keeps running, and
      the FPS window holds the most recent samples. */
  lemma {:induction false} CleanFramesKeepRunning(s: State, samples: seq<real>, h: seq<real>)
    requires Inv(s) && s.phase == Grabbing && !s.paused
    requires s.fpsQueue == FpsWindow.Recent(h)
    ensures var r := Run(s, CleanFrames(samples));
      && r.phase == Grabbing && !r.paused && r.pinHigh == s.pinHigh
      && r.frameCount == s.frameCount + |samples|
      && r.defectFrameCount == s.defectFrameCount
      && r.defectLog == s.defectLog
      && r.fpsQueue == FpsWindow.Recent(h + samples)
    decreases |samples|
  {
    if samples == [] {
      assert h + samples == h;
    } else {
      var pair := [Grab(true), Detect([], samples[0])];
      var s2 := Run(s, pair);
      assert CleanFrames(samples) == pair + CleanFrames(samples[1..]);
      RunAppend(s, pair, CleanFrames(samples[1..]));
      CleanFrame(s, samples[0]);
      FpsWindow.AppendKeepsRecent(h, samples[0]);
      CleanFramesKeepRunning(s2, samples[1..], h + [samples[0]]);
      assert h + [samples[0]] + samples[1..] == h + samples;
    }
  }
}
