/** The module-level globals of the detection script as one object: the pause flags and
    relay pin that `activate_relay`/`deactivate_relay` change, and the counters, log,
    FPS deque and `live_stats` dictionary the main loop updates in place. Each method is
    proved to move the object as the matching function of module Inspection says. */
module ControllerLoop {
  import FpsWindow
  import opened Inspection

  class Controller {
    const relayEnabled: bool        // RELAY_ENABLED and GPIO
    const webEnabled: bool          // ENABLE_WEB
    var phase: Phase
    var paused: bool                // machine_paused
    var eventSet: bool              // pause_event is set
    var pinHigh: bool               // level on RELAY_PIN
    var frameCount: nat
    var defectFrameCount: nat
    var defectLog: seq<Entry>
    var fpsQueue: FpsWindow.Window<real>
    var stats: LiveStats            // live_stats
    ghost var fpsHistory: seq<real> // every sample ever appended to fps_queue

    ghost function Model(): State
      reads this
    {
      State(relayEnabled, webEnabled, phase, paused, eventSet, pinHigh,
            frameCount, defectFrameCount, defectLog, fpsQueue, stats)
    }

    ghost predicate Valid()
      reads this
    {
      Inv(Model()) && fpsQueue == FpsWindow.Recent(fpsHistory)
    }

    /** Module start-up: running state, event set, pin LOW, empty log and deque. */
    constructor (relayEnabled: bool, webEnabled: bool)
      ensures Valid()
      ensures Model() == Init(relayEnabled, webEnabled) && fpsHistory == []
    {
      this.relayEnabled := relayEnabled;
      this.webEnabled := webEnabled;
      phase := Grabbing;
      paused := false;
      eventSet := true;
      pinHigh := false;
      frameCount := 0;
      defectFrameCount := 0;
      defectLog := [];
      fpsQueue := [];
      stats := LiveStats(0, 0, 0, 0, false, relayEnabled);
      fpsHistory := [];
    }

    /** `activate_relay`. */
    method ActivateRelay()
      modifies this
      ensures Model() == Activate(old(Model())) && fpsHistory == old(fpsHistory)
    {
      if relayEnabled {
        pinHigh := true;
      }
      paused := true;
      eventSet := false;
    }

    /** `deactivate_relay`. */
    method DeactivateRelay()
      modifies this
      ensures Model() == Deactivate(old(Model())) && fpsHistory == old(fpsHistory)
    {
      if relayEnabled {
        pinHigh := false;
      }
      paused := false;
      eventSet := true;
    }

    /** POST /api/stop; the route exists only when the web server was started. */
    method Stop()
      requires Valid() && webEnabled && phase != Finished
      modifies this
      ensures Valid()
      ensures Model() == Apply(old(Model()), StopRequest) && fpsHistory == old(fpsHistory)
      ensures paused && !eventSet && (relayEnabled ==> pinHigh)
    {
      ApplyPreservesInv(Model(), StopRequest);
      ActivateRelay();
    }

    /** POST /api/resume, served only with the web server on; a loop blocked in `pause_event.wait()` goes on to the next grab. */
    method Resume()
      requires Valid() && webEnabled && phase != Finished
      modifies this
      ensures Valid()
      ensures Model() == Apply(old(Model()), ResumeRequest) && fpsHistory == old(fpsHistory)
      ensures !paused && eventSet && !pinHigh && phase != Waiting
    {
      ApplyPreservesInv(Model(), ResumeRequest);
      DeactivateRelay();
      if phase == Waiting {
        phase := Grabbing;
      }
    }

    /** `MV_CC_GetImageBuffer` at the top of the loop: on a non-zero status the
        iteration is skipped; otherwise the frame is counted. */
    method Acquire(ok: bool)
      requires Valid() && phase == Grabbing
      modifies this
      ensures Valid()
      ensures Model() == Apply(old(Model()), Grab(ok)) && fpsHistory == old(fpsHistory)
      ensures !ok ==> Model() == old(Model())
      ensures ok ==> frameCount == old(frameCount) + 1 && phase == Inferring
    {
      ApplyPreservesInv(Model(), Grab(ok));
      if !ok {
        return;
      }
      frameCount := frameCount + 1;
      phase := Inferring;
    }

    /** The `for box in boxes` loop: one `defect_log` row per box, in box order. */
    method LogBoxes(detections: seq<Detection>)
      modifies this`defectLog
      ensures defectLog == old(defectLog) + LogEntries(frameCount, detections)
    {
      var i := 0;
      while i < |detections|
        invariant 0 <= i <= |detections|
        invariant defectLog == old(defectLog) + LogEntries(frameCount, detections[..i])
      {
        var box := detections[i];
        assert detections[..i + 1] == detections[..i] + [box];
        defectLog := defectLog + [Entry(frameCount, box.className, box.confidence, box.bbox)];
        i := i + 1;
      }
      assert detections[..i] == detections;
    }

    /** The rest of the iteration: log the boxes, stop the machine on a defect, then
        either block at the pause or append the FPS sample and publish the stats. */
    method Cycle(detections: seq<Detection>, fps: real)
      requires Valid() && phase == Inferring
      modifies this
      ensures Valid()
      ensures Model() == Inspection.Cycle(old(Model()), detections, fps)
      ensures fpsHistory == if paused then old(fpsHistory) else old(fpsHistory) + [fps]
    {
      ghost var s0 := Model();
      var defectCount := |detections|;
      if defectCount > 0 {
        defectFrameCount := defectFrameCount + 1;
        LogBoxes(detections);
        if !paused {
          ActivateRelay();
        }
      }
      assert Model() == RecordDefects(s0, detections);
      if paused {
        if webEnabled {
          stats := stats.(machinePaused := true);
        }
        // pause_event.wait(): blocks until a resume request sets the event
        phase := if eventSet then Grabbing else Waiting;
      } else {
        FpsWindow.AppendKeepsRecent(fpsHistory, fps);
        fpsQueue := FpsWindow.Append(fpsQueue, fps);
        fpsHistory := fpsHistory + [fps];
        if webEnabled {
          stats := LiveStats(frameCount, defectCount, |defectLog|, defectFrameCount, paused, relayEnabled);
        }
        phase := Grabbing;
      }
      CyclePreservesInv(s0, detections, fps);
    }

    /** The cleanup block after the loop: the relay pin is forced LOW. */
    method Cleanup()
      requires Valid()
      modifies this
      ensures Valid()
      ensures Model() == Apply(old(Model()), Shutdown) && fpsHistory == old(fpsHistory)
      ensures !pinHigh && phase == Finished
    {
      ApplyPreservesInv(Model(), Shutdown);
      if relayEnabled {
        pinHigh := false;
      }
      phase := Finished;
    }
  }
}
