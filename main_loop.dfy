/**
 * The cooperative main loop of the firmware: the static state of `blink` and
 * `loop`, one blink catch-up per pass, a 10 s liveness report and, while at
 * least one websocket client is connected, a 100 ms capture-and-broadcast
 * cycle guarded by a free-heap check that is made after the capture.
 *
 * `periodicTrigger` lives in a header that is not part of this model; it is
 * taken as a parameter mapping (now, stored deadline, period) to whether it
 * fired and the deadline it stores. Every `millis()` read of a pass, the
 * client count, the camera's capture result and the free heap are inputs.
 */
module MainLoop {
  import opened Millis
  import opened Blink

  const REPORT_PERIOD_MS: U32 := 10000
  const FRAME_PERIOD_MS: U32 := 100
  /** Free heap (bytes) that must be exceeded for `binaryAll` to be called. */
  const HEAP_THRESHOLD: nat := 60000
  const STREAM_WIDTH: nat := 640
  const STREAM_HEIGHT: nat := 480
  /** The pattern `loop` passes to `blink`: 50 ms lit, 950 ms dark. */
  const LOOP_HIGH_MS: U32 := 50
  const LOOP_LOW_MS: U32 := 950

  /** `periodicTrigger(&cell, period)` as a function of (now, cell, period). */
  type PeriodicTrigger = (U32, U32, U32) -> Fire

  datatype Frame = Frame(width: nat, height: nat, size: nat)

  /** What `esp32cam::capture()` returned: a null pointer or a frame. */
  datatype Captured = NoFrame | Got(frame: Frame)

  /** The environment of one pass of `loop`. */
  datatype PassInputs = PassInputs(
    blinkNowMs: U32,      // millis() inside blink
    reportNowMs: U32,     // clock seen by the report trigger
    logNowMs: U32,        // millis() read again by the report's log line
    frameNowMs: U32,      // clock seen by the frame trigger
    clientCount: nat,     // wsServer.count()
    captured: Captured,   // result of the capture, if one is made
    freeHeap: nat)        // ESP.getFreeHeap() sampled after the capture

  /** Observable actions of a pass, in order. */
  datatype Action =
    | ReportAlive(atMs: U32)
    | ChangeResolution(width: nat, height: nat)
    | Capture
    | BinaryAll(bytes: nat)
    | WarnCaptureFailed

  /** The broadcast is admitted only for a real frame with strictly more than 60000 bytes free. */
  predicate Admitted(captured: Captured, freeHeap: nat)
  {
    captured.Got? && freeHeap > HEAP_THRESHOLD
  }

  /**
   * One frame cycle: set 640x480, capture, then either broadcast the frame to
   * all clients or warn. The capture is made before the heap is looked at.
   */
  function FrameCycle(captured: Captured, freeHeap: nat): (acts: seq<Action>)
    ensures |acts| == 3
    ensures acts[0] == ChangeResolution(STREAM_WIDTH, STREAM_HEIGHT) && acts[1] == Capture
    ensures acts[2].BinaryAll? <==> Admitted(captured, freeHeap)
    ensures acts[2].BinaryAll? ==> acts[2].bytes == captured.frame.size
    ensures !acts[2].BinaryAll? ==> acts[2] == WarnCaptureFailed
  {
    [ChangeResolution(STREAM_WIDTH, STREAM_HEIGHT), Capture]
      + if Admitted(captured, freeHeap) then [BinaryAll(captured.frame.size)] else [WarnCaptureFailed]
  }

  function Broadcasts(acts: seq<Action>): nat
  {
    if acts == [] then 0 else (if acts[0].BinaryAll? then 1 else 0) + Broadcasts(acts[1..])
  }

  /** A frame cycle broadcasts once when admitted and not at all otherwise. */
  lemma BroadcastsOfFrameCycle(captured: Captured, freeHeap: nat)
    ensures Broadcasts(FrameCycle(captured, freeHeap)) == if Admitted(captured, freeHeap) then 1 else 0
  {
    var acts := FrameCycle(captured, freeHeap);
    assert acts[1..][1..][1..] == [];
    assert acts[1..][1..][0] == acts[2];
    assert Broadcasts(acts[1..][1..]) == if acts[2].BinaryAll? then 1 else 0;
    assert Broadcasts(acts[1..]) == Broadcasts(acts[1..][1..]);
  }

  datatype PassOutcome = PassOutcome(nextReportMs: U32, nextFrameMs: U32, actions: seq<Action>)

  /**
   * The trigger part of one pass of `loop`, after `blink`: the report trigger
   * is always evaluated and its log line comes first; the frame trigger is
   * evaluated only while a client is connected, and when it fires the pass
   * ends with a whole frame cycle.
   */
  function TriggerPass(nextReportMs: U32, nextFrameMs: U32, inp: PassInputs, periodicTrigger: PeriodicTrigger): (r: PassOutcome)
    ensures var report := periodicTrigger(inp.reportNowMs, nextReportMs, REPORT_PERIOD_MS);
      && r.nextReportMs == report.next
      && (report.fired <==> |r.actions| > 0 && r.actions[0] == ReportAlive(inp.logNowMs))
    ensures inp.clientCount == 0 ==> r.nextFrameMs == nextFrameMs && Capture !in r.actions
    ensures inp.clientCount > 0 ==> r.nextFrameMs == periodicTrigger(inp.frameNowMs, nextFrameMs, FRAME_PERIOD_MS).next
    ensures Capture in r.actions <==>
      inp.clientCount > 0 && periodicTrigger(inp.frameNowMs, nextFrameMs, FRAME_PERIOD_MS).fired
    ensures var frame := periodicTrigger(inp.frameNowMs, nextFrameMs, FRAME_PERIOD_MS);
      if inp.clientCount > 0 && frame.fired then
        |r.actions| >= 3 && r.actions[|r.actions| - 3..] == FrameCycle(inp.captured, inp.freeHeap)
      else |r.actions| <= 1
    ensures var report := periodicTrigger(inp.reportNowMs, nextReportMs, REPORT_PERIOD_MS);
      var frame := periodicTrigger(inp.frameNowMs, nextFrameMs, FRAME_PERIOD_MS);
      |r.actions| == (if report.fired then 1 else 0) + (if inp.clientCount > 0 && frame.fired then 3 else 0)
    ensures Broadcasts(r.actions) > 0 <==>
      inp.clientCount > 0 && periodicTrigger(inp.frameNowMs, nextFrameMs, FRAME_PERIOD_MS).fired
      && Admitted(inp.captured, inp.freeHeap)
  {
    var report := periodicTrigger(inp.reportNowMs, nextReportMs, REPORT_PERIOD_MS);
    var frame := periodicTrigger(inp.frameNowMs, nextFrameMs, FRAME_PERIOD_MS);
    var reportActs := if report.fired then [ReportAlive(inp.logNowMs)] else [];
    var frameActs := if inp.clientCount > 0 && frame.fired then FrameCycle(inp.captured, inp.freeHeap) else [];
    assert Capture !in reportActs && Broadcasts(reportActs) == 0;
    BroadcastsOfFrameCycle(inp.captured, inp.freeHeap);
    ActionsConcat(reportActs, frameActs);
    PassOutcome(report.next, if inp.clientCount > 0 then frame.next else nextFrameMs, reportActs + frameActs)
  }

  /** The facts about a concatenation of actions that a pass relies on. */
  lemma ActionsConcat(a: seq<Action>, b: seq<Action>)
    ensures |a + b| == |a| + |b|
    ensures a != [] ==> (a + b)[0] == a[0]
    ensures a == [] ==> a + b == b
    ensures (a + b)[|a|..] == b
    ensures Capture in a + b <==> Capture in a || Capture in b
    ensures Broadcasts(a + b) == Broadcasts(a) + Broadcasts(b)
  {
    assert (a + b)[|a|..] == b;
    BroadcastsAppend(a, b);
  }

  lemma {:induction false} BroadcastsAppend(a: seq<Action>, b: seq<Action>)
    ensures Broadcasts(a + b) == Broadcasts(a) + Broadcasts(b)
  {
    if a == [] {
      assert a + b == b;
    } else {
      assert (a + b)[0] == a[0];
      assert (a + b)[1..] == a[1..] + b;
      BroadcastsAppend(a[1..], b);
    }
  }

  /** Many passes of the trigger part, accumulating every action. */
  function TriggerRun(nextReportMs: U32, nextFrameMs: U32, passes: seq<PassInputs>, periodicTrigger: PeriodicTrigger): PassOutcome
    decreases |passes|
  {
    if passes == [] then PassOutcome(nextReportMs, nextFrameMs, [])
    else
      var first := TriggerPass(nextReportMs, nextFrameMs, passes[0], periodicTrigger);
      var rest := TriggerRun(first.nextReportMs, first.nextFrameMs, passes[1..], periodicTrigger);
      PassOutcome(rest.nextReportMs, rest.nextFrameMs, first.actions + rest.actions)
  }

  /**
   * Whatever the trigger does and however long it runs, with no websocket
   * client connected the frame deadline never moves and no capture is made.
   */
  lemma {:induction false} NoClientsNoCapture(nextReportMs: U32, nextFrameMs: U32, passes: seq<PassInputs>, periodicTrigger: PeriodicTrigger)
    requires forall i :: 0 <= i < |passes| ==> passes[i].clientCount == 0
    ensures TriggerRun(nextReportMs, nextFrameMs, passes, periodicTrigger).nextFrameMs == nextFrameMs
    ensures Capture !in TriggerRun(nextReportMs, nextFrameMs, passes, periodicTrigger).actions
    decreases |passes|
  {
    if passes != [] {
      var first := TriggerPass(nextReportMs, nextFrameMs, passes[0], periodicTrigger);
      NoClientsNoCapture(first.nextReportMs, first.nextFrameMs, passes[1..], periodicTrigger);
    }
  }

  /** The static variables of `blink` and `loop`, and the history of the red LED pin. */
  class Firmware {
    var nextBlinkMs: U32
    var state: bool
    var redLed: seq<Level>
    var nextReportMs: U32
    var nextFrameMs: U32

    /** Static initialisers, and `setup` driving the LED pin LOW once. */
    constructor ()
      ensures nextBlinkMs == 0 && !state && redLed == [Low]
      ensures nextReportMs == 0 && nextFrameMs == 0
    {
      nextBlinkMs := 0;
      state := false;
      redLed := [Low];
      nextReportMs := 0;
      nextFrameMs := 0;
    }

    /** `blink(highMs, lowMs)` with `millis()` reading `nowMs`. */
    method Blink(highMs: U32, lowMs: U32, nowMs: U32)
      requires ValidPattern(highMs, lowMs)
      modifies this`nextBlinkMs, this`state, this`redLed
      ensures var r := CatchUp(old(nextBlinkMs), old(state), nowMs, highMs, lowMs);
        nextBlinkMs == r.next && state == r.state && redLed == old(redLed) + Levels(r.toggles)
    {
      ghost var goal := CatchUp(nextBlinkMs, state, nowMs, highMs, lowMs);
      ghost var done: seq<Toggle> := [];
      while ToInt32(Sub(nowMs, nextBlinkMs)) > 0
        invariant var r := CatchUp(nextBlinkMs, state, nowMs, highMs, lowMs);
          r.next == goal.next && r.state == goal.state && done + r.toggles == goal.toggles
        invariant redLed == old(redLed) + Levels(done)
        decreases Lag(nowMs, nextBlinkMs), EmptyStepAhead(state, highMs, lowMs)
      {
        ghost var toggled := Toggle(nextBlinkMs, !state);
        CatchUpResume(nextBlinkMs, state, nowMs, highMs, lowMs, done, goal);
        LevelsSnoc(old(redLed), done, toggled);
        state := !state;
        redLed := redLed + [LedLevel(state)];
        nextBlinkMs := Add(nextBlinkMs, if state then highMs else lowMs);
        done := done + [toggled];
      }
      assert done + [] == done;
    }

    /** The part of a pass of `loop` after `blink`: the report and frame triggers. */
    method Triggers(inp: PassInputs, periodicTrigger: PeriodicTrigger) returns (actions: seq<Action>)
      modifies this`nextReportMs, this`nextFrameMs
      ensures var p := TriggerPass(old(nextReportMs), old(nextFrameMs), inp, periodicTrigger);
        nextReportMs == p.nextReportMs && nextFrameMs == p.nextFrameMs && actions == p.actions
    {
      actions := [];
      var report := periodicTrigger(inp.reportNowMs, nextReportMs, REPORT_PERIOD_MS);
      nextReportMs := report.next;
      if report.fired {
        actions := actions + [ReportAlive(inp.logNowMs)];
      }
      ghost var reported := actions;
      ghost var cycled: seq<Action> := [];
      if inp.clientCount > 0 {
        var frame := periodicTrigger(inp.frameNowMs, nextFrameMs, FRAME_PERIOD_MS);
        nextFrameMs := frame.next;
        if frame.fired {
          var cycle := [ChangeResolution(STREAM_WIDTH, STREAM_HEIGHT), Capture];
          if inp.captured.Got? && inp.freeHeap > HEAP_THRESHOLD {
            cycle := cycle + [BinaryAll(inp.captured.frame.size)];
          } else {
            cycle := cycle + [WarnCaptureFailed];
          }
          actions := actions + cycle;
          cycled := cycle;
        }
      }
      assert actions == reported + cycled;
    }

    /** One pass of `loop`. */
    method Loop(inp: PassInputs, periodicTrigger: PeriodicTrigger) returns (actions: seq<Action>)
      modifies this
      ensures var r := CatchUp(old(nextBlinkMs), old(state), inp.blinkNowMs, LOOP_HIGH_MS, LOOP_LOW_MS);
        nextBlinkMs == r.next && state == r.state && redLed == old(redLed) + Levels(r.toggles)
      ensures var p := TriggerPass(old(nextReportMs), old(nextFrameMs), inp, periodicTrigger);
        nextReportMs == p.nextReportMs && nextFrameMs == p.nextFrameMs && actions == p.actions
    {
      Blink(LOOP_HIGH_MS, LOOP_LOW_MS, inp.blinkNowMs);
      actions := Triggers(inp, periodicTrigger);
    }
  }
}
