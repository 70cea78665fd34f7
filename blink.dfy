/**
 * The blink pattern generator of `blink(high_ms, low_ms)`, stated as a pure
 * catch-up: from a stored deadline and phase, every deadline that `now` has
 * strictly passed toggles the phase once and pushes the deadline on by the
 * duration of the phase just entered. The class `MainLoop.Firmware` runs the
 * same steps in place and is proved equal to `CatchUp`.
 */
module Blink {
  import opened Millis

  /** Logic level written to the red LED pin. */
  datatype Level = Low | High

  /** The red LED (pin 33) is active-low: the lit phase drives LOW. */
  function LedLevel(state: bool): (level: Level)
    ensures level == Low <==> state
  {
    if state then Low else High
  }

  /** Duration of the phase that has just been entered. */
  function PhaseDuration(state: bool, highMs: U32, lowMs: U32): U32
  {
    if state then highMs else lowMs
  }

  /**
   * What the catch-up loop needs to terminate: it must advance at least every
   * second step, and no single step may jump a deadline out of the signed window.
   * The source states nothing about this; every caller passes constants meeting it.
   */
  predicate ValidPattern(highMs: U32, lowMs: U32)
  {
    highMs + lowMs > 0 && highMs < HALF && lowMs < HALF
  }

  /** One toggle: the deadline that had passed and the phase it switched to. */
  datatype Toggle = Toggle(deadline: U32, state: bool)

  datatype CatchUpResult = CatchUpResult(next: U32, state: bool, toggles: seq<Toggle>)

  /** How far the deadline lies behind now, or 0 when it is not past. */
  function Lag(nowMs: U32, next: U32): nat
  {
    if IsPast(nowMs, next) then Sub(nowMs, next) else 0
  }

  /** Termination measure of the catch-up: the lag, then whether the next step is empty. */
  function EmptyStepAhead(state: bool, highMs: U32, lowMs: U32): nat
  {
    if PhaseDuration(!state, highMs, lowMs) == 0 then 1 else 0
  }

  /**
   * The catch-up of `blink`: toggle and advance while the deadline is past.
   * On return the deadline is no longer in the past, and a call whose deadline
   * is not past changes nothing.
   */
  function CatchUp(next: U32, state: bool, nowMs: U32, highMs: U32, lowMs: U32): (r: CatchUpResult)
    requires ValidPattern(highMs, lowMs)
    ensures !IsPast(nowMs, r.next)
    ensures !IsPast(nowMs, next) ==> r == CatchUpResult(next, state, [])
    decreases Lag(nowMs, next), EmptyStepAhead(state, highMs, lowMs)
  {
    if !IsPast(nowMs, next) then CatchUpResult(next, state, [])
    else
      var entered := !state;
      var step := PhaseDuration(entered, highMs, lowMs);
      AdvancePastDeadline(nowMs, next, step);
      var rest := CatchUp(Add(next, step), entered, nowMs, highMs, lowMs);
      CatchUpResult(rest.next, rest.state, [Toggle(next, entered)] + rest.toggles)
  }

  /** The levels written to the LED, one per toggle. */
  function Levels(toggles: seq<Toggle>): (levels: seq<Level>)
    ensures |levels| == |toggles|
  {
    if toggles == [] then [] else Levels(toggles[..|toggles| - 1]) + [LedLevel(toggles[|toggles| - 1].state)]
  }

  /**
   * One step of the catch-up performed in place keeps the final result in
   * reach: if `done` followed by the catch-up from (next, state) is the whole
   * trace, so is `done` plus the toggle just made followed by the catch-up
   * from the advanced deadline. The termination measure decreases.
   */
  lemma CatchUpResume(next: U32, state: bool, nowMs: U32, highMs: U32, lowMs: U32,
                      done: seq<Toggle>, goal: CatchUpResult)
    requires ValidPattern(highMs, lowMs)
    requires IsPast(nowMs, next)
    requires var r := CatchUp(next, state, nowMs, highMs, lowMs);
      r.next == goal.next && r.state == goal.state && done + r.toggles == goal.toggles
    ensures var after := Add(next, PhaseDuration(!state, highMs, lowMs));
      var r := CatchUp(after, !state, nowMs, highMs, lowMs);
      && r.next == goal.next && r.state == goal.state
      && (done + [Toggle(next, !state)]) + r.toggles == goal.toggles
      && Lag(nowMs, after) <= Lag(nowMs, next)
      && (Lag(nowMs, after) == Lag(nowMs, next) ==>
            EmptyStepAhead(!state, highMs, lowMs) < EmptyStepAhead(state, highMs, lowMs))
  {
    var after := Add(next, PhaseDuration(!state, highMs, lowMs));
    AdvancePastDeadline(nowMs, next, PhaseDuration(!state, highMs, lowMs));
    var rest := CatchUp(after, !state, nowMs, highMs, lowMs);
    assert CatchUp(next, state, nowMs, highMs, lowMs).toggles == [Toggle(next, !state)] + rest.toggles;
    assert (done + [Toggle(next, !state)]) + rest.toggles == done + ([Toggle(next, !state)] + rest.toggles);
  }

  /** The i-th level written is the active-low level of the i-th phase entered. */
  lemma {:induction false} LevelsAt(toggles: seq<Toggle>, i: nat)
    requires i < |toggles|
    ensures Levels(toggles)[i] == LedLevel(toggles[i].state)
  {
    if i < |toggles| - 1 {
      LevelsAt(toggles[..|toggles| - 1], i);
    }
  }

  /** Writing the level of one more toggle after those already written. */
  lemma LevelsSnoc(written: seq<Level>, toggles: seq<Toggle>, t: Toggle)
    ensures written + Levels(toggles + [t]) == (written + Levels(toggles)) + [LedLevel(t.state)]
  {
    assert (toggles + [t])[..|toggles|] == toggles;
  }

  /** The trace of a catch-up is a chain of passed deadlines with alternating phases. */
  ghost predicate IsChain(next: U32, state: bool, nowMs: U32, highMs: U32, lowMs: U32, toggles: seq<Toggle>)
  {
    && (toggles != [] ==> toggles[0].deadline == next)
    && (forall i :: 0 <= i < |toggles| ==> IsPast(nowMs, toggles[i].deadline))
    && (forall i :: 0 <= i < |toggles| ==> toggles[i].state == (if i % 2 == 0 then !state else state))
    && (forall i :: 0 <= i < |toggles| - 1 ==>
          toggles[i + 1].deadline == Add(toggles[i].deadline, PhaseDuration(toggles[i].state, highMs, lowMs)))
  }

  /** Prepending a passed deadline to a chain from the deadline after it gives a chain. */
  lemma ChainCons(next: U32, state: bool, nowMs: U32, highMs: U32, lowMs: U32, rest: seq<Toggle>)
    requires IsPast(nowMs, next)
    requires IsChain(Add(next, PhaseDuration(!state, highMs, lowMs)), !state, nowMs, highMs, lowMs, rest)
    ensures IsChain(next, state, nowMs, highMs, lowMs, [Toggle(next, !state)] + rest)
  {
    var ts := [Toggle(next, !state)] + rest;
    forall i | 0 < i < |ts|
      ensures IsPast(nowMs, ts[i].deadline)
      ensures ts[i].state == (if i % 2 == 0 then !state else state)
    {
      assert ts[i] == rest[i - 1];
    }
    forall i | 0 < i < |ts| - 1
      ensures ts[i + 1].deadline == Add(ts[i].deadline, PhaseDuration(ts[i].state, highMs, lowMs))
    {
      assert ts[i] == rest[i - 1];
    }
  }

  /**
   * Catch-up completeness: every toggle is taken at a deadline that had passed,
   * starting from the stored one, each next deadline is the previous one plus
   * the duration of the phase entered, phases alternate, and the stored
   * deadline and phase afterwards are the ones following the last toggle.
   * Together with `!IsPast(nowMs, r.next)` no passed deadline is skipped.
   */
  lemma {:induction false} CatchUpTrace(next: U32, state: bool, nowMs: U32, highMs: U32, lowMs: U32)
    requires ValidPattern(highMs, lowMs)
    ensures var r := CatchUp(next, state, nowMs, highMs, lowMs);
      && IsChain(next, state, nowMs, highMs, lowMs, r.toggles)
      && r.state == (if |r.toggles| % 2 == 0 then state else !state)
      && r.next == (if r.toggles == [] then next
                    else var last := r.toggles[|r.toggles| - 1];
                         Add(last.deadline, PhaseDuration(last.state, highMs, lowMs)))
    decreases Lag(nowMs, next), EmptyStepAhead(state, highMs, lowMs)
  {
    if IsPast(nowMs, next) {
      var entered := !state;
      var step := PhaseDuration(entered, highMs, lowMs);
      AdvancePastDeadline(nowMs, next, step);
      var after := Add(next, step);
      CatchUpTrace(after, entered, nowMs, highMs, lowMs);
      var rest := CatchUp(after, entered, nowMs, highMs, lowMs);
      ChainCons(next, state, nowMs, highMs, lowMs, rest.toggles);
      var ts := [Toggle(next, entered)] + rest.toggles;
      assert CatchUp(next, state, nowMs, highMs, lowMs) == CatchUpResult(rest.next, rest.state, ts);
      if rest.toggles != [] {
        assert ts[|ts| - 1] == rest.toggles[|rest.toggles| - 1];
      }
    }
  }
}
