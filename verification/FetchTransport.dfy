/**
  The fetch-backed request object (web/src/htmx/fetch-transport.ts).

  `send` is cut at its two awaits; between the pieces, and before and after them, the program may
  abort the request and the timer may fire.  An `Input` is one such piece.  Handlers return normally.
 */
module FetchTransport {
  import opened Wrappers

  datatype ProgressEvent = LoadStart | Load | ErrorEvent | AbortEvent | TimeoutEvent | LoadEnd

  /** The events that have a handler of their own. */
  predicate IsOutcome(e: ProgressEvent) {
    e.Load? || e.ErrorEvent? || e.AbortEvent? || e.TimeoutEvent?
  }

  datatype Phase = Unsent | AwaitingResponse | AwaitingText | Settled

  /** `controller` is the abort controller and whether it has been aborted. */
  datatype Transport = Transport(
    phase: Phase, aborted: bool, timedOut: bool, controller: Option<bool>, timerArmed: bool,
    events: seq<ProgressEvent>)

  datatype Input =
    | Open
    | Abort
    | Send(timeout: int)
    | TimerFires
    | ResponseArrives
    | TextArrives
    /** Either promise is rejected: by the network or by the abort signal. */
    | Rejected

  const NEW_TRANSPORT := Transport(Unsent, false, false, None, false, [])

  function Signal(controller: Option<bool>): Option<bool> {
    if controller.Some? then Some(true) else None
  }

  predicate Enabled(t: Transport, i: Input) {
    match i
    case Open => t.phase.Unsent?
    case Abort => true
    case Send(_) => t.phase.Unsent?
    case TimerFires => t.timerArmed
    case ResponseArrives => t.phase.AwaitingResponse?
    case TextArrives => t.phase.AwaitingText?
    case Rejected => t.phase.AwaitingResponse? || t.phase.AwaitingText?
  }

  function Step(t: Transport, i: Input): Transport {
    match i
    case Open => t.(aborted := false, timedOut := false)
    case Abort => t.(aborted := true, controller := Signal(t.controller))
    case Send(timeout) =>
      t.(phase := AwaitingResponse, timedOut := false, controller := Some(false), timerArmed := timeout > 0,
         events := t.events + [LoadStart])
    case TimerFires => t.(aborted := true, timedOut := true, controller := Signal(t.controller), timerArmed := false)
    case ResponseArrives => t.(phase := AwaitingText)
    case TextArrives => t.(phase := Settled, timerArmed := false, events := t.events + [Load, LoadEnd])
    case Rejected =>
      t.(phase := Settled, timerArmed := false,
         events := t.events
                   + [if !t.aborted then ErrorEvent else if t.timedOut then TimeoutEvent else AbortEvent, LoadEnd])
  }

  /** The object, with one method for each piece. */
  class FetchBackedXMLHttpRequest {
    var phase: Phase
    var aborted: bool
    var timedOut: bool
    var controller: Option<bool>
    var timerArmed: bool
    var timeout: int
    /** The progress events dispatched so far. */
    var events: seq<ProgressEvent>

    function State(): Transport
      reads this
    {
      Transport(phase, aborted, timedOut, controller, timerArmed, events)
    }

    constructor ()
      ensures State() == NEW_TRANSPORT && timeout == 0
    {
      phase, aborted, timedOut, controller, timerArmed, timeout, events := Unsent, false, false, None, false, 0, [];
    }

    method Open()
      modifies this
      ensures State() == Step(old(State()), Input.Open) && timeout == old(timeout)
    {
      aborted := false;
      timedOut := false;
    }

    method Abort()
      modifies this
      ensures State() == Step(old(State()), Input.Abort) && timeout == old(timeout)
    {
      aborted := true;
      AbortController();
    }

    method AbortController()
      modifies `controller
      ensures controller == Signal(old(controller))
    {
      if controller.Some? {
        controller := Some(true);
      }
    }

    method DispatchProgress(event: ProgressEvent)
      modifies `events
      ensures events == old(events) + [event]
    {
      events := events + [event];
    }

    /** `send` up to its first await. */
    method Send()
      modifies this
      ensures State() == Step(old(State()), Input.Send(timeout)) && timeout == old(timeout)
    {
      controller := Some(false);
      timedOut := false;
      timerArmed := timeout > 0;
      DispatchProgress(LoadStart);
      phase := AwaitingResponse;
    }

    method OnTimer()
      modifies this
      ensures State() == Step(old(State()), TimerFires) && timeout == old(timeout)
    {
      timerArmed := false;
      aborted := true;
      timedOut := true;
      AbortController();
    }

    method OnResponse()
      modifies this
      ensures State() == Step(old(State()), ResponseArrives) && timeout == old(timeout)
    {
      phase := AwaitingText;
    }

    /** The rest of `send` when the body has been read. */
    method OnText()
      modifies this
      ensures State() == Step(old(State()), TextArrives) && timeout == old(timeout)
    {
      DispatchProgress(Load);
      DispatchProgress(LoadEnd);
      phase := Settled;
      timerArmed := false;
    }

    /** The rest of `send` when an awaited promise is rejected. */
    method OnRejected()
      modifies this
      ensures State() == Step(old(State()), Rejected) && timeout == old(timeout)
    {
      phase := Settled;
      if aborted {
        timerArmed := false;
        if timedOut {
          DispatchProgress(TimeoutEvent);
        } else {
          DispatchProgress(AbortEvent);
        }
        DispatchProgress(LoadEnd);
        return;
      }
      DispatchProgress(ErrorEvent);
      DispatchProgress(LoadEnd);
      timerArmed := false;
    }
  }

  // ---- Whole runs ----

  function Run(inputs: seq<Input>): Transport {
    if inputs == [] then NEW_TRANSPORT else Step(Run(inputs[..|inputs| - 1]), inputs[|inputs| - 1])
  }

  predicate Possible(inputs: seq<Input>) {
    inputs != [] ==>
      Possible(inputs[..|inputs| - 1]) && Enabled(Run(inputs[..|inputs| - 1]), inputs[|inputs| - 1])
  }

  /** Whether the program asked for an abort after the last `open`. */
  predicate AbortRequested(inputs: seq<Input>) {
    inputs != [] &&
    match inputs[|inputs| - 1]
    case Abort => true
    case Open => false
    case _ => AbortRequested(inputs[..|inputs| - 1])
  }

  predicate Sent(inputs: seq<Input>) {
    exists i :: 0 <= i < |inputs| && inputs[i].Send?
  }

  /** The outcome a run should report: that of the input that settles it, in the light of those before. */
  function Outcome(inputs: seq<Input>): Option<ProgressEvent> {
    if inputs == [] then None
    else
      var before := inputs[..|inputs| - 1];
      match inputs[|inputs| - 1]
      case TextArrives => Some(Load)
      case Rejected =>
        Some(if TimerFires in before then TimeoutEvent else if AbortRequested(before) then AbortEvent else ErrorEvent)
      case _ => Outcome(before)
  }

  lemma LastInput(inputs: seq<Input>)
    requires inputs != []
    ensures var before, last := inputs[..|inputs| - 1], inputs[|inputs| - 1];
            && (TimerFires in inputs <==> TimerFires in before || last == TimerFires)
            && (Sent(inputs) <==> Sent(before) || last.Send?)
  {
    var before, last := inputs[..|inputs| - 1], inputs[|inputs| - 1];
    assert inputs == before + [last];
    if Sent(before) {
      var i :| 0 <= i < |before| && before[i].Send?;
      assert inputs[i].Send?;
    }
    if last.Send? {
      assert inputs[|inputs| - 1].Send?;
    }
  }

  lemma {:induction false} FlagsOfRun(inputs: seq<Input>)
    requires Possible(inputs)
    ensures Run(inputs).phase.Unsent? <==> !Sent(inputs)
    ensures Run(inputs).timedOut <==> TimerFires in inputs
    ensures Run(inputs).aborted <==> TimerFires in inputs || AbortRequested(inputs)
    ensures Run(inputs).timerArmed ==> Run(inputs).phase.AwaitingResponse? || Run(inputs).phase.AwaitingText?
    ensures Run(inputs).phase.Unsent? ==> TimerFires !in inputs
  {
    if inputs != [] {
      LastInput(inputs);
      FlagsOfRun(inputs[..|inputs| - 1]);
    }
  }

  /**
    The protocol: nothing before `send`; then one loadstart; then, once settled, exactly one outcome
    followed by exactly one loadend and nothing more.  The outcome is load exactly when the body was
    read, timeout exactly when the timer fired before the rejection, abort exactly when only the
    program asked for it, and error otherwise.
   */
  lemma {:induction false} Protocol(inputs: seq<Input>)
    requires Possible(inputs)
    ensures Run(inputs).events ==
              if !Sent(inputs) then []
              else if Outcome(inputs).None? then [LoadStart]
              else [LoadStart, Outcome(inputs).value, LoadEnd]
    ensures Run(inputs).phase.Settled? <==> Outcome(inputs).Some?
    ensures Outcome(inputs).Some? ==> Sent(inputs) && IsOutcome(Outcome(inputs).value)
  {
    if inputs != [] {
      LastInput(inputs);
      FlagsOfRun(inputs[..|inputs| - 1]);
      Protocol(inputs[..|inputs| - 1]);
    }
  }

  /** The program or the timer has asked for an abort after `send`. */
  predicate StoppedSinceSend(inputs: seq<Input>) {
    exists i, j :: 0 <= i < j < |inputs| && inputs[i].Send? && Stops(inputs[j])
  }

  predicate Stops(i: Input) {
    i.Abort? || i.TimerFires?
  }

  predicate SentWithTimeout(inputs: seq<Input>) {
    exists i :: 0 <= i < |inputs| && inputs[i].Send? && inputs[i].timeout > 0
  }

  lemma LastStops(inputs: seq<Input>)
    requires inputs != []
    ensures var before, last := inputs[..|inputs| - 1], inputs[|inputs| - 1];
            && (StoppedSinceSend(inputs) <==> StoppedSinceSend(before) || (Sent(before) && Stops(last)))
            && (SentWithTimeout(inputs) <==> SentWithTimeout(before) || (last.Send? && last.timeout > 0))
            && (StoppedSinceSend(before) ==> Sent(before))
  {
    var before, last := inputs[..|inputs| - 1], inputs[|inputs| - 1];
    if StoppedSinceSend(before) {
      var i, j :| 0 <= i < j < |before| && before[i].Send? && Stops(before[j]);
      assert inputs[i].Send? && Stops(inputs[j]);
    }
    if Sent(before) && Stops(last) {
      var i :| 0 <= i < |before| && before[i].Send?;
      assert inputs[i].Send? && Stops(inputs[|inputs| - 1]);
    }
    if StoppedSinceSend(inputs) {
      var i, j :| 0 <= i < j < |inputs| && inputs[i].Send? && Stops(inputs[j]);
      assert before[i].Send? && (j < |before| ==> Stops(before[j]));
    }
    if SentWithTimeout(before) {
      var i :| 0 <= i < |before| && before[i].Send? && before[i].timeout > 0;
      assert inputs[i].Send? && inputs[i].timeout > 0;
    }
    if last.Send? && last.timeout > 0 {
      assert inputs[|inputs| - 1].Send?;
    }
  }

  /**
    The request on the wire is cancelled exactly when the program or the timer asks for it after `send`; the
    timer is armed exactly while a request sent with a positive timeout is in flight and it has not fired.
   */
  lemma {:induction false} CancelledExactly(inputs: seq<Input>)
    requires Possible(inputs)
    ensures var t := Run(inputs);
            && t.controller == (if !Sent(inputs) then None else Some(StoppedSinceSend(inputs)))
            && (t.timerArmed <==> SentWithTimeout(inputs) && TimerFires !in inputs && Outcome(inputs).None?)
  {
    if inputs != [] {
      var before := inputs[..|inputs| - 1];
      LastInput(inputs);
      LastStops(inputs);
      FlagsOfRun(before);
      Protocol(before);
      CancelledExactly(before);
    }
  }
}
