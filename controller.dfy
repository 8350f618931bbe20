/**
  The control loop of main.cpp: the StateContainer and the interrupt-set
  press flag as the fields of a Controller object, the outputs it writes as a
  ghost log, and one `loop()` iteration as a method proved against a pure
  one-tick function `Tick`. Hardware reads are the tick's inputs; power-off
  and the blink-to-death fallback are terminal statuses.
 */
module Controller {
  import opened Types
  import opened Wrappers
  import opened Events
  import opened StateMachine
  import Battery

  /** Whether the device is still looping, powered off, or blinking forever. */
  datatype Status = Running | PoweredOff | BlinkingToDeath

  /** What the entry-action switch leaves the CPU doing after this tick. */
  datatype Action = PowerOff | WaitForEvent | Proceed | Halt

  /** The hardware readings one loop() iteration takes: one millis() value for the whole tick. */
  datatype Inputs = Inputs(now: uint32, buttonLevelHigh: bool, connected: bool, adcSample: uint16)

  /** The abstract state of the controller. */
  datatype Device = Device(sc: StateContainer, buttonPressFlag: bool, status: Status, log: seq<Output>)

  /** After setup: a zero-initialised StateContainer whose state is set to Off. */
  function Initial(): (r: Device)
    ensures r.sc.state == Off && r.sc.stateEnteredMs == 0
    ensures r.status == Running && !r.buttonPressFlag
    ensures LastButton(r.log) == 0 && !LedLit(r.log)
  {
    Device(ZeroStateContainer().(state := Off), false, Running, [])
  }

  /** The entry actions' writes: on entering Transmit publish "pressed", and keep the LED lit every tick there. */
  function EntryEffects(oldState: StateEnum, newState: StateEnum): (r: seq<Output>)
    ensures r != [] <==> newState == Transmit
    ensures ButtonChar(1) in r <==> newState == Transmit && oldState != Transmit
    ensures r != [] ==> r[|r| - 1] == Led(true)
  {
    if newState == Transmit then (if oldState != newState then [ButtonChar(1)] else []) + [Led(true)]
    else []
  }

  /** Every write of one tick, in order: the transition's own, then the entry action's. */
  function TickOutputs(oldState: StateEnum, newState: StateEnum, battery: uint8): seq<Output>
  {
    TransitionEffects(oldState, newState, battery) + EntryEffects(oldState, newState)
  }

  /** Which writes a tick can make, and on which edges. */
  lemma TickOutputsMeaning(oldState: StateEnum, newState: StateEnum, battery: uint8)
    ensures var out := TickOutputs(oldState, newState, battery);
      (ButtonChar(1) in out <==> newState == Transmit && oldState != Transmit) &&
      (ButtonChar(0) in out <==> oldState == EnsureUp && newState == Sleep) &&
      (BatteryChar(battery as int) in out <==> oldState == EnsureUp && newState == Sleep) &&
      (Led(false) in out <==> oldState == Transmit && newState == EnsureUp) &&
      (Led(true) in out <==> newState == Transmit)
  {
  }

  /** The action of the entry-action switch for the new state. */
  function EntryAction(s: StateEnum): (a: Action)
    ensures a == Halt <==> !IsLive(s)
    ensures a == PowerOff <==> s == Off
    ensures a == WaitForEvent <==> s == Broadcast || s == Sleep
  {
    match s
    case Off => PowerOff
    case Broadcast => WaitForEvent
    case Sleep => WaitForEvent
    case EnsureDown => Proceed
    case Transmit => Proceed
    case EnsureUp => Proceed
    case Invalid => Halt
  }

  /** The event word getEvents computes for this device at this tick. */
  function TickEvents(d: Device, i: Inputs): Event
  {
    DerivedEvents(d.buttonPressFlag, i.buttonLevelHigh, Elapsed(i.now, d.sc.stateEnteredMs), i.connected)
  }

  /**
    The rest of one loop() iteration once getEvents has returned `e`: take
    the transition, then run the entry action of the new state. The press
    flag has already been consumed, and the log only grows.
   */
  function Step(d: Device, e: Event, i: Inputs): (r: (Device, Action))
    requires d.status == Running
    ensures !r.0.buttonPressFlag && d.log <= r.0.log
    ensures r.1 == Halt <==> !IsLive(d.sc.state)
    ensures r.0.status == PoweredOff <==> r.1 == PowerOff
  {
    match Transition(d.sc.state, e)
    case None =>
      (d.(buttonPressFlag := false, status := BlinkingToDeath), Halt)
    case Some(next) =>
      var out := TickOutputs(d.sc.state, next, Battery.BatLevel(i.adcSample));
      (Device(Advance(d.sc, next, i.now), false, if next == Off then PoweredOff else Running, d.log + out),
       EntryAction(next))
  }

  /**
    One iteration of loop(): getEvents, then Step. A pending press always
    moves Off to Broadcast, Sleep to EnsureDown and EnsureUp back to
    Transmit, and without one none of those three moves happens.
   */
  function Tick(d: Device, i: Inputs): (r: (Device, Action))
    requires d.status == Running
    ensures d.sc.state == Off ==> (r.0.sc.state == Broadcast <==> d.buttonPressFlag)
    ensures d.sc.state == Sleep ==> (r.0.sc.state == EnsureDown <==> d.buttonPressFlag)
    ensures d.sc.state == EnsureUp ==> (r.0.sc.state == Transmit <==> d.buttonPressFlag)
  {
    DerivedEventsMeaning(d.buttonPressFlag, i.buttonLevelHigh, Elapsed(i.now, d.sc.stateEnteredMs), i.connected, ButtonDown);
    Step(d, TickEvents(d, i), i)
  }

  /** buttonInterruptHandler: the falling-edge interrupt sets the sticky flag. */
  function Interrupt(d: Device): (r: Device)
    ensures r.buttonPressFlag && r.(buttonPressFlag := d.buttonPressFlag) == d
  {
    d.(buttonPressFlag := true)
  }

  /** What happens to the device between its own steps: a button interrupt, or one loop() iteration. */
  datatype Stimulus = ButtonIrq | LoopTick(inputs: Inputs)

  /** The device after a sequence of stimuli; nothing happens once it has stopped running. */
  function Run(d: Device, trace: seq<Stimulus>): (r: Device)
    ensures d.log <= r.log
    ensures d.status != Running ==> r == d
    decreases |trace|
  {
    if trace == [] || d.status != Running then d
    else match trace[0]
      case ButtonIrq => Run(Interrupt(d), trace[1..])
      case LoopTick(i) => Run(Tick(d, i).0, trace[1..])
  }

  // ---- What one tick guarantees ----

  /** A step whose transition goes to `next`, unfolded. */
  lemma StepTo(d: Device, e: Event, i: Inputs, next: StateEnum)
    requires d.status == Running && Transition(d.sc.state, e) == Some(next)
    ensures Step(d, e, i) == (
      Device(Advance(d.sc, next, i.now), false, if next == Off then PoweredOff else Running,
             d.log + TickOutputs(d.sc.state, next, Battery.BatLevel(i.adcSample))),
      EntryAction(next))
  {
  }

  /**
    stateTransition's bookkeeping over a whole tick, whatever the event word:
    the state is the transition's result, the entry time is reset exactly
    when the state changes, the press flag is consumed, and only Off stops
    the loop.
   */
  lemma StepBookkeeping(d: Device, e: Event, i: Inputs)
    requires d.status == Running && IsLive(d.sc.state)
    ensures var (d', a) := Step(d, e, i);
      Transition(d.sc.state, e) == Some(d'.sc.state) &&
      (d'.sc.state != d.sc.state ==> d'.sc.stateEnteredMs == i.now) &&
      (d'.sc.state == d.sc.state ==> d'.sc.stateEnteredMs == d.sc.stateEnteredMs) &&
      !d'.buttonPressFlag &&
      (d'.status == PoweredOff <==> d'.sc.state == Off) && d'.status != BlinkingToDeath &&
      a == EntryAction(d'.sc.state)
  {
  }

  /** Each press is seen on exactly one tick: the next tick sees it, the one after does not. */
  lemma PressConsumedOnce(d: Device, i1: Inputs, i2: Inputs)
    requires d.status == Running && IsLive(d.sc.state)
    requires Tick(Interrupt(d), i1).0.status == Running
    ensures Has(TickEvents(Interrupt(d), i1), ButtonDown)
    ensures !Has(TickEvents(Tick(Interrupt(d), i1).0, i2), ButtonDown)
  {
    var d1 := Tick(Interrupt(d), i1).0;
    DerivedEventsMeaning(true, i1.buttonLevelHigh, Elapsed(i1.now, d.sc.stateEnteredMs), i1.connected, ButtonDown);
    DerivedEventsMeaning(false, i2.buttonLevelHigh, Elapsed(i2.now, d1.sc.stateEnteredMs), i2.connected, ButtonDown);
  }

  /** Advertising ends in Off only after a minute in Broadcast without a connection. */
  lemma BroadcastTimesOut(d: Device, i: Inputs)
    requires d.status == Running && d.sc.state == Broadcast && Tick(d, i).0.sc.state == Off
    ensures !i.connected && Elapsed(i.now, d.sc.stateEnteredMs) > ShutdownDelayMs
  {
    var e := TickEvents(d, i);
    StepBookkeeping(d, e, i);
    DerivedEventsMeaning(d.buttonPressFlag, i.buttonLevelHigh, Elapsed(i.now, d.sc.stateEnteredMs), i.connected, Minutes10);
    ConnectionExclusive(d.buttonPressFlag, i.buttonLevelHigh, Elapsed(i.now, d.sc.stateEnteredMs), i.connected);
  }

  /**
    Sleep is left for Off only after six hours without a press, and for
    Broadcast only when the link is down and no press is pending.
   */
  lemma SleepExits(d: Device, i: Inputs)
    requires d.status == Running && d.sc.state == Sleep
    ensures var next := Tick(d, i).0.sc.state;
      (next == Off ==> !d.buttonPressFlag && Elapsed(i.now, d.sc.stateEnteredMs) > DisconnectAndShutdownDelayMs) &&
      (next == Broadcast ==> !i.connected && !d.buttonPressFlag)
  {
    var e := TickEvents(d, i);
    var elapsed := Elapsed(i.now, d.sc.stateEnteredMs);
    StepBookkeeping(d, e, i);
    DerivedEventsMeaning(d.buttonPressFlag, i.buttonLevelHigh, elapsed, i.connected, ButtonDown);
    DerivedEventsMeaning(d.buttonPressFlag, i.buttonLevelHigh, elapsed, i.connected, ShutdownTimeout);
    ConnectionExclusive(d.buttonPressFlag, i.buttonLevelHigh, elapsed, i.connected);
  }

  /** EnsureDown reaches Transmit only once the debounce window has passed. */
  lemma DebounceWaited(d: Device, i: Inputs)
    requires d.status == Running && d.sc.state == EnsureDown && Tick(d, i).0.sc.state == Transmit
    ensures Elapsed(i.now, d.sc.stateEnteredMs) > DebounceDelayMs
  {
    var e := TickEvents(d, i);
    StepBookkeeping(d, e, i);
    DerivedEventsMeaning(d.buttonPressFlag, i.buttonLevelHigh, Elapsed(i.now, d.sc.stateEnteredMs), i.connected, Millis10);
  }

  /**
    The timed exits really waited: leaving Broadcast for Off needs a minute
    unconnected, leaving Sleep for Off needs six hours without a press, and
    EnsureDown reaches Transmit only after the debounce window.
   */
  lemma TimedExits(d: Device, i: Inputs)
    requires d.status == Running
    ensures var next := Tick(d, i).0.sc.state;
      var elapsed := Elapsed(i.now, d.sc.stateEnteredMs);
      (d.sc.state == Broadcast && next == Off ==> !i.connected && elapsed > ShutdownDelayMs) &&
      (d.sc.state == Sleep && next == Off ==> !d.buttonPressFlag && elapsed > DisconnectAndShutdownDelayMs) &&
      (d.sc.state == Sleep && next == Broadcast ==> !i.connected && !d.buttonPressFlag) &&
      (d.sc.state == EnsureDown && next == Transmit ==> elapsed > DebounceDelayMs)
  {
    var next := Tick(d, i).0.sc.state;
    if d.sc.state == Broadcast && next == Off {
      BroadcastTimesOut(d, i);
    } else if d.sc.state == Sleep {
      SleepExits(d, i);
    } else if d.sc.state == EnsureDown && next == Transmit {
      DebounceWaited(d, i);
    }
  }

  /** A pending press wakes Sleep: the tick moves to EnsureDown, restarts the clock and writes nothing. */
  lemma PressLeavesSleep(d: Device, i: Inputs)
    requires d.status == Running && d.sc.state == Sleep && d.buttonPressFlag
    ensures Tick(d, i).0 == Device(StateContainer(EnsureDown, i.now), false, Running, d.log)
  {
    var e := TickEvents(d, i);
    DerivedEventsMeaning(true, i.buttonLevelHigh, Elapsed(i.now, d.sc.stateEnteredMs), i.connected, ButtonDown);
    StepTo(d, e, i, EnsureDown);
    assert d.log + [] == d.log;
  }

  /** Once the debounce window has passed, EnsureDown transmits: "pressed" once, then the LED lit. */
  lemma DebouncedPressTransmits(d: Device, i: Inputs)
    requires d.status == Running && d.sc.state == EnsureDown
    requires Elapsed(i.now, d.sc.stateEnteredMs) > DebounceDelayMs
    ensures Tick(d, i).0 == Device(StateContainer(Transmit, i.now), false, Running, d.log + [ButtonChar(1), Led(true)])
  {
    var e := TickEvents(d, i);
    DerivedEventsMeaning(d.buttonPressFlag, i.buttonLevelHigh, Elapsed(i.now, d.sc.stateEnteredMs), i.connected, Millis10);
    StepTo(d, e, i, Transmit);
  }

  /** The pin reading HIGH in Transmit moves to EnsureUp and turns the LED off. */
  lemma ReleaseLeavesTransmit(d: Device, i: Inputs)
    requires d.status == Running && d.sc.state == Transmit && i.buttonLevelHigh
    ensures Tick(d, i).0 == Device(StateContainer(EnsureUp, i.now), false, Running, d.log + [Led(false)])
  {
    var e := TickEvents(d, i);
    DerivedEventsMeaning(d.buttonPressFlag, true, Elapsed(i.now, d.sc.stateEnteredMs), i.connected, ButtonUp);
    StepTo(d, e, i, EnsureUp);
  }

  /** EnsureUp without a new press settles in Sleep, publishing "released" and the battery level. */
  lemma ReleaseConfirmed(d: Device, i: Inputs)
    requires d.status == Running && d.sc.state == EnsureUp && !d.buttonPressFlag
    ensures Tick(d, i).0 == Device(StateContainer(Sleep, i.now), false, Running,
                                   d.log + [ButtonChar(0), BatteryChar(Battery.BatLevel(i.adcSample) as int)])
  {
    var e := TickEvents(d, i);
    DerivedEventsMeaning(false, i.buttonLevelHigh, Elapsed(i.now, d.sc.stateEnteredMs), i.connected, ButtonDown);
    StepTo(d, e, i, Sleep);
  }

  /**
    A press from Sleep: the first tick moves to EnsureDown and restarts the
    clock, writing nothing; a tick more than 10 ms later moves to Transmit and
    publishes "pressed" once, then lights the LED.
   */
  lemma PressScenario(d: Device, i1: Inputs, i2: Inputs)
    requires d.status == Running && d.sc.state == Sleep && d.buttonPressFlag
    requires Elapsed(i2.now, i1.now) > DebounceDelayMs
    ensures var d1 := Tick(d, i1).0;
      d1.status == Running && d1.sc == StateContainer(EnsureDown, i1.now) && d1.log == d.log &&
      var d2 := Tick(d1, i2).0;
      d2.sc == StateContainer(Transmit, i2.now) && d2.log == d.log + [ButtonChar(1), Led(true)]
  {
    PressLeavesSleep(d, i1);
    DebouncedPressTransmits(Tick(d, i1).0, i2);
  }

  /**
    A release from Transmit: the tick that reads the pin high moves to
    EnsureUp and turns the LED off; the next tick without a new press moves to
    Sleep and publishes "released" and the battery level.
   */
  lemma ReleaseScenario(d: Device, i1: Inputs, i2: Inputs)
    requires d.status == Running && d.sc.state == Transmit && i1.buttonLevelHigh
    ensures var d1 := Tick(d, i1).0;
      d1.status == Running && d1.sc == StateContainer(EnsureUp, i1.now) && d1.log == d.log + [Led(false)] &&
      var d2 := Tick(d1, i2).0;
      d2.sc.state == Sleep &&
      d2.log == d.log + [Led(false), ButtonChar(0), BatteryChar(Battery.BatLevel(i2.adcSample) as int)]
  {
    ReleaseLeavesTransmit(d, i1);
    var d1 := Tick(d, i1).0;
    ReleaseConfirmed(d1, i2);
    var battery := BatteryChar(Battery.BatLevel(i2.adcSample) as int);
    assert d.log + [Led(false)] + [ButtonChar(0), battery] == d.log + [Led(false), ButtonChar(0), battery];
  }

  // ---- What every run guarantees ----

  /** The last value published on the button characteristic; setup publishes 0 before the loop starts. */
  function LastButton(log: seq<Output>): int
  {
    if log == [] then 0
    else if log[|log| - 1].ButtonChar? then log[|log| - 1].value
    else LastButton(log[..|log| - 1])
  }

  /** The level of the last LED write of the core; the LED is low when the loop starts. */
  function LedLit(log: seq<Output>): bool
  {
    if log == [] then false
    else if log[|log| - 1].Led? then log[|log| - 1].high
    else LedLit(log[..|log| - 1])
  }

  /** Whether a list of writes contains a button-characteristic update. */
  predicate HasButtonWrite(out: seq<Output>) {
    exists k :: 0 <= k < |out| && out[k].ButtonChar?
  }

  /** Whether a list of writes contains an LED write. */
  predicate HasLedWrite(out: seq<Output>) {
    exists k :: 0 <= k < |out| && out[k].Led?
  }

  lemma {:induction false} LastButtonAppend(log: seq<Output>, out: seq<Output>)
    ensures LastButton(log + out) == if HasButtonWrite(out) then LastButton(out) else LastButton(log)
    decreases |out|
  {
    if out == [] {
      assert log + out == log;
    } else {
      var init, last := out[..|out| - 1], out[|out| - 1];
      assert (log + out)[..|log + out| - 1] == log + init;
      assert (log + out)[|log + out| - 1] == last;
      LastButtonAppend(log, init);
      if last.ButtonChar? {
        assert out[|out| - 1].ButtonChar?;
      } else {
        if HasButtonWrite(out) {
          var k :| 0 <= k < |out| && out[k].ButtonChar?;
          assert k < |init| && init[k] == out[k];
        }
        if HasButtonWrite(init) {
          var k :| 0 <= k < |init| && init[k].ButtonChar?;
          assert out[k] == init[k];
        }
      }
    }
  }

  lemma {:induction false} LedLitAppend(log: seq<Output>, out: seq<Output>)
    ensures LedLit(log + out) == if HasLedWrite(out) then LedLit(out) else LedLit(log)
    decreases |out|
  {
    if out == [] {
      assert log + out == log;
    } else {
      var init, last := out[..|out| - 1], out[|out| - 1];
      assert (log + out)[..|log + out| - 1] == log + init;
      assert (log + out)[|log + out| - 1] == last;
      LedLitAppend(log, init);
      if last.Led? {
        assert out[|out| - 1].Led?;
      } else {
        if HasLedWrite(out) {
          var k :| 0 <= k < |out| && out[k].Led?;
          assert k < |init| && init[k] == out[k];
        }
        if HasLedWrite(init) {
          var k :| 0 <= k < |init| && init[k].Led?;
          assert out[k] == init[k];
        }
      }
    }
  }

  /**
    What a tick's writes tell the outside world: a button update happens
    exactly on entering Transmit (value 1) or on EnsureUp -> Sleep (value 0),
    and an LED write happens exactly in Transmit (high) or on leaving it (low).
   */
  lemma TickOutputsView(s: StateEnum, next: StateEnum, battery: uint8)
    ensures var out := TickOutputs(s, next, battery);
      (HasButtonWrite(out) <==> (next == Transmit && s != Transmit) || (s == EnsureUp && next == Sleep)) &&
      (HasButtonWrite(out) ==> LastButton(out) == if next == Transmit then 1 else 0) &&
      (HasLedWrite(out) <==> next == Transmit || (s == Transmit && next == EnsureUp)) &&
      (HasLedWrite(out) ==> LedLit(out) == (next == Transmit))
  {
    var out := TickOutputs(s, next, battery);
    if s == Transmit && next == EnsureUp {
      assert out == [Led(false)];
      assert out[0].Led?;
    } else if s == EnsureUp && next == Sleep {
      assert out == [ButtonChar(0), BatteryChar(battery as int)];
      assert out[0].ButtonChar?;
      assert out[..1] == [ButtonChar(0)];
    } else if next == Transmit && s != Transmit {
      assert out == [ButtonChar(1), Led(true)];
      assert out[0].ButtonChar?;
      assert out[..1] == [ButtonChar(1)];
    } else if next == Transmit {
      assert out == [Led(true)];
      assert out[0].Led?;
    } else {
      assert out == [];
    }
  }

  /** The button states: the ones in which the host has last been told "pressed". */
  predicate Pressing(s: StateEnum) {
    s == Transmit || s == EnsureUp
  }

  /**
    What the outside world sees agrees with the state: the host's last
    button value is "pressed" exactly in Transmit and EnsureUp, and the LED is
    lit exactly in Transmit.
   */
  ghost predicate Consistent(d: Device)
  {
    IsLive(d.sc.state) &&
    (d.status == PoweredOff ==> d.sc.state == Off) &&
    (LastButton(d.log) == 1 <==> Pressing(d.sc.state)) &&
    (LastButton(d.log) == 0 || LastButton(d.log) == 1) &&
    (LedLit(d.log) <==> d.sc.state == Transmit)
  }

  lemma InitialConsistent()
    ensures Consistent(Initial())
  {
  }

  /**
    One tick, whatever its event word, keeps the outside view consistent and
    never reaches the fatal fallback.
   */
  lemma StepPreservesConsistent(d: Device, e: Event, i: Inputs)
    requires d.status == Running && Consistent(d)
    ensures Consistent(Step(d, e, i).0)
    ensures Step(d, e, i).0.status != BlinkingToDeath && Step(d, e, i).1 != Halt
  {
    var s := d.sc.state;
    var next := Transition(s, e).value;
    var out := TickOutputs(s, next, Battery.BatLevel(i.adcSample));
    StepTo(d, e, i, next);
    LastButtonAppend(d.log, out);
    LedLitAppend(d.log, out);
    TickOutputsView(s, next, Battery.BatLevel(i.adcSample));
    TransmitEnteredOnlyFromConfirmation(s, e);
  }

  /** Every run from a consistent device stays consistent and never blinks to death. */
  lemma {:induction false} RunPreservesConsistent(d: Device, trace: seq<Stimulus>)
    requires Consistent(d) && d.status != BlinkingToDeath
    ensures Consistent(Run(d, trace)) && Run(d, trace).status != BlinkingToDeath
    decreases |trace|
  {
    if trace != [] && d.status == Running {
      match trace[0]
      case ButtonIrq =>
        RunPreservesConsistent(Interrupt(d), trace[1..]);
      case LoopTick(i) =>
        StepPreservesConsistent(d, TickEvents(d, i), i);
        RunPreservesConsistent(Tick(d, i).0, trace[1..]);
    }
  }

  /**
    From power-on, no sequence of presses and ticks reaches the fatal
    fallback, and whenever the device is powered off (or anywhere outside
    Transmit and EnsureUp) the host was last told "released" and the LED is off.
   */
  lemma NeverStuckPressed(trace: seq<Stimulus>)
    ensures var d := Run(Initial(), trace);
      d.status != BlinkingToDeath && IsLive(d.sc.state) &&
      (!Pressing(d.sc.state) ==> LastButton(d.log) == 0 && !LedLit(d.log)) &&
      (d.status == PoweredOff ==> LastButton(d.log) == 0)
  {
    InitialConsistent();
    RunPreservesConsistent(Initial(), trace);
  }

  // ---- The firmware's objects ----

  /**
    The global StateContainer `sc`, the volatile `buttonPressFlag` and what the
    loop has written so far, with the firmware's functions as methods.
   */
  class Controller {
    var sc: StateContainer
    var buttonPressFlag: bool
    var status: Status
    ghost var log: seq<Output>

    ghost function Snapshot(): Device
      reads this
    {
      Device(sc, buttonPressFlag, status, log)
    }

    /** The zero-initialised globals, after setup assigns STATE_OFF. */
    constructor ()
      ensures Snapshot() == Initial()
    {
      var zero := ZeroStateContainer();
      sc := zero.(state := Off);
      buttonPressFlag := false;
      status := Running;
      log := [];
    }

    /** buttonInterruptHandler. */
    method ButtonInterrupt()
      modifies this
      ensures Snapshot() == Interrupt(old(Snapshot()))
    {
      buttonPressFlag := true;
    }

    /** getEvents: test-and-clear the press flag, then build the event word. */
    method GetEvents(now: uint32, buttonLevelHigh: bool, connected: bool) returns (e: Event)
      modifies this
      ensures e == DerivedEvents(old(buttonPressFlag), buttonLevelHigh, Elapsed(now, sc.stateEnteredMs), connected)
      ensures Snapshot() == old(Snapshot()).(buttonPressFlag := false)
    {
      var pressed := buttonPressFlag;
      buttonPressFlag := false;
      e := Derive(pressed, buttonLevelHigh, Elapsed(now, sc.stateEnteredMs), connected);
    }

    /**
      stateTransition: the switch on the current state, the writes it makes
      on the way, then the timestamp and state update. None: the default
      branch, which blinks forever.
     */
    method StateTransition(e: Event, now: uint32, adcSample: uint16) returns (r: Option<StateEnum>)
      modifies this
      ensures r == Transition(old(sc.state), e)
      ensures r.None? ==> Snapshot() == old(Snapshot()).(status := BlinkingToDeath)
      ensures r.Some? ==> sc.state == r.value && Snapshot() == old(Snapshot()).(
        sc := Advance(old(sc), r.value, now),
        log := old(log) + TransitionEffects(old(sc.state), r.value, Battery.BatLevel(adcSample)))
    {
      var newState := Invalid;
      match sc.state {
      case Off =>
        if Has(e, ButtonDown) {
          newState := Broadcast;
        } else {
          newState := Off;
        }
      case Broadcast =>
        if Has(e, Connected) {
          newState := Sleep;
        } else if Has(e, Minutes10) {
          newState := Off;
        } else {
          newState := Broadcast;
        }
      case Sleep =>
        if Has(e, ButtonDown) {
          newState := EnsureDown;
        } else if Has(e, ShutdownTimeout) {
          newState := Off;
        } else if Has(e, Disconnected) {
          newState := Broadcast;
        } else {
          newState := Sleep;
        }
      case EnsureDown =>
        if Has(e, Millis10) {
          newState := Transmit;
        } else {
          newState := Sleep;
        }
      case Transmit =>
        if Has(e, ButtonUp) {
          newState := EnsureUp;
          log := log + [Led(false)];
        } else {
          newState := Transmit;
        }
      case EnsureUp =>
        if Has(e, ButtonDown) {
          newState := Transmit;
        } else {
          newState := Sleep;
          log := log + [ButtonChar(0)];
          var level := Battery.GetBatLevel(adcSample);
          log := log + [BatteryChar(level as int)];
        }
      case Invalid =>
        status := BlinkingToDeath;
        return None;
      }
      if sc.state != newState {
        sc := sc.(stateEnteredMs := now);
      }
      sc := sc.(state := newState);
      return Some(newState);
    }

    /**
      The entry-action switch at the end of loop(): power off in Off, wait for
      an event in Broadcast and Sleep, and in Transmit publish "pressed" on
      entry and drive the LED high.
     */
    method EnterState(oldState: StateEnum) returns (a: Action)
      requires IsLive(sc.state)
      modifies this
      ensures a == EntryAction(sc.state)
      ensures Snapshot() == old(Snapshot()).(
        status := if sc.state == Off then PoweredOff else old(status),
        log := old(log) + EntryEffects(oldState, sc.state))
    {
      match sc.state {
      case Off =>
        status := PoweredOff;
        a := PowerOff;
      case Broadcast =>
        a := WaitForEvent;
      case Sleep =>
        a := WaitForEvent;
      case EnsureDown =>
        a := Proceed;
      case Transmit =>
        if oldState != sc.state {
          log := log + [ButtonChar(1)];
        }
        log := log + [Led(true)];
        a := Proceed;
      case EnsureUp =>
        a := Proceed;
      }
    }

    /** loop(): events, transition, then the action for entering (or staying in) the new state. */
    method Loop(i: Inputs) returns (a: Action)
      requires status == Running
      modifies this
      ensures (Snapshot(), a) == Tick(old(Snapshot()), i)
    {
      ghost var d := Snapshot();
      var e := GetEvents(i.now, i.buttonLevelHigh, i.connected);
      assert e == TickEvents(d, i);
      var oldState := sc.state;
      var r := StateTransition(e, i.now, i.adcSample);
      if r.None? {
        return Halt;
      }
      a := EnterState(oldState);
      ghost var written := TransitionEffects(oldState, sc.state, Battery.BatLevel(i.adcSample));
      assert old(log) + written + EntryEffects(oldState, sc.state)
          == old(log) + (written + EntryEffects(oldState, sc.state));
      StepTo(d, e, i, sc.state);
    }
  }
}
