/**
  getEvents: folds the sticky button-press flag, the button pin level, the
  time spent in the current state and the connection status into one event
  word for this tick.
 */
module Events {
  import opened Types

  /** After this long in a state, the connected device shuts down (six hours). */
  const DisconnectAndShutdownDelayMs: uint32 := 6 * 60 * 60 * 1000
  /** After this long in a state, the advertising device shuts down (one minute). */
  const ShutdownDelayMs: uint32 := 1 * 60 * 1000
  /** The settle time a press must outlast before it transmits. */
  const DebounceDelayMs: uint32 := 10

  /** The period of the millisecond counter and of every uint32 difference. */
  const Modulus: int := 0x1_0000_0000

  /**
    `millis() - sc->stateEnteredMs` in uint32 arithmetic: the number of
    milliseconds that takes the entry time to `now`, modulo the counter's period.
   */
  function Elapsed(now: uint32, enteredMs: uint32): (r: uint32)
    ensures (enteredMs as int + r as int) % Modulus == now as int
    ensures enteredMs <= now ==> r == now - enteredMs
    ensures now < enteredMs ==> r as int == Modulus + now as int - enteredMs as int
  {
    ((now as int - enteredMs as int) % Modulus) as uint32
  }

  /** Whether a flag belongs in this tick's event word, flag by flag. */
  predicate Fires(f: Flag, pressed: bool, levelHigh: bool, elapsed: uint32, connected: bool)
  {
    match f
    case ButtonDown => pressed
    case ButtonUp => levelHigh
    case ShutdownTimeout => elapsed > DisconnectAndShutdownDelayMs
    case Minutes10 => elapsed > ShutdownDelayMs
    case Millis10 => elapsed > DebounceDelayMs
    case Connected => connected
    case Disconnected => !connected
  }

  /** The list `fs` with `f` appended when `cond` holds. */
  function AddIf(fs: seq<Flag>, cond: bool, f: Flag): seq<Flag>
  {
    if cond then fs + [f] else fs
  }

  lemma AddIfMembers(fs: seq<Flag>, cond: bool, g: Flag, f: Flag)
    ensures f in AddIf(fs, cond, g) <==> f in fs || (cond && f == g)
  {
  }

  /** The flags getEvents sets, in the order it sets them. */
  function Firing(pressed: bool, levelHigh: bool, elapsed: uint32, connected: bool): (fs: seq<Flag>)
    ensures forall f :: f in fs <==> Fires(f, pressed, levelHigh, elapsed, connected)
  {
    var fs := AddIf([], pressed, ButtonDown);
    var fs := AddIf(fs, levelHigh, ButtonUp);
    var fs := AddIf(fs, elapsed > DisconnectAndShutdownDelayMs, ShutdownTimeout);
    var fs := AddIf(fs, elapsed > ShutdownDelayMs, Minutes10);
    var fs := AddIf(fs, elapsed > DebounceDelayMs, Millis10);
    fs + [if connected then Connected else Disconnected]
  }

  /** The event word getEvents returns. */
  function DerivedEvents(pressed: bool, levelHigh: bool, elapsed: uint32, connected: bool): Event
  {
    FromFlags(Firing(pressed, levelHigh, elapsed, connected))
  }

  /** The word carries exactly the flags that fire. */
  lemma DerivedEventsMeaning(pressed: bool, levelHigh: bool, elapsed: uint32, connected: bool, f: Flag)
    ensures Has(DerivedEvents(pressed, levelHigh, elapsed, connected), f)
        <==> Fires(f, pressed, levelHigh, elapsed, connected)
  {
    FromFlagsHas(Firing(pressed, levelHigh, elapsed, connected), f);
  }

  /** Exactly one of CONNECTED and DISCONNECTED is set. */
  lemma ConnectionExclusive(pressed: bool, levelHigh: bool, elapsed: uint32, connected: bool)
    ensures var e := DerivedEvents(pressed, levelHigh, elapsed, connected);
      Has(e, Connected) != Has(e, Disconnected) && Has(e, Connected) == connected
  {
    DerivedEventsMeaning(pressed, levelHigh, elapsed, connected, Connected);
    DerivedEventsMeaning(pressed, levelHigh, elapsed, connected, Disconnected);
  }

  /** The three timeouts nest: six hours implies one minute implies ten milliseconds. */
  lemma TimeoutsNested(pressed: bool, levelHigh: bool, elapsed: uint32, connected: bool)
    ensures var e := DerivedEvents(pressed, levelHigh, elapsed, connected);
      (Has(e, ShutdownTimeout) ==> Has(e, Minutes10)) && (Has(e, Minutes10) ==> Has(e, Millis10))
  {
    DerivedEventsMeaning(pressed, levelHigh, elapsed, connected, ShutdownTimeout);
    DerivedEventsMeaning(pressed, levelHigh, elapsed, connected, Minutes10);
    DerivedEventsMeaning(pressed, levelHigh, elapsed, connected, Millis10);
  }

  /** The event word is never EVENT_NONE: a connection flag is always present. */
  lemma DerivedEventsNonEmpty(pressed: bool, levelHigh: bool, elapsed: uint32, connected: bool)
    ensures DerivedEvents(pressed, levelHigh, elapsed, connected) != EventNone
  {
    ConnectionExclusive(pressed, levelHigh, elapsed, connected);
    NoneIsEmpty(Connected);
    NoneIsEmpty(Disconnected);
  }

  /**
    The body of getEvents once the press flag has been read: start from
    EVENT_NONE and OR in each flag whose condition holds.
   */
  method Derive(pressed: bool, levelHigh: bool, elapsed: uint32, connected: bool) returns (e: Event)
    ensures e == DerivedEvents(pressed, levelHigh, elapsed, connected)
    ensures forall f :: Has(e, f) <==> Fires(f, pressed, levelHigh, elapsed, connected)
  {
    ghost var fs: seq<Flag> := [];
    e := EventNone;
    if pressed {
      FromFlagsSnoc(fs, ButtonDown);
      e, fs := e | Mask(ButtonDown), fs + [ButtonDown];
    }
    assert e == FromFlags(fs) && fs == AddIf([], pressed, ButtonDown);
    ghost var fs1 := fs;
    if levelHigh {
      FromFlagsSnoc(fs, ButtonUp);
      e, fs := e | Mask(ButtonUp), fs + [ButtonUp];
    }
    assert e == FromFlags(fs) && fs == AddIf(fs1, levelHigh, ButtonUp);
    ghost var fs2 := fs;
    if elapsed > DisconnectAndShutdownDelayMs {
      FromFlagsSnoc(fs, ShutdownTimeout);
      e, fs := e | Mask(ShutdownTimeout), fs + [ShutdownTimeout];
    }
    assert e == FromFlags(fs) && fs == AddIf(fs2, elapsed > DisconnectAndShutdownDelayMs, ShutdownTimeout);
    ghost var fs3 := fs;
    if elapsed > ShutdownDelayMs {
      FromFlagsSnoc(fs, Minutes10);
      e, fs := e | Mask(Minutes10), fs + [Minutes10];
    }
    assert e == FromFlags(fs) && fs == AddIf(fs3, elapsed > ShutdownDelayMs, Minutes10);
    ghost var fs4 := fs;
    if elapsed > DebounceDelayMs {
      FromFlagsSnoc(fs, Millis10);
      e, fs := e | Mask(Millis10), fs + [Millis10];
    }
    assert e == FromFlags(fs) && fs == AddIf(fs4, elapsed > DebounceDelayMs, Millis10);
    ghost var fs5 := fs;
    if connected {
      FromFlagsSnoc(fs, Connected);
      e, fs := e | Mask(Connected), fs + [Connected];
    } else {
      FromFlagsSnoc(fs, Disconnected);
      e, fs := e | Mask(Disconnected), fs + [Disconnected];
    }
    assert e == FromFlags(fs) && fs == fs5 + [if connected then Connected else Disconnected];
    forall f ensures Has(e, f) <==> Fires(f, pressed, levelHigh, elapsed, connected) {
      DerivedEventsMeaning(pressed, levelHigh, elapsed, connected, f);
    }
  }
}
