/**
  stateTransition as a value: the priority-ordered switch over the six live
  states, the timestamp bookkeeping on the StateContainer, and the outputs the
  switch itself writes (LED off, released notification and battery level).
 */
module StateMachine {
  import opened Types
  import opened Wrappers

  /** An externally visible write: a characteristic update or an LED pin level. */
  datatype Output = ButtonChar(value: int) | BatteryChar(percent: int) | Led(high: bool)

  /**
    The next state for a state and an event word, first matching condition
    first. None stands for the `default` branch, where the firmware blinks
    forever and never returns.
   */
  function Transition(s: StateEnum, e: Event): (r: Option<StateEnum>)
    ensures r.None? <==> !IsLive(s)
    ensures r.Some? ==> IsLive(r.value)
  {
    match s
    case Off =>
      Some(if Has(e, ButtonDown) then Broadcast else Off)
    case Broadcast =>
      Some(if Has(e, Connected) then Sleep else if Has(e, Minutes10) then Off else Broadcast)
    case Sleep =>
      Some(if Has(e, ButtonDown) then EnsureDown
           else if Has(e, ShutdownTimeout) then Off
           else if Has(e, Disconnected) then Broadcast
           else Sleep)
    case EnsureDown =>
      Some(if Has(e, Millis10) then Transmit else Sleep)
    case Transmit =>
      Some(if Has(e, ButtonUp) then EnsureUp else Transmit)
    case EnsureUp =>
      Some(if Has(e, ButtonDown) then Transmit else Sleep)
    case Invalid =>
      None
  }

  /**
    The StateContainer after moving to `next` at time `now`: the entry time
    is reset exactly when the state changes.
   */
  function Advance(sc: StateContainer, next: StateEnum, now: uint32): (r: StateContainer)
    ensures r.state == next
    ensures r.state != sc.state ==> r.stateEnteredMs == now
    ensures r.state == sc.state ==> r == sc
  {
    if sc.state != next then StateContainer(next, now) else sc.(state := next)
  }

  /**
    The writes stateTransition performs itself: the LED goes low on
    Transmit -> EnsureUp, and EnsureUp -> Sleep publishes "released" and the
    battery percentage.
   */
  function TransitionEffects(from: StateEnum, to: StateEnum, battery: uint8): (r: seq<Output>)
    ensures r != [] <==> (from == Transmit && to == EnsureUp) || (from == EnsureUp && to == Sleep)
    ensures from == to ==> r == []
    ensures |r| <= 2
  {
    if from == Transmit && to == EnsureUp then [Led(false)]
    else if from == EnsureUp && to == Sleep then [ButtonChar(0), BatteryChar(battery as int)]
    else []
  }

  /** Only Transmit -> EnsureUp turns the LED off. */
  lemma LedOffOnlyOnRelease(from: StateEnum, to: StateEnum, battery: uint8)
    ensures Led(false) in TransitionEffects(from, to, battery) <==> from == Transmit && to == EnsureUp
  {
  }

  /** Only EnsureUp -> Sleep publishes the release and the battery level. */
  lemma ReleasePublishedOnlyOnConfirm(from: StateEnum, to: StateEnum, battery: uint8)
    ensures ButtonChar(0) in TransitionEffects(from, to, battery) <==> from == EnsureUp && to == Sleep
    ensures BatteryChar(battery as int) in TransitionEffects(from, to, battery) <==> from == EnsureUp && to == Sleep
  {
  }

  // An independent reading of the switch: the transition table as data, one
  // priority-ordered list of guarded rules per state and a fallback target.

  datatype Rule = Rule(guard: Flag, target: StateEnum)

  function Rules(s: StateEnum): seq<Rule>
  {
    match s
    case Off => [Rule(ButtonDown, Broadcast)]
    case Broadcast => [Rule(Connected, Sleep), Rule(Minutes10, Off)]
    case Sleep => [Rule(ButtonDown, EnsureDown), Rule(ShutdownTimeout, Off), Rule(Disconnected, Broadcast)]
    case EnsureDown => [Rule(Millis10, Transmit)]
    case Transmit => [Rule(ButtonUp, EnsureUp)]
    case EnsureUp => [Rule(ButtonDown, Transmit)]
    case Invalid => []
  }

  /** Where each state goes when no rule applies. */
  function Fallback(s: StateEnum): StateEnum
  {
    match s
    case EnsureDown => Sleep
    case EnsureUp => Sleep
    case _ => s
  }

  /** The target of the first rule whose guard is in the event set, else the fallback. */
  function FirstMatch(rules: seq<Rule>, flags: set<Flag>, fallback: StateEnum): StateEnum
  {
    if rules == [] then fallback
    else if rules[0].guard in flags then rules[0].target
    else FirstMatch(rules[1..], flags, fallback)
  }

  /** The switch agrees with the table read over the event set. */
  lemma TransitionFollowsTable(s: StateEnum, e: Event)
    requires IsLive(s)
    ensures Transition(s, e) == Some(FirstMatch(Rules(s), Flags(e), Fallback(s)))
  {
    forall f {
      FlagsMembership(e, f);
    }
    var flags, rs := Flags(e), Rules(s);
    if |rs| > 1 {
      assert FirstMatch(rs, flags, Fallback(s))
          == if rs[0].guard in flags then rs[0].target else FirstMatch(rs[1..], flags, Fallback(s));
      assert FirstMatch(rs[1..], flags, Fallback(s))
          == if rs[1].guard in flags then rs[1].target else FirstMatch(rs[2..], flags, Fallback(s));
      if |rs| > 2 {
        assert rs[2..][1..] == [];
        assert FirstMatch(rs[2..], flags, Fallback(s))
            == if rs[2].guard in flags then rs[2].target else Fallback(s);
      }
    }
  }

  /** From Off the only exit is to Broadcast, and only on a button press. */
  lemma OffWakesOnlyOnPress(e: Event)
    ensures Transition(Off, e) == Some(if ButtonDown in Flags(e) then Broadcast else Off)
  {
    FlagsMembership(e, ButtonDown);
  }

  /** In Broadcast a connection wins over the idle timeout. */
  lemma BroadcastPriority(e: Event)
    ensures Transition(Broadcast, e) == Some(
      if Connected in Flags(e) then Sleep
      else if Minutes10 in Flags(e) then Off
      else Broadcast)
  {
    FlagsMembership(e, Connected);
    FlagsMembership(e, Minutes10);
  }

  /** In Sleep a press wins over the shutdown timeout, which wins over a lost connection. */
  lemma SleepPriority(e: Event)
    ensures Transition(Sleep, e) == Some(
      if ButtonDown in Flags(e) then EnsureDown
      else if ShutdownTimeout in Flags(e) then Off
      else if Disconnected in Flags(e) then Broadcast
      else Sleep)
  {
    FlagsMembership(e, ButtonDown);
    FlagsMembership(e, ShutdownTimeout);
    FlagsMembership(e, Disconnected);
  }

  /**
    The two confirmation states never stay put: each goes on to Transmit when
    its confirming flag is set, and otherwise falls back to Sleep.
   */
  lemma ConfirmationNeverSelfLoops(s: StateEnum, e: Event)
    requires s == EnsureDown || s == EnsureUp
    ensures var confirm := if s == EnsureDown then Millis10 else ButtonDown;
      Transition(s, e) == Some(if confirm in Flags(e) then Transmit else Sleep)
    ensures Transition(s, e) != Some(s)
  {
    FlagsMembership(e, Millis10);
    FlagsMembership(e, ButtonDown);
  }

  /** Transmit leaves only when the button reads released, and then only to EnsureUp. */
  lemma TransmitLeavesOnlyOnRelease(e: Event)
    ensures Transition(Transmit, e) == Some(if ButtonUp in Flags(e) then EnsureUp else Transmit)
  {
    FlagsMembership(e, ButtonUp);
  }

  /** Transmit is entered only from one of the two confirmation states. */
  lemma TransmitEnteredOnlyFromConfirmation(s: StateEnum, e: Event)
    ensures Transition(s, e) == Some(Transmit) ==> s == EnsureDown || s == EnsureUp || s == Transmit
  {
    match s
    case Off => assert Transition(s, e) != Some(Transmit);
    case Broadcast => assert Transition(s, e) != Some(Transmit);
    case Sleep => assert Transition(s, e) != Some(Transmit);
    case Invalid =>
    case EnsureDown =>
    case EnsureUp =>
    case Transmit =>
  }

  /**
    With an empty event set the machine settles after at most one step:
    the confirmation states fall back to Sleep and every other live state,
    Sleep included, stays where it is.
   */
  lemma {:induction false} QuietSettles(s: StateEnum)
    requires IsLive(s)
    ensures var t := Transition(s, EventNone).value;
      Transition(t, EventNone) == Some(t) &&
      (t == s <==> s != EnsureDown && s != EnsureUp)
  {
    forall f {
      NoneIsEmpty(f);
    }
  }
}
