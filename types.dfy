/**
  The declarations of types.h: the lifecycle state enumeration, the state
  record the control loop owns, and the event bit flags the state machine is
  written over.
 */
module Types {

  newtype uint8 = x: int | 0 <= x < 0x100
  newtype uint16 = x: int | 0 <= x < 0x1_0000
  newtype uint32 = x: int | 0 <= x < 0x1_0000_0000

  /** StateEnum. The sentinel comes first, so it is enumerator value 0. */
  datatype StateEnum = Invalid | Off | Broadcast | Sleep | EnsureDown | Transmit | EnsureUp

  /** The six states the transition table covers. */
  predicate IsLive(s: StateEnum) {
    s != Invalid
  }

  /** The integer value the compiler gives each enumerator. */
  function Value(s: StateEnum): (n: nat)
    ensures n < 7
    ensures n == 0 <==> !IsLive(s)
  {
    match s
    case Invalid => 0
    case Off => 1
    case Broadcast => 2
    case Sleep => 3
    case EnsureDown => 4
    case Transmit => 5
    case EnsureUp => 6
  }

  /** The enumerator with a given value; every value below 7 names exactly one. */
  function FromValue(n: nat): (s: StateEnum)
    requires n < 7
    ensures Value(s) == n
  {
    if n == 0 then Invalid
    else if n == 1 then Off
    else if n == 2 then Broadcast
    else if n == 3 then Sleep
    else if n == 4 then EnsureDown
    else if n == 5 then Transmit
    else EnsureUp
  }

  lemma ValueRoundTrip(s: StateEnum)
    ensures FromValue(Value(s)) == s
  {
  }

  /** StateContainer: the current state and the millis() reading when it was entered. */
  datatype StateContainer = StateContainer(state: StateEnum, stateEnteredMs: uint32)

  /** The value of a zero-initialised global StateContainer, before setup assigns a state. */
  function ZeroStateContainer(): (sc: StateContainer)
    ensures !IsLive(sc.state) && sc.stateEnteredMs == 0
  {
    StateContainer(FromValue(0), 0)
  }

  /** An event word: a bit set over the flags below. */
  type Event = bv32

  /**
    The event flags the control loop uses. types.h declares only five of them
    (with HOURS_3 where the shutdown timeout is used, and bit 1 unused); this
    model gives the two missing ones bits 1 and 6.
   */
  datatype Flag = ButtonUp | Minutes10 | ButtonDown | Connected | ShutdownTimeout | Millis10 | Disconnected

  const AllFlags: seq<Flag> := [ButtonUp, Minutes10, ButtonDown, Connected, ShutdownTimeout, Millis10, Disconnected]

  lemma AllFlagsComplete(f: Flag)
    ensures f in AllFlags
  {
  }

  /** The bit of each flag. */
  function Mask(f: Flag): (m: Event)
    ensures m != 0
  {
    match f
    case ButtonUp => 0x01
    case Minutes10 => 0x02
    case ButtonDown => 0x04
    case Connected => 0x08
    case ShutdownTimeout => 0x10
    case Millis10 => 0x20
    case Disconnected => 0x40
  }

  /** Each flag is a single power of two. */
  lemma MaskSingleBit(f: Flag)
    ensures Mask(f) & (Mask(f) - 1) == 0
  {
  }

  const EventNone: Event := 0

  /** `e & m` read as a truth value: the word shares a bit with the mask. */
  predicate Overlaps(e: Event, m: Event) {
    e & m != 0
  }

  /** `e & FLAG` read as a truth value. */
  predicate Has(e: Event, f: Flag) {
    Overlaps(e, Mask(f))
  }

  /** Distinct flags occupy distinct bits. */
  lemma MasksDisjoint(f: Flag, g: Flag)
    ensures Mask(f) & Mask(g) == 0 <==> f != g
  {
    match f
    case ButtonUp =>
    case Minutes10 =>
    case ButtonDown =>
    case Connected =>
    case ShutdownTimeout =>
    case Millis10 =>
    case Disconnected =>
  }

  /** EVENT_NONE is the empty set. */
  lemma NoneIsEmpty(f: Flag)
    ensures !Has(EventNone, f)
  {
  }

  /** Membership in a single flag's word is equality of flags. */
  lemma HasMask(f: Flag, g: Flag)
    ensures Has(Mask(f), g) <==> f == g
  {
    MasksDisjoint(f, g);
  }

  /** OR-ing two words is the union of their flag sets. */
  lemma HasUnion(e1: Event, e2: Event, f: Flag)
    ensures Has(e1 | e2, f) <==> Has(e1, f) || Has(e2, f)
  {
    OverlapsUnion(e1, e2, Mask(f));
  }

  /** A mask overlaps an OR of two words iff it overlaps one of them. */
  lemma OverlapsUnion(a: Event, b: Event, m: Event)
    ensures Overlaps(a | b, m) <==> Overlaps(a, m) || Overlaps(b, m)
  {
    assert (a | b) & m == (a & m) | (b & m);
  }

  /** The word with exactly the listed flags set, built by successive ORs. */
  function FromFlags(fs: seq<Flag>): Event
  {
    if fs == [] then EventNone else FromFlags(fs[..|fs| - 1]) | Mask(fs[|fs| - 1])
  }

  /** OR-ing one more flag into a word extends its flag list by that flag. */
  lemma FromFlagsSnoc(fs: seq<Flag>, f: Flag)
    ensures FromFlags(fs + [f]) == FromFlags(fs) | Mask(f)
  {
    assert (fs + [f])[..|fs|] == fs;
  }

  lemma {:induction false} FromFlagsHas(fs: seq<Flag>, f: Flag)
    ensures Has(FromFlags(fs), f) <==> f in fs
  {
    if fs == [] {
      NoneIsEmpty(f);
    } else {
      var init, last := fs[..|fs| - 1], fs[|fs| - 1];
      assert fs == init + [last];
      FromFlagsHas(init, f);
      HasUnion(FromFlags(init), Mask(last), f);
      HasMask(last, f);
    }
  }

  /** The set of flags an event word carries. */
  function Flags(e: Event): set<Flag>
  {
    set f | f in AllFlags && Has(e, f)
  }

  lemma FlagsMembership(e: Event, f: Flag)
    ensures f in Flags(e) <==> Has(e, f)
  {
    AllFlagsComplete(f);
  }

  /** Building a word from flags and reading its flag set back gives the same flags. */
  lemma FlagsOfFromFlags(fs: seq<Flag>)
    ensures Flags(FromFlags(fs)) == set f | f in fs
  {
    forall f ensures f in Flags(FromFlags(fs)) <==> f in fs {
      FlagsMembership(FromFlags(fs), f);
      FromFlagsHas(fs, f);
    }
  }
}
