# Push-to-talk button lifecycle controller, in Dafny

This project models the control loop of a battery-powered Bluetooth Low Energy
push-to-talk button (an nRF51 board running the Arduino BLEPeripheral
library). Each iteration of `loop()` does three things:

- It derives an event word from the sticky button-press flag (set by a
  falling-edge interrupt), the button pin level, the time spent in the current
  state and the connection status (`getEvents`).
- It moves a six-state lifecycle machine (`stateTransition`): Off, Broadcast
  (advertising), Sleep (connected and idle), EnsureDown (debouncing a press),
  Transmit (button held) and EnsureUp (confirming a release). Only a real state
  change resets the state's entry timestamp.
- It runs the entry action for the new state: power off, wait for an event,
  publish "pressed" on entering Transmit, and keep the LED lit while
  transmitting.

The transition itself turns the LED off when the button is released. It
publishes "released" and the battery percentage when the release is confirmed.
The battery percentage comes from `getBatLevel`. That function maps a raw ADC
sample to a voltage and clamps it at 3.0 V and 2.0 V. Between those it
interpolates linearly in a falling CR2032 discharge table.

Files:

- `types.dfy` (module `Types`) covers types.h. It holds `StateEnum` with its
  enumerator values, the `StateContainer` record (state plus a `uint32` entry
  time), and the event flags as single bits of a `bv32` word. It proves that
  OR is set union and that `e & FLAG` is membership.
- `battery.dfy` (module `Battery`) covers `getBatLevel` over `real`. `BatLevel`
  is the value. `GetBatLevel` is the firmware's early-return `for` loop, proved
  equal to it. There are bracketing, range and monotonicity lemmas.
- `events.dfy` (module `Events`) covers `getEvents`. It has the three timeout
  constants and the `uint32` wrap-around difference `Elapsed`. `Derive` is the
  successive-OR construction of the event word. Lemmas give the flag-by-flag
  meaning of that word.
- `statemachine.dfy` (module `StateMachine`) holds `Transition`, the
  priority-ordered switch. Invalid maps to `None`, because the firmware never
  returns from there. It also holds the timestamp bookkeeping `Advance` and the
  writes the switch makes. It checks the switch against an independent
  rule-table reading (`Rules`, `Fallback`, `FirstMatch`). Lemmas state each
  state's priorities.
- `controller.dfy` (module `Controller`) has the class `Controller`. Its fields
  are the global `StateContainer`, the `volatile` press flag, the run status
  and a ghost log of outputs. Its methods are `ButtonInterrupt`, `GetEvents`,
  `StateTransition`, `EnterState` (the entry-action switch) and `Loop`. `Loop`
  is proved equal to the pure one-tick function `Tick`, which is `getEvents`
  followed by `Step` (the transition and the entry action for a given event
  word). `Run` folds interrupts and ticks. Lemmas cover one tick
  (bookkeeping, press consumption, timed exits, the press and release
  scenarios). One invariant covers every run: the host's last button value and
  the LED agree with the state, and the fatal fallback is never reached.
- `wrappers.dfy` (module `Wrappers`) holds `Option`.

Hardware is not called. The tick's `now` (one `millis()` reading per tick),
the button pin level, the connection status and the ADC sample are inputs.
The interrupt is a separate stimulus between ticks. Characteristic writes and
the core's LED writes are appended to a ghost log. Power-off and
`blinkToDeath` are terminal statuses.

Points where the model follows the code as written:

- types.h declares only `EVENT_NONE`, `BUTTON_UP` (bit 0), `BUTTON_DOWN`
  (bit 2), `CONNECTED` (bit 3), `HOURS_3` (bit 4) and `MILLIS_10` (bit 5).
  main.cpp uses `EVENT_SHUTDOWN_TIMEOUT`, `EVENT_MINUTES_10` and
  `EVENT_DISCONNECTED`, which types.h does not define. The model has the seven
  flags main.cpp uses. `ShutdownTimeout` takes `HOURS_3`'s bit 4,
  `Minutes10` takes the unused bit 1, and `Disconnected` takes bit 6. The
  proofs depend only on the bits being distinct single bits.
- The flag names do not match their thresholds. `MINUTES_10` fires after
  `kShutdownDelayMs`, which is one minute. `SHUTDOWN_TIMEOUT` fires after
  `kDisconnectAndShutdownDelayMs`, which is six hours (not three).
- The entry timestamp is not set to the startup time. The global
  `StateContainer` is zero-initialised (state Invalid, timestamp 0), and
  setup assigns only the state Off. `Initial` and the constructor model
  exactly that.
- EnsureDown and EnsureUp fall back to Sleep even with an empty event word,
  so an empty word does not always leave the state unchanged. `QuietSettles`
  proves that the machine settles after one quiet step. `getEvents` never
  returns an empty word anyway (`DerivedEventsNonEmpty`).
- The LED is driven high on every tick spent in Transmit
  (src/main.cpp:208), not only on the tick that enters it.

## Model

| member | source | states |
|---|---|---|
| Types.Value | types.h:2-10 | every enumerator has a value below 7, and the value is 0 exactly for STATE_INVALID |
| Types.FromValue | types.h:2-10 | each value 0..6 names the enumerator that has that value |
| Types.ValueRoundTrip | types.h:2-10 | value to enumerator and back is the identity: the seven enumerators are the only states |
| Types.ZeroStateContainer | types.h:12-15 | a zero-initialised StateContainer is in the invalid state with entry time 0 |
| Types.Mask | types.h:17-24 | no event flag is the empty word |
| Types.MaskSingleBit | types.h:19-23 | each event flag is a single power of two |
| Types.MasksDisjoint | types.h:19-23 | two flags share a bit exactly when they are the same flag |
| Types.NoneIsEmpty | types.h:18 | EVENT_NONE contains no flag |
| Types.HasMask | types.h:17-24 | a single flag's word contains that flag and no other |
| Types.HasUnion | src/main.cpp:153 | `e1 \| e2` contains a flag iff e1 or e2 does (OR is set union) |
| Types.OverlapsUnion | src/main.cpp:153 | a mask meets `a \| b` iff it meets a or meets b |
| Types.FromFlagsSnoc | src/main.cpp:150-171 | OR-ing one more flag into a word extends its flag list by that flag |
| Types.FromFlagsHas | src/main.cpp:150-171 | a word built by OR-ing a list of flags contains exactly the listed flags |
| Types.FlagsMembership | types.h:17-24 | `e & FLAG` is membership of FLAG in the word's flag set |
| Types.FlagsOfFromFlags | types.h:17-24 | building a word from flags and reading its flag set back gives the same set |
| Battery.TableDecreasing | src/main.cpp:52-55 | the anchor table falls strictly in both voltage and percentage |
| Battery.TableRange | src/main.cpp:52-55 | every anchor percentage lies in [0, 100] |
| Battery.Volts | src/main.cpp:49 | the voltage is the raw sample times 3.6 / 1024, and is never negative |
| Battery.Lerp | src/main.cpp:64 | the interpolation through two anchors gives each anchor's percentage at that anchor's voltage |
| Battery.LerpBetween | src/main.cpp:64 | on a falling segment the interpolated value lies between the two anchor percentages |
| Battery.LerpMonotone | src/main.cpp:64 | on a falling segment the interpolated value rises with the voltage |
| Battery.Bracket | src/main.cpp:60-61 | the search returns the first index at or after its start whose anchor voltage lies below the input |
| Battery.BracketSegment | src/main.cpp:60-63 | inside the table, the chosen pair brackets the input: `v[i] < volts <= v[i-1]` |
| Battery.Interpolate | src/main.cpp:57-66 | the unrounded level is 100 at or above 3.0 V, 0 at or below 2.0 V, and always within [0, 100] |
| Battery.InterpolateBracketed | src/main.cpp:60-64 | inside the table the level lies between the bracketing anchors' percentages |
| Battery.InterpolateMonotone | src/main.cpp:52-66 | a higher voltage never gives a lower level |
| Battery.Round | src/main.cpp:64 | round gives an integer within 0.5 of its argument, with halves away from zero |
| Battery.RoundMonotone | src/main.cpp:64 | rounding a non-negative value is monotone |
| Battery.BatLevel | src/main.cpp:48-67 | the battery percentage is at most 100, is 100 from 3.0 V up and is 0 from 2.0 V down |
| Battery.BatLevelMonotone | src/main.cpp:48-67 | a larger raw sample never reports less charge |
| Battery.GetBatLevel | src/main.cpp:48-68 | the early-return table search computes BatLevel; the final `return 0` is unreachable |
| Events.Elapsed | src/main.cpp:158 | the elapsed time is the uint32 difference: entry time plus elapsed is now modulo 2^32, with the wrap case made explicit |
| Events.Firing | src/main.cpp:150-171 | the flags getEvents sets are exactly those whose condition holds |
| Events.DerivedEventsMeaning | src/main.cpp:149-174 | the event word has BUTTON_DOWN iff the flag was set, BUTTON_UP iff the pin reads HIGH, each timeout iff elapsed strictly exceeds its threshold, and CONNECTED or DISCONNECTED as the link is up or down |
| Events.ConnectionExclusive | src/main.cpp:167-171 | exactly one of CONNECTED and DISCONNECTED is set, and CONNECTED matches the link status |
| Events.TimeoutsNested | src/main.cpp:158-166 | SHUTDOWN_TIMEOUT implies MINUTES_10, which implies MILLIS_10 |
| Events.DerivedEventsNonEmpty | src/main.cpp:150-171 | getEvents never returns EVENT_NONE |
| Events.Derive | src/main.cpp:150-173 | the successive ORs from EVENT_NONE produce exactly the flags whose conditions hold |
| StateMachine.Transition | src/main.cpp:83-139 | every live state yields a live state, and only the invalid state reaches the non-returning fallback |
| StateMachine.Advance | src/main.cpp:140-143 | the entry time becomes `now` when the state changes; otherwise the container is unchanged |
| StateMachine.TransitionEffects | src/main.cpp:121-134 | the switch writes something only on Transmit to EnsureUp and on EnsureUp to Sleep, never when the state stays, and at most two values |
| StateMachine.LedOffOnlyOnRelease | src/main.cpp:120-127 | the transition turns the LED off exactly on Transmit to EnsureUp |
| StateMachine.ReleasePublishedOnlyOnConfirm | src/main.cpp:128-136 | "button=0" and the battery level are written exactly on EnsureUp to Sleep |
| StateMachine.TransitionFollowsTable | src/main.cpp:85-136 | the switch equals a first-match reading of a per-state priority list of guarded rules with a fallback target |
| StateMachine.OffWakesOnlyOnPress | src/main.cpp:86-92 | Off leaves only for Broadcast, and only when BUTTON_DOWN is in the event set |
| StateMachine.BroadcastPriority | src/main.cpp:93-101 | in Broadcast, CONNECTED wins over MINUTES_10; otherwise the state stays Broadcast |
| StateMachine.SleepPriority | src/main.cpp:102-111 | in Sleep: BUTTON_DOWN, then SHUTDOWN_TIMEOUT, then DISCONNECTED, else stay |
| StateMachine.ConfirmationNeverSelfLoops | src/main.cpp:113-136 | EnsureDown and EnsureUp never stay put: Transmit on their confirming flag, otherwise Sleep |
| StateMachine.TransmitLeavesOnlyOnRelease | src/main.cpp:120-127 | Transmit leaves only on BUTTON_UP, and then to EnsureUp |
| StateMachine.TransmitEnteredOnlyFromConfirmation | src/main.cpp:113-136 | Transmit is reached only from EnsureDown, EnsureUp or itself |
| StateMachine.QuietSettles | src/main.cpp:85-139 | with no events, a live state settles after at most one step; it moves only from EnsureDown or EnsureUp |
| Controller.TickOutputsMeaning | src/main.cpp:176-215 | in one tick, "button=1" is written iff Transmit is entered from another state; "button=0" and the battery level iff EnsureUp goes to Sleep; LED low iff Transmit goes to EnsureUp; LED high iff the new state is Transmit |
| Controller.Initial | src/main.cpp:269 | after setup (over the zero-initialised global of line 147) the device is Off with entry time 0, running, with no press pending; the host was last told "button=0" and the LED is low |
| Controller.EntryEffects | src/main.cpp:204-208 | the entry action writes only in Transmit; "button=1" exactly on entering Transmit from another state; its last write is LED high |
| Controller.EntryAction | src/main.cpp:183-215 | the entry action powers off exactly in Off, waits for an event exactly in Broadcast and Sleep, and halts exactly for the invalid state |
| Controller.Step | src/main.cpp:179-215 | for any event word, the press flag ends cleared, the log only grows, the fallback is reached exactly from the invalid state, and the device is powered off exactly when the action is power-off |
| Controller.Tick | src/main.cpp:83-215 | a pending press always moves Off to Broadcast, Sleep to EnsureDown and EnsureUp to Transmit, and without a press none of these moves happens |
| Controller.Interrupt | src/main.cpp:24 | the interrupt sets the press flag and changes nothing else |
| Controller.Run | src/main.cpp:176-219 | a run only appends to the log, and a stopped device is left unchanged |
| Controller.StepBookkeeping | src/main.cpp:178-180 | for any event word, a tick moves to the transition's result, resets the entry time exactly on a change, clears the press flag, and stops running only by powering off in Off |
| Controller.PressConsumedOnce | src/main.cpp:149-154 | an interrupt's press is seen by the next tick and by no later one |
| Controller.BroadcastTimesOut | src/main.cpp:93-101 | Broadcast goes to Off only after more than one minute in it without a connection |
| Controller.SleepExits | src/main.cpp:102-111 | Sleep goes to Off only after six hours without a press, and to Broadcast only with the link down and no press |
| Controller.DebounceWaited | src/main.cpp:113-119 | EnsureDown goes to Transmit only after more than 10 ms in it |
| Controller.TimedExits | src/main.cpp:158-166 | Broadcast to Off needs one minute without a connection; Sleep to Off needs six hours without a press; Sleep to Broadcast needs a lost link; EnsureDown to Transmit needs more than 10 ms |
| Controller.PressLeavesSleep | src/main.cpp:103-105 | a pending press moves Sleep to EnsureDown, restarts the clock and writes nothing |
| Controller.DebouncedPressTransmits | src/main.cpp:113-115 | more than 10 ms in EnsureDown moves to Transmit, where the entry action (lines 204-208) writes "button=1" then LED high |
| Controller.ReleaseLeavesTransmit | src/main.cpp:120-124 | a HIGH pin in Transmit moves to EnsureUp and writes LED low |
| Controller.ReleaseConfirmed | src/main.cpp:128-134 | EnsureUp without a new press moves to Sleep, writing "button=0" and the battery level |
| Controller.PressScenario | src/main.cpp:103-115 | from Sleep, a press moves to EnsureDown with nothing written; a tick more than 10 ms later moves to Transmit and writes "button=1" then LED high |
| Controller.ReleaseScenario | src/main.cpp:120-134 | from Transmit, a HIGH pin moves to EnsureUp and writes LED low; the next tick without a press moves to Sleep and writes "button=0" and the battery level |
| Controller.TickOutputsView | src/main.cpp:204-208 | a tick's button write carries 1 on entering Transmit and 0 on EnsureUp to Sleep; its last LED write is high exactly when the new state is Transmit |
| Controller.InitialConsistent | src/main.cpp:260-269 | after setup (state Off, nothing published beyond setup's "button=0", LED low) the device is consistent |
| Controller.StepPreservesConsistent | src/main.cpp:176-215 | one tick, whatever its event word, keeps the host's button value and the LED in step with the state, and never reaches the fatal fallback |
| Controller.RunPreservesConsistent | src/main.cpp:176-219 | every sequence of interrupts and ticks keeps that agreement and never blinks to death |
| Controller.NeverStuckPressed | src/main.cpp:176-219 | from power-on, outside Transmit and EnsureUp the host was last told "released" and the LED is off, so power-off never leaves the button reported as held |
| Controller.Controller.constructor | src/main.cpp:269 | the globals start zero-initialised with the state then set to Off |
| Controller.Controller.ButtonInterrupt | src/main.cpp:24 | the interrupt sets the sticky press flag and changes nothing else |
| Controller.Controller.GetEvents | src/main.cpp:149-174 | the flag is tested and cleared, and the event word is the one derived from its old value |
| Controller.Controller.StateTransition | src/main.cpp:83-145 | the switch's result is returned and stored as the new state, the timestamp is reset exactly on a change, the switch's writes are logged, and the invalid state halts with the container untouched |
| Controller.Controller.EnterState | src/main.cpp:183-215 | the entry-action switch returns EntryAction of the new state, powers off in Off, and appends exactly the entry writes ("button=1" only on entering Transmit, then LED high in Transmit) |
| Controller.Controller.Loop | src/main.cpp:176-219 | one loop iteration takes the device to exactly the state and action `Tick` gives |

## Left out

- `readVoltageAdc` (ADC register writes and a busy-wait) is hardware. The raw sample is a tick input.
- Battery.BatLevel: computed over `real` with C's `round` on reals. The firmware's single-precision float arithmetic (and any rounding difference it causes) is not modelled.
- The BLE stack is not modelled: the peripheral and service objects, `blePeripheral.poll()`, `connected()` (an input here), and the iPhone characteristic and the connect/disconnect handlers. Of `setup`, the model keeps the state assignment (src/main.cpp:269), the "button=0" publication (src/main.cpp:260, the empty log's `LastButton` of 0) and the final LED-low write (src/main.cpp:227, the empty log's `LedLit` of false). Pin modes, the wake-up LED flash, the initial battery publication and the interrupt attachment are left out.
- The power calls `NRF_POWER->SYSTEMOFF`, `sd_app_evt_wait` and `sd_nvic_ClearPendingIRQ` are hardware and SoftDevice calls. They become the actions PowerOff and WaitForEvent. The missing `break` after SYSTEMOFF is unreachable, because power-off does not return.
- `loop`'s `default: blinkToDeath()` (src/main.cpp:212-214) is unreachable: `stateTransition` never yields the invalid state, and setup leaves the device in Off. `EnterState` therefore requires a live state, and the pure `Tick` keeps the case as the Halt action, which `NeverStuckPressed` proves never happens.
- blink.h is not modelled. `blinkToDeath` becomes the terminal status BlinkingToDeath. The LED writes of `blinkQuick` at the top of each loop are not in the log; it ends with the LED low, which agrees with the LED invariant.
- Interrupt concurrency is not modelled. The ISR write is a separate stimulus between ticks, and the flag's read and clear in `getEvents` are taken as one step.
- The separate `millis()` calls of one iteration are one `now` per tick.
- The commented-out alternative delay constant for other buttons is not modelled.
