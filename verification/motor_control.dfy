/**
  The ESP32 side: a servo driven by voice commands on the serial port, by the
  `g` trigger arriving over BLE, by a 15-second timeout and by a force sensor.

  `millis()`, the serial byte and the force-sensor reading are inputs of each
  `loop()` step; a BLE write is a separate event that lands between steps.
  The servo is represented by the last angle written to it.
 */
module MotorControl {
  import opened Wrappers
  import opened Bytes

  const Forward: int := 60
  const Reverse: int := 120
  const Neutral: int := 90
  /** Milliseconds to wait for the `g` trigger after a voice `G`. */
  const TimeoutMs: int := 15000
  /** Readings strictly above this count as pressure on the force sensor. */
  const FsrThreshold: int := 5

  datatype Controller = Controller(
    commandStack: seq<char>,
    bluetoothReceivedG: bool,
    isWaitingForBluetooth: bool,
    commandInterrupt: bool,
    lastCommandTime: U32,
    servo: int)

  /** One `loop()` pass: the serial byte if one is available, the two `millis()` readings, the sensor. */
  datatype LoopInput = LoopInput(voice: Option<char>, voiceClock: U32, timerClock: U32, fsr: int)

  datatype Event = BleWrite(value: seq<char>) | Tick(input: LoopInput)

  /** `setup()`: the motor is stopped and nothing is pending. */
  function Setup(): Controller
  {
    Controller([], false, false, false, 0, Neutral)
  }

  /** The `for` loop of `onWrite`: the flag ends up set iff it was set or some character is `g`. */
  function ScanWrite(flag: bool, value: seq<char>): (r: bool)
    ensures r <==> flag || 'g' in value
    decreases |value|
  {
    if |value| == 0 then flag
    else
      assert value == [value[0]] + value[1..];
      ScanWrite(flag || value[0] == 'g', value[1..])
  }

  /** `MyCallbacks::onWrite`: sets `bluetoothReceivedG` on a `g`; never clears it, touches nothing else. */
  function OnWrite(c: Controller, value: seq<char>): (r: Controller)
    ensures r.bluetoothReceivedG <==> c.bluetoothReceivedG || 'g' in value
    ensures r == c.(bluetoothReceivedG := r.bluetoothReceivedG)
  {
    c.(bluetoothReceivedG := ScanWrite(c.bluetoothReceivedG, value))
  }

  /** `std::find`: the index of the first `x`, or `|s|` (the end iterator) if there is none. */
  function Find(s: seq<char>, x: char): (i: nat)
    ensures i <= |s|
    ensures i < |s| ==> s[i] == x
    ensures forall j :: 0 <= j < i ==> s[j] != x
  {
    if |s| == 0 then 0
    else if s[0] == x then 0
    else 1 + Find(s[1..], x)
  }

  /** `commandStack.erase(find(..., 'G'))` when the find succeeds. */
  function ReleaseG(stack: seq<char>): (r: seq<char>)
    ensures 'G' !in stack ==> r == stack
    ensures 'G' in stack ==>
      exists i :: 0 <= i < |stack| && stack[i] == 'G' && 'G' !in stack[..i] && r == stack[..i] + stack[i + 1..]
    ensures multiset(r) == multiset(stack) - multiset{'G'}
  {
    var it := Find(stack, 'G');
    if it < |stack| then
      assert stack == stack[..it] + [stack[it]] + stack[it + 1..];
      stack[..it] + stack[it + 1..]
    else stack
  }

  /** `VoiceMode()`: act on one byte from the voice module, if one is available. */
  function VoiceMode(c: Controller, incoming: Option<char>, now: U32): (r: Controller)
    ensures r.bluetoothReceivedG == c.bluetoothReceivedG
    ensures multiset(r.commandStack) ==
      multiset(c.commandStack)
        + (if incoming == Some('G') then multiset{'G'} else multiset{})
        - (if incoming == Some('R') then multiset{'G'} else multiset{})
    ensures incoming == Some('G') ==>
      |r.commandStack| == |c.commandStack| + 1 && r.commandStack[..|c.commandStack|] == c.commandStack
    ensures incoming != Some('R') && incoming != Some('G') ==> r.commandStack == c.commandStack
    ensures r.isWaitingForBluetooth <==> c.isWaitingForBluetooth || incoming == Some('G')
    ensures incoming == Some('G') ==> r.lastCommandTime == now
    ensures incoming != Some('G') ==> r.lastCommandTime == c.lastCommandTime
    ensures r.commandInterrupt <==> c.commandInterrupt || incoming == Some('R') || incoming == Some('S')
    ensures incoming == Some('R') ==> r.servo == Reverse
    ensures incoming == Some('S') ==> r.servo == Neutral
    ensures incoming != Some('R') && incoming != Some('S') ==> r.servo == c.servo
  {
    if incoming.None? then c
    else if incoming.value == 'R' then
      c.(servo := Reverse, commandInterrupt := true, commandStack := ReleaseG(c.commandStack))
    else if incoming.value == 'S' then
      c.(servo := Neutral, commandInterrupt := true)
    else if incoming.value == 'G' then
      c.(commandStack := c.commandStack + ['G'], lastCommandTime := now, isWaitingForBluetooth := true)
    else c
  }

  /** `millis() - lastCommandTime` in `unsigned long` (32-bit) arithmetic: wraps modulo 2^32. */
  function Elapsed(now: U32, since: U32): (d: U32)
    ensures (since + d) % U32Range == now
  {
    (now - since) % U32Range
  }

  /** Across a wrap of the millisecond counter, the unsigned difference is still the true elapsed time. */
  lemma ElapsedAcrossWrap(since: U32, d: nat)
    requires d < U32Range
    ensures Elapsed(((since + d) % U32Range) as U32, since) == d
  {
    if since + d >= U32Range {
      assert (since + d) % U32Range == since + d - U32Range;
    }
  }

  /** `checkTimer()` */
  function CheckTimer(c: Controller, now: U32): (r: Controller)
    ensures r.commandStack == c.commandStack && r.lastCommandTime == c.lastCommandTime
    ensures r.commandInterrupt == c.commandInterrupt
    ensures r.isWaitingForBluetooth ==> c.isWaitingForBluetooth
    ensures c.isWaitingForBluetooth && !r.isWaitingForBluetooth <==>
      c.isWaitingForBluetooth && (c.bluetoothReceivedG || Elapsed(now, c.lastCommandTime) >= TimeoutMs)
    ensures c.isWaitingForBluetooth && !r.isWaitingForBluetooth ==> r.servo == Forward
    ensures r.isWaitingForBluetooth == c.isWaitingForBluetooth ==> r.servo == c.servo
    ensures r.bluetoothReceivedG <==> c.bluetoothReceivedG && !c.isWaitingForBluetooth
  {
    if !c.isWaitingForBluetooth then c
    else if c.bluetoothReceivedG then
      c.(servo := Forward, isWaitingForBluetooth := false, bluetoothReceivedG := false)
    else if Elapsed(now, c.lastCommandTime) >= TimeoutMs then
      c.(servo := Forward, isWaitingForBluetooth := false)
    else c
  }

  /** `checkFSRSensor()`: a pending interrupt is consumed instead of reading the sensor. */
  function CheckFsr(c: Controller, reading: int): (r: Controller)
    ensures !r.commandInterrupt
    ensures r.commandStack == c.commandStack && r.lastCommandTime == c.lastCommandTime
    ensures r.bluetoothReceivedG == c.bluetoothReceivedG && r.isWaitingForBluetooth == c.isWaitingForBluetooth
    ensures r.servo == Forward || r.servo == c.servo
    ensures c.commandInterrupt || reading <= FsrThreshold ==> r.servo == c.servo
    ensures !c.commandInterrupt && reading > FsrThreshold ==> r.servo == Forward
  {
    if c.commandInterrupt then c.(commandInterrupt := false)
    else if reading > FsrThreshold then c.(servo := Forward)
    else c
  }

  /** `loop()`: voice, then timer, then sensor. */
  function Loop(c: Controller, input: LoopInput): (r: Controller)
    ensures !r.commandInterrupt
    ensures r.bluetoothReceivedG ==> c.bluetoothReceivedG
    ensures KnownAngle(c) ==> KnownAngle(r)
  {
    CheckFsr(CheckTimer(VoiceMode(c, input.voice, input.voiceClock), input.timerClock), input.fsr)
  }

  function Apply(c: Controller, e: Event): Controller
  {
    match e
    case BleWrite(value) => OnWrite(c, value)
    case Tick(input) => Loop(c, input)
  }

  function RunEvents(c: Controller, events: seq<Event>): Controller
    decreases |events|
  {
    if |events| == 0 then c else RunEvents(Apply(c, events[0]), events[1..])
  }

  /** Every entry of the command stack is a `G`: the only insertion pushes one. */
  predicate OnlyGs(c: Controller)
  {
    forall i :: 0 <= i < |c.commandStack| ==> c.commandStack[i] == 'G'
  }

  /** Every servo angle ever written is one of the three positions. */
  predicate KnownAngle(c: Controller)
  {
    c.servo == Forward || c.servo == Reverse || c.servo == Neutral
  }

  predicate Invariant(c: Controller)
  {
    OnlyGs(c) && KnownAngle(c)
  }

  lemma SetupEstablishesInvariant()
    ensures Invariant(Setup())
    ensures Setup().servo == Neutral && Setup().commandStack == []
  {
  }

  /** Releasing a `G` leaves only entries that were already there. */
  lemma ReleaseGKeepsEntries(stack: seq<char>, x: char)
    requires x in ReleaseG(stack)
    ensures x in stack
  {
    assert x in multiset(ReleaseG(stack));
  }

  lemma ApplyKeepsInvariant(c: Controller, e: Event)
    requires Invariant(c)
    ensures Invariant(Apply(c, e))
  {
    if e.Tick? && e.input.voice == Some('R') {
      var r := ReleaseG(c.commandStack);
      forall i | 0 <= i < |r|
        ensures r[i] == 'G'
      {
        ReleaseGKeepsEntries(c.commandStack, r[i]);
      }
    }
  }

  lemma {:induction false} RunKeepsInvariant(c: Controller, events: seq<Event>)
    requires Invariant(c)
    ensures Invariant(RunEvents(c, events))
    decreases |events|
  {
    if |events| > 0 {
      ApplyKeepsInvariant(c, events[0]);
      RunKeepsInvariant(Apply(c, events[0]), events[1..]);
    }
  }

  /** Since the stack holds only `G`s, `R` releases the oldest entry, if any. */
  lemma ReverseReleasesOldest(c: Controller, now: U32)
    requires OnlyGs(c)
    ensures |c.commandStack| > 0 ==> VoiceMode(c, Some('R'), now).commandStack == c.commandStack[1..]
    ensures |c.commandStack| == 0 ==> VoiceMode(c, Some('R'), now).commandStack == []
  {
    if |c.commandStack| > 0 {
      assert c.commandStack[0] == 'G';
      assert Find(c.commandStack, 'G') == 0;
    }
  }

  /** In a pass that received `R` or `S`, the sensor reading makes no difference. */
  lemma VoiceCommandMasksSensor(c: Controller, input: LoopInput, otherReading: int)
    requires input.voice == Some('R') || input.voice == Some('S')
    ensures Loop(c, input) == Loop(c, input.(fsr := otherReading))
  {
  }

  /**
    After a voice `G`, a BLE `g` drives the motor forward on the next pass,
    whatever the clock says, and clears both the wait and the trigger.
   */
  lemma TriggerAfterGoDrivesForward(c: Controller, t: U32, value: seq<char>, next: LoopInput)
    requires !c.bluetoothReceivedG
    requires 'g' in value
    requires next.voice.None?
    ensures var after := RunEvents(c, [Tick(LoopInput(Some('G'), t, t, 0)), BleWrite(value), Tick(next)]);
      && after.servo == Forward
      && !after.isWaitingForBluetooth
      && !after.bluetoothReceivedG
  {
    var es := [Tick(LoopInput(Some('G'), t, t, 0)), BleWrite(value), Tick(next)];
    var c1 := Loop(c, LoopInput(Some('G'), t, t, 0));
    var c2 := OnWrite(c1, value);
    assert es[1..] == [BleWrite(value), Tick(next)];
    assert es[1..][1..] == [Tick(next)];
    assert RunEvents(c2, [Tick(next)]) == Loop(c2, next);
    assert RunEvents(c, es) == RunEvents(c1, es[1..]) == RunEvents(c2, es[1..][1..]);
    assert c1.isWaitingForBluetooth;
  }

  /**
    With no trigger, a pending `G` drives forward exactly when 15 s have
    passed since it arrived, even if the millisecond counter wrapped in
    between.
   */
  lemma TimeoutAcrossWrap(c: Controller, d: nat)
    requires c.isWaitingForBluetooth && !c.bluetoothReceivedG
    requires d < U32Range
    ensures var now := ((c.lastCommandTime + d) % U32Range) as U32;
      && (!CheckTimer(c, now).isWaitingForBluetooth <==> d >= TimeoutMs)
      && (d >= TimeoutMs ==> CheckTimer(c, now) == c.(servo := Forward, isWaitingForBluetooth := false))
      && (d < TimeoutMs ==> CheckTimer(c, now) == c)
  {
    ElapsedAcrossWrap(c.lastCommandTime, d);
  }

  /**
    A `g` written while no `G` is pending stays latched, so the next voice
    `G` drives forward in the same pass instead of waiting for a fresh
    trigger.
   */
  lemma LatchedTriggerFiresNextGo(c: Controller, input: LoopInput)
    requires c.bluetoothReceivedG && !c.isWaitingForBluetooth
    requires input.voice == Some('G')
    ensures Loop(c, input).servo == Forward
    ensures !Loop(c, input).isWaitingForBluetooth
    ensures !Loop(c, input).bluetoothReceivedG
  {
  }

  /** `R` reverses and releases a `G`, but the pending wait survives: the timer can still drive forward later. */
  lemma ReverseKeepsPendingWait(c: Controller, now: U32)
    requires c.isWaitingForBluetooth
    ensures VoiceMode(c, Some('R'), now).isWaitingForBluetooth
    ensures VoiceMode(c, Some('R'), now).servo == Reverse
  {
  }
}
