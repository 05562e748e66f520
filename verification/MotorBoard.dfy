/**
The motor board: a main loop that sets up pins and timers one register at a time,
and a UART interrupt that may run between any two of those operations.
*/
module MotorBoard {
  import opened Common

  /** Forward and backward input of each motor's bridge. */
  datatype Pin = P40 | P83 | P17 | P16

  datatype Timer = TA0 | TA1

  datatype Motor = Motor1 | Motor2

  datatype Direction = Ahead | Back

  /** Pins given to their timer, pins whose output latch is high, timers that count. */
  datatype Regs = Regs(timed: set<Pin>, high: set<Pin>, running: set<Timer>)

  datatype Op =
    | SetCompare(t: Timer) | InitCompare(t: Timer) | StopTimer(t: Timer) | StartTimer(t: Timer)
    | AsOutput(p: Pin) | DriveLow(p: Pin) | AsTimed(p: Pin)

  function Apply(r: Regs, op: Op): Regs {
    match op
    case SetCompare(_) => r
    case InitCompare(_) => r
    case StopTimer(t) => r.(running := r.running - {t})
    case StartTimer(t) => r.(running := r.running + {t})
    case AsOutput(p) => r.(timed := r.timed - {p})
    case DriveLow(p) => r.(high := r.high - {p})
    case AsTimed(p) => r.(timed := r.timed + {p})
  }

  function ApplyAll(r: Regs, ops: seq<Op>): Regs
    decreases |ops|
  {
    if ops == [] then r else ApplyAll(Apply(r, ops[0]), ops[1..])
  }

  /* ---- The driver ---- */

  /** PWMMotor: the register operations, in the order each branch performs them. */
  function Pwm(m: Motor, d: Direction): seq<Op> {
    match (m, d)
    case (Motor1, Ahead) =>
      [SetCompare(TA1), StopTimer(TA1), AsOutput(P40), DriveLow(P40), AsTimed(P83), InitCompare(TA1), StartTimer(TA1)]
    case (Motor1, Back) =>
      [StopTimer(TA1), SetCompare(TA1), AsOutput(P83), DriveLow(P83), AsTimed(P40), InitCompare(TA1), StartTimer(TA1)]
    case (Motor2, Ahead) =>
      [StopTimer(TA0), SetCompare(TA0), AsOutput(P16), DriveLow(P16), AsTimed(P17), InitCompare(TA0), StartTimer(TA0)]
    case (Motor2, Back) =>
      [StopTimer(TA0), SetCompare(TA0), AsOutput(P17), DriveLow(P17), AsTimed(P16), InitCompare(TA0), StartTimer(TA0)]
  }

  /** turnOffMotor: both branches stop timer A0, although motor 1 runs on timer A1. */
  function TurnOff(m: Motor): seq<Op> {
    if m == Motor1 then [StopTimer(TA0), AsOutput(P40), DriveLow(P40), AsOutput(P83), DriveLow(P83)]
    else [StopTimer(TA0), AsOutput(P17), DriveLow(P17), AsOutput(P16), DriveLow(P16)]
  }

  const ALL_OFF := TurnOff(Motor1) + TurnOff(Motor2)

  datatype Move = MoveForward | MoveBackward | MoveLeft | MoveRight

  /** The two PWMMotor calls that open each move function. */
  function SetUp(c: Move): seq<Op> {
    match c
    case MoveForward => Pwm(Motor1, Ahead) + Pwm(Motor2, Ahead)
    case MoveBackward => Pwm(Motor1, Back) + Pwm(Motor2, Back)
    case MoveLeft => Pwm(Motor2, Back) + Pwm(Motor1, Ahead)
    case MoveRight => Pwm(Motor2, Ahead) + Pwm(Motor1, Back)
  }

  /* ---- The program ---- */

  const MOTOR_STOP: Byte := 'S' as int
  const DELAY_TESTS: nat := 10 * 0xFFFF

  function Letter(c: Move): Byte {
    match c
    case MoveForward => 'F' as int
    case MoveBackward => 'B' as int
    case MoveLeft => 'L' as int
    case MoveRight => 'R' as int
  }

  /** Where the main loop stands. */
  datatype Pc =
    | Poll                 // while RXData is 0
    | Clear                // about to clear the stop flag
    | Test(c: Move)        // about to compare RXData with this letter
    | Setting(ops: seq<Op>) // inside the two PWMMotor calls
    | Waiting(n: nat)      // in the delay loops, n tests of the stop flag left
    | Ending(ops: seq<Op>)  // inside the two turnOffMotor calls
    | Forget               // about to zero RXData

  /** isr is what the interrupt routine still has to do; it runs to its end before anything else. */
  datatype State = State(regs: Regs, flag: bool, rx: Byte, pc: Pc, isr: seq<Op>)

  datatype Event = Cpu | Receive(b: Byte)

  function MainStep(s: State): State {
    match s.pc
    case Poll => if s.rx != 0 then s.(pc := Clear) else s
    case Clear => s.(flag := false, pc := Test(MoveForward))
    case Test(c) =>
      if s.rx == Letter(c) then s.(pc := Setting(SetUp(c)))
      else (match c
            case MoveForward => s.(pc := Test(MoveBackward))
            case MoveBackward => s.(pc := Test(MoveLeft))
            case MoveLeft => s.(pc := Test(MoveRight))
            case MoveRight => s.(pc := Forget))
    case Setting(ops) =>
      if ops == [] then s.(pc := Waiting(DELAY_TESTS))
      else s.(regs := Apply(s.regs, ops[0]), pc := Setting(ops[1..]))
    case Waiting(n) =>
      if n == 0 then s.(pc := Ending(ALL_OFF))
      else if s.flag then s.(pc := Forget)
      else s.(pc := Waiting(n - 1))
    case Ending(ops) =>
      if ops == [] then s.(pc := Forget)
      else s.(regs := Apply(s.regs, ops[0]), pc := Ending(ops[1..]))
    case Forget => s.(rx := 0, pc := Poll)
  }

  /** EUSCI_A0_ISR on a received byte. */
  function Interrupt(s: State, b: Byte): State {
    if b == MOTOR_STOP then s.(rx := b, flag := true, isr := ALL_OFF) else s.(rx := b)
  }

  function Step(s: State, e: Event): State {
    if s.isr != [] then s.(regs := Apply(s.regs, s.isr[0]), isr := s.isr[1..])
    else match e
         case Cpu => MainStep(s)
         case Receive(b) => Interrupt(s, b)
  }

  function Run(s: State, events: seq<Event>): State
    decreases |events|
  {
    if events == [] then s else Run(Step(s, events[0]), events[1..])
  }

  /** After initMotors: every pin belongs to its timer, both timers stopped, latches unknown. */
  function Boot(high: set<Pin>): State {
    State(Regs({P40, P83, P17, P16}, high, {}), false, 0, Poll, [])
  }

  /* ---- Interlock ---- */

  function TimerOf(p: Pin): Timer { if p == P40 || p == P83 then TA1 else TA0 }

  /** No motor has both inputs timer-driven while its timer runs. */
  predicate Interlock(r: Regs) {
    && !(P40 in r.timed && P83 in r.timed && TA1 in r.running)
    && !(P17 in r.timed && P16 in r.timed && TA0 in r.running)
  }

  /** This input can be high: it is on its running timer, or a plain output whose latch is high. */
  predicate High(r: Regs, p: Pin) { if p in r.timed then TimerOf(p) in r.running else p in r.high }

  /** No motor has both inputs high, from whatever source. */
  predicate OneInput(r: Regs) { !(High(r, P40) && High(r, P83)) && !(High(r, P17) && High(r, P16)) }

  /** Beside a driven input the latch of the other is low, and never are both latches of a motor high. */
  predicate LatchesApart(r: Regs, p: Pin, q: Pin, t: Timer) {
    && !(p in r.high && q in r.high)
    && (t in r.running && p in r.timed ==> q !in r.high)
    && (t in r.running && q in r.timed ==> p !in r.high)
  }

  /** What every operation keeps; the part about latches only if it held at boot. */
  predicate Guarded(r: Regs, latched: bool) {
    && Interlock(r)
    && (latched ==> LatchesApart(r, P40, P83, TA1) && LatchesApart(r, P17, P16, TA0))
  }

  lemma GuardedOneInput(r: Regs)
    requires Guarded(r, true)
    ensures OneInput(r)
  {
  }

  /** The guard holds now and after each of these operations. */
  predicate SafeThrough(r: Regs, ops: seq<Op>, latched: bool)
    decreases |ops|
  {
    Guarded(r, latched) && (ops == [] || SafeThrough(Apply(r, ops[0]), ops[1..], latched))
  }

  predicate Below(r: Regs, q: Regs) { r.timed <= q.timed && r.running <= q.running && r.high <= q.high }

  /** Switching more off can only help. */
  lemma {:induction false} SafeBelow(r: Regs, q: Regs, ops: seq<Op>, latched: bool)
    requires Below(r, q) && SafeThrough(q, ops, latched)
    ensures SafeThrough(r, ops, latched)
    decreases |ops|
  {
    if ops != [] {
      SafeBelow(Apply(r, ops[0]), Apply(q, ops[0]), ops[1..], latched);
    }
  }

  lemma {:induction false} SafeConcat(r: Regs, a: seq<Op>, b: seq<Op>, latched: bool)
    requires SafeThrough(r, a, latched) && SafeThrough(ApplyAll(r, a), b, latched)
    ensures SafeThrough(r, a + b, latched)
    decreases |a|
  {
    if a == [] {
      assert a + b == b;
    } else {
      assert (a + b)[1..] == a[1..] + b;
      SafeConcat(Apply(r, a[0]), a[1..], b, latched);
    }
  }

  lemma {:induction false} SafeToEnd(r: Regs, ops: seq<Op>, latched: bool)
    requires SafeThrough(r, ops, latched)
    ensures Guarded(ApplyAll(r, ops), latched)
    decreases |ops|
  {
    if ops != [] {
      SafeToEnd(Apply(r, ops[0]), ops[1..], latched);
    }
  }

  lemma SafeCons(r: Regs, op: Op, rest: seq<Op>, latched: bool)
    requires Guarded(r, latched) && SafeThrough(Apply(r, op), rest, latched)
    ensures SafeThrough(r, [op] + rest, latched)
  {
    assert ([op] + rest)[1..] == rest;
  }

  /** The shape all four branches of PWMMotor share: stop, one input low, the other on the timer, start. */
  lemma BranchSafe(r: Regs, t: Timer, low: Pin, timed: Pin, latched: bool)
    requires Guarded(r, latched) && low != timed && TimerOf(low) == t && TimerOf(timed) == t
    ensures SafeThrough(r, [StopTimer(t), AsOutput(low), DriveLow(low), AsTimed(timed), StartTimer(t)], latched)
  {
    var r1 := Apply(r, StopTimer(t));
    var r2 := Apply(r1, AsOutput(low));
    var r3 := Apply(r2, DriveLow(low));
    var r4 := Apply(r3, AsTimed(timed));
    var r5 := Apply(r4, StartTimer(t));
    assert SafeThrough(r5, [], latched);
    SafeCons(r4, StartTimer(t), [], latched);
    SafeCons(r3, AsTimed(timed), [StartTimer(t)], latched);
    SafeCons(r2, DriveLow(low), [AsTimed(timed), StartTimer(t)], latched);
    SafeCons(r1, AsOutput(low), [DriveLow(low), AsTimed(timed), StartTimer(t)], latched);
    SafeCons(r, StopTimer(t), [AsOutput(low), DriveLow(low), AsTimed(timed), StartTimer(t)], latched);
    assert [StartTimer(t)] + [] == [StartTimer(t)];
    assert [AsTimed(timed)] + [StartTimer(t)] == [AsTimed(timed), StartTimer(t)];
    assert [DriveLow(low)] + [AsTimed(timed), StartTimer(t)] == [DriveLow(low), AsTimed(timed), StartTimer(t)];
    assert [AsOutput(low)] + [DriveLow(low), AsTimed(timed), StartTimer(t)]
        == [AsOutput(low), DriveLow(low), AsTimed(timed), StartTimer(t)];
    assert [StopTimer(t)] + [AsOutput(low), DriveLow(low), AsTimed(timed), StartTimer(t)]
        == [StopTimer(t), AsOutput(low), DriveLow(low), AsTimed(timed), StartTimer(t)];
  }

  /** Compare registers do not matter to the guard. */
  predicate Idle(op: Op) { op.SetCompare? || op.InitCompare? }

  function Essential(ops: seq<Op>): seq<Op> {
    if ops == [] then [] else if Idle(ops[0]) then Essential(ops[1..]) else [ops[0]] + Essential(ops[1..])
  }

  lemma {:induction false} EssentialSafe(r: Regs, ops: seq<Op>, latched: bool)
    requires SafeThrough(r, Essential(ops), latched)
    ensures SafeThrough(r, ops, latched)
    decreases |ops|
  {
    if ops != [] {
      if Idle(ops[0]) {
        EssentialSafe(r, ops[1..], latched);
      } else {
        assert ([ops[0]] + Essential(ops[1..]))[1..] == Essential(ops[1..]);
        EssentialSafe(Apply(r, ops[0]), ops[1..], latched);
      }
    }
  }

  lemma {:induction false} EssentialConcat(a: seq<Op>, b: seq<Op>)
    ensures Essential(a + b) == Essential(a) + Essential(b)
    decreases |a|
  {
    if a == [] {
      assert a + b == b;
    } else {
      assert (a + b)[1..] == a[1..] + b;
      EssentialConcat(a[1..], b);
    }
  }

  lemma EssentialOne(op: Op)
    ensures Essential([op]) == if Idle(op) then [] else [op]
  {
    assert [op][1..] == [];
  }

  /** Every branch of PWMMotor comes down to that shape. */
  lemma EssentialPwm(m: Motor, d: Direction) returns (t: Timer, low: Pin, timed: Pin)
    ensures low != timed && TimerOf(low) == t && TimerOf(timed) == t
    ensures Essential(Pwm(m, d)) == [StopTimer(t), AsOutput(low), DriveLow(low), AsTimed(timed), StartTimer(t)]
  {
    t := if m == Motor1 then TA1 else TA0;
    low := if m == Motor1 then (if d == Ahead then P40 else P83) else (if d == Ahead then P16 else P17);
    timed := if m == Motor1 then (if d == Ahead then P83 else P40) else (if d == Ahead then P17 else P16);
    var head := if m == Motor1 && d == Ahead then [SetCompare(t)] + [StopTimer(t)] else [StopTimer(t)] + [SetCompare(t)];
    var rest := [AsOutput(low)] + ([DriveLow(low)] + ([AsTimed(timed)] + ([InitCompare(t)] + [StartTimer(t)])));
    assert Pwm(m, d) == head + rest;
    EssentialConcat(head, rest);
    EssentialHead(t);
    EssentialRest(t, low, timed);
  }

  lemma EssentialHead(t: Timer)
    ensures Essential([SetCompare(t)] + [StopTimer(t)]) == [StopTimer(t)]
    ensures Essential([StopTimer(t)] + [SetCompare(t)]) == [StopTimer(t)]
  {
    EssentialConcat([SetCompare(t)], [StopTimer(t)]);
    EssentialConcat([StopTimer(t)], [SetCompare(t)]);
    EssentialOne(SetCompare(t));
    EssentialOne(StopTimer(t));
  }

  lemma EssentialRest(t: Timer, low: Pin, timed: Pin)
    ensures Essential([AsOutput(low)] + ([DriveLow(low)] + ([AsTimed(timed)] + ([InitCompare(t)] + [StartTimer(t)]))))
         == [AsOutput(low), DriveLow(low), AsTimed(timed), StartTimer(t)]
  {
    EssentialConcat([AsOutput(low)], [DriveLow(low)] + ([AsTimed(timed)] + ([InitCompare(t)] + [StartTimer(t)])));
    EssentialConcat([DriveLow(low)], [AsTimed(timed)] + ([InitCompare(t)] + [StartTimer(t)]));
    EssentialConcat([AsTimed(timed)], [InitCompare(t)] + [StartTimer(t)]);
    EssentialConcat([InitCompare(t)], [StartTimer(t)]);
    EssentialOne(AsOutput(low));
    EssentialOne(DriveLow(low));
    EssentialOne(AsTimed(timed));
    EssentialOne(InitCompare(t));
    EssentialOne(StartTimer(t));
  }

  lemma PwmSafe(r: Regs, m: Motor, d: Direction, latched: bool)
    requires Guarded(r, latched)
    ensures SafeThrough(r, Pwm(m, d), latched)
  {
    var t, low, timed := EssentialPwm(m, d);
    BranchSafe(r, t, low, timed, latched);
    EssentialSafe(r, Pwm(m, d), latched);
  }

  lemma SetUpSafe(r: Regs, c: Move, latched: bool)
    requires Guarded(r, latched)
    ensures SafeThrough(r, SetUp(c), latched)
  {
    var m, d := if c.MoveForward? || c.MoveBackward? then Motor1 else Motor2,
                if c.MoveForward? || c.MoveRight? then Ahead else Back;
    var m', d' := if c.MoveForward? || c.MoveBackward? then Motor2 else Motor1,
                  if c.MoveForward? || c.MoveLeft? then Ahead else Back;
    PwmSafe(r, m, d, latched);
    SafeToEnd(r, Pwm(m, d), latched);
    PwmSafe(ApplyAll(r, Pwm(m, d)), m', d', latched);
    SafeConcat(r, Pwm(m, d), Pwm(m', d'), latched);
  }

  /** Operations that only switch off. */
  predicate OffOp(op: Op) { op.StopTimer? || op.AsOutput? || op.DriveLow? }

  predicate OffOps(ops: seq<Op>) { forall k :: 0 <= k < |ops| ==> OffOp(ops[k]) }

  lemma {:induction false} OffSafe(r: Regs, ops: seq<Op>, latched: bool)
    requires Guarded(r, latched) && OffOps(ops)
    ensures SafeThrough(r, ops, latched)
    decreases |ops|
  {
    if ops != [] {
      OffSafe(Apply(r, ops[0]), ops[1..], latched);
    }
  }

  /** What the main loop will do to the registers if nothing intervenes. */
  function Remaining(pc: Pc): seq<Op> {
    match pc
    case Setting(ops) => ops
    case Ending(ops) => ops
    case _ => []
  }

  ghost predicate Inv(s: State, latched: bool) { SafeThrough(s.regs, Remaining(s.pc), latched) && OffOps(s.isr) }

  lemma StepInv(s: State, e: Event, latched: bool)
    requires Inv(s, latched)
    ensures Inv(Step(s, e), latched)
  {
    if s.isr != [] {
      SafeBelow(Apply(s.regs, s.isr[0]), s.regs, Remaining(s.pc), latched);
    } else if e.Cpu? {
      match s.pc {
        case Test(c) => SetUpSafe(s.regs, c, latched);
        case Waiting(n) => OffSafe(s.regs, ALL_OFF, latched);
        case _ =>
      }
    }
  }

  lemma {:induction false} InterlockFrom(s: State, events: seq<Event>, latched: bool)
    requires Inv(s, latched)
    ensures Inv(Run(s, events), latched) && Guarded(Run(s, events).regs, latched)
    decreases |events|
  {
    if events != [] {
      StepInv(s, events[0], latched);
      InterlockFrom(Step(s, events[0]), events[1..], latched);
    }
  }

  /**
  Interlock: from boot, whatever bytes arrive and between whatever register
  operations the interrupt runs, no motor ever has both inputs driven.
  */
  lemma InterlockAlways(high: set<Pin>, events: seq<Event>)
    ensures Interlock(Run(Boot(high), events).regs)
  {
    InterlockFrom(Boot(high), events, false);
  }

  /* ---- STOP ---- */

  /** Some input is driven by its running timer: a motor turns. */
  ghost predicate Driven(r: Regs) { exists p :: p in r.timed && TimerOf(p) in r.running }

  /** All four inputs are plain outputs, driven low. */
  predicate Quiet(r: Regs) { r.timed == {} && r.high == {} }

  predicate NoTimed(ops: seq<Op>) { forall k :: 0 <= k < |ops| ==> !ops[k].AsTimed? }

  /** This turn takes the main loop into the set-up of a move. */
  predicate StartsMove(s: State, e: Event) { Step(s, e).pc.Setting? && !s.pc.Setting? }

  /** No move is set up during these events. */
  predicate NoNewMove(s: State, events: seq<Event>)
    decreases |events|
  {
    events == [] || (!StartsMove(s, events[0]) && NoNewMove(Step(s, events[0]), events[1..]))
  }

  ghost predicate Silent(s: State) {
    Quiet(s.regs) && NoTimed(Remaining(s.pc)) && OffOps(s.isr)
  }

  lemma SilentStep(s: State, e: Event)
    requires Silent(s) && !StartsMove(s, e)
    ensures Silent(Step(s, e))
  {
  }

  lemma {:induction false} StaysSilent(s: State, events: seq<Event>)
    requires Silent(s) && NoNewMove(s, events)
    ensures Silent(Run(s, events))
    decreases |events|
  {
    if events != [] {
      SilentStep(s, events[0]);
      StaysSilent(Step(s, events[0]), events[1..]);
    }
  }

  function Cpus(n: nat): seq<Event> { seq(n, _ => Cpu) }

  lemma {:induction false} RunConcat(s: State, a: seq<Event>, b: seq<Event>)
    ensures Run(s, a + b) == Run(Run(s, a), b)
    decreases |a|
  {
    if a == [] {
      assert a + b == b;
    } else {
      assert (a + b)[1..] == a[1..] + b;
      RunConcat(Step(s, a[0]), a[1..], b);
    }
  }

  lemma {:induction false} IsrDrains(s: State)
    ensures Run(s, Cpus(|s.isr|)) == s.(regs := ApplyAll(s.regs, s.isr), isr := [])
    decreases |s.isr|
  {
    if s.isr != [] {
      assert Cpus(|s.isr|)[1..] == Cpus(|s.isr| - 1);
      IsrDrains(Step(s, Cpu));
    }
  }

  lemma {:induction false} SetUpDrains(s: State)
    requires s.isr == [] && s.pc.Setting?
    ensures Run(s, Cpus(|s.pc.ops|)) == s.(regs := ApplyAll(s.regs, s.pc.ops), pc := Setting([]))
    decreases |s.pc.ops|
  {
    if s.pc.ops != [] {
      assert Cpus(|s.pc.ops|)[1..] == Cpus(|s.pc.ops| - 1);
      SetUpDrains(Step(s, Cpu));
    }
  }

  lemma ApplyCons(r: Regs, a: Op, rest: seq<Op>)
    ensures ApplyAll(r, [a] + rest) == ApplyAll(Apply(r, a), rest)
  {
    assert ([a] + rest)[1..] == rest;
  }

  lemma ApplyThree(r: Regs, a: Op, b: Op, c: Op)
    ensures ApplyAll(r, [a, b, c]) == Apply(Apply(Apply(r, a), b), c)
  {
    assert [a, b, c] == [a] + [b, c] && [b, c] == [b] + [c] && [c] == [c] + [];
    ApplyCons(r, a, [b, c]);
    ApplyCons(Apply(r, a), b, [c]);
    ApplyCons(Apply(Apply(r, a), b), c, []);
  }

  lemma ApplyFive(r: Regs, a: Op, b: Op, c: Op, d: Op, e: Op)
    ensures ApplyAll(r, [a, b, c, d, e]) == Apply(Apply(Apply(Apply(Apply(r, a), b), c), d), e)
  {
    assert [a, b, c, d, e] == [a] + [b, c, d, e] && [b, c, d, e] == [b] + [c, d, e];
    ApplyCons(r, a, [b, c, d, e]);
    ApplyCons(Apply(r, a), b, [c, d, e]);
    ApplyThree(Apply(Apply(r, a), b), c, d, e);
  }

  lemma {:induction false} ApplyConcat(r: Regs, a: seq<Op>, b: seq<Op>)
    ensures ApplyAll(r, a + b) == ApplyAll(ApplyAll(r, a), b)
    decreases |a|
  {
    if a == [] {
      assert a + b == b;
    } else {
      assert (a + b)[1..] == a[1..] + b;
      ApplyConcat(Apply(r, a[0]), a[1..], b);
    }
  }

  lemma AllPins(pins: set<Pin>)
    ensures pins - {P40} - {P83} - {P17} - {P16} == {}
  {
    var rest := pins - {P40} - {P83} - {P17} - {P16};
    forall p: Pin ensures p !in rest {
      match p {
        case P40 => case P83 => case P17 => case P16 =>
      }
    }
  }

  lemma OffMeansQuiet(r: Regs)
    ensures Quiet(ApplyAll(r, ALL_OFF))
  {
    ApplyConcat(r, TurnOff(Motor1), TurnOff(Motor2));
    ApplyFive(r, StopTimer(TA0), AsOutput(P40), DriveLow(P40), AsOutput(P83), DriveLow(P83));
    ApplyFive(ApplyAll(r, TurnOff(Motor1)), StopTimer(TA0), AsOutput(P17), DriveLow(P17), AsOutput(P16), DriveLow(P16));
    AllPins(r.timed);
    AllPins(r.high);
  }

  /** The state once the interrupt routine has dealt with a STOP. */
  function AfterStop(s: State): State { Run(Interrupt(s, MOTOR_STOP), Cpus(|ALL_OFF|)) }

  lemma StopTakes(s: State)
    requires s.isr == []
    ensures AfterStop(s) == State(ApplyAll(s.regs, ALL_OFF), true, MOTOR_STOP, s.pc, []) && Quiet(AfterStop(s).regs)
  {
    IsrDrains(Interrupt(s, MOTOR_STOP));
    OffMeansQuiet(s.regs);
  }

  /**
  A STOP that finds no pin still to be handed to a timer turns all four inputs off
  and keeps them off, whatever happens next, until another move is set up.
  */
  lemma StopHolds(s: State, events: seq<Event>)
    requires s.isr == [] && NoTimed(Remaining(s.pc)) && NoNewMove(AfterStop(s), events)
    ensures Quiet(Run(AfterStop(s), events).regs)
  {
    StopTakes(s);
    StaysSilent(AfterStop(s), events);
  }

  /* ---- A STOP inside the set-up ---- */

  /** In the set-up of move c, with these operations to go. */
  ghost predicate InSetUp(s: State, c: Move, k: nat) {
    s.isr == [] && k <= |SetUp(c)| && s.pc == Setting(SetUp(c)[k..])
  }

  /** The end of each set-up: a pin handed to its timer, and that timer started. */
  lemma SetUpEnd(c: Move) returns (p: Pin)
    ensures |SetUp(c)| == 14 && SetUp(c)[11..] == [AsTimed(p), InitCompare(TimerOf(p)), StartTimer(TimerOf(p))]
  {
    p := match c
         case MoveForward => P17
         case MoveBackward => P16
         case MoveLeft => P83
         case MoveRight => P40;
  }

  lemma {:induction false} QuietThrough(r: Regs, ops: seq<Op>)
    requires Quiet(r) && NoTimed(ops)
    ensures Quiet(ApplyAll(r, ops))
    decreases |ops|
  {
    if ops != [] {
      QuietThrough(Apply(r, ops[0]), ops[1..]);
    }
  }

  /** The last three operations of a set-up drive an input, whatever came before. */
  lemma EndDrives(q: Regs, p: Pin, ops: seq<Op>)
    requires ops == [AsTimed(p), InitCompare(TimerOf(p)), StartTimer(TimerOf(p))]
    ensures var r := ApplyAll(q, ops); p in r.timed && Driven(r) && !Quiet(r)
  {
    ApplyThree(q, AsTimed(p), InitCompare(TimerOf(p)), StartTimer(TimerOf(p)));
    assert p in ApplyAll(q, ops).timed;
  }

  /** What the rest of a set-up makes of registers that a STOP has just turned off. */
  lemma RestOfSetUp(r: Regs, c: Move, k: nat)
    requires Quiet(r) && k <= |SetUp(c)|
    ensures Quiet(ApplyAll(r, SetUp(c)[k..])) <==> |SetUp(c)| - k < 3
    ensures |SetUp(c)| - k >= 3 ==> Driven(ApplyAll(r, SetUp(c)[k..]))
  {
    var p := SetUpEnd(c);
    var ops := SetUp(c);
    if k <= 11 {
      SplitOps(ops, k, 11);
      ApplyConcat(r, ops[k..11], ops[11..]);
      EndDrives(ApplyAll(r, ops[k..11]), p, ops[11..]);
    } else {
      assert ops[k..] == ops[11..][k - 11..];
      QuietThrough(r, ops[k..]);
    }
  }

  lemma SplitOps(ops: seq<Op>, k: nat, m: nat)
    requires k <= m <= |ops|
    ensures ops[k..] == ops[k..m] + ops[m..]
  {
  }

  lemma TimedLeft(c: Move, k: nat)
    requires k <= |SetUp(c)|
    ensures NoTimed(SetUp(c)[k..]) <==> |SetUp(c)| - k < 3
  {
    var p := SetUpEnd(c);
    if k <= 11 {
      assert SetUp(c)[k..][11 - k] == SetUp(c)[11..][0];
    } else {
      assert SetUp(c)[k..] == SetUp(c)[11..][k - 11..];
    }
  }

  /** With the stop flag set, the delay loop returns at once and the command is forgotten. */
  lemma ReturnsAtOnce(s: State)
    requires s.pc == Setting([]) && s.flag && s.isr == []
    ensures Run(s, Cpus(3)) == s.(rx := 0, pc := Poll)
  {
    assert Cpus(3)[1..] == Cpus(2) && Cpus(2)[1..] == Cpus(1) && Cpus(1)[1..] == Cpus(0);
    var s1, s2, s3 := Step(s, Cpu), Step(Step(s, Cpu), Cpu), Step(Step(Step(s, Cpu), Cpu), Cpu);
    assert s1.pc == Waiting(DELAY_TESTS) && s2.pc == Forget;
    assert Run(s3, Cpus(0)) == s3;
    assert Run(s2, Cpus(1)) == s3;
    assert Run(s1, Cpus(2)) == s3;
  }

  /** The rest of the set-up runs behind the interrupt, and the loop is back at its poll. */
  lemma StopRunsOn(s: State, c: Move, k: nat)
    requires InSetUp(s, c, k)
    ensures var r := AfterStop(s).regs; var s' := Run(AfterStop(s), Cpus(|SetUp(c)| - k + 3));
      && Quiet(r) && s'.pc == Poll && s'.rx == 0 && s'.isr == []
      && s'.regs == ApplyAll(r, SetUp(c)[k..])
  {
    var n := |SetUp(c)| - k;
    var a := AfterStop(s);
    StopTakes(s);
    SetUpDrains(a);
    assert Cpus(n + 3) == Cpus(n) + Cpus(3);
    RunConcat(a, Cpus(n), Cpus(3));
    ReturnsAtOnce(Run(a, Cpus(n)));
  }

  /**
  Exactly when a STOP inside a set-up is lost.  The interrupt returns, the set-up
  goes on, the delay loop sees the flag and the move function returns without
  turning anything off; with no further byte the loop is back waiting for input,
  for ever, the inputs off if and only if the last pin had already been handed over.
  */
  lemma StopInSetUp(s: State, c: Move, k: nat)
    requires InSetUp(s, c, k)
    ensures var s' := Run(AfterStop(s), Cpus(|SetUp(c)| - k + 3));
      && s'.pc == Poll && s'.rx == 0
      && (Quiet(s'.regs) <==> k > 11)
      && (Quiet(s'.regs) <==> NoTimed(SetUp(c)[k..]))
      && (Driven(s'.regs) <==> !NoTimed(SetUp(c)[k..]))
      && forall n: nat :: Run(s', Cpus(n)) == s'
  {
    StopRunsOn(s, c, k);
    RestOfSetUp(AfterStop(s).regs, c, k);
    TimedLeft(c, k);
    IdlesForEver(Run(AfterStop(s), Cpus(|SetUp(c)| - k + 3)));
  }

  lemma IdlesForEver(s: State)
    requires s.pc == Poll && s.rx == 0 && s.isr == []
    ensures forall n: nat :: Run(s, Cpus(n)) == s
  {
    forall n: nat ensures Run(s, Cpus(n)) == s {
      PollIdles(s, n);
    }
  }

  /** Every set-up the main loop is ever in is the rest of one of the four. */
  ghost predicate SetUpInv(s: State) {
    s.pc.Setting? ==> exists c, k :: 0 <= k <= |SetUp(c)| && s.pc.ops == SetUp(c)[k..]
  }

  lemma SetUpStep(s: State, e: Event)
    requires SetUpInv(s)
    ensures SetUpInv(Step(s, e))
  {
    if s.isr == [] && e.Cpu? {
      match s.pc {
        case Test(c) => assert SetUp(c) == SetUp(c)[0..];
        case Setting(ops) =>
          var c, k :| 0 <= k <= |SetUp(c)| && ops == SetUp(c)[k..];
          if ops != [] {
            assert ops[1..] == SetUp(c)[k + 1..];
          }
        case _ =>
      }
    }
  }

  lemma {:induction false} SetUpReach(s: State, events: seq<Event>)
    requires SetUpInv(s)
    ensures SetUpInv(Run(s, events))
    decreases |events|
  {
    if events != [] {
      SetUpStep(s, events[0]);
      SetUpReach(Step(s, events[0]), events[1..]);
    }
  }

  /** Pins are still to be handed over only inside a set-up, so the two laws cover every reachable state. */
  lemma StopCases(high: set<Pin>, events: seq<Event>) returns (c: Move, k: nat)
    requires Run(Boot(high), events).isr == []
    ensures var s := Run(Boot(high), events);
      NoTimed(Remaining(s.pc)) || InSetUp(s, c, k)
  {
    var s := Run(Boot(high), events);
    SetUpReach(Boot(high), events);
    EndingReach(Boot(high), events);
    c, k := MoveForward, 0;
    if s.pc.Setting? {
      c, k :| 0 <= k <= |SetUp(c)| && s.pc.ops == SetUp(c)[k..];
    }
  }

  lemma {:induction false} EndingReach(s: State, events: seq<Event>)
    requires s.pc.Ending? ==> OffOps(s.pc.ops)
    ensures Run(s, events).pc.Ending? ==> OffOps(Run(s, events).pc.ops)
    decreases |events|
  {
    if events != [] {
      EndingReach(Step(s, events[0]), events[1..]);
    }
  }

  /** With nothing received the loop polls for ever. */
  lemma {:induction false} PollIdles(s: State, n: nat)
    requires s.pc == Poll && s.rx == 0 && s.isr == []
    ensures Run(s, Cpus(n)) == s
  {
    if n > 0 {
      assert Cpus(n)[1..] == Cpus(n - 1);
      PollIdles(s, n - 1);
    }
  }

  /* ---- The full interlock ---- */

  lemma {:induction false} RunSetting(s: State, k: nat)
    requires s.isr == [] && s.pc.Setting? && k <= |s.pc.ops|
    ensures Run(s, Cpus(k)) == s.(regs := ApplyAll(s.regs, s.pc.ops[..k]), pc := Setting(s.pc.ops[k..]))
    decreases k
  {
    if k > 0 {
      var s1 := Step(s, Cpu);
      assert Cpus(k)[1..] == Cpus(k - 1);
      RunSetting(s1, k - 1);
      assert s1.pc.ops[..k - 1] == s.pc.ops[..k][1..] && s1.pc.ops[k - 1..] == s.pc.ops[k..];
    }
  }

  lemma {:induction false} RunIsr(s: State, k: nat)
    requires k <= |s.isr|
    ensures Run(s, Cpus(k)) == s.(regs := ApplyAll(s.regs, s.isr[..k]), isr := s.isr[k..])
    decreases k
  {
    if k > 0 {
      var s1 := Step(s, Cpu);
      assert Cpus(k)[1..] == Cpus(k - 1);
      RunIsr(s1, k - 1);
      assert s1.isr[..k - 1] == s.isr[..k][1..] && s1.isr[k - 1..] == s.isr[k..];
    }
  }

  lemma RunOne(s: State, e: Event)
    ensures Run(s, [e]) == Step(s, e)
  {
    assert [e][1..] == [];
  }

  lemma RunMore(s: State, n: nat)
    requires n > 0
    ensures Run(s, Cpus(n)) == Run(Step(s, Cpu), Cpus(n - 1))
  {
    assert Cpus(n)[1..] == Cpus(n - 1);
  }

  /** The main loop on its way from a received letter to the test for its move. */
  lemma ToTest(high: set<Pin>, c: Move)
    ensures var s := Boot(high).(rx := Letter(c));
      Run(s, Cpus(2)) == s.(pc := Test(MoveForward))
  {
    var s := Boot(high).(rx := Letter(c));
    RunMore(s, 2);
    RunMore(Step(s, Cpu), 1);
  }

  lemma BackwardTest(s: State)
    requires s.isr == [] && s.pc == Test(MoveForward) && s.rx == Letter(MoveBackward)
    ensures Run(s, Cpus(2)) == s.(pc := Setting(SetUp(MoveBackward)))
  {
    RunMore(s, 2);
    RunMore(Step(s, Cpu), 1);
  }

  lemma RightTest(s: State)
    requires s.isr == [] && s.pc == Test(MoveForward) && s.rx == Letter(MoveRight)
    ensures Run(s, Cpus(4)) == s.(pc := Setting(SetUp(MoveRight)))
  {
    var s1 := Step(s, Cpu);
    var s2 := Step(s1, Cpu);
    RunMore(s, 4);
    RunMore(s1, 3);
    RunMore(s2, 2);
    RunMore(Step(s2, Cpu), 1);
  }

  /** A command letter at boot leads into the set-up of its move. */
  lemma IntoSetUp(high: set<Pin>, c: Move) returns (events: seq<Event>)
    requires c == MoveBackward || c == MoveRight
    ensures Run(Boot(high), events) == Boot(high).(rx := Letter(c), pc := Setting(SetUp(c)))
  {
    var n := if c == MoveBackward then 2 else 4;
    var s1 := Boot(high).(rx := Letter(c));
    var s2 := s1.(pc := Test(MoveForward));
    events := [Receive(Letter(c))] + Cpus(2) + Cpus(n);
    RunOne(Boot(high), Receive(Letter(c)));
    ToTest(high, c);
    if c == MoveBackward {
      BackwardTest(s2);
    } else {
      RightTest(s2);
    }
    RunConcat(Boot(high), [Receive(Letter(c))], Cpus(2));
    RunConcat(Boot(high), [Receive(Letter(c))] + Cpus(2), Cpus(n));
  }

  /** A STOP after k operations of the set-up, and j operations of the interrupt routine. */
  lemma StopMidway(high: set<Pin>, c: Move, k: nat, j: nat) returns (events: seq<Event>)
    requires (c == MoveBackward || c == MoveRight) && k <= |SetUp(c)| && j <= |ALL_OFF|
    ensures Run(Boot(high), events).regs == ApplyAll(ApplyAll(Boot(high).regs, SetUp(c)[..k]), ALL_OFF[..j])
  {
    var first := IntoSetUp(high, c);
    var s := Run(Boot(high), first);
    RunSetting(s, k);
    var m := Run(s, Cpus(k));
    RunOne(m, Receive(MOTOR_STOP));
    RunIsr(Step(m, Receive(MOTOR_STOP)), j);
    RunConcat(Boot(high), first, Cpus(k));
    RunConcat(Boot(high), first + Cpus(k), [Receive(MOTOR_STOP)]);
    RunConcat(Boot(high), first + Cpus(k) + [Receive(MOTOR_STOP)], Cpus(j));
    events := first + Cpus(k) + [Receive(MOTOR_STOP)] + Cpus(j);
  }

  lemma ApplyTwo(r: Regs, a: Op, b: Op)
    ensures ApplyAll(r, [a, b]) == Apply(Apply(r, a), b)
  {
    assert [a, b] == [a] + [b] && [b] == [b] + [];
    ApplyCons(r, a, [b]);
    ApplyCons(Apply(r, a), b, []);
  }

  /** Both latches of motor 1 high: a STOP while its set-up has just freed one input, and both are high. */
  lemma BothHighOne(high: set<Pin>) returns (events: seq<Event>)
    requires P40 in high && P83 in high
    ensures !OneInput(Run(Boot(high), events).regs)
  {
    events := StopMidway(high, MoveBackward, 3, 2);
    assert SetUp(MoveBackward)[..3] == [StopTimer(TA1), SetCompare(TA1), AsOutput(P83)];
    assert ALL_OFF[..2] == [StopTimer(TA0), AsOutput(P40)];
    ApplyThree(Boot(high).regs, StopTimer(TA1), SetCompare(TA1), AsOutput(P83));
    ApplyTwo(ApplyAll(Boot(high).regs, SetUp(MoveBackward)[..3]), StopTimer(TA0), AsOutput(P40));
  }

  /** What the interrupt routine has done up to freeing the first input of motor 2. */
  lemma HalfwayOff(r: Regs)
    requires TA0 !in r.running
    ensures var q := ApplyAll(r, ALL_OFF[..7]);
      q.timed == r.timed - {P40} - {P83} - {P17} && q.high == r.high - {P40} - {P83}
  {
    assert ALL_OFF[..7] == TurnOff(Motor1) + [StopTimer(TA0), AsOutput(P17)];
    ApplyConcat(r, TurnOff(Motor1), [StopTimer(TA0), AsOutput(P17)]);
    ApplyFive(r, StopTimer(TA0), AsOutput(P40), DriveLow(P40), AsOutput(P83), DriveLow(P83));
    ApplyTwo(ApplyAll(r, TurnOff(Motor1)), StopTimer(TA0), AsOutput(P17));
  }

  /** The same for motor 2. */
  lemma BothHighTwo(high: set<Pin>) returns (events: seq<Event>)
    requires P17 in high && P16 in high
    ensures !OneInput(Run(Boot(high), events).regs)
  {
    events := StopMidway(high, MoveRight, 3, 7);
    assert SetUp(MoveRight)[..3] == [StopTimer(TA0), SetCompare(TA0), AsOutput(P16)];
    ApplyThree(Boot(high).regs, StopTimer(TA0), SetCompare(TA0), AsOutput(P16));
    HalfwayOff(ApplyAll(Boot(high).regs, SetUp(MoveRight)[..3]));
  }

  /**
  Counting plain outputs as well: no motor ever has both inputs high, whatever arrives
  and wherever the interrupt falls, if and only if at boot no motor has both output
  latches high.
  */
  lemma FullInterlockExactly(high: set<Pin>)
    ensures (forall events :: OneInput(Run(Boot(high), events).regs))
       <==> !(P40 in high && P83 in high) && !(P17 in high && P16 in high)
  {
    if P40 in high && P83 in high {
      var events := BothHighOne(high);
    } else if P17 in high && P16 in high {
      var events := BothHighTwo(high);
    } else {
      forall events ensures OneInput(Run(Boot(high), events).regs) {
        InterlockFrom(Boot(high), events, true);
        GuardedOneInput(Run(Boot(high), events).regs);
      }
    }
  }
}
