/**
A move of the motor board from its letter to its end: which inputs are driven and for
how long, and that they are low again afterwards, whatever arrives in the meantime
short of a STOP.
*/
module MotorRun {
  import opened Common
  import opened MotorBoard

  /* ---- What each letter asks for ---- */

  predicate Command(b: Byte) { b == 'F' as int || b == 'B' as int || b == 'L' as int || b == 'R' as int }

  /** Motor 1 is driven forward through P8.3 and backward through P4.0, motor 2 through P1.7 and P1.6. */
  function Inputs(b: Byte): set<Pin>
    requires Command(b)
  {
    if b == 'F' as int then {P83, P17}
    else if b == 'B' as int then {P40, P16}
    else if b == 'L' as int then {P83, P16}
    else {P40, P17}
  }

  /** These inputs are on their timers, both timers count, and the other inputs are plain outputs driven low. */
  ghost predicate Driving(r: Regs, pins: set<Pin>) {
    && r.timed == pins && r.running == {TA0, TA1}
    && forall p: Pin :: p !in pins ==> p !in r.high
  }

  /** The move that belongs to a letter, and how many tests the main loop makes to find it. */
  function MoveOf(b: Byte): Move
    requires Command(b)
  {
    if b == 'F' as int then MoveForward
    else if b == 'B' as int then MoveBackward
    else if b == 'L' as int then MoveLeft
    else MoveRight
  }

  function Tests(b: Byte): (n: nat)
    requires Command(b)
    ensures 1 <= n <= 4
  {
    if b == 'F' as int then 1 else if b == 'B' as int then 2 else if b == 'L' as int then 3 else 4
  }

  /* ---- The registers after a set-up ---- */

  lemma ApplySeven(r: Regs, a: Op, b: Op, c: Op, d: Op, e: Op, f: Op, g: Op)
    ensures ApplyAll(r, [a, b, c, d, e, f, g]) == Apply(Apply(Apply(Apply(Apply(Apply(Apply(r, a), b), c), d), e), f), g)
  {
    assert [a, b, c, d, e, f, g] == [a, b] + [c, d, e, f, g];
    ApplyConcat(r, [a, b], [c, d, e, f, g]);
    ApplyTwo(r, a, b);
    ApplyFive(ApplyAll(r, [a, b]), c, d, e, f, g);
  }

  /** One call of PWMMotor. */
  lemma PwmSets(r: Regs, m: Motor, d: Direction)
    ensures var q := ApplyAll(r, Pwm(m, d));
      match (m, d)
      case (Motor1, Ahead) => q == Regs(r.timed - {P40} + {P83}, r.high - {P40}, r.running + {TA1})
      case (Motor1, Back) => q == Regs(r.timed - {P83} + {P40}, r.high - {P83}, r.running + {TA1})
      case (Motor2, Ahead) => q == Regs(r.timed - {P16} + {P17}, r.high - {P16}, r.running + {TA0})
      case (Motor2, Back) => q == Regs(r.timed - {P17} + {P16}, r.high - {P17}, r.running + {TA0})
  {
    var ops := Pwm(m, d);
    ApplySeven(r, ops[0], ops[1], ops[2], ops[3], ops[4], ops[5], ops[6]);
    assert ops == [ops[0], ops[1], ops[2], ops[3], ops[4], ops[5], ops[6]];
  }

  lemma SetUpDrives(r: Regs, b: Byte)
    requires Command(b)
    ensures Driving(ApplyAll(r, SetUp(MoveOf(b))), Inputs(b))
  {
    var c := MoveOf(b);
    var m, d := if c.MoveForward? || c.MoveBackward? then Motor1 else Motor2,
                if c.MoveForward? || c.MoveRight? then Ahead else Back;
    var m', d' := if c.MoveForward? || c.MoveBackward? then Motor2 else Motor1,
                  if c.MoveForward? || c.MoveLeft? then Ahead else Back;
    var q := ApplyAll(r, Pwm(m, d));
    ApplyConcat(r, Pwm(m, d), Pwm(m', d'));
    PwmSets(r, m, d);
    PwmSets(q, m', d');
    EachPin(ApplyAll(q, Pwm(m', d')), Inputs(b));
  }

  /** Four pins and two timers, one by one. */
  lemma EachPin(r: Regs, pins: set<Pin>)
    requires (P40 in r.timed <==> P40 in pins) && (P83 in r.timed <==> P83 in pins)
    requires (P17 in r.timed <==> P17 in pins) && (P16 in r.timed <==> P16 in pins)
    requires TA0 in r.running && TA1 in r.running
    requires (P40 in r.high ==> P40 in pins) && (P83 in r.high ==> P83 in pins)
    requires (P17 in r.high ==> P17 in pins) && (P16 in r.high ==> P16 in pins)
    ensures Driving(r, pins)
  {
    forall p: Pin ensures (p in r.timed <==> p in pins) && (p in r.high ==> p in pins) {
      match p {
        case P40 => case P83 => case P17 => case P16 =>
      }
    }
    forall t: Timer ensures t in r.running <==> t in {TA0, TA1} {
      match t {
        case TA0 => case TA1 =>
      }
    }
  }

  /* ---- No pin changes hands while its timer counts ---- */

  lemma {:induction false} StaysStopped(r: Regs, ops: seq<Op>, t: Timer)
    requires StartTimer(t) !in ops && (t !in r.running || StopTimer(t) in ops)
    ensures t !in ApplyAll(r, ops).running
    decreases |ops|
  {
    if ops != [] {
      StaysStopped(Apply(r, ops[0]), ops[1..], t);
    }
  }

  predicate ChangesHands(op: Op, p: Pin) { op == AsOutput(p) || op == AsTimed(p) }

  /** Inside one call of PWMMotor the timer is stopped before the pins change hands and started after. */
  lemma PwmStill(r: Regs, m: Motor, d: Direction, j: nat, p: Pin)
    requires j < |Pwm(m, d)| && ChangesHands(Pwm(m, d)[j], p)
    ensures TimerOf(p) !in ApplyAll(r, Pwm(m, d)[..j]).running
  {
    var ops, t := Pwm(m, d), if m == Motor1 then TA1 else TA0;
    assert ops[..j][if m == Motor1 && d == Ahead then 1 else 0] == StopTimer(t);
    StaysStopped(r, ops[..j], t);
  }

  /** Whatever the registers were, no pin of a motor changes hands while that motor's timer counts. */
  lemma PinsChangeHandsStill(r: Regs, c: Move, j: nat, p: Pin)
    requires j < |SetUp(c)| && ChangesHands(SetUp(c)[j], p)
    ensures TimerOf(p) !in ApplyAll(r, SetUp(c)[..j]).running
  {
    var m, d := if c.MoveForward? || c.MoveBackward? then Motor1 else Motor2,
                if c.MoveForward? || c.MoveRight? then Ahead else Back;
    var m', d' := if c.MoveForward? || c.MoveBackward? then Motor2 else Motor1,
                  if c.MoveForward? || c.MoveLeft? then Ahead else Back;
    if j < 7 {
      assert SetUp(c)[..j] == Pwm(m, d)[..j];
      PwmStill(r, m, d, j, p);
    } else {
      assert SetUp(c)[..j] == Pwm(m, d) + Pwm(m', d')[..j - 7];
      ApplyConcat(r, Pwm(m, d), Pwm(m', d')[..j - 7]);
      PwmStill(ApplyAll(r, Pwm(m, d)), m', d', j - 7, p);
    }
  }

  /* ---- The main loop, left to itself ---- */

  lemma CpusAdd(s: State, a: nat, b: nat)
    ensures Run(s, Cpus(a + b)) == Run(Run(s, Cpus(a)), Cpus(b))
  {
    assert Cpus(a + b) == Cpus(a) + Cpus(b);
    RunConcat(s, Cpus(a), Cpus(b));
  }

  /** From the poll to the test for the first letter; the stop flag is cleared on the way. */
  lemma PollToTest(s: State)
    requires s.pc == Poll && s.rx != 0 && s.isr == []
    ensures Run(s, Cpus(2)) == s.(pc := Test(MoveForward), flag := false)
  {
    RunMore(s, 2);
    RunMore(Step(s, Cpu), 1);
  }

  /** The tests, one after the other. */
  lemma TestsFind(s: State)
    requires s.isr == [] && s.pc == Test(MoveForward) && Command(s.rx)
    ensures Run(s, Cpus(Tests(s.rx))) == s.(pc := Setting(SetUp(MoveOf(s.rx))))
  {
    var n := Tests(s.rx);
    if n > 1 {
      TestFails(s, MoveForward, n);
    }
    if n > 2 {
      TestFails(s.(pc := Test(MoveBackward)), MoveBackward, n - 1);
    }
    if n > 3 {
      TestFails(s.(pc := Test(MoveLeft)), MoveLeft, n - 2);
    }
    RunMore(s.(pc := Test(MoveOf(s.rx))), 1);
  }

  /** What follows the test for this letter if it is another byte. */
  function NextTest(c: Move): Pc {
    match c
    case MoveForward => Test(MoveBackward)
    case MoveBackward => Test(MoveLeft)
    case MoveLeft => Test(MoveRight)
    case MoveRight => Forget
  }

  lemma TestFails(s: State, c: Move, n: nat)
    requires s.isr == [] && s.pc == Test(c) && s.rx != Letter(c) && n > 0
    ensures Run(s, Cpus(n)) == Run(s.(pc := NextTest(c)), Cpus(n - 1))
  {
    RunMore(s, n);
  }

  lemma LastTestsFail(s: State)
    requires s.isr == [] && s.pc == Test(MoveLeft) && !Command(s.rx)
    ensures Run(s, Cpus(3)) == s.(rx := 0, pc := Poll)
  {
    TestFails(s, MoveLeft, 3);
    TestFails(s.(pc := Test(MoveRight)), MoveRight, 2);
    RunMore(s.(pc := Forget), 1);
  }

  lemma TestsFail(s: State)
    requires s.isr == [] && s.pc == Test(MoveForward) && !Command(s.rx)
    ensures Run(s, Cpus(5)) == s.(rx := 0, pc := Poll)
  {
    TestFails(s, MoveForward, 5);
    TestFails(s.(pc := Test(MoveBackward)), MoveBackward, 4);
    LastTestsFail(s.(pc := Test(MoveLeft)));
  }

  /** Any other byte, STOP included, is forgotten, and the registers stay as they are. */
  lemma OtherBytesForgotten(s: State)
    requires s.pc == Poll && s.isr == [] && s.rx != 0 && !Command(s.rx)
    ensures Run(s, Cpus(7)) == s.(rx := 0, flag := false)
  {
    PollToTest(s);
    TestsFail(Run(s, Cpus(2)));
    CpusAdd(s, 2, 5);
  }

  /** A received letter to its set-up. */
  lemma LetterToSetUp(s: State)
    requires s.pc == Poll && s.isr == [] && Command(s.rx)
    ensures Run(s, Cpus(2 + Tests(s.rx))) == s.(pc := Setting(SetUp(MoveOf(s.rx))), flag := false)
  {
    PollToTest(s);
    TestsFind(Run(s, Cpus(2)));
    CpusAdd(s, 2, Tests(s.rx));
  }

  /* ---- A move under way ---- */

  predicate NoStop(events: seq<Event>) { Receive(MOTOR_STOP) !in events }

  function CpuTurns(events: seq<Event>): nat
    decreases |events|
  {
    if events == [] then 0 else (if events[0] == Cpu then 1 else 0) + CpuTurns(events[1..])
  }

  predicate Busy(pc: Pc) { pc.Setting? || pc.Waiting? || pc.Ending? || pc.Forget? }

  /** How many turns the move still takes, the one that forgets the command included. */
  function TurnsLeft(pc: Pc): nat
    requires Busy(pc)
  {
    match pc
    case Setting(ops) => |ops| + 655364
    case Waiting(n) => n + 13
    case Ending(ops) => |ops| + 2
    case Forget => 1
  }

  /** Without a STOP, the set-up leads to the registers set and the end to these with everything off. */
  ghost predicate OnCourse(s: State, goal: Regs) {
    && s.isr == [] && !s.flag && Busy(s.pc)
    && match s.pc
       case Setting(ops) => ApplyAll(s.regs, ops) == goal
       case Waiting(n) => s.regs == goal && n <= 655350
       case Ending(ops) => ApplyAll(s.regs, ops) == ApplyAll(goal, ALL_OFF) && |ops| <= 10
       case _ => s.regs == ApplyAll(goal, ALL_OFF)
  }

  lemma CourseStep(s: State, goal: Regs, e: Event)
    requires OnCourse(s, goal) && e != Receive(MOTOR_STOP) && (e == Cpu ==> TurnsLeft(s.pc) > 1)
    ensures OnCourse(Step(s, e), goal)
    ensures TurnsLeft(Step(s, e).pc) == TurnsLeft(s.pc) - if e == Cpu then 1 else 0
  {
    AllOffLength();
  }

  lemma AllOffLength()
    ensures |ALL_OFF| == 10
  {
  }

  /** Bytes other than STOP make no difference to a move. */
  lemma {:induction false} CourseRun(s: State, goal: Regs, events: seq<Event>)
    requires OnCourse(s, goal) && NoStop(events) && CpuTurns(events) < TurnsLeft(s.pc)
    ensures OnCourse(Run(s, events), goal)
    ensures TurnsLeft(Run(s, events).pc) == TurnsLeft(s.pc) - CpuTurns(events)
    decreases |events|
  {
    if events != [] {
      CourseStep(s, goal, events[0]);
      CourseRun(Step(s, events[0]), goal, events[1..]);
    }
  }

  /** Turning off stops one timer only. */
  lemma OffTimers(r: Regs)
    ensures ApplyAll(r, ALL_OFF).running == r.running - {TA0}
  {
    var q := ApplyAll(r, TurnOff(Motor1));
    ApplyConcat(r, TurnOff(Motor1), TurnOff(Motor2));
    ApplyFive(r, StopTimer(TA0), AsOutput(P40), DriveLow(P40), AsOutput(P83), DriveLow(P83));
    ApplyFive(q, StopTimer(TA0), AsOutput(P17), DriveLow(P17), AsOutput(P16), DriveLow(P16));
  }

  /** The registers a letter leads to, and the move just begun. */
  lemma Begins(s: State)
    requires s.pc == Poll && s.isr == [] && Command(s.rx)
    ensures var s1, goal := Run(s, Cpus(2 + Tests(s.rx))), ApplyAll(s.regs, SetUp(MoveOf(s.rx)));
      OnCourse(s1, goal) && TurnsLeft(s1.pc) == 655378 && Driving(goal, Inputs(s.rx))
  {
    var p := SetUpEnd(MoveOf(s.rx));
    LetterToSetUp(s);
    SetUpDrives(s.regs, s.rx);
  }

  /** The board a number of turns after it has got as far as the set-up for the letter it receives at its poll. */
  function After(s: State, b: Byte, events: seq<Event>): State
    requires Command(b)
  {
    Run(Run(Step(s, Receive(b)), Cpus(2 + Tests(b))), events)
  }

  /**
  What a received letter does, whatever other bytes but STOP arrive: after its set-up,
  for 655350 turns of the main loop, exactly the inputs it asks for are driven by
  counting timers.
  */
  lemma MoveDrives(s: State, b: Byte, events: seq<Event>)
    requires s.pc == Poll && s.isr == [] && Command(b) && NoStop(events)
    ensures var r, m := After(s, b, events), CpuTurns(events);
      15 <= m <= 655365 ==> r.pc == Waiting(655365 - m) && Driving(r.regs, Inputs(b))
  {
    var s0 := Step(s, Receive(b));
    Begins(s0);
    if CpuTurns(events) <= 655365 {
      CourseRun(Run(s0, Cpus(2 + Tests(b))), ApplyAll(s.regs, SetUp(MoveOf(b))), events);
    }
  }

  /**
  And 13 turns later it is over: all four inputs are plain outputs driven low, the
  letter and every byte that arrived meanwhile are forgotten, the board idles for as long
  as nothing arrives, and the timer of motor 1 counts on.
  */
  lemma MoveEnds(s: State, b: Byte, events: seq<Event>)
    requires s.pc == Poll && s.isr == [] && Command(b) && NoStop(events) && CpuTurns(events) == 655377
    ensures var r := After(s, b, events + [Cpu]);
      && r.pc == Poll && r.rx == 0 && r.isr == [] && Quiet(r.regs) && r.regs.running == {TA1}
      && forall n: nat :: Run(r, Cpus(n)) == r
  {
    var s0 := Step(s, Receive(b));
    var s1, goal := Run(s0, Cpus(2 + Tests(b))), ApplyAll(s.regs, SetUp(MoveOf(b)));
    Begins(s0);
    CourseRun(s1, goal, events);
    RunConcat(s1, events, [Cpu]);
    RunOne(Run(s1, events), Cpu);
    OffMeansQuiet(goal);
    OffTimers(goal);
    IdlesForEver(Run(s1, events + [Cpu]));
  }
}
