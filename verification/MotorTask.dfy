/**
The motor board on mutable registers and flags: the driver routines as sequences
of register writes, and the main loop and interrupt one operation at a time.
*/
module MotorTask {
  import opened Common
  import opened MotorBoard

  class Board {
    var timed: set<Pin>
    var high: set<Pin>
    var running: set<Timer>
    var motorStopFlag: bool
    var rxData: Byte
    var pc: Pc
    var isr: seq<Op>

    function RegsView(): Regs
      reads this
    {
      Regs(timed, high, running)
    }

    ghost function View(): State
      reads this
    {
      State(RegsView(), motorStopFlag, rxData, pc, isr)
    }

    /** Power-up through initMotors. */
    constructor (latches: set<Pin>)
      ensures View() == Boot(latches)
      ensures timed == {P40, P83, P17, P16} && high == latches && running == {}
      ensures !motorStopFlag && rxData == 0 && pc == Poll && isr == []
    {
      timed, high, running := {P40, P83, P17, P16}, latches, {};
      motorStopFlag, rxData, pc, isr := false, 0, Poll, [];
    }

    /** One driverlib call. */
    method Perform(op: Op)
      modifies this`timed, this`high, this`running
      ensures RegsView() == Apply(old(RegsView()), op)
    {
      match op {
        case SetCompare(_) =>
        case InitCompare(_) =>
        case StopTimer(t) => running := running - {t};
        case StartTimer(t) => running := running + {t};
        case AsOutput(p) => timed := timed - {p};
        case DriveLow(p) => high := high - {p};
        case AsTimed(p) => timed := timed + {p};
      }
    }

    method PerformAll(ops: seq<Op>)
      modifies this`timed, this`high, this`running
      ensures RegsView() == ApplyAll(old(RegsView()), ops)
    {
      for k := 0 to |ops|
        invariant ApplyAll(RegsView(), ops[k..]) == ApplyAll(old(RegsView()), ops)
      {
        assert ops[k..][1..] == ops[k + 1..];
        Perform(ops[k]);
      }
    }

    /** turnOffMotor on both motors: whatever was set, all inputs end up low. */
    method TurnOffMotors()
      modifies this`timed, this`high, this`running
      ensures Quiet(RegsView()) && running <= old(running)
    {
      OffMeansQuiet(RegsView());
      ghost var before := RegsView();
      PerformAll(ALL_OFF);
      OffNeverStarts(before, ALL_OFF);
    }

    /** The next register operation of the main loop, the interrupt routine, or a received byte. */
    method Turn(e: Event)
      modifies this
      ensures View() == Step(old(View()), e)
    {
      if isr != [] {
        Perform(isr[0]);
        isr := isr[1..];
      } else if e.Cpu? {
        MainTurn();
      } else {
        rxData := e.b;
        if rxData == MOTOR_STOP {
          motorStopFlag := true;
          isr := ALL_OFF;
        }
      }
    }

    method MainTurn()
      requires isr == []
      modifies this
      ensures View() == MainStep(old(View()))
    {
      match pc {
        case Poll =>
          if rxData != 0 {
            pc := Clear;
          }
        case Clear => motorStopFlag, pc := false, Test(MoveForward);
        case Test(c) =>
          if rxData == Letter(c) {
            pc := Setting(SetUp(c));
          } else {
            pc := match c
                  case MoveForward => Test(MoveBackward)
                  case MoveBackward => Test(MoveLeft)
                  case MoveLeft => Test(MoveRight)
                  case MoveRight => Forget;
          }
        case Setting(ops) =>
          if ops == [] {
            pc := Waiting(DELAY_TESTS);
          } else {
            Perform(ops[0]);
            pc := Setting(ops[1..]);
          }
        case Waiting(n) =>
          pc := if n == 0 then Ending(ALL_OFF) else if motorStopFlag then Forget else Waiting(n - 1);
        case Ending(ops) =>
          if ops == [] {
            pc := Forget;
          } else {
            Perform(ops[0]);
            pc := Ending(ops[1..]);
          }
        case Forget => rxData, pc := 0, Poll;
      }
    }

    /** Any pattern of interrupts from power-up: the interlock holds after every operation. */
    method Serve(events: seq<Event>, ghost latched: bool)
      requires Inv(View(), latched)
      modifies this
      ensures View() == Run(old(View()), events) && Inv(View(), latched) && Interlock(RegsView())
      ensures latched ==> OneInput(RegsView())
    {
      for k := 0 to |events|
        invariant Run(View(), events[k..]) == Run(old(View()), events)
        invariant Inv(View(), latched)
      {
        assert events[k..][1..] == events[k + 1..];
        StepInv(View(), events[k], latched);
        Turn(events[k]);
      }
    }
  }

  lemma {:induction false} OffNeverStarts(r: Regs, ops: seq<Op>)
    requires OffOps(ops)
    ensures ApplyAll(r, ops).running <= r.running
    decreases |ops|
  {
    if ops != [] {
      OffNeverStarts(Apply(r, ops[0]), ops[1..]);
    }
  }
}
