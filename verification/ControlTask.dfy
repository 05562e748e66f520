/**
The control task on its globals: position_g, fake_heading, rx_pdu and the alarm
flag, changed statement by statement, tied to the functions of Motion.
*/
module ControlTask {
  import opened Common
  import opened Motion

  class Controller {
    var x: Byte
    var y: Byte
    var fakeHeading: int
    var isMove: bool
    var destX: Byte
    var destY: Byte
    var log: seq<Cmd>
    ghost var path: seq<Cell>
    var obs: seq<bool>

    ghost function View(): Robot
      reads this
    {
      Robot(x, y, fakeHeading, log, path)
    }

    /** init_position and the first line of controlThread. */
    constructor (alarm: seq<bool>)
      ensures View() == Robot(0, 0, HEAD_N, [], []) && obs == alarm
    {
      x, y, fakeHeading := 0, 0, HEAD_N;
      isMove, destX, destY := false, 0, 0;
      log, path, obs := [], [], alarm;
    }

    method SendMotorCmd(c: Cmd)
      modifies this`log
      ensures log == old(log) + [c]
    {
      log := log + [c];
    }

    /** One test of blocked_flag. */
    method Blocked() returns (b: bool)
      modifies this`obs
      ensures b == Head(old(obs)) && obs == Tail(old(obs))
    {
      b := obs != [] && obs[0];
      obs := if obs == [] then [] else obs[1..];
    }

    method ChangePosition(next: Cell)
      modifies this`x, this`y, this`path
      ensures x == next.0 && y == next.1 && path == old(path) + [next]
    {
      x, y := next.0, next.1;
      path := path + [next];
    }

    /** The turn loop: one command and a stop for each quarter. */
    method TurnBy(turn: Cmd, numTurns: nat)
      modifies this`log
      ensures log == old(log) + Turns(turn, numTurns)
    {
      ghost var before := log;
      for i := 0 to numTurns
        invariant log + Turns(turn, numTurns - i) == before + Turns(turn, numTurns)
      {
        ghost var here := log;
        SendMotorCmd(turn);
        SendMotorCmd(Stop);
        assert here + Turns(turn, numTurns - i) == log + Turns(turn, numTurns - (i + 1));
      }
      assert log + [] == log;
    }

    /** rotate_to_heading; -1 when the heading is not one. */
    method RotateToHeading(newHeading: int) returns (status: int)
      modifies this`log, this`fakeHeading
      ensures View() == Rotated(old(View()), newHeading)
      ensures status == if newHeading > 360 || newHeading < 0 then -1 else 0
    {
      if newHeading > 360 || newHeading < 0 {
        assert log + [] == log;
        return -1;
      }
      SendMotorCmd(Stop);
      var turn, numTurns := TurnsTo(newHeading);
      RotationIs(fakeHeading, newHeading, turn, numTurns);
      TurnBy(turn, numTurns);
      fakeHeading := newHeading;
      assert log == old(log) + ([Stop] + Turns(turn, numTurns));
      status := 0;
    }

    /** Which way to turn, and how often. */
    method TurnsTo(newHeading: int) returns (turn: Cmd, numTurns: nat)
      ensures var res := Quarters(fakeHeading, newHeading);
        turn == (if res < 0 then Left else Right) && numTurns == (if res < 0 then -res else res)
    {
      var res := Truncated(fakeHeading - newHeading, 90);
      if res == -3 {
        res := -1;
      }
      numTurns := if res < 0 then -res else res;
      var turnLeft := res < 0;
      turn := if turnLeft then Left else Right;
    }

    /** The body of exe_handler's loop for a MOVE, after its first test of the alarm. */
    method MovePass(dest: Cell, next: Cell) returns (next': Cell, blocked: bool, done: bool)
      modifies this`x, this`y, this`path, this`log, this`fakeHeading, this`obs
      ensures next' == NextCoord(old(View()).At(), dest, next) && done == (old(View()).At() == dest)
      ensures blocked == Head(old(obs)) && obs == Tail(old(obs))
      ensures var r1 := Rotated(old(View()), CalcHeading(old(View()).At(), dest));
        View() == if blocked then r1 else Advanced(r1, next')
    {
      var at := (x, y);
      done := at == dest;
      next' := NextCoord(at, dest, next);
      var newHeading := CalcHeading(at, dest);
      ghost var r1 := Rotated(View(), newHeading);
      var status := RotateToHeading(newHeading);
      blocked := Blocked();
      if !blocked {
        SendMotorCmd(Forward);
        SendMotorCmd(Stop);
        ChangePosition(next');
        assert r1.log + [Forward] + [Stop] == r1.log + [Forward, Stop];
      }
    }

    /**
    exe_handler: the do loop, for a MOVE; any other command only stops the motors.
    junk is what the uninitialised next_x and next_y hold.
    */
    method ExeHandler(junk: Cell) returns (outcome: Outcome)
      modifies this`x, this`y, this`path, this`log, this`fakeHeading, this`obs
      ensures old(isMove) ==> (View(), outcome, obs) == Exe(old(View()), (destX, destY), junk, old(obs))
      ensures !old(isMove) ==> obs == Tail(old(obs))
      ensures !old(isMove) && Head(old(obs)) ==> outcome == Collision && View() == old(View())
      ensures !old(isMove) && !Head(old(obs)) ==> outcome == Finished && View() == old(View()).(log := old(log) + [Stop])
    {
      var done := false;
      var dest := (destX, destY);
      var next := junk;
      while !done
        invariant isMove && !done ==> Exe(View(), dest, next, obs) == Exe(old(View()), dest, junk, old(obs))
        invariant isMove && done ==> (View(), Finished, obs) == Exe(old(View()), dest, junk, old(obs))
        invariant !isMove && !done ==> View() == old(View()) && obs == old(obs)
        invariant !isMove && done ==>
          !Head(old(obs)) && obs == Tail(old(obs)) && View() == old(View()).(log := old(log) + [Stop])
        decreases if done then 0 else 1 + Dist((x, y), dest)
      {
        var blocked := Blocked();
        if blocked {
          return Collision;
        }
        if isMove {
          next, blocked, done := MovePass(dest, next);
          if blocked {
            return Collision;
          }
        } else {
          SendMotorCmd(Stop);
          done := true;
        }
      }
      outcome := Finished;
    }

    /** controlThread from exe_handler's turn until it is back at waiting for a command. */
    method MoveCommand(dest: Cell, junk: Cell)
      modifies this
      ensures (View(), obs) == DriveOn(old(View()), dest, junk, old(obs))
      ensures isMove && (destX, destY) == dest
    {
      isMove, destX, destY := true, dest.0, dest.1;
      var state := Execute;
      while state != WaitCommand
        invariant isMove && (destX, destY) == dest
        invariant DriveOn(old(View()), dest, junk, old(obs)) ==
          match state
          case Execute => DriveOn(View(), dest, junk, obs)
          case Collide => DriveOn(View(), dest, junk, Tail(obs))
          case WaitCommand => (View(), obs)
        decreases if state == WaitCommand then 0 else 1 + |obs|, if state == Collide then 1 else 0
      {
        var blocked := Blocked();
        if blocked {
          state := Collide;
        }
        if state == Execute {
          var outcome := ExeHandler(junk);
          state := if outcome == Collision then Collide else WaitCommand;
        } else {
          state := Execute;
        }
      }
    }
  }

  /** The states of controlThread that a MOVE passes through. */
  datatype ControlState = WaitCommand | Execute | Collide
}
