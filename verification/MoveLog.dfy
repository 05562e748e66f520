/**
What a MOVE sends to the motor board, and what an alarm does to it, test by test:
laws about the list of commands and the list of alarm values alone.
*/
module MoveLog {
  import opened Common
  import opened Motion

  /* ---- Every command is stopped ---- */

  /** Whatever sets the robot in motion is followed at once by a stop. */
  ghost predicate Halts(log: seq<Cmd>) {
    forall i :: 0 <= i < |log| && log[i] != Stop ==> i + 1 < |log| && log[i + 1] == Stop
  }

  /** Rotations and single cells, each rotation opened by a stop of its own. */
  ghost predicate Orderly(log: seq<Cmd>) {
    && Halts(log)
    && (log != [] ==> log[0] == Stop)
    && forall i :: 0 <= i < |log| - 2 && log[i] == Forward ==> log[i + 2] == Stop
  }

  lemma HaltsConcat(a: seq<Cmd>, b: seq<Cmd>)
    requires Halts(a) && Halts(b)
    ensures Halts(a + b)
  {
  }

  lemma OrderlyConcat(a: seq<Cmd>, b: seq<Cmd>)
    requires Orderly(a) && Orderly(b)
    ensures Orderly(a + b)
  {
    HaltsConcat(a, b);
    forall i | 0 <= i < |a + b| - 2 && (a + b)[i] == Forward ensures (a + b)[i + 2] == Stop {
      if i < |a| {
        assert a[i] == Forward && a[i + 1] == Stop;
      } else {
        assert b[i - |a|] == Forward;
      }
    }
  }

  lemma OrderlyForward(a: seq<Cmd>)
    requires Orderly(a) && a != [] && Forward !in a
    ensures Orderly(a + [Forward, Stop])
  {
    HaltsConcat(a, [Forward, Stop]);
  }

  lemma {:induction false} TurnsHalt(c: Cmd, n: nat)
    requires c == Left || c == Right
    ensures Halts(Turns(c, n)) && Forward !in Turns(c, n)
  {
    if n > 0 {
      TurnsHalt(c, n - 1);
      HaltsConcat([c, Stop], Turns(c, n - 1));
    }
  }

  lemma RotationOrderly(curr: int, goal: int)
    requires 0 <= goal <= 360
    ensures Rotation(curr, goal) != [] && Orderly(Rotation(curr, goal)) && Forward !in Rotation(curr, goal)
  {
    var res := Quarters(curr, goal);
    var c, n: nat := if res < 0 then Left else Right, if res < 0 then -res else res;
    RotationIs(curr, goal, c, n);
    TurnsHalt(c, n);
    HaltsConcat([Stop], Turns(c, n));
  }

  /** A robot that has sent more. */
  ghost predicate SentMore(r: Robot, r': Robot, more: seq<Cmd>) { r'.log == r.log + more }

  lemma SentOn(r: Robot, r1: Robot, r2: Robot, a: seq<Cmd>, b: seq<Cmd>)
    requires SentMore(r, r1, a) && SentMore(r1, r2, b)
    ensures SentMore(r, r2, a + b)
  {
  }

  /** A rotation and a cell. */
  lemma CellCommands(r: Robot, goal: int, next: Cell) returns (leg: seq<Cmd>)
    requires 0 <= goal <= 360
    ensures Orderly(leg) && SentMore(r, Advanced(Rotated(r, goal), next), leg)
  {
    leg := Rotation(r.heading, goal) + [Forward, Stop];
    RotationOrderly(r.heading, goal);
    OrderlyForward(Rotation(r.heading, goal));
  }

  function Closing(outcome: Outcome): seq<Cmd> { if outcome == Finished then [Forward, Stop] else [] }

  lemma ThereCommands(r: Robot, next: Cell, obs: seq<bool>)
    ensures var (r', outcome, rest) := Exe(r, r.At(), next, obs);
      SentMore(r, r', Closing(outcome))
  {
    ExeThere(r, next, obs);
    assert r.log + [] == r.log;
  }

  lemma {:induction false} ExeOrderly(r: Robot, dest: Cell, next: Cell, obs: seq<bool>) returns (legs: seq<Cmd>)
    ensures var (r', outcome, rest) := Exe(r, dest, next, obs);
      Orderly(legs) && SentMore(r, r', legs + Closing(outcome))
    decreases Dist(r.At(), dest)
  {
    var goal := CalcHeading(r.At(), dest);
    legs := [];
    if r.At() == dest {
      ThereCommands(r, next, obs);
      assert forall c: seq<Cmd> :: [] + c == c;
    } else if !Head(obs) && Head(Tail(obs)) {
      legs := Rotation(r.heading, goal);
      RotationOrderly(r.heading, goal);
      assert legs + [] == legs;
    } else if !Head(obs) {
      var next' := NextCoord(r.At(), dest, next);
      legs := ExeOnward(r, dest, next', Tail(Tail(obs)));
    }
  }

  lemma ExeOnward(r: Robot, dest: Cell, next: Cell, obs: seq<bool>) returns (legs: seq<Cmd>)
    requires r.At() != dest && next == NextCoord(r.At(), dest, next)
    ensures var (r', outcome, rest) := Exe(Advanced(Rotated(r, CalcHeading(r.At(), dest)), next), dest, next, obs);
      Orderly(legs) && SentMore(r, r', legs + Closing(outcome))
    decreases Dist(r.At(), dest), 0
  {
    var r1 := Advanced(Rotated(r, CalcHeading(r.At(), dest)), next);
    var (r', outcome, rest) := Exe(r1, dest, next, obs);
    var leg := CellCommands(r, CalcHeading(r.At(), dest), next);
    var more := ExeOrderly(r1, dest, next, obs);
    OrderlyConcat(leg, more);
    SentOn(r, r1, r', leg, more + Closing(outcome));
    legs := leg + more;
    assert leg + (more + Closing(outcome)) == legs + Closing(outcome);
  }

  lemma {:induction false} DriveOrderly(r: Robot, dest: Cell, junk: Cell, obs: seq<bool>) returns (legs: seq<Cmd>)
    ensures Orderly(legs) && SentMore(r, Drive(r, dest, junk, obs), legs + [Forward, Stop])
    decreases |obs|
  {
    var (r', outcome, rest) := Exe(r, dest, junk, Settled(obs));
    legs := ExeOrderly(r, dest, junk, Settled(obs));
    if outcome == Collision {
      var more := DriveOrderly(r', dest, junk, Tail(rest));
      OrderlyConcat(legs, more);
      assert legs + [] == legs;
      SentOn(r, r', Drive(r', dest, junk, Tail(rest)), legs, more + [Forward, Stop]);
      assert legs + (more + [Forward, Stop]) == legs + more + [Forward, Stop];
      legs := legs + more;
    }
  }

  /**
  What any MOVE sends, from anywhere and under any alarms: rotations and cells in which
  every turn and every forward command is stopped at once, each rotation opened by a
  stop, and in the end one more cell without a rotation.
  */
  lemma MoveCommands(r: Robot, dest: Cell, junk: Cell, obs: seq<bool>) returns (legs: seq<Cmd>)
    ensures var r' := Drive(r, dest, junk, obs);
      && Orderly(legs) && r'.log == r.log + (legs + [Forward, Stop])
      && (Halts(r.log) ==> Halts(r'.log))
  {
    legs := DriveOrderly(r, dest, junk, obs);
    HaltsConcat(legs, [Forward, Stop]);
    if Halts(r.log) {
      HaltsConcat(r.log, legs + [Forward, Stop]);
    }
  }

  /** While it waits, whatever the alarms make of its last MOVE, the same holds. */
  lemma {:induction false} IdleHalts(r: Robot, dest: Cell, junk: Cell, obs: seq<bool>)
    requires Halts(r.log)
    ensures Halts(Idle(r, dest, junk, obs).log)
    decreases |obs|
  {
    if Head(obs) {
      var (r', rest) := DriveOn(r, dest, junk, Tail(obs));
      var legs := MoveCommands(r, dest, junk, Tail(obs));
      IdleHalts(r', dest, junk, rest);
    }
  }

  /* ---- How often it turns ---- */

  lemma {:induction false} CountTurns(c: Cmd, n: nat, d: Cmd)
    requires c != Stop && d != Stop
    ensures Count(Turns(c, n), d) == if c == d then n else 0
  {
    if n > 0 {
      CountConcat([c, Stop], Turns(c, n - 1), d);
      CountConcat([c], [Stop], d);
      assert [c, Stop] == [c] + [Stop];
      CountTurns(c, n - 1, d);
    }
  }

  /**
  On the compass, a rotation to a larger heading is one left turn for each quarter, except
  that three quarters are one left turn; to a smaller one, one right turn for each quarter.
  */
  lemma QuarterTurns(curr: int, goal: int)
    requires curr in {0, 90, 180, 270} && goal in {0, 90, 180, 270}
    ensures Count(Rotation(curr, goal), Left)
         == if goal <= curr then 0 else if goal - curr == 270 then 1 else (goal - curr) / 90
    ensures Count(Rotation(curr, goal), Right) == if goal >= curr then 0 else (curr - goal) / 90
  {
    var res := Quarters(curr, goal);
    var c, n: nat := if res < 0 then Left else Right, if res < 0 then -res else res;
    RotationIs(curr, goal, c, n);
    CountConcat([Stop], Turns(c, n), Left);
    CountConcat([Stop], Turns(c, n), Right);
    CountTurns(c, n, Left);
    CountTurns(c, n, Right);
  }

  /* ---- One alarm ---- */

  function Drop(obs: seq<bool>, n: nat): seq<bool> { if n <= |obs| then obs[n..] else [] }

  /** The alarm is clear in the first n tests. */
  ghost predicate ClearFor(obs: seq<bool>, n: nat) { forall i :: 0 <= i < |obs| && i < n ==> !obs[i] }

  ghost predicate FirstAlarm(obs: seq<bool>, a: nat) { a < |obs| && obs[a] && ClearFor(obs, a) }

  /** The cell the robot is on when it has taken n of them. */
  function CellAfter(from: Cell, dest: Cell, n: nat): (int, int) {
    if n == 0 then from else XFirstCell(from, dest, n - 1)
  }

  /** n cells of the walk have been taken, each with its forward command. */
  ghost predicate Taken(r: Robot, r': Robot, dest: Cell, n: nat) {
    && n <= Dist(r.At(), dest)
    && r'.At() == CellAfter(r.At(), dest, n)
    && |r'.path| == |r.path| + n && r'.path[..|r.path|] == r.path
    && (forall i :: 0 <= i < n ==> r'.path[|r.path| + i] == XFirstCell(r.At(), dest, i))
    && Count(r'.log, Forward) == Count(r.log, Forward) + n
  }

  /** The cell from which the last of n cells was taken gives the heading. */
  function HeadingAfter(r: Robot, dest: Cell, n: nat): int {
    if n == 0 then r.heading
    else
      var c := CellAfter(r.At(), dest, n - 1);
      if c.0 < dest.0 then 180 else if c.0 > dest.0 then 0 else if c.1 < dest.1 then 90 else 270
  }

  lemma CellCons(from: Cell, dest: Cell, next: Cell, i: nat)
    requires from != dest && next == NextCoord(from, dest, next) && i <= Dist(next, dest)
    ensures Dist(from, dest) == Dist(next, dest) + 1
    ensures CellAfter(from, dest, i + 1) == CellAfter(next, dest, i)
  {
  }

  /** Taking one cell and then n more. */
  lemma TakenMore(r: Robot, r1: Robot, r': Robot, dest: Cell, n: nat)
    requires r.At() != dest && r1.At() == NextCoord(r.At(), dest, r1.At())
    requires r1.path == r.path + [r1.At()] && Count(r1.log, Forward) == Count(r.log, Forward) + 1
    requires Taken(r1, r', dest, n)
    ensures Taken(r, r', dest, n + 1)
  {
    CellCons(r.At(), dest, r1.At(), n);
    forall i | 0 <= i < n + 1 ensures r'.path[|r.path| + i] == XFirstCell(r.At(), dest, i) {
      if i == 0 {
        assert r'.path[..|r1.path|][|r.path|] == r1.At();
      } else {
        CellCons(r.At(), dest, r1.At(), i);
        assert r'.path[|r1.path| + (i - 1)] == XFirstCell(r1.At(), dest, i - 1);
      }
    }
    assert r'.path[..|r.path|] == r'.path[..|r1.path|][..|r.path|] == r.path;
  }

  function Least(a: nat, b: nat): nat { if a <= b then a else b }

  lemma HeadingCons(r: Robot, r1: Robot, dest: Cell, n: nat)
    requires r.At() != dest && r1.At() == NextCoord(r.At(), dest, r1.At()) && r1.heading == CalcHeading(r.At(), dest)
    requires n <= Dist(r1.At(), dest)
    ensures HeadingAfter(r, dest, n + 1) == HeadingAfter(r1, dest, n)
  {
    if n > 0 {
      CellCons(r.At(), dest, r1.At(), n - 1);
    }
  }

  lemma RotatedHeading(r: Robot, dest: Cell)
    requires r.At() != dest
    ensures Rotated(r, CalcHeading(r.At(), dest)).heading == CalcHeading(r.At(), dest) == HeadingAfter(r, dest, 1)
  {
  }

  lemma OneCell(r: Robot, dest: Cell, next: Cell)
    requires r.At() != dest && next == NextCoord(r.At(), dest, next)
    ensures var r1 := Advanced(Rotated(r, CalcHeading(r.At(), dest)), next);
      && r1.At() == next && r1.path == r.path + [next] && r1.heading == CalcHeading(r.At(), dest)
      && Count(r1.log, Forward) == Count(r.log, Forward) + 1
  {
    RotatedCount(r, CalcHeading(r.At(), dest));
    AdvancedCount(Rotated(r, CalcHeading(r.At(), dest)), next);
    RotatedHeading(r, dest);
  }

  /** What exe_handler has made of the robot by its test number a. */
  ghost predicate ByTest(r: Robot, r': Robot, dest: Cell, a: nat) {
    Taken(r, r', dest, a / 2) && r'.heading == HeadingAfter(r, dest, Least((a + 1) / 2, Dist(r.At(), dest)))
  }

  lemma ByTestMore(r: Robot, r1: Robot, r': Robot, dest: Cell, a: nat)
    requires r.At() != dest && r1.At() == NextCoord(r.At(), dest, r1.At()) && r1.heading == CalcHeading(r.At(), dest)
    requires r1.path == r.path + [r1.At()] && Count(r1.log, Forward) == Count(r.log, Forward) + 1
    requires ByTest(r1, r', dest, a)
    ensures ByTest(r, r', dest, a + 2)
  {
    var n := Least((a + 1) / 2, Dist(r1.At(), dest));
    CellCons(r.At(), dest, r1.At(), 0);
    TakenMore(r, r1, r', dest, a / 2);
    HeadingCons(r, r1, dest, n);
    assert (a + 2) / 2 == a / 2 + 1 && Least((a + 3) / 2, Dist(r.At(), dest)) == n + 1;
  }

  lemma FirstTests(r: Robot, dest: Cell, next: Cell, obs: seq<bool>, a: nat)
    requires FirstAlarm(obs, a) && a < 2
    ensures var (r', outcome, rest) := Exe(r, dest, next, obs);
      outcome == Collision && rest == obs[a + 1..] && ByTest(r, r', dest, a)
  {
    if a == 1 {
      if r.At() == dest {
        ExeThere(r, next, obs);
      } else {
        RotatedHeading(r, dest);
        RotatedCount(r, CalcHeading(r.At(), dest));
      }
    }
  }

  /**
  One call of exe_handler, up to an alarm: it leaves at once, with half as many cells
  taken as tests were clear, and facing where it was to go next if it had got to turning.
  */
  lemma {:induction false} ExeUntilAlarm(r: Robot, dest: Cell, next: Cell, obs: seq<bool>, a: nat)
    requires FirstAlarm(obs, a) && a < 2 * Dist(r.At(), dest) + 2
    ensures var (r', outcome, rest) := Exe(r, dest, next, obs);
      outcome == Collision && rest == obs[a + 1..] && ByTest(r, r', dest, a)
    decreases a
  {
    if a < 2 {
      FirstTests(r, dest, next, obs, a);
    } else {
      var next' := NextCoord(r.At(), dest, next);
      var r1 := Advanced(Rotated(r, CalcHeading(r.At(), dest)), next');
      var rest := Tail(Tail(obs));
      CellCons(r.At(), dest, next', 0);
      OneCell(r, dest, next');
      assert rest == obs[2..];
      ExeUntilAlarm(r1, dest, next', rest, a - 2);
      ByTestMore(r, r1, Exe(r1, dest, next', rest).0, dest, a - 2);
    }
  }

  /** One call without an alarm: two tests for each cell, and two more for the last, unrecorded one. */
  lemma {:induction false} ExeUndisturbed(r: Robot, dest: Cell, next: Cell, obs: seq<bool>)
    requires ClearFor(obs, 2 * Dist(r.At(), dest) + 2)
    ensures var (r', outcome, rest) := Exe(r, dest, next, obs);
      outcome == Finished && rest == Drop(obs, 2 * Dist(r.At(), dest) + 2)
    decreases Dist(r.At(), dest)
  {
    if r.At() != dest {
      var next' := NextCoord(r.At(), dest, next);
      CellCons(r.At(), dest, next', 0);
      ExeUndisturbed(Advanced(Rotated(r, CalcHeading(r.At(), dest)), next'), dest, next', Tail(Tail(obs)));
    }
  }

  /**
  A MOVE from the top of the control loop, and the first alarm.  In test 0 it is waited
  out.  In test a inside exe_handler it costs that test, the one before col_handler and
  nothing else: (a - 1) / 2 cells have been taken, and the MOVE goes on from there with
  test a + 2.  Without one in the first 2 * distance + 3 tests, the MOVE is through.
  */
  lemma AlarmLaw(r: Robot, dest: Cell, junk: Cell, obs: seq<bool>, a: nat) returns (r': Robot)
    requires a <= 2 * Dist(r.At(), dest) + 3
    requires if a == 2 * Dist(r.At(), dest) + 3 then ClearFor(obs, a) else FirstAlarm(obs, a)
    ensures a == 0 ==> DriveOn(r, dest, junk, obs) == DriveOn(r, dest, junk, obs[1..])
    ensures 0 < a < 2 * Dist(r.At(), dest) + 3 ==>
      DriveOn(r, dest, junk, obs) == DriveOn(r', dest, junk, Drop(obs, a + 2)) && ByTest(r, r', dest, a - 1)
    ensures a == 2 * Dist(r.At(), dest) + 3 ==> DriveOn(r, dest, junk, obs) == (r', Drop(obs, a))
  {
    var tests := Settled(obs);
    r' := Exe(r, dest, junk, tests).0;
    if a == 2 * Dist(r.At(), dest) + 3 {
      ExeUndisturbed(r, dest, junk, tests);
    } else if a > 0 {
      assert tests == obs[1..];
      ExeUntilAlarm(r, dest, junk, tests, a - 1);
      assert Tail(obs[1..][a..]) == Drop(obs, a + 2);
    }
  }

  /**
  An alarm before wait_handler, and then three clear tests: the last MOVE is gone into
  again and leaves at once with the junk recorded and one cell driven, and the robot
  waits as before, with what the alarm shows then.
  */
  lemma AlarmAgain(r: Robot, junk: Cell, dest: Cell, obs: seq<bool>)
    requires r.At() == dest && FirstAlarm(obs, 0) && ClearFor(Drop(obs, 1), 3)
    ensures Idle(r, dest, junk, obs) == Idle(Advanced(r, junk), dest, junk, Drop(obs, 4))
  {
    var r' := AlarmLaw(r, dest, junk, Tail(obs), 3);
    DriveThere(r, junk, Tail(obs));
    assert Drop(Tail(obs), 3) == Drop(obs, 4);
  }
}
