/**
The motion controller: how a MOVE command is carried out cell by cell, and what
happens when the obstacle alarm interrupts it.
*/
module Motion {
  import opened Common

  const HEAD_N := 0
  const HEAD_E := 90
  const HEAD_S := 180
  const HEAD_W := 270

  /** Bytes sent to the motor board. */
  datatype Cmd = Stop | Left | Right | Forward

  type Cell = (Byte, Byte)

  /** Dead-reckoned position and heading, motor commands sent, positions recorded. */
  datatype Robot = Robot(x: Byte, y: Byte, heading: int, log: seq<Cmd>, path: seq<Cell>) {
    function At(): Cell { (x, y) }
  }

  /* ---- The helpers of exe_handler ---- */

  /** calc_next_coord: one cell nearer, x first; already there, the outputs keep their old value. */
  function NextCoord(at: Cell, dest: Cell, previous: Cell): Cell {
    if at.0 < dest.0 then (at.0 + 1, at.1)
    else if at.0 > dest.0 then (at.0 - 1, at.1)
    else if at.1 < dest.1 then (at.0, at.1 + 1)
    else if at.1 > dest.1 then (at.0, at.1 - 1)
    else previous
  }

  /** calc_heading: -1 when there is nowhere to go. */
  function CalcHeading(at: Cell, dest: Cell): int {
    if dest.0 > at.0 then HEAD_S
    else if dest.0 < at.0 then HEAD_N
    else if dest.1 > at.1 then HEAD_E
    else if dest.1 < at.1 then HEAD_W
    else -1
  }

  /** C's conversion of a quotient to int drops the fraction. */
  function Truncated(a: int, b: int): int
    requires b > 0
  {
    if a >= 0 then a / b else -((-a) / b)
  }

  function Turns(c: Cmd, n: nat): seq<Cmd> { if n == 0 then [] else [c, Stop] + Turns(c, n - 1) }

  function Quarters(curr: int, goal: int): int {
    var res := Truncated(curr - goal, 90);
    if res == -3 then -1 else res
  }

  function Rotation(curr: int, goal: int): seq<Cmd> {
    if goal > 360 || goal < 0 then []
    else
      var res := Quarters(curr, goal);
      [Stop] + if res < 0 then Turns(Left, -res) else Turns(Right, res)
  }

  /** A rotation in the terms of the turn loop: one direction, one count. */
  lemma RotationIs(curr: int, goal: int, turn: Cmd, n: nat)
    requires 0 <= goal <= 360
    requires var res := Quarters(curr, goal); turn == (if res < 0 then Left else Right) && n == (if res < 0 then -res else res)
    ensures Rotation(curr, goal) == [Stop] + Turns(turn, n)
  {
  }

  function Rotated(r: Robot, goal: int): Robot {
    r.(log := r.log + Rotation(r.heading, goal), heading := if goal > 360 || goal < 0 then r.heading else goal)
  }

  /* ---- One pass of the do loop, one call, one whole command ---- */

  function Head(obs: seq<bool>): bool { obs != [] && obs[0] }

  function Tail(obs: seq<bool>): seq<bool> { if obs == [] then [] else obs[1..] }

  function Advanced(r: Robot, next: Cell): Robot {
    r.(x := next.0, y := next.1, log := r.log + [Forward, Stop], path := r.path + [next])
  }

  datatype Outcome = Finished | Collision

  function Dist(at: Cell, dest: Cell): nat {
    (if at.0 < dest.0 then dest.0 - at.0 else at.0 - dest.0) + (if at.1 < dest.1 then dest.1 - at.1 else at.1 - dest.1)
  }

  /**
  exe_handler for a MOVE.  next holds whatever next_x and next_y hold; obs are the
  values blocked_flag shows, one per test, clear once the list has run out.
  */
  function Exe(r: Robot, dest: Cell, next: Cell, obs: seq<bool>): (res: (Robot, Outcome, seq<bool>))
    ensures |res.2| <= |obs| && (res.1 == Collision ==> |res.2| < |obs|)
    decreases Dist(r.At(), dest)
  {
    if Head(obs) then (r, Collision, Tail(obs))
    else
      var next' := NextCoord(r.At(), dest, next);
      var r1 := Rotated(r, CalcHeading(r.At(), dest));
      if Head(Tail(obs)) then (r1, Collision, Tail(Tail(obs)))
      else
        var r2 := Advanced(r1, next');
        if r.At() == dest then (r2, Finished, Tail(Tail(obs)))
        else Exe(r2, dest, next', Tail(Tail(obs)))
  }

  /**
  controlThread on its way into exe_handler: it tests the flag at the top of every
  pass, and an alarm there makes a detour through col_handler and back.
  */
  function Settled(obs: seq<bool>): (rest: seq<bool>)
    ensures |rest| <= |obs|
  {
    if Head(obs) then Settled(Tail(obs)) else Tail(obs)
  }

  /** From exe_handler's collision exit into it again: the test before col_handler makes no difference. */
  function Again(obs: seq<bool>): (rest: seq<bool>)
    ensures |rest| <= |obs|
  {
    Settled(Tail(obs))
  }

  /**
  A whole MOVE, from the top of the control loop with exe_handler as the next state
  until it returns to waiting, and what is left of obs.  Each time exe_handler is
  entered its next_x and next_y are uninitialised and hold junk.
  */
  function DriveOn(r: Robot, dest: Cell, junk: Cell, obs: seq<bool>): (res: (Robot, seq<bool>))
    ensures |res.1| <= |obs|
    decreases |obs|
  {
    var (r', outcome, rest) := Exe(r, dest, junk, Settled(obs));
    if outcome == Finished then (r', rest) else DriveOn(r', dest, junk, Tail(rest))
  }

  function Drive(r: Robot, dest: Cell, junk: Cell, obs: seq<bool>): Robot { DriveOn(r, dest, junk, obs).0 }

  /** Waiting for a command, until wait_handler is entered; rx_pdu still holds the last MOVE. */
  function Idle(r: Robot, dest: Cell, junk: Cell, obs: seq<bool>): Robot
    decreases |obs|
  {
    if !Head(obs) then r
    else
      var (r', rest) := DriveOn(r, dest, junk, Tail(obs));
      Idle(r', dest, junk, rest)
  }

  /* ---- The path it should take ---- */

  /** Cell number i of the walk that first closes the gap in x, then the one in y. */
  function XFirstCell(from: Cell, dest: Cell, i: nat): (int, int) {
    var dx := if from.0 < dest.0 then dest.0 - from.0 else from.0 - dest.0;
    if i < dx then (if from.0 < dest.0 then from.0 + i + 1 else from.0 - i - 1, from.1)
    else (dest.0, if from.1 < dest.1 then from.1 + (i - dx) + 1 else from.1 - (i - dx) - 1)
  }

  ghost predicate IsXFirstPath(path: seq<Cell>, from: Cell, dest: Cell) {
    && |path| == Dist(from, dest)
    && forall i :: 0 <= i < |path| ==> path[i] == XFirstCell(from, dest, i)
  }

  /** Does the alarm show in the pass after arrival?  A pass without alarm takes one cell. */
  predicate BlockedOnArrival(obs: seq<bool>, cells: nat)
    decreases |obs| + cells
  {
    if Head(obs) then cells == 0 || BlockedOnArrival(Again(Tail(obs)), cells)
    else if Head(Tail(obs)) then cells == 0 || BlockedOnArrival(Again(Tail(Tail(obs))), cells)
    else cells > 0 && BlockedOnArrival(Tail(Tail(obs)), cells - 1)
  }

  function Count(log: seq<Cmd>, c: Cmd): nat {
    if log == [] then 0 else Count(log[..|log| - 1], c) + if log[|log| - 1] == c then 1 else 0
  }

  /* ---- Convergence under interruption ---- */

  /** The rest of a MOVE, from the middle of a call. */
  function From(r: Robot, dest: Cell, next: Cell, junk: Cell, obs: seq<bool>): Robot {
    var (r', outcome, rest) := Exe(r, dest, next, obs);
    if outcome == Finished then r' else Drive(r', dest, junk, Tail(rest))
  }

  /** Where one pass of the loop leads: the MOVE is through, or goes on from another state. */
  datatype Onward = Through(r: Robot) | On(r: Robot, next: Cell, obs: seq<bool>)

  function OnePass(r: Robot, dest: Cell, next: Cell, junk: Cell, obs: seq<bool>): Onward {
    var r1 := Rotated(r, CalcHeading(r.At(), dest));
    var next' := NextCoord(r.At(), dest, next);
    if Head(obs) then On(r, junk, Again(Tail(obs)))
    else if Head(Tail(obs)) then On(r1, junk, Again(Tail(Tail(obs))))
    else if r.At() == dest then Through(Advanced(r1, next'))
    else On(Advanced(r1, next'), next', Tail(Tail(obs)))
  }

  lemma FromCases(r: Robot, dest: Cell, next: Cell, junk: Cell, obs: seq<bool>)
    ensures From(r, dest, next, junk, obs) ==
      match OnePass(r, dest, next, junk, obs)
      case Through(r') => r'
      case On(r', next', obs') => From(r', dest, next', junk, obs')
  {
  }

  /** A pass brings the end nearer, and keeps the pass after arrival clear. */
  lemma PassShortens(r: Robot, dest: Cell, next: Cell, junk: Cell, obs: seq<bool>)
    requires !BlockedOnArrival(obs, Dist(r.At(), dest))
    ensures var p := OnePass(r, dest, next, junk, obs);
      p.On? ==>
        && !BlockedOnArrival(p.obs, Dist(p.r.At(), dest))
        && |p.obs| + Dist(p.r.At(), dest) < |obs| + Dist(r.At(), dest)
  {
    if r.At() != dest && !Head(obs) && !Head(Tail(obs)) {
      assert Dist(NextCoord(r.At(), dest, next), dest) + 1 == Dist(r.At(), dest);
    }
  }

  lemma {:induction false} CountConcat(a: seq<Cmd>, b: seq<Cmd>, c: Cmd)
    ensures Count(a + b, c) == Count(a, c) + Count(b, c)
    decreases |b|
  {
    if b == [] {
      assert a + b == a;
    } else {
      var b' := b[..|b| - 1];
      assert (a + b)[..|a + b| - 1] == a + b';
      CountConcat(a, b', c);
    }
  }

  lemma {:induction false} TurnsCount(c: Cmd, n: nat)
    requires c != Forward
    ensures Count(Turns(c, n), Forward) == 0
  {
    if n > 0 {
      CountConcat([c, Stop], Turns(c, n - 1), Forward);
      TurnsCount(c, n - 1);
      CountConcat([c], [Stop], Forward);
      assert [c, Stop] == [c] + [Stop];
    }
  }

  lemma StopThenTurns(c: Cmd, n: nat)
    requires c != Forward
    ensures Count([Stop] + Turns(c, n), Forward) == 0
  {
    TurnsCount(c, n);
    CountConcat([Stop], Turns(c, n), Forward);
    assert Count([Stop], Forward) == 0;
  }

  lemma RotationCount(curr: int, goal: int)
    ensures Count(Rotation(curr, goal), Forward) == 0
  {
    if 0 <= goal <= 360 {
      var res := Quarters(curr, goal);
      if res < 0 {
        StopThenTurns(Left, -res);
      } else {
        StopThenTurns(Right, res);
      }
    }
  }

  lemma RotatedCount(r: Robot, goal: int)
    ensures Count(Rotated(r, goal).log, Forward) == Count(r.log, Forward)
  {
    CountConcat(r.log, Rotation(r.heading, goal), Forward);
    RotationCount(r.heading, goal);
  }

  lemma AdvancedCount(r: Robot, next: Cell)
    ensures Count(Advanced(r, next).log, Forward) == Count(r.log, Forward) + 1
  {
    CountConcat(r.log, [Forward, Stop], Forward);
    assert [Forward, Stop][..1] == [Forward];
  }

  /** One cell of the walk brings the destination one closer and leads to the rest of the walk. */
  lemma WalkCons(from: Cell, dest: Cell, next: Cell, rest: seq<Cell>)
    requires from != dest && next == NextCoord(from, dest, next) && IsXFirstPath(rest, next, dest)
    ensures Dist(from, dest) == Dist(next, dest) + 1 && IsXFirstPath([next] + rest, from, dest)
  {
    forall i | 0 <= i < |rest| + 1 ensures ([next] + rest)[i] == XFirstCell(from, dest, i) {
    }
  }

  /** What the rest of a MOVE comes to: a walk to the destination, recorded once more, and its forward commands. */
  ghost predicate Walked(r: Robot, r': Robot, dest: Cell, walk: seq<Cell>) {
    && IsXFirstPath(walk, r.At(), dest)
    && r'.At() == dest && r'.path == r.path + walk + [dest]
    && Count(r'.log, Forward) == Count(r.log, Forward) + Dist(r.At(), dest) + 1
  }

  lemma WalkedFurther(r: Robot, r': Robot, dest: Cell, next: Cell, rest: seq<Cell>)
    requires r.At() != dest && next == NextCoord(r.At(), dest, next)
    requires Walked(Advanced(Rotated(r, CalcHeading(r.At(), dest)), next), r', dest, rest)
    ensures Walked(r, r', dest, [next] + rest)
  {
    RotatedCount(r, CalcHeading(r.At(), dest));
    AdvancedCount(Rotated(r, CalcHeading(r.At(), dest)), next);
    WalkCons(r.At(), dest, next, rest);
    assert r.path + [next] + rest + [dest] == r.path + ([next] + rest) + [dest];
  }

  lemma WalkedLast(r: Robot, next: Cell)
    requires next == r.At()
    ensures Walked(r, Advanced(Rotated(r, -1), next), r.At(), [])
  {
    RotatedCount(r, -1);
    AdvancedCount(Rotated(r, -1), next);
  }

  lemma WalkedTurned(r: Robot, goal: int, r': Robot, dest: Cell, walk: seq<Cell>)
    requires Walked(Rotated(r, goal), r', dest, walk)
    ensures Walked(r, r', dest, walk)
  {
    RotatedCount(r, goal);
  }

  lemma {:induction false} Walk(r: Robot, dest: Cell, next: Cell, junk: Cell, obs: seq<bool>) returns (walk: seq<Cell>)
    requires !BlockedOnArrival(obs, Dist(r.At(), dest)) && (r.At() == dest ==> next == dest)
    ensures Walked(r, From(r, dest, next, junk, obs), dest, walk)
    decreases |obs| + Dist(r.At(), dest)
  {
    var goal := CalcHeading(r.At(), dest);
    var r1 := Rotated(r, goal);
    FromCases(r, dest, next, junk, obs);
    if Head(obs) {
      walk := Walk(r, dest, junk, junk, Again(Tail(obs)));
    } else if Head(Tail(obs)) {
      walk := Walk(r1, dest, junk, junk, Again(Tail(Tail(obs))));
      WalkedTurned(r, goal, From(r, dest, next, junk, obs), dest, walk);
    } else if r.At() == dest {
      walk := [];
      WalkedLast(r, next);
    } else {
      var next' := NextCoord(r.At(), dest, next);
      var rest := Walk(Advanced(r1, next'), dest, next', junk, Tail(Tail(obs)));
      walk := [next'] + rest;
      WalkedFurther(r, From(r, dest, next, junk, obs), dest, next', rest);
    }
  }

  /* ---- An alarm between commands ---- */

  /** Entered at its destination, exe_handler either is interrupted or records next and is through. */
  lemma ExeThere(r: Robot, next: Cell, obs: seq<bool>)
    ensures var (r', outcome, rest) := Exe(r, r.At(), next, obs);
      r' == if outcome == Finished then Advanced(r, next) else r
  {
    assert Rotated(r, -1) == r by {
      assert r.log + [] == r.log;
    }
  }

  lemma {:induction false} DriveThere(r: Robot, junk: Cell, obs: seq<bool>)
    ensures Drive(r, r.At(), junk, obs) == Advanced(r, junk)
    decreases |obs|
  {
    var (r', outcome, rest) := Exe(r, r.At(), junk, Settled(obs));
    ExeThere(r, junk, Settled(obs));
    if outcome == Collision {
      DriveThere(r, junk, Tail(rest));
    }
  }

  /** Entered at its destination, exe_handler records whatever next_x and next_y hold, and drives one cell on. */
  lemma EntryAtDestination(r: Robot, dest: Cell, junk: Cell, obs: seq<bool>)
    requires r.At() == dest
    ensures var r' := Drive(r, dest, junk, obs);
      r'.At() == junk && Count(r'.log, Forward) == Count(r.log, Forward) + 1
  {
    DriveThere(r, junk, obs);
    AdvancedCount(r, junk);
  }

  lemma {:induction false} ExeExtends(r: Robot, dest: Cell, next: Cell, obs: seq<bool>)
    ensures r.path <= Exe(r, dest, next, obs).0.path
    decreases Dist(r.At(), dest)
  {
    if r.At() == dest {
      ExeThere(r, next, obs);
    } else if !Head(obs) && !Head(Tail(obs)) {
      var next' := NextCoord(r.At(), dest, next);
      var r2 := Advanced(Rotated(r, CalcHeading(r.At(), dest)), next');
      ExeExtends(r2, dest, next', Tail(Tail(obs)));
      assert r.path <= r2.path;
    }
  }

  lemma {:induction false} DriveExtends(r: Robot, dest: Cell, junk: Cell, obs: seq<bool>)
    ensures r.path <= Drive(r, dest, junk, obs).path
    decreases |obs|
  {
    var (r', outcome, rest) := Exe(r, dest, junk, Settled(obs));
    ExeExtends(r, dest, junk, Settled(obs));
    if outcome == Collision {
      DriveExtends(r', dest, junk, Tail(rest));
    }
  }

  lemma {:induction false} IdleExtends(r: Robot, dest: Cell, junk: Cell, obs: seq<bool>)
    ensures r.path <= Idle(r, dest, junk, obs).path
    decreases |obs|
  {
    if Head(obs) {
      var (r', rest) := DriveOn(r, dest, junk, Tail(obs));
      DriveExtends(r, dest, junk, Tail(obs));
      IdleExtends(r', dest, junk, rest);
    }
  }

  lemma IdleAlarmed(r: Robot, junk: Cell, obs: seq<bool>)
    requires Head(obs)
    ensures r.path + [junk] <= Idle(r, r.At(), junk, obs).path
  {
    var (r', rest) := DriveOn(r, r.At(), junk, Tail(obs));
    DriveThere(r, junk, Tail(obs));
    IdleExtends(r', r.At(), junk, rest);
  }

  /**
  Between commands, for any alarms: the recorded positions stay as they are, whatever
  uninitialised memory holds, exactly when no alarm shows in the test before
  wait_handler; otherwise the robot goes into its last MOVE again and the first
  thing it records is that memory.
  */
  lemma AlarmWhileWaiting(r: Robot, dest: Cell, obs: seq<bool>)
    requires r.At() == dest
    ensures (forall junk :: Idle(r, dest, junk, obs).path == r.path) <==> !Head(obs)
    ensures Head(obs) ==> forall junk :: r.path + [junk] <= Idle(r, dest, junk, obs).path
  {
    if Head(obs) {
      forall junk ensures r.path + [junk] <= Idle(r, dest, junk, obs).path {
        IdleAlarmed(r, junk, obs);
      }
      assert Idle(r, dest, dest, obs).path != r.path;
    }
  }

  /** For example, one alarm: the record is uninitialised memory, and the robot has moved one cell on. */
  lemma OneAlarmWhileWaiting(r: Robot, dest: Cell, junk: Cell)
    requires r.At() == dest
    ensures var r' := Idle(r, dest, junk, [true]);
      r'.At() == junk && Count(r'.log, Forward) == Count(r.log, Forward) + 1
  {
    EntryAtDestination(r, dest, junk, []);
    assert DriveOn(r, dest, junk, []).1 == [];
  }

  lemma {:induction false} Strays(r: Robot, dest: Cell, next: Cell, junk: Cell, obs: seq<bool>)
    requires BlockedOnArrival(obs, Dist(r.At(), dest))
    ensures From(r, dest, next, junk, obs).At() == junk
    decreases |obs| + Dist(r.At(), dest)
  {
    var r1 := Rotated(r, CalcHeading(r.At(), dest));
    if Head(obs) {
      if r.At() == dest {
        EntryAtDestination(r, dest, junk, Tail(Tail(obs)));
      } else {
        Strays(r, dest, junk, junk, Again(Tail(obs)));
      }
    } else if Head(Tail(obs)) {
      if r.At() == dest {
        EntryAtDestination(r1, dest, junk, Tail(Tail(Tail(obs))));
      } else {
        Strays(r1, dest, junk, junk, Again(Tail(Tail(obs))));
      }
    } else {
      var next' := NextCoord(r.At(), dest, next);
      Strays(Advanced(r1, next'), dest, next', junk, Tail(Tail(obs)));
    }
  }

  /**
  Whatever the alarm shows, as long as it is clear in the pass after arrival: the
  recorded positions, over all interruptions, are one x-first walk of unit steps
  and then the destination again; and the robot is told to move forward once per
  cell and once more.
  */
  lemma MoveConverges(r: Robot, dest: Cell, junk: Cell, obs: seq<bool>) returns (walk: seq<Cell>)
    requires r.At() != dest && !BlockedOnArrival(Settled(obs), Dist(r.At(), dest))
    ensures var r' := Drive(r, dest, junk, obs);
      && IsXFirstPath(walk, r.At(), dest)
      && r'.At() == dest && r'.path == r.path + walk + [dest]
      && Count(r'.log, Forward) == Count(r.log, Forward) + Dist(r.At(), dest) + 1
  {
    walk := Walk(r, dest, junk, junk, Settled(obs));
  }

  /**
  The exact condition: a MOVE that starts away from its destination ends there
  whatever uninitialised memory holds if and only if the alarm is clear in the pass
  after arrival.
  */
  lemma MoveArrivesExactly(r: Robot, dest: Cell, obs: seq<bool>)
    requires r.At() != dest
    ensures (forall junk :: Drive(r, dest, junk, obs).At() == dest) <==> !BlockedOnArrival(Settled(obs), Dist(r.At(), dest))
  {
    if BlockedOnArrival(Settled(obs), Dist(r.At(), dest)) {
      Strays(r, dest, r.At(), r.At(), Settled(obs));
      assert Drive(r, dest, r.At(), obs).At() != dest;
    } else {
      forall junk ensures Drive(r, dest, junk, obs).At() == dest {
        var walk := MoveConverges(r, dest, junk, obs);
      }
    }
  }
}
