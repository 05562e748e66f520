/**
Dead reckoning against the motors: what the commands sent to the motor board do
to the real robot, compared with the position and heading the controller keeps.
A left turn adds a quarter to the heading, which is the convention the rotation
code follows.
*/
module DeadReckoning {
  import opened Common
  import opened Motion

  datatype Body = Body(x: int, y: int, heading: int)

  /** One cell in the direction of a heading; y grows to the east, x to the south. */
  function UnitX(heading: int): int { if heading == HEAD_S then 1 else if heading == HEAD_N then -1 else 0 }

  function UnitY(heading: int): int { if heading == HEAD_E then 1 else if heading == HEAD_W then -1 else 0 }

  function Act(b: Body, c: Cmd): Body {
    match c
    case Stop => b
    case Left => b.(heading := (b.heading + 90) % 360)
    case Right => b.(heading := (b.heading - 90) % 360)
    case Forward => b.(x := b.x + UnitX(b.heading), y := b.y + UnitY(b.heading))
  }

  function Replay(b: Body, log: seq<Cmd>): Body
    decreases |log|
  {
    if log == [] then b else Act(Replay(b, log[..|log| - 1]), log[|log| - 1])
  }

  lemma {:induction false} ReplayConcat(b: Body, a: seq<Cmd>, c: seq<Cmd>)
    ensures Replay(b, a + c) == Replay(Replay(b, a), c)
    decreases |c|
  {
    if c == [] {
      assert a + c == a;
    } else {
      assert (a + c)[..|a + c| - 1] == a + c[..|c| - 1];
      ReplayConcat(b, a, c[..|c| - 1]);
    }
  }

  lemma ReplayOne(b: Body, c: Cmd)
    ensures Replay(b, [c]) == Act(b, c)
  {
    assert [c][..0] == [];
  }

  predicate Compass(h: int) { h == HEAD_N || h == HEAD_E || h == HEAD_S || h == HEAD_W }

  /** The turn the rotation code gets wrong: from north to west it turns left once. */
  predicate Flip(curr: int, goal: int) { curr == HEAD_N && goal == HEAD_W }

  /** The change of heading one turn makes. */
  function Delta(c: Cmd): int { if c == Left then 90 else if c == Right then -90 else 0 }

  /** One turn and then n more add up. */
  lemma TurnsAddUp(h: int, d: int, n: nat)
    ensures ((h + d) % 360 + d * n) % 360 == (h + d * (n + 1)) % 360
  {
    ModAdd(h + d, d * n, 360);
    assert d + d * n == d * (n + 1);
  }

  lemma ReplayTurn(b: Body, c: Cmd)
    requires c == Left || c == Right
    ensures Replay(b, [c, Stop]) == b.(heading := (b.heading + Delta(c)) % 360)
  {
    assert [c, Stop] == [c] + [Stop];
    ReplayConcat(b, [c], [Stop]);
    ReplayOne(b, c);
    ReplayOne(Act(b, c), Stop);
  }

  lemma {:induction false} ReplayTurns(b: Body, c: Cmd, n: nat)
    requires c == Left || c == Right
    requires 0 <= b.heading < 360
    ensures Replay(b, Turns(c, n)) == b.(heading := (b.heading + Delta(c) * n) % 360)
    decreases n
  {
    if n > 0 {
      var b1 := Replay(b, [c, Stop]);
      ReplayConcat(b, [c, Stop], Turns(c, n - 1));
      ReplayTurn(b, c);
      ReplayTurns(b1, c, n - 1);
      TurnsAddUp(b.heading, Delta(c), n - 1);
    }
  }

  function SignedTurns(res: int): seq<Cmd> { if res < 0 then Turns(Left, -res) else Turns(Right, res) }

  lemma ReplaySigned(b: Body, res: int)
    requires Compass(b.heading)
    ensures Replay(b, SignedTurns(res)) == b.(heading := (b.heading - 90 * res) % 360)
  {
    if res < 0 {
      ReplayTurns(b, Left, -res);
      assert Delta(Left) * -res == -90 * res;
    } else {
      ReplayTurns(b, Right, res);
      assert Delta(Right) * res == -90 * res;
    }
  }

  function Opposite(h: int): int { if h < 180 then h + 180 else h - 180 }

  lemma QuartersExact(curr: int, goal: int)
    requires Compass(curr) && Compass(goal)
    ensures 90 * Quarters(curr, goal) == curr - goal + if Flip(curr, goal) then 180 else 0
  {
  }

  lemma TurnArithmetic(heading: int, curr: int, goal: int)
    requires Compass(curr) && Compass(goal) && (heading == curr || heading == Opposite(curr))
    ensures (heading - 90 * Quarters(curr, goal)) % 360
         == if (heading == curr) != Flip(curr, goal) then goal else Opposite(goal)
  {
    QuartersExact(curr, goal);
  }

  /**
  What a rotation does to the body: one that faces where the controller thinks
  it does ends up as asked, one that faces backwards ends up backwards, except
  that the bad turn swaps the two.
  */
  lemma RotationTurns(b: Body, curr: int, goal: int)
    requires Compass(curr) && Compass(goal) && (b.heading == curr || b.heading == Opposite(curr))
    ensures Replay(b, Rotation(curr, goal))
         == b.(heading := if (b.heading == curr) != Flip(curr, goal) then goal else Opposite(goal))
  {
    ReplayRotation(b, curr, goal);
    TurnArithmetic(b.heading, curr, goal);
  }

  lemma ReplayRotation(b: Body, curr: int, goal: int)
    requires Compass(b.heading) && 0 <= goal <= 360
    ensures Replay(b, Rotation(curr, goal)) == b.(heading := (b.heading - 90 * Quarters(curr, goal)) % 360)
  {
    var res := Quarters(curr, goal);
    ReplayConcat(b, [Stop], SignedTurns(res));
    ReplayOne(b, Stop);
    ReplaySigned(b, res);
  }

  /* ---- One MOVE ---- */

  /** The body faces where the controller thinks it does, or exactly the other way. */
  predicate Aligned(b: Body, r: Robot) {
    Compass(r.heading) && (b.heading == r.heading || b.heading == Opposite(r.heading))
  }

  /** 1 when the body faces as recorded, -1 when it faces backwards. */
  function Sign(b: Body, r: Robot): int { if b.heading == r.heading then 1 else -1 }

  /** Whether a MOVE contains the bad turn: it ends westward, coming from north. */
  predicate MoveFlips(at: Cell, heading: int, dest: Cell) {
    dest.1 < at.1 && (dest.0 < at.0 || (dest.0 == at.0 && heading == HEAD_N))
  }

  function FinalHeading(at: Cell, heading: int, dest: Cell): int {
    if dest.1 > at.1 then HEAD_E
    else if dest.1 < at.1 then HEAD_W
    else if dest.0 != at.0 then CalcHeading(at, dest)
    else heading
  }

  /**
  Where the body ends up, from an undisturbed or interrupted MOVE: the leg in x
  with the sign it starts with, the leg in y with the sign after the bad turn if
  there is one, and one more cell in the final heading.
  */
  function Landing(b: Body, r: Robot, dest: Cell): Body {
    var s1 := Sign(b, r);
    var s2 := if MoveFlips(r.At(), r.heading, dest) then -s1 else s1;
    var h := FinalHeading(r.At(), r.heading, dest);
    Body(b.x + s1 * (dest.0 - r.x) + s2 * UnitX(h),
         b.y + s2 * (dest.1 - r.y) + s2 * UnitY(h),
         if s2 == 1 then h else Opposite(h))
  }

  lemma OneRotation(start: Body, r: Robot, goal: int) returns (b': Body)
    requires Aligned(Replay(start, r.log), r) && Compass(goal)
    ensures var b, r' := Replay(start, r.log), Rotated(r, goal);
      && b' == Replay(start, r'.log) && Aligned(b', r') && b'.x == b.x && b'.y == b.y
      && Sign(b', r') == (if Flip(r.heading, goal) then -Sign(b, r) else Sign(b, r))
  {
    ReplayConcat(start, r.log, Rotation(r.heading, goal));
    RotationTurns(Replay(start, r.log), r.heading, goal);
    b' := Replay(start, Rotated(r, goal).log);
  }

  lemma OneForward(start: Body, r: Robot, next: Cell) returns (b': Body)
    requires Aligned(Replay(start, r.log), r)
    ensures var b, r' := Replay(start, r.log), Advanced(r, next);
      && b' == Replay(start, r'.log) && Aligned(b', r') && Sign(b', r') == Sign(b, r)
      && b'.x == b.x + Sign(b, r) * UnitX(r.heading) && b'.y == b.y + Sign(b, r) * UnitY(r.heading)
      && b'.heading == b.heading
  {
    var b := Replay(start, r.log);
    ReplayConcat(start, r.log, [Forward, Stop]);
    assert [Forward, Stop] == [Forward] + [Stop];
    ReplayConcat(b, [Forward], [Stop]);
    ReplayOne(b, Forward);
    ReplayOne(Act(b, Forward), Stop);
    b' := Replay(start, Advanced(r, next).log);
  }

  /** Rotating towards the destination first does not change where the MOVE lands. */
  lemma LandingAfterTurn(b: Body, r: Robot, b': Body, r': Robot, dest: Cell)
    requires Aligned(b, r) && Aligned(b', r') && r.At() != dest && r'.At() == r.At() && b'.x == b.x && b'.y == b.y
    requires r'.heading == CalcHeading(r.At(), dest)
    requires Sign(b', r') == (if Flip(r.heading, r'.heading) then -Sign(b, r) else Sign(b, r))
    ensures FinalHeading(r'.At(), r'.heading, dest) == FinalHeading(r.At(), r.heading, dest)
    ensures Landing(b', r', dest) == Landing(b, r, dest)
  {
  }

  /** Nor does taking the first cell. */
  lemma LandingAfterCell(b: Body, r: Robot, b': Body, r': Robot, dest: Cell)
    requires Aligned(b, r) && Aligned(b', r') && r.At() != dest && r.heading == CalcHeading(r.At(), dest)
    requires r'.At() == NextCoord(r.At(), dest, r.At()) && r'.heading == r.heading && Sign(b', r') == Sign(b, r)
    requires b'.x == b.x + Sign(b, r) * UnitX(r.heading) && b'.y == b.y + Sign(b, r) * UnitY(r.heading)
    ensures FinalHeading(r'.At(), r'.heading, dest) == FinalHeading(r.At(), r.heading, dest)
    ensures Landing(b', r', dest) == Landing(b, r, dest)
  {
  }

  /** The body after everything sent so far is on course for this landing. */
  ghost predicate Bound(start: Body, r: Robot, dest: Cell, landing: Body, heading: int) {
    && Aligned(Replay(start, r.log), r)
    && Landing(Replay(start, r.log), r, dest) == landing
    && FinalHeading(r.At(), r.heading, dest) == heading
  }

  /** Turning towards the destination: still bound for the same landing. */
  lemma TurnLands(start: Body, r: Robot, dest: Cell, landing: Body, heading: int)
    requires Bound(start, r, dest, landing, heading) && r.At() != dest
    ensures Bound(start, Rotated(r, CalcHeading(r.At(), dest)), dest, landing, heading)
  {
    var goal := CalcHeading(r.At(), dest);
    var r1 := Rotated(r, goal);
    assert r1.At() == r.At() && r1.heading == goal;
    var b1 := OneRotation(start, r, goal);
    LandingAfterTurn(Replay(start, r.log), r, b1, r1, dest);
  }

  /** Taking the next cell: still bound for the same landing. */
  lemma CellLands(start: Body, r: Robot, dest: Cell, next: Cell, landing: Body, heading: int)
    requires Bound(start, r, dest, landing, heading) && r.At() != dest && r.heading == CalcHeading(r.At(), dest)
    requires next == NextCoord(r.At(), dest, next)
    ensures Bound(start, Advanced(r, next), dest, landing, heading)
  {
    var b := OneForward(start, r, next);
    LandingAfterCell(Replay(start, r.log), r, b, Advanced(r, next), dest);
  }

  /** The pass after arrival goes one cell too far. */
  lemma LastPass(start: Body, r: Robot, next: Cell)
    requires Aligned(Replay(start, r.log), r)
    ensures var r' := Advanced(Rotated(r, -1), next);
      Replay(start, r'.log) == Landing(Replay(start, r.log), r, r.At()) && r'.heading == r.heading
  {
    assert Rotated(r, -1) == r;
    var b := OneForward(start, r, next);
  }

  /** The robot that comes out of a MOVE, and the body, are where they were bound for. */
  predicate Landed(start: Body, r: Robot, landing: Body, heading: int) {
    Replay(start, r.log) == landing && r.heading == heading
  }

  /** One pass keeps the course, or ends it. */
  lemma PassLands(start: Body, r: Robot, dest: Cell, next: Cell, junk: Cell, obs: seq<bool>, landing: Body, heading: int)
    requires Bound(start, r, dest, landing, heading) && !BlockedOnArrival(obs, Dist(r.At(), dest))
    ensures match OnePass(r, dest, next, junk, obs)
            case Through(r') => Landed(start, r', landing, heading)
            case On(r', _, _) => Bound(start, r', dest, landing, heading)
  {
    if !Head(obs) {
      if r.At() == dest {
        LastPass(start, r, next);
      } else {
        var r1 := Rotated(r, CalcHeading(r.At(), dest));
        TurnLands(start, r, dest, landing, heading);
        CellLands(start, r1, dest, NextCoord(r.At(), dest, next), landing, heading);
      }
    }
  }

  lemma {:induction false} MoveLands(start: Body, r: Robot, dest: Cell, next: Cell, junk: Cell, obs: seq<bool>, landing: Body, heading: int)
    requires Bound(start, r, dest, landing, heading) && !BlockedOnArrival(obs, Dist(r.At(), dest))
    ensures Landed(start, From(r, dest, next, junk, obs), landing, heading)
    decreases |obs| + Dist(r.At(), dest)
  {
    FromCases(r, dest, next, junk, obs);
    PassLands(start, r, dest, next, junk, obs, landing, heading);
    PassShortens(r, dest, next, junk, obs);
    match OnePass(r, dest, next, junk, obs) {
      case Through(r') =>
      case On(r', next', obs') => MoveLands(start, r', dest, next', junk, obs', landing, heading);
    }
  }

  /**
  One MOVE, interrupted or not: the body ends in the closed form above.  Without
  the bad turn and facing as recorded, that is one cell beyond the recorded
  position in the final heading.
  */
  lemma MoveLanding(start: Body, r: Robot, dest: Cell, junk: Cell, obs: seq<bool>)
    requires Aligned(Replay(start, r.log), r) && r.At() != dest && !BlockedOnArrival(Settled(obs), Dist(r.At(), dest))
    ensures var r' := Drive(r, dest, junk, obs);
      && Replay(start, r'.log) == Landing(Replay(start, r.log), r, dest)
      && r'.At() == dest && r'.heading == FinalHeading(r.At(), r.heading, dest)
      && Aligned(Replay(start, r'.log), r')
  {
    MoveLands(start, r, dest, junk, junk, Settled(obs),
              Landing(Replay(start, r.log), r, dest), FinalHeading(r.At(), r.heading, dest));
    var walk := MoveConverges(r, dest, junk, obs);
  }

  /* ---- A journey of many MOVEs ---- */

  datatype Leg = Leg(dest: Cell, junk: Cell, obs: seq<bool>)

  function Journey(r: Robot, legs: seq<Leg>): Robot
    decreases |legs|
  {
    if legs == [] then r
    else
      var leg := legs[|legs| - 1];
      Drive(Journey(r, legs[..|legs| - 1]), leg.dest, leg.junk, leg.obs)
  }

  /** Each MOVE starts away from its destination and is clear in the pass after arrival. */
  predicate Proper(r: Robot, legs: seq<Leg>)
    decreases |legs|
  {
    legs == [] ||
    (var before := Journey(r, legs[..|legs| - 1]);
     var leg := legs[|legs| - 1];
     Proper(r, legs[..|legs| - 1]) && before.At() != leg.dest && !BlockedOnArrival(Settled(leg.obs), Dist(before.At(), leg.dest)))
  }

  function Flips(r: Robot, legs: seq<Leg>): nat
    decreases |legs|
  {
    if legs == [] then 0
    else
      var before := Journey(r, legs[..|legs| - 1]);
      Flips(r, legs[..|legs| - 1]) + if MoveFlips(before.At(), before.heading, legs[|legs| - 1].dest) then 1 else 0
  }

  /** The sum of the unit vectors of the headings the MOVEs end in. */
  function Overshoot(r: Robot, legs: seq<Leg>): (int, int)
    decreases |legs|
  {
    if legs == [] then (0, 0)
    else
      var before := Overshoot(r, legs[..|legs| - 1]);
      var h := Journey(r, legs).heading;
      (before.0 + UnitX(h), before.1 + UnitY(h))
  }

  function Abs(n: int): nat { if n < 0 then -n else n }

  /** A robot that has just been switched on where it is. */
  predicate Fresh(r: Robot) { r.log == [] && Compass(r.heading) }

  function BodyOf(r: Robot): Body { Body(r.x, r.y, r.heading) }

  /** Each bad turn so far has turned the body round against the record. */
  predicate Facing(start: Body, r: Robot, flips: nat) {
    var b := Replay(start, r.log);
    Aligned(b, r) && (Sign(b, r) == 1 <==> flips % 2 == 0)
  }

  /** Landing turns the body round against the record exactly when the MOVE contains the bad turn. */
  lemma LandedSign(b: Body, r: Robot, dest: Cell, b': Body, r': Robot)
    requires Aligned(b, r) && Aligned(b', r') && b' == Landing(b, r, dest)
    requires r'.heading == FinalHeading(r.At(), r.heading, dest)
    ensures Sign(b', r') == if MoveFlips(r.At(), r.heading, dest) then -Sign(b, r) else Sign(b, r)
  {
  }

  lemma LegFacing(start: Body, r: Robot, leg: Leg, r': Robot, flips: nat)
    requires Facing(start, r, flips) && r' == Drive(r, leg.dest, leg.junk, leg.obs)
    requires r.At() != leg.dest && !BlockedOnArrival(Settled(leg.obs), Dist(r.At(), leg.dest))
    ensures Facing(start, r', flips + if MoveFlips(r.At(), r.heading, leg.dest) then 1 else 0)
  {
    MoveLanding(start, r, leg.dest, leg.junk, leg.obs);
    LandedSign(Replay(start, r.log), r, leg.dest, Replay(start, r'.log), r');
  }

  lemma {:induction false} JourneyFacing(r: Robot, legs: seq<Leg>)
    requires Fresh(r) && Proper(r, legs)
    ensures Facing(BodyOf(r), Journey(r, legs), Flips(r, legs))
    decreases |legs|
  {
    if legs != [] {
      var earlier, leg := legs[..|legs| - 1], legs[|legs| - 1];
      JourneyFacing(r, earlier);
      LegFacing(BodyOf(r), Journey(r, earlier), leg, Journey(r, legs), Flips(r, earlier));
    }
  }

  /**
  Heading law: over any sequence of MOVEs the stored heading stays on the compass,
  and the robot faces as recorded exactly when the number of bad turns so far is
  even; otherwise it faces the opposite way.
  */
  lemma HeadingLaw(r: Robot, legs: seq<Leg>)
    requires Fresh(r) && Proper(r, legs)
    ensures var r' := Journey(r, legs);
      var b := Replay(BodyOf(r), r'.log);
      && Compass(r'.heading) && Aligned(b, r')
      && (b.heading == r'.heading <==> Flips(r, legs) % 2 == 0)
      && (b.heading == Opposite(r'.heading) <==> Flips(r, legs) % 2 == 1)
  {
    JourneyFacing(r, legs);
  }

  /* ---- Any journey, bad turns included ---- */

  function Even(flips: nat): int { if flips % 2 == 0 then 1 else -1 }

  /**
  Where the body is after a journey, from the record alone: each leg in x counts with
  the sign after the bad turns before it, and each leg in y and the extra cell with the
  sign after those up to and including its own MOVE.
  */
  function Travelled(r: Robot, legs: seq<Leg>): (int, int)
    decreases |legs|
  {
    if legs == [] then (0, 0)
    else
      var earlier, dest := legs[..|legs| - 1], legs[|legs| - 1].dest;
      var t, m, h := Travelled(r, earlier), Journey(r, earlier), Journey(r, legs).heading;
      var s1, s2 := Even(Flips(r, earlier)), Even(Flips(r, legs));
      (t.0 + s1 * (dest.0 - m.x) + s2 * UnitX(h), t.1 + s2 * (dest.1 - m.y) + s2 * UnitY(h))
  }

  lemma EvenFlip(flips: nat)
    ensures Even(flips + 1) == -Even(flips)
  {
  }

  /** One MOVE from a body known by the number of bad turns so far. */
  lemma LegTravel(start: Body, r: Robot, leg: Leg, r': Robot, flips: nat, flips': nat)
    requires Facing(start, r, flips) && r' == Drive(r, leg.dest, leg.junk, leg.obs)
    requires r.At() != leg.dest && !BlockedOnArrival(Settled(leg.obs), Dist(r.At(), leg.dest))
    requires flips' == flips + if MoveFlips(r.At(), r.heading, leg.dest) then 1 else 0
    ensures var b, b' := Replay(start, r.log), Replay(start, r'.log);
      && b'.x == b.x + Even(flips) * (leg.dest.0 - r.x) + Even(flips') * UnitX(r'.heading)
      && b'.y == b.y + Even(flips') * (leg.dest.1 - r.y) + Even(flips') * UnitY(r'.heading)
  {
    MoveLanding(start, r, leg.dest, leg.junk, leg.obs);
    LandedCell(Replay(start, r.log), r, leg.dest, flips, flips');
  }

  lemma LandedCell(b: Body, r: Robot, dest: Cell, flips: nat, flips': nat)
    requires Aligned(b, r) && (Sign(b, r) == 1 <==> flips % 2 == 0)
    requires flips' == flips + if MoveFlips(r.At(), r.heading, dest) then 1 else 0
    ensures var b', h := Landing(b, r, dest), FinalHeading(r.At(), r.heading, dest);
      && b'.x == b.x + Even(flips) * (dest.0 - r.x) + Even(flips') * UnitX(h)
      && b'.y == b.y + Even(flips') * (dest.1 - r.y) + Even(flips') * UnitY(h)
  {
    EvenFlip(flips);
    assert Sign(b, r) == Even(flips);
  }

  /** Journey law: after any sequence of MOVEs the real cell is the signed sum above. */
  lemma {:induction false} JourneyLaw(r: Robot, legs: seq<Leg>)
    requires Fresh(r) && Proper(r, legs)
    ensures var b := Replay(BodyOf(r), Journey(r, legs).log);
      b.x == r.x + Travelled(r, legs).0 && b.y == r.y + Travelled(r, legs).1
    decreases |legs|
  {
    if legs != [] {
      var earlier, leg := legs[..|legs| - 1], legs[|legs| - 1];
      JourneyLaw(r, earlier);
      JourneyFacing(r, earlier);
      LegTravel(BodyOf(r), Journey(r, earlier), leg, Journey(r, legs), Flips(r, earlier), Flips(r, legs));
    }
  }

  /* ---- Journeys without bad turns ---- */

  /** How far the body is from the recorded position. */
  function Drift(start: Body, r: Robot): (int, int) {
    var b := Replay(start, r.log);
    (b.x - r.x, b.y - r.y)
  }

  lemma JourneyArrives(r: Robot, legs: seq<Leg>)
    requires legs != [] && Proper(r, legs)
    ensures Journey(r, legs).At() == legs[|legs| - 1].dest
  {
    var leg := legs[|legs| - 1];
    var walk := MoveConverges(Journey(r, legs[..|legs| - 1]), leg.dest, leg.junk, leg.obs);
  }

  /** All signs being positive, the recorded steps add up to the recorded way. */
  lemma {:induction false} TravelledStraight(r: Robot, legs: seq<Leg>)
    requires Proper(r, legs) && Flips(r, legs) == 0
    ensures var r', t, o := Journey(r, legs), Travelled(r, legs), Overshoot(r, legs);
      t == (r'.x - r.x + o.0, r'.y - r.y + o.1)
    decreases |legs|
  {
    if legs != [] {
      TravelledStraight(r, legs[..|legs| - 1]);
      JourneyArrives(r, legs);
    }
  }

  lemma {:induction false} OvershootBound(r: Robot, legs: seq<Leg>)
    ensures Abs(Overshoot(r, legs).0) + Abs(Overshoot(r, legs).1) <= |legs|
    decreases |legs|
  {
    if legs != [] {
      OvershootBound(r, legs[..|legs| - 1]);
      Longer(Overshoot(r, legs[..|legs| - 1]), Journey(r, legs).heading, |legs| - 1);
    }
  }

  lemma Longer(v: (int, int), h: int, n: nat)
    requires Abs(v.0) + Abs(v.1) <= n
    ensures Abs(v.0 + UnitX(h)) + Abs(v.1 + UnitY(h)) <= n + 1
  {
  }

  /**
  Drift law: without bad turns, the real cell minus the recorded one is the sum of
  the final-heading unit vectors, so the drift is at most one cell per MOVE.
  */
  lemma DriftLaw(r: Robot, legs: seq<Leg>)
    requires Fresh(r) && Proper(r, legs) && Flips(r, legs) == 0
    ensures Drift(BodyOf(r), Journey(r, legs)) == Overshoot(r, legs)
    ensures Abs(Overshoot(r, legs).0) + Abs(Overshoot(r, legs).1) <= |legs|
  {
    JourneyLaw(r, legs);
    TravelledStraight(r, legs);
    OvershootBound(r, legs);
  }

  /** The bad turn at work: sent from (1, 1) to (0, 0), the robot ends up at (0, 3). */
  lemma BadTurnExample(junk: Cell)
    ensures var r := Robot(1, 1, HEAD_N, [], []);
      var r' := Drive(r, (0, 0), junk, []);
      r'.At() == (0, 0) && Replay(BodyOf(r), r'.log) == Body(0, 3, HEAD_E)
  {
    var r := Robot(1, 1, HEAD_N, [], []);
    MoveLanding(BodyOf(r), r, (0, 0), junk, []);
  }
}