/**
How long a lost wake-up lasts: the sleeper stays asleep through every schedule that
leaves room on its side, and wakes in some schedule that uses the room up.
*/
module FifoSleepers {
  import opened Common
  import opened PduTypes
  import opened FifoModel
  import opened FifoSafety
  import opened FifoWakeup
  import opened FifoLostWakeup

  /** Asleep beside room, with no token and nobody about to post one. */
  ghost predicate Oversleeps(s: State, r: Role, i: nat) {
    At(s, r, Park, i) && Tokens(s, r) == 0 && Room(s, r) > 0 && !Pending(s, r)
  }

  lemma OwnKeepsAsleep(s: State, r: Role, i: nat, u: Turn)
    requires Inv(s) && Oversleeps(s, r, i) && IsRole(s, r, u.tid) && Room(Step(s, u), r) > 0
    ensures Oversleeps(Step(s, u), r, i)
  {
    var s' := Step(s, u);
    OwnSide(s, r, u);
    OwnRoom(s, r, u);
    if s.threads[u.tid].pc == Count {
      HolderAlone(s, u.tid);
    }
    forall k ensures At(s', r.Other(), Signal, k) ==> At(s, r.Other(), Signal, k) {
    }
  }

  lemma OtherKeepsAsleep(s: State, r: Role, i: nat, u: Turn)
    requires Inv(s) && Oversleeps(s, r, i) && IsRole(s, r.Other(), u.tid)
    ensures Oversleeps(Step(s, u), r, i)
  {
    var s' := Step(s, u);
    OtherSide(s, r, u);
    assert s.threads[u.tid].pc == Signal ==> At(s, r.Other(), Signal, u.tid);
    if s.threads[u.tid].pc != Count {
      forall k ensures At(s', r.Other(), Signal, k) ==> At(s, r.Other(), Signal, k) {
      }
    }
  }

  /** Every step after which the sleeper's side still has room leaves it asleep. */
  lemma StillAsleep(s: State, r: Role, i: nat, u: Turn)
    requires Inv(s) && Oversleeps(s, r, i) && Room(Step(s, u), r) > 0
    ensures Oversleeps(Step(s, u), r, i)
  {
    if IsRole(s, r, u.tid) {
      OwnKeepsAsleep(s, r, i, u);
    } else if IsRole(s, r.Other(), u.tid) {
      OtherKeepsAsleep(s, r, i, u);
    }
  }

  /** The side has room after every turn of the schedule. */
  predicate RoomThroughout(s: State, r: Role, schedule: seq<Turn>)
    requires Shape(s)
    decreases |schedule|
  {
    Room(Run(s, schedule), r) > 0 && (schedule == [] || RoomThroughout(s, r, schedule[..|schedule| - 1]))
  }

  lemma {:induction false} AsleepThroughout(s: State, r: Role, i: nat, schedule: seq<Turn>)
    requires Inv(s) && Oversleeps(s, r, i) && RoomThroughout(s, r, schedule)
    ensures Oversleeps(Run(s, schedule), r, i)
    decreases |schedule|
  {
    if schedule != [] {
      AsleepThroughout(s, r, i, schedule[..|schedule| - 1]);
      RunInv(s, schedule[..|schedule| - 1]);
      StillAsleep(Run(s, schedule[..|schedule| - 1]), r, i, schedule[|schedule| - 1]);
    }
  }

  /* ---- Waking up again ---- */

  /** In a stranded state everybody is outside or asleep: the lock is free and no wake-up is on its way. */
  lemma StrandedIsStill(s: State, r: Role, i: nat)
    requires Inv(s) && Stranded(s, r, i)
    ensures s.mutex == 1 && Oversleeps(s, r, i) && forall q :: !Pending(s, q)
  {
    assert forall j :: 0 <= j < |s.threads| ==> !Holding(s.threads[j].pc);
  }

  /** Somebody on the sleeper's own side is outside the queue. */
  lemma IdleColleague(s: State, r: Role, i: nat) returns (j: nat)
    requires Inv(s) && WakeInv(s, r) && Stranded(s, r, i)
    ensures At(s, r, Idle, j) && j != i
  {
    StrandedIsStill(s, r, i);
    assert IsRole(s, r, i);
    j :| IsRole(s, r, j) && !Asleep(s.threads[j].pc);
  }

  /** A thread asleep beside a token and room wakes and completes its call. */
  lemma WakeAndCall(s0: State, s: State, q: Role, t: nat, p: Pdu) returns (s': State)
    requires Shape(s0) && Shape(s) && Reach(s0, s) && s.mutex == 1
    requires At(s, q, Park, t) && Tokens(s, q) > 0 && Room(s, q) > 0
    ensures Shape(s') && Reach(s0, s') && Moved(s, s', t)
    ensures Room(s', q.Other()) == Room(s, q.Other()) + 1
    ensures Tokens(s', q.Other()) == Tokens(s, q.Other()) + (if Room(s', q.Other()) == 1 then 1 else 0)
  {
    var m := ReachStep(s0, s, Turn(t, p));
    s' := Operate(s0, m, t, q, p);
  }

  /** With the lock free, all threads outside or asleep and room on side q, some thread of q can complete a call. */
  lemma SomeoneCalls(s0: State, s: State, q: Role, k: nat, p: Pdu) returns (s': State, t: nat)
    requires Shape(s0) && Inv(s) && WakeInv(s, q) && Reach(s0, s) && s.mutex == 1 && IsRole(s, q, k) && Room(s, q) > 0
    requires forall j :: 0 <= j < |s.threads| ==> s.threads[j].pc == Idle || s.threads[j].pc == Park
    ensures Shape(s') && Reach(s0, s') && IsRole(s, q, t) && Moved(s, s', t)
    ensures Room(s', q.Other()) == Room(s, q.Other()) + 1
    ensures Tokens(s', q.Other()) == Tokens(s, q.Other()) + (if Room(s', q.Other()) == 1 then 1 else 0)
  {
    if idle: nat :| At(s, q, Idle, idle) {
      t := idle;
      s' := Call(s0, s, t, q, p);
    } else {
      t := k;
      TokenForSleepers(s, q, k);
      s' := WakeAndCall(s0, s, q, k, p);
    }
  }

  lemma TokenForSleepers(s: State, q: Role, k: nat)
    requires Inv(s) && WakeInv(s, q) && IsRole(s, q, k) && Room(s, q) > 0
    requires forall j :: 0 <= j < |s.threads| ==> s.threads[j].pc == Idle || s.threads[j].pc == Park
    requires forall j: nat :: !At(s, q, Idle, j)
    ensures At(s, q, Park, k) && Tokens(s, q) > 0
  {
    forall j: nat | IsRole(s, q, j) ensures Asleep(s.threads[j].pc) {
      assert !At(s, q, Idle, j);
    }
    assert !At(s, q, Idle, k);
  }

  lemma ReachKeeps(s: State, s': State, q: Role)
    requires Inv(s) && WakeInv(s, q) && Reach(s, s')
    ensures Inv(s') && WakeInv(s', q) && SameTeam(s, s')
  {
    var schedule :| Run(s, schedule) == s';
    RunWakes(s, q, schedule);
    SameTeamRun(s, schedule);
  }

  /** The others use up the room, the partner works once, and the sleeper wakes. */
  lemma WakeAgain(s: State, r: Role, i: nat, k: nat, p: Pdu) returns (s': State)
    requires Inv(s) && WakeInv(s, r) && WakeInv(s, r.Other()) && Stranded(s, r, i) && IsRole(s, r.Other(), k)
    ensures Reach(s, s') && At(s', r, WantLock, i)
  {
    StrandedIsStill(s, r, i);
    var j := IdleColleague(s, r, i);
    assert Run(s, []) == s;
    var a := Exhaust(s, s, j, r, p);
    ReachKeeps(s, a, r.Other());
    assert IsRole(a, r.Other(), k) && Room(a, r.Other()) > 0;
    var b, t := SomeoneCalls(s, a, r.Other(), k, p);
    assert At(b, r, Park, i) && Tokens(b, r) > 0;
    s' := ReachStep(s, b, Turn(i, p));
  }

  /** Thread i stays asleep through every schedule that leaves its side room. */
  ghost predicate SleepsWhileRoom(s: State, r: Role, i: nat)
    requires Shape(s)
  {
    forall after :: RoomThroughout(s, r, after) ==> At(Run(s, after), r, Park, i)
  }

  /** Some schedule wakes thread i. */
  ghost predicate CanWake(s: State, r: Role, i: nat)
    requires Shape(s)
  {
    exists after :: At(Run(s, after), r, WantLock, i)
  }

  lemma Sleeping(s: State, r: Role, i: nat)
    requires Inv(s) && Oversleeps(s, r, i)
    ensures SleepsWhileRoom(s, r, i)
  {
    forall after | RoomThroughout(s, r, after) ensures At(Run(s, after), r, Park, i) {
      AsleepThroughout(s, r, i, after);
    }
  }

  lemma Waking(s: State, s': State, r: Role, i: nat)
    requires Shape(s) && Reach(s, s') && At(s', r, WantLock, i)
    ensures CanWake(s, r, i)
  {
    var after :| Run(s, after) == s';
    assert At(Run(s, after), r, WantLock, i);
  }

  /**
  A stranded thread sleeps exactly as long as its side has room: through every
  schedule that leaves room after each turn it stays asleep, and some schedule wakes it.
  */
  lemma AsleepWhileRoom(buffer: seq<Pdu>, roles: seq<Role>, blank: Pdu, before: seq<Turn>, r: Role, i: nat)
    requires |buffer| >= 1 && Stranded(Run(Init(buffer, roles, blank), before), r, i)
    ensures var s := Run(Init(buffer, roles, blank), before); SleepsWhileRoom(s, r, i) && CanWake(s, r, i)
  {
    var s0 := Init(buffer, roles, blank);
    var s := Run(s0, before);
    InitInv(buffer, roles, blank);
    RunWakes(s0, r, before);
    RunWakes(s0, r.Other(), before);
    StrandedIsStill(s, r, i);
    Sleeping(s, r, i);
    var k := Partner(buffer, roles, blank, before, r, i);
    var s' := WakeAgain(s, r, i, k, blank);
    Waking(s, s', r, i);
  }

  lemma Partner(buffer: seq<Pdu>, roles: seq<Role>, blank: Pdu, before: seq<Turn>, r: Role, i: nat) returns (k: nat)
    requires |buffer| >= 1 && Stranded(Run(Init(buffer, roles, blank), before), r, i)
    ensures IsRole(Run(Init(buffer, roles, blank), before), r.Other(), k)
  {
    StrandedOnlyIf(buffer, roles, blank, before, r, i);
    SameTeamRun(Init(buffer, roles, blank), before);
    k :| 0 <= k < |roles| && roles[k] == r.Other();
  }
}
