/**
Progress of the PDU queue.  The full and empty semaphores are posted only when
the queue stops being full or stops being empty, so a wake-up can be lost; this
module says exactly when, and proves that the system as a whole never stops.
Every lemma is stated for a role r, so it covers putters and getters alike.
*/
module FifoWakeup {
  import opened Common
  import opened PduTypes
  import opened FifoModel
  import opened FifoSafety

  predicate Asleep(pc: Pc) { pc.Unlock? || pc.Park? }

  predicate IsRole(s: State, r: Role, i: nat) { i < |s.threads| && s.threads[i].role == r }

  ghost predicate HasRole(s: State, r: Role) { exists i :: IsRole(s, r, i) }

  /** Some thread of the other side is about to post the semaphore r waits on. */
  ghost predicate Pending(s: State, r: Role) {
    Room(s, r) == 1 && exists i :: At(s, r.Other(), Signal, i)
  }

  /** When every thread of a role sleeps, there is a reason to, or a wake-up on its way. */
  ghost predicate WakeInv(s: State, r: Role) {
    (forall i: nat :: IsRole(s, r, i) ==> Asleep(s.threads[i].pc)) && HasRole(s, r)
    ==> Room(s, r) == 0 || Tokens(s, r) > 0 || Pending(s, r)
  }

  /** What one step of the other side does to room and tokens. */
  lemma OtherSide(s: State, r: Role, u: Turn)
    requires Inv(s) && IsRole(s, r.Other(), u.tid)
    ensures var s' := Step(s, u);
      && (s.threads[u.tid].pc == Count ==> Room(s', r) == Room(s, r) + 1 && At(s', r.Other(), Signal, u.tid))
      && (s.threads[u.tid].pc != Count ==> Room(s', r) == Room(s, r))
      && Tokens(s', r) == Tokens(s, r) + (if s.threads[u.tid].pc == Signal && Room(s, r) == 1 then 1 else 0)
      && (s.threads[u.tid].pc == Count || s.threads[u.tid].pc == Signal ==> forall i :: At(s, r.Other(), Signal, i) ==> i == u.tid)
      && OnlyMoved(s, s', u.tid)
  {
    if s.threads[u.tid].pc == Count || s.threads[u.tid].pc == Signal {
      HolderAlone(s, u.tid);
    }
  }

  /** A pending or delivered wake-up survives the other side's steps, and new room brings one. */
  lemma OtherSideWakes(s: State, r: Role, u: Turn)
    requires Inv(s) && IsRole(s, r.Other(), u.tid)
    requires Room(s, r) == 0 || Tokens(s, r) > 0 || Pending(s, r)
    ensures var s' := Step(s, u); Room(s', r) == 0 || Tokens(s', r) > 0 || Pending(s', r)
  {
    var s' := Step(s, u);
    OtherSide(s, r, u);
    if Tokens(s', r) == 0 && Room(s', r) != 0 && s.threads[u.tid].pc != Count {
      var i :| At(s, r.Other(), Signal, i);
      assert At(s', r.Other(), Signal, i);
    }
  }

  lemma PutFallsAsleep(s: State, t: nat, arg: Pdu)
    requires Shape(s) && IsRole(s, Putter, t) && ThreadInv(s, t)
    ensures var s' := PutStep(s, t, arg);
      && OnlyMoved(s, s', t)
      && (Asleep(s'.threads[t].pc) ==> Room(s', Putter) == 0 || s' == s)
  {
  }

  lemma GetFallsAsleep(s: State, t: nat)
    requires Shape(s) && IsRole(s, Getter, t) && ThreadInv(s, t) && s.avail >= 0
    ensures var s' := GetStep(s, t);
      && OnlyMoved(s, s', t)
      && (Asleep(s'.threads[t].pc) ==> Room(s', Getter) == 0 || s' == s)
  {
  }

  /** A thread falls asleep only when its side has no room, and stays asleep only without tokens. */
  lemma OwnSide(s: State, r: Role, u: Turn)
    requires Inv(s) && IsRole(s, r, u.tid)
    ensures var s' := Step(s, u);
      && OnlyMoved(s, s', u.tid)
      && (Asleep(s'.threads[u.tid].pc) ==> Room(s', r) == 0 || s' == s)
  {
    assert ThreadInv(s, u.tid);
    if r == Putter {
      PutFallsAsleep(s, u.tid, u.arg);
    } else {
      GetFallsAsleep(s, u.tid);
    }
  }

  lemma WakeStep(s: State, r: Role, u: Turn)
    requires Inv(s) && WakeInv(s, r)
    ensures WakeInv(Step(s, u), r)
  {
    var s' := Step(s, u);
    if IsRole(s, r, u.tid) {
      OwnSide(s, r, u);
      SameTeamStep(s, u);
      assert IsRole(s', r, u.tid);
    } else if IsRole(s, r.Other(), u.tid) {
      OtherSide(s, r, u);
      SameTeamStep(s, u);
      assert forall i :: IsRole(s, r, i) <==> IsRole(s', r, i);
      if Room(s, r) == 0 || Tokens(s, r) > 0 || Pending(s, r) {
        OtherSideWakes(s, r, u);
      }
    }
  }

  lemma {:induction false} RunWakes(s: State, r: Role, schedule: seq<Turn>)
    requires Inv(s) && WakeInv(s, r)
    ensures Inv(Run(s, schedule)) && WakeInv(Run(s, schedule), r)
    decreases |schedule|
  {
    RunInv(s, schedule);
    if schedule != [] {
      RunWakes(s, r, schedule[..|schedule| - 1]);
      WakeStep(Run(s, schedule[..|schedule| - 1]), r, schedule[|schedule| - 1]);
    }
  }

  /**
  No deadlock: with at least one putter and one getter, at every point of every
  schedule some thread can move.
  */
  lemma NoDeadlock(buffer: seq<Pdu>, roles: seq<Role>, blank: Pdu, schedule: seq<Turn>)
    requires |buffer| >= 1 && Putter in roles && Getter in roles
    ensures SomeoneCanMove(Run(Init(buffer, roles, blank), schedule))
  {
    var s0 := Init(buffer, roles, blank);
    var s := Run(s0, schedule);
    InitInv(buffer, roles, blank);
    SameTeamRun(s0, schedule);
    RunWakes(s0, Putter, schedule);
    RunWakes(s0, Getter, schedule);
    var p :| 0 <= p < |roles| && roles[p] == Putter;
    var g :| 0 <= g < |roles| && roles[g] == Getter;
    assert IsRole(s, Putter, p) && IsRole(s, Getter, g);
    if !SomeoneCanMove(s) {
      EveryoneAsleep(s);
      assert false;
    }
  }

  ghost predicate SomeoneCanMove(s: State) {
    exists i: nat :: i < |s.threads| && !Blocked(s, i)
  }

  /** If nobody can move, everybody sleeps on a semaphore without tokens. */
  lemma EveryoneAsleep(s: State)
    requires Inv(s) && !SomeoneCanMove(s)
    ensures forall i: nat :: i < |s.threads| ==> s.threads[i].pc == Park && Tokens(s, s.threads[i].role) == 0
  {
    forall i: nat | i < |s.threads|
      ensures s.threads[i].pc == Park && Tokens(s, s.threads[i].role) == 0
    {
      forall j | 0 <= j < |s.threads| ensures !Holding(s.threads[j].pc) {
        assert Blocked(s, j);
      }
      assert Blocked(s, i);
    }
  }
}
