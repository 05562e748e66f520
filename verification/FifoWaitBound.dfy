/**
How often one call can sleep.  Stale tokens may wake a thread for nothing, but
when its side has no other thread, each call sleeps at most once more than the
tokens that were outstanding when it started.
*/
module FifoWaitBound {
  import opened Common
  import opened PduTypes
  import opened FifoModel
  import opened FifoSafety
  import opened FifoWakeup

  /** Thread t returns from its semaphore on this turn. */
  predicate Wakes(s: State, r: Role, u: Turn, t: nat) {
    u.tid == t && At(s, r, Park, t) && Tokens(s, r) > 0
  }

  function Waits(s: State, r: Role, schedule: seq<Turn>, t: nat): nat
    requires Shape(s)
    decreases |schedule|
  {
    if schedule == [] then 0
    else
      var earlier := schedule[..|schedule| - 1];
      Waits(s, r, earlier, t) + if Wakes(Run(s, earlier), r, schedule[|schedule| - 1], t) then 1 else 0
  }

  /** The call thread t is in at s is still the same call at the end of the schedule. */
  predicate SameCall(s: State, schedule: seq<Turn>, t: nat)
    requires Shape(s)
    decreases |schedule|
  {
    && t < |Run(s, schedule).threads| && Run(s, schedule).threads[t].pc != Idle
    && (schedule == [] || SameCall(s, schedule[..|schedule| - 1], t))
  }

  ghost predicate Alone(s: State, r: Role, t: nat) {
    IsRole(s, r, t) && forall j :: IsRole(s, r, j) ==> j == t
  }

  ghost function Supply(s: State, r: Role): nat {
    Tokens(s, r) + if Pending(s, r) then 1 else 0
  }

  function Chance(s: State, r: Role): nat { if Room(s, r) > 0 then 1 else 0 }

  /** Before it has found room, the sleeps so far and those still possible are paid for. */
  ghost predicate Budget(s: State, r: Role, t: nat, waits: nat, start: nat)
    requires t < |s.threads|
  {
    var pc := s.threads[t].pc;
    if pc.WantLock? || pc.Check? || Asleep(pc)
    then waits + Supply(s, r) <= start + Chance(s, r)
    else waits <= start + 1
  }

  lemma BudgetStep(s: State, r: Role, t: nat, u: Turn, waits: nat, start: nat)
    requires Inv(s) && Alone(s, r, t) && Budget(s, r, t, waits, start)
    requires s.threads[t].pc != Idle
    ensures Alone(Step(s, u), r, t)
    ensures Step(s, u).threads[t].pc != Idle ==>
      Budget(Step(s, u), r, t, waits + (if Wakes(s, r, u, t) then 1 else 0), start)
  {
    var s' := Step(s, u);
    SameTeamStep(s, u);
    assert forall j :: IsRole(s', r, j) ==> IsRole(s, r, j);
    StepInv(s, u);
    if u.tid == t {
      if s'.threads[t].pc != Idle {
        OwnBudget(s, r, t, u, waits, start);
      }
    } else if u.tid < |s.threads| {
      assert !IsRole(s, r, u.tid);
      OtherBudget(s, r, t, u, waits, start);
    }
  }

  lemma OwnBudget(s: State, r: Role, t: nat, u: Turn, waits: nat, start: nat)
    requires Inv(s) && Alone(s, r, t) && Budget(s, r, t, waits, start) && u.tid == t
    requires s.threads[t].pc != Idle && Step(s, u).threads[t].pc != Idle
    ensures Budget(Step(s, u), r, t, waits + (if Wakes(s, r, u, t) then 1 else 0), start)
  {
    var s' := Step(s, u);
    OwnSide(s, r, u);
    assert forall i :: At(s', r.Other(), Signal, i) ==> At(s, r.Other(), Signal, i);
  }

  lemma OtherBudget(s: State, r: Role, t: nat, u: Turn, waits: nat, start: nat)
    requires Inv(s) && IsRole(s, r, t) && Budget(s, r, t, waits, start) && IsRole(s, r.Other(), u.tid)
    requires Inv(Step(s, u))
    ensures Budget(Step(s, u), r, t, waits, start)
  {
    var s' := Step(s, u);
    OtherSide(s, r, u);
    var pc := s.threads[u.tid].pc;
    if pc == Count {
      assert forall i :: !At(s, r.Other(), Signal, i);
      assert !Pending(s, r);
    } else if pc == Signal {
      assert At(s, r.Other(), Signal, u.tid);
      assert !Pending(s', r);
    } else {
      assert forall i :: At(s', r.Other(), Signal, i) ==> At(s, r.Other(), Signal, i);
    }
  }

  lemma {:induction false} BudgetRun(s: State, r: Role, t: nat, schedule: seq<Turn>, start: nat)
    requires Inv(s) && Alone(s, r, t) && Budget(s, r, t, 0, start) && SameCall(s, schedule, t)
    ensures Alone(Run(s, schedule), r, t)
    ensures Budget(Run(s, schedule), r, t, Waits(s, r, schedule, t), start)
    decreases |schedule|
  {
    if schedule != [] {
      var earlier := schedule[..|schedule| - 1];
      BudgetRun(s, r, t, earlier, start);
      RunInv(s, earlier);
      BudgetStep(Run(s, earlier), r, t, schedule[|schedule| - 1], Waits(s, r, earlier, t), start);
    }
  }

  /**
  From any state the system can reach, however many threads the other side has:
  a call by the only thread of its side sleeps at most (tokens at its start) + 1 times.
  */
  lemma SleepsAtMost(buffer: seq<Pdu>, roles: seq<Role>, blank: Pdu, before: seq<Turn>, r: Role, u: Turn, during: seq<Turn>)
    requires |buffer| >= 1
    requires var s := Run(Init(buffer, roles, blank), before);
      Alone(s, r, u.tid) && s.threads[u.tid].pc == Idle && SameCall(Step(s, u), during, u.tid)
    ensures var s := Run(Init(buffer, roles, blank), before);
      Waits(Step(s, u), r, during, u.tid) <= Tokens(s, r) + 1
  {
    var s := Run(Init(buffer, roles, blank), before);
    var s' := Step(s, u);
    InitInv(buffer, roles, blank);
    RunInv(Init(buffer, roles, blank), before);
    StepInv(s, u);
    SameTeamStep(s, u);
    OwnSide(s, r, u);
    assert forall j :: IsRole(s', r, j) ==> IsRole(s, r, j);
    assert forall i :: At(s', r.Other(), Signal, i) ==> At(s, r.Other(), Signal, i);
    BudgetRun(s', r, u.tid, during, Tokens(s, r));
  }
}
