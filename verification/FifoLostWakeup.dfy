/**
Exactly when a wake-up can be lost: a thread sleeps although its side of the
queue has room, and nobody is about to wake it.
*/
module FifoLostWakeup {
  import opened Common
  import opened PduTypes
  import opened FifoModel
  import opened FifoSafety
  import opened FifoWakeup

  /** Thread i sleeps without a token, there is room for it, and everyone else is outside the queue or asleep. */
  ghost predicate Stranded(s: State, r: Role, i: nat) {
    && At(s, r, Park, i) && Tokens(s, r) == 0 && Room(s, r) > 0
    && forall j :: 0 <= j < |s.threads| ==> s.threads[j].pc == Idle || s.threads[j].pc == Park
  }

  /** Which teams can strand a thread of role r. */
  ghost predicate CanStrand(size: nat, roles: seq<Role>, r: Role) {
    && size >= 2
    && (exists i, j :: 0 <= i < j < |roles| && roles[i] == r && roles[j] == r)
    && (exists k :: 0 <= k < |roles| && roles[k] == r.Other())
  }

  /* ---- Impossible otherwise ---- */

  predicate Sleeper(s: State, r: Role, i: nat) { IsRole(s, r, i) && Asleep(s.threads[i].pc) }

  /** On its way to taking an item or a free slot. */
  predicate Riser(s: State, r: Role, i: nat) {
    IsRole(s, r, i) && (var pc := s.threads[i].pc; pc.WantLock? || pc.Check? || pc.Copy? || pc.Advance? || pc.Count?)
  }

  /** Without threads on the other side, room for r never appears. */
  ghost predicate LonelyInv(s: State, r: Role) {
    !HasRole(s, r.Other()) ==> forall i :: Sleeper(s, r, i) ==> Room(s, r) == 0
  }

  /** With capacity one, room next to a sleeper means a wake-up exists or its taker is under way. */
  ghost predicate SingleSlotInv(s: State, r: Role) {
    s.size == 1 && Room(s, r) > 0 && (exists i :: Sleeper(s, r, i)) ==> HelpComing(s, r)
  }

  ghost predicate HelpComing(s: State, r: Role) {
    Tokens(s, r) > 0 || Pending(s, r) || exists j :: Riser(s, r, j)
  }

  /** A role's own steps never make room for it, and use its tokens only to wake. */
  lemma OwnRoom(s: State, r: Role, u: Turn)
    requires Inv(s) && IsRole(s, r, u.tid)
    ensures var s' := Step(s, u);
      && Room(s', r) == Room(s, r) - (if s.threads[u.tid].pc == Count then 1 else 0)
      && Tokens(s', r) == Tokens(s, r) - (if s.threads[u.tid].pc == Park && Tokens(s, r) > 0 then 1 else 0)
      && Room(s', r) >= 0
  {
    assert ThreadInv(s, u.tid);
  }

  lemma LonelyStep(s: State, r: Role, u: Turn)
    requires Inv(s) && LonelyInv(s, r)
    ensures LonelyInv(Step(s, u), r)
  {
    var s' := Step(s, u);
    SameTeamStep(s, u);
    assert IsRole(s, r.Other(), u.tid) ==> IsRole(s', r.Other(), u.tid);
    assert forall i :: IsRole(s, r.Other(), i) ==> IsRole(s', r.Other(), i);
    if !HasRole(s', r.Other()) && IsRole(s, r, u.tid) {
      OwnSide(s, r, u);
      OwnRoom(s, r, u);
      forall i | Sleeper(s', r, i) ensures Room(s', r) == 0 {
        assert i != u.tid ==> Sleeper(s, r, i);
        assert s' == s ==> Sleeper(s, r, i);
      }
    }
  }

  lemma SingleSlotOwn(s: State, r: Role, u: Turn)
    requires Inv(s) && SingleSlotInv(s, r) && IsRole(s, r, u.tid)
    ensures SingleSlotInv(Step(s, u), r)
  {
    var s' := Step(s, u);
    OwnSide(s, r, u);
    OwnRoom(s, r, u);
    SameTeamStep(s, u);
    if s'.size == 1 && Room(s', r) > 0 && s' != s && exists i :: Sleeper(s', r, i) {
      var i :| Sleeper(s', r, i);
      assert Sleeper(s, r, i);
      OwnHelp(s, r, u);
    }
  }

  /** While the slot stays free, help that is coming keeps coming. */
  lemma OwnHelp(s: State, r: Role, u: Turn)
    requires Inv(s) && IsRole(s, r, u.tid) && HelpComing(s, r)
    requires Room(s, r) > 0 && Room(Step(s, u), r) == Room(s, r)
    ensures HelpComing(Step(s, u), r)
  {
    var s' := Step(s, u);
    OwnSide(s, r, u);
    OwnRoom(s, r, u);
    SameTeamStep(s, u);
    assert ThreadInv(s, u.tid);
    if Pending(s, r) {
      var i :| At(s, r.Other(), Signal, i);
      assert At(s', r.Other(), Signal, i);
    } else if Tokens(s, r) > 0 {
      assert Tokens(s', r) == 0 ==> Riser(s', r, u.tid);
    } else {
      var j :| Riser(s, r, j);
      assert Riser(s', r, j);
    }
  }

  lemma SingleSlotOther(s: State, r: Role, u: Turn)
    requires Inv(s) && SingleSlotInv(s, r) && IsRole(s, r.Other(), u.tid)
    ensures SingleSlotInv(Step(s, u), r)
  {
    var s' := Step(s, u);
    OtherSide(s, r, u);
    SameTeamStep(s, u);
    StepInv(s, u);
    if s'.size == 1 && Room(s', r) > 0 && exists i :: Sleeper(s', r, i) {
      var i :| Sleeper(s', r, i);
      assert Sleeper(s, r, i);
      if s.threads[u.tid].pc == Count {
        assert Room(s', r) == 1 && At(s', r.Other(), Signal, u.tid);
      } else if Pending(s, r) {
        OtherSideWakes(s, r, u);
      } else if Tokens(s, r) == 0 {
        var j :| Riser(s, r, j);
        assert Riser(s', r, j);
      }
    }
  }

  lemma {:induction false} RunKeeps(s: State, r: Role, schedule: seq<Turn>)
    requires Inv(s) && WakeInv(s, r) && LonelyInv(s, r) && SingleSlotInv(s, r)
    ensures var s' := Run(s, schedule);
      Inv(s') && WakeInv(s', r) && LonelyInv(s', r) && SingleSlotInv(s', r)
    decreases |schedule|
  {
    RunWakes(s, r, schedule);
    if schedule != [] {
      RunKeeps(s, r, schedule[..|schedule| - 1]);
      var m, u := Run(s, schedule[..|schedule| - 1]), schedule[|schedule| - 1];
      LonelyStep(m, r, u);
      if IsRole(m, r, u.tid) {
        SingleSlotOwn(m, r, u);
      } else if IsRole(m, r.Other(), u.tid) {
        SingleSlotOther(m, r, u);
      }
    }
  }

  /** A stranded thread needs two slots, company on its own side, and someone on the other. */
  lemma StrandedNeeds(s: State, r: Role, i: nat) returns (j: nat, k: nat)
    requires Inv(s) && WakeInv(s, r) && LonelyInv(s, r) && SingleSlotInv(s, r) && Stranded(s, r, i)
    ensures s.size >= 2 && IsRole(s, r, j) && j != i && IsRole(s, r.Other(), k)
  {
    assert Sleeper(s, r, i);
    assert HasRole(s, r.Other());
    k :| IsRole(s, r.Other(), k);
    assert forall j :: !Riser(s, r, j);
    if forall j :: IsRole(s, r, j) ==> j == i {
      assert forall j: nat :: IsRole(s, r, j) ==> Asleep(s.threads[j].pc);
      assert HasRole(s, r);
      assert false;
    }
    j :| IsRole(s, r, j) && j != i;
  }

  lemma StrandedOnlyIf(buffer: seq<Pdu>, roles: seq<Role>, blank: Pdu, schedule: seq<Turn>, r: Role, i: nat)
    requires |buffer| >= 1 && Stranded(Run(Init(buffer, roles, blank), schedule), r, i)
    ensures CanStrand(|buffer|, roles, r)
  {
    var s0 := Init(buffer, roles, blank);
    var s := Run(s0, schedule);
    InitInv(buffer, roles, blank);
    RunKeeps(s0, r, schedule);
    SameTeamRun(s0, schedule);
    var j, k := StrandedNeeds(s, r, i);
    assert roles[i] == r && roles[j] == r && roles[k] == r.Other();
    assert i < j || j < i;
  }

  /* ---- A schedule that strands a thread, for every team that can ---- */

  ghost predicate Reach(s: State, s': State)
    requires Shape(s)
  {
    exists schedule :: Run(s, schedule) == s'
  }

  lemma ReachStep(s0: State, s: State, u: Turn) returns (s': State)
    requires Shape(s0) && Shape(s) && Reach(s0, s)
    ensures s' == Step(s, u) && Shape(s') && Reach(s0, s')
  {
    var schedule :| Run(s0, schedule) == s;
    s' := Step(s, u);
    assert (schedule + [u])[..|schedule|] == schedule;
    assert Run(s0, schedule + [u]) == s';
  }

  /** Only thread t moved, and it kept its role. */
  ghost predicate Moved(s: State, s': State, t: nat) {
    && SameTeam(s, s') && OnlyMoved(s, s', t)
  }

  /** From the lock, with room, up to the point where the count changes. */
  lemma TakeSlot(s0: State, s: State, t: nat, r: Role, p: Pdu) returns (s': State)
    requires Shape(s0) && Shape(s) && Reach(s0, s)
    requires At(s, r, WantLock, t) && s.mutex == 1 && Room(s, r) > 0
    ensures Shape(s') && Reach(s0, s') && Moved(s, s', t) && At(s', r, Count, t) && s'.mutex == 0
    ensures s'.avail == s.avail && s'.full == s.full && s'.empty == s.empty
  {
    var u := Turn(t, p);
    var a := ReachStep(s0, s, u);
    var b := ReachStep(s0, a, u);
    var c := ReachStep(s0, b, u);
    s' := ReachStep(s0, c, u);
    assert At(a, r, Check, t) && At(b, r, Copy, t) && At(c, r, Advance, t);
  }

  /** And from there out of the call. */
  lemma CountAndLeave(s0: State, s: State, t: nat, r: Role, p: Pdu) returns (s': State)
    requires Shape(s0) && Shape(s) && Reach(s0, s) && At(s, r, Count, t) && s.mutex == 0
    ensures Shape(s') && Reach(s0, s') && Moved(s, s', t) && At(s', r, Idle, t) && s'.mutex == 1
    ensures Room(s', r) == Room(s, r) - 1 && Tokens(s', r) == Tokens(s, r)
    ensures Room(s', r.Other()) == Room(s, r.Other()) + 1
    ensures Tokens(s', r.Other()) == Tokens(s, r.Other()) + (if Room(s', r.Other()) == 1 then 1 else 0)
  {
    var u := Turn(t, p);
    var a := ReachStep(s0, s, u);
    var b := ReachStep(s0, a, u);
    s' := ReachStep(s0, b, u);
    assert At(a, r, Signal, t) && At(b, r, Release, t);
  }

  /** From the lock, with room, a thread left alone completes its call. */
  lemma Operate(s0: State, s: State, t: nat, r: Role, p: Pdu) returns (s': State)
    requires Shape(s0) && Shape(s) && Reach(s0, s)
    requires At(s, r, WantLock, t) && s.mutex == 1 && Room(s, r) > 0
    ensures Shape(s') && Reach(s0, s') && Moved(s, s', t) && At(s', r, Idle, t) && s'.mutex == 1
    ensures Room(s', r) == Room(s, r) - 1 && Tokens(s', r) == Tokens(s, r)
    ensures Room(s', r.Other()) == Room(s, r.Other()) + 1
    ensures Tokens(s', r.Other()) == Tokens(s, r.Other()) + (if Room(s', r.Other()) == 1 then 1 else 0)
  {
    var a := TakeSlot(s0, s, t, r, p);
    s' := CountAndLeave(s0, a, t, r, p);
  }

  /** With no room, a thread that calls goes to sleep. */
  lemma GoToSleep(s0: State, s: State, t: nat, r: Role, p: Pdu) returns (s': State)
    requires Shape(s0) && Shape(s) && Reach(s0, s)
    requires At(s, r, Idle, t) && s.mutex == 1 && Room(s, r) == 0
    ensures Shape(s') && Reach(s0, s') && Moved(s, s', t) && At(s', r, Park, t) && s'.mutex == 1
    ensures Room(s', r) == 0 && Tokens(s', r) == Tokens(s, r)
  {
    var u := Turn(t, p);
    var a := ReachStep(s0, s, u);
    var b := ReachStep(s0, a, u);
    var c := ReachStep(s0, b, u);
    s' := ReachStep(s0, c, u);
    assert At(a, r, WantLock, t) && At(b, r, Check, t) && At(c, r, Unlock, t);
  }

  /** One thread uses up all the room of its side. */
  lemma {:induction false} Exhaust(s0: State, s: State, t: nat, r: Role, p: Pdu) returns (s': State)
    requires Shape(s0) && Shape(s) && Reach(s0, s)
    requires At(s, r, Idle, t) && s.mutex == 1 && Room(s, r) >= 0
    ensures Shape(s') && Reach(s0, s') && Moved(s, s', t) && At(s', r, Idle, t) && s'.mutex == 1
    ensures Room(s', r) == 0 && Tokens(s', r) == Tokens(s, r)
    decreases Room(s, r)
  {
    if Room(s, r) == 0 {
      s' := s;
    } else {
      var a := ReachStep(s0, s, Turn(t, p));
      var b := Operate(s0, a, t, r, p);
      s' := Exhaust(s0, b, t, r, p);
    }
  }

  /** One complete call from outside the queue. */
  lemma Call(s0: State, s: State, t: nat, r: Role, p: Pdu) returns (s': State)
    requires Shape(s0) && Shape(s) && Reach(s0, s)
    requires At(s, r, Idle, t) && s.mutex == 1 && Room(s, r) > 0
    ensures Shape(s') && Reach(s0, s') && Moved(s, s', t) && At(s', r, Idle, t) && s'.mutex == 1
    ensures Room(s', r.Other()) == Room(s, r.Other()) + 1
    ensures Tokens(s', r.Other()) == Tokens(s, r.Other()) + (if Room(s', r.Other()) == 1 then 1 else 0)
  {
    var a := ReachStep(s0, s, Turn(t, p));
    s' := Operate(s0, a, t, r, p);
  }

  /** Two threads of role r fall asleep on a queue without room. */
  lemma TwoAsleep(s0: State, r: Role, i: nat, j: nat, p: Pdu) returns (s': State)
    requires Shape(s0) && i != j && At(s0, r, Idle, i) && At(s0, r, Idle, j)
    requires s0.mutex == 1 && Room(s0, r) >= 0 && Tokens(s0, r) == 0
    ensures Shape(s') && Reach(s0, s') && SameTeam(s0, s') && s'.mutex == 1
    ensures forall k :: 0 <= k < |s0.threads| && k != i && k != j ==> s'.threads[k] == s0.threads[k]
    ensures At(s', r, Park, i) && At(s', r, Park, j) && Room(s', r) == 0 && Tokens(s', r) == 0
  {
    assert Run(s0, []) == s0;
    var a := Exhaust(s0, s0, i, r, p);
    var b := GoToSleep(s0, a, i, r, p);
    s' := GoToSleep(s0, b, j, r, p);
  }

  /** The other side then works twice but posts once. */
  lemma TwoCalls(s0: State, s: State, r: Role, k: nat, p: Pdu) returns (s': State)
    requires Shape(s0) && Shape(s) && Reach(s0, s) && s.size >= 2 && s.mutex == 1
    requires At(s, r.Other(), Idle, k) && Room(s, r) == 0 && Tokens(s, r) == 0
    ensures Shape(s') && Reach(s0, s') && Moved(s, s', k) && At(s', r.Other(), Idle, k) && s'.mutex == 1
    ensures Room(s', r) == 2 && Tokens(s', r) == 1
  {
    var d := Call(s0, s, k, r.Other(), p);
    s' := Call(s0, d, k, r.Other(), p);
  }

  /** The thread that wakes takes one of the two places, and the other sleeps on beside the second. */
  lemma OneWakes(s0: State, s: State, r: Role, i: nat, p: Pdu) returns (s': State)
    requires Shape(s0) && Shape(s) && Reach(s0, s) && s.mutex == 1
    requires At(s, r, Park, i) && Room(s, r) == 2 && Tokens(s, r) == 1
    ensures Shape(s') && Reach(s0, s') && Moved(s, s', i) && At(s', r, Idle, i)
    ensures Room(s', r) == 1 && Tokens(s', r) == 0
  {
    var f := ReachStep(s0, s, Turn(i, p));
    s' := Operate(s0, f, i, r, p);
  }

  lemma StrandSomeone(buffer: seq<Pdu>, roles: seq<Role>, blank: Pdu, r: Role, i: nat, j: nat, k: nat) returns (s': State)
    requires |buffer| >= 2 && i < j < |roles| && k < |roles|
    requires roles[i] == r && roles[j] == r && roles[k] == r.Other()
    ensures Reach(Init(buffer, roles, blank), s') && Stranded(s', r, j)
  {
    var s0 := Init(buffer, roles, blank);
    var c := TwoAsleep(s0, r, i, j, blank);
    var e := TwoCalls(s0, c, r, k, blank);
    s' := OneWakes(s0, e, r, i, blank);
  }

  /**
  The exact condition: some schedule strands a thread of role r if and only if
  the queue has at least two slots, r has at least two threads and the other
  role at least one.
  */
  lemma LostWakeupExactly(buffer: seq<Pdu>, roles: seq<Role>, blank: Pdu, r: Role)
    requires |buffer| >= 1
    ensures CanStrand(|buffer|, roles, r)
       <==> CanLoseWakeup(Init(buffer, roles, blank), r)
  {
    var s0 := Init(buffer, roles, blank);
    if CanStrand(|buffer|, roles, r) {
      var i, j :| 0 <= i < j < |roles| && roles[i] == r && roles[j] == r;
      var k :| 0 <= k < |roles| && roles[k] == r.Other();
      var s' := StrandSomeone(buffer, roles, blank, r, i, j, k);
      var schedule :| Run(s0, schedule) == s';
      assert Stranded(Run(s0, schedule), r, j);
    }
    if CanLoseWakeup(s0, r) {
      var schedule, i :| Stranded(Run(s0, schedule), r, i);
      StrandedOnlyIf(buffer, roles, blank, schedule, r, i);
    }
  }

  ghost predicate CanLoseWakeup(s0: State, r: Role)
    requires Shape(s0)
  {
    exists schedule, i :: Stranded(Run(s0, schedule), r, i)
  }
}
