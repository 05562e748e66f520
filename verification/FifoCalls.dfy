/**
What each call of put and get amounts to: over every schedule, the PDUs counted in
are an interleaving of the arguments of the calls of put, one for each call, and the
PDUs counted out an interleaving of what the calls of get return.
*/
module FifoCalls {
  import opened PduTypes
  import opened FifoModel
  import opened FifoSafety

  /* ---- Histories, read off a run ---- */

  /** The states of a run, one more than turns. */
  function Trace(s: State, schedule: seq<Turn>): (trace: seq<State>)
    requires Shape(s)
    ensures |trace| == |schedule| + 1 && trace[|schedule|] == Run(s, schedule)
    ensures forall k :: 0 <= k < |trace| ==> |trace[k].threads| == |s.threads|
    decreases |schedule|
  {
    if schedule == [] then [s] else Trace(s, schedule[..|schedule| - 1]) + [Run(s, schedule)]
  }

  /** The arguments of the calls thread t begins in the first n turns. */
  function Begun(trace: seq<State>, schedule: seq<Turn>, t: nat, n: nat): seq<Pdu>
    requires n <= |schedule| < |trace| && forall k :: 0 <= k < |trace| ==> t < |trace[k].threads|
  {
    if n == 0 then []
    else
      var u, before := schedule[n - 1], trace[n - 1];
      Begun(trace, schedule, t, n - 1) + if u.tid == t && before.threads[t].pc == Idle then [u.arg] else []
  }

  /** The PDUs in hand when the calls of thread t return in the first n turns. */
  function Returned(trace: seq<State>, t: nat, n: nat): seq<Pdu>
    requires n < |trace| && forall k :: 0 <= k < |trace| ==> t < |trace[k].threads|
  {
    if n == 0 then []
    else
      var th, th' := trace[n - 1].threads[t], trace[n].threads[t];
      Returned(trace, t, n - 1) + if th.pc != Idle && th'.pc == Idle then [th'.item] else []
  }

  /** What a sequence of history gains by a turn. */
  function Gained(was: seq<Pdu>, now: seq<Pdu>): seq<Pdu> { if |was| < |now| then now[|was|..] else [] }

  /** The PDUs the queue takes in during turns of thread t, among the first n. */
  function PutBy(trace: seq<State>, schedule: seq<Turn>, t: nat, n: nat): seq<Pdu>
    requires n <= |schedule| < |trace|
  {
    if n == 0 then []
    else
      var was, now := trace[n - 1].put, trace[n].put;
      PutBy(trace, schedule, t, n - 1) + if schedule[n - 1].tid == t then Gained(was, now) else []
  }

  /** The PDUs the queue gives out during turns of thread t, among the first n. */
  function TakenBy(trace: seq<State>, schedule: seq<Turn>, t: nat, n: nat): seq<Pdu>
    requires n <= |schedule| < |trace|
  {
    if n == 0 then []
    else
      var was, now := trace[n - 1].taken, trace[n].taken;
      TakenBy(trace, schedule, t, n - 1) + if schedule[n - 1].tid == t then Gained(was, now) else []
  }

  /** The thread is inside a call and its PDU is still to be counted. */
  predicate Pending(pc: Pc) {
    pc.WantLock? || pc.Check? || pc.Unlock? || pc.Park? || pc.Copy? || pc.Advance? || pc.Count?
  }

  /** The thread is inside a call and its PDU has been counted. */
  predicate Settled(pc: Pc) { pc.Signal? || pc.Release? }

  function InHandIf(inside: bool, th: Thread): seq<Pdu> { if inside then [th.item] else [] }

  /* ---- One turn ---- */

  /** What a turn means for the call of the thread that takes it. */
  ghost predicate CallStep(s: State, s': State, t: nat, arg: Pdu)
    requires t < |s.threads| == |s'.threads|
  {
    var th, th' := s.threads[t], s'.threads[t];
    var counts := s'.put != s.put || s'.taken != s.taken;
    && th'.role == th.role
    && (th.pc == Idle ==> Pending(th'.pc) && !counts && (th.role == Putter ==> th'.item == arg))
    && (Pending(th.pc) ==>
          && (if counts then Settled(th'.pc) else Pending(th'.pc))
          && (th.role == Putter || counts ==> th'.item == th.item))
    && (Settled(th.pc) ==> !Pending(th'.pc) && !counts && th'.item == th.item)
    && (s'.put == s.put || (th.role == Putter && s'.put == s.put + [th.item]))
    && (s'.taken == s.taken || (th.role == Getter && s'.taken == s.taken + [th.item]))
    && OnlyMoved(s, s', t)
  }

  lemma PutCallStep(s: State, t: nat, arg: Pdu)
    requires Shape(s) && t < |s.threads| && s.threads[t].role == Putter
    ensures CallStep(s, PutStep(s, t, arg), t, arg)
  {
  }

  lemma GetCallStep(s: State, t: nat, arg: Pdu)
    requires Shape(s) && t < |s.threads| && s.threads[t].role == Getter
    ensures CallStep(s, GetStep(s, t), t, arg)
  {
  }

  /* ---- The law ---- */

  /** A thread's calls, begun and returned, against its share of what was counted in and out. */
  ghost predicate Accounts(th: Thread, begun: seq<Pdu>, put: seq<Pdu>, taken: seq<Pdu>, returned: seq<Pdu>) {
    && |begun| == |returned| + (if th.pc == Idle then 0 else 1)
    && if th.role == Putter then
         && begun == put + InHandIf(Pending(th.pc), th)
         && put == returned + InHandIf(Settled(th.pc), th)
         && taken == []
       else
         && taken == returned + InHandIf(Settled(th.pc), th)
         && put == []
  }

  /** Everybody outside, nothing put or taken yet. */
  ghost predicate Unused(s: State) {
    s.put == [] && s.taken == [] && forall i :: 0 <= i < |s.threads| ==> s.threads[i].pc == Idle
  }

  ghost predicate Balanced(trace: seq<State>, schedule: seq<Turn>, t: nat, n: nat)
    requires n <= |schedule| < |trace| && forall k :: 0 <= k < |trace| ==> t < |trace[k].threads|
  {
    Accounts(trace[n].threads[t], Begun(trace, schedule, t, n), PutBy(trace, schedule, t, n),
             TakenBy(trace, schedule, t, n), Returned(trace, t, n))
  }

  lemma TurnIsCallStep(s: State, u: Turn)
    requires Shape(s) && u.tid < |s.threads|
    ensures CallStep(s, Step(s, u), u.tid, u.arg)
  {
    if s.threads[u.tid].role == Putter {
      PutCallStep(s, u.tid, u.arg);
    } else {
      GetCallStep(s, u.tid, u.arg);
    }
  }

  /** Every turn keeps every thread's account, whoever takes it. */
  lemma TurnBalances(trace: seq<State>, schedule: seq<Turn>, t: nat, n: nat)
    requires 0 < n <= |schedule| < |trace| && forall k :: 0 <= k < |trace| ==> |trace[k].threads| == |trace[0].threads|
    requires t < |trace[0].threads| && Balanced(trace, schedule, t, n - 1)
    requires var u := schedule[n - 1];
      if u.tid < |trace[0].threads| then CallStep(trace[n - 1], trace[n], u.tid, u.arg) else trace[n] == trace[n - 1]
    ensures Balanced(trace, schedule, t, n)
  {
    if schedule[n - 1].tid == t {
      OwnTurn(trace[n - 1], trace[n], t, schedule[n - 1].arg, Begun(trace, schedule, t, n - 1),
              PutBy(trace, schedule, t, n - 1), TakenBy(trace, schedule, t, n - 1), Returned(trace, t, n - 1));
    } else {
      OthersTurn(trace, schedule, t, n);
    }
  }

  /** A turn of another thread leaves the account as it was. */
  lemma OthersTurn(trace: seq<State>, schedule: seq<Turn>, t: nat, n: nat)
    requires 0 < n <= |schedule| < |trace| && forall k :: 0 <= k < |trace| ==> t < |trace[k].threads|
    requires schedule[n - 1].tid != t && trace[n].threads[t] == trace[n - 1].threads[t]
    ensures Begun(trace, schedule, t, n) == Begun(trace, schedule, t, n - 1)
    ensures PutBy(trace, schedule, t, n) == PutBy(trace, schedule, t, n - 1)
    ensures TakenBy(trace, schedule, t, n) == TakenBy(trace, schedule, t, n - 1)
    ensures Returned(trace, t, n) == Returned(trace, t, n - 1)
  {
  }

  /** A thread's own turn keeps its account. */
  lemma OwnTurn(s: State, s': State, t: nat, arg: Pdu, begun: seq<Pdu>, put: seq<Pdu>, taken: seq<Pdu>, returned: seq<Pdu>)
    requires t < |s.threads| == |s'.threads| && CallStep(s, s', t, arg)
    requires Accounts(s.threads[t], begun, put, taken, returned)
    ensures var th, th' := s.threads[t], s'.threads[t];
      Accounts(th', begun + (if th.pc == Idle then [arg] else []), put + Gained(s.put, s'.put), taken + Gained(s.taken, s'.taken),
               returned + if th.pc != Idle && th'.pc == Idle then [th'.item] else [])
  {
  }

  lemma {:induction false} RunBalances(s: State, schedule: seq<Turn>, t: nat, n: nat)
    requires Shape(s) && Unused(s) && t < |s.threads| && n <= |schedule|
    ensures Balanced(Trace(s, schedule), schedule, t, n)
    decreases n
  {
    var trace := Trace(s, schedule);
    TraceIs(s, schedule, n);
    if n > 0 {
      var u := schedule[n - 1];
      RunBalances(s, schedule, t, n - 1);
      TraceIs(s, schedule, n - 1);
      assert schedule[..n][..n - 1] == schedule[..n - 1];
      if u.tid < |s.threads| {
        TurnIsCallStep(trace[n - 1], u);
      }
      TurnBalances(trace, schedule, t, n);
    }
  }

  lemma {:induction false} TraceIs(s: State, schedule: seq<Turn>, n: nat)
    requires Shape(s) && n <= |schedule|
    ensures Trace(s, schedule)[n] == Run(s, schedule[..n])
    decreases |schedule|
  {
    if n == |schedule| {
      assert schedule[..n] == schedule;
    } else {
      TraceIs(s, schedule[..|schedule| - 1], n);
      assert schedule[..|schedule| - 1][..n] == schedule[..n];
    }
  }

  /**
  One call, one PDU, for any number of threads and every interleaving.  What the queue
  takes in during a thread's turns is exactly the arguments of its calls of put begun
  so far, in order, but for the one still in hand; what it gives out during a thread's
  turns is exactly what that thread's calls of get have returned, in order, but for the
  one about to be returned; and a thread scheduled outside a call is in one afterwards.
  */
  lemma OnePduPerCall(buffer: seq<Pdu>, roles: seq<Role>, blank: Pdu, schedule: seq<Turn>, t: nat)
    requires |buffer| >= 1 && t < |roles|
    ensures var trace, n := Trace(Init(buffer, roles, blank), schedule), |schedule|;
      var th, begun, returned := trace[n].threads[t], Begun(trace, schedule, t, n), Returned(trace, t, n);
      var put, taken := PutBy(trace, schedule, t, n), TakenBy(trace, schedule, t, n);
      && |begun| == |returned| + (if th.pc == Idle then 0 else 1)
      && (roles[t] == Putter ==>
            && taken == []
            && begun == put + InHandIf(Pending(th.pc), th)
            && put == returned + InHandIf(Settled(th.pc), th))
      && (roles[t] == Getter ==>
            && put == []
            && taken == returned + InHandIf(Settled(th.pc), th))
  {
    var s := Init(buffer, roles, blank);
    RunBalances(s, schedule, t, |schedule|);
    SameTeamRun(s, schedule);
  }
}
