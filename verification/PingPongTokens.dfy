/** What the semaphores of the camera table count: how often it stopped being empty, and how often it stopped being full. */
module PingPongTokens {
  import opened Common
  import opened Sequences
  import opened CameraCutter
  import opened PingPong

  /** The states of a run, one more than turns. */
  function Trace(s: State, schedule: seq<Side>, size: nat): (trace: seq<State>)
    requires Shape(s, size)
    ensures |trace| == |schedule| + 1 && trace[|schedule|] == Run(s, schedule, size)
    decreases |schedule|
  {
    if schedule == [] then [s] else Trace(s, Init(schedule), size) + [Run(s, schedule, size)]
  }

  /** In the first n turns: how often the table got its first buffer, and how often the reader was woken. */
  function Filled(trace: seq<State>, n: nat): nat
    requires n < |trace|
  {
    if n == 0 then 0
    else Filled(trace, n - 1) + if trace[n - 1].avail == 0 && trace[n].avail == 1 then 1 else 0
  }

  function ReaderWoken(trace: seq<State>, n: nat): nat
    requires n < |trace|
  {
    if n == 0 then 0
    else ReaderWoken(trace, n - 1) + if trace[n - 1].rpc == GetPark && trace[n].rpc == GetLock then 1 else 0
  }

  /** How often a full table got room again, and how often the writer was woken. */
  function Freed(trace: seq<State>, n: nat): nat
    requires n < |trace|
  {
    if n == 0 then 0
    else
      var num := trace[0].Num();
      Freed(trace, n - 1) + if trace[n - 1].avail == num && trace[n].avail == num - 1 then 1 else 0
  }

  function WriterWoken(trace: seq<State>, n: nat): nat
    requires n < |trace|
  {
    if n == 0 then 0
    else WriterWoken(trace, n - 1) + if trace[n - 1].wpc == GetPark && trace[n].wpc == GetLock then 1 else 0
  }

  /** In the first n turns of a schedule: how often the reader is scheduled outside a call of get. */
  function ReaderBegins(trace: seq<State>, schedule: seq<Side>, n: nat): nat
    requires n <= |schedule| < |trace|
  {
    if n == 0 then 0
    else ReaderBegins(trace, schedule, n - 1) + if schedule[n - 1] == Reader && trace[n - 1].rpc == Idle then 1 else 0
  }

  /** The reader is between the start of get and update's count. */
  predicate ReaderInside(s: State) {
    !(s.rpc == Idle || s.rpc == UpdIndex || s.rpc == UpdSignal || s.rpc == UpdRelease)
  }

  /** A post the writer is about to make, and one the reader is about to make. */
  function WriterDue(s: State): nat { if (s.wpc == UpdIndex || s.wpc == UpdSignal) && s.avail == 1 then 1 else 0 }

  function ReaderDue(s: State): nat { if (s.rpc == UpdIndex || s.rpc == UpdSignal) && s.avail == s.Num() - 1 then 1 else 0 }

  ghost predicate Counted(trace: seq<State>, n: nat)
    requires n < |trace|
  {
    var s := trace[n];
    && s.Num() == trace[0].Num()
    && Filled(trace, n) == s.empty + ReaderWoken(trace, n) + WriterDue(s)
    && Freed(trace, n) == s.full + WriterWoken(trace, n) + ReaderDue(s)
  }

  /** One turn accounts for its own posts and wake-ups. */
  ghost predicate TokenStep(s: State, s': State) {
    && s'.Num() == s.Num()
    && s'.empty + (if s.rpc == GetPark && s'.rpc == GetLock then 1 else 0) + WriterDue(s')
       == s.empty + WriterDue(s) + (if s.avail == 0 && s'.avail == 1 then 1 else 0)
    && s'.full + (if s.wpc == GetPark && s'.wpc == GetLock then 1 else 0) + ReaderDue(s')
       == s.full + ReaderDue(s) + (if s.avail == s.Num() && s'.avail == s.Num() - 1 then 1 else 0)
  }

  lemma WriterTokens(s: State, size: nat)
    requires Shape(s, size) && LockInv(s) && CountInv(s)
    ensures TokenStep(s, WriterStep(s, size))
  {
  }

  lemma ReaderTokens(s: State, size: nat)
    requires Shape(s, size) && LockInv(s) && CountInv(s)
    ensures TokenStep(s, ReaderStep(s, size))
  {
  }

  lemma TurnCounts(trace: seq<State>, n: nat)
    requires 0 < n < |trace| && Counted(trace, n - 1) && TokenStep(trace[n - 1], trace[n])
    ensures Counted(trace, n)
  {
  }

  lemma {:induction false} TraceIs(s: State, schedule: seq<Side>, n: nat, size: nat)
    requires Shape(s, size) && n <= |schedule|
    ensures Trace(s, schedule, size)[n] == Run(s, schedule[..n], size)
    decreases |schedule|
  {
    if n == |schedule| {
      assert schedule[..n] == schedule;
    } else {
      TraceIs(s, Init(schedule), n, size);
      assert Init(schedule)[..n] == schedule[..n];
    }
  }

  /** Each state of a trace comes from the one before by its turn. */
  lemma TraceStep(s: State, schedule: seq<Side>, n: nat, size: nat)
    requires Shape(s, size) && 0 < n <= |schedule|
    ensures var trace := Trace(s, schedule, size);
      && trace[n - 1] == Run(s, schedule[..n - 1], size)
      && Shape(trace[n - 1], size) && trace[n] == Step(trace[n - 1], schedule[n - 1], size)
  {
    TraceIs(s, schedule, n, size);
    TraceIs(s, schedule, n - 1, size);
    assert Init(schedule[..n]) == schedule[..n - 1] && Last(schedule[..n]) == schedule[n - 1];
  }

  lemma StepCounts(s: State, who: Side, size: nat)
    requires Shape(s, size) && LockInv(s) && CountInv(s)
    ensures TokenStep(s, Step(s, who, size))
  {
    WriterTokens(s, size);
    ReaderTokens(s, size);
  }

  lemma {:induction false} RunCounts(s: State, bufs0: seq<seq<Byte>>, schedule: seq<Side>, n: nat, size: nat)
    requires Inv(s, bufs0, size) && n <= |schedule| && s.empty == s.full == WriterDue(s) == ReaderDue(s) == 0
    ensures Counted(Trace(s, schedule, size), n)
    decreases n
  {
    var trace := Trace(s, schedule, size);
    if n == 0 {
      TraceIs(s, schedule, 0, size);
    } else {
      RunCounts(s, bufs0, schedule, n - 1, size);
      TraceStep(s, schedule, n, size);
      RunInv(s, bufs0, schedule[..n - 1], size);
      StepCounts(trace[n - 1], schedule[n - 1], size);
      TurnCounts(trace, n);
    }
  }

  /**
  Over every interleaving, the reader's semaphore has been posted exactly once for each
  time the table stopped being empty, and the writer's once for each time it stopped
  being full, but for a post about to be made; each wake-up has taken one token.
  */
  lemma OneTokenEach(bufs: seq<seq<Byte>>, ops: seq<Op>, schedule: seq<Side>, size: nat)
    requires |bufs| >= 1 && (forall k :: 0 <= k < |bufs| ==> |bufs[k]| == size) && WellNested(ops)
    ensures var trace, n := Trace(Start(bufs, ops), schedule, size), |schedule|;
      var s := Run(Start(bufs, ops), schedule, size);
      && Filled(trace, n) == s.empty + ReaderWoken(trace, n) + WriterDue(s)
      && Freed(trace, n) == s.full + WriterWoken(trace, n) + ReaderDue(s)
  {
    StartInv(bufs, ops, size);
    RunCounts(Start(bufs, ops), bufs, schedule, |schedule|, size);
  }

  lemma ReaderLoans(s: State, size: nat)
    requires Shape(s, size)
    ensures var r, w := ReaderStep(s, size), WriterStep(s, size);
      && r.drained + (if ReaderInside(r) then 1 else 0)
         == s.drained + (if ReaderInside(s) then 1 else 0) + (if s.rpc == Idle then 1 else 0)
      && w.drained == s.drained && w.rpc == s.rpc
  {
  }

  ghost predicate Loaned(trace: seq<State>, schedule: seq<Side>, n: nat)
    requires n <= |schedule| < |trace|
  {
    ReaderBegins(trace, schedule, n) == trace[n].drained + if ReaderInside(trace[n]) then 1 else 0
  }

  lemma TurnLoans(trace: seq<State>, schedule: seq<Side>, n: nat, size: nat)
    requires 0 < n <= |schedule| < |trace| && Shape(trace[n - 1], size)
    requires trace[n] == Step(trace[n - 1], schedule[n - 1], size) && Loaned(trace, schedule, n - 1)
    ensures Loaned(trace, schedule, n)
  {
    ReaderLoans(trace[n - 1], size);
  }

  /**
  One buffer for each call: however often the reader has called get, it has given back a
  buffer for each call, but for the one it is in; and scheduled outside a call it begins one.
  */
  lemma {:induction false} OneLoanPerCall(s: State, schedule: seq<Side>, n: nat, size: nat)
    requires Shape(s, size) && n <= |schedule| && s.rpc == Idle && s.drained == 0
    ensures Loaned(Trace(s, schedule, size), schedule, n)
    decreases n
  {
    if n == 0 {
      TraceIs(s, schedule, 0, size);
    } else {
      OneLoanPerCall(s, schedule, n - 1, size);
      TraceStep(s, schedule, n, size);
      TurnLoans(Trace(s, schedule, size), schedule, n, size);
    }
  }
}
