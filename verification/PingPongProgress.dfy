/**
The camera link finishes: however the two tasks are scheduled, only a bounded
number of turns change anything, so every run can be continued to one in which
everything has been written and sent.
*/
module PingPongProgress {
  import opened Common
  import opened Sequences
  import opened CameraCutter
  import opened PingPong

  /* ---- A measure that every effective turn lowers ---- */

  /** What a wake-up token is worth: one more trip round the retry loop. */
  const TOKEN: nat := 5

  /** What a buffer still to be sent is worth: the reader's whole cycle and the token it may post. */
  function BufferWorth(size: nat): nat { size + 16 }

  /** What an operation of the script is worth: the writer's steps around it and the buffer it may hand over. */
  function OpWorth(size: nat): nat { BufferWorth(size) + 10 }

  function WriterRank(pc: Pc): nat {
    match pc
    case UpdIndex => 8
    case UpdSignal => 7
    case GetLock => 6
    case GetCheck => 5
    case GetUnlock => 4
    case GetRelease => 4
    case GetPark => 3
    case Hold => 3
    case UpdLock => 2
    case UpdCount => 1
    case UpdRelease => 1
    case Idle => 0
  }

  function ReaderRank(pc: Pc, pos: nat, size: nat): nat
    requires pos <= size
  {
    match pc
    case UpdIndex => size + 15
    case UpdSignal => size + 14
    case UpdRelease => size + 8
    case Idle => size + 7
    case GetLock => size + 6
    case GetCheck => size + 5
    case GetUnlock => size + 4
    case GetRelease => size + 4
    case GetPark => size + 3
    case Hold => 3 + size - pos
    case UpdLock => 2
    case UpdCount => 1
  }

  /** n times something worth this much. */
  function Times(worth: nat, n: nat): nat { if n == 0 then 0 else worth + Times(worth, n - 1) }

  lemma {:induction false} TimesIsProduct(worth: nat, n: nat)
    ensures Times(worth, n) == worth * n
  {
    if n > 0 {
      TimesIsProduct(worth, n - 1);
      assert worth * n == worth + worth * (n - 1);
    }
  }

  /** What the measure needs of the invariant. */
  predicate Sane(s: State, size: nat) {
    && s.next <= |s.ops| && s.drained <= |s.flushed| && s.pos <= size
    && (s.rpc.UpdCount? ==> s.drained < |s.flushed|)
    && (s.wpc.UpdCount? ==> s.next < |s.ops|)
  }

  lemma InvIsSane(s: State, bufs0: seq<seq<Byte>>, size: nat)
    requires Inv(s, bufs0, size)
    ensures Sane(s, size)
  {
  }

  function Work(s: State, size: nat): nat
    requires Sane(s, size)
  {
    Times(OpWorth(size), |s.ops| - s.next) + Times(BufferWorth(size), |s.flushed| - s.drained)
    + TOKEN * (s.full + s.empty) + WriterRank(s.wpc) + ReaderRank(s.rpc, s.pos, size)
  }

  lemma WriterWorks(s: State, size: nat)
    requires Shape(s, size) && Sane(s, size) && Sane(WriterStep(s, size), size) && WriterStep(s, size) != s
    ensures Work(WriterStep(s, size), size) < Work(s, size)
  {
  }

  lemma ReaderGivesBack(s: State, size: nat)
    requires Shape(s, size) && Sane(s, size) && Sane(ReaderStep(s, size), size) && s.rpc.UpdCount?
    ensures Work(ReaderStep(s, size), size) < Work(s, size)
  {
  }

  /** What the reader's other turns leave alone. */
  lemma ReaderElse(s: State, size: nat)
    requires Shape(s, size) && !s.rpc.UpdCount?
    ensures var r := ReaderStep(s, size);
      && r.ops == s.ops && r.next == s.next && r.flushed == s.flushed && r.drained == s.drained && r.wpc == s.wpc
  {
  }

  lemma ReaderRanks(s: State, size: nat)
    requires Shape(s, size) && Sane(s, size) && Sane(ReaderStep(s, size), size)
    requires !s.rpc.UpdCount? && ReaderStep(s, size) != s
    ensures var r := ReaderStep(s, size);
      TOKEN * (r.full + r.empty) + ReaderRank(r.rpc, r.pos, size) < TOKEN * (s.full + s.empty) + ReaderRank(s.rpc, s.pos, size)
  {
  }

  lemma ReaderWorks(s: State, size: nat)
    requires Shape(s, size) && Sane(s, size) && Sane(ReaderStep(s, size), size) && ReaderStep(s, size) != s
    ensures Work(ReaderStep(s, size), size) < Work(s, size)
  {
    if s.rpc.UpdCount? {
      ReaderGivesBack(s, size);
    } else {
      ReaderElse(s, size);
      ReaderRanks(s, size);
    }
  }

  /** Every turn that changes anything lowers the measure. */
  lemma StepWorks(s: State, bufs0: seq<seq<Byte>>, who: Side, size: nat)
    requires Inv(s, bufs0, size)
    ensures Inv(Step(s, who, size), bufs0, size) && Sane(s, size) && Sane(Step(s, who, size), size)
    ensures Step(s, who, size) != s ==> Work(Step(s, who, size), size) < Work(s, size)
  {
    InvIsSane(s, bufs0, size);
    if who == Writer {
      WriterInv(s, bufs0, size);
    } else {
      ReaderInv(s, bufs0, size);
    }
    InvIsSane(Step(s, who, size), bufs0, size);
    if Step(s, who, size) != s {
      if who == Writer {
        WriterWorks(s, size);
      } else {
        ReaderWorks(s, size);
      }
    }
  }

  /* ---- Bounded work ---- */

  /** How many turns of the schedule change the state. */
  function Changes(s: State, schedule: seq<Side>, size: nat): nat
    requires Shape(s, size)
    decreases |schedule|
  {
    if schedule == [] then 0
    else
      var m := Run(s, Init(schedule), size);
      Changes(s, Init(schedule), size) + if Step(m, Last(schedule), size) != m then 1 else 0
  }

  lemma {:induction false} WorkPaysForChanges(s: State, bufs0: seq<seq<Byte>>, schedule: seq<Side>, size: nat)
    requires Inv(s, bufs0, size)
    ensures Sane(s, size) && Sane(Run(s, schedule, size), size)
    ensures Changes(s, schedule, size) + Work(Run(s, schedule, size), size) <= Work(s, size)
    decreases |schedule|
  {
    InvIsSane(s, bufs0, size);
    if schedule != [] {
      WorkPaysForChanges(s, bufs0, Init(schedule), size);
      RunInv(s, bufs0, Init(schedule), size);
      StepWorks(Run(s, Init(schedule), size), bufs0, Last(schedule), size);
    }
  }

  /** A constant for each operation of the script, and one reader's cycle more. */
  function Bound(operations: nat, size: nat): nat { (size + 26) * operations + size + 7 }

  lemma StartWork(bufs: seq<seq<Byte>>, ops: seq<Op>, size: nat)
    ensures Sane(Start(bufs, ops), size) && Work(Start(bufs, ops), size) == Bound(|ops|, size)
  {
    TimesIsProduct(size + 26, |ops|);
  }

  /** From the start, no schedule has more turns with an effect than that. */
  lemma BoundedWork(bufs: seq<seq<Byte>>, ops: seq<Op>, schedule: seq<Side>, size: nat)
    requires |bufs| >= 1 && (forall k :: 0 <= k < |bufs| ==> |bufs[k]| == size) && WellNested(ops)
    ensures Changes(Start(bufs, ops), schedule, size) <= Bound(|ops|, size)
  {
    StartInv(bufs, ops, size);
    StartWork(bufs, ops, size);
    WorkPaysForChanges(Start(bufs, ops), bufs, schedule, size);
  }

  /* ---- Every run can be finished ---- */

  lemma RunLast(s: State, a: seq<Side>, who: Side, size: nat)
    requires Shape(s, size)
    ensures Run(s, a + [who], size) == Step(Run(s, a, size), who, size)
  {
    assert Init(a + [who]) == a;
  }

  /** From any reachable state, letting whoever can move do so leads to where nobody can. */
  lemma {:induction false} CanFinish(s0: State, bufs0: seq<seq<Byte>>, schedule: seq<Side>, size: nat)
      returns (longer: seq<Side>)
    requires Inv(s0, bufs0, size)
    ensures schedule <= longer && Stuck(Run(s0, longer, size), size)
    decreases Left(Run(s0, schedule, size), size)
  {
    var s := Run(s0, schedule, size);
    RunInv(s0, bufs0, schedule, size);
    longer := schedule;
    if !Stuck(s, size) {
      var who := if WriterStep(s, size) != s then Writer else Reader;
      StepWorks(s, bufs0, who, size);
      RunLast(s0, schedule, who, size);
      longer := CanFinish(s0, bufs0, schedule + [who], size);
      assert schedule <= schedule + [who];
    }
  }

  function Left(s: State, size: nat): nat { if Sane(s, size) then Work(s, size) else 0 }
}
