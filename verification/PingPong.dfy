/**
The ping-pong buffer table between the camera task and the camera socket as a
transition system: one writer, one reader, every statement that touches shared
state one step.  A buffer is lent outside the lock; get claims nothing, and only
update moves the counters.  The writer follows a script of operations; the
reader sends the bytes of each lent buffer one at a time.
*/
module PingPong {
  import opened Common
  import opened JpegFramer
  import opened Sequences
  import opened CameraCutter

  /** Inside ppipc_get_buffer, between the calls, and inside ppipc_update_buffer. */
  datatype Pc =
    | Idle
    | GetLock | GetCheck | GetUnlock | GetPark | GetRelease
    | Hold
    | UpdLock | UpdCount | UpdIndex | UpdSignal | UpdRelease

  /** flushed and drained are history: buffers handed over by the writer and given back by the reader. */
  datatype State = State(
    bufs: seq<seq<Byte>>, avail: int, head: nat, tail: nat,
    full: nat, empty: nat, mutex: nat,
    wpc: Pc, wbuf: nat, ops: seq<Op>, next: nat,
    rpc: Pc, rbuf: nat, pos: nat, out: seq<Byte>,
    flushed: seq<seq<Byte>>, drained: nat)
  {
    function Num(): nat { |bufs| }
  }

  predicate Shape(s: State, size: nat) {
    && s.Num() >= 1 && s.head < s.Num() && s.tail < s.Num() && s.wbuf < s.Num() && s.rbuf < s.Num()
    && s.next <= |s.ops|
    && forall k :: 0 <= k < s.Num() ==> |s.bufs[k]| == size
  }

  /** The table starts zeroed: its initializer sets only the semaphores. */
  function Start(bufs: seq<seq<Byte>>, ops: seq<Op>): State {
    State(bufs, 0, 0, 0, 0, 0, 1, Idle, 0, ops, 0, Idle, 0, 0, [], [], 0)
  }

  function Written(bufs: seq<seq<Byte>>, k: nat, i: nat, b: Byte): seq<seq<Byte>>
    requires k < |bufs| && i < |bufs[k]|
  {
    var row: seq<Byte> := bufs[k];
    var row': seq<Byte> := row[i := b];
    bufs[k := row']
  }

  function WriterStep(s: State, size: nat): (r: State)
    requires Shape(s, size)
    ensures Shape(r, size)
  {
    match s.wpc
    case Idle => if s.next < |s.ops| && s.ops[s.next].Acquire? then s.(wpc := GetLock, next := s.next + 1) else s
    case GetLock => if s.mutex > 0 then s.(mutex := s.mutex - 1, wpc := GetCheck) else s
    case GetCheck => if s.avail == s.Num() then s.(wpc := GetUnlock) else s.(wbuf := s.head, wpc := GetRelease)
    case GetUnlock => s.(mutex := s.mutex + 1, wpc := GetPark)
    case GetPark => if s.full > 0 then s.(full := s.full - 1, wpc := GetLock) else s
    case GetRelease => s.(mutex := s.mutex + 1, wpc := Hold)
    case Hold =>
      if s.next >= |s.ops| then s
      else (match s.ops[s.next]
            case Acquire => s
            case Store(i, b) =>
              if i < size then s.(bufs := Written(s.bufs, s.wbuf, i, b), next := s.next + 1)
              else s.(next := s.next + 1)
            case Release => s.(wpc := UpdLock))
    case UpdLock => if s.mutex > 0 then s.(mutex := s.mutex - 1, wpc := UpdCount) else s
    case UpdCount =>
      s.(avail := s.avail + 1, flushed := s.flushed + [s.bufs[s.wbuf]],
         next := if s.next < |s.ops| then s.next + 1 else s.next, wpc := UpdIndex)
    case UpdIndex => s.(head := (s.head + 1) % s.Num(), wpc := UpdSignal)
    case UpdSignal => s.(empty := if s.avail == 1 then s.empty + 1 else s.empty, wpc := UpdRelease)
    case UpdRelease => s.(mutex := s.mutex + 1, wpc := Idle)
  }

  function ReaderStep(s: State, size: nat): (r: State)
    requires Shape(s, size)
    ensures Shape(r, size)
  {
    match s.rpc
    case Idle => s.(rpc := GetLock)
    case GetLock => if s.mutex > 0 then s.(mutex := s.mutex - 1, rpc := GetCheck) else s
    case GetCheck => if s.avail == 0 then s.(rpc := GetUnlock) else s.(rbuf := s.tail, pos := 0, rpc := GetRelease)
    case GetUnlock => s.(mutex := s.mutex + 1, rpc := GetPark)
    case GetPark => if s.empty > 0 then s.(empty := s.empty - 1, rpc := GetLock) else s
    case GetRelease => s.(mutex := s.mutex + 1, rpc := Hold)
    case Hold =>
      if s.pos < size then s.(out := s.out + [s.bufs[s.rbuf][s.pos]], pos := s.pos + 1)
      else s.(rpc := UpdLock)
    case UpdLock => if s.mutex > 0 then s.(mutex := s.mutex - 1, rpc := UpdCount) else s
    case UpdCount => s.(avail := s.avail - 1, drained := s.drained + 1, rpc := UpdIndex)
    case UpdIndex => s.(tail := (s.tail + 1) % s.Num(), rpc := UpdSignal)
    case UpdSignal => s.(full := if s.avail == s.Num() - 1 then s.full + 1 else s.full, rpc := UpdRelease)
    case UpdRelease => s.(mutex := s.mutex + 1, rpc := Idle)
  }

  datatype Side = Writer | Reader

  function Step(s: State, who: Side, size: nat): (r: State)
    requires Shape(s, size)
    ensures Shape(r, size)
  {
    if who == Writer then WriterStep(s, size) else ReaderStep(s, size)
  }

  function Run(s: State, schedule: seq<Side>, size: nat): (r: State)
    requires Shape(s, size)
    ensures Shape(r, size)
    decreases |schedule|
  {
    if schedule == [] then s else Step(Run(s, Init(schedule), size), Last(schedule), size)
  }

  /* ---- Invariants ---- */

  predicate Locked(pc: Pc) {
    pc.GetCheck? || pc.GetUnlock? || pc.GetRelease? || pc.UpdCount? || pc.UpdIndex? || pc.UpdSignal? || pc.UpdRelease?
  }

  /** From get's decision until update's count, the buffer is on loan. */
  predicate Owns(pc: Pc) { pc.GetRelease? || pc.Hold? || pc.UpdLock? || pc.UpdCount? }

  ghost predicate LockInv(s: State) {
    && s.mutex <= 1
    && (s.mutex == 1 <==> !Locked(s.wpc) && !Locked(s.rpc))
    && !(Locked(s.wpc) && Locked(s.rpc))
  }

  ghost predicate CountInv(s: State) {
    && s.Num() >= 1
    && s.avail == |s.flushed| - s.drained && 0 <= s.avail <= s.Num()
    && s.head == (if s.wpc == UpdIndex then |s.flushed| - 1 else |s.flushed|) % s.Num()
    && s.tail == (if s.rpc == UpdIndex then s.drained - 1 else s.drained) % s.Num()
    && (s.wpc == UpdIndex ==> |s.flushed| >= 1) && (s.rpc == UpdIndex ==> s.drained >= 1)
    && (s.wpc == GetUnlock ==> s.avail == s.Num()) && (s.rpc == GetUnlock ==> s.avail == 0)
    && (Owns(s.wpc) ==> s.avail < s.Num() && s.wbuf == |s.flushed| % s.Num())
    && (Owns(s.rpc) ==> s.avail > 0 && s.rbuf == s.drained % s.Num())
  }

  lemma WriterLock(s: State, size: nat)
    requires Shape(s, size) && LockInv(s)
    ensures LockInv(WriterStep(s, size))
  {
  }

  lemma ReaderLock(s: State, size: nat)
    requires Shape(s, size) && LockInv(s)
    ensures LockInv(ReaderStep(s, size))
  {
  }

  lemma WriterCount(s: State, size: nat)
    requires Shape(s, size) && LockInv(s) && CountInv(s)
    ensures CountInv(WriterStep(s, size))
  {
    if s.wpc == UpdIndex {
      ModSucc(|s.flushed| - 1, s.Num());
    }
  }

  lemma ReaderCount(s: State, size: nat)
    requires Shape(s, size) && LockInv(s) && CountInv(s)
    ensures CountInv(ReaderStep(s, size))
  {
    if s.rpc == UpdIndex {
      ModSucc(s.drained - 1, s.Num());
    }
  }

  /** Buffers handed over and not given back still hold what was handed over. */
  ghost predicate ContentInv(s: State)
    requires s.Num() >= 1
  {
    forall k {:trigger s.flushed[k]} :: s.drained <= k < |s.flushed| && 0 <= k ==> s.bufs[k % s.Num()] == s.flushed[k]
  }

  /** What went out: every buffer given back, in full, and the sent part of the one on loan. */
  ghost predicate OutInv(s: State, size: nat) {
    && s.drained <= |s.flushed|
    && (forall k :: 0 <= k < |s.flushed| ==> |s.flushed[k]| == size)
    && s.pos <= size
    && (s.rpc == GetRelease ==> s.pos == 0)
    && (s.rpc == UpdLock || s.rpc == UpdCount ==> s.pos == size)
    && (Owns(s.rpc) ==> s.drained < |s.flushed| && s.out == Flatten(s.flushed[..s.drained]) + s.flushed[s.drained][..s.pos])
    && (!Owns(s.rpc) ==> s.out == Flatten(s.flushed[..s.drained]))
  }

  /** The shared table is what the writer's script alone makes of the initial buffers. */
  ghost predicate ScriptInv(s: State, bufs0: seq<seq<Byte>>) {
    && |bufs0| >= 1 && |bufs0| == s.Num() && s.next <= |s.ops|
    && ApplyAll(Table(bufs0, []), s.ops[..s.next]) == Table(s.bufs, s.flushed)
  }

  /**
  Ownership outside the lock: the writer's buffer is never the reader's, nor any
  buffer still to be sent; and what the reader holds is what was handed over.
  */
  lemma Ownership(s: State)
    requires CountInv(s) && ContentInv(s)
    ensures Owns(s.wpc) && Owns(s.rpc) ==> s.wbuf != s.rbuf
    ensures Owns(s.wpc) ==> forall k :: s.drained <= k < |s.flushed| ==> k % s.Num() != s.wbuf
    ensures Owns(s.rpc) ==> s.bufs[s.rbuf] == s.flushed[s.drained]
  {
    if Owns(s.wpc) {
      forall k | s.drained <= k < |s.flushed| ensures k % s.Num() != s.wbuf {
        ModDistinct(k, |s.flushed|, s.Num());
      }
    }
  }

  lemma WriterContent(s: State, size: nat)
    requires Shape(s, size) && LockInv(s) && CountInv(s) && ContentInv(s)
    ensures ContentInv(WriterStep(s, size))
  {
    Ownership(s);
  }

  lemma ReaderContent(s: State, size: nat)
    requires Shape(s, size) && CountInv(s) && ContentInv(s)
    ensures ContentInv(ReaderStep(s, size))
  {
  }

  /** More buffers handed over change nothing about what was sent. */
  lemma OutFrame(s: State, s': State, size: nat)
    requires OutInv(s, size) && s.flushed <= s'.flushed && forall k :: 0 <= k < |s'.flushed| ==> |s'.flushed[k]| == size
    requires s'.rpc == s.rpc && s'.pos == s.pos && s'.out == s.out && s'.drained == s.drained
    ensures OutInv(s', size)
  {
    assert s'.flushed[..s.drained] == s.flushed[..s.drained];
  }

  lemma WriterFlushed(s: State, size: nat)
    requires Shape(s, size)
    ensures var r := WriterStep(s, size);
      && r.rpc == s.rpc && r.pos == s.pos && r.out == s.out && r.drained == s.drained
      && r.flushed == if s.wpc == UpdCount then s.flushed + [s.bufs[s.wbuf]] else s.flushed
  {
  }

  lemma WriterOut(s: State, size: nat)
    requires Shape(s, size) && OutInv(s, size)
    ensures OutInv(WriterStep(s, size), size)
  {
    WriterFlushed(s, size);
    OutFrame(s, WriterStep(s, size), size);
  }

  lemma ReaderSends(s: State, size: nat)
    requires Shape(s, size) && CountInv(s) && ContentInv(s) && OutInv(s, size) && s.rpc == Hold
    ensures OutInv(ReaderStep(s, size), size)
  {
    Ownership(s);
    if s.pos < size {
      var b := s.flushed[s.drained];
      assert b[..s.pos + 1] == b[..s.pos] + [b[s.pos]];
    }
  }

  lemma ReaderGivesBack(s: State, size: nat)
    requires Shape(s, size) && CountInv(s) && OutInv(s, size) && s.rpc == UpdCount
    ensures OutInv(ReaderStep(s, size), size)
  {
    FlattenTake(s.flushed, s.drained);
    assert s.flushed[s.drained][..size] == s.flushed[s.drained];
  }

  lemma ReaderOut(s: State, size: nat)
    requires Shape(s, size) && LockInv(s) && CountInv(s) && ContentInv(s) && OutInv(s, size)
    ensures OutInv(ReaderStep(s, size), size)
  {
    if s.rpc == Hold {
      ReaderSends(s, size);
    } else if s.rpc == UpdCount {
      ReaderGivesBack(s, size);
    }
  }

  lemma ScriptMore(s: State, bufs0: seq<seq<Byte>>, k: nat)
    requires ScriptInv(s, bufs0) && k == s.next < |s.ops|
    ensures ApplyAll(Table(bufs0, []), s.ops[..k + 1]) == Apply(Table(s.bufs, s.flushed), s.ops[k])
  {
    assert Init(s.ops[..k + 1]) == s.ops[..k];
  }

  lemma WriterScript(s: State, bufs0: seq<seq<Byte>>, size: nat)
    requires Shape(s, size) && LockInv(s) && CountInv(s) && ScriptInv(s, bufs0) && Nested(s)
    ensures ScriptInv(WriterStep(s, size), bufs0)
  {
    if s.next < |s.ops| {
      ScriptMore(s, bufs0, s.next);
    }
  }

  /** An acquire comes first and after each release, and nowhere else. */
  predicate NestedAt(ops: seq<Op>, k: nat)
    requires k < |ops|
  {
    ops[k].Acquire? <==> k == 0 || ops[k - 1].Release?
  }

  /** A script alternates: acquire, stores, release. */
  predicate WellNested(ops: seq<Op>) {
    && (forall k :: 0 <= k < |ops| ==> NestedAt(ops, k))
    && (ops != [] ==> Last(ops).Release?)
  }

  ghost predicate Nested(s: State) {
    && WellNested(s.ops) && s.next <= |s.ops|
    && (if s.wpc.Idle? || s.wpc.UpdIndex? || s.wpc.UpdSignal? || s.wpc.UpdRelease?
        then s.next == 0 || s.ops[s.next - 1].Release?
        else s.next > 0 && !s.ops[s.next - 1].Release?)
    && (s.wpc.UpdLock? || s.wpc.UpdCount? ==> s.next < |s.ops| && s.ops[s.next].Release?)
  }

  lemma WriterNested(s: State, size: nat)
    requires Shape(s, size) && Nested(s)
    ensures Nested(WriterStep(s, size))
  {
  }

  /* ---- Wake-ups: one waiter a side never loses one ---- */

  ghost predicate WakeInv(s: State) {
    && (s.wpc == GetUnlock || s.wpc == GetPark ==>
          s.avail == s.Num() || s.full > 0 || ((s.rpc == UpdIndex || s.rpc == UpdSignal) && s.avail == s.Num() - 1))
    && (s.rpc == GetUnlock || s.rpc == GetPark ==>
          s.avail == 0 || s.empty > 0 || ((s.wpc == UpdIndex || s.wpc == UpdSignal) && s.avail == 1))
  }

  lemma WriterWake(s: State, size: nat)
    requires Shape(s, size) && LockInv(s) && CountInv(s) && WakeInv(s)
    ensures WakeInv(WriterStep(s, size))
  {
  }

  lemma ReaderWake(s: State, size: nat)
    requires Shape(s, size) && LockInv(s) && CountInv(s) && WakeInv(s)
    ensures WakeInv(ReaderStep(s, size))
  {
  }

  /* ---- All together, over every schedule ---- */

  ghost predicate Inv(s: State, bufs0: seq<seq<Byte>>, size: nat) {
    && Shape(s, size) && LockInv(s) && CountInv(s) && ContentInv(s) && OutInv(s, size)
    && ScriptInv(s, bufs0) && Nested(s) && WakeInv(s)
  }

  lemma StartInv(bufs: seq<seq<Byte>>, ops: seq<Op>, size: nat)
    requires |bufs| >= 1 && (forall k :: 0 <= k < |bufs| ==> |bufs[k]| == size) && WellNested(ops)
    ensures Inv(Start(bufs, ops), bufs, size)
  {
    assert ops[..0] == [];
  }

  lemma WriterInv(s: State, bufs0: seq<seq<Byte>>, size: nat)
    requires Inv(s, bufs0, size)
    ensures Inv(WriterStep(s, size), bufs0, size) && WriterStep(s, size).ops == s.ops
  {
    WriterLock(s, size);
    WriterContent(s, size);
    WriterWake(s, size);
    WriterCount(s, size);
    WriterOut(s, size);
    WriterScript(s, bufs0, size);
    WriterNested(s, size);
    WriterOps(s, size);
  }

  lemma WriterOps(s: State, size: nat)
    requires Shape(s, size)
    ensures WriterStep(s, size).ops == s.ops
  {
  }

  /** The reader leaves everything the writer relies on as it was. */
  lemma ReaderKeeps(s: State, size: nat)
    requires Shape(s, size)
    ensures var r := ReaderStep(s, size);
      && r.bufs == s.bufs && r.flushed == s.flushed && r.ops == s.ops && r.next == s.next
      && r.wpc == s.wpc && r.wbuf == s.wbuf && r.head == s.head
  {
  }

  lemma ReaderInv(s: State, bufs0: seq<seq<Byte>>, size: nat)
    requires Inv(s, bufs0, size)
    ensures Inv(ReaderStep(s, size), bufs0, size) && ReaderStep(s, size).ops == s.ops
  {
    ReaderLock(s, size);
    ReaderContent(s, size);
    ReaderWake(s, size);
    ReaderCount(s, size);
    ReaderOut(s, size);
    ReaderKeeps(s, size);
  }

  lemma {:induction false} RunInv(s: State, bufs0: seq<seq<Byte>>, schedule: seq<Side>, size: nat)
    requires Inv(s, bufs0, size)
    ensures Inv(Run(s, schedule, size), bufs0, size) && Run(s, schedule, size).ops == s.ops
    decreases |schedule|
  {
    if schedule != [] {
      RunInv(s, bufs0, Init(schedule), size);
      WriterInv(Run(s, Init(schedule), size), bufs0, size);
      ReaderInv(Run(s, Init(schedule), size), bufs0, size);
    }
  }

  /**
  For any interleaving: writer and reader never hold the same buffer; the reader
  sees exactly the bytes the writer handed over, for as long as it holds them; and
  the bytes sent are a prefix of the buffers handed over, in order, each whole.
  */
  lemma LoanSafety(bufs: seq<seq<Byte>>, ops: seq<Op>, schedule: seq<Side>, size: nat)
    requires |bufs| >= 1 && (forall k :: 0 <= k < |bufs| ==> |bufs[k]| == size) && WellNested(ops)
    ensures var s := Run(Start(bufs, ops), schedule, size);
      && (Owns(s.wpc) && Owns(s.rpc) ==> s.wbuf != s.rbuf)
      && s.drained <= |s.flushed|
      && (Owns(s.rpc) ==> s.drained < |s.flushed| && s.bufs[s.rbuf] == s.flushed[s.drained])
      && s.out <= Flatten(s.flushed)
      && 0 <= s.avail <= s.Num()
  {
    StartInv(bufs, ops, size);
    RunInv(Start(bufs, ops), bufs, schedule, size);
    var s := Run(Start(bufs, ops), schedule, size);
    Ownership(s);
    OutPrefix(s, size);
  }

  lemma OutPrefix(s: State, size: nat)
    requires OutInv(s, size)
    ensures s.out <= Flatten(s.flushed)
  {
    if Owns(s.rpc) {
      FlattenTake(s.flushed, s.drained);
      FlattenMono(s.flushed, s.drained + 1);
    } else {
      FlattenMono(s.flushed, s.drained);
    }
  }

  /** Scheduling either side changes nothing. */
  predicate Stuck(s: State, size: nat)
    requires Shape(s, size)
  {
    WriterStep(s, size) == s && ReaderStep(s, size) == s
  }

  lemma WriterStuck(s: State, size: nat)
    requires Shape(s, size) && Nested(s) && WriterStep(s, size) == s
    ensures (s.wpc == GetLock || s.wpc == UpdLock) ==> s.mutex == 0
    ensures s.wpc == GetPark ==> s.full == 0
    ensures s.wpc == Idle ==> s.next == |s.ops|
    ensures s.wpc.GetLock? || s.wpc.UpdLock? || s.wpc.GetPark? || s.wpc.Idle?
  {
    assert s.next < |s.ops| ==> NestedAt(s.ops, s.next);
  }

  lemma ReaderStuck(s: State, size: nat)
    requires Shape(s, size) && ReaderStep(s, size) == s
    ensures (s.rpc == GetLock || s.rpc == UpdLock) ==> s.mutex == 0
    ensures s.rpc == GetPark ==> s.empty == 0
    ensures s.rpc.GetLock? || s.rpc.UpdLock? || s.rpc.GetPark?
  {
  }

  /** No wake-up is lost: when nobody can move, the writer is through and everything has been sent. */
  lemma StuckIsDone(s: State, bufs0: seq<seq<Byte>>, size: nat)
    requires Inv(s, bufs0, size) && Stuck(s, size)
    ensures s.next == |s.ops| && s.out == Flatten(s.flushed)
  {
    WriterStuck(s, size);
    ReaderStuck(s, size);
    assert s.rpc == GetPark;
    assert s.flushed[..s.drained] == s.flushed;
  }
}
