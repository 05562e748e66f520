/**
Safety of the PDU queue under every schedule: it behaves as a bounded queue,
and what the getters take is always a prefix of what the putters put.
*/
module FifoSafety {
  import opened Common
  import opened PduTypes
  import opened FifoModel

  /** At most one thread between sem_wait(mutex) and sem_post(mutex), exactly when the lock is taken. */
  ghost predicate LockInv(s: State) {
    && s.mutex <= 1
    && (forall i, j | 0 <= i < |s.threads| && 0 <= j < |s.threads| ::
          Holding(s.threads[i].pc) && Holding(s.threads[j].pc) ==> i == j)
    && (s.mutex == 1 ==> forall i :: 0 <= i < |s.threads| ==> !Holding(s.threads[i].pc))
    && (s.mutex == 0 ==> exists i :: 0 <= i < |s.threads| && Holding(s.threads[i].pc))
  }

  predicate At(s: State, r: Role, pc: Pc, i: nat) {
    i < |s.threads| && s.threads[i].role == r && s.threads[i].pc == pc
  }

  /** Ring and counters, in terms of the two histories. */
  ghost predicate RingInv(s: State) {
    && Shape(s)
    && s.avail == |s.put| - |s.taken|
    && 0 <= s.avail <= s.size
    && s.taken == s.put[..|s.taken|]
    && (forall k {:trigger s.put[k]} :: |s.taken| <= k < |s.put| ==> s.buffer[k % s.size] == s.put[k])
    && ((forall i :: !At(s, Putter, Count, i)) ==> s.head == |s.put| % s.size)
    && ((forall i :: !At(s, Getter, Count, i)) ==> s.tail == |s.taken| % s.size)
  }

  /** What a thread inside the critical section may rely on. */
  ghost predicate ThreadInv(s: State, i: nat)
    requires Shape(s) && i < |s.threads|
  {
    var th := s.threads[i];
    if th.role == Putter then
      && (th.pc.Unlock? ==> s.avail == s.size)
      && (th.pc.Copy? || th.pc.Advance? || th.pc.Count? ==> s.avail < s.size)
      && (th.pc.Advance? || th.pc.Count? ==> s.buffer[|s.put| % s.size] == th.item)
      && (th.pc.Count? ==> s.head == (|s.put| + 1) % s.size)
      && (th.pc.Signal? ==> s.avail >= 1)
    else
      && (th.pc.Unlock? ==> s.avail == 0)
      && (th.pc.Copy? || th.pc.Advance? || th.pc.Count? ==> s.avail > 0)
      && (th.pc.Advance? || th.pc.Count? ==> |s.taken| < |s.put| && s.put[|s.taken|] == th.item)
      && (th.pc.Count? ==> s.tail == (|s.taken| + 1) % s.size)
      && (th.pc.Signal? ==> s.avail < s.size)
  }

  ghost predicate Inv(s: State) {
    LockInv(s) && RingInv(s) && forall i :: 0 <= i < |s.threads| ==> ThreadInv(s, i)
  }

  lemma InitInv(buffer: seq<Pdu>, roles: seq<Role>, blank: Pdu)
    requires |buffer| >= 1
    ensures Inv(Init(buffer, roles, blank))
  {
  }

  predicate OnlyMoved(s: State, s': State, t: nat) {
    && |s'.threads| == |s.threads|
    && forall i :: 0 <= i < |s.threads| && i != t ==> s'.threads[i] == s.threads[i]
  }

  /** A step leaves lock and holder as they are, takes the free lock, or gives it back. */
  predicate LockMove(s: State, s': State, t: nat) {
    && t < |s.threads| == |s'.threads| && OnlyMoved(s, s', t)
    && var was, now := Holding(s.threads[t].pc), Holding(s'.threads[t].pc);
      || (s'.mutex == s.mutex && now == was)
      || (s.mutex > 0 && s'.mutex == s.mutex - 1 && !was && now)
      || (s'.mutex == s.mutex + 1 && was && !now)
  }

  lemma PutLockMove(s: State, t: nat, arg: Pdu)
    requires Shape(s) && t < |s.threads|
    ensures LockMove(s, PutStep(s, t, arg), t)
  {
  }

  lemma GetLockMove(s: State, t: nat)
    requires Shape(s) && t < |s.threads|
    ensures LockMove(s, GetStep(s, t), t)
  {
  }

  lemma LockMoveKeeps(s: State, s': State, t: nat)
    requires LockInv(s) && LockMove(s, s', t)
    ensures LockInv(s')
  {
    if s'.mutex == 0 && !Holding(s'.threads[t].pc) {
      var i :| 0 <= i < |s.threads| && Holding(s.threads[i].pc);
      assert Holding(s'.threads[i].pc);
    }
  }

  /** The lock holder is the only thread with obligations; nobody else is mid-update. */
  lemma HolderAlone(s: State, t: nat)
    requires LockInv(s) && t < |s.threads| && Holding(s.threads[t].pc)
    ensures forall i :: 0 <= i < |s.threads| && i != t ==> !Holding(s.threads[i].pc)
    ensures forall r, i :: At(s, r, Count, i) ==> i == t
  {
  }

  predicate SameRing(s: State, s': State) {
    && s'.size == s.size && s'.buffer == s.buffer && s'.avail == s.avail
    && s'.head == s.head && s'.tail == s.tail && s'.put == s.put && s'.taken == s.taken
  }

  /** A step that leaves the ring alone only has to answer for the thread that moved. */
  lemma QuietStep(s: State, s': State, t: nat)
    requires RingInv(s) && (forall i :: 0 <= i < |s.threads| ==> ThreadInv(s, i))
    requires t < |s.threads| && SameRing(s, s') && OnlyMoved(s, s', t)
    requires !s.threads[t].pc.Count? && ThreadInv(s', t)
    ensures RingInv(s') && (forall i :: 0 <= i < |s'.threads| ==> ThreadInv(s', i))
  {
    forall i | 0 <= i < |s.threads| ensures ThreadInv(s', i) {
      assert ThreadInv(s, i);
    }
    if forall i :: !At(s', Putter, Count, i) {
      forall i ensures !At(s, Putter, Count, i) {
        assert !At(s', Putter, Count, i);
      }
    }
    if forall i :: !At(s', Getter, Count, i) {
      forall i ensures !At(s, Getter, Count, i) {
        assert !At(s', Getter, Count, i);
      }
    }
  }

  /** While t holds the lock, only t has obligations and the other side is aligned. */
  lemma LoudStep(s: State, s': State, t: nat)
    requires LockInv(s) && Shape(s')
    requires t < |s.threads| && Holding(s.threads[t].pc) && OnlyMoved(s, s', t)
    requires ThreadInv(s', t)
    ensures forall i :: 0 <= i < |s'.threads| ==> ThreadInv(s', i)
    ensures forall r, i :: At(s, r, Count, i) || At(s', r, Count, i) ==> i == t
  {
    HolderAlone(s, t);
  }

  lemma PutKeepsInv(s: State, t: nat, arg: Pdu)
    requires Inv(s) && t < |s.threads| && s.threads[t].role == Putter
    ensures RingInv(PutStep(s, t, arg))
    ensures forall i :: 0 <= i < |s.threads| ==> ThreadInv(PutStep(s, t, arg), i)
  {
    var s' := PutStep(s, t, arg);
    var pc := s.threads[t].pc;
    assert ThreadInv(s, t);
    if pc == Copy {
      PutCopy(s, t);
    } else if pc == Advance {
      PutAdvance(s, t);
    } else if pc == Count {
      PutCount(s, t);
    } else {
      QuietStep(s, s', t);
    }
  }

  lemma PutCopy(s: State, t: nat)
    requires Inv(s) && At(s, Putter, Copy, t)
    ensures var s' := PutStep(s, t, s.threads[t].item);
      RingInv(s') && (forall i :: 0 <= i < |s'.threads| ==> ThreadInv(s', i))
  {
    var s' := PutStep(s, t, s.threads[t].item);
    assert ThreadInv(s, t);
    HolderAlone(s, t);
    assert s.head == |s.put| % s.size;
    forall k | |s.taken| <= k < |s.put| ensures s'.buffer[k % s.size] == s.put[k] {
      ModDistinct(k, |s.put|, s.size);
    }
    LoudStep(s, s', t);
  }

  lemma PutAdvance(s: State, t: nat)
    requires Inv(s) && At(s, Putter, Advance, t)
    ensures var s' := PutStep(s, t, s.threads[t].item);
      RingInv(s') && (forall i :: 0 <= i < |s'.threads| ==> ThreadInv(s', i))
  {
    var s' := PutStep(s, t, s.threads[t].item);
    assert ThreadInv(s, t);
    HolderAlone(s, t);
    ModSucc(|s.put|, s.size);
    assert At(s', Putter, Count, t);
    LoudStep(s, s', t);
  }

  lemma PutCount(s: State, t: nat)
    requires Inv(s) && At(s, Putter, Count, t)
    ensures var s' := PutStep(s, t, s.threads[t].item);
      RingInv(s') && (forall i :: 0 <= i < |s'.threads| ==> ThreadInv(s', i))
  {
    var s' := PutStep(s, t, s.threads[t].item);
    assert ThreadInv(s, t);
    HolderAlone(s, t);
    LoudStep(s, s', t);
  }

  lemma GetKeepsInv(s: State, t: nat)
    requires Inv(s) && t < |s.threads| && s.threads[t].role == Getter
    ensures RingInv(GetStep(s, t))
    ensures forall i :: 0 <= i < |s.threads| ==> ThreadInv(GetStep(s, t), i)
  {
    var s' := GetStep(s, t);
    var pc := s.threads[t].pc;
    assert ThreadInv(s, t);
    if pc == Copy {
      HolderAlone(s, t);
      assert s.put[|s.taken|] == s.buffer[s.tail];
      QuietStep(s, s', t);
    } else if pc == Advance {
      GetAdvance(s, t);
    } else if pc == Count {
      GetCount(s, t);
    } else {
      QuietStep(s, s', t);
    }
  }

  lemma GetAdvance(s: State, t: nat)
    requires Inv(s) && At(s, Getter, Advance, t)
    ensures RingInv(GetStep(s, t))
    ensures forall i :: 0 <= i < |s.threads| ==> ThreadInv(GetStep(s, t), i)
  {
    var s' := GetStep(s, t);
    assert ThreadInv(s, t);
    HolderAlone(s, t);
    ModSucc(|s.taken|, s.size);
    assert At(s', Getter, Count, t);
    LoudStep(s, s', t);
  }

  lemma GetCount(s: State, t: nat)
    requires Inv(s) && At(s, Getter, Count, t)
    ensures RingInv(GetStep(s, t))
    ensures forall i :: 0 <= i < |s.threads| ==> ThreadInv(GetStep(s, t), i)
  {
    var s' := GetStep(s, t);
    assert ThreadInv(s, t);
    HolderAlone(s, t);
    LoudStep(s, s', t);
  }

  lemma PutInv(s: State, t: nat, arg: Pdu)
    requires Inv(s) && t < |s.threads| && s.threads[t].role == Putter
    ensures Inv(PutStep(s, t, arg))
  {
    PutLockMove(s, t, arg);
    LockMoveKeeps(s, PutStep(s, t, arg), t);
    PutKeepsInv(s, t, arg);
  }

  lemma GetInv(s: State, t: nat)
    requires Inv(s) && t < |s.threads| && s.threads[t].role == Getter
    ensures Inv(GetStep(s, t))
  {
    GetLockMove(s, t);
    LockMoveKeeps(s, GetStep(s, t), t);
    GetKeepsInv(s, t);
  }

  lemma StepInv(s: State, u: Turn)
    requires Inv(s)
    ensures Inv(Step(s, u))
  {
    if u.tid < |s.threads| {
      if s.threads[u.tid].role == Putter {
        PutInv(s, u.tid, u.arg);
      } else {
        GetInv(s, u.tid);
      }
    }
  }

  lemma {:induction false} RunInv(s: State, schedule: seq<Turn>)
    requires Inv(s)
    ensures Inv(Run(s, schedule))
    decreases |schedule|
  {
    if schedule != [] {
      RunInv(s, schedule[..|schedule| - 1]);
      StepInv(Run(s, schedule[..|schedule| - 1]), schedule[|schedule| - 1]);
    }
  }

  /** The abstract queue: counted in, not yet counted out. */
  function Queue(s: State): seq<Pdu> {
    if |s.taken| <= |s.put| then s.put[|s.taken|..] else []
  }

  /** What a step looks like to the callers of put and get. */
  datatype Event = Nothing | Enqueue(pdu: Pdu) | Dequeue(pdu: Pdu)

  function EventOf(s: State, u: Turn): Event {
    if u.tid >= |s.threads| || s.threads[u.tid].pc != Count then Nothing
    else if s.threads[u.tid].role == Putter then Enqueue(s.threads[u.tid].item)
    else Dequeue(s.threads[u.tid].item)
  }

  /** The specification: a queue that holds at most capacity PDUs. */
  predicate BoundedQueue(q: seq<Pdu>, e: Event, q': seq<Pdu>, capacity: nat) {
    match e
    case Nothing => q' == q
    case Enqueue(p) => |q| < capacity && q' == q + [p]
    case Dequeue(p) => q != [] && p == q[0] && q' == q[1..]
  }

  lemma PutQuiet(s: State, t: nat, arg: Pdu)
    requires Shape(s) && t < |s.threads| && s.threads[t].pc != Count
    ensures PutStep(s, t, arg).put == s.put && PutStep(s, t, arg).taken == s.taken
  {
  }

  lemma GetQuiet(s: State, t: nat)
    requires Shape(s) && t < |s.threads| && s.threads[t].pc != Count
    ensures GetStep(s, t).put == s.put && GetStep(s, t).taken == s.taken
  {
  }

  /** Refinement: every step of every thread is a step of the bounded queue. */
  lemma StepRefines(s: State, u: Turn)
    requires Inv(s)
    ensures BoundedQueue(Queue(s), EventOf(s, u), Queue(Step(s, u)), s.size)
  {
    if u.tid < |s.threads| {
      if s.threads[u.tid].pc == Count {
        assert ThreadInv(s, u.tid);
        if s.threads[u.tid].role == Putter {
          EnqueueStep(s, u.tid, u.arg);
        } else {
          DequeueStep(s, u.tid);
        }
      } else {
        PutQuiet(s, u.tid, u.arg);
        GetQuiet(s, u.tid);
      }
    }
  }

  lemma EnqueueStep(s: State, t: nat, arg: Pdu)
    requires RingInv(s) && At(s, Putter, Count, t) && ThreadInv(s, t)
    ensures |Queue(s)| < s.size && Queue(PutStep(s, t, arg)) == Queue(s) + [s.threads[t].item]
  {
  }

  lemma GetCounts(s: State, t: nat)
    requires Shape(s) && At(s, Getter, Count, t)
    ensures GetStep(s, t).put == s.put && GetStep(s, t).taken == s.taken + [s.threads[t].item]
  {
  }

  lemma DequeueStep(s: State, t: nat)
    requires RingInv(s) && At(s, Getter, Count, t) && ThreadInv(s, t)
    ensures Queue(s) != [] && Queue(s)[0] == s.threads[t].item
    ensures Queue(GetStep(s, t)) == Queue(s)[1..]
  {
    GetCounts(s, t);
    assert s.put[|s.taken|..][1..] == s.put[|s.taken| + 1..];
  }

  /**
  A putter enqueues the PDU it was called with, and a getter returns the PDU it
  dequeued: a thread outside gets into its call at once, and the PDU in hand changes only
  when a put starts and when a get copies.
  */
  lemma InHand(s: State, u: Turn)
    requires Shape(s) && u.tid < |s.threads|
    ensures var th, th' := s.threads[u.tid], Step(s, u).threads[u.tid];
      && (th.pc == Idle ==> th'.pc == WantLock)
      && (th.role == Putter && th.pc == Idle ==> th'.item == u.arg)
      && (!(th.role == Putter && th.pc == Idle) && !(th.role == Getter && th.pc == Copy)
          ==> th'.item == th.item)
    ensures forall i :: 0 <= i < |s.threads| && i != u.tid ==> Step(s, u).threads[i] == s.threads[i]
  {
  }

  /** The ring read from tail. */
  function Ring(s: State): seq<Pdu>
    requires Shape(s) && s.avail >= 0
  {
    seq(s.avail, i requires 0 <= i < s.avail => s.buffer[(s.tail + i) % s.size])
  }

  /** With the lock free, the ring read from tail is the abstract queue. */
  lemma RingIsQueue(s: State)
    requires Inv(s) && s.mutex == 1
    ensures s.avail >= 0 && s.head == (s.tail + s.avail) % s.size && Ring(s) == Queue(s)
  {
    assert s.head == |s.put| % s.size && s.tail == |s.taken| % s.size;
    ModAdd(|s.taken|, s.avail, s.size);
    forall i | 0 <= i < s.avail ensures Ring(s)[i] == Queue(s)[i] {
      ModAdd(|s.taken|, i, s.size);
      assert s.put[|s.taken| + i] == Queue(s)[i];
    }
  }

  /**
  Safety of the queue for any number of threads and any interleaving: the taken
  PDUs are a prefix of the put ones, the count is their difference and never
  exceeds the capacity, and with the lock free head is avail slots past tail and
  the ring read from tail is exactly what was put and not yet taken.
  */
  lemma QueueSafety(buffer: seq<Pdu>, roles: seq<Role>, blank: Pdu, schedule: seq<Turn>)
    requires |buffer| >= 1
    ensures var s := Run(Init(buffer, roles, blank), schedule);
      && s.taken <= s.put
      && s.avail == |s.put| - |s.taken|
      && 0 <= s.avail <= s.size == |buffer|
      && (s.mutex == 1 ==> s.head == (s.tail + s.avail) % s.size && Ring(s) == s.put[|s.taken|..])
  {
    var s0 := Init(buffer, roles, blank);
    InitInv(buffer, roles, blank);
    RunInv(s0, schedule);
    SameTeamRun(s0, schedule);
    SafeNow(Run(s0, schedule));
  }

  lemma SafeNow(s: State)
    requires Inv(s)
    ensures s.taken <= s.put && s.avail == |s.put| - |s.taken| && 0 <= s.avail <= s.size
    ensures s.mutex == 1 ==> s.head == (s.tail + s.avail) % s.size && Ring(s) == s.put[|s.taken|..]
  {
    if s.mutex == 1 {
      RingIsQueue(s);
    }
  }

  /** Capacity, number of threads and their roles never change. */
  predicate SameTeam(s: State, s': State) {
    && s'.size == s.size && |s'.threads| == |s.threads|
    && forall i :: 0 <= i < |s.threads| ==> s'.threads[i].role == s.threads[i].role
  }

  lemma {:induction false} SameTeamRun(s: State, schedule: seq<Turn>)
    requires Shape(s)
    ensures SameTeam(s, Run(s, schedule))
    decreases |schedule|
  {
    if schedule != [] {
      SameTeamRun(s, schedule[..|schedule| - 1]);
      SameTeamStep(Run(s, schedule[..|schedule| - 1]), schedule[|schedule| - 1]);
    }
  }

  lemma PutTeam(s: State, t: nat, arg: Pdu)
    requires Shape(s) && t < |s.threads|
    ensures SameTeam(s, PutStep(s, t, arg))
  {
  }

  lemma GetTeam(s: State, t: nat)
    requires Shape(s) && t < |s.threads|
    ensures SameTeam(s, GetStep(s, t))
  {
  }

  lemma SameTeamStep(s: State, u: Turn)
    requires Shape(s)
    ensures SameTeam(s, Step(s, u))
  {
    if u.tid < |s.threads| {
      PutTeam(s, u.tid, u.arg);
      GetTeam(s, u.tid);
    }
  }
}
