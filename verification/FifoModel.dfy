/**
The blocking PDU queue as a transition system: any number of threads, each
statement of put and get that touches shared state one step, so that every
interleaving is a schedule.  A thread scheduled on a semaphore that has no
token stays where it is.
*/
module FifoModel {
  import opened Common
  import opened PduTypes

  datatype Role = Putter | Getter {
    function Other(): Role { if Putter? then Getter else Putter }
  }

  /** Where a thread stands inside pdu_fifo_put or pdu_fifo_get. */
  datatype Pc =
    | Idle      // outside any call
    | WantLock  // at sem_wait(mutex)
    | Check     // about to test avail
    | Unlock    // saw no room / no item, about to release the lock
    | Park      // at sem_wait(full) or sem_wait(empty)
    | Copy      // about to copy the PDU
    | Advance   // about to advance head or tail
    | Count     // about to change avail
    | Signal    // about to test avail and perhaps post the other side
    | Release   // about to release the lock and return

  datatype Thread = Thread(role: Role, pc: Pc, item: Pdu)

  /** put and taken are history: what has been counted in and out so far. */
  datatype State = State(
    size: nat, buffer: seq<Pdu>, avail: int, head: nat, tail: nat,
    full: nat, empty: nat, mutex: nat,
    threads: seq<Thread>, put: seq<Pdu>, taken: seq<Pdu>)

  predicate Shape(s: State) {
    s.size >= 1 && |s.buffer| == s.size && s.head < s.size && s.tail < s.size
  }

  function Init(buffer: seq<Pdu>, roles: seq<Role>, blank: Pdu): State
  {
    State(|buffer|, buffer, 0, 0, 0, 0, 0, 1,
          seq(|roles|, i requires 0 <= i < |roles| => Thread(roles[i], Idle, blank)), [], [])
  }

  function Goto(s: State, t: nat, pc: Pc): State
    requires t < |s.threads|
  {
    s.(threads := s.threads[t := s.threads[t].(pc := pc)])
  }

  function PutStep(s: State, t: nat, arg: Pdu): (r: State)
    requires Shape(s) && t < |s.threads|
    ensures Shape(r) && |r.threads| == |s.threads|
  {
    var th := s.threads[t];
    match th.pc
    case Idle => s.(threads := s.threads[t := th.(pc := WantLock, item := arg)])
    case WantLock => if s.mutex > 0 then Goto(s.(mutex := s.mutex - 1), t, Check) else s
    case Check => Goto(s, t, if s.avail == s.size then Unlock else Copy)
    case Unlock => Goto(s.(mutex := s.mutex + 1), t, Park)
    case Park => if s.full > 0 then Goto(s.(full := s.full - 1), t, WantLock) else s
    case Copy => Goto(s.(buffer := s.buffer[s.head := th.item]), t, Advance)
    case Advance => Goto(s.(head := (s.head + 1) % s.size), t, Count)
    case Count => Goto(s.(avail := s.avail + 1, put := s.put + [th.item]), t, Signal)
    case Signal => Goto(if s.avail == 1 then s.(empty := s.empty + 1) else s, t, Release)
    case Release => Goto(s.(mutex := s.mutex + 1), t, Idle)
  }

  function GetStep(s: State, t: nat): (r: State)
    requires Shape(s) && t < |s.threads|
    ensures Shape(r) && |r.threads| == |s.threads|
  {
    var th := s.threads[t];
    match th.pc
    case Idle => Goto(s, t, WantLock)
    case WantLock => if s.mutex > 0 then Goto(s.(mutex := s.mutex - 1), t, Check) else s
    case Check => Goto(s, t, if s.avail < 1 then Unlock else Copy)
    case Unlock => Goto(s.(mutex := s.mutex + 1), t, Park)
    case Park => if s.empty > 0 then Goto(s.(empty := s.empty - 1), t, WantLock) else s
    case Copy => s.(threads := s.threads[t := th.(pc := Advance, item := s.buffer[s.tail])])
    case Advance => Goto(s.(tail := (s.tail + 1) % s.size), t, Count)
    case Count => Goto(s.(avail := s.avail - 1, taken := s.taken + [th.item]), t, Signal)
    case Signal => Goto(if s.avail == s.size - 1 then s.(full := s.full + 1) else s, t, Release)
    case Release => Goto(s.(mutex := s.mutex + 1), t, Idle)
  }

  /** One turn of a schedule: thread tid moves; a put that starts now carries arg. */
  datatype Turn = Turn(tid: nat, arg: Pdu)

  function Step(s: State, u: Turn): (r: State)
    requires Shape(s)
    ensures Shape(r) && |r.threads| == |s.threads|
  {
    if u.tid >= |s.threads| then s
    else if s.threads[u.tid].role == Putter then PutStep(s, u.tid, u.arg)
    else GetStep(s, u.tid)
  }

  function Run(s: State, schedule: seq<Turn>): (r: State)
    requires Shape(s)
    ensures Shape(r) && |r.threads| == |s.threads|
    decreases |schedule|
  {
    if schedule == [] then s
    else Step(Run(s, schedule[..|schedule| - 1]), schedule[|schedule| - 1])
  }

  lemma {:induction false} RunConcat(s: State, a: seq<Turn>, b: seq<Turn>)
    requires Shape(s)
    ensures Run(s, a + b) == Run(Run(s, a), b)
    decreases |b|
  {
    if b == [] {
      assert a + b == a;
    } else {
      var c := b[..|b| - 1];
      assert (a + b)[..|a + b| - 1] == a + c;
      RunConcat(s, a, c);
    }
  }

  /** A thread on its way to holding the lock, or holding it, is not blocked for good. */
  predicate Holding(pc: Pc) {
    pc.Check? || pc.Unlock? || pc.Copy? || pc.Advance? || pc.Count? || pc.Signal? || pc.Release?
  }

  /** How many operations of this role the queue can take before it blocks. */
  function Room(s: State, r: Role): int {
    if r == Putter then s.size - s.avail else s.avail
  }

  /** Wake-up tokens this role can consume. */
  function Tokens(s: State, r: Role): nat {
    if r == Putter then s.full else s.empty
  }

  /** Scheduling this thread now would change nothing. */
  predicate Blocked(s: State, i: nat)
    requires i < |s.threads|
  {
    var th := s.threads[i];
    (th.pc == WantLock && s.mutex == 0) || (th.pc == Park && Tokens(s, th.role) == 0)
  }
}
