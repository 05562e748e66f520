/**
The queue of shared.c as mutable state: the ring, its counters and semaphores,
and the threads inside put and get.  Each method changes the fields in place and
is tied to the transition system, so everything proved there holds here.
*/
module FifoSystem {
  import opened Common
  import opened PduTypes
  import opened FifoModel
  import FifoSafety

  class SharedFifo {
    const buffer: array<Pdu>
    const size: nat
    var avail: int
    var head: nat
    var tail: nat
    var full: nat
    var empty: nat
    var mutex: nat
    const threads: array<Thread>
    ghost var put: seq<Pdu>
    ghost var taken: seq<Pdu>

    ghost predicate Valid()
      reads this, buffer, threads
    {
      Shape(View())
    }

    ghost function View(): State
      reads this, buffer, threads
    {
      State(size, buffer[..], avail, head, tail, full, empty, mutex, threads[..], put, taken)
    }

    /** pdu_fifo_init, with the threads that will use the queue still outside it. */
    constructor (store: array<Pdu>, team: array<Thread>)
      requires store.Length >= 1
      requires forall i :: 0 <= i < team.Length ==> team[i].pc == Idle
      ensures Valid() && buffer == store && threads == team
      ensures View() == State(store.Length, store[..], 0, 0, 0, 0, 0, 1, team[..], [], [])
      ensures FifoSafety.Inv(View())
    {
      buffer, size := store, store.Length;
      avail, tail, head := 0, 0, 0;
      empty, full, mutex := 0, 0, 1;
      threads := team;
      put, taken := [], [];
    }

    /** Thread t moves to another point of its call. */
    method Goto(t: nat, pc: Pc)
      requires t < threads.Length
      modifies threads
      ensures threads[..] == old(threads[..])[t := old(threads[t]).(pc := pc)]
    {
      threads[t] := threads[t].(pc := pc);
    }

    /** The next statement of pdu_fifo_put in thread t. */
    method PutTurn(t: nat, input: Pdu)
      requires Valid() && t < threads.Length
      modifies this, buffer, threads
      ensures Valid() && View() == PutStep(old(View()), t, input)
    {
      match threads[t].pc {
        case Idle => threads[t] := threads[t].(pc := WantLock, item := input);
        case WantLock =>
          if mutex > 0 {
            mutex := mutex - 1;
            Goto(t, Check);
          }
        case Check =>
          if avail == size {
            Goto(t, Unlock);
          } else {
            Goto(t, Copy);
          }
        case Unlock =>
          mutex := mutex + 1;
          Goto(t, Park);
        case Park =>
          if full > 0 {
            full := full - 1;
            Goto(t, WantLock);
          }
        case Copy =>
          buffer[head] := threads[t].item;
          Goto(t, Advance);
        case Advance =>
          head := head + 1;
          head := head % size;
          Goto(t, Count);
        case Count =>
          avail := avail + 1;
          put := put + [threads[t].item];
          Goto(t, Signal);
        case Signal =>
          if avail == 1 {
            empty := empty + 1;
          }
          Goto(t, Release);
        case Release =>
          mutex := mutex + 1;
          Goto(t, Idle);
      }
    }

    /** The next statement of pdu_fifo_get in thread t. */
    method GetTurn(t: nat)
      requires Valid() && t < threads.Length
      modifies this, buffer, threads
      ensures Valid() && View() == GetStep(old(View()), t)
    {
      match threads[t].pc {
        case Idle => Goto(t, WantLock);
        case WantLock =>
          if mutex > 0 {
            mutex := mutex - 1;
            Goto(t, Check);
          }
        case Check =>
          if avail < 1 {
            Goto(t, Unlock);
          } else {
            Goto(t, Copy);
          }
        case Unlock =>
          mutex := mutex + 1;
          Goto(t, Park);
        case Park =>
          if empty > 0 {
            empty := empty - 1;
            Goto(t, WantLock);
          }
        case Copy => threads[t] := threads[t].(pc := Advance, item := buffer[tail]);
        case Advance =>
          tail := tail + 1;
          tail := tail % size;
          Goto(t, Count);
        case Count =>
          avail := avail - 1;
          taken := taken + [threads[t].item];
          Goto(t, Signal);
        case Signal =>
          if avail == size - 1 {
            full := full + 1;
          }
          Goto(t, Release);
        case Release =>
          mutex := mutex + 1;
          Goto(t, Idle);
      }
    }

    /** Let the threads run in the order a scheduler picks. */
    method Execute(schedule: seq<Turn>)
      requires Valid()
      modifies this, buffer, threads
      ensures Valid() && View() == Run(old(View()), schedule)
    {
      for k := 0 to |schedule|
        invariant Valid() && View() == Run(old(View()), schedule[..k])
      {
        var u := schedule[k];
        assert schedule[..k + 1][..k] == schedule[..k];
        if u.tid < threads.Length {
          if threads[u.tid].role == Putter {
            PutTurn(u.tid, u.arg);
          } else {
            GetTurn(u.tid);
          }
        }
      }
      assert schedule[..|schedule|] == schedule;
    }

    /**
    First in, first out, on the mutable queue: from any state reached so far, whatever
    the scheduler does, what was taken is a prefix of what was put and the ring never
    holds more than it has room for.
    */
    method Serve(schedule: seq<Turn>)
      requires Valid() && FifoSafety.Inv(View())
      modifies this, buffer, threads
      ensures Valid() && View() == Run(old(View()), schedule) && FifoSafety.Inv(View())
      ensures taken <= put && avail == |put| - |taken| && 0 <= avail <= size
      ensures mutex == 1 ==> head == (tail + avail) % size && FifoSafety.Ring(View()) == put[|taken|..]
    {
      ghost var s := Run(View(), schedule);
      FifoSafety.RunInv(View(), schedule);
      FifoSafety.SafeNow(s);
      Execute(schedule);
    }
  }
}
