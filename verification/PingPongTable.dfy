/**
The ping-pong table as mutable state.  Each method is one statement of
ppipc_get_buffer or ppipc_update_buffer, or of the code between them, and is tied
to the transition system.
*/
module PingPongTable {
  import opened Common
  import opened JpegFramer
  import opened Sequences
  import opened CameraCutter
  import opened PingPong

  class BufferTable {
    const data: array2<Byte>
    var avail: int
    var head: nat
    var tail: nat
    var full: nat
    var empty: nat
    var mutex: nat
    var wpc: Pc
    var wbuf: nat
    var ops: seq<Op>
    var next: nat
    var rpc: Pc
    var rbuf: nat
    var pos: nat
    var out: seq<Byte>
    ghost var flushed: seq<seq<Byte>>
    ghost var drained: nat

    ghost function Row(k: nat): (r: seq<Byte>)
      requires k < data.Length0
      reads data
      ensures |r| == data.Length1 && forall i :: 0 <= i < |r| ==> r[i] == data[k, i]
    {
      seq(data.Length1, i requires 0 <= i < data.Length1 reads data => data[k, i])
    }

    ghost function Rows(): (r: seq<seq<Byte>>)
      reads data
      ensures |r| == data.Length0 && forall k :: 0 <= k < |r| ==> r[k] == Row(k)
    {
      seq(data.Length0, k requires 0 <= k < data.Length0 reads data => Row(k))
    }

    ghost function View(): State
      reads this, data
    {
      State(Rows(), avail, head, tail, full, empty, mutex, wpc, wbuf, ops, next, rpc, rbuf, pos, out, flushed, drained)
    }

    ghost predicate Valid()
      reads this, data
    {
      Shape(View(), data.Length1)
    }

    /** ppipc_init_tab on a zeroed table, before either task has called it. */
    constructor (store: array2<Byte>, script: seq<Op>)
      requires store.Length0 >= 1
      ensures Valid() && data == store && View() == Start(Rows(), script)
      ensures WellNested(script) ==> Inv(View(), Rows(), data.Length1)
    {
      data := store;
      avail, head, tail := 0, 0, 0;
      empty, full, mutex := 0, 0, 1;
      wpc, wbuf, ops, next := Idle, 0, script, 0;
      rpc, rbuf, pos, out := Idle, 0, 0, [];
      flushed, drained := [], 0;
    }

    method StoreByte(i: nat, b: Byte)
      requires Valid() && i < data.Length1
      modifies data
      ensures Rows() == Written(old(Rows()), wbuf, i, b)
    {
      ghost var before := Rows();
      data[wbuf, i] := b;
      forall k | 0 <= k < data.Length0 ensures Row(k) == Written(before, wbuf, i, b)[k] {
        if k != wbuf {
          assert Row(k) == before[k];
        }
      }
    }

    /** ppipc_get_buffer(table, WRITE). */
    method WriterGet()
      requires Valid() && (wpc.Idle? || wpc.GetLock? || wpc.GetCheck? || wpc.GetUnlock? || wpc.GetPark? || wpc.GetRelease?)
      modifies this
      ensures View() == WriterStep(old(View()), data.Length1)
    {
      match wpc {
        case Idle =>
          if next < |ops| && ops[next].Acquire? {
            wpc, next := GetLock, next + 1;
          }
        case GetLock =>
          if mutex > 0 {
            mutex, wpc := mutex - 1, GetCheck;
          }
        case GetCheck =>
          if avail == data.Length0 {
            wpc := GetUnlock;
          } else {
            wbuf, wpc := head, GetRelease;
          }
        case GetUnlock => mutex, wpc := mutex + 1, GetPark;
        case GetPark =>
          if full > 0 {
            full, wpc := full - 1, GetLock;
          }
        case GetRelease => mutex, wpc := mutex + 1, Hold;
      }
    }

    /** The camera task writing into the buffer it holds. */
    method WriterHold()
      requires Valid() && wpc.Hold?
      modifies this, data
      ensures View() == WriterStep(old(View()), data.Length1)
    {
      if next < |ops| {
        match ops[next] {
          case Acquire =>
          case Store(i, b) =>
            if i < data.Length1 {
              StoreByte(i, b);
            }
            next := next + 1;
          case Release => wpc := UpdLock;
        }
      }
    }

    /** avail++, which hands the buffer over. */
    method CountUp()
      requires Valid() && wpc.UpdCount?
      modifies this
      ensures View() == WriterStep(old(View()), data.Length1)
    {
      avail := avail + 1;
      flushed := flushed + [Row(wbuf)];
      next := if next < |ops| then next + 1 else next;
      wpc := UpdIndex;
    }

    /** ppipc_update_buffer(table, WRITE). */
    method WriterUpdate()
      requires Valid() && (wpc.UpdLock? || wpc.UpdCount? || wpc.UpdIndex? || wpc.UpdSignal? || wpc.UpdRelease?)
      modifies this
      ensures View() == WriterStep(old(View()), data.Length1)
    {
      match wpc {
        case UpdLock =>
          if mutex > 0 {
            mutex, wpc := mutex - 1, UpdCount;
          }
        case UpdCount => CountUp();
        case UpdIndex =>
          head := head + 1;
          head := head % data.Length0;
          wpc := UpdSignal;
        case UpdSignal =>
          if avail == 1 {
            empty := empty + 1;
          }
          wpc := UpdRelease;
        case UpdRelease => mutex, wpc := mutex + 1, Idle;
      }
    }

    /** ppipc_get_buffer(table, READ). */
    method ReaderGet()
      requires Valid() && (rpc.Idle? || rpc.GetLock? || rpc.GetCheck? || rpc.GetUnlock? || rpc.GetPark? || rpc.GetRelease?)
      modifies this
      ensures View() == ReaderStep(old(View()), data.Length1)
    {
      match rpc {
        case Idle => rpc := GetLock;
        case GetLock =>
          if mutex > 0 {
            mutex, rpc := mutex - 1, GetCheck;
          }
        case GetCheck =>
          if avail == 0 {
            rpc := GetUnlock;
          } else {
            rbuf, pos, rpc := tail, 0, GetRelease;
          }
        case GetUnlock => mutex, rpc := mutex + 1, GetPark;
        case GetPark =>
          if empty > 0 {
            empty, rpc := empty - 1, GetLock;
          }
        case GetRelease => mutex, rpc := mutex + 1, Hold;
      }
    }

    /** The socket task sending the buffer it holds, byte by byte. */
    method ReaderHold()
      requires Valid() && rpc.Hold?
      modifies this
      ensures View() == ReaderStep(old(View()), data.Length1)
    {
      if pos < data.Length1 {
        assert data[rbuf, pos] == Rows()[rbuf][pos];
        out, pos := out + [data[rbuf, pos]], pos + 1;
      } else {
        rpc := UpdLock;
      }
    }

    /** ppipc_update_buffer(table, READ). */
    method ReaderUpdate()
      requires Valid() && (rpc.UpdLock? || rpc.UpdCount? || rpc.UpdIndex? || rpc.UpdSignal? || rpc.UpdRelease?)
      modifies this
      ensures View() == ReaderStep(old(View()), data.Length1)
    {
      match rpc {
        case UpdLock =>
          if mutex > 0 {
            mutex, rpc := mutex - 1, UpdCount;
          }
        case UpdCount =>
          avail := avail - 1;
          drained := drained + 1;
          rpc := UpdIndex;
        case UpdIndex =>
          tail := tail + 1;
          tail := tail % data.Length0;
          rpc := UpdSignal;
        case UpdSignal =>
          if avail == data.Length0 - 1 {
            full := full + 1;
          }
          rpc := UpdRelease;
        case UpdRelease => mutex, rpc := mutex + 1, Idle;
      }
    }

    /** Both tasks, in the order a scheduler picks. */
    method Execute(schedule: seq<Side>)
      requires Valid()
      modifies this, data
      ensures Valid() && View() == Run(old(View()), schedule, data.Length1)
    {
      for k := 0 to |schedule|
        invariant Valid() && View() == Run(old(View()), schedule[..k], data.Length1)
      {
        assert Init(schedule[..k + 1]) == schedule[..k];
        if schedule[k] == Writer {
          if wpc.Hold? {
            WriterHold();
          } else if wpc.UpdLock? || wpc.UpdCount? || wpc.UpdIndex? || wpc.UpdSignal? || wpc.UpdRelease? {
            WriterUpdate();
          } else {
            WriterGet();
          }
        } else {
          if rpc.Hold? {
            ReaderHold();
          } else if rpc.UpdLock? || rpc.UpdCount? || rpc.UpdIndex? || rpc.UpdSignal? || rpc.UpdRelease? {
            ReaderUpdate();
          } else {
            ReaderGet();
          }
        }
      }
      assert schedule[..|schedule|] == schedule;
    }

    /**
    Loan safety on the mutable table: from any state reached so far, whatever the
    scheduler does, the two tasks never hold the same row, the reader's row is what was
    handed over, and what was sent is a prefix of the buffers handed over.
    */
    method Serve(schedule: seq<Side>, ghost bufs0: seq<seq<Byte>>)
      requires Valid() && Inv(View(), bufs0, data.Length1)
      modifies this, data
      ensures Valid() && View() == Run(old(View()), schedule, data.Length1) && Inv(View(), bufs0, data.Length1)
      ensures Owns(wpc) && Owns(rpc) ==> wbuf != rbuf
      ensures Owns(rpc) ==> drained < |flushed| && rbuf < data.Length0 && Row(rbuf) == flushed[drained]
      ensures out <= Flatten(flushed)
    {
      RunInv(View(), bufs0, schedule, data.Length1);
      Execute(schedule);
      Ownership(View());
      OutPrefix(View(), data.Length1);
    }
  }
}
