/**
camCapture on the real buffers: a two-dimensional array written in place and
reused without being cleared.
*/
module CameraTask {
  import opened Common
  import opened JpegFramer
  import opened Sequences
  import opened CameraCutter

  class CameraBuffers {
    const data: array2<Byte>
    var head: nat
    ghost var flushed: seq<seq<Byte>>

    ghost predicate Valid()
      reads this
    {
      data.Length0 >= 1 && head == |flushed| % data.Length0
    }

    ghost function Row(k: nat): (r: seq<Byte>)
      requires k < data.Length0
      reads this, data
      ensures |r| == data.Length1 && forall i :: 0 <= i < |r| ==> r[i] == data[k, i]
    {
      seq(data.Length1, i requires 0 <= i < data.Length1 reads this, data => data[k, i])
    }

    ghost function View(): (t: Table)
      reads this, data
      ensures |t.bufs| == data.Length0 && forall k :: 0 <= k < data.Length0 ==> t.bufs[k] == Row(k)
      ensures t.flushed == flushed
    {
      Table(seq(data.Length0, k requires 0 <= k < data.Length0 reads this, data => Row(k)), flushed)
    }

    constructor (store: array2<Byte>)
      requires store.Length0 >= 1
      ensures Valid() && data == store && flushed == []
    {
      data, head, flushed := store, 0, [];
    }

    /** cam_buffer->data[i] = b, on the buffer the writer holds. */
    method StoreByte(i: nat, b: Byte)
      requires Valid() && i < data.Length1
      modifies data
      ensures Valid() && View() == Apply(old(View()), Store(i, b))
    {
      ghost var before := View();
      data[head, i] := b;
      forall k | 0 <= k < data.Length0 ensures Row(k) == Apply(before, Store(i, b)).bufs[k] {
        if k != head {
          assert Row(k) == before.bufs[k];
        }
      }
    }

    /** ppipc_update_buffer for the writer: hand the buffer over and move on. */
    method Flush()
      requires Valid()
      modifies this
      ensures Valid() && View() == Apply(old(View()), Release)
    {
      ghost var before := View();
      flushed := flushed + [Row(head)];
      head := head + 1;
      head := head % data.Length0;
      ModSucc(|before.flushed|, data.Length0);
      assert forall k :: 0 <= k < data.Length0 ==> Row(k) == before.bufs[k];
    }

    /** One capture: scan the camera FIFO, keep the frame, hand over whole buffers. */
    method CamCapture(fifo: seq<Byte>)
      requires Valid() && InBounds(Script(fifo, data.Length1), data.Length1)
      modifies this, data
      ensures Valid() && View() == ApplyAll(old(View()), Script(fifo, data.Length1))
    {
      ghost var t0, size := View(), data.Length1;
      var temp: Byte, tempLast: Byte := 0, 0;
      var isHeader := false;
      var i: nat := 0;
      ApplyOne(t0, Acquire);
      for n := 0 to |fifo|
        invariant Valid()
        invariant var c := CutAll(fifo[..n], size);
          temp == c.temp && isHeader == c.isHeader && i == c.i && View() == ApplyAll(t0, c.ops)
      {
        ghost var c := CutAll(fifo[..n], size);
        assert Init(fifo[..n + 1]) == fifo[..n] && Last(fifo[..n + 1]) == fifo[n];
        ByteStores(fifo, n, size);
        AfterByte(t0, c, fifo[n], size);
        tempLast := temp;
        temp := fifo[n];
        if temp == EOI && tempLast == MARK {
          StoreByte(i, temp);
          isHeader := false;
          i := 0;
        }
        if isHeader {
          if i < data.Length1 {
            StoreByte(i, temp);
            i := i + 1;
          } else {
            Flush();
            i := 0;
            StoreByte(i, temp);
            i := i + 1;
          }
        } else if temp == SOI && tempLast == MARK {
          isHeader := true;
          StoreByte(i, tempLast);
          i := i + 1;
          StoreByte(i, temp);
          i := i + 1;
        }
      }
      assert fifo[..|fifo|] == fifo;
      ApplyConcat(t0, CutAll(fifo, size).ops, [Release]);
      ApplyOne(View(), Release);
      Flush();
    }
  }

  lemma ApplyTwo(t: Table, i: nat, a: Byte, b: Byte)
    requires |t.bufs| > 0
    ensures ApplyAll(t, [Store(i, a), Store(i + 1, b)]) == Apply(Apply(t, Store(i, a)), Store(i + 1, b))
  {
    assert Init([Store(i, a), Store(i + 1, b)]) == [Store(i, a)];
    ApplyOne(t, Store(i, a));
  }

  lemma ApplyThree(t: Table, b: Byte)
    requires |t.bufs| > 0
    ensures ApplyAll(t, [Release, Acquire, Store(0, b)]) == Apply(Apply(t, Release), Store(0, b))
  {
    assert Init([Release, Acquire, Store(0, b)]) == [Release, Acquire];
    assert Init([Release, Acquire]) == [Release];
    ApplyOne(t, Release);
  }

  /** The operations one byte adds to the script. */
  function Added(c: Cutter, b: Byte, size: nat): seq<Op> {
    if b == EOI && c.temp == MARK then [Store(c.i, b)]
    else if c.isHeader then if c.i < size then [Store(c.i, b)] else [Release, Acquire, Store(0, b)]
    else if b == SOI && c.temp == MARK then [Store(c.i, c.temp), Store(c.i + 1, b)]
    else []
  }

  lemma CutAdds(c: Cutter, b: Byte, size: nat)
    ensures CutByte(c, b, size).ops == c.ops + Added(c, b, size)
  {
  }

  /** What one byte does to the table, case by case. */
  function Cut(t: Table, c: Cutter, b: Byte, size: nat): Table
    requires |t.bufs| > 0
  {
    if b == EOI && c.temp == MARK then Apply(t, Store(c.i, b))
    else if c.isHeader then
      if c.i < size then Apply(t, Store(c.i, b)) else Apply(Apply(t, Release), Store(0, b))
    else if b == SOI && c.temp == MARK then Apply(Apply(t, Store(c.i, c.temp)), Store(c.i + 1, b))
    else t
  }

  lemma AddedCuts(t: Table, c: Cutter, b: Byte, size: nat)
    requires |t.bufs| > 0
    ensures ApplyAll(t, Added(c, b, size)) == Cut(t, c, b, size)
  {
    ApplyOne(t, Store(c.i, b));
    ApplyThree(t, b);
    ApplyTwo(t, c.i, c.temp, b);
  }

  lemma AfterByte(t0: Table, c: Cutter, b: Byte, size: nat)
    requires |t0.bufs| > 0
    ensures ApplyAll(t0, CutByte(c, b, size).ops) == Cut(ApplyAll(t0, c.ops), c, b, size)
  {
    CutAdds(c, b, size);
    ApplyConcat(t0, c.ops, Added(c, b, size));
    AddedCuts(ApplyAll(t0, c.ops), c, b, size);
  }

  /** In a script that stays in bounds, so does what the next byte stores. */
  lemma ByteStores(fifo: seq<Byte>, n: nat, size: nat)
    requires n < |fifo| && InBounds(Script(fifo, size), size)
    ensures var c, b := CutAll(fifo[..n], size), fifo[n];
      && (b == EOI && c.temp == MARK ==> c.i < size)
      && (c.isHeader && c.i >= size && !(b == EOI && c.temp == MARK) ==> 0 < size)
      && (!c.isHeader && b == SOI && c.temp == MARK ==> c.i + 1 < size)
  {
    var c, b, all := CutAll(fifo[..n], size), fifo[n], Script(fifo, size);
    assert Init(fifo[..n + 1]) == fifo[..n] && Last(fifo[..n + 1]) == b;
    ScriptOps(fifo, n + 1, size);
    CutAdds(c, b, size);
    assert c.ops + Added(c, b, size) <= all;
    if b == EOI && c.temp == MARK {
      assert all[|c.ops|] == Store(c.i, b);
    } else if c.isHeader && c.i >= size {
      assert all[|c.ops| + 2] == Store(0, b);
    } else if !c.isHeader && b == SOI && c.temp == MARK {
      assert all[|c.ops| + 1] == Store(c.i + 1, b);
    }
  }

  /** What has been done after n bytes is a prefix of the whole script. */
  lemma {:induction false} ScriptOps(fifo: seq<Byte>, n: nat, size: nat)
    requires n <= |fifo|
    ensures CutAll(fifo[..n], size).ops <= Script(fifo, size)
    decreases |fifo| - n
  {
    if n == |fifo| {
      assert fifo[..n] == fifo;
    } else {
      ScriptOps(fifo, n + 1, size);
      assert Init(fifo[..n + 1]) == fifo[..n];
    }
  }
}
