/** Exactly when camCapture stays inside its buffers, for anything the camera may deliver. */
module CameraBounds {
  import opened Common
  import opened Sequences
  import opened JpegFramer
  import opened CameraCutter

  /** No frame is one byte longer than a whole number of buffers. */
  ghost predicate AllFit(frames: seq<seq<Byte>>, size: nat)
    requires size > 0
  {
    forall k :: 0 <= k < |frames| ==> |frames[k]| % size != 1
  }

  /** Cutter and framer, fed with the same bytes: they agree on where frames are. */
  ghost predicate Together(c: Cutter, f: Framer, size: nat)
    requires size > 0
  {
    && c.temp == f.temp && c.isHeader == f.header
    && (if f.header then 1 <= c.i <= size && c.i <= |f.newImage| && (|f.newImage| - c.i) % size == 0
        else c.i == 0 && f.newImage == [])
    && (InBounds(c.ops, size) <==> AllFit(f.emitted, size))
  }

  lemma InBoundsConcat(ops: seq<Op>, more: seq<Op>, size: nat)
    ensures InBounds(ops + more, size) <==> InBounds(ops, size) && InBounds(more, size)
  {
    if InBounds(ops + more, size) {
      forall k | 0 <= k < |ops| && ops[k].Store? ensures ops[k].i < size {
        assert (ops + more)[k] == ops[k];
      }
      forall k | 0 <= k < |more| && more[k].Store? ensures more[k].i < size {
        assert (ops + more)[|ops| + k] == more[k];
      }
    }
  }

  lemma OneStore(i: nat, b: Byte, size: nat)
    ensures InBounds([Store(i, b)], size) <==> i < size
  {
    assert [Store(i, b)][0] == Store(i, b);
  }

  lemma AllFitOne(frames: seq<seq<Byte>>, frame: seq<Byte>, size: nat)
    requires size > 0
    ensures AllFit(frames + [frame], size) <==> AllFit(frames, size) && |frame| % size != 1
  {
    if AllFit(frames + [frame], size) {
      forall k | 0 <= k < |frames| ensures |frames[k]| % size != 1 {
        assert (frames + [frame])[k] == frames[k];
      }
      assert (frames + [frame])[|frames|] == frame;
    }
  }

  lemma FrameEnds(c: Cutter, f: Framer, size: nat)
    requires size >= 2 && Together(c, f, size) && c.temp == MARK
    ensures Together(CutByte(c, EOI, size), Feed(f, EOI), size)
  {
    InBoundsConcat(c.ops, [Store(c.i, EOI)], size);
    OneStore(c.i, EOI, size);
    if f.header {
      var frame := f.newImage + [EOI];
      AllFitOne(f.emitted, frame, size);
      FrameLength(frame, c.i, size);
    }
  }

  lemma FrameGoesOn(c: Cutter, f: Framer, b: Byte, size: nat)
    requires size >= 2 && Together(c, f, size) && f.header && !(b == EOI && c.temp == MARK)
    ensures Together(CutByte(c, b, size), Feed(f, b), size)
  {
    if c.i < size {
      InBoundsConcat(c.ops, [Store(c.i, b)], size);
    } else {
      InBoundsConcat(c.ops, [Release, Acquire, Store(0, b)], size);
      WholeBuffers(|f.newImage| - size, size);
    }
  }

  lemma OutsideFrames(c: Cutter, f: Framer, b: Byte, size: nat)
    requires size >= 2 && Together(c, f, size) && !f.header && !(b == EOI && c.temp == MARK)
    ensures Together(CutByte(c, b, size), Feed(f, b), size)
  {
    if b == SOI && c.temp == MARK {
      InBoundsConcat(c.ops, [Store(0, c.temp), Store(1, b)], size);
    }
  }

  lemma {:induction false} RunTogether(fifo: seq<Byte>, size: nat)
    requires size >= 2
    ensures Together(CutAll(fifo, size), FeedAll(START, fifo), size)
    decreases |fifo|
  {
    if fifo != [] {
      RunTogether(Init(fifo), size);
      var c, f, b := CutAll(Init(fifo), size), FeedAll(START, Init(fifo)), Last(fifo);
      if b == EOI && c.temp == MARK {
        FrameEnds(c, f, size);
      } else if f.header {
        FrameGoesOn(c, f, b, size);
      } else {
        OutsideFrames(c, f, b, size);
      }
    }
  }

  /**
  Whatever the camera FIFO holds, one capture stays inside its buffers if and only if
  none of the frames in it is one byte longer than a whole number of buffers.
  */
  lemma StoresInBounds(fifo: seq<Byte>, size: nat)
    requires size >= 2
    ensures InBounds(Script(fifo, size), size) <==> AllFit(Frames(fifo), size)
  {
    RunTogether(fifo, size);
    InBoundsConcat(CutAll(fifo, size).ops, [Release], size);
  }
}
