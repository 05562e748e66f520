/**
What one capture puts on the wire, for anything the camera may deliver: several frames,
frames within frames, frames cut off, and markers without a frame.
*/
module CameraWire {
  import opened Common
  import opened Sequences
  import opened JpegFramer
  import opened CameraCutter
  import opened CameraBounds
  import opened CameraTask

  ghost predicate Sized(t: Table, size: nat) {
    |t.bufs| > 0 && forall k :: 0 <= k < |t.bufs| ==> |t.bufs[k]| == size
  }

  /** The whole buffers of a frame, and what is left for its last one. */
  function Whole(frame: seq<Byte>, size: nat): seq<Byte>
    requires size >= 1
  {
    if frame == [] then [] else StartsInside(|frame|, size); frame[..LastPart(|frame|, size)]
  }

  function Rest(frame: seq<Byte>, size: nat): seq<Byte>
    requires size >= 1
  {
    if frame == [] then [] else StartsInside(|frame|, size); frame[LastPart(|frame|, size)..]
  }

  function Wholes(frames: seq<seq<Byte>>, size: nat): seq<Byte>
    requires size >= 1
    decreases |frames|
  {
    if frames == [] then [] else Wholes(Init(frames), size) + Whole(Last(frames), size)
  }

  lemma WholesMore(frames: seq<seq<Byte>>, frame: seq<Byte>, size: nat)
    requires size >= 1
    ensures Wholes(frames + [frame], size) == Wholes(frames, size) + Whole(frame, size)
  {
    assert Init(frames + [frame]) == frames;
  }

  /** The last part of a frame heads the buffer, its first byte perhaps overwritten by a stray EOI. */
  ghost predicate Heads(rest: seq<Byte>, buf: seq<Byte>) {
    |rest| <= |buf| && (buf[..|rest|] == rest || (rest != [] && buf[..|rest|] == rest[0 := EOI]))
  }

  /** Table and framer, fed with the same bytes. */
  ghost predicate Written(t0: Table, t: Table, f: Framer, size: nat)
    requires size >= 1
  {
    && Sized(t, size)
    && Flatten(t.flushed) == Flatten(t0.flushed) + Wholes(f.emitted, size) + Whole(f.newImage, size)
    && (f.header ==> |f.newImage| >= 2 && |Rest(f.newImage, size)| <= size && Lent(t)[..|Rest(f.newImage, size)|] == Rest(f.newImage, size))
    && (!f.header ==> f.newImage == [] && (f.emitted != [] ==> Heads(Rest(Last(f.emitted), size), Lent(t))))
  }

  /* ---- The last part of a growing frame ---- */

  lemma PartGrows(frame: seq<Byte>, b: Byte, i: nat, size: nat)
    requires 1 <= i < size && i <= |frame| && (|frame| - i) % size == 0
    ensures |Rest(frame, size)| == i
    ensures Whole(frame + [b], size) == Whole(frame, size) && Rest(frame + [b], size) == Rest(frame, size) + [b]
  {
    LastPartIs(|frame|, i, size);
    LastPartIs(|frame| + 1, i + 1, size);
  }

  lemma PartFull(frame: seq<Byte>, b: Byte, size: nat)
    requires 1 <= size <= |frame| && (|frame| - size) % size == 0
    ensures |Rest(frame, size)| == size && Whole(frame, size) + Rest(frame, size) == frame
    ensures Whole(frame + [b], size) == frame && Rest(frame + [b], size) == [b]
  {
    LastPartIs(|frame|, size, size);
    WholeBuffers(|frame| - size, size);
    LastPartIs(|frame| + 1, 1, size);
  }

  /* ---- One byte ---- */

  /** A byte stored right behind the first i of the lent buffer. */
  lemma StoreBehind(t: Table, i: nat, b: Byte, size: nat)
    requires Sized(t, size) && i < size
    ensures var t' := Apply(t, Store(i, b));
      Sized(t', size) && t'.flushed == t.flushed && |Lent(t')| == size && Lent(t')[..i + 1] == Lent(t)[..i] + [b]
  {
  }

  lemma ReleaseAll(t: Table, size: nat)
    requires Sized(t, size)
    ensures var t' := Apply(t, Release);
      Sized(t', size) && Flatten(t'.flushed) == Flatten(t.flushed) + Lent(t)
  {
    FlattenOne(t.flushed, Lent(t));
  }

  /** What holds of cutter, framer and table at once, as long as the cutter has stayed in bounds. */
  ghost predicate Along(t0: Table, c: Cutter, t: Table, f: Framer, size: nat) {
    size >= 2 && Together(c, f, size) && InBounds(c.ops, size) && Written(t0, t, f, size)
  }

  lemma FrameWritten(t0: Table, c: Cutter, t: Table, f: Framer, size: nat)
    requires Along(t0, c, t, f, size) && f.header && c.temp == MARK && c.i < size
    ensures Written(t0, Apply(t, Store(c.i, EOI)), Feed(f, EOI), size)
  {
    var frame := f.newImage + [EOI];
    PartGrows(f.newImage, EOI, c.i, size);
    StoreBehind(t, c.i, EOI, size);
    WholesMore(f.emitted, frame, size);
    assert Last(f.emitted + [frame]) == frame;
  }

  lemma StrayWritten(t0: Table, c: Cutter, t: Table, f: Framer, size: nat)
    requires Along(t0, c, t, f, size) && !f.header && c.temp == MARK
    ensures Written(t0, Apply(t, Store(0, EOI)), Feed(f, EOI), size)
  {
    StoreBehind(t, 0, EOI, size);
    var t' := Apply(t, Store(0, EOI));
    if f.emitted != [] {
      var rest := Rest(Last(f.emitted), size);
      assert rest != [] ==> Lent(t')[..|rest|] == Lent(t)[..|rest|][0 := EOI] == rest[0 := EOI];
    }
  }

  lemma ByteWritten(t0: Table, c: Cutter, t: Table, f: Framer, b: Byte, size: nat)
    requires Along(t0, c, t, f, size) && f.header && !(b == EOI && c.temp == MARK) && c.i < size
    ensures Written(t0, Apply(t, Store(c.i, b)), Feed(f, b), size)
  {
    PartGrows(f.newImage, b, c.i, size);
    StoreBehind(t, c.i, b, size);
  }

  /** A full buffer goes out, and the next byte starts the next one. */
  lemma FullOut(t: Table, frame: seq<Byte>, b: Byte, size: nat)
    requires Sized(t, size) && size >= 1 && |Rest(frame, size)| == size && Lent(t)[..size] == Rest(frame, size)
    ensures var t' := Apply(Apply(t, Release), Store(0, b));
      && Sized(t', size) && Flatten(t'.flushed) == Flatten(t.flushed) + Rest(frame, size)
      && |Lent(t')| == size && Lent(t')[..1] == [b]
  {
    ReleaseAll(t, size);
    StoreBehind(Apply(t, Release), 0, b, size);
    assert Lent(t) == Lent(t)[..size];
  }

  lemma BufferWritten(t0: Table, t: Table, f: Framer, b: Byte, size: nat)
    requires size >= 2 && Written(t0, t, f, size) && f.header && size <= |f.newImage| && (|f.newImage| - size) % size == 0
    ensures Written(t0, Apply(Apply(t, Release), Store(0, b)), Framer(b, true, f.newImage + [b], f.emitted), size)
  {
    var sent := Flatten(t0.flushed) + Wholes(f.emitted, size);
    PartFull(f.newImage, b, size);
    FullOut(t, f.newImage, b, size);
    assert sent + Whole(f.newImage, size) + Rest(f.newImage, size) == sent + (Whole(f.newImage, size) + Rest(f.newImage, size));
  }

  lemma StartWritten(t0: Table, c: Cutter, t: Table, f: Framer, size: nat)
    requires Along(t0, c, t, f, size) && !f.header && c.temp == MARK
    ensures Written(t0, Apply(Apply(t, Store(0, MARK)), Store(1, SOI)), Feed(f, SOI), size)
  {
    var t1 := Apply(t, Store(0, MARK));
    StoreBehind(t, 0, MARK, size);
    StoreBehind(t1, 1, SOI, size);
    LastPartIs(2, 2, size);
    assert [] + [f.temp, SOI] == [MARK] + [SOI];
  }

  lemma ByteAlong(t0: Table, c: Cutter, t: Table, f: Framer, b: Byte, size: nat)
    requires Along(t0, c, t, f, size) && InBounds(CutByte(c, b, size).ops, size)
    ensures Written(t0, Cut(t, c, b, size), Feed(f, b), size)
  {
    if b == EOI && c.temp == MARK {
      InBoundsConcat(c.ops, [Store(c.i, EOI)], size);
      OneStore(c.i, EOI, size);
      if f.header {
        FrameWritten(t0, c, t, f, size);
      } else {
        StrayWritten(t0, c, t, f, size);
      }
    } else if f.header {
      if c.i < size {
        ByteWritten(t0, c, t, f, b, size);
      } else {
        BufferWritten(t0, t, f, b, size);
      }
    } else if b == SOI && c.temp == MARK {
      StartWritten(t0, c, t, f, size);
    }
  }

  lemma {:induction false} AllAlong(t0: Table, fifo: seq<Byte>, size: nat)
    requires size >= 2 && Sized(t0, size) && InBounds(CutAll(fifo, size).ops, size)
    ensures Along(t0, CutAll(fifo, size), ApplyAll(t0, CutAll(fifo, size).ops), FeedAll(START, fifo), size)
    decreases |fifo|
  {
    RunTogether(fifo, size);
    if fifo == [] {
      ApplyOne(t0, Acquire);
    } else {
      var c, b := CutAll(Init(fifo), size), Last(fifo);
      CutAdds(c, b, size);
      InBoundsConcat(c.ops, Added(c, b, size), size);
      AllAlong(t0, Init(fifo), size);
      ByteAlong(t0, c, ApplyAll(t0, c.ops), FeedAll(START, Init(fifo)), b, size);
      AfterByte(t0, c, b, size);
    }
  }

  /**
  Whatever the camera FIFO holds, if the capture stays in bounds: of every frame in it the
  whole buffers go out, in order; then those of a frame cut off at the end, if there is
  one; and then one more buffer, which starts with the rest of that frame, or else with
  the rest of the last complete one.  So of several frames in one capture all but the
  last lose their last part.
  */
  lemma CaptureOnWire(t0: Table, fifo: seq<Byte>, size: nat) returns (buf: seq<Byte>)
    requires size >= 2 && Sized(t0, size) && AllFit(Frames(fifo), size)
    ensures var t, f := ApplyAll(t0, Script(fifo, size)), FeedAll(START, fifo);
      && Sized(t, size) && |buf| == size
      && Flatten(t.flushed) == Flatten(t0.flushed) + Wholes(Frames(fifo), size) + Whole(f.newImage, size) + buf
      && (f.newImage != [] ==> Rest(f.newImage, size) <= buf)
      && (f.newImage == [] && Frames(fifo) != [] ==> Heads(Rest(Last(Frames(fifo)), size), buf))
  {
    var c := CutAll(fifo, size);
    RunTogether(fifo, size);
    AllAlong(t0, fifo, size);
    var a := ApplyAll(t0, c.ops);
    buf := Lent(a);
    ApplyConcat(t0, c.ops, [Release]);
    ApplyOne(a, Release);
    ReleaseAll(a, size);
  }
}
