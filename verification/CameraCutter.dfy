/**
The robot side of the video link: camCapture scans a camera FIFO for one JPEG
frame and cuts it into fixed-size buffers that are reused without being cleared,
so the last buffer of a frame goes out with a stale tail.
*/
module CameraCutter {
  import opened Common
  import opened JpegFramer
  import opened Sequences

  /** What camCapture does to the buffer table, in order. */
  datatype Op = Acquire | Store(i: nat, b: Byte) | Release

  /** The camera buffers and the contents of each buffer as it was handed over. */
  datatype Table = Table(bufs: seq<seq<Byte>>, flushed: seq<seq<Byte>>)

  /** The buffer lent to the writer: buffers are used in turn. */
  function Slot(t: Table): nat
    requires |t.bufs| > 0
  {
    |t.flushed| % |t.bufs|
  }

  function Lent(t: Table): seq<Byte>
    requires |t.bufs| > 0
  {
    t.bufs[Slot(t)]
  }

  /** A store past the end of the lent buffer is outside the table. */
  function Apply(t: Table, op: Op): (r: Table)
    requires |t.bufs| > 0
    ensures |r.bufs| == |t.bufs|
  {
    match op
    case Acquire => t
    case Store(i, b) =>
      if i < |Lent(t)| then t.(bufs := t.bufs[Slot(t) := Lent(t)[i := b]]) else t
    case Release => t.(flushed := t.flushed + [Lent(t)])
  }

  function ApplyAll(t: Table, ops: seq<Op>): (r: Table)
    requires |t.bufs| > 0
    ensures |r.bufs| == |t.bufs|
    decreases |ops|
  {
    if ops == [] then t else Apply(ApplyAll(t, Init(ops)), Last(ops))
  }

  lemma {:induction false} ApplyConcat(t: Table, a: seq<Op>, b: seq<Op>)
    requires |t.bufs| > 0
    ensures ApplyAll(t, a + b) == ApplyAll(ApplyAll(t, a), b)
    decreases |b|
  {
    if b == [] {
      assert a + b == a;
    } else {
      assert Init(a + b) == a + Init(b);
      ApplyConcat(t, a, Init(b));
    }
  }

  /* ---- The scan loop ---- */

  datatype Cutter = Cutter(temp: Byte, isHeader: bool, i: nat, ops: seq<Op>)

  /** One pass of the loop over the camera FIFO. */
  function CutByte(c: Cutter, b: Byte, size: nat): Cutter {
    var c1 :=
      if b == EOI && c.temp == MARK then Cutter(b, false, 0, c.ops + [Store(c.i, b)]) else c.(temp := b);
    if c1.isHeader then
      if c1.i < size then c1.(i := c1.i + 1, ops := c1.ops + [Store(c1.i, b)])
      else c1.(i := 1, ops := c1.ops + [Release, Acquire, Store(0, b)])
    else if b == SOI && c.temp == MARK then
      c1.(isHeader := true, i := c1.i + 2, ops := c1.ops + [Store(c1.i, c.temp), Store(c1.i + 1, b)])
    else c1
  }

  function CutAll(fifo: seq<Byte>, size: nat): Cutter
    decreases |fifo|
  {
    if fifo == [] then Cutter(0, false, 0, [Acquire]) else CutByte(CutAll(Init(fifo), size), Last(fifo), size)
  }

  /** Everything one call of camCapture does. */
  function Script(fifo: seq<Byte>, size: nat): seq<Op> { CutAll(fifo, size).ops + [Release] }

  predicate InBounds(ops: seq<Op>, size: nat) {
    forall k :: 0 <= k < |ops| && ops[k].Store? ==> ops[k].i < size
  }

  /* ---- Captures ---- */

  /** A camera FIFO holding one frame, with other bytes around it. */
  datatype Capture = Capture(pre: seq<Byte>, frame: seq<Byte>, post: seq<Byte>) {
    function Fifo(): seq<Byte> { pre + frame + post }
  }

  ghost predicate NoSoi(s: seq<Byte>) { forall k :: !SoiAt(s, k) }

  /** One SOI, at the start; one EOI, at the end. */
  ghost predicate OneFrame(s: seq<Byte>) {
    && |s| >= 4
    && SoiAt(s, 0) && (forall k :: k != 0 ==> !SoiAt(s, k))
    && EoiAt(s, |s| - 2) && (forall k :: k != |s| - 2 ==> !EoiAt(s, k))
  }

  ghost predicate WellFormed(c: Capture) {
    NoSoi(c.pre) && OneFrame(c.frame) && NoSoi(c.post)
  }

  /** No SOI pair except perhaps at the very start. */
  ghost predicate Clean(buf: seq<Byte>, from: nat) { forall k :: from <= k ==> !SoiAt(buf, k) }

  ghost predicate TableOk(t: Table, size: nat) {
    && |t.bufs| > 0
    && forall k :: 0 <= k < |t.bufs| ==> |t.bufs[k]| == size && Clean(t.bufs[k], 1)
  }

  lemma ApplyOne(t: Table, op: Op)
    requires |t.bufs| > 0
    ensures ApplyAll(t, [op]) == Apply(t, op)
  {
    assert Init([op]) == [];
  }

  /* ---- Before the frame ---- */

  /** Outside a frame: nothing handed over, and any stray byte went to index 0. */
  ghost predicate Outside(t0: Table, c: Cutter, size: nat)
    requires |t0.bufs| > 0
  {
    && !c.isHeader && c.i == 0 && InBounds(c.ops, size)
    && ApplyAll(t0, c.ops).flushed == t0.flushed && TableOk(ApplyAll(t0, c.ops), size)
  }

  lemma StoreFirst(t: Table, b: Byte, size: nat)
    requires TableOk(t, size) && size >= 2
    ensures TableOk(Apply(t, Store(0, b)), size)
  {
    var t' := Apply(t, Store(0, b));
    forall k | 0 <= k < |t'.bufs| ensures |t'.bufs[k]| == size && Clean(t'.bufs[k], 1) {
      forall j | 1 <= j ensures !SoiAt(t'.bufs[k], j) {
        assert !SoiAt(t.bufs[k], j);
      }
    }
  }

  lemma OutsideByte(t0: Table, c: Cutter, b: Byte, size: nat)
    requires |t0.bufs| > 0 && size >= 2 && Outside(t0, c, size) && !(b == SOI && c.temp == MARK)
    ensures Outside(t0, CutByte(c, b, size), size) && CutByte(c, b, size).temp == b
  {
    if b == EOI && c.temp == MARK {
      ApplyConcat(t0, c.ops, [Store(0, b)]);
      ApplyOne(ApplyAll(t0, c.ops), Store(0, b));
      StoreFirst(ApplyAll(t0, c.ops), b, size);
    }
  }

  lemma {:induction false} BeforeFrame(t: Table, pre: seq<Byte>, size: nat)
    requires TableOk(t, size) && size >= 2 && NoSoi(pre)
    ensures Outside(t, CutAll(pre, size), size)
    ensures CutAll(pre, size).temp == (if pre == [] then 0 else Last(pre))
    decreases |pre|
  {
    if pre == [] {
      ApplyOne(t, Acquire);
    } else {
      forall k ensures !SoiAt(Init(pre), k) {
        assert !SoiAt(pre, k);
      }
      BeforeFrame(t, Init(pre), size);
      assert !SoiAt(pre, |pre| - 2);
      OutsideByte(t, CutAll(Init(pre), size), Last(pre), size);
    }
  }

  /* ---- Inside the frame ---- */

  /** The lent buffer starts with chunk; what follows it, and every other buffer, is stale but free of SOI. */
  ghost predicate Filling(t: Table, size: nat, chunk: seq<Byte>) {
    && |t.bufs| > 0 && |chunk| <= size
    && (forall k :: 0 <= k < |t.bufs| ==> |t.bufs[k]| == size)
    && (forall k :: 0 <= k < |t.bufs| && k != Slot(t) ==> Clean(t.bufs[k], 1))
    && Lent(t)[..|chunk|] == chunk && Clean(Lent(t), |chunk|)
  }

  lemma StoreNext(t: Table, size: nat, chunk: seq<Byte>, b: Byte)
    requires Filling(t, size, chunk) && |chunk| < size
    ensures Filling(Apply(t, Store(|chunk|, b)), size, chunk + [b])
  {
    var t' := Apply(t, Store(|chunk|, b));
    assert Lent(t')[..|chunk| + 1] == chunk + [b];
    forall k | |chunk| + 1 <= k ensures !SoiAt(Lent(t'), k) {
      assert !SoiAt(Lent(t), k);
    }
  }

  /** A filled buffer without a second SOI leaves the whole table free of stray SOIs. */
  lemma Filled(t: Table, size: nat, chunk: seq<Byte>)
    requires Filling(t, size, chunk) && Clean(chunk, 1)
    requires chunk != [] && (|chunk| < size ==> Last(chunk) != MARK)
    ensures TableOk(t, size)
  {
    forall k | 1 <= k ensures !SoiAt(Lent(t), k) {
      if k < |chunk| {
        assert Lent(t)[k] == chunk[k];
        assert k + 1 < |chunk| ==> Lent(t)[k + 1] == chunk[k + 1];
        assert !SoiAt(chunk, k);
      }
    }
    forall k | 0 <= k < |t.bufs| ensures |t.bufs[k]| == size && Clean(t.bufs[k], 1) {
    }
  }

  lemma StartChunk(t: Table, size: nat, b: Byte)
    requires size >= 1 && TableOk(t, size)
    ensures Filling(Apply(t, Store(0, b)), size, [b])
  {
    var t' := Apply(t, Store(0, b));
    assert Lent(t')[..1] == [b];
    forall k | 1 <= k ensures !SoiAt(Lent(t'), k) {
      assert !SoiAt(Lent(t), k);
    }
  }

  lemma ReleaseFull(t: Table, size: nat, chunk: seq<Byte>)
    requires size >= 1 && Filling(t, size, chunk) && |chunk| == size && Clean(chunk, 1)
    ensures TableOk(Apply(t, Release), size) && Apply(t, Release).flushed == t.flushed + [chunk]
  {
    Filled(t, size, chunk);
    assert Lent(t) == chunk;
  }

  lemma TurnOver(t: Table, size: nat, chunk: seq<Byte>, b: Byte)
    requires size >= 1 && Filling(t, size, chunk) && |chunk| == size && Clean(chunk, 1)
    ensures var t' := ApplyAll(t, [Release, Acquire, Store(0, b)]);
      Filling(t', size, [b]) && t'.flushed == t.flushed + [chunk]
  {
    var t1 := Apply(t, Release);
    ReleaseFull(t, size, chunk);
    StartChunk(t1, size, b);
    assert Init([Release, Acquire, Store(0, b)]) == [Release, Acquire];
    assert Init([Release, Acquire]) == [Release];
    ApplyOne(t, Release);
  }

  /** j bytes of the frame have been scanned: whole buffers handed over, the rest in the lent one. */
  ghost predicate Inside(t0: Table, c: Cutter, frame: seq<Byte>, j: nat, size: nat)
    requires |t0.bufs| > 0
  {
    var t := ApplyAll(t0, c.ops);
    && 2 <= j < |frame| && c.isHeader && 1 <= c.i <= size && c.i <= j && c.temp == frame[j - 1]
    && InBounds(c.ops, size)
    && (j - c.i) % size == 0
    && Filling(t, size, frame[j - c.i..j])
    && Flatten(t.flushed) == Flatten(t0.flushed) + frame[..j - c.i]
  }

  lemma EnterFrame(t0: Table, c: Cutter, frame: seq<Byte>, size: nat)
    requires |t0.bufs| > 0 && size >= 2 && Outside(t0, c, size) && OneFrame(frame)
    ensures Inside(t0, CutByte(CutByte(c, MARK, size), SOI, size), frame, 2, size)
  {
    var c1 := CutByte(c, MARK, size);
    OutsideByte(t0, c, MARK, size);
    var t := ApplyAll(t0, c1.ops);
    var c2 := CutByte(c1, SOI, size);
    ApplyConcat(t0, c1.ops, [Store(0, MARK), Store(1, SOI)]);
    assert Init([Store(0, MARK), Store(1, SOI)]) == [Store(0, MARK)];
    ApplyOne(t, Store(0, MARK));
    StartChunk(t, size, MARK);
    StoreNext(Apply(t, Store(0, MARK)), size, [MARK], SOI);
    assert frame[0..2] == [MARK] + [SOI];
    assert Flatten(t0.flushed) + frame[..0] == Flatten(t0.flushed);
    assert 0 % size == 0;
  }

  /** A part of the frame that starts later than its SOI holds no SOI; one that starts with it, only that. */
  lemma ChunkClean(frame: seq<Byte>, a: nat, b: nat)
    requires OneFrame(frame) && a <= b <= |frame|
    ensures Clean(frame[a..b], 1)
  {
    forall k | 1 <= k ensures !SoiAt(frame[a..b], k) {
      assert !SoiAt(frame, a + k);
    }
  }

  lemma InsideByte(t0: Table, c: Cutter, frame: seq<Byte>, j: nat, size: nat)
    requires |t0.bufs| > 0 && size >= 2 && OneFrame(frame)
    requires Inside(t0, c, frame, j, size) && j + 1 < |frame|
    ensures Inside(t0, CutByte(c, frame[j], size), frame, j + 1, size)
  {
    assert !EoiAt(frame, j - 1);
    if c.i < size {
      InsideSame(t0, c, frame, j, size);
    } else {
      InsideNext(t0, c, frame, j, size);
    }
  }

  lemma InsideSame(t0: Table, c: Cutter, frame: seq<Byte>, j: nat, size: nat)
    requires |t0.bufs| > 0 && size >= 2 && Inside(t0, c, frame, j, size) && j + 1 < |frame|
    requires c.i < size && !EoiAt(frame, j - 1)
    ensures Inside(t0, CutByte(c, frame[j], size), frame, j + 1, size)
  {
    var t, b := ApplyAll(t0, c.ops), frame[j];
    ApplyConcat(t0, c.ops, [Store(c.i, b)]);
    ApplyOne(t, Store(c.i, b));
    StoreNext(t, size, frame[j - c.i..j], b);
    assert frame[j - c.i..j + 1] == frame[j - c.i..j] + [b];
  }

  lemma NextOps(c: Cutter, b: Byte, size: nat)
    requires c.isHeader && c.i == size && !(b == EOI && c.temp == MARK)
    ensures CutByte(c, b, size) == Cutter(b, true, 1, c.ops + [Release, Acquire, Store(0, b)])
  {
  }

  /** A full buffer goes out, and the next byte starts the next one. */
  lemma NextTable(t: Table, frame: seq<Byte>, j: nat, size: nat)
    requires size >= 2 && OneFrame(frame) && size <= j < |frame| && Filling(t, size, frame[j - size..j])
    ensures var t' := ApplyAll(t, [Release, Acquire, Store(0, frame[j])]);
      && Filling(t', size, frame[j..j + 1])
      && Flatten(t'.flushed) == Flatten(t.flushed) + frame[j - size..j]
  {
    var chunk := frame[j - size..j];
    ChunkClean(frame, j - size, j);
    TurnOver(t, size, chunk, frame[j]);
    FlattenOne(t.flushed, chunk);
    assert frame[j..j + 1] == [frame[j]];
  }

  /** Handing over a chunk completes the bytes handed over so far to the first j of the frame. */
  lemma ChunkOut(before: seq<Byte>, frame: seq<Byte>, j: nat, size: nat)
    requires size <= j <= |frame|
    ensures before + frame[..j - size] + frame[j - size..j] == before + frame[..j]
  {
    assert frame[..j - size] + frame[j - size..j] == frame[..j];
  }

  lemma NextInBounds(ops: seq<Op>, b: Byte, size: nat)
    requires InBounds(ops, size) && size >= 1
    ensures InBounds(ops + [Release, Acquire, Store(0, b)], size)
  {
  }

  lemma InsideNext(t0: Table, c: Cutter, frame: seq<Byte>, j: nat, size: nat)
    requires |t0.bufs| > 0 && size >= 2 && OneFrame(frame) && Inside(t0, c, frame, j, size) && j + 1 < |frame|
    requires c.i == size && !EoiAt(frame, j - 1)
    ensures Inside(t0, CutByte(c, frame[j], size), frame, j + 1, size)
  {
    var t, ops := ApplyAll(t0, c.ops), [Release, Acquire, Store(0, frame[j])];
    NextOps(c, frame[j], size);
    NextInBounds(c.ops, frame[j], size);
    ApplyConcat(t0, c.ops, ops);
    NextTable(t, frame, j, size);
    ChunkOut(Flatten(t0.flushed), frame, j, size);
    WholeBuffers(j - size, size);
  }

  lemma WholeBuffers(a: nat, size: nat)
    requires size >= 1 && a % size == 0
    ensures (a + size) % size == 0
  {
    ModAdd(a, size, size);
    ModUnique(size, size, 1, 0);
  }

  /** The EOI goes into the lent buffer, unless that is full: exactly when the length is 1 more than whole buffers. */
  lemma FrameLength(frame: seq<Byte>, i: nat, size: nat)
    requires size >= 2 && 1 <= i <= size && i < |frame| && (|frame| - 1 - i) % size == 0
    ensures i < size <==> |frame| % size != 1
  {
    ModAdd(|frame| - 1 - i, i + 1, size);
    if i == size {
      ModUnique(size + 1, size, 1, 1);
    } else if i + 1 == size {
      ModUnique(size, size, 1, 0);
    } else {
      ModUnique(i + 1, size, 0, i + 1);
    }
  }

  lemma ScanStart(t: Table, pre: seq<Byte>, frame: seq<Byte>, size: nat)
    requires TableOk(t, size) && size >= 2 && NoSoi(pre) && OneFrame(frame)
    ensures Inside(t, CutAll(pre + frame[..2], size), frame, 2, size)
  {
    BeforeFrame(t, pre, size);
    EnterFrame(t, CutAll(pre, size), frame, size);
    CutStart(pre, frame, size);
  }

  lemma ScanMore(t: Table, pre: seq<Byte>, frame: seq<Byte>, j: nat, size: nat)
    requires |t.bufs| > 0 && size >= 2 && OneFrame(frame) && j + 1 < |frame|
    requires Inside(t, CutAll(pre + frame[..j], size), frame, j, size)
    ensures Inside(t, CutAll(pre + frame[..j + 1], size), frame, j + 1, size)
  {
    CutMore(pre, frame, j, size);
    InsideByte(t, CutAll(pre + frame[..j], size), frame, j, size);
  }

  lemma {:induction false} ScanFrame(t: Table, pre: seq<Byte>, frame: seq<Byte>, j: nat, size: nat)
    requires TableOk(t, size) && size >= 2 && NoSoi(pre) && OneFrame(frame) && 2 <= j < |frame|
    ensures Inside(t, CutAll(pre + frame[..j], size), frame, j, size)
  {
    if j == 2 {
      ScanStart(t, pre, frame, size);
    } else {
      ScanFrame(t, pre, frame, j - 1, size);
      ScanMore(t, pre, frame, j - 1, size);
    }
  }

  lemma CutStart(pre: seq<Byte>, frame: seq<Byte>, size: nat)
    requires SoiAt(frame, 0)
    ensures CutAll(pre + frame[..2], size) == CutByte(CutByte(CutAll(pre, size), MARK, size), SOI, size)
  {
    CutMore(pre, frame, 0, size);
    CutMore(pre, frame, 1, size);
    assert pre + frame[..0] == pre;
  }

  lemma CutMore(pre: seq<Byte>, frame: seq<Byte>, j: nat, size: nat)
    requires j < |frame|
    ensures CutAll(pre + frame[..j + 1], size) == CutByte(CutAll(pre + frame[..j], size), frame[j], size)
  {
    assert Init(pre + frame[..j + 1]) == pre + frame[..j];
  }

  /* ---- End of the frame and after ---- */

  /** The frame is complete: its last part heads the lent buffer, stale bytes without SOI follow. */
  ghost predicate Done(t0: Table, c: Cutter, frame: seq<Byte>, i: nat, size: nat)
    requires |t0.bufs| > 0
  {
    var t := ApplyAll(t0, c.ops);
    && !c.isHeader && 1 <= i <= size && i <= |frame| && (|frame| - i) % size == 0
    && InBounds(c.ops, size) && TableOk(t, size)
    && Flatten(t.flushed) == Flatten(t0.flushed) + frame[..|frame| - i]
    && Lent(t)[..i] == frame[|frame| - i..]
  }

  /** The EOI still fits into the lent buffer. */
  lemma EoiFits(t0: Table, c: Cutter, frame: seq<Byte>, size: nat)
    requires |t0.bufs| > 0 && size >= 2 && OneFrame(frame) && Inside(t0, c, frame, |frame| - 1, size) && c.i < size
    ensures CutByte(c, EOI, size) == Cutter(EOI, false, 0, c.ops + [Store(c.i, EOI)])
    ensures Done(t0, CutByte(c, EOI, size), frame, c.i + 1, size)
  {
    var j := |frame| - 1;
    var a, chunk := ApplyAll(t0, c.ops), frame[j - c.i..j];
    ApplyConcat(t0, c.ops, [Store(c.i, EOI)]);
    ApplyOne(a, Store(c.i, EOI));
    StoreNext(a, size, chunk, EOI);
    assert frame[j - c.i..] == chunk + [EOI];
    ChunkClean(frame, j - c.i, |frame|);
    assert frame[j - c.i..|frame|] == frame[j - c.i..];
    Filled(ApplyAll(t0, c.ops + [Store(c.i, EOI)]), size, chunk + [EOI]);
  }

  /** Scanning the whole frame: either it fits, or the EOI alone falls past the lent buffer. */
  lemma WholeFrame(t: Table, pre: seq<Byte>, frame: seq<Byte>, size: nat) returns (i: nat)
    requires TableOk(t, size) && size >= 2 && NoSoi(pre) && OneFrame(frame)
    ensures var c := CutAll(pre + frame, size);
      && !c.isHeader && c.temp == EOI && c.i == 0
      && (|frame| % size != 1 ==> Done(t, c, frame, i, size))
      && (|frame| % size == 1 ==> c.ops != [] && Last(c.ops) == Store(size, EOI))
  {
    var j := |frame| - 1;
    var s := pre + frame;
    ScanFrame(t, pre, frame, j, size);
    assert Init(s) == pre + frame[..j] && Last(s) == EOI;
    var c := CutAll(Init(s), size);
    FrameLength(frame, c.i, size);
    i := c.i + 1;
    if c.i < size {
      EoiFits(t, c, frame, size);
    }
  }

  /** What n stray EOIs behind the frame do: each is stored at the start of the buffer still lent. */
  function Strays(n: nat): seq<Op> { seq(n, _ => Store(0, EOI)) }

  /** Bytes after the frame touch nothing but, for each stray EOI pair, the first byte of the lent buffer. */
  lemma {:induction false} AfterFrame(pre: seq<Byte>, post: seq<Byte>, size: nat) returns (n: nat)
    requires NoSoi(post)
    requires var c := CutAll(pre, size); !c.isHeader && c.temp == EOI && c.i == 0
    ensures n == 0 <==> forall k :: !EoiAt(post, k)
    ensures var c, c' := CutAll(pre, size), CutAll(pre + post, size);
      && c'.ops == c.ops + Strays(n) && !c'.isHeader && c'.i == 0
      && c'.temp == (if post == [] then EOI else Last(post))
    decreases |post|
  {
    if post == [] {
      n := 0;
      assert pre + post == pre;
    } else {
      var shorter := Init(post);
      assert Init(pre + post) == pre + shorter;
      forall k ensures !SoiAt(shorter, k) && (EoiAt(shorter, k) ==> EoiAt(post, k)) {
        assert !SoiAt(post, k);
      }
      n := AfterFrame(pre, shorter, size);
      assert !SoiAt(post, |post| - 2);
      if EoiAt(post, |post| - 2) {
        assert Strays(n + 1) == Strays(n) + [Store(0, EOI)];
        n := n + 1;
      } else {
        assert forall k :: EoiAt(post, k) ==> EoiAt(shorter, k);
      }
    }
  }

  lemma StoreTwice(t: Table, i: nat, b: Byte)
    requires |t.bufs| > 0
    ensures Apply(Apply(t, Store(i, b)), Store(i, b)) == Apply(t, Store(i, b))
  {
    var t' := Apply(t, Store(i, b));
    if i < |Lent(t)| {
      assert Lent(t')[i := b] == Lent(t');
      assert t'.bufs[Slot(t') := Lent(t')] == t'.bufs;
    }
  }

  lemma {:induction false} ApplyStrays(t: Table, n: nat)
    requires |t.bufs| > 0
    ensures ApplyAll(t, Strays(n)) == if n == 0 then t else Apply(t, Store(0, EOI))
  {
    if n > 0 {
      ApplyStrays(t, n - 1);
      StoreTwice(t, 0, EOI);
      assert Init(Strays(n)) == Strays(n - 1);
    }
  }

  /** Where the last buffer's part of a frame of this length starts. */
  function LastPart(length: nat, size: nat): nat
    requires length >= 1 && size >= 1
  {
    (length - 1) / size * size
  }

  lemma LastPartIs(length: nat, i: nat, size: nat)
    requires 1 <= i <= size && i <= length && (length - i) % size == 0
    ensures LastPart(length, size) == length - i
  {
    ModUnique(length - 1, size, (length - i) / size, i - 1);
  }

  /** The frame as it goes out: a stray EOI has overwritten the first byte of its last part. */
  ghost function Sent(c: Capture, size: nat): (s: seq<Byte>)
    requires size >= 1 && OneFrame(c.frame)
    ensures |s| == |c.frame|
  {
    if forall k :: !EoiAt(c.post, k) then c.frame
    else
      StartsInside(|c.frame|, size);
      c.frame[LastPart(|c.frame|, size) := EOI]
  }

  lemma StartsInside(length: nat, size: nat)
    requires length >= 1 && size >= 1
    ensures LastPart(length, size) < length
  {
  }

  /** No stray EOI, or one that overwrites a byte with itself. */
  ghost predicate Intact(c: Capture, size: nat)
    requires size >= 1 && OneFrame(c.frame)
  {
    (forall k :: !EoiAt(c.post, k)) || (StartsInside(|c.frame|, size); c.frame[LastPart(|c.frame|, size)] == EOI)
  }

  /** Strays leave the table as fit for the next capture as it was. */
  lemma Strayed(t0: Table, c: Cutter, frame: seq<Byte>, i: nat, size: nat, c': Cutter, n: nat)
    requires |t0.bufs| > 0 && size >= 2 && Done(t0, c, frame, i, size) && c'.ops == c.ops + Strays(n) && !c'.isHeader
    requires n > 0 && 0 < |frame| - (|frame| - i)
    ensures Done(t0, c', frame[|frame| - i := EOI], i, size)
  {
    var t := ApplyAll(t0, c.ops);
    ApplyConcat(t0, c.ops, Strays(n));
    ApplyStrays(t, n);
    var t', sent := Apply(t, Store(0, EOI)), frame[|frame| - i := EOI];
    forall k | 1 <= k ensures !SoiAt(Lent(t'), k) {
      assert !SoiAt(Lent(t), k);
    }
    assert sent[..|frame| - i] == frame[..|frame| - i];
    assert sent[|frame| - i..] == frame[|frame| - i..][0 := EOI];
    assert Lent(t')[..i] == Lent(t)[..i][0 := EOI];
  }

  /** Handing over the last buffer completes the frame and adds the stale bytes behind it. */
  lemma ReleaseLast(t0: Table, c: Cutter, frame: seq<Byte>, i: nat, size: nat) returns (tail: seq<Byte>)
    requires |t0.bufs| > 0 && Done(t0, c, frame, i, size)
    ensures var t' := ApplyAll(t0, c.ops + [Release]);
      && TableOk(t', size) && NoSoi(tail)
      && Flatten(t'.flushed) == Flatten(t0.flushed) + frame + tail
  {
    var a := ApplyAll(t0, c.ops);
    var lent := Lent(a);
    tail := lent[i..];
    ApplyConcat(t0, c.ops, [Release]);
    ApplyOne(a, Release);
    FlattenOne(a.flushed, lent);
    Rejoin(Flatten(t0.flushed), frame, |frame| - i, lent);
    forall k ensures !SoiAt(tail, k) {
      assert k >= 0 ==> !SoiAt(lent, i + k);
    }
  }

  lemma Rejoin(sent: seq<Byte>, frame: seq<Byte>, k: nat, lent: seq<Byte>)
    requires k <= |frame| && |frame| - k <= |lent| && lent[..|frame| - k] == frame[k..]
    ensures sent + frame[..k] + lent == sent + frame + lent[|frame| - k..]
  {
    assert lent == frame[k..] + lent[|frame| - k..];
    assert frame == frame[..k] + frame[k..];
  }

  /**
  What one capture puts on the wire: the frame, its last part marked by a stray EOI if
  there is one, then a stale tail that never contains a SOI; and the table is ready for
  the next capture.
  */
  lemma CaptureCut(t: Table, cap: Capture, size: nat) returns (tail: seq<Byte>)
    requires TableOk(t, size) && size >= 2 && WellFormed(cap) && |cap.frame| % size != 1
    ensures var t' := ApplyAll(t, Script(cap.Fifo(), size));
      && TableOk(t', size) && NoSoi(tail)
      && Flatten(t'.flushed) == Flatten(t.flushed) + Sent(cap, size) + tail
    ensures Intact(cap, size) ==> Sent(cap, size) == cap.frame
  {
    var i := WholeFrame(t, cap.pre, cap.frame, size);
    SentIsDone(t, cap, i, size);
    tail := ReleaseLast(t, CutAll(cap.Fifo(), size), Sent(cap, size), i, size);
  }

  lemma SentIs(cap: Capture, i: nat, size: nat, n: nat)
    requires size >= 1 && OneFrame(cap.frame) && 1 <= i <= size && i <= |cap.frame| && (|cap.frame| - i) % size == 0
    requires n == 0 <==> forall k :: !EoiAt(cap.post, k)
    ensures Sent(cap, size) == if n == 0 then cap.frame else cap.frame[|cap.frame| - i := EOI]
  {
    LastPartIs(|cap.frame|, i, size);
  }

  /** Whatever lies behind the frame, what goes out is done. */
  lemma SentIsDone(t: Table, cap: Capture, i: nat, size: nat)
    requires |t.bufs| > 0 && size >= 2 && WellFormed(cap)
    requires var c := CutAll(cap.pre + cap.frame, size);
      c.temp == EOI && c.i == 0 && Done(t, c, cap.frame, i, size)
    ensures Done(t, CutAll(cap.Fifo(), size), Sent(cap, size), i, size)
  {
    var c, c' := CutAll(cap.pre + cap.frame, size), CutAll(cap.Fifo(), size);
    var n := BehindFrame(cap, size);
    SentIs(cap, i, size, n);
    StrayDone(t, c, cap.frame, i, size, c', n);
  }

  lemma BehindFrame(cap: Capture, size: nat) returns (n: nat)
    requires NoSoi(cap.post)
    requires var c := CutAll(cap.pre + cap.frame, size); !c.isHeader && c.temp == EOI && c.i == 0
    ensures n == 0 <==> forall k :: !EoiAt(cap.post, k)
    ensures CutAll(cap.Fifo(), size).ops == CutAll(cap.pre + cap.frame, size).ops + Strays(n)
    ensures !CutAll(cap.Fifo(), size).isHeader
  {
    n := AfterFrame(cap.pre + cap.frame, cap.post, size);
  }

  lemma StrayDone(t0: Table, c: Cutter, frame: seq<Byte>, i: nat, size: nat, c': Cutter, n: nat)
    requires |t0.bufs| > 0 && size >= 2 && Done(t0, c, frame, i, size) && c'.ops == c.ops + Strays(n) && !c'.isHeader
    ensures Done(t0, c', if n == 0 then frame else frame[|frame| - i := EOI], i, size)
  {
    if n > 0 {
      Strayed(t0, c, frame, i, size, c', n);
    } else {
      assert c'.ops == c.ops;
    }
  }

  /** A capture of one frame stays inside the buffers exactly when its length is not one more than whole buffers. */
  lemma CaptureInBounds(cap: Capture, size: nat)
    requires size >= 2 && WellFormed(cap)
    ensures InBounds(Script(cap.Fifo(), size), size) <==> |cap.frame| % size != 1
  {
    var t := Table([seq(size, _ => 0)], []);
    var i := WholeFrame(t, cap.pre, cap.frame, size);
    var n := AfterFrame(cap.pre + cap.frame, cap.post, size);
    var c := CutAll(cap.pre + cap.frame, size);
    assert Script(cap.Fifo(), size) == c.ops + Strays(n) + [Release];
    if |cap.frame| % size == 1 {
      assert Script(cap.Fifo(), size)[|c.ops| - 1] == Store(size, EOI);
    }
  }
}
