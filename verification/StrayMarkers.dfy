/** A stray EOI behind a frame: exactly when the frame still reaches the client. */
module StrayMarkers {
  import opened Common
  import opened Sequences
  import opened JpegFramer
  import opened CameraCutter
  import opened VideoPipeline

  /** Inside an image, the next one to come out starts with what there is of it. */
  lemma {:induction false} NextImage(g: Framer, s: seq<Byte>)
    requires g.header
    ensures var r := FeedAll(g, s);
      || (r.header && r.emitted == g.emitted && g.newImage <= r.newImage)
      || (|r.emitted| > |g.emitted| && g.newImage <= r.emitted[|g.emitted|])
    decreases |s|
  {
    if s != [] {
      NextImage(g, Init(s));
    }
  }

  lemma SpoiledStart(f: Framer, frame: seq<Byte>, tail: seq<Byte>)
    requires Resting(f) && OneFrame(frame) && NoSoi(tail)
    ensures FeedAll(f, frame[0 := EOI] + tail).emitted == f.emitted
  {
    var s := frame[0 := EOI] + tail;
    forall k ensures !SoiAt(s, k) {
      assert !SoiAt(tail, k - |frame|);
      assert k != 0 ==> !SoiAt(frame, k);
    }
    FeedQuiet(f, s);
  }

  /** Up to the spoiled byte the client sees the frame; that byte makes all that follows another image. */
  lemma SpoiledInside(f: Framer, frame: seq<Byte>, k: nat, rest: seq<Byte>)
    requires Resting(f) && OneFrame(frame) && 2 <= k <= |frame| - 2 && frame[k] != EOI
    ensures FeedAll(f, frame[..k] + [EOI] + rest).emitted != f.emitted + [frame]
  {
    var part := frame[..k] + [EOI];
    FeedPart(f, frame, k);
    FeedOne(f, frame[..k], EOI);
    var g := FeedAll(f, part);
    FeedConcat(f, part, rest);
    var r := FeedAll(g, rest);
    assert part[k] == EOI;
    if frame[k - 1] == MARK {
      assert g.emitted == f.emitted + [part];
      FeedGrows(g, rest);
      assert r.emitted[|f.emitted|] == part;
    } else {
      NextImage(g, rest);
      assert (f.emitted + [frame])[|f.emitted|] == frame;
    }
  }

  lemma SpoiledLost(f: Framer, frame: seq<Byte>, k: nat, tail: seq<Byte>)
    requires Resting(f) && OneFrame(frame) && NoSoi(tail) && k != 1 && k <= |frame| - 2 && frame[k] != EOI
    ensures FeedAll(f, frame[k := EOI] + tail).emitted != f.emitted + [frame]
  {
    if k == 0 {
      SpoiledStart(f, frame, tail);
    } else {
      assert frame[k := EOI] + tail == frame[..k] + [EOI] + (frame[k + 1..] + tail);
      SpoiledInside(f, frame, k, frame[k + 1..] + tail);
    }
  }

  lemma LastPartPlace(length: nat, size: nat)
    requires size >= 2 && length >= 4 && length % size != 1
    ensures LastPart(length, size) != 1 && LastPart(length, size) <= length - 2
  {
    var q, r := (length - 1) / size, (length - 1) % size;
    assert length - 1 == q * size + r;
    if r == 0 {
      ModUnique(length, size, q, 1);
    }
    MulStep(0, q, size);
  }

  lemma SpoiledCapture(t: Table, pictures: seq<seq<Byte>>, cap: Capture, size: nat, tail: seq<Byte>)
    requires Framed(t, pictures, size) && size >= 2 && WellFormed(cap) && |cap.frame| % size != 1
    requires !Intact(cap, size) && NoSoi(tail)
    ensures Frames(Flatten(t.flushed) + Sent(cap, size) + tail) != pictures + [cap.frame]
  {
    var before, sent := Flatten(t.flushed), Sent(cap, size);
    LastPartPlace(|cap.frame|, size);
    assert before + sent + tail == before + (sent + tail);
    FeedConcat(START, before, sent + tail);
    SpoiledLost(FeedAll(START, before), cap.frame, LastPart(|cap.frame|, size), tail);
  }

  /** The exact condition: behind a well-formed frame, it comes out if and only if no stray EOI has changed it. */
  lemma ComesOutExactly(t: Table, pictures: seq<seq<Byte>>, cap: Capture, size: nat)
    requires Framed(t, pictures, size) && size >= 2 && WellFormed(cap) && |cap.frame| % size != 1
    ensures Frames(Flatten(ApplyAll(t, Script(cap.Fifo(), size)).flushed)) == pictures + [cap.frame] <==> Intact(cap, size)
  {
    if Intact(cap, size) {
      CaptureFramed(t, pictures, cap, size);
    } else {
      var tail := CaptureCut(t, cap, size);
      SpoiledCapture(t, pictures, cap, size, tail);
    }
  }
}
