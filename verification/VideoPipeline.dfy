/**
The whole video link: camera task, ping-pong buffers, socket and client, for any
list of captures, any interleaving and any chunking of the received bytes.
*/
module VideoPipeline {
  import opened Common
  import opened JpegFramer
  import opened Sequences
  import opened CameraCutter
  import PingPong
  import PingPongProgress

  /* ---- The client on one frame and on the stale bytes behind it ---- */

  ghost predicate Resting(f: Framer) { !f.header && f.newImage == [] }

  lemma {:induction false} FeedPart(f: Framer, frame: seq<Byte>, j: nat)
    requires Resting(f) && OneFrame(frame) && 2 <= j < |frame|
    ensures FeedAll(f, frame[..j]) == Framer(frame[j - 1], true, frame[..j], f.emitted)
  {
    assert frame[..j] == frame[..j - 1] + [frame[j - 1]];
    FeedOne(f, frame[..j - 1], frame[j - 1]);
    if j == 2 {
      assert frame[..1] == [] + [MARK];
      FeedOne(f, [], MARK);
    } else {
      FeedPart(f, frame, j - 1);
      assert !EoiAt(frame, j - 2);
    }
  }

  lemma FeedFrame(f: Framer, frame: seq<Byte>)
    requires Resting(f) && OneFrame(frame)
    ensures FeedAll(f, frame) == Framer(EOI, false, [], f.emitted + [frame])
  {
    var j := |frame| - 1;
    FeedPart(f, frame, j);
    assert frame == frame[..j] + [EOI];
    FeedOne(f, frame[..j], EOI);
  }

  lemma {:induction false} FeedQuiet(f: Framer, tail: seq<Byte>)
    requires Resting(f) && NoSoi(tail) && !(f.temp == MARK && tail != [] && tail[0] == SOI)
    ensures Resting(FeedAll(f, tail)) && FeedAll(f, tail).emitted == f.emitted
    ensures FeedAll(f, tail).temp == (if tail == [] then f.temp else Last(tail))
    decreases |tail|
  {
    if tail != [] {
      forall k ensures !SoiAt(Init(tail), k) {
        assert !SoiAt(tail, k);
      }
      FeedQuiet(f, Init(tail));
      assert !SoiAt(tail, |tail| - 2);
    }
  }

  /* ---- A list of captures ---- */

  ghost predicate Usable(caps: seq<Capture>, size: nat) {
    size >= 2 && forall k :: 0 <= k < |caps| ==>
      WellFormed(caps[k]) && |caps[k].frame| % size != 1 && Intact(caps[k], size)
  }

  function Scripts(caps: seq<Capture>, size: nat): seq<Op>
    decreases |caps|
  {
    if caps == [] then [] else Scripts(Init(caps), size) + Script(Last(caps).Fifo(), size)
  }

  function Pictures(caps: seq<Capture>): seq<seq<Byte>> {
    seq(|caps|, k requires 0 <= k < |caps| => caps[k].frame)
  }

  /** The stream handed over so far frames into these pictures, and the table is ready for more. */
  ghost predicate Framed(t: Table, pictures: seq<seq<Byte>>, size: nat) {
    var f := FeedAll(START, Flatten(t.flushed));
    TableOk(t, size) && Resting(f) && f.emitted == pictures
  }

  lemma CaptureFramed(t: Table, pictures: seq<seq<Byte>>, cap: Capture, size: nat)
    requires Framed(t, pictures, size) && size >= 2 && WellFormed(cap) && |cap.frame| % size != 1 && Intact(cap, size)
    ensures Framed(ApplyAll(t, Script(cap.Fifo(), size)), pictures + [cap.frame], size)
  {
    var tail := CaptureCut(t, cap, size);
    FrameThenTail(Flatten(t.flushed), cap.frame, tail);
  }

  lemma OneMoreCapture(t: Table, caps: seq<Capture>, cap: Capture, size: nat)
    requires |t.bufs| > 0
    ensures ApplyAll(t, Scripts(caps + [cap], size)) == ApplyAll(ApplyAll(t, Scripts(caps, size)), Script(cap.Fifo(), size))
    ensures Pictures(caps + [cap]) == Pictures(caps) + [cap.frame]
  {
    assert Init(caps + [cap]) == caps;
    ApplyConcat(t, Scripts(caps, size), Script(cap.Fifo(), size));
  }

  /** Run alone, the camera task produces a stream whose images are the captured frames. */
  lemma {:induction false} CapturesFramed(t: Table, caps: seq<Capture>, size: nat)
    requires TableOk(t, size) && t.flushed == [] && Usable(caps, size)
    ensures Framed(ApplyAll(t, Scripts(caps, size)), Pictures(caps), size)
    decreases |caps|
  {
    if caps != [] {
      var earlier, cap := Init(caps), Last(caps);
      CapturesFramed(t, earlier, size);
      assert caps == earlier + [cap];
      OneMoreCapture(t, earlier, cap, size);
      CaptureFramed(ApplyAll(t, Scripts(earlier, size)), Pictures(earlier), cap, size);
    }
  }

  lemma FrameThenTail(s: seq<Byte>, frame: seq<Byte>, tail: seq<Byte>)
    requires Resting(FeedAll(START, s)) && OneFrame(frame) && NoSoi(tail)
    ensures var f := FeedAll(START, s + frame + tail);
      Resting(f) && f.emitted == Frames(s) + [frame]
  {
    FeedConcat(START, s + frame, tail);
    FeedConcat(START, s, frame);
    FeedFrame(FeedAll(START, s), frame);
    FeedQuiet(FeedAll(START, s + frame), tail);
  }

  /* ---- The camera task uses the buffer table as it is meant to be used ---- */

  ghost predicate Begun(ops: seq<Op>) {
    && ops != [] && !Last(ops).Release?
    && forall k :: 0 <= k < |ops| ==> PingPong.NestedAt(ops, k)
  }

  lemma {:induction false} ScanBegun(fifo: seq<Byte>, size: nat)
    ensures Begun(CutAll(fifo, size).ops)
    decreases |fifo|
  {
    if fifo != [] {
      ScanBegun(Init(fifo), size);
      var ops, ops' := CutAll(Init(fifo), size).ops, CutAll(fifo, size).ops;
      forall k | 0 <= k < |ops'| ensures PingPong.NestedAt(ops', k) {
        assert k < |ops| ==> PingPong.NestedAt(ops, k);
      }
    }
  }

  lemma NestedConcat(a: seq<Op>, b: seq<Op>)
    requires PingPong.WellNested(a) && PingPong.WellNested(b)
    ensures PingPong.WellNested(a + b)
  {
    forall k | 0 <= k < |a + b| ensures PingPong.NestedAt(a + b, k) {
      if k < |a| {
        assert PingPong.NestedAt(a, k);
      } else {
        assert PingPong.NestedAt(b, k - |a|);
        assert k == |a| > 0 ==> (a + b)[k - 1] == Last(a);
      }
    }
  }

  lemma ScriptNested(fifo: seq<Byte>, size: nat)
    ensures PingPong.WellNested(Script(fifo, size))
  {
    ScanBegun(fifo, size);
    var ops := CutAll(fifo, size).ops;
    var all := Script(fifo, size);
    forall k | 0 <= k < |all| ensures PingPong.NestedAt(all, k) {
      if k < |ops| {
        assert PingPong.NestedAt(ops, k);
      } else {
        assert all[k] == Release && all[k - 1] == Last(ops);
      }
    }
    assert Last(all) == Release;
  }

  lemma {:induction false} ScriptsNested(caps: seq<Capture>, size: nat)
    ensures PingPong.WellNested(Scripts(caps, size))
    decreases |caps|
  {
    if caps != [] {
      ScriptsNested(Init(caps), size);
      ScriptNested(Last(caps).Fifo(), size);
      NestedConcat(Scripts(Init(caps), size), Script(Last(caps).Fifo(), size));
    }
  }

  /* ---- End to end ---- */

  lemma {:induction false} FlushedGrows(t: Table, ops: seq<Op>, k: nat)
    requires |t.bufs| > 0 && k <= |ops|
    ensures Flatten(ApplyAll(t, ops[..k]).flushed) <= Flatten(ApplyAll(t, ops).flushed)
    decreases |ops|
  {
    if k < |ops| {
      FlushedGrows(t, Init(ops), k);
      assert Init(ops)[..k] == ops[..k];
      var m := ApplyAll(t, Init(ops));
      FlattenOne(m.flushed, Lent(m));
    } else {
      assert ops[..k] == ops;
    }
  }

  function ZeroBuffers(num: nat, size: nat): seq<seq<Byte>> {
    seq(num, _ => seq(size, _ => 0))
  }

  /**
  End to end.  Take any list of captures that each hold one frame whose length is
  not one more than whole buffers, any number of buffers, and any interleaving of
  camera task and socket.  Whatever part of the sent bytes the client has received,
  in whatever chunks, it has emitted the first captured frames, in order and
  nothing else; and once neither task can move and everything sent has arrived,
  it has emitted all of them.
  */
  lemma VideoEndToEnd(num: nat, size: nat, caps: seq<Capture>, schedule: seq<PingPong.Side>, chunks: seq<seq<Byte>>)
    requires num >= 1 && Usable(caps, size)
    requires Flatten(chunks) <= PingPong.Run(PingPong.Start(ZeroBuffers(num, size), Scripts(caps, size)), schedule, size).out
    ensures var s := PingPong.Run(PingPong.Start(ZeroBuffers(num, size), Scripts(caps, size)), schedule, size);
      && Frames(Flatten(chunks)) <= Pictures(caps)
      && (PingPong.Stuck(s, size) && Flatten(chunks) == s.out ==> Frames(Flatten(chunks)) == Pictures(caps))
  {
    var bufs, ops := ZeroBuffers(num, size), Scripts(caps, size);
    var t := Table(bufs, []);
    var s0 := PingPong.Start(bufs, ops);
    var s := PingPong.Run(s0, schedule, size);
    ScriptsNested(caps, size);
    PingPong.StartInv(bufs, ops, size);
    PingPong.RunInv(s0, bufs, schedule, size);
    PingPong.OutPrefix(s, size);
    CapturesFramed(t, caps, size);
    FlushedGrows(t, ops, s.next);
    FramesPrefix(Flatten(chunks), Flatten(ApplyAll(t, ops).flushed));
    if PingPong.Stuck(s, size) {
      PingPong.StuckIsDone(s, bufs, size);
      assert ops[..s.next] == ops;
    }
  }

  /** The link with its script, before either task has moved. */
  function Link(num: nat, size: nat, caps: seq<Capture>): PingPong.State {
    PingPong.Start(ZeroBuffers(num, size), Scripts(caps, size))
  }

  lemma LinkInv(num: nat, size: nat, caps: seq<Capture>)
    requires num >= 1
    ensures PingPong.Inv(Link(num, size, caps), ZeroBuffers(num, size), size)
  {
    ScriptsNested(caps, size);
    PingPong.StartInv(ZeroBuffers(num, size), Scripts(caps, size), size);
  }

  /** However the tasks are scheduled, only so many turns have an effect. */
  lemma LinkBounded(num: nat, size: nat, caps: seq<Capture>, schedule: seq<PingPong.Side>)
    requires num >= 1
    ensures PingPong.Shape(Link(num, size, caps), size)
    ensures PingPongProgress.Changes(Link(num, size, caps), schedule, size) <= PingPongProgress.Bound(|Scripts(caps, size)|, size)
  {
    LinkInv(num, size, caps);
    ScriptsNested(caps, size);
    PingPongProgress.BoundedWork(ZeroBuffers(num, size), Scripts(caps, size), schedule, size);
  }

  /** And whatever has happened so far, some continuation brings every captured frame to the client. */
  lemma VideoCompletes(num: nat, size: nat, caps: seq<Capture>, schedule: seq<PingPong.Side>) returns (longer: seq<PingPong.Side>)
    requires num >= 1 && Usable(caps, size) && PingPong.Shape(Link(num, size, caps), size)
    ensures schedule <= longer
    ensures PingPongProgress.Changes(Link(num, size, caps), longer, size) <= PingPongProgress.Bound(|Scripts(caps, size)|, size)
    ensures var s := PingPong.Run(Link(num, size, caps), longer, size);
      PingPong.Stuck(s, size) && Frames(s.out) == Pictures(caps)
  {
    LinkInv(num, size, caps);
    longer := PingPongProgress.CanFinish(Link(num, size, caps), ZeroBuffers(num, size), schedule, size);
    LinkBounded(num, size, caps, longer);
    Received(num, size, caps, longer);
  }

  lemma Received(num: nat, size: nat, caps: seq<Capture>, schedule: seq<PingPong.Side>)
    requires num >= 1 && Usable(caps, size) && PingPong.Shape(Link(num, size, caps), size)
    requires PingPong.Stuck(PingPong.Run(Link(num, size, caps), schedule, size), size)
    ensures Frames(PingPong.Run(Link(num, size, caps), schedule, size).out) == Pictures(caps)
  {
    var out := PingPong.Run(Link(num, size, caps), schedule, size).out;
    FlattenSingle(out);
    VideoEndToEnd(num, size, caps, schedule, [out]);
  }
}
