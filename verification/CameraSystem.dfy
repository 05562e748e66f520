/**
The camera task on its own and the camera task as the writer of the shared table:
whatever the socket task does meanwhile, both write the same bytes and hand over the
same buffers.
*/
module CameraSystem {
  import opened Common
  import opened Sequences
  import opened CameraCutter
  import CameraTask
  import PingPong
  import PingPongTable
  import VideoPipeline

  /** The script of any number of captures. */
  function ScriptsOf(fifos: seq<seq<Byte>>, size: nat): seq<Op>
    decreases |fifos|
  {
    if fifos == [] then [] else ScriptsOf(Init(fifos), size) + Script(Last(fifos), size)
  }

  lemma {:induction false} ScriptsOfNested(fifos: seq<seq<Byte>>, size: nat)
    ensures PingPong.WellNested(ScriptsOf(fifos, size))
    decreases |fifos|
  {
    if fifos != [] {
      ScriptsOfNested(Init(fifos), size);
      VideoPipeline.ScriptNested(Last(fifos), size);
      VideoPipeline.NestedConcat(ScriptsOf(Init(fifos), size), Script(Last(fifos), size));
    }
  }

  /** The capture loop, called for one FIFO content after the other. */
  method CaptureAll(alone: CameraTask.CameraBuffers, fifos: seq<seq<Byte>>)
    requires alone.Valid()
    requires forall k :: 0 <= k < |fifos| ==> InBounds(Script(fifos[k], alone.data.Length1), alone.data.Length1)
    modifies alone, alone.data
    ensures alone.Valid() && alone.View() == ApplyAll(old(alone.View()), ScriptsOf(fifos, alone.data.Length1))
  {
    ghost var t0, size := alone.View(), alone.data.Length1;
    for n := 0 to |fifos|
      invariant alone.Valid() && alone.View() == ApplyAll(t0, ScriptsOf(fifos[..n], size))
    {
      assert Init(fifos[..n + 1]) == fifos[..n] && Last(fifos[..n + 1]) == fifos[n];
      ApplyConcat(t0, ScriptsOf(fifos[..n], size), Script(fifos[n], size));
      alone.CamCapture(fifos[n]);
    }
    assert fifos[..|fifos|] == fifos;
  }

  /**
  Some captures may be over already, on both tables.  Whatever the scheduler does, the
  shared table always holds what the part of the script done so far makes of the
  initial buffers; the capture loop on its own makes of them what the whole script
  does; so once the writer is through, the two agree.
  */
  method CaptureBeside(alone: CameraTask.CameraBuffers, shared: PingPongTable.BufferTable,
                       ghost bufs0: seq<seq<Byte>>, ghost earlier: seq<Op>, fifos: seq<seq<Byte>>, schedule: seq<PingPong.Side>)
    requires alone.Valid() && alone.data != shared.data && shared.data.Length1 == alone.data.Length1
    requires forall k :: 0 <= k < |fifos| ==> InBounds(Script(fifos[k], alone.data.Length1), alone.data.Length1)
    requires shared.Valid() && PingPong.Inv(shared.View(), bufs0, shared.data.Length1)
    requires |bufs0| > 0 && shared.ops == earlier + ScriptsOf(fifos, alone.data.Length1)
    requires alone.View() == ApplyAll(Table(bufs0, []), earlier)
    modifies alone, alone.data, shared, shared.data
    ensures shared.ops == old(shared.ops) && shared.next <= |shared.ops|
    ensures Table(shared.Rows(), shared.flushed) == ApplyAll(Table(bufs0, []), shared.ops[..shared.next])
    ensures alone.View() == ApplyAll(Table(bufs0, []), shared.ops)
    ensures shared.next == |shared.ops| ==> alone.View() == Table(shared.Rows(), shared.flushed)
  {
    ghost var s0, size := shared.View(), alone.data.Length1;
    PingPong.RunInv(s0, bufs0, schedule, size);
    ApplyConcat(Table(bufs0, []), earlier, ScriptsOf(fifos, size));
    CaptureAll(alone, fifos);
    shared.Execute(schedule);
    assert shared.View() == PingPong.Run(s0, schedule, size);
    assert shared.ops[..|shared.ops|] == shared.ops;
  }
}
