/** The update handler: one static payload buffer, shifted in place and refilled, and the counters around it. */
module OtaTask {
  import opened Common
  import opened OtaWindow

  class OtaPut {
    const payloadBuffer: array<Byte>
    var processedBytes: nat
    var unprocessedBytes: nat
    var accumulatedLen: nat
    var moreData: bool
    var progressBar: nat
    var exit: Exit
    /** What the network delivered and what the parser took, for the specification only. */
    ghost var received: seq<Byte>
    ghost var consumed: seq<Byte>

    ghost predicate Valid()
      reads this
    {
      processedBytes + unprocessedBytes <= payloadBuffer.Length
    }

    ghost function View(): (w: Window)
      requires Valid()
      reads this, payloadBuffer
      ensures Shape(w)
    {
      Window(payloadBuffer[..], processedBytes, unprocessedBytes, accumulatedLen,
             moreData, progressBar, exit, received, consumed)
    }

    constructor (size: nat)
      ensures Valid() && fresh(payloadBuffer) && View() == Empty(size)
    {
      payloadBuffer := new Byte[size](_ => 0);
      processedBytes, unprocessedBytes, accumulatedLen, moreData, progressBar := 0, 0, 0, true, 0;
      exit, received, consumed := Running, [], [];
      new;
      assert payloadBuffer[..] == seq(size, _ => 0);
    }

    /** recv fills at most the room it is given, the parser takes at most what it is shown. */
    predicate Deliverable(e: Event)
      requires Valid()
      reads this, payloadBuffer
      ensures Deliverable(e) <==> Fits(View(), e)
    {
      if moreData then unprocessedBytes + |e.chunk| <= payloadBuffer.Length && e.take <= unprocessedBytes + |e.chunk|
      else e.take <= unprocessedBytes
    }

    /** The loop condition. */
    predicate Active(fileLen: nat)
      requires Valid()
      reads this, payloadBuffer
      ensures Active(fileLen) <==> Guard(View(), fileLen)
    {
      && exit == Running
      && (moreData || (unprocessedBytes > 0 && U32(fileLen - accumulatedLen) < payloadBuffer.Length))
    }

    /** The unprocessed part moves to the start; copying upwards keeps the overlap intact. */
    method MoveDown()
      requires Valid()
      modifies payloadBuffer
      ensures payloadBuffer[..] == Moved(old(View()))
    {
      var i := 0;
      while i < unprocessedBytes
        invariant i <= unprocessedBytes
        invariant forall k :: 0 <= k < i ==> payloadBuffer[k] == old(payloadBuffer[processedBytes + k])
        invariant forall k :: i <= k < payloadBuffer.Length ==> payloadBuffer[k] == old(payloadBuffer[k])
      {
        payloadBuffer[i] := payloadBuffer[processedBytes + i];
        i := i + 1;
      }
    }

    /** A chunk lands behind the unprocessed part. */
    method Receive(chunk: seq<Byte>, more: bool)
      requires Valid() && processedBytes == 0 && unprocessedBytes + |chunk| <= payloadBuffer.Length
      modifies this, payloadBuffer
      ensures Valid() && View() == Refilled(old(View()), chunk, more)
    {
      CopyIn(unprocessedBytes, chunk);
      moreData, received := more, received + chunk;
    }

    method CopyIn(at: nat, chunk: seq<Byte>)
      requires at + |chunk| <= payloadBuffer.Length
      modifies payloadBuffer
      ensures payloadBuffer[..] == old(payloadBuffer[..])[..at] + chunk + old(payloadBuffer[..])[at + |chunk|..]
    {
      for i := 0 to |chunk|
        invariant forall k :: 0 <= k < at ==> payloadBuffer[k] == old(payloadBuffer[k])
        invariant forall k :: 0 <= k < i ==> payloadBuffer[at + k] == chunk[k]
        invariant forall k :: at + i <= k < payloadBuffer.Length ==> payloadBuffer[k] == old(payloadBuffer[k])
      {
        payloadBuffer[at + i] := chunk[i];
      }
    }

    /** The parser looks at the first len bytes; its verdict updates the counters. */
    method Parse(e: Event, len: nat, fileLen: nat)
      requires e.take <= len <= payloadBuffer.Length && fileLen > 0 && Valid()
      modifies this
      ensures Valid() && View() == Parsed(old(View()), e, len, fileLen)
    {
      match e.status {
        case Error =>
          exit, processedBytes, unprocessedBytes := Failed, 0, len;
        case Done =>
          progressBar := 100;
          exit, processedBytes, unprocessedBytes := Complete, 0, len;
        case Proceed =>
          processedBytes, unprocessedBytes := e.take, len - e.take;
          accumulatedLen := accumulatedLen + e.take;
          progressBar := (U32(accumulatedLen * 100) / fileLen) % 256;
          consumed := consumed + payloadBuffer[..e.take];
      }
    }

    /** The archive module may refuse the file; otherwise it parses. */
    method CheckAndParse(e: Event, len: nat, fileLen: nat)
      requires e.take <= len <= payloadBuffer.Length && fileLen > 0 && Valid() && processedBytes == 0
      modifies this
      ensures Valid() && View() == Checked(old(View()), e, len, fileLen)
    {
      if e.abort {
        exit, unprocessedBytes := Failed, len;
      } else {
        Parse(e, len, fileLen);
      }
    }

    /** The start of a pass: the unprocessed part at the start of the buffer. */
    method Shift()
      requires Valid()
      modifies this, payloadBuffer
      ensures Valid() && View() == Shifted(old(View()))
    {
      if unprocessedBytes > 0 {
        MoveDown();
      } else {
        assert payloadBuffer[..] == Moved(View());
      }
      processedBytes := 0;
    }

    /** One pass of the loop. */
    method ReceiveAndParse(e: Event, fileLen: nat)
      requires Valid() && Fits(View(), e) && fileLen > 0
      modifies this, payloadBuffer
      ensures Valid() && View() == Pass(old(View()), e, fileLen)
    {
      ghost var w := View();
      Shift();
      ghost var w1 := View();
      assert w1 == Shifted(w) && moreData == w.more && unprocessedBytes == w.unprocessed;
      if !moreData {
        CheckAndParse(e, unprocessedBytes, fileLen);
        assert View() == Checked(w1, e, w.unprocessed, fileLen);
      } else if !e.recvOk {
        exit := Failed;
        assert View() == w1.(exit := Failed);
      } else {
        RefillAndParse(e, fileLen);
      }
    }

    method RefillAndParse(e: Event, fileLen: nat)
      requires Valid() && processedBytes == 0 && Fits(View(), e) && moreData && fileLen > 0
      modifies this, payloadBuffer
      ensures Valid()
      ensures View() == Checked(Refilled(old(View()), e.chunk, e.more), e, old(unprocessedBytes) + |e.chunk|, fileLen)
    {
      ghost var w := View();
      Receive(e.chunk, e.more);
      assert View() == Refilled(w, e.chunk, e.more) && unprocessedBytes == w.unprocessed;
      CheckAndParse(e, |e.chunk| + unprocessedBytes, fileLen);
    }

    /** The loop, for as long as the network and the parser provide events. */
    method Download(events: seq<Event>, fileLen: nat)
      requires Valid() && fileLen > 0
      modifies this, payloadBuffer
      ensures Valid() && View() == Loop(old(View()), events, fileLen)
    {
      var i := 0;
      ghost var start := View();
      ghost var w := start;
      while i < |events| && Active(fileLen) && Deliverable(events[i])
        invariant i <= |events| && Valid() && w == View()
        invariant Loop(start, events, fileLen) == Loop(w, events[i..], fileLen)
      {
        LoopStep(w, events, i, fileLen);
        ReceiveAndParse(events[i], fileLen);
        w := Pass(w, events[i], fileLen);
        i := i + 1;
      }
      LoopEnds(w, events, i, fileLen);
    }
  }

  lemma LoopStep(w: Window, events: seq<Event>, i: nat, fileLen: nat)
    requires Shape(w) && fileLen > 0 && i < |events| && Guard(w, fileLen) && Fits(w, events[i])
    ensures Loop(w, events[i..], fileLen) == Loop(Pass(w, events[i], fileLen), events[i + 1..], fileLen)
  {
    assert events[i..][1..] == events[i + 1..];
  }

  lemma LoopEnds(w: Window, events: seq<Event>, i: nat, fileLen: nat)
    requires Shape(w) && fileLen > 0 && i <= |events|
    requires i < |events| ==> !Guard(w, fileLen) || !Fits(w, events[i])
    ensures Loop(w, events[i..], fileLen) == w
  {
  }
}
