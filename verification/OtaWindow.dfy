/**
The receive loop of an over-the-air update: a fixed buffer is refilled behind
whatever the archive parser left unprocessed, and progress is reported as a
percentage.  The parser and the network are arbitrary within their interfaces.
*/
module OtaWindow {
  import opened Common

  const TWO32 := 0x1_0000_0000
  const INT32_MAX := 0x7FFF_FFFF

  /** Unsigned 32-bit value of an integer. */
  function U32(n: int): nat { n % TWO32 }

  datatype Status = Error | Proceed | Done

  /** What one pass meets: received bytes, the continuation flag, failures, and how many bytes the parser takes. */
  datatype Event = Event(chunk: seq<Byte>, more: bool, recvOk: bool, abort: bool, status: Status, take: nat)

  datatype Exit = Running | Failed | Complete

  /**
  buffer[processed..processed + unprocessed] is what the parser has not taken;
  received and consumed are history.
  */
  datatype Window = Window(
    buffer: seq<Byte>, processed: nat, unprocessed: nat, accumulated: nat,
    more: bool, progress: nat, exit: Exit, received: seq<Byte>, consumed: seq<Byte>)
  {
    function Left(): seq<Byte>
      requires processed + unprocessed <= |buffer|
    {
      buffer[processed..processed + unprocessed]
    }
  }

  /** (accumulatedLen * 100) / fileLen in C's types, stored in one byte. */
  function Percent(accumulated: nat, fileLen: nat): nat
    requires fileLen > 0
  {
    (U32(accumulated * 100) / fileLen) % 256
  }

  predicate Shape(w: Window) { w.processed + w.unprocessed <= |w.buffer| }

  /** The loop condition; fileLen - accumulatedLen is an unsigned difference. */
  predicate Guard(w: Window, fileLen: nat) {
    w.exit == Running && (w.more || (w.unprocessed > 0 && U32(fileLen - w.accumulated) < |w.buffer|))
  }

  /** recv gives at most what it is asked for, the parser takes at most what it is shown. */
  predicate Fits(w: Window, e: Event) {
    if w.more then w.unprocessed + |e.chunk| <= |w.buffer| && e.take <= w.unprocessed + |e.chunk|
    else e.take <= w.unprocessed
  }

  /** The unprocessed part moved to the start of the buffer. */
  function Moved(w: Window): (b: seq<Byte>)
    requires Shape(w)
    ensures |b| == |w.buffer| && b[..w.unprocessed] == w.Left()
  {
    w.Left() + w.buffer[w.unprocessed..]
  }

  /** What the parser did with the buffer. */
  function Parsed(w: Window, e: Event, len: nat, fileLen: nat): (r: Window)
    requires e.take <= len <= |w.buffer| && fileLen > 0
    ensures Shape(r) && |r.buffer| == |w.buffer|
  {
    match e.status
    case Error => w.(exit := Failed, processed := 0, unprocessed := len)
    case Done => w.(exit := Complete, progress := 100, processed := 0, unprocessed := len)
    case Proceed =>
      var acc := w.accumulated + e.take;
      w.(processed := e.take, unprocessed := len - e.take, accumulated := acc,
         progress := Percent(acc, fileLen), consumed := w.consumed + w.buffer[..e.take])
  }

  /** The start of a pass: the unprocessed part at the start of the buffer. */
  function Shifted(w: Window): (r: Window)
    requires Shape(w)
    ensures Shape(r) && |r.buffer| == |w.buffer|
  {
    w.(buffer := Moved(w), processed := 0)
  }

  /** A chunk behind the unprocessed part. */
  function Refilled(w: Window, chunk: seq<Byte>, more: bool): (r: Window)
    requires w.processed == 0 && w.unprocessed + |chunk| <= |w.buffer|
    ensures Shape(r) && |r.buffer| == |w.buffer|
  {
    w.(buffer := w.buffer[..w.unprocessed] + chunk + w.buffer[w.unprocessed + |chunk|..],
       more := more, received := w.received + chunk)
  }

  /** The archive module may refuse the file; otherwise it parses. */
  function Checked(w: Window, e: Event, len: nat, fileLen: nat): (r: Window)
    requires w.processed == 0 && e.take <= len <= |w.buffer| && fileLen > 0
    ensures Shape(r) && |r.buffer| == |w.buffer|
  {
    if e.abort then w.(exit := Failed, unprocessed := len) else Parsed(w, e, len, fileLen)
  }

  /** One pass of the loop. */
  function Pass(w: Window, e: Event, fileLen: nat): (r: Window)
    requires Shape(w) && Fits(w, e) && fileLen > 0
    ensures Shape(r) && |r.buffer| == |w.buffer|
  {
    var w1 := Shifted(w);
    if !w.more then Checked(w1, e, w.unprocessed, fileLen)
    else if !e.recvOk then w1.(exit := Failed)
    else Checked(Refilled(w1, e.chunk, e.more), e, w.unprocessed + |e.chunk|, fileLen)
  }

  /** The loop, fed with these events, for as long as its condition holds. */
  function Loop(w: Window, events: seq<Event>, fileLen: nat): (r: Window)
    requires Shape(w) && fileLen > 0
    ensures Shape(r)
    decreases |events|
  {
    if events == [] || !Guard(w, fileLen) || !Fits(w, events[0]) then w
    else Loop(Pass(w, events[0], fileLen), events[1..], fileLen)
  }

  /** Before the first payload arrives. */
  function Empty(size: nat): Window { Window(seq(size, _ => 0), 0, 0, 0, true, 0, Running, [], []) }

  /* ---- The window ---- */

  /** Nothing lost, nothing repeated: taken and waiting bytes together are the received stream. */
  ghost predicate Inv(w: Window) {
    && Shape(w) && w.accumulated == |w.consumed|
    && w.received == w.consumed + w.Left()
  }

  /** The waiting bytes are the first len of the buffer. */
  ghost predicate Waiting(w: Window, len: nat) {
    && w.processed == 0 && len <= |w.buffer| && w.accumulated == |w.consumed|
    && w.received == w.consumed + w.buffer[..len]
  }

  lemma ShiftedWaits(w: Window)
    requires Inv(w)
    ensures Waiting(Shifted(w), w.unprocessed) && Inv(Shifted(w))
  {
    assert Moved(w)[0..w.unprocessed] == Moved(w)[..w.unprocessed];
  }

  lemma RefilledWaits(w: Window, chunk: seq<Byte>, more: bool)
    requires Waiting(w, w.unprocessed) && w.unprocessed + |chunk| <= |w.buffer|
    ensures Waiting(Refilled(w, chunk, more), w.unprocessed + |chunk|)
  {
    var r := Refilled(w, chunk, more);
    assert r.buffer[..w.unprocessed + |chunk|] == w.buffer[..w.unprocessed] + chunk;
    assert w.consumed + w.buffer[..w.unprocessed] + chunk == w.consumed + (w.buffer[..w.unprocessed] + chunk);
  }

  lemma TakenAndLeft(b: seq<Byte>, len: nat, take: nat)
    requires take <= len <= |b|
    ensures b[..len] == b[..take] + b[take..take + (len - take)] && b[0..0 + len] == b[..len]
  {
  }

  lemma CheckedInv(w: Window, e: Event, len: nat, fileLen: nat)
    requires Waiting(w, len) && e.take <= len && fileLen > 0
    ensures Inv(Checked(w, e, len, fileLen))
  {
    TakenAndLeft(w.buffer, len, e.take);
    if !e.abort && e.status == Proceed {
      TakenInv(w, e, len, fileLen);
    }
  }

  lemma TakenInv(w: Window, e: Event, len: nat, fileLen: nat)
    requires Waiting(w, len) && e.take <= len && fileLen > 0 && e.status == Proceed
    ensures Inv(Parsed(w, e, len, fileLen))
  {
    var taken, left := w.buffer[..e.take], w.buffer[e.take..e.take + (len - e.take)];
    TakenAndLeft(w.buffer, len, e.take);
    assert w.consumed + (taken + left) == w.consumed + taken + left;
  }

  lemma PassInv(w: Window, e: Event, fileLen: nat)
    requires Inv(w) && Fits(w, e) && fileLen > 0
    ensures Inv(Pass(w, e, fileLen))
  {
    var w1 := Shifted(w);
    ShiftedWaits(w);
    if !w.more {
      CheckedInv(w1, e, w.unprocessed, fileLen);
    } else if e.recvOk {
      RefilledWaits(w1, e.chunk, e.more);
      CheckedInv(Refilled(w1, e.chunk, e.more), e, w.unprocessed + |e.chunk|, fileLen);
    }
  }

  /**
  The window law, for any parser and any network: what the parser has taken is a
  prefix of what was received, every received byte is either taken or waiting, and
  the buffer is never overrun.
  */
  lemma {:induction false} WindowLaw(w: Window, events: seq<Event>, fileLen: nat)
    requires Inv(w) && fileLen > 0
    ensures var r := Loop(w, events, fileLen);
      && Inv(r) && r.consumed <= r.received
      && r.accumulated + r.unprocessed == |r.received| && r.unprocessed <= |r.buffer| == |w.buffer|
      && w.received <= r.received && w.consumed <= r.consumed && w.accumulated <= r.accumulated
    decreases |events|
  {
    if events != [] && Guard(w, fileLen) && Fits(w, events[0]) {
      PassInv(w, events[0], fileLen);
      PassGrows(w, events[0], fileLen);
      WindowLaw(Pass(w, events[0], fileLen), events[1..], fileLen);
    }
  }

  lemma PassGrows(w: Window, e: Event, fileLen: nat)
    requires Shape(w) && Fits(w, e) && fileLen > 0
    ensures var r := Pass(w, e, fileLen);
      && w.received <= r.received && w.consumed <= r.consumed && w.accumulated <= r.accumulated
      && (r.exit == Running && w.exit == Running ==> r.accumulated == w.accumulated + e.take && r.progress == Percent(r.accumulated, fileLen))
      && (r.exit == Failed && w.exit == Running ==> r.progress == w.progress)
      && (r.exit == Complete && w.exit == Running ==> r.progress == 100)
  {
  }

  /* ---- Progress ---- */

  /** While a hundred times the bytes taken fit in 32 bits: at most 100, and 100 exactly when the file is complete. */
  lemma PercentExact(accumulated: nat, fileLen: nat)
    requires 0 < fileLen && accumulated <= fileLen && accumulated * 100 < TWO32
    ensures Percent(accumulated, fileLen) == accumulated * 100 / fileLen <= 100
    ensures Percent(accumulated, fileLen) == 100 <==> accumulated == fileLen
  {
    TruePercent(accumulated, fileLen);
    assert U32(accumulated * 100) == accumulated * 100;
    SmallQuotient(accumulated * 100, fileLen, 256);
  }

  lemma TruePercent(accumulated: nat, fileLen: nat)
    requires 0 < fileLen && accumulated <= fileLen
    ensures accumulated * 100 / fileLen <= 100
    ensures accumulated * 100 / fileLen == 100 <==> accumulated == fileLen
  {
    var q := accumulated * 100 / fileLen;
    MulStep(100, q, fileLen);
    MulStep(q, 100, fileLen);
    assert 100 * fileLen == fileLen * 100;
  }

  /** A product that does not fit loses at least one whole file length to the wrap. */
  lemma WrapLoses(x: nat, fileLen: nat)
    requires 0 < fileLen < TWO32 && x >= TWO32
    ensures U32(x) / fileLen < x / fileLen
  {
    var k, u, q := x / TWO32, U32(x), U32(x) / fileLen;
    assert x == k * TWO32 + u && k >= 1;
    MulStep(0, k, TWO32);
    assert x >= q * fileLen + fileLen;
    assert (q + 1) * fileLen == q * fileLen + fileLen;
    MulStep(x / fileLen, q + 1, fileLen);
  }

  /** A quotient that fits in a byte is not changed by storing it in one. */
  lemma SmallQuotient(u: nat, fileLen: nat, bound: nat)
    requires 0 < fileLen && u / fileLen < bound <= 256
    ensures u / fileLen % 256 == u / fileLen
  {
    MulStep(u / fileLen, 0, fileLen);
  }

  lemma WrapShows(x: nat, fileLen: nat)
    requires 0 < fileLen < TWO32 && x >= TWO32 && x / fileLen <= 100
    ensures U32(x) / fileLen % 256 != x / fileLen
  {
    WrapLoses(x, fileLen);
    SmallQuotient(U32(x), fileLen, x / fileLen);
  }

  /** The reported byte is the true percentage exactly when a hundred times the bytes taken fit in 32 bits. */
  lemma PercentTrueExactly(accumulated: nat, fileLen: nat)
    requires 0 < fileLen < TWO32 && accumulated <= fileLen
    ensures Percent(accumulated, fileLen) == accumulated * 100 / fileLen <==> accumulated * 100 < TWO32
  {
    TruePercent(accumulated, fileLen);
    if accumulated * 100 < TWO32 {
      PercentExact(accumulated, fileLen);
    } else {
      WrapShows(accumulated * 100, fileLen);
    }
  }

  /** The report is one byte: a parser that takes three times the announced length ends at 300 percent, reported as 44. */
  lemma PastTheEnd(fileLen: nat)
    requires 0 < fileLen && fileLen * 300 < TWO32
    ensures Percent(3 * fileLen, fileLen) == 44
  {
    ModUnique(fileLen * 300, fileLen, 300, 0);
    assert U32(3 * fileLen * 100) == fileLen * 300;
  }

  lemma QuotientMonotone(a: nat, b: nat, n: nat)
    requires 0 < n && a <= b
    ensures a / n <= b / n
  {
    MulStep(b / n, a / n, n);
  }

  lemma PercentMonotone(a: nat, b: nat, fileLen: nat)
    requires 0 < fileLen && a <= b <= fileLen && b * 100 < TWO32
    ensures Percent(a, fileLen) <= Percent(b, fileLen)
  {
    PercentExact(a, fileLen);
    PercentExact(b, fileLen);
    QuotientMonotone(a * 100, b * 100, fileLen);
  }

  /** The last count whose hundredfold fits, and the next: the report falls back to 0. */
  const LAST_EXACT := 42949672

  lemma PercentFalls(fileLen: nat)
    requires LAST_EXACT < fileLen <= INT32_MAX
    ensures Percent(LAST_EXACT + 1, fileLen) == 0 < Percent(LAST_EXACT, fileLen)
    ensures fileLen == LAST_EXACT + 1 ==> Percent(LAST_EXACT, fileLen) == 99
  {
    var x := LAST_EXACT * 100;
    PercentExact(LAST_EXACT, fileLen);
    QuotientMonotone(fileLen, x, fileLen);
    ModUnique(fileLen, fileLen, 1, 0);
    ModUnique(4, fileLen, 0, 4);
    assert U32((LAST_EXACT + 1) * 100) == 4;
  }

  /**
  Over a whole file the report never falls exactly when a hundred times its length
  fits in 32 bits.  accumulatedLen is a signed 32-bit integer, so no longer file is
  ever counted; and C leaves the product undefined from INT32_MAX on.
  */
  lemma MonotoneExactly(fileLen: nat)
    requires 0 < fileLen <= INT32_MAX
    ensures (forall a, b | 0 <= a <= b <= fileLen :: Percent(a, fileLen) <= Percent(b, fileLen)) <==> fileLen * 100 < TWO32
  {
    if fileLen * 100 < TWO32 {
      forall a, b | 0 <= a <= b <= fileLen ensures Percent(a, fileLen) <= Percent(b, fileLen) {
        PercentMonotone(a, b, fileLen);
      }
    } else {
      PercentFalls(fileLen);
      assert Percent(LAST_EXACT, fileLen) > Percent(LAST_EXACT + 1, fileLen);
    }
  }

  lemma PassProgress(w: Window, e: Event, fileLen: nat)
    requires Inv(w) && Fits(w, e) && 0 < fileLen && w.exit == Running && w.progress == Percent(w.accumulated, fileLen)
    requires Pass(w, e, fileLen).accumulated <= fileLen && Pass(w, e, fileLen).accumulated * 100 < TWO32
    ensures var r := Pass(w, e, fileLen);
      && w.progress <= r.progress <= 100
      && (r.exit == Running ==> r.progress == Percent(r.accumulated, fileLen))
  {
    var r := Pass(w, e, fileLen);
    PassGrows(w, e, fileLen);
    PercentExact(w.accumulated, fileLen);
    PercentExact(r.accumulated, fileLen);
    PercentMonotone(w.accumulated, r.accumulated, fileLen);
  }

  /**
  While the parser takes no more than the announced length and a hundred times that
  fits in 32 bits, the reported percentage never falls and never exceeds 100.
  */
  lemma {:induction false} ProgressLaw(w: Window, events: seq<Event>, fileLen: nat)
    requires Inv(w) && 0 < fileLen && w.exit == Running && w.progress == Percent(w.accumulated, fileLen)
    requires Loop(w, events, fileLen).accumulated <= fileLen && Loop(w, events, fileLen).accumulated * 100 < TWO32
    ensures w.progress <= Loop(w, events, fileLen).progress <= 100
    decreases |events|
  {
    if events != [] && Guard(w, fileLen) && Fits(w, events[0]) {
      var r := Pass(w, events[0], fileLen);
      PassInv(w, events[0], fileLen);
      WindowLaw(r, events[1..], fileLen);
      PassProgress(w, events[0], fileLen);
      if r.exit == Running {
        ProgressLaw(r, events[1..], fileLen);
      }
    } else {
      PercentExact(w.accumulated, fileLen);
    }
  }
}
