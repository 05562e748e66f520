/** When the receive loop of an update ends, and exactly when it does not. */
module OtaTermination {
  import opened Common
  import opened OtaWindow

  /* ---- How many passes ---- */

  function Passes(w: Window, events: seq<Event>, fileLen: nat): nat
    requires Shape(w) && fileLen > 0
    decreases |events|
  {
    if events == [] || !Guard(w, fileLen) || !Fits(w, events[0]) then 0
    else 1 + Passes(Pass(w, events[0], fileLen), events[1..], fileLen)
  }

  /** Of these passes, the ones in which the parser takes nothing. */
  function Idle(w: Window, events: seq<Event>, fileLen: nat): nat
    requires Shape(w) && fileLen > 0
    decreases |events|
  {
    if events == [] || !Guard(w, fileLen) || !Fits(w, events[0]) then 0
    else (if events[0].take == 0 then 1 else 0) + Idle(Pass(w, events[0], fileLen), events[1..], fileLen)
  }

  /** One pass for each received byte, one for each time the parser takes nothing, and one to leave. */
  lemma {:induction false} PassesBounded(w: Window, events: seq<Event>, fileLen: nat)
    requires Inv(w) && fileLen > 0
    ensures w.accumulated + Passes(w, events, fileLen)
         <= |Loop(w, events, fileLen).received| + 1 + Idle(w, events, fileLen)
    decreases |events|
  {
    if events != [] && Guard(w, fileLen) && Fits(w, events[0]) {
      PassInv(w, events[0], fileLen);
      PassGrows(w, events[0], fileLen);
      PassesBounded(Pass(w, events[0], fileLen), events[1..], fileLen);
      WindowLaw(Pass(w, events[0], fileLen), events[1..], fileLen);
    } else {
      assert |w.received| >= w.accumulated;
    }
  }

  /* ---- Runs without end ---- */

  /** The loop after n passes, or where it stopped before. */
  function After(w: Window, es: nat -> Event, n: nat, fileLen: nat): (r: Window)
    requires Shape(w) && fileLen > 0
    ensures Shape(r) && |r.buffer| == |w.buffer|
  {
    if n == 0 then w
    else
      var m := After(w, es, n - 1, fileLen);
      if Goes(m, es(n - 1), fileLen) then Pass(m, es(n - 1), fileLen) else m
  }

  /** The loop makes a pass with this event. */
  predicate Goes(w: Window, e: Event, fileLen: nat) { Guard(w, fileLen) && Fits(w, e) }

  ghost predicate Endless(w: Window, es: nat -> Event, fileLen: nat)
    requires Shape(w) && fileLen > 0
  {
    forall n: nat {:trigger Goes(After(w, es, n, fileLen), es(n), fileLen)} :: Goes(After(w, es, n, fileLen), es(n), fileLen)
  }

  /** A pass that changes nothing but where the waiting bytes stand. */
  predicate Quiet(e: Event) { !e.abort && e.status == Proceed && e.take == 0 }

  /** From pass n on there is no more data, bytes are waiting near the end of the file, and the parser takes none. */
  ghost predicate QuietFrom(w: Window, es: nat -> Event, n: nat, fileLen: nat)
    requires Shape(w) && fileLen > 0
  {
    && !After(w, es, n, fileLen).more && Guard(After(w, es, n, fileLen), fileLen)
    && FitUntil(w, es, n, fileLen) && QuietSince(es, n)
  }

  ghost predicate FitUntil(w: Window, es: nat -> Event, n: nat, fileLen: nat)
    requires Shape(w) && fileLen > 0
  {
    forall k: nat {:trigger Fits(After(w, es, k, fileLen), es(k))} :: k < n ==> Fits(After(w, es, k, fileLen), es(k))
  }

  ghost predicate QuietSince(es: nat -> Event, n: nat) { forall k: nat :: n <= k ==> Quiet(es(k)) }

  /** The network announces more data for ever. */
  ghost predicate NeverLast(w: Window, es: nat -> Event, fileLen: nat)
    requires Shape(w) && fileLen > 0
  {
    forall n: nat :: After(w, es, n, fileLen).more
  }

  /** One pass with no more data coming. */
  lemma LatePass(w: Window, e: Event, fileLen: nat)
    requires Shape(w) && fileLen > 0 && !w.more && Goes(w, e, fileLen)
    ensures var r := Pass(w, e, fileLen);
      && !r.more
      && (r.exit == Running ==> !e.abort && e.status == Proceed && r.unprocessed == w.unprocessed - e.take)
      && (Quiet(e) ==> r.exit == Running && r.accumulated == w.accumulated)
  {
  }

  /** A quiet pass moves the waiting bytes to the start of the buffer, and the next one finds everything as it was. */
  lemma TakingNothingLoops(w: Window, e: Event, fileLen: nat)
    requires Inv(w) && fileLen > 0 && Guard(w, fileLen) && !w.more && Quiet(e)
    requires w.progress == Percent(w.accumulated, fileLen)
    ensures var r := Pass(w, e, fileLen);
      Goes(r, e, fileLen) && Pass(r, e, fileLen) == r && r.Left() == w.Left()
  {
    var r := Pass(w, e, fileLen);
    assert Moved(w)[0..w.unprocessed] == w.Left();
    assert Moved(r) == r.buffer;
    assert r.consumed == w.consumed;
  }

  /** In an endless run, what a pass without more data leaves waiting is what the parser did not take. */
  lemma EndlessPass(w: Window, es: nat -> Event, k: nat, fileLen: nat)
    requires Shape(w) && fileLen > 0 && Endless(w, es, fileLen) && !After(w, es, k, fileLen).more
    ensures !es(k).abort && es(k).status == Proceed && !After(w, es, k + 1, fileLen).more
    ensures After(w, es, k + 1, fileLen).unprocessed == After(w, es, k, fileLen).unprocessed - es(k).take
  {
    assert Goes(After(w, es, k, fileLen), es(k), fileLen);
    assert Goes(After(w, es, k + 1, fileLen), es(k + 1), fileLen);
    LatePass(After(w, es, k, fileLen), es(k), fileLen);
  }

  lemma {:induction false} StaysLast(w: Window, es: nat -> Event, n: nat, m: nat, fileLen: nat)
    requires Shape(w) && fileLen > 0 && Endless(w, es, fileLen) && n <= m && !After(w, es, n, fileLen).more
    ensures !After(w, es, m, fileLen).more
    ensures After(w, es, m, fileLen).unprocessed <= After(w, es, n, fileLen).unprocessed
    decreases m
  {
    if n < m {
      StaysLast(w, es, n, m - 1, fileLen);
      EndlessPass(w, es, m - 1, fileLen);
    }
  }

  /** The waiting bytes cannot shrink for ever. */
  lemma {:induction false} FallsQuiet(w: Window, es: nat -> Event, n: nat, fileLen: nat) returns (m: nat)
    requires Shape(w) && fileLen > 0 && Endless(w, es, fileLen) && !After(w, es, n, fileLen).more
    ensures n <= m && QuietSince(es, m)
    decreases After(w, es, n, fileLen).unprocessed
  {
    if k: nat :| n <= k && es(k).take > 0 {
      StaysLast(w, es, n, k, fileLen);
      EndlessPass(w, es, k, fileLen);
      StaysLast(w, es, n, k + 1, fileLen);
      m := FallsQuiet(w, es, k + 1, fileLen);
    } else {
      m := n;
      forall k: nat | m <= k ensures Quiet(es(k)) {
        StaysLast(w, es, n, k, fileLen);
        EndlessPass(w, es, k, fileLen);
      }
    }
  }

  /** Once the loop has stopped it stays stopped. */
  lemma {:induction false} Stopped(w: Window, es: nat -> Event, k: nat, n: nat, fileLen: nat)
    requires Shape(w) && fileLen > 0 && k <= n && !Guard(After(w, es, k, fileLen), fileLen)
    ensures After(w, es, n, fileLen) == After(w, es, k, fileLen)
    decreases n
  {
    if k < n {
      Stopped(w, es, k, n - 1, fileLen);
    }
  }

  /** After a quiet pass another quiet event finds the loop going. */
  lemma QuietPass(w: Window, e: Event, e': Event, fileLen: nat)
    requires Shape(w) && fileLen > 0 && !w.more && Goes(w, e, fileLen) && Quiet(e) && Quiet(e')
    ensures !Pass(w, e, fileLen).more && Goes(Pass(w, e, fileLen), e', fileLen)
  {
    LatePass(w, e, fileLen);
  }

  /** Quiet passes with bytes waiting near the end of the file go on. */
  lemma {:induction false} QuietGoesOn(w: Window, es: nat -> Event, n: nat, k: nat, fileLen: nat)
    requires Shape(w) && fileLen > 0 && n <= k && QuietSince(es, n)
    requires !After(w, es, n, fileLen).more && Guard(After(w, es, n, fileLen), fileLen)
    ensures !After(w, es, k, fileLen).more && Goes(After(w, es, k, fileLen), es(k), fileLen)
    decreases k
  {
    assert Quiet(es(k));
    if n < k {
      QuietGoesOn(w, es, n, k - 1, fileLen);
      assert Quiet(es(k - 1));
      QuietPass(After(w, es, k - 1, fileLen), es(k - 1), es(k), fileLen);
    }
  }

  lemma QuietIsEndless(w: Window, es: nat -> Event, n: nat, fileLen: nat)
    requires Shape(w) && fileLen > 0 && QuietFrom(w, es, n, fileLen)
    ensures Endless(w, es, fileLen)
  {
    forall k: nat ensures Goes(After(w, es, k, fileLen), es(k), fileLen) {
      if n <= k {
        QuietGoesOn(w, es, n, k, fileLen);
      } else {
        assert Fits(After(w, es, k, fileLen), es(k));
        if !Guard(After(w, es, k, fileLen), fileLen) {
          Stopped(w, es, k, n, fileLen);
        }
      }
    }
  }

  /**
  The exact condition: unless the network announces more data for ever, the loop runs
  for ever if and only if, from some pass on, bytes are waiting near the end of the
  file and the parser neither fails nor finishes nor takes any of them.
  */
  lemma EndlessExactly(w: Window, es: nat -> Event, fileLen: nat)
    requires Shape(w) && fileLen > 0 && !NeverLast(w, es, fileLen)
    ensures Endless(w, es, fileLen) <==> exists n: nat :: QuietFrom(w, es, n, fileLen)
  {
    if Endless(w, es, fileLen) {
      var n: nat :| !After(w, es, n, fileLen).more;
      var m := FallsQuiet(w, es, n, fileLen);
      StaysLast(w, es, n, m, fileLen);
      forall k: nat | k <= m ensures Fits(After(w, es, k, fileLen), es(k)) && Guard(After(w, es, k, fileLen), fileLen) {
        assert Goes(After(w, es, k, fileLen), es(k), fileLen);
      }
      assert QuietFrom(w, es, m, fileLen);
    }
    if n: nat :| QuietFrom(w, es, n, fileLen) {
      QuietIsEndless(w, es, n, fileLen);
    }
  }

  /** It happens: one byte arrives, it is all there will be, and the parser waits for more. */
  lemma EndlessFromStart(size: nat, b: Byte)
    requires size >= 2
    ensures Endless(Empty(size), _ => Event([b], false, true, false, Proceed, 0), 1)
  {
    var es: nat -> Event := _ => Event([b], false, true, false, Proceed, 0);
    var w := Empty(size);
    assert After(w, es, 0, 1) == w;
    assert After(w, es, 1, 1) == Pass(w, es(0), 1);
    assert QuietFrom(w, es, 1, 1);
    QuietIsEndless(w, es, 1, 1);
  }
}
