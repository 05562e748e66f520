/** How an update ends, on what the network and the parser did: complete, failed, or for want of waiting bytes. */
module OtaVerdict {
  import opened Common
  import opened OtaWindow
  import opened OtaTermination

  /** More data is announced before pass n: at the start, and by every chunk up to then. */
  ghost predicate MoreBefore(w: Window, events: seq<Event>, n: nat)
    requires n <= |events|
  {
    w.more && forall j :: 0 <= j < n ==> events[j].more
  }

  /** The pass receives nothing it was promised, or the archive is refused, or the parser fails. */
  predicate Fails(e: Event, more: bool) { (more && !e.recvOk) || e.abort || e.status == Error }

  /** Whatever is due has been received, the archive is not refused, and the parser is done. */
  predicate Completes(e: Event, more: bool) { (more ==> e.recvOk) && !e.abort && e.status == Done }

  /** What the parser takes in the first n passes. */
  function TakenIn(events: seq<Event>, n: nat): nat
    requires n <= |events|
  {
    if n == 0 then 0 else events[0].take + TakenIn(events[1..], n - 1)
  }

  lemma PassVerdict(w: Window, e: Event, fileLen: nat)
    requires Shape(w) && fileLen > 0 && w.exit == Running && Fits(w, e)
    ensures var r := Pass(w, e, fileLen);
      && (r.exit == Complete <==> Completes(e, w.more)) && (r.exit == Failed <==> Fails(e, w.more))
      && (r.exit == Complete ==> r.progress == 100) && (r.exit == Failed ==> r.progress == w.progress)
      && (r.exit == Running ==>
            && r.more == (w.more && e.more) && r.accumulated == w.accumulated + e.take
            && r.progress == Percent(r.accumulated, fileLen))
  {
  }

  /** The verdict of the passes made. */
  ghost predicate Verdict(w: Window, r: Window, events: seq<Event>, n: nat, before: nat, fileLen: nat)
    requires 0 < n <= |events| && fileLen > 0
  {
    var last, more := events[n - 1], MoreBefore(w, events, n - 1);
    && (forall j :: 0 <= j < n - 1 ==> !Fails(events[j], MoreBefore(w, events, j)) && events[j].status == Proceed)
    && (r.exit == Complete <==> Completes(last, more))
    && (r.exit == Failed <==> Fails(last, more))
    && (r.exit == Complete ==> r.progress == 100)
    && (r.exit == Failed ==> r.progress == before)
    && (r.exit == Running ==>
          && r.accumulated == w.accumulated + TakenIn(events, n)
          && r.progress == Percent(r.accumulated, fileLen))
  }

  lemma VerdictLater(w: Window, w1: Window, r: Window, events: seq<Event>, n: nat, before: nat, fileLen: nat)
    requires fileLen > 0 && 0 < n < |events| && w1.accumulated == w.accumulated + events[0].take
    requires w1.more == (w.more && events[0].more)
    requires !Fails(events[0], w.more) && events[0].status == Proceed && Verdict(w1, r, events[1..], n, before, fileLen)
    ensures Verdict(w, r, events, n + 1, before, fileLen)
  {
    forall j | 0 <= j < n ensures MoreBefore(w1, events[1..], j) == MoreBefore(w, events, j + 1) {
      MoreLater(w, w1, events, j);
    }
    forall j | 0 <= j < n ensures !Fails(events[j], MoreBefore(w, events, j)) && events[j].status == Proceed {
      if j > 0 {
        assert events[1..][j - 1] == events[j];
        assert MoreBefore(w1, events[1..], j - 1) == MoreBefore(w, events, j);
      }
    }
  }

  lemma MoreLater(w: Window, w1: Window, events: seq<Event>, j: nat)
    requires j < |events| && w1.more == (w.more && events[0].more)
    ensures MoreBefore(w1, events[1..], j) == MoreBefore(w, events, j + 1)
  {
    if MoreBefore(w1, events[1..], j) {
      forall i | 0 <= i < j + 1 ensures events[i].more {
        if i > 0 {
          assert events[1..][i - 1].more;
        }
      }
    }
  }

  lemma LoopOnce(w: Window, events: seq<Event>, fileLen: nat)
    requires Shape(w) && fileLen > 0 && events != [] && Guard(w, fileLen) && Fits(w, events[0])
    ensures Loop(w, events, fileLen) == Loop(Pass(w, events[0], fileLen), events[1..], fileLen)
    ensures Passes(w, events, fileLen) == 1 + Passes(Pass(w, events[0], fileLen), events[1..], fileLen)
  {
  }

  lemma NoPass(w: Window, events: seq<Event>, fileLen: nat)
    requires Shape(w) && fileLen > 0 && Passes(w, events, fileLen) == 0
    ensures Loop(w, events, fileLen) == w
  {
  }

  lemma FirstVerdict(w: Window, events: seq<Event>, fileLen: nat)
    requires Shape(w) && fileLen > 0 && w.exit == Running && events != [] && Guard(w, fileLen) && Fits(w, events[0])
    requires Passes(Pass(w, events[0], fileLen), events[1..], fileLen) == 0
    ensures Verdict(w, Loop(w, events, fileLen), events, 1, Loop(w, events[..0], fileLen).progress, fileLen)
  {
    LoopOnce(w, events, fileLen);
    NoPass(Pass(w, events[0], fileLen), events[1..], fileLen);
    PassVerdict(w, events[0], fileLen);
    assert TakenIn(events, 1) == events[0].take;
  }

  /**
  The verdict, for any parser and any network, on the events alone: the update is
  complete exactly when the last pass made received what was due, was not refused and
  the parser was done, and 100 is reported; it has failed exactly when that pass did not
  receive, was refused or the parser failed, and the report stays what it was before the
  pass; otherwise it reports the percentage of all that was taken; and every earlier pass
  received, was not refused and left the parser wanting more.
  */
  lemma {:induction false} VerdictExactly(w: Window, events: seq<Event>, fileLen: nat)
    requires Shape(w) && fileLen > 0 && w.exit == Running
    ensures var n, r := Passes(w, events, fileLen), Loop(w, events, fileLen);
      && n <= |events| && (n == 0 ==> r == w)
      && (n > 0 ==> Verdict(w, r, events, n, Loop(w, events[..n - 1], fileLen).progress, fileLen))
    decreases |events|
  {
    if events != [] && Guard(w, fileLen) && Fits(w, events[0]) {
      var w1 := Pass(w, events[0], fileLen);
      LoopOnce(w, events, fileLen);
      PassVerdict(w, events[0], fileLen);
      var n := Passes(w1, events[1..], fileLen);
      if n == 0 {
        FirstVerdict(w, events, fileLen);
      } else {
        VerdictExactly(w1, events[1..], fileLen);
        assert events[..n][0] == events[0] && events[..n][1..] == events[1..][..n - 1];
        LoopOnce(w, events[..n], fileLen);
        VerdictLater(w, w1, Loop(w1, events[1..], fileLen), events, n, Loop(w, events[..n], fileLen).progress, fileLen);
      }
    }
  }

  /**
  When the loop goes on, in plain integers: more data is announced, or bytes wait and
  what is missing of the file is less than a buffer, or so many bytes too many were taken
  that their unsigned excess wraps to less than one.
  */
  lemma GoesOnExactly(w: Window, fileLen: nat)
    requires w.exit == Running && fileLen < TWO32 && w.accumulated < TWO32 && |w.buffer| < TWO32
    ensures Guard(w, fileLen) <==>
      w.more || (w.unprocessed > 0
                 && if w.accumulated <= fileLen then fileLen < w.accumulated + |w.buffer|
                    else w.accumulated - fileLen > TWO32 - |w.buffer|)
  {
    if w.accumulated <= fileLen {
      ModUnique(fileLen - w.accumulated, TWO32, 0, fileLen - w.accumulated);
    } else {
      ModUnique(fileLen - w.accumulated, TWO32, -1, TWO32 + fileLen - w.accumulated);
    }
  }
}
