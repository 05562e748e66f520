/**
The client side of the video link: a byte-at-a-time framer that recovers JPEG
images from a stream by their SOI (FF D8) and EOI (FF D9) markers, section
B.1.1.3 of ITU-T T.81.
*/
module JpegFramer {
  import opened Common
  import opened Sequences

  const MARK: Byte := 0xFF
  const SOI: Byte := 0xD8
  const EOI: Byte := 0xD9

  /* ---- What the stream contains, read declaratively ---- */

  predicate SoiAt(s: seq<Byte>, k: int) { 0 <= k && k + 1 < |s| && s[k] == MARK && s[k + 1] == SOI }

  predicate EoiAt(s: seq<Byte>, k: int) { 0 <= k && k + 1 < |s| && s[k] == MARK && s[k + 1] == EOI }

  /** An image occupies s[start..end]. */
  datatype Segment = Segment(start: nat, end: nat)

  function End(segs: seq<Segment>): nat { if segs == [] then 0 else Last(segs).end }

  /** The segment runs from the first SOI at or after from to the first EOI after that. */
  ghost predicate Leftmost(s: seq<Byte>, from: nat, g: Segment) {
    && from <= g.start && g.start + 4 <= g.end <= |s|
    && SoiAt(s, g.start) && EoiAt(s, g.end - 2)
    && (forall k :: from <= k < g.start ==> !SoiAt(s, k))
    && (forall k :: g.start <= k < g.end - 2 ==> !EoiAt(s, k))
  }

  /** Each segment is the leftmost one after its predecessor. */
  ghost predicate Chain(s: seq<Byte>, segs: seq<Segment>)
    decreases |segs|
  {
    segs != [] ==> Chain(s, Init(segs)) && Leftmost(s, End(Init(segs)), Last(segs))
  }

  /** The leftmost non-overlapping images of s, all of them. */
  ghost predicate IsFraming(s: seq<Byte>, segs: seq<Segment>) {
    && Chain(s, segs)
    && (forall a, k :: End(segs) <= a < k && SoiAt(s, a) ==> !EoiAt(s, k))
  }

  function Slices(s: seq<Byte>, segs: seq<Segment>): seq<seq<Byte>>
    decreases |segs|
  {
    if segs == [] then []
    else
      var g := Last(segs);
      Slices(s, Init(segs)) + [if g.start <= g.end <= |s| then s[g.start..g.end] else []]
  }

  /* ---- The framer ---- */

  datatype Framer = Framer(temp: Byte, header: bool, newImage: seq<Byte>, emitted: seq<seq<Byte>>)

  const START := Framer(0, false, [], [])

  function Feed(f: Framer, byte: Byte): Framer {
    if f.header then
      if byte == EOI && f.temp == MARK then Framer(byte, false, [], f.emitted + [f.newImage + [byte]])
      else f.(temp := byte, newImage := f.newImage + [byte])
    else if byte == SOI && f.temp == MARK then
      Framer(byte, true, f.newImage + [f.temp, byte], f.emitted)
    else f.(temp := byte)
  }

  function FeedAll(f: Framer, s: seq<Byte>): Framer
    decreases |s|
  {
    if s == [] then f else Feed(FeedAll(f, Init(s)), Last(s))
  }

  function Frames(s: seq<Byte>): seq<seq<Byte>> { FeedAll(START, s).emitted }

  lemma {:induction false} FeedConcat(f: Framer, a: seq<Byte>, b: seq<Byte>)
    ensures FeedAll(f, a + b) == FeedAll(FeedAll(f, a), b)
    decreases |b|
  {
    if b == [] {
      assert a + b == a;
    } else {
      assert Init(a + b) == a + Init(b);
      FeedConcat(f, a, Init(b));
    }
  }

  lemma FeedOne(f: Framer, s: seq<Byte>, b: Byte)
    ensures FeedAll(f, s + [b]) == Feed(FeedAll(f, s), b)
  {
    assert Init(s + [b]) == s;
  }

  /** More input never takes back an image. */
  lemma {:induction false} FeedGrows(f: Framer, s: seq<Byte>)
    ensures f.emitted <= FeedAll(f, s).emitted
    decreases |s|
  {
    if s != [] {
      FeedGrows(f, Init(s));
    }
  }

  lemma FramesPrefix(s: seq<Byte>, t: seq<Byte>)
    requires s <= t
    ensures Frames(s) <= Frames(t)
  {
    assert t == s + t[|s|..];
    FeedConcat(START, s, t[|s|..]);
    FeedGrows(FeedAll(START, s), t[|s|..]);
  }

  /* ---- The framer finds exactly the declarative framing ---- */

  /** After s: segs are complete, and open is the start of an image still without its EOI, or -1. */
  ghost predicate Tracks(s: seq<Byte>, segs: seq<Segment>, open: int, f: Framer) {
    && Chain(s, segs)
    && End(segs) <= |s|
    && f.temp == (if s == [] then 0 else Last(s))
    && f.emitted == Slices(s, segs)
    && (if f.header then Open(s, End(segs), open, f.newImage) else Searching(s, End(segs), open, f.newImage))
  }

  ghost predicate Searching(s: seq<Byte>, from: nat, open: int, image: seq<Byte>) {
    open < 0 && image == [] && forall k :: from <= k ==> !SoiAt(s, k)
  }

  ghost predicate Open(s: seq<Byte>, from: nat, open: int, image: seq<Byte>) {
    && from <= open && SoiAt(s, open) && image == s[open..]
    && (forall k :: from <= k < open ==> !SoiAt(s, k))
    && (forall k :: open <= k ==> !EoiAt(s, k))
  }

  /** Appending a byte changes no pair that was already there. */
  lemma PairsStay(s: seq<Byte>, b: Byte)
    ensures forall k :: k != |s| - 1 ==> (SoiAt(s + [b], k) <==> SoiAt(s, k))
    ensures forall k :: k != |s| - 1 ==> (EoiAt(s + [b], k) <==> EoiAt(s, k))
  {
  }

  lemma LeftmostStays(s: seq<Byte>, b: Byte, from: nat, g: Segment)
    requires Leftmost(s, from, g)
    ensures Leftmost(s + [b], from, g)
    ensures (s + [b])[g.start..g.end] == s[g.start..g.end]
  {
    PairsStay(s, b);
  }

  lemma {:induction false} ChainStays(s: seq<Byte>, b: Byte, segs: seq<Segment>)
    requires Chain(s, segs)
    ensures Chain(s + [b], segs) && Slices(s + [b], segs) == Slices(s, segs)
    decreases |segs|
  {
    if segs != [] {
      ChainStays(s, b, Init(segs));
      LeftmostStays(s, b, End(Init(segs)), Last(segs));
    }
  }

  lemma {:induction false} TrackAll(s: seq<Byte>) returns (segs: seq<Segment>, open: int)
    ensures Tracks(s, segs, open, FeedAll(START, s))
    decreases |s|
  {
    if s == [] {
      segs, open := [], -1;
    } else {
      assert s == Init(s) + [Last(s)];
      segs, open := TrackAll(Init(s));
      segs, open := TrackByte(Init(s), Last(s), segs, open, FeedAll(START, Init(s)));
    }
  }

  lemma TrackByte(t: seq<Byte>, b: Byte, segs: seq<Segment>, open: int, f: Framer) returns (segs': seq<Segment>, open': int)
    requires Tracks(t, segs, open, f)
    ensures Tracks(t + [b], segs', open', Feed(f, b))
  {
    var s := t + [b];
    ChainStays(t, b, segs);
    if f.header && EoiAt(s, |t| - 1) {
      segs', open' := segs + [Segment(open, |s|)], -1;
      CloseImage(t, b, segs, open, f);
    } else if !f.header && SoiAt(s, |t| - 1) {
      segs', open' := segs, |t| - 1;
      OpenImage(t, b, segs, open, f);
    } else {
      segs', open' := segs, open;
      Continue(t, b, segs, open, f);
    }
  }

  lemma ChainMore(s: seq<Byte>, segs: seq<Segment>, g: Segment)
    requires Chain(s, segs) && Leftmost(s, End(segs), g)
    ensures Chain(s, segs + [g]) && End(segs + [g]) == g.end
    ensures Slices(s, segs + [g]) == Slices(s, segs) + [s[g.start..g.end]]
  {
    assert Init(segs + [g]) == segs && Last(segs + [g]) == g;
  }

  /** An open image and its EOI make a leftmost segment. */
  lemma CloseSegment(t: seq<Byte>, b: Byte, from: nat, open: nat, image: seq<Byte>)
    requires Open(t, from, open, image) && EoiAt(t + [b], |t| - 1)
    ensures Leftmost(t + [b], from, Segment(open, |t| + 1)) && (t + [b])[open..|t| + 1] == image + [b]
  {
    PairsStay(t, b);
  }

  lemma CloseImage(t: seq<Byte>, b: Byte, segs: seq<Segment>, open: int, f: Framer)
    requires Tracks(t, segs, open, f) && f.header && EoiAt(t + [b], |t| - 1) && Chain(t + [b], segs)
    requires Slices(t + [b], segs) == Slices(t, segs)
    ensures Tracks(t + [b], segs + [Segment(open, |t| + 1)], -1, Feed(f, b))
  {
    var s := t + [b];
    CloseSegment(t, b, End(segs), open, f.newImage);
    ChainMore(s, segs, Segment(open, |t| + 1));
    assert forall k :: |s| <= k ==> !SoiAt(s, k);
  }

  lemma OpenImage(t: seq<Byte>, b: Byte, segs: seq<Segment>, open: int, f: Framer)
    requires Tracks(t, segs, open, f) && !f.header && SoiAt(t + [b], |t| - 1) && Chain(t + [b], segs)
    requires Slices(t + [b], segs) == Slices(t, segs)
    ensures Tracks(t + [b], segs, |t| - 1, Feed(f, b))
  {
    PairsStay(t, b);
  }

  lemma Continue(t: seq<Byte>, b: Byte, segs: seq<Segment>, open: int, f: Framer)
    requires Tracks(t, segs, open, f) && Chain(t + [b], segs) && Slices(t + [b], segs) == Slices(t, segs)
    requires !(f.header && EoiAt(t + [b], |t| - 1)) && !(!f.header && SoiAt(t + [b], |t| - 1))
    ensures Tracks(t + [b], segs, open, Feed(f, b))
  {
    PairsStay(t, b);
    if f.header {
      assert (t + [b])[open..] == t[open..] + [b];
    }
  }

  /* ---- A stream has one framing only ---- */

  lemma LeftmostUnique(s: seq<Byte>, from: nat, g: Segment, h: Segment)
    requires Leftmost(s, from, g) && Leftmost(s, from, h)
    ensures g == h
  {
    assert g.start <= h.start && h.start <= g.start;
    assert g.end - 2 <= h.end - 2 && h.end - 2 <= g.end - 2;
  }

  lemma {:induction false} ChainsAgree(s: seq<Byte>, a: seq<Segment>, b: seq<Segment>)
    requires Chain(s, a) && Chain(s, b) && |a| <= |b|
    ensures a <= b
    decreases |b|
  {
    if |a| < |b| {
      ChainsAgree(s, a, Init(b));
    } else if a != [] {
      ChainsAgree(s, Init(a), Init(b));
      LeftmostUnique(s, End(Init(a)), Last(a), Last(b));
      assert a == Init(a) + [Last(a)] && b == Init(b) + [Last(b)];
    }
  }

  /** Nothing can follow a framing that is already complete. */
  lemma {:induction false} FramingComplete(s: seq<Byte>, a: seq<Segment>, b: seq<Segment>)
    requires IsFraming(s, a) && Chain(s, b) && a <= b
    ensures a == b
    decreases |b|
  {
    if |a| < |b| {
      FramingComplete(s, a, Init(b));
    }
  }

  lemma FramingUnique(s: seq<Byte>, a: seq<Segment>, b: seq<Segment>)
    requires IsFraming(s, a) && IsFraming(s, b)
    ensures a == b
  {
    if |a| <= |b| {
      ChainsAgree(s, a, b);
      FramingComplete(s, a, b);
    } else {
      ChainsAgree(s, b, a);
      FramingComplete(s, b, a);
    }
  }

  /**
  On every byte stream: there is exactly one leftmost non-overlapping framing, and
  the framer emits its images, in order and nothing else.
  */
  lemma FramerMeetsSpec(s: seq<Byte>) returns (segs: seq<Segment>)
    ensures IsFraming(s, segs) && Frames(s) == Slices(s, segs)
    ensures forall other :: IsFraming(s, other) ==> other == segs
    ensures forall g :: g in segs ==> Marked(s, g)
  {
    var open: int;
    segs, open := TrackAll(s);
    forall other | IsFraming(s, other) ensures other == segs {
      FramingUnique(s, other, segs);
    }
    MarkedEnds(s, segs);
  }

  /** At least four bytes, FF D8 at the start and FF D9 at the end. */
  predicate Marked(s: seq<Byte>, g: Segment) {
    && g.start + 4 <= g.end <= |s|
    && s[g.start] == 0xFF && s[g.start + 1] == 0xD8 && s[g.end - 2] == 0xFF && s[g.end - 1] == 0xD9
  }

  lemma LeftmostMarked(s: seq<Byte>, from: nat, g: Segment)
    requires Leftmost(s, from, g)
    ensures Marked(s, g)
  {
  }

  lemma {:induction false} MarkedEnds(s: seq<Byte>, segs: seq<Segment>)
    requires Chain(s, segs)
    ensures forall g :: g in segs ==> Marked(s, g)
    decreases |segs|
  {
    if segs != [] {
      MarkedEnds(s, Init(segs));
      LeftmostMarked(s, End(Init(segs)), Last(segs));
      assert segs == Init(segs) + [Last(segs)];
    }
  }

  /* ---- The receive loop ---- */

  /**
  The loop of jpeg_client, one outer pass per receive: whatever the chunking,
  even inside a marker, it hands over the images of the joined stream.
  */
  method JpegClient(chunks: seq<seq<Byte>>) returns (images: seq<seq<Byte>>)
    ensures images == Frames(Flatten(chunks))
  {
    var temp: Byte, tempLast: Byte := 0, 0;
    var header := false;
    var newImage: seq<Byte> := [];
    images := [];
    for c := 0 to |chunks|
      invariant Framer(temp, header, newImage, images) == FeedAll(START, Flatten(chunks[..c]))
    {
      var data := chunks[c];
      ghost var seen := Flatten(chunks[..c]);
      assert seen + data[..0] == seen;
      for i := 0 to |data|
        invariant Framer(temp, header, newImage, images) == FeedAll(START, seen + data[..i])
      {
        FeedOne(START, seen + data[..i], data[i]);
        assert seen + data[..i + 1] == seen + data[..i] + [data[i]];
        tempLast := temp;
        temp := data[i];
        if header {
          if temp == EOI && tempLast == MARK {
            header := false;
            newImage := newImage + [temp];
            images := images + [newImage];
            newImage := [];
          } else {
            newImage := newImage + [temp];
          }
        } else if temp == SOI && tempLast == MARK {
          header := true;
          newImage := newImage + [tempLast];
          newImage := newImage + [temp];
        }
      }
      assert data[..|data|] == data;
      assert Init(chunks[..c + 1]) == chunks[..c];
    }
    assert chunks[..|chunks|] == chunks;
  }
}
