/**
Finding the end of a JSON object in a stream of text: a depth counter, then a skip
over white space.  Braces are counted wherever they stand.
*/
module JsonScan {
  import opened Common

  const OPEN: Byte := 123
  const CLOSE: Byte := 125

  datatype Pointer = Null | At(i: nat)

  function Weight(c: Byte): int { if c == OPEN then 1 else if c == CLOSE then -1 else 0 }

  /** Opening braces minus closing braces. */
  function Depth(t: seq<Byte>): int { if t == [] then 0 else Weight(t[0]) + Depth(t[1..]) }

  /** At k the closing braces exceed the opening ones for the first time, and no NUL came before. */
  ghost predicate ClosesAt(t: seq<Byte>, k: nat) {
    && k < |t| && Depth(t[..k + 1]) == -1
    && (forall j :: 0 <= j <= k ==> t[j] != 0 && Depth(t[..j]) >= 0)
  }

  /** p is the first byte from the given place that is not white space, no later than the end byte itself. */
  ghost predicate FirstSolid(t: seq<Byte>, from: nat, end: int, p: nat)
    requires end < |t|
  {
    from <= p <= end && t[p] > 0x20 && forall j :: from <= j < p ==> 0 < t[j] <= 0x20
  }

  ghost predicate NoneSolid(t: seq<Byte>, from: nat, end: int)
    requires end < |t|
  {
    forall p: nat :: !FirstSolid(t, from, end, p)
  }

  /** What the scan is for. */
  ghost predicate SkipsTo(t: seq<Byte>, start: nat, end: nat, p: nat)
    requires end < |t|
  {
    start <= end && exists k: nat :: ClosesAt(t[start..end], k) && FirstSolid(t, start + k + 1, end, p)
  }

  lemma {:induction false} DepthConcat(a: seq<Byte>, b: seq<Byte>)
    ensures Depth(a + b) == Depth(a) + Depth(b)
    decreases |a|
  {
    if a == [] {
      assert a + b == b;
    } else {
      assert (a + b)[1..] == a[1..] + b;
      DepthConcat(a[1..], b);
    }
  }

  lemma DepthStep(t: seq<Byte>, j: nat)
    requires j < |t|
    ensures Depth(t[..j + 1]) == Depth(t[..j]) + Weight(t[j])
  {
    assert t[..j + 1] == t[..j] + [t[j]];
    DepthConcat(t[..j], [t[j]]);
  }

  /* ---- The scanning loops ---- */

  /** The first byte above space among bufLen + 1 bytes, unless a NUL comes first. */
  method SkipAllSpaces(buf: array<Byte>, at: nat, bufLen: int) returns (r: Pointer)
    requires at + bufLen < buf.Length
    ensures r.At? ==> FirstSolid(buf[..], at, at + bufLen, r.i)
    ensures r.Null? ==> NoneSolid(buf[..], at, at + bufLen)
  {
    var i, left := at, bufLen;
    while left >= 0 && buf[i] != 0
      invariant at <= i && left == bufLen - (i - at) && (left >= -1 || i == at)
      invariant forall j :: at <= j < i ==> 0 < buf[j] <= 0x20
      decreases left
    {
      if buf[i] > 0x20 {
        return At(i);
      }
      i, left := i + 1, left - 1;
    }
    return Null;
  }

  /** The closing brace has not come within the first n bytes, and no NUL. */
  ghost predicate OpenUntil(t: seq<Byte>, n: nat) {
    && n <= |t| && (forall j :: 0 <= j < n ==> t[j] != 0)
    && forall j :: 0 <= j <= n ==> Depth(t[..j]) >= 0
  }

  /** One byte later the text is still open, or has just closed. */
  lemma OneMore(t: seq<Byte>, n: nat)
    requires OpenUntil(t, n) && n < |t| && t[n] != 0
    ensures Depth(t[..n + 1]) == Depth(t[..n]) + Weight(t[n])
    ensures if Depth(t[..n + 1]) == -1 then ClosesAt(t, n) else OpenUntil(t, n + 1)
  {
    DepthStep(t, n);
  }

  /** The scan finds the end of the object, for any text: exactly there, or nowhere. */
  method FindEndObject(buf: array<Byte>, start: Pointer, end: nat) returns (r: Pointer)
    requires end < buf.Length
    ensures forall p: nat :: r == At(p) <==> start.At? && SkipsTo(buf[..], start.i, end, p)
  {
    if start.Null? {
      return Null;
    }
    ghost var part := if start.i <= end then buf[start.i..end] else [];
    var objectCount, i := 1, start.i;
    while i < end && buf[i] != 0
      invariant start.i <= i && OpenUntil(part, i - start.i) && objectCount == 1 + Depth(part[..i - start.i])
    {
      ghost var k := i - start.i;
      OneMore(part, k);
      if buf[i] == OPEN {
        objectCount := objectCount + 1;
      }
      if buf[i] == CLOSE {
        objectCount := objectCount - 1;
      }
      if objectCount == 0 {
        i := i + 1;
        r := SkipAllSpaces(buf, i, end - i);
        Found(buf[..], start.i, end, k, r);
        return;
      }
      i := i + 1;
    }
    NeverCloses(part, i - start.i);
    return Null;
  }

  lemma ClosesOnce(t: seq<Byte>, k: nat, k': nat)
    requires ClosesAt(t, k) && ClosesAt(t, k')
    ensures k == k'
  {
  }

  lemma Found(t: seq<Byte>, s: nat, e: nat, k: nat, r: Pointer)
    requires s <= e < |t| && ClosesAt(t[s..e], k)
    requires if r.At? then FirstSolid(t, s + k + 1, e, r.i) else NoneSolid(t, s + k + 1, e)
    ensures forall p: nat :: r == At(p) <==> SkipsTo(t, s, e, p)
  {
    forall p: nat ensures r == At(p) <==> SkipsTo(t, s, e, p) {
      if SkipsTo(t, s, e, p) {
        var k': nat :| ClosesAt(t[s..e], k') && FirstSolid(t, s + k' + 1, e, p);
        ClosesOnce(t[s..e], k, k');
      }
    }
  }

  lemma NeverCloses(t: seq<Byte>, n: nat)
    requires OpenUntil(t, n) && (n == |t| || t[n] == 0)
    ensures forall k: nat :: !ClosesAt(t, k)
  {
    forall k: nat ensures !ClosesAt(t, k) {
      if k + 1 <= n {
        assert Depth(t[..k + 1]) >= 0;
      }
    }
  }

  /* ---- Balanced text ---- */

  /** Text with nested objects, as a grammar. */
  datatype Text = End | Plain(c: Byte, rest: Text) | Object(body: Text, rest: Text)

  predicate Proper(x: Text) {
    match x
    case End => true
    case Plain(c, rest) => c != 0 && c != OPEN && c != CLOSE && Proper(rest)
    case Object(body, rest) => Proper(body) && Proper(rest)
  }

  function Render(x: Text): seq<Byte> {
    match x
    case End => []
    case Plain(c, rest) => [c] + Render(rest)
    case Object(body, rest) => [OPEN] + Render(body) + [CLOSE] + Render(rest)
  }

  ghost predicate Balanced(t: seq<Byte>) {
    && Depth(t) == 0 && (forall j :: 0 <= j < |t| ==> t[j] != 0)
    && forall j :: 0 <= j <= |t| ==> Depth(t[..j]) >= 0
  }

  lemma BalancedConcat(a: seq<Byte>, b: seq<Byte>)
    requires Balanced(a) && Balanced(b)
    ensures Balanced(a + b)
  {
    DepthConcat(a, b);
    forall j | 0 <= j <= |a + b| ensures Depth((a + b)[..j]) >= 0 {
      if j <= |a| {
        assert (a + b)[..j] == a[..j];
      } else {
        assert (a + b)[..j] == a + b[..j - |a|];
        DepthConcat(a, b[..j - |a|]);
      }
    }
  }

  lemma BalancedWrap(a: seq<Byte>)
    requires Balanced(a)
    ensures Balanced([OPEN] + a + [CLOSE])
  {
    var t := [OPEN] + a + [CLOSE];
    DepthConcat([OPEN] + a, [CLOSE]);
    DepthConcat([OPEN], a);
    forall j | 0 <= j <= |t| ensures Depth(t[..j]) >= 0 {
      if j == 0 {
      } else if j <= |a| + 1 {
        assert t[..j] == [OPEN] + a[..j - 1];
        DepthConcat([OPEN], a[..j - 1]);
      } else {
        assert t[..j] == t;
      }
    }
  }

  lemma {:induction false} RenderBalanced(x: Text)
    requires Proper(x)
    ensures Balanced(Render(x))
  {
    match x {
      case End =>
      case Plain(c, rest) =>
        RenderBalanced(rest);
        PlainBalanced(c);
        BalancedConcat([c], Render(rest));
      case Object(body, rest) =>
        RenderBalanced(body);
        RenderBalanced(rest);
        BalancedWrap(Render(body));
        BalancedConcat([OPEN] + Render(body) + [CLOSE], Render(rest));
    }
  }

  lemma PlainBalanced(c: Byte)
    requires c != 0 && c != OPEN && c != CLOSE
    ensures Balanced([c])
  {
    assert [c][..0] == [] && [c][..1] == [c];
  }

  /** Where the object opened by the first byte is closed. */
  lemma {:induction false} Partner(t: seq<Byte>, n: nat) returns (k: nat)
    requires 1 <= n < |t| && t[0] == OPEN && Depth(t[..n + 1]) == 0
    ensures 1 <= k <= n && Depth(t[..k + 1]) == 0
    ensures forall j :: 1 <= j <= k ==> Depth(t[..j]) != 0
  {
    if j :| 1 <= j <= n && Depth(t[..j]) == 0 {
      DepthStep(t, 0);
      k := Partner(t, j - 1);
    } else {
      k := n;
    }
  }

  lemma DropDepth(t: seq<Byte>, from: nat, to: nat)
    requires from <= to <= |t|
    ensures Depth(t[from..to]) == Depth(t[..to]) - Depth(t[..from])
  {
    assert t[..to] == t[..from] + t[from..to];
    DepthConcat(t[..from], t[from..to]);
  }

  lemma SliceBalanced(t: seq<Byte>, from: nat, to: nat)
    requires from <= to <= |t| && (forall j :: 0 <= j < |t| ==> t[j] != 0)
    requires Depth(t[..to]) == Depth(t[..from]) && forall j :: from <= j <= to ==> Depth(t[..j]) >= Depth(t[..from])
    ensures Balanced(t[from..to])
  {
    DropDepth(t, from, to);
    forall j | 0 <= j <= to - from ensures Depth(t[from..to][..j]) >= 0 {
      assert t[from..to][..j] == t[from..from + j];
      DropDepth(t, from, from + j);
    }
  }

  /** Balanced text that starts with a brace falls into an object and the rest. */
  lemma ObjectFirst(t: seq<Byte>) returns (k: nat)
    requires Balanced(t) && t != [] && t[0] == OPEN
    ensures 1 <= k < |t| && t[k] == CLOSE && Balanced(t[1..k]) && Balanced(t[k + 1..])
    ensures t == [OPEN] + t[1..k] + [CLOSE] + t[k + 1..]
  {
    assert t[..|t|] == t;
    DepthStep(t, 0);
    k := Partner(t, |t| - 1);
    DepthStep(t, k);
    SliceBalanced(t, 1, k);
    SliceBalanced(t, k + 1, |t|);
    assert t[k + 1..|t|] == t[k + 1..];
  }

  lemma PlainFirst(t: seq<Byte>)
    requires Balanced(t) && t != [] && t[0] != OPEN
    ensures t[0] != CLOSE && Balanced(t[1..])
  {
    assert t[..|t|] == t;
    DepthStep(t, 0);
    SliceBalanced(t, 1, |t|);
    assert t[1..|t|] == t[1..];
  }

  /** Every balanced text is a rendering. */
  lemma {:induction false} BalancedRendered(t: seq<Byte>) returns (x: Text)
    requires Balanced(t)
    ensures Proper(x) && Render(x) == t
    decreases |t|
  {
    if t == [] {
      x := End;
    } else if t[0] != OPEN {
      PlainFirst(t);
      var rest := BalancedRendered(t[1..]);
      x := Plain(t[0], rest);
    } else {
      var k := ObjectFirst(t);
      var body := BalancedRendered(t[1..k]);
      var rest := BalancedRendered(t[k + 1..]);
      x := Object(body, rest);
    }
  }

  lemma ClosesBalanced(t: seq<Byte>, k: nat)
    requires k < |t|
    ensures ClosesAt(t, k) <==> t[k] == CLOSE && Balanced(t[..k])
  {
    DepthStep(t, k);
    forall j | 0 <= j <= k ensures t[..k][..j] == t[..j] {
    }
  }

  /** One object skipped: properly nested text, its closing brace, and white space up to p. */
  ghost predicate OneObject(t: seq<Byte>, start: nat, end: nat, p: nat, x: Text, k: nat)
    requires end < |t|
  {
    Proper(x) && start <= k < end && t[start..k] == Render(x) && t[k] == CLOSE && FirstSolid(t, k + 1, end, p)
  }

  lemma SkippedIsObject(t: seq<Byte>, start: nat, end: nat, p: nat) returns (x: Text, k: nat)
    requires start <= end < |t| && SkipsTo(t, start, end, p)
    ensures OneObject(t, start, end, p, x, k)
  {
    var part := t[start..end];
    var n: nat :| ClosesAt(part, n) && FirstSolid(t, start + n + 1, end, p);
    ClosesBalanced(part, n);
    x := BalancedRendered(part[..n]);
    k := start + n;
    assert t[start..k] == part[..n];
  }

  lemma ObjectIsSkipped(t: seq<Byte>, start: nat, end: nat, p: nat, x: Text, k: nat)
    requires start <= end < |t| && OneObject(t, start, end, p, x, k)
    ensures SkipsTo(t, start, end, p)
  {
    var part, n := t[start..end], k - start;
    RenderBalanced(x);
    assert part[..n] == t[start..k];
    ClosesBalanced(part, n);
    assert ClosesAt(part, n) && FirstSolid(t, start + n + 1, end, p);
  }

  /**
  The scan skips exactly one object of any nesting depth: what lies before the
  closing brace it stops at is a rendering of properly nested text, and every such
  text is skipped.
  */
  lemma SkipsOneObject(t: seq<Byte>, start: nat, end: nat, p: nat)
    requires start <= end < |t|
    ensures SkipsTo(t, start, end, p) <==> exists x, k: nat :: OneObject(t, start, end, p, x, k)
  {
    if SkipsTo(t, start, end, p) {
      var x, k := SkippedIsObject(t, start, end, p);
    }
    if x, k: nat :| OneObject(t, start, end, p, x, k) {
      ObjectIsSkipped(t, start, end, p, x, k);
    }
  }

  /* ---- The byte behind the text ---- */

  /** The object is closed and only white space follows up to the end, so that the byte there decides. */
  ghost predicate SpaceToEnd(t: seq<Byte>, start: nat, end: nat)
    requires end < |t|
  {
    start <= end && exists k: nat :: ClosesAt(t[start..end], k) && forall j :: start + k + 1 <= j < end ==> 0 < t[j] <= 0x20
  }

  /** Without that, a scan that ends does so before the end byte, and so does the scan with another byte there. */
  lemma EndsBefore(t: seq<Byte>, b: Byte, start: nat, end: nat, p: nat)
    requires end < |t| && !SpaceToEnd(t, start, end) && SkipsTo(t, start, end, p)
    ensures SkipsTo(t[end := b], start, end, p)
  {
    var u := t[end := b];
    assert u[start..end] == t[start..end];
    var k: nat :| ClosesAt(t[start..end], k) && FirstSolid(t, start + k + 1, end, p);
    assert FirstSolid(u, start + k + 1, end, p);
  }

  lemma SameSpace(t: seq<Byte>, b: Byte, start: nat, end: nat)
    requires end < |t| && SpaceToEnd(t[end := b], start, end)
    ensures SpaceToEnd(t, start, end)
  {
    var u := t[end := b];
    assert u[start..end] == t[start..end];
    var k: nat :| ClosesAt(u[start..end], k) && forall j :: start + k + 1 <= j < end ==> 0 < u[j] <= 0x20;
    assert forall j :: start + k + 1 <= j < end ==> t[j] == u[j];
  }

  /** With it, the scan ends there if and only if that byte is above space. */
  lemma EndsThere(t: seq<Byte>, start: nat, end: nat)
    requires end < |t| && SpaceToEnd(t, start, end)
    ensures SkipsTo(t, start, end, end) <==> t[end] > 0x20
  {
    var k: nat :| ClosesAt(t[start..end], k) && forall j :: start + k + 1 <= j < end ==> 0 < t[j] <= 0x20;
    if t[end] > 0x20 {
      assert FirstSolid(t, start + k + 1, end, end);
    }
  }

  lemma SpaceAgain(t: seq<Byte>, b: Byte, start: nat, end: nat)
    requires end < |t| && SpaceToEnd(t, start, end)
    ensures SpaceToEnd(t[end := b], start, end)
  {
    assert t[end := b][end := t[end]] == t;
    SameSpace(t[end := b], t[end], start, end);
  }

  /** The byte behind the text makes no difference to the scan. */
  ghost predicate Independent(t: seq<Byte>, start: nat, end: nat)
    requires end < |t|
  {
    forall u: seq<Byte> :: SameBut(t, u, end) ==> SameScan(t, u, start, end)
  }

  predicate SameBut(t: seq<Byte>, u: seq<Byte>, end: nat)
    requires end < |t|
  {
    |u| == |t| && u == t[end := u[end]]
  }

  ghost predicate SameScan(t: seq<Byte>, u: seq<Byte>, start: nat, end: nat)
    requires end < |t| == |u|
  {
    forall p: nat :: SkipsTo(u, start, end, p) <==> SkipsTo(t, start, end, p)
  }

  lemma NoSpaceSameScan(t: seq<Byte>, b: Byte, start: nat, end: nat)
    requires end < |t| && !SpaceToEnd(t, start, end)
    ensures SameScan(t, t[end := b], start, end)
  {
    var u := t[end := b];
    assert u[end := t[end]] == t;
    if SpaceToEnd(u, start, end) {
      SameSpace(t, b, start, end);
    }
    forall p: nat ensures SkipsTo(u, start, end, p) <==> SkipsTo(t, start, end, p) {
      if SkipsTo(t, start, end, p) {
        EndsBefore(t, b, start, end, p);
      }
      if SkipsTo(u, start, end, p) {
        EndsBefore(u, t[end], start, end, p);
      }
    }
  }

  /**
  The scan reads the byte at the end pointer, behind the text.  Its result does not
  depend on that byte exactly unless the object is closed and followed by white space
  only.
  */
  lemma EndByteExactly(t: seq<Byte>, start: nat, end: nat)
    requires end < |t|
    ensures Independent(t, start, end) <==> !SpaceToEnd(t, start, end)
  {
    if SpaceToEnd(t, start, end) {
      SpaceAgain(t, 65, start, end);
      SpaceAgain(t, 32, start, end);
      EndsThere(t[end := 65], start, end);
      EndsThere(t[end := 32], start, end);
      assert SameBut(t, t[end := 65], end) && SameBut(t, t[end := 32], end);
      assert !SameScan(t, t[end := 65], start, end) || !SameScan(t, t[end := 32], start, end);
    } else {
      forall u: seq<Byte> | SameBut(t, u, end) ensures SameScan(t, u, start, end) {
        NoSpaceSameScan(t, u[end], start, end);
      }
    }
  }

  /* ---- Objects split over two buffers ---- */

  lemma DepthAcross(a: seq<Byte>, b: seq<Byte>, j: nat)
    requires j <= |b|
    ensures (a + b)[..|a| + j] == a + b[..j] && Depth((a + b)[..|a| + j]) == Depth(a) + Depth(b[..j])
  {
    assert (a + b)[..|a| + j] == a + b[..j];
    DepthConcat(a, b[..j]);
  }

  /** White space has no braces. */
  lemma {:induction false} SpaceDepth(t: seq<Byte>)
    requires forall j :: 0 <= j < |t| ==> t[j] <= 0x20
    ensures Depth(t) == 0
  {
    if t != [] {
      SpaceDepth(t[1..]);
    }
  }

  /** A brace that closes in the first part, with nothing but white space behind it, leaves that part unbalanced. */
  lemma ClosedBefore(a: seq<Byte>, k: nat)
    requires ClosesAt(a, k) && forall j :: k < j < |a| ==> a[j] <= 0x20
    ensures Depth(a) == -1
  {
    assert a == a[..k + 1] + a[k + 1..];
    DepthConcat(a[..k + 1], a[k + 1..]);
    SpaceDepth(a[k + 1..]);
  }

  /** When the whole closes in the second part, the second part alone closes there exactly if the first is balanced. */
  lemma ClosesInSecond(a: seq<Byte>, b: seq<Byte>, k: nat)
    requires ClosesAt(a + b, |a| + k)
    ensures Depth(a) >= 0 && (ClosesAt(b, k) <==> Depth(a) == 0)
  {
    assert (a + b)[..|a|] == a;
    forall j | 0 <= j <= |b| ensures Depth((a + b)[..|a| + j]) == Depth(a) + Depth(b[..j]) {
      DepthAcross(a, b, j);
    }
    assert Depth((a + b)[..|a| + (k + 1)]) == Depth(a) + Depth(b[..k + 1]);
    forall j | 0 <= j <= k ensures b[j] != 0 && Depth(a) + Depth(b[..j]) >= 0 {
      assert b[j] == (a + b)[|a| + j];
    }
  }

  /** Nothing solid lies between the closing brace and where the scan ends. */
  lemma SameBrace(t: seq<Byte>, end: nat, p: nat, k: nat, k': nat)
    requires end < |t| && ClosesAt(t[..end], k') && FirstSolid(t, k' + 1, end, p)
    requires k < end && t[k] == CLOSE && k < p && FirstSolid(t, k + 1, end, p)
    ensures k == k'
  {
    ClosesBalanced(t[..end], k');
    assert t[..end][k'] == t[k'];
  }

  lemma ResumedThere(t: seq<Byte>, end: nat, p: nat, k: nat)
    requires end < |t| && k < end && t[k] == CLOSE && FirstSolid(t, k + 1, end, p)
    ensures SkipsTo(t, 0, end, p) <==> ClosesAt(t[..end], k)
  {
    assert t[0..end] == t[..end];
    if SkipsTo(t, 0, end, p) {
      var k': nat :| ClosesAt(t[0..end], k') && FirstSolid(t, 0 + k' + 1, end, p);
      SameBrace(t, end, p, k, k');
    }
    if ClosesAt(t[0..end], k) {
      assert FirstSolid(t, 0 + k + 1, end, p);
    }
  }

  lemma ResumeInSecond(a: seq<Byte>, t: seq<Byte>, end: nat, p: nat, k: nat)
    requires end < |t| && ClosesAt(a + t[..end], |a| + k) && FirstSolid(t, k + 1, end, p)
    ensures SkipsTo(t, 0, end, p) <==> Depth(a) == 0
  {
    ClosesInSecond(a, t[..end], k);
    ClosesBalanced(a + t[..end], |a| + k);
    assert t[k] == (a + t[..end])[|a| + k];
    ResumedThere(t, end, p, k);
  }

  /**
  When an object is not ended in the first buffer, the scan of the next one starts
  again at depth one.  If the scan of both together ends at a place in the second
  buffer, the restarted scan ends there exactly when the first part was balanced.
  */
  lemma ResumeExactly(a: seq<Byte>, t: seq<Byte>, end: nat, p: nat)
    requires end < |t| && SkipsTo(a + t, 0, |a| + end, |a| + p)
    ensures SkipsTo(t, 0, end, p) <==> Depth(a) == 0
  {
    var n := WholeCloses(a, t, end, |a| + p);
    if n >= |a| {
      SolidBehind(a, t, end, p, n - |a|);
      ResumeInSecond(a, t, end, p, n - |a|);
    } else {
      ClosesInFirst(a, t, end, p, n);
    }
  }

  lemma WholeCloses(a: seq<Byte>, t: seq<Byte>, end: nat, q: nat) returns (n: nat)
    requires end < |t| && SkipsTo(a + t, 0, |a| + end, q)
    ensures ClosesAt(a + t[..end], n) && FirstSolid(a + t, n + 1, |a| + end, q)
  {
    assert (a + t)[0..|a| + end] == a + t[..end];
    n :| ClosesAt((a + t)[0..|a| + end], n) && FirstSolid(a + t, 0 + n + 1, |a| + end, q);
  }

  lemma SolidBehind(a: seq<Byte>, t: seq<Byte>, end: nat, p: nat, k: nat)
    requires end < |t| && FirstSolid(a + t, |a| + k + 1, |a| + end, |a| + p)
    ensures FirstSolid(t, k + 1, end, p)
  {
    forall j | k + 1 <= j < p ensures 0 < t[j] <= 0x20 {
      assert t[j] == (a + t)[|a| + j];
    }
    assert t[p] == (a + t)[|a| + p];
  }

  lemma ClosesInFirst(a: seq<Byte>, t: seq<Byte>, end: nat, p: nat, n: nat)
    requires end < |t| && n < |a| && ClosesAt(a + t[..end], n) && FirstSolid(a + t, n + 1, |a| + end, |a| + p)
    ensures Depth(a) == -1 && !SkipsTo(t, 0, end, p)
  {
    var part := a + t[..end];
    forall j | 0 <= j <= n + 1 ensures part[..j] == a[..j] {
    }
    assert ClosesAt(a, n) by {
      forall j | 0 <= j <= n ensures a[j] != 0 && Depth(a[..j]) >= 0 {
        assert part[j] == a[j];
      }
    }
    assert forall j :: n < j < |a| ==> a[j] == (a + t)[j];
    ClosedBefore(a, n);
    forall k: nat ensures !(ClosesAt(t[0..end], k) && FirstSolid(t, 0 + k + 1, end, p)) {
      if k < end {
        ClosesBalanced(t[0..end], k);
        assert t[k] == (a + t)[|a| + k];
      }
    }
  }
}
