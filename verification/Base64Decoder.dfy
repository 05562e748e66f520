/** The decoder as it stands: two tables filled by loops, and a decode loop writing into an output buffer. */
module Base64Decoder {
  import opened Common
  import opened Base64

  /** A bad length is refused; without an output buffer only the length is reported. */
  datatype Outcome = BadLength | LengthOnly(len: nat) | Written(len: nat)

  class B64 {
    const encTable: array<Byte>
    const decTable: array<Byte>

    predicate Allocated() { encTable.Length == 64 && decTable.Length == 256 && encTable != decTable }

    ghost predicate Ready()
      reads encTable, decTable
    {
      && Allocated()
      && (forall v :: 0 <= v < 64 ==> encTable[v] == Letter(v))
      && (forall c :: 0 <= c < 256 ==> decTable[c] == Value(c))
    }

    /** The zero-initialised globals. */
    constructor ()
      ensures Allocated() && fresh(encTable) && fresh(decTable)
      ensures forall c :: 0 <= c < 256 ==> decTable[c] == 0
    {
      encTable := new Byte[64](_ => 0);
      decTable := new Byte[256](_ => 0);
    }

    method FillRange(first: Byte, last: Byte, at: nat)
      requires Allocated() && first <= last && at + (last - first) < 64
      modifies encTable
      ensures forall v :: at <= v <= at + (last - first) ==> encTable[v] == first + (v - at)
      ensures forall v :: 0 <= v < 64 && !(at <= v <= at + (last - first)) ==> encTable[v] == old(encTable[v])
    {
      for ch := first to last + 1
        invariant forall v :: at <= v < at + (ch - first) ==> encTable[v] == first + (v - at)
        invariant forall v :: 0 <= v < 64 && !(at <= v < at + (ch - first)) ==> encTable[v] == old(encTable[v])
      {
        encTable[at + (ch - first)] := ch;
      }
    }

    /** Filling the tables makes the decode table the inverse of the alphabet, and zero elsewhere. */
    method Init()
      requires Allocated() && forall c :: 0 <= c < 256 ==> decTable[c] == 0
      modifies encTable, decTable
      ensures Ready()
    {
      FillRange(65, 90, 0);
      FillRange(97, 122, 26);
      FillRange(48, 57, 52);
      encTable[62], encTable[63] := 43, 47;
      for i := 0 to 64
        invariant forall v :: 0 <= v < 64 ==> encTable[v] == Letter(v)
        invariant forall c :: 0 <= c < 256 ==>
          decTable[c] == if Letter(Value(c)) == c && Value(c) < i then Value(c) else 0
      {
        TableInverts(i, 0);
        decTable[encTable[i]] := i;
      }
      forall c: Byte | Letter(Value(c)) != c ensures Value(c) == 0 {
      }
    }

    /** Six bits of one character. */
    method Nibble(c: Byte) returns (v: nat)
      requires Ready()
      ensures v == Sextet(c)
    {
      v := if c == PAD then 0 else decTable[c];
    }

    /** Four characters, read one after the other. */
    method ReadGroup(input: array<Byte>, i: nat) returns (word: nat)
      requires Ready() && i + 4 <= input.Length
      ensures word == Bits([input[i], input[i + 1], input[i + 2], input[i + 3]])
    {
      var n1 := Nibble(input[i]);
      var n2 := Nibble(input[i + 1]);
      var n3 := Nibble(input[i + 2]);
      var n4 := Nibble(input[i + 3]);
      word := n1 * 0x40000 + n2 * 0x1000 + n3 * 0x40 + n4;
    }

    /** Up to three octets, as far as the reported length allows. */
    method WriteGroup(output: array<Byte>, j: nat, outLen: nat, word: nat) returns (next: nat)
      requires j < outLen <= output.Length
      modifies output
      ensures next == if j + 3 <= outLen then j + 3 else outLen
      ensures forall k :: j <= k < next ==> output[k] == Triple(word)[k - j]
      ensures forall k :: 0 <= k < j || next <= k < output.Length ==> output[k] == old(output[k])
    {
      next := j;
      output[next] := Triple(word)[0];
      next := next + 1;
      if next < outLen {
        output[next] := Triple(word)[1];
        next := next + 1;
      }
      if next < outLen {
        output[next] := Triple(word)[2];
        next := next + 1;
      }
    }

    /** One group of four; the write never overtakes the reads. */
    method DecodeGroup(input: array<Byte>, length: nat, output: array<Byte>, outLen: nat, j: nat, ghost g: nat, i: nat,
                       ghost text: seq<Byte>) returns (next: nat)
      requires Ready() && i == 4 * g < length == |text| <= input.Length && length % 4 == 0
      requires outLen == |Decoded(text)| <= output.Length && j == 3 * g < outLen
      requires output != encTable && output != decTable
      requires Unread(input, text, i) && Decoding(output, text, j)
      modifies output
      ensures i + 4 <= length && Unread(input, text, i + 4)
      ensures next == (if i + 4 < length then 3 * (g + 1) else outLen) <= outLen && Decoding(output, text, next)
      ensures forall k :: outLen <= k < output.Length ==> output[k] == old(output[k])
    {
      GroupAt(text, g);
      FourOf(text, i);
      var word := ReadGroup(input, i);
      next := WriteGroup(output, j, outLen, word);
      forall k | j <= k < next ensures output[k] == Decoded(text)[k] {
        assert Decoded(text)[j..next][k - j] == Octets(text[i..i + 4])[..next - j][k - j];
      }
    }

    /** The text from i on is still in the input buffer. */
    ghost predicate Unread(input: array<Byte>, text: seq<Byte>, i: nat)
      reads input
    {
      |text| <= input.Length && forall k :: i <= k < |text| ==> input[k] == text[k]
    }

    /** The first j octets of the result are in the output buffer. */
    ghost predicate Decoding(output: array<Byte>, text: seq<Byte>, j: nat)
      requires text != [] && |text| % 4 == 0
      reads output
    {
      j <= |Decoded(text)| && j <= output.Length && forall k :: 0 <= k < j ==> output[k] == Decoded(text)[k]
    }

    /** The decode loop. */
    method DecodeGroups(input: array<Byte>, length: nat, output: array<Byte>, outLen: nat)
      requires Ready() && 0 < length <= input.Length && length % 4 == 0
      requires outLen == OutLen(input[..length]) <= output.Length
      requires output != encTable && output != decTable
      modifies output
      ensures output[..outLen] == Decoded(old(input[..length])) && output[outLen..] == old(output[outLen..])
    {
      ghost var text := input[..length];
      ghost var g := 0;
      var i, j := 0, 0;
      while i < length
        invariant i == 4 * g <= length && Ready()
        invariant j == (if i < length then 3 * g else outLen) <= outLen
        invariant Unread(input, text, i) && Decoding(output, text, j)
        invariant forall k :: outLen <= k < output.Length ==> output[k] == old(output[k])
      {
        GroupAt(text, g);
        j := DecodeGroup(input, length, output, outLen, j, g, i, text);
        i, g := i + 4, g + 1;
      }
    }

    /**
    Decodes any text whose length is a positive multiple of four into exactly the
    octets it stands for, touching nothing behind them; the output may be the input
    buffer itself.
    */
    method Decode(input: array<Byte>, length: nat, output: array?<Byte>) returns (r: Outcome)
      requires Ready() && 0 < length <= input.Length
      requires output != null ==> output != encTable && output != decTable
      requires output != null && length % 4 == 0 ==> OutLen(input[..length]) <= output.Length
      modifies output
      ensures r.BadLength? <==> length % 4 != 0
      ensures !r.BadLength? ==> r.len == OutLen(old(input[..length])) && (r.LengthOnly? <==> output == null)
      ensures !r.BadLength? ==>
        r.len == length / 4 * 3 - (if old(input[length - 1]) == '=' as int then 1 else 0)
                                - (if old(input[length - 2]) == '=' as int then 1 else 0)
      ensures r.Written? ==> output[..r.len] == Decoded(old(input[..length])) && output[r.len..] == old(output[r.len..])
      ensures r.BadLength? && output != null ==> output[..] == old(output[..])
    {
      if length % 4 != 0 {
        return BadLength;
      }
      var outLen := length / 4 * 3;
      if input[length - 1] == PAD {
        outLen := outLen - 1;
      }
      if input[length - 2] == PAD {
        outLen := outLen - 1;
      }
      assert outLen == OutLen(input[..length]);
      if output == null {
        return LengthOnly(outLen);
      }
      DecodeGroups(input, length, output, outLen);
      return Written(outLen);
    }
  }

  lemma FourOf(t: seq<Byte>, i: nat)
    requires i + 4 <= |t|
    ensures t[i..i + 4] == [t[i], t[i + 1], t[i + 2], t[i + 3]]
  {
  }

  lemma SliceBehind(t: seq<Byte>, k: nat)
    requires k + 8 <= |t|
    ensures t[4..][k..k + 4] == t[k + 4..k + 8]
  {
  }

  /** Where group g ends in a text that decodes to n octets. */
  function GroupEnd(g: nat, n: nat): nat { if 3 * g + 3 <= n then 3 * g + 3 else n }

  /** Group g of the whole is group g - 1 of what follows the first one. */
  lemma BehindFirst(first: seq<Byte>, rest: seq<Byte>, g: nat)
    requires |first| == 3 && g >= 1 && 3 * (g - 1) < GroupEnd(g - 1, |rest|) <= |rest|
    ensures GroupEnd(g, 3 + |rest|) == GroupEnd(g - 1, |rest|) + 3
    ensures (first + rest)[3 * g..GroupEnd(g, 3 + |rest|)] == rest[3 * (g - 1)..GroupEnd(g - 1, |rest|)]
  {
  }

  lemma FirstAndRest(t: seq<Byte>)
    requires |t| % 4 == 0 && |t| > 4
    ensures Decoded(t) == Octets(t[..4]) + Decoded(t[4..])
  {
  }

  /** In the octets d, group g has its own place, three octets unless it is the last. */
  predicate PlacedIn(d: seq<Byte>, t: seq<Byte>, g: nat)
    requires 4 * g + 4 <= |t|
  {
    var end := GroupEnd(g, |d|);
    && 3 * g < end <= |d| && (4 * g + 4 < |t| ==> end == 3 * g + 3) && (4 * g + 4 == |t| ==> end == |d|)
    && d[3 * g..end] == Octets(t[4 * g..4 * g + 4])[..end - 3 * g]
  }

  lemma FirstPlaced(t: seq<Byte>)
    requires |t| % 4 == 0 && |t| >= 4
    ensures PlacedIn(Decoded(t), t, 0)
  {
    if |t| == 4 {
      assert t[0..4] == t;
    } else {
      var first, rest := Octets(t[..4]), Decoded(t[4..]);
      FirstAndRest(t);
      assert t[..4] == t[0..4];
      assert (first + rest)[0..3] == first;
    }
  }

  lemma LaterPlaced(t: seq<Byte>, first: seq<Byte>, rest: seq<Byte>, g: nat)
    requires |first| == 3 && g >= 1 && 4 * g + 4 <= |t| && PlacedIn(rest, t[4..], g - 1)
    ensures PlacedIn(first + rest, t, g)
  {
    SliceBehind(t, 4 * (g - 1));
    BehindFirst(first, rest, g);
  }

  lemma {:induction false} GroupAt(t: seq<Byte>, g: nat)
    requires |t| % 4 == 0 && 4 * g < |t|
    ensures PlacedIn(Decoded(t), t, g)
  {
    if g == 0 {
      FirstPlaced(t);
    } else {
      GroupAt(t[4..], g - 1);
      FirstAndRest(t);
      LaterPlaced(t, Octets(t[..4]), Decoded(t[4..]), g);
    }
  }
}
