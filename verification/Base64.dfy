/** The base64 encoding of section 4 of RFC 4648, and what the decoder computes on any text. */
module Base64 {
  import opened Common

  const PAD: Byte := 61

  /** Table 1 of RFC 4648. */
  function Letter(value: nat): (c: Byte)
    requires value < 64
  {
    if value < 26 then 65 + value
    else if value < 52 then 97 + (value - 26)
    else if value < 62 then 48 + (value - 52)
    else if value == 62 then 43
    else 47
  }

  ghost predicate InAlphabet(c: Byte) { exists v: nat :: v < 64 && Letter(v) == c }

  /** The decode table: the value of a letter, and 0 for every other byte. */
  function Value(c: Byte): (v: nat)
    ensures v < 64
  {
    if 65 <= c <= 90 then c - 65
    else if 97 <= c <= 122 then c - 97 + 26
    else if 48 <= c <= 57 then c - 48 + 52
    else if c == 43 then 62
    else if c == 47 then 63
    else 0
  }

  /** The table inverts the alphabet, and the padding character is not a letter. */
  lemma TableInverts(v: nat, c: Byte)
    requires v < 64
    ensures Value(Letter(v)) == v && Letter(v) != PAD
    ensures InAlphabet(c) <==> Letter(Value(c)) == c
    ensures !InAlphabet(c) ==> Value(c) == 0
  {
    if InAlphabet(c) {
      var u: nat :| u < 64 && Letter(u) == c;
      assert Value(Letter(u)) == u;
    }
  }

  /** The order of the letters: upper case, lower case, digits, plus and slash. */
  lemma LettersInOrder(v: nat)
    requires v < 64
    ensures Letter(v) == if v < 26 then 'A' as int + v else if v < 52 then 'a' as int + v - 26
                         else if v < 62 then '0' as int + v - 52 else if v == 62 then '+' as int else '/' as int
  {
  }

  /* ---- Encoding ---- */

  /** One, two or three octets as a quantum of four characters. */
  function Quantum(d: seq<Byte>): (t: seq<Byte>)
    requires 1 <= |d| <= 3
    ensures |t| == 4
  {
    if |d| == 1 then [Letter(d[0] / 4), Letter(d[0] % 4 * 16), PAD, PAD]
    else if |d| == 2 then [Letter(d[0] / 4), Letter(d[0] % 4 * 16 + d[1] / 16), Letter(d[1] % 16 * 4), PAD]
    else [Letter(d[0] / 4), Letter(d[0] % 4 * 16 + d[1] / 16), Letter(d[1] % 16 * 4 + d[2] / 64), Letter(d[2] % 64)]
  }

  function Encode(d: seq<Byte>): (t: seq<Byte>)
    ensures |t| % 4 == 0 && (t == [] <==> d == [])
  {
    if d == [] then [] else if |d| <= 3 then Quantum(d) else Quantum(d[..3]) + Encode(d[3..])
  }

  lemma {:induction false} EncodeLength(d: seq<Byte>)
    ensures |Encode(d)| == (|d| + 2) / 3 * 4
  {
    if |d| > 3 {
      EncodeLength(d[3..]);
      assert (|d| + 2) / 3 == 1 + (|d[3..]| + 2) / 3;
    } else {
      assert d != [] ==> (|d| + 2) / 3 == 1;
    }
  }

  function Ascii(text: string): (b: seq<Byte>)
    requires forall k :: 0 <= k < |text| ==> text[k] < 256 as char
  {
    seq(|text|, k requires 0 <= k < |text| => text[k] as int)
  }

  /** The three padding cases among the test vectors of section 10 of RFC 4648. */
  lemma TestVectors()
    ensures Encode(Ascii("f")) == Ascii("Zg==") && Encode(Ascii("fo")) == Ascii("Zm8=")
    ensures Encode(Ascii("foo")) == Ascii("Zm9v")
  {
  }

  /* ---- Decoding ---- */

  /** A character's six bits; padding counts as zero. */
  function Sextet(c: Byte): (v: nat)
    ensures v < 64
  {
    if c == PAD then 0 else Value(c)
  }

  /** The 24 bits of a quantum. */
  function Bits(t: seq<Byte>): nat
    requires |t| == 4
  {
    Sextet(t[0]) * 0x40000 + Sextet(t[1]) * 0x1000 + Sextet(t[2]) * 0x40 + Sextet(t[3])
  }

  /** The low 24 bits of a word as three octets, high first. */
  function Triple(word: nat): (d: seq<Byte>)
    ensures |d| == 3
  {
    [word / 0x10000 % 256, word / 0x100 % 256, word % 256]
  }

  function Octets(t: seq<Byte>): (d: seq<Byte>)
    requires |t| == 4
    ensures |d| == 3
  {
    Triple(Bits(t))
  }

  /** How many octets the last two characters say are missing. */
  function Missing(t: seq<Byte>): (n: nat)
    requires |t| >= 4
    ensures n <= 2
  {
    (if t[|t| - 1] == PAD then 1 else 0) + (if t[|t| - 2] == PAD then 1 else 0)
  }

  /** The reported length. */
  function OutLen(t: seq<Byte>): nat
    requires |t| >= 4
  {
    |t| / 4 * 3 - Missing(t)
  }

  function Decoded(t: seq<Byte>): (d: seq<Byte>)
    requires t != [] && |t| % 4 == 0
    ensures |d| == OutLen(t)
  {
    if |t| == 4 then Octets(t)[..3 - Missing(t)]
    else Octets(t[..4]) + Decoded(t[4..])
  }

  /* ---- Round trips ---- */

  /** One to three octets, filled up with zeros. */
  function Filled(d: seq<Byte>): (f: seq<Byte>)
    requires 1 <= |d| <= 3
    ensures |f| == 3
  {
    [d[0], if |d| > 1 then d[1] else 0, if |d| > 2 then d[2] else 0]
  }

  lemma QuantumSextets(d: seq<Byte>)
    requires 1 <= |d| <= 3
    ensures var t, f := Quantum(d), Filled(d);
      && Sextet(t[0]) == f[0] / 4 && Sextet(t[1]) == f[0] % 4 * 16 + f[1] / 16
      && Sextet(t[2]) == f[1] % 16 * 4 + f[2] / 64 && Sextet(t[3]) == f[2] % 64
      && Missing(t) == 3 - |d|
  {
    var f := Filled(d);
    TableInverts(f[0] / 4, 0);
    TableInverts(f[0] % 4 * 16 + f[1] / 16, 0);
    TableInverts(f[1] % 16 * 4 + f[2] / 64, 0);
    TableInverts(f[2] % 64, 0);
  }

  lemma QuantumOctets(d: seq<Byte>)
    requires 1 <= |d| <= 3
    ensures Octets(Quantum(d)) == Filled(d)
  {
    var f := Filled(d);
    QuantumSextets(d);
    Word(f[0], f[1], f[2]);
    Bytes(f[0], f[1], f[2]);
  }

  lemma QuantumDecodes(d: seq<Byte>)
    requires 1 <= |d| <= 3
    ensures Decoded(Quantum(d)) == d && (|d| == 3 ==> Octets(Quantum(d)) == d)
  {
    QuantumOctets(d);
    QuantumSextets(d);
    assert Filled(d)[..|d|] == d;
  }

  lemma Bytes(b0: Byte, b1: Byte, b2: Byte)
    ensures var word := b0 * 0x10000 + b1 * 0x100 + b2;
      word / 0x10000 % 256 == b0 && word / 0x100 % 256 == b1 && word % 256 == b2
  {
    var word := b0 * 0x10000 + b1 * 0x100 + b2;
    ModUnique(word, 0x10000, b0, b1 * 0x100 + b2);
    ModUnique(word, 0x100, b0 * 256 + b1, b2);
    ModUnique(b0 * 256 + b1, 256, b0, b1);
  }

  /** Four sextets carry exactly the bits of three octets. */
  lemma Word(b0: Byte, b1: Byte, b2: Byte)
    ensures b0 / 4 * 0x40000 + (b0 % 4 * 16 + b1 / 16) * 0x1000 + (b1 % 16 * 4 + b2 / 64) * 0x40 + b2 % 64
         == b0 * 0x10000 + b1 * 0x100 + b2
  {
    var q0, r0, q1, r1, q2, r2 := b0 / 4, b0 % 4, b1 / 16, b1 % 16, b2 / 64, b2 % 64;
    assert b0 == 4 * q0 + r0 && b1 == 16 * q1 + r1 && b2 == 64 * q2 + r2;
  }

  /** Decoding what was encoded gives it back, for every non-empty byte string and all three padding cases. */
  lemma {:induction false} DecodeInvertsEncode(d: seq<Byte>)
    requires d != []
    ensures Decoded(Encode(d)) == d && OutLen(Encode(d)) == |d|
  {
    if |d| <= 3 {
      QuantumDecodes(d);
    } else {
      var t := Encode(d);
      QuantumDecodes(d[..3]);
      DecodeInvertsEncode(d[3..]);
      assert t[..4] == Quantum(d[..3]) && t[4..] == Encode(d[3..]);
      assert d == d[..3] + d[3..];
    }
  }

  /** Four letters, or a padded last quantum whose unused bits are zero. */
  ghost predicate CanonicalQuantum(t: seq<Byte>, last: bool)
    requires |t| == 4
  {
    && InAlphabet(t[0]) && InAlphabet(t[1])
    && (|| (InAlphabet(t[2]) && InAlphabet(t[3]))
        || (last && InAlphabet(t[2]) && t[3] == PAD && Value(t[2]) % 4 == 0)
        || (last && t[2] == PAD && t[3] == PAD && Value(t[1]) % 16 == 0))
  }

  ghost predicate Canonical(t: seq<Byte>)
    requires |t| % 4 == 0
  {
    forall k :: 0 <= k < |t| / 4 ==> CanonicalQuantum(t[4 * k..4 * k + 4], 4 * k + 4 == |t|)
  }

  lemma QuantumCanonical(d: seq<Byte>)
    requires 1 <= |d| <= 3
    ensures CanonicalQuantum(Quantum(d), true) && (|d| == 3 ==> CanonicalQuantum(Quantum(d), false))
  {
    var b0, b1, b2 := d[0], if |d| > 1 then d[1] else 0, if |d| > 2 then d[2] else 0;
    TableInverts(b0 / 4, 0);
    TableInverts(b0 % 4 * 16 + b1 / 16, 0);
    TableInverts(b1 % 16 * 4 + b2 / 64, 0);
    TableInverts(b2 % 64, 0);
  }

  /** And three octets carry exactly the bits of four sextets. */
  lemma Sextets(s0: nat, s1: nat, s2: nat, s3: nat)
    requires s0 < 64 && s1 < 64 && s2 < 64 && s3 < 64
    ensures var word := s0 * 0x40000 + s1 * 0x1000 + s2 * 0x40 + s3;
      var b0, b1, b2 := word / 0x10000 % 256, word / 0x100 % 256, word % 256;
      b0 / 4 == s0 && b0 % 4 * 16 + b1 / 16 == s1 && b1 % 16 * 4 + b2 / 64 == s2 && b2 % 64 == s3
      && b1 / 16 == s1 % 16 && b2 / 64 == s2 % 4
  {
    var q1, r1, q2, r2 := s1 / 16, s1 % 16, s2 / 4, s2 % 4;
    var b0, b1, b2 := s0 * 4 + q1, r1 * 16 + q2, r2 * 64 + s3;
    assert s1 == 16 * q1 + r1 && s2 == 4 * q2 + r2;
    assert s0 * 0x40000 + s1 * 0x1000 + s2 * 0x40 + s3 == b0 * 0x10000 + b1 * 0x100 + b2;
    Bytes(b0, b1, b2);
    ModUnique(b0, 4, s0, q1);
    ModUnique(b1, 16, r1, q2);
    ModUnique(b2, 64, r2, s3);
  }

  /** These three octets and these four sextets are the same 24 bits. */
  predicate SameBits(s: seq<nat>, d: seq<Byte>)
    requires |s| == 4 && |d| == 3
  {
    && d[0] / 4 == s[0] && d[0] % 4 * 16 + d[1] / 16 == s[1]
    && d[1] % 16 * 4 + d[2] / 64 == s[2] && d[2] % 64 == s[3]
    && d[1] / 16 == s[1] % 16 && d[2] / 64 == s[2] % 4
  }

  function SextetsOf(t: seq<Byte>): (s: seq<nat>)
    requires |t| == 4
    ensures |s| == 4 && forall k :: 0 <= k < 4 ==> s[k] < 64
  {
    [Sextet(t[0]), Sextet(t[1]), Sextet(t[2]), Sextet(t[3])]
  }

  lemma OctetsSameBits(t: seq<Byte>)
    requires |t| == 4
    ensures SameBits(SextetsOf(t), Octets(t))
  {
    Sextets(Sextet(t[0]), Sextet(t[1]), Sextet(t[2]), Sextet(t[3]));
  }

  /** A quantum of n octets is spelled by its first n + 1 sextets when the rest of its bits are zero. */
  lemma Respell(t: seq<Byte>, s: seq<nat>, d: seq<Byte>, n: nat)
    requires |t| == |s| == 4 && |d| == 3 && 1 <= n <= 3 && SameBits(s, d) && forall k :: 0 <= k < 4 ==> s[k] < 64
    requires forall k :: 0 <= k <= n ==> t[k] == Letter(s[k])
    requires forall k :: n < k < 4 ==> t[k] == PAD
    requires (n == 1 ==> s[1] % 16 == 0) && (n == 2 ==> s[2] % 4 == 0)
    ensures Quantum(d[..n]) == t
  {
  }

  lemma QuantumEncodes(t: seq<Byte>, last: bool)
    requires |t| == 4 && CanonicalQuantum(t, last)
    ensures Quantum(Decoded(t)) == t && (!last ==> Quantum(Octets(t)) == t)
  {
    var n := 3 - Missing(t);
    CanonicalLetters(t, last, n);
    OctetsSameBits(t);
    Respell(t, SextetsOf(t), Octets(t), n);
    assert Octets(t)[..3] == Octets(t);
  }

  lemma CanonicalLetters(t: seq<Byte>, last: bool, n: nat)
    requires |t| == 4 && CanonicalQuantum(t, last) && n == 3 - Missing(t)
    ensures var s := SextetsOf(t);
      && (forall k :: 0 <= k <= n ==> t[k] == Letter(s[k]))
      && (forall k :: n < k < 4 ==> t[k] == PAD)
      && (n == 1 ==> s[1] % 16 == 0) && (n == 2 ==> s[2] % 4 == 0) && (!last ==> n == 3)
  {
    forall k | 0 <= k < 4 ensures InAlphabet(t[k]) ==> Letter(Sextet(t[k])) == t[k] && t[k] != PAD {
      TableInverts(Value(t[k]), t[k]);
    }
  }

  lemma CanonicalTail(t: seq<Byte>)
    requires |t| % 4 == 0 && |t| > 4
    ensures Canonical(t) <==> CanonicalQuantum(t[..4], false) && Canonical(t[4..])
  {
    forall k | 1 <= k < |t| / 4 ensures t[4 * k..4 * k + 4] == t[4..][4 * (k - 1)..4 * (k - 1) + 4] {
    }
    if Canonical(t) {
      assert t[4 * 0..4 * 0 + 4] == t[..4];
      forall k | 0 <= k < |t[4..]| / 4 ensures CanonicalQuantum(t[4..][4 * k..4 * k + 4], 4 * k + 4 == |t[4..]|) {
        assert t[4 * (k + 1)..4 * (k + 1) + 4] == t[4..][4 * k..4 * k + 4];
      }
    }
    if CanonicalQuantum(t[..4], false) && Canonical(t[4..]) {
      forall k | 0 <= k < |t| / 4 ensures CanonicalQuantum(t[4 * k..4 * k + 4], 4 * k + 4 == |t|) {
        if k == 0 {
          assert t[4 * 0..4 * 0 + 4] == t[..4];
        } else {
          assert t[4 * k..4 * k + 4] == t[4..][4 * (k - 1)..4 * (k - 1) + 4];
        }
      }
    }
  }

  lemma {:induction false} EncodeCanonical(d: seq<Byte>)
    requires d != []
    ensures Canonical(Encode(d))
  {
    var t := Encode(d);
    if |d| <= 3 {
      QuantumCanonical(d);
      assert forall k :: 0 <= k < |t| / 4 ==> t[4 * k..4 * k + 4] == t;
    } else {
      QuantumCanonical(d[..3]);
      EncodeCanonical(d[3..]);
      assert t[..4] == Quantum(d[..3]) && t[4..] == Encode(d[3..]);
      CanonicalTail(t);
    }
  }

  lemma DecodedParts(t: seq<Byte>)
    requires |t| % 4 == 0 && |t| > 4
    ensures |Decoded(t)| > 3 && Decoded(t)[..3] == Octets(t[..4]) && Decoded(t)[3..] == Decoded(t[4..])
  {
  }

  lemma {:induction false} EncodeInvertsDecode(t: seq<Byte>)
    requires t != [] && |t| % 4 == 0 && Canonical(t)
    ensures Encode(Decoded(t)) == t
  {
    if |t| == 4 {
      assert t[4 * 0..4 * 0 + 4] == t;
      QuantumEncodes(t, true);
    } else {
      CanonicalTail(t);
      QuantumEncodes(t[..4], false);
      EncodeInvertsDecode(t[4..]);
      DecodedParts(t);
      assert t == t[..4] + t[4..];
    }
  }

  /**
  The decoder loses nothing exactly on the texts the standard's encoder writes;
  stray characters, misplaced padding and non-zero unused bits are accepted but not
  reproduced.
  */
  lemma LosslessExactly(t: seq<Byte>)
    requires t != [] && |t| % 4 == 0
    ensures Encode(Decoded(t)) == t <==> Canonical(t)
  {
    if Canonical(t) {
      EncodeInvertsDecode(t);
    }
    EncodeCanonical(Decoded(t));
  }
}
