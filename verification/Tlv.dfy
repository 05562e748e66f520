/**
The argument list handed to a web service: records of a 16-bit type, an 8-bit length
and a value, written one behind the other and walked from the start by every reader.
*/
module Tlv {
  import opened Common

  const LEN_OFFSET := 2
  const VALUE_OFFSET := 3

  /* ---- Element types ---- */

  type Octet = b: bv16 | b < 0x100 witness 0

  /** setElementType; its byte arguments are promoted before they are shifted, the result is cut to 16 bits. */
  function SetElementType(isValue: Octet, requestIdx: Octet, elementVal: Octet): bv16 {
    elementVal | (((isValue << 7) | (requestIdx & 0x7F)) << 8)
  }

  lemma SameTypeSameParts(v: Octet, i: Octet, e: Octet, v': Octet, i': Octet, e': Octet)
    requires SetElementType(v, i, e) == SetElementType(v', i', e')
    ensures v & 1 == v' & 1 && i & 0x7F == i' & 0x7F && e == e'
  {
  }

  lemma SamePartsSameType(v: Octet, i: Octet, e: Octet, v': Octet, i': Octet)
    requires v & 1 == v' & 1 && i & 0x7F == i' & 0x7F
    ensures SetElementType(v, i, e) == SetElementType(v', i', e)
  {
  }

  /** Two types agree exactly when the element, the last bit of isValue and the last seven of requestIdx do. */
  lemma TypeExactly(v: Octet, i: Octet, e: Octet, v': Octet, i': Octet, e': Octet)
    ensures SetElementType(v, i, e) == SetElementType(v', i', e') <==> v & 1 == v' & 1 && i & 0x7F == i' & 0x7F && e == e'
  {
    if SetElementType(v, i, e) == SetElementType(v', i', e') {
      SameTypeSameParts(v, i, e, v', i', e');
    } else if v & 1 == v' & 1 && i & 0x7F == i' & 0x7F && e == e' {
      SamePartsSameType(v, i, e, v', i');
    }
  }

  /** Where the parts go: the element in the low byte, the request index above it, isValue in the top bit. */
  lemma TypeLayout(v: Octet, i: Octet, e: Octet)
    ensures var t := SetElementType(v, i, e);
      t & 0xFF == e && (t >> 8) & 0x7F == i & 0x7F && t >> 15 == v & 1
  {
  }

  lemma SmallParts(v: Octet, i: Octet)
    requires v < 2 && i < 128
    ensures v & 1 == v && i & 0x7F == i
  {
  }

  /** So on the ranges the services use, no two elements share a type. */
  lemma TypeInjective(v: Octet, i: Octet, e: Octet, v': Octet, i': Octet, e': Octet)
    requires v < 2 && v' < 2 && i < 128 && i' < 128
    requires SetElementType(v, i, e) == SetElementType(v', i', e')
    ensures v == v' && i == i' && e == e'
  {
    TypeExactly(v, i, e, v', i', e');
    SmallParts(v, i);
    SmallParts(v', i');
  }

  /* ---- Records ---- */

  datatype Record = Record(typ: nat, value: seq<Byte>)

  predicate WellSized(r: Record) { r.typ < 0x10000 && |r.value| <= 255 }

  ghost predicate AllSized(rs: seq<Record>) { forall k :: 0 <= k < |rs| ==> WellSized(rs[k]) }

  function RecordBytes(r: Record): (b: seq<Byte>)
    requires WellSized(r)
    ensures |b| == VALUE_OFFSET + |r.value|
  {
    [r.typ % 256, r.typ / 256, |r.value|] + r.value
  }

  /** A little-endian 16-bit word. */
  function Word16(low: Byte, high: Byte): nat { low + 256 * (high as int) }

  function Bytes(rs: seq<Record>): seq<Byte>
    requires AllSized(rs)
  {
    if rs == [] then [] else RecordBytes(rs[0]) + Bytes(rs[1..])
  }

  lemma BytesCons(r: Record, rest: seq<Record>)
    requires WellSized(r) && AllSized(rest)
    ensures AllSized([r] + rest) && Bytes([r] + rest) == RecordBytes(r) + Bytes(rest)
  {
    assert ([r] + rest)[1..] == rest;
  }

  lemma {:induction false} BytesConcat(a: seq<Record>, b: seq<Record>)
    requires AllSized(a) && AllSized(b)
    ensures AllSized(a + b) && Bytes(a + b) == Bytes(a) + Bytes(b)
    decreases |a|
  {
    if a == [] {
      assert a + b == b;
    } else {
      var rest := a[1..];
      BytesConcat(rest, b);
      BytesCons(a[0], rest + b);
      assert a + b == [a[0]] + (rest + b);
    }
  }

  lemma BytesSnoc(rs: seq<Record>, r: Record)
    requires AllSized(rs) && WellSized(r)
    ensures AllSized(rs + [r]) && Bytes(rs + [r]) == Bytes(rs) + RecordBytes(r)
  {
    BytesConcat(rs, [r]);
    assert [r][1..] == [];
    assert Bytes([r]) == RecordBytes(r);
  }

  /** Records delimit themselves: different lists have different bytes. */
  lemma {:induction false} BytesInjective(a: seq<Record>, b: seq<Record>)
    requires AllSized(a) && AllSized(b) && Bytes(a) == Bytes(b)
    ensures a == b
    decreases |a|
  {
    if a != [] && b != [] {
      var x, y := RecordBytes(a[0]), RecordBytes(b[0]);
      assert x[2] == Bytes(a)[2] == y[2] && x[0] == Bytes(a)[0] == y[0] && x[1] == Bytes(a)[1] == y[1];
      assert x == Bytes(a)[..|x|] && y == Bytes(b)[..|y|];
      assert a[0].value == x[3..] == y[3..] == b[0].value;
      assert Bytes(a[1..]) == Bytes(a)[|x|..] && Bytes(b[1..]) == Bytes(b)[|y|..];
      BytesInjective(a[1..], b[1..]);
      assert a == [a[0]] + a[1..] && b == [b[0]] + b[1..];
    }
  }

  /** The memory holds these records from base on. */
  ghost predicate Holds(mem: seq<Byte>, base: nat, rs: seq<Record>) {
    && AllSized(rs) && base + |Bytes(rs)| <= |mem|
    && mem[base..base + |Bytes(rs)|] == Bytes(rs)
  }

  /** Where record k starts. */
  ghost function Start(base: nat, rs: seq<Record>, k: nat): nat
    requires AllSized(rs) && k <= |rs|
  {
    base + |Bytes(rs[..k])|
  }

  /** What a reader finds at the start of record k, and where the next record starts. */
  lemma RecordAt(mem: seq<Byte>, base: nat, rs: seq<Record>, k: nat)
    requires Holds(mem, base, rs) && k < |rs|
    ensures var at := Start(base, rs, k);
      && at + VALUE_OFFSET + |rs[k].value| <= |mem|
      && mem[at] == rs[k].typ % 256 && mem[at + 1] == rs[k].typ / 256 && mem[at + LEN_OFFSET] == |rs[k].value|
      && mem[at + VALUE_OFFSET..at + VALUE_OFFSET + |rs[k].value|] == rs[k].value
      && Start(base, rs, k + 1) == at + VALUE_OFFSET + |rs[k].value|
  {
    var before, b, after := Bytes(rs[..k]), RecordBytes(rs[k]), Bytes(rs[k + 1..]);
    CutAt(rs, k + 1);
    TakeOneMore(rs, k);
    Middle(mem, base, before, b, after);
    var at := Start(base, rs, k);
    Header(mem, at, rs[k]);
  }

  lemma TakeOneMore(rs: seq<Record>, k: nat)
    requires AllSized(rs) && k < |rs|
    ensures Bytes(rs[..k + 1]) == Bytes(rs[..k]) + RecordBytes(rs[k])
  {
    assert rs[..k + 1] == rs[..k] + [rs[k]];
    BytesSnoc(rs[..k], rs[k]);
  }

  lemma DropOneMore(rs: seq<Record>, k: nat)
    requires AllSized(rs) && k < |rs|
    ensures Bytes(rs[k..]) == RecordBytes(rs[k]) + Bytes(rs[k + 1..])
  {
    assert rs[k..][1..] == rs[k + 1..];
  }

  lemma Regroup(all: seq<Byte>, p: seq<Byte>, r: seq<Byte>, q: seq<Byte>)
    requires all == p + (r + q)
    ensures all == p + r + q
  {
  }

  /** The bytes of a list, taken apart in front of record k. */
  lemma {:induction false} CutAt(rs: seq<Record>, k: nat)
    requires AllSized(rs) && k <= |rs|
    ensures Bytes(rs) == Bytes(rs[..k]) + Bytes(rs[k..])
    decreases k
  {
    if k == 0 {
      assert rs[0..] == rs;
    } else {
      CutAt(rs, k - 1);
      TakeOneMore(rs, k - 1);
      DropOneMore(rs, k - 1);
      Regroup(Bytes(rs), Bytes(rs[..k - 1]), RecordBytes(rs[k - 1]), Bytes(rs[k..]));
    }
  }

  lemma Middle(mem: seq<Byte>, base: nat, a: seq<Byte>, b: seq<Byte>, c: seq<Byte>)
    requires base + |a + b + c| <= |mem| && mem[base..base + |a + b + c|] == a + b + c
    ensures mem[base + |a|..base + |a| + |b|] == b
  {
    var all := a + b + c;
    forall i | 0 <= i < |b| ensures mem[base + |a| + i] == b[i] {
      assert mem[base..base + |all|][|a| + i] == all[|a| + i];
    }
  }

  lemma Header(mem: seq<Byte>, at: nat, r: Record)
    requires WellSized(r) && at + |RecordBytes(r)| <= |mem| && mem[at..at + |RecordBytes(r)|] == RecordBytes(r)
    ensures mem[at] == r.typ % 256 && mem[at + 1] == r.typ / 256 && mem[at + LEN_OFFSET] == |r.value|
    ensures mem[at + VALUE_OFFSET..at + VALUE_OFFSET + |r.value|] == r.value
  {
    var b := RecordBytes(r);
    assert mem[at] == mem[at..at + |b|][0] && mem[at + 1] == mem[at..at + |b|][1] && mem[at + 2] == mem[at..at + |b|][2];
    assert mem[at + VALUE_OFFSET..at + |b|] == mem[at..at + |b|][VALUE_OFFSET..];
  }

  /** What the writer stores for a string value: a length byte in eight bits, the string, its terminator. */
  function StringBytes(typ: nat, kept: seq<Byte>): seq<Byte>
    requires typ < 0x10000
  {
    [typ % 256, typ / 256, (|kept| + 1) % 256] + kept + [0]
  }

  /** The record a walker makes of it. */
  function StringRecord(typ: nat, kept: seq<Byte>): Record { Record(typ, if |kept| < 255 then kept + [0] else []) }

  /** What parseUrlEncoded takes for the room left behind a name: a difference cut to eight bits. */
  function RemainingLen(phraseLen: nat, offset: nat, nameLen: nat): (r: Byte) {
    (phraseLen - offset % 256 - nameLen - 1) % 256
  }

  /** As much of the string as that has room for. */
  function Kept(token: seq<Byte>, remainingLen: Byte): (kept: seq<Byte>)
    ensures kept <= token && |kept| <= 255
  {
    if |token| > remainingLen then token[..remainingLen] else token
  }

  /** The cut takes whole multiples of 256 off the room there really is. */
  lemma RemainingIs(phraseLen: nat, offset: nat, nameLen: nat)
    requires offset + nameLen + 1 <= phraseLen
    ensures RemainingLen(phraseLen, offset, nameLen) == (phraseLen - offset - nameLen - 1) % 256
  {
    var room := phraseLen - offset - nameLen - 1;
    ModAdd(offset / 256 * 256, room, 256);
    ModUnique(offset / 256 * 256, 256, offset / 256, 0);
    assert phraseLen - offset % 256 - nameLen - 1 == offset / 256 * 256 + room;
  }

  /**
  A string behind its name arrives whole exactly when it fits into the room modulo
  256, and as a record a walker can read exactly when it is also shorter than 255 bytes.
  */
  lemma ArrivesWhole(phraseLen: nat, offset: nat, nameLen: nat, token: seq<Byte>)
    requires offset + nameLen + 1 + |token| <= phraseLen
    ensures var kept := Kept(token, RemainingLen(phraseLen, offset, nameLen));
      var room := phraseLen - offset - nameLen - 1;
      && kept == token[..if |token| <= room % 256 then |token| else room % 256]
      && (kept == token <==> |token| <= room % 256)
      && (StringRecord(0, kept).value == token + [0] <==> |token| <= room % 256 && |token| < 255)
  {
    RemainingIs(phraseLen, offset, nameLen);
    var kept := Kept(token, RemainingLen(phraseLen, offset, nameLen));
    if |kept| < 255 && kept + [0] == token + [0] {
      assert (kept + [0])[..|kept|] == kept && (token + [0])[..|token|] == token;
    }
  }

  /** Every string arrives whole if and only if the room is less than 256 bytes. */
  lemma AllArriveExactly(phraseLen: nat, offset: nat, nameLen: nat)
    requires offset + nameLen + 1 <= phraseLen
    ensures var room := phraseLen - offset - nameLen - 1;
      (forall token: seq<Byte> :: |token| <= room ==> Kept(token, RemainingLen(phraseLen, offset, nameLen)) == token) <==> room < 256
  {
    var room := phraseLen - offset - nameLen - 1;
    forall token: seq<Byte> | |token| <= room && room < 256
      ensures Kept(token, RemainingLen(phraseLen, offset, nameLen)) == token
    {
      ArrivesWhole(phraseLen, offset, nameLen, token);
    }
    if room >= 256 {
      var token: seq<Byte> := seq(room, _ => 0);
      ArrivesWhole(phraseLen, offset, nameLen, token);
      assert Kept(token, RemainingLen(phraseLen, offset, nameLen)) != token;
    }
  }

  lemma StringRecordBytes(typ: nat, kept: seq<Byte>)
    requires typ < 0x10000 && |kept| <= 255
    ensures WellSized(StringRecord(typ, kept))
    ensures RecordBytes(StringRecord(typ, kept)) <= StringBytes(typ, kept)
    ensures RecordBytes(StringRecord(typ, kept)) == StringBytes(typ, kept) <==> |kept| < 255
  {
    if |kept| < 255 {
      assert RecordBytes(StringRecord(typ, kept)) == StringBytes(typ, kept);
    }
  }

  lemma PrefixAt(mem: seq<Byte>, at: nat, bytes: seq<Byte>, part: seq<Byte>)
    requires at + |bytes| <= |mem| && mem[at..at + |bytes|] == bytes && part <= bytes
    ensures mem[at..at + |part|] == part
  {
    assert mem[at..at + |part|] == mem[at..at + |bytes|][..|part|];
  }

  /** A record written behind a list makes the longer list. */
  lemma Extended(was: seq<Byte>, mem: seq<Byte>, base: nat, rs: seq<Record>, r: Record)
    requires Holds(was, base, rs) && WellSized(r)
    requires var at := Start(base, rs, |rs|);
      && |mem| == |was| && at + |RecordBytes(r)| <= |mem|
      && mem[..at] == was[..at] && mem[at..at + |RecordBytes(r)|] == RecordBytes(r)
    ensures Holds(mem, base, rs + [r]) && Start(base, rs + [r], |rs| + 1) == Start(base, rs, |rs|) + |RecordBytes(r)|
  {
    assert rs[..|rs|] == rs && (rs + [r])[..|rs| + 1] == rs + [r];
    BytesSnoc(rs, r);
    var at := Start(base, rs, |rs|);
    var next := at + |RecordBytes(r)|;
    assert mem[base..at] == mem[..at][base..] == was[..at][base..] == was[base..at];
    assert mem[base..next] == mem[base..at] + mem[at..next];
  }

  /** String bytes written behind a list make the list longer by the record a walker sees in them. */
  lemma StringExtended(was: seq<Byte>, mem: seq<Byte>, base: nat, rs: seq<Record>, typ: nat, kept: seq<Byte>)
    requires Holds(was, base, rs) && typ < 0x10000 && |kept| <= 255
    requires var at, bytes := Start(base, rs, |rs|), StringBytes(typ, kept);
      && |mem| == |was| && at + |bytes| <= |mem| && mem[..at] == was[..at] && mem[at..at + |bytes|] == bytes
    ensures var longer := rs + [StringRecord(typ, kept)];
      && Holds(mem, base, longer)
      && (Start(base, longer, |longer|) == Start(base, rs, |rs|) + |StringBytes(typ, kept)| <==> |kept| < 255)
  {
    var at, r := Start(base, rs, |rs|), StringRecord(typ, kept);
    StringRecordBytes(typ, kept);
    PrefixAt(mem, at, StringBytes(typ, kept), RecordBytes(r));
    Extended(was, mem, base, rs, r);
  }
}
