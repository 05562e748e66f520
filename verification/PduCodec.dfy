/**
The PDU wire format, from the robot's side (C structs) and from the client's
side (Python), and the two channels that carry it.
*/
module PduCodec {
  import opened Common
  import opened PduTypes
  import opened Sequences

  const START0: Byte := 0x5E
  const START1: Byte := 0xFF
  const PDU_SIZE := 36
  const BLOCK_SIZE := PDU_SIZE + 2

  /** The packed layout of the struct. */
  function Packed(p: Pdu): (r: seq<Byte>)
    ensures |r| == PDU_SIZE
  {
    [p.cmd, p.x, p.y, p.msgLen] + p.msg
  }

  function Unpacked(b: seq<Byte>): Pdu
    requires |b| == PDU_SIZE
  {
    Pdu(b[0], b[1], b[2], b[3], b[4..])
  }

  function Block(p: Pdu): (r: seq<Byte>)
    ensures |r| == BLOCK_SIZE
  {
    [START0, START1] + Packed(p)
  }

  lemma BlockBytes(p: Pdu)
    ensures Block(p) == [0x5E, 0xFF, p.cmd, p.x, p.y, p.msgLen] + p.msg
  {
  }

  /** pdu_fill_buffer: start bytes, then the struct. */
  method FillBuffer(outBuff: array<Byte>, p: Pdu)
    requires outBuff.Length == BLOCK_SIZE
    modifies outBuff
    ensures outBuff[..] == Block(p) == [0x5E, 0xFF, p.cmd, p.x, p.y, p.msgLen] + p.msg
  {
    BlockBytes(p);
    outBuff[0], outBuff[1] := START0, START1;
    var src := Packed(p);
    for k := 0 to PDU_SIZE
      invariant outBuff[0] == START0 && outBuff[1] == START1
      invariant forall i :: 0 <= i < k ==> outBuff[2 + i] == src[i]
    {
      outBuff[2 + k] := src[k];
    }
  }

  /** pdu_read_buffer: -1 and nothing changed unless the start bytes are there. */
  method ReadBuffer(inBuff: array<Byte>, previous: Pdu) returns (status: int, p: Pdu)
    requires inBuff.Length == BLOCK_SIZE
    ensures inBuff[0] == 0x5E && inBuff[1] == 0xFF ==>
      && status == 0 && Block(p) == inBuff[..]
      && [p.cmd, p.x, p.y, p.msgLen] == inBuff[2..6] && p.msg == inBuff[6..]
    ensures inBuff[0] != 0x5E || inBuff[1] != 0xFF ==> status == -1 && p == previous
  {
    if inBuff[0] != START0 || inBuff[1] != START1 {
      return -1, previous;
    }
    p := Unpacked(inBuff[2..]);
    status := 0;
    assert inBuff[..] == [inBuff[0], inBuff[1]] + inBuff[2..];
  }

  /* ---- The client's decoder ---- */

  predicate MarkerAt(b: seq<Byte>, k: int) { 0 <= k && k + 1 < |b| && b[k] == START0 && b[k + 1] == START1 }

  /** The fields of the client's pdu object once it has received something. */
  datatype Update = Update(cmd: Byte, x: Byte, y: Byte, msgLen: Byte, msg: seq<Byte>)

  class ClientPdu {
    var cmd: Byte
    var x: Byte
    var y: Byte
    var msgLen: Byte
    var msg: seq<Byte>

    ghost function Fields(): Update
      reads this
    {
      Update(cmd, x, y, msgLen, msg)
    }

    constructor ()
    {
      cmd, x, y, msgLen, msg := 0, 0, 0, 0, [];
    }

    /**
    get_buff: the fields follow the first start marker; without one nothing
    changes.  ok is false where the original raises IndexError.
    */
    method GetBuff(bytes: seq<Byte>) returns (ok: bool)
      modifies this
      ensures (forall k :: !MarkerAt(bytes, k)) ==> ok && Fields() == old(Fields())
      ensures forall k :: MarkerAt(bytes, k) && (forall j :: 0 <= j < k ==> !MarkerAt(bytes, j)) ==>
        && (ok <==> k + 5 < |bytes|)
        && (ok ==> Fields() == Update(bytes[k + 2], bytes[k + 3], bytes[k + 4], bytes[k + 5], bytes[k + 6..]))
    {
      var temp: Byte, tempLast: Byte := 0, 0;
      for i := 0 to |bytes|
        invariant i > 0 ==> temp == bytes[i - 1]
        invariant i == 0 ==> temp == 0
        invariant forall j :: j < i - 1 ==> !MarkerAt(bytes, j)
        invariant Fields() == old(Fields())
      {
        tempLast := temp;
        temp := bytes[i];
        if tempLast == START0 && temp == START1 {
          assert MarkerAt(bytes, i - 1);
          ok := i + 4 < |bytes|;
          if i + 1 < |bytes| { cmd := bytes[i + 1]; }
          if i + 2 < |bytes| { x := bytes[i + 2]; }
          if i + 3 < |bytes| { y := bytes[i + 3]; }
          if i + 4 < |bytes| { msgLen := bytes[i + 4]; msg := bytes[i + 5..]; }
          return;
        }
      }
      ok := true;
    }
  }

  function ToUpdate(p: Pdu): Update { Update(p.cmd, p.x, p.y, p.msgLen, p.msg) }

  /* ---- The update channel ---- */

  /** What updateTCP sends for these PDUs. */
  function Stream(ps: seq<Pdu>): seq<Byte> {
    if ps == [] then [] else Block(ps[0]) + Stream(ps[1..])
  }

  /** A TCP connection seen from the receiver: bytes in flight, already cut into segments. */
  class Connection {
    var segments: seq<seq<Byte>>

    ghost predicate Valid()
      reads this
    {
      forall k :: 0 <= k < |segments| ==> segments[k] != []
    }

    ghost function Pending(): seq<Byte>
      reads this
    {
      Flatten(segments)
    }

    constructor (parts: seq<seq<Byte>>)
      requires forall k :: 0 <= k < |parts| ==> parts[k] != []
      ensures Valid() && Pending() == Flatten(parts)
    {
      segments := parts;
    }

    /** recv: at least one byte, at most limit, never across a segment boundary. */
    method Recv(limit: nat) returns (data: seq<Byte>)
      requires Valid() && limit > 0 && Pending() != []
      modifies this
      ensures Valid() && 0 < |data| <= limit && old(Pending()) == data + Pending()
    {
      var first := segments[0];
      ghost var rest := segments[1..];
      assert segments == [first] + rest;
      FlattenCons(first, rest);
      if |first| <= limit {
        data := first;
        segments := segments[1..];
      } else {
        data := first[..limit];
        segments := [first[limit..]] + segments[1..];
        FlattenCons(first[limit..], rest);
        assert first == data + first[limit..];
      }
    }

    /** wheelsonTCP.receive: exactly one block, however it is cut up. */
    method Receive(buffSize: nat) returns (retData: seq<Byte>)
      requires Valid() && |Pending()| >= buffSize
      modifies this
      ensures Valid() && |retData| == buffSize && old(Pending()) == retData + Pending()
    {
      retData := [];
      var bytesRead := 0;
      while bytesRead < buffSize
        invariant Valid() && bytesRead == |retData| <= buffSize
        invariant old(Pending()) == retData + Pending()
        decreases buffSize - bytesRead
      {
        var data := Recv(buffSize - bytesRead);
        bytesRead := bytesRead + |data|;
        ghost var before := retData;
        retData := retData + data;
        assert before + (data + Pending()) == retData + Pending();
      }
    }
  }

  lemma {:induction false} StreamLength(ps: seq<Pdu>)
    ensures |Stream(ps)| == BLOCK_SIZE * |ps|
  {
    if ps != [] {
      StreamLength(ps[1..]);
    }
  }

  lemma {:induction false} StreamConcat(a: seq<Pdu>, b: seq<Pdu>)
    ensures Stream(a + b) == Stream(a) + Stream(b)
    decreases |a|
  {
    if a == [] {
      assert a + b == b;
    } else {
      assert (a + b)[1..] == a[1..] + b;
      StreamConcat(a[1..], b);
    }
  }

  lemma StreamDrop(ps: seq<Pdu>, n: nat)
    requires n < |ps|
    ensures Stream(ps[n..]) == Block(ps[n]) + Stream(ps[n + 1..])
  {
    assert ps[n..][1..] == ps[n + 1..];
  }

  lemma SameSplit(a: seq<Byte>, b: seq<Byte>, c: seq<Byte>, d: seq<Byte>)
    requires a + b == c + d && |a| == |c|
    ensures a == c && b == d
  {
    assert (a + b)[..|a|] == a && (c + d)[..|c|] == c;
    assert (a + b)[|a|..] == b && (c + d)[|c|..] == d;
  }

  /**
  updateTCP's stream into update_process: for every list of PDUs and every way TCP
  cuts the bytes into segments, the client decodes the same list and consumes exactly
  its bytes, so it stays aligned with whatever follows.
  */
  method UpdateProcess(ghost ps: seq<Pdu>, ghost rest: seq<Byte>, count: nat, server: Connection)
      returns (updates: seq<Update>)
    requires server.Valid() && count == |ps| && server.Pending() == Stream(ps) + rest
    modifies server
    ensures |updates| == |ps| && forall k :: 0 <= k < |ps| ==> updates[k] == ToUpdate(ps[k])
    ensures server.Valid() && server.Pending() == rest
  {
    updates := [];
    var rxPdu := new ClientPdu();
    assert ps[0..] == ps;
    for n := 0 to count
      invariant server.Valid() && server.Pending() == Stream(ps[n..]) + rest
      invariant |updates| == n && forall k :: 0 <= k < n ==> updates[k] == ToUpdate(ps[k])
    {
      StreamDrop(ps, n);
      var data := server.Receive(BLOCK_SIZE);
      assert data + server.Pending() == Block(ps[n]) + (Stream(ps[n + 1..]) + rest);
      SameSplit(data, server.Pending(), Block(ps[n]), Stream(ps[n + 1..]) + rest);
      assert MarkerAt(data, 0);
      assert data[6..] == ps[n].msg;
      var ok := rxPdu.GetBuff(data);
      updates := updates + [Update(rxPdu.cmd, rxPdu.x, rxPdu.y, rxPdu.msgLen, rxPdu.msg)];
    }
  }

  /* ---- The command channel ---- */

  /** What put_buff sends of the message: msg_len counts the terminator it appends. */
  function Sent(msgLen: Byte): nat { if msgLen == 0 then 0 else msgLen - 1 }

  function Command(c: Update): seq<Byte>
    requires |c.msg| >= Sent(c.msgLen)
  {
    [START0, START1, c.cmd, c.x, c.y, c.msgLen] + c.msg[..Sent(c.msgLen)] + [0]
  }

  /**
  put_buff: the header, the first msgLen - 1 characters, and a NUL.  ok is false where the
  original raises IndexError, on a message shorter than that.
  */
  method PutBuff(c: Update) returns (ok: bool, ret: seq<Byte>)
    ensures ok <==> c.msgLen - 1 <= |c.msg|
    ensures ok ==> |c.msg| >= Sent(c.msgLen) && ret == Command(c)
    ensures ok ==> |ret| == (if c.msgLen == 0 then 7 else c.msgLen + 6) && ret[..6] == [0x5E, 0xFF, c.cmd, c.x, c.y, c.msgLen]
    ensures ok ==> ret[|ret| - 1] == 0 && forall i :: 0 <= i < c.msgLen - 1 ==> ret[6 + i] == c.msg[i]
  {
    ret := [START0];
    ret := ret + [START1];
    ret := ret + [c.cmd];
    ret := ret + [c.x];
    ret := ret + [c.y];
    ret := ret + [c.msgLen];
    var i := 0;
    while i < c.msgLen - 1
      invariant 0 <= i <= Sent(c.msgLen) && i <= |c.msg|
      invariant ret == [START0, START1, c.cmd, c.x, c.y, c.msgLen] + c.msg[..i]
    {
      if i >= |c.msg| {
        return false, ret;
      }
      ret := ret + [c.msg[i]];
      i := i + 1;
    }
    ret := ret + [0];
    ok := true;
  }

  datatype CString = Terminated(text: seq<Byte>) | Unterminated

  /** The C string in a character array: what precedes its first NUL. */
  function AsCString(b: seq<Byte>): CString
    decreases |b|
  {
    if b == [] then Unterminated
    else if b[0] == 0 then Terminated([])
    else match AsCString(b[1..])
         case Unterminated => Unterminated
         case Terminated(t) => Terminated([b[0]] + t)
  }

  lemma {:induction false} CStringIs(text: seq<Byte>, rest: seq<Byte>)
    requires 0 !in text
    ensures AsCString(text + [0] + rest) == Terminated(text)
  {
    var b := text + [0] + rest;
    if text != [] {
      assert b[1..] == text[1..] + [0] + rest;
      CStringIs(text[1..], rest);
    }
  }

  /** A C string is shorter than its array and has no NUL inside. */
  lemma {:induction false} CStringShort(b: seq<Byte>)
    ensures match AsCString(b)
            case Unterminated => 0 !in b
            case Terminated(text) => |text| < |b| && 0 !in text
  {
    if b != [] {
      CStringShort(b[1..]);
      assert b == [b[0]] + b[1..];
    }
  }

  /** One recv of at most a block into a buffer that still holds an earlier one. */
  function Overlay(stale: seq<Byte>, data: seq<Byte>): (r: seq<Byte>)
    requires |stale| == BLOCK_SIZE
    ensures |r| == BLOCK_SIZE
  {
    if |data| <= BLOCK_SIZE then data + stale[|data|..] else data[..BLOCK_SIZE]
  }

  /** The robot ends up with the command that was sent; an announced length of 0 or 1 is the empty text. */
  ghost predicate Understood(c: Update, p: Pdu)
    requires c.msgLen - 1 <= |c.msg|
  {
    && p.cmd == c.cmd && p.x == c.x && p.y == c.y && p.msgLen == c.msgLen
    && AsCString(p.msg) == Terminated(if c.msgLen == 0 then [] else c.msg[..c.msgLen - 1])
  }

  /**
  put_buff to pdu_read_buffer: the start bytes are always accepted, and the robot
  reads back the same command, coordinates, length and C string exactly when the
  announced length is at most 32 and no NUL is sent inside the message; that length
  is also when nothing is left over for the next recv.
  */
  lemma CommandRoundTrip(c: Update, stale: seq<Byte>)
    requires |stale| == BLOCK_SIZE && c.msgLen - 1 <= |c.msg|
    ensures |c.msg| >= Sent(c.msgLen)
    ensures var b := Overlay(stale, Command(c));
      && b[0] == START0 && b[1] == START1
      && (forall k :: 0 <= k < BLOCK_SIZE ==> b[k] == if k < |Command(c)| then Command(c)[k] else stale[k])
      && (Understood(c, Unpacked(b[2..])) <==> c.msgLen <= 32 && forall i :: 0 <= i < c.msgLen - 1 ==> c.msg[i] != 0)
      && (|Command(c)| <= BLOCK_SIZE <==> c.msgLen <= 32)
  {
    var wire := Command(c);
    var b := Overlay(stale, wire);
    var text := c.msg[..Sent(c.msgLen)];
    CStringShort(b[2..][4..]);
    if c.msgLen <= MSG_SIZE && 0 !in text {
      assert b[2..][4..] == text + [0] + stale[|wire|..];
      CStringIs(text, stale[|wire|..]);
    }
  }
}
