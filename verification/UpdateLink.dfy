/**
The whole update link: any number of threads put PDUs into the transmit queue,
updateTCP takes them out and sends them, the network cuts the bytes as it likes and
has delivered some part of them, and the client decodes what has arrived.
*/
module UpdateLink {
  import opened Common
  import opened PduTypes
  import opened FifoModel
  import opened FifoSafety
  import opened PduCodec

  /** The first n blocks of a stream. */
  lemma StreamTake(ps: seq<Pdu>, n: nat)
    requires n <= |ps|
    ensures |Stream(ps[..n])| == BLOCK_SIZE * n && Stream(ps[..n]) <= Stream(ps)
  {
    StreamLength(ps[..n]);
    assert ps == ps[..n] + ps[n..];
    StreamConcat(ps[..n], ps[n..]);
  }

  lemma PrefixOfPrefix(a: seq<Byte>, b: seq<Byte>, c: seq<Byte>)
    requires a <= c && b <= c && |a| <= |b|
    ensures b == a + b[|a|..]
  {
    assert a == c[..|a|] == b[..|a|];
  }

  /** Of the bytes sent so far, any first part consists of the first PDUs and a piece of the next. */
  lemma WholeBlocks(ps: seq<Pdu>, arrived: seq<Byte>) returns (rest: seq<Byte>)
    requires arrived <= Stream(ps)
    ensures var n := |arrived| / BLOCK_SIZE;
      n <= |ps| && arrived == Stream(ps[..n]) + rest && |rest| < BLOCK_SIZE
  {
    var n := |arrived| / BLOCK_SIZE;
    StreamLength(ps);
    StreamTake(ps, n);
    PrefixOfPrefix(Stream(ps[..n]), arrived, Stream(ps));
    rest := arrived[BLOCK_SIZE * n..];
  }

  /**
  Whatever the interleaving on the queue and whatever has arrived, the client has
  decoded exactly the first PDUs that were put, in the order they were put, one for
  every whole block; what it has not consumed is less than a block.
  */
  method UpdateLinkEndToEnd(ghost buffer: seq<Pdu>, ghost roles: seq<Role>, ghost blank: Pdu, ghost schedule: seq<Turn>,
                            count: nat, server: Connection) returns (updates: seq<Update>)
    requires |buffer| >= 1 && server.Valid() && count == |server.Pending()| / BLOCK_SIZE
    requires server.Pending() <= Stream(Run(Init(buffer, roles, blank), schedule).taken)
    modifies server
    ensures var put := Run(Init(buffer, roles, blank), schedule).put;
      && |updates| == count <= |put|
      && (forall k :: 0 <= k < count ==> updates[k] == ToUpdate(put[k]))
      && |server.Pending()| < BLOCK_SIZE
  {
    ghost var s := Run(Init(buffer, roles, blank), schedule);
    QueueSafety(buffer, roles, blank, schedule);
    ghost var rest := WholeBlocks(s.taken, server.Pending());
    ghost var ps := s.taken[..count];
    assert forall k :: 0 <= k < count ==> ps[k] == s.put[k];
    updates := UpdateProcess(ps, rest, count, server);
  }
}
