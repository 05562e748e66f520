/** Ends of sequences, and joining a sequence of chunks. */
module Sequences {

  function Last<T>(q: seq<T>): T
    requires q != []
  {
    q[|q| - 1]
  }

  function Init<T>(q: seq<T>): seq<T>
    requires q != []
  {
    q[..|q| - 1]
  }

  function Flatten<T>(chunks: seq<seq<T>>): seq<T>
    decreases |chunks|
  {
    if chunks == [] then [] else Flatten(Init(chunks)) + Last(chunks)
  }

  lemma FlattenOne<T>(q: seq<seq<T>>, b: seq<T>)
    ensures Flatten(q + [b]) == Flatten(q) + b
  {
    assert Init(q + [b]) == q;
  }

  lemma FlattenSingle<T>(b: seq<T>)
    ensures Flatten([b]) == b
  {
    FlattenOne([], b);
    assert [] + [b] == [b];
  }

  lemma {:induction false} FlattenCons<T>(b: seq<T>, q: seq<seq<T>>)
    ensures Flatten([b] + q) == b + Flatten(q)
    decreases |q|
  {
    if q == [] {
      assert [b] + q == [] + [b];
      FlattenOne([], b);
    } else {
      FlattenCons(b, Init(q));
      assert Init([b] + q) == [b] + Init(q);
    }
  }

  lemma FlattenTake<T>(q: seq<seq<T>>, k: nat)
    requires k < |q|
    ensures Flatten(q[..k + 1]) == Flatten(q[..k]) + q[k]
  {
    assert Init(q[..k + 1]) == q[..k];
  }

  lemma {:induction false} FlattenMono<T>(q: seq<seq<T>>, k: nat)
    requires k <= |q|
    ensures Flatten(q[..k]) <= Flatten(q)
    decreases |q|
  {
    if k < |q| {
      FlattenMono(Init(q), k);
      assert Init(q)[..k] == q[..k];
    } else {
      assert q[..k] == q;
    }
  }
}
