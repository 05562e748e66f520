/** The writers and walkers of the list. */
module TlvTask {
  import opened Common
  import opened Tlv

  class ArgList {
    const mem: array<Byte>
    const base: nat
    /** A single byte in the source, so it wraps. */
    var argc: Byte
    /** Everything appended so far, for the specification only. */
    ghost var records: seq<Record>

    ghost predicate Valid()
      reads this, mem
    {
      Holds(mem[..], base, records) && argc == |records| % 256
    }

    constructor (mem: array<Byte>, base: nat)
      requires base <= mem.Length
      ensures this.mem == mem && this.base == base && Valid() && records == []
    {
      this.mem, this.base, argc, records := mem, base, 0, [];
    }

    /** Fast forward over the records counted so far. */
    method Skip() returns (at: nat)
      requires Valid()
      ensures argc <= |records| && at == Start(base, records, argc)
    {
      at := base;
      for n := 0 to argc
        invariant at == Start(base, records, n)
      {
        RecordAt(mem[..], base, records, n);
        at := at + LEN_OFFSET;
        at := at + mem[at];
        at := at + 1;
      }
    }

    /** Bytes written one after the other. */
    method WriteBytes(at: nat, bytes: seq<Byte>)
      requires at + |bytes| <= mem.Length
      modifies mem
      ensures mem[..at] == old(mem[..at]) && mem[at..at + |bytes|] == bytes
      ensures mem[at + |bytes|..] == old(mem[at + |bytes|..])
    {
      for n := 0 to |bytes|
        invariant mem[..at] == old(mem[..at])
        invariant mem[at..at + n] == bytes[..n]
        invariant mem[at + |bytes|..] == old(mem[at + |bytes|..])
      {
        mem[at + n] := bytes[n];
      }
    }

    /** One record written at the cursor. */
    method Put(at: nat, r: Record) returns (next: nat)
      requires Valid() && WellSized(r)
      requires at == Start(base, records, |records|) && at + |RecordBytes(r)| <= mem.Length
      modifies mem, this
      ensures Valid() && records == old(records) + [r] && next == Start(base, records, |records|)
      ensures next == at + 3 + |r.value| <= mem.Length && mem[next..] == old(mem[next..])
      ensures mem[at..next] == [r.typ % 256, r.typ / 256, |r.value|] + r.value
    {
      argc := (argc + 1) % 256;
      WriteBytes(at, [r.typ % 256, r.typ / 256, |r.value|] + r.value);
      next := at + VALUE_OFFSET + |r.value|;
      Extended(old(mem[..]), mem[..], base, records, r);
      records := records + [r];
    }

    /** The kept part of a string and its terminator, written behind a length byte of eight bits. */
    method PutKept(at: nat, typ: nat, kept: seq<Byte>) returns (next: nat)
      requires Valid() && typ < 0x10000 && |kept| <= 255
      requires at == Start(base, records, |records|) && at + VALUE_OFFSET + |kept| + 1 <= mem.Length
      modifies mem, this
      ensures Valid() && records == old(records) + [StringRecord(typ, kept)]
      ensures next == Start(base, records, |records|) <==> |kept| < 255
      ensures next == at + 4 + |kept| <= mem.Length
      ensures mem[at..next] == [typ % 256, typ / 256, (|kept| + 1) % 256] + kept + [0]
    {
      argc := (argc + 1) % 256;
      WriteBytes(at, [typ % 256, typ / 256, (|kept| + 1) % 256] + kept + [0]);
      next := at + VALUE_OFFSET + |kept| + 1;
      StringExtended(old(mem[..]), mem[..], base, records, typ, kept);
      records := records + [StringRecord(typ, kept)];
    }

    /**
    A string value behind a name of nameLen bytes at this offset of the phrase: as much
    of it is kept as the cut difference has room for; the record is as intended, and the
    cursor where a walker would expect it, if and only if that is fewer than 255 bytes.
    */
    method PutString(at: nat, typ: nat, token: seq<Byte>, phraseLen: nat, offset: nat, nameLen: nat) returns (next: nat)
      requires Valid() && typ < 0x10000 && at == Start(base, records, |records|)
      requires at + VALUE_OFFSET + |Kept(token, RemainingLen(phraseLen, offset, nameLen))| + 1 <= mem.Length
      modifies mem, this
      ensures var kept := Kept(token, RemainingLen(phraseLen, offset, nameLen));
        && Valid() && records == old(records) + [StringRecord(typ, kept)]
        && (next == Start(base, records, |records|) <==> |kept| < 255)
        && next == at + 4 + |kept| <= mem.Length
        && mem[at..next] == [typ % 256, typ / 256, (|kept| + 1) % 256] + kept + [0]
    {
      var remainingLen: Byte := (phraseLen - offset % 256 - nameLen - 1) % 256;
      var actualLen := if |token| > remainingLen then remainingLen else |token|;
      assert token[..actualLen] == Kept(token, remainingLen);
      next := PutKept(at, typ, token[..actualLen]);
    }

    /**
    Appending any number of records behind the existing ones, as long as the list
    had fewer than 256 when the parser started.
    */
    method Append(rs: seq<Record>)
      requires Valid() && AllSized(rs) && |records| < 256
      requires base + |Bytes(records)| + |Bytes(rs)| <= mem.Length
      modifies mem, this
      ensures Valid() && records == old(records) + rs
    {
      var at := Skip();
      assert records[..|records|] == records;
      for n := 0 to |rs|
        invariant Valid() && records == old(records) + rs[..n]
        invariant at == Start(base, records, |records|)
      {
        assert rs[..n + 1] == rs[..n] + [rs[n]];
        BytesSnoc(rs[..n], rs[n]);
        BytesConcat(rs[..n + 1], rs[n + 1..]);
        assert rs[..n + 1] + rs[n + 1..] == rs;
        BytesConcat(old(records), rs[..n]);
        assert records[..|records|] == records;
        at := Put(at, rs[n]);
      }
      assert rs[..|rs|] == rs;
    }

    /**
    A reader visits exactly the appended records, in order, and stops at the append
    point, if and only if there are fewer than 256 of them.
    */
    method Visit() returns (visited: seq<Record>, at: nat)
      requires Valid()
      ensures visited == records[..argc] && at == Start(base, records, argc)
      ensures visited == records <==> |records| < 256
    {
      visited, at := [], base;
      for n := 0 to argc
        invariant visited == records[..n] && at == Start(base, records, n)
      {
        RecordAt(mem[..], base, records, n);
        var len := mem[at + LEN_OFFSET];
        visited := visited + [Record(Word16(mem[at], mem[at + 1]), mem[at + VALUE_OFFSET..at + VALUE_OFFSET + len])];
        at := at + VALUE_OFFSET + len;
      }
    }

    /**
    The search for one type: the first record that has it, or the append point, where
    whatever bytes are left over there are compared once more.
    */
    method Search(elementType: nat) returns (at: nat, found: bool, ghost k: nat)
      requires Valid() && Start(base, records, |records| % 256) + 1 < mem.Length
      ensures k <= |records| % 256 <= |records| && at == Start(base, records, k) && at + 1 < mem.Length
      ensures forall j :: 0 <= j < k ==> records[j].typ != elementType
      ensures found <==> Word16(mem[at], mem[at + 1]) == elementType
      ensures k < |records| % 256 ==> found && records[k].typ == elementType
    {
      at, k := base, 0;
      var left := argc;
      RecordsFit(k);
      while left > 0 && Word16(mem[at], mem[at + 1]) != elementType
        invariant 0 <= left <= argc <= |records| && k == argc - left && at == Start(base, records, k) && at + 1 < mem.Length
        invariant forall j :: 0 <= j < k ==> records[j].typ != elementType
      {
        TypeAt(k);
        at := at + LEN_OFFSET;
        at := at + mem[at];
        at := at + 1;
        left, k := left - 1, k + 1;
        RecordsFit(k);
      }
      found := Word16(mem[at], mem[at + 1]) == elementType;
      if k < argc {
        TypeAt(k);
      }
    }

    lemma TypeAt(k: nat)
      requires Valid() && k < |records|
      ensures var at := Start(base, records, k);
        && at + LEN_OFFSET < mem.Length && Word16(mem[at], mem[at + 1]) == records[k].typ
        && Start(base, records, k + 1) == at + LEN_OFFSET + mem[at + LEN_OFFSET] + 1
    {
      RecordAt(mem[..], base, records, k);
    }

    lemma RecordsFit(k: nat)
      requires Valid() && k <= argc && Start(base, records, argc) + 1 < mem.Length
      ensures Start(base, records, k) + 1 < mem.Length
    {
      if k < argc {
        RecordAt(mem[..], base, records, k);
      }
    }
  }
}
