/** Byte streams of self-delimiting records with a { __u32 type; __u32 len; } header whose
    length counts the header: DRM events and QAIC transactions. */
module Records {
  import opened Bytes

  const HEADER: nat := 8

  datatype Record = Record(typ: nat, payload: seq<Byte>)

  function Length(r: Record): nat {
    HEADER + |r.payload|
  }

  predicate Encodable(r: Record) {
    r.typ < Pow256(4) && Length(r) < Pow256(4)
  }

  predicate AllEncodable(rs: seq<Record>) {
    forall i :: 0 <= i < |rs| ==> Encodable(rs[i])
  }

  function Print(r: Record): (bs: seq<Byte>)
    ensures |bs| == Length(r)
  {
    ToLE(r.typ, 4) + ToLE(Length(r), 4) + r.payload
  }

  /** The bytes of a record: type, length with the header, payload. */
  lemma RecordOnWire(r: Record)
    requires Encodable(r)
    ensures var bs := Print(r);
            |bs| >= 8 && FromLE(bs[0..4]) == r.typ && FromLE(bs[4..8]) == |bs| && bs[8..] == r.payload
  {
    hide FromLE, ToLE, Pow256;
    var bs := Print(r);
    assert bs[0..4] == ToLE(r.typ, 4) && bs[4..8] == ToLE(Length(r), 4);
    ReadWritten(r.typ, 4);
    ReadWritten(Length(r), 4);
  }

  function PrintAll(rs: seq<Record>): seq<Byte> {
    if rs == [] then [] else Print(rs[0]) + PrintAll(rs[1..])
  }

  /** The first record of a byte stream, if a whole well-formed one is there. */
  function Head(bs: seq<Byte>): (r: Option<Record>)
    ensures r.Some? ==> HEADER <= Length(r.value) <= |bs|
  {
    if |bs| < HEADER then None else
      var len := FromLE(bs[4..8]);
      if len < HEADER || len > |bs| then None else Some(Record(FromLE(bs[..4]), bs[8..len]))
  }

  /** The records of a whole byte stream.  Each step takes at least a header, so the walk ends. */
  function ParseAll(bs: seq<Byte>): Option<seq<Record>>
    decreases |bs|
  {
    if bs == [] then Some([]) else
      var h := Head(bs);
      if h.None? then None else
        var rest := ParseAll(bs[Length(h.value)..]);
        if rest.None? then None else Some([h.value] + rest.value)
  }

  lemma HeadOfPrint(r: Record, tail: seq<Byte>)
    requires Encodable(r)
    ensures Head(Print(r) + tail) == Some(r) && (Print(r) + tail)[Length(r)..] == tail
  {
    hide FromLE, ToLE, Pow256;
    var bs := Print(r) + tail;
    assert bs[..4] == ToLE(r.typ, 4) && bs[4..8] == ToLE(Length(r), 4) && bs[8..Length(r)] == r.payload;
    ReadWritten(r.typ, 4);
    ReadWritten(Length(r), 4);
  }

  lemma PrintOfHead(bs: seq<Byte>)
    requires Head(bs).Some?
    ensures Encodable(Head(bs).value) && Print(Head(bs).value) == bs[..Length(Head(bs).value)]
  {
    hide FromLE, ToLE, Pow256;
    var r := Head(bs).value;
    WriteRead(bs[..4]);
    WriteRead(bs[4..8]);
    assert |bs[..4]| == 4 && |bs[4..8]| == 4 && Length(r) == FromLE(bs[4..8]);
    assert bs[..4] + bs[4..8] + bs[8..Length(r)] == bs[..Length(r)];
  }

  /** Parsing inverts printing. */
  lemma {:induction false} ParsePrint(rs: seq<Record>)
    requires AllEncodable(rs)
    ensures ParseAll(PrintAll(rs)) == Some(rs)
    decreases |rs|
  {
    if rs != [] {
      hide Head, Print;
      HeadOfPrint(rs[0], PrintAll(rs[1..]));
      ParsePrint(rs[1..]);
      assert [rs[0]] + rs[1..] == rs;
    }
  }

  /** Printing inverts parsing: the streams that parse are exactly the printed ones. */
  lemma {:induction false} PrintParse(bs: seq<Byte>)
    requires ParseAll(bs).Some?
    ensures AllEncodable(ParseAll(bs).value) && PrintAll(ParseAll(bs).value) == bs
    decreases |bs|
  {
    if bs != [] {
      hide Print, Encodable;
      var r := Head(bs).value;
      PrintOfHead(bs);
      hide Head;
      var rest := bs[Length(r)..];
      PrintParse(rest);
      assert bs == bs[..Length(r)] + rest;
      assert ParseAll(bs).value[1..] == ParseAll(rest).value;
    }
  }

  lemma PrintCons(r: Record, rs: seq<Record>)
    ensures PrintAll([r] + rs) == Print(r) + PrintAll(rs)
  {
    assert ([r] + rs)[1..] == rs;
  }

  lemma {:induction false} PrintConcat(rs: seq<Record>, ss: seq<Record>)
    ensures PrintAll(rs + ss) == PrintAll(rs) + PrintAll(ss)
    decreases |rs|
  {
    if rs == [] {
      assert rs + ss == ss;
    } else {
      hide Print;
      PrintConcat(rs[1..], ss);
      assert (rs + ss)[1..] == rs[1..] + ss;
    }
  }

  lemma PrintSnoc(rs: seq<Record>, r: Record)
    ensures PrintAll(rs + [r]) == PrintAll(rs) + Print(r)
  {
    hide Print;
    PrintConcat(rs, [r]);
    PrintCons(r, []);
    assert [r] + [] == [r];
    assert PrintAll([]) == [];
  }
}
