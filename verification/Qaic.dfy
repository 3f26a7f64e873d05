/** QAIC manage messages: transactions back to back, with a byte length and a count. */
module Qaic {
  import opened Bytes
  import opened Records

  const MAX_MSG_LENGTH: nat := 4096

  /** struct qaic_manage_msg, with the memory its data address points to. */
  datatype Msg = Msg(len: nat, count: nat, data: seq<Byte>)

  /** The 4K limit counts the len and count fields (4 bytes each) too. */
  predicate WithinLimit(len: nat) {
    4 + 4 + len <= MAX_MSG_LENGTH
  }

  function PrintMsg(ts: seq<Record>): Msg {
    Msg(|PrintAll(ts)|, |ts|, PrintAll(ts))
  }

  /** Walk over `count` transactions; the rest of the bytes is returned too. */
  function Walk(bs: seq<Byte>, count: nat): Option<(seq<Record>, seq<Byte>)>
    decreases count
  {
    if count == 0 then Some(([], bs)) else
      var h := Head(bs);
      if h.None? then None else
        var rest := Walk(bs[Length(h.value)..], count - 1);
        if rest.None? then None else Some(([h.value] + rest.value.0, rest.value.1))
  }

  /** A message is taken when its length is within the limit and readable, and `count`
      transactions fill it to the last byte. */
  function ParseMsg(m: Msg): Option<seq<Record>> {
    if !WithinLimit(m.len) || |m.data| < m.len then None else
      var w := Walk(m.data[..m.len], m.count);
      if w.None? || w.value.1 != [] then None else Some(w.value.0)
  }

  lemma {:induction false} WalkPrint(ts: seq<Record>, tail: seq<Byte>)
    requires AllEncodable(ts)
    ensures Walk(PrintAll(ts) + tail, |ts|) == Some((ts, tail))
    decreases |ts|
  {
    if ts == [] {
      assert PrintAll(ts) + tail == tail;
    } else {
      hide Head, Print, Encodable;
      var rest := PrintAll(ts[1..]) + tail;
      assert PrintAll(ts) + tail == Print(ts[0]) + rest;
      HeadOfPrint(ts[0], rest);
      WalkPrint(ts[1..], tail);
      assert [ts[0]] + ts[1..] == ts;
    }
  }

  lemma {:induction false} PrintWalk(bs: seq<Byte>, count: nat)
    requires Walk(bs, count).Some?
    ensures AllEncodable(Walk(bs, count).value.0) && |Walk(bs, count).value.0| == count
    ensures PrintAll(Walk(bs, count).value.0) + Walk(bs, count).value.1 == bs
    decreases count
  {
    if count > 0 {
      hide Print, Encodable, Head, PrintAll;
      var r := Head(bs).value;
      var rest := bs[Length(r)..];
      PrintWalk(rest, count - 1);
      var ts, tail := Walk(rest, count - 1).value.0, Walk(rest, count - 1).value.1;
      assert Walk(bs, count) == Some(([r] + ts, tail));
      hide Walk;
      PrintOfHead(bs);
      PrintCons(r, ts);
      Append3(bs, Length(r), PrintAll(ts), tail);
    }
  }

  lemma Append3(bs: seq<Byte>, n: nat, mid: seq<Byte>, tail: seq<Byte>)
    requires n <= |bs| && mid + tail == bs[n..]
    ensures (bs[..n] + mid) + tail == bs
  {
    assert (bs[..n] + mid) + tail == bs[..n] + (mid + tail);
  }

  /** A message parses to a list of transactions exactly when it is that list printed: the bytes
      agree, the transaction lengths sum to len, their number is count, and the total is within
      the limit. */
  lemma ParseMsgExact(m: Msg, ts: seq<Record>)
    ensures ParseMsg(m) == Some(ts) <==>
              && AllEncodable(ts) && m.len + 8 <= 4096
              && m.len == |PrintAll(ts)| && m.count == |ts|
              && m.len <= |m.data| && m.data[..m.len] == PrintAll(ts)
  {
    hide Head, Print, Encodable;
    if ParseMsg(m) == Some(ts) {
      PrintWalk(m.data[..m.len], m.count);
      assert PrintAll(ts) + [] == PrintAll(ts);
    } else if AllEncodable(ts) && m.len <= |m.data| && m.data[..m.len] == PrintAll(ts) {
      WalkPrint(ts, []);
      assert PrintAll(ts) + [] == PrintAll(ts);
    }
  }

  /** Every encodable list within the limit survives the round trip. */
  lemma RoundTrip(ts: seq<Record>)
    requires AllEncodable(ts)
    ensures ParseMsg(PrintMsg(ts)) == if |PrintAll(ts)| + 8 <= 4096 then Some(ts) else None
  {
    ParseMsgExact(PrintMsg(ts), ts);
    assert PrintAll(ts)[..|PrintAll(ts)|] == PrintAll(ts);
  }

  /** Total length of a list of transactions, headers included. */
  function TotalLength(ts: seq<Record>): nat {
    if ts == [] then 0 else Length(ts[0]) + TotalLength(ts[1..])
  }

  lemma {:induction false} PrintLength(ts: seq<Record>)
    ensures |PrintAll(ts)| == TotalLength(ts) && TotalLength(ts) >= HEADER * |ts|
    decreases |ts|
  {
    if ts != [] {
      PrintLength(ts[1..]);
    }
  }

  /** No accepted message holds more than 511 transactions. */
  lemma CountBounded(m: Msg)
    requires ParseMsg(m).Some?
    ensures m.len == TotalLength(ParseMsg(m).value) && m.count <= 511
  {
    ParseMsgExact(m, ParseMsg(m).value);
    PrintLength(ParseMsg(m).value);
  }
}
