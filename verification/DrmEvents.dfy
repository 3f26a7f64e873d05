/** Events on a DRM file: a queue of pending events, and reads that return complete events. */
module DrmEvents {
  import opened Bytes
  import opened Records

  /** How many events from the front fit into `room` bytes. */
  function FitCount(pending: seq<Record>, room: nat): (k: nat)
    ensures k <= |pending|
    decreases |pending|
  {
    if pending == [] || Length(pending[0]) > room then 0
    else 1 + FitCount(pending[1..], room - Length(pending[0]))
  }

  /** What a read returns: the longest run of whole pending events that fits the buffer. */
  lemma {:induction false} FitMeans(pending: seq<Record>, room: nat)
    ensures |PrintAll(pending[..FitCount(pending, room)])| <= room
    ensures FitCount(pending, room) < |pending| ==>
              |PrintAll(pending[..FitCount(pending, room) + 1])| > room
    decreases |pending|
  {
    var k := FitCount(pending, room);
    if pending == [] {
      assert pending[..k] == [];
    } else {
      var r, rest := pending[0], pending[1..];
      if Length(r) <= room {
        FitMeans(rest, room - Length(r));
        assert pending[..k] == [r] + rest[..k - 1];
        PrintCons(r, rest[..k - 1]);
        if k < |pending| {
          assert pending[..k + 1] == [r] + rest[..k];
          PrintCons(r, rest[..k]);
        }
      } else {
        assert pending[..0] == [] && pending[..1] == [r] + [];
        PrintCons(r, []);
      }
    }
  }

  /** The open DRM file. */
  class EventFile {
    var pending: seq<Record>
    ghost var delivered: seq<Byte>
    ghost var returned: seq<Byte>

    /** Bytes returned so far, then bytes still pending: all bytes delivered, in order. */
    ghost predicate Valid()
      reads this
    {
      returned + PrintAll(pending) == delivered
    }

    constructor ()
      ensures Valid() && pending == [] && delivered == [] && returned == []
    {
      pending, delivered, returned := [], [], [];
    }

    method Deliver(event: Record)
      requires Valid()
      modifies this
      ensures Valid()
      ensures pending == old(pending) + [event] && delivered == old(delivered) + Print(event)
      ensures returned == old(returned)
    {
      PrintSnoc(pending, event);
      hide PrintAll, Print;
      pending := pending + [event];
      delivered := delivered + Print(event);
    }

    /** Read with a buffer of `room` bytes. */
    method Read(room: nat) returns (buffer: seq<Byte>)
      requires Valid()
      modifies this
      ensures Valid() && delivered == old(delivered)
      ensures var k := FitCount(old(pending), room);
              buffer == PrintAll(old(pending)[..k]) && pending == old(pending)[k..]
      ensures |buffer| <= room && returned == old(returned) + buffer
    {
      buffer := [];
      ghost var before, k := pending, 0;
      PrintNothing(before);
      hide PrintAll, Print, FitCount;
      while pending != [] && |buffer| + Length(pending[0]) <= room
        invariant k <= |before| && pending == before[k..] && buffer == PrintAll(before[..k])
        invariant |buffer| <= room
        invariant FitCount(before, room) == k + FitCount(pending, room - |buffer|)
        invariant returned == old(returned) && delivered == old(delivered)
        decreases |pending|
      {
        TakeOne(before, k, room - |buffer|);
        buffer := buffer + Print(pending[0]);
        pending := pending[1..];
        k := k + 1;
      }
      FitStops(pending, room - |buffer|);
      SplitPrint(before, k);
      returned := returned + buffer;
    }
  }

  lemma PrintNothing(rs: seq<Record>)
    ensures PrintAll(rs[..0]) == [] && rs[0..] == rs
  {
  }

  lemma TakeOne(before: seq<Record>, k: nat, room: nat)
    requires k < |before| && Length(before[k]) <= room
    ensures PrintAll(before[..k + 1]) == PrintAll(before[..k]) + Print(before[k])
    ensures before[k..][1..] == before[k + 1..]
    ensures FitCount(before[k..], room) == 1 + FitCount(before[k + 1..], room - Length(before[k]))
  {
    assert before[..k + 1] == before[..k] + [before[k]];
    PrintSnoc(before[..k], before[k]);
    assert before[k..][1..] == before[k + 1..];
    hide PrintAll, Print;
  }

  lemma FitStops(pending: seq<Record>, room: nat)
    requires pending == [] || Length(pending[0]) > room
    ensures FitCount(pending, room) == 0
  {
  }

  lemma SplitPrint(rs: seq<Record>, k: nat)
    requires k <= |rs|
    ensures PrintAll(rs[..k]) + PrintAll(rs[k..]) == PrintAll(rs)
  {
    hide PrintAll;
    PrintConcat(rs[..k], rs[k..]);
    assert rs[..k] + rs[k..] == rs;
  }

  // ---- whole runs

  datatype Op = Deliver(event: Record) | Read(room: nat)

  /** What is pending, what was delivered and what each read returned. */
  datatype State = State(pending: seq<Record>, delivered: seq<Record>, buffers: seq<seq<Byte>>)

  function Step(s: State, op: Op): State {
    match op
    case Deliver(e) => State(s.pending + [e], s.delivered + [e], s.buffers)
    case Read(room) =>
      var k := FitCount(s.pending, room);
      State(s.pending[k..], s.delivered, s.buffers + [PrintAll(s.pending[..k])])
  }

  function Run(s: State, ops: seq<Op>): State
    decreases |ops|
  {
    if ops == [] then s else Run(Step(s, ops[0]), ops[1..])
  }

  function Flatten(bufs: seq<seq<Byte>>): seq<Byte> {
    if bufs == [] then [] else Flatten(bufs[..|bufs| - 1]) + bufs[|bufs| - 1]
  }

  /** Reads so far are the delivered events but the pending ones, byte for byte. */
  ghost predicate Conserved(s: State) {
    && |s.pending| <= |s.delivered|
    && s.pending == s.delivered[|s.delivered| - |s.pending|..]
    && Flatten(s.buffers) == PrintAll(s.delivered[..|s.delivered| - |s.pending|])
    && AllEncodable(s.delivered)
    && forall i :: 0 <= i < |s.buffers| ==> ParseAll(s.buffers[i]).Some?
  }

  predicate OpOk(op: Op) {
    op.Deliver? ==> Encodable(op.event)
  }

  lemma DeliverConserves(s: State, e: Record)
    requires Conserved(s) && Encodable(e)
    ensures Conserved(Step(s, Deliver(e)))
  {
    hide Encodable, PrintAll, ParseAll, Flatten;
    var n := |s.delivered| - |s.pending|;
    var d := s.delivered + [e];
    assert d[..n] == s.delivered[..n] && d[n..] == s.delivered[n..] + [e];
  }

  lemma ReadConserves(s: State, room: nat)
    requires Conserved(s)
    ensures Conserved(Step(s, Read(room)))
  {
    hide Encodable, PrintAll, ParseAll, FitCount, Flatten, AllEncodable;
    var n, k := |s.delivered| - |s.pending|, FitCount(s.pending, room);
    var got := s.pending[..k];
    SliceEncodable(s.delivered, n, k);
    ParsePrint(got);
    assert s.delivered[..n + k] == s.delivered[..n] + got;
    PrintConcat(s.delivered[..n], got);
    FlattenSnoc(s.buffers, PrintAll(got));
    assert s.pending[k..] == s.delivered[n + k..];
  }

  lemma SliceEncodable(rs: seq<Record>, n: nat, k: nat)
    requires AllEncodable(rs) && n + k <= |rs|
    ensures AllEncodable(rs[n..][..k])
  {
    hide Encodable;
  }

  lemma FlattenSnoc(bufs: seq<seq<Byte>>, b: seq<Byte>)
    ensures Flatten(bufs + [b]) == Flatten(bufs) + b
  {
    assert (bufs + [b])[..|bufs|] == bufs;
  }

  /** Over any interleaving of deliveries and reads with any buffer sizes, nothing is lost,
      repeated, reordered or split. */
  lemma {:induction false} RunConserves(s: State, ops: seq<Op>)
    requires Conserved(s) && forall i :: 0 <= i < |ops| ==> OpOk(ops[i])
    ensures Conserved(Run(s, ops))
    decreases |ops|
  {
    if ops != [] {
      match ops[0] {
        case Deliver(e) =>
          assert OpOk(ops[0]);
          DeliverConserves(s, e);
        case Read(room) => ReadConserves(s, room);
      }
      hide Step, Conserved;
      RunConserves(Step(s, ops[0]), ops[1..]);
    }
  }

  /** A reader that concatenates its buffers can cut them back into events: it gets exactly the
      delivered events, in order, but those still pending. */
  lemma StreamParses(ops: seq<Op>)
    requires forall i :: 0 <= i < |ops| ==> OpOk(ops[i])
    ensures var s := Run(State([], [], []), ops);
            && |s.pending| <= |s.delivered|
            && ParseAll(Flatten(s.buffers)) == Some(s.delivered[..|s.delivered| - |s.pending|])
            && s.delivered[|s.delivered| - |s.pending|..] == s.pending
  {
    var start := State([], [], []);
    assert Conserved(start);
    RunConserves(start, ops);
    var s := Run(start, ops);
    ParsePrint(s.delivered[..|s.delivered| - |s.pending|]);
  }

  function Reads(room: nat, n: nat): (r: seq<Op>)
    ensures |r| == n && forall i :: 0 <= i < n ==> r[i] == Read(room)
  {
    seq(n, _ => Read(room))
  }

  predicate AllFit(pending: seq<Record>, room: nat) {
    forall i :: 0 <= i < |pending| ==> Length(pending[i]) <= room
  }

  /** As many reads as there are events, with a buffer that holds the largest, empty the queue. */
  lemma {:induction false} ReadsDrain(s: State, room: nat, n: nat)
    requires AllFit(s.pending, room) && |s.pending| <= n
    ensures Run(s, Reads(room, n)).pending == []
    decreases n
  {
    if n > 0 {
      hide PrintAll, FitCount, AllFit;
      var s' := Step(s, Read(room));
      ReadTakes(s.pending, room);
      assert Reads(room, n)[1..] == Reads(room, n - 1);
      ReadsDrain(s', room, n - 1);
    }
  }

  lemma ReadTakes(pending: seq<Record>, room: nat)
    requires AllFit(pending, room)
    ensures pending != [] ==> FitCount(pending, room) >= 1
    ensures AllFit(pending[FitCount(pending, room)..], room)
  {
    assert pending != [] ==> Length(pending[0]) <= room;
    var k := FitCount(pending, room);
    hide Length;
    forall i | 0 <= i < |pending[k..]|
      ensures Length(pending[k..][i]) <= room
    {
      assert pending[k..][i] == pending[k + i];
    }
  }

  /** The header's example: two 64-byte events and a 100-byte buffer give one event. */
  lemma HeaderExample(a: Record, b: Record)
    requires Length(a) == 64 && Length(b) == 64
    ensures FitCount([a, b], 100) == 1
  {
    assert [a, b][1..] == [b];
  }
}
