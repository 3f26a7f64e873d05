/** The flat command buffer of DRM_IOCTL_ASAHI_SUBMIT: headers followed by payloads whose
    length the header gives. */
module AsahiCmdbuf {
  import opened Bytes
  import opened Versioned

  const HEADER: nat := 8
  const ATTACHMENT: nat := 24
  const BARRIER_NONE: nat := 0xFFFF

  /** drm_asahi_attachment; its pad and flags must be zero. */
  datatype Attachment = Attachment(pointer: nat, size: nat)

  datatype Stage = VertexStage | FragmentStage | ComputeStage

  datatype Command =
    | Hardware(compute: bool, vdm: nat, cdm: nat, payload: seq<Byte>)
    | SetAttachments(stage: Stage, attachments: seq<Attachment>)

  /** What a driver knows: its payload sizes and the limits it reports. */
  datatype Driver = Driver(renderSize: nat, computeSize: nat, maxCommands: nat, maxAttachments: nat)

  function Known(d: Driver, compute: bool): nat {
    if compute then d.computeSize else d.renderSize
  }

  // ---- attachments

  function PrintAttachment(a: Attachment): (bs: seq<Byte>)
    ensures |bs| == ATTACHMENT
  {
    ToLE(a.pointer, 8) + ToLE(a.size, 8) + ToLE(0, 4) + ToLE(0, 4)
  }

  function PrintAttachments(atts: seq<Attachment>): (bs: seq<Byte>)
    ensures |bs| == ATTACHMENT * |atts|
  {
    if atts == [] then [] else PrintAttachment(atts[0]) + PrintAttachments(atts[1..])
  }

  predicate AttachmentsFit(atts: seq<Attachment>) {
    forall i :: 0 <= i < |atts| ==> atts[i].pointer < Pow256(8) && atts[i].size < Pow256(8)
  }

  function ReadAttachment(bs: seq<Byte>): Attachment
    requires |bs| >= ATTACHMENT
  {
    Attachment(FromLE(bs[..8]), FromLE(bs[8..16]))
  }

  /** `size` bytes hold size / sizeof(struct drm_asahi_attachment) attachments. */
  function ParseAttachments(bs: seq<Byte>): Option<seq<Attachment>>
    decreases |bs|
  {
    if bs == [] then Some([])
    else if |bs| < ATTACHMENT || FromLE(bs[16..20]) != 0 || FromLE(bs[20..24]) != 0 then None
    else
      var rest := ParseAttachments(bs[ATTACHMENT..]);
      if rest.None? then None else Some([ReadAttachment(bs)] + rest.value)
  }

  lemma AttachmentReads(a: Attachment, tail: seq<Byte>)
    requires a.pointer < Pow256(8) && a.size < Pow256(8)
    ensures var bs := PrintAttachment(a) + tail;
            ReadAttachment(bs) == a && FromLE(bs[16..20]) == 0 && FromLE(bs[20..24]) == 0 && bs[ATTACHMENT..] == tail
  {
    hide FromLE, ToLE, Pow256;
    var bs := PrintAttachment(a) + tail;
    assert bs[..8] == ToLE(a.pointer, 8) && bs[8..16] == ToLE(a.size, 8);
    assert bs[16..20] == ToLE(0, 4) && bs[20..24] == ToLE(0, 4);
    ReadWritten(a.pointer, 8);
    ReadWritten(a.size, 8);
    ReadWritten(0, 4);
  }

  lemma AttachmentPrints(bs: seq<Byte>)
    requires |bs| >= ATTACHMENT && FromLE(bs[16..20]) == 0 && FromLE(bs[20..24]) == 0
    ensures PrintAttachment(ReadAttachment(bs)) == bs[..ATTACHMENT]
    ensures ReadAttachment(bs).pointer < Pow256(8) && ReadAttachment(bs).size < Pow256(8)
  {
    hide FromLE, ToLE, Pow256;
    assert |bs[..8]| == 8 && |bs[8..16]| == 8 && |bs[16..20]| == 4 && |bs[20..24]| == 4;
    WriteRead(bs[..8]);
    WriteRead(bs[8..16]);
    WriteRead(bs[16..20]);
    WriteRead(bs[20..24]);
    assert bs[..8] + bs[8..16] + bs[16..20] + bs[20..24] == bs[..ATTACHMENT];
  }

  lemma {:induction false} ParsePrintAttachments(atts: seq<Attachment>)
    requires AttachmentsFit(atts)
    ensures ParseAttachments(PrintAttachments(atts)) == Some(atts)
    decreases |atts|
  {
    if atts != [] {
      hide FromLE, Pow256, PrintAttachment, ReadAttachment;
      AttachmentReads(atts[0], PrintAttachments(atts[1..]));
      ParsePrintAttachments(atts[1..]);
      assert [atts[0]] + atts[1..] == atts;
    }
  }

  lemma {:induction false} PrintParseAttachments(bs: seq<Byte>)
    requires ParseAttachments(bs).Some?
    ensures AttachmentsFit(ParseAttachments(bs).value) && PrintAttachments(ParseAttachments(bs).value) == bs
    ensures |bs| == ATTACHMENT * |ParseAttachments(bs).value|
    decreases |bs|
  {
    if bs != [] {
      hide FromLE, Pow256, PrintAttachment, ReadAttachment;
      var rest := bs[ATTACHMENT..];
      AttachmentPrints(bs);
      PrintParseAttachments(rest);
      assert bs == bs[..ATTACHMENT] + rest;
      assert ParseAttachments(bs).value[1..] == ParseAttachments(rest).value;
    }
  }

  // ---- commands

  function CmdType(c: Command): nat {
    match c
    case Hardware(compute, _, _, _) => if compute then 1 else 0
    case SetAttachments(stage, _) => if stage.VertexStage? then 2 else if stage.FragmentStage? then 3 else 4
  }

  function Body(c: Command): seq<Byte> {
    match c
    case Hardware(_, _, _, payload) => payload
    case SetAttachments(_, atts) => PrintAttachments(atts)
  }

  /** The barriers of the header: attachment commands must pass NONE. */
  function Vdm(c: Command): nat {
    if c.Hardware? then c.vdm else BARRIER_NONE
  }

  function Cdm(c: Command): nat {
    if c.Hardware? then c.cdm else BARRIER_NONE
  }

  /** Every field fits the header. */
  predicate Printable(c: Command) {
    && |Body(c)| < Pow256(2) && Vdm(c) < Pow256(2) && Cdm(c) < Pow256(2)
    && (c.SetAttachments? ==> AttachmentsFit(c.attachments))
  }

  predicate AllPrintable(cs: seq<Command>) {
    forall i :: 0 <= i < |cs| ==> Printable(cs[i])
  }

  function PrintHeader(typ: nat, size: nat, vdm: nat, cdm: nat): (bs: seq<Byte>)
    ensures |bs| == HEADER
  {
    ToLE(typ, 2) + ToLE(size, 2) + ToLE(vdm, 2) + ToLE(cdm, 2)
  }

  function PrintCommand(c: Command): (bs: seq<Byte>)
    ensures |bs| == HEADER + |Body(c)|
  {
    PrintHeader(CmdType(c), |Body(c)|, Vdm(c), Cdm(c)) + Body(c)
  }

  function Print(cs: seq<Command>): seq<Byte> {
    if cs == [] then [] else PrintCommand(cs[0]) + Print(cs[1..])
  }

  /** The command a header and its payload stand for, if any. */
  function Interpret(typ: nat, vdm: nat, cdm: nat, body: seq<Byte>): Option<Command> {
    if typ <= 1 then Some(Hardware(typ == 1, vdm, cdm, body))
    else if typ > 4 || vdm != BARRIER_NONE || cdm != BARRIER_NONE then None
    else
      var atts := ParseAttachments(body);
      if atts.None? then None
      else Some(SetAttachments(if typ == 2 then VertexStage else if typ == 3 then FragmentStage else ComputeStage, atts.value))
  }

  /** The first command of a buffer and the bytes it takes. */
  function HeadCommand(bs: seq<Byte>): (r: Option<(Command, nat)>)
    ensures r.Some? ==> HEADER <= r.value.1 <= |bs|
  {
    if |bs| < HEADER then None else
      var size := FromLE(bs[2..4]);
      if |bs| < HEADER + size then None else
        var c := Interpret(FromLE(bs[..2]), FromLE(bs[4..6]), FromLE(bs[6..8]), bs[HEADER..HEADER + size]);
        if c.None? then None else Some((c.value, HEADER + size))
  }

  /** All commands of a buffer; each step takes at least a header, so the walk ends. */
  function Parse(bs: seq<Byte>): Option<seq<Command>>
    decreases |bs|
  {
    if bs == [] then Some([]) else
      var h := HeadCommand(bs);
      if h.None? then None else
        var rest := Parse(bs[h.value.1..]);
        if rest.None? then None else Some([h.value.0] + rest.value)
  }

  lemma HeaderReads(typ: nat, size: nat, vdm: nat, cdm: nat, tail: seq<Byte>)
    requires typ < Pow256(2) && size < Pow256(2) && vdm < Pow256(2) && cdm < Pow256(2)
    ensures var bs := PrintHeader(typ, size, vdm, cdm) + tail;
            && FromLE(bs[..2]) == typ && FromLE(bs[2..4]) == size && FromLE(bs[4..6]) == vdm && FromLE(bs[6..8]) == cdm
            && bs[HEADER..] == tail
  {
    hide FromLE, ToLE, Pow256;
    var bs := PrintHeader(typ, size, vdm, cdm) + tail;
    assert bs[..2] == ToLE(typ, 2) && bs[2..4] == ToLE(size, 2) && bs[4..6] == ToLE(vdm, 2) && bs[6..8] == ToLE(cdm, 2);
    ReadWritten(typ, 2);
    ReadWritten(size, 2);
    ReadWritten(vdm, 2);
    ReadWritten(cdm, 2);
  }

  lemma HeaderPrints(bs: seq<Byte>)
    requires |bs| >= HEADER
    ensures PrintHeader(FromLE(bs[..2]), FromLE(bs[2..4]), FromLE(bs[4..6]), FromLE(bs[6..8])) == bs[..HEADER]
    ensures FromLE(bs[2..4]) < Pow256(2) && FromLE(bs[4..6]) < Pow256(2) && FromLE(bs[6..8]) < Pow256(2)
  {
    hide FromLE, ToLE, Pow256;
    assert |bs[..2]| == 2 && |bs[2..4]| == 2 && |bs[4..6]| == 2 && |bs[6..8]| == 2;
    WriteRead(bs[..2]);
    WriteRead(bs[2..4]);
    WriteRead(bs[4..6]);
    WriteRead(bs[6..8]);
    assert bs[..2] + bs[2..4] + bs[4..6] + bs[6..8] == bs[..HEADER];
  }

  lemma InterpretInverse(c: Command)
    requires Printable(c)
    ensures Interpret(CmdType(c), Vdm(c), Cdm(c), Body(c)) == Some(c)
  {
    hide ParseAttachments, PrintAttachments;
    if c.SetAttachments? {
      ParsePrintAttachments(c.attachments);
    }
  }

  lemma InterpretSound(typ: nat, vdm: nat, cdm: nat, body: seq<Byte>)
    requires Interpret(typ, vdm, cdm, body).Some?
    requires vdm < Pow256(2) && cdm < Pow256(2) && |body| < Pow256(2)
    ensures var c := Interpret(typ, vdm, cdm, body).value;
            Printable(c) && CmdType(c) == typ && Vdm(c) == vdm && Cdm(c) == cdm && Body(c) == body
  {
    hide ParseAttachments, PrintAttachments, Pow256;
    if typ > 1 {
      PrintParseAttachments(body);
    }
  }

  lemma HeadOfPrint(c: Command, tail: seq<Byte>)
    requires Printable(c)
    ensures HeadCommand(PrintCommand(c) + tail) == Some((c, |PrintCommand(c)|))
    ensures (PrintCommand(c) + tail)[|PrintCommand(c)|..] == tail
  {
    FieldSizes();
    hide FromLE, Pow256, PrintHeader, Interpret, Printable, Body;
    InterpretInverse(c);
    var body := Body(c);
    var bs := PrintCommand(c) + tail;
    assert Printable(c) ==> |body| < Pow256(2) && Vdm(c) < Pow256(2) && Cdm(c) < Pow256(2) by {
      PrintableFields(c);
    }
    var rest := body + tail;
    assert bs == PrintHeader(CmdType(c), |body|, Vdm(c), Cdm(c)) + rest;
    HeaderReads(CmdType(c), |body|, Vdm(c), Cdm(c), rest);
    assert bs[HEADER..HEADER + |body|] == body;
  }

  lemma PrintableFields(c: Command)
    requires Printable(c)
    ensures |Body(c)| < Pow256(2) && Vdm(c) < Pow256(2) && Cdm(c) < Pow256(2)
  {
  }

  lemma PrintOfHead(bs: seq<Byte>)
    requires HeadCommand(bs).Some?
    ensures var (c, n) := HeadCommand(bs).value; Printable(c) && PrintCommand(c) == bs[..n] && |PrintCommand(c)| == n
  {
    hide FromLE, Pow256, PrintHeader, Interpret, Printable, Body;
    var size := FromLE(bs[2..4]);
    var body := bs[HEADER..HEADER + size];
    HeaderPrints(bs);
    InterpretSound(FromLE(bs[..2]), FromLE(bs[4..6]), FromLE(bs[6..8]), body);
    assert bs[..HEADER] + body == bs[..HEADER + size];
  }

  /** The bytes of a command: four little-endian 16-bit fields, then the payload. */
  lemma CommandOnWire(c: Command)
    requires Printable(c)
    ensures var bs := PrintCommand(c);
            && |bs| >= 8 && FromLE(bs[2..4]) == |bs| - 8
            && (match c
                case Hardware(compute, vdm, cdm, payload) =>
                  && FromLE(bs[0..2]) == (if compute then 1 else 0) && FromLE(bs[4..6]) == vdm && FromLE(bs[6..8]) == cdm
                  && bs[8..] == payload
                case SetAttachments(stage, atts) =>
                  && FromLE(bs[0..2]) == (match stage case VertexStage => 2 case FragmentStage => 3 case ComputeStage => 4)
                  && FromLE(bs[4..6]) == 0xFFFF && FromLE(bs[6..8]) == 0xFFFF
                  && bs[8..] == PrintAttachments(atts))
  {
    hide FromLE, Pow256, PrintHeader, PrintAttachments;
    FieldSizes();
    PrintableFields(c);
    HeaderReads(CmdType(c), |Body(c)|, Vdm(c), Cdm(c), Body(c));
    assert PrintCommand(c)[0..2] == PrintCommand(c)[..2];
  }

  /** Attachment k takes 24 bytes: pointer, size, and zeros. */
  lemma {:induction false} AttachmentOnWire(atts: seq<Attachment>, k: nat)
    requires k < |atts|
    ensures PrintAttachments(atts)[24 * k..24 * k + 24] == ToLE(atts[k].pointer, 8) + ToLE(atts[k].size, 8) + Zeros(8)
    decreases k
  {
    hide ToLE;
    var all := PrintAttachments(atts);
    if k == 0 {
      ZeroFields();
      assert ToLE(0, 4) + ToLE(0, 4) == Zeros(8);
      assert all[0..24] == PrintAttachment(atts[0]);
      assert ToLE(atts[0].pointer, 8) + ToLE(atts[0].size, 8) + ToLE(0, 4) + ToLE(0, 4)
          == ToLE(atts[0].pointer, 8) + ToLE(atts[0].size, 8) + (ToLE(0, 4) + ToLE(0, 4));
    } else {
      AttachmentOnWire(atts[1..], k - 1);
      var rest := PrintAttachments(atts[1..]);
      assert all == PrintAttachment(atts[0]) + rest;
      assert all[24 * k..24 * k + 24] == rest[24 * (k - 1)..24 * (k - 1) + 24];
    }
  }

  lemma ZeroFields()
    ensures ToLE(0, 4) == Zeros(4)
  {
  }

  /** One step of the walk. */
  lemma ParseStep(bs: seq<Byte>)
    requires bs != []
    ensures Parse(bs) == if HeadCommand(bs).None? || Parse(bs[HeadCommand(bs).value.1..]).None? then None
                         else Some([HeadCommand(bs).value.0] + Parse(bs[HeadCommand(bs).value.1..]).value)
  {
    hide HeadCommand;
  }

  lemma PrintCons(c: Command, cs: seq<Command>)
    ensures Print([c] + cs) == PrintCommand(c) + Print(cs)
    ensures AllPrintable([c] + cs) <==> Printable(c) && AllPrintable(cs)
  {
    hide PrintCommand, Printable;
    assert ([c] + cs)[1..] == cs;
    if AllPrintable([c] + cs) {
      assert ([c] + cs)[0] == c;
      forall i | 0 <= i < |cs|
        ensures Printable(cs[i])
      {
        assert cs[i] == ([c] + cs)[i + 1];
      }
    }
  }

  lemma Assoc<T>(a: seq<T>, b: seq<T>, c: seq<T>)
    ensures (a + b) + c == a + (b + c)
  {
  }

  /** A parsed prefix and the rest of the buffer parse independently. */
  lemma {:induction false} ParsePrefix(cs: seq<Command>, rest: seq<Byte>)
    requires AllPrintable(cs)
    ensures Parse(Print(cs) + rest)
         == if Parse(rest).None? then None else Some(cs + Parse(rest).value)
    decreases |cs|, 1
  {
    hide PrintCommand, HeadCommand, Printable, Parse, Print, AllPrintable;
    if cs == [] {
      NothingParses();
      assert Print(cs) + rest == rest;
      assert Parse(rest).Some? ==> cs + Parse(rest).value == Parse(rest).value;
    } else {
      assert cs == [cs[0]] + cs[1..];
      ParsePrefixStep(cs[0], cs[1..], rest);
    }
  }

  lemma ParsePrefixStep(c: Command, cs: seq<Command>, rest: seq<Byte>)
    requires AllPrintable([c] + cs)
    ensures Parse(Print([c] + cs) + rest) == if Parse(rest).None? then None else Some([c] + cs + Parse(rest).value)
    decreases |cs| + 1, 0
  {
    hide PrintCommand, HeadCommand, Printable, Parse, Print, AllPrintable;
    PrintCons(c, cs);
    var tail := Print(cs) + rest;
    Assoc(PrintCommand(c), Print(cs), rest);
    HeadOfPrint(c, tail);
    ParseStep(PrintCommand(c) + tail);
    ParsePrefix(cs, rest);
    if Parse(rest).Some? {
      Assoc([c], cs, Parse(rest).value);
    }
  }

  /** The buffers that parse to cs are exactly the printing of cs. */
  lemma ParseExact(bs: seq<Byte>, cs: seq<Command>)
    ensures Parse(bs) == Some(cs) <==> AllPrintable(cs) && Print(cs) == bs
  {
    hide PrintCommand, HeadCommand, Printable;
    if AllPrintable(cs) && Print(cs) == bs {
      ParsePrefix(cs, []);
      assert Print(cs) + [] == bs && cs + [] == cs;
      assert Parse([]) == Some([]);
    }
    if Parse(bs) == Some(cs) {
      PrintParse(bs);
    }
  }

  lemma NothingParses()
    ensures Parse([]) == Some([]) && Print([]) == [] && AllPrintable([])
  {
  }

  lemma {:induction false} PrintParse(bs: seq<Byte>)
    requires Parse(bs).Some?
    ensures AllPrintable(Parse(bs).value) && Print(Parse(bs).value) == bs
    decreases |bs|
  {
    hide PrintCommand, HeadCommand, Printable, Print, Parse, AllPrintable;
    if bs == [] {
      NothingParses();
    } else {
      ParseStep(bs);
      var c, n := HeadCommand(bs).value.0, HeadCommand(bs).value.1;
      PrintOfHead(bs);
      PrintParse(bs[n..]);
      PrintCons(c, Parse(bs[n..]).value);
      assert bs == bs[..n] + bs[n..];
    }
  }

  // ---- what a driver accepts

  /** Commands of one subqueue among cs: render (VDM) or compute (CDM). */
  function Count(cs: seq<Command>, compute: bool): nat {
    if cs == [] then 0 else
      var last := cs[|cs| - 1];
      Count(cs[..|cs| - 1], compute) + (if last.Hardware? && last.compute == compute then 1 else 0)
  }

  /** A barrier is NONE or names at most the commands already there. */
  predicate BarrierOk(barrier: nat, earlier: nat) {
    barrier == BARRIER_NONE || barrier <= earlier
  }

  predicate BarriersOkAt(cs: seq<Command>, i: nat)
    requires i < |cs|
  {
    cs[i].Hardware? ==> BarrierOk(cs[i].vdm, Count(cs[..i], false)) && BarrierOk(cs[i].cdm, Count(cs[..i], true))
  }

  predicate BarriersOk(cs: seq<Command>) {
    forall i :: 0 <= i < |cs| ==> BarriersOkAt(cs, i)
  }

  /** Nothing the driver does not know, and not too many attachments. */
  predicate Understood(d: Driver, c: Command) {
    match c
    case Hardware(compute, _, _, payload) => ZeroFrom(payload, Known(d, compute))
    case SetAttachments(_, atts) => |atts| <= d.maxAttachments
  }

  predicate AllUnderstood(d: Driver, cs: seq<Command>) {
    forall i :: 0 <= i < |cs| ==> Understood(d, cs[i])
  }

  /** The combined count of hardware commands is nonzero and within the limit. */
  predicate CountOk(d: Driver, cs: seq<Command>) {
    1 <= Count(cs, false) + Count(cs, true) <= d.maxCommands
  }

  /** The command as this driver sees it: truncated fields are zeroed. */
  function Normalize(d: Driver, c: Command): Command {
    match c
    case Hardware(compute, vdm, cdm, payload) => Hardware(compute, vdm, cdm, Resize(payload, Known(d, compute)))
    case SetAttachments(_, _) => c
  }

  function NormalizeAll(d: Driver, cs: seq<Command>): (r: seq<Command>)
    ensures |r| == |cs| && forall i :: 0 <= i < |cs| ==> r[i] == Normalize(d, cs[i])
  {
    seq(|cs|, i requires 0 <= i < |cs| => Normalize(d, cs[i]))
  }

  /** A submit in stages: parse, understand every command, check every barrier, count. */
  function Submit(d: Driver, bs: seq<Byte>): Option<seq<Command>> {
    var cs := Parse(bs);
    if cs.None? || !AllUnderstood(d, cs.value) || !BarriersOk(cs.value) || !CountOk(d, cs.value) then None
    else Some(NormalizeAll(d, cs.value))
  }

  /** Any list of commands a user space prints reaches the driver as its normal form, or the
      submit is refused for one of the documented reasons; nothing else is possible. */
  lemma SubmitOfPrint(d: Driver, cs: seq<Command>)
    requires AllPrintable(cs)
    ensures Submit(d, Print(cs))
         == if AllUnderstood(d, cs) && BarriersOk(cs) && CountOk(d, cs) then Some(NormalizeAll(d, cs)) else None
  {
    hide Print, Parse, Printable;
    ParseExact(Print(cs), cs);
  }

  /** A user space of the driver's own version gets its commands through unchanged. */
  lemma SameVersionRoundTrip(d: Driver, cs: seq<Command>)
    requires AllPrintable(cs) && BarriersOk(cs) && CountOk(d, cs) && AllUnderstood(d, cs)
    requires forall i :: 0 <= i < |cs| && cs[i].Hardware? ==> |cs[i].payload| == Known(d, cs[i].compute)
    ensures Submit(d, Print(cs)) == Some(cs)
  {
    hide Print, Parse, Printable, BarriersOk, CountOk;
    SubmitOfPrint(d, cs);
    forall i | 0 <= i < |cs|
      ensures Normalize(d, cs[i]) == cs[i]
    {
      if cs[i].Hardware? {
        assert Resize(cs[i].payload, Known(d, cs[i].compute)) == cs[i].payload;
      }
    }
    assert NormalizeAll(d, cs) == cs;
  }

  /** Every accepted buffer is the printing of some commands, so the walk read every byte. */
  lemma SubmitSound(d: Driver, bs: seq<Byte>)
    requires Submit(d, bs).Some?
    ensures exists cs: seq<Command> {:trigger AllPrintable(cs)} ::
              && AllPrintable(cs) && Print(cs) == bs && AllUnderstood(d, cs) && BarriersOk(cs) && CountOk(d, cs)
              && Submit(d, bs) == Some(NormalizeAll(d, cs))
  {
    hide Print, Parse, Printable;
    ParseExact(bs, Parse(bs).value);
    assert AllPrintable(Parse(bs).value);
  }

  // ---- what a submit means, in the header's own terms

  /** Positions of the hardware commands of one subqueue before position i. */
  function Earlier(cs: seq<Command>, i: nat, compute: bool): (r: set<nat>)
    requires i <= |cs|
  {
    set k: nat | k < i && cs[k].Hardware? && cs[k].compute == compute
  }

  lemma EarlierStep(cs: seq<Command>, i: nat, compute: bool)
    requires i < |cs|
    ensures |Earlier(cs, i + 1, compute)|
         == |Earlier(cs, i, compute)| + (if cs[i].Hardware? && cs[i].compute == compute then 1 else 0)
  {
    var before := Earlier(cs, i, compute);
    assert Earlier(cs, i + 1, compute) == if cs[i].Hardware? && cs[i].compute == compute then before + {i} else before;
  }

  lemma {:induction false} CountIsSize(cs: seq<Command>, i: nat, compute: bool)
    requires i <= |cs|
    ensures Count(cs[..i], compute) == |Earlier(cs, i, compute)|
    decreases i
  {
    if i == 0 {
      assert Earlier(cs, 0, compute) == {};
    } else {
      hide Earlier;
      CountIsSize(cs, i - 1, compute);
      EarlierStep(cs, i - 1, compute);
      assert cs[..i] == cs[..i - 1] + [cs[i - 1]];
      CountSnoc(cs[..i - 1], cs[i - 1], compute);
      hide Count;
    }
  }

  /** Each barrier of hardware command i is NONE or counts no more than the commands of that
      subqueue before it. */
  predicate BarriersAllowed(cs: seq<Command>, i: nat)
    requires i < |cs| && cs[i].Hardware?
  {
    && (cs[i].vdm == 0xFFFF || cs[i].vdm <= |Earlier(cs, i, false)|)
    && (cs[i].cdm == 0xFFFF || cs[i].cdm <= |Earlier(cs, i, true)|)
  }

  /** Command i of a submit meets the header's demands. */
  predicate CommandAllowed(d: Driver, cs: seq<Command>, i: nat)
    requires i < |cs|
  {
    match cs[i]
    case SetAttachments(_, atts) => |atts| <= d.maxAttachments
    case Hardware(compute, vdm, cdm, payload) =>
      && (forall j :: (if compute then d.computeSize else d.renderSize) <= j < |payload| ==> payload[j] == 0)
      && BarriersAllowed(cs, i)
  }

  predicate Allowed(d: Driver, cs: seq<Command>) {
    && (forall i :: 0 <= i < |cs| ==> CommandAllowed(d, cs, i))
    && 1 <= |Earlier(cs, |cs|, false)| + |Earlier(cs, |cs|, true)| <= d.maxCommands
  }

  /** Command r is what command c arrives as: the payload has the size of the driver's struct,
      written bytes are kept, truncated ones are zero, and everything else is unchanged. */
  predicate ArrivesAs(d: Driver, c: Command, r: Command) {
    match c
    case SetAttachments(_, _) => r == c
    case Hardware(compute, vdm, cdm, payload) =>
      && r.Hardware? && r.compute == compute && r.vdm == vdm && r.cdm == cdm
      && |r.payload| == (if compute then d.computeSize else d.renderSize)
      && forall j :: 0 <= j < |r.payload| ==> r.payload[j] == if j < |payload| then payload[j] else 0
  }

  lemma BarriersMean(cs: seq<Command>)
    ensures BarriersOk(cs) <==> forall i :: 0 <= i < |cs| && cs[i].Hardware? ==> BarriersAllowed(cs, i)
  {
    hide Count, Earlier;
    forall i | 0 <= i < |cs|
      ensures BarriersOkAt(cs, i) <==> (cs[i].Hardware? ==> BarriersAllowed(cs, i))
    {
      CountIsSize(cs, i, false);
      CountIsSize(cs, i, true);
    }
    hide BarriersOkAt, BarriersAllowed;
  }

  lemma AllowedMeans(d: Driver, cs: seq<Command>)
    ensures Allowed(d, cs) <==> AllUnderstood(d, cs) && BarriersOk(cs) && CountOk(d, cs)
  {
    hide Count;
    CountIsSize(cs, |cs|, false);
    CountIsSize(cs, |cs|, true);
    assert cs[..|cs|] == cs;
    BarriersMean(cs);
    forall i | 0 <= i < |cs|
      ensures CommandAllowed(d, cs, i) <==> Understood(d, cs[i]) && (cs[i].Hardware? ==> BarriersAllowed(cs, i))
    {
    }
    hide CommandAllowed, Understood, BarriersAllowed, BarriersOk, Earlier;
  }

  /** A printed command list is accepted exactly when the header allows it, and then every
      command arrives in the driver's own struct size with truncated fields zeroed. */
  lemma SubmitMeans(d: Driver, cs: seq<Command>)
    requires AllPrintable(cs)
    ensures Submit(d, Print(cs)).Some? <==> Allowed(d, cs)
    ensures Allowed(d, cs) ==>
              var rs := Submit(d, Print(cs)).value;
              |rs| == |cs| && forall i :: 0 <= i < |cs| ==> ArrivesAs(d, cs[i], rs[i])
  {
    hide Print, Printable, Submit, Allowed, AllUnderstood, BarriersOk, CountOk;
    SubmitOfPrint(d, cs);
    AllowedMeans(d, cs);
  }

  lemma {:induction false} NormalizeKeepsCount(d: Driver, cs: seq<Command>, compute: bool)
    ensures Count(NormalizeAll(d, cs), compute) == Count(cs, compute)
    decreases |cs|
  {
    if cs != [] {
      var front := cs[..|cs| - 1];
      assert NormalizeAll(d, cs)[..|cs| - 1] == NormalizeAll(d, front);
      NormalizeKeepsCount(d, front, compute);
    }
  }

  /** Zero-extending payloads changes neither barriers nor subqueues. */
  lemma NormalizeKeepsBarriers(d: Driver, cs: seq<Command>)
    ensures BarriersOk(NormalizeAll(d, cs)) <==> BarriersOk(cs)
  {
    hide Count;
    var ns := NormalizeAll(d, cs);
    forall i | 0 <= i < |cs|
      ensures BarriersOkAt(ns, i) <==> BarriersOkAt(cs, i)
    {
      assert ns[..i] == NormalizeAll(d, cs[..i]);
      NormalizeKeepsCount(d, cs[..i], false);
      NormalizeKeepsCount(d, cs[..i], true);
    }
    hide BarriersOkAt;
    assert BarriersOk(ns) ==> BarriersOk(cs) by {
      assert forall i :: 0 <= i < |cs| && BarriersOkAt(ns, i) ==> BarriersOkAt(cs, i);
    }
  }

  // ---- the driver's single pass over the buffer

  lemma CountSnoc(cs: seq<Command>, c: Command, compute: bool)
    ensures Count(cs + [c], compute) == Count(cs, compute) + (if c.Hardware? && c.compute == compute then 1 else 0)
  {
    assert (cs + [c])[..|cs|] == cs;
  }

  lemma {:induction false} CountGrows(cs: seq<Command>, vs: seq<Command>, compute: bool)
    ensures Count(cs + vs, compute) >= Count(cs, compute)
    decreases |vs|
  {
    if vs == [] {
      assert cs + vs == cs;
    } else {
      var front := vs[..|vs| - 1];
      assert cs + vs == (cs + front) + [vs[|vs| - 1]];
      CountSnoc(cs + front, vs[|vs| - 1], compute);
      CountGrows(cs, front, compute);
    }
  }

  /** Everything checked so far holds of the commands read so far. */
  predicate PrefixOk(d: Driver, cs: seq<Command>) {
    AllPrintable(cs) && AllUnderstood(d, cs) && BarriersOk(cs) && Count(cs, false) + Count(cs, true) <= d.maxCommands
  }

  /** The checks the pass makes on the next command. */
  predicate NextOk(d: Driver, cs: seq<Command>, c: Command) {
    && Understood(d, c)
    && (c.Hardware? ==>
          && BarrierOk(c.vdm, Count(cs, false)) && BarrierOk(c.cdm, Count(cs, true))
          && Count(cs, false) + Count(cs, true) < d.maxCommands)
  }

  lemma PrefixExtends(d: Driver, cs: seq<Command>, c: Command)
    requires PrefixOk(d, cs) && Printable(c) && NextOk(d, cs, c)
    ensures PrefixOk(d, cs + [c])
  {
    hide Printable, Understood;
    CountSnoc(cs, c, false);
    CountSnoc(cs, c, true);
    var cs' := cs + [c];
    forall i | 0 <= i < |cs'|
      ensures BarriersOkAt(cs', i)
    {
      assert cs'[..i] == cs[..i];
      assert i < |cs| ==> BarriersOkAt(cs, i);
      assert i == |cs| ==> cs[..i] == cs;
    }
  }

  /** A command that fails its check makes every submit that begins like this one fail. */
  lemma PrefixRefuses(d: Driver, cs: seq<Command>, c: Command, vs: seq<Command>)
    requires PrefixOk(d, cs) && !NextOk(d, cs, c)
    ensures var all := cs + [c] + vs; !AllUnderstood(d, all) || !BarriersOk(all) || !CountOk(d, all)
  {
    hide Printable, Understood;
    var all := cs + [c] + vs;
    var n := |cs|;
    assert all[n] == c && all[..n] == cs;
    if Understood(d, c) {
      CountSnoc(cs, c, false);
      CountSnoc(cs, c, true);
      CountGrows(cs + [c], vs, false);
      CountGrows(cs + [c], vs, true);
      if BarriersOk(all) {
        assert BarriersOkAt(all, n);
      }
    }
  }

  lemma PrintSnoc(cs: seq<Command>, c: Command)
    ensures Print(cs + [c]) == Print(cs) + PrintCommand(c)
    decreases |cs|
  {
    hide PrintCommand;
    if cs == [] {
      assert cs + [c] == [c] && [c][1..] == [];
    } else {
      PrintSnoc(cs[1..], c);
      assert (cs + [c])[1..] == cs[1..] + [c];
    }
  }

  /** Reading on from position pos, after the commands cs. */
  ghost predicate At(bs: seq<Byte>, pos: nat, cs: seq<Command>) {
    pos <= |bs| && AllPrintable(cs) && Print(cs) == bs[..pos]
  }

  lemma AtParses(bs: seq<Byte>, pos: nat, cs: seq<Command>)
    requires At(bs, pos, cs)
    ensures Parse(bs) == if Parse(bs[pos..]).None? then None else Some(cs + Parse(bs[pos..]).value)
  {
    hide Print, Parse, Printable;
    ParsePrefix(cs, bs[pos..]);
    assert bs[..pos] + bs[pos..] == bs;
  }

  lemma AtAdvances(bs: seq<Byte>, pos: nat, cs: seq<Command>)
    requires At(bs, pos, cs) && HeadCommand(bs[pos..]).Some?
    ensures var (c, n) := HeadCommand(bs[pos..]).value; Printable(c) && pos + n <= |bs| && At(bs, pos + n, cs + [c])
  {
    hide Print, PrintCommand, HeadCommand, Printable;
    var c, n := HeadCommand(bs[pos..]).value.0, HeadCommand(bs[pos..]).value.1;
    PrintOfHead(bs[pos..]);
    PrintSnoc(cs, c);
    assert bs[pos..][..n] == bs[pos..pos + n];
    assert bs[..pos] + bs[pos..pos + n] == bs[..pos + n];
  }

  /** A command that the pass refuses makes the whole submit fail. */
  lemma AtRefuses(d: Driver, bs: seq<Byte>, pos: nat, cs: seq<Command>)
    requires At(bs, pos, cs) && pos < |bs| && PrefixOk(d, cs)
    requires HeadCommand(bs[pos..]).None? || !NextOk(d, cs, HeadCommand(bs[pos..]).value.0)
    ensures Submit(d, bs) == None
  {
    hide HeadCommand, PrefixOk, NextOk, AllUnderstood, BarriersOk, CountOk, Parse, At, NormalizeAll;
    AtParses(bs, pos, cs);
    var rest := bs[pos..];
    ParseStep(rest);
    if Parse(rest).Some? {
      var c, n := HeadCommand(rest).value.0, HeadCommand(rest).value.1;
      var vs := Parse(rest[n..]).value;
      assert cs + ([c] + vs) == cs + [c] + vs;
      PrefixRefuses(d, cs, c, vs);
    }
  }

  lemma AtEnd(d: Driver, bs: seq<Byte>, cs: seq<Command>)
    requires At(bs, |bs|, cs) && PrefixOk(d, cs)
    ensures Submit(d, bs) == if Count(cs, false) + Count(cs, true) == 0 then None else Some(NormalizeAll(d, cs))
  {
    AtParses(bs, |bs|, cs);
    assert Parse([]) == Some([]);
    hide Parse, Print, Printable, Count;
    assert bs[|bs|..] == [] && cs + [] == cs;
  }

  lemma AtInside(bs: seq<Byte>, pos: nat, cs: seq<Command>)
    requires At(bs, pos, cs)
    ensures pos <= |bs|
  {
  }

  lemma NormalizeSnoc(d: Driver, cs: seq<Command>, c: Command)
    ensures NormalizeAll(d, cs + [c]) == NormalizeAll(d, cs) + [Normalize(d, c)]
  {
    hide Normalize;
  }

  /** A command that passes its checks is taken over. */
  lemma PassStep(d: Driver, bs: seq<Byte>, pos: nat, cs: seq<Command>)
    requires At(bs, pos, cs) && PrefixOk(d, cs) && HeadCommand(bs[pos..]).Some?
    requires NextOk(d, cs, HeadCommand(bs[pos..]).value.0)
    ensures var (c, n) := HeadCommand(bs[pos..]).value;
            && pos + n <= |bs| && At(bs, pos + n, cs + [c]) && PrefixOk(d, cs + [c])
            && NormalizeAll(d, cs + [c]) == NormalizeAll(d, cs) + [Normalize(d, c)]
            && Count(cs + [c], false) == Count(cs, false) + (if c.Hardware? && !c.compute then 1 else 0)
            && Count(cs + [c], true) == Count(cs, true) + (if c.Hardware? && c.compute then 1 else 0)
  {
    hide HeadCommand, At, PrefixOk, NextOk, NormalizeAll, Normalize, Count, Printable;
    assert pos <= |bs| by {
      AtInside(bs, pos, cs);
    }
    var c := HeadCommand(bs[pos..]).value.0;
    AtAdvances(bs, pos, cs);
    PrefixExtends(d, cs, c);
    NormalizeSnoc(d, cs, c);
    CountSnoc(cs, c, false);
    CountSnoc(cs, c, true);
  }

  lemma AtStart(d: Driver, bs: seq<Byte>)
    ensures At(bs, 0, []) && PrefixOk(d, []) && NormalizeAll(d, []) == []
    ensures Count([], false) == 0 && Count([], true) == 0
  {
  }

  /** The pass that stops at the first bad command and counts the two subqueues as it goes gives
      the same verdict and the same commands as the staged definition. */
  method SubmitPass(d: Driver, bs: seq<Byte>) returns (r: Option<seq<Command>>)
    ensures r == Submit(d, bs)
  {
    hide Parse, Print, Printable, HeadCommand, PrefixOk, At, Submit, Count, Normalize, NormalizeAll, Understood;
    var pos, renders, computes := 0, 0, 0;
    var out: seq<Command> := [];
    ghost var cs: seq<Command> := [];
    AtStart(d, bs);
    while pos < |bs|
      invariant pos <= |bs| && At(bs, pos, cs) && PrefixOk(d, cs)
      invariant renders == Count(cs, false) && computes == Count(cs, true)
      invariant out == NormalizeAll(d, cs)
      decreases |bs| - pos
    {
      var h := HeadCommand(bs[pos..]);
      if h.None? {
        AtRefuses(d, bs, pos, cs);
        return None;
      }
      var c := h.value.0;
      if !Understood(d, c) {
        AtRefuses(d, bs, pos, cs);
        return None;
      }
      if c.Hardware? && (!BarrierOk(c.vdm, renders) || !BarrierOk(c.cdm, computes) || renders + computes >= d.maxCommands) {
        AtRefuses(d, bs, pos, cs);
        return None;
      }
      PassStep(d, bs, pos, cs);
      out := out + [Normalize(d, c)];
      if c.Hardware? {
        if c.compute {
          computes := computes + 1;
        } else {
          renders := renders + 1;
        }
      }
      pos := pos + h.value.1;
      cs := cs + [c];
    }
    AtEnd(d, bs, cs);
    if renders + computes == 0 {
      return None;
    }
    return Some(out);
  }
}
