/** ioctl request numbers (asm-generic/ioctl.h) and the DRM command range (drm.h).  The size
    and direction widths are parameters, since an architecture may override them. */
module Ioctl {
  import opened Bits

  const NRBITS: nat := 8
  const TYPEBITS: nat := 8

  /** _IOC_SIZEBITS and _IOC_DIRBITS */
  datatype Widths = Widths(size: nat, dir: nat) {
    /** The four fields fill the 32-bit word. */
    predicate Fill32() {
      size + dir == 16
    }
  }

  datatype Request = Request(dir: nat, typ: nat, nr: nat, size: nat)

  function DirShift(c: Widths): nat {
    16 + c.size
  }

  /** _IOC(dir, type, nr, size) */
  function Encode(c: Widths, x: Request): nat {
    Or(Or(Or(Shl(x.dir, DirShift(c)), Shl(x.typ, 8)), Shl(x.nr, 0)), Shl(x.size, 16))
  }

  /** _IOC_DIR, _IOC_TYPE, _IOC_NR and _IOC_SIZE */
  function Decode(c: Widths, w: nat): Request {
    Request(And(Shr(w, DirShift(c)), Ones(c.dir)), And(Shr(w, 8), Ones(TYPEBITS)),
            And(Shr(w, 0), Ones(NRBITS)), And(Shr(w, 16), Ones(c.size)))
  }

  predicate InRange(c: Widths, x: Request) {
    x.dir < Pow2(c.dir) && x.typ < Pow2(TYPEBITS) && x.nr < Pow2(NRBITS) && x.size < Pow2(c.size)
  }

  lemma InRangeBits(c: Widths, x: Request)
    ensures InRange(c, x) <==>
              HighClear(x.dir, c.dir) && HighClear(x.typ, TYPEBITS) && HighClear(x.nr, NRBITS) && HighClear(x.size, c.size)
  {
    hide Pow2, Bit;
    FitsBits(x.dir, c.dir);
    FitsBits(x.typ, TYPEBITS);
    FitsBits(x.nr, NRBITS);
    FitsBits(x.size, c.size);
  }

  lemma DecodeInRange(c: Widths, w: nat)
    ensures InRange(c, Decode(c, w))
  {
    hide Bit, And, Or, Shl, Shr, Ones, Pow2;
    InRangeBits(c, Decode(c, w));
  }

  lemma EncodeBit(c: Widths, x: Request, i: nat)
    ensures Bit(Encode(c, x), i) <==>
              || (i >= DirShift(c) && Bit(x.dir, i - DirShift(c)))
              || (i >= 8 && Bit(x.typ, i - 8))
              || Bit(x.nr, i)
              || (i >= 16 && Bit(x.size, i - 16))
  {
    hide Bit, And, Or, Shl, Shr, Ones;
  }

  /** The decoded fields of an encoded request, bit by bit. */
  lemma DecodeBit(c: Widths, x: Request, i: nat)
    requires c.Fill32() && InRange(c, x)
    ensures var y := Decode(c, Encode(c, x));
            && Bit(y.dir, i) == Bit(x.dir, i) && Bit(y.typ, i) == Bit(x.typ, i)
            && Bit(y.nr, i) == Bit(x.nr, i) && Bit(y.size, i) == Bit(x.size, i)
  {
    hide Bit, And, Or, Shl, Shr, Ones, Pow2, Encode;
    InRangeBits(c, x);
    EncodeBit(c, x, i + DirShift(c));
    EncodeBit(c, x, i + 8);
    EncodeBit(c, x, i + 0);
    EncodeBit(c, x, i + 16);
  }

  /** Decoding inverts encoding exactly on the requests whose fields fit their widths. */
  lemma DecodeEncode(c: Widths, x: Request)
    requires c.Fill32()
    ensures Decode(c, Encode(c, x)) == x <==> InRange(c, x)
  {
    hide Bit, Decode, Encode, InRange;
    var y := Decode(c, Encode(c, x));
    DecodeInRange(c, Encode(c, x));
    if InRange(c, x) {
      forall i: nat
        ensures Bit(y.dir, i) == Bit(x.dir, i) && Bit(y.typ, i) == Bit(x.typ, i)
        ensures Bit(y.nr, i) == Bit(x.nr, i) && Bit(y.size, i) == Bit(x.size, i)
      {
        DecodeBit(c, x, i);
      }
      SameBits(y.dir, x.dir);
      SameBits(y.typ, x.typ);
      SameBits(y.nr, x.nr);
      SameBits(y.size, x.size);
    }
  }

  /** Re-encoding the decoded fields gives back exactly the words of 32 bits. */
  lemma EncodeDecode(c: Widths, w: nat)
    requires c.Fill32()
    ensures Encode(c, Decode(c, w)) == w <==> w < Pow2(32)
  {
    hide Bit, And, Or, Shl, Shr, Ones, Pow2;
    var x := Decode(c, w);
    var w' := Encode(c, x);
    hide Encode;
    forall i: nat
      ensures Bit(w', i) <==> i < 32 && Bit(w, i)
    {
      EncodeBit(c, x, i);
    }
    FitsBits(w, 32);
    if HighClear(w, 32) {
      SameBits(w', w);
    }
  }

  /** Distinct in-range requests have distinct numbers, for every choice of widths. */
  lemma EncodeInjective(c: Widths, x: Request, y: Request)
    requires c.Fill32() && InRange(c, x) && InRange(c, y)
    ensures Encode(c, x) == Encode(c, y) <==> x == y
  {
    DecodeEncode(c, x);
    DecodeEncode(c, y);
  }

  /** The number of a request: direction, size, type and number, from high to low. */
  lemma EncodeIsSum(c: Widths, x: Request)
    requires c.Fill32() && InRange(c, x)
    ensures Encode(c, x) == x.dir * Pow2(16 + c.size) + x.size * 0x1_0000 + x.typ * 0x100 + x.nr
  {
    hide Bit, And, Or, Shl, Ones, Pow2;
    Pow2Small();
    var low := Shl(x.typ, 8) + x.nr;
    ShlIsMul(x.typ, 8);
    Below(x.typ, Pow2(TYPEBITS), 0x100, x.nr);
    OrIsAdd(x.typ, 8, x.nr);
    var mid := Shl(x.size, 16) + low;
    ShlIsMul(x.size, 16);
    Pow2Add(8, 8);
    OrIsAdd(x.size, 16, low);
    Pow2Add(c.size, 16);
    Below(x.size, Pow2(c.size), Pow2(16), low);
    ShlIsMul(x.dir, 16 + c.size);
    OrIsAdd(x.dir, 16 + c.size, mid);
    EncodeNested(c, x);
  }

  lemma Below(q: nat, n: nat, p: nat, r: nat)
    requires q < n && r < p
    ensures q * p + r < n * p
  {
    MulGap(q, n, p);
  }

  lemma EncodeNested(c: Widths, x: Request)
    ensures Encode(c, x) == Or(Shl(x.dir, 16 + c.size), Or(Shl(x.size, 16), Or(Shl(x.typ, 8), x.nr)))
  {
    hide Bit, Or, Shl;
    var nested := Or(Shl(x.dir, 16 + c.size), Or(Shl(x.size, 16), Or(Shl(x.typ, 8), x.nr)));
    forall i: nat
      ensures Bit(Encode(c, x), i) == Bit(nested, i)
    {
    }
    SameBits(Encode(c, x), nested);
  }

  // ---- DRM numbers

  const DRM_IOCTL_BASE: nat := 0x64 // 'd'
  const COMMAND_BASE: nat := 0x40
  const COMMAND_END: nat := 0xA0

  /** DRM_IO, DRM_IOR, DRM_IOW and DRM_IOWR, by direction */
  function DrmIoc(c: Widths, dir: nat, nr: nat, size: nat): nat {
    Encode(c, Request(dir, DRM_IOCTL_BASE, nr, size))
  }

  /** A driver's command number: DRM_COMMAND_BASE plus the driver's own id. */
  function DriverIoc(c: Widths, dir: nat, id: nat, size: nat): nat {
    DrmIoc(c, dir, COMMAND_BASE + id, size)
  }

  /** A driver command in the low 16 bits: 'd' and 0x40 plus the driver's id. */
  lemma DriverNumber(c: Widths, dir: nat, id: nat, size: nat)
    requires c.Fill32() && Args(c, dir, size) && id < 0xC0
    ensures DriverIoc(c, dir, id, size) == dir * Pow2(16 + c.size) + size * 0x1_0000 + 0x6440 + id
  {
    hide Encode, Pow2;
    Pow2Small();
    EncodeIsSum(c, Request(dir, DRM_IOCTL_BASE, COMMAND_BASE + id, size));
  }

  predicate GenericNr(nr: nat) {
    nr < COMMAND_BASE || COMMAND_END <= nr < 256
  }

  predicate Args(c: Widths, dir: nat, size: nat) {
    dir < Pow2(c.dir) && size < Pow2(c.size)
  }

  /** Driver commands with different ids, directions or argument sizes have different numbers. */
  lemma DriverCommandsDistinct(c: Widths, dir: nat, id: nat, size: nat, dir': nat, id': nat, size': nat)
    requires c.Fill32() && Args(c, dir, size) && Args(c, dir', size')
    requires id < 256 - COMMAND_BASE && id' < 256 - COMMAND_BASE
    ensures DriverIoc(c, dir, id, size) == DriverIoc(c, dir', id', size')
            <==> dir == dir' && id == id' && size == size'
  {
    EncodeInjective(c, Request(dir, DRM_IOCTL_BASE, COMMAND_BASE + id, size),
                    Request(dir', DRM_IOCTL_BASE, COMMAND_BASE + id', size'));
  }

  /** A driver command is clear of every generic command exactly when its id stays below
      DRM_COMMAND_END - DRM_COMMAND_BASE, which is 0x60. */
  lemma DriverClearOfGeneric(c: Widths, dir: nat, id: nat, size: nat)
    requires c.Fill32() && Args(c, dir, size) && id < 256 - COMMAND_BASE
    ensures (forall dir': nat, nr: nat, size': nat {:trigger DrmIoc(c, dir', nr, size')} ::
               Args(c, dir', size') && GenericNr(nr) ==> DrmIoc(c, dir', nr, size') != DriverIoc(c, dir, id, size))
            <==> id < 0x60
  {
    if id < COMMAND_END - COMMAND_BASE {
      forall dir': nat, nr: nat, size': nat | Args(c, dir', size') && GenericNr(nr)
        ensures DrmIoc(c, dir', nr, size') != DriverIoc(c, dir, id, size)
      {
        EncodeInjective(c, Request(dir, DRM_IOCTL_BASE, COMMAND_BASE + id, size), Request(dir', DRM_IOCTL_BASE, nr, size'));
      }
    } else {
      assert GenericNr(COMMAND_BASE + id);
      assert DrmIoc(c, dir, COMMAND_BASE + id, size) == DriverIoc(c, dir, id, size);
    }
  }
}
