/** The format/modifier blob of drm_mode.h: which modifiers a plane supports for which formats,
    as 64-bit masks over sliding windows of the format list. */
module FormatWindows {
  import opened Bits
  import opened Bytes

  /** struct drm_format_modifier */
  datatype Entry = Entry(formats: nat, offset: nat, modifier: nat)

  /** The entry says that the format at index f has modifier m. */
  predicate Supports(e: Entry, f: nat, m: nat) {
    e.modifier == m && e.offset <= f < e.offset + 64 && Bit(e.formats, f - e.offset)
  }

  predicate Lists(es: seq<Entry>, f: nat, m: nat) {
    exists i :: 0 <= i < |es| && Supports(es[i], f, m)
  }

  /** Which (format index, modifier) pairs a plane supports. */
  type Relation = set<(nat, nat)>

  /** Bit i for each supported format offset + i, i below k. */
  function Mask(rel: Relation, m: nat, offset: nat, k: nat): nat {
    if k == 0 then 0
    else Or(Mask(rel, m, offset, k - 1), if (offset + k - 1, m) in rel then Shl(1, k - 1) else 0)
  }

  lemma {:induction false} MaskBit(rel: Relation, m: nat, offset: nat, k: nat, i: nat)
    ensures Bit(Mask(rel, m, offset, k), i) <==> i < k && (offset + i, m) in rel
    decreases k
  {
    hide Bit, Or, Shl;
    ZeroBits();
    if k > 0 {
      MaskBit(rel, m, offset, k - 1, i);
      if i >= k - 1 {
        BitOfOne(i - (k - 1));
      }
    }
  }

  function Window(rel: Relation, m: nat, n: nat, offset: nat): Entry
    requires offset < n
  {
    Entry(Mask(rel, m, offset, if n - offset < 64 then n - offset else 64), offset, m)
  }

  /** The windows of one modifier from `offset` to the end of a list of n formats. */
  function Windows(rel: Relation, m: nat, n: nat, offset: nat): seq<Entry>
    decreases n - offset
  {
    if offset >= n then [] else [Window(rel, m, n, offset)] + Windows(rel, m, n, offset + 64)
  }

  function Encode(rel: Relation, n: nat, mods: seq<nat>): seq<Entry>
    decreases |mods|
  {
    if mods == [] then [] else Windows(rel, mods[0], n, 0) + Encode(rel, n, mods[1..])
  }

  lemma ListsConcat(es: seq<Entry>, fs: seq<Entry>, f: nat, m: nat)
    ensures Lists(es + fs, f, m) <==> Lists(es, f, m) || Lists(fs, f, m)
  {
    hide Supports;
    var all := es + fs;
    if Lists(es, f, m) {
      var i :| 0 <= i < |es| && Supports(es[i], f, m);
      assert Supports(all[i], f, m);
    }
    if Lists(fs, f, m) {
      var i :| 0 <= i < |fs| && Supports(fs[i], f, m);
      assert Supports(all[|es| + i], f, m);
    }
    if Lists(all, f, m) {
      var i :| 0 <= i < |all| && Supports(all[i], f, m);
      if i < |es| {
        assert Supports(es[i], f, m);
      } else {
        assert Supports(fs[i - |es|], f, m);
      }
    }
  }

  lemma ListsOne(e: Entry, f: nat, m: nat)
    ensures Lists([e], f, m) <==> Supports(e, f, m)
  {
    hide Supports;
    assert Supports([e][0], f, m) == Supports(e, f, m);
  }

  lemma {:induction false} WindowsExact(rel: Relation, m: nat, n: nat, offset: nat, f: nat, m': nat)
    ensures Lists(Windows(rel, m, n, offset), f, m') <==> m' == m && offset <= f < n && (f, m) in rel
    decreases n - offset
  {
    hide Bit, Mask, Lists;
    if offset < n {
      var e, rest := Window(rel, m, n, offset), Windows(rel, m, n, offset + 64);
      ListsConcat([e], rest, f, m');
      ListsOne(e, f, m');
      WindowsExact(rel, m, n, offset + 64, f, m');
      if f >= offset {
        MaskBit(rel, m, offset, if n - offset < 64 then n - offset else 64, f - offset);
      }
    } else {
      ListsNothing(f, m');
    }
  }

  lemma ListsNothing(f: nat, m: nat)
    ensures !Lists([], f, m)
  {
  }

  /** Encoding any relation over a format list of any length and any modifiers, and reading the
      entries, gives back exactly that relation. */
  lemma {:induction false} EncodeExact(rel: Relation, n: nat, mods: seq<nat>, f: nat, m: nat)
    ensures Lists(Encode(rel, n, mods), f, m) <==> f < n && m in mods && (f, m) in rel
    decreases |mods|
  {
    hide Lists, Windows;
    if mods == [] {
      ListsNothing(f, m);
    } else {
      ListsConcat(Windows(rel, mods[0], n, 0), Encode(rel, n, mods[1..]), f, m);
      WindowsExact(rel, mods[0], n, 0, f, m);
      EncodeExact(rel, n, mods[1..], f, m);
    }
  }

  /** A 64-bit mask at a multiple of 64 that only speaks of formats of the list. */
  ghost predicate EntryOk(e: Entry, n: nat) {
    && HighClear(e.formats, 64) && e.offset < n && e.offset % 64 == 0
    && forall i: nat :: Bit(e.formats, i) ==> e.offset + i < n
  }

  lemma {:induction false} WindowsOk(rel: Relation, m: nat, n: nat, offset: nat, k: nat)
    requires offset % 64 == 0 && k < |Windows(rel, m, n, offset)|
    ensures EntryOk(Windows(rel, m, n, offset)[k], n) && Windows(rel, m, n, offset)[k].modifier == m
    decreases n - offset
  {
    hide Bit, Mask;
    if k == 0 {
      forall i: nat
        ensures Bit(Window(rel, m, n, offset).formats, i) ==> i < 64 && offset + i < n
      {
        MaskBit(rel, m, offset, if n - offset < 64 then n - offset else 64, i);
      }
    } else {
      WindowsOk(rel, m, n, offset + 64, k - 1);
    }
  }

  /** Every entry the encoder makes is well formed, and there is one per modifier and window. */
  lemma {:induction false} EncodeOk(rel: Relation, n: nat, mods: seq<nat>, k: nat)
    requires k < |Encode(rel, n, mods)|
    ensures EntryOk(Encode(rel, n, mods)[k], n) && Encode(rel, n, mods)[k].modifier in mods
    decreases |mods|
  {
    hide Windows, EntryOk;
    var w := Windows(rel, mods[0], n, 0);
    if k < |w| {
      WindowsOk(rel, mods[0], n, 0, k);
    } else {
      EncodeOk(rel, n, mods[1..], k - |w|);
    }
  }

  lemma {:induction false} WindowsCount(rel: Relation, m: nat, n: nat, offset: nat)
    requires offset % 64 == 0
    ensures |Windows(rel, m, n, offset)| == if offset >= n then 0 else (n - offset + 63) / 64
    decreases n - offset
  {
    hide Mask;
    if offset < n {
      WindowsCount(rel, m, n, offset + 64);
    }
  }

  lemma {:induction false} EncodeCount(rel: Relation, n: nat, mods: seq<nat>)
    ensures |Encode(rel, n, mods)| == |mods| * ((n + 63) / 64)
    decreases |mods|
  {
    hide Windows;
    if mods != [] {
      WindowsCount(rel, mods[0], n, 0);
      EncodeCount(rel, n, mods[1..]);
      var w := (n + 63) / 64;
      assert |mods| * w == w + (|mods| - 1) * w;
    }
  }

  // ---- the blob

  const HEADER: nat := 24
  const FORMAT: nat := 4
  const ENTRY: nat := 24

  function PrintFormats(formats: seq<nat>): (bs: seq<Byte>)
    ensures |bs| == FORMAT * |formats|
  {
    if formats == [] then [] else ToLE(formats[0], 4) + PrintFormats(formats[1..])
  }

  function PrintEntry(e: Entry): (bs: seq<Byte>)
    ensures |bs| == ENTRY
  {
    ToLE(e.formats, 8) + ToLE(e.offset, 4) + ToLE(0, 4) + ToLE(e.modifier, 8)
  }

  function PrintEntries(es: seq<Entry>): (bs: seq<Byte>)
    ensures |bs| == ENTRY * |es|
  {
    if es == [] then [] else PrintEntry(es[0]) + PrintEntries(es[1..])
  }

  function PrintHeader(n: nat, count: nat, modifiersOffset: nat): (bs: seq<Byte>)
    ensures |bs| == HEADER
  {
    ToLE(1, 4) + ToLE(0, 4) + ToLE(n, 4) + ToLE(HEADER, 4) + ToLE(count, 4) + ToLE(modifiersOffset, 4)
  }

  /** A blob with `gap` padding bytes between the formats and the modifiers. */
  function PrintBlob(formats: seq<nat>, es: seq<Entry>, gap: nat): (bs: seq<Byte>)
    ensures |bs| == HEADER + FORMAT * |formats| + gap + ENTRY * |es|
  {
    PrintHeader(|formats|, |es|, HEADER + FORMAT * |formats| + gap) + PrintFormats(formats) + Zeros(gap) + PrintEntries(es)
  }

  function U32At(bs: seq<Byte>, at: nat): nat
    requires at + 4 <= |bs|
  {
    FromLE(bs[at..at + 4])
  }

  /** The reader's view: format i and entry k, if the header's offsets keep them in the blob. */
  function FormatAt(bs: seq<Byte>, i: nat): Option<nat> {
    if |bs| < HEADER || i >= U32At(bs, 8) || U32At(bs, 12) + FORMAT * i + 4 > |bs| then None
    else Some(U32At(bs, U32At(bs, 12) + FORMAT * i))
  }

  function EntryAt(bs: seq<Byte>, k: nat): Option<Entry> {
    if |bs| < HEADER || k >= U32At(bs, 16) || U32At(bs, 20) + ENTRY * k + ENTRY > |bs| then None
    else
      var at := U32At(bs, 20) + ENTRY * k;
      Some(Entry(FromLE(bs[at..at + 8]), U32At(bs, at + 8), FromLE(bs[at + 16..at + 24])))
  }

  /** Every field fits the blob's integers. */
  predicate Fits(formats: seq<nat>, es: seq<Entry>, gap: nat) {
    && HEADER + FORMAT * |formats| + gap < Pow256(4) && |es| < Pow256(4)
    && (forall i :: 0 <= i < |formats| ==> formats[i] < Pow256(4))
    && (forall k :: 0 <= k < |es| ==> es[k].formats < Pow256(8) && es[k].offset < Pow256(4) && es[k].modifier < Pow256(8))
  }

  lemma {:induction false} FormatsSlice(formats: seq<nat>, i: nat)
    requires i < |formats|
    ensures PrintFormats(formats)[FORMAT * i..FORMAT * i + 4] == ToLE(formats[i], 4)
    decreases |formats|
  {
    hide ToLE;
    if i > 0 {
      FormatsSlice(formats[1..], i - 1);
      var all, rest := PrintFormats(formats), PrintFormats(formats[1..]);
      assert all == ToLE(formats[0], 4) + rest;
      assert all[FORMAT * i..FORMAT * i + 4] == rest[FORMAT * (i - 1)..FORMAT * (i - 1) + 4];
    }
  }

  lemma {:induction false} EntriesSlice(es: seq<Entry>, k: nat)
    requires k < |es|
    ensures PrintEntries(es)[ENTRY * k..ENTRY * k + ENTRY] == PrintEntry(es[k])
    decreases |es|
  {
    hide PrintEntry;
    if k > 0 {
      EntriesSlice(es[1..], k - 1);
      var all, rest := PrintEntries(es), PrintEntries(es[1..]);
      assert all == PrintEntry(es[0]) + rest;
      assert all[ENTRY * k..ENTRY * k + ENTRY] == rest[ENTRY * (k - 1)..ENTRY * (k - 1) + ENTRY];
    }
  }

  lemma HeaderReads(n: nat, count: nat, at: nat, tail: seq<Byte>)
    requires n < Pow256(4) && count < Pow256(4) && at < Pow256(4)
    ensures var bs := PrintHeader(n, count, at) + tail;
            U32At(bs, 8) == n && U32At(bs, 12) == HEADER && U32At(bs, 16) == count && U32At(bs, 20) == at
  {
    hide FromLE, ToLE, Pow256;
    var bs := PrintHeader(n, count, at) + tail;
    assert bs[8..12] == ToLE(n, 4) && bs[12..16] == ToLE(HEADER, 4);
    assert bs[16..20] == ToLE(count, 4) && bs[20..24] == ToLE(at, 4);
    FieldSizes();
    ReadWritten(n, 4);
    ReadWritten(HEADER, 4);
    ReadWritten(count, 4);
    ReadWritten(at, 4);
  }

  lemma EntryReads(e: Entry)
    requires e.formats < Pow256(8) && e.offset < Pow256(4) && e.modifier < Pow256(8)
    ensures var bs := PrintEntry(e);
            FromLE(bs[..8]) == e.formats && FromLE(bs[8..12]) == e.offset && FromLE(bs[16..24]) == e.modifier
  {
    hide FromLE, ToLE, Pow256;
    var bs := PrintEntry(e);
    assert bs[..8] == ToLE(e.formats, 8) && bs[8..12] == ToLE(e.offset, 4) && bs[16..24] == ToLE(e.modifier, 8);
    ReadWritten(e.formats, 8);
    ReadWritten(e.offset, 4);
    ReadWritten(e.modifier, 8);
  }

  lemma BlobParts(formats: seq<nat>, es: seq<Entry>, gap: nat)
    ensures var bs := PrintBlob(formats, es, gap);
            var n := HEADER + FORMAT * |formats|;
            && bs[HEADER..n] == PrintFormats(formats) && bs[n + gap..] == PrintEntries(es)
            && bs == PrintHeader(|formats|, |es|, n + gap) + bs[HEADER..]
  {
    hide PrintHeader, PrintFormats, PrintEntries;
    FourParts(PrintHeader(|formats|, |es|, HEADER + FORMAT * |formats| + gap), PrintFormats(formats), Zeros(gap), PrintEntries(es));
  }

  lemma FourParts<T>(h: seq<T>, f: seq<T>, z: seq<T>, p: seq<T>)
    ensures var bs := h + f + z + p;
            bs[|h|..|h| + |f|] == f && bs[|h| + |f| + |z|..] == p && bs == h + bs[|h|..]
  {
  }

  lemma HeaderOfBlob(formats: seq<nat>, es: seq<Entry>, gap: nat)
    requires Fits(formats, es, gap)
    ensures var bs := PrintBlob(formats, es, gap);
            && U32At(bs, 8) == |formats| && U32At(bs, 12) == HEADER
            && U32At(bs, 16) == |es| && U32At(bs, 20) == HEADER + FORMAT * |formats| + gap
  {
    hide PrintHeader, PrintBlob, U32At, Pow256;
    var n := HEADER + FORMAT * |formats|;
    BlobParts(formats, es, gap);
    HeaderReads(|formats|, |es|, n + gap, PrintBlob(formats, es, gap)[HEADER..]);
  }

  lemma SliceOfSlice<T>(bs: seq<T>, lo: nat, hi: nat, a: nat, b: nat)
    requires lo <= hi <= |bs| && a <= b <= hi - lo
    ensures bs[lo..hi][a..b] == bs[lo + a..lo + b]
  {
    var l, r := bs[lo..hi][a..b], bs[lo + a..lo + b];
    assert |l| == |r|;
    forall i | 0 <= i < |l|
      ensures l[i] == r[i]
    {
      assert l[i] == bs[lo + a + i];
    }
  }

  lemma EntryInBlob(formats: seq<nat>, es: seq<Entry>, gap: nat, k: nat)
    requires k < |es|
    ensures var bs, at := PrintBlob(formats, es, gap), HEADER + FORMAT * |formats| + gap + ENTRY * k;
            at + ENTRY <= |bs| && bs[at..at + ENTRY] == PrintEntry(es[k])
  {
    hide PrintBlob, PrintFormats, PrintEntries, PrintEntry;
    var bs, lo := PrintBlob(formats, es, gap), HEADER + FORMAT * |formats| + gap;
    BlobParts(formats, es, gap);
    EntriesSlice(es, k);
    assert bs[lo..|bs|] == bs[lo..];
    SliceOfSlice(bs, lo, |bs|, ENTRY * k, ENTRY * k + ENTRY);
  }

  lemma EntryBytes(bs: seq<Byte>, at: nat, e: Entry)
    requires at + ENTRY <= |bs| && bs[at..at + ENTRY] == PrintEntry(e)
    requires e.formats < Pow256(8) && e.offset < Pow256(4) && e.modifier < Pow256(8)
    ensures FromLE(bs[at..at + 8]) == e.formats && U32At(bs, at + 8) == e.offset
    ensures FromLE(bs[at + 16..at + 24]) == e.modifier
  {
    hide FromLE, ToLE, Pow256, PrintEntry;
    SliceOfSlice(bs, at, at + ENTRY, 0, 8);
    SliceOfSlice(bs, at, at + ENTRY, 8, 12);
    SliceOfSlice(bs, at, at + ENTRY, 16, 24);
    assert PrintEntry(e)[..8] == PrintEntry(e)[0..8];
    EntryReads(e);
  }

  /** The bytes of the blob: six 32-bit fields, formats of 4 bytes at byte 24, and entries of 24
      bytes after the gap, each a 64-bit mask, a 32-bit offset, 4 bytes of padding and a 64-bit
      modifier. */
  lemma BlobOnWire(formats: seq<nat>, es: seq<Entry>, gap: nat)
    requires Fits(formats, es, gap)
    ensures var bs, at := PrintBlob(formats, es, gap), 24 + 4 * |formats| + gap;
            && |bs| == at + 24 * |es|
            && FromLE(bs[0..4]) == 1 && FromLE(bs[4..8]) == 0
            && FromLE(bs[8..12]) == |formats| && FromLE(bs[12..16]) == 24
            && FromLE(bs[16..20]) == |es| && FromLE(bs[20..24]) == at
            && (forall i :: 0 <= i < |formats| ==> FromLE(bs[24 + 4 * i..28 + 4 * i]) == formats[i])
            && (forall k :: 0 <= k < |es| ==>
                  && FromLE(bs[at + 24 * k..at + 24 * k + 8]) == es[k].formats
                  && FromLE(bs[at + 24 * k + 8..at + 24 * k + 12]) == es[k].offset
                  && FromLE(bs[at + 24 * k + 12..at + 24 * k + 16]) == 0
                  && FromLE(bs[at + 24 * k + 16..at + 24 * k + 24]) == es[k].modifier)
  {
    hide PrintBlob, FromLE, ToLE, Pow256, PrintFormats, PrintEntries, PrintEntry, PrintHeader;
    var bs, n := PrintBlob(formats, es, gap), HEADER + FORMAT * |formats|;
    BlobParts(formats, es, gap);
    HeaderOfBlob(formats, es, gap);
    FirstFields(|formats|, |es|, n + gap, bs[HEADER..]);
    forall i | 0 <= i < |formats|
      ensures FromLE(bs[24 + 4 * i..28 + 4 * i]) == formats[i]
    {
      FormatsSlice(formats, i);
      SliceOfSlice(bs, HEADER, n, FORMAT * i, FORMAT * i + 4);
      ReadWritten(formats[i], 4);
    }
    forall k | 0 <= k < |es|
      ensures FromLE(bs[n + gap + 24 * k..n + gap + 24 * k + 8]) == es[k].formats
      ensures FromLE(bs[n + gap + 24 * k + 8..n + gap + 24 * k + 12]) == es[k].offset
      ensures FromLE(bs[n + gap + 24 * k + 12..n + gap + 24 * k + 16]) == 0
      ensures FromLE(bs[n + gap + 24 * k + 16..n + gap + 24 * k + 24]) == es[k].modifier
    {
      EntryInBlob(formats, es, gap, k);
      EntryBytes(bs, n + gap + ENTRY * k, es[k]);
      EntryPad(bs, n + gap + ENTRY * k, es[k]);
    }
  }

  lemma EntryPad(bs: seq<Byte>, at: nat, e: Entry)
    requires at + ENTRY <= |bs| && bs[at..at + ENTRY] == PrintEntry(e)
    ensures FromLE(bs[at + 12..at + 16]) == 0
  {
    hide FromLE, ToLE, Pow256;
    SliceOfSlice(bs, at, at + ENTRY, 12, 16);
    assert PrintEntry(e)[12..16] == ToLE(0, 4);
    FieldSizes();
    ReadWritten(0, 4);
  }

  lemma FirstFields(n: nat, count: nat, at: nat, tail: seq<Byte>)
    ensures var bs := PrintHeader(n, count, at) + tail;
            FromLE(bs[0..4]) == 1 && FromLE(bs[4..8]) == 0
  {
    hide FromLE, ToLE, Pow256;
    var bs := PrintHeader(n, count, at) + tail;
    assert bs[0..4] == ToLE(1, 4) && bs[4..8] == ToLE(0, 4);
    FieldSizes();
    ReadWritten(1, 4);
    ReadWritten(0, 4);
  }

  lemma SameU32(bs: seq<Byte>, tail: seq<Byte>, at: nat)
    requires at + 4 <= |bs|
    ensures U32At(bs + tail, at) == U32At(bs, at)
  {
    assert (bs + tail)[at..at + 4] == bs[at..at + 4];
    hide FromLE;
  }

  /** Bytes after the last entry change nothing in the header. */
  lemma HeaderWithTail(formats: seq<nat>, es: seq<Entry>, gap: nat, tail: seq<Byte>)
    requires Fits(formats, es, gap)
    ensures var bs := PrintBlob(formats, es, gap) + tail;
            && U32At(bs, 8) == |formats| && U32At(bs, 12) == HEADER
            && U32At(bs, 16) == |es| && U32At(bs, 20) == HEADER + FORMAT * |formats| + gap
  {
    hide PrintBlob, U32At, Pow256;
    var bs := PrintBlob(formats, es, gap);
    HeaderOfBlob(formats, es, gap);
    SameU32(bs, tail, 8);
    SameU32(bs, tail, 12);
    SameU32(bs, tail, 16);
    SameU32(bs, tail, 20);
  }

  /** Every format reads back from where the header says, whatever follows the entries. */
  lemma FormatReadsBack(formats: seq<nat>, es: seq<Entry>, gap: nat, tail: seq<Byte>, i: nat)
    requires Fits(formats, es, gap)
    ensures FormatAt(PrintBlob(formats, es, gap) + tail, i) == if i < |formats| then Some(formats[i]) else None
  {
    hide PrintBlob, FromLE, ToLE, Pow256, PrintFormats;
    HeaderWithTail(formats, es, gap, tail);
    if i < |formats| {
      var bs, n := PrintBlob(formats, es, gap), HEADER + FORMAT * |formats|;
      BlobParts(formats, es, gap);
      FormatsSlice(formats, i);
      SliceOfSlice(bs, HEADER, n, FORMAT * i, FORMAT * i + 4);
      ReadWritten(formats[i], 4);
      SameU32(bs, tail, HEADER + FORMAT * i);
    }
  }

  /** Every entry is inside the blob and reads back, and no other index does. */
  lemma EntryReadsBack(formats: seq<nat>, es: seq<Entry>, gap: nat, tail: seq<Byte>, k: nat)
    requires Fits(formats, es, gap)
    ensures EntryAt(PrintBlob(formats, es, gap) + tail, k) == if k < |es| then Some(es[k]) else None
  {
    hide PrintBlob, FromLE, ToLE, Pow256, PrintFormats, PrintEntries, PrintEntry, U32At;
    HeaderWithTail(formats, es, gap, tail);
    if k < |es| {
      var bs, at := PrintBlob(formats, es, gap), HEADER + FORMAT * |formats| + gap + ENTRY * k;
      EntryInBlob(formats, es, gap, k);
      assert (bs + tail)[at..at + ENTRY] == bs[at..at + ENTRY];
      EntryBytes(bs + tail, at, es[k]);
    }
  }

  /** The reader finds modifier m for format index f in the blob. */
  ghost predicate BlobSupports(bs: seq<Byte>, f: nat, m: nat) {
    exists k: nat :: EntryAt(bs, k).Some? && Supports(EntryAt(bs, k).value, f, m)
  }

  /** What a driver has to know: its format codes and modifiers are 32-bit and 64-bit values and
      the two arrays are not too long for the header's fields. */
  predicate InputsFit(formats: seq<nat>, mods: seq<nat>, gap: nat) {
    && HEADER + FORMAT * |formats| + gap < Pow256(4) && |mods| * ((|formats| + 63) / 64) < Pow256(4)
    && (forall i :: 0 <= i < |formats| ==> formats[i] < Pow256(4))
    && (forall i :: 0 <= i < |mods| ==> mods[i] < Pow256(8))
  }

  lemma {:induction false} Pow256IsPow2(n: nat)
    ensures Pow256(n) == Pow2(8 * n)
  {
    if n > 0 {
      Pow256IsPow2(n - 1);
      Pow2Small();
      Pow2Add(8, 8 * (n - 1));
      hide Pow2;
    }
  }

  /** The masks, offsets and count the encoder computes then always fit their fields. */
  lemma EncodingFits(rel: Relation, formats: seq<nat>, mods: seq<nat>, gap: nat)
    requires InputsFit(formats, mods, gap)
    ensures Fits(formats, Encode(rel, |formats|, mods), gap)
  {
    hide Encode, Pow256, Pow2;
    var n, es := |formats|, Encode(rel, |formats|, mods);
    EncodeCount(rel, n, mods);
    forall k | 0 <= k < |es|
      ensures es[k].formats < Pow256(8) && es[k].offset < Pow256(4) && es[k].modifier < Pow256(8)
    {
      EncodeOk(rel, n, mods, k);
      Pow256IsPow2(8);
      FitsBits(es[k].formats, 64);
    }
  }

  /** From relation to bytes and back: a reader of the printed blob sees the format list and,
      for every format of it, exactly the modifiers of the relation. */
  lemma BlobExact(rel: Relation, formats: seq<nat>, mods: seq<nat>, gap: nat, tail: seq<Byte>, f: nat, m: nat)
    requires InputsFit(formats, mods, gap)
    ensures BlobSupports(PrintBlob(formats, Encode(rel, |formats|, mods), gap) + tail, f, m)
            <==> f < |formats| && m in mods && (f, m) in rel
  {
    hide Encode, PrintBlob, EntryAt, Supports, Fits, InputsFit;
    var es := Encode(rel, |formats|, mods);
    var bs := PrintBlob(formats, es, gap) + tail;
    EncodingFits(rel, formats, mods, gap);
    EncodeExact(rel, |formats|, mods, f, m);
    if BlobSupports(bs, f, m) {
      var k: nat :| EntryAt(bs, k).Some? && Supports(EntryAt(bs, k).value, f, m);
      EntryReadsBack(formats, es, gap, tail, k);
      assert Supports(es[k], f, m);
    }
    if Lists(es, f, m) {
      var k :| 0 <= k < |es| && Supports(es[k], f, m);
      EntryReadsBack(formats, es, gap, tail, k);
      assert EntryAt(bs, k).Some?;
    }
  }
}
