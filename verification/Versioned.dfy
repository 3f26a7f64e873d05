/** Objects whose size grows between driver versions: the reading rules of the Panthor and
    Asahi uAPI (drm_panthor_obj_array, drm_asahi_cmd_header::size, drm_asahi_vm_bind::stride). */
module Versioned {
  import opened Bytes

  /** bs cut or zero-extended to n bytes. */
  function Resize(bs: seq<Byte>, n: nat): (r: seq<Byte>)
    ensures |r| == n
    ensures forall i :: 0 <= i < n ==> r[i] == if i < |bs| then bs[i] else 0
  {
    if |bs| <= n then bs + Zeros(n - |bs|) else bs[..n]
  }

  /** A reader that knows `known` bytes takes an object: fields the writer did not know are
      zeroed, fields the reader does not know are ignored if zero and otherwise rejected. */
  function CopyIn(obj: seq<Byte>, known: nat): Option<seq<Byte>> {
    if |obj| <= known then Some(obj + Zeros(known - |obj|))
    else if ZeroFrom(obj, known) then Some(obj[..known])
    else None
  }

  /** Acceptance and value of a copy. */
  lemma CopyInMeans(obj: seq<Byte>, known: nat)
    ensures CopyIn(obj, known).Some? <==> ZeroFrom(obj, known)
    ensures CopyIn(obj, known).Some? ==> CopyIn(obj, known).value == Resize(obj, known)
  {
  }

  /** The object handed from version to version. */
  function Chain(obj: seq<Byte>, versions: seq<nat>): Option<seq<Byte>>
    decreases |versions|
  {
    if versions == [] then Some(obj) else
      var next := CopyIn(obj, versions[0]);
      if next.None? then None else Chain(next.value, versions[1..])
  }

  function Least(versions: seq<nat>): (r: nat)
    requires versions != []
    ensures r in versions && forall v :: v in versions ==> r <= v
  {
    if |versions| == 1 then versions[0] else
      var rest := Least(versions[1..]);
      assert versions == [versions[0]] + versions[1..];
      if versions[0] < rest then versions[0] else rest
  }

  lemma ResizeTwice(obj: seq<Byte>, n: nat, m: nat)
    requires ZeroFrom(obj, n)
    ensures Resize(Resize(obj, n), m) == Resize(obj, m)
  {
  }

  /** A chain of versions accepts an object exactly when the bytes beyond the oldest version are
      zero, and then the last reader sees the object as if it had read it directly: every byte
      all versions know is kept. */
  lemma {:induction false} ChainExact(obj: seq<Byte>, versions: seq<nat>)
    requires versions != []
    ensures Chain(obj, versions).Some? <==> ZeroFrom(obj, Least(versions))
    ensures Chain(obj, versions).Some? ==> Chain(obj, versions).value == Resize(obj, versions[|versions| - 1])
    decreases |versions|
  {
    var k := versions[0];
    CopyInMeans(obj, k);
    if |versions| == 1 {
      assert versions[1..] == [];
    } else {
      var rest := versions[1..];
      if ZeroFrom(obj, k) {
        var next := Resize(obj, k);
        ChainExact(next, rest);
        ResizeTwice(obj, k, rest[|rest| - 1]);
        var r := Least(rest);
        if ZeroFrom(obj, Least(versions)) {
          assert ZeroFrom(next, r);
        }
        if ZeroFrom(next, r) {
          forall i | Least(versions) <= i < |obj|
            ensures obj[i] == 0
          {
            if i < k {
              assert next[i] == obj[i];
            }
          }
        }
      } else {
        var i :| k <= i < |obj| && obj[i] != 0;
        assert Least(versions) <= k;
      }
    }
  }

  /** What all versions know survives the whole chain. */
  lemma ChainKeeps(obj: seq<Byte>, versions: seq<nat>, i: nat)
    requires versions != [] && Chain(obj, versions).Some? && i < |obj|
    requires forall v :: v in versions ==> i < v
    ensures i < |Chain(obj, versions).value| && Chain(obj, versions).value[i] == obj[i]
  {
    ChainExact(obj, versions);
    assert versions[|versions| - 1] in versions;
  }

  // ---- arrays of such objects

  /** DRM_PANTHOR_OBJ_ARRAY: the objects one after another, each `stride` bytes. */
  function PackArray(objs: seq<seq<Byte>>): seq<Byte> {
    if objs == [] then [] else objs[0] + PackArray(objs[1..])
  }

  predicate AllOfSize(objs: seq<seq<Byte>>, stride: nat) {
    forall i :: 0 <= i < |objs| ==> |objs[i]| == stride
  }

  /** The driver's walk over `count` objects of `stride` bytes each. */
  function ReadArray(data: seq<Byte>, stride: nat, count: nat, known: nat): Option<seq<seq<Byte>>>
    decreases count
  {
    if count == 0 then Some([])
    else if |data| < stride then None
    else
      var head := CopyIn(data[..stride], known);
      var tail := ReadArray(data[stride..], stride, count - 1, known);
      if head.None? || tail.None? then None else Some([head.value] + tail.value)
  }

  function ResizeAll(objs: seq<seq<Byte>>, known: nat): (r: seq<seq<Byte>>)
    ensures |r| == |objs| && forall i :: 0 <= i < |objs| ==> r[i] == Resize(objs[i], known)
  {
    seq(|objs|, i requires 0 <= i < |objs| => Resize(objs[i], known))
  }

  predicate AllZeroFrom(objs: seq<seq<Byte>>, known: nat) {
    forall i :: 0 <= i < |objs| ==> ZeroFrom(objs[i], known)
  }

  lemma AllZeroCons(objs: seq<seq<Byte>>, known: nat)
    requires objs != []
    ensures AllZeroFrom(objs, known) <==> ZeroFrom(objs[0], known) && AllZeroFrom(objs[1..], known)
  {
    hide ZeroFrom;
    if ZeroFrom(objs[0], known) && AllZeroFrom(objs[1..], known) {
      forall i | 0 <= i < |objs|
        ensures ZeroFrom(objs[i], known)
      {
        if i > 0 {
          assert objs[i] == objs[1..][i - 1];
        }
      }
    }
  }

  /** Reading an array across versions: accepted exactly when every object's unknown tail is
      zero, and then every object arrives cut or zero-extended to the reader's size. */
  lemma {:induction false} ReadArrayExact(objs: seq<seq<Byte>>, stride: nat, known: nat)
    requires AllOfSize(objs, stride)
    ensures ReadArray(PackArray(objs), stride, |objs|, known)
         == if AllZeroFrom(objs, known) then Some(ResizeAll(objs, known)) else None
    decreases |objs|
  {
    if objs != [] {
      var data, rest := PackArray(objs), objs[1..];
      assert data[..stride] == objs[0] && data[stride..] == PackArray(rest);
      CopyInMeans(objs[0], known);
      ReadArrayExact(rest, stride, known);
      AllZeroCons(objs, known);
      hide CopyIn, ZeroFrom, Resize, AllZeroFrom;
      assert [Resize(objs[0], known)] + ResizeAll(rest, known) == ResizeAll(objs, known);
    }
  }

  // ---- drm_panthor_dev_query

  /** The size field and the memory at the pointer, if there is one. */
  datatype Query = Query(size: nat, memory: Option<seq<Byte>>)

  /** With a NULL pointer the driver returns the structure size and copies nothing; otherwise it
      copies min(size, structure size) bytes and returns how many it copied. */
  function DevQuery(info: seq<Byte>, q: Query): Query
    requires q.memory.Some? ==> q.size <= |q.memory.value|
  {
    if q.memory.None? then Query(|info|, None) else
      var n := if q.size < |info| then q.size else |info|;
      Query(n, Some(info[..n] + q.memory.value[n..]))
  }

  /** A caller with `known` zeroed bytes sees what a versioned copy of the driver's structure would
      give it, whichever side is older.  Nothing past `known` bytes changes and the size field says
      how many bytes are the driver's. */
  lemma QueryAgreesWithCopy(info: seq<Byte>, known: nat, rest: seq<Byte>)
    ensures var q := DevQuery(info, Query(known, Some(Zeros(known) + rest)));
            q.memory == Some(Resize(info, known) + rest) && q.size == (if known < |info| then known else |info|)
  {
    var n := if known < |info| then known else |info|;
    assert info[..n] + (Zeros(known) + rest)[n..] == Resize(info, known) + rest;
  }

  /** Asking for the size with a NULL pointer, whatever the size field says, and then for that
      many bytes, into any memory, returns the driver's whole structure. */
  lemma QueryTwice(info: seq<Byte>, before: nat, memory: seq<Byte>)
    requires |memory| == |info|
    ensures var first := DevQuery(info, Query(before, None));
            first.memory == None && DevQuery(info, Query(first.size, Some(memory))) == Query(|info|, Some(info))
  {
    assert info[..|info|] + memory[|info|..] == info;
  }

  /** Extending a query type changes nothing for a caller that does not know the new fields. */
  lemma QueryExtends(info: seq<Byte>, added: seq<Byte>, q: Query)
    requires q.memory.Some? && q.size <= |q.memory.value| && q.size <= |info|
    ensures DevQuery(info + added, q) == DevQuery(info, q)
  {
    assert (info + added)[..q.size] == info[..q.size];
  }
}
