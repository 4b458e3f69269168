/** Guest-physical memory as the devices see it: a list of mapped regions, each with its host bytes. */
module GuestMemory {
  import opened Bytes

  datatype Region = Region(gpa: nat, host: ByteString)

  type Memory = seq<Region>

  predicate Covers(r: Region, gpa: nat, n: nat) {
    r.gpa <= gpa && gpa + n <= r.gpa + |r.host|
  }

  /** The first region, from index `k` on, that holds the whole range; |m| when there is none. */
  function Find(m: Memory, gpa: nat, n: nat, k: nat): (r: nat)
    requires k <= |m|
    ensures k <= r <= |m|
    ensures r < |m| ==> Covers(m[r], gpa, n)
    ensures forall j :: k <= j < r ==> !Covers(m[j], gpa, n)
    decreases |m| - k
  {
    if k == |m| || Covers(m[k], gpa, n) then k else Find(m, gpa, n, k + 1)
  }

  predicate Mapped(m: Memory, gpa: nat, n: nat) {
    Find(m, gpa, n, 0) < |m|
  }

  /** A copy of guest memory; None when the range is unmapped, and also when it is empty. */
  function Read(m: Memory, gpa: nat, n: nat): (r: Option<ByteString>)
    ensures r.Some? <==> n > 0 && Mapped(m, gpa, n)
    ensures r.Some? ==> |r.value| == n
  {
    var k := Find(m, gpa, n, 0);
    if n == 0 || k == |m| then None else Some(m[k].host[gpa - m[k].gpa..gpa - m[k].gpa + n])
  }

  /** Stores into mapped memory; an unmapped range is left alone as a whole. */
  function Write(m: Memory, gpa: nat, data: ByteString): (r: Memory)
    ensures |r| == |m|
    ensures forall j :: 0 <= j < |m| ==> r[j].gpa == m[j].gpa && |r[j].host| == |m[j].host|
  {
    var k := Find(m, gpa, |data|, 0);
    if k == |m| then m
    else
      var off := gpa - m[k].gpa;
      m[k := Region(m[k].gpa, m[k].host[..off] + data + m[k].host[off + |data|..])]
  }

  ghost predicate Disjoint(m: Memory) {
    forall i, j :: 0 <= i < j < |m| ==>
      m[i].gpa + |m[i].host| <= m[j].gpa || m[j].gpa + |m[j].host| <= m[i].gpa
  }

  /** The byte at one address. */
  function At(m: Memory, a: nat): Option<Byte> {
    match Read(m, a, 1)
    case Some(b) => Some(b[0])
    case None => None
  }

  ghost predicate SameLayout(m: Memory, m': Memory) {
    |m| == |m'| && forall j :: 0 <= j < |m| ==> m'[j].gpa == m[j].gpa && |m'[j].host| == |m[j].host|
  }

  lemma {:induction false} FindSameLayout(m: Memory, m': Memory, gpa: nat, n: nat, k: nat)
    requires SameLayout(m, m') && k <= |m|
    ensures Find(m', gpa, n, k) == Find(m, gpa, n, k)
    decreases |m| - k
  {
    if k < |m| {
      FindSameLayout(m, m', gpa, n, k + 1);
    }
  }

  lemma FindUnique(m: Memory, gpa: nat, n: nat, k: nat)
    requires Disjoint(m) && k < |m| && n > 0 && Covers(m[k], gpa, n)
    ensures Find(m, gpa, n, 0) == k
  {
  }

  /** Parts of a mapped range are mapped. */
  lemma MappedPart(m: Memory, gpa: nat, n: nat, sub: nat, len: nat)
    requires Mapped(m, gpa, n) && gpa <= sub && sub + len <= gpa + n
    ensures Mapped(m, sub, len)
  {
    var k := Find(m, gpa, n, 0);
    assert Covers(m[k], sub, len);
  }

  lemma AtRegion(m: Memory, k: nat, a: nat)
    requires Disjoint(m) && k < |m| && Covers(m[k], a, 1)
    ensures At(m, a) == Some(m[k].host[a - m[k].gpa])
  {
    FindUnique(m, a, 1, k);
  }

  /** Region `k` holds the whole range, its first and last byte included. */
  ghost predicate Inside(m: Memory, k: nat, gpa: nat, n: nat) {
    k < |m| && m[k].gpa <= gpa && gpa + n <= m[k].gpa + |m[k].host|
  }

  /** A read succeeds exactly if the range is not empty and lies in one region, and gives that region's bytes. */
  lemma ReadExactly(m: Memory, gpa: nat, n: nat)
    requires Disjoint(m)
    ensures Read(m, gpa, n).Some? <==> n > 0 && exists k: nat :: Inside(m, k, gpa, n)
    ensures forall k: nat :: n > 0 && Inside(m, k, gpa, n) ==> Read(m, gpa, n) == Some(m[k].host[gpa - m[k].gpa..gpa - m[k].gpa + n])
  {
    hide Disjoint;
    forall k: nat | n > 0 && Inside(m, k, gpa, n) ensures Find(m, gpa, n, 0) == k {
      FindUnique(m, gpa, n, k);
    }
    if Mapped(m, gpa, n) {
      assert Inside(m, Find(m, gpa, n, 0), gpa, n);
    }
  }

  /** A multi-byte read is the bytes at the successive addresses. */
  lemma ReadBytes(m: Memory, gpa: nat, n: nat)
    requires Disjoint(m) && n > 0 && Mapped(m, gpa, n)
    ensures forall i :: 0 <= i < n ==> At(m, gpa + i) == Some(Read(m, gpa, n).value[i])
  {
    hide At, Disjoint;
    var k := Find(m, gpa, n, 0);
    forall i | 0 <= i < n
      ensures At(m, gpa + i) == Some(Read(m, gpa, n).value[i])
    {
      AtRegion(m, k, gpa + i);
    }
  }

  /** A mapped range that holds these bytes address by address reads as these bytes. */
  lemma ReadFromBytes(m: Memory, gpa: nat, d: ByteString)
    requires Disjoint(m) && d != [] && Mapped(m, gpa, |d|)
    requires forall i :: 0 <= i < |d| ==> At(m, gpa + i) == Some(d[i])
    ensures Read(m, gpa, |d|) == Some(d)
  {
    ReadBytes(m, gpa, |d|);
    var r := Read(m, gpa, |d|).value;
    forall i | 0 <= i < |d| ensures r[i] == d[i] {
      assert At(m, gpa + i) == Some(r[i]);
    }
    assert r == d;
  }

  lemma WriteLayout(m: Memory, gpa: nat, data: ByteString)
    ensures SameLayout(m, Write(m, gpa, data))
    ensures Disjoint(m) ==> Disjoint(Write(m, gpa, data))
    ensures forall g, n :: Mapped(Write(m, gpa, data), g, n) == Mapped(m, g, n)
  {
    var m' := Write(m, gpa, data);
    forall g, n ensures Mapped(m', g, n) == Mapped(m, g, n) {
      FindSameLayout(m, m', g, n, 0);
    }
  }

  /** A store changes exactly the addresses of its range. */
  lemma WriteByte(m: Memory, gpa: nat, data: ByteString, a: nat)
    requires Disjoint(m) && Mapped(m, gpa, |data|)
    ensures At(Write(m, gpa, data), a) ==
            if gpa <= a < gpa + |data| then Some(data[a - gpa]) else At(m, a)
  {
    var m' := Write(m, gpa, data);
    var k := Find(m, gpa, |data|, 0);
    FindSameLayout(m, m', a, 1, 0);
    if gpa <= a < gpa + |data| {
      AtRegion(m, k, a);
    }
  }

  /** Addresses in the range hold the same in both memories. */
  ghost predicate Untouched(m: Memory, m': Memory, lo: nat, n: nat) {
    forall a :: lo <= a < lo + n ==> At(m', a) == At(m, a)
  }

  lemma UntouchedRead(m: Memory, m': Memory, lo: nat, n: nat, gpa: nat, len: nat)
    requires SameLayout(m, m') && Disjoint(m) && Disjoint(m') && Untouched(m, m', lo, n)
    requires lo <= gpa && gpa + len <= lo + n
    ensures Read(m', gpa, len) == Read(m, gpa, len)
  {
    FindSameLayout(m, m', gpa, len, 0);
    if len > 0 && Mapped(m, gpa, len) {
      ReadBytes(m, gpa, len);
      forall i | 0 <= i < len ensures At(m', gpa + i) == Some(Read(m, gpa, len).value[i]) {
        assert At(m', gpa + i) == At(m, gpa + i);
      }
      ReadFromBytes(m', gpa, Read(m, gpa, len).value);
    }
  }

  predicate Apart(a: nat, n: nat, b: nat, k: nat) {
    a + n <= b || b + k <= a
  }

  /** A store is invisible to a read of any range that it does not overlap. */
  lemma WriteApart(m: Memory, gpa: nat, data: ByteString, lo: nat, n: nat)
    requires Disjoint(m) && Apart(gpa, |data|, lo, n)
    ensures Read(Write(m, gpa, data), lo, n) == Read(m, lo, n)
    ensures Untouched(m, Write(m, gpa, data), lo, n)
  {
    var m' := Write(m, gpa, data);
    WriteLayout(m, gpa, data);
    if Mapped(m, gpa, |data|) {
      forall a | lo <= a < lo + n ensures At(m', a) == At(m, a) {
        WriteByte(m, gpa, data, a);
      }
    }
    UntouchedRead(m, m', lo, n, lo, n);
  }

  /** What was stored is read back. */
  lemma WriteReadBack(m: Memory, gpa: nat, data: ByteString)
    requires Disjoint(m) && data != [] && Mapped(m, gpa, |data|)
    ensures Read(Write(m, gpa, data), gpa, |data|) == Some(data)
  {
    hide At, Read, Mapped, Write, Disjoint;
    var m' := Write(m, gpa, data);
    WriteLayout(m, gpa, data);
    forall i | 0 <= i < |data| ensures At(m', gpa + i) == Some(data[i]) {
      WriteByte(m, gpa, data, gpa + i);
    }
    ReadFromBytes(m', gpa, data);
  }

  class Machine {
    var regions: seq<Region>

    constructor ()
      ensures regions == []
    {
      regions := [];
    }

    /** MapRAM: zeroed host memory at `gpa`. */
    method MapRAM(gpa: nat, size: nat)
      modifies this
      ensures regions == old(regions) + [Region(gpa, Zeros(size))]
    {
      regions := regions + [Region(gpa, Zeros(size))];
    }

    /** The index of the region that holds the whole range, if any. */
    method GuestSlice(gpa: nat, n: nat) returns (k: nat)
      ensures k == Find(regions, gpa, n, 0)
    {
      k := 0;
      while k < |regions|
        invariant k <= |regions|
        invariant Find(regions, gpa, n, 0) == Find(regions, gpa, n, k)
      {
        if regions[k].gpa <= gpa && gpa + n <= regions[k].gpa + |regions[k].host| {
          return;
        }
        k := k + 1;
      }
    }

    method ReadGuest(gpa: nat, n: nat) returns (r: Option<ByteString>)
      ensures r == Read(regions, gpa, n)
    {
      var k := GuestSlice(gpa, n);
      if k == |regions| || n == 0 {
        return None;
      }
      var off := gpa - regions[k].gpa;
      return Some(regions[k].host[off..off + n]);
    }

    method WriteGuest(gpa: nat, data: ByteString) returns (ok: bool)
      modifies this
      ensures regions == Write(old(regions), gpa, data)
      ensures ok == Mapped(old(regions), gpa, |data|)
    {
      var k := GuestSlice(gpa, |data|);
      if k == |regions| {
        return false;
      }
      var off := gpa - regions[k].gpa;
      var h := regions[k].host;
      regions := regions[k := Region(regions[k].gpa, h[..off] + data + h[off + |data|..])];
      return true;
    }
  }
}
