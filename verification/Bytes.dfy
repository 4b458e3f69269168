/** Bytes, byte strings and the small sequence facts every component uses. */
module Bytes {
  type Byte = x: int | 0 <= x < 256
  type ByteString = seq<Byte>

  datatype Option<+T> = None | Some(value: T)

  function Zeros(n: nat): (z: ByteString)
    ensures |z| == n && forall i :: 0 <= i < n ==> z[i] == 0
  {
    seq(n, _ => 0)
  }

  function Min(a: int, b: int): int { if a <= b then a else b }

  function Sum(s: seq<nat>): nat
  {
    if s == [] then 0 else s[0] + Sum(s[1..])
  }

  lemma {:induction false} SumAppend(a: seq<nat>, b: seq<nat>)
    ensures Sum(a + b) == Sum(a) + Sum(b)
  {
    if a == [] {
      assert a + b == b;
    } else {
      assert (a + b)[1..] == a[1..] + b;
      SumAppend(a[1..], b);
    }
  }

  function Concat(parts: seq<ByteString>): ByteString
  {
    if parts == [] then [] else parts[0] + Concat(parts[1..])
  }

  function Lengths(parts: seq<ByteString>): (r: seq<nat>)
    ensures |r| == |parts|
  {
    seq(|parts|, i requires 0 <= i < |parts| => |parts[i]|)
  }

  lemma {:induction false} ConcatLength(parts: seq<ByteString>)
    ensures |Concat(parts)| == Sum(Lengths(parts))
  {
    if parts != [] {
      ConcatLength(parts[1..]);
      assert Lengths(parts)[1..] == Lengths(parts[1..]);
    }
  }

  lemma {:induction false} ConcatAppend(parts: seq<ByteString>, last: ByteString)
    ensures Concat(parts + [last]) == Concat(parts) + last
  {
    if parts == [] {
      assert parts + [last] == [last];
    } else {
      ConcatAppend(parts[1..], last);
      assert (parts + [last])[1..] == parts[1..] + [last];
    }
  }

  /** Part `i` of a concatenation sits at the sum of the lengths before it. */
  lemma {:induction false} ConcatSlice(parts: seq<ByteString>, i: nat)
    requires i < |parts|
    ensures Sum(Lengths(parts)[..i]) + |parts[i]| <= |Concat(parts)|
    ensures Concat(parts)[Sum(Lengths(parts)[..i])..Sum(Lengths(parts)[..i]) + |parts[i]|] == parts[i]
  {
    var lens := Lengths(parts);
    if i == 0 {
      assert lens[..0] == [];
    } else {
      var tail := parts[1..];
      ConcatSlice(tail, i - 1);
      assert lens[..i][1..] == Lengths(tail)[..i - 1];
      var at := Sum(Lengths(tail)[..i - 1]);
      assert Sum(lens[..i]) == |parts[0]| + at;
      assert Concat(parts)[|parts[0]| + at..|parts[0]| + at + |parts[i]|] == Concat(tail)[at..at + |parts[i]|];
    }
  }

  /** Sums of prefixes grow: part `i` ends at or before part `j` starts when i < j. */
  lemma PrefixSumsOrdered(s: seq<nat>, i: nat, j: nat)
    requires i < j <= |s|
    ensures Sum(s[..i]) + s[i] <= Sum(s[..j])
  {
    assert s[..j] == s[..i] + ([s[i]] + s[i + 1..j]);
    SumAppend(s[..i], [s[i]] + s[i + 1..j]);
  }

  /** The bytes of a range, zero beyond the end. */
  function Padded(data: ByteString, off: nat, n: nat): (r: ByteString)
    ensures |r| == n
    ensures forall i :: 0 <= i < n ==> r[i] == if off + i < |data| then data[off + i] else 0
  {
    if off < |data| then
      var hi := Min(off + n, |data|);
      data[off..hi] + Zeros(n - (hi - off))
    else Zeros(n)
  }

  lemma PaddedJoin(data: ByteString, off: nat, a: nat, b: nat)
    ensures Padded(data, off, a) + Padded(data, off + a, b) == Padded(data, off, a + b)
  {
  }
}
