/** A disk image file: truncate(2), pwrite(2), pread(2) and F_PUNCHHOLE on a byte sequence. */
module DiskFiles {
  import opened Bytes

  /** truncate(2): cut, or extend with zero bytes. */
  function Resize(f: ByteString, n: nat): (r: ByteString)
    ensures |r| == n
    ensures forall i :: 0 <= i < n ==> r[i] == if i < |f| then f[i] else 0
  {
    if n <= |f| then f[..n] else f + Zeros(n - |f|)
  }

  /** pwrite(2): writing past the end extends the file with zero bytes first. */
  function Overwrite(f: ByteString, off: nat, d: ByteString): (r: ByteString)
    ensures off + |d| <= |f| ==> |r| == |f|
    ensures d != [] ==> |r| == if off + |d| <= |f| then |f| else off + |d|
    ensures forall i :: 0 <= i < |r| ==>
      r[i] == if off <= i < off + |d| then d[i - off] else if i < |f| then f[i] else 0
  {
    if d == [] then f
    else
      var g := Resize(f, if off + |d| <= |f| then |f| else off + |d|);
      g[..off] + d + g[off + |d|..]
  }

  /** F_PUNCHHOLE: the part of the range inside the file reads as zero afterwards. */
  function Punch(f: ByteString, off: nat, n: nat): (r: ByteString)
    ensures |r| == |f|
    ensures forall i :: 0 <= i < |f| ==> r[i] == if off <= i < off + n then 0 else f[i]
  {
    if off >= |f| then f
    else
      var hi := Min(off + n, |f|);
      f[..off] + Zeros(hi - off) + f[hi..]
  }

  type BlockSize = x: int | 0 < x witness 4096

  /** The system call: it refuses a hole that does not lie on the file system's block boundaries. */
  function TryPunch(f: ByteString, blk: BlockSize, off: nat, n: nat): Option<ByteString> {
    if off % blk == 0 && n % blk == 0 then Some(Punch(f, off, n)) else None
  }

  class DiskFile {
    var data: ByteString

    constructor ()
      ensures data == []
    {
      data := [];
    }

    method Truncate(n: nat)
      modifies this
      ensures data == Resize(old(data), n)
    {
      data := Resize(data, n);
    }

    method WriteAt(d: ByteString, off: nat)
      modifies this
      ensures data == Overwrite(old(data), off, d)
    {
      data := Overwrite(data, off, d);
    }

    /** Fails on a short read, as io.ReaderAt does. */
    method ReadAt(off: nat, n: nat) returns (r: Option<ByteString>)
      ensures r == if off + n <= |data| then Some(data[off..off + n]) else None
    {
      r := if off + n <= |data| then Some(data[off..off + n]) else None;
    }

    method PunchHole(blk: BlockSize, off: nat, n: nat) returns (ok: bool)
      modifies this
      ensures ok == TryPunch(old(data), blk, off, n).Some?
      ensures data == match TryPunch(old(data), blk, off, n) case Some(f) => f case None => old(data)
    {
      ok := off % blk == 0 && n % blk == 0;
      if ok {
        data := Punch(data, off, n);
      }
    }
  }
}
