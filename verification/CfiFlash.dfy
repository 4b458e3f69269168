/** The CFI NOR flash behind the firmware's variable store: the command machine, against an array whose bits only fall until erased. */
module CfiFlash {
  import opened Bits
  import opened Bytes
  import opened Endian
  import Modular

  const READY: nat := 0x80_0080
  const BLOCK: nat := 0x4_0000

  // ----- the device

  datatype Mode = Array | Status | Program | BufferCount | BufferData | EraseSetup

  datatype Flash = Flash(data: ByteString, mode: Mode, left: nat)

  /** One access of the bus: where, how wide, and for a write the value. */
  datatype Access = Access(off: nat, bytes: nat, val: nat) {
    predicate Covers(p: nat) { off <= p < off + bytes }

    /** The byte of the value that goes to `p`. */
    function At(p: nat): Byte
      requires off <= p
    {
      ByteOf(val, p - off)
    }

    predicate Confirms() { val % 0x100 == 0xD0 }

    predicate InBlock(p: nat) { p / BLOCK == off / BLOCK }
  }

  function ByteOf(val: nat, i: nat): Byte {
    val / Pow256(i) % 0x100
  }

  function Programmed(data: ByteString, a: Access): (r: ByteString)
    ensures |r| == |data|
    ensures forall p :: 0 <= p < |data| ==> r[p] == if a.Covers(p) then And(data[p], a.At(p)) else data[p]
  {
    seq(|data|, p requires 0 <= p < |data| => if a.Covers(p) then And(data[p], a.At(p)) as Byte else data[p])
  }

  function Erased(data: ByteString, a: Access): (r: ByteString)
    ensures |r| == |data|
    ensures forall p :: 0 <= p < |data| ==> r[p] == if a.InBlock(p) then 0xFF else data[p]
  {
    seq(|data|, p requires 0 <= p < |data| => if a.InBlock(p) then 0xFF else data[p])
  }

  function Command(code: nat): Mode {
    match code
    case 0xFF => Array
    case 0x50 => Array
    case 0x40 => Program
    case 0x10 => Program
    case 0xE8 => BufferCount
    case 0x20 => EraseSetup
    case _ => Status
  }

  function Write(f: Flash, a: Access): (r: Flash)
    ensures |r.data| == |f.data|
  {
    match f.mode
    case Program => Flash(Programmed(f.data, a), Status, f.left)
    case BufferCount => Flash(f.data, BufferData, a.val % 0x1_0000 + 1)
    case BufferData => Flash(Programmed(f.data, a), if f.left <= 1 then Status else BufferData, if f.left == 0 then 0 else f.left - 1)
    case EraseSetup => Flash(if a.Confirms() then Erased(f.data, a) else f.data, Status, f.left)
    case _ => Flash(f.data, Command(a.val % 0x100), f.left)
  }

  /** Little-endian bytes of the array, zero past its end. */
  function ArrayValue(data: ByteString, off: nat, n: nat): nat
    decreases n
  {
    if n == 0 then 0 else (if off < |data| then data[off] else 0) + 256 * ArrayValue(data, off + 1, n - 1)
  }

  function Read(f: Flash, off: nat, n: nat): nat {
    if f.mode != Array then READY else ArrayValue(f.data, off, n)
  }

  function Run(f: Flash, ws: seq<Access>): (r: Flash)
    ensures |r.data| == |f.data|
    decreases |ws|
  {
    if ws == [] then f else Run(Write(f, ws[0]), ws[1..])
  }

  // ----- the abstract array

  /** What one write asks of an ideal NOR array. */
  datatype Op = Keep | Clear(a: Access) | Reset(a: Access)

  function Asks(f: Flash, a: Access): Op {
    match f.mode
    case Program => Clear(a)
    case BufferData => Clear(a)
    case EraseSetup => if a.Confirms() then Reset(a) else Keep
    case _ => Keep
  }

  function Trace(f: Flash, ws: seq<Access>): (r: seq<Op>)
    ensures |r| == |ws|
    decreases |ws|
  {
    if ws == [] then [] else [Asks(f, ws[0])] + Trace(Write(f, ws[0]), ws[1..])
  }

  /**
   * The operations a list of writes asks for, read as the Intel command set writes them (without a device):
   * a program or erase setup takes one operand, a buffered write a count and then that many writes and one.
   */
  function Parsed(ws: seq<Access>): (r: seq<Op>)
    decreases |ws|
  {
    if ws == [] then []
    else
      var code := ws[0].val % 0x100;
      if |ws| == 1 then [Keep]
      else if code == 0x40 || code == 0x10 then [Keep, Clear(ws[1])] + Parsed(ws[2..])
      else if code == 0x20 then [Keep, if ws[1].val % 0x100 == 0xD0 then Reset(ws[1]) else Keep] + Parsed(ws[2..])
      else if code == 0xE8 then
        var n := Min(ws[1].val % 0x1_0000 + 1, |ws| - 2);
        [Keep, Keep] + Clears(ws[2..2 + n]) + Parsed(ws[2 + n..])
      else [Keep] + Parsed(ws[1..])
  }

  function Clears(ws: seq<Access>): (r: seq<Op>)
    ensures |r| == |ws|
  {
    seq(|ws|, i requires 0 <= i < |ws| => Clear(ws[i]))
  }

  /** One bit of an ideal array: a clear can only lower it, only a reset of its block raises it. */
  function NorBit(bit: bool, ops: seq<Op>, p: nat, k: nat): bool
    decreases |ops|
  {
    if ops == [] then bit
    else
      var next := match ops[0]
        case Keep => bit
        case Clear(a) => bit && (a.Covers(p) ==> Bit(a.At(p), k))
        case Reset(a) => bit || a.InBlock(p);
      NorBit(next, ops[1..], p, k)
  }

  lemma WriteBit(f: Flash, a: Access, p: nat, k: nat)
    requires p < |f.data| && k < 8
    ensures Bit(Write(f, a).data[p], k) == NorBit(Bit(f.data[p], k), [Asks(f, a)], p, k)
  {
    hide Bit, And;
    var ops := [Asks(f, a)];
    assert ops[1..] == [];
    if a.Covers(p) {
      AndBit(f.data[p], a.At(p), k);
    }
    OnesBit(k);
  }

  lemma NorStep(bit: bool, op: Op, ops: seq<Op>, p: nat, k: nat)
    ensures NorBit(bit, [op] + ops, p, k) == NorBit(NorBit(bit, [op], p, k), ops, p, k)
  {
    hide Bit;
    assert ([op] + ops)[1..] == ops;
    assert [op][1..] == [];
  }

  lemma {:induction false} RunFollowsTrace(f: Flash, ws: seq<Access>, p: nat, k: nat)
    requires p < |f.data| && k < 8
    ensures Bit(Run(f, ws).data[p], k) == NorBit(Bit(f.data[p], k), Trace(f, ws), p, k)
    decreases |ws|
  {
    hide Bit, Write, Asks;
    if ws == [] {
      assert Trace(f, ws) == [];
    } else {
      WriteBit(f, ws[0], p, k);
      NorStep(Bit(f.data[p], k), Asks(f, ws[0]), Trace(Write(f, ws[0]), ws[1..]), p, k);
      RunFollowsTrace(Write(f, ws[0]), ws[1..], p, k);
    }
  }

  ghost predicate Resets(ops: seq<Op>, p: nat) {
    exists i :: 0 <= i < |ops| && ops[i].Reset? && ops[i].a.InBlock(p)
  }

  lemma ResetsLater(ops: seq<Op>, p: nat)
    requires ops != []
    ensures Resets(ops[1..], p) ==> Resets(ops, p)
  {
    if Resets(ops[1..], p) {
      var i :| 0 <= i < |ops[1..]| && ops[1..][i].Reset? && ops[1..][i].a.InBlock(p);
      assert ops[i + 1] == ops[1..][i];
    }
  }

  lemma {:induction false} NorFalls(bit: bool, ops: seq<Op>, p: nat, k: nat)
    requires !Resets(ops, p)
    ensures NorBit(bit, ops, p, k) ==> bit
    decreases |ops|
  {
    hide Bit;
    if ops != [] {
      assert ops == [ops[0]] + ops[1..];
      NorStep(bit, ops[0], ops[1..], p, k);
      ResetsLater(ops, p);
      assert [ops[0]][1..] == [];
      NorFalls(NorBit(bit, [ops[0]], p, k), ops[1..], p, k);
    }
  }

  // ----- buffered programming

  function ProgramAll(data: ByteString, ws: seq<Access>): (r: ByteString)
    ensures |r| == |data|
    decreases |ws|
  {
    if ws == [] then data else ProgramAll(Programmed(data, ws[0]), ws[1..])
  }

  /** While the count lasts every write is data, whatever its value. */
  lemma {:induction false} BufferConsumes(f: Flash, ws: seq<Access>)
    requires f.mode == BufferData && |ws| <= f.left && f.left > 0
    ensures var g := Run(f, ws);
            && g.data == ProgramAll(f.data, ws)
            && (|ws| < f.left ==> g.mode == BufferData && g.left == f.left - |ws|)
            && (|ws| == f.left ==> g.mode == Status)
    decreases |ws|
  {
    hide Programmed;
    if ws != [] {
      var g := Write(f, ws[0]);
      if f.left > 1 {
        BufferConsumes(g, ws[1..]);
      } else {
        assert ws[1..] == [];
      }
    }
  }

  predicate TakesCommands(f: Flash) {
    f.mode == Array || f.mode == Status
  }

  /**
   * Write-to-Buffer: after the command and the count, exactly count + 1 writes are programmed, even ones
   * that look like commands; before the last of them the device still wants data, after it takes commands.
   */
  lemma BufferedProgram(f: Flash, setup: Access, count: Access, ws: seq<Access>)
    requires TakesCommands(f) && setup.val % 0x100 == 0xE8 && |ws| <= count.val % 0x1_0000 + 1
    ensures var g := Run(f, [setup, count] + ws);
            && g.data == ProgramAll(f.data, ws)
            && (if |ws| == count.val % 0x1_0000 + 1 then g.mode == Status else g.mode == BufferData)
  {
    hide Programmed;
    var g := Write(Write(f, setup), count);
    assert ([setup, count] + ws)[1..] == [count] + ws;
    assert ([count] + ws)[1..] == ws;
    BufferConsumes(g, ws);
  }

  // ----- the command decode

  lemma TraceFirst(f: Flash, ws: seq<Access>)
    requires ws != []
    ensures Trace(f, ws) == [Asks(f, ws[0])] + Trace(Write(f, ws[0]), ws[1..])
  {
    hide Write, Asks;
  }

  lemma {:induction false} TraceBuffer(f: Flash, ws: seq<Access>, n: nat)
    requires f.mode == BufferData && n <= |ws| && n <= f.left
    ensures Trace(f, ws) == Clears(ws[..n]) + Trace(Run(f, ws[..n]), ws[n..])
    decreases n
  {
    hide Programmed;
    if n == 0 {
      assert ws[0..] == ws && ws[..0] == [];
    } else {
      TraceFirst(f, ws);
      var g := Write(f, ws[0]);
      assert ws[..n][0] == ws[0] && ws[..n][1..] == ws[1..][..n - 1];
      assert ws[1..][n - 1..] == ws[n..];
      assert Run(f, ws[..n]) == Run(g, ws[1..][..n - 1]);
      assert Clears(ws[..n]) == [Clear(ws[0])] + Clears(ws[1..][..n - 1]);
      if n > 1 {
        TraceBuffer(g, ws[1..], n - 1);
      } else {
        assert ws[1..][..0] == [];
      }
    }
  }

  /** A setup command and its operand. */
  lemma TraceTwo(f: Flash, ws: seq<Access>)
    requires |ws| >= 2
    ensures var g := Write(f, ws[0]);
            Trace(f, ws) == [Asks(f, ws[0]), Asks(g, ws[1])] + Trace(Write(g, ws[1]), ws[2..])
  {
    hide Write, Asks;
    TraceFirst(f, ws);
    TraceFirst(Write(f, ws[0]), ws[1..]);
    assert ws[1..][1..] == ws[2..];
  }

  lemma TraceOne(f: Flash, ws: seq<Access>)
    requires |ws| == 1 && TakesCommands(f)
    ensures Trace(f, ws) == [Keep]
  {
    TraceFirst(f, ws);
    assert ws[1..] == [];
    assert Trace(Write(f, ws[0]), []) == [];
  }

  /** What two writes do to a device that takes commands. */
  lemma SetupThenOperand(f: Flash, a: Access, b: Access)
    requires TakesCommands(f)
    ensures var code, g := a.val % 0x100, Write(f, a);
            && Asks(f, a) == Keep
            && (code == 0x40 || code == 0x10 ==> Asks(g, b) == Clear(b) && TakesCommands(Write(g, b)))
            && (code == 0x20 ==> Asks(g, b) == (if b.val % 0x100 == 0xD0 then Reset(b) else Keep) && TakesCommands(Write(g, b)))
            && (code == 0xE8 ==> Asks(g, b) == Keep && Write(g, b).mode == BufferData && Write(g, b).left == b.val % 0x1_0000 + 1)
            && (code !in {0x40, 0x10, 0x20, 0xE8} ==> TakesCommands(g))
  {
    hide Programmed, Erased;
  }

  predicate TakesOperand(code: nat) { code == 0x40 || code == 0x10 || code == 0x20 }

  lemma ParsedSteps(ws: seq<Access>)
    ensures ws == [] ==> Parsed(ws) == []
    ensures |ws| == 1 ==> Parsed(ws) == [Keep]
    ensures |ws| >= 2 ==>
              var code := ws[0].val % 0x100;
              var n := Min(ws[1].val % 0x1_0000 + 1, |ws| - 2);
              && (code == 0x40 || code == 0x10 ==> Parsed(ws) == [Keep, Clear(ws[1])] + Parsed(ws[2..]))
              && (code == 0x20 ==> Parsed(ws) == [Keep, if ws[1].val % 0x100 == 0xD0 then Reset(ws[1]) else Keep] + Parsed(ws[2..]))
              && (code == 0xE8 ==> Parsed(ws) == [Keep, Keep] + Clears(ws[2..2 + n]) + Parsed(ws[2 + n..]))
              && (!TakesOperand(code) && code != 0xE8 ==> Parsed(ws) == [Keep] + Parsed(ws[1..]))
  {
    hide Clears;
  }

  /** The device decodes its writes exactly as they are written: its own modes never lose step with the list. */
  lemma {:induction false} TraceIsParsed(f: Flash, ws: seq<Access>)
    requires TakesCommands(f)
    ensures Trace(f, ws) == Parsed(ws)
    decreases |ws|
  {
    hide Asks, Write, Trace, TakesCommands, Clears, Parsed;
    ParsedSteps(ws);
    if ws == [] {
      TraceNothing(f);
    } else if |ws| == 1 {
      TraceOne(f, ws);
    } else {
      var code, g := ws[0].val % 0x100, Write(f, ws[0]);
      SetupThenOperand(f, ws[0], ws[1]);
      if TakesOperand(code) {
        TraceTwo(f, ws);
        TraceIsParsed(Write(g, ws[1]), ws[2..]);
      } else if code == 0xE8 {
        TraceTwo(f, ws);
        BufferIsParsed(Write(g, ws[1]), ws[2..]);
        var n := Min(ws[1].val % 0x1_0000 + 1, |ws| - 2);
        assert ws[2..][..n] == ws[2..2 + n] && ws[2..][n..] == ws[2 + n..];
        TraceIsParsed(AfterBuffer(Write(g, ws[1]), ws[2..]), ws[2 + n..]);
      } else {
        TraceFirst(f, ws);
        TraceIsParsed(g, ws[1..]);
      }
    }
  }

  lemma TraceNothing(f: Flash)
    ensures Trace(f, []) == []
  {
  }

  /** A device that takes commands: the one the buffered data leaves, or any at all when the list ended first. */
  function AfterBuffer(f: Flash, ws: seq<Access>): (g: Flash)
    requires f.mode == BufferData && f.left > 0
    ensures TakesCommands(g)
  {
    if |ws| < f.left then Flash(f.data, Status, 0) else BufferConsumes(f, ws[..f.left]); Run(f, ws[..f.left])
  }

  lemma BufferIsParsed(f: Flash, ws: seq<Access>)
    requires f.mode == BufferData && f.left > 0
    ensures var n := Min(f.left, |ws|); Trace(f, ws) == Clears(ws[..n]) + Trace(AfterBuffer(f, ws), ws[n..])
  {
    hide Clears, Trace, Run;
    var n := Min(f.left, |ws|);
    TraceBuffer(f, ws, n);
    if |ws| < f.left {
      assert ws[n..] == [];
      TraceNothing(Run(f, ws[..n]));
      TraceNothing(AfterBuffer(f, ws));
    }
  }

  /** Any run of writes does to every bit exactly what the ideal array does with the operations they spell. */
  lemma RunRefinesNor(f: Flash, ws: seq<Access>, p: nat, k: nat)
    requires TakesCommands(f) && p < |f.data| && k < 8
    ensures Bit(Run(f, ws).data[p], k) == NorBit(Bit(f.data[p], k), Parsed(ws), p, k)
  {
    hide Bit, NorBit, Parsed, Run, Trace;
    TraceIsParsed(f, ws);
    RunFollowsTrace(f, ws, p, k);
  }

  /** From any state on: without a confirmed erase of its block, a bit that is 0 stays 0. */
  lemma BitsOnlyFall(f: Flash, ws: seq<Access>, p: nat, k: nat)
    requires p < |f.data| && k < 8 && !Resets(Trace(f, ws), p)
    ensures Bit(Run(f, ws).data[p], k) ==> Bit(f.data[p], k)
  {
    hide Bit, NorBit, Run;
    RunFollowsTrace(f, ws, p, k);
    NorFalls(Bit(f.data[p], k), Trace(f, ws), p, k);
  }

  ghost predicate AllAllow(ws: seq<Access>, p: nat, k: nat) {
    forall i :: 0 <= i < |ws| && ws[i].Covers(p) ==> Bit(ws[i].At(p), k)
  }

  /** A programmed bit is set exactly if it was set and every write that covers it has it set: order is irrelevant. */
  lemma {:induction false} ProgramAllBit(data: ByteString, ws: seq<Access>, p: nat, k: nat)
    requires p < |data|
    ensures Bit(ProgramAll(data, ws)[p], k) <==> Bit(data[p], k) && AllAllow(ws, p, k)
    decreases |ws|
  {
    hide Bit, And;
    if ws != [] {
      ProgramAllBit(Programmed(data, ws[0]), ws[1..], p, k);
      if ws[0].Covers(p) {
        AndBit(data[p], ws[0].At(p), k);
      }
      AllAllowFirst(ws, p, k);
    }
  }

  lemma AllAllowFirst(ws: seq<Access>, p: nat, k: nat)
    requires ws != []
    ensures AllAllow(ws, p, k) <==> (ws[0].Covers(p) ==> Bit(ws[0].At(p), k)) && AllAllow(ws[1..], p, k)
  {
    hide Bit;
    if AllAllow(ws, p, k) {
      forall i | 0 <= i < |ws[1..]| && ws[1..][i].Covers(p) ensures Bit(ws[1..][i].At(p), k) {
        assert ws[1..][i] == ws[i + 1];
      }
    }
    if (ws[0].Covers(p) ==> Bit(ws[0].At(p), k)) && AllAllow(ws[1..], p, k) {
      forall i | 0 <= i < |ws| && ws[i].Covers(p) ensures Bit(ws[i].At(p), k) {
        if i > 0 {
          assert ws[1..][i - 1] == ws[i];
        }
      }
    }
  }

  lemma ProgramsCommute(data: ByteString, a: Access, b: Access)
    ensures Programmed(Programmed(data, a), b) == Programmed(Programmed(data, b), a)
  {
    hide And, ByteOf;
    forall p | 0 <= p < |data|
      ensures Programmed(Programmed(data, a), b)[p] == Programmed(Programmed(data, b), a)[p]
    {
      if a.Covers(p) && b.Covers(p) {
        AndSwaps(data[p], a.At(p), b.At(p));
      }
    }
  }

  lemma {:induction false} RunSnoc(f: Flash, ws: seq<Access>, a: Access)
    ensures Run(f, ws + [a]) == Write(Run(f, ws), a)
    decreases |ws|
  {
    hide Write;
    if ws == [] {
      assert (ws + [a])[0] == a && (ws + [a])[1..] == [];
      assert Run(Write(f, a), []) == Write(f, a);
    } else {
      assert (ws + [a])[0] == ws[0] && (ws + [a])[1..] == ws[1..] + [a];
      RunSnoc(Write(f, ws[0]), ws[1..], a);
    }
  }

  /** Reads return the array after a write if and only if that write was taken as a command, and as Read Array or Clear Status. */
  lemma ArrayNeedsCommand(f: Flash, ws: seq<Access>, a: Access)
    ensures Run(f, ws + [a]).mode == Array <==>
              TakesCommands(Run(f, ws)) && (a.val % 0x100 == 0xFF || a.val % 0x100 == 0x50)
  {
    hide Run, Programmed, Erased;
    RunSnoc(f, ws, a);
  }

  /** Until the array is asked for again, a read shows both chips ready: bit 7 of each half, and no other. */
  lemma PollsReady(f: Flash, ws: seq<Access>, off: nat, n: nat)
    requires Run(f, ws).mode != Array
    ensures var v := Read(Run(f, ws), off, n);
            v % 0x1_0000 == 0x80 && v / 0x1_0000 == 0x80 && Bit(v % 0x1_0000, 7) && forall k :: 0 <= k < 7 ==> !Bit(v % 0x1_0000, k)
  {
    hide Run;
    assert Bit(1, 0);
    assert Bit(2, 1) && !Bit(2, 0);
    assert Bit(4, 2) && !Bit(4, 1) && !Bit(4, 0);
    assert Bit(8, 3) && !Bit(8, 2) && !Bit(8, 1) && !Bit(8, 0);
    assert Bit(0x10, 4) && forall k :: 0 <= k < 4 ==> (Bit(0x10, k) <==> k > 0 && Bit(8, k - 1));
    assert Bit(0x20, 5) && forall k :: 0 <= k < 5 ==> (Bit(0x20, k) <==> k > 0 && Bit(0x10, k - 1));
    assert Bit(0x40, 6) && forall k :: 0 <= k < 6 ==> (Bit(0x40, k) <==> k > 0 && Bit(0x20, k - 1));
    assert Bit(0x80, 7) && forall k :: 0 <= k < 7 ==> (Bit(0x80, k) <==> k > 0 && Bit(0x40, k - 1));
  }

  /** In array mode a read is the little-endian value of the bytes there, zero past the end. */
  lemma {:induction false} ReadsArray(data: ByteString, off: nat, n: nat)
    ensures ArrayValue(data, off, n) == Le(Padded(data, off, n))
    decreases n
  {
    if n == 0 {
      assert Padded(data, off, 0) == [];
    } else {
      var b := Padded(data, off, n);
      assert b[0] == if off < |data| then data[off] else 0;
      assert b[1..] == Padded(data, off + 1, n - 1);
      ReadsArray(data, off + 1, n - 1);
    }
  }

  /** A word program lowers the bits of the bytes it covers to those of its value, lowest byte first, and touches no other byte. */
  lemma WordProgram(f: Flash, setup: Access, a: Access, p: nat)
    requires TakesCommands(f) && (setup.val % 0x100 == 0x40 || setup.val % 0x100 == 0x10) && p < |f.data|
    ensures var g := Run(f, [setup, a]);
            && g.mode == Status
            && (a.off <= p < a.off + a.bytes ==>
                 forall k :: 0 <= k < 8 ==> (Bit(g.data[p], k) <==> Bit(f.data[p], k) && Bit(a.val / Pow256(p - a.off) % 0x100, k)))
            && (!(a.off <= p < a.off + a.bytes) ==> g.data[p] == f.data[p])
  {
    hide Write, And, Bit, Pow256;
    var g := Write(f, setup);
    assert [setup, a][1..] == [a] && [a][1..] == [];
    assert Run(f, [setup, a]) == Run(g, [a]) == Run(Write(g, a), []);
    ProgramOperand(f, setup, a);
    if a.off <= p < a.off + a.bytes {
      forall k | 0 <= k < 8
        ensures Bit(And(f.data[p], a.At(p)), k) <==> Bit(f.data[p], k) && Bit(a.At(p), k)
      {
        AndBit(f.data[p], a.At(p), k);
      }
    }
  }

  lemma ProgramOperand(f: Flash, setup: Access, a: Access)
    requires TakesCommands(f) && (setup.val % 0x100 == 0x40 || setup.val % 0x100 == 0x10)
    ensures Write(Write(f, setup), a) == Flash(Programmed(f.data, a), Status, f.left)
  {
    hide Programmed;
  }

  /** A confirmed erase sets the whole 256 KiB block around the confirming write and nothing else; unconfirmed, it does nothing. */
  lemma EraseClearsBlock(f: Flash, setup: Access, confirm: Access, p: nat)
    requires TakesCommands(f) && setup.val % 0x100 == 0x20 && p < |f.data|
    ensures var g := Run(f, [setup, confirm]);
            var base := confirm.off - confirm.off % 0x4_0000;
            && g.mode == Status
            && g.data[p] == if confirm.val % 0x100 == 0xD0 && base <= p < base + 256 * 1024 then 0xFF else f.data[p]
  {
    hide Write;
    var g := Write(f, setup);
    assert [setup, confirm][1..] == [confirm] && [confirm][1..] == [];
    assert Run(f, [setup, confirm]) == Run(g, [confirm]) == Run(Write(g, confirm), []);
    EraseOperand(f, setup, confirm);
    BlockAround(p, confirm.off);
  }

  lemma EraseOperand(f: Flash, setup: Access, confirm: Access)
    requires TakesCommands(f) && setup.val % 0x100 == 0x20
    ensures Write(Write(f, setup), confirm) == Flash(if confirm.val % 0x100 == 0xD0 then Erased(f.data, confirm) else f.data, Status, f.left)
  {
    hide Erased;
  }

  lemma BlockAround(p: nat, off: nat)
    ensures var base := off - off % 0x4_0000; p / BLOCK == off / BLOCK <==> base <= p < base + 256 * 1024
  {
  }

  // ----- erase, program, read back

  lemma DivDiv(n: nat, b: nat)
    requires b > 0
    ensures n / (256 * b) == n / 256 / b
  {
    var q, r := n / 256 / b, n / 256 % b;
    assert q * (256 * b) == 256 * (q * b);
    Modular.Unique(n, 256 * b, q, 256 * r + n % 256);
  }

  lemma ByteOfNext(v: nat, i: nat)
    ensures ByteOf(v, i + 1) == ByteOf(v / 256, i)
  {
    DivDiv(v, Pow256(i));
  }

  ghost predicate Holds(data: ByteString, off: nat, n: nat, val: nat) {
    off + n <= |data| && forall i :: 0 <= i < n ==> data[off + i] == ByteOf(val, i)
  }

  lemma {:induction false} HeldValue(data: ByteString, off: nat, n: nat, val: nat)
    requires Holds(data, off, n, val) && val < Pow256(n)
    ensures ArrayValue(data, off, n) == val
    decreases n
  {
    if n > 0 {
      assert data[off + 0] == ByteOf(val, 0) == val % 256;
      forall i | 0 <= i < n - 1 ensures data[off + 1 + i] == ByteOf(val / 256, i) {
        ByteOfNext(val, i);
        assert data[off + (i + 1)] == ByteOf(val, i + 1);
      }
      HeldValue(data, off + 1, n - 1, val / 256);
    }
  }

  lemma SameBlock(off: nat, p: nat, n: nat)
    requires off <= p < off + n && off % BLOCK + n <= BLOCK
    ensures p / BLOCK == off / BLOCK
  {
  }

  /** An erased stretch that is then programmed holds what was programmed. */
  lemma ErasedThenProgrammed(data: ByteString, e: Access, a: Access)
    requires a.off + a.bytes <= |data| && a.off % BLOCK + a.bytes <= BLOCK && e.InBlock(a.off)
    ensures Holds(Programmed(Erased(data, e), a), a.off, a.bytes, a.val)
  {
    hide And, ByteOf;
    forall i | 0 <= i < a.bytes
      ensures Programmed(Erased(data, e), a)[a.off + i] == ByteOf(a.val, i)
    {
      SameBlock(a.off, a.off + i, a.bytes);
      AndFF(ByteOf(a.val, i));
    }
  }

  /** Erase the block, program a word, return to the array: reading the word gives the value programmed. */
  lemma EraseProgramRead(f: Flash, setup: Access, confirm: Access, word: Access, a: Access, back: Access)
    requires TakesCommands(f)
    requires setup.val % 0x100 == 0x20 && confirm.Confirms() && confirm.InBlock(a.off)
    requires word.val % 0x100 == 0x40 && back.val % 0x100 == 0xFF
    requires a.off + a.bytes <= |f.data| && a.off % BLOCK + a.bytes <= BLOCK && a.val < Pow256(a.bytes)
    ensures Read(Run(f, [setup, confirm, word, a, back]), a.off, a.bytes) == a.val
  {
    hide Programmed, Erased, Pow256, ArrayValue, Write, Run;
    FiveSteps(f, setup, confirm, word, a, back);
    EraseCommand(f, setup, confirm);
    var f1 := Write(Write(f, setup), confirm);
    WordCommand(f1, word, a, back);
    ErasedThenProgrammed(f.data, confirm, a);
    HeldValue(Programmed(f1.data, a), a.off, a.bytes, a.val);
  }

  lemma EraseCommand(f: Flash, setup: Access, confirm: Access)
    requires TakesCommands(f) && setup.val % 0x100 == 0x20 && confirm.Confirms()
    ensures var g := Write(Write(f, setup), confirm); TakesCommands(g) && g.data == Erased(f.data, confirm)
  {
    hide Erased;
  }

  lemma WordCommand(f: Flash, word: Access, a: Access, back: Access)
    requires TakesCommands(f) && word.val % 0x100 == 0x40 && back.val % 0x100 == 0xFF
    ensures var g := Write(Write(Write(f, word), a), back); g.mode == Array && g.data == Programmed(f.data, a)
  {
    hide Programmed;
  }

  lemma FiveSteps(f: Flash, a: Access, b: Access, c: Access, d: Access, e: Access)
    ensures Run(f, [a, b, c, d, e]) == Write(Write(Write(Write(Write(f, a), b), c), d), e)
  {
    hide Write;
    var f1 := Write(f, a);
    var f2 := Write(f1, b);
    var f3 := Write(f2, c);
    var f4 := Write(f3, d);
    assert [a, b, c, d, e][1..] == [b, c, d, e];
    assert Run(f1, [b, c, d, e]) == Run(f2, [c, d, e]) by { assert [b, c, d, e][1..] == [c, d, e]; }
    assert Run(f2, [c, d, e]) == Run(f3, [d, e]) by { assert [c, d, e][1..] == [d, e]; }
    assert Run(f3, [d, e]) == Run(f4, [e]) by { assert [d, e][1..] == [e]; }
    assert Run(f4, [e]) == Run(Write(f4, e), []) by { assert [e][1..] == []; }
  }

  // ----- the device as an object

  class FlashDevice {
    const data: array<Byte>
    var state: Mode
    var bufLeft: nat

    ghost function Abs(): Flash
      reads this, data
    {
      Flash(data[..], state, bufLeft)
    }

    constructor (size: nat)
      ensures fresh(data) && data.Length == size
      ensures state == Array && bufLeft == 0
      ensures forall p :: 0 <= p < size ==> data[p] == 0xFF
    {
      data := new Byte[size](_ => 0xFF);
      state, bufLeft := Array, 0;
    }

    method ReadBus(off: nat, bytes: nat) returns (v: nat)
      ensures v == Read(Abs(), off, bytes)
    {
      if state != Array {
        return READY;
      }
      v := 0;
      var i: nat := bytes;
      while i > 0
        invariant i <= bytes
        invariant v == ArrayValue(data[..], off + i, bytes - i)
      {
        i := i - 1;
        v := (if off + i < data.Length then data[off + i] else 0) + 256 * v;
      }
    }

    /** Clears bits; bytes past the end are dropped. */
    method ProgramBytes(a: Access)
      modifies data
      ensures data[..] == Programmed(old(data[..]), a)
    {
      hide And, ByteOf;
      var i := 0;
      while i < a.bytes
        invariant i <= a.bytes
        invariant forall p :: 0 <= p < data.Length ==>
                    data[p] == if a.Covers(p) && p < a.off + i then And(old(data[p]), a.At(p)) else old(data[p])
      {
        if a.off + i < data.Length {
          data[a.off + i] := And(data[a.off + i], ByteOf(a.val, i));
        }
        i := i + 1;
      }
    }

    method EraseBlock(a: Access)
      modifies data
      ensures data[..] == Erased(old(data[..]), a)
    {
      var base := a.off / BLOCK * BLOCK;
      var i := base;
      while i < base + BLOCK && i < data.Length
        invariant base <= i <= base + BLOCK
        invariant forall p :: 0 <= p < data.Length ==>
                    data[p] == if base <= p < i then 0xFF else old(data[p])
      {
        data[i] := 0xFF;
        i := i + 1;
      }
      forall p | 0 <= p < data.Length ensures (base <= p < base + BLOCK) == a.InBlock(p) {
        BlockRange(p, a.off);
      }
    }

    method WriteBus(a: Access)
      modifies this, data
      ensures Abs() == Write(old(Abs()), a)
    {
      hide Programmed, Erased;
      match state
      case Program =>
        ProgramBytes(a);
        state := Status;
      case BufferCount =>
        bufLeft := a.val % 0x1_0000 + 1;
        state := BufferData;
      case BufferData =>
        ProgramBytes(a);
        if bufLeft > 0 {
          bufLeft := bufLeft - 1;
        }
        if bufLeft == 0 {
          state := Status;
        }
      case EraseSetup =>
        if a.Confirms() {
          EraseBlock(a);
        }
        state := Status;
      case _ =>
        state := Command(a.val % 0x100);
    }
  }

  lemma BlockRange(p: nat, off: nat)
    ensures off / BLOCK * BLOCK <= p < off / BLOCK * BLOCK + BLOCK <==> p / BLOCK == off / BLOCK
  {
  }
}
