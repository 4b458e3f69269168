/** The NVMe controller as the program has it: registers, queues and loops over guest memory and the disk image. */
module NvmeDevice {
  import opened Bytes
  import opened Endian
  import opened GuestMemory
  import opened NvmeTransfer
  import opened NvmeQueues

  class NvmeController {
    const mem: Machine
    const disk: array<Byte>
    var sq: seq<SubmissionQueue>
    var cq: seq<CompletionQueue>
    var cc: nat
    var csts: nat
    var aqa: nat
    var asq: nat
    var acq: nat

    ghost predicate Valid()
      reads this
    {
      |sq| == MAX_QUEUES && |cq| == MAX_QUEUES
    }

    /** The state the queue functions speak of. */
    ghost function Abs(): (n: Nvme)
      reads this, mem, disk
    {
      Nvme(mem.regions, disk[..], sq, cq)
    }

    constructor (m: Machine, image: array<Byte>)
      ensures Valid() && mem == m && disk == image
      ensures Abs() == Nvme(m.regions, image[..], seq(MAX_QUEUES, _ => NO_SQ), seq(MAX_QUEUES, _ => NO_CQ))
      ensures cc == csts == aqa == asq == acq == 0
    {
      mem, disk := m, image;
      sq, cq := seq(MAX_QUEUES, _ => NO_SQ), seq(MAX_QUEUES, _ => NO_CQ);
      cc, csts, aqa, asq, acq := 0, 0, 0, 0, 0;
    }

    method StoreDisk(off: nat, data: ByteString)
      modifies disk
      ensures disk[..] == DiskStore(old(disk[..]), off, data)
    {
      if off + |data| <= disk.Length {
        forall i | 0 <= i < |data| {
          disk[off + i] := data[i];
        }
      }
    }

    method ResolvePrp(b: Buffer, done: nat) returns (gpa: nat)
      ensures gpa == PrpAddr(mem.regions, b, done)
    {
      var first := PAGE - b.prp1 % PAGE;
      if done < first {
        return b.prp1 + done;
      }
      var rem := done - first;
      if b.total <= first + PAGE {
        return b.prp2 + rem % PAGE;
      }
      var entry := mem.ReadGuest(b.prp2 + rem / PAGE * 8, 8);
      match entry
      case Some(e) => return Le(e) + rem % PAGE;
      case None => return 0;
    }

    /** One iteration of the copy loop; returns where the next one starts. */
    method MoveRun(write: bool, off: nat, b: Buffer, done: nat) returns (next: nat)
      requires done < b.total
      modifies mem, disk
      ensures done < next <= b.total
      ensures Transfer(old(mem.regions), old(disk[..]), write, off, b, done)
           == Transfer(mem.regions, disk[..], write, off, b, next)
    {
      hide PrpAddr, Read, Write, Transfer, Padded, DiskStore;
      TransferStep(mem.regions, disk[..], write, off, b, done);
      var gpa := ResolvePrp(b, done);
      var chunk := PAGE - gpa % PAGE;
      if chunk > b.total - done {
        chunk := b.total - done;
      }
      ghost var m, d := mem.regions, disk[..];
      if write {
        var data := mem.ReadGuest(gpa, chunk);
        if data.Some? {
          StoreDisk(off + done, data.value);
        }
        assert mem.regions == m && disk[..] == Gather(m, gpa, chunk, d, off + done);
      } else {
        var _ := mem.WriteGuest(gpa, Padded(disk[..], off + done, chunk));
        assert mem.regions == Write(m, gpa, Padded(d, off + done, chunk)) && disk[..] == d;
      }
      next := done + chunk;
    }

    /** Copies between the disk and the buffer, one guest page at a time. */
    method MoveBlocks(write: bool, off: nat, b: Buffer)
      modifies mem, disk
      ensures (mem.regions, disk[..]) == Transfer(old(mem.regions), old(disk[..]), write, off, b, 0)
    {
      hide PrpAddr, Read, Write;
      ghost var m0, d0 := mem.regions, disk[..];
      var done := 0;
      while done < b.total
        invariant done <= b.total
        invariant Transfer(m0, d0, write, off, b, 0) == Transfer(mem.regions, disk[..], write, off, b, done)
      {
        done := MoveRun(write, off, b, done);
      }
    }

    method ExecuteCommand(q: nat, cmd: ByteString)
      requires Valid() && q < MAX_QUEUES && |cmd| == SQES
      modifies this`sq, this`cq, mem, disk
      ensures Valid() && Abs() == Execute(old(Abs()), q, cmd)
    {
      var prp1, cdw10, cdw11 := Field(cmd, 24, 8), Field(cmd, 40, 4), Field(cmd, 44, 4);
      if q == 0 {
        var qid, size := cdw10 % 0x1_0000, cdw10 / 0x1_0000 % 0x1_0000 + 1;
        if cmd[0] == 0x06 {
          var _ := mem.WriteGuest(prp1, IdentifyPage(cdw10 % 0x100, disk.Length / LBA));
        } else if cmd[0] == 0x05 && qid < MAX_QUEUES {
          cq := cq[qid := CompletionQueue(prp1, size, 0, 1, cdw11 / 0x1_0000 % 0x1_0000)];
        } else if cmd[0] == 0x01 && qid < MAX_QUEUES {
          sq := sq[qid := SubmissionQueue(prp1, size, 0, cdw11 / 0x1_0000 % 0x1_0000)];
        }
      } else if cmd[0] == 0x01 || cmd[0] == 0x02 {
        MoveBlocks(cmd[0] == 0x01, DiskOffset(cmd), DataBuffer(cmd));
      }
    }

    method PostCompletion(cqid: nat, sqid: nat, sqhead: nat, cid: nat)
      requires Valid()
      modifies this`cq, mem
      ensures Valid() && Abs() == Complete(old(Abs()), cqid, sqid, sqhead, cid)
    {
      if cqid >= MAX_QUEUES || cq[cqid].size == 0 {
        return;
      }
      var c := cq[cqid];
      var _ := mem.WriteGuest(c.base + c.tail * CQES, Entry(sqhead, sqid, cid, c.phase));
      c := c.(tail := c.tail + 1);
      if c.tail >= c.size {
        c := c.(tail := 0, phase := 1 - c.phase % 2);
      }
      cq := cq[cqid := c];
    }

    /** One turn of the doorbell loop: execute the command, complete it, advance the head. */
    method ServeOne(q: nat, cmd: ByteString)
      requires Valid() && q < MAX_QUEUES && |cmd| == SQES && sq[q].size > 0
      modifies this`sq, this`cq, mem, disk
      ensures Valid() && Abs() == ServeCommand(old(Abs()), q, cmd)
    {
      hide Execute, Complete;
      ExecuteCommand(q, cmd);
      ghost var n1 := Abs();
      PostCompletion(sq[q].cqid, q, sq[q].head, CommandId(cmd));
      assert sq == n1.sq && n1.sq[q].size > 0;
      sq := sq[q := sq[q].(head := (sq[q].head + 1) % sq[q].size)];
    }

    /**
     * Serves queue `q` up to `tail`. The caller owes a tail that the head reaches; `budget` bounds how
     * many commands that takes.
     */
    method ServeQueue(q: nat, tail: nat, ghost budget: nat)
      requires Valid() && q < MAX_QUEUES && RunSQ(Abs(), q, tail, budget).1
      modifies this`sq, this`cq, mem, disk
      ensures Valid() && Abs() == RunSQ(old(Abs()), q, tail, budget).0
    {
      hide ServeCommand, Read;
      ghost var n0 := Abs();
      if sq[q].size == 0 {
        return;
      }
      ghost var left := budget;
      while sq[q].head != tail
        invariant Valid() && sq[q].size > 0
        invariant RunSQ(n0, q, tail, budget) == RunSQ(Abs(), q, tail, left) && RunSQ(Abs(), q, tail, left).1
        decreases left
      {
        var cmd := mem.ReadGuest(sq[q].base + sq[q].head * SQES, SQES);
        assert cmd == HeadCommand(Abs(), q);
        if cmd.None? {
          RunStopsUnmapped(Abs(), q, tail, left);
          return;
        }
        assert left > 0;
        RunStep(Abs(), q, tail, left, cmd.value);
        ServeOne(q, cmd.value);
        left := left - 1;
      }
      RunAtTail(Abs(), q, left);
    }

    /** Doorbell 2q is queue q's submission tail; odd doorbells only acknowledge completions. */
    method Doorbell(idx: nat, val: nat, ghost budget: nat)
      requires Valid()
      requires idx / 2 < MAX_QUEUES && idx % 2 == 0 ==> RunSQ(Abs(), idx / 2, val, budget).1
      modifies this`sq, this`cq, mem, disk
      ensures Valid()
      ensures Abs() == if idx / 2 < MAX_QUEUES && idx % 2 == 0 then RunSQ(old(Abs()), idx / 2, val, budget).0 else old(Abs())
    {
      if idx / 2 >= MAX_QUEUES {
        return;
      }
      if idx % 2 == 0 {
        ServeQueue(idx / 2, val, budget);
      }
    }

    /** CC.EN: a rising edge makes the admin queue live, a falling edge resets every queue. */
    method WriteConfiguration(val: nat)
      requires Valid()
      modifies this`sq, this`cq, this`cc, this`csts
      ensures Valid() && cc == val
      ensures val % 2 == 1 && old(cc) % 2 == 0 ==>
                csts % 2 == 1
                && sq == old(sq)[0 := SubmissionQueue(asq, aqa % 0x1000 + 1, 0, 0)]
                && cq == old(cq)[0 := CompletionQueue(acq, aqa / 0x1_0000 % 0x1000 + 1, 0, 1, 0)]
      ensures val % 2 == 0 && old(cc) % 2 == 1 ==>
                csts % 2 == 0 && (forall i :: 0 <= i < MAX_QUEUES ==> sq[i] == NO_SQ && cq[i] == NO_CQ)
      ensures val % 2 == old(cc) % 2 ==> sq == old(sq) && cq == old(cq) && csts == old(csts)
    {
      var prevEN := cc % 2;
      cc := val;
      if cc % 2 == 1 && prevEN == 0 {
        sq := sq[0 := SubmissionQueue(asq, aqa % 0x1000 + 1, 0, 0)];
        cq := cq[0 := CompletionQueue(acq, aqa / 0x1_0000 % 0x1000 + 1, 0, 1, 0)];
        csts := csts / 2 * 2 + 1;
      } else if cc % 2 == 0 && prevEN == 1 {
        csts := csts / 2 * 2;
        sq, cq := seq(MAX_QUEUES, _ => NO_SQ), seq(MAX_QUEUES, _ => NO_CQ);
      }
    }

    /** The bases of the admin queues, a half at a time. */
    method WriteAdminBase(off: nat, half: nat)
      requires half < 0x1_0000_0000
      modifies this`asq, this`acq
      ensures off == 0x28 ==> Low(asq) == half && High(asq) == High(old(asq))
      ensures off == 0x2c ==> Low(asq) == Low(old(asq)) && High(asq) == half
      ensures off != 0x28 && off != 0x2c ==> asq == old(asq)
      ensures off == 0x30 ==> Low(acq) == half && High(acq) == High(old(acq))
      ensures off == 0x34 ==> Low(acq) == Low(old(acq)) && High(acq) == half
      ensures off != 0x30 && off != 0x34 ==> acq == old(acq)
    {
      if off == 0x28 {
        Halves(asq / 0x1_0000_0000, half);
        asq := asq / 0x1_0000_0000 * 0x1_0000_0000 + half;
      } else if off == 0x2c {
        Halves(half, asq % 0x1_0000_0000);
        asq := asq % 0x1_0000_0000 + half * 0x1_0000_0000;
      } else if off == 0x30 {
        Halves(acq / 0x1_0000_0000, half);
        acq := acq / 0x1_0000_0000 * 0x1_0000_0000 + half;
      } else if off == 0x34 {
        Halves(half, acq % 0x1_0000_0000);
        acq := acq % 0x1_0000_0000 + half * 0x1_0000_0000;
      }
    }

    /**
     * A write into the register block. The admin bases are written in halves; doorbell 2q, at 0x1000 + 8q, starts
     * queue q, whose tail the head has to reach within `budget` commands. Every other offset changes nothing here.
     */
    method WriteRegister(off: nat, val: nat, ghost budget: nat)
      requires Valid() && val < 0x1_0000_0000_0000_0000
      requires TailDoorbell(off).Some? ==> RunSQ(Abs(), TailDoorbell(off).value, Low(val), budget).1
      modifies this, mem, disk
      ensures Valid()
      ensures off != 0x14 ==> cc == old(cc) && csts == old(csts)
      ensures off == 0x14 ==> cc == Low(val)
      ensures off == 0x14 && val % 2 == 1 && old(cc) % 2 == 0 ==>
                csts % 2 == 1
                && sq == old(sq)[0 := SubmissionQueue(asq, aqa % 0x1000 + 1, 0, 0)]
                && cq == old(cq)[0 := CompletionQueue(acq, aqa / 0x1_0000 % 0x1000 + 1, 0, 1, 0)]
      ensures off == 0x14 && val % 2 == 0 && old(cc) % 2 == 1 ==>
                csts % 2 == 0 && forall i :: 0 <= i < MAX_QUEUES ==> sq[i] == SubmissionQueue(0, 0, 0, 0) && cq[i] == CompletionQueue(0, 0, 0, 0, 0)
      ensures off == 0x14 && val % 2 == old(cc) % 2 ==> sq == old(sq) && cq == old(cq) && csts == old(csts)
      ensures aqa == if off == 0x24 then Low(val) else old(aqa)
      ensures off == 0x28 ==> Low(asq) == Low(val) && High(asq) == High(old(asq))
      ensures off == 0x2c ==> Low(asq) == Low(old(asq)) && High(asq) == Low(val)
      ensures off != 0x28 && off != 0x2c ==> asq == old(asq)
      ensures off == 0x30 ==> Low(acq) == Low(val) && High(acq) == High(old(acq))
      ensures off == 0x34 ==> Low(acq) == Low(old(acq)) && High(acq) == Low(val)
      ensures off != 0x30 && off != 0x34 ==> acq == old(acq)
      ensures TailDoorbell(off).Some? ==> Abs() == RunSQ(old(Abs()), TailDoorbell(off).value, Low(val), budget).0
      ensures off != 0x14 && TailDoorbell(off).None? ==> Abs() == old(Abs())
    {
      hide RunSQ, TailDoorbell, Low, High;
      DoorbellIndex(off);
      LowIs(val);
      if off == 0x14 {
        WriteConfiguration(Low(val));
      } else if off == 0x24 {
        aqa := Low(val);
      } else if 0x28 <= off < 0x38 {
        WriteAdminBase(off, Low(val));
      } else if 0x1000 <= off < 0x3000 {
        Doorbell((off - 0x1000) / 4, Low(val), budget);
      }
    }
  }

  /** The queue whose submission tail this offset is. */
  function TailDoorbell(off: nat): (q: Option<nat>)
    ensures q.Some? ==> q.value < MAX_QUEUES
  {
    if 0x1000 <= off < 0x1040 && off / 4 % 2 == 0 then Some((off - 0x1000) / 8) else None
  }

  /** With a stride of four bytes, queue q's tail is at 0x1000 + 8q and its completion head right after it. */
  lemma DoorbellStride(q: nat)
    ensures TailDoorbell(0x1000 + 8 * q) == (if q < 8 then Some(q) else None) && TailDoorbell(0x1004 + 8 * q) == None
  {
  }

  lemma DoorbellIndex(off: nat)
    ensures TailDoorbell(off).Some? ==> 0x1000 <= off < 0x1040
    ensures 0x1000 <= off < 0x3000 ==>
              var idx := (off - 0x1000) / 4;
              && (TailDoorbell(off).Some? <==> idx / 2 < MAX_QUEUES && idx % 2 == 0)
              && (TailDoorbell(off).Some? ==> TailDoorbell(off).value == idx / 2)
  {
  }

  function Low(v: nat): nat { v % 0x1_0000_0000 }

  function High(v: nat): nat { v / 0x1_0000_0000 }

  lemma LowIs(v: nat)
    ensures Low(v) < 0x1_0000_0000 && Low(v) % 2 == v % 2
  {
  }

  lemma Halves(high: nat, low: nat)
    requires low < 0x1_0000_0000
    ensures (high * 0x1_0000_0000 + low) % 0x1_0000_0000 == low && (high * 0x1_0000_0000 + low) / 0x1_0000_0000 == high
  {
  }
}
