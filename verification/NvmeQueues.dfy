/** The NVMe controller's queues: submission ring, command execution, completion ring (NVM Express 1.4, section 4.1). */
module NvmeQueues {
  import opened Bytes
  import opened Endian
  import opened GuestMemory
  import opened DiskFiles
  import opened NvmeTransfer

  const MAX_QUEUES: nat := 8
  const SQES: nat := 64
  const CQES: nat := 16

  datatype SubmissionQueue = SubmissionQueue(base: nat, size: nat, head: nat, cqid: nat)
  datatype CompletionQueue = CompletionQueue(base: nat, size: nat, tail: nat, phase: nat, vector: nat)

  const NO_SQ := SubmissionQueue(0, 0, 0, 0)
  const NO_CQ := CompletionQueue(0, 0, 0, 0, 0)

  /** Everything the queues work on: guest memory, the disk image and the two rings of each queue id. */
  datatype Nvme = Nvme(mem: Memory, disk: ByteString, sq: seq<SubmissionQueue>, cq: seq<CompletionQueue>) {
    ghost predicate Valid() { |sq| == MAX_QUEUES && |cq| == MAX_QUEUES }
  }

  function Field(cmd: ByteString, at: nat, n: nat): nat
    requires |cmd| == SQES && at + n <= SQES
  {
    Le(cmd[at..at + n])
  }

  function CommandId(cmd: ByteString): nat
    requires |cmd| == SQES
  {
    Field(cmd, 2, 2)
  }

  /** The data buffer of a read or write command: CDW12 counts blocks from zero. */
  function DataBuffer(cmd: ByteString): Buffer
    requires |cmd| == SQES
  {
    Buffer(Field(cmd, 24, 8), Field(cmd, 32, 8), (Field(cmd, 48, 4) % 0x1_0000 + 1) * LBA)
  }

  function DiskOffset(cmd: ByteString): nat
    requires |cmd| == SQES
  {
    (Field(cmd, 40, 4) + Field(cmd, 44, 4) * 0x1_0000_0000) * LBA
  }

  function Ascii(s: string): (b: ByteString)
    ensures |b| == |s|
  {
    seq(|s|, i requires 0 <= i < |s| => s[i] as int % 256)
  }

  /** A text field: cut to `n` bytes, or padded with spaces. */
  function PadText(s: string, n: nat): (b: ByteString)
    ensures |b| == n
  {
    Ascii(s)[..Min(|s|, n)] + seq(n - Min(|s|, n), _ => 0x20)
  }

  /** The Identify page: controller (1), namespace (0), or zeros. */
  function IdentifyPage(cns: nat, blocks: nat): ByteString {
    var page := Zeros(PAGE);
    if cns == 1 then
      var p := Overwrite(page, 4, PadText("WEAVE0000000000000001", 20) + PadText("weave NVMe", 40) + PadText("1.0", 8));
      Overwrite(p, 512, [0x66, 0x44, 0, 0] + LeBytes(1, 4))
    else if cns == 0 then
      var p := Overwrite(page, 0, LeBytes(blocks, 8) + LeBytes(blocks, 8) + LeBytes(blocks, 8));
      Overwrite(p, 128, LeBytes(9 * 0x1_0000, 4))
    else page
  }

  function ExecuteAdmin(n: Nvme, cmd: ByteString): (r: Nvme)
    requires n.Valid() && |cmd| == SQES
    ensures r.Valid() && SameLayout(n.mem, r.mem)
    ensures forall i :: 0 <= i < MAX_QUEUES && n.sq[i].size > 0 ==> r.sq[i].size > 0
  {
    var prp1, cdw10, cdw11 := Field(cmd, 24, 8), Field(cmd, 40, 4), Field(cmd, 44, 4);
    var qid, size := cdw10 % 0x1_0000, cdw10 / 0x1_0000 % 0x1_0000 + 1;
    if cmd[0] == 0x06 then
      n.(mem := Write(n.mem, prp1, IdentifyPage(cdw10 % 0x100, |n.disk| / LBA)))
    else if cmd[0] == 0x05 && qid < MAX_QUEUES then
      n.(cq := n.cq[qid := CompletionQueue(prp1, size, 0, 1, cdw11 / 0x1_0000 % 0x1_0000)])
    else if cmd[0] == 0x01 && qid < MAX_QUEUES then
      n.(sq := n.sq[qid := SubmissionQueue(prp1, size, 0, cdw11 / 0x1_0000 % 0x1_0000)])
    else n
  }

  lemma {:induction false} TransferLayout(m: Memory, disk: ByteString, write: bool, off: nat, b: Buffer, done: nat)
    ensures SameLayout(m, Transfer(m, disk, write, off, b, done).0)
    ensures write ==> Transfer(m, disk, write, off, b, done).0 == m
    decreases b.total - done
  {
    hide PrpAddr, Gather, Padded, Write;
    if done < b.total {
      var gpa := PrpAddr(m, b, done);
      var chunk := ChunkAt(gpa, b, done);
      if write {
        TransferLayout(m, Gather(m, gpa, chunk, disk, off + done), write, off, b, done + chunk);
      } else {
        var m' := Write(m, gpa, Padded(disk, off + done, chunk));
        TransferLayout(m', disk, write, off, b, done + chunk);
      }
    }
  }

  function ExecuteIO(n: Nvme, cmd: ByteString): (r: Nvme)
    requires n.Valid() && |cmd| == SQES
    ensures r.Valid() && r.sq == n.sq && r.cq == n.cq && SameLayout(n.mem, r.mem)
    ensures cmd[0] != 0x02 ==> r.mem == n.mem
  {
    if cmd[0] == 0x01 || cmd[0] == 0x02 then
      TransferLayout(n.mem, n.disk, cmd[0] == 0x01, DiskOffset(cmd), DataBuffer(cmd), 0);
      var r := Transfer(n.mem, n.disk, cmd[0] == 0x01, DiskOffset(cmd), DataBuffer(cmd), 0);
      n.(mem := r.0, disk := r.1)
    else n
  }

  function Execute(n: Nvme, q: nat, cmd: ByteString): (r: Nvme)
    requires n.Valid() && |cmd| == SQES
    ensures r.Valid() && SameLayout(n.mem, r.mem)
    ensures forall i :: 0 <= i < MAX_QUEUES && n.sq[i].size > 0 ==> r.sq[i].size > 0
    ensures q != 0 ==> r.sq == n.sq && r.cq == n.cq
  {
    if q == 0 then ExecuteAdmin(n, cmd) else ExecuteIO(n, cmd)
  }

  /** A completion entry with DW0 zero; the phase tag is its last field. */
  function Entry(sqhead: nat, sqid: nat, cid: nat, phase: nat): (e: ByteString)
    ensures |e| == CQES
  {
    Zeros(8) + LeBytes(sqhead + 1, 2) + LeBytes(sqid, 2) + LeBytes(cid, 2) + LeBytes(phase, 2)
  }

  /** Posts a completion and moves the tail; the phase flips when the tail wraps. */
  function Complete(n: Nvme, cqid: nat, sqid: nat, sqhead: nat, cid: nat): (r: Nvme)
    requires n.Valid()
    ensures r.Valid() && r.sq == n.sq && r.disk == n.disk && SameLayout(n.mem, r.mem)
  {
    if cqid >= MAX_QUEUES || n.cq[cqid].size == 0 then n
    else
      var c := n.cq[cqid];
      var c' := if c.tail + 1 >= c.size then c.(tail := 0, phase := 1 - c.phase % 2) else c.(tail := c.tail + 1);
      n.(mem := Write(n.mem, c.base + c.tail * CQES, Entry(sqhead, sqid, cid, c.phase)), cq := n.cq[cqid := c'])
  }

  /** One command: execute, complete, advance the head. */
  function ServeCommand(n: Nvme, q: nat, cmd: ByteString): (r: Nvme)
    requires n.Valid() && q < MAX_QUEUES && |cmd| == SQES && n.sq[q].size > 0
    ensures r.Valid() && SameLayout(n.mem, r.mem)
    ensures r.sq[q].size > 0
    ensures q != 0 ==> r.sq == n.sq[q := n.sq[q].(head := (n.sq[q].head + 1) % n.sq[q].size)]
  {
    var n1 := Execute(n, q, cmd);
    var s := n1.sq[q];
    var n2 := Complete(n1, s.cqid, q, s.head, CommandId(cmd));
    n2.(sq := n2.sq[q := s.(head := (s.head + 1) % s.size)])
  }

  /** The command in the submission slot at the head; None when that slot is unmapped. */
  function HeadCommand(n: Nvme, q: nat): Option<ByteString>
    requires n.Valid() && q < MAX_QUEUES
  {
    Read(n.mem, n.sq[q].base + n.sq[q].head * SQES, SQES)
  }

  /** Serves queue `q` until its head meets `tail`; the flag is false when `budget` commands were not enough. */
  function RunSQ(n: Nvme, q: nat, tail: nat, budget: nat): (r: (Nvme, bool))
    requires n.Valid() && q < MAX_QUEUES
    ensures r.0.Valid()
    decreases budget
  {
    if n.sq[q].size == 0 || n.sq[q].head == tail || HeadCommand(n, q).None? then (n, true)
    else if budget == 0 then (n, false)
    else RunSQ(ServeCommand(n, q, HeadCommand(n, q).value), q, tail, budget - 1)
  }

  lemma RunAtTail(n: Nvme, q: nat, budget: nat)
    requires n.Valid() && q < MAX_QUEUES
    ensures RunSQ(n, q, n.sq[q].head, budget) == (n, true)
  {
  }

  lemma RunStep(n: Nvme, q: nat, tail: nat, budget: nat, cmd: ByteString)
    requires n.Valid() && q < MAX_QUEUES && n.sq[q].size > 0 && n.sq[q].head != tail
    requires HeadCommand(n, q) == Some(cmd) && budget > 0
    ensures RunSQ(n, q, tail, budget) == RunSQ(ServeCommand(n, q, cmd), q, tail, budget - 1)
  {
  }

  lemma RunStopsUnmapped(n: Nvme, q: nat, tail: nat, budget: nat)
    requires n.Valid() && q < MAX_QUEUES && HeadCommand(n, q).None?
    ensures RunSQ(n, q, tail, budget) == (n, true)
  {
  }
}
