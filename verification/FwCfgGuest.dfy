/** The fw_cfg device as a guest uses it (QEMU's fw_cfg interface): the bytes of a DMA descriptor, and what each of its bits makes happen. */
module FwCfgGuests {
  import opened Bytes
  import opened Endian
  import opened GuestMemory
  import opened FwCfg

  /** A descriptor in guest memory: control word, length and buffer address, big-endian. */
  function DescriptorBytes(control: nat, len: nat, addr: nat): (b: ByteString)
    ensures |b| == 16
  {
    BeBytes(control, 4) + BeBytes(len, 4) + BeBytes(addr, 8)
  }

  /** The guest has laid out this descriptor at `a`, and the device can reach it. */
  ghost predicate Asks(f: Fw, a: nat, control: nat, len: nat, addr: nat) {
    && f.hasMem && Disjoint(f.mem) && a < 0x1_0000_0000_0000_0000
    && control < 0x1_0000_0000 && len < 0x1_0000_0000 && addr < 0x1_0000_0000_0000_0000
    && Read(f.mem, a, 16) == Some(DescriptorBytes(control, len, addr))
  }

  /** The guest writes the descriptor's address to the DMA register, in big-endian order. */
  function Kick(f: Fw, a: nat): Fw {
    WriteRegister(f, 0x10, 8, Le(BeBytes(a, 8)))
  }

  lemma DescriptorParts(control: nat, len: nat, addr: nat)
    ensures var b := DescriptorBytes(control, len, addr);
            b[0..4] == BeBytes(control, 4) && b[4..8] == BeBytes(len, 4) && b[8..16] == BeBytes(addr, 8)
  {
    hide BeBytes;
  }

  lemma DescriptorLoads(f: Fw, a: nat, control: nat, len: nat, addr: nat)
    requires Asks(f, a, control, len, addr)
    ensures LoadDescriptor(f.mem, a) == Some(Descriptor(control, len, addr)) && Kick(f, a) == ProcessDma(f, a)
  {
    hide Read, Disjoint, BeBytes, Be, Pow256, ProcessDma, DescriptorBytes, Le, WriteRegister;
    Pow256Values();
    DescriptorParts(control, len, addr);
    BeRoundTrip(control, 4);
    BeRoundTrip(len, 4);
    BeRoundTrip(addr, 8);
    HalvesAreOne(f, a);
  }

  /** The stream a transfer takes its bytes from, and where: a select bit (3) starts the item of the upper half at its beginning. */
  function Source(f: Fw, control: nat): (nat, nat) {
    if control / 8 % 2 == 1 then (control / 0x1_0000, 0) else (f.selector, f.offset)
  }

  /** The device but for guest memory and the file written, once a descriptor is done: the item and how far it is read. */
  ghost predicate StandsAt(f: Fw, g: Fw, sel: nat, offset: nat) {
    g.selector == sel && g.offset == offset && g.dir == f.dir && g.hasMem == f.hasMem && g.dmaHi == f.dmaHi
  }

  /** Bit 1 reads: the buffer receives that much of the item, and the stream moves on. */
  lemma ReadBit(f: Fw, a: nat, control: nat, len: nat, addr: nat)
    requires Asks(f, a, control, len, addr) && control / 2 % 2 == 1
    ensures var (sel, at) := Source(f, control);
            && StandsAt(f, Kick(f, a), sel, at + len) && Kick(f, a).files == f.files
            && (len > 0 && Mapped(f.mem, addr, len) && Apart(a, 4, addr, len) ==>
                 Read(Kick(f, a).mem, addr, len) == Some(Padded(Item(f, sel), at, len)))
  {
    hide Read, Write, Mapped, Disjoint, Item, Padded, DescriptorBytes, LoadDescriptor;
    DescriptorLoads(f, a, control, len, addr);
    hide Kick;
    if len > 0 && Mapped(f.mem, addr, len) && Apart(a, 4, addr, len) {
      DmaReadDelivers(f, a);
    }
  }

  /** The word 0x0A under a selector: that item, from its start, is in the buffer, zero past its end. */
  lemma SelectAndRead(f: Fw, a: nat, sel: nat, len: nat, addr: nat)
    requires sel < 0x1_0000 && Asks(f, a, sel * 0x1_0000 + 0x0A, len, addr)
    requires len > 0 && Mapped(f.mem, addr, len) && Apart(a, 4, addr, len)
    ensures Read(Kick(f, a).mem, addr, len) == Some(Padded(Item(f, sel), 0, len))
    ensures StandsAt(f, Kick(f, a), sel, len)
  {
    hide Kick, Asks, Read, Mapped, Item, Padded, StandsAt;
    SelectReadWord(sel);
    ReadBit(f, a, sel * 0x1_0000 + 0x0A, len, addr);
  }

  lemma SelectReadWord(sel: nat)
    ensures var word := sel * 0x1_0000 + 0x0A; word / 0x1_0000 == sel && word / 8 % 2 == 1 && word / 2 % 2 == 1
  {
    assert sel * 0x1_0000 + 0x0A == 8 * (sel * 0x2000 + 1) + 2;
    assert sel * 0x1_0000 + 0x0A == 2 * (sel * 0x8000 + 5);
  }

  /** Bit 4, without bit 1, writes: the buffer goes into the selected file at the offset, as far as the file reaches. */
  lemma WriteBit(f: Fw, a: nat, control: nat, len: nat, addr: nat)
    requires Asks(f, a, control, len, addr) && control / 2 % 2 == 0 && control / 16 % 2 == 1
    requires Read(f.mem, addr, len).Some?
    ensures |Read(f.mem, addr, len).value| == len
    ensures var (sel, at) := Source(f, control);
            var buf, g := Read(f.mem, addr, len).value, Kick(f, a);
            && g.selector == sel && g.dir == f.dir && |g.files| == |f.files|
            && (forall i :: 0 <= i < |f.files| ==> PartReplaced(f.files[i], g.files[i], if sel == 0x20 + i then buf else [], at))
            && g.offset == at + if 0x20 <= sel < 0x20 + |f.files| then Room(f.files[sel - 0x20], at, len) else 0
  {
    hide Read, Write, Mapped, Disjoint, DescriptorBytes, LoadDescriptor, WriteItem, PartReplaced, Room;
    DescriptorLoads(f, a, control, len, addr);
    hide Kick;
    var d := Descriptor(control, len, addr);
    FilesReplaced(Prepared(f, d), Read(f.mem, addr, len).value);
  }

  /** The same file, with `buf` over its bytes from `at` on, as far as it reaches. */
  ghost predicate PartReplaced(file: File, file': File, buf: ByteString, at: nat) {
    && file'.name == file.name && |file'.data| == |file.data|
    && forall p :: 0 <= p < |file.data| ==> file'.data[p] == if at <= p < at + |buf| then buf[p - at] else file.data[p]
  }

  /** How much of `len` bytes from `at` on the file has room for. */
  function Room(file: File, at: nat, len: nat): nat {
    if at >= |file.data| then 0 else if at + len <= |file.data| then len else |file.data| - at
  }

  lemma FilesReplaced(f: Fw, buf: ByteString)
    ensures var g := WriteItem(f, buf);
            && g.selector == f.selector && g.dir == f.dir && |g.files| == |f.files|
            && (forall i :: 0 <= i < |f.files| ==> PartReplaced(f.files[i], g.files[i], if f.selector == 0x20 + i then buf else [], f.offset))
            && g.offset == f.offset + if 0x20 <= f.selector < 0x20 + |f.files| then Room(f.files[f.selector - 0x20], f.offset, |buf|) else 0
  {
  }

  /** Bit 2, without bits 1 and 4, skips: the stream moves on, and nothing but the control word is stored. */
  lemma SkipBit(f: Fw, a: nat, control: nat, len: nat, addr: nat)
    requires Asks(f, a, control, len, addr) && control / 2 % 2 == 0 && control / 16 % 2 == 0 && control / 4 % 2 == 1
    ensures var (sel, at) := Source(f, control);
            StandsAt(f, Kick(f, a), sel, at + len) && Kick(f, a).files == f.files && Kick(f, a).mem == Write(f.mem, a, [0, 0, 0, 0])
  {
    hide Read, Write, Disjoint, DescriptorBytes, LoadDescriptor;
    DescriptorLoads(f, a, control, len, addr);
    assert Zeros(4) == [0, 0, 0, 0];
    hide Kick;
  }

  /** With none of the three bits, a descriptor at most selects. */
  lemma NoBit(f: Fw, a: nat, control: nat, len: nat, addr: nat)
    requires Asks(f, a, control, len, addr) && control / 2 % 2 == 0 && control / 16 % 2 == 0 && control / 4 % 2 == 0
    ensures var (sel, at) := Source(f, control);
            StandsAt(f, Kick(f, a), sel, at) && Kick(f, a).files == f.files && Kick(f, a).mem == Write(f.mem, a, [0, 0, 0, 0])
  {
    hide Read, Write, Disjoint, DescriptorBytes, LoadDescriptor;
    DescriptorLoads(f, a, control, len, addr);
    assert Zeros(4) == [0, 0, 0, 0];
    hide Kick;
  }

  // ----- the items

  /** Writing a selector, big-endian, to the register at 0x08 starts that item. */
  lemma RegisterSelects(f: Fw, sel: nat, bytes: nat)
    requires sel < 0x1_0000
    ensures WriteRegister(f, 0x08, bytes, Le(BeBytes(sel, 2))) == f.(selector := sel, offset := 0)
  {
    hide SelectorOf, Le, BeBytes;
    SelectorBigEndian(sel);
  }

  /** Item 0 is the signature, item 1 says which interfaces there are, 0x19 is the directory and the files follow from 0x20 on. */
  lemma ItemsAre(f: Fw)
    ensures Item(f, 0) == ['Q' as int, 'E' as int, 'M' as int, 'U' as int]
    ensures Le(Item(f, 1)) == if f.hasMem then 3 else 1
    ensures |Item(f, 1)| == 4 && Item(f, 0x19) == f.dir
    ensures forall sel: nat :: sel > 1 && sel != 0x19 ==>
              Item(f, sel) == if 0x20 <= sel < 0x20 + |f.files| then f.files[sel - 0x20].data else []
  {
    var b := Item(f, 1);
    assert b[1..] == [0, 0, 0] && b[1..][1..] == [0, 0] && b[1..][1..][1..] == [0] && b[1..][1..][1..][1..] == [];
    assert Le([]) == 0;
    assert Le(b[1..][1..][1..]) == 0;
    assert Le(b[1..][1..]) == 0;
    assert Le(b[1..]) == 0;
  }

  /** A guest that selects item 0 and reads four bytes has the signature. */
  lemma SignatureReads(f: Fw)
    ensures var g := WriteRegister(f, 0x08, 2, Le(BeBytes(0, 2)));
            LeBytes(ReadRegister(g, 0, 4).0, 4) == ['Q' as int, 'E' as int, 'M' as int, 'U' as int]
  {
    hide Le, LeBytes, BeBytes, WriteRegister, ReadRegister;
    RegisterSelects(f, 0, 2);
    var g := WriteRegister(f, 0x08, 2, Le(BeBytes(0, 2)));
    DataReadReturns(g, 4);
    ItemsAre(g);
    assert Padded(Item(g, 0), 0, 4) == Item(g, 0);
  }

  /** Only the data register has content: any other reads as zero, and nothing moves. */
  lemma OtherRegistersReadZero(f: Fw, off: nat, n: nat)
    requires off != 0x00
    ensures ReadRegister(f, off, n) == (0, f)
  {
  }

  /** Writes to other offsets are ignored, and the first half of an address only waits for the second. */
  lemma OtherRegistersIgnored(f: Fw, off: nat, bytes: nat, val: nat)
    ensures off !in {0x08, 0x10, 0x14} ==> WriteRegister(f, off, bytes, val) == f
    ensures off == 0x10 && bytes != 8 ==> WriteRegister(f, off, bytes, val) == f.(dmaHi := Reversed(val, 4))
  {
    hide ProcessDma, Reversed;
  }
}
