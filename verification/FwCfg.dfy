/** The fw_cfg device: one zero-padded stream per item behind a data register and a DMA interface, and the directory that names the items. */
module FwCfg {
  import opened Bits
  import opened Bytes
  import opened Endian
  import opened GuestMemory

  const DIRECTORY: nat := 0x19
  const FIRST_FILE: nat := 0x20
  const UINT32: nat := 0x1_0000_0000

  datatype File = File(name: ByteString, data: ByteString)

  /** `hasMem` says whether the device can reach guest memory: without it there is no DMA. */
  datatype Fw = Fw(mem: Memory, hasMem: bool, selector: nat, offset: nat, dmaHi: nat, files: seq<File>, dir: ByteString)

  // ----- items and their stream

  predicate IsFile(files: seq<File>, sel: nat) {
    FIRST_FILE <= sel < FIRST_FILE + |files|
  }

  function Item(f: Fw, sel: nat): ByteString {
    if sel == 0 then [0x51, 0x45, 0x4D, 0x55]
    else if sel == 1 then [if f.hasMem then 3 else 1, 0, 0, 0]
    else if sel == DIRECTORY then f.dir
    else if IsFile(f.files, sel) then f.files[sel - FIRST_FILE].data
    else []
  }

  /** The next `n` bytes of the selected item. */
  function Ahead(f: Fw, n: nat): ByteString {
    Padded(Item(f, f.selector), f.offset, n)
  }

  function Select(f: Fw, sel: nat): Fw {
    f.(selector := sel, offset := 0)
  }

  function ReadRegister(f: Fw, off: nat, n: nat): (nat, Fw) {
    if off != 0 then (0, f) else (Le(Ahead(f, n)), f.(offset := f.offset + n))
  }

  // ----- DMA

  datatype Descriptor = Descriptor(control: nat, length: nat, addr: nat) {
    predicate Selects() { control / 8 % 2 == 1 }
    predicate Reads() { control / 2 % 2 == 1 }
    predicate Writes() { !Reads() && control / 16 % 2 == 1 }
    predicate Skips() { !Reads() && !Writes() && control / 4 % 2 == 1 }
  }

  function LoadDescriptor(m: Memory, a: nat): Option<Descriptor> {
    match Read(m, a, 16)
    case Some(d) => Some(Descriptor(Be(d[0..4]), Be(d[4..8]), Be(d[8..16])))
    case None => None
  }

  /** Stores into a file at the offset; what does not fit is dropped, and the file keeps its length. */
  function WriteItem(f: Fw, data: ByteString): Fw {
    if !IsFile(f.files, f.selector) then f
    else
      var i := f.selector - FIRST_FILE;
      var was := f.files[i].data;
      if f.offset >= |was| then f
      else
        var n := Min(|data|, |was| - f.offset);
        f.(files := f.files[i := f.files[i].(data := was[..f.offset] + data[..n] + was[f.offset + n..])], offset := f.offset + n)
  }

  function Moves(f: Fw, d: Descriptor): Fw {
    if d.Reads() then f.(mem := Write(f.mem, d.addr, Ahead(f, d.length)), offset := f.offset + d.length)
    else if d.Writes() then
      match Read(f.mem, d.addr, d.length)
      case Some(buf) => WriteItem(f, buf)
      case None => f
    else if d.Skips() then f.(offset := f.offset + d.length)
    else f
  }

  function Prepared(f: Fw, d: Descriptor): Fw {
    if d.Selects() then Select(f, d.control / 0x1_0000) else f
  }

  function ProcessDma(f: Fw, a: nat): Fw {
    if !f.hasMem then f
    else
      match LoadDescriptor(f.mem, a)
      case None => f
      case Some(d) =>
        var g := Moves(Prepared(f, d), d);
        g.(mem := Write(g.mem, a, Zeros(4)))
  }

  // ----- registers

  /** The selector register takes a 16-bit big-endian number. */
  function SelectorOf(val: nat): nat {
    Or(val / 0x100 % 0x1_0000, val * 0x100 % 0x1_0000)
  }

  function Reversed(val: nat, n: nat): nat {
    Be(LeBytes(val, n))
  }

  /** The DMA descriptor address a register write triggers, if it triggers one. */
  function Trigger(f: Fw, off: nat, bytes: nat, val: nat): Option<nat> {
    if off == 0x10 && bytes == 8 then Some(Reversed(val, 8))
    else if off == 0x14 then Some(f.dmaHi * UINT32 + Reversed(val, 4))
    else None
  }

  function WriteRegister(f: Fw, off: nat, bytes: nat, val: nat): Fw {
    if off == 0x08 then Select(f, SelectorOf(val))
    else match Trigger(f, off, bytes, val)
      case Some(a) => ProcessDma(f, a)
      case None => if off == 0x10 then f.(dmaHi := Reversed(val, 4)) else f
  }

  lemma {:induction false} AndNotLow(a: nat, b: nat, k: nat)
    requires a < Pow2(k)
    ensures AndNot(a, b * Pow2(k)) == a
    decreases k
  {
    if a > 0 {
      var p := Pow2(k - 1);
      assert b * Pow2(k) == 2 * (b * p);
      assert b * Pow2(k) / 2 == b * p && b * Pow2(k) % 2 == 0;
      AndNotLow(a / 2, b, k - 1);
    }
  }

  /** Writing a selector in big-endian order selects it. */
  lemma SelectorBigEndian(sel: nat)
    requires sel < 0x1_0000
    ensures SelectorOf(Le(BeBytes(sel, 2))) == sel
  {
    hide AndNot;
    var b := BeBytes(sel, 2);
    assert b == [sel / 256 % 256, sel % 256] by {
      assert BeBytes(sel / 256 / 256, 0) == [];
      assert BeBytes(sel / 256, 1) == [sel / 256 % 256];
    }
    assert b[1..] == [sel % 256] && b[1..][1..] == [];
    assert Le(b[1..]) == sel % 256;
    var v := sel / 256 + 256 * (sel % 256);
    assert Le(b) == v;
    assert v / 0x100 == sel % 256 && v * 0x100 % 0x1_0000 == sel / 256 * 0x100;
    assert Pow2(4) == 16;
    assert Pow2(8) == 0x100;
    AndNotLow(sel % 256, sel / 256, 8);
  }

  lemma BigEndianReverses(x: nat, n: nat)
    requires x < Pow256(n)
    ensures Reversed(Le(BeBytes(x, n)), n) == x
  {
    LeOfBytes(BeBytes(x, n));
    BeRoundTrip(x, n);
  }

  /** Writing the descriptor address in two halves or as a whole runs the same transfer. */
  lemma HalvesAreOne(f: Fw, a: nat)
    requires a < 0x1_0000_0000_0000_0000
    ensures var f1 := WriteRegister(f, 0x10, 4, Le(BeBytes(a / UINT32, 4)));
            && WriteRegister(f1, 0x14, 4, Le(BeBytes(a % UINT32, 4))) == ProcessDma(f1, a)
            && WriteRegister(f, 0x10, 8, Le(BeBytes(a, 8))) == ProcessDma(f, a)
            && f1 == f.(dmaHi := a / UINT32)
  {
    hide ProcessDma, Le, BeBytes, Reversed, Pow256;
    Pow256Values();
    BigEndianReverses(a / UINT32, 4);
    BigEndianReverses(a % UINT32, 4);
    BigEndianReverses(a, 8);
  }

  // ----- one stream behind both interfaces

  datatype Event =
    | RegRead(off: nat, bytes: nat)
    | RegWrite(off: nat, bytes: nat, val: nat)
    | Driver(addr: nat, data: ByteString) // the guest stores into its own memory

  function Step(f: Fw, e: Event): Fw {
    match e
    case RegRead(off, n) => ReadRegister(f, off, n).1
    case RegWrite(off, n, v) => WriteRegister(f, off, n, v)
    case Driver(a, d) => f.(mem := Write(f.mem, a, d))
  }

  function Run(f: Fw, es: seq<Event>): Fw
    decreases |es|
  {
    if es == [] then f else Run(Step(f, es[0]), es[1..])
  }

  /** The descriptor an event makes the device process. */
  function Processed(f: Fw, e: Event): Option<Descriptor> {
    if !e.RegWrite? || e.off == 0x08 || !f.hasMem then None
    else match Trigger(f, e.off, e.bytes, e.val)
      case Some(a) => LoadDescriptor(f.mem, a)
      case None => None
  }

  /** Neither selects an item nor writes into one. */
  predicate OnlyReads(f: Fw, e: Event) {
    && !(e.RegWrite? && e.off == 0x08)
    && match Processed(f, e)
       case Some(d) => !d.Selects() && !d.Writes()
       case None => true
  }

  /** How far an event moves along the stream. */
  function Used(f: Fw, e: Event): nat {
    if e.RegRead? then (if e.off == 0 then e.bytes else 0)
    else match Processed(f, e)
      case Some(d) => if d.Reads() || d.Skips() then d.length else 0
      case None => 0
  }

  ghost predicate AllOnlyRead(f: Fw, es: seq<Event>)
    decreases |es|
  {
    es != [] ==> OnlyReads(f, es[0]) && AllOnlyRead(Step(f, es[0]), es[1..])
  }

  /** What each event passes over: data it reads, or data it skips. */
  function Chunks(f: Fw, es: seq<Event>): seq<ByteString>
    decreases |es|
  {
    if es == [] then [] else [Ahead(f, Used(f, es[0]))] + Chunks(Step(f, es[0]), es[1..])
  }

  ghost predicate SameItems(f: Fw, g: Fw) {
    g.files == f.files && g.dir == f.dir && g.selector == f.selector && g.hasMem == f.hasMem
  }

  lemma ReadingStep(f: Fw, e: Event)
    requires OnlyReads(f, e)
    ensures SameItems(f, Step(f, e)) && Step(f, e).offset == f.offset + Used(f, e)
  {
    hide Read, Write, LoadDescriptor, Reversed, Ahead, Le;
  }

  lemma SameItem(f: Fw, g: Fw)
    requires SameItems(f, g)
    ensures Item(g, g.selector) == Item(f, f.selector)
  {
  }

  /** Any mix of reads of any widths, DMA reads and DMA skips passes over one zero-padded stream, without gaps or repeats. */
  lemma {:induction false} MixIsOneStream(f: Fw, es: seq<Event>)
    requires AllOnlyRead(f, es)
    ensures var g := Run(f, es);
            && SameItems(f, g) && g.offset >= f.offset
            && Concat(Chunks(f, es)) == Padded(Item(f, f.selector), f.offset, g.offset - f.offset)
    decreases |es|
  {
    hide Step, OnlyReads, Item, Used, Padded;
    if es == [] {
      assert Padded(Item(f, f.selector), f.offset, 0) == [];
    } else {
      var f1 := Step(f, es[0]);
      ReadingStep(f, es[0]);
      SameItem(f, f1);
      MixIsOneStream(f1, es[1..]);
      PaddedJoin(Item(f, f.selector), f.offset, Used(f, es[0]), Run(f, es).offset - f1.offset);
      assert Chunks(f, es)[1..] == Chunks(f1, es[1..]);
    }
  }

  /** After a select, the stream starts at the item's first byte. */
  lemma SelectedStream(f: Fw, sel: nat, es: seq<Event>)
    requires AllOnlyRead(Select(f, sel), es)
    ensures var g := Run(Select(f, sel), es);
            Concat(Chunks(Select(f, sel), es)) == Padded(Item(f, sel), 0, g.offset)
  {
    hide Step, OnlyReads, Padded, Used;
    MixIsOneStream(Select(f, sel), es);
  }

  /** A data-register read returns its chunk, first byte lowest. */
  lemma DataReadReturns(f: Fw, n: nat)
    ensures LeBytes(ReadRegister(f, 0, n).0, n) == Ahead(f, n)
  {
    hide Item, Padded;
    LeOfBytes(Ahead(f, n));
  }

  /** Where the stream stands when a descriptor's transfer starts: at the beginning of the item it selects, or where it was. */
  lemma PreparedStream(f: Fw, d: Descriptor, n: nat)
    ensures Ahead(Prepared(f, d), n)
         == if d.Selects() then Padded(Item(f, d.control / 0x1_0000), 0, n) else Padded(Item(f, f.selector), f.offset, n)
  {
    hide Padded;
  }

  /** A DMA read leaves its chunk in the guest's buffer, if that is mapped and apart from the descriptor's control word. */
  lemma DmaReadDelivers(f: Fw, a: nat)
    requires f.hasMem && Disjoint(f.mem) && LoadDescriptor(f.mem, a).Some?
    requires var d := LoadDescriptor(f.mem, a).value;
             d.Reads() && d.length > 0 && Mapped(f.mem, d.addr, d.length) && Apart(a, 4, d.addr, d.length)
    ensures var d := LoadDescriptor(f.mem, a).value;
            Read(ProcessDma(f, a).mem, d.addr, d.length)
            == Some(if d.Selects() then Padded(Item(f, d.control / 0x1_0000), 0, d.length) else Padded(Item(f, f.selector), f.offset, d.length))
  {
    hide Read, Write, Mapped, Disjoint, Item, Padded, LoadDescriptor;
    var d := LoadDescriptor(f.mem, a).value;
    var chunk := Ahead(Prepared(f, d), d.length);
    PreparedStream(f, d, d.length);
    var m1 := Write(f.mem, d.addr, chunk);
    WriteLayout(f.mem, d.addr, chunk);
    WriteReadBack(f.mem, d.addr, chunk);
    WriteApart(m1, a, Zeros(4), d.addr, d.length);
  }

  lemma DescriptorMapped(m: Memory, a: nat)
    requires LoadDescriptor(m, a).Some?
    ensures Mapped(m, a, 4)
  {
    hide Be;
    MappedPart(m, a, 16, a, 4);
  }

  lemma MovesLayout(f: Fw, d: Descriptor)
    ensures SameLayout(f.mem, Moves(f, d).mem)
  {
    hide Read, Write, Ahead, WriteItem;
    WriteItemMemory(f);
    WriteLayout(f.mem, d.addr, Ahead(f, d.length));
  }

  lemma WriteItemMemory(f: Fw)
    ensures forall data :: WriteItem(f, data).mem == f.mem
    ensures SameLayout(f.mem, f.mem)
  {
  }

  lemma LayoutKeeps(m: Memory, m': Memory, a: nat, n: nat)
    requires SameLayout(m, m')
    ensures Mapped(m', a, n) == Mapped(m, a, n)
    ensures Disjoint(m) ==> Disjoint(m')
  {
    FindSameLayout(m, m', a, n, 0);
  }

  /** Whatever a descriptor asks for, its control word reads zero afterwards: that is how the guest sees it done. */
  lemma DmaCompletes(f: Fw, a: nat)
    requires f.hasMem && Disjoint(f.mem) && LoadDescriptor(f.mem, a).Some?
    ensures Read(ProcessDma(f, a).mem, a, 4) == Some(Zeros(4))
  {
    hide Read, Write, Mapped, Disjoint, LoadDescriptor, Moves;
    var d := LoadDescriptor(f.mem, a).value;
    var g := Moves(Prepared(f, d), d);
    DescriptorMapped(f.mem, a);
    MovesLayout(Prepared(f, d), d);
    LayoutKeeps(f.mem, g.mem, a, 4);
    WriteReadBack(g.mem, a, Zeros(4));
  }

  // ----- writes into items

  /** A DMA write changes the covered bytes of its own file, as far as they exist, and nothing else. */
  lemma WriteItemStores(f: Fw, data: ByteString, sel: nat, p: nat)
    requires IsFile(f.files, sel) && p < |Item(f, sel)|
    ensures var g := WriteItem(f, data);
            && |Item(g, sel)| == |Item(f, sel)|
            && Item(g, sel)[p] ==
                 if sel == f.selector && f.offset <= p < f.offset + |data| then data[p - f.offset] else Item(f, sel)[p]
  {
  }

  // ----- the directory

  function Entry(i: nat, file: File): (b: ByteString)
    ensures |b| == 64
  {
    BeBytes(|file.data|, 4) + BeBytes(FIRST_FILE + i, 2) + Zeros(2) + Padded(file.name, 0, 56)
  }

  function Entries(files: seq<File>, i: nat): (b: ByteString)
    requires i <= |files|
    ensures |b| == 64 * (|files| - i)
    decreases |files| - i
  {
    if i == |files| then [] else Entry(i, files[i]) + Entries(files, i + 1)
  }

  function BuildDir(files: seq<File>): ByteString {
    BeBytes(|files|, 4) + Entries(files, 0)
  }

  datatype DirEntry = DirEntry(name: ByteString, size: nat, select: nat)

  /** A name ends at its first NUL, or with its field. */
  function Name(b: ByteString): ByteString {
    if b == [] || b[0] == 0 then [] else [b[0]] + Name(b[1..])
  }

  function DecodeEntry(b: ByteString): DirEntry
    requires |b| == 64
  {
    DirEntry(Name(b[8..64]), Be(b[0..4]), Be(b[4..6]))
  }

  /** The guest's reading of a directory: a count, then one 64-byte record per file. */
  function DecodeDir(b: ByteString): Option<seq<DirEntry>> {
    if |b| < 4 || |b| < 4 + 64 * Be(b[0..4]) then None
    else Some(seq(Be(b[0..4]), i requires 0 <= i < Be(b[0..4]) => DecodeEntry(b[4 + 64 * i..4 + 64 * i + 64])))
  }

  /** Files a directory can describe: sizes, selectors and names that fit their fields. */
  ghost predicate Listable(files: seq<File>) {
    && |files| <= 0x1_0000 - FIRST_FILE
    && forall i :: 0 <= i < |files| ==> FileFits(files[i])
  }

  ghost predicate FileFits(file: File) {
    |file.data| < UINT32 && |file.name| <= 56 && forall j :: 0 <= j < |file.name| ==> file.name[j] != 0
  }

  lemma {:induction false} NameOfPadded(name: ByteString, n: nat)
    requires |name| <= n && forall j :: 0 <= j < |name| ==> name[j] != 0
    ensures Name(Padded(name, 0, n)) == name
    decreases |name|
  {
    var b := Padded(name, 0, n);
    if name != [] {
      assert b[1..] == Padded(name[1..], 0, n - 1);
      NameOfPadded(name[1..], n - 1);
      assert name == [name[0]] + name[1..];
    }
  }

  lemma EntryDecodes(i: nat, file: File)
    requires FileFits(file) && FIRST_FILE + i < 0x1_0000
    ensures DecodeEntry(Entry(i, file)) == DirEntry(file.name, |file.data|, FIRST_FILE + i)
  {
    hide BeBytes, Be, Padded, Name, Pow256;
    Pow256Values();
    var b := Entry(i, file);
    assert b[0..4] == BeBytes(|file.data|, 4);
    assert b[4..6] == BeBytes(FIRST_FILE + i, 2);
    assert b[8..64] == Padded(file.name, 0, 56);
    BeRoundTrip(|file.data|, 4);
    BeRoundTrip(FIRST_FILE + i, 2);
    NameOfPadded(file.name, 56);
  }

  lemma {:induction false} EntriesAt(files: seq<File>, i: nat, j: nat)
    requires i <= j < |files|
    ensures Entries(files, i)[64 * (j - i)..64 * (j - i) + 64] == Entry(j, files[j])
    decreases j - i
  {
    hide Entry;
    var b := Entries(files, i);
    if i == j {
      assert b[0..64] == Entry(i, files[i]);
    } else {
      var rest := Entries(files, i + 1);
      EntriesAt(files, i + 1, j);
      assert b[64 * (j - i)..64 * (j - i) + 64] == rest[64 * (j - i) - 64..64 * (j - i)];
    }
  }

  /** Decoding the directory gives every file's name, its size and the selector that serves it. */
  lemma DirectoryDecodes(files: seq<File>)
    requires Listable(files)
    ensures var dir := DecodeDir(BuildDir(files));
            && dir.Some? && |dir.value| == |files|
            && forall i :: 0 <= i < |files| ==> dir.value[i] == DirEntry(files[i].name, |files[i].data|, FIRST_FILE + i)
  {
    hide Entry, DecodeEntry, BeBytes, Be, FileFits, Pow256;
    Pow256Values();
    var b := BuildDir(files);
    assert b[0..4] == BeBytes(|files|, 4);
    BeRoundTrip(|files|, 4);
    forall i | 0 <= i < |files|
      ensures DecodeEntry(b[4 + 64 * i..4 + 64 * i + 64]) == DirEntry(files[i].name, |files[i].data|, FIRST_FILE + i)
    {
      EntriesAt(files, 0, i);
      assert b[4 + 64 * i..4 + 64 * i + 64] == Entries(files, 0)[64 * i..64 * i + 64];
      EntryDecodes(i, files[i]);
    }
  }

  /** The same names and sizes, whatever the contents. */
  ghost predicate SameShape(files: seq<File>, files': seq<File>) {
    |files'| == |files|
    && forall i :: 0 <= i < |files| ==> files'[i].name == files[i].name && |files'[i].data| == |files[i].data|
  }

  lemma {:induction false} SameEntries(files: seq<File>, files': seq<File>, i: nat)
    requires SameShape(files, files') && i <= |files|
    ensures Entries(files', i) == Entries(files, i)
    decreases |files| - i
  {
    if i < |files| {
      SameEntries(files, files', i + 1);
    }
  }

  lemma StepKeepsShape(f: Fw, e: Event)
    ensures SameShape(f.files, Step(f, e).files) && Step(f, e).dir == f.dir
  {
    hide Read, Write, LoadDescriptor, Reversed, Ahead, Le, SelectorOf;
  }

  /** Over any run, DMA writes included, the directory served is the directory of the files served. */
  lemma {:induction false} RunKeepsDirectory(f: Fw, es: seq<Event>)
    requires f.dir == BuildDir(f.files)
    ensures var g := Run(f, es); SameShape(f.files, g.files) && g.dir == BuildDir(g.files)
    decreases |es|
  {
    hide Step;
    if es != [] {
      var f1 := Step(f, es[0]);
      StepKeepsShape(f, es[0]);
      SameEntries(f.files, f1.files, 0);
      RunKeepsDirectory(f1, es[1..]);
    }
  }

  /** In every reachable state: look a file up in the directory, and its selector serves that many bytes of that file. */
  lemma DirectoryServes(f: Fw, es: seq<Event>, i: nat)
    requires f.dir == BuildDir(f.files) && Listable(f.files) && i < |f.files|
    ensures var g := Run(f, es);
            var dir := DecodeDir(Item(g, DIRECTORY));
            && dir.Some? && |dir.value| == |g.files| == |f.files|
            && dir.value[i].name == f.files[i].name
            && Item(g, dir.value[i].select) == g.files[i].data && |g.files[i].data| == dir.value[i].size
  {
    hide BuildDir, DecodeDir, Run;
    var g := Run(f, es);
    RunKeepsDirectory(f, es);
    ShapeListable(f.files, g.files);
    DirectoryDecodes(g.files);
  }

  lemma ShapeListable(files: seq<File>, files': seq<File>)
    requires Listable(files) && SameShape(files, files')
    ensures Listable(files')
  {
  }

  // ----- the device as an object

  lemma {:induction false} LeSnoc(b: ByteString, x: Byte)
    ensures Le(b + [x]) == Le(b) + x * Pow256(|b|)
    decreases |b|
  {
    if b == [] {
      assert ([] + [x])[1..] == [];
    } else {
      assert (b + [x])[1..] == b[1..] + [x];
      LeSnoc(b[1..], x);
      Spread(x, Pow256(|b| - 1));
    }
  }

  lemma PaddedNext(data: ByteString, off: nat, n: nat)
    ensures Padded(data, off, n + 1) == Padded(data, off, n) + [if off + n < |data| then data[off + n] else 0]
  {
  }

  class FwCfgDevice {
    const mem: Machine
    const hasMem: bool
    var selector: nat
    var offset: nat
    var dmaHi: nat
    var files: seq<File>
    var dir: ByteString

    /** The fields as one value. */
    function Abs(): Fw
      reads this, mem
    {
      Fw(mem.regions, hasMem, selector, offset, dmaHi, files, dir)
    }

    constructor (m: Machine, reachable: bool, contents: seq<File>)
      ensures mem == m && Abs() == Fw(m.regions, reachable, 0, 0, 0, contents, BuildDir(contents))
    {
      mem, hasMem := m, reachable;
      selector, offset, dmaHi := 0, 0, 0;
      files := contents;
      new;
      dir := BuildDirectory(contents);
    }

    static method BuildDirectory(files: seq<File>) returns (b: ByteString)
      ensures b == BuildDir(files)
    {
      hide Entry, BeBytes;
      b := BeBytes(|files|, 4);
      var i := 0;
      while i < |files|
        invariant i <= |files|
        invariant b + Entries(files, i) == BuildDir(files)
      {
        assert b + (Entry(i, files[i]) + Entries(files, i + 1)) == b + Entry(i, files[i]) + Entries(files, i + 1);
        b := b + Entry(i, files[i]);
        i := i + 1;
      }
      assert b + [] == b;
    }

    /** The byte at the offset, zero past the end; moves the offset. */
    method NextByte(data: ByteString) returns (b: Byte)
      modifies `offset
      ensures offset == old(offset) + 1
      ensures b == if old(offset) < |data| then data[old(offset)] else 0
    {
      b := if offset < |data| then data[offset] else 0;
      offset := offset + 1;
    }

    method ReadBus(off: nat, bytes: nat) returns (v: nat)
      requires bytes <= 8
      modifies `offset
      ensures (v, Abs()) == ReadRegister(old(Abs()), off, bytes)
    {
      hide Le, Padded, Item;
      if off != 0 {
        return 0;
      }
      ghost var start := offset;
      var data := Item(Abs(), selector);
      v := 0;
      var i := 0;
      assert Padded(data, start, 0) == [];
      assert Le([]) == 0 by { LeOfBytes([]); }
      while i < bytes
        invariant i <= bytes && offset == start + i
        invariant v == Le(Padded(data, start, i))
      {
        PaddedNext(data, start, i);
        var b := NextByte(data);
        LeSnoc(Padded(data, start, i), b);
        v := v + b * Pow256(i);
        i := i + 1;
      }
    }

    /** Collects the next `n` bytes of the selected item. */
    method Collect(n: nat) returns (buf: ByteString)
      modifies `offset
      ensures buf == Ahead(old(Abs()), n) && offset == old(offset) + n
    {
      hide Padded, Item;
      ghost var start := offset;
      var data := Item(Abs(), selector);
      buf := [];
      var i := 0;
      assert Padded(data, start, 0) == [];
      while i < n
        invariant i <= n && offset == start + i
        invariant buf == Padded(data, start, i)
      {
        PaddedNext(data, start, i);
        var b := NextByte(data);
        buf := buf + [b];
        i := i + 1;
      }
    }

    method StoreItem(data: ByteString)
      modifies `offset, `files
      ensures Abs() == WriteItem(old(Abs()), data)
    {
      if !IsFile(files, selector) {
        return;
      }
      var i := selector - FIRST_FILE;
      var was := files[i].data;
      if offset < |was| {
        var n := Min(|data|, |was| - offset);
        files := files[i := files[i].(data := was[..offset] + data[..n] + was[offset + n..])];
        offset := offset + n;
      }
    }

    method Transfer(d: Descriptor)
      modifies `offset, `files, mem
      ensures Abs() == Moves(old(Abs()), d)
    {
      hide Read, Write, Ahead, WriteItem;
      if d.Reads() {
        var buf := Collect(d.length);
        var _ := mem.WriteGuest(d.addr, buf);
      } else if d.Writes() {
        var buf := mem.ReadGuest(d.addr, d.length);
        if buf.Some? {
          StoreItem(buf.value);
        }
      } else if d.Skips() {
        offset := offset + d.length;
      }
    }

    method RunDma(a: nat)
      modifies `selector, `offset, `files, mem
      ensures Abs() == ProcessDma(old(Abs()), a)
    {
      hide Read, Write, Moves, Be;
      if !hasMem {
        return;
      }
      var raw := mem.ReadGuest(a, 16);
      if raw.None? {
        return;
      }
      var d := Descriptor(Be(raw.value[0..4]), Be(raw.value[4..8]), Be(raw.value[8..16]));
      if d.Selects() {
        selector, offset := d.control / 0x1_0000, 0;
      }
      Transfer(d);
      var _ := mem.WriteGuest(a, Zeros(4));
    }

    method WriteBus(off: nat, bytes: nat, val: nat)
      modifies `selector, `offset, `dmaHi, `files, mem
      ensures Abs() == WriteRegister(old(Abs()), off, bytes, val)
    {
      hide ProcessDma, Reversed, SelectorOf;
      if off == 0x08 {
        selector, offset := SelectorOf(val), 0;
      } else if off == 0x10 && bytes == 8 {
        RunDma(Reversed(val, 8));
      } else if off == 0x10 {
        dmaHi := Reversed(val, 4);
      } else if off == 0x14 {
        RunDma(dmaHi * UINT32 + Reversed(val, 4));
      }
    }
  }
}
