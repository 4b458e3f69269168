/** Flattened device trees: the serializer, and a reader written from the Devicetree Specification v0.4, sections 5.2 to 5.5. */
module DeviceTree {
  import opened Bytes
  import opened Endian

  datatype Prop = Prop(name: ByteString, val: ByteString)
  datatype Node = Node(name: ByteString, props: seq<Prop>, kids: seq<Node>)

  const MAGIC: nat := 0xd00dfeed
  const BEGIN_NODE: nat := 1
  const END_NODE: nat := 2
  const PROP: nat := 3
  const END: nat := 9
  const VERSION: nat := 17
  const COMP_VERSION: nat := 16
  const HEADER: nat := 40

  // ----- the serializer

  /** The two growing blocks and the table of strings already stored. */
  datatype Out = Out(st: ByteString, strs: ByteString, offs: map<ByteString, nat>)

  function Pad4(b: ByteString): (r: ByteString)
    ensures b <= r && |r| == (|b| + 3) / 4 * 4
  {
    b + Zeros((|b| + 3) / 4 * 4 - |b|)
  }

  function Tok(o: Out, t: nat): Out {
    o.(st := o.st + BeBytes(t, 4))
  }

  /** The offset of a property name in the strings block, stored on first use. */
  function StrOff(o: Out, name: ByteString): (Out, nat) {
    if name in o.offs then (o, o.offs[name])
    else
      var at := |o.strs| % 0x1_0000_0000;
      (o.(strs := o.strs + name + [0], offs := o.offs[name := at]), at)
  }

  function EmitProp(o: Out, p: Prop): Out {
    var o1 := Tok(Tok(o, PROP), |p.val|);
    var (o2, at) := StrOff(o1, p.name);
    var o3 := Tok(o2, at);
    o3.(st := Pad4(o3.st + p.val))
  }

  function EmitProps(o: Out, props: seq<Prop>): Out
    decreases props
  {
    if props == [] then o else EmitProps(EmitProp(o, props[0]), props[1..])
  }

  function OpenNode(o: Out, name: ByteString): Out {
    var o1 := Tok(o, BEGIN_NODE);
    o1.(st := Pad4(o1.st + (name + [0])))
  }

  function EmitNode(o: Out, n: Node): Out
    decreases n, 1
  {
    Tok(EmitKids(EmitProps(OpenNode(o, n.name), n.props), n.kids), END_NODE)
  }

  function EmitKids(o: Out, kids: seq<Node>): Out
    decreases kids, 0
  {
    if kids == [] then o else EmitKids(EmitNode(o, kids[0]), kids[1..])
  }

  const EMPTY := Out([], [], map[])

  /** Both blocks of a whole tree. */
  function Emitted(n: Node): Out {
    Tok(EmitNode(EMPTY, n), END)
  }

  function StructOffset(): nat { HEADER + 16 }

  /** The header, section 5.2. */
  function Header(st: ByteString, strs: ByteString): (h: ByteString)
    ensures |h| == HEADER
  {
    BeBytes(MAGIC, 4) + BeBytes(StructOffset() + |st| + |strs|, 4) + BeBytes(StructOffset(), 4)
    + BeBytes(StructOffset() + |st|, 4) + BeBytes(HEADER, 4) + BeBytes(VERSION, 4) + BeBytes(COMP_VERSION, 4)
    + BeBytes(0, 4) + BeBytes(|strs|, 4) + BeBytes(|st|, 4)
  }

  function Blob(o: Out): ByteString {
    Header(o.st, o.strs) + Zeros(16) + o.st + o.strs
  }

  /** All sizes and offsets fit the 32-bit fields. */
  predicate Fits(n: Node) {
    StructOffset() + |Emitted(n).st| + |Emitted(n).strs| < 0x1_0000_0000
  }

  // ----- the reader

  // Tokens and offsets are those of the specification: 1 begins a node, 2 ends it, 3 is a property, 4 is skipped, 9 ends the block.

  function Word(s: ByteString, pos: nat): Option<nat> {
    if pos + 4 <= |s| then Some(Be(s[pos..pos + 4])) else None
  }

  /** The bytes up to the next NUL. */
  function CString(s: ByteString, pos: nat): (r: Option<ByteString>)
    ensures r.Some? ==> pos + |r.value| < |s|
    decreases |s| - pos
  {
    if pos >= |s| then None
    else if s[pos] == 0 then Some([])
    else match CString(s, pos + 1)
      case Some(rest) => Some([s[pos]] + rest)
      case None => None
  }

  function Align4(n: nat): (r: nat)
    ensures n <= r
  {
    (n + 3) / 4 * 4
  }

  function SkipNops(s: ByteString, pos: nat): (r: nat)
    ensures pos <= r
    decreases |s| - pos
  {
    if Word(s, pos) == Some(4) then SkipNops(s, pos + 4) else pos
  }

  /** Section 5.4.2: length, name offset into the strings block, value, padding. */
  function ReadProp(s: ByteString, strs: ByteString, pos: nat): (r: Option<(Prop, nat)>)
    ensures r.Some? ==> pos < r.value.1
  {
    match (Word(s, pos + 4), Word(s, pos + 8))
    case (Some(len), Some(at)) =>
      if pos + 12 + len > |s| then None
      else (match CString(strs, at)
            case Some(name) => Some((Prop(name, s[pos + 12..pos + 12 + len]), Align4(pos + 12 + len)))
            case None => None)
    case _ => None
  }

  function ReadProps(s: ByteString, strs: ByteString, at: nat): (r: Option<(seq<Prop>, nat)>)
    ensures r.Some? ==> at <= r.value.1
    decreases |s| - at
  {
    var pos := SkipNops(s, at);
    if Word(s, pos) != Some(3) then Some(([], pos))
    else match ReadProp(s, strs, pos)
      case None => None
      case Some((p, next)) =>
        match ReadProps(s, strs, next)
        case Some((rest, end)) => Some(([p] + rest, end))
        case None => None
  }

  /** Section 5.4.2: a node is its name, then its properties, then its children. */
  function ReadNode(s: ByteString, strs: ByteString, at: nat): (r: Option<(Node, nat)>)
    ensures r.Some? ==> at < r.value.1
    decreases |s| - at, 1
  {
    var pos := SkipNops(s, at);
    if Word(s, pos) != Some(1) then None
    else match CString(s, pos + 4)
      case None => None
      case Some(name) =>
        match ReadProps(s, strs, Align4(pos + 4 + |name| + 1))
        case None => None
        case Some((props, p1)) =>
          match ReadKids(s, strs, p1)
          case None => None
          case Some((kids, p2)) =>
            if Word(s, p2) == Some(2) then Some((Node(name, props, kids), p2 + 4)) else None
  }

  function ReadKids(s: ByteString, strs: ByteString, at: nat): (r: Option<(seq<Node>, nat)>)
    ensures r.Some? ==> at <= r.value.1
    decreases |s| - at, 2
  {
    var pos := SkipNops(s, at);
    if Word(s, pos) != Some(1) then Some(([], pos))
    else match ReadNode(s, strs, pos)
      case None => None
      case Some((kid, next)) =>
        match ReadKids(s, strs, next)
        case Some((rest, end)) => Some(([kid] + rest, end))
        case None => None
  }

  /** The memory reservation block, section 5.3: 16-byte entries up to one that is all zero. */
  predicate ReservationsEnd(b: ByteString, at: nat)
    decreases |b| - at
  {
    at % 8 == 0 && at + 16 <= |b| && (b[at..at + 16] == Zeros(16) || ReservationsEnd(b, at + 16))
  }

  function Slice(b: ByteString, at: nat, n: nat): Option<ByteString> {
    if at + n <= |b| then Some(b[at..at + n]) else None
  }

  /** The header, section 5.2: the tree, and the processor that boots. */
  function ReadBlob(b: ByteString): Option<(Node, nat)> {
    if |b| < 40 || Word(b, 0) != Some(0xd00dfeed) || Word(b, 4) != Some(|b|) || Word(b, 24).value > 17 then None
    else if Word(b, 20).value < Word(b, 24).value || !ReservationsEnd(b, Word(b, 16).value) then None
    else match (Slice(b, Word(b, 8).value, Word(b, 36).value), Slice(b, Word(b, 12).value, Word(b, 32).value))
      case (Some(s), Some(strs)) =>
        if Word(b, 8).value % 4 != 0 then None
        else (match ReadNode(s, strs, 0)
              case Some((n, end)) =>
                var fin := SkipNops(s, end);
                if Word(s, fin) == Some(9) && fin + 4 == |s| then Some((n, Word(b, 28).value)) else None
              case None => None)
      case _ => None
  }

  // ----- reading back what was written

  predicate NulFree(b: ByteString) { forall i :: 0 <= i < |b| ==> b[i] != 0 }

  predicate NamesNulFree(n: Node)
    decreases n
  {
    && NulFree(n.name) && (forall i :: 0 <= i < |n.props| ==> NulFree(n.props[i].name))
    && forall i :: 0 <= i < |n.kids| ==> NamesNulFree(n.kids[i])
  }

  ghost predicate NamedAt(strs: ByteString, name: ByteString, at: nat) {
    at + |name| < |strs| && strs[at..at + |name|] == name && strs[at + |name|] == 0
  }

  /** Every name in the table is at its offset, followed by a NUL. */
  ghost predicate TableOk(o: Out) {
    forall name :: name in o.offs ==> NamedAt(o.strs, name, o.offs[name])
  }

  lemma NamedAtGrows(strs: ByteString, more: ByteString, name: ByteString, at: nat)
    requires NamedAt(strs, name, at) && strs <= more
    ensures NamedAt(more, name, at)
  {
    assert more[at..at + |name|] == strs[at..at + |name|];
  }

  lemma NamedAtEnd(strs: ByteString, name: ByteString)
    ensures NamedAt(strs + name + [0], name, |strs|)
  {
    assert (strs + name + [0])[|strs|..|strs| + |name|] == name;
  }

  lemma PrefixTrans(a: ByteString, b: ByteString, c: ByteString)
    requires a <= b && b <= c
    ensures a <= c
  {
    assert a == b[..|a|] == c[..|a|];
  }

  lemma WordAfter(a: ByteString, v: nat, s: ByteString)
    requires a + BeBytes(v, 4) <= s && v < 0x1_0000_0000
    ensures Word(s, |a|) == Some(v)
  {
    Pow256Values();
    BeRoundTrip(v, 4);
    assert s[|a|..|a| + 4] == (a + BeBytes(v, 4))[|a|..|a| + 4] == BeBytes(v, 4);
  }

  lemma {:induction false} CStringAt(s: ByteString, pos: nat, name: ByteString)
    requires NulFree(name) && pos + |name| < |s| && s[pos..pos + |name|] == name && s[pos + |name|] == 0
    ensures CString(s, pos) == Some(name)
    decreases |name|
  {
    if name != [] {
      assert s[pos] == name[0];
      assert s[pos + 1..pos + |name|] == name[1..];
      CStringAt(s, pos + 1, name[1..]);
      assert name == [name[0]] + name[1..];
    }
  }

  /** The structure block is aligned and the string table is right. */
  ghost predicate Good(o: Out) {
    |o.st| % 4 == 0 && TableOk(o)
  }

  /** Both blocks only grow. */
  ghost predicate Grows(o: Out, o': Out) {
    o.st <= o'.st && o.strs <= o'.strs
  }

  /** The blocks `s` and `strs` that are read begin with what `o` has emitted. */
  ghost predicate Within(o: Out, s: ByteString, strs: ByteString) {
    o.st <= s && o.strs <= strs && |s| < 0x1_0000_0000 && |strs| < 0x1_0000_0000
  }

  lemma StrOffGood(o: Out, name: ByteString)
    requires TableOk(o) && |o.strs| < 0x1_0000_0000
    ensures var (o', at) := StrOff(o, name);
            && TableOk(o') && o'.st == o.st && o.strs <= o'.strs
            && name in o'.offs && o'.offs[name] == at
  {
    hide NamedAt;
    if name !in o.offs {
      var strs := o.strs + name + [0];
      NamedAtEnd(o.strs, name);
      forall k | k in o.offs ensures NamedAt(strs, k, o.offs[k]) {
        NamedAtGrows(o.strs, strs, k, o.offs[k]);
      }
    }
  }

  lemma TableReads(o: Out, name: ByteString, strs: ByteString)
    requires TableOk(o) && name in o.offs && NulFree(name) && o.strs <= strs
    ensures CString(strs, o.offs[name]) == Some(name)
  {
    assert NamedAt(o.strs, name, o.offs[name]);
    NamedAtGrows(o.strs, strs, name, o.offs[name]);
    CStringAt(strs, o.offs[name], name);
  }

  /** The first part of an emitted property: token, length, name offset. */
  function PropHead(o: Out, p: Prop): ByteString {
    o.st + BeBytes(PROP, 4) + BeBytes(|p.val|, 4) + BeBytes(StrOff(o, p.name).1, 4)
  }

  lemma EmitPropShape(o: Out, p: Prop)
    ensures var o' := EmitProp(o, p);
            && o'.st == Pad4(PropHead(o, p) + p.val) && o'.strs == StrOff(o, p.name).0.strs && o'.offs == StrOff(o, p.name).0.offs
            && |PropHead(o, p)| == |o.st| + 12
  {
    hide Pad4, BeBytes;
  }

  lemma TableSame(o: Out, o': Out)
    requires TableOk(o) && o'.strs == o.strs && o'.offs == o.offs
    ensures TableOk(o')
  {
  }

  lemma PropHeadGrows(o: Out, p: Prop)
    ensures o.st <= PropHead(o, p)
  {
    hide BeBytes, StrOff;
    PrefixTrans(o.st, o.st + BeBytes(PROP, 4), o.st + BeBytes(PROP, 4) + BeBytes(|p.val|, 4));
  }

  lemma EmitPropGood(o: Out, p: Prop)
    requires TableOk(o) && |o.strs| < 0x1_0000_0000
    ensures Good(EmitProp(o, p)) && Grows(o, EmitProp(o, p))
  {
    hide EmitProp, PropHead, StrOff, TableOk, Pad4;
    EmitPropShape(o, p);
    StrOffGood(o, p.name);
    TableSame(StrOff(o, p.name).0, EmitProp(o, p));
    var head := PropHead(o, p);
    PropHeadGrows(o, p);
    PrefixTrans(o.st, head, head + p.val);
    PrefixTrans(o.st, head + p.val, Pad4(head + p.val));
  }

  lemma PropHeadWords(o: Out, p: Prop, s: ByteString)
    requires PropHead(o, p) <= s && |p.val| < 0x1_0000_0000 && StrOff(o, p.name).1 < 0x1_0000_0000
    ensures Word(s, |o.st|) == Some(PROP)
    ensures Word(s, |o.st| + 4) == Some(|p.val|)
    ensures Word(s, |o.st| + 8) == Some(StrOff(o, p.name).1)
  {
    hide BeBytes, StrOff, Word;
    var a := o.st;
    var b := a + BeBytes(PROP, 4);
    var c := b + BeBytes(|p.val|, 4);
    assert b <= PropHead(o, p) && c <= PropHead(o, p);
    WordAfter(a, PROP, s);
    WordAfter(b, |p.val|, s);
    WordAfter(c, StrOff(o, p.name).1, s);
  }

  /** One property is read back. */
  lemma PropReads(o: Out, p: Prop, s: ByteString, strs: ByteString)
    requires Good(o) && |o.strs| < 0x1_0000_0000 && NulFree(p.name) && Within(EmitProp(o, p), s, strs)
    ensures Word(s, |o.st|) == Some(PROP)
    ensures ReadProp(s, strs, |o.st|) == Some((p, |EmitProp(o, p).st|))
  {
    hide EmitProp, StrOff, Word, CString, PropHead, TableOk, Pad4;
    EmitPropShape(o, p);
    StrOffGood(o, p.name);
    var head := PropHead(o, p);
    PrefixTrans(head + p.val, Pad4(head + p.val), s);
    PrefixTrans(head, head + p.val, s);
    TableReads(StrOff(o, p.name).0, p.name, strs);
    TableBounds(StrOff(o, p.name).0, p.name);
    PropHeadWords(o, p, s);
    ValueAfter(head, p.val, s);
  }

  lemma TableBounds(o: Out, name: ByteString)
    requires TableOk(o) && name in o.offs
    ensures o.offs[name] < |o.strs|
  {
    assert NamedAt(o.strs, name, o.offs[name]);
  }

  lemma ValueAfter(a: ByteString, v: ByteString, s: ByteString)
    requires a + v <= s
    ensures s[|a|..|a| + |v|] == v
  {
    assert s[|a|..|a| + |v|] == (a + v)[|a|..];
  }

  lemma {:induction false} EmitPropsGood(o: Out, props: seq<Prop>)
    requires Good(o) && |EmitProps(o, props).strs| < 0x1_0000_0000
    ensures Good(EmitProps(o, props)) && Grows(o, EmitProps(o, props))
    decreases props
  {
    hide EmitProp, TableOk;
    if props != [] {
      PropGrows(o, props[0]);
      PropsGrow(EmitProp(o, props[0]), props[1..]);
      EmitPropGood(o, props[0]);
      EmitPropsGood(EmitProp(o, props[0]), props[1..]);
    }
  }

  lemma NoNop(s: ByteString, pos: nat)
    requires Word(s, pos) != Some(4)
    ensures SkipNops(s, pos) == pos
  {
  }

  /** A list of properties is read back, up to a token that is not a property. */
  lemma {:induction false} PropsRead(o: Out, props: seq<Prop>, s: ByteString, strs: ByteString)
    requires Good(o) && Within(EmitProps(o, props), s, strs)
    requires forall i :: 0 <= i < |props| ==> NulFree(props[i].name)
    requires var next := Word(s, |EmitProps(o, props).st|); next == Some(BEGIN_NODE) || next == Some(END_NODE)
    ensures ReadProps(s, strs, |o.st|) == Some((props, |EmitProps(o, props).st|))
    decreases props
  {
    hide EmitProp, TableOk, Word, ReadProp;
    if props == [] {
      NoNop(s, |o.st|);
    } else {
      var o1 := EmitProp(o, props[0]);
      PropGrows(o, props[0]);
      PropsGrow(o1, props[1..]);
      EmitPropGood(o, props[0]);
      EmitPropsGood(o1, props[1..]);
      PropReads(o, props[0], s, strs);
      NoNop(s, |o.st|);
      PropsRead(o1, props[1..], s, strs);
      assert props == [props[0]] + props[1..];
    }
  }

  // ----- whole nodes

  lemma GrowsTrans(a: Out, b: Out, c: Out)
    requires Grows(a, b) && Grows(b, c)
    ensures Grows(a, c)
  {
    PrefixTrans(a.st, b.st, c.st);
    PrefixTrans(a.strs, b.strs, c.strs);
  }

  lemma PropGrows(o: Out, p: Prop)
    ensures Grows(o, EmitProp(o, p))
  {
    hide EmitProp, PropHead, Pad4;
    EmitPropShape(o, p);
    PropHeadGrows(o, p);
    var head := PropHead(o, p);
    PrefixTrans(o.st, head, head + p.val);
    PrefixTrans(o.st, head + p.val, Pad4(head + p.val));
    PrefixTrans(o.strs, o.strs + p.name, o.strs + p.name + [0]);
  }

  lemma {:induction false} PropsGrow(o: Out, props: seq<Prop>)
    ensures Grows(o, EmitProps(o, props))
    decreases props
  {
    hide EmitProp, Grows;
    if props == [] {
      assert Grows(o, o) by { GrowsSelf(o); }
    } else {
      PropGrows(o, props[0]);
      PropsGrow(EmitProp(o, props[0]), props[1..]);
      GrowsTrans(o, EmitProp(o, props[0]), EmitProps(o, props));
    }
  }

  lemma GrowsSelf(o: Out)
    ensures Grows(o, o)
  {
  }

  lemma TokGrows(o: Out, t: nat)
    ensures Grows(o, Tok(o, t))
  {
    hide BeBytes;
  }

  lemma OpenGrows(o: Out, name: ByteString)
    ensures Grows(o, OpenNode(o, name)) && |OpenNode(o, name).st| == Align4(|o.st| + 4 + |name| + 1)
    ensures o.st + BeBytes(BEGIN_NODE, 4) <= OpenNode(o, name).st
    ensures o.st + BeBytes(BEGIN_NODE, 4) + (name + [0]) <= OpenNode(o, name).st
    ensures OpenNode(o, name).strs == o.strs && OpenNode(o, name).offs == o.offs
  {
    hide BeBytes, Pad4;
    var head := o.st + BeBytes(BEGIN_NODE, 4);
    PrefixTrans(o.st, head, head + (name + [0]));
    PrefixTrans(head, head + (name + [0]), Pad4(head + (name + [0])));
    PrefixTrans(o.st, head, Pad4(head + (name + [0])));
  }

  lemma {:induction false} NodeGrows(o: Out, n: Node)
    ensures Grows(o, EmitNode(o, n))
    decreases n, 1
  {
    hide OpenNode, EmitProps, Tok, Grows;
    var o1 := OpenNode(o, n.name);
    var o2 := EmitProps(o1, n.props);
    var o3 := EmitKids(o2, n.kids);
    OpenGrows(o, n.name);
    PropsGrow(o1, n.props);
    KidsGrow(o2, n.kids);
    TokGrows(o3, END_NODE);
    GrowsTrans(o, o1, o2);
    GrowsTrans(o, o2, o3);
    GrowsTrans(o, o3, Tok(o3, END_NODE));
  }

  lemma {:induction false} KidsGrow(o: Out, kids: seq<Node>)
    ensures Grows(o, EmitKids(o, kids))
    decreases kids, 0
  {
    hide Grows;
    if kids == [] {
      GrowsSelf(o);
    } else {
      NodeGrows(o, kids[0]);
      KidsGrow(EmitNode(o, kids[0]), kids[1..]);
      GrowsTrans(o, EmitNode(o, kids[0]), EmitKids(o, kids));
    }
  }

  lemma WithinEarlier(a: Out, b: Out, s: ByteString, strs: ByteString)
    requires Grows(a, b) && Within(b, s, strs)
    ensures Within(a, s, strs)
  {
    PrefixTrans(a.st, b.st, s);
    PrefixTrans(a.strs, b.strs, strs);
  }

  lemma TokGood(o: Out, t: nat)
    requires Good(o)
    ensures Good(Tok(o, t))
  {
    hide BeBytes;
  }

  lemma OpenGood(o: Out, name: ByteString)
    requires Good(o)
    ensures Good(OpenNode(o, name))
  {
    hide OpenNode, TableOk;
    OpenGrows(o, name);
    TableSame(o, OpenNode(o, name));
  }

  lemma {:induction false} NodeGood(o: Out, n: Node, s: ByteString, strs: ByteString)
    requires Good(o) && Within(EmitNode(o, n), s, strs)
    ensures Good(EmitNode(o, n))
    decreases n, 1
  {
    hide OpenNode, EmitProps, Tok, Grows, Good;
    var o1 := OpenNode(o, n.name);
    var o2 := EmitProps(o1, n.props);
    var o3 := EmitKids(o2, n.kids);
    TokGrows(o3, END_NODE);
    WithinEarlier(o3, EmitNode(o, n), s, strs);
    KidsGrow(o2, n.kids);
    WithinEarlier(o2, o3, s, strs);
    OpenGood(o, n.name);
    EmitPropsGood(o1, n.props);
    KidsGood(o2, n.kids, s, strs);
    TokGood(o3, END_NODE);
  }

  lemma {:induction false} KidsGood(o: Out, kids: seq<Node>, s: ByteString, strs: ByteString)
    requires Good(o) && Within(EmitKids(o, kids), s, strs)
    ensures Good(EmitKids(o, kids))
    decreases kids, 0
  {
    hide Grows, Good, Within;
    if kids != [] {
      var o1 := EmitNode(o, kids[0]);
      KidsGrow(o1, kids[1..]);
      WithinEarlier(o1, EmitKids(o1, kids[1..]), s, strs);
      NodeGood(o, kids[0], s, strs);
      KidsGood(o1, kids[1..], s, strs);
    }
  }

  lemma WordWithin(a: ByteString, v: nat, b: ByteString, s: ByteString)
    requires a + BeBytes(v, 4) <= b <= s && v < 0x1_0000_0000
    ensures Word(s, |a|) == Some(v)
  {
    hide BeBytes, Word;
    PrefixTrans(a + BeBytes(v, 4), b, s);
    WordAfter(a, v, s);
  }

  /** A node starts with its token. */
  lemma NodeStarts(o: Out, n: Node, s: ByteString, strs: ByteString)
    requires Within(EmitNode(o, n), s, strs)
    ensures Word(s, |o.st|) == Some(BEGIN_NODE)
  {
    hide OpenNode, EmitProps, EmitKids, BeBytes, Word, Tok;
    var o1 := OpenNode(o, n.name);
    var o2 := EmitProps(o1, n.props);
    var o3 := EmitKids(o2, n.kids);
    OpenGrows(o, n.name);
    PropsGrow(o1, n.props);
    KidsGrow(o2, n.kids);
    TokGrows(o3, END_NODE);
    WithinEarlier(o3, EmitNode(o, n), s, strs);
    WithinEarlier(o2, o3, s, strs);
    WithinEarlier(o1, o2, s, strs);
    WordWithin(o.st, BEGIN_NODE, o1.st, s);
  }

  lemma TokReads(o: Out, t: nat, s: ByteString, strs: ByteString)
    requires Within(Tok(o, t), s, strs) && t < 0x1_0000_0000
    ensures Word(s, |o.st|) == Some(t) && |Tok(o, t).st| == |o.st| + 4
  {
    hide BeBytes, Word;
    WordAfter(o.st, t, s);
  }

  /** What follows the properties of a node is a child or the end of the node. */
  lemma AfterProps(o: Out, kids: seq<Node>, s: ByteString, strs: ByteString)
    requires Within(Tok(EmitKids(o, kids), END_NODE), s, strs)
    ensures var next := Word(s, |o.st|); next == Some(BEGIN_NODE) || next == Some(END_NODE)
  {
    hide BeBytes, Word, EmitNode, Tok;
    if kids == [] {
      TokReads(o, END_NODE, s, strs);
    } else {
      var o1 := EmitNode(o, kids[0]);
      var o3 := EmitKids(o1, kids[1..]);
      TokGrows(o3, END_NODE);
      KidsGrow(o1, kids[1..]);
      WithinEarlier(o3, Tok(o3, END_NODE), s, strs);
      WithinEarlier(o1, o3, s, strs);
      NodeStarts(o, kids[0], s, strs);
    }
  }

  lemma NameReads(o: Out, name: ByteString, s: ByteString, strs: ByteString)
    requires Within(OpenNode(o, name), s, strs) && NulFree(name)
    ensures Word(s, |o.st|) == Some(BEGIN_NODE)
    ensures CString(s, |o.st| + 4) == Some(name)
  {
    hide OpenNode, BeBytes, Word, CString;
    OpenGrows(o, name);
    var head := o.st + BeBytes(BEGIN_NODE, 4);
    WordWithin(o.st, BEGIN_NODE, OpenNode(o, name).st, s);
    PrefixTrans(head + (name + [0]), OpenNode(o, name).st, s);
    ValueAfter(head, name + [0], s);
    assert s[|head|..|head| + |name|] == (name + [0])[..|name|] == name;
    assert s[|head| + |name|] == (name + [0])[|name|];
    CStringAt(s, |head|, name);
  }

  /** A node is read back from where it was emitted, wherever that is. */
  lemma {:induction false} NodeReads(o: Out, n: Node, s: ByteString, strs: ByteString)
    requires Good(o) && NamesNulFree(n) && Within(EmitNode(o, n), s, strs)
    ensures ReadNode(s, strs, |o.st|) == Some((n, |EmitNode(o, n).st|))
    decreases n, 1
  {
    hide OpenNode, EmitProps, EmitKids, Tok, Good, Word, ReadProps, ReadKids, CString, Within, Grows;
    var o1 := OpenNode(o, n.name);
    var o2 := EmitProps(o1, n.props);
    var o3 := EmitKids(o2, n.kids);
    OpenGrows(o, n.name);
    PropsGrow(o1, n.props);
    KidsGrow(o2, n.kids);
    TokGrows(o3, END_NODE);
    WithinEarlier(o3, EmitNode(o, n), s, strs);
    WithinEarlier(o2, o3, s, strs);
    WithinEarlier(o1, o2, s, strs);
    OpenGood(o, n.name);
    NameReads(o, n.name, s, strs);
    NoNop(s, |o.st|);
    AfterProps(o2, n.kids, s, strs);
    PropsRead(o1, n.props, s, strs);
    WithinBound(o2, s, strs);
    EmitPropsGood(o1, n.props);
    TokReads(o3, END_NODE, s, strs);
    KidsRead(o2, n.kids, s, strs);
  }

  lemma WithinBound(o: Out, s: ByteString, strs: ByteString)
    requires Within(o, s, strs)
    ensures |o.strs| < 0x1_0000_0000
  {
  }

  lemma {:induction false} KidsRead(o: Out, kids: seq<Node>, s: ByteString, strs: ByteString)
    requires Good(o) && (forall i :: 0 <= i < |kids| ==> NamesNulFree(kids[i]))
    requires Within(EmitKids(o, kids), s, strs) && Word(s, |EmitKids(o, kids).st|) == Some(END_NODE)
    ensures ReadKids(s, strs, |o.st|) == Some((kids, |EmitKids(o, kids).st|))
    decreases kids, 0
  {
    hide EmitNode, Good, Word, ReadNode, Within, Grows;
    if kids == [] {
      NoNop(s, |o.st|);
    } else {
      var o1 := EmitNode(o, kids[0]);
      KidsGrow(o1, kids[1..]);
      WithinEarlier(o1, EmitKids(o1, kids[1..]), s, strs);
      NodeStarts(o, kids[0], s, strs);
      NoNop(s, |o.st|);
      NodeReads(o, kids[0], s, strs);
      NodeGood(o, kids[0], s, strs);
      KidsRead(o1, kids[1..], s, strs);
      assert kids == [kids[0]] + kids[1..];
    }
  }

  // ----- the whole blob

  lemma HeaderParts(st: ByteString, strs: ByteString, b: ByteString)
    requires Header(st, strs) <= b && StructOffset() + |st| + |strs| < 0x1_0000_0000
    ensures Word(b, 0) == Some(MAGIC) && Word(b, 4) == Some(StructOffset() + |st| + |strs|)
    ensures Word(b, 8) == Some(StructOffset()) && Word(b, 12) == Some(StructOffset() + |st|)
  {
    hide BeBytes, Word;
    var h := Header(st, strs);
    var h1 := BeBytes(MAGIC, 4);
    var h2 := h1 + BeBytes(StructOffset() + |st| + |strs|, 4);
    var h3 := h2 + BeBytes(StructOffset(), 4);
    var h4 := h3 + BeBytes(StructOffset() + |st|, 4);
    assert [] + h1 == h1;
    assert h1 <= h && h2 <= h && h3 <= h && h4 <= h;
    WordWithin([], MAGIC, h, b);
    WordWithin(h1, StructOffset() + |st| + |strs|, h, b);
    WordWithin(h2, StructOffset(), h, b);
    WordWithin(h3, StructOffset() + |st|, h, b);
  }

  lemma HeaderRest(st: ByteString, strs: ByteString, b: ByteString)
    requires Header(st, strs) <= b && StructOffset() + |st| + |strs| < 0x1_0000_0000
    ensures Word(b, 16) == Some(HEADER) && Word(b, 20) == Some(VERSION) && Word(b, 24) == Some(COMP_VERSION)
    ensures Word(b, 28) == Some(0) && Word(b, 32) == Some(|strs|) && Word(b, 36) == Some(|st|)
  {
    hide BeBytes, Word;
    var h := Header(st, strs);
    var h4 := BeBytes(MAGIC, 4) + BeBytes(StructOffset() + |st| + |strs|, 4) + BeBytes(StructOffset(), 4) + BeBytes(StructOffset() + |st|, 4);
    var h5 := h4 + BeBytes(HEADER, 4);
    var h6 := h5 + BeBytes(VERSION, 4);
    var h7 := h6 + BeBytes(COMP_VERSION, 4);
    var h8 := h7 + BeBytes(0, 4);
    var h9 := h8 + BeBytes(|strs|, 4);
    assert h9 + BeBytes(|st|, 4) == h;
    assert h5 <= h && h6 <= h && h7 <= h && h8 <= h && h9 <= h;
    WordWithin(h4, HEADER, h, b);
    WordWithin(h5, VERSION, h, b);
    WordWithin(h6, COMP_VERSION, h, b);
    WordWithin(h7, 0, h, b);
    WordWithin(h8, |strs|, h, b);
    WordWithin(h9, |st|, h, b);
  }

  lemma BlobParts(o: Out)
    ensures var b := Blob(o);
            && Header(o.st, o.strs) <= b && |b| == StructOffset() + |o.st| + |o.strs|
            && b[HEADER..HEADER + 16] == Zeros(16)
            && Slice(b, StructOffset(), |o.st|) == Some(o.st)
            && Slice(b, StructOffset() + |o.st|, |o.strs|) == Some(o.strs)
  {
    hide Header;
    var h := Header(o.st, o.strs);
    var b := Blob(o);
    assert b[..HEADER] == h;
    assert b[HEADER..HEADER + 16] == Zeros(16);
    assert b[StructOffset()..StructOffset() + |o.st|] == o.st;
    assert b[StructOffset() + |o.st|..StructOffset() + |o.st| + |o.strs|] == o.strs;
  }

  /** The structure block of a tree reads back as the tree, end token included, and is made of whole words. */
  lemma {:induction false} StructureReads(n: Node)
    requires NamesNulFree(n) && Fits(n)
    ensures var o := Emitted(n);
            && ReadNode(o.st, o.strs, 0) == Some((n, |o.st| - 4))
            && Word(o.st, |o.st| - 4) == Some(END) && |o.st| % 4 == 0
  {
    hide EmitNode, ReadNode, Word, TableOk, BeBytes;
    var e, o := EmitNode(EMPTY, n), Emitted(n);
    assert Good(EMPTY) by { EmptyGood(); }
    TokGrows(e, END);
    assert Within(o, o.st, o.strs);
    WithinEarlier(e, o, o.st, o.strs);
    NodeReads(EMPTY, n, o.st, o.strs);
    NodeGood(EMPTY, n, o.st, o.strs);
    TokReads(e, END, o.st, o.strs);
  }

  lemma EmptyGood()
    ensures Good(EMPTY)
  {
  }

  /**
   * A reader that follows the specification gets back the very tree, for every tree whose names
   * hold no NUL and whose blob fits 32-bit sizes: names through the shared strings block, values,
   * order and nesting included, and processor 0 to boot. Every offset and size in the header is exact.
   */
  lemma {:induction false} MarshalRoundTrip(n: Node)
    requires NamesNulFree(n) && Fits(n)
    ensures ReadBlob(Blob(Emitted(n))) == Some((n, 0))
    ensures Word(Blob(Emitted(n)), 20) == Some(17) && Word(Blob(Emitted(n)), 24) == Some(16)
    ensures |Emitted(n).st| % 4 == 0
  {
    hide Emitted, Blob, Header, Word, ReadNode, Slice;
    var o := Emitted(n);
    BlobParts(o);
    HeaderParts(o.st, o.strs, Blob(o));
    HeaderRest(o.st, o.strs, Blob(o));
    StructureReads(n);
    NoNop(o.st, |o.st| - 4);
  }

  // ----- property values

  /** Cells: 32-bit big-endian words. */
  function Cells(vs: seq<nat>): ByteString {
    if vs == [] then [] else BeBytes(vs[0], 4) + Cells(vs[1..])
  }

  function ReadCells(b: ByteString): seq<nat> {
    if |b| < 4 then [] else [Be(b[..4])] + ReadCells(b[4..])
  }

  lemma {:induction false} CellsRoundTrip(vs: seq<nat>)
    requires forall i :: 0 <= i < |vs| ==> vs[i] < 0x1_0000_0000
    ensures ReadCells(Cells(vs)) == vs
  {
    if vs != [] {
      Pow256Values();
      BeRoundTrip(vs[0], 4);
      CellsRoundTrip(vs[1..]);
      assert Cells(vs)[..4] == BeBytes(vs[0], 4) && Cells(vs)[4..] == Cells(vs[1..]);
    }
  }

  /** Address and size values: 64 bits each, most significant byte first. */
  function RegCells(vs: seq<nat>): ByteString {
    if vs == [] then [] else BeBytes(vs[0], 8) + RegCells(vs[1..])
  }

  /** A reader that takes two cells for each value, the high one first. */
  function ReadPairs(b: ByteString): seq<nat> {
    if |b| < 8 then [] else [Be(b[..4]) * 0x1_0000_0000 + Be(b[4..8])] + ReadPairs(b[8..])
  }

  lemma BeLast(b: ByteString)
    requires b != []
    ensures Be(b) == 256 * Be(b[..|b| - 1]) + b[|b| - 1] && Pow256(|b|) == 256 * Pow256(|b| - 1)
  {
  }

  lemma {:induction false} BeConcat(a: ByteString, b: ByteString)
    ensures Be(a + b) == Be(a) * Pow256(|b|) + Be(b)
    decreases |b|
  {
    if b == [] {
      assert a + b == a;
    } else {
      hide Be, Pow256;
      var b' := b[..|b| - 1];
      assert (a + b)[..|a + b| - 1] == a + b';
      BeLast(a + b);
      BeLast(b);
      BeConcat(a, b');
      Spread(Be(a), Pow256(|b'|));
    }
  }

  lemma {:induction false} RegCellsRoundTrip(vs: seq<nat>)
    requires forall i :: 0 <= i < |vs| ==> vs[i] < 0x1_0000_0000_0000_0000
    ensures ReadPairs(RegCells(vs)) == vs
  {
    hide Be, BeBytes, Pow256;
    if vs != [] {
      Pow256Values();
      var w, b := BeBytes(vs[0], 8), RegCells(vs);
      BeRoundTrip(vs[0], 8);
      BeConcat(w[..4], w[4..]);
      assert w[..4] + w[4..] == w;
      assert b[..4] == w[..4] && b[4..8] == w[4..] && b[8..] == RegCells(vs[1..]);
      RegCellsRoundTrip(vs[1..]);
    }
  }

  /** A string list: each string followed by a NUL. */
  function StringList(ss: seq<ByteString>): ByteString {
    if ss == [] then [] else ss[0] + [0] + StringList(ss[1..])
  }

  function ReadStrings(b: ByteString, at: nat): seq<ByteString>
    decreases |b| - at
  {
    match CString(b, at)
    case Some(s) => [s] + ReadStrings(b, at + |s| + 1)
    case None => []
  }

  lemma {:induction false} StringListRoundTrip(before: ByteString, ss: seq<ByteString>)
    requires forall i :: 0 <= i < |ss| ==> NulFree(ss[i])
    ensures ReadStrings(before + StringList(ss), |before|) == ss
    decreases |ss|
  {
    hide NulFree, CString;
    if ss != [] {
      StringHeads(before, ss[0], StringList(ss[1..]));
      StringListRoundTrip(before + ss[0] + [0], ss[1..]);
      assert before + StringList(ss) == before + ss[0] + [0] + StringList(ss[1..]);
    } else {
      StringsEnd(before);
      assert before + StringList(ss) == before;
    }
  }

  lemma StringHeads(before: ByteString, s: ByteString, rest: ByteString)
    requires NulFree(s)
    ensures CString(before + s + [0] + rest, |before|) == Some(s)
  {
    var b := before + s + [0] + rest;
    assert b[|before|..|before| + |s|] == s;
    CStringAt(b, |before|, s);
  }

  lemma StringsEnd(b: ByteString)
    ensures CString(b, |b|) == None
  {
  }

  // ----- the program's serializer

  class Serializer {
    var st: ByteString
    var strs: ByteString
    var offs: map<ByteString, nat>

    ghost function Abs(): Out
      reads this
    {
      Out(st, strs, offs)
    }

    constructor ()
      ensures Abs() == EMPTY
    {
      st, strs, offs := [], [], map[];
    }

    method EmitToken(t: nat)
      modifies this`st
      ensures Abs() == Tok(old(Abs()), t)
    {
      st := st + BeBytes(t, 4);
    }

    method PadStructure()
      modifies this`st
      ensures st == Pad4(old(st))
    {
      ghost var was := st;
      while |st| % 4 != 0
        invariant was <= st && |st| <= (|was| + 3) / 4 * 4
        invariant forall i :: |was| <= i < |st| ==> st[i] == 0
        decreases (|was| + 3) / 4 * 4 - |st|
      {
        st := st + [0];
      }
      assert st == Pad4(was);
    }

    method StringOffset(name: ByteString) returns (o: nat)
      modifies this`strs, this`offs
      ensures (Abs(), o) == StrOff(old(Abs()), name)
    {
      if name in offs {
        return offs[name];
      }
      o := |strs| % 0x1_0000_0000;
      offs := offs[name := o];
      strs := strs + name + [0];
    }

    method EmitProperty(p: Prop)
      modifies this
      ensures Abs() == EmitProp(old(Abs()), p)
    {
      EmitToken(PROP);
      EmitToken(|p.val|);
      var at := StringOffset(p.name);
      EmitToken(at);
      st := st + p.val;
      PadStructure();
    }

    method Emit(n: Node)
      modifies this
      ensures Abs() == EmitNode(old(Abs()), n)
      decreases n
    {
      hide EmitProp, Tok;
      ghost var o1 := OpenNode(Abs(), n.name);
      EmitToken(BEGIN_NODE);
      st := st + (n.name + [0]);
      PadStructure();
      assert Abs() == o1 by { OpenIsTokenThenName(old(Abs()), n.name); }
      for i := 0 to |n.props|
        invariant EmitProps(o1, n.props) == EmitProps(Abs(), n.props[i..])
      {
        assert n.props[i..][0] == n.props[i] && n.props[i..][1..] == n.props[i + 1..];
        EmitProperty(n.props[i]);
      }
      ghost var o2 := Abs();
      for i := 0 to |n.kids|
        invariant EmitKids(o2, n.kids) == EmitKids(Abs(), n.kids[i..])
      {
        assert n.kids[i..][0] == n.kids[i] && n.kids[i..][1..] == n.kids[i + 1..];
        Emit(n.kids[i]);
      }
      EmitToken(END_NODE);
    }

    /** The blob of the tree rooted at `n`; sizes must fit the 32-bit header fields. */
    method Marshal(n: Node) returns (out: ByteString)
      requires Abs() == EMPTY && Fits(n)
      modifies this
      ensures out == Blob(Emitted(n))
      ensures NamesNulFree(n) ==> ReadBlob(out) == Some((n, 0))
    {
      Emit(n);
      EmitToken(END);
      out := Header(st, strs) + Zeros(16) + st + strs;
      if NamesNulFree(n) {
        MarshalRoundTrip(n);
      }
    }
  }

  lemma OpenIsTokenThenName(o: Out, name: ByteString)
    ensures OpenNode(o, name) == Out(Pad4(Tok(o, BEGIN_NODE).st + (name + [0])), o.strs, o.offs)
  {
  }
}
