/** Remote image names: the reference grammar, the hand-written recognizers, and parsing back what is printed. */
module RemoteNames {
  import opened Bytes
  import opened Strings

  // ----- the grammar

  predicate NameByte(c: char) {
    'a' <= c <= 'z' || 'A' <= c <= 'Z' || '0' <= c <= '9'
  }

  predicate Separator(c: char) {
    c == '.' || c == '-' || c == '_'
  }

  /** The letters and digits of the grammar by their ASCII codes, and its separators. */
  lemma Alphabet(c: char)
    ensures NameByte(c) <==> 0x61 <= c as int <= 0x7A || 0x41 <= c as int <= 0x5A || 0x30 <= c as int <= 0x39
    ensures Separator(c) <==> c as int == 0x2E || c as int == 0x2D || c as int == 0x5F
  {
  }

  /** name: (LETTER | DIGIT)+ */
  ghost predicate Name(s: string) {
    s != "" && forall i :: 0 <= i < |s| ==> NameByte(s[i])
  }

  /** port: DIGIT+ */
  ghost predicate Port(s: string) {
    s != "" && forall i :: 0 <= i < |s| ==> '0' <= s[i] <= '9'
  }

  /** host_component: name ('-' name)* */
  ghost predicate HostComponent(s: string)
    decreases |s|
  {
    Name(s) || exists i :: 0 <= i < |s| && s[i] == '-' && Name(s[..i]) && HostComponent(s[i + 1..])
  }

  /** host: host_component ('.' host_component)* */
  ghost predicate Host(s: string)
    decreases |s|
  {
    HostComponent(s) || exists i :: 0 <= i < |s| && s[i] == '.' && HostComponent(s[..i]) && Host(s[i + 1..])
  }

  /** tag: name (separator name)* */
  ghost predicate Tag(s: string)
    decreases |s|
  {
    Name(s) || exists i :: 0 <= i < |s| && Separator(s[i]) && Name(s[..i]) && Tag(s[i + 1..])
  }

  /** name separator? */
  ghost predicate Unit(s: string) {
    Name(s) || (s != "" && Separator(s[|s| - 1]) && Name(s[..|s| - 1]))
  }

  /** namespace_component: (name separator?)+ */
  ghost predicate NamespaceComponent(s: string)
    decreases |s|
  {
    Unit(s) || exists i :: 0 < i < |s| && Unit(s[..i]) && NamespaceComponent(s[i..])
  }

  /** namespace: namespace_component ('/' namespace_component)* */
  ghost predicate Namespace(s: string)
    decreases |s|
  {
    NamespaceComponent(s) || exists i :: 0 <= i < |s| && s[i] == '/' && NamespaceComponent(s[..i]) && Namespace(s[i + 1..])
  }

  // ----- the recognizers' own conditions

  /** Only names and separators, no two separators together, a name byte first. */
  ghost predicate Spaced(s: string) {
    && s != "" && NameByte(s[0])
    && (forall i :: 0 <= i < |s| ==> NameByte(s[i]) || Separator(s[i]))
    && (forall i :: 0 < i < |s| ==> !(Separator(s[i]) && Separator(s[i - 1])))
  }

  /** The first separator, or the length. */
  ghost function FirstSeparator(s: string): (i: nat)
    ensures i <= |s| && (i < |s| ==> Separator(s[i])) && forall k :: 0 <= k < i ==> !Separator(s[k])
  {
    if s == "" || Separator(s[0]) then 0 else 1 + FirstSeparator(s[1..])
  }

  lemma SpacedSplits(s: string, i: nat)
    requires Spaced(s) && i == FirstSeparator(s)
    ensures Name(s[..i])
    ensures i + 1 < |s| ==> Spaced(s[i + 1..])
  {
    assert i > 0;
  }

  /** The first separator is where a tag must be divided. */
  lemma TagStep(s: string)
    ensures var i := FirstSeparator(s);
            Tag(s) <==> Name(s[..i]) && (i == |s| || Tag(s[i + 1..]))
  {
    var i := FirstSeparator(s);
    if i == |s| {
      assert s[..i] == s;
    } else {
      assert !Name(s) by { assert !NameByte(s[i]); }
      if Tag(s) {
        var j :| 0 <= j < |s| && Separator(s[j]) && Name(s[..j]) && Tag(s[j + 1..]);
        SeparatorUnique(s, i, j);
      }
    }
  }

  lemma SeparatorUnique(s: string, i: nat, j: nat)
    requires i == FirstSeparator(s) && i < |s| && j < |s| && Separator(s[j]) && Name(s[..j])
    ensures i == j
  {
    assert i < j ==> !NameByte(s[..j][i]);
  }

  lemma SpacedStep(s: string)
    ensures var i := FirstSeparator(s);
            (Spaced(s) && NameByte(s[|s| - 1])) <==>
              Name(s[..i]) && (i == |s| || (Spaced(s[i + 1..]) && NameByte(s[i + 1..][|s| - i - 2])))
  {
    hide FirstSeparator;
    var i := FirstSeparator(s);
    if Spaced(s) {
      SpacedSplits(s, i);
    }
    if i < |s| && Name(s[..i]) && Spaced(s[i + 1..]) {
      JoinSpaced(s, i);
    }
    if i == |s| {
      assert s[..i] == s;
    }
  }

  lemma {:induction false} TagIsSpaced(s: string)
    ensures Tag(s) <==> Spaced(s) && NameByte(s[|s| - 1])
    decreases |s|
  {
    hide Tag, Spaced, Name;
    var i := FirstSeparator(s);
    TagStep(s);
    SpacedStep(s);
    if i < |s| {
      TagIsSpaced(s[i + 1..]);
    }
  }

  lemma JoinSpaced(s: string, i: nat)
    requires i < |s| && Separator(s[i]) && Name(s[..i]) && Spaced(s[i + 1..])
    ensures Spaced(s) && s[|s| - 1] == s[i + 1..][|s| - i - 2]
  {
    var a, b := s[..i], s[i + 1..];
    assert forall k :: 0 <= k < i ==> s[k] == a[k];
    assert forall k :: i < k < |s| ==> s[k] == b[k - i - 1];
    forall k | 0 < k < |s| ensures !(Separator(s[k]) && Separator(s[k - 1])) {
      if k < i { assert NameByte(a[k]); }
      else if k == i { assert NameByte(a[k - 1]); }
      else if k == i + 1 { assert NameByte(b[0]); }
      else { assert !(Separator(b[k - i - 1]) && Separator(b[k - i - 2])); }
    }
  }

  lemma {:induction false} ComponentIsSpaced(s: string)
    ensures NamespaceComponent(s) <==> Spaced(s)
    decreases |s|
  {
    if NamespaceComponent(s) {
      if Unit(s) {
        UnitSpaced(s);
      } else {
        var i :| 0 < i < |s| && Unit(s[..i]) && NamespaceComponent(s[i..]);
        ComponentIsSpaced(s[i..]);
        JoinUnit(s, i);
      }
    }
    if Spaced(s) {
      var i := FirstSeparator(s);
      SpacedSplits(s, i);
      if i == |s| {
        assert s[..i] == s;
      } else if i + 1 == |s| {
        assert Unit(s);
      } else {
        ComponentIsSpaced(s[i + 1..]);
        assert s[..i + 1][..i] == s[..i];
        assert Unit(s[..i + 1]);
      }
    }
  }

  lemma UnitSpaced(s: string)
    requires Unit(s)
    ensures Spaced(s)
  {
    if !Name(s) {
      var a := s[..|s| - 1];
      assert forall k :: 0 <= k < |s| - 1 ==> s[k] == a[k];
    }
  }

  lemma JoinUnit(s: string, i: nat)
    requires 0 < i < |s| && Unit(s[..i]) && Spaced(s[i..])
    ensures Spaced(s)
  {
    var a, b := s[..i], s[i..];
    UnitSpaced(a);
    assert forall k :: 0 <= k < i ==> s[k] == a[k];
    assert forall k :: i <= k < |s| ==> s[k] == b[k - i];
    forall k | 0 < k < |s| ensures !(Separator(s[k]) && Separator(s[k - 1])) {
      if k < i { assert !(Separator(a[k]) && Separator(a[k - 1])); }
      else if k == i { assert NameByte(b[0]); }
      else { assert !(Separator(b[k - i]) && Separator(b[k - i - 1])); }
    }
  }

  // ----- splitting at a byte

  lemma ConsAll(x: string, rest: seq<string>, p: string -> bool)
    ensures (forall y :: y in [x] + rest ==> p(y)) <==> p(x) && forall y :: y in rest ==> p(y)
  {
    assert x in [x] + rest;
    assert forall y :: y in rest ==> y in [x] + rest;
  }

  lemma OneAll(x: string, p: string -> bool)
    ensures (forall y :: y in [x] ==> p(y)) <==> p(x)
  {
    assert x in [x];
  }

  lemma DashUnique(s: string, j: nat)
    requires j < |s| && s[j] == '-' && Name(s[..j])
    ensures j == Find(s, '-')
  {
    NameFree(s[..j], '-');
    FindUnique(s, '-', j);
  }

  lemma NotName(s: string, i: nat)
    requires i < |s| && !NameByte(s[i])
    ensures !Name(s)
  {
  }

  /** The first '-' is where a host component must be divided. */
  lemma ComponentStep(s: string)
    ensures var i := Find(s, '-');
            HostComponent(s) <==> Name(s[..i]) && (i == |s| || HostComponent(s[i + 1..]))
  {
    hide Name, Find;
    var i := Find(s, '-');
    if i == |s| {
      assert s[..i] == s;
    } else {
      NotName(s, i);
      if HostComponent(s) {
        var j :| 0 <= j < |s| && s[j] == '-' && Name(s[..j]) && HostComponent(s[j + 1..]);
        DashUnique(s, j);
      }
    }
  }

  lemma {:induction false} ComponentParts(s: string)
    ensures HostComponent(s) <==> forall p :: p in Split(s, '-') ==> Name(p)
    decreases |s|
  {
    hide HostComponent, Name;
    var i := Find(s, '-');
    ComponentStep(s);
    if i < |s| {
      ComponentParts(s[i + 1..]);
      ConsAll(s[..i], Split(s[i + 1..], '-'), x => Name(x));
    } else {
      assert s[..i] == s;
      OneAll(s, x => Name(x));
    }
  }

  lemma NameFree(s: string, c: char)
    requires Name(s) && !NameByte(c)
    ensures Free(s, c)
  {
  }

  /** All bytes are name bytes or one of these. */
  ghost predicate Over(s: string, extra: string) {
    forall i :: 0 <= i < |s| ==> NameByte(s[i]) || s[i] in extra
  }

  lemma OverJoin(s: string, i: nat, extra: string)
    requires i < |s| && Over(s[..i], extra) && s[i] in extra && Over(s[i + 1..], extra)
    ensures Over(s, extra)
  {
    forall k | 0 <= k < |s| ensures NameByte(s[k]) || s[k] in extra {
      if k < i { assert s[k] == s[..i][k]; }
      else if k > i { assert s[k] == s[i + 1..][k - i - 1]; }
    }
  }

  lemma OverFree(s: string, extra: string, c: char)
    requires Over(s, extra) && !NameByte(c) && c !in extra
    ensures Free(s, c)
  {
  }

  lemma {:induction false} ComponentOver(s: string)
    requires HostComponent(s)
    ensures Over(s, "-") && s != ""
    decreases |s|
  {
    if !Name(s) {
      var i :| 0 <= i < |s| && s[i] == '-' && Name(s[..i]) && HostComponent(s[i + 1..]);
      ComponentOver(s[i + 1..]);
      assert Over(s[..i], "-");
      OverJoin(s, i, "-");
    }
  }

  lemma {:induction false} HostOver(s: string)
    requires Host(s)
    ensures Over(s, ".-") && s != ""
    decreases |s|
  {
    if HostComponent(s) {
      ComponentOver(s);
    } else {
      var i :| 0 <= i < |s| && s[i] == '.' && HostComponent(s[..i]) && Host(s[i + 1..]);
      HostOver(s[i + 1..]);
      ComponentOver(s[..i]);
      OverJoin(s, i, ".-");
    }
  }

  /** The first '.' is where a host must be divided. */
  lemma HostStep(s: string)
    ensures var i := Find(s, '.');
            Host(s) <==> HostComponent(s[..i]) && (i == |s| || Host(s[i + 1..]))
  {
    hide HostComponent, Find, Over;
    var i := Find(s, '.');
    if i == |s| {
      assert s[..i] == s;
    } else {
      assert !HostComponent(s) by { NotComponent(s, i); }
      if Host(s) {
        var j :| 0 <= j < |s| && s[j] == '.' && HostComponent(s[..j]) && Host(s[j + 1..]);
        ComponentOver(s[..j]);
        OverFree(s[..j], "-", '.');
        FindUnique(s, '.', j);
      }
    }
  }

  lemma NotComponent(s: string, i: nat)
    requires i < |s| && s[i] == '.'
    ensures !HostComponent(s)
  {
    if HostComponent(s) {
      ComponentOver(s);
    }
  }

  lemma {:induction false} HostParts(s: string)
    ensures Host(s) <==> forall c :: c in Split(s, '.') ==> HostComponent(c)
    decreases |s|
  {
    hide Host, HostComponent;
    var i := Find(s, '.');
    HostStep(s);
    if i < |s| {
      HostParts(s[i + 1..]);
      ConsAll(s[..i], Split(s[i + 1..], '.'), x => HostComponent(x));
    } else {
      assert s[..i] == s;
      OneAll(s, x => HostComponent(x));
    }
  }

  lemma SpacedOver(s: string)
    requires Spaced(s)
    ensures Over(s, ".-_")
  {
  }

  lemma {:induction false} NamespaceOver(s: string)
    requires Namespace(s)
    ensures Over(s, ".-_/") && s != ""
    decreases |s|
  {
    if NamespaceComponent(s) {
      ComponentIsSpaced(s);
    } else {
      var i :| 0 <= i < |s| && s[i] == '/' && NamespaceComponent(s[..i]) && Namespace(s[i + 1..]);
      NamespaceOver(s[i + 1..]);
      ComponentIsSpaced(s[..i]);
      SpacedOver(s[..i]);
      OverJoin(s, i, ".-_/");
    }
  }

  lemma ComponentFree(s: string)
    requires NamespaceComponent(s)
    ensures Free(s, '/')
  {
    ComponentIsSpaced(s);
    SpacedOver(s);
    OverFree(s, ".-_", '/');
  }

  lemma SlashUnique(s: string, j: nat)
    requires j < |s| && s[j] == '/' && NamespaceComponent(s[..j])
    ensures j == Find(s, '/')
  {
    ComponentFree(s[..j]);
    FindUnique(s, '/', j);
  }

  lemma NotNamespaceComponent(s: string, i: nat)
    requires i < |s| && s[i] == '/'
    ensures !NamespaceComponent(s)
  {
    if NamespaceComponent(s) {
      ComponentFree(s);
    }
  }

  /** The first '/' is where a namespace must be divided. */
  lemma NamespaceStep(s: string)
    ensures var i := Find(s, '/');
            Namespace(s) <==> NamespaceComponent(s[..i]) && (i == |s| || Namespace(s[i + 1..]))
  {
    hide NamespaceComponent, Find;
    var i := Find(s, '/');
    if i == |s| {
      assert s[..i] == s;
    } else {
      NotNamespaceComponent(s, i);
      if Namespace(s) {
        var j :| 0 <= j < |s| && s[j] == '/' && NamespaceComponent(s[..j]) && Namespace(s[j + 1..]);
        SlashUnique(s, j);
      }
    }
  }

  lemma {:induction false} NamespaceParts(s: string)
    ensures Namespace(s) <==> forall c :: c in Split(s, '/') ==> NamespaceComponent(c)
    decreases |s|
  {
    hide Namespace, NamespaceComponent;
    var i := Find(s, '/');
    NamespaceStep(s);
    if i < |s| {
      NamespaceParts(s[i + 1..]);
      ConsAll(s[..i], Split(s[i + 1..], '/'), x => NamespaceComponent(x));
    } else {
      assert s[..i] == s;
      OneAll(s, x => NamespaceComponent(x));
    }
  }

  // ----- the recognizers

  method IsName(s: string) returns (b: bool)
    ensures b <==> Name(s)
  {
    if s == "" {
      return false;
    }
    for i := 0 to |s|
      invariant forall k :: 0 <= k < i ==> NameByte(s[k])
    {
      if !NameByte(s[i]) {
        return false;
      }
    }
    return true;
  }

  method IsDigits(s: string) returns (b: bool)
    ensures b <==> Port(s)
  {
    for i := 0 to |s|
      invariant forall k :: 0 <= k < i ==> '0' <= s[k] <= '9'
    {
      if s[i] < '0' || s[i] > '9' {
        return false;
      }
    }
    return s != "";
  }

  method IsHostComponent(s: string) returns (b: bool)
    ensures b <==> HostComponent(s)
  {
    hide Name, HostComponent;
    ComponentParts(s);
    var parts := Split(s, '-');
    for i := 0 to |parts|
      invariant forall k :: 0 <= k < i ==> Name(parts[k])
    {
      var ok := IsName(parts[i]);
      if !ok {
        assert parts[i] in parts;
        return false;
      }
    }
    return true;
  }

  method IsHost(s: string) returns (b: bool)
    ensures b <==> Host(s)
  {
    hide Host, HostComponent;
    HostParts(s);
    if s == "" {
      EmptyHost();
      return false;
    }
    var components := Split(s, '.');
    for i := 0 to |components|
      invariant forall k :: 0 <= k < i ==> HostComponent(components[k])
    {
      var ok := IsHostComponent(components[i]);
      if !ok {
        assert components[i] in components;
        return false;
      }
    }
    return true;
  }

  lemma EmptyHost()
    ensures !Host("")
  {
    HostStep("");
    ComponentStep("");
  }

  method IsTag(s: string) returns (b: bool)
    ensures b <==> Tag(s)
  {
    hide Tag;
    TagIsSpaced(s);
    if s == "" || !NameByte(s[0]) || !NameByte(s[|s| - 1]) {
      return false;
    }
    for i := 0 to |s|
      invariant forall k :: 0 <= k < i ==> NameByte(s[k]) || Separator(s[k])
      invariant forall k :: 0 < k < i ==> !(Separator(s[k]) && Separator(s[k - 1]))
    {
      if !NameByte(s[i]) && !Separator(s[i]) {
        return false;
      }
      if i > 0 && Separator(s[i]) && Separator(s[i - 1]) {
        return false;
      }
    }
    return true;
  }

  method IsNamespaceComponent(s: string) returns (b: bool)
    ensures b <==> NamespaceComponent(s)
  {
    hide NamespaceComponent;
    ComponentIsSpaced(s);
    if s == "" || !NameByte(s[0]) {
      return false;
    }
    for i := 0 to |s|
      invariant forall k :: 0 <= k < i ==> NameByte(s[k]) || Separator(s[k])
      invariant forall k :: 0 < k < i ==> !(Separator(s[k]) && Separator(s[k - 1]))
    {
      if !NameByte(s[i]) && !Separator(s[i]) {
        return false;
      }
      if i > 0 && Separator(s[i]) && Separator(s[i - 1]) {
        return false;
      }
    }
    return true;
  }

  method IsNamespace(s: string) returns (b: bool)
    ensures b <==> Namespace(s)
  {
    hide Namespace, NamespaceComponent;
    NamespaceParts(s);
    if s == "" {
      EmptyNamespace();
      return false;
    }
    var components := Split(s, '/');
    for i := 0 to |components|
      invariant forall k :: 0 <= k < i ==> NamespaceComponent(components[k])
    {
      var ok := IsNamespaceComponent(components[i]);
      if !ok {
        assert components[i] in components;
        return false;
      }
    }
    return true;
  }

  lemma EmptyNamespace()
    ensures !Namespace("")
  {
    NamespaceStep("");
    ComponentIsSpaced("");
  }

  // ----- whole names

  datatype Reference = TagRef(value: string) | DigestRef(value: string) {
    function FullyQualified(): string {
      match this
      case TagRef(v) => ":" + v
      case DigestRef(v) => "@" + v
    }
  }

  datatype RemoteName = RemoteName(host: string, ns: string, reference: Reference) {
    function Print(): string { host + "/" + ns + reference.FullyQualified() }
  }

  /** host (':' port)? */
  ghost predicate Authority(s: string) {
    Host(s) || exists i :: 0 <= i < |s| && s[i] == ':' && Host(s[..i]) && Port(s[i + 1..])
  }

  /** name ':' name */
  ghost predicate Digest(s: string) {
    exists i :: 0 <= i < |s| && s[i] == ':' && Name(s[..i]) && Name(s[i + 1..])
  }

  /** What may follow the namespace, and what it denotes; nothing denotes the tag "latest". */
  ghost predicate RefersTo(text: string, r: Reference) {
    || (text == "" && r == TagRef("latest"))
    || (r.TagRef? && Tag(r.value) && text == ":" + r.value)
    || (r.DigestRef? && Digest(r.value) && text == "@" + r.value)
  }

  /** root: host (':' port)? '/' namespace reference? */
  ghost predicate Denotes(name: string, n: RemoteName) {
    && Authority(n.host) && Namespace(n.ns)
    && exists text: string :: RefersTo(text, n.reference) && name == n.host + "/" + n.ns + text
  }

  lemma {:induction false} AuthorityFree(s: string)
    requires Authority(s)
    ensures Free(s, '/') && s != ""
  {
    hide Host, Port;
    if Host(s) {
      HostOver(s);
      OverFree(s, ".-", '/');
    } else {
      var i :| 0 <= i < |s| && s[i] == ':' && Host(s[..i]) && Port(s[i + 1..]);
      HostOver(s[..i]);
      OverFree(s[..i], ".-", '/');
      PortFree(s[i + 1..]);
      forall k | 0 <= k < |s| ensures s[k] != '/' {
        if k < i { assert s[k] == s[..i][k]; }
        else if k > i { assert s[k] == s[i + 1..][k - i - 1]; }
      }
    }
  }

  lemma PortFree(s: string)
    requires Port(s)
    ensures Free(s, '/')
  {
  }

  /** The first ':' of an authority is where its port starts. */
  lemma AuthorityStep(s: string)
    ensures var i := Find(s, ':');
            Authority(s) <==> Host(s[..i]) && (i == |s| || Port(s[i + 1..]))
  {
    hide Host, Port, Find;
    var i := Find(s, ':');
    if i == |s| {
      assert s[..i] == s;
    } else {
      NotHost(s, i);
      if Authority(s) {
        var j :| 0 <= j < |s| && s[j] == ':' && Host(s[..j]) && Port(s[j + 1..]);
        ColonUnique(s, j);
      }
    }
  }

  lemma NotHost(s: string, i: nat)
    requires i < |s| && s[i] == ':'
    ensures !Host(s)
  {
    if Host(s) {
      HostOver(s);
      OverFree(s, ".-", ':');
    }
  }

  lemma ColonUnique(s: string, j: nat)
    requires j < |s| && s[j] == ':' && Host(s[..j])
    ensures j == Find(s, ':')
  {
    HostOver(s[..j]);
    OverFree(s[..j], ".-", ':');
    FindUnique(s, ':', j);
  }

  /** Where the reference starts in what follows the first '/': at the first '@', else at the first ':'. */
  function ReferenceStart(rest: string): (i: nat)
    ensures i <= |rest|
  {
    var at := Find(rest, '@');
    if at < |rest| then at else Find(rest, ':')
  }

  /** A namespace followed by a reference is divided where the program divides it. */
  lemma ReferenceDivides(ns: string, text: string, r: Reference)
    requires Namespace(ns) && RefersTo(text, r)
    ensures ReferenceStart(ns + text) == |ns|
  {
    hide Namespace, Tag, Digest, Find;
    NamespaceOver(ns);
    OverFree(ns, ".-_/", '@');
    OverFree(ns, ".-_/", ':');
    var s := ns + text;
    assert s[..|ns|] == ns;
    if text == "" {
      assert s == ns;
      FindAbsent(s, '@');
      FindAbsent(s, ':');
    } else if r.DigestRef? {
      FindUnique(s, '@', |ns|);
    } else {
      TagFree(r.value);
      FreeJoin(ns, text, '@');
      FindAbsent(s, '@');
      FindUnique(s, ':', |ns|);
    }
  }

  lemma FindAbsent(s: string, c: char)
    requires Free(s, c)
    ensures Find(s, c) == |s|
  {
  }

  lemma FreeJoin(a: string, b: string, c: char)
    requires Free(a, c) && Free(b, c)
    ensures Free(a + b, c)
  {
  }

  lemma TagFree(s: string)
    requires Tag(s)
    ensures Free(":" + s, '@')
  {
    TagIsSpaced(s);
    SpacedOver(s);
    OverFree(s, ".-_", '@');
  }

  /** A name is divided at its first '/', whatever it denotes. */
  lemma DenotesDivides(name: string, n: RemoteName, text: string)
    requires Authority(n.host) && Namespace(n.ns) && RefersTo(text, n.reference)
    requires name == n.host + "/" + n.ns + text
    ensures var i := Find(name, '/');
            && i == |n.host| && i < |name|
            && name[..i] == n.host && name[i + 1..] == n.ns + text
            && ReferenceStart(n.ns + text) == |n.ns|
  {
    hide Authority, Namespace, RefersTo, ReferenceStart, Find;
    AuthorityFree(n.host);
    assert name[..|n.host|] == n.host;
    FindUnique(name, '/', |n.host|);
    assert name[|n.host| + 1..] == n.ns + text;
    ReferenceDivides(n.ns, text, n.reference);
  }

  // A name, as the program cuts it.

  predicate HasSlash(name: string) { Find(name, '/') < |name| }

  function HostPart(name: string): string { name[..Find(name, '/')] }

  function RestPart(name: string): string { if HasSlash(name) then name[Find(name, '/') + 1..] else "" }

  function NamespacePart(name: string): string { RestPart(name)[..ReferenceStart(RestPart(name))] }

  function ReferencePart(name: string): string { RestPart(name)[ReferenceStart(RestPart(name))..] }

  /** A name denotes something exactly when the parts it is cut into are in the grammar. */
  ghost predicate PartsDenote(name: string, n: RemoteName) {
    && HasSlash(name) && n.host == HostPart(name) && n.ns == NamespacePart(name)
    && Authority(n.host) && Namespace(n.ns) && RefersTo(ReferencePart(name), n.reference)
  }

  lemma DenotesParts(name: string, n: RemoteName)
    ensures Denotes(name, n) <==> PartsDenote(name, n)
  {
    hide Authority, Namespace, RefersTo, ReferenceStart, Find;
    if Denotes(name, n) {
      var text: string :| RefersTo(text, n.reference) && name == n.host + "/" + n.ns + text;
      DenotesDivides(name, n, text);
      assert (n.ns + text)[..|n.ns|] == n.ns && (n.ns + text)[|n.ns|..] == text;
    }
    if PartsDenote(name, n) {
      CutJoins(name);
    }
  }

  lemma CutAt(s: string, i: nat)
    requires i < |s|
    ensures s == s[..i] + [s[i]] + s[i + 1..]
  {
  }

  lemma RestJoins(name: string)
    requires HasSlash(name)
    ensures RestPart(name) == NamespacePart(name) + ReferencePart(name)
  {
    hide ReferenceStart, Find;
  }

  lemma CutJoins(name: string)
    requires HasSlash(name)
    ensures name == HostPart(name) + "/" + NamespacePart(name) + ReferencePart(name)
  {
    RestJoins(name);
    var i := Find(name, '/');
    hide ReferenceStart, Find, NamespacePart, ReferencePart;
    CutAt(name, i);
    assert [name[i]] == "/";
    assert name == HostPart(name) + "/" + RestPart(name);
  }

  /** A name denotes at most one thing. */
  lemma DenotesOne(name: string, n: RemoteName, n': RemoteName)
    requires Denotes(name, n) && Denotes(name, n')
    ensures n == n'
  {
    hide Authority, Namespace, RefersTo, Denotes, Find, ReferenceStart;
    DenotesParts(name, n);
    DenotesParts(name, n');
    RefersToOne(ReferencePart(name), n.reference, n'.reference);
  }

  lemma RefersToOne(text: string, r: Reference, r': Reference)
    requires RefersTo(text, r) && RefersTo(text, r')
    ensures r == r'
  {
    hide Tag, Digest;
    if text != "" {
      assert r.value == text[1..] && r'.value == text[1..];
    }
  }

  lemma LatestIsTag()
    ensures Tag("latest")
  {
    assert Name("latest");
  }

  /** What any name denotes, printed, denotes the same again: printing and parsing are inverse. */
  lemma PrintedNameDenotes(name: string, n: RemoteName)
    requires Denotes(name, n)
    ensures Denotes(n.Print(), n)
  {
    hide Tag, Digest, Authority, Namespace;
    LatestIsTag();
    assert RefersTo(n.reference.FullyQualified(), n.reference);
    assert n.Print() == n.host + "/" + n.ns + n.reference.FullyQualified();
  }

  /** The program supports one kind of digest only. */
  predicate Supported(r: Reference) {
    r.DigestRef? ==> |r.value| >= 7 && r.value[..7] == "sha256:"
  }

  /** In the header's grammar, and supported. */
  ghost predicate Accepts(name: string, n: RemoteName) {
    Denotes(name, n) && Supported(n.reference)
  }

  lemma OtherDigest(d: string)
    requires d == "sha512:ab"
    ensures Name(d[..6]) && Name(d[7..]) && d[6] == ':' && d[..7] != "sha256:" && Digest(d)
  {
    assert d[..6] == "sha512" && d[7..] == "ab";
    assert Name(d[..6]) && Name(d[6 + 1..]);
    assert d[..7] != "sha256:" by { assert d[..7][3] != "sha256:"[3]; }
  }

  lemma OtherDigestDenoted(d: string)
    requires Digest(d)
    ensures Denotes("h/n@" + d, RemoteName("h", "n", DigestRef(d)))
  {
    hide Digest;
    assert Name("h") && Name("n");
    assert Authority("h") && Namespace("n");
    assert RefersTo("@" + d, DigestRef(d));
    assert "h/n@" + d == "h" + "/" + "n" + ("@" + d);
  }

  /** A digest of another kind is in the grammar, and not supported. */
  lemma OtherDigestsAreRefused()
    ensures var n := RemoteName("h", "n", DigestRef("sha512:ab"));
            Denotes("h/n@sha512:ab", n) && forall x :: !Accepts("h/n@sha512:ab", x)
  {
    hide Denotes, Digest, Name;
    var d := "sha512:ab";
    var name, n := "h/n@sha512:ab", RemoteName("h", "n", DigestRef(d));
    OtherDigest(d);
    OtherDigestDenoted(d);
    assert name == "h/n@" + d;
    forall x | Denotes(name, x) ensures !Supported(x.reference) {
      DenotesOne(name, x, n);
    }
  }

  method IsDigest(s: string) returns (b: bool)
    ensures b <==> Digest(s) && Supported(DigestRef(s))
  {
    hide Name, Find, Digest;
    var colon := Find(s, ':');
    DigestCut(s, colon);
    if colon == |s| {
      return false;
    }
    var a := IsName(s[..colon]);
    var h := IsName(s[colon + 1..]);
    b := a && h && |s| >= 7 && s[..7] == "sha256:";
  }

  lemma NameColon(s: string, i: nat)
    requires i < |s| && s[i] == ':' && Name(s[..i])
    ensures Find(s, ':') == i
  {
    NameFree(s[..i], ':');
    FindUnique(s, ':', i);
  }

  lemma DigestCut(s: string, colon: nat)
    requires colon == Find(s, ':')
    ensures Digest(s) <==> colon < |s| && Name(s[..colon]) && Name(s[colon + 1..])
  {
    hide Name, Find;
    if Digest(s) {
      var i :| 0 <= i < |s| && s[i] == ':' && Name(s[..i]) && Name(s[i + 1..]);
      NameColon(s, i);
    }
  }

  /** host (':' port)?, rebuilt as the program rebuilds it. */
  method IsAuthority(authority: string) returns (b: bool)
    ensures b <==> Authority(authority)
  {
    hide Host, Port, Authority, Find;
    AuthorityStep(authority);
    var colon := Find(authority, ':');
    b := IsHost(authority[..colon]);
    if b && colon < |authority| {
      b := IsDigits(authority[colon + 1..]);
    }
  }

  /** Accepts exactly the names of the grammar whose digest, if any, is supported, and returns what they denote. */
  method NewRemoteName(name: string) returns (r: Option<RemoteName>)
    ensures r.Some? ==> Accepts(name, r.value) && Accepts(r.value.Print(), r.value)
    ensures r.None? ==> forall n :: !Accepts(name, n)
    ensures forall n :: Accepts(name, n) ==> r == Some(n)
  {
    hide Authority, Namespace, RefersTo, Denotes, ReferenceStart, Find;
    r := ParseParts(name);
    if r.Some? {
      PrintedNameDenotes(name, r.value);
      forall n | Accepts(name, n) ensures r == Some(n) {
        DenotesOne(name, n, r.value);
      }
    }
  }

  method ParseParts(name: string) returns (r: Option<RemoteName>)
    ensures r.Some? ==> Accepts(name, r.value)
    ensures r.None? ==> forall n :: !Accepts(name, n)
  {
    hide Authority, Namespace, RefersTo, Denotes, ReferenceStart, Find;
    forall n ensures Denotes(name, n) <==> PartsDenote(name, n) {
      DenotesParts(name, n);
    }
    var slash := Find(name, '/');
    if slash == |name| {
      return None;
    }
    var authority, rest := name[..slash], name[slash + 1..];
    var start := ReferenceStart(rest);
    var ns, text := rest[..start], rest[start..];
    var okHost := IsAuthority(authority);
    var okNamespace := IsNamespace(ns);
    if !okHost || !okNamespace {
      return None;
    }
    var reference := ParseReference(text);
    if reference.None? {
      return None;
    }
    return Some(RemoteName(authority, ns, reference.value));
  }

  method ParseReference(text: string) returns (r: Option<Reference>)
    ensures r.Some? ==> RefersTo(text, r.value) && Supported(r.value)
    ensures r.None? ==> forall x :: !(RefersTo(text, x) && Supported(x))
  {
    hide Tag, Digest;
    if text == "" {
      return Some(TagRef("latest"));
    }
    var value := text[1..];
    assert text == [text[0]] + value;
    if text[0] == '@' {
      var ok := IsDigest(value);
      return if ok then Some(DigestRef(value)) else None;
    }
    if text[0] != ':' {
      return None;
    }
    var ok := IsTag(value);
    return if ok then Some(TagRef(value)) else None;
  }
}
