/** The DHCP lease file: the line machine that reads it, what it reads back from a rendered file, and the lookup by MAC address. */
module Leases {
  import opened Bytes
  import opened Strings

  type RawLease = map<string, string>

  // ----- the line machine

  datatype Where = Nowhere | Start | Body | End

  datatype Scan = Scan(at: Where, current: RawLease, leases: seq<RawLease>)

  datatype ParseError = Unexpected(line: nat) | Truncated

  datatype Result<T> = Ok(value: T) | Err(error: ParseError)

  function TrimLeft(s: string): string {
    if s != "" && (s[0] == ' ' || s[0] == '\t') then TrimLeft(s[1..]) else s
  }

  /** One line; None when the machine cannot take it where it is. */
  function TakeLine(s: Scan, line: string): Option<Scan> {
    if line == "{" then
      if s.at == Nowhere || s.at == End then Some(s.(at := Start)) else None
    else if line == "}" then
      if s.at == Body then Some(Scan(End, map[], s.leases + [s.current])) else None
    else
      var text := TrimLeft(line);
      if text == "" then Some(s)
      else
        var eq := Find(text, '=');
        if eq == |text| then None else Some(Scan(Body, s.current[text[..eq] := text[eq + 1..]], s.leases))
  }

  /** The remaining lines, of which the first is number `n` of the file. */
  function TakeLines(s: Scan, lines: seq<string>, n: nat): Result<Scan>
    decreases |lines|
  {
    if lines == [] then Ok(s)
    else match TakeLine(s, lines[0])
      case Some(t) => TakeLines(t, lines[1..], n + 1)
      case None => Err(Unexpected(n))
  }

  function Finish(r: Result<Scan>): Result<seq<RawLease>> {
    match r
    case Err(e) => Err(e)
    case Ok(s) => if s.at == Start || s.at == Body then Err(Truncated) else Ok(s.leases)
  }

  const BEGIN: Scan := Scan(Nowhere, map[], [])

  /** The leases of a file: what the line loop below computes. */
  function RawLeases(contents: string): Result<seq<RawLease>> {
    Finish(TakeLines(BEGIN, Split(contents, '\n'), 1))
  }

  lemma TakeLinesNext(s: Scan, lines: seq<string>, i: nat)
    requires i < |lines|
    ensures TakeLines(s, lines[i..], i + 1) == match TakeLine(s, lines[i])
      case Some(t) => TakeLines(t, lines[i + 1..], i + 2)
      case None => Err(Unexpected(i + 1))
  {
    hide TakeLine;
    assert lines[i..][0] == lines[i] && lines[i..][1..] == lines[i + 1..];
  }

  method RetrieveRawLeases(contents: string) returns (r: Result<seq<RawLease>>)
    ensures r == RawLeases(contents)
  {
    hide TrimLeft, Find, TakeLines, Split;
    var lines := Split(contents, '\n');
    var at, current: RawLease, leases: seq<RawLease> := Nowhere, map[], [];
    var i := 0;
    assert lines[0..] == lines;
    while i < |lines|
      invariant i <= |lines|
      invariant TakeLines(Scan(at, current, leases), lines[i..], i + 1) == TakeLines(BEGIN, lines, 1)
    {
      var line := lines[i];
      TakeLinesNext(Scan(at, current, leases), lines, i);
      i := i + 1;
      if line == "{" {
        if at != Nowhere && at != End {
          return Err(Unexpected(i));
        }
        at := Start;
      } else if line == "}" {
        if at != Body {
          return Err(Unexpected(i));
        }
        leases := leases + [current];
        current := map[];
        at := End;
      } else {
        var text := TrimLeft(line);
        if text == "" {
          continue;
        }
        var eq := Find(text, '=');
        if eq == |text| {
          return Err(Unexpected(i));
        }
        current := current[text[..eq] := text[eq + 1..]];
        at := Body;
      }
    }
    assert lines[i..] == [];
    TakeNoLines(Scan(at, current, leases), i + 1);
    if at == Start || at == Body {
      return Err(Truncated);
    }
    r := Ok(leases);
  }

  lemma TakeNoLines(s: Scan, n: nat)
    ensures TakeLines(s, [], n) == Ok(s)
  {
  }

  // ----- rendering

  datatype Pair = Pair(key: string, value: string)

  type Block = seq<Pair>

  /** What a block means: for a repeated key, its last value. */
  function Meaning(b: Block, m: RawLease): RawLease
    decreases |b|
  {
    if b == [] then m else Meaning(b[1..], m[b[0].key := b[0].value])
  }

  function PairLines(b: Block): seq<string>
    decreases |b|
  {
    if b == [] then [] else ["\t" + b[0].key + "=" + b[0].value] + PairLines(b[1..])
  }

  function BlockLines(b: Block): seq<string> {
    ["{"] + PairLines(b) + ["}"]
  }

  function FileLines(bs: seq<Block>): seq<string>
    decreases |bs|
  {
    if bs == [] then [""] else BlockLines(bs[0]) + FileLines(bs[1..])
  }

  function Join(lines: seq<string>, c: char): string
    requires lines != []
    decreases |lines|
  {
    if |lines| == 1 then lines[0] else lines[0] + [c] + Join(lines[1..], c)
  }

  /** The text of a lease file: every line, the last one too, ends with a newline. */
  function Render(bs: seq<Block>): string {
    Join(FileLines(bs), '\n')
  }

  ghost predicate CleanPair(p: Pair) {
    && Free(p.key, '=') && Free(p.key, '\n') && Free(p.value, '\n')
    && (p.key != "" ==> p.key[0] != ' ' && p.key[0] != '\t')
  }

  ghost predicate Clean(b: Block) {
    forall i :: 0 <= i < |b| ==> CleanPair(b[i])
  }

  ghost predicate AllClean(bs: seq<Block>) {
    forall i :: 0 <= i < |bs| ==> Clean(bs[i])
  }

  ghost predicate AllFree(lines: seq<string>, c: char) {
    forall i :: 0 <= i < |lines| ==> Free(lines[i], c)
  }

  lemma {:induction false} SplitJoin(lines: seq<string>, c: char)
    requires lines != [] && AllFree(lines, c)
    ensures Split(Join(lines, c), c) == lines
    decreases |lines|
  {
    hide Find, Free;
    var s := Join(lines, c);
    if |lines| == 1 {
      NoFind(s, c);
    } else {
      var i, rest := |lines[0]|, Join(lines[1..], c);
      assert s[..i] == lines[0] && s[i] == c && s[i + 1..] == rest;
      FindUnique(s, c, i);
      SplitJoin(lines[1..], c);
    }
  }

  lemma NoFind(s: string, c: char)
    requires Free(s, c)
    ensures Find(s, c) == |s|
  {
  }

  lemma {:induction false} PairLinesAre(b: Block)
    requires Clean(b)
    ensures AllFree(PairLines(b), '\n')
    decreases |b|
  {
    hide CleanPair;
    if b != [] {
      PairLineFree(b[0]);
      PairLinesAre(b[1..]);
    }
  }

  lemma PairLineFree(p: Pair)
    requires CleanPair(p)
    ensures Free("\t" + p.key + "=" + p.value, '\n')
  {
  }

  lemma LinesAppend(a: seq<string>, b: seq<string>)
    requires AllFree(a, '\n') && AllFree(b, '\n')
    ensures AllFree(a + b, '\n')
  {
    hide Free;
  }

  lemma {:induction false} FileLinesAre(bs: seq<Block>)
    requires AllClean(bs)
    ensures AllFree(FileLines(bs), '\n') && FileLines(bs) != []
    decreases |bs|
  {
    hide Clean, PairLines;
    if bs == [] {
      assert AllFree([""], '\n');
    } else {
      PairLinesAre(bs[0]);
      assert AllFree(["{"], '\n') && AllFree(["}"], '\n');
      LinesAppend(["{"], PairLines(bs[0]));
      LinesAppend(["{"] + PairLines(bs[0]), ["}"]);
      FileLinesAre(bs[1..]);
      LinesAppend(BlockLines(bs[0]), FileLines(bs[1..]));
    }
  }

  // ----- reading a rendering back

  lemma TakePair(s: Scan, p: Pair)
    requires CleanPair(p)
    ensures TakeLine(s, "\t" + p.key + "=" + p.value) == Some(Scan(Body, s.current[p.key := p.value], s.leases))
  {
    hide Find;
    var line, text := "\t" + p.key + "=" + p.value, p.key + "=" + p.value;
    assert line[1..] == text;
    assert TrimLeft(text) == text;
    assert TrimLeft(line) == text;
    assert text[..|p.key|] == p.key && text[|p.key| + 1..] == p.value;
    FindUnique(text, '=', |p.key|);
    assert |line| >= 2;
  }

  lemma {:induction false} TakePairs(s: Scan, b: Block, rest: seq<string>, n: nat)
    requires Clean(b)
    ensures TakeLines(s, PairLines(b) + rest, n)
         == TakeLines(Scan(if b == [] then s.at else Body, Meaning(b, s.current), s.leases), rest, n + |b|)
    decreases |b|
  {
    hide TakeLine, CleanPair;
    if b == [] {
      assert PairLines(b) + rest == rest;
    } else {
      var lines := PairLines(b) + rest;
      assert lines[1..] == PairLines(b[1..]) + rest;
      TakePair(s, b[0]);
      TakePairs(Scan(Body, s.current[b[0].key := b[0].value], s.leases), b[1..], rest, n + 1);
    }
  }

  /** A non-empty block is read as its meaning; an empty one is refused at its closing line. */
  lemma TakeBlock(s: Scan, b: Block, rest: seq<string>, n: nat)
    requires Clean(b) && (s.at == Nowhere || s.at == End) && s.current == map[]
    ensures TakeLines(s, BlockLines(b) + rest, n)
         == if b == [] then Err(Unexpected(n + 1))
            else TakeLines(Scan(End, map[], s.leases + [Meaning(b, map[])]), rest, n + |b| + 2)
  {
    hide Clean, Meaning, PairLines;
    var lines := BlockLines(b) + rest;
    var body := PairLines(b) + (["}"] + rest);
    assert lines[0] == "{" && lines[1..] == body;
    var s1 := s.(at := Start);
    TakePairs(s1, b, ["}"] + rest, n + 1);
    assert (["}"] + rest)[1..] == rest;
  }

  function Meanings(bs: seq<Block>): seq<RawLease> {
    seq(|bs|, i requires 0 <= i < |bs| => Meaning(bs[i], map[]))
  }

  /** No block without a single pair. */
  ghost predicate NoneEmpty(bs: seq<Block>) {
    forall i :: 0 <= i < |bs| ==> bs[i] != []
  }

  lemma {:induction false} TakeFile(s: Scan, bs: seq<Block>, n: nat)
    requires AllClean(bs) && (s.at == Nowhere || s.at == End) && s.current == map[]
    ensures var r := Finish(TakeLines(s, FileLines(bs), n));
            if NoneEmpty(bs) then r == Ok(s.leases + Meanings(bs)) else r.Err?
    decreases |bs|
  {
    hide Clean, Meaning, TakeLine, BlockLines;
    if bs == [] {
      TakeBlank(s, n);
      assert s.leases + Meanings(bs) == s.leases;
    } else {
      TakeBlock(s, bs[0], FileLines(bs[1..]), n);
      if bs[0] != [] {
        TakeFile(Scan(End, map[], s.leases + [Meaning(bs[0], map[])]), bs[1..], n + |bs[0]| + 2);
        RestNoneEmpty(bs);
        assert s.leases + Meanings(bs) == s.leases + [Meaning(bs[0], map[])] + Meanings(bs[1..]);
      }
    }
  }

  lemma RestNoneEmpty(bs: seq<Block>)
    requires bs != [] && bs[0] != []
    ensures NoneEmpty(bs) <==> NoneEmpty(bs[1..])
  {
    if NoneEmpty(bs[1..]) {
      forall i | 0 <= i < |bs| ensures bs[i] != [] {
        assert i > 0 ==> bs[i] == bs[1..][i - 1];
      }
    }
  }

  lemma TakeBlank(s: Scan, n: nat)
    ensures TakeLines(s, [""], n) == Ok(s)
  {
    assert TakeLine(s, "") == Some(s);
    assert [""][1..] == [];
    assert TakeLines(s, [], n + 1) == Ok(s);
  }

  /** Reading a rendered file recovers its blocks, exactly if none of them is empty. */
  lemma ReadsBackRendering(bs: seq<Block>)
    requires AllClean(bs)
    ensures NoneEmpty(bs) <==> RawLeases(Render(bs)).Ok?
    ensures NoneEmpty(bs) ==> RawLeases(Render(bs)) == Ok(Meanings(bs))
  {
    hide AllClean, TakeLines, Split, Join, Finish;
    FileLinesAre(bs);
    SplitJoin(FileLines(bs), '\n');
    TakeFile(BEGIN, bs, 1);
    assert BEGIN.leases + Meanings(bs) == Meanings(bs);
  }

  // ----- leases

  /** Six bytes, most significant first. */
  type Mac = seq<nat>

  datatype Lease<Ip> = Lease(mac: Mac, ip: Ip, expires: int)

  function ParseMacParts(parts: seq<string>): Option<Mac> {
    if parts == [] then Some([])
    else match ParseUint(parts[0], 16, 0x100)
      case None => None
      case Some(b) =>
        match ParseMacParts(parts[1..])
        case None => None
        case Some(rest) => Some([b] + rest)
  }

  function ParseMac(s: string): Option<Mac> {
    var parts := Split(s, ':');
    if |parts| != 6 then None else ParseMacParts(parts)
  }

  function HexDigit(d: nat): char
    requires d < 16
  {
    "0123456789abcdef"[d]
  }

  function PrintByte(b: nat): string
    requires b < 0x100
  {
    [HexDigit(b / 16), HexDigit(b % 16)]
  }

  ghost predicate IsMac(m: Mac) {
    |m| == 6 && forall i :: 0 <= i < 6 ==> m[i] < 0x100
  }

  function PrintParts(m: Mac): (r: seq<string>)
    requires forall i :: 0 <= i < |m| ==> m[i] < 0x100
    ensures |r| == |m|
  {
    if m == [] then [] else [PrintByte(m[0])] + PrintParts(m[1..])
  }

  lemma HexDigitValue(d: nat)
    requires d < 16
    ensures DigitOf(HexDigit(d)) == d && HexDigit(d) != ':'
  {
  }

  lemma PrintedByte(b: nat)
    requires b < 0x100
    ensures ParseUint(PrintByte(b), 16, 0x100) == Some(b) && Free(PrintByte(b), ':')
  {
    hide DigitOf, HexDigit;
    HexDigitValue(b / 16);
    HexDigitValue(b % 16);
    var s := PrintByte(b);
    assert s[..1] == [s[0]] && s[..1][..0] == "";
    assert Digits("", 16) == Some(0);
    assert Digits(s[..1], 16) == Some(b / 16);
    assert Digits(s, 16) == Some(b);
  }

  lemma {:induction false} PrintedParts(m: Mac)
    requires forall i :: 0 <= i < |m| ==> m[i] < 0x100
    ensures ParseMacParts(PrintParts(m)) == Some(m)
    ensures AllFree(PrintParts(m), ':')
    decreases |m|
  {
    hide ParseUint, PrintByte, Free;
    if m != [] {
      PrintedByte(m[0]);
      PrintedParts(m[1..]);
      assert PrintParts(m)[1..] == PrintParts(m[1..]);
      assert m == [m[0]] + m[1..];
    }
  }

  /** Reading a printed address gives it back. */
  lemma MacRoundTrip(m: Mac)
    requires IsMac(m)
    ensures ParseMac(Join(PrintParts(m), ':')) == Some(m)
  {
    hide PrintParts, ParseMacParts, Free;
    PrintedParts(m);
    SplitJoin(PrintParts(m), ':');
  }

  function TrimPrefix(s: string, prefix: string): string {
    if prefix <= s then s[|prefix|..] else s
  }

  /** The seconds from the year 1 to 1970. */
  const UNIX_EPOCH: int := 62135596800

  /**
   * time.Unix as an instant in seconds since 1970: internally the seconds count from the year 1 in 64 bits,
   * so a time close to 2^63 wraps into the distant past.
   */
  function Instant(sec: int): int {
    if sec + UNIX_EPOCH >= 0x8000_0000_0000_0000 then sec - 0x1_0000_0000_0000_0000 else sec
  }

  /** A raw lease that has all three fields, well formed; anything else is no lease. `parseIp` reads an IPv4 address. */
  function NewLease<Ip>(raw: RawLease, parseIp: string -> Option<Ip>): Option<Lease<Ip>> {
    if "hw_address" !in raw || "ip_address" !in raw || "lease" !in raw then None
    else
      var hw := raw["hw_address"];
      var comma := Find(hw, ',');
      if comma == |hw| || (Atoi(hw[..comma]).Some? && Atoi(hw[..comma]) != Some(1)) then None
      else match (ParseMac(hw[comma + 1..]), parseIp(raw["ip_address"]), ParseInt(TrimPrefix(raw["lease"], "0x"), 16))
        case (Some(mac), Some(ip), Some(sec)) => Some(Lease(mac, ip, Instant(sec)))
        case _ => None
  }

  // ----- the lookup

  /** A lease that counts: well formed, and not expired at the instant the loop looks at it. */
  predicate Live<Ip>(leases: seq<Option<Lease<Ip>>>, clock: nat -> int, i: nat)
    requires i < |leases|
  {
    leases[i].Some? && leases[i].value.expires > clock(i)
  }

  predicate LiveFor<Ip>(leases: seq<Option<Lease<Ip>>>, clock: nat -> int, mac: Mac, i: nat)
    requires i < |leases|
  {
    Live(leases, clock, i) && leases[i].value.mac == mac
  }

  /** The live lease of `mac` that expires last, the first of those on a tie. */
  ghost predicate IsBest<Ip>(leases: seq<Option<Lease<Ip>>>, clock: nat -> int, mac: Mac, i: nat) {
    && i < |leases| && LiveFor(leases, clock, mac, i)
    && forall j: nat :: j < |leases| && LiveFor(leases, clock, mac, j) ==>
         if j < i then leases[j].value.expires < leases[i].value.expires
         else leases[j].value.expires <= leases[i].value.expires
  }

  ghost predicate BestIs<Ip>(leases: seq<Option<Lease<Ip>>>, clock: nat -> int, mac: Mac, i: nat, lease: Lease<Ip>) {
    IsBest(leases, clock, mac, i) && leases[i] == Some(lease)
  }

  lemma OneBest<Ip>(leases: seq<Option<Lease<Ip>>>, clock: nat -> int, mac: Mac, i: nat, j: nat)
    requires IsBest(leases, clock, mac, i) && IsBest(leases, clock, mac, j)
    ensures i == j
  {
  }

  /** The table gives, for every address, exactly the best of its live leases. */
  ghost predicate Tabulates<Ip>(table: map<Mac, Lease<Ip>>, leases: seq<Option<Lease<Ip>>>, clock: nat -> int) {
    && (forall mac :: mac in table ==> exists i: nat :: BestIs(leases, clock, mac, i, table[mac]))
    && (forall i: nat :: i < |leases| && Live(leases, clock, i) ==> leases[i].value.mac in table)
  }

  function Keep<Ip>(table: map<Mac, Lease<Ip>>, lease: Lease<Ip>): map<Mac, Lease<Ip>> {
    if lease.mac !in table || lease.expires > table[lease.mac].expires then table[lease.mac := lease] else table
  }

  lemma LiveSnoc<Ip>(leases: seq<Option<Lease<Ip>>>, last: Option<Lease<Ip>>, clock: nat -> int, i: nat)
    requires i < |leases|
    ensures Live(leases + [last], clock, i) == Live(leases, clock, i)
  {
  }

  lemma BestStays<Ip>(leases: seq<Option<Lease<Ip>>>, last: Option<Lease<Ip>>, clock: nat -> int, mac: Mac, i: nat)
    requires IsBest(leases, clock, mac, i)
    requires LiveFor(leases + [last], clock, mac, |leases|) ==> last.value.expires <= leases[i].value.expires
    ensures IsBest(leases + [last], clock, mac, i)
  {
    var more := leases + [last];
    forall j: nat | j < |more| && LiveFor(more, clock, mac, j)
      ensures if j < i then more[j].value.expires < more[i].value.expires else more[j].value.expires <= more[i].value.expires
    {
      if j < |leases| {
        assert LiveFor(leases, clock, mac, j);
      }
    }
  }

  lemma NewBest<Ip>(leases: seq<Option<Lease<Ip>>>, lease: Lease<Ip>, clock: nat -> int, table: map<Mac, Lease<Ip>>)
    requires Tabulates(table, leases, clock) && lease.expires > clock(|leases|)
    requires lease.mac in table ==> lease.expires > table[lease.mac].expires
    ensures IsBest(leases + [Some(lease)], clock, lease.mac, |leases|)
  {
    var more := leases + [Some(lease)];
    forall j: nat | j < |leases| && LiveFor(more, clock, lease.mac, j)
      ensures more[j].value.expires < lease.expires
    {
      LiveSnoc(leases, Some(lease), clock, j);
      assert lease.mac in table;
      var i: nat :| BestIs(leases, clock, lease.mac, i, table[lease.mac]);
      assert LiveFor(leases, clock, lease.mac, j);
    }
  }

  lemma KeepTabulates<Ip>(table: map<Mac, Lease<Ip>>, leases: seq<Option<Lease<Ip>>>, lease: Lease<Ip>, clock: nat -> int)
    requires Tabulates(table, leases, clock) && lease.expires > clock(|leases|)
    ensures Tabulates(Keep(table, lease), leases + [Some(lease)], clock)
  {
    hide IsBest;
    var more, table' := leases + [Some(lease)], Keep(table, lease);
    forall mac | mac in table' ensures exists i: nat :: BestIs(more, clock, mac, i, table'[mac]) {
      if mac == lease.mac && table'[mac] == lease && (mac !in table || lease.expires > table[mac].expires) {
        NewBest(leases, lease, clock, table);
        assert BestIs(more, clock, mac, |leases|, table'[mac]);
      } else {
        var i: nat :| BestIs(leases, clock, mac, i, table[mac]);
        BestIndex(leases, clock, mac, i);
        BestStays(leases, Some(lease), clock, mac, i);
        assert BestIs(more, clock, mac, i, table'[mac]);
      }
    }
    forall i: nat | i < |more| && Live(more, clock, i) ensures more[i].value.mac in table' {
      if i < |leases| {
        LiveSnoc(leases, Some(lease), clock, i);
      }
    }
  }

  lemma BestIndex<Ip>(leases: seq<Option<Lease<Ip>>>, clock: nat -> int, mac: Mac, i: nat)
    requires IsBest(leases, clock, mac, i)
    ensures i < |leases|
  {
  }

  lemma SkipTabulates<Ip>(table: map<Mac, Lease<Ip>>, leases: seq<Option<Lease<Ip>>>, last: Option<Lease<Ip>>, clock: nat -> int)
    requires Tabulates(table, leases, clock) && (last.None? || last.value.expires <= clock(|leases|))
    ensures Tabulates(table, leases + [last], clock)
  {
    hide IsBest;
    var more := leases + [last];
    forall mac | mac in table ensures exists i: nat :: BestIs(more, clock, mac, i, table[mac]) {
      var i: nat :| BestIs(leases, clock, mac, i, table[mac]);
      BestIndex(leases, clock, mac, i);
      BestStays(leases, last, clock, mac, i);
      assert BestIs(more, clock, mac, i, table[mac]);
    }
    forall i: nat | i < |more| && Live(more, clock, i) ensures more[i].value.mac in table {
      if i < |leases| {
        LiveSnoc(leases, last, clock, i);
      }
    }
  }

  function AllLeases<Ip>(raws: seq<RawLease>, parseIp: string -> Option<Ip>): (r: seq<Option<Lease<Ip>>>)
    ensures |r| == |raws|
  {
    seq(|raws|, i requires 0 <= i < |raws| => NewLease(raws[i], parseIp))
  }

  /** The table of a lease file; `clock` is what the time is when each lease is looked at. */
  method NewLeases<Ip>(contents: string, parseIp: string -> Option<Ip>, clock: nat -> int)
    returns (r: Result<map<Mac, Lease<Ip>>>)
    ensures match RawLeases(contents)
            case Err(e) => r == Err(e)
            case Ok(raws) => r.Ok? && Tabulates(r.value, AllLeases(raws, parseIp), clock)
  {
    hide NewLease, RawLeases, Tabulates;
    var raws := RetrieveRawLeases(contents);
    if raws.Err? {
      return Err(raws.error);
    }
    ghost var all := AllLeases(raws.value, parseIp);
    var table: map<Mac, Lease<Ip>> := map[];
    EmptyTabulates<Ip>(clock);
    var i := 0;
    assert all[..0] == [];
    while i < |raws.value|
      invariant i <= |raws.value| && Tabulates(table, all[..i], clock)
    {
      var lease := NewLease(raws.value[i], parseIp);
      assert all[..i + 1] == all[..i] + [lease];
      if lease.Some? && lease.value.expires > clock(i) {
        KeepTabulates(table, all[..i], lease.value, clock);
        if lease.value.mac !in table || lease.value.expires > table[lease.value.mac].expires {
          table := table[lease.value.mac := lease.value];
        }
      } else {
        SkipTabulates(table, all[..i], lease, clock);
      }
      i := i + 1;
    }
    assert all[..i] == all;
    r := Ok(table);
  }

  lemma EmptyTabulates<Ip>(clock: nat -> int)
    ensures Tabulates<Ip>(map[], [], clock)
  {
  }

  function Resolve<Ip>(table: map<Mac, Lease<Ip>>, mac: Mac): Option<Ip> {
    if mac in table then Some(table[mac].ip) else None
  }

  /** Resolving an address is a search of all leases: found exactly if some live lease has it, and then the best one's. */
  lemma ResolveIsSearch<Ip>(table: map<Mac, Lease<Ip>>, leases: seq<Option<Lease<Ip>>>, clock: nat -> int, mac: Mac)
    requires Tabulates(table, leases, clock)
    ensures Resolve(table, mac).Some? <==> exists i: nat :: i < |leases| && LiveFor(leases, clock, mac, i)
    ensures forall i: nat :: IsBest(leases, clock, mac, i) ==> Resolve(table, mac) == Some(leases[i].value.ip)
  {
    if mac in table {
      var i: nat :| BestIs(leases, clock, mac, i, table[mac]);
      assert LiveFor(leases, clock, mac, i);
    }
    forall i: nat | IsBest(leases, clock, mac, i) ensures Resolve(table, mac) == Some(leases[i].value.ip) {
      assert Live(leases, clock, i);
      var j: nat :| BestIs(leases, clock, mac, j, table[mac]);
      OneBest(leases, clock, mac, i, j);
    }
  }
}
