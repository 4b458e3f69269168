/** Lease files as the DHCP server writes them: reading one gives its leases, and resolving an address searches them. */
module LeaseFiles {
  import opened Bytes
  import opened Strings
  import opened Leases

  /** One record of the file. */
  datatype Record = Record(name: string, ip: string, mac: Mac, identifier: string, expires: nat)

  function PrintHex(n: nat): string {
    (if n < 16 then "" else PrintHex(n / 16)) + [HexDigit(n % 16)]
  }

  function PrintMac(m: Mac): string
    requires |m| == 6 && forall i :: 0 <= i < 6 ==> m[i] < 0x100
  {
    Join(PrintParts(m), ':')
  }

  function Written(r: Record): Block
    requires |r.mac| == 6 && forall i :: 0 <= i < 6 ==> r.mac[i] < 0x100
  {
    [Pair("name", r.name), Pair("ip_address", r.ip), Pair("hw_address", "1," + PrintMac(r.mac)),
     Pair("identifier", r.identifier), Pair("lease", "0x" + PrintHex(r.expires))]
  }

  /** What the server writes: texts without line breaks, an address that `parseIp` reads, an expiry within 63 bits. */
  ghost predicate Proper<Ip>(r: Record, parseIp: string -> Option<Ip>) {
    && Free(r.name, '\n') && Free(r.ip, '\n') && Free(r.identifier, '\n')
    && IsMac(r.mac) && parseIp(r.ip).Some? && r.expires < 0x8000_0000_0000_0000
  }

  // ----- one record

  ghost predicate AllHex(s: string) {
    forall i :: 0 <= i < |s| ==> DigitOf(s[i]) < 16
  }

  lemma DigitsSnoc(s: string, c: char, v: nat)
    requires Digits(s, 16) == Some(v) && AllHex(s) && DigitOf(c) < 16
    ensures Digits(s + [c], 16) == Some(v * 16 + DigitOf(c)) && AllHex(s + [c])
  {
    hide DigitOf;
    assert (s + [c])[..|s|] == s;
  }

  lemma {:induction false} HexReads(n: nat)
    ensures PrintHex(n) != "" && AllHex(PrintHex(n)) && Digits(PrintHex(n), 16) == Some(n)
  {
    hide DigitOf, HexDigit, Digits, AllHex;
    HexDigitValue(n % 16);
    if n < 16 {
      NoDigits();
      DigitsSnoc("", HexDigit(n), 0);
    } else {
      HexReads(n / 16);
      DigitsSnoc(PrintHex(n / 16), HexDigit(n % 16), n / 16);
    }
  }

  lemma NoDigits()
    ensures Digits("", 16) == Some(0) && AllHex("")
  {
  }

  lemma HexPlain(s: string)
    requires AllHex(s)
    ensures Free(s, '\n') && (s != "" ==> s[0] != '-' && s[0] != '+')
  {
    assert DigitOf('\n') == 16 && DigitOf('-') == 16 && DigitOf('+') == 16;
  }

  lemma ExpiryReads(n: nat)
    requires n < 0x8000_0000_0000_0000
    ensures ParseInt(TrimPrefix("0x" + PrintHex(n), "0x"), 16) == Some(n) && Free("0x" + PrintHex(n), '\n')
  {
    hide PrintHex, DigitOf, Digits;
    HexReads(n);
    HexPlain(PrintHex(n));
    assert ("0x" + PrintHex(n))[2..] == PrintHex(n);
  }

  lemma OneIsOne()
    ensures Atoi("1") == Some(1)
  {
    assert Digits("", 10) == Some(0);
    assert "1"[..0] == "";
    assert Digits("1", 10) == Some(1);
  }

  lemma HardwareReads(m: Mac)
    requires IsMac(m)
    ensures var hw := "1," + PrintMac(m);
            Find(hw, ',') == 1 && Atoi(hw[..1]) == Some(1) && ParseMac(hw[2..]) == Some(m)
  {
    hide PrintMac, ParseMac, Atoi, Find;
    OneIsOne();
    MacRoundTrip(m);
    var hw := "1," + PrintMac(m);
    assert PrintMac(m) == Join(PrintParts(m), ':') by { PrintMacIs(m); }
    assert hw[..1] == "1" && hw[2..] == PrintMac(m);
    FindUnique(hw, ',', 1);
  }

  lemma PrintMacIs(m: Mac)
    requires IsMac(m)
    ensures PrintMac(m) == Join(PrintParts(m), ':')
  {
  }

  /** The fields of a written record, as the reader finds them. */
  lemma WrittenMeaning(r: Record)
    requires IsMac(r.mac)
    ensures var raw := Meaning(Written(r), map[]);
            && "hw_address" in raw && "ip_address" in raw && "lease" in raw
            && raw["hw_address"] == "1," + PrintMac(r.mac) && raw["ip_address"] == r.ip && raw["lease"] == "0x" + PrintHex(r.expires)
  {
    hide PrintMac, PrintHex, Meaning;
    var b := Written(r);
    MeaningStep(b, map[]);
    var m1: RawLease := map["name" := r.name];
    assert b[1..] == [b[1], b[2], b[3], b[4]];
    MeaningStep(b[1..], m1);
    assert b[1..][1..] == [b[2], b[3], b[4]];
    MeaningStep(b[1..][1..], m1["ip_address" := r.ip]);
    assert b[1..][1..][1..] == [b[3], b[4]];
    var m3 := m1["ip_address" := r.ip]["hw_address" := "1," + PrintMac(r.mac)];
    MeaningStep(b[1..][1..][1..], m3);
    assert b[1..][1..][1..][1..] == [b[4]];
    MeaningStep(b[1..][1..][1..][1..], m3["identifier" := r.identifier]);
    assert b[1..][1..][1..][1..][1..] == [];
    MeaningEnd(m3["identifier" := r.identifier]["lease" := "0x" + PrintHex(r.expires)]);
  }

  lemma MeaningStep(b: Block, m: RawLease)
    requires b != []
    ensures Meaning(b, m) == Meaning(b[1..], m[b[0].key := b[0].value])
  {
  }

  lemma MeaningEnd(m: RawLease)
    ensures Meaning([], m) == m
  {
  }

  /** The lease a record is meant to be. */
  function Meant<Ip>(r: Record, parseIp: string -> Option<Ip>): Option<Lease<Ip>> {
    match parseIp(r.ip) case Some(ip) => Some(Lease(r.mac, ip, r.expires)) case None => None
  }

  /** The lease a record is read as: its expiry is the instant the clock makes of it. */
  function AsRead<Ip>(r: Record, parseIp: string -> Option<Ip>): Option<Lease<Ip>> {
    match parseIp(r.ip) case Some(ip) => Some(Lease(r.mac, ip, Instant(r.expires))) case None => None
  }

  /** The clock can represent the expiry. */
  predicate Timely(r: Record) { r.expires + UNIX_EPOCH < 0x8000_0000_0000_0000 }

  /** A record is read as it was meant exactly if the clock can represent its expiry. */
  lemma RecordReads<Ip>(r: Record, parseIp: string -> Option<Ip>)
    requires Proper(r, parseIp)
    ensures NewLease(Meaning(Written(r), map[]), parseIp) == AsRead(r, parseIp)
    ensures NewLease(Meaning(Written(r), map[]), parseIp) == Meant(r, parseIp) <==> Timely(r)
  {
    hide PrintMac, PrintHex, Meaning, Written, ParseMac, ParseInt, TrimPrefix, Find, Atoi;
    WrittenMeaning(r);
    HardwareReads(r.mac);
    ExpiryReads(r.expires);
  }

  /** A lease meant to last as long as 63 bits allow is read as one that ended before the year 1, and never counts. */
  lemma EndlessLeaseIsDropped<Ip>(r: Record, parseIp: string -> Option<Ip>, now: int)
    requires Proper(r, parseIp) && r.expires == 0x7FFF_FFFF_FFFF_FFFF && now >= -UNIX_EPOCH
    ensures var lease := NewLease(Meaning(Written(r), map[]), parseIp);
            lease.Some? && lease.value.expires < -UNIX_EPOCH && !(lease.value.expires > now)
  {
    hide Meaning, Written, NewLease;
    RecordReads(r, parseIp);
  }

  lemma MacTextFree(m: Mac)
    requires IsMac(m)
    ensures Free("1," + PrintMac(m), '\n')
  {
    hide Join;
    PartsFree(m);
    JoinFree(PrintParts(m), ':', '\n');
  }

  lemma {:induction false} PartsFree(m: Mac)
    requires forall i :: 0 <= i < |m| ==> m[i] < 0x100
    ensures AllFree(PrintParts(m), '\n')
    decreases |m|
  {
    if m != [] {
      assert AllHexByte(m[0]) by { HexDigitValue(m[0] / 16); HexDigitValue(m[0] % 16); }
      PartsFree(m[1..]);
    }
  }

  ghost predicate AllHexByte(b: nat)
    requires b < 0x100
  {
    Free(PrintByte(b), '\n')
  }

  lemma {:induction false} JoinFree(lines: seq<string>, c: char, d: char)
    requires lines != [] && c != d && AllFree(lines, d)
    ensures Free(Join(lines, c), d)
    decreases |lines|
  {
    if |lines| > 1 {
      JoinFree(lines[1..], c, d);
    }
  }

  lemma WrittenClean<Ip>(r: Record, parseIp: string -> Option<Ip>)
    requires Proper(r, parseIp)
    ensures Clean(Written(r)) && Written(r) != []
  {
    hide PrintMac, PrintHex, CleanPair;
    MacTextFree(r.mac);
    ExpiryReads(r.expires);
    KeyClean("name", r.name);
    KeyClean("ip_address", r.ip);
    KeyClean("hw_address", "1," + PrintMac(r.mac));
    KeyClean("identifier", r.identifier);
    KeyClean("lease", "0x" + PrintHex(r.expires));
    FiveClean(Written(r));
  }

  /** Letters and underscores only. */
  predicate IsKey(s: string) {
    s != "" && forall i :: 0 <= i < |s| ==> s[i] == '_' || 'a' <= s[i] <= 'z'
  }

  lemma KeyClean(key: string, value: string)
    requires IsKey(key) && Free(value, '\n')
    ensures CleanPair(Pair(key, value))
  {
  }

  lemma FiveClean(b: Block)
    requires |b| == 5 && CleanPair(b[0]) && CleanPair(b[1]) && CleanPair(b[2]) && CleanPair(b[3]) && CleanPair(b[4])
    ensures Clean(b)
  {
    hide CleanPair;
  }

  // ----- the file

  ghost predicate AllProper<Ip>(rs: seq<Record>, parseIp: string -> Option<Ip>) {
    forall i :: 0 <= i < |rs| ==> Proper(rs[i], parseIp)
  }

  function WrittenAll(rs: seq<Record>): (bs: seq<Block>)
    requires forall i :: 0 <= i < |rs| ==> |rs[i].mac| == 6 && forall k :: 0 <= k < 6 ==> rs[i].mac[k] < 0x100
    ensures |bs| == |rs|
  {
    seq(|rs|, i requires 0 <= i < |rs| => Written(rs[i]))
  }

  function ReadAll<Ip>(rs: seq<Record>, parseIp: string -> Option<Ip>): (r: seq<Option<Lease<Ip>>>)
    ensures |r| == |rs|
  {
    seq(|rs|, i requires 0 <= i < |rs| => AsRead(rs[i], parseIp))
  }

  /** Reading a written file gives its leases, one for each record and in order. */
  lemma FileReads<Ip>(rs: seq<Record>, parseIp: string -> Option<Ip>)
    requires AllProper(rs, parseIp)
    ensures var raws := RawLeases(Render(WrittenAll(rs)));
            raws.Ok? && AllLeases(raws.value, parseIp) == ReadAll(rs, parseIp)
  {
    hide Written, NewLease, Render, RawLeases, Clean, Meant, AsRead, Meaning, Timely;
    var bs := WrittenAll(rs);
    forall i | 0 <= i < |rs| ensures Clean(bs[i]) && bs[i] != [] && NewLease(Meaning(bs[i], map[]), parseIp) == AsRead(rs[i], parseIp) {
      WrittenClean(rs[i], parseIp);
      RecordReads(rs[i], parseIp);
    }
    ReadsBackRendering(bs);
    assert AllLeases(Meanings(bs), parseIp) == ReadAll(rs, parseIp);
  }

  /** The record counts when its turn comes: it has this address and the instant of its expiry is still ahead. */
  predicate Counts(rs: seq<Record>, clock: nat -> int, mac: Mac, i: nat)
    requires i < |rs|
  {
    rs[i].mac == mac && Instant(rs[i].expires) > clock(i)
  }

  /** The counting record that expires last, the first of those on a tie. */
  ghost predicate LastToExpire(rs: seq<Record>, clock: nat -> int, mac: Mac, i: nat) {
    && i < |rs| && Counts(rs, clock, mac, i)
    && forall j: nat :: j < |rs| && Counts(rs, clock, mac, j) ==>
         if j < i then Instant(rs[j].expires) < Instant(rs[i].expires) else Instant(rs[j].expires) <= Instant(rs[i].expires)
  }

  lemma CountsIsLive<Ip>(rs: seq<Record>, parseIp: string -> Option<Ip>, clock: nat -> int, mac: Mac, i: nat)
    requires AllProper(rs, parseIp) && i < |rs|
    ensures LiveFor(ReadAll(rs, parseIp), clock, mac, i) <==> Counts(rs, clock, mac, i)
    ensures ReadAll(rs, parseIp)[i] == Some(Lease(rs[i].mac, parseIp(rs[i].ip).value, Instant(rs[i].expires)))
  {
    assert Proper(rs[i], parseIp);
  }

  /**
   * Resolving an address in a written file is a search of its records: found exactly if some record of it
   * has not expired, and then the address of the one that expires last, the first of those on a tie.
   */
  lemma ResolvesInFile<Ip>(rs: seq<Record>, parseIp: string -> Option<Ip>, clock: nat -> int, table: map<Mac, Lease<Ip>>, mac: Mac)
    requires AllProper(rs, parseIp) && RawLeases(Render(WrittenAll(rs))).Ok?
    requires Tabulates(table, AllLeases(RawLeases(Render(WrittenAll(rs))).value, parseIp), clock)
    ensures Resolve(table, mac).Some? <==> exists i: nat :: i < |rs| && Counts(rs, clock, mac, i)
    ensures forall i: nat :: LastToExpire(rs, clock, mac, i) ==> Resolve(table, mac) == parseIp(rs[i].ip)
  {
    hide Tabulates, Render, RawLeases, WrittenAll, NewLease, LiveFor, Counts;
    FileReads(rs, parseIp);
    var leases := ReadAll(rs, parseIp);
    forall i: nat | i < |rs| ensures LiveFor(leases, clock, mac, i) <==> Counts(rs, clock, mac, i) {
      CountsIsLive(rs, parseIp, clock, mac, i);
    }
    ResolveIsSearch(table, leases, clock, mac);
    forall i: nat | LastToExpire(rs, clock, mac, i) ensures Resolve(table, mac) == parseIp(rs[i].ip) {
      BestInFile(rs, parseIp, clock, mac, i);
      CountsIsLive(rs, parseIp, clock, mac, i);
      assert Proper(rs[i], parseIp);
    }
  }

  lemma BestInFile<Ip>(rs: seq<Record>, parseIp: string -> Option<Ip>, clock: nat -> int, mac: Mac, i: nat)
    requires AllProper(rs, parseIp) && LastToExpire(rs, clock, mac, i)
    ensures IsBest(ReadAll(rs, parseIp), clock, mac, i)
  {
    hide LiveFor, Counts, Proper;
    var leases := ReadAll(rs, parseIp);
    CountsIsLive(rs, parseIp, clock, mac, i);
    LiveForSome(leases, clock, mac);
    forall j: nat | j < |leases| && LiveFor(leases, clock, mac, j)
      ensures if j < i then leases[j].value.expires < leases[i].value.expires else leases[j].value.expires <= leases[i].value.expires
    {
      CountsIsLive(rs, parseIp, clock, mac, j);
    }
  }

  lemma LiveForSome<Ip>(leases: seq<Option<Lease<Ip>>>, clock: nat -> int, mac: Mac)
    ensures forall j: nat :: j < |leases| && LiveFor(leases, clock, mac, j) ==> leases[j].Some?
  {
  }
}
