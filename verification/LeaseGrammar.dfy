/** What a lease file may look like, as a grammar over its lines, and the line at which a file first leaves it. */
module LeaseGrammar {
  import opened Bytes
  import opened Strings
  import opened Leases

  // ----- lines and what they say

  predicate IsBlank(c: char) { c == ' ' || c == '\t' }

  ghost predicate Blank(line: string) {
    forall i :: 0 <= i < |line| ==> IsBlank(line[i])
  }

  datatype Token = Open | Close | Entry(key: string, value: string)

  /** After `n` blanks comes a key, which does not start with a blank, up to the first '=', and then the value. */
  ghost predicate PairAt(line: string, n: nat, key: string, value: string) {
    && n <= |line| && Blank(line[..n]) && line[n..] == key + "=" + value
    && Free(key, '=') && (key != "" ==> !IsBlank(key[0]))
  }

  ghost predicate Says(line: string, t: Token) {
    match t
    case Open => line == "{"
    case Close => line == "}"
    case Entry(key, value) => exists n: nat :: PairAt(line, n, key, value)
  }

  /** The lines that are not blank say these things, in order. */
  ghost predicate Spells(lines: seq<string>, ts: seq<Token>)
    decreases |lines|
  {
    if lines == [] then ts == []
    else if Blank(lines[0]) then Spells(lines[1..], ts)
    else ts != [] && Says(lines[0], ts[0]) && Spells(lines[1..], ts[1..])
  }

  // ----- the grammar

  /** One lease: its pairs and a closing brace, usually, but not necessarily, after an opening brace. */
  datatype Chunk = Chunk(braced: bool, pairs: Block)

  function Entries(b: Block): (ts: seq<Token>)
    ensures |ts| == |b|
  {
    seq(|b|, i requires 0 <= i < |b| => Entry(b[i].key, b[i].value))
  }

  function Tokens(cs: seq<Chunk>): seq<Token> {
    if cs == [] then []
    else (if cs[0].braced then [Open] else []) + Entries(cs[0].pairs) + [Close] + Tokens(cs[1..])
  }

  function LeasesOf(cs: seq<Chunk>): (r: seq<RawLease>)
    ensures |r| == |cs|
  {
    if cs == [] then [] else [Meaning(cs[0].pairs, map[])] + LeasesOf(cs[1..])
  }

  ghost predicate Filled(cs: seq<Chunk>) {
    forall i :: 0 <= i < |cs| ==> cs[i].pairs != []
  }

  /** The lines are a series of leases with at least one pair each, which mean `leases`. */
  ghost predicate Accepts(lines: seq<string>, leases: seq<RawLease>) {
    exists cs :: Filled(cs) && Spells(lines, Tokens(cs)) && leases == LeasesOf(cs)
  }

  // ----- lines as the machine takes them

  lemma {:induction false} TrimSkips(line: string, n: nat)
    requires n <= |line| && Blank(line[..n]) && (n < |line| ==> !IsBlank(line[n]))
    ensures TrimLeft(line) == line[n..]
    decreases n
  {
    if n > 0 {
      assert line[..n][0] == line[0];
      assert line[1..][..n - 1] == line[..n][1..];
      TrimSkips(line[1..], n - 1);
      assert line[1..][n - 1..] == line[n..];
    }
  }

  lemma {:induction false} Trimmed(line: string) returns (n: nat)
    ensures n <= |line| && Blank(line[..n]) && TrimLeft(line) == line[n..] && (n < |line| ==> !IsBlank(line[n]))
  {
    n := 0;
    if line != "" && IsBlank(line[0]) {
      var k := Trimmed(line[1..]);
      n := k + 1;
      assert line[1..][..k] == line[..n][1..];
      assert line[1..][k..] == line[n..];
    }
  }

  lemma TrimmedBlank(line: string)
    ensures TrimLeft(line) == "" <==> Blank(line)
  {
    var n := Trimmed(line);
    assert line[..|line|] == line;
  }

  function TokenIn(line: string): Option<Token> {
    if line == "{" then Some(Open)
    else if line == "}" then Some(Close)
    else
      var text := TrimLeft(line);
      var eq := Find(text, '=');
      if eq == |text| then None else Some(Entry(text[..eq], text[eq + 1..]))
  }

  lemma PairIs(line: string, n: nat, key: string, value: string)
    requires PairAt(line, n, key, value)
    ensures TokenIn(line) == Some(Entry(key, value)) && !Blank(line)
  {
    hide Find;
    var text := line[n..];
    assert text[|key|] == '=' && line[n + |key|] == '=';
    assert key != "" ==> text[0] == key[0];
    assert line[n] == text[0] && !IsBlank(line[n]);
    TrimSkips(line, n);
    assert text[..|key|] == key && text[|key| + 1..] == value;
    FindUnique(text, '=', |key|);
  }

  lemma TokenSaid(line: string, key: string, value: string) returns (n: nat)
    requires TokenIn(line) == Some(Entry(key, value))
    ensures PairAt(line, n, key, value)
  {
    n := Trimmed(line);
    var text := line[n..];
    var eq := Find(text, '=');
    assert text == text[..eq] + "=" + text[eq + 1..];
    assert key != "" ==> key[0] == text[0] == line[n];
  }

  /** What a line says is what the machine makes of it. */
  lemma SaysIs(line: string, t: Token)
    ensures Says(line, t) <==> !Blank(line) && TokenIn(line) == Some(t)
  {
    hide TokenIn;
    assert TokenIn("{") == Some(Open) && TokenIn("}") == Some(Close) by { Braces(); }
    assert !Blank("{") && !Blank("}") by { assert !IsBlank("{"[0]) && !IsBlank("}"[0]); }
    match t
    case Open => BraceOnly(line);
    case Close => BraceOnly(line);
    case Entry(key, value) =>
      if Says(line, t) {
        var n: nat :| PairAt(line, n, key, value);
        PairIs(line, n, key, value);
      }
      if TokenIn(line) == Some(t) {
        var n := TokenSaid(line, key, value);
      }
  }

  lemma Braces()
    ensures TokenIn("{") == Some(Open) && TokenIn("}") == Some(Close)
  {
  }

  lemma BraceOnly(line: string)
    ensures TokenIn(line) == Some(Open) ==> line == "{"
    ensures TokenIn(line) == Some(Close) ==> line == "}"
  {
    hide Find, TrimLeft;
  }

  function TakeToken(s: Scan, t: Token): Option<Scan> {
    match t
    case Open => if s.at == Nowhere || s.at == End then Some(s.(at := Start)) else None
    case Close => if s.at == Body then Some(Scan(End, map[], s.leases + [s.current])) else None
    case Entry(key, value) => Some(Scan(Body, s.current[key := value], s.leases))
  }

  lemma TakeLineIs(s: Scan, line: string)
    ensures TakeLine(s, line) == if Blank(line) then Some(s) else match TokenIn(line) case Some(t) => TakeToken(s, t) case None => None
  {
    hide Find, TrimLeft;
    assert !Blank("{") && !Blank("}") by { assert !IsBlank("{"[0]) && !IsBlank("}"[0]); }
    TrimmedBlank(line);
  }

  function TokensIn(lines: seq<string>): Option<seq<Token>> {
    if lines == [] then Some([])
    else match TokensIn(lines[1..])
      case None => None
      case Some(ts) =>
        if TrimLeft(lines[0]) == "" then Some(ts)
        else match TokenIn(lines[0]) case Some(t) => Some([t] + ts) case None => None
  }

  lemma {:induction false} SpellsIs(lines: seq<string>, ts: seq<Token>)
    ensures Spells(lines, ts) <==> TokensIn(lines) == Some(ts)
    decreases |lines|
  {
    hide Blank, Says, TokenIn, TrimLeft;
    if lines != [] {
      TrimmedBlank(lines[0]);
      if TrimLeft(lines[0]) == "" {
        SpellsIs(lines[1..], ts);
      } else if ts != [] {
        SaysIs(lines[0], ts[0]);
        SpellsIs(lines[1..], ts[1..]);
        assert ts == [ts[0]] + ts[1..];
      }
    }
  }

  function TakeTokens(s: Scan, ts: seq<Token>): Option<Scan>
    decreases |ts|
  {
    if ts == [] then Some(s)
    else match TakeToken(s, ts[0]) case Some(s1) => TakeTokens(s1, ts[1..]) case None => None
  }

  lemma {:induction false} LinesAreTokens(s: Scan, lines: seq<string>, n: nat)
    ensures TakeLines(s, lines, n).Ok? <==> TokensIn(lines).Some? && TakeTokens(s, TokensIn(lines).value).Some?
    ensures TakeLines(s, lines, n).Ok? ==> TakeTokens(s, TokensIn(lines).value) == Some(TakeLines(s, lines, n).value)
    decreases |lines|
  {
    hide TakeLine, TakeToken, TokenIn, TrimLeft, Blank;
    if lines != [] {
      TakeLineIs(s, lines[0]);
      TrimmedBlank(lines[0]);
      var t := TakeLine(s, lines[0]);
      if t.Some? {
        LinesAreTokens(t.value, lines[1..], n + 1);
      }
      if TokensIn(lines).Some? && TrimLeft(lines[0]) != "" {
        assert TokensIn(lines).value[1..] == TokensIn(lines[1..]).value;
      }
    }
  }

  // ----- the machine and the grammar

  lemma {:induction false} TakeEntries(s: Scan, b: Block, rest: seq<Token>)
    ensures TakeTokens(s, Entries(b) + rest) == TakeTokens(Scan(if b == [] then s.at else Body, Meaning(b, s.current), s.leases), rest)
    decreases |b|
  {
    if b == [] {
      assert Entries(b) + rest == rest;
    } else {
      var ts := Entries(b) + rest;
      assert ts[0] == Entry(b[0].key, b[0].value) && ts[1..] == Entries(b[1..]) + rest;
      TakeEntries(Scan(Body, s.current[b[0].key := b[0].value], s.leases), b[1..], rest);
    }
  }

  predicate Between(s: Scan) { s.at == Nowhere || s.at == End }

  lemma TakeChunk(s: Scan, c: Chunk, rest: seq<Token>)
    requires Between(s) && s.current == map[] && c.pairs != []
    ensures TakeTokens(s, (if c.braced then [Open] else []) + Entries(c.pairs) + [Close] + rest)
         == TakeTokens(Scan(End, map[], s.leases + [Meaning(c.pairs, map[])]), rest)
  {
    hide Meaning, Entries;
    var body := Entries(c.pairs) + ([Close] + rest);
    var s1 := if c.braced then s.(at := Start) else s;
    if c.braced {
      var ts := [Open] + Entries(c.pairs) + [Close] + rest;
      assert ts[0] == Open && ts[1..] == body;
    } else {
      assert [] + Entries(c.pairs) + [Close] + rest == body;
    }
    TakeEntries(s1, c.pairs, [Close] + rest);
    assert ([Close] + rest)[1..] == rest;
  }

  lemma {:induction false} GrammarTaken(s: Scan, cs: seq<Chunk>)
    requires Between(s) && s.current == map[] && Filled(cs)
    ensures TakeTokens(s, Tokens(cs)) == Some(Scan(if cs == [] then s.at else End, map[], s.leases + LeasesOf(cs)))
    decreases |cs|
  {
    hide Meaning, Entries, TakeToken;
    if cs == [] {
      assert s.leases + LeasesOf(cs) == s.leases;
    } else {
      TakeChunk(s, cs[0], Tokens(cs[1..]));
      GrammarTaken(Scan(End, map[], s.leases + [Meaning(cs[0].pairs, map[])]), cs[1..]);
      assert s.leases + [Meaning(cs[0].pairs, map[])] + LeasesOf(cs[1..]) == s.leases + LeasesOf(cs);
    }
  }

  /** What the rest of the tokens has to be, seen from inside a lease: pairs `b`, a closing brace, and further leases. */
  ghost predicate Ends(s: Scan, ts: seq<Token>, t: Scan, b: Block, cs: seq<Chunk>) {
    && ts == Entries(b) + [Close] + Tokens(cs)
    && t.leases == s.leases + [Meaning(b, s.current)] + LeasesOf(cs)
  }

  lemma EntriesCons(p: Pair, b: Block, more: seq<Chunk>)
    ensures [Entry(p.key, p.value)] + (Entries(b) + [Close] + Tokens(more)) == Entries([p] + b) + [Close] + Tokens(more)
    ensures forall m :: Meaning([p] + b, m) == Meaning(b, m[p.key := p.value])
  {
    hide Tokens;
    assert ([p] + b)[1..] == b;
    assert Entries([p] + b) == [Entry(p.key, p.value)] + Entries(b);
  }

  /** A list of tokens the machine takes, ending between leases, is a list of leases. */
  lemma {:induction false} TakenIsGrammar(s: Scan, ts: seq<Token>, t: Scan) returns (b: Block, cs: seq<Chunk>)
    requires TakeTokens(s, ts) == Some(t) && Between(t) && (s.at != Body ==> s.current == map[])
    ensures Filled(cs)
    ensures if Between(s) then ts == Tokens(cs) && t.leases == s.leases + LeasesOf(cs)
            else Ends(s, ts, t, b, cs) && (s.at == Start ==> b != [])
    decreases |ts|
  {
    hide Meaning, Entries, Tokens, LeasesOf;
    b, cs := [], [];
    NoChunks();
    if ts == [] {
      assert t.leases == s.leases + LeasesOf([]);
    } else {
      var s1 := TakeToken(s, ts[0]).value;
      var rest, more := TakenIsGrammar(s1, ts[1..], t);
      assert ts == [ts[0]] + ts[1..];
      match ts[0]
      case Open =>
        cs := [Chunk(true, rest)] + more;
        ChunkFirst(Chunk(true, rest), more, s.leases);
      case Close =>
        cs := more;
        NothingMore(s.current, more);
      case Entry(key, value) =>
        var p := Pair(key, value);
        EntriesCons(p, rest, more);
        if Between(s) {
          cs := [Chunk(false, [p] + rest)] + more;
          ChunkFirst(Chunk(false, [p] + rest), more, s.leases);
        } else {
          b, cs := [p] + rest, more;
        }
    }
  }

  lemma NoChunks()
    ensures Tokens([]) == [] && LeasesOf([]) == []
  {
  }

  lemma ChunkFirst(c: Chunk, more: seq<Chunk>, before: seq<RawLease>)
    ensures Tokens([c] + more) == (if c.braced then [Open] else []) + (Entries(c.pairs) + [Close] + Tokens(more))
    ensures !c.braced ==> Tokens([c] + more) == Entries(c.pairs) + [Close] + Tokens(more)
    ensures before + LeasesOf([c] + more) == before + [Meaning(c.pairs, map[])] + LeasesOf(more)
    ensures Filled([c] + more) <==> c.pairs != [] && Filled(more)
  {
    hide Meaning, Entries;
    assert ([c] + more)[1..] == more;
    if Filled([c] + more) {
      assert ([c] + more)[0] == c;
      forall i | 0 <= i < |more| ensures more[i].pairs != [] {
        assert more[i] == ([c] + more)[i + 1];
      }
    }
  }

  lemma NothingMore(m: RawLease, more: seq<Chunk>)
    ensures [Close] + Tokens(more) == Entries([]) + [Close] + Tokens(more) && Meaning([], m) == m
  {
  }

  lemma AcceptedIffTaken(lines: seq<string>, leases: seq<RawLease>)
    ensures Accepts(lines, leases) <==> Finish(TakeLines(BEGIN, lines, 1)) == Ok(leases)
  {
    hide TakeLines, Spells, Tokens, LeasesOf, TakeTokens;
    LinesAreTokens(BEGIN, lines, 1);
    if Accepts(lines, leases) {
      var cs :| Filled(cs) && Spells(lines, Tokens(cs)) && leases == LeasesOf(cs);
      SpellsIs(lines, Tokens(cs));
      GrammarTaken(BEGIN, cs);
      assert BEGIN.leases + LeasesOf(cs) == LeasesOf(cs);
    }
    if Finish(TakeLines(BEGIN, lines, 1)) == Ok(leases) {
      var ts, t := TokensIn(lines).value, TakeLines(BEGIN, lines, 1).value;
      var _, cs := TakenIsGrammar(BEGIN, ts, t);
      SpellsIs(lines, ts);
      assert BEGIN.leases + LeasesOf(cs) == LeasesOf(cs);
    }
  }

  /** A file is read, and read as these leases, exactly if its lines are these leases in the grammar. */
  lemma ReadExactly(contents: string, leases: seq<RawLease>)
    ensures RawLeases(contents) == Ok(leases) <==> Accepts(Split(contents, '\n'), leases)
  {
    hide TakeLines, Split, Finish, Accepts;
    AcceptedIffTaken(Split(contents, '\n'), leases);
  }

  // ----- the line at which a file goes wrong

  /** The lines can be continued to a file of the grammar. */
  ghost predicate Viable(lines: seq<string>) {
    exists more, leases :: Accepts(lines + more, leases)
  }

  lemma {:induction false} TakeJoin(s: Scan, a: seq<string>, b: seq<string>, n: nat)
    ensures TakeLines(s, a + b, n) == match TakeLines(s, a, n) case Ok(t) => TakeLines(t, b, n + |a|) case Err(e) => Err(e)
    decreases |a|
  {
    hide TakeLine;
    if a == [] {
      assert a + b == b;
    } else {
      assert (a + b)[1..] == a[1..] + b;
      match TakeLine(s, a[0])
      case Some(t) => TakeJoin(t, a[1..], b, n + 1);
      case None =>
    }
  }

  /** Wherever the machine stands, it can be brought to an end. */
  lemma CanEnd(s: Scan, n: nat) returns (more: seq<string>)
    ensures Finish(TakeLines(s, more, n)).Ok?
  {
    if Between(s) {
      more := [];
    } else if s.at == Body {
      more := ["}"];
      TakeLast(s, n);
    } else {
      more := ["=", "}"];
      var s1 := Scan(Body, s.current["" := ""], s.leases);
      assert Find("=", '=') == 0;
      assert "="[..0] == "" && "="[1..] == "";
      assert TakeLine(s, "=") == Some(s1);
      assert more[1..] == ["}"];
      TakeLast(s1, n + 1);
    }
  }

  lemma TakeLast(s: Scan, n: nat)
    requires s.at == Body
    ensures Finish(TakeLines(s, ["}"], n)).Ok?
  {
    assert ["}"][1..] == [];
    assert TakeLine(s, "}") == Some(Scan(End, map[], s.leases + [s.current]));
    TakeNoLines(Scan(End, map[], s.leases + [s.current]), n + 1);
  }

  lemma ViableIffTaken(lines: seq<string>)
    ensures Viable(lines) <==> TakeLines(BEGIN, lines, 1).Ok?
  {
    hide TakeLines, Accepts, Finish;
    if Viable(lines) {
      var more, leases :| Accepts(lines + more, leases);
      AcceptedIffTaken(lines + more, leases);
      TakeJoin(BEGIN, lines, more, 1);
      assert TakeLines(BEGIN, lines + more, 1).Ok? by { FinishedOk(TakeLines(BEGIN, lines + more, 1)); }
    }
    if TakeLines(BEGIN, lines, 1).Ok? {
      var more := CanEnd(TakeLines(BEGIN, lines, 1).value, 1 + |lines|);
      TakeJoin(BEGIN, lines, more, 1);
      var leases := Finish(TakeLines(BEGIN, lines + more, 1)).value;
      AcceptedIffTaken(lines + more, leases);
    }
  }

  lemma FinishedOk(r: Result<Scan>)
    ensures Finish(r).Ok? ==> r.Ok?
  {
  }

  lemma {:induction false} FirstRefused(s: Scan, lines: seq<string>, n: nat, m: nat)
    requires TakeLines(s, lines, n) == Err(Unexpected(m))
    ensures n <= m < n + |lines|
    ensures TakeLines(s, lines[..m - n], n).Ok? && TakeLines(s, lines[..m - n + 1], n).Err?
    decreases |lines|
  {
    hide TakeLine;
    match TakeLine(s, lines[0])
    case None =>
      assert lines[..1][0] == lines[0];
    case Some(t) =>
      FirstRefused(t, lines[1..], n + 1, m);
      assert lines[..m - n][0] == lines[0] && lines[..m - n][1..] == lines[1..][..m - n - 1];
      assert lines[..m - n + 1][0] == lines[0] && lines[..m - n + 1][1..] == lines[1..][..m - n];
  }

  lemma {:induction false} OnlyUnexpected(s: Scan, lines: seq<string>, n: nat)
    ensures TakeLines(s, lines, n).Err? ==> TakeLines(s, lines, n).error.Unexpected?
    decreases |lines|
  {
    hide TakeLine;
    if lines != [] && TakeLine(s, lines[0]).Some? {
      OnlyUnexpected(TakeLine(s, lines[0]).value, lines[1..], n + 1);
    }
  }

  lemma PrefixTaken(lines: seq<string>, i: nat, j: nat)
    requires i <= j <= |lines| && TakeLines(BEGIN, lines[..j], 1).Ok?
    ensures TakeLines(BEGIN, lines[..i], 1).Ok?
  {
    hide TakeLines;
    assert lines[..j] == lines[..i] + lines[i..j];
    TakeJoin(BEGIN, lines[..i], lines[i..j], 1);
  }

  /**
   * The reported line is the first that no lease file has after the lines before it, and a file is reported as
   * truncated exactly if it could go on to be one, but is none.
   */
  lemma ErrorsExactly(contents: string, n: nat)
    ensures var lines := Split(contents, '\n');
            && (RawLeases(contents) == Err(Unexpected(n)) <==> 1 <= n <= |lines| && Viable(lines[..n - 1]) && !Viable(lines[..n]))
            && (RawLeases(contents) == Err(Truncated) <==> Viable(lines) && forall leases :: !Accepts(lines, leases))
  {
    hide TakeLines, Split, Accepts, Viable;
    var lines := Split(contents, '\n');
    var r := TakeLines(BEGIN, lines, 1);
    assert lines[..|lines|] == lines;
    ViableIffTaken(lines);
    OnlyUnexpected(BEGIN, lines, 1);
    if r.Err? {
      var m := r.error.line;
      FirstRefused(BEGIN, lines, 1, m);
      ViableIffTaken(lines[..m - 1]);
      ViableIffTaken(lines[..m]);
    }
    if 1 <= n <= |lines| {
      ViableIffTaken(lines[..n - 1]);
      ViableIffTaken(lines[..n]);
      if Viable(lines[..n - 1]) && !Viable(lines[..n]) {
        if r.Ok? {
          PrefixTaken(lines, n, |lines|);
        } else {
          var m := r.error.line;
          if m < n {
            PrefixTaken(lines, m, n - 1);
          } else if m > n {
            PrefixTaken(lines, n, m - 1);
          }
        }
      }
    }
    forall leases ensures Accepts(lines, leases) <==> Finish(r) == Ok(leases) {
      AcceptedIffTaken(lines, leases);
    }
  }

  // ----- addresses

  predicate IsHexChar(c: char) { '0' <= c <= '9' || 'a' <= c <= 'f' || 'A' <= c <= 'F' }

  /** Digits of either case have their value, and no other character is one. */
  lemma HexDigits(d: nat, c: char)
    requires d < 16
    ensures DigitOf("0123456789abcdef"[d]) == d && DigitOf("0123456789ABCDEF"[d]) == d
    ensures DigitOf(c) < 16 <==> IsHexChar(c)
  {
  }

  /** One or more hexadecimal digits, of either case, with this value below 256. */
  ghost predicate HexByte(t: string, v: nat) {
    t != "" && (forall i :: 0 <= i < |t| ==> IsHexChar(t[i])) && Digits(t, 16) == Some(v) && v < 0x100
  }

  lemma {:induction false} HexOnly(t: string)
    ensures Digits(t, 16).Some? ==> forall i :: 0 <= i < |t| ==> IsHexChar(t[i])
    decreases |t|
  {
    if t != "" && Digits(t, 16).Some? {
      HexOnly(t[..|t| - 1]);
      forall i | 0 <= i < |t| ensures IsHexChar(t[i]) {
        assert i < |t| - 1 ==> t[..|t| - 1][i] == t[i];
      }
    }
  }

  lemma HexByteIs(t: string, v: nat)
    ensures ParseUint(t, 16, 0x100) == Some(v) <==> HexByte(t, v)
  {
    hide Digits, DigitOf;
    HexOnly(t);
  }

  ghost predicate HexBytes(parts: seq<string>, m: Mac) {
    |m| == |parts| && forall i :: 0 <= i < |parts| ==> HexByte(parts[i], m[i])
  }

  lemma HexBytesCons(parts: seq<string>, m: Mac)
    requires parts != [] && m != []
    ensures HexBytes(parts, m) <==> HexByte(parts[0], m[0]) && HexBytes(parts[1..], m[1..])
  {
    hide HexByte;
    if HexByte(parts[0], m[0]) && HexBytes(parts[1..], m[1..]) {
      forall i | 0 <= i < |parts| ensures HexByte(parts[i], m[i]) {
        assert i > 0 ==> parts[i] == parts[1..][i - 1] && m[i] == m[1..][i - 1];
      }
    }
  }

  lemma {:induction false} PartsExactly(parts: seq<string>, m: Mac)
    ensures ParseMacParts(parts) == Some(m) <==> HexBytes(parts, m)
    decreases |parts|
  {
    hide HexByte, ParseUint;
    if parts != [] {
      var b := ParseUint(parts[0], 16, 0x100);
      if m != [] {
        HexByteIs(parts[0], m[0]);
        HexBytesCons(parts, m);
        PartsExactly(parts[1..], m[1..]);
        assert m == [m[0]] + m[1..];
      }
    }
  }

  lemma {:induction false} JoinSplit(s: string, c: char)
    ensures Join(Split(s, c), c) == s && AllFree(Split(s, c), c)
    decreases |s|
  {
    var i := Find(s, c);
    if i < |s| {
      JoinSplit(s[i + 1..], c);
      assert s == s[..i] + [c] + s[i + 1..];
      assert Split(s, c)[1..] == Split(s[i + 1..], c);
    }
  }

  lemma HexBytesFree(parts: seq<string>, m: Mac)
    requires HexBytes(parts, m)
    ensures AllFree(parts, ':')
  {
    forall i | 0 <= i < |parts| ensures Free(parts[i], ':') {
      assert HexByte(parts[i], m[i]);
    }
  }

  /** A text is read as an address exactly if it is six hexadecimal numbers below 256, of any number of digits, joined by colons. */
  lemma MacExactly(s: string, m: Mac)
    ensures ParseMac(s) == Some(m) <==> exists parts :: |parts| == 6 && s == Join(parts, ':') && HexBytes(parts, m)
  {
    hide Split, Join, HexBytes, ParseMacParts;
    JoinSplit(s, ':');
    PartsExactly(Split(s, ':'), m);
    if parts :| |parts| == 6 && s == Join(parts, ':') && HexBytes(parts, m) {
      HexBytesFree(parts, m);
      SplitJoin(parts, ':');
    }
  }

  // ----- what becomes of a record

  /** Hardware of a number other than 1 is no lease. */
  lemma OtherHardwareIsRefused<Ip>(raw: RawLease, parseIp: string -> Option<Ip>, kind: nat, address: string)
    requires "hw_address" in raw && raw["hw_address"] == Decimal(kind) + "," + address
    requires kind != 1 && kind < 0x8000_0000_0000_0000
    ensures NewLease(raw, parseIp) == None
  {
    hide Atoi, Decimal, ParseMac, ParseInt;
    DecimalReads(kind);
    KindCut(Decimal(kind), address) by { DecimalDigits(kind); }
  }

  lemma KindCut(kind: string, address: string)
    requires Free(kind, ',')
    ensures var hw := kind + "," + address;
            Find(hw, ',') == |kind| && hw[..|kind|] == kind && hw[|kind| + 1..] == address
  {
    var hw := kind + "," + address;
    assert hw[..|kind|] == kind;
    FindUnique(hw, ',', |kind|);
  }

  /** Hardware named by a text that is no number is taken for Ethernet, as 1 is. */
  lemma NamedHardwareIsEthernet<Ip>(raw: RawLease, parseIp: string -> Option<Ip>, kind: string, address: string)
    requires Free(kind, ',') && (kind != "" ==> !IsDecimal(kind) && !IsDecimal(kind[1..]))
    ensures NewLease(raw["hw_address" := kind + "," + address], parseIp) == NewLease(raw["hw_address" := "1," + address], parseIp)
  {
    hide Atoi, ParseMac, ParseInt, Find;
    ReadIsDecimal(kind);
    KindCut(kind, address);
    assert Decimal(1) == "1";
    DecimalReads(1);
    KindCut("1", address);
    assert "1" + "," + address == "1," + address;
  }
}
