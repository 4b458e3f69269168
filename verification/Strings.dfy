/** Strings: finding, splitting and reading numbers, as the program's standard library does. */
module Strings {
  import opened Bytes

  /** The first position of `c`, or the length. */
  function Find(s: string, c: char): (i: nat)
    ensures i <= |s| && (i < |s| ==> s[i] == c) && forall k :: 0 <= k < i ==> s[k] != c
  {
    if s == "" || s[0] == c then 0 else 1 + Find(s[1..], c)
  }

  /** strings.Split: the pieces between occurrences of `c`. */
  function Split(s: string, c: char): (r: seq<string>)
    ensures r != []
    decreases |s|
  {
    var i := Find(s, c);
    if i == |s| then [s] else [s[..i]] + Split(s[i + 1..], c)
  }

  ghost predicate Free(s: string, c: char) {
    forall i :: 0 <= i < |s| ==> s[i] != c
  }

  lemma FindUnique(s: string, c: char, i: nat)
    requires i < |s| && s[i] == c && Free(s[..i], c)
    ensures Find(s, c) == i
  {
    assert forall k :: 0 <= k < i ==> s[..i][k] == s[k];
  }

  // ----- numbers

  function DigitOf(c: char): nat {
    if '0' <= c <= '9' then c as nat - '0' as nat
    else if 'a' <= c <= 'f' then c as nat - 'a' as nat + 10
    else if 'A' <= c <= 'F' then c as nat - 'A' as nat + 10
    else 16
  }

  /** The value of a string of digits; None when some character is not a digit of the base. */
  function Digits(s: string, base: nat): Option<nat> {
    if s == "" then Some(0)
    else match Digits(s[..|s| - 1], base)
      case Some(v) => if DigitOf(s[|s| - 1]) < base then Some(v * base + DigitOf(s[|s| - 1])) else None
      case None => None
  }

  /** strconv.ParseInt for a fixed base: an optional sign and at least one digit, within 64 bits. */
  function ParseInt(s: string, base: nat): Option<int> {
    var digits := if s != "" && (s[0] == '-' || s[0] == '+') then s[1..] else s;
    if digits == "" then None
    else match Digits(digits, base)
      case None => None
      case Some(magnitude) =>
        var v := if s[0] == '-' then 0 - (magnitude as int) else magnitude as int;
        if -0x8000_0000_0000_0000 <= v < 0x8000_0000_0000_0000 then Some(v) else None
  }

  function Atoi(s: string): Option<int> {
    ParseInt(s, 10)
  }

  /** strconv.ParseUint for a fixed base, with values below `limit`: at least one digit, no sign. */
  function ParseUint(s: string, base: nat, limit: nat): (r: Option<nat>)
    ensures r.Some? ==> r.value < limit
  {
    if s == "" then None
    else match Digits(s, base)
      case Some(v) => if v < limit then Some(v) else None
      case None => None
  }

  // ----- decimal numbers

  function DecimalDigit(d: nat): char
    requires d < 10
  {
    '0' + d as char
  }

  /** A number as it is printed: no sign, no leading zero. */
  function Decimal(n: nat): string {
    if n < 10 then [DecimalDigit(n)] else Decimal(n / 10) + [DecimalDigit(n % 10)]
  }

  /** At least one digit, and nothing else. */
  predicate IsDecimal(s: string) {
    s != "" && forall i :: 0 <= i < |s| ==> '0' <= s[i] <= '9'
  }

  lemma {:induction false} DecimalDigits(n: nat)
    ensures IsDecimal(Decimal(n)) && Digits(Decimal(n), 10) == Some(n)
  {
    var s := Decimal(n);
    if n < 10 {
      assert s[..0] == "";
    } else {
      DecimalDigits(n / 10);
      assert s[..|s| - 1] == Decimal(n / 10);
    }
  }

  lemma {:induction false} OnlyDigits(s: string)
    ensures Digits(s, 10).Some? <==> forall i :: 0 <= i < |s| ==> '0' <= s[i] <= '9'
    decreases |s|
  {
    if s != "" {
      OnlyDigits(s[..|s| - 1]);
      assert forall i :: 0 <= i < |s| - 1 ==> s[..|s| - 1][i] == s[i];
      if Digits(s, 10).Some? {
        forall i | 0 <= i < |s| ensures '0' <= s[i] <= '9' {
          assert i < |s| - 1 ==> s[..|s| - 1][i] == s[i];
        }
      }
    }
  }

  /** A printed number reads as itself. */
  lemma DecimalReads(n: nat)
    requires n < 0x8000_0000_0000_0000
    ensures Atoi(Decimal(n)) == Some(n as int) && Atoi("-" + Decimal(n)) == Some(0 - (n as int))
  {
    DecimalDigits(n);
    assert ("-" + Decimal(n))[1..] == Decimal(n);
  }

  /** What reads as a number is digits, perhaps after a sign. */
  lemma ReadIsDecimal(s: string)
    ensures Atoi(s).Some? ==> IsDecimal(s) || (s != "" && (s[0] == '-' || s[0] == '+') && IsDecimal(s[1..]))
  {
    if s != "" {
      OnlyDigits(s);
      OnlyDigits(s[1..]);
    }
  }
}
