/** Decimal and hexadecimal text, as strconv and encoding/hex print and read it. */
module Text {
  import opened Common

  const MAX_INT64: int := 0x7FFF_FFFF_FFFF_FFFF
  const MIN_INT64: int := -0x8000_0000_0000_0000
  const MAX_UINT64: int := 0xFFFF_FFFF_FFFF_FFFF

  predicate IsDigit(c: char) {
    '0' <= c <= '9'
  }

  function DigitValue(c: char): (d: nat)
    requires IsDigit(c)
    ensures d < 10
  {
    (c - '0') as int
  }

  function DigitChar(d: nat): (c: char)
    requires d < 10
    ensures IsDigit(c) && DigitValue(c) == d
  {
    '0' + d as char
  }

  function FormatNat(n: nat): string {
    if n < 10 then [DigitChar(n)] else FormatNat(n / 10) + [DigitChar(n % 10)]
  }

  /** strconv.FormatInt(n, 10), which is also what fmt.Sprint prints for an int. */
  function FormatInt(n: int): string {
    if n < 0 then "-" + FormatNat(-n) else FormatNat(n)
  }

  /** The number a digit string denotes. */
  function Denotes(s: string): nat
    requires forall c | c in s :: IsDigit(c)
  {
    if s == "" then 0 else 10 * Denotes(s[..|s| - 1]) + DigitValue(s[|s| - 1])
  }

  lemma {:induction false} FormatNatDenotes(n: nat)
    ensures FormatNat(n) != ""
    ensures forall c | c in FormatNat(n) :: IsDigit(c)
    ensures Denotes(FormatNat(n)) == n
  {
    if n < 10 {
      assert FormatNat(n)[..0] == "";
    } else {
      FormatNatDenotes(n / 10);
      assert FormatNat(n)[..|FormatNat(n)| - 1] == FormatNat(n / 10);
    }
  }

  predicate PlainNumber(s: string) {
    s != "" && forall c | c in s :: IsDigit(c) || c == '-'
  }

  lemma FormatIntIsPlain(n: int)
    ensures PlainNumber(FormatInt(n))
  {
    FormatNatDenotes(if n < 0 then -n else n);
  }

  lemma FormatIntSign(n: int)
    ensures FormatInt(n) != "" && (FormatInt(n)[0] == '-' <==> n < 0)
    ensures n < 0 ==> FormatInt(n)[1..] == FormatNat(-n)
  {
    FormatNatDenotes(if n < 0 then -n else n);
    if n >= 0 {
      assert FormatInt(n)[0] in FormatNat(n);
    }
  }

  lemma FormatIntInjective(m: int, n: int)
    requires FormatInt(m) == FormatInt(n)
    ensures m == n
  {
    FormatIntSign(m);
    FormatIntSign(n);
    FormatNatDenotes(if m < 0 then -m else m);
    FormatNatDenotes(if n < 0 then -n else n);
  }

  /* ---------- separators ---------- */

  /** Position of the first c, or the length. */
  function IndexOf(s: string, c: char): nat {
    if s == "" || s[0] == c then 0 else 1 + IndexOf(s[1..], c)
  }

  /** Position of the last c, or 0. */
  function LastIndexOf(s: string, c: char): nat {
    if s == "" then 0 else if s[|s| - 1] == c then |s| - 1 else LastIndexOf(s[..|s| - 1], c)
  }

  lemma {:induction false} FirstAfter(a: string, b: string, c: char)
    requires c !in a
    ensures IndexOf(a + [c] + b, c) == |a|
  {
    var s := a + [c] + b;
    if a != "" {
      assert s[1..] == a[1..] + [c] + b;
      assert s[0] == a[0] && a[0] in a;
      FirstAfter(a[1..], b, c);
    }
  }

  lemma {:induction false} LastBefore(a: string, b: string, c: char)
    requires c !in b
    ensures LastIndexOf(a + [c] + b, c) == |a|
  {
    var s := a + [c] + b;
    if b != "" {
      assert s[..|s| - 1] == a + [c] + b[..|b| - 1];
      assert s[|s| - 1] == b[|b| - 1] && b[|b| - 1] in b;
      LastBefore(a, b[..|b| - 1], c);
    }
  }

  lemma {:induction false} FirstIsFirst(s: string, c: char, i: nat)
    requires i < |s| && s[i] == c
    ensures IndexOf(s, c) <= i
  {
    if s[0] != c {
      FirstIsFirst(s[1..], c, i - 1);
    }
  }

  lemma {:induction false} LastIsLast(s: string, c: char, i: nat)
    requires i < |s| && s[i] == c
    ensures i <= LastIndexOf(s, c)
  {
    if s[|s| - 1] != c {
      LastIsLast(s[..|s| - 1], c, i);
    }
  }

  /** Two texts split at their first separator are equal only part by part. */
  lemma SplitAtFirst(a: string, b: string, a': string, b': string, c: char)
    requires c !in a && c !in a' && a + [c] + b == a' + [c] + b'
    ensures a == a' && b == b'
  {
    FirstAfter(a, b, c);
    FirstAfter(a', b', c);
    SameCut(a, b, a', b', c);
  }

  /** The same at the last separator. */
  lemma SplitAtLast(a: string, b: string, a': string, b': string, c: char)
    requires c !in b && c !in b' && a + [c] + b == a' + [c] + b'
    ensures a == a' && b == b'
  {
    LastBefore(a, b, c);
    LastBefore(a', b', c);
    SameCut(a, b, a', b', c);
  }

  lemma SameCut(a: string, b: string, a': string, b': string, c: char)
    requires |a| == |a'| && a + [c] + b == a' + [c] + b'
    ensures a == a' && b == b'
  {
    var s, s' := a + [c] + b, a' + [c] + b';
    assert s[..|a|] == a && s'[..|a'|] == a';
    assert s[|a| + 1..] == b && s'[|a'| + 1..] == b';
  }

  /* ---------- strconv.ParseInt(s, 10, 64) ---------- */

  datatype Scanned = Syntax | Range | Value(n: nat)

  /** Digit by digit; a value beyond 64 bits ends the scan at once, whatever follows. */
  function ScanUint(s: string, i: nat, n: nat): Scanned
    requires i <= |s|
    decreases |s| - i
  {
    if i == |s| then Value(n)
    else if !IsDigit(s[i]) then Syntax
    else if 10 * n + DigitValue(s[i]) > MAX_UINT64 then Range
    else ScanUint(s, i + 1, 10 * n + DigitValue(s[i]))
  }

  /** The value ParseInt returns when its error is ignored: 0 on a syntax error, the nearest end of the
      range when out of range. */
  function ParseInt(s: string): int {
    if s == "" then 0
    else
      var negative := s[0] == '-';
      var digits := if s[0] == '-' || s[0] == '+' then s[1..] else s;
      if digits == "" then 0
      else
        match ScanUint(digits, 0, 0)
        case Syntax => 0
        case Range => if negative then MIN_INT64 else MAX_INT64
        case Value(n) =>
          if negative then (if n > MAX_INT64 then MIN_INT64 else 0 - n as int)
          else if n > MAX_INT64 then MAX_INT64 else n
  }

  lemma {:induction false} DenotesGrows(s: string, i: nat)
    requires i <= |s| && forall c | c in s :: IsDigit(c)
    ensures (forall c | c in s[..i] :: IsDigit(c)) && Denotes(s[..i]) <= Denotes(s)
    decreases |s|
  {
    if i < |s| {
      assert s[..|s| - 1][..i] == s[..i];
      DenotesGrows(s[..|s| - 1], i);
    } else {
      assert s[..i] == s;
    }
  }

  lemma {:induction false} ScanReads(s: string, i: nat)
    requires i <= |s| && (forall c | c in s :: IsDigit(c)) && Denotes(s) <= MAX_UINT64
    ensures (forall c | c in s[..i] :: IsDigit(c)) && ScanUint(s, i, Denotes(s[..i])) == Value(Denotes(s))
    decreases |s| - i
  {
    DenotesGrows(s, i);
    if i < |s| {
      ScanReads(s, i + 1);
      DenotesGrows(s, i + 1);
      assert s[..i + 1][..i] == s[..i] && s[i] in s;
    } else {
      assert s[..i] == s;
    }
  }

  lemma ParseFormat(n: int)
    requires MIN_INT64 <= n <= MAX_INT64
    ensures ParseInt(FormatInt(n)) == n
  {
    var m: nat := if n < 0 then -n else n;
    FormatNatDenotes(m);
    FormatIntSign(n);
    ScanReads(FormatNat(m), 0);
    if n >= 0 {
      assert FormatInt(n)[0] in FormatNat(m);
    }
  }

  lemma {:induction false} ScanOverflows(s: string, i: nat)
    requires i <= |s| && (forall c | c in s :: IsDigit(c)) && Denotes(s) > MAX_UINT64
    requires (forall c | c in s[..i] :: IsDigit(c)) && Denotes(s[..i]) <= MAX_UINT64
    ensures ScanUint(s, i, Denotes(s[..i])) == Range
    decreases |s| - i
  {
    assert s[..|s|] == s;
    assert s[..i + 1][..i] == s[..i] && s[i] in s;
    DenotesGrows(s, i + 1);
    if Denotes(s[..i + 1]) <= MAX_UINT64 {
      ScanOverflows(s, i + 1);
    }
  }

  lemma {:induction false} ScanStops(s: string, i: nat, bad: nat)
    requires i <= bad < |s| && !IsDigit(s[bad]) && forall c | c in s[..bad] :: IsDigit(c)
    requires (forall c | c in s[..i] :: IsDigit(c)) && Denotes(s[..i]) <= MAX_UINT64
    ensures ScanUint(s, i, Denotes(s[..i])) == if Denotes(s[..bad]) <= MAX_UINT64 then Syntax else Range
    decreases |s| - i
  {
    if i < bad {
      assert s[..bad][..i + 1] == s[..i + 1] && s[..i + 1][..i] == s[..i] && s[..bad][i] == s[i];
      assert s[i] in s[..bad];
      DenotesGrows(s[..bad], i + 1);
      if Denotes(s[..i + 1]) <= MAX_UINT64 {
        ScanStops(s, i + 1, bad);
      }
    }
  }

  /** A digit string reads as its number, and with a sign as that or its negation, each cut to 64 bits. */
  lemma ParseReads(digits: string)
    requires digits != "" && forall c | c in digits :: IsDigit(c)
    ensures ParseInt(digits) == ParseInt("+" + digits) == Min(Denotes(digits), MAX_INT64)
    ensures Denotes(digits) <= MAX_INT64 ==> ParseInt("-" + digits) + Denotes(digits) == 0
    ensures Denotes(digits) > MAX_INT64 ==> ParseInt("-" + digits) == MIN_INT64
  {
    assert digits[..0] == "" && digits[0] in digits;
    if Denotes(digits) <= MAX_UINT64 {
      ScanReads(digits, 0);
    } else {
      ScanOverflows(digits, 0);
    }
    assert ("+" + digits)[1..] == digits && ("-" + digits)[1..] == digits;
  }

  /** Digits followed by anything else read as 0, unless they alone are beyond 64 bits already. */
  lemma ParseStops(digits: string, rest: string)
    requires digits != "" && (forall c | c in digits :: IsDigit(c)) && rest != "" && !IsDigit(rest[0])
    ensures ParseInt(digits + rest) == if Denotes(digits) <= MAX_UINT64 then 0 else MAX_INT64
    ensures ParseInt("-" + digits + rest) == if Denotes(digits) <= MAX_UINT64 then 0 else MIN_INT64
  {
    var s := digits + rest;
    assert s[..|digits|] == digits && s[..0] == "" && s[0] == digits[0] && digits[0] in digits;
    ScanStops(s, 0, |digits|);
    assert "-" + digits + rest == "-" + s && ("-" + s)[1..] == s;
  }

  /* ---------- hexadecimal ---------- */

  type Byte = b: nat | b < 256

  function HexChar(d: nat): (c: char)
    requires d < 16
    ensures HexValue(c) == Some(d)
    ensures IsDigit(c) || 'a' <= c <= 'f'
  {
    if d < 10 then DigitChar(d) else 'a' + (d - 10) as char
  }

  function HexValue(c: char): Option<nat> {
    if IsDigit(c) then Some(DigitValue(c))
    else if 'a' <= c <= 'f' then Some((c - 'a') as int + 10)
    else if 'A' <= c <= 'F' then Some((c - 'A') as int + 10)
    else None
  }

  /** The digits of either case, and nothing else. */
  lemma HexValueIff(c: char, d: nat)
    ensures HexValue(c) == Some(d) <==> d < 16 && (c == "0123456789abcdef"[d] || c == "0123456789ABCDEF"[d])
  {
  }

  function HexEncode(bytes: seq<Byte>): string {
    if bytes == [] then "" else [HexChar(bytes[0] / 16), HexChar(bytes[0] % 16)] + HexEncode(bytes[1..])
  }

  /** None for an odd length or a character that is no hexadecimal digit. */
  function HexDecode(s: string): Option<seq<Byte>> {
    if s == "" then Some([])
    else if |s| == 1 then None
    else
      var high, low, rest := HexValue(s[0]), HexValue(s[1]), HexDecode(s[2..]);
      if high.None? || low.None? || rest.None? || high.value >= 16 || low.value >= 16 then None
      else Some([(16 * high.value + low.value) as Byte] + rest.value)
  }

  lemma {:induction false} HexRoundTrip(bytes: seq<Byte>)
    ensures HexDecode(HexEncode(bytes)) == Some(bytes)
    ensures forall c | c in HexEncode(bytes) :: IsDigit(c) || 'a' <= c <= 'f'
  {
    if bytes != [] {
      HexRoundTrip(bytes[1..]);
      var hex := HexEncode(bytes);
      assert hex[0] == HexChar(bytes[0] / 16) && hex[1] == HexChar(bytes[0] % 16);
      assert (16 * (bytes[0] / 16) + bytes[0] % 16) as Byte == bytes[0];
      assert [bytes[0]] + bytes[1..] == bytes;
      assert HexEncode(bytes)[2..] == HexEncode(bytes[1..]);
    }
  }

  /** Exactly the even strings of hexadecimal digits decode, two digits to the byte, the high one first. */
  lemma {:induction false} HexDecodeIff(s: string)
    ensures HexDecode(s).Some? <==> |s| % 2 == 0 && forall i | 0 <= i < |s| :: HexValue(s[i]).Some?
    ensures HexDecode(s).Some? ==>
              && 2 * |HexDecode(s).value| == |s|
              && forall i | 0 <= i < |HexDecode(s).value| ::
                   HexDecode(s).value[i] == 16 * HexValue(s[2 * i]).value + HexValue(s[2 * i + 1]).value
  {
    if |s| >= 2 {
      HexDecodeIff(s[2..]);
      assert forall i | 2 <= i < |s| :: s[i] == s[2..][i - 2];
      if HexDecode(s).Some? {
        assert HexDecode(s).value[1..] == HexDecode(s[2..]).value;
      }
    }
  }
}
