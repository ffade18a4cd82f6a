/**
 The text a failed webhook attempt leaves in last_error (internal/product/webhook.go, `process`), and
 whether PostgreSQL can store it: a text column takes UTF-8 without NUL and refuses the statement otherwise.
 */
module FailureText {
  import opened Text

  predicate Continues(b: Byte) {
    0x80 <= b < 0xC0
  }

  /** How many bytes the first character takes; 0 if none starts here. Section 4 of RFC 3629. */
  function FirstLength(s: seq<Byte>): nat {
    if |s| >= 1 && s[0] < 0x80 then 1
    else if |s| >= 2 && 0xC2 <= s[0] < 0xE0 && Continues(s[1]) then 2
    else if |s| >= 3 && 0xE0 <= s[0] < 0xF0 && Continues(s[1]) && Continues(s[2])
            && (s[0] == 0xE0 ==> s[1] >= 0xA0) && (s[0] == 0xED ==> s[1] < 0xA0) then 3
    else if |s| >= 4 && 0xF0 <= s[0] < 0xF5 && Continues(s[1]) && Continues(s[2]) && Continues(s[3])
            && (s[0] == 0xF0 ==> s[1] >= 0x90) && (s[0] == 0xF4 ==> s[1] < 0x90) then 4
    else 0
  }

  predicate Utf8(s: seq<Byte>) {
    s != [] ==> FirstLength(s) > 0 && Utf8(s[FirstLength(s)..])
  }

  predicate Storable(text: seq<Byte>) {
    0 !in text && Utf8(text)
  }

  /** io.LimitReader(response.Body, 512). */
  function Cut(body: seq<Byte>): seq<Byte> {
    if |body| > 512 then body[..512] else body
  }

  /** "receiver returned <status>: " and the body. */
  function Refusal(prefix: seq<Byte>, body: seq<Byte>): seq<Byte> {
    prefix + Cut(body)
  }

  /* ---------- the same by characters ---------- */

  /** A Unicode scalar value: no surrogate. */
  predicate Scalar(c: nat) {
    c < 0xD800 || 0xE000 <= c < 0x11_0000
  }

  /** Section 3 of RFC 3629. */
  function Encode(c: nat): seq<Byte>
    requires Scalar(c)
  {
    if c < 0x80 then [c]
    else if c < 0x800 then [0xC0 + c / 64, 0x80 + c % 64]
    else if c < 0x1_0000 then [0xE0 + c / 4096, 0x80 + c / 64 % 64, 0x80 + c % 64]
    else [0xF0 + c / 262_144, 0x80 + c / 4096 % 64, 0x80 + c / 64 % 64, 0x80 + c % 64]
  }

  function EncodeAll(chars: seq<nat>): seq<Byte>
    requires forall c | c in chars :: Scalar(c)
  {
    if chars == [] then [] else Encode(chars[0]) + EncodeAll(chars[1..])
  }

  /** Every character is one to the reader, whatever follows. */
  lemma EncodedIsFirst(c: nat, rest: seq<Byte>)
    requires Scalar(c)
    ensures FirstLength(Encode(c) + rest) == |Encode(c)| > 0
    ensures 0 in Encode(c) <==> c == 0
  {
  }

  /** The low six bits of a byte that continues a character. */
  function Low(b: Byte): nat {
    b % 64
  }

  function First(s: seq<Byte>): nat
    requires FirstLength(s) > 0
  {
    match FirstLength(s)
    case 1 => s[0]
    case 2 => s[0] % 32 * 64 + Low(s[1])
    case 3 => s[0] % 16 * 4096 + Low(s[1]) * 64 + Low(s[2])
    case _ => s[0] % 8 * 262_144 + Low(s[1]) * 4096 + Low(s[2]) * 64 + Low(s[3])
  }

  lemma Digits(a: nat, b: nat, c: nat, d: nat)
    requires b < 64 && c < 64 && d < 64
    ensures var n := a * 262_144 + b * 4096 + c * 64 + d;
            n / 262_144 == a && n / 4096 % 64 == b && n / 64 % 64 == c && n % 64 == d
  {
    var n := a * 262_144 + b * 4096 + c * 64 + d;
    assert n / 64 == a * 4096 + b * 64 + c;
    assert n / 4096 == a * 64 + b;
  }

  lemma TwoBytes(s: seq<Byte>)
    requires FirstLength(s) == 2
    ensures Scalar(First(s)) && Encode(First(s)) == s[..2]
  {
    Digits(0, 0, s[0] % 32, Low(s[1]));
  }

  lemma ThreeBytes(s: seq<Byte>)
    requires FirstLength(s) == 3
    ensures Scalar(First(s)) && Encode(First(s)) == s[..3]
  {
    Digits(0, s[0] % 16, Low(s[1]), Low(s[2]));
  }

  lemma FourBytes(s: seq<Byte>)
    requires FirstLength(s) == 4
    ensures Scalar(First(s)) && Encode(First(s)) == s[..4]
  {
    Digits(s[0] % 8, Low(s[1]), Low(s[2]), Low(s[3]));
  }

  /** And what the reader takes for one is one. */
  lemma FirstIsEncoded(s: seq<Byte>)
    requires FirstLength(s) > 0
    ensures FirstLength(s) <= |s| && Scalar(First(s)) && Encode(First(s)) == s[..FirstLength(s)]
  {
    match FirstLength(s)
    case 1 =>
    case 2 => TwoBytes(s);
    case 3 => ThreeBytes(s);
    case _ => FourBytes(s);
  }

  lemma {:induction false} EncodedIsUtf8(chars: seq<nat>)
    requires forall c | c in chars :: Scalar(c)
    ensures Utf8(EncodeAll(chars)) && (0 in EncodeAll(chars) <==> 0 in chars)
  {
    if chars != [] {
      EncodedIsUtf8(chars[1..]);
      EncodedIsFirst(chars[0], EncodeAll(chars[1..]));
      assert EncodeAll(chars)[|Encode(chars[0])|..] == EncodeAll(chars[1..]);
      assert chars == [chars[0]] + chars[1..];
    }
  }

  lemma {:induction false} Utf8IsEncoded(s: seq<Byte>) returns (chars: seq<nat>)
    requires Utf8(s)
    ensures (forall c | c in chars :: Scalar(c)) && EncodeAll(chars) == s
  {
    if s == [] {
      chars := [];
    } else {
      FirstIsEncoded(s);
      var rest := Utf8IsEncoded(s[FirstLength(s)..]);
      chars := [First(s)] + rest;
      assert chars[1..] == rest;
    }
  }

  /** What can be stored is exactly the text of characters other than NUL. */
  lemma StorableIff(text: seq<Byte>)
    ensures Storable(text)
            <==> exists chars: seq<nat> ::
                   (forall c | c in chars :: Scalar(c) && c != 0) && EncodeAll(chars) == text
  {
    if Storable(text) {
      var chars := Utf8IsEncoded(text);
      EncodedIsUtf8(chars);
    }
    if chars: seq<nat> :| (forall c | c in chars :: Scalar(c) && c != 0) && EncodeAll(chars) == text {
      EncodedIsUtf8(chars);
    }
  }

  predicate Ascii(s: seq<Byte>) {
    forall b | b in s :: 0 < b < 0x80
  }

  lemma {:induction false} AsciiThen(a: seq<Byte>, s: seq<Byte>)
    requires Ascii(a)
    ensures Utf8(a + s) <==> Utf8(s)
  {
    if a == [] {
      assert a + s == s;
    } else {
      assert forall b | b in a[1..] :: b in a;
      AsciiThen(a[1..], s);
      assert a[0] in a && (a + s)[1..] == a[1..] + s;
    }
  }

  /** 511 letters and one character of two bytes. */
  function Letters(n: nat): (s: seq<Byte>)
    ensures |s| == n && Ascii(s)
  {
    if n == 0 then [] else Letters(n - 1) + [97]
  }

  function LongBody(): seq<Byte> {
    Letters(511) + [0xC3, 0xA9]
  }

  /** A receiver that answers in perfect UTF-8 without NUL can still leave a text that cannot be stored:
      the cut at 512 bytes may go through a character. */
  lemma CutTextIsNotStorable(prefix: seq<Byte>)
    requires Ascii(prefix)
    ensures Storable(LongBody()) && !Storable(Refusal(prefix, LongBody()))
  {
    var a, e: seq<Byte> := Letters(511), [0xC3, 0xA9];
    assert e[2..] == [] && FirstLength(e) == 2;
    AsciiThen(a, e);
    assert Cut(LongBody()) == a + [0xC3];
    assert Refusal(prefix, LongBody()) == (prefix + a) + [0xC3];
    AsciiThen(prefix + a, [0xC3]);
    assert FirstLength([0xC3]) == 0;
  }
}
