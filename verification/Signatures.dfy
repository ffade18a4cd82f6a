/**
 Timestamped webhook signatures, internal/product/signatures.go. `mac` stands for HMAC-SHA-256 with
 text in and bytes out; nothing is assumed of it. Times are nanoseconds since 1970.
 */
module Signatures {
  import opened Common
  import opened Text

  type Mac = (string, string) -> seq<Byte>

  /* ---------- the library functions the verifier is built on ---------- */

  function Split(s: string, sep: char): seq<string>
    decreases |s|
  {
    if sep !in s then [s]
    else
      var i := IndexOf(s, sep);
      if i < |s| then [s[..i]] + Split(s[i + 1..], sep) else [s]
  }

  /** Text before and after the first separator. */
  function Cut(s: string, sep: char): Option<(string, string)> {
    var i := IndexOf(s, sep);
    if i < |s| then Some((s[..i], s[i + 1..])) else None
  }

  predicate IsSpace(c: char) {
    var n := c as int;
    n in {9, 10, 11, 12, 13, 32, 0x85, 0xA0, 0x1680, 0x2028, 0x2029, 0x202F, 0x205F, 0x3000} || 0x2000 <= n <= 0x200A
  }

  function TrimLeft(s: string): string {
    if s != "" && IsSpace(s[0]) then TrimLeft(s[1..]) else s
  }

  function TrimRight(s: string): string {
    if s != "" && IsSpace(s[|s| - 1]) then TrimRight(s[..|s| - 1]) else s
  }

  function TrimSpace(s: string): string {
    TrimRight(TrimLeft(s))
  }

  /** time.Time.Sub: a difference beyond 64 bits saturates. */
  function Sub(a: int, b: int): int {
    if a - b > MAX_INT64 then MAX_INT64 else if a - b < MIN_INT64 then MIN_INT64 else a - b
  }

  /* ---------- signing and what verification means ---------- */

  function Signed(timestamp: int, payload: string): string {
    FormatInt(timestamp) + "." + payload
  }

  function Sign(mac: Mac, payload: string, secret: string, seconds: int): string {
    "t=" + FormatInt(seconds) + ",v1=" + HexEncode(mac(Signed(seconds, payload), secret))
  }

  /** The value a header part gives to `key`, if any. */
  function Field(part: string, key: string): Option<string> {
    match Cut(TrimSpace(part), '=')
    case Some((k, v)) => if k == key then Some(v) else None
    case None => None
  }

  /** The last t field wins; 0 when there is none or it does not parse. */
  function Timestamp(parts: seq<string>): int {
    if parts == [] then 0
    else
      match Field(parts[|parts| - 1], "t")
      case Some(v) => ParseInt(v)
      case None => Timestamp(parts[..|parts| - 1])
  }

  /** All v1 fields, in order. */
  function Candidates(parts: seq<string>): seq<string> {
    if parts == [] then []
    else
      Candidates(parts[..|parts| - 1])
      + match Field(parts[|parts| - 1], "v1") case Some(v) => [v] case None => []
  }

  predicate Timely(timestamp: int, now: int, tolerance: int) {
    tolerance <= 0 || (Sub(now, timestamp * SECOND) <= tolerance && Sub(timestamp * SECOND, now) <= tolerance)
  }

  ghost predicate Accepts(mac: Mac, header: string, payload: string, secret: string, now: int, tolerance: int) {
    var parts := Split(header, ',');
    var timestamp := Timestamp(parts);
    && timestamp != 0
    && Timely(timestamp, now, tolerance)
    && exists i ::
         && 0 <= i < |Candidates(parts)|
         && HexDecode(Candidates(parts)[i]) == Some(mac(Signed(timestamp, payload), secret))
  }

  /** The loop over the header's parts. */
  method ReadHeader(header: string) returns (timestamp: int, signatures: seq<string>)
    ensures timestamp == Timestamp(Split(header, ',')) && signatures == Candidates(Split(header, ','))
  {
    timestamp, signatures := 0, [];
    var parts := Split(header, ',');
    var i := 0;
    while i < |parts|
      invariant 0 <= i <= |parts|
      invariant timestamp == Timestamp(parts[..i]) && signatures == Candidates(parts[..i])
    {
      assert parts[..i + 1][..i] == parts[..i];
      var field := Cut(TrimSpace(parts[i]), '=');
      i := i + 1;
      if field.None? {
        continue;
      }
      var (key, value) := field.value;
      if key == "t" {
        timestamp := ParseInt(value);
      } else if key == "v1" {
        signatures := signatures + [value];
      }
    }
    assert parts[..i] == parts;
  }

  /** The loop over the candidate signatures. */
  method AnyMatches(signatures: seq<string>, expected: seq<Byte>) returns (ok: bool)
    ensures ok <==> exists i :: 0 <= i < |signatures| && HexDecode(signatures[i]) == Some(expected)
  {
    for j := 0 to |signatures|
      invariant forall k | 0 <= k < j :: HexDecode(signatures[k]) != Some(expected)
    {
      if HexDecode(signatures[j]) == Some(expected) {
        return true;
      }
    }
    ok := false;
  }

  method Verify(mac: Mac, header: string, payload: string, secret: string, now: int, tolerance: int) returns (ok: bool)
    ensures ok <==> Accepts(mac, header, payload, secret, now, tolerance)
  {
    var timestamp, signatures := ReadHeader(header);
    if timestamp == 0 || |signatures| == 0 {
      return false;
    }
    var signedAt := timestamp * SECOND;
    if tolerance > 0 && (Sub(now, signedAt) > tolerance || Sub(signedAt, now) > tolerance) {
      return false;
    }
    HexRoundTrip(mac(Signed(timestamp, payload), secret));
    var expected := HexDecode(HexEncode(mac(Signed(timestamp, payload), secret)));
    if expected.None? {
      return false;
    }
    ok := AnyMatches(signatures, expected.value);
  }

  /* ---------- round trip ---------- */

  lemma {:induction false} NoSeparator(s: string, sep: char)
    requires sep !in s
    ensures IndexOf(s, sep) == |s|
  {
    if s != "" {
      assert s[0] in s;
      NoSeparator(s[1..], sep);
    }
  }

  lemma SplitOnce(a: string, b: string, sep: char)
    requires sep !in a && sep !in b
    ensures Split(a + [sep] + b, sep) == [a, b]
  {
    var s := a + [sep] + b;
    FirstAfter(a, b, sep);
    assert s[|a|] == sep;
    assert s[..|a|] == a && s[|a| + 1..] == b;
  }

  lemma CutOnce(a: string, b: string, sep: char)
    requires sep !in a
    ensures Cut(a + [sep] + b, sep) == Some((a, b))
  {
    var s := a + [sep] + b;
    FirstAfter(a, b, sep);
    assert s[..|a|] == a && s[|a| + 1..] == b;
  }

  lemma NothingToTrim(s: string)
    requires s != "" && !IsSpace(s[0]) && !IsSpace(s[|s| - 1])
    ensures TrimSpace(s) == s
  {
  }

  /** A part written as key=value, without space at either end, reads back as that field and no other. */
  lemma PlainField(key: string, value: string)
    requires key != "" && !IsSpace(key[0]) && '=' !in key
    requires forall c | c in value :: IsDigit(c) || c == '-' || 'a' <= c <= 'f'
    ensures Field(key + "=" + value, key) == Some(value)
    ensures forall other | other != key :: Field(key + "=" + value, other) == None
  {
    var part := key + "=" + value;
    assert part[0] == key[0];
    if value == "" {
      assert part[|part| - 1] == '=';
    } else {
      assert part[|part| - 1] == value[|value| - 1] && value[|value| - 1] in value;
    }
    NothingToTrim(part);
    assert part == key + ['='] + value;
    CutOnce(key, value, '=');
  }

  lemma TwoFields(t: string, number: string, v: string, hex: string)
    requires Field(t, "t") == Some(number) && Field(t, "v1") == None
    requires Field(v, "v1") == Some(hex) && Field(v, "t") == None
    ensures Timestamp([t, v]) == ParseInt(number) && Candidates([t, v]) == [hex]
  {
    var parts := [t, v];
    assert parts[..1] == [t] && [t][..0] == [];
    assert Candidates([t]) == [];
    assert Candidates(parts) == Candidates([t]) + [hex];
  }

  /** How the verifier reads a header the signer wrote. */
  lemma SignedHeaderParses(mac: Mac, payload: string, secret: string, seconds: int)
    requires MIN_INT64 <= seconds <= MAX_INT64
    ensures var parts := Split(Sign(mac, payload, secret, seconds), ',');
            && Timestamp(parts) == seconds
            && Candidates(parts) == [HexEncode(mac(Signed(seconds, payload), secret))]
  {
    var number, hex := FormatInt(seconds), HexEncode(mac(Signed(seconds, payload), secret));
    FormatIntIsPlain(seconds);
    HexRoundTrip(mac(Signed(seconds, payload), secret));
    ParseFormat(seconds);
    PrintedParses(number, hex);
    assert Sign(mac, payload, secret, seconds) == "t=" + number + ",v1=" + hex;
  }

  lemma PrintedParses(number: string, hex: string)
    requires PlainNumber(number) && forall c | c in hex :: IsDigit(c) || 'a' <= c <= 'f'
    ensures var parts := Split("t=" + number + ",v1=" + hex, ',');
            Timestamp(parts) == ParseInt(number) && Candidates(parts) == [hex]
  {
    PlainField("t", number);
    PlainField("v1", hex);
    assert "t" + "=" + number == "t=" + number && "v1" + "=" + hex == "v1=" + hex;
    TwoFields("t=" + number, number, "v1=" + hex, hex);
    HeaderSplits(number, hex);
  }

  lemma HeaderSplits(number: string, hex: string)
    requires PlainNumber(number) && forall c | c in hex :: IsDigit(c) || 'a' <= c <= 'f'
    ensures Split("t=" + number + ",v1=" + hex, ',') == ["t=" + number, "v1=" + hex]
  {
    var t, v := "t=" + number, "v1=" + hex;
    assert forall c | c in t :: c in "t=" || c in number;
    assert forall c | c in v :: c in "v1=" || c in hex;
    SplitOnce(t, v, ',');
    assert t + [','] + v == "t=" + number + ",v1=" + hex;
  }

  /** A header signed for `seconds` verifies for the same payload and secret exactly when the second is
      not 0 and lies within the tolerance of now; a tolerance of 0 or less switches the age check off,
      and so does the largest one, because differences saturate there. */
  lemma SignThenVerify(mac: Mac, payload: string, secret: string, seconds: int, now: int, tolerance: int)
    requires MIN_INT64 <= seconds <= MAX_INT64 && tolerance <= MAX_INT64
    ensures Accepts(mac, Sign(mac, payload, secret, seconds), payload, secret, now, tolerance)
            <==> seconds != 0
                 && (tolerance <= 0 || tolerance == MAX_INT64
                     || (now - seconds * SECOND <= tolerance && seconds * SECOND - now <= tolerance))
  {
    SignedHeaderParses(mac, payload, secret, seconds);
    HexRoundTrip(mac(Signed(seconds, payload), secret));
    var parts := Split(Sign(mac, payload, secret, seconds), ',');
    assert HexDecode(Candidates(parts)[0]) == Some(mac(Signed(seconds, payload), secret));
  }

  /** The signed text is uniquely decodable: timestamp and payload cannot trade characters. */
  lemma SignedIsInjective(t: int, payload: string, t': int, payload': string)
    requires Signed(t, payload) == Signed(t', payload')
    ensures t == t' && payload == payload'
  {
    FormatIntIsPlain(t);
    FormatIntIsPlain(t');
    SplitAtFirst(FormatInt(t), payload, FormatInt(t'), payload', '.');
    FormatIntInjective(t, t');
  }

  /** A signed header accepted for another payload or with another secret exhibits two inputs with one
      MAC: with a collision-free MAC it is accepted for its own payload only. */
  lemma AcceptedElsewhereIsCollision(mac: Mac, payload: string, secret: string, seconds: int,
                                     payload': string, secret': string, now: int, tolerance: int)
    requires MIN_INT64 <= seconds <= MAX_INT64
    requires Accepts(mac, Sign(mac, payload, secret, seconds), payload', secret', now, tolerance)
    ensures mac(Signed(seconds, payload'), secret') == mac(Signed(seconds, payload), secret)
    ensures payload != payload' ==> Signed(seconds, payload') != Signed(seconds, payload)
  {
    SignedHeaderParses(mac, payload, secret, seconds);
    HexRoundTrip(mac(Signed(seconds, payload), secret));
    if Signed(seconds, payload') == Signed(seconds, payload) {
      SignedIsInjective(seconds, payload, seconds, payload');
    }
  }
}
