/** What a signature header says to the verifier, by its text. */
module SignatureHeaders {
  import opened Common
  import opened Text
  import opened Signatures

  function Join(parts: seq<string>): string {
    if parts == [] then "" else if |parts| == 1 then parts[0] else parts[0] + [','] + Join(parts[1..])
  }

  lemma SplitFirst(a: string, rest: string)
    requires ',' !in a
    ensures Split(a + [','] + rest, ',') == [a] + Split(rest, ',')
  {
    var s := a + [','] + rest;
    FirstAfter(a, rest, ',');
    assert s[|a|] == ',' && s[..|a|] == a && s[|a| + 1..] == rest;
  }

  /** Splitting at commas undoes joining with them. */
  lemma {:induction false} SplitJoin(parts: seq<string>)
    requires parts != [] && forall i | 0 <= i < |parts| :: ',' !in parts[i]
    ensures Split(Join(parts), ',') == parts
  {
    if |parts| > 1 {
      SplitJoin(parts[1..]);
      SplitFirst(parts[0], Join(parts[1..]));
      assert parts == [parts[0]] + parts[1..];
    }
  }

  ghost predicate Blank(s: string) {
    forall c | c in s :: IsSpace(c)
  }

  lemma {:induction false} TrimLeftSkips(blank: string, s: string)
    requires Blank(blank)
    ensures TrimLeft(blank + s) == TrimLeft(s)
  {
    if blank == "" {
      assert blank + s == s;
    } else {
      assert blank[0] in blank && (blank + s)[1..] == blank[1..] + s;
      TrimLeftSkips(blank[1..], s);
    }
  }

  lemma {:induction false} TrimRightSkips(s: string, blank: string)
    requires Blank(blank)
    ensures TrimRight(s + blank) == TrimRight(s)
  {
    if blank == "" {
      assert s + blank == s;
    } else {
      assert blank[|blank| - 1] in blank && (s + blank)[..|s + blank| - 1] == s + blank[..|blank| - 1];
      TrimRightSkips(s, blank[..|blank| - 1]);
    }
  }

  /** Space around a part of the header changes nothing. */
  lemma SpaceIsIgnored(before: string, part: string, after: string, key: string)
    requires Blank(before) && Blank(after) && part != "" && !IsSpace(part[0]) && !IsSpace(part[|part| - 1])
    ensures Field(before + part + after, key) == Field(part, key)
  {
    assert before + part + after == before + (part + after);
    TrimLeftSkips(before, part + after);
    assert TrimLeft(part + after) == part + after;
    TrimRightSkips(part, after);
    NothingToTrim(part);
  }

  /** The candidates are the values of all v1 fields. */
  lemma {:induction false} CandidatesAreAll(parts: seq<string>, value: string)
    ensures value in Candidates(parts) <==> exists i :: 0 <= i < |parts| && Field(parts[i], "v1") == Some(value)
  {
    if parts != [] {
      var before := parts[..|parts| - 1];
      CandidatesAreAll(before, value);
      assert forall i | 0 <= i < |before| :: before[i] == parts[i];
      if value in Candidates(parts) && value !in Candidates(before) {
        assert Field(parts[|parts| - 1], "v1") == Some(value);
      }
    }
  }

  /** The timestamp is the value of the last t field, or 0 without one. */
  lemma {:induction false} TimestampIsLast(parts: seq<string>, last: int)
    requires -1 <= last < |parts| && forall j | last < j < |parts| :: Field(parts[j], "t").None?
    requires last >= 0 ==> Field(parts[last], "t").Some?
    ensures Timestamp(parts) == if last == -1 then 0 else ParseInt(Field(parts[last], "t").value)
  {
    if last < |parts| - 1 {
      TimestampIsLast(parts[..|parts| - 1], last);
    }
  }

  /* ---------- a header with several signatures, as while a secret is rotated ---------- */

  ghost function Fields(mac: Mac, signed: string, secrets: seq<string>): seq<string> {
    seq(|secrets|, i requires 0 <= i < |secrets| => "v1=" + HexEncode(mac(signed, secrets[i])))
  }

  ghost function Parts(mac: Mac, payload: string, secrets: seq<string>, seconds: int): seq<string> {
    ["t=" + FormatInt(seconds)] + Fields(mac, Signed(seconds, payload), secrets)
  }

  ghost function SignAll(mac: Mac, payload: string, secrets: seq<string>, seconds: int): string {
    Join(Parts(mac, payload, secrets, seconds))
  }

  lemma Prefixed(prefix: string, text: string, c: char)
    requires c !in prefix && c !in text
    ensures c !in prefix + text
  {
  }

  lemma TimePart(seconds: int)
    requires MIN_INT64 <= seconds <= MAX_INT64
    ensures var part := "t=" + FormatInt(seconds);
            && ',' !in part && Field(part, "v1") == None && Field(part, "t") == Some(FormatInt(seconds))
  {
    var number := FormatInt(seconds);
    FormatIntIsPlain(seconds);
    assert "t=" + number == "t" + "=" + number;
    PlainField("t", number);
    Prefixed("t=", number, ',');
  }

  lemma SignaturePart(bytes: seq<Byte>)
    ensures var part := "v1=" + HexEncode(bytes);
            && ',' !in part && Field(part, "t") == None && Field(part, "v1") == Some(HexEncode(bytes))
  {
    var hex := HexEncode(bytes);
    HexRoundTrip(bytes);
    assert "v1=" + hex == "v1" + "=" + hex;
    PlainField("v1", hex);
    Prefixed("v1=", hex, ',');
  }

  lemma PartAt(mac: Mac, payload: string, secrets: seq<string>, seconds: int, i: nat)
    requires MIN_INT64 <= seconds <= MAX_INT64 && i <= |secrets|
    ensures |Parts(mac, payload, secrets, seconds)| == |secrets| + 1
    ensures var part := Parts(mac, payload, secrets, seconds)[i];
            && ',' !in part
            && Field(part, "t") == (if i == 0 then Some(FormatInt(seconds)) else None)
            && Field(part, "v1") == if i == 0 then None
                                    else Some(HexEncode(mac(Signed(seconds, payload), secrets[i - 1])))
  {
    if i == 0 {
      TimePart(seconds);
    } else {
      SignaturePart(mac(Signed(seconds, payload), secrets[i - 1]));
    }
  }

  /** How the verifier reads such a header. */
  lemma AllAreRead(mac: Mac, payload: string, secrets: seq<string>, seconds: int, parts: seq<string>)
    requires MIN_INT64 <= seconds <= MAX_INT64 && parts == Parts(mac, payload, secrets, seconds)
    ensures Split(SignAll(mac, payload, secrets, seconds), ',') == parts && Timestamp(parts) == seconds
  {
    PartAt(mac, payload, secrets, seconds, 0);
    forall i | 0 <= i < |parts|
      ensures ',' !in parts[i] && (i > 0 ==> Field(parts[i], "t") == None)
    {
      PartAt(mac, payload, secrets, seconds, i);
    }
    SplitJoin(parts);
    ParseFormat(seconds);
    TimestampIsLast(parts, 0);
  }

  ghost predicate Decodes(parts: seq<string>, expected: seq<Byte>) {
    exists i :: 0 <= i < |Candidates(parts)| && HexDecode(Candidates(parts)[i]) == Some(expected)
  }

  /** A candidate that decodes to `expected` is a v1 field that does. */
  lemma DecodesIff(parts: seq<string>, expected: seq<Byte>)
    ensures Decodes(parts, expected)
            <==> exists i :: 0 <= i < |parts| && Field(parts[i], "v1").Some?
                             && HexDecode(Field(parts[i], "v1").value) == Some(expected)
  {
    if Decodes(parts, expected) {
      var i :| 0 <= i < |Candidates(parts)| && HexDecode(Candidates(parts)[i]) == Some(expected);
      CandidatesAreAll(parts, Candidates(parts)[i]);
    }
    if i :| 0 <= i < |parts| && Field(parts[i], "v1").Some?
            && HexDecode(Field(parts[i], "v1").value) == Some(expected) {
      CandidatesAreAll(parts, Field(parts[i], "v1").value);
      assert Field(parts[i], "v1").value in Candidates(parts);
    }
  }

  /** What the i-th part of such a header decodes to. */
  lemma PartDecodes(mac: Mac, payload: string, secrets: seq<string>, seconds: int, parts: seq<string>, i: nat)
    requires MIN_INT64 <= seconds <= MAX_INT64 && i < |parts| && parts == Parts(mac, payload, secrets, seconds)
    ensures |parts| == |secrets| + 1
    ensures Field(parts[i], "v1").Some? <==> i > 0
    ensures i > 0 ==> HexDecode(Field(parts[i], "v1").value) == Some(mac(Signed(seconds, payload), secrets[i - 1]))
  {
    PartAt(mac, payload, secrets, seconds, i);
    if i > 0 {
      HexRoundTrip(mac(Signed(seconds, payload), secrets[i - 1]));
    }
  }

  lemma OneOfThemDecodes(mac: Mac, payload: string, secrets: seq<string>, seconds: int, parts: seq<string>,
                         expected: seq<Byte>)
    requires MIN_INT64 <= seconds <= MAX_INT64 && parts == Parts(mac, payload, secrets, seconds)
    ensures Decodes(parts, expected)
            <==> exists i :: 0 <= i < |secrets| && mac(Signed(seconds, payload), secrets[i]) == expected
  {
    DecodesIff(parts, expected);
    if Decodes(parts, expected) {
      var i :| 0 <= i < |parts| && Field(parts[i], "v1").Some?
               && HexDecode(Field(parts[i], "v1").value) == Some(expected);
      PartDecodes(mac, payload, secrets, seconds, parts, i);
    }
    if i :| 0 <= i < |secrets| && mac(Signed(seconds, payload), secrets[i]) == expected {
      PartDecodes(mac, payload, secrets, seconds, parts, i + 1);
    }
  }

  lemma TimelyIff(seconds: int, now: int, tolerance: int)
    requires tolerance <= MAX_INT64
    ensures Timely(seconds, now, tolerance)
            <==> || tolerance <= 0 || tolerance == MAX_INT64
                 || (now - seconds * SECOND <= tolerance && seconds * SECOND - now <= tolerance)
  {
  }

  lemma AcceptsIff(mac: Mac, header: string, payload: string, secret: string, now: int, tolerance: int, seconds: int)
    requires Timestamp(Split(header, ',')) == seconds
    ensures Accepts(mac, header, payload, secret, now, tolerance)
            <==> && seconds != 0 && Timely(seconds, now, tolerance)
                 && Decodes(Split(header, ','), mac(Signed(seconds, payload), secret))
  {
  }

  /** A payload signed with several secrets verifies, in time, with every one of them, wherever it stands,
      and with another secret only if that gives one of their MACs. */
  lemma EverySecretVerifies(mac: Mac, payload: string, secrets: seq<string>, secret: string, seconds: int, now: int,
                            tolerance: int)
    requires MIN_INT64 <= seconds <= MAX_INT64 && tolerance <= MAX_INT64
    ensures Accepts(mac, SignAll(mac, payload, secrets, seconds), payload, secret, now, tolerance)
            <==> && seconds != 0
                 && (tolerance <= 0 || tolerance == MAX_INT64
                     || (now - seconds * SECOND <= tolerance && seconds * SECOND - now <= tolerance))
                 && exists i :: 0 <= i < |secrets|
                                && mac(Signed(seconds, payload), secrets[i]) == mac(Signed(seconds, payload), secret)
  {
    var parts := Parts(mac, payload, secrets, seconds);
    AllAreRead(mac, payload, secrets, seconds, parts);
    OneOfThemDecodes(mac, payload, secrets, seconds, parts, mac(Signed(seconds, payload), secret));
    AcceptsIff(mac, SignAll(mac, payload, secrets, seconds), payload, secret, now, tolerance, seconds);
    TimelyIff(seconds, now, tolerance);
  }
}
