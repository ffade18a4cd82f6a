/**
 What binds an idempotency key to a request. The lab service compares the text itself
 (internal/app/service.go); the product service compares its SHA-256 (internal/product/service.go),
 which is taken to be injective, so both are the text here.
 */
module Fingerprint {
  import opened Text

  const NUL: char := '\0'

  function Lab(eventID: string, quantity: int): string {
    eventID + [NUL] + FormatInt(quantity)
  }

  function Product(eventID: string, quantity: int, source: string, externalID: string): string {
    eventID + [NUL] + FormatInt(quantity) + [NUL] + source + [NUL] + externalID
  }

  lemma NumbersHaveNoNul(n: int)
    ensures NUL !in FormatInt(n)
  {
    FormatIntIsPlain(n);
  }

  /** Whatever the event id contains, the lab fingerprint determines event and quantity. */
  lemma LabInjective(eventID: string, quantity: int, eventID': string, quantity': int)
    requires Lab(eventID, quantity) == Lab(eventID', quantity')
    ensures eventID == eventID' && quantity == quantity'
  {
    NumbersHaveNoNul(quantity);
    NumbersHaveNoNul(quantity');
    SplitAtLast(eventID, FormatInt(quantity), eventID', FormatInt(quantity'), NUL);
    FormatIntInjective(quantity, quantity');
  }

  ghost predicate SameFields(e: string, q: int, s: string, x: string, e': string, q': int, s': string, x': string) {
    e == e' && q == q' && s == s' && x == x'
  }

  /** The product fingerprint determines all four fields when neither source nor external id has a NUL;
      the event id may contain any. */
  lemma ProductInjective(e: string, q: int, s: string, x: string, e': string, q': int, s': string, x': string)
    requires NUL !in s && NUL !in x && NUL !in s' && NUL !in x'
    requires Product(e, q, s, x) == Product(e', q', s', x')
    ensures SameFields(e, q, s, x, e', q', s', x')
  {
    SplitAtLast(e + [NUL] + FormatInt(q) + [NUL] + s, x, e' + [NUL] + FormatInt(q') + [NUL] + s', x', NUL);
    SplitAtLast(e + [NUL] + FormatInt(q), s, e' + [NUL] + FormatInt(q'), s', NUL);
    LabInjective(e, q, e', q');
  }

  function Count(s: string, c: char): nat {
    if s == [] then 0 else Count(s[..|s| - 1], c) + if s[|s| - 1] == c then 1 else 0
  }

  lemma {:induction false} CountAdds(a: string, b: string, c: char)
    ensures Count(a + b, c) == Count(a, c) + Count(b, c)
  {
    if b == [] {
      assert a + b == a;
    } else {
      CountAdds(a, b[..|b| - 1], c);
      assert (a + b)[..|a + b| - 1] == a + b[..|b| - 1];
    }
  }

  lemma {:induction false} CountIsZeroIff(s: string, c: char)
    ensures Count(s, c) == 0 <==> c !in s
  {
    if s != [] {
      CountIsZeroIff(s[..|s| - 1], c);
      assert s == s[..|s| - 1] + [s[|s| - 1]];
    }
  }

  /** A product fingerprint has three separators, and the NULs of its texts besides. */
  lemma NulsOf(e: string, q: int, s: string, x: string)
    ensures Count(Product(e, q, s, x), NUL) == 3 + Count(e, NUL) + Count(s, NUL) + Count(x, NUL)
  {
    var n := FormatInt(q);
    NumbersHaveNoNul(q);
    CountIsZeroIff(n, NUL);
    var one: string := [NUL];
    assert one[..0] == [] && Count(one, NUL) == 1;
    CountAdds(e, one, NUL);
    CountAdds(e + one, n, NUL);
    CountAdds(e + one + n, one, NUL);
    CountAdds(e + one + n + one, s, NUL);
    CountAdds(e + one + n + one + s, one, NUL);
    CountAdds(e + one + n + one + s + one, x, NUL);
  }

  /** The fingerprint of texts without NUL belongs to no other texts, whatever those contain. */
  lemma StoredPinsAll(e: string, q: int, s: string, x: string, e': string, q': int, s': string, x': string)
    requires NUL !in e' && NUL !in s' && NUL !in x'
    requires Product(e, q, s, x) == Product(e', q', s', x')
    ensures SameFields(e, q, s, x, e', q', s', x')
  {
    NulsOf(e, q, s, x);
    NulsOf(e', q', s', x');
    CountIsZeroIff(e', NUL);
    CountIsZeroIff(s', NUL);
    CountIsZeroIff(x', NUL);
    CountIsZeroIff(s, NUL);
    CountIsZeroIff(x, NUL);
    ProductInjective(e, q, s, x, e', q', s', x');
  }

  /** Exactly then: the fingerprint pins down source and external id iff neither contains a NUL. */
  lemma SourceIsPinnedIff(e: string, q: int, s: string, x: string)
    ensures (forall s', x' :: Product(e, q, s, x) == Product(e, q, s', x') ==> s == s' && x == x')
            <==> NUL !in s && NUL !in x
  {
    if NUL in s || NUL in x {
      var s', x' := AnotherSplit(s, x);
      SameTail(e, q, s, x, s', x');
    } else {
      forall s', x' | Product(e, q, s, x) == Product(e, q, s', x') ensures s == s' && x == x' {
        SameTail(e, q, s, x, s', x');
        CleanSplitIsPinned(s, x, s', x');
      }
    }
  }

  lemma SameTail(e: string, q: int, s: string, x: string, s': string, x': string)
    ensures Product(e, q, s, x) == Product(e, q, s', x') <==> s + [NUL] + x == s' + [NUL] + x'
  {
    var head := e + [NUL] + FormatInt(q) + [NUL];
    var tail, tail' := s + [NUL] + x, s' + [NUL] + x';
    assert Product(e, q, s, x) == head + tail && Product(e, q, s', x') == head + tail';
    assert (head + tail)[|head|..] == tail && (head + tail')[|head|..] == tail';
  }

  lemma AnotherSplit(s: string, x: string) returns (s': string, x': string)
    requires NUL in s || NUL in x
    ensures s + [NUL] + x == s' + [NUL] + x' && s != s'
  {
    if NUL in s {
      var i :| 0 <= i < |s| && s[i] == NUL;
      s', x' := s[..i], s[i + 1..] + [NUL] + x;
      assert s == s' + [NUL] + s[i + 1..];
    } else {
      var i :| 0 <= i < |x| && x[i] == NUL;
      s', x' := s + [NUL] + x[..i], x[i + 1..];
      assert x == x[..i] + [NUL] + x';
    }
  }

  lemma CleanSplitIsPinned(s: string, x: string, s': string, x': string)
    requires NUL !in s && NUL !in x && s + [NUL] + x == s' + [NUL] + x'
    ensures s == s' && x == x'
  {
    var tail' := s' + [NUL] + x';
    FirstAfter(s, x, NUL);
    LastBefore(s, x, NUL);
    FirstIsFirst(tail', NUL, |s'|);
    LastIsLast(tail', NUL, |s'|);
    SameCut(s, x, s', x', NUL);
  }
}
