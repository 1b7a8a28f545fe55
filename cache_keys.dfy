/** The cache key of one page request, `email:offset:length`, built the way
    `String.format("%s:%d:%d", ...)` builds it, together with a parser that takes a key
    apart again. The parser is what shows that the key identifies its page: the two
    numerals never contain a colon, so reading the key from the right recovers all three
    fields, whatever the email contains. */
module CacheKeys {
  import opened Wrappers

  /** The three parts of a page request. */
  datatype PageKey = PageKey(email: string, offset: int, length: int)

  predicate IsDigit(c: char) { '0' <= c <= '9' }

  predicate AllDigits(s: string) { forall i :: 0 <= i < |s| ==> IsDigit(s[i]) }

  function DigitValue(c: char): nat
    requires IsDigit(c)
  {
    c as int - '0' as int
  }

  function DigitChar(d: nat): (c: char)
    requires d < 10
    ensures IsDigit(c) && DigitValue(c) == d
  {
    (d + '0' as int) as char
  }

  /** The decimal numeral of `n`, most significant digit first, without leading zeros:
      what `%d` prints for a non-negative value. */
  function NatToDecimal(n: nat): (s: string)
    ensures |s| > 0 && AllDigits(s)
    ensures n < 10 <==> |s| == 1
    decreases n
  {
    if n < 10 then [DigitChar(n)] else NatToDecimal(n / 10) + [DigitChar(n % 10)]
  }

  /** What `%d` prints for any int: a minus sign in front of the numeral of a negative
      value. No numeral contains a colon, which is what keeps the key readable. */
  function IntToDecimal(i: int): (s: string)
    ensures |s| > 0 && ':' !in s
    ensures s[0] == '-' <==> i < 0
  {
    var s := if i < 0 then "-" + NatToDecimal(-i) else NatToDecimal(i);
    assert forall j :: 0 <= j < |s| ==> s[j] == '-' || IsDigit(s[j]);
    s
  }

  /** The value of a digit string read in base ten (the empty string reads as zero). */
  function DigitsValue(s: string): nat
    requires AllDigits(s)
    decreases |s|
  {
    if s == [] then 0 else DigitsValue(s[..|s| - 1]) * 10 + DigitValue(s[|s| - 1])
  }

  /** Reads an optionally negative decimal numeral; anything else is rejected. */
  function ParseInt(s: string): Option<int> {
    if |s| > 1 && s[0] == '-' && AllDigits(s[1..]) then Some(0 - DigitsValue(s[1..]))
    else if |s| > 0 && AllDigits(s) then Some(DigitsValue(s))
    else None
  }

  /** Position of the last occurrence of `c` in `s`, if there is one. */
  function LastIndexOf(s: string, c: char): (r: Option<nat>)
    ensures r.None? <==> c !in s
    ensures r.Some? ==> r.value < |s| && s[r.value] == c && c !in s[r.value + 1..]
    decreases |s|
  {
    if s == [] then None
    else if s[|s| - 1] == c then Some(|s| - 1)
    else
      var r := LastIndexOf(s[..|s| - 1], c);
      assert s == s[..|s| - 1] + [s[|s| - 1]];
      r
  }

  /** The cache key of page (`email`, `offset`, `length`): it begins with the email,
      followed by a colon and at least three more characters. */
  function Key(email: string, offset: int, length: int): (k: string)
    ensures StartsWith(k, email)
    ensures |k| >= |email| + 4 && k[|email|] == ':'
  {
    var k := email + ":" + IntToDecimal(offset) + ":" + IntToDecimal(length);
    assert k[..|email|] == email;
    k
  }

  /** Splits a key at its last two colons into email, offset and length. */
  function ParseKey(k: string): Option<PageKey> {
    match LastIndexOf(k, ':')
    case None => None
    case Some(j) =>
      var rest := k[..j];
      match LastIndexOf(rest, ':')
      case None => None
      case Some(i) =>
        match (ParseInt(rest[i + 1..]), ParseInt(k[j + 1..]))
        case (Some(offset), Some(length)) => Some(PageKey(rest[..i], offset, length))
        case _ => None
  }

  /** Java's `String.startsWith`: `s` is at least as long as `prefix` and agrees with it
      on every position of `prefix`; every string starts with the empty string. */
  predicate StartsWith(s: string, prefix: string)
    ensures StartsWith(s, prefix) <==>
      |prefix| <= |s| && forall i :: 0 <= i < |prefix| ==> s[i] == prefix[i]
  {
    prefix <= s
  }

  lemma {:induction false} NatToDecimalRoundTrip(n: nat)
    ensures DigitsValue(NatToDecimal(n)) == n
  {
    if n >= 10 {
      var s := NatToDecimal(n);
      NatToDecimalRoundTrip(n / 10);
      assert s[..|s| - 1] == NatToDecimal(n / 10);
    }
  }

  lemma IntToDecimalRoundTrip(i: int)
    ensures ParseInt(IntToDecimal(i)) == Some(i)
  {
    var s := IntToDecimal(i);
    if i < 0 {
      NatToDecimalRoundTrip(-i);
      assert s[1..] == NatToDecimal(-i);
    } else {
      NatToDecimalRoundTrip(i);
    }
  }

  /** The colon written in front of a colon-free tail is the last colon of the whole. */
  lemma LastColonBeforeTail(a: string, u: string)
    requires ':' !in u
    ensures LastIndexOf(a + ":" + u, ':') == Some(|a|)
  {
    var s := a + ":" + u;
    assert s[|a|] == ':';
    var j := LastIndexOf(s, ':').value;
    if j < |a| {
      assert false;
    } else if j > |a| {
      assert false;
    }
  }

  /** Reading a key back gives the page it was built from. */
  lemma KeyRoundTrip(email: string, offset: int, length: int)
    ensures ParseKey(Key(email, offset, length)) == Some(PageKey(email, offset, length))
  {
    var o, l := IntToDecimal(offset), IntToDecimal(length);
    var head := email + ":" + o;
    var k := Key(email, offset, length);
    assert k == head + ":" + l;
    LastColonBeforeTail(head, l);
    assert k[..|head|] == head;
    assert k[|head| + 1..] == l;
    LastColonBeforeTail(email, o);
    assert head[..|email|] == email;
    assert head[|email| + 1..] == o;
    IntToDecimalRoundTrip(offset);
    IntToDecimalRoundTrip(length);
  }

  /** Two page requests share a cache entry only when they are the same request. */
  lemma KeyInjective(e1: string, o1: int, l1: int, e2: string, o2: int, l2: int)
    requires Key(e1, o1, l1) == Key(e2, o2, l2)
    ensures e1 == e2 && o1 == o2 && l1 == l2
  {
    KeyRoundTrip(e1, o1, l1);
    KeyRoundTrip(e2, o2, l2);
  }

  /** For an email without a colon, the prefix test on a page's key is exactly the prefix
      test on the page's owner: the key of a page owned by `owner` starts with `email` iff
      `owner` starts with `email`, so it reaches every owner that extends `email`. */
  lemma ColonFreePrefixFootprint(email: string, owner: string, offset: int, length: int)
    requires ':' !in email
    ensures StartsWith(Key(owner, offset, length), email) <==> StartsWith(owner, email)
  {
    var k := Key(owner, offset, length);
    if StartsWith(k, email) {
      assert |email| <= |owner| by {
        assert k[|owner|] == ':';
      }
      assert email == k[..|email|] == owner[..|email|];
    }
  }

  /** An email that contains a colon can reach past the owner field: "a:0" is a prefix of
      the key of page (a, 0, 20), whose owner "a" does not start with "a:0". */
  lemma ColonEmailReachesOtherOwner()
    ensures StartsWith(Key("a", 0, 20), "a:0") && !StartsWith("a", "a:0")
  {
    assert NatToDecimal(0) == "0";
    assert NatToDecimal(2) == "2";
    assert NatToDecimal(20) == "20";
  }
}
