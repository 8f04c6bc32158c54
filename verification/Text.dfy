/**
 * The string routines of the Go standard library the server relies on.  A Go string is
 * a sequence of bytes; here each char stands for one byte.
 */
module Text {
  import opened Wrappers

  const MIN_INT64: int := -0x8000_0000_0000_0000
  const MAX_INT64: int := 0x7fff_ffff_ffff_ffff

  predicate IsInt64(n: int) { MIN_INT64 <= n <= MAX_INT64 }

  /** Two's complement reduction: what a 64-bit signed addition stores. */
  function Wrap64(n: int): (r: int)
    ensures IsInt64(r)
    ensures IsInt64(n) ==> r == n
  {
    (n + 0x8000_0000_0000_0000) % 0x1_0000_0000_0000_0000 - 0x8000_0000_0000_0000
  }

  /** It differs from the sum by a multiple of 2 to the 64th. */
  lemma WrapsByMultiples(n: int)
    ensures (n - Wrap64(n)) % 0x1_0000_0000_0000_0000 == 0
  {
    var m := n + 0x8000_0000_0000_0000;
    assert n - Wrap64(n) == m - m % 0x1_0000_0000_0000_0000;
    assert m - m % 0x1_0000_0000_0000_0000 == 0x1_0000_0000_0000_0000 * (m / 0x1_0000_0000_0000_0000);
  }

  // ---------- splitting ----------

  /** The first position of `sep`, or |s|. */
  function Find(s: string, sep: char): (i: nat)
    ensures i <= |s| && sep !in s[..i]
    ensures i < |s| ==> s[i] == sep
  {
    if s == [] || s[0] == sep then 0 else
    var i := Find(s[1..], sep) + 1;
    assert s[..i] == [s[0]] + s[1..][..i - 1];
    i
  }

  /** strings.SplitN(s, sep, n) for a one-byte separator and n > 0. */
  function SplitN(s: string, sep: char, n: nat): (parts: seq<string>)
    requires n > 0
    ensures 1 <= |parts| <= n
    decreases n
  {
    var i := Find(s, sep);
    if n == 1 || i == |s| then [s] else [s[..i]] + SplitN(s[i + 1..], sep, n - 1)
  }

  function Join(parts: seq<string>, sep: char): string
    requires |parts| > 0
  {
    if |parts| == 1 then parts[0] else parts[0] + [sep] + Join(parts[1..], sep)
  }

  /** Splitting loses nothing. */
  lemma {:induction false} SplitJoin(s: string, sep: char, n: nat)
    requires n > 0
    ensures Join(SplitN(s, sep, n), sep) == s
    decreases n
  {
    var i := Find(s, sep);
    if n > 1 && i < |s| {
      var rest := SplitN(s[i + 1..], sep, n - 1);
      SplitJoin(s[i + 1..], sep, n - 1);
      assert ([s[..i]] + rest)[1..] == rest;
      assert s == s[..i] + [sep] + s[i + 1..];
    }
  }

  /** One split step cuts at the first separator. */
  lemma SplitCut(s: string, sep: char, n: nat) returns (head: string, rest: string)
    requires n > 1 && Find(s, sep) < |s|
    ensures head == s[..Find(s, sep)] && rest == s[Find(s, sep) + 1..]
    ensures SplitN(s, sep, n) == [head] + SplitN(rest, sep, n - 1)
  {
    head, rest := s[..Find(s, sep)], s[Find(s, sep) + 1..];
  }

  /** Every part but the last is free of separators; the last is too when the limit was not reached. */
  lemma {:induction false} SplitParts(s: string, sep: char, n: nat, k: nat)
    requires n > 0 && k < |SplitN(s, sep, n)|
    requires k < |SplitN(s, sep, n)| - 1 || |SplitN(s, sep, n)| < n
    ensures sep !in SplitN(s, sep, n)[k]
    decreases n
  {
    var i := Find(s, sep);
    if n > 1 && i < |s| {
      var rest := s[i + 1..];
      assert SplitN(s, sep, n) == [s[..i]] + SplitN(rest, sep, n - 1);
      if k > 0 {
        SplitParts(rest, sep, n - 1, k - 1);
        assert SplitN(s, sep, n)[k] == SplitN(rest, sep, n - 1)[k - 1];
      }
    } else {
      assert s[..|s|] == s;
    }
  }

  lemma FindIs(s: string, sep: char, i: nat)
    requires i < |s| && s[i] == sep && sep !in s[..i]
    ensures Find(s, sep) == i
  {
  }

  lemma FindAfterPrefix(head: string, sep: char, tail: string)
    requires sep !in head
    ensures Find(head + [sep] + tail, sep) == |head|
  {
    assert (head + [sep] + tail)[..|head|] == head;
    FindIs(head + [sep] + tail, sep, |head|);
  }

  /** One split step: a separator-free head comes off first. */
  lemma SplitHead(head: string, sep: char, tail: string, n: nat)
    requires sep !in head && n > 1
    ensures SplitN(head + [sep] + tail, sep, n) == [head] + SplitN(tail, sep, n - 1)
  {
    FindAfterPrefix(head, sep, tail);
    var s := head + [sep] + tail;
    assert s[..|head|] == head && s[|head| + 1..] == tail;
  }

  /** A cut of s into at most n parts at separators: only the last of a full n parts may hold one. */
  ghost predicate IsSplit(s: string, sep: char, n: nat, parts: seq<string>) {
    && 1 <= |parts| <= n && Join(parts, sep) == s
    && forall k | 0 <= k < |parts| && (k < |parts| - 1 || |parts| < n) :: sep !in parts[k]
  }

  lemma SplitNothing(s: string, sep: char, n: nat)
    requires n == 1 || (n > 1 && sep !in s)
    ensures SplitN(s, sep, n) == [s]
  {
    assert n > 1 ==> Find(s, sep) == |s|;
  }

  lemma SplitTail(s: string, sep: char, n: nat, parts: seq<string>)
    requires n > 0 && IsSplit(s, sep, n, parts) && |parts| > 1
    ensures sep !in parts[0] && s == parts[0] + [sep] + Join(parts[1..], sep)
    ensures IsSplit(Join(parts[1..], sep), sep, n - 1, parts[1..])
  {
    forall k | 0 <= k < |parts| - 1 && (k < |parts| - 2 || |parts| - 1 < n - 1)
      ensures sep !in parts[1..][k]
    {
      assert parts[1..][k] == parts[k + 1];
    }
  }

  lemma {:induction false} SplitUnique(s: string, sep: char, n: nat, parts: seq<string>)
    requires n > 0 && IsSplit(s, sep, n, parts)
    ensures SplitN(s, sep, n) == parts
    decreases n
  {
    if |parts| > 1 {
      var head, tail := parts[0], parts[1..];
      var rest := Join(tail, sep);
      SplitTail(s, sep, n, parts);
      SplitUnique(rest, sep, n - 1, tail);
      calc {
        SplitN(s, sep, n);
        { SplitHead(head, sep, rest, n); }
        [head] + SplitN(rest, sep, n - 1);
        [head] + tail;
        parts;
      }
    } else {
      assert n > 1 ==> sep !in parts[0];
      SplitNothing(s, sep, n);
    }
  }

  /** SplitN computes the one such cut. */
  lemma SplitExactly(s: string, sep: char, n: nat, parts: seq<string>)
    requires n > 0
    ensures parts == SplitN(s, sep, n) <==> IsSplit(s, sep, n, parts)
  {
    if IsSplit(s, sep, n, parts) {
      SplitUnique(s, sep, n, parts);
    } else if parts == SplitN(s, sep, n) {
      SplitJoin(s, sep, n);
      forall k | 0 <= k < |parts| && (k < |parts| - 1 || |parts| < n)
        ensures sep !in parts[k]
      {
        SplitParts(s, sep, n, k);
      }
    }
  }

  // ---------- decimal integers ----------

  function Digit(d: nat): (c: char)
    requires d < 10
    ensures '0' <= c <= '9'
  {
    ('0' as int + d) as char
  }

  predicate IsDigit(c: char) { '0' <= c <= '9' }

  function PrintNat(n: nat): (s: string)
    ensures |s| > 0 && forall c | c in s :: IsDigit(c)
  {
    if n < 10 then [Digit(n)] else PrintNat(n / 10) + [Digit(n % 10)]
  }

  /** The %d verb. */
  function PrintInt(n: int): string {
    if n < 0 then "-" + PrintNat(-n) else PrintNat(n)
  }

  function ParseDigits(s: string): Option<int>
  {
    if s == [] then Some(0) else
    var d := s[|s| - 1];
    match ParseDigits(s[..|s| - 1])
    case Some(high) => if IsDigit(d) then Some(10 * high + (d as int - '0' as int)) else None
    case None => None
  }

  /** strconv.ParseInt(s, 10, 64): an optional sign, at least one digit, in the int64 range. */
  function ParseInt(s: string): (r: Option<int>)
    ensures r.Some? ==> IsInt64(r.value)
  {
    if s == [] then None else
    var signed := s[0] == '-' || s[0] == '+';
    var digits := if signed then s[1..] else s;
    if digits == [] then None else
    match ParseDigits(digits)
    case None => None
    case Some(n) =>
      var v: int := if s[0] == '-' then -n else n;
      if IsInt64(v) then Some(v) else None
  }

  lemma {:induction false} ParsePrintNat(n: nat)
    ensures ParseDigits(PrintNat(n)) == Some(n)
  {
    var s := PrintNat(n);
    if n < 10 {
      assert s[..|s| - 1] == [];
    } else {
      ParsePrintNat(n / 10);
      assert s[..|s| - 1] == PrintNat(n / 10);
    }
  }

  /** A digit more at the end is ten times the number and the digit. */
  lemma DigitMore(s: string, c: char, n: nat)
    requires ParseDigits(s) == Some(n) && '0' <= c <= '9'
    ensures ParseDigits(s + [c]) == Some(10 * n + (c as int - 48))
  {
    assert (s + [c])[..|s|] == s;
  }

  lemma {:induction false} DigitsParse(s: string)
    ensures ParseDigits(s).Some? <==> forall c | c in s :: '0' <= c <= '9'
    ensures ParseDigits(s).Some? ==> ParseDigits(s).value >= 0
  {
    if s != [] {
      var front, last := s[..|s| - 1], s[|s| - 1];
      DigitsParse(front);
      assert s == front + [last];
      assert last in s && forall c | c in front :: c in s;
    }
  }

  /** No zero in front. */
  lemma {:induction false} NoLeadingZero(n: nat)
    requires n > 0
    ensures PrintNat(n)[0] != '0'
  {
    if n >= 10 {
      NoLeadingZero(n / 10);
    }
  }

  /** A minus sign in front of negative numbers and of no other. */
  lemma MinusWhenNegative(n: int)
    ensures PrintInt(n) != "" && (PrintInt(n)[0] == '-' <==> n < 0)
  {
    assert n >= 0 ==> PrintNat(n)[0] in PrintNat(n);
  }

  function InRange(n: Option<int>): Option<int> {
    if n.Some? && -0x8000_0000_0000_0000 <= n.value < 0x8000_0000_0000_0000 then n else None
  }

  function Negated(n: Option<int>): Option<int> { if n.Some? then Some(-n.value) else None }

  lemma ParseAfterSign(c: char, digits: string)
    requires (c == '+' || c == '-') && digits != ""
    ensures ParseInt([c] + digits) == InRange(if c == '-' then Negated(ParseDigits(digits)) else ParseDigits(digits))
  {
    var s := [c] + digits;
    assert s[0] == c && s[1..] == digits;
  }

  lemma ParseWithoutSign(digits: string)
    requires digits != "" && digits[0] != '-' && digits[0] != '+'
    ensures ParseInt(digits) == InRange(ParseDigits(digits))
  {
  }

  /** What ParseInt reads: an optional sign and decimal digits, if the value fits in 64 bits. */
  lemma ParseIntExactly(sign: string, digits: string)
    requires sign in {"", "+", "-"}
    requires digits != "" && (sign == "" ==> digits[0] != '-' && digits[0] != '+')
    ensures ParseInt(sign + digits)
         == InRange(if sign == "-" then Negated(ParseDigits(digits)) else ParseDigits(digits))
    ensures ParseInt(sign) == None
  {
    if sign == "" {
      assert sign + digits == digits;
      ParseWithoutSign(digits);
    } else {
      assert sign == [sign[0]];
      ParseAfterSign(sign[0], digits);
    }
  }

  lemma ParseSigned(n: nat)
    requires n <= MAX_INT64 + 1
    ensures ParseInt("-" + PrintNat(n)) == Some(0 - n)
  {
    ParsePrintNat(n);
    assert ("-" + PrintNat(n))[1..] == PrintNat(n);
  }

  lemma ParseUnsigned(n: nat)
    requires n <= MAX_INT64
    ensures ParseInt(PrintNat(n)) == Some(n)
  {
    ParsePrintNat(n);
    assert PrintNat(n)[0] in PrintNat(n);
  }

  /** Printing an int64 and parsing it back is the identity. */
  lemma ParsePrintInt(n: int)
    requires IsInt64(n)
    ensures ParseInt(PrintInt(n)) == Some(n)
  {
    if n < 0 {
      ParseSigned(-n);
    } else {
      ParseUnsigned(n);
    }
  }

  lemma {:induction false} NonDigitBlocks(s: string, c: char)
    requires c in s && !IsDigit(c)
    ensures ParseDigits(s) == None
  {
    if s[|s| - 1] != c {
      NonDigitBlocks(s[..|s| - 1], c);
    }
  }

  /** A byte that is neither a digit nor a sign makes the whole number unparseable. */
  lemma ParseIntRejects(s: string, c: char)
    requires c in s && !IsDigit(c) && c != '-' && c != '+'
    ensures ParseInt(s) == None
  {
    var digits := if s[0] == '-' || s[0] == '+' then s[1..] else s;
    assert c in digits;
    NonDigitBlocks(digits, c);
  }
}
