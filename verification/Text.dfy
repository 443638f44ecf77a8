/** Strings as the two programs use them: splitting at one character, decimal printing, and
    strconv.ParseInt in base 10 with 64 bits. */
module Text {
  import opened Common

  const INT64_MAX := 9_223_372_036_854_775_807

  predicate IsDigit(c: char) { '0' <= c <= '9' }

  predicate Alphanumeric(s: string) {
    forall i :: 0 <= i < |s| ==> 'A' <= s[i] <= 'Z' || 'a' <= s[i] <= 'z' || IsDigit(s[i])
  }

  /** The position of the first c, or |s|. */
  function IndexOf(s: string, c: char): (i: nat)
    ensures i <= |s|
    ensures i < |s| ==> s[i] == c
    ensures forall k :: 0 <= k < i ==> s[k] != c
  {
    if s == [] || s[0] == c then 0 else IndexOf(s[1..], c) + 1
  }

  lemma {:induction false} IndexOfFirst(a: string, c: char, b: string)
    requires c !in a
    ensures IndexOf(a + [c] + b, c) == |a|
    ensures IndexOf(a, c) == |a|
  {
    if a != "" {
      IndexOfFirst(a[1..], c, b);
      assert (a + [c] + b)[1..] == a[1..] + [c] + b;
    }
  }

  /** strings.Split for a one-character separator. */
  function Split(s: string, c: char): (parts: seq<string>)
    ensures |parts| >= 1
    ensures forall i :: 0 <= i < |parts| ==> c !in parts[i]
    decreases |s|
  {
    var i := IndexOf(s, c);
    if i == |s| then assert s[..i] == s; [s] else [s[..i]] + Split(s[i + 1..], c)
  }

  lemma SplitStep(a: string, c: char, b: string)
    requires c !in a
    ensures Split(a + [c] + b, c) == [a] + Split(b, c)
    ensures Split(a, c) == [a]
  {
    IndexOfFirst(a, c, b);
    var s := a + [c] + b;
    assert s[..|a|] == a && s[|a| + 1..] == b;
  }

  lemma SplitFour(a: string, b: string, d: string, e: string, c: char)
    requires c !in a && c !in b && c !in d && c !in e
    ensures Split(a + [c] + (b + [c] + (d + [c] + e)), c) == [a, b, d, e]
  {
    SplitStep(a, c, b + [c] + (d + [c] + e));
    SplitStep(b, c, d + [c] + e);
    SplitStep(d, c, e);
    SplitStep(e, c, "");
  }

  /** strings.Join for a one-character separator. */
  function Join(parts: seq<string>, c: char): string {
    if |parts| == 0 then ""
    else if |parts| == 1 then parts[0]
    else parts[0] + [c] + Join(parts[1..], c)
  }

  lemma SplitFirst(s: string, c: char)
    ensures var i := IndexOf(s, c);
            && (i == |s| ==> Split(s, c) == [s])
            && (i < |s| ==> Split(s, c) == [s[..i]] + Split(s[i + 1..], c) && s == s[..i] + [c] + s[i + 1..])
  {
    hide IndexOf;
  }

  lemma JoinFirst(a: string, rest: seq<string>, c: char)
    requires rest != []
    ensures Join([a] + rest, c) == a + [c] + Join(rest, c)
  {
    assert ([a] + rest)[1..] == rest;
  }

  /** Splitting loses nothing: joining the parts gives the string back. */
  lemma {:induction false} JoinSplit(s: string, c: char)
    ensures Join(Split(s, c), c) == s
    decreases |s|
  {
    hide IndexOf, Split;
    SplitFirst(s, c);
    var i := IndexOf(s, c);
    if i < |s| {
      hide Join;
      JoinSplit(s[i + 1..], c);
      JoinFirst(s[..i], Split(s[i + 1..], c), c);
    }
  }

  lemma JoinFour(a: string, b: string, d: string, e: string, c: char)
    ensures Join([a, b, d, e], c) == a + [c] + (b + [c] + (d + [c] + e))
  {
    assert [d, e][1..] == [e] && Join([e], c) == e;
    assert [b, d, e][1..] == [d, e] && Join([d, e], c) == d + [c] + e;
    assert [a, b, d, e][1..] == [b, d, e];
  }

  /** Two parts come from the one string that joins them. */
  lemma SplitTwo(s: string, c: char)
    requires |Split(s, c)| == 2
    ensures var parts := Split(s, c); s == parts[0] + [c] + parts[1] && c !in parts[0] && c !in parts[1]
  {
    JoinSplit(s, c);
    var parts := Split(s, c);
    assert parts[1..] == [parts[1]];
  }

  lemma SplitPair(a: string, c: char, b: string)
    requires c !in a && c !in b
    ensures Split(a + [c] + b, c) == [a, b]
  {
    hide Split;
    SplitStep(a, c, b);
    SplitStep(b, c, "");
  }

  lemma PairInjective(m1: string, sn1: string, m2: string, sn2: string, c: char)
    requires c !in m1 && c !in m2 && c !in sn1 && c !in sn2
    requires m1 + [c] + sn1 == m2 + [c] + sn2
    ensures m1 == m2 && sn1 == sn2
  {
    SplitStep(m1, c, sn1);
    SplitStep(m2, c, sn2);
    SplitStep(sn1, c, "");
    SplitStep(sn2, c, "");
    assert ([m1] + [sn1])[0] == m1 && ([m1] + [sn1])[1] == sn1;
    assert ([m2] + [sn2])[0] == m2 && ([m2] + [sn2])[1] == sn2;
  }

  lemma DropPrefix(p: string, a: string, b: string)
    requires p + a == p + b
    ensures a == b
  {
    assert (p + a)[|p|..] == a && (p + b)[|p|..] == b;
  }

  // ----- decimal numbers ------------------------------------------------------------------

  function Digit(d: nat): char
    requires d < 10
  {
    '0' + d as char
  }

  /** %d of a natural number. */
  function Decimal(n: nat): (s: string)
    ensures s != "" && forall i :: 0 <= i < |s| ==> IsDigit(s[i])
  {
    if n < 10 then [Digit(n)] else Decimal(n / 10) + [Digit(n % 10)]
  }

  predicate AllDigits(s: string) {
    s != "" && forall i :: 0 <= i < |s| ==> IsDigit(s[i])
  }

  function Value(s: string): nat
    requires forall i :: 0 <= i < |s| ==> IsDigit(s[i])
  {
    if s == "" then 0
    else assert IsDigit(s[|s| - 1]); 10 * Value(s[..|s| - 1]) + (s[|s| - 1] as int - '0' as int)
  }

  /** strconv.ParseInt(s, 10, 64): an optional sign and digits, within 64 bits. */
  function ParseInt(s: string): Option<int> {
    var negative := s != "" && s[0] == '-';
    var digits := if s != "" && (s[0] == '-' || s[0] == '+') then s[1..] else s;
    if !AllDigits(digits) then None
    else
      var v: int := Value(digits);
      if negative then (if v <= INT64_MAX + 1 then Some(-v) else None)
      else (if v <= INT64_MAX then Some(v) else None)
  }

  lemma {:induction false} ValueOfDecimal(n: nat)
    ensures Value(Decimal(n)) == n
  {
    if n >= 10 {
      ValueOfDecimal(n / 10);
      assert Decimal(n)[..|Decimal(n)| - 1] == Decimal(n / 10);
    } else {
      assert Decimal(n)[..0] == "";
    }
  }

  /** What %d prints, ParseInt reads back. */
  lemma ParsePrinted(n: nat)
    requires n <= INT64_MAX
    ensures ParseInt(Decimal(n)) == Some(n)
  {
    ValueOfDecimal(n);
    assert IsDigit(Decimal(n)[0]);
  }

  /** With and without a sign, exactly the 64-bit numbers are read. */
  lemma ParseBounds(n: nat)
    ensures ParseInt(Decimal(n)) == if n <= 9_223_372_036_854_775_807 then Some(n) else None
    ensures ParseInt(['+'] + Decimal(n)) == if n <= 9_223_372_036_854_775_807 then Some(n) else None
    ensures ParseInt(['-'] + Decimal(n)) == if n <= 9_223_372_036_854_775_808 then Some(0 - n) else None
  {
    ValueOfDecimal(n);
    assert IsDigit(Decimal(n)[0]);
    assert (['+'] + Decimal(n))[1..] == Decimal(n) && (['-'] + Decimal(n))[1..] == Decimal(n);
  }

  lemma DecimalInjective(a: nat, b: nat)
    requires Decimal(a) == Decimal(b)
    ensures a == b
  {
    ValueOfDecimal(a);
    ValueOfDecimal(b);
  }

  /** A number below 10^k prints in at most k digits. */
  lemma {:induction false} DecimalLength(n: nat, k: nat)
    requires n < Pow10(k) && k > 0
    ensures |Decimal(n)| <= k
  {
    if n >= 10 {
      assert k > 1 by { assert Pow10(1) == 10 * Pow10(0) == 10; }
      DecimalLength(n / 10, k - 1);
    }
  }

  function Pow10(k: nat): nat {
    if k == 0 then 1 else 10 * Pow10(k - 1)
  }

  // ----- atoi -----------------------------------------------------------------------------

  /** isspace. */
  predicate Space(c: char) { c == ' ' || '\t' <= c <= '\r' }

  function DigitRun(s: string): (n: nat)
    ensures n <= |s| && forall i :: 0 <= i < n ==> IsDigit(s[i])
    ensures n < |s| ==> !IsDigit(s[n])
  {
    if s != "" && IsDigit(s[0]) then DigitRun(s[1..]) + 1 else 0
  }

  /** atoi: white space, a sign, digits, and anything after them. */
  function Atoi(s: string): int {
    if s != "" && Space(s[0]) then Atoi(s[1..])
    else if s != "" && s[0] == '-' then 0 - Value(s[1..][..DigitRun(s[1..])])
    else if s != "" && s[0] == '+' then Value(s[1..][..DigitRun(s[1..])])
    else Value(s[..DigitRun(s)])
  }

  /** White space in front is skipped. */
  lemma SpaceIsSkipped(c: char, s: string)
    requires c == ' ' || c == '\t' || c == '\n' || c as int == 11 || c as int == 12 || c == '\r'
    ensures Atoi([c] + s) == Atoi(s)
  {
    assert ([c] + s)[1..] == s && ([c] + s)[0] == c;
  }

  /** A sign counts, and what follows the digits is ignored. */
  lemma AtoiReads(n: nat, rest: string)
    requires rest != "" ==> !IsDigit(rest[0])
    ensures Atoi(Decimal(n) + rest) == Atoi(['+'] + (Decimal(n) + rest)) == n
    ensures Atoi(['-'] + (Decimal(n) + rest)) == 0 - n
  {
    hide Decimal, Value, DigitRun;
    var s := Decimal(n) + rest;
    assert (['+'] + s)[1..] == s && (['-'] + s)[1..] == s;
    ValueOfDecimal(n);
    DigitsEnd(Decimal(n), rest);
    assert s[0] == Decimal(n)[0] && IsDigit(s[0]);
  }

  lemma DigitsEnd(digits: string, rest: string)
    requires (forall i :: 0 <= i < |digits| ==> IsDigit(digits[i])) && (rest != "" ==> !IsDigit(rest[0]))
    ensures DigitRun(digits + rest) == |digits| && (digits + rest)[..|digits|] == digits
  {
    var s := digits + rest;
    assert forall i :: 0 <= i < |digits| ==> s[i] == digits[i];
    assert rest != "" ==> s[|digits|] == rest[0];
  }

  lemma AtoiOfDigits(s: string)
    requires AllDigits(s)
    ensures Atoi(s) == Value(s)
  {
    assert IsDigit(s[0]);
    assert DigitRun(s) == |s| && s[..|s|] == s;
  }
}
