/** The string helpers of Go's standard library that the relay leans on. */
module Text {
  import opened Wrappers

  /** unicode.ToLower, exact for every rune whose lower case is ASCII; other runes keep themselves. */
  function LowerRune(c: char): char {
    if 'A' <= c <= 'Z' then c - 'A' + 'a'
    else if c == '\U{0130}' then 'i'
    else if c == '\U{212A}' then 'k'
    else c
  }

  /** strings.ToLower. */
  function ToLower(s: string): (r: string)
    ensures |r| == |s|
  {
    seq(|s|, i requires 0 <= i < |s| => LowerRune(s[i]))
  }

  /** No upper-case letter is left, and every other ASCII character stays what it is. */
  lemma LowerCase(s: string, i: nat)
    requires i < |s|
    ensures 'A' <= s[i] <= 'Z' ==> ToLower(s)[i] as int == s[i] as int + 32
    ensures s[i] < '\U{0080}' && !('A' <= s[i] <= 'Z') ==> ToLower(s)[i] == s[i]
    ensures !('A' <= ToLower(s)[i] <= 'Z') && ToLower(ToLower(s)) == ToLower(s)
  {
  }

  /** strings.Join. */
  function Join(parts: seq<string>, sep: string): string {
    if parts == [] then ""
    else if |parts| == 1 then parts[0]
    else parts[0] + sep + Join(parts[1..], sep)
  }

  /** strings.LastIndex for a one-character needle: -1 when absent. */
  function LastIndex(s: string, c: char): (i: int)
    ensures -1 <= i < |s|
    ensures i >= 0 ==> s[i] == c
    ensures forall k :: i < k < |s| ==> s[k] != c
  {
    if s == "" then -1
    else if s[|s|-1] == c then |s| - 1
    else LastIndex(s[..|s|-1], c)
  }

  lemma LastIndexUnique(a: string, c: char, b: string)
    requires c !in b
    ensures LastIndex(a + [c] + b, c) == |a|
  {
    hide LastIndex;
    var s := a + [c] + b;
    var i := LastIndex(s, c);
    assert s[|a|] == c;
    assert forall k :: |a| < k < |s| ==> s[k] != c;
  }

  /** Splitting at the last separator is unambiguous. */
  lemma SplitRight(a: string, b: string, a': string, b': string, c: char)
    requires c !in b && c !in b' && a + [c] + b == a' + [c] + b'
    ensures a == a' && b == b'
  {
    LastIndexUnique(a, c, b);
    LastIndexUnique(a', c, b');
    assert (a + [c] + b)[..|a|] == a && (a + [c] + b)[|a|+1..] == b;
    assert (a' + [c] + b')[..|a'|] == a' && (a' + [c] + b')[|a'|+1..] == b';
  }

  /** So is splitting at the first one. */
  lemma SplitLeft(a: string, b: string, a': string, b': string, c: char)
    requires c !in a && c !in a' && a + [c] + b == a' + [c] + b'
    ensures a == a' && b == b'
  {
    var s := a + [c] + b;
    assert s[|a|] == c && s[|a'|] == c;
    assert forall k :: 0 <= k < |a| ==> s[k] == a[k];
    assert forall k :: 0 <= k < |a'| ==> s[k] == a'[k];
    assert s[..|a|] == a && s[..|a'|] == a' && s[|a|+1..] == b && s[|a'|+1..] == b';
  }

  // ----- White space and splitting -----

  /** unicode.IsSpace. */
  predicate IsSpace(c: char) {
    || c == ' ' || '\t' <= c <= '\r' || c == '\U{0085}' || c == '\U{00A0}' || c == '\U{1680}'
    || '\U{2000}' <= c <= '\U{200A}' || c == '\U{2028}' || c == '\U{2029}' || c == '\U{202F}'
    || c == '\U{205F}' || c == '\U{3000}'
  }

  lemma AsciiSpace(c: char)
    requires c < '\U{0080}'
    ensures IsSpace(c) <==> c == ' ' || c == '\t' || c == '\n' || c == '\U{000B}' || c == '\U{000C}' || c == '\r'
  {
  }

  function TrimLeft(s: string): string {
    if s != "" && IsSpace(s[0]) then TrimLeft(s[1..]) else s
  }

  function TrimRight(s: string): string {
    if s != "" && IsSpace(s[|s|-1]) then TrimRight(s[..|s|-1]) else s
  }

  /** strings.TrimSpace. */
  function TrimSpace(s: string): string { TrimRight(TrimLeft(s)) }

  predicate Trimmed(s: string) { s == "" || (!IsSpace(s[0]) && !IsSpace(s[|s|-1])) }

  lemma {:induction false} TrimLeftIsSuffix(s: string)
    ensures var t := TrimLeft(s); |t| <= |s| && t == s[|s|-|t|..] && (t == "" || !IsSpace(t[0]))
  {
    if s != "" && IsSpace(s[0]) { TrimLeftIsSuffix(s[1..]); }
  }

  lemma {:induction false} TrimRightIsPrefix(s: string)
    ensures var t := TrimRight(s); t <= s && (t == "" || !IsSpace(t[|t|-1]))
  {
    if s != "" && IsSpace(s[|s|-1]) { TrimRightIsPrefix(s[..|s|-1]); }
  }

  lemma TrimSpaceTrims(s: string, c: char)
    ensures Trimmed(TrimSpace(s)) && (c !in s ==> c !in TrimSpace(s))
  {
    TrimLeftIsSuffix(s);
    TrimRightIsPrefix(TrimLeft(s));
  }

  lemma TrimOfTrimmed(s: string)
    requires Trimmed(s)
    ensures TrimSpace(s) == s && TrimSpace(" " + s) == s
  {
    assert (" " + s)[1..] == s;
  }

  /** strings.Split on one character. */
  function Split(s: string, c: char): (parts: seq<string>)
    ensures parts != []
  {
    if c !in s then [s]
    else
      var i := FirstIndex(s, c);
      [s[..i]] + Split(s[i+1..], c)
  }

  function FirstIndex(s: string, c: char): (i: nat)
    requires c in s
    ensures i < |s| && s[i] == c && forall k :: 0 <= k < i ==> s[k] != c
  {
    if s[0] == c then 0 else FirstIndex(s[1..], c) + 1
  }

  lemma {:induction false} SplitPartsHaveNo(s: string, c: char)
    ensures forall i :: 0 <= i < |Split(s, c)| ==> c !in Split(s, c)[i]
  {
    if c in s { SplitPartsHaveNo(s[FirstIndex(s, c)+1..], c); }
  }

  lemma SplitFirst(p: string, c: char, rest: string)
    requires c !in p
    ensures Split(p + [c] + rest, c) == [p] + Split(rest, c)
  {
    var s := p + [c] + rest;
    assert s[|p|] == c;
    assert forall k :: 0 <= k < |p| ==> s[k] == p[k];
    assert FirstIndex(s, c) == |p|;
    assert s[..|p|] == p && s[|p|+1..] == rest;
  }

  lemma SplitCut(s: string, c: char)
    requires c in s
    ensures var i := FirstIndex(s, c);
      s == s[..i] + [c] + s[i+1..] && c !in s[..i] && Split(s, c) == [s[..i]] + Split(s[i+1..], c)
  {
  }

  lemma SplitUncut(s: string, c: char)
    requires c !in s
    ensures Split(s, c) == [s]
  {
  }

  /** The first of strings.Fields. */
  function FirstField(s: string): string {
    UntilSpace(TrimLeft(s))
  }

  function UntilSpace(s: string): string {
    if s == "" || IsSpace(s[0]) then "" else [s[0]] + UntilSpace(s[1..])
  }

  /** strings.EqualFold against a lower-case ASCII word without 'k': simple folding adds U+017F to 's'. */
  predicate FoldsTo(c: char, l: char) {
    c == l || ('a' <= l <= 'z' && c == l - 'a' + 'A') || (l == 's' && c == '\U{017F}')
  }

  predicate EqualFold(s: string, word: string) {
    |s| == |word| && forall i :: 0 <= i < |s| ==> FoldsTo(s[i], word[i])
  }

  // ----- strconv -----

  predicate IsDigit(c: char) { '0' <= c <= '9' }

  predicate AllDigits(s: string) { forall i :: 0 <= i < |s| ==> IsDigit(s[i]) }

  function DigitsValue(s: string): nat
    requires AllDigits(s)
  {
    if s == "" then 0 else 10 * DigitsValue(s[..|s|-1]) + (s[|s|-1] - '0') as nat
  }

  /** strconv.FormatInt in base 10. */
  function FormatNat(n: nat): string {
    (if n < 10 then "" else FormatNat(n / 10)) + ['0' + (n % 10) as char]
  }

  function FormatInt(n: int): string { if n < 0 then "-" + FormatNat(-n) else FormatNat(n) }

  const MAX_INT64: int := 0x7FFF_FFFF_FFFF_FFFF

  /** strconv.ParseInt(s, 10, 64): an optional sign, decimal digits, within int64. */
  function ParseInt64(s: string): (r: Option<int>)
    ensures r.Some? ==> -MAX_INT64 - 1 <= r.value <= MAX_INT64
  {
    var signed := s != "" && (s[0] == '+' || s[0] == '-');
    var digits := if signed then s[1..] else s;
    if digits == "" || !AllDigits(digits) then None
    else
      var n: int := DigitsValue(digits);
      var v := if signed && s[0] == '-' then -n else n;
      if -MAX_INT64 - 1 <= v <= MAX_INT64 then Some(v) else None
  }

  /** s is the digits, with or without a sign, and v what they stand for. */
  predicate Denotes(s: string, digits: string, v: int) {
    && digits != "" && AllDigits(digits)
    && (((s == digits || s == "+" + digits) && v == DigitsValue(digits)) || (s == "-" + digits && v == 0 - DigitsValue(digits)))
  }

  /** An optional sign, then decimal digits, then within int64: nothing else parses. */
  lemma ParseInt64Iff(s: string, v: int)
    ensures ParseInt64(s) == Some(v) <==> -MAX_INT64 - 1 <= v <= MAX_INT64 && exists digits :: Denotes(s, digits, v)
  {
    hide DigitsValue;
    if ParseInt64(s) == Some(v) {
      var digits := if s[0] == '+' || s[0] == '-' then s[1..] else s;
      assert s != digits ==> s == [s[0]] + digits;
      assert Denotes(s, digits, v);
    }
    if -MAX_INT64 - 1 <= v <= MAX_INT64 {
      if digits :| Denotes(s, digits, v) { DenotedParses(s, digits, v); }
    }
  }

  lemma DenotedParses(s: string, digits: string, v: int)
    requires Denotes(s, digits, v) && -MAX_INT64 - 1 <= v <= MAX_INT64
    ensures ParseInt64(s) == Some(v)
  {
    hide DigitsValue;
    assert IsDigit(digits[0]);
    if s == digits { } else { assert s[1..] == digits; }
  }

  /** Leading zeros do not count. */
  lemma {:induction false} LeadingZero(s: string)
    requires AllDigits(s)
    ensures DigitsValue("0" + s) == DigitsValue(s)
  {
    if s == "" {
      assert "0" + s == "0";
    } else {
      LeadingZero(s[..|s|-1]);
      assert ("0" + s)[..|s|] == "0" + s[..|s|-1];
    }
  }

  lemma {:induction false} FormatNatReads(n: nat)
    ensures AllDigits(FormatNat(n)) && FormatNat(n) != "" && DigitsValue(FormatNat(n)) == n
  {
    var s := FormatNat(n);
    if n >= 10 { FormatNatReads(n / 10); }
    assert s[..|s|-1] == if n < 10 then "" else FormatNat(n / 10);
  }

  lemma ParseOfFormat(n: int)
    requires -MAX_INT64 - 1 <= n <= MAX_INT64
    ensures ParseInt64(FormatInt(n)) == Some(n)
  {
    hide FormatNat, DigitsValue;
    FormatNatReads(if n < 0 then -n else n);
    if n < 0 {
      assert FormatInt(n)[1..] == FormatNat(-n);
    } else {
      assert IsDigit(FormatNat(n)[0]);
    }
  }

  lemma ParsedHasNo(s: string, c: char)
    requires ParseInt64(s).Some? && !IsDigit(c) && c != '+' && c != '-'
    ensures c !in s
  {
    forall i | 0 <= i < |s| ensures s[i] != c {
      assert i > 0 ==> s[1..][i-1] == s[i];
    }
  }
}
