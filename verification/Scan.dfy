/**
 Character classes and the scanning helpers of the parser, over the unread suffix of a
 source text. A char stands for one byte of the template.
 */
module Scan {
  import opened Common

  predicate IsSpace(c: char) { c == ' ' || c == '\t' || c == '\n' || c == '\r' }

  predicate IsDigit(c: char) { '0' <= c <= '9' }

  predicate IsIdentStart(c: char) { c == '_' || 'a' <= c <= 'z' || 'A' <= c <= 'Z' }

  /** Velocity 1.7 allows '-' inside identifiers. */
  predicate IsIdentChar(c: char) { IsIdentStart(c) || IsDigit(c) || c == '-' }

  /** The byte at the cursor, NUL at the end. */
  function Peek(s: string): char { if s == "" then '\0' else s[0] }

  /** The two characters a and b stand at the cursor. */
  predicate PairAt(a: char, b: char, s: string) { |s| > 1 && s[0] == a && s[1] == b }

  function SkipSpace(s: string): (r: string)
    ensures |r| <= |s|
    ensures r != "" ==> !IsSpace(r[0])
  {
    if s != "" && IsSpace(s[0]) then SkipSpace(s[1..]) else s
  }

  /** Length of the identifier at the cursor. */
  function IdentLen(s: string): (n: nat)
    ensures n <= |s|
    ensures forall i :: 0 <= i < n ==> IsIdentChar(s[i])
    ensures n < |s| ==> !IsIdentChar(s[n])
  {
    if s != "" && IsIdentChar(s[0]) then 1 + IdentLen(s[1..]) else 0
  }

  /** Length of the run of digits at the cursor. */
  function DigitLen(s: string): (n: nat)
    ensures n <= |s|
    ensures forall i :: 0 <= i < n ==> IsDigit(s[i])
    ensures n < |s| ==> !IsDigit(s[n])
  {
    if s != "" && IsDigit(s[0]) then 1 + DigitLen(s[1..]) else 0
  }

  lemma SkipTwice(s: string)
    ensures SkipSpace(SkipSpace(s)) == SkipSpace(s)
  {
  }

  /** The first position at which sub occurs in s (strings.Index). */
  function Index(s: string, sub: string): (r: Option<nat>)
    ensures r.Some? ==> r.value + |sub| <= |s| && sub <= s[r.value..]
    decreases |s|
  {
    if sub <= s then Some(0)
    else if s == "" then None
    else match Index(s[1..], sub) {
      case None => None
      case Some(i) => assert s[1..][i..] == s[i + 1..]; Some(i + 1)
    }
  }

  /** The first of '$', '#' and '\\', where plain text ends. */
  function PlainLen(s: string): (n: nat)
    ensures n <= |s|
    ensures forall i :: 0 <= i < n ==> s[i] != '$' && s[i] != '#' && s[i] != '\\'
    ensures n < |s| ==> s[n] == '$' || s[n] == '#' || s[n] == '\\'
  {
    if s == "" || s[0] == '$' || s[0] == '#' || s[0] == '\\' then 0 else 1 + PlainLen(s[1..])
  }

  /**
   The body and the remainder of a string whose opening delimiter q has been read. A doubled
   delimiter stands for itself; None is an unterminated string.
   */
  function Quoted(q: char, s: string): (r: Option<(string, string)>)
    ensures r.Some? ==> |r.value.1| < |s|
  {
    if s == "" then None
    else if s[0] != q then
      match Quoted(q, s[1..]) {
        case None => None
        case Some((body, rest)) => Some(([s[0]] + body, rest))
      }
    else if |s| > 1 && s[1] == q then
      match Quoted(q, s[2..]) {
        case None => None
        case Some((body, rest)) => Some(([q] + body, rest))
      }
    else Some(("", s[1..]))
  }

  predicate AllDigits(s: string) { forall i :: 0 <= i < |s| ==> IsDigit(s[i]) }

  /** The value a run of decimal digits denotes. */
  function DigitsValue(s: string): nat
    requires AllDigits(s)
  {
    if s == "" then 0 else 10 * DigitsValue(s[..|s| - 1]) + (s[|s| - 1] - '0') as nat
  }

  /** Decimal digits of n, without leading zeros. */
  function Digits(n: nat): (s: string)
    ensures s != "" && AllDigits(s)
    ensures DigitsValue(s) == n
  {
    var last := ['0' + (n % 10) as char];
    if n < 10 then DigitsValueLast("", last[0]); last
    else DigitsValueLast(Digits(n / 10), last[0]); Digits(n / 10) + last
  }

  lemma DigitsValueLast(s: string, c: char)
    requires IsDigit(c) && AllDigits(s)
    ensures DigitsValue(s + [c]) == 10 * DigitsValue(s) + (c - '0') as nat
  {
    assert (s + [c])[..|s|] == s;
  }

  const MIN_INT64: int := -0x8000_0000_0000_0000
  const MAX_INT64: int := 0x7fff_ffff_ffff_ffff

  predicate IsInt64(i: int) { MIN_INT64 <= i <= MAX_INT64 }

  /** strconv.FormatInt in base ten. */
  function FormatInt(i: int): (s: string)
    ensures s != ""
  {
    if i < 0 then ['-'] + Digits(-i) else Digits(i)
  }

  /** strconv.ParseInt in base ten and 64 bits, for texts of an optional '-' and digits. */
  function ParseInt(s: string): Option<int> {
    var neg := s != "" && s[0] == '-';
    var body := if neg then s[1..] else s;
    if body == "" || !AllDigits(body) then None
    else
      var magnitude: int := DigitsValue(body);
      var v := if neg then -magnitude else magnitude;
      if IsInt64(v) then Some(v) else None
  }

  lemma ParseIntUndoesFormatInt(i: int)
    requires IsInt64(i)
    ensures ParseInt(FormatInt(i)) == Some(i)
  {
    if i < 0 {
      assert FormatInt(i)[1..] == Digits(-i);
    }
  }
}
