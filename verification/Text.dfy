/** Byte strings, the C string functions the server calls, and printed numbers. */
module Text {

  const NUL: char := 0 as char

  ghost predicate NulFree(s: string) {
    NUL !in s
  }

  // ---- searching -------------------------------------------------------------------------

  /** strchr: the first position of `c`, or `|s|` when there is none. */
  function IndexOf(s: string, c: char): (i: nat)
    ensures i <= |s|
    ensures i < |s| ==> s[i] == c
    ensures c !in s[..i]
  {
    if s == "" then 0
    else if s[0] == c then 0
    else
      var i := 1 + IndexOf(s[1..], c);
      assert s[..i] == [s[0]] + s[1..][..i - 1];
      i
  }

  lemma IndexOfUnique(s: string, c: char, i: nat)
    requires i < |s| && s[i] == c && c !in s[..i]
    ensures IndexOf(s, c) == i
  {
    var j := IndexOf(s, c);
    assert forall k :: 0 <= k < i ==> s[k] == s[..i][k] != c;
    assert forall k :: 0 <= k < j ==> s[k] == s[..j][k] != c;
  }

  /** `pat` occurs in `s` at position `i`. */
  predicate OccursAt(s: string, pat: string, i: nat) {
    i + |pat| <= |s| && s[i..i + |pat|] == pat
  }

  ghost predicate Occurs(s: string, pat: string) {
    exists i: nat :: OccursAt(s, pat, i)
  }

  /** evbuffer_search and strstr: the first occurrence of `pat` at or after `from`, or -1. */
  function FindFrom(s: string, pat: string, from: nat): (i: int)
    ensures i == -1 || (from <= i && OccursAt(s, pat, i))
    ensures i == -1 ==> forall k: nat :: from <= k ==> !OccursAt(s, pat, k)
    ensures i != -1 ==> forall k: nat :: from <= k < i ==> !OccursAt(s, pat, k)
    decreases |s| - from
  {
    if |s| < from + |pat| then -1
    else if OccursAt(s, pat, from) then from
    else if |s| <= from then -1
    else FindFrom(s, pat, from + 1)
  }

  function Find(s: string, pat: string): (i: int)
    ensures i == -1 <==> !Occurs(s, pat)
    ensures i != -1 ==> 0 <= i && OccursAt(s, pat, i)
    ensures i != -1 ==> forall k: nat :: k < i ==> !OccursAt(s, pat, k)
  {
    FindFrom(s, pat, 0)
  }

  lemma FindUnique(s: string, pat: string, i: nat)
    requires OccursAt(s, pat, i)
    requires forall k: nat :: k < i ==> !OccursAt(s, pat, k)
    ensures Find(s, pat) == i
  {
  }

  // ---- printed numbers -------------------------------------------------------------------

  predicate IsDigit(c: char, base: nat) {
    DigitValue(c) < base
  }

  /** The value of a digit in either case; 16 for every other character. */
  function DigitValue(c: char): (v: nat)
    ensures v <= 16
  {
    if '0' <= c <= '9' then c as int - '0' as int
    else if 'a' <= c <= 'f' then c as int - 'a' as int + 10
    else if 'A' <= c <= 'F' then c as int - 'A' as int + 10
    else 16
  }

  predicate AllDigits(s: string, base: nat) {
    forall i :: 0 <= i < |s| ==> IsDigit(s[i], base)
  }

  /** The number a run of digits stands for. */
  function Value(s: string, base: nat): nat {
    if s == "" then 0 else Value(s[..|s| - 1], base) * base + DigitValue(s[|s| - 1])
  }

  function DigitChar(d: nat): (c: char)
    requires d < 16
    ensures DigitValue(c) == d
  {
    if d < 10 then '0' + d as char else 'a' + (d - 10) as char
  }

  /** printf's %lu, and %lx for base 16. */
  function Digits(n: nat, base: nat): (s: string)
    requires 2 <= base <= 16
    ensures s != "" && AllDigits(s, base)
    decreases n
  {
    if n < base then [DigitChar(n)]
    else
      DivisionFacts(n, base);
      Digits(n / base, base) + [DigitChar(n % base)]
  }

  lemma DivisionFacts(n: nat, base: nat)
    requires 2 <= base
    ensures n / base * base + n % base == n
    ensures n > 0 ==> n / base < n
  {
    Twice(n / base, base);
  }

  lemma Twice(q: nat, base: nat)
    requires 2 <= base
    ensures q * base >= 2 * q
  {
  }

  lemma {:induction false} ValueOfDigits(n: nat, base: nat)
    requires 2 <= base <= 16
    ensures Value(Digits(n, base), base) == n
    decreases n
  {
    if n < base {
      assert Digits(n, base)[..0] == "";
      SingleDigitValue(DigitChar(n), base);
    } else {
      DivisionFacts(n, base);
      ValueOfDigits(n / base, base);
      ValueAppend(Digits(n / base, base), DigitChar(n % base), base);
    }
  }

  lemma SingleDigitValue(c: char, base: nat)
    ensures Value([c], base) == DigitValue(c)
  {
    assert [c][..0] == "";
  }

  lemma ValueAppend(s: string, c: char, base: nat)
    ensures Value(s + [c], base) == Value(s, base) * base + DigitValue(c)
  {
    assert (s + [c])[..|s|] == s;
  }

  lemma DigitsInjective(m: nat, n: nat, base: nat)
    requires 2 <= base <= 16
    requires Digits(m, base) == Digits(n, base)
    ensures m == n
  {
    ValueOfDigits(m, base);
    ValueOfDigits(n, base);
  }

  /** A run of digits is worth zero exactly when every digit is the character `0`. */
  lemma {:induction false} ValueZero(s: string, base: nat)
    requires 2 <= base <= 16 && AllDigits(s, base)
    ensures Value(s, base) == 0 <==> forall i :: 0 <= i < |s| ==> s[i] == '0'
  {
    if s != "" {
      var init, last := s[..|s| - 1], s[|s| - 1];
      ValueZero(init, base);
      assert s == init + [last];
      ValueAppend(init, last, base);
      TimesBase(Value(init, base), base);
      assert DigitValue(last) == 0 <==> last == '0';
      assert forall i :: 0 <= i < |init| ==> init[i] == s[i];
    }
  }

  lemma TimesBase(v: nat, base: nat)
    requires 1 <= base
    ensures v * base == 0 <==> v == 0
    ensures v <= v * base
  {
  }

  /** printf's %d. */
  function PrintInt(i: int): (s: string)
    ensures s != ""
  {
    if i < 0 then "-" + Digits(-i, 10) else Digits(i, 10)
  }

  lemma PrintIntSign(i: int)
    ensures PrintInt(i)[0] == '-' <==> i < 0
  {
    if i >= 0 {
      assert IsDigit(Digits(i, 10)[0], 10);
    }
  }

  lemma PrintIntInjective(i: int, j: int)
    requires PrintInt(i) == PrintInt(j)
    ensures i == j
  {
    PrintIntSign(i);
    PrintIntSign(j);
    if i < 0 {
      assert PrintInt(i)[1..] == Digits(-i, 10);
      assert PrintInt(j)[1..] == Digits(-j, 10);
      DigitsInjective(-i, -j, 10);
    } else {
      DigitsInjective(i, j, 10);
    }
  }

  // ---- strtoul ---------------------------------------------------------------------------

  const ULONG_MAX: nat := 0xFFFF_FFFF_FFFF_FFFF

  predicate IsSpace(c: char) {
    c == ' ' || 9 <= c as int <= 13
  }

  function SpaceRun(s: string): (n: nat)
    ensures n <= |s|
    ensures forall i :: 0 <= i < n ==> IsSpace(s[i])
    ensures n < |s| ==> !IsSpace(s[n])
  {
    if s != "" && IsSpace(s[0]) then 1 + SpaceRun(s[1..]) else 0
  }

  function DigitRun(s: string, base: nat): (n: nat)
    ensures n <= |s|
    ensures AllDigits(s[..n], base)
    ensures n < |s| ==> !IsDigit(s[n], base)
  {
    if s != "" && IsDigit(s[0], base) then
      var n := 1 + DigitRun(s[1..], base);
      assert s[..n] == [s[0]] + s[1..][..n - 1];
      n
    else 0
  }

  lemma SpacesRun(spaces: string, more: string)
    requires forall i :: 0 <= i < |spaces| ==> IsSpace(spaces[i])
    requires more == "" || !IsSpace(more[0])
    ensures SpaceRun(spaces + more) == |spaces|
  {
    var s, n := spaces + more, SpaceRun(spaces + more);
    assert forall i :: 0 <= i < |spaces| ==> s[i] == spaces[i] && IsSpace(spaces[i]);
    assert more != "" ==> s[|spaces|] == more[0];
  }

  lemma DigitRunIs(d: string, rest: string, base: nat)
    requires AllDigits(d, base) && (rest == "" || !IsDigit(rest[0], base))
    ensures DigitRun(d + rest, base) == |d|
  {
    var s, n := d + rest, DigitRun(d + rest, base);
    assert forall i :: 0 <= i < |d| ==> s[i] == d[i] && IsDigit(d[i], base);
    assert forall i :: 0 <= i < n ==> s[i] == s[..n][i] && IsDigit(s[..n][i], base);
    assert n < |s| ==> !IsDigit(s[n], base);
    assert |d| < |s| ==> s[|d|] == rest[0];
  }

  /** What strtoul reports: the value, how far `tail` moved, and whether errno became ERANGE. */
  datatype Number = Number(value: nat, tail: nat, range: bool)

  /** A character that can be part of a number: a space, a sign, a digit or the `x` of `0x`. */
  predicate NumberChar(c: char) {
    IsSpace(c) || IsDigit(c, 16) || c == '+' || c == '-' || c == 'x' || c == 'X'
  }

  /** Characters strtoul steps over before the digits: spaces, one sign, and `0x` in base 16. */
  function NumberPrefix(s: string, base: nat): (q: nat)
    ensures q <= |s|
    ensures forall i :: 0 <= i < q ==> NumberChar(s[i])
  {
    var w := SpaceRun(s);
    var p := if w < |s| && (s[w] == '+' || s[w] == '-') then w + 1 else w;
    if base == 16 && p + 2 < |s| && s[p] == '0' && (s[p + 1] == 'x' || s[p + 1] == 'X') && IsDigit(s[p + 2], 16)
    then p + 2 else p
  }

  predicate Negated(s: string) {
    var w := SpaceRun(s);
    w < |s| && s[w] == '-'
  }

  /** strtoul with a 64-bit unsigned long. Without any digit, nothing is consumed. */
  function StrToUl(s: string, base: nat): (r: Number)
    requires 2 <= base <= 16
    ensures r.tail <= |s| && r.value <= ULONG_MAX
    ensures forall i :: 0 <= i < r.tail ==> NumberChar(s[i]) && s[i] != ';' && s[i] != '&'
    ensures r.tail == 0 ==> r.value == 0
  {
    var q := NumberPrefix(s, base);
    var d := DigitRun(s[q..], base);
    if d == 0 then Number(0, 0, false)
    else
      var digits := s[q..][..d];
      var m := Value(digits, base);
      assert forall i :: q <= i < q + d ==> s[i] == digits[i - q];
      if m > ULONG_MAX then Number(ULONG_MAX, q + d, true)
      else Number(if Negated(s) && m > 0 then ULONG_MAX + 1 - m else m, q + d, false)
  }
}
