/** What decoding undoes, what it makes of numbers, and when its result is a whole C string. */
module EntityLaws {
  import opened Text
  import opened Wrappers
  import opened EntityLookup
  import opened Entity
  import EntityTable
  import Utf8

  // ---- escaping on the page, decoding on the server --------------------------------------

  /** s.replace(/c/g, sub) */
  function ReplaceAll(s: string, c: char, sub: string): string {
    if s == "" then "" else (if s[0] == c then sub else [s[0]]) + ReplaceAll(s[1..], c, sub)
  }

  /** The three passes of syntaxHighlight. */
  function Escape(s: string): string {
    ReplaceAll(ReplaceAll(ReplaceAll(s, '&', "&amp;"), '<', "&lt;"), '>', "&gt;")
  }

  function EscapeChar(c: char): string {
    if c == '&' then "&amp;" else if c == '<' then "&lt;" else if c == '>' then "&gt;" else [c]
  }

  /** One simultaneous substitution. */
  function EscapeOnce(s: string): string {
    if s == "" then "" else EscapeChar(s[0]) + EscapeOnce(s[1..])
  }

  lemma {:induction false} ReplaceAllAppend(a: string, b: string, c: char, sub: string)
    ensures ReplaceAll(a + b, c, sub) == ReplaceAll(a, c, sub) + ReplaceAll(b, c, sub)
  {
    if a == "" {
      assert a + b == b;
    } else {
      assert (a + b)[1..] == a[1..] + b;
      ReplaceAllAppend(a[1..], b, c, sub);
    }
  }

  lemma {:induction false} ReplaceAllAbsent(s: string, c: char, sub: string)
    requires forall i :: 0 <= i < |s| ==> s[i] != c
    ensures ReplaceAll(s, c, sub) == s
  {
    if s != "" {
      ReplaceAllAbsent(s[1..], c, sub);
    }
  }

  lemma ReplaceOne(c: char, x: char, sub: string)
    ensures ReplaceAll([c], x, sub) == if c == x then sub else [c]
  {
    assert [c][1..] == "";
    assert ReplaceAll("", x, sub) == "";
  }

  /** No pass touches what an earlier pass inserted. */
  lemma EscapeOneChar(c: char)
    ensures ReplaceAll(ReplaceAll(ReplaceAll([c], '&', "&amp;"), '<', "&lt;"), '>', "&gt;") == EscapeChar(c)
  {
    hide ReplaceAll;
    ReplaceOne(c, '&', "&amp;");
    ReplaceOne(c, '<', "&lt;");
    ReplaceOne(c, '>', "&gt;");
    if c == '&' {
      ReplaceAllAbsent("&amp;", '<', "&lt;");
      ReplaceAllAbsent("&amp;", '>', "&gt;");
    } else if c == '<' {
      ReplaceAllAbsent("&lt;", '>', "&gt;");
    }
  }

  lemma {:induction false} ThreePassesAreOne(s: string)
    ensures Escape(s) == EscapeOnce(s)
  {
    if s != "" {
      var c, rest := [s[0]], s[1..];
      assert s == c + rest;
      ReplaceAllAppend(c, rest, '&', "&amp;");
      var c1, rest1 := ReplaceAll(c, '&', "&amp;"), ReplaceAll(rest, '&', "&amp;");
      ReplaceAllAppend(c1, rest1, '<', "&lt;");
      var c2, rest2 := ReplaceAll(c1, '<', "&lt;"), ReplaceAll(rest1, '<', "&lt;");
      ReplaceAllAppend(c2, rest2, '>', "&gt;");
      EscapeOneChar(s[0]);
      ThreePassesAreOne(rest);
    }
  }

  /** The table knows the three entities that escaping uses. */
  ghost predicate KnowsEscapes(t: Table) {
    Named("amp;", '&' as nat) in t && Named("lt;", '<' as nat) in t && Named("gt;", '>' as nat) in t
  }

  lemma DecodeNamed(t: Table, row: Named, rest: string)
    requires ValidTable(t) && row in t && row.key[0] != '#'
    ensures Decode(t, "&" + row.key + rest) == row.Text() + Decode(t, rest)
  {
    hide Utf8.Encode, NumericReference;
    var s := "&" + row.key + rest;
    var i :| 0 <= i < |t| && t[i] == row;
    assert s[1..] == row.key + rest;
    assert row.key <= s[1..];
    LookupUnique(t, s[1..], i);
    assert s[1] == row.key[0];
    assert s[1 + |row.key|..] == rest;
  }

  lemma DecodeEscapedChar(t: Table, c: char, rest: string)
    requires ValidTable(t) && KnowsEscapes(t)
    ensures Decode(t, EscapeChar(c) + rest) == [c] + Decode(t, rest)
  {
    hide ReferenceAt, Decode;
    if c == '&' {
      DecodeNamed(t, Named("amp;", c as nat), rest);
      assert "&" + "amp;" + rest == EscapeChar(c) + rest;
    } else if c == '<' {
      DecodeNamed(t, Named("lt;", c as nat), rest);
      assert "&" + "lt;" + rest == EscapeChar(c) + rest;
    } else if c == '>' {
      DecodeNamed(t, Named("gt;", c as nat), rest);
      assert "&" + "gt;" + rest == EscapeChar(c) + rest;
    } else {
      DecodePlain(t, [c], rest);
    }
  }

  /** Decoding undoes escaping. */
  lemma {:induction false} DecodeEscape(t: Table, s: string)
    requires ValidTable(t) && KnowsEscapes(t)
    ensures Decode(t, Escape(s)) == s
  {
    ThreePassesAreOne(s);
    DecodeEscapeOnce(t, s);
  }

  lemma {:induction false} DecodeEscapeOnce(t: Table, s: string)
    requires ValidTable(t) && KnowsEscapes(t)
    ensures Decode(t, EscapeOnce(s)) == s
  {
    hide ReferenceAt;
    if s != "" {
      DecodeEscapedChar(t, s[0], EscapeOnce(s[1..]));
      DecodeEscapeOnce(t, s[1..]);
    }
  }

  /** What the page escapes, the server's own table decodes. */
  lemma PageTextSurvives(s: string)
    ensures Decode(EntityTable.NAMED_ENTITIES, Escape(s)) == s
  {
    hide EntityTable.Flatten, Decode, Escape;
    EntityTable.NamedEntitiesValid();
    EntityTable.NamedEntitiesEscapes();
    DecodeEscape(EntityTable.NAMED_ENTITIES, s);
  }

  // ---- numeric references ----------------------------------------------------------------

  /** strtoul on a plain run of digits that a non-digit ends. */
  lemma StrToUlDigits(d: string, rest: string, base: nat)
    requires (base == 10 || base == 16) && d != "" && AllDigits(d, base)
    requires rest != "" && !IsDigit(rest[0], base) && rest[0] != 'x' && rest[0] != 'X'
    ensures
      var v := Value(d, base);
      StrToUl(d + rest, base) == if v <= ULONG_MAX then Number(v, |d|, false) else Number(ULONG_MAX, |d|, true)
  {
    var s := d + rest;
    assert IsDigit(d[0], base) && s[0] == d[0] && s[|d|] == rest[0];
    assert SpaceRun(s) == 0;
    assert 1 < |d| ==> IsDigit(d[1], base) && s[1] == d[1];
    assert NumberPrefix(s, base) == 0;
    assert s[0..] == s;
    DigitRunIs(d, rest, base);
    assert s[..|d|] == d;
  }

  /** `&#` for base 10, `&#x` or `&#X` for base 16. */
  function Opening(base: nat, upper: bool): string {
    if base != 16 then "&#" else if upper then "&#X" else "&#x"
  }

  /**
    * A number written in digits of either case, with any leading zeros, becomes the UTF-8 bytes of its
    * code point; beyond the Unicode range it stays as written.
    */
  lemma NumericReferenceDecodes(t: Table, d: string, base: nat, upper: bool, rest: string)
    requires (base == 10 || base == 16) && d != "" && AllDigits(d, base)
    ensures
      var s := Opening(base, upper) + d + ";" + rest;
      ReferenceAt(t, s) ==
        if Value(d, base) <= Utf8.UNICODE_MAX
        then Some(Reference(Utf8.Encode(Value(d, base)), |s| - |rest|)) else None
  {
    hide Utf8.Encode, StrToUl, Value, Lookup;
    var s := Opening(base, upper) + d + ";" + rest;
    var h := |Opening(base, upper)|;
    assert s[0] == '&' && s[1] == '#';
    assert base == 10 ==> s[2] == d[0] && IsDigit(d[0], 10);
    assert IsHex(s) <==> base == 16;
    assert s[h..] == d + (";" + rest);
    StrToUlDigits(d, ";" + rest, base);
    assert s[h + |d|] == ';';
  }

  /** Every code point survives: written as a decimal or hexadecimal reference, decoded, and read as RFC 3629 says. */
  lemma CodePointRoundTrip(t: Table, cp: nat, base: nat, upper: bool, rest: string)
    requires (base == 10 || base == 16) && cp <= Utf8.UNICODE_MAX
    ensures
      var s := Opening(base, upper) + Digits(cp, base) + ";" + rest;
      && Decode(t, s) == Utf8.Encode(cp) + Decode(t, rest)
      && (!Utf8.Surrogate(cp) ==> Utf8.DecodeOne(Decode(t, s)) == Utf8.Scalar(cp, Utf8.ShortestLength(cp)))
  {
    hide ReferenceAt, Utf8.DecodeOne, Digits, Utf8.Encode, Value;
    var s := Opening(base, upper) + Digits(cp, base) + ";" + rest;
    ValueOfDigits(cp, base);
    NumericReferenceDecodes(t, Digits(cp, base), base, upper, rest);
    assert s[0] == '&';
    assert s[|s| - |rest|..] == rest;
    assert Decode(t, s) == Utf8.Encode(cp) + Decode(t, rest);
    Utf8.EncodeThenDecode(cp, Decode(t, rest));
  }

  // ---- references to zero ----------------------------------------------------------------

  /** Zero as strtoul reads it: nothing at all, or spaces, a sign, in base 16 an `0x`, and zeros. */
  ghost predicate ZeroNumber(b: string, hex: bool) {
    b == "" || exists q: nat :: ZeroFrom(b, hex, q)
  }

  /** The zeros start at `q`, and before them is what strtoul steps over. */
  predicate ZeroFrom(b: string, hex: bool, q: nat) {
    && q < |b| && q == NumberPrefix(b, if hex then 16 else 10)
    && forall i :: q <= i < |b| ==> b[i] == '0'
  }

  /** `&#`, maybe an `x`, a number that is zero, and `;` at position `i`. */
  ghost predicate ZeroReference(s: string, i: nat) {
    && i + 2 <= |s| && s[i] == '&' && s[i + 1] == '#'
    && var hex := IsHex(s[i..]);
       var h := i + if hex then 3 else 2;
       exists e: nat :: h <= e < |s| && s[e] == ';' && ZeroNumber(s[h..e], hex)
  }

  lemma ZeroNumberParsed(b: string, rest: string, hex: bool)
    requires rest != "" && rest[0] == ';' && ZeroNumber(b, hex)
    ensures StrToUl(b + rest, if hex then 16 else 10) == Number(0, |b|, false)
  {
    hide NumberPrefix;
    var base := if hex then 16 else 10;
    PrefixStopsBefore(b, rest, base);
    if b == "" {
      assert b + rest == rest;
      assert NumberPrefix("", base) == 0 by { PrefixOfNothing(base); }
      assert rest[0..] == rest;
      assert DigitRun(rest, base) == 0;
    } else {
      var q: nat :| ZeroFrom(b, hex, q);
      assert AllDigits(b[q..], base);
      assert (b + rest)[q..] == b[q..] + rest;
      DigitRunIs(b[q..], rest, base);
      assert (b[q..] + rest)[..|b| - q] == b[q..];
      ValueZero(b[q..], base);
    }
  }

  lemma PrefixOfNothing(base: nat)
    ensures NumberPrefix("", base) == 0
  {
  }

  lemma ParsedZeroNumber(b: string, rest: string, hex: bool)
    requires rest != "" && rest[0] == ';'
    requires StrToUl(b + rest, if hex then 16 else 10) == Number(0, |b|, false)
    ensures ZeroNumber(b, hex)
  {
    hide NumberPrefix, DigitRun, Value;
    var base := if hex then 16 else 10;
    PrefixStopsBefore(b, rest, base);
    var q := NumberPrefix(b, base);
    var tail := (b + rest)[q..];
    var d := DigitRun(tail, base);
    if d > 0 {
      ValueZero(tail[..d], base);
      assert tail[..d] == b[q..];
      assert forall i :: q <= i < |b| ==> b[i] == tail[..d][i - q];
      assert ZeroFrom(b, hex, q);
    }
  }

  /** The semicolon that ends a reference ends the prefix of its number too. */
  lemma PrefixStopsBefore(b: string, rest: string, base: nat)
    requires rest != "" && rest[0] == ';' && base <= 16
    ensures NumberPrefix(b + rest, base) == NumberPrefix(b, base)
  {
    hide SpaceRun;
    var s := b + rest;
    SpaceRunIs(b, rest);
    assert forall i :: 0 <= i < |b| ==> s[i] == b[i];
    assert s[|b|] == ';';
  }

  lemma SpaceRunIs(b: string, rest: string)
    requires rest != "" && rest[0] == ';'
    ensures SpaceRun(b + rest) == SpaceRun(b)
  {
    var s, m, n := b + rest, SpaceRun(b + rest), SpaceRun(b);
    assert forall i :: 0 <= i < |b| ==> s[i] == b[i];
    assert s[|b|] == ';' && !IsSpace(';');
  }

  lemma NumericZero(u: string)
    requires 2 <= |u| && u[0] == '&' && u[1] == '#'
    ensures NumericReference(u).Some? && NumericReference(u).value.0 == 0 <==> ZeroReference(u, 0)
  {
    hide StrToUl, ZeroNumber;
    assert u[0..] == u;
    var hex := IsHex(u);
    var h := if hex then 3 else 2;
    if NumericReference(u).Some? && NumericReference(u).value.0 == 0 {
      var e := NumericReference(u).value.1 - 1;
      NumberEnds(u, h, e);
      ParsedZeroNumber(u[h..e], u[e..], hex);
    }
    if ZeroReference(u, 0) {
      var e: nat :| h <= e < |u| && u[e] == ';' && ZeroNumber(u[h..e], hex);
      NumberEnds(u, h, e);
      ZeroNumberParsed(u[h..e], u[e..], hex);
    }
  }

  lemma NumberEnds(u: string, h: nat, e: nat)
    requires h <= e < |u| && u[e] == ';'
    ensures u[h..] == u[h..e] + u[e..] && u[e..] != "" && u[e..][0] == ';' && |u[h..e]| == e - h
  {
  }

  /** No ampersand hides inside a reference. */
  lemma NoAmpersandInside(t: Table, u: string, k: nat)
    requires ValidTable(t) && u != "" && u[0] == '&' && ReferenceAt(t, u).Some?
    requires 0 < k < ReferenceAt(t, u).value.length
    ensures u[k] != '&'
  {
    hide StrToUl, Utf8.Encode;
    if 1 < |u| && u[1] == '#' {
      var h := if IsHex(u) then 3 else 2;
      if h <= k {
        assert u[k] == u[h..][k - h];
      }
    } else {
      var row := Lookup(t, u[1..]).value;
      assert u[k] == u[1..][k - 1] == row.key[k - 1];
    }
  }

  /** A reference yields a NUL byte exactly when it is a reference to zero. */
  lemma ReferenceNul(t: Table, u: string)
    requires ValidTable(t) && u != "" && u[0] == '&'
    ensures ReferenceAt(t, u).Some? && NUL in ReferenceAt(t, u).value.text <==> ZeroReference(u, 0)
  {
    hide NumericReference, Lookup, ZeroNumber;
    if 1 < |u| && u[1] == '#' {
      NumericZero(u);
      var n := NumericReference(u);
      if n.Some? {
        EncodeNul(n.value.0);
      }
    } else {
      assert !ZeroReference(u, 0);
      var row := Lookup(t, u[1..]);
      if row.Some? {
        EncodeNul(row.value.cp);
      }
    }
  }

  lemma EncodeNul(cp: nat)
    requires cp <= Utf8.UNICODE_MAX
    ensures NUL in Utf8.Encode(cp) <==> cp == 0
  {
    assert forall i :: 1 <= i < |Utf8.Encode(cp)| ==> Utf8.Encode(cp)[i] as nat >= 0x80;
  }

  lemma ZeroReferenceShift(s: string, k: nat, i: nat)
    requires k <= |s|
    ensures ZeroReference(s[k..], i) <==> ZeroReference(s, k + i)
  {
    hide ZeroNumber;
    var u := s[k..];
    if i + 2 <= |u| {
      assert u[i..] == s[k + i..];
      var hex := IsHex(u[i..]);
      var h := i + if hex then 3 else 2;
      assert forall e :: h <= e < |u| ==> u[h..e] == s[k + h..k + e];
      if ZeroReference(u, i) {
        var e: nat :| h <= e < |u| && u[e] == ';' && ZeroNumber(u[h..e], hex);
        assert s[k + e] == ';' && ZeroNumber(s[k + h..k + e], hex);
      }
      if ZeroReference(s, k + i) {
        var e: nat :| k + h <= e < |s| && s[e] == ';' && ZeroNumber(s[k + h..e], hex);
        assert u[e - k] == ';' && ZeroNumber(u[h..e - k], hex);
      }
    }
  }

  ghost predicate HasZeroReference(s: string) {
    exists i: nat :: ZeroReference(s, i)
  }

  lemma ZeroReferenceAfter(s: string, k: nat)
    requires k <= |s| && forall i: nat :: i < k ==> !ZeroReference(s, i)
    ensures HasZeroReference(s[k..]) <==> HasZeroReference(s)
  {
    hide ZeroReference;
    if HasZeroReference(s) {
      var i: nat :| ZeroReference(s, i);
      ZeroReferenceShift(s, k, i - k);
    }
    if HasZeroReference(s[k..]) {
      var i: nat :| ZeroReference(s[k..], i);
      ZeroReferenceShift(s, k, i);
    }
  }

  /** The decoding of a C string is a whole C string, unless the text refers to code point zero. */
  lemma {:induction false} DecodeNul(t: Table, s: string)
    requires ValidTable(t) && NulFree(s)
    ensures NulFree(Decode(t, s)) <==> !HasZeroReference(s)
  {
    hide ReferenceAt, ZeroReference;
    if s == "" {
      assert !HasZeroReference(s) by { NoReferenceInNothing(); }
    } else {
      var r := if s[0] == '&' then ReferenceAt(t, s) else None;
      if s[0] == '&' {
        ReferenceNul(t, s);
      } else {
        NotAtPlain(s, 0);
      }
      if r.Some? {
        var k := r.value.length;
        assert NulFree(s[k..]);
        DecodeNul(t, s[k..]);
        if !ZeroReference(s, 0) {
          forall i: nat | i < k ensures !ZeroReference(s, i) {
            if i > 0 {
              NoAmpersandInside(t, s, i);
              NotAtPlain(s, i);
            }
          }
          ZeroReferenceAfter(s, k);
        }
      } else {
        assert NulFree(s[1..]);
        DecodeNul(t, s[1..]);
        ZeroReferenceAfter(s, 1);
      }
    }
  }

  lemma NoReferenceInNothing()
    ensures !HasZeroReference("")
  {
  }

  lemma NotAtPlain(s: string, i: nat)
    requires i < |s| && s[i] != '&'
    ensures !ZeroReference(s, i)
  {
  }

  /** The shortest reference to zero, the plain one, and one with all that strtoul steps over. */
  lemma TextsThatDecodeToNul(t: Table, s: string)
    requires ValidTable(t) && (s == "&#;" || s == "&#0;" || s == "&#x 0x00;")
    ensures HasZeroReference(s) && !NulFree(Decode(t, s))
  {
    hide Decode;
    assert s[0..] == s;
    if s == "&#;" {
      assert s[2..2] == "" && s[2] == ';';
    } else if s == "&#0;" {
      assert s[2..3] == "0" && s[3] == ';';
      assert ZeroFrom("0", false, 0);
    } else {
      assert s[3..8] == " 0x00" && s[8] == ';' && IsHex(s);
      PrefixOfSpaced();
      assert ZeroFrom(" 0x00", true, 3);
    }
    assert ZeroReference(s, 0);
    assert NulFree(s);
    DecodeNul(t, s);
  }

  lemma PrefixOfSpaced()
    ensures NumberPrefix(" 0x00", 16) == 3
  {
    assert SpaceRun(" 0x00") == 1;
  }

  /**
    * In memory as the decoder leaves it, strlen sees the length the decoder returned exactly when the
    * text had no reference to zero.
    */
  lemma ReturnedLengthIsStrLen(t: Table, text: string, a: array<char>)
    requires ValidTable(t) && NulFree(text)
    requires |Decode(t, text)| < a.Length
    requires a[..|Decode(t, text)|] == Decode(t, text) && a[|Decode(t, text)|] == NUL
    ensures Terminated(a, 0)
    ensures StrLen(a, 0) == |Decode(t, text)| <==> !HasZeroReference(text)
  {
    hide Decode, HasZeroReference;
    var d, seen := Decode(t, text), StrLen(a, 0);
    DecodeNul(t, text);
    assert forall k :: 0 <= k < seen ==> a[k] == a[0..seen][k] != NUL;
    assert forall k :: 0 <= k < |d| ==> a[k] == a[..|d|][k] == d[k];
  }
}
