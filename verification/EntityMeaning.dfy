/**
  * What references mean: the characters that named ones stand for, what strtoul steps over in numeric
  * ones, and the texts that are no references and stay as they are.
  */
module EntityMeaning {
  import opened Text
  import opened Wrappers
  import opened EntityLookup
  import opened Entity
  import EntityLaws
  import EntityTable
  import Utf8

  // ---- named references ------------------------------------------------------------------

  /** A named reference becomes the UTF-8 bytes of its row's code point, which a reader of UTF-8 gets back. */
  lemma NamedReferenceDecodes(t: Table, row: Named, rest: string)
    requires ValidTable(t) && row in t && row.key[0] != '#'
    ensures
      var s := "&" + row.key + rest;
      && Decode(t, s) == Utf8.Encode(row.cp) + Decode(t, rest)
      && (!Utf8.Surrogate(row.cp) ==>
            Utf8.DecodeOne(Decode(t, s)) == Utf8.Scalar(row.cp, Utf8.ShortestLength(row.cp)))
  {
    hide Decode, Utf8.Encode, Utf8.DecodeOne;
    EntityLaws.DecodeNamed(t, row, rest);
    Utf8.EncodeThenDecode(row.cp, Decode(t, rest));
  }

  /** The keys of the source's table are letters and digits from `A` on: none hides behind a numeric reference. */
  lemma NoKeyIsANumber(row: Named)
    requires row in EntityTable.NAMED_ENTITIES
    ensures row.key != "" && row.key[0] >= 'A'
  {
    hide EntityTable.Flatten, EntityTable.ToTable;
    EntityTable.From0();
    EntityTable.LinkedIsValid(EntityTable.FROM0);
    var t := EntityTable.NAMED_ENTITIES;
    var i :| 0 <= i < |t| && t[i] == row;
    assert t[0].key == "AElig;";
    if i > 0 {
      FirstCharacters(t[0].key, t[i].key);
    }
  }

  lemma FirstCharacters(a: string, b: string)
    requires Less(a, b) && a != ""
    ensures b != "" && a[0] <= b[0]
  {
  }

  /** The same for every row of the source's table. */
  lemma EveryEntityDecodes(row: Named, rest: string)
    requires row in EntityTable.NAMED_ENTITIES
    ensures
      var t, s := EntityTable.NAMED_ENTITIES, "&" + row.key + rest;
      && Decode(t, s) == Utf8.Encode(row.cp) + Decode(t, rest)
      && (!Utf8.Surrogate(row.cp) ==>
            Utf8.DecodeOne(Decode(t, s)) == Utf8.Scalar(row.cp, Utf8.ShortestLength(row.cp)))
  {
    hide EntityTable.Flatten, Decode, Utf8.Encode, Utf8.DecodeOne;
    EntityTable.NamedEntitiesValid();
    NoKeyIsANumber(row);
    NamedReferenceDecodes(EntityTable.NAMED_ENTITIES, row, rest);
  }

  // ---- what strtoul steps over -----------------------------------------------------------

  /** A digit is worth its place in the sequence of digits, in lower or upper case; nothing else is one. */
  lemma DigitsByPlace(c: char)
    ensures forall d: nat :: d < 16 ==>
              (DigitValue(c) == d <==> c == "0123456789abcdef"[d] || c == "0123456789ABCDEF"[d])
  {
    assert forall d: nat :: d < 10 ==> "0123456789abcdef"[d] == '0' + d as char == "0123456789ABCDEF"[d];
    assert forall d: nat :: 10 <= d < 16 ==>
             "0123456789abcdef"[d] == 'a' + (d - 10) as char && "0123456789ABCDEF"[d] == 'A' + (d - 10) as char;
  }

  /** Numbers are printed without leading zeros. */
  lemma {:induction false} NoLeadingZero(n: nat, base: nat)
    requires 2 <= base <= 16
    ensures Digits(n, base)[0] == '0' <==> n == 0
    ensures n == 0 ==> Digits(n, base) == "0"
    decreases n
  {
    if n >= base {
      DivisionFacts(n, base);
      NoLeadingZero(n / base, base);
      Quotient(n, base);
    }
  }

  lemma Quotient(n: nat, base: nat)
    requires 2 <= base <= n
    ensures n / base > 0
  {
  }

  lemma SixSpaces(c: char)
    ensures IsSpace(c) <==> c == ' ' || c == '\t' || c == '\n' || c == '\r' || c == 11 as char || c == 12 as char
  {
  }

  /** What stands before the digits: spaces, maybe a sign, maybe in base 16 an `0x`. */
  predicate Steps(spaces: string, sign: string, ox: string, base: nat) {
    && (forall i :: 0 <= i < |spaces| ==> IsSpace(spaces[i]))
    && (sign == "" || sign == "+" || sign == "-")
    && (ox == "" || (base == 16 && (ox == "0x" || ox == "0X")))
  }

  /**
    * strtoul reads the number behind all of that, takes a negative one modulo 2^64, and reports a number
    * that is too large with the largest one.
    */
  lemma StrToUlPrefixed(spaces: string, sign: string, ox: string, d: string, rest: string, base: nat)
    requires (base == 10 || base == 16) && Steps(spaces, sign, ox, base)
    requires d != "" && AllDigits(d, base)
    requires rest != "" && !IsDigit(rest[0], base) && rest[0] != 'x' && rest[0] != 'X'
    ensures
      var v := Value(d, base);
      var n := |spaces| + |sign| + |ox| + |d|;
      StrToUl(spaces + (sign + (ox + (d + rest))), base) ==
        if v > ULONG_MAX then Number(ULONG_MAX, n, true)
        else Number(if sign == "-" && v > 0 then ULONG_MAX + 1 - v else v, n, false)
  {
    hide StrToUl, Value, AllDigits, NumberPrefix, Negated;
    var more := d + rest;
    FirstTwo(d, rest, base);
    PrefixStepped(spaces, sign, ox, more, base);
    Skipped(spaces, sign, ox, more);
    StrToUlAt(spaces + (sign + (ox + more)), |spaces| + |sign| + |ox|, d, rest, base);
  }

  lemma FirstTwo(d: string, rest: string, base: nat)
    requires base <= 16 && d != "" && AllDigits(d, base) && rest != "" && rest[0] != 'x' && rest[0] != 'X'
    ensures IsDigit((d + rest)[0], base) && (d + rest)[1] != 'x' && (d + rest)[1] != 'X'
  {
    assert IsDigit(d[0], base) && (|d| > 1 ==> IsDigit(d[1], base));
  }

  lemma Skipped(spaces: string, sign: string, ox: string, more: string)
    ensures (spaces + (sign + (ox + more)))[|spaces| + |sign| + |ox|..] == more
  {
  }

  lemma StrToUlAt(s: string, q: nat, d: string, rest: string, base: nat)
    requires (base == 10 || base == 16) && q <= |s| && NumberPrefix(s, base) == q && s[q..] == d + rest
    requires d != "" && AllDigits(d, base) && rest != "" && !IsDigit(rest[0], base)
    ensures
      var v := Value(d, base);
      StrToUl(s, base) ==
        if v > ULONG_MAX then Number(ULONG_MAX, q + |d|, true)
        else Number(if Negated(s) && v > 0 then ULONG_MAX + 1 - v else v, q + |d|, false)
  {
    hide NumberPrefix, DigitRun, Value, Negated, AllDigits;
    DigitRunIs(d, rest, base);
    assert s[q..][..|d|] == d;
  }

  lemma PrefixStepped(spaces: string, sign: string, ox: string, more: string, base: nat)
    requires (base == 10 || base == 16) && Steps(spaces, sign, ox, base)
    requires |more| >= 2 && IsDigit(more[0], base) && more[1] != 'x' && more[1] != 'X'
    ensures
      var s := spaces + (sign + (ox + more));
      NumberPrefix(s, base) == |spaces| + |sign| + |ox| && (Negated(s) <==> sign == "-")
  {
    hide SpaceRun, NumberPrefix, Negated;
    var tail := ox + more;
    var signed := sign + tail;
    var s, w := spaces + signed, |spaces|;
    assert IsDigit(more[0], 16) && tail[0] == (if ox == "" then more[0] else '0');
    assert signed[0] == if sign == "" then tail[0] else sign[0];
    SpacesRun(spaces, signed);
    var p := w + |sign|;
    assert forall i :: 0 <= i < |tail| ==> s[p + i] == tail[i];
    assert s[w] == signed[0];
    PrefixBy(s, w, sign, ox, base);
  }

  /** The same from the characters alone. */
  lemma PrefixBy(s: string, w: nat, sign: string, ox: string, base: nat)
    requires (base == 10 || base == 16) && Steps("", sign, ox, base) && w + |sign| + |ox| + 1 < |s|
    requires SpaceRun(s) == w && (if sign == "" then s[w] != '+' && s[w] != '-' else s[w] == sign[0])
    requires
      var p := w + |sign|;
      if ox == "" then s[p + 1] != 'x' && s[p + 1] != 'X'
      else s[p] == '0' && s[p + 1] == ox[1] && IsDigit(s[p + 2], 16)
    ensures NumberPrefix(s, base) == w + |sign| + |ox| && (Negated(s) <==> sign == "-")
  {
    hide SpaceRun;
  }

  // ---- texts that stay -------------------------------------------------------------------

  /** A reference ends at the first semicolon after its ampersand. */
  lemma ReferenceShape(t: Table, s: string)
    requires ValidTable(t) && s != "" && s[0] == '&' && ReferenceAt(t, s).Some?
    ensures ReferenceAt(t, s).value.length == IndexOf(s, ';') + 1 <= |s|
  {
    hide StrToUl, Utf8.Encode, IndexOf;
    if ';' !in s {
      NoSemicolonNoReference(t, s);
      assert false;
    }
    IndexOfBefore(s);
    if 1 < |s| && s[1] == '#' {
      NumericCase(t, s, IndexOf(s, ';'));
    } else {
      NamedCase(t, s, IndexOf(s, ';'));
    }
  }

  lemma IndexOfBefore(s: string)
    requires ';' in s && s[0] == '&'
    ensures 0 < IndexOf(s, ';') < |s|
  {
  }

  /** A text without a semicolon is its own decoding, ampersands included. */
  lemma {:induction false} NoSemicolonStays(t: Table, s: string)
    requires ValidTable(t) && ';' !in s
    ensures Decode(t, s) == s
  {
    hide ReferenceAt;
    if s != "" {
      if s[0] == '&' {
        NoSemicolonNoReference(t, s);
      }
      assert forall c :: c in s[1..] ==> c in s;
      NoSemicolonStays(t, s[1..]);
      assert s == [s[0]] + s[1..];
    }
  }

  /** Text between an ampersand that begins no reference and the next one stays, with that ampersand. */
  lemma UnknownStays(t: Table, plain: string, rest: string)
    requires '&' !in plain && ReferenceAt(t, "&" + (plain + rest)).None?
    ensures Decode(t, "&" + (plain + rest)) == "&" + plain + Decode(t, rest)
  {
    hide ReferenceAt;
    var s := "&" + (plain + rest);
    assert s[0] == '&' && s[1..] == plain + rest;
    DecodePlain(t, plain, rest);
    assert "&" + (plain + Decode(t, rest)) == "&" + plain + Decode(t, rest);
  }

  /** A number beyond the Unicode range stays as written, in either base. */
  lemma TooLargeStays(t: Table, d: string, base: nat, upper: bool, rest: string)
    requires (base == 10 || base == 16) && d != "" && AllDigits(d, base) && Value(d, base) > Utf8.UNICODE_MAX
    ensures
      var s := EntityLaws.Opening(base, upper) + d + ";";
      Decode(t, s + rest) == s + Decode(t, rest)
  {
    hide Decode, ReferenceAt, Value, AllDigits;
    var open := EntityLaws.Opening(base, upper);
    var s := open + d + ";";
    EntityLaws.NumericReferenceDecodes(t, d, base, upper, rest);
    assert s + rest == open + d + ";" + rest;
    var plain := open[1..] + d + ";";
    assert s + rest == "&" + (plain + rest) && s == "&" + plain;
    DigitsAreNoAmpersand(d, base);
    assert forall c :: c in plain ==> c in open[1..] || c in d || c == ';';
    UnknownStays(t, plain, rest);
  }

  lemma DigitsAreNoAmpersand(d: string, base: nat)
    requires AllDigits(d, base) && base <= 16
    ensures '&' !in d
  {
    assert forall i :: 0 <= i < |d| ==> IsDigit(d[i], base);
  }
}
