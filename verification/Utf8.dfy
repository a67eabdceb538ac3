/** The UTF-8 encoder of the entity decoder, against an RFC 3629 decoder. */
module Utf8 {

  const UNICODE_MAX: nat := 0x10FFFF

  function Byte(b: nat): (c: char)
    requires b < 256
    ensures c as nat == b
  {
    b as char
  }

  /** The bytes putc_utf8 writes; none beyond the Unicode range. */
  function Encode(cp: nat): (s: string)
    ensures |s| <= 4
    ensures forall c :: c in s ==> c as nat < 256
    ensures cp <= UNICODE_MAX ==> s != "" && (s[0] as nat == 0 <==> cp == 0)
  {
    if cp <= 0x7F then
      [Byte(cp)]
    else if cp <= 0x7FF then
      [Byte(0xC0 + cp / 64), Byte(0x80 + cp % 64)]
    else if cp <= 0xFFFF then
      [Byte(0xE0 + cp / 4096), Byte(0x80 + cp / 64 % 64), Byte(0x80 + cp % 64)]
    else if cp <= UNICODE_MAX then
      [Byte(0xF0 + cp / 262144), Byte(0x80 + cp / 4096 % 64), Byte(0x80 + cp / 64 % 64), Byte(0x80 + cp % 64)]
    else
      ""
  }

  /** Section 4 of RFC 3629: a continuation byte. */
  predicate Tail(s: string, i: nat) {
    i < |s| && 0x80 <= s[i] as nat <= 0xBF
  }

  predicate Between(s: string, i: nat, lo: nat, hi: nat) {
    i < |s| && lo <= s[i] as nat <= hi
  }

  function Low6(s: string, i: nat): nat
    requires Tail(s, i)
  {
    s[i] as nat - 0x80
  }

  datatype Scalar = Scalar(cp: nat, length: nat) | Malformed

  /** Reads one character by the ABNF of section 4 of RFC 3629. */
  function DecodeOne(s: string): (r: Scalar)
    ensures r.Scalar? ==> r.length <= |s|
  {
    if Between(s, 0, 0x00, 0x7F) then
      Scalar(s[0] as nat, 1)
    else if Between(s, 0, 0xC2, 0xDF) && Tail(s, 1) then
      Scalar((s[0] as nat - 0xC0) * 64 + Low6(s, 1), 2)
    else if
      || (Between(s, 0, 0xE0, 0xE0) && Between(s, 1, 0xA0, 0xBF) && Tail(s, 2))
      || (Between(s, 0, 0xE1, 0xEC) && Tail(s, 1) && Tail(s, 2))
      || (Between(s, 0, 0xED, 0xED) && Between(s, 1, 0x80, 0x9F) && Tail(s, 2))
      || (Between(s, 0, 0xEE, 0xEF) && Tail(s, 1) && Tail(s, 2))
    then
      Scalar((s[0] as nat - 0xE0) * 4096 + Low6(s, 1) * 64 + Low6(s, 2), 3)
    else if
      || (Between(s, 0, 0xF0, 0xF0) && Between(s, 1, 0x90, 0xBF) && Tail(s, 2) && Tail(s, 3))
      || (Between(s, 0, 0xF1, 0xF3) && Tail(s, 1) && Tail(s, 2) && Tail(s, 3))
      || (Between(s, 0, 0xF4, 0xF4) && Between(s, 1, 0x80, 0x8F) && Tail(s, 2) && Tail(s, 3))
    then
      Scalar((s[0] as nat - 0xF0) * 262144 + Low6(s, 1) * 4096 + Low6(s, 2) * 64 + Low6(s, 3), 4)
    else
      Malformed
  }

  /** Section 3 of RFC 3629 prohibits the surrogate code points. */
  predicate Surrogate(cp: nat) {
    0xD800 <= cp <= 0xDFFF
  }

  /** The shortest number of bytes that can carry the code point (the table of section 3). */
  function ShortestLength(cp: nat): nat {
    if cp < 0x80 then 1 else if cp < 0x800 then 2 else if cp < 0x10000 then 3 else 4
  }

  lemma By64(q: nat, r: nat)
    requires r < 64
    ensures (q * 64 + r) / 64 == q && (q * 64 + r) % 64 == r
  {
  }

  lemma InSteps(n: nat)
    ensures n / 4096 == n / 64 / 64 && n / 262144 == n / 4096 / 64
  {
  }

  /** Six-bit groups recombined give back the groups. */
  lemma GroupsOf(a: nat, b: nat, c: nat, d: nat)
    requires b < 64 && c < 64 && d < 64
    ensures var cp := a * 262144 + b * 4096 + c * 64 + d;
      && cp % 64 == d
      && cp / 64 == a * 4096 + b * 64 + c && cp / 64 % 64 == c
      && cp / 4096 == a * 64 + b && cp / 4096 % 64 == b
      && cp / 262144 == a
  {
    var q, q2 := a * 4096 + b * 64 + c, a * 64 + b;
    By64(q, d);
    By64(q2, c);
    By64(a, b);
    InSteps(q * 64 + d);
  }

  /** A code point is its six-bit groups put back together. */
  lemma Sextets(cp: nat)
    ensures cp == cp / 64 * 64 + cp % 64
    ensures cp == cp / 4096 * 4096 + cp / 64 % 64 * 64 + cp % 64
    ensures cp == cp / 262144 * 262144 + cp / 4096 % 64 * 4096 + cp / 64 % 64 * 64 + cp % 64
  {
    var q, d := cp / 64, cp % 64;
    var q2, c := q / 64, q % 64;
    var a, b := q2 / 64, q2 % 64;
    assert cp == a * 262144 + b * 4096 + c * 64 + d;
    GroupsOf(a, b, c, d);
  }

  lemma EncodeThenDecodeShort(cp: nat, rest: string)
    requires cp <= 0x7FF
    ensures DecodeOne(Encode(cp) + rest) == Scalar(cp, ShortestLength(cp))
  {
    var s := Encode(cp) + rest;
    assert s[0] == Encode(cp)[0];
    if cp > 0x7F {
      assert s[1] == Encode(cp)[1];
    }
  }

  lemma EncodeThenDecode3(cp: nat, rest: string)
    requires 0x800 <= cp <= 0xFFFF
    ensures DecodeOne(Encode(cp) + rest) == if Surrogate(cp) then Malformed else Scalar(cp, 3)
  {
    Sextets(cp);
    var e := Encode(cp);
    var s := e + rest;
    assert s[0] == e[0] && s[1] == e[1] && s[2] == e[2];
    assert s[0] as nat == 0xE0 + cp / 4096;
    assert s[1] as nat == 0x80 + cp / 64 % 64;
    assert s[2] as nat == 0x80 + cp % 64;
  }

  lemma EncodeThenDecode4(cp: nat, rest: string)
    requires 0x10000 <= cp <= UNICODE_MAX
    ensures DecodeOne(Encode(cp) + rest) == Scalar(cp, 4)
  {
    Sextets(cp);
    var e := Encode(cp);
    var s := e + rest;
    assert s[0] == e[0] && s[1] == e[1] && s[2] == e[2] && s[3] == e[3];
    assert s[0] as nat == 0xF0 + cp / 262144;
    assert s[1] as nat == 0x80 + cp / 4096 % 64;
    assert s[2] as nat == 0x80 + cp / 64 % 64;
    assert s[3] as nat == 0x80 + cp % 64;
  }

  /**
    * An encoded code point has the shortest length, and is recovered, whatever follows it,
    * exactly when it is no surrogate.
    */
  lemma EncodeThenDecode(cp: nat, rest: string)
    requires cp <= UNICODE_MAX
    ensures |Encode(cp)| == ShortestLength(cp)
    ensures DecodeOne(Encode(cp) + rest) == if Surrogate(cp) then Malformed else Scalar(cp, |Encode(cp)|)
  {
    if cp <= 0x7FF {
      EncodeThenDecodeShort(cp, rest);
    } else if cp <= 0xFFFF {
      EncodeThenDecode3(cp, rest);
    } else {
      EncodeThenDecode4(cp, rest);
    }
  }

  /** The encoder produces every well-formed sequence, so only the shortest form is well formed. */
  lemma DecodeThenEncode(s: string)
    requires DecodeOne(s).Scalar?
    ensures DecodeOne(s).cp <= UNICODE_MAX && !Surrogate(DecodeOne(s).cp)
    ensures Encode(DecodeOne(s).cp) == s[..DecodeOne(s).length]
  {
    var n := DecodeOne(s).length;
    if n == 2 {
      DecodeThenEncode2(s);
    } else if n == 3 {
      DecodeThenEncode3(s);
    } else if n == 4 {
      DecodeThenEncode4(s);
    }
  }

  lemma DecodeThenEncode2(s: string)
    requires DecodeOne(s).Scalar? && DecodeOne(s).length == 2
    ensures 0x80 <= DecodeOne(s).cp < 0x800 && Encode(DecodeOne(s).cp) == s[..2]
  {
    GroupsOf(0, 0, s[0] as nat - 0xC0, Low6(s, 1));
  }

  lemma DecodeThenEncode3(s: string)
    requires DecodeOne(s).Scalar? && DecodeOne(s).length == 3
    ensures 0x800 <= DecodeOne(s).cp < 0x10000 && !Surrogate(DecodeOne(s).cp)
    ensures Encode(DecodeOne(s).cp) == s[..3]
  {
    GroupsOf(0, s[0] as nat - 0xE0, Low6(s, 1), Low6(s, 2));
  }

  lemma DecodeThenEncode4(s: string)
    requires DecodeOne(s).Scalar? && DecodeOne(s).length == 4
    ensures 0x10000 <= DecodeOne(s).cp <= UNICODE_MAX && Encode(DecodeOne(s).cp) == s[..4]
  {
    GroupsOf(s[0] as nat - 0xF0, Low6(s, 1), Low6(s, 2), Low6(s, 3));
  }

  /** The code point an encoding stands for, read by its lead byte; defined on surrogates too. */
  function CodePoint(e: string): int
  {
    if |e| == 1 then e[0] as nat
    else if |e| == 2 then (e[0] as int - 0xC0) * 64 + (e[1] as int - 0x80)
    else if |e| == 3 then (e[0] as int - 0xE0) * 4096 + (e[1] as int - 0x80) * 64 + (e[2] as int - 0x80)
    else if |e| == 4 then
      (e[0] as int - 0xF0) * 262144 + (e[1] as int - 0x80) * 4096 + (e[2] as int - 0x80) * 64 + (e[3] as int - 0x80)
    else 0
  }

  lemma CodePointOfEncode(cp: nat)
    requires cp <= UNICODE_MAX
    ensures CodePoint(Encode(cp)) == cp
  {
    Sextets(cp);
  }

  /** The lead byte tells the length of an encoding. */
  function LengthByLead(lead: char): nat {
    if lead as nat < 0x80 then 1 else if lead as nat < 0xE0 then 2 else if lead as nat < 0xF0 then 3 else 4
  }

  lemma LeadTellsLength(cp: nat)
    requires cp <= UNICODE_MAX
    ensures LengthByLead(Encode(cp)[0]) == |Encode(cp)|
  {
  }

  /** No encoding is the beginning of another one, and no two are equal; surrogates included. */
  lemma EncodePrefixFree(a: nat, b: nat)
    requires a <= UNICODE_MAX && b <= UNICODE_MAX
    requires Encode(a) <= Encode(b)
    ensures a == b
  {
    LeadTellsLength(a);
    LeadTellsLength(b);
    assert Encode(a) == Encode(b);
    CodePointOfEncode(a);
    CodePointOfEncode(b);
  }
}
