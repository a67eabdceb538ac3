/**
  * Decoding HTML entities: what a text decodes to, and the pointer algorithm that decodes it, into
  * another buffer or onto the text itself. Bytes are chars; a C string is a stretch of an array up
  * to its first NUL.
  */
module Entity {
  import opened Text
  import opened Wrappers
  import opened EntityLookup
  import Utf8

  /** What a recognised reference at the start of a text becomes, and how much of the text it takes. */
  datatype Reference = Reference(text: string, length: nat)

  predicate IsHex(s: string) {
    2 < |s| && (s[2] == 'x' || s[2] == 'X')
  }

  /** `&#` or `&#x`, a number as strtoul reads it, and `;`: the code point and the length. */
  function NumericReference(s: string): (r: Option<(nat, nat)>)
    requires 2 <= |s|
    ensures r.Some? ==> 3 <= r.value.1 <= |s| && r.value.0 <= Utf8.UNICODE_MAX
    ensures r.Some? ==> r.value.1 == 3 ==> r.value.0 == 0
  {
    var h := if IsHex(s) then 3 else 2;
    var n := StrToUl(s[h..], if IsHex(s) then 16 else 10);
    var e := h + n.tail;
    if e < |s| && s[e] == ';' && !n.range && n.value <= Utf8.UNICODE_MAX then Some((n.value, e + 1)) else None
  }

  /** The reference a text that starts with `&` begins with, if any. */
  function ReferenceAt(t: Table, s: string): (r: Option<Reference>)
    requires s != "" && s[0] == '&'
    ensures r.Some? ==> 0 < r.value.length <= |s|
  {
    if 1 < |s| && s[1] == '#' then
      var n := NumericReference(s);
      if n.None? then None else Some(Reference(Utf8.Encode(n.value.0), n.value.1))
    else
      var row := Lookup(t, s[1..]);
      if row.None? then None else Some(Reference(row.value.Text(), 1 + |row.value.key|))
  }

  /** Every recognised reference replaced, everything else kept. */
  function Decode(t: Table, s: string): string {
    if s == "" then ""
    else
      var r := if s[0] == '&' then ReferenceAt(t, s) else None;
      if r.Some? then r.value.text + Decode(t, s[r.value.length..])
      else [s[0]] + Decode(t, s[1..])
  }

  /** A reference is never shorter than the text it stands for. */
  lemma ReferenceShrinks(t: Table, s: string)
    requires ValidTable(t) && s != "" && s[0] == '&' && ReferenceAt(t, s).Some?
    ensures |ReferenceAt(t, s).value.text| <= ReferenceAt(t, s).value.length
  {
  }

  lemma {:induction false} DecodeShrinks(t: Table, s: string)
    requires ValidTable(t)
    ensures |Decode(t, s)| <= |s|
  {
    if s != "" {
      var r := if s[0] == '&' then ReferenceAt(t, s) else None;
      if r.Some? {
        ReferenceShrinks(t, s);
        DecodeShrinks(t, s[r.value.length..]);
      } else {
        DecodeShrinks(t, s[1..]);
      }
    }
  }

  /** Text without an ampersand passes through. */
  lemma {:induction false} DecodePlain(t: Table, plain: string, s: string)
    requires '&' !in plain
    ensures Decode(t, plain + s) == plain + Decode(t, s)
  {
    hide ReferenceAt;
    if plain == "" {
      assert plain + s == s;
    } else {
      var rest := plain[1..];
      assert plain[0] in plain;
      assert forall c :: c in rest ==> c in plain;
      DecodePlain(t, rest, s);
      assert (plain + s)[1..] == rest + s;
    }
  }

  /**
    * The C code stops at the first semicolon after the ampersand, then asks whether the number ended
    * just there. It is the same as asking for a semicolon just after the number.
    */
  lemma NumberEndsAtSemicolon(s: string, h: nat, tail: nat)
    requires h + tail <= |s|
    requires forall k :: 0 <= k < h + tail ==> s[k] != ';'
    ensures h + tail == IndexOf(s, ';') < |s| <==> h + tail < |s| && s[h + tail] == ';'
  {
    if h + tail < |s| && s[h + tail] == ';' {
      IndexOfUnique(s, ';', h + tail);
    }
  }

  // ---- C strings in memory ---------------------------------------------------------------

  ghost predicate Terminated(a: array<char>, from: nat)
    reads a
  {
    exists k :: from <= k < a.Length && a[k] == NUL
  }

  function StrLen(a: array<char>, from: nat): (n: nat)
    requires Terminated(a, from)
    reads a
    ensures from + n < a.Length && a[from + n] == NUL
    ensures NUL !in a[from..from + n]
    decreases a.Length - from
  {
    if a[from] == NUL then 0
    else
      var n := 1 + StrLen(a, from + 1);
      assert a[from..from + n] == [a[from]] + a[from + 1..from + n];
      n
  }

  function CString(a: array<char>, from: nat): (s: string)
    requires Terminated(a, from)
    reads a
    ensures NulFree(s)
  {
    a[from..from + StrLen(a, from)]
  }

  lemma StrLenIs(a: array<char>, from: nat, s: string)
    requires NulFree(s) && from + |s| < a.Length
    requires a[from..from + |s|] == s && a[from + |s|] == NUL
    ensures Terminated(a, from) && StrLen(a, from) == |s| && CString(a, from) == s
  {
    var n := StrLen(a, from);
    assert forall k :: from <= k < from + |s| ==> a[k] == s[k - from] != NUL;
    assert forall k :: from <= k < from + n ==> a[k] == a[from..from + n][k - from] != NUL;
  }

  /** Memory after `s` was written at `to`, from memory before. */
  ghost predicate Wrote(before: seq<char>, after: seq<char>, to: nat, s: string) {
    && |after| == |before| && to + |s| <= |after|
    && after[..to + |s|] == before[..to] + s
    && after[to + |s|..] == before[to + |s|..]
  }

  /** memmove: the areas may overlap. */
  method Memmove(dest: array<char>, to: nat, src: array<char>, from: nat, n: nat)
    requires to + n <= dest.Length && from + n <= src.Length
    modifies dest
    ensures Wrote(old(dest[..]), dest[..], to, old(src[from..from + n]))
  {
    forall k | 0 <= k < n {
      dest[to + k] := src[from + k];
    }
  }

  /** memcpy of a constant. */
  method Store(dest: array<char>, to: nat, s: string)
    requires to + |s| <= dest.Length
    modifies dest
    ensures Wrote(old(dest[..]), dest[..], to, s)
  {
    forall k | 0 <= k < |s| {
      dest[to + k] := s[k];
    }
  }

  // ---- the algorithm ---------------------------------------------------------------------

  /** parse_entity, with the moved pointers returned. */
  method ParseEntity(t: Table, src: array<char>, current: nat, dest: array<char>, to: nat)
    returns (ok: bool, to': nat, from': nat)
    requires ValidTable(t)
    requires Terminated(src, current) && src[current] == '&'
    requires to + StrLen(src, current) < dest.Length
    modifies dest
    ensures
      var s := old(CString(src, current));
      var r := ReferenceAt(t, s);
      && ok == r.Some?
      && (ok ==>
            && to' == to + |r.value.text| && from' == current + r.value.length
            && |r.value.text| <= r.value.length <= |s| && to' <= dest.Length
            && Wrote(old(dest[..]), dest[..], to, r.value.text))
      && (!ok ==> to' == to && from' == current && dest[..] == old(dest[..]))
  {
    hide StrToUl, ReferenceAt, Lookup, Utf8.Encode;
    var s := CString(src, current);
    assert s[0] == src[current];
    var end := IndexOf(s, ';');
    if end == |s| {
      NoSemicolonNoReference(t, s);
      return false, to, current;
    }
    if s[1] == '#' {
      var hex := s[2] == 'x' || s[2] == 'X';
      var n := StrToUl(s[if hex then 3 else 2..], if hex then 16 else 10);
      var tail := (if hex then 3 else 2) + n.tail;
      NumericCase(t, s, end);
      if n.range || tail != end || n.value > Utf8.UNICODE_MAX {
        return false, to, current;
      }
      ReferenceShrinks(t, s);
      var bytes := Utf8.Encode(n.value);
      Store(dest, to, bytes);
      return true, to + |bytes|, current + end + 1;
    } else {
      var row := GetNamedEntity(t, s[1..]);
      NamedCase(t, s, end);
      if row.None? {
        return false, to, current;
      }
      ReferenceShrinks(t, s);
      var text := row.value.Text();
      Store(dest, to, text);
      return true, to + |text|, current + end + 1;
    }
  }

  lemma NumericCase(t: Table, s: string, end: nat)
    requires s != "" && s[0] == '&' && end == IndexOf(s, ';') < |s|
    requires s[1] == '#'
    ensures 2 < |s|
    ensures
      var h := if s[2] == 'x' || s[2] == 'X' then 3 else 2;
      var n := StrToUl(s[h..], if h == 3 then 16 else 10);
      ReferenceAt(t, s) ==
        if n.range || h + n.tail != end || n.value > Utf8.UNICODE_MAX then None
        else Some(Reference(Utf8.Encode(n.value), end + 1))
  {
    hide StrToUl, Utf8.Encode, Lookup, IndexOf, NumericReference, ReferenceAt;
    assert s[end] == ';' && s[1] != ';' && 2 <= end;
    if IsHex(s) {
      NumberStopsBefore(s, 3, 16);
      NumberReference(t, s, 3, 16);
    } else {
      NumberStopsBefore(s, 2, 10);
      NumberReference(t, s, 2, 10);
    }
  }

  /** A numeric reference with its digits from `h` on. */
  lemma NumberReference(t: Table, s: string, h: nat, base: nat)
    requires 2 < |s| && s[0] == '&' && s[1] == '#' && if IsHex(s) then h == 3 && base == 16 else h == 2 && base == 10
    ensures
      var n := StrToUl(s[h..], base);
      var e := h + n.tail;
      ReferenceAt(t, s) ==
        if e < |s| && s[e] == ';' && !n.range && n.value <= Utf8.UNICODE_MAX
        then Some(Reference(Utf8.Encode(n.value), e + 1)) else None
  {
    hide StrToUl, Utf8.Encode, Lookup;
  }

  lemma NumberStopsBefore(s: string, h: nat, base: nat)
    requires 2 <= base <= 16 && h <= |s| && forall k :: 0 <= k < h ==> s[k] != ';'
    ensures
      var e := h + StrToUl(s[h..], base).tail;
      e == IndexOf(s, ';') < |s| <==> e < |s| && s[e] == ';'
  {
    hide StrToUl, NumberChar, IndexOf;
    var tail := StrToUl(s[h..], base).tail;
    forall k | h <= k < h + tail ensures s[k] != ';' {
      assert s[k] == s[h..][k - h];
    }
    NumberEndsAtSemicolon(s, h, tail);
  }

  lemma NamedCase(t: Table, s: string, end: nat)
    requires ValidTable(t)
    requires s != "" && s[0] == '&' && end == IndexOf(s, ';') < |s| && s[1] != '#'
    ensures
      var row := Lookup(t, s[1..]);
      ReferenceAt(t, s) == if row.None? then None else Some(Reference(row.value.Text(), end + 1))
  {
    var row := Lookup(t, s[1..]);
    if row.Some? {
      HitEndsAtFirstSemicolon(row.value, s[1..]);
    }
  }

  lemma NoSemicolonNoReference(t: Table, s: string)
    requires ValidTable(t) && s != "" && s[0] == '&' && ';' !in s
    ensures ReferenceAt(t, s).None?
  {
    assert ';' !in s[1..];
    var row := Lookup(t, s[1..]);
    if row.Some? {
      HitEndsAtFirstSemicolon(row.value, s[1..]);
      assert false;
    }
  }

  /** `out` is the decoding of the text before `from`. */
  ghost predicate Progress(t: Table, text: string, out: string, from: nat) {
    |out| <= from <= |text| && out + Decode(t, text[from..]) == Decode(t, text)
  }

  lemma CopyPlain(t: Table, text: string, out: string, from: nat, current: nat)
    requires Progress(t, text, out, from) && from <= current <= |text| && '&' !in text[from..current]
    ensures Progress(t, text, out + text[from..current], current)
  {
    hide ReferenceAt;
    assert text[from..] == text[from..current] + text[current..];
    DecodePlain(t, text[from..current], text[current..]);
  }

  lemma TakeReference(t: Table, text: string, out: string, from: nat)
    requires Progress(t, text, out, from) && ValidTable(t) && from < |text| && text[from] == '&'
    ensures
      var r := ReferenceAt(t, text[from..]);
      if r.Some? then Progress(t, text, out + r.value.text, from + r.value.length)
      else Progress(t, text, out + text[from..from + 1], from + 1)
  {
    hide ReferenceAt;
    var r := ReferenceAt(t, text[from..]);
    if r.Some? {
      ReferenceShrinks(t, text[from..]);
      assert text[from..][r.value.length..] == text[from + r.value.length..];
    } else {
      assert text[from..from + 1] == [text[from]];
      assert text[from..][1..] == text[from + 1..];
    }
  }

  /** `dest` holds `out`, and `src` from `from` on still holds the text and its NUL. */
  ghost predicate Memory(dest: seq<char>, out: string, src: seq<char>, text: string, from: nat) {
    && |out| <= from <= |text| < |src| && |text| < |dest|
    && dest[..|out|] == out && src[from..|text|] == text[from..] && src[|text|] == NUL
  }

  /** A write into `dest` that stays behind the read position leaves the rest of `src` alone. */
  lemma WriteBehind(dest: seq<char>, dest': seq<char>, src: seq<char>, src': seq<char>,
                    out: string, s: string, text: string, from: nat, from': nat)
    requires Memory(dest, out, src, text, from) && from <= from' <= |text| && |out + s| <= from'
    requires Wrote(dest, dest', |out|, s) && (src' == src || (src == dest && src' == dest'))
    ensures Memory(dest', out + s, src', text, from')
    ensures dest'[|text| + 1..] == dest[|text| + 1..]
  {
    var end := |out + s|;
    assert forall k :: end <= k < |dest| ==> dest'[k] == dest'[end..][k - end] == dest[end..][k - end] == dest[k];
    assert forall k :: from <= k < |text| ==> src[k] == src[from..|text|][k - from] == text[from..][k - from];
    assert src'[from'..|text|] == text[from'..];
  }

  /** From the read position, the C string is the rest of the text. */
  lemma RestInMemory(dest: array<char>, out: string, src: array<char>, text: string, from: nat)
    requires Memory(dest[..], out, src[..], text, from) && NulFree(text)
    ensures |out| <= from <= |text| < src.Length && |text| < dest.Length && dest[..|out|] == out
    ensures Terminated(src, from) && StrLen(src, from) == |text| - from && CString(src, from) == text[from..]
  {
    assert src[from..|text|] == src[..][from..|text|];
    StrLenIs(src, from, text[from..]);
  }

  /** memmove within the decoder: `n` more bytes of the text. */
  method CopyBehind(dest: array<char>, to: nat, src: array<char>, from: nat, n: nat,
                    ghost out: string, ghost text: string)
    requires Memory(dest[..], out, src[..], text, from) && to == |out| && from + n <= |text|
    modifies dest
    ensures Memory(dest[..], out + text[from..from + n], src[..], text, from + n)
    ensures dest[|text| + 1..] == old(dest[..])[|text| + 1..]
  {
    ghost var before, source := dest[..], src[..];
    assert src[from..from + n] == source[from..|text|][..n] == text[from..][..n] == text[from..from + n];
    Memmove(dest, to, src, from, n);
    WriteBehind(before, dest[..], source, src[..], out, text[from..from + n], text, from, from + n);
  }

  /** The copy of the text before an ampersand, or before the end. */
  method CopyPlainBehind(t: Table, dest: array<char>, to: nat, src: array<char>, from: nat, n: nat,
                         ghost out: string, ghost text: string)
    returns (ghost out': string)
    requires Progress(t, text, out, from) && Memory(dest[..], out, src[..], text, from) && to == |out|
    requires from + n <= |text| && '&' !in text[from..][..n]
    modifies dest
    ensures Progress(t, text, out', from + n) && Memory(dest[..], out', src[..], text, from + n)
    ensures |out'| == to + n
    ensures dest[|text| + 1..] == old(dest[..])[|text| + 1..]
  {
    hide Progress, Memory;
    assert text[from..][..n] == text[from..from + n];
    CopyBehind(dest, to, src, from, n, out, text);
    CopyPlain(t, text, out, from, from + n);
    out' := out + text[from..from + n];
  }

  /** parse_entity within the decoder; without a reference, the ampersand is the next byte to keep. */
  method ParseBehind(t: Table, src: array<char>, current: nat, dest: array<char>, to: nat,
                     ghost out: string, ghost text: string)
    returns (ok: bool, to': nat, from': nat, ghost out': string)
    requires ValidTable(t) && NulFree(text) && current < |text| && text[current] == '&'
    requires Progress(t, text, out, current) && Memory(dest[..], out, src[..], text, current) && to == |out|
    modifies dest
    ensures ok ==> Progress(t, text, out', from') && to' == |out'| && current < from' <= |text|
    ensures ok ==> Memory(dest[..], out', src[..], text, from')
    ensures !ok ==> to' == to
    ensures !ok ==> Progress(t, text, out', current + 1) && out' == out + text[current..current + 1]
    ensures !ok ==> Memory(dest[..], out, src[..], text, current)
    ensures dest[|text| + 1..] == old(dest[..])[|text| + 1..]
  {
    hide ReferenceAt, Progress;
    ghost var before, source := dest[..], src[..];
    RestInMemory(dest, out, src, text, current);
    assert src[current] == text[current..][0];
    TakeReference(t, text, out, current);
    ghost var r := ReferenceAt(t, text[current..]);
    ok, to', from' := ParseEntity(t, src, current, dest, to);
    out' := out + if ok then r.value.text else text[current..current + 1];
    if ok {
      WriteBehind(before, dest[..], source, src[..], out, r.value.text, text, current, from');
    }
  }

  /** One round of the loop, for the ampersand at `current`. */
  method Round(t: Table, dest: array<char>, to: nat, src: array<char>, from: nat, current: nat,
               ghost out: string, ghost text: string)
    returns (to': nat, from': nat, ghost out': string)
    requires ValidTable(t) && NulFree(text)
    requires Progress(t, text, out, from) && Memory(dest[..], out, src[..], text, from) && to == |out|
    requires from <= current < |text| && text[current] == '&' && '&' !in text[from..][..current - from]
    modifies dest
    ensures Progress(t, text, out', from') && Memory(dest[..], out', src[..], text, from') && to' == |out'|
    ensures current < from' <= |text|
    ensures dest[|text| + 1..] == old(dest[..])[|text| + 1..]
  {
    hide Decode, ReferenceAt, Progress, Memory;
    out' := CopyPlainBehind(t, dest, to, src, from, current - from, out, text);
    ghost var kept := out';
    var ok;
    ok, to', from', out' := ParseBehind(t, src, current, dest, to + (current - from), kept, text);
    if ok {
      return;
    }
    from' := current;
    CopyBehind(dest, to', src, from', 1, kept, text);
    to', from' := to' + 1, from' + 1;
  }

  /**
    * decode_html_entities_utf8. Without a source, or with the destination as the source, the text is
    * decoded onto itself: the write position never passes the read position.
    */
  method DecodeHtmlEntities(t: Table, dest: array<char>, source: array?<char>) returns (length: nat)
    requires ValidTable(t)
    requires var src := if source == null then dest else source;
      Terminated(src, 0) && StrLen(src, 0) < dest.Length
    modifies dest
    ensures
      var text := old(CString(if source == null then dest else source, 0));
      && length == |Decode(t, text)| && length <= |text| < dest.Length
      && dest[..length] == Decode(t, text) && dest[length] == NUL
      && dest[|text| + 1..] == old(dest[..])[|text| + 1..]
  {
    hide Decode, ReferenceAt, Progress, Memory, ValidTable, Terminated, StrLen, CString;
    var src: array<char> := if source == null then dest else source;
    ghost var text := CString(src, 0);
    ghost var out := "";
    var to, from := 0, 0;
    Start(t, dest, src, text);
    while true
      invariant to == |out| && from <= |text| && Progress(t, text, out, from)
      invariant Memory(dest[..], out, src[..], text, from)
      invariant dest[|text| + 1..] == old(dest[..])[|text| + 1..]
      decreases |text| - from
    {
      RestInMemory(dest, out, src, text, from);
      var ahead := IndexOf(CString(src, from), '&');
      if ahead == StrLen(src, from) {
        break;
      }
      to, from, out := Round(t, dest, to, src, from, from + ahead, out, text);
    }
    var remaining := StrLen(src, from);
    out := CopyPlainBehind(t, dest, to, src, from, remaining, out, text);
    to := to + remaining;
    RestInMemory(dest, out, src, text, |text|);
    AllProgress(t, text, out);
    dest[to] := NUL;
    length := to;
  }

  lemma Start(t: Table, dest: array<char>, src: array<char>, text: string)
    requires Terminated(src, 0) && CString(src, 0) == text && StrLen(src, 0) < dest.Length
    ensures |text| == StrLen(src, 0) && NulFree(text)
    ensures Progress(t, text, "", 0) && Memory(dest[..], "", src[..], text, 0)
  {
    assert text[0..] == text;
  }

  lemma AllProgress(t: Table, text: string, out: string)
    requires Progress(t, text, out, |text|)
    ensures out == Decode(t, text)
  {
  }
}
