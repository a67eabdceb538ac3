/** The three loops agree on every format, and what is put into a buffer is what comes out, wrapped. */
module SerdesLaws {
  import opened Text
  import opened Wrappers
  import opened Serdes

  /** A field of a call: an integer of 1, 2, 4 or 8 bytes, or a binary block of some length. */
  datatype Field = IntField(bytes: nat, signed: bool) | BinField(length: nat) {
    predicate Valid() {
      if IntField? then bytes == 1 || bytes == 2 || bytes == 4 || bytes == 8 else length > 0
    }
  }

  function FieldText(codes: Codes, f: Field): string {
    if f.IntField? then [codes.Char(f.bytes, f.signed)] else [codes.bin] + Digits(f.length, 10) + "."
  }

  /** The format string of a list of fields. */
  function Format(codes: Codes, fields: seq<Field>): string {
    if fields == [] then "" else FieldText(codes, fields[0]) + Format(codes, fields[1..])
  }

  ghost predicate ValidFields(fields: seq<Field>) {
    forall i :: 0 <= i < |fields| ==> fields[i].Valid()
  }

  function CodeOf(f: Field): Code {
    if f.IntField? then Int(f.bytes, f.signed) else Binary
  }

  // ---- one field of the format -----------------------------------------------------------

  lemma CaseOfChar(codes: Codes, f: Field)
    requires codes.Valid() && f.Valid() && f.IntField?
    ensures codes.Case(codes.Char(f.bytes, f.signed)) == Int(f.bytes, f.signed)
  {
    var a := codes.All();
    assert a[0] == codes.u8 && a[1] == codes.s8 && a[2] == codes.u16 && a[3] == codes.s16 && a[4] == codes.u32
      && a[5] == codes.s32 && a[6] == codes.u64 && a[7] == codes.s64;
  }

  lemma CaseOfBin(codes: Codes)
    requires codes.Valid()
    ensures codes.Case(codes.bin) == Binary
  {
    var a := codes.All();
    assert a[0] == codes.u8 && a[1] == codes.s8 && a[2] == codes.u16 && a[3] == codes.s16 && a[4] == codes.u32
      && a[5] == codes.s32 && a[6] == codes.u64 && a[7] == codes.s64 && a[8] == codes.buf && a[9] == codes.bin;
  }

  lemma AtoiOfDigits(n: nat, rest: string)
    ensures Atoi(Digits(n, 10) + ("." + rest)) == n
    ensures AfterDot(Digits(n, 10) + ("." + rest)) == rest
  {
    hide Digits, Value;
    var d := Digits(n, 10);
    var s := d + ("." + rest);
    assert IsDigit(d[0], 10) && s[0] == d[0] && s[|d|] == '.';
    assert SpaceRun(s) == 0;
    assert s[0..] == s;
    DigitRunIs(d, "." + rest, 10);
    assert s[..|d|] == d;
    ValueOfDigits(n, 10);
    assert forall i :: 0 <= i < |d| ==> s[i] == d[i] && IsDigit(d[i], 10);
    assert forall i :: 0 <= i < |d| ==> s[..|d|][i] != '.';
    IndexOfUnique(s, '.', |d|);
    assert s[|d| + 1..] == rest;
  }

  /** Each loop, at the start of a field, sees its code, its length if it has one, and the next field. */
  lemma FieldParsed(codes: Codes, f: Field, more: string)
    requires codes.Valid() && f.Valid()
    ensures
      var fmt := FieldText(codes, f) + more;
      && fmt != "" && codes.Case(fmt[0]) == CodeOf(f)
      && AfterField(CodeOf(f), fmt[1..]) == more
      && (f.BinField? ==> Atoi(fmt[1..]) == f.length)
  {
    hide Digits, Atoi, AfterDot, DigitRun;
    var fmt := FieldText(codes, f) + more;
    if f.IntField? {
      CaseOfChar(codes, f);
      assert fmt[1..] == more;
    } else {
      CaseOfBin(codes);
      assert fmt[1..] == Digits(f.length, 10) + ("." + more);
      AtoiOfDigits(f.length, more);
    }
  }

  lemma FormatSplit(codes: Codes, fields: seq<Field>)
    requires fields != []
    ensures Format(codes, fields) == FieldText(codes, fields[0]) + Format(codes, fields[1..])
    ensures ValidFields(fields) ==> fields[0].Valid() && ValidFields(fields[1..])
  {
  }

  // ---- the three loops agree -------------------------------------------------------------

  function NameOf(f: Field): TypeName {
    if f.IntField? then Name(IntName(f.bytes, f.signed)) else BinaryOf(f.length)
  }

  function Names(fields: seq<Field>): (r: seq<TypeName>)
    ensures |r| == |fields|
  {
    if fields == [] then [] else [NameOf(fields[0])] + Names(fields[1..])
  }

  /** The first loop names each field. */
  lemma {:induction false} TypesOfFormat(codes: Codes, fields: seq<Field>)
    requires codes.Valid() && ValidFields(fields)
    ensures Types(codes, Format(codes, fields)) == Some(Names(fields))
  {
    hide FieldText, Codes.Case, AfterField, Atoi, IntName, ValidFields;
    if fields != [] {
      var rest := Format(codes, fields[1..]);
      FormatSplit(codes, fields);
      FieldParsed(codes, fields[0], rest);
      TypesOfFormat(codes, fields[1..]);
    }
  }

  /** The integers a list of fields takes from a buffer, in bytes. */
  function Width(fields: seq<Field>): nat {
    if fields == [] then 0 else (if fields[0].IntField? then fields[0].bytes else 0) + Width(fields[1..])
  }

  /** The values fields stand for in a buffer that is long enough. */
  function Values(fields: seq<Field>, data: seq<Byte>): (r: seq<Item>)
    requires Width(fields) <= |data|
    ensures |r| == |fields|
  {
    if fields == [] then []
    else if fields[0].BinField? then [BufferName] + Values(fields[1..], data)
    else
      var n := fields[0].bytes;
      [Integer(Loaded(n, fields[0].signed, FromBytes(data[..n])))] + Values(fields[1..], data[n..])
  }

  /** The second loop gives one value a field, and fails exactly when the buffer is too short. */
  lemma {:induction false} ItemsOfFormat(codes: Codes, fields: seq<Field>, data: seq<Byte>)
    requires codes.Valid() && ValidFields(fields)
    ensures
      var r := Items(codes, Format(codes, fields), data);
      if |data| < Width(fields) then r.None? else r == Some((Values(fields, data), data[Width(fields)..]))
  {
    hide FieldText, Codes.Case, AfterField, Atoi, ValidFields, Loaded, FromBytes;
    if fields != [] {
      var f, rest := fields[0], Format(codes, fields[1..]);
      FormatSplit(codes, fields);
      FieldParsed(codes, f, rest);
      if f.BinField? {
        ItemsOfFormat(codes, fields[1..], data);
      } else if |data| >= f.bytes {
        ItemsOfFormat(codes, fields[1..], data[f.bytes..]);
        if |data| >= Width(fields) {
          assert data[f.bytes..][Width(fields[1..])..] == data[Width(fields)..];
        }
      }
    } else {
      assert data[0..] == data;
    }
  }

  /** Every integer field has an integer among the arguments from the `i`th on. */
  ghost predicate Fits(fields: seq<Field>, args: seq<Json>, i: nat) {
    forall k :: 0 <= k < |fields| && fields[k].IntField? ==> Arg(args, i + k).JInt?
  }

  /** What the arguments put into the buffer. */
  function Bytes(fields: seq<Field>, args: seq<Json>, i: nat): seq<Byte>
    requires Fits(fields, args, i)
  {
    if fields == [] then []
    else
      assert Arg(args, i + 0) == Arg(args, i);
      FitsRest(fields, args, i);
      FieldBytes(fields[0], Arg(args, i)) + Bytes(fields[1..], args, i + 1)
  }

  function FieldBytes(f: Field, arg: Json): seq<Byte>
    requires f.IntField? ==> arg.JInt?
  {
    if f.IntField? then ToBytes(Stored(f.bytes, arg.i), f.bytes)
    else if arg.JString? then arg.Text()[..if |arg.Text()| < f.length then |arg.Text()| else f.length]
    else []
  }

  lemma FitsRest(fields: seq<Field>, args: seq<Json>, i: nat)
    requires fields != []
    ensures Fits(fields, args, i) <==> (fields[0].IntField? ==> Arg(args, i).JInt?) && Fits(fields[1..], args, i + 1)
  {
    hide Arg;
    assert i + 0 == i;
    if Fits(fields, args, i) {
      assert fields[0].IntField? ==> Arg(args, i + 0).JInt?;
      forall k | 0 <= k < |fields[1..]| && fields[1..][k].IntField? ensures Arg(args, i + 1 + k).JInt? {
        assert Arg(args, i + (k + 1)).JInt?;
      }
    }
    if (fields[0].IntField? ==> Arg(args, i).JInt?) && Fits(fields[1..], args, i + 1) {
      forall k | 0 <= k < |fields| && fields[k].IntField? ensures Arg(args, i + k).JInt? {
        if k > 0 {
          assert fields[1..][k - 1].IntField?;
          assert Arg(args, i + 1 + (k - 1)).JInt?;
        }
      }
    }
  }

  lemma WrittenOf(f: Field, rest: string, arg: Json)
    requires f.Valid() && (f.BinField? ==> Atoi(rest) == f.length)
    ensures Written(CodeOf(f), rest, arg) ==
            if f.IntField? && !arg.JInt? then None else Some(FieldBytes(f, arg))
  {
    hide Atoi, Stored, ToBytes;
  }

  /** The third loop takes one argument a field, and fails exactly when an integer field has none. */
  lemma {:induction false} FillOfFormat(codes: Codes, fields: seq<Field>, args: seq<Json>, i: nat, data: seq<Byte>)
    requires codes.Valid() && ValidFields(fields)
    ensures
      var r := Fill(codes, Format(codes, fields), args, i, data);
      && !r.aborted
      && (if Fits(fields, args, i)
          then r == Filled(0, false, data + Bytes(fields, args, i), i + |fields|)
          else r.result == -1 && data <= r.data)
  {
    hide FieldText, Codes.Case, AfterField, Atoi, ValidFields, Stored, ToBytes, Fits, Arg, Written, FieldBytes;
    if fields == [] {
      assert Fits(fields, args, i) by { FitsNone(args, i); }
      assert data + [] == data;
    } else {
      var f, rest := fields[0], Format(codes, fields[1..]);
      FormatSplit(codes, fields);
      FieldParsed(codes, f, rest);
      WrittenOf(f, Format(codes, fields)[1..], Arg(args, i));
      FitsRest(fields, args, i);
      if f.IntField? ==> Arg(args, i).JInt? {
        var more := FieldBytes(f, Arg(args, i));
        FillOfFormat(codes, fields[1..], args, i + 1, data + more);
        if Fits(fields, args, i) {
          assert data + more + Bytes(fields[1..], args, i + 1) == data + Bytes(fields, args, i);
        }
      }
    }
  }

  lemma FitsNone(args: seq<Json>, i: nat)
    ensures Fits([], args, i)
  {
  }

  /** All three at once: as many type names, arguments taken and values given as there are fields. */
  lemma LoopsAgree(codes: Codes, fields: seq<Field>, args: seq<Json>, data: seq<Byte>)
    requires codes.Valid() && ValidFields(fields) && Fits(fields, args, 0) && Width(fields) <= |data|
    ensures
      var fmt := Format(codes, fields);
      && Types(codes, fmt).Some? && |Types(codes, fmt).value| == |fields|
      && Items(codes, fmt, data).Some? && |Items(codes, fmt, data).value.0| == |fields|
      && Fill(codes, fmt, args, 0, []).used == |fields|
  {
    hide Format, Types, Items, Fill, Fits;
    TypesOfFormat(codes, fields);
    ItemsOfFormat(codes, fields, data);
    FillOfFormat(codes, fields, args, 0, []);
  }

  // ---- round trip ------------------------------------------------------------------------

  lemma {:induction false} FromToBytes(v: nat, bytes: nat)
    requires v < Size(bytes)
    ensures FromBytes(ToBytes(v, bytes)) == v
  {
    if bytes > 0 {
      assert v / 256 < Size(bytes - 1);
      FromToBytes(v / 256, bytes - 1);
      assert ToBytes(v, bytes)[1..] == ToBytes(v / 256, bytes - 1);
    }
  }

  /** The C conversions: modulo 2^8, 2^16 or 2^32, or to the signed integer of the width congruent to it. */
  function Wrapped(bytes: nat, signed: bool, v: int): int {
    var size := Size(bytes);
    if signed || bytes == 8 then (v + size / 2) % size - size / 2 else v % size
  }

  /** The values a field represents exactly, among 64-bit integers. */
  predicate InRange(bytes: nat, signed: bool, v: int) {
    var size := Size(bytes);
    if signed || bytes == 8 then -(size / 2) <= v < size / 2 else 0 <= v < size
  }

  lemma Sizes()
    ensures Size(1) == 0x100 && Size(2) == 0x1_0000 && Size(4) == 0x1_0000_0000 && Size(8) == 0x1_0000_0000_0000_0000
  {
    assert Size(0) == 1 && Size(3) == 256 * Size(2) && Size(5) == 256 * Size(4) && Size(6) == 256 * Size(5)
      && Size(7) == 256 * Size(6);
  }

  /** Storing and loading wraps; it is the identity exactly in range, and always for 64 bits. */
  lemma LoadedStored(f: Field, v: int)
    requires f.Valid() && f.IntField? && IsInt64(v)
    ensures Loaded(f.bytes, f.signed, Stored(f.bytes, v)) == Wrapped(f.bytes, f.signed, v)
    ensures Wrapped(f.bytes, f.signed, v) == v <==> InRange(f.bytes, f.signed, v)
    ensures f.bytes == 8 ==> InRange(f.bytes, f.signed, v)
  {
    Sizes();
    hide Size;
    if f.bytes == 1 {
      WrapsBack(0x100, v);
    } else if f.bytes == 2 {
      WrapsBack(0x1_0000, v);
    } else if f.bytes == 4 {
      WrapsBack(0x1_0000_0000, v);
    } else {
      WrapsBack(0x1_0000_0000_0000_0000, v);
    }
  }

  lemma WrapsBack(size: nat, v: int)
    requires size > 0 && size % 2 == 0
    ensures (v + size / 2) % size - size / 2 == if v % size >= size / 2 then v % size - size else v % size
    ensures v % size == v <==> 0 <= v < size
    ensures (v + size / 2) % size - size / 2 == v <==> -(size / 2) <= v < size / 2
  {
    var h, r, q := size / 2, v % size, v / size;
    assert v == size * q + r;
    if r >= h {
      ModUnique(v + h, size, q + 1, r - h);
    } else {
      ModUnique(v + h, size, q, r + h);
    }
    if 0 <= v < size {
      ModUnique(v, size, 0, v);
    }
    if -h <= v < h {
      ModUnique(v + h, size, 0, v + h);
    }
  }

  lemma ModUnique(x: int, size: nat, q: int, r: nat)
    requires size > 0 && x == size * q + r && r < size
    ensures x % size == r
  {
    var q', r' := x / size, x % size;
    assert size * q + r == size * q' + r';
    TimesSign(size, q - q');
    Distribute(size, q, q');
  }

  lemma Distribute(a: int, b: int, c: int)
    ensures a * (b - c) == a * b - a * c
  {
  }

  lemma TimesSign(size: int, k: int)
    requires size >= 0
    ensures k >= 1 ==> size * k >= size
    ensures k <= -1 ==> size * k <= -size
    ensures k == 0 ==> size * k == 0
  {
    if k >= 1 {
      assert size * k == size + size * (k - 1);
    } else if k <= -1 {
      assert size * k == -size + size * (k + 1);
    }
  }

  /** What comes back for each argument. */
  function Echo(fields: seq<Field>, args: seq<Json>, i: nat): seq<Item>
    requires Fits(fields, args, i)
  {
    if fields == [] then []
    else
      assert Arg(args, i + 0) == Arg(args, i);
      FitsRest(fields, args, i);
      var f := fields[0];
      (if f.IntField? then [Integer(Wrapped(f.bytes, f.signed, Arg(args, i).i))] else [BufferName])
      + Echo(fields[1..], args, i + 1)
  }

  /** The text of a string reaches the buffer, if only its first quote. */
  predicate PutsText(f: Field, arg: Json) {
    f.BinField? && arg.JString?
  }

  /** No binary field is given a string. */
  ghost predicate NoText(fields: seq<Field>, args: seq<Json>, i: nat) {
    forall k :: 0 <= k < |fields| ==> !PutsText(fields[k], Arg(args, i + k))
  }

  ghost predicate Int64s(args: seq<Json>) {
    forall k :: 0 <= k < |args| && args[k].JInt? ==> IsInt64(args[k].i)
  }

  lemma NoTextRest(fields: seq<Field>, args: seq<Json>, i: nat)
    requires fields != []
    ensures NoText(fields, args, i) <==> !PutsText(fields[0], Arg(args, i)) && NoText(fields[1..], args, i + 1)
  {
    hide Arg, PutsText;
    assert i + 0 == i;
    if NoText(fields, args, i) {
      assert !PutsText(fields[0], Arg(args, i + 0));
      forall k | 0 <= k < |fields[1..]| ensures !PutsText(fields[1..][k], Arg(args, i + 1 + k)) {
        assert !PutsText(fields[k + 1], Arg(args, i + (k + 1)));
      }
    }
    if !PutsText(fields[0], Arg(args, i)) && NoText(fields[1..], args, i + 1) {
      forall k | 0 <= k < |fields| ensures !PutsText(fields[k], Arg(args, i + k)) {
        if k > 0 {
          assert !PutsText(fields[1..][k - 1], Arg(args, i + 1 + (k - 1)));
        }
      }
    }
  }

  /** Every byte beyond the widths of the integers is of a string. */
  lemma {:induction false} BytesLength(fields: seq<Field>, args: seq<Json>, i: nat)
    requires ValidFields(fields) && Fits(fields, args, i)
    ensures |Bytes(fields, args, i)| >= Width(fields)
    ensures |Bytes(fields, args, i)| == Width(fields) <==> NoText(fields, args, i)
  {
    hide Fits, NoText, ValidFields, Stored, ToBytes;
    if fields == [] {
      NoFieldsNoText(args, i);
    } else {
      FitsRest(fields, args, i);
      NoTextRest(fields, args, i);
      FormatSplitFields(fields);
      BytesLength(fields[1..], args, i + 1);
    }
  }

  lemma NoFieldsNoText(args: seq<Json>, i: nat)
    ensures NoText([], args, i)
  {
  }

  /** One integer put and taken. */
  lemma IntegerEcho(f: Field, v: int)
    requires f.Valid() && f.IntField? && IsInt64(v)
    ensures Loaded(f.bytes, f.signed, FromBytes(FieldBytes(f, JInt(v)))) == Wrapped(f.bytes, f.signed, v)
    ensures |FieldBytes(f, JInt(v))| == f.bytes
  {
    hide Loaded, Stored, Wrapped, InRange, FromBytes, ToBytes;
    FromToBytes(Stored(f.bytes, v), f.bytes);
    LoadedStored(f, v);
  }

  lemma {:induction false} ValuesOfBytes(fields: seq<Field>, args: seq<Json>, i: nat, tail: seq<Byte>)
    requires ValidFields(fields) && Fits(fields, args, i) && NoText(fields, args, i) && Int64s(args)
    ensures |Bytes(fields, args, i)| == Width(fields)
    ensures Values(fields, Bytes(fields, args, i) + tail) == Echo(fields, args, i)
  {
    hide Loaded, Wrapped, FromBytes, FieldBytes, Fits, NoText, ValidFields;
    if fields != [] {
      var f, rest, arg := fields[0], fields[1..], Arg(args, i);
      FitsRest(fields, args, i);
      NoTextRest(fields, args, i);
      FormatSplitFields(fields);
      ValuesOfBytes(rest, args, i + 1, tail);
      var first, more := FieldBytes(f, arg), Bytes(rest, args, i + 1);
      assert Bytes(fields, args, i) == first + more;
      var data := first + more + tail;
      assert data == first + (more + tail);
      if f.IntField? {
        assert IsInt64(arg.i) && arg == JInt(arg.i);
        IntegerEcho(f, arg.i);
        assert data[..f.bytes] == first && data[f.bytes..] == more + tail;
      } else {
        NoBytes(f, arg);
        assert data == more + tail;
      }
    }
  }

  lemma NoBytes(f: Field, arg: Json)
    requires f.BinField? && !PutsText(f, arg)
    ensures FieldBytes(f, arg) == []
  {
  }

  lemma FormatSplitFields(fields: seq<Field>)
    requires fields != [] && ValidFields(fields)
    ensures fields[0].Valid() && ValidFields(fields[1..])
  {
  }

  /**
    * Filling a buffer from arguments and reading it back. Filling succeeds; reading yields each integer
    * wrapped to its type and leaves nothing over exactly when no binary field is given a string,
    * and then what was written is the sum of the widths.
    */
  lemma RoundTrip(codes: Codes, fields: seq<Field>, args: seq<Json>)
    requires codes.Valid() && ValidFields(fields) && Fits(fields, args, 0) && Int64s(args)
    ensures
      var fmt := Format(codes, fields);
      var filled := Fill(codes, fmt, args, 0, []);
      && filled.result == 0 && !filled.aborted
      && (Items(codes, fmt, filled.data) == Some((Echo(fields, args, 0), [])) <==> NoText(fields, args, 0))
      && (|filled.data| == Width(fields) <==> NoText(fields, args, 0))
  {
    hide Format, Fill, Items, Fits, NoText, Int64s, Values, Echo, Bytes;
    FillOfFormat(codes, fields, args, 0, []);
    BytesLength(fields, args, 0);
    var data := Bytes(fields, args, 0);
    assert [] + data == data && data + [] == data;
    ItemsOfFormat(codes, fields, data);
    if NoText(fields, args, 0) {
      ValuesOfBytes(fields, args, 0, []);
      assert data[Width(fields)..] == [];
    }
  }

  /** One buffer is filled from arguments, rewound, and read back: the same, by the loops of the source. */
  method FillAndReadBack(codes: Codes, ghost fields: seq<Field>, fmt: string, args: seq<Json>)
    returns (filled: int, read: Option<seq<Item>>, leftOver: nat)
    requires codes.Valid() && ValidFields(fields) && fmt == Format(codes, fields)
    requires Fits(fields, args, 0) && Int64s(args)
    ensures filled == 0
    ensures read == Some(Echo(fields, args, 0)) && leftOver == 0 <==> NoText(fields, args, 0)
  {
    hide Format, Fill, Items, Fits, NoText, Int64s, Echo, Codes.Valid;
    RoundTrip(codes, fields, args);
    var buf := new AuraBuffer();
    var aborted;
    filled, aborted := BufferFromJson(codes, buf, JArray(args), fmt);
    buf.Rewind();
    assert buf.Unread() == buf.data;
    read := BufferToJson(codes, fmt, buf);
    leftOver := |buf.data| - buf.pos;
    assert leftOver == 0 <==> buf.Unread() == [];
  }

  /** An integer comes back unchanged exactly when it is in the range of its field. */
  lemma {:induction false} EchoIdentity(fields: seq<Field>, args: seq<Json>, i: nat, k: nat)
    requires ValidFields(fields) && Fits(fields, args, i) && Int64s(args)
    requires k < |fields| && fields[k].IntField?
    ensures |Echo(fields, args, i)| == |fields| && Arg(args, i + k).JInt?
    ensures Echo(fields, args, i)[k] == Integer(Arg(args, i + k).i) <==>
            InRange(fields[k].bytes, fields[k].signed, Arg(args, i + k).i)
  {
    hide Wrapped, InRange, Fits;
    FitsRest(fields, args, i);
    if k == 0 {
      assert i + 0 == i;
      LoadedStored(fields[0], Arg(args, i).i);
      EchoLength(fields[1..], args, i + 1);
    } else {
      EchoIdentity(fields[1..], args, i + 1, k - 1);
      assert i + 1 + (k - 1) == i + k;
    }
  }

  lemma {:induction false} EchoLength(fields: seq<Field>, args: seq<Json>, i: nat)
    requires Fits(fields, args, i)
    ensures |Echo(fields, args, i)| == |fields|
  {
    hide Fits;
    if fields != [] {
      FitsRest(fields, args, i);
      EchoLength(fields[1..], args, i + 1);
    }
  }

  /** Even an empty string for a binary field breaks the round trip: its quotes are put but never taken. */
  lemma StringShiftsFields(codes: Codes)
    requires codes.Valid()
    ensures
      var fields := [BinField(2), IntField(1, false)];
      var args := [JString([]), JInt(5)];
      var filled := Fill(codes, Format(codes, fields), args, 0, []);
      && filled.result == 0
      && Items(codes, Format(codes, fields), filled.data) == Some(([BufferName, Integer(34)], [34, 5]))
  {
    hide Codes.Valid, Format, Fill, Items, Atoi;
    var fields := [BinField(2), IntField(1, false)];
    var args := [JString([]), JInt(5)];
    assert ValidFields(fields);
    assert Fits(fields, args, 0);
    FillOfFormat(codes, fields, args, 0, []);
    Sizes();
    assert fields[1..] == [IntField(1, false)] && fields[1..][1..] == [];
    assert ToBytes(5, 1) == [5] + ToBytes(0, 0);
    assert Bytes(fields, args, 0) == [34, 34] + ([5] + []);
    assert Width(fields) == 1;
    var data: seq<Byte> := [34, 34, 5];
    assert [] + Bytes(fields, args, 0) == data;
    ItemsOfFormat(codes, fields, data);
    assert data[..1] == [34] && data[1..] == [34, 5];
    assert FromBytes([34]) == 34 + 256 * FromBytes([]);
    assert Values(fields[1..], data) == [Integer(Loaded(1, false, 34))] + Values([], [34, 5]);
    assert Values(fields, data) == [BufferName] + Values(fields[1..], data) == [BufferName, Integer(34)];
  }

  // ---- the codes one by one --------------------------------------------------------------

  /**
    * What a code means: the name it is listed by, how many bytes it puts, and the 64-bit integers from
    * `low` up to below `high` that come back from it unchanged.
    */
  ghost predicate Means(codes: Codes, code: char, name: string, bytes: nat, low: int, high: int) {
    && Types(codes, [code]) == Some([Name(name)])
    && forall v :: IsInt64(v) ==>
         var filled := Fill(codes, [code], [JInt(v)], 0, []);
         && filled.result == 0 && |filled.data| == bytes
         && (Items(codes, [code], filled.data) == Some(([Integer(v)], [])) <==> low <= v < high)
  }

  /** The ranges of the unsigned 64-bit code are those of a signed one, because JSON integers are. */
  lemma CodesMean(codes: Codes)
    requires codes.Valid()
    ensures Means(codes, codes.u8, "uint8_t", 1, 0, 0x100)
    ensures Means(codes, codes.s8, "int8_t", 1, -0x80, 0x80)
    ensures Means(codes, codes.u16, "uint16_t", 2, 0, 0x1_0000)
    ensures Means(codes, codes.s16, "int16_t", 2, -0x8000, 0x8000)
    ensures Means(codes, codes.u32, "uint32_t", 4, 0, 0x1_0000_0000)
    ensures Means(codes, codes.s32, "int32_t", 4, -0x8000_0000, 0x8000_0000)
    ensures Means(codes, codes.u64, "uint64_t", 8, -0x8000_0000_0000_0000, 0x8000_0000_0000_0000)
    ensures Means(codes, codes.s64, "int64_t", 8, -0x8000_0000_0000_0000, 0x8000_0000_0000_0000)
  {
    hide Means, Codes.Valid;
    Sizes();
    CodeMeans(codes, codes.u8, 1, false, "uint8_t", 0, 0x100);
    CodeMeans(codes, codes.s8, 1, true, "int8_t", -0x80, 0x80);
    CodeMeans(codes, codes.u16, 2, false, "uint16_t", 0, 0x1_0000);
    CodeMeans(codes, codes.s16, 2, true, "int16_t", -0x8000, 0x8000);
    CodeMeans(codes, codes.u32, 4, false, "uint32_t", 0, 0x1_0000_0000);
    CodeMeans(codes, codes.s32, 4, true, "int32_t", -0x8000_0000, 0x8000_0000);
    CodeMeans(codes, codes.u64, 8, false, "uint64_t", -0x8000_0000_0000_0000, 0x8000_0000_0000_0000);
    CodeMeans(codes, codes.s64, 8, true, "int64_t", -0x8000_0000_0000_0000, 0x8000_0000_0000_0000);
  }

  lemma CodeMeans(codes: Codes, code: char, bytes: nat, signed: bool, name: string, low: int, high: int)
    requires codes.Valid() && (bytes == 1 || bytes == 2 || bytes == 4 || bytes == 8)
    requires code == codes.Char(bytes, signed) && name == IntName(bytes, signed)
    requires forall v :: InRange(bytes, signed, v) <==> low <= v < high
    ensures Means(codes, code, name, bytes, low, high)
  {
    hide Types, Fill, Items, InRange, Codes.Valid, Codes.Char, IntName;
    var f := IntField(bytes, signed);
    assert Format(codes, [f]) == [code] by { FormatOfOne(codes, f); }
    assert ValidFields([f]);
    TypesOfFormat(codes, [f]);
    assert Names([f]) == [Name(name)] by { NamesOfOne(f); }
    forall v | IsInt64(v)
      ensures
        var filled := Fill(codes, [code], [JInt(v)], 0, []);
        && filled.result == 0 && |filled.data| == bytes
        && (Items(codes, [code], filled.data) == Some(([Integer(v)], [])) <==> low <= v < high)
    {
      OneEcho(codes, f, v);
    }
  }

  lemma FormatOfOne(codes: Codes, f: Field)
    requires f.IntField?
    ensures Format(codes, [f]) == [codes.Char(f.bytes, f.signed)]
  {
    assert [f][1..] == [];
  }

  lemma NamesOfOne(f: Field)
    ensures Names([f]) == [NameOf(f)]
  {
    assert [f][1..] == [];
  }

  lemma OneEcho(codes: Codes, f: Field, v: int)
    requires codes.Valid() && f.Valid() && f.IntField? && IsInt64(v)
    ensures
      var fmt := Format(codes, [f]);
      var filled := Fill(codes, fmt, [JInt(v)], 0, []);
      && filled.result == 0 && |filled.data| == f.bytes
      && (Items(codes, fmt, filled.data) == Some(([Integer(v)], [])) <==> InRange(f.bytes, f.signed, v))
  {
    hide Format, Fill, Items, Codes.Valid, InRange;
    var args := [JInt(v)];
    assert Arg(args, 0 + 0) == JInt(v);
    assert Fits([f], args, 0) && NoText([f], args, 0) && ValidFields([f]) && Int64s(args);
    RoundTrip(codes, [f], args);
    EchoIdentity([f], args, 0, 0);
    assert Width([f]) == f.bytes by { assert [f][1..] == []; }
    var echo := Echo([f], args, 0);
    assert Arg(args, 0 + 0).i == v;
    assert echo == [echo[0]];
  }

  lemma CaseOfOthers(codes: Codes, unknown: char)
    requires codes.Valid() && unknown !in codes.All()
    ensures codes.Case(codes.buf) == Buffer && codes.Case(unknown) == Unknown
  {
    CaseOfBuffer(codes);
    CaseOfUnknown(codes, unknown);
  }

  lemma CaseOfBuffer(codes: Codes)
    requires codes.Valid()
    ensures codes.Case(codes.buf) == Buffer
  {
    var all := codes.All();
    assert all[0] != all[8] && all[1] != all[8] && all[2] != all[8] && all[3] != all[8];
    assert all[4] != all[8] && all[5] != all[8] && all[6] != all[8] && all[7] != all[8];
  }

  lemma CaseOfUnknown(codes: Codes, unknown: char)
    requires unknown !in codes.All()
    ensures codes.Case(unknown) == Unknown
  {
    var all := codes.All();
    assert all[0] in all && all[1] in all && all[2] in all && all[3] in all && all[4] in all;
    assert all[5] in all && all[6] in all && all[7] in all && all[8] in all && all[9] in all;
  }

  /** The codes that are no integers: a handle is listed and read as a word and cannot be given; others are errors. */
  lemma OtherCodes(codes: Codes, rest: string, args: seq<Json>, data: seq<Byte>, unknown: char)
    requires codes.Valid() && unknown !in codes.All()
    ensures Types(codes, [codes.buf]) == Some([Name("buffer")]) && Types(codes, [unknown] + rest) == None
    ensures Items(codes, [codes.buf], data) == Some(([BufferName], data))
    ensures Items(codes, [unknown] + rest, data) == None
    ensures Fill(codes, [codes.buf] + rest, args, 0, data).aborted
    ensures Fill(codes, [unknown] + rest, args, 0, data) == Fill(codes, rest, args, 0, data)
  {
    hide Atoi, Codes.Case, Codes.Valid, Codes.All;
    CaseOfOthers(codes, unknown);
    assert ([unknown] + rest)[1..] == rest && ([codes.buf] + rest)[1..] == rest && [codes.buf][1..] == "";
    assert data + [] == data;
    var name, none: seq<TypeName> := Name("buffer"), [];
    assert [name] + none == [name];
    var items: seq<Item> := [];
    assert [BufferName] + items == [BufferName];
    var fmt, handle := [unknown] + rest, [codes.buf] + rest;
    assert fmt != "" && fmt[0] == unknown && handle != "" && handle[0] == codes.buf;
  }

  /** A binary field is listed with its length; one of length zero, or without a length, cannot be listed. */
  lemma BinaryListed(codes: Codes, length: nat, rest: string)
    requires codes.Valid()
    ensures
      var names := Types(codes, [codes.bin] + Digits(length, 10) + "." + rest);
      var more := Types(codes, rest);
      names == if length == 0 || more.None? then None else Some([BinaryOf(length)] + more.value)
    ensures Types(codes, [codes.bin] + "." + rest) == None
  {
    hide Atoi, AfterDot, Codes.Case, Digits;
    var fmt, bare := [codes.bin] + Digits(length, 10) + "." + rest, [codes.bin] + "." + rest;
    CaseOfBin(codes);
    AtoiOfDigits(length, rest);
    assert fmt[0] == codes.bin && fmt[1..] == Digits(length, 10) + ("." + rest);
    assert bare[0] == codes.bin && bare[1..] == "." + rest;
    AtoiOfNothing(rest);
  }

  lemma AtoiOfNothing(rest: string)
    ensures Atoi("." + rest) == 0
  {
    var s := "." + rest;
    assert s[0] == '.' && SpaceRun(s) == 0 && s[0..] == s && DigitRun(s, 10) == 0;
    assert s[..0] == "";
  }

  /** atoi steps over spaces and one sign. */
  lemma AtoiSigned(spaces: string, sign: string, d: string, rest: string)
    requires forall i :: 0 <= i < |spaces| ==> IsSpace(spaces[i])
    requires (sign == "" || sign == "+" || sign == "-") && d != "" && AllDigits(d, 10)
    requires rest == "" || !IsDigit(rest[0], 10)
    ensures Atoi(spaces + (sign + (d + rest))) == if sign == "-" then 0 - Value(d, 10) else Value(d, 10)
  {
    hide DigitRun, Value, SpaceRun, Atoi, AllDigits;
    var more := d + rest;
    var signed := sign + more;
    var s, w := spaces + signed, |spaces|;
    assert IsDigit(d[0], 10) by { FirstDigit(d); }
    SpacesRun(spaces, signed);
    assert s[w] == signed[0];
    assert s[w + |sign|..] == more;
    DigitRunIs(d, rest, 10);
    assert more[..|d|] == d;
    AtoiBy(s, w, sign, d);
  }

  lemma FirstDigit(d: string)
    requires d != "" && AllDigits(d, 10)
    ensures IsDigit(d[0], 10)
  {
  }

  lemma AtoiBy(s: string, w: nat, sign: string, d: string)
    requires SpaceRun(s) == w < |s| && w + |sign| <= |s| && (sign == "" || sign == "+" || sign == "-")
    requires if sign == "" then s[w] != '+' && s[w] != '-' else s[w] == sign[0]
    requires var more := s[w + |sign|..]; DigitRun(more, 10) == |d| && more[..|d|] == d
    ensures Atoi(s) == if sign == "-" then 0 - Value(d, 10) else Value(d, 10)
  {
    hide DigitRun, Value, SpaceRun;
  }

  /** The next field starts behind the first full stop; without one, there is no next field. */
  lemma AfterDotIs(before: string, after: string)
    requires '.' !in before
    ensures AfterDot(before + "." + after) == after && AfterDot(before) == ""
  {
    var s := before + "." + after;
    assert s[..|before|] == before && s[|before|] == '.';
    IndexOfUnique(s, '.', |before|);
    assert s[|before| + 1..] == after;
  }
}
