/**
  * Call arguments and results between JSON and the node's byte buffers, driven by a format string with
  * one code a field. Three separate loops walk the string: one names the types, one reads a buffer, one
  * fills it. A null format walks like the empty one.
  */
module Serdes {
  import opened Text
  import opened Wrappers

  type Byte = b: int | 0 <= b < 256

  /** The code characters, which libaura chooses; a C switch accepts them only if they differ. */
  datatype Codes = Codes(u8: char, s8: char, u16: char, s16: char, u32: char, s32: char, u64: char, s64: char,
                         buf: char, bin: char)
  {
    function All(): seq<char> {
      [u8, s8, u16, s16, u32, s32, u64, s64, buf, bin]
    }

    ghost predicate Valid() {
      && (forall i :: 0 <= i < 10 ==> All()[i] != NUL)
      && (forall i, j :: 0 <= i < j < 10 ==> All()[i] != All()[j])
    }

    /** The case of the switch a character selects. */
    function Case(c: char): Code {
      if c == u8 then Int(1, false) else if c == s8 then Int(1, true)
      else if c == u16 then Int(2, false) else if c == s16 then Int(2, true)
      else if c == u32 then Int(4, false) else if c == s32 then Int(4, true)
      else if c == u64 then Int(8, false) else if c == s64 then Int(8, true)
      else if c == buf then Buffer else if c == bin then Binary else Unknown
    }

    /** The character of an integer code. */
    function Char(bytes: nat, signed: bool): char {
      if bytes == 1 then if signed then s8 else u8
      else if bytes == 2 then if signed then s16 else u16
      else if bytes == 4 then if signed then s32 else u32
      else if signed then s64 else u64
    }
  }

  datatype Code = Int(bytes: nat, signed: bool) | Buffer | Binary | Unknown

  /** A JSON value as far as the loops look at it; a string with its bytes as JSON escapes them. */
  datatype Json = JInt(i: int) | JString(escaped: seq<Byte>) | JArray(items: seq<Json>) | JOther {
    /** json_object_to_json_string of a string: in quotes. */
    function Text(): seq<Byte>
      requires JString?
    {
      [34] + escaped + [34]
    }
  }

  /** json_type_int holds a 64-bit integer. */
  predicate IsInt64(i: int) {
    -0x8000_0000_0000_0000 <= i < 0x8000_0000_0000_0000
  }

  // ---- integers as bytes -----------------------------------------------------------------

  function Size(bytes: nat): (n: nat)
    ensures n >= 1
  {
    if bytes == 0 then 1 else 256 * Size(bytes - 1)
  }

  /** aura_buffer_put: the low bytes of a value, least significant first. */
  function ToBytes(v: nat, bytes: nat): (s: seq<Byte>)
    ensures |s| == bytes
  {
    if bytes == 0 then [] else [v % 256] + ToBytes(v / 256, bytes - 1)
  }

  /** aura_buffer_get */
  function FromBytes(s: seq<Byte>): nat {
    if s == [] then 0 else s[0] + 256 * FromBytes(s[1..])
  }

  /** Assigning a 64-bit integer to a field of the union: the value modulo its size. */
  function Stored(bytes: nat, v: int): (n: nat)
    ensures n < Size(bytes)
  {
    v % Size(bytes)
  }

  /** Reading it back into a 64-bit integer, by sign extension, zero extension or reinterpretation. */
  function Loaded(bytes: nat, signed: bool, raw: nat): int {
    if (signed || bytes == 8) && raw >= Size(bytes) / 2 then raw - Size(bytes) else raw
  }

  // ---- format strings --------------------------------------------------------------------

  /** atoi on a string without overflow. */
  function Atoi(s: string): int {
    var w := SpaceRun(s);
    var p := if w < |s| && (s[w] == '+' || s[w] == '-') then w + 1 else w;
    var v: int := Value(s[p..][..DigitRun(s[p..], 10)], 10);
    if w < |s| && s[w] == '-' then -v else v
  }

  /** Skips past the next full stop, or to the end. */
  function AfterDot(s: string): (r: string)
    ensures |r| <= |s|
  {
    var i := IndexOf(s, '.');
    if i < |s| then s[i + 1..] else ""
  }

  function AfterField(code: Code, rest: string): (r: string)
    ensures |r| <= |rest|
  {
    if code.Binary? then AfterDot(rest) else rest
  }

  // ---- naming the types ------------------------------------------------------------------

  datatype TypeName = Name(text: string) | BinaryOf(length: int)

  function IntName(bytes: nat, signed: bool): string {
    (if signed then "int" else "uint") +
    (if bytes == 1 then "8_t" else if bytes == 2 then "16_t" else if bytes == 4 then "32_t" else "64_t")
  }

  /** The entry for one field; None is BUG(). */
  function TypeOf(code: Code, rest: string): Option<TypeName> {
    match code
    case Int(bytes, signed) => Some(Name(IntName(bytes, signed)))
    case Buffer => Some(Name("buffer"))
    case Binary => if Atoi(rest) == 0 then None else Some(BinaryOf(Atoi(rest)))
    case Unknown => None
  }

  function Types(codes: Codes, fmt: string): Option<seq<TypeName>>
    decreases |fmt|
  {
    if fmt == "" then Some([])
    else
      var code, rest := codes.Case(fmt[0]), fmt[1..];
      var name := TypeOf(code, rest);
      if name.None? then None else Onto([name.value], Types(codes, AfterField(code, rest)))
  }

  /** What was listed so far, in front of what is still to come. */
  function Onto<T>(list: seq<T>, more: Option<seq<T>>): Option<seq<T>> {
    if more.None? then None else Some(list + more.value)
  }

  lemma OntoOne<T>(list: seq<T>, x: T, more: Option<seq<T>>)
    ensures Onto(list, Onto([x], more)) == Onto(list + [x], more)
    ensures Onto([], more) == more && Onto(list, Some([])) == Some(list)
  {
    if more.Some? {
      assert list + ([x] + more.value) == list + [x] + more.value;
      assert [] + more.value == more.value;
    }
    assert list + [] == list;
  }

  /** ahttpd_format_to_json */
  method FormatToJson(codes: Codes, fmt: string) returns (r: Option<seq<TypeName>>)
    ensures r == Types(codes, fmt)
  {
    hide TypeOf, AfterField, Onto;
    var rest, list := fmt, [];
    OntoOne(list, Name(""), Types(codes, fmt));
    while rest != ""
      invariant Types(codes, fmt) == Onto(list, Types(codes, rest))
      decreases |rest|
    {
      var code := codes.Case(rest[0]);
      rest := rest[1..];
      var name := TypeOf(code, rest);
      if name.None? {
        assert Onto(list, None) == None by { OntoNone(list); }
        return None;
      }
      OntoOne(list, name.value, Types(codes, AfterField(code, rest)));
      rest := AfterField(code, rest);
      list := list + [name.value];
    }
    OntoOne(list, Name(""), Some([]));
    r := Some(list);
  }

  lemma OntoNone<T>(list: seq<T>)
    ensures Onto(list, None) == None
  {
  }

  // ---- reading a buffer ------------------------------------------------------------------

  datatype Item = Integer(i: int) | BufferName

  /** One value from the unread bytes, and the bytes left; None is BUG(). */
  function ReadItem(code: Code, data: seq<Byte>): Option<(Item, seq<Byte>)> {
    match code
    case Int(bytes, signed) =>
      if |data| < bytes then None
      else Some((Integer(Loaded(bytes, signed, FromBytes(data[..bytes]))), data[bytes..]))
    case Buffer => Some((BufferName, data))
    case Binary => Some((BufferName, data))
    case Unknown => None
  }

  function Items(codes: Codes, fmt: string, data: seq<Byte>): Option<(seq<Item>, seq<Byte>)>
    decreases |fmt|
  {
    if fmt == "" then Some(([], data))
    else
      var code, rest := codes.Case(fmt[0]), fmt[1..];
      var item := ReadItem(code, data);
      if item.None? then None
      else
        var more := Items(codes, AfterField(code, rest), item.value.1);
        if more.None? then None else Some(([item.value.0] + more.value.0, more.value.1))
  }

  /** A buffer of the node: bytes and a cursor. */
  class AuraBuffer {
    var data: seq<Byte>
    var pos: nat

    ghost predicate Valid()
      reads this
    {
      pos <= |data|
    }

    ghost function Unread(): seq<Byte>
      requires Valid()
      reads this
    {
      data[pos..]
    }

    constructor ()
      ensures Valid() && data == [] && pos == 0
    {
      data, pos := [], 0;
    }

    method Rewind()
      modifies this`pos
      ensures pos == 0 && Valid()
    {
      pos := 0;
    }

    /** A put at the end of what was put so far. */
    method Put(s: seq<Byte>)
      requires Valid() && pos == |data|
      modifies this
      ensures Valid() && pos == |data| && data == old(data) + s
    {
      data := data + s;
      pos := |data|;
    }

    method Get(n: nat) returns (s: seq<Byte>)
      requires Valid() && pos + n <= |data|
      modifies this`pos
      ensures Valid() && s == old(Unread())[..n] && Unread() == old(Unread())[n..]
    {
      s := data[pos..pos + n];
      pos := pos + n;
    }
  }

  /** ahttpd_buffer_to_json */
  method BufferToJson(codes: Codes, fmt: string, buf: AuraBuffer) returns (r: Option<seq<Item>>)
    requires buf.Valid()
    modifies buf`pos
    ensures buf.Valid()
    ensures
      var goal := Items(codes, fmt, old(buf.Unread()));
      && r.Some? == goal.Some?
      && (r.Some? ==> r.value == goal.value.0 && buf.Unread() == goal.value.1)
  {
    hide AfterField, Loaded, FromBytes, Items, Continued;
    ghost var goal := Items(codes, fmt, buf.Unread());
    var rest, list := fmt, [];
    ContinuedEnds(codes, fmt, buf.Unread(), list);
    while rest != ""
      invariant buf.Valid()
      invariant goal == Continued(codes, list, rest, buf.Unread())
      decreases |rest|
    {
      var code := codes.Case(rest[0]);
      ContinuedStep(codes, list, rest, buf.Unread());
      rest := rest[1..];
      var item;
      match code {
        case Int(bytes, signed) =>
          if |buf.data| - buf.pos < bytes {
            return None;
          }
          var s := buf.Get(bytes);
          item := Integer(Loaded(bytes, signed, FromBytes(s)));
        case Buffer =>
          item := BufferName;
        case Binary =>
          item := BufferName;
        case Unknown =>
          return None;
      }
      rest := AfterField(code, rest);
      list := list + [item];
    }
    ContinuedEnds(codes, fmt, buf.Unread(), list);
    r := Some(list);
  }

  /** The items still to come, after those of `list`. */
  ghost function Continued(codes: Codes, list: seq<Item>, fmt: string, data: seq<Byte>)
    : Option<(seq<Item>, seq<Byte>)>
  {
    var more := Items(codes, fmt, data);
    if more.None? then None else Some((list + more.value.0, more.value.1))
  }

  lemma ContinuedEnds(codes: Codes, fmt: string, data: seq<Byte>, list: seq<Item>)
    ensures Continued(codes, [], fmt, data) == Items(codes, fmt, data)
    ensures Continued(codes, list, "", data) == Some((list, data))
  {
    var more := Items(codes, fmt, data);
    assert more.Some? ==> [] + more.value.0 == more.value.0;
    assert list + [] == list;
  }

  lemma ContinuedStep(codes: Codes, list: seq<Item>, fmt: string, data: seq<Byte>)
    requires fmt != ""
    ensures
      var code := codes.Case(fmt[0]);
      var item := ReadItem(code, data);
      Continued(codes, list, fmt, data) ==
        if item.None? then None
        else Continued(codes, list + [item.value.0], AfterField(code, fmt[1..]), item.value.1)
  {
    hide AfterField, Loaded, FromBytes;
    var code := codes.Case(fmt[0]);
    var item := ReadItem(code, data);
    if item.Some? {
      var more := Items(codes, AfterField(code, fmt[1..]), item.value.1);
      if more.Some? {
        assert list + ([item.value.0] + more.value.0) == list + [item.value.0] + more.value.0;
      }
    }
  }

  // ---- filling a buffer ------------------------------------------------------------------

  /** 0, -1, or BUG(); then the bytes written so far and the number of arguments taken. */
  datatype Filled = Filled(result: int, aborted: bool, data: seq<Byte>, used: nat)

  /** json_object_array_get_idx */
  function Arg(args: seq<Json>, i: nat): Json {
    if i < |args| then args[i] else JOther
  }

  /** The bytes one field adds; None where the loop ends, with -1 or BUG(). */
  function Written(code: Code, rest: string, arg: Json): Option<seq<Byte>> {
    match code
    case Int(bytes, _) => if arg.JInt? then Some(ToBytes(Stored(bytes, arg.i), bytes)) else None
    case Buffer => None
    case Binary =>
      if !arg.JString? then Some([])
      else
        var n := if |arg.Text()| < Atoi(rest) then |arg.Text()| else Atoi(rest);
        if n < 0 then None else Some(arg.Text()[..n])
    case Unknown => Some([])
  }

  function Fill(codes: Codes, fmt: string, args: seq<Json>, i: nat, data: seq<Byte>): Filled
    decreases |fmt|
  {
    if fmt == "" then Filled(0, false, data, i)
    else
      var code, rest := codes.Case(fmt[0]), fmt[1..];
      var next := if code.Int? || code.Binary? then i + 1 else i;
      var more := Written(code, rest, Arg(args, i));
      if more.None? then Filled(-1, !code.Int?, data, next)
      else Fill(codes, AfterField(code, rest), args, next, data + more.value)
  }

  /** ahttpd_buffer_from_json */
  method BufferFromJson(codes: Codes, buf: AuraBuffer, json: Json, fmt: string) returns (result: int, aborted: bool)
    requires buf.Valid() && buf.pos == |buf.data|
    modifies buf
    ensures buf.Valid() && buf.pos == |buf.data|
    ensures !json.JArray? ==> result == -1 && !aborted && buf.data == old(buf.data)
    ensures json.JArray? ==>
              var f := Fill(codes, fmt, json.items, 0, old(buf.data));
              result == f.result && aborted == f.aborted && buf.data == f.data
  {
    hide AfterField, Stored, ToBytes, Atoi;
    if !json.JArray? {
      return -1, false;
    }
    ghost var goal := Fill(codes, fmt, json.items, 0, buf.data);
    var rest, i := fmt, 0;
    while rest != ""
      invariant buf.Valid() && buf.pos == |buf.data|
      invariant Fill(codes, rest, json.items, i, buf.data) == goal
      decreases |rest|
    {
      var code := codes.Case(rest[0]);
      rest := rest[1..];
      match code {
        case Int(bytes, _) =>
          var tmp := Arg(json.items, i);
          i := i + 1;
          if !tmp.JInt? {
            return -1, false;
          }
          buf.Put(ToBytes(Stored(bytes, tmp.i), bytes));
        case Buffer =>
          return -1, true;
        case Binary =>
          var tmp := Arg(json.items, i);
          i := i + 1;
          var len := Atoi(rest);
          if tmp.JString? {
            var tocopy := if |tmp.Text()| < len then |tmp.Text()| else len;
            if tocopy < 0 {
              return -1, true;
            }
            buf.Put(tmp.Text()[..tocopy]);
          } else {
            assert buf.data + [] == buf.data;
          }
        case Unknown =>
          assert buf.data + [] == buf.data;
      }
      rest := AfterField(code, rest);
    }
    return 0, false;
  }
}
