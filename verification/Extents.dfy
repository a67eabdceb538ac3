/**
  * An upload's data lies in memory in several extents. The parser asks libevent for enough of them,
  * growing its array when it is too short, and the upload modules write them out one by one.
  */
module Extents {

  /** The bytes the extents hold together. */
  function Flat(extents: seq<string>): string {
    if extents == [] then "" else extents[0] + Flat(extents[1..])
  }

  lemma {:induction false} FlatAppend(a: seq<string>, b: seq<string>)
    ensures Flat(a + b) == Flat(a) + Flat(b)
  {
    if a == [] {
      assert a + b == b;
    } else {
      assert (a + b)[1..] == a[1..] + b;
      FlatAppend(a[1..], b);
    }
  }

  lemma FlatNext(extents: seq<string>, i: nat)
    requires i < |extents|
    ensures Flat(extents[..i + 1]) == Flat(extents[..i]) + extents[i]
  {
    assert extents[..i + 1] == extents[..i] + [extents[i]];
    FlatAppend(extents[..i], [extents[i]]);
    assert Flat([extents[i]]) == extents[i] + Flat([]);
  }

  lemma FlatPrefix(extents: seq<string>, i: nat)
    requires i <= |extents|
    ensures Flat(extents[..i]) <= Flat(extents)
  {
    assert extents == extents[..i] + extents[i..];
    FlatAppend(extents[..i], extents[i..]);
  }

  /** `n` extents cover the first `length` bytes, or all there is, and no shorter beginning does. */
  ghost predicate Covers(extents: seq<string>, length: nat, n: nat) {
    && n <= |extents|
    && (|Flat(extents[..n])| >= length || n == |extents|)
    && (n == 0 <==> extents == [])
    && forall k :: 1 <= k < n ==> |Flat(extents[..k])| < length
  }

  /**
    * evbuffer_peek from a position on: `extents` is what follows that position. It fills as much of
    * `vec` as it needs and has, and returns how many extents it needs. At a position before the end it
    * always needs one, even for no bytes at all.
    */
  method Peek(extents: seq<string>, length: nat, vec: array<string>) returns (needed: nat)
    modifies vec
    ensures Covers(extents, length, needed)
    ensures forall i :: 0 <= i < needed && i < vec.Length ==> vec[i] == extents[i]
  {
    if |extents| == 0 {
      return 0;
    }
    needed := 1;
    var soFar := |extents[0]|;
    if vec.Length > 0 {
      vec[0] := extents[0];
    }
    FlatNext(extents, 0);
    while needed < |extents| && soFar < length
      invariant 1 <= needed <= |extents|
      invariant soFar == |Flat(extents[..needed])|
      invariant forall k :: 1 <= k < needed ==> |Flat(extents[..k])| < length
      invariant forall i :: 0 <= i < needed && i < vec.Length ==> vec[i] == extents[i]
    {
      FlatNext(extents, needed);
      if needed < vec.Length {
        vec[needed] := extents[needed];
      }
      soFar := soFar + |extents[needed]|;
      needed := needed + 1;
    }
  }

  lemma CoversUnique(extents: seq<string>, length: nat, m: nat, n: nat)
    requires Covers(extents, length, m) && Covers(extents, length, n)
    ensures m == n
  {
  }

  /**
    * evbuffer_peek_realloc: the array returned has room for every extent needed and holds them. It is
    * the array given unless that one was too short, and a second attempt never fails.
    */
  method PeekRealloc(extents: seq<string>, length: nat, vec: array<string>)
    returns (vec': array<string>, needed: nat)
    modifies vec
    ensures Covers(extents, length, needed) && needed <= vec'.Length
    ensures forall i :: 0 <= i < needed ==> vec'[i] == extents[i]
    ensures if needed <= vec.Length then vec' == vec else fresh(vec') && vec'.Length == needed
    decreases if exists n: nat :: Covers(extents, length, n) && vec.Length < n then 1 else 0
  {
    needed := Peek(extents, length, vec);
    if needed > vec.Length {
      var longer := new string[needed](i => "");
      forall i | 0 <= i < vec.Length {
        longer[i] := vec[i];
      }
      forall n: nat | Covers(extents, length, n) ensures n <= longer.Length {
        CoversUnique(extents, length, n, needed);
      }
      vec', needed := PeekRealloc(extents, length, longer);
      CoversUnique(extents, length, needed, longer.Length);
      return;
    }
    vec' := vec;
  }

  /** dump_iovec: what reaches the file is exactly the first `length` bytes of the extents. */
  method DumpIovec(vec: array<string>, length: nat) returns (file: string)
    requires length <= |Flat(vec[..])|
    ensures file == Flat(vec[..])[..length]
  {
    var i, left := 0, length;
    ghost var all := Flat(vec[..]);
    file := "";
    assert vec[..][..0] == [] && vec[..][..vec.Length] == vec[..];
    while left != 0
      invariant 0 <= i <= vec.Length && 0 <= left <= length
      invariant |file| + left == length <= |all| && file == all[..|file|]
      invariant left != 0 ==> file == Flat(vec[..][..i])
      decreases vec.Length - i
    {
      FlatNext(vec[..], i);
      FlatPrefix(vec[..], i + 1);
      var towrite := if left < |vec[i]| then left else |vec[i]|;
      file := file + vec[i][..towrite];
      i := i + 1;
      left := left - towrite;
    }
  }

  /** The parser's request for extents followed by a module's dump: a flat copy, however the data is split. */
  method SaveData(extents: seq<string>, length: nat, vec: array<string>) returns (file: string, vec': array<string>)
    requires extents != [] && length <= |Flat(extents)|
    modifies vec
    ensures file == Flat(extents)[..length]
  {
    var needed;
    vec', needed := PeekRealloc(extents, length, vec);
    assert extents[..|extents|] == extents;
    assert vec'[..needed] == extents[..needed];
    FlatPrefix(vec'[..], needed);
    assert vec'[..][..needed] == vec'[..needed];
    FlatPrefix(extents, needed);
    file := DumpIovec(vec', length);
  }
}
