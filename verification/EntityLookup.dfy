/**
  * The table of named entities and its binary search. The search compares the text after an
  * ampersand with a key only up to the length of that key, so a hit is a key the text starts with.
  */
module EntityLookup {
  import opened Text
  import opened Wrappers
  import Utf8

  /** One row of the table: the name with its semicolon, and the character it stands for. */
  datatype Named = Named(key: string, cp: nat) {
    function Text(): string { Utf8.Encode(cp) }

    /** `;` closes the key and appears nowhere else, and the text is no longer than `&` and the key. */
    predicate Valid() {
      && key != "" && key[|key| - 1] == ';'
      && (forall k :: 0 <= k < |key| - 1 ==> key[k] != ';' && key[k] != '&' && key[k] != NUL)
      && 0 < cp <= Utf8.UNICODE_MAX && |Text()| <= |key| + 1
    }
  }

  type Table = seq<Named>

  /** strcmp order. */
  predicate Less(a: string, b: string) {
    b != "" && (a == "" || a[0] < b[0] || (a[0] == b[0] && Less(a[1..], b[1..])))
  }

  ghost predicate ValidTable(t: Table) {
    && (forall i :: 0 <= i < |t| ==> t[i].Valid())
    && (forall i, j :: 0 <= i < j < |t| ==> Less(t[i].key, t[j].key))
  }

  /** strncmp(name, key, strlen(key)): the NUL that ends `name` sorts below every byte of a key. */
  function Compare(name: string, key: string): int {
    if key == "" then 0
    else if name == "" || name[0] < key[0] then -1
    else if key[0] < name[0] then 1
    else Compare(name[1..], key[1..])
  }

  /** The first row from `i` on whose key starts `name`: what a linear scan finds. */
  function Scan(t: Table, name: string, i: nat): (r: Option<Named>)
    ensures r.Some? ==> r.value in t && r.value.key <= name
    ensures r.None? ==> forall j :: i <= j < |t| ==> !(t[j].key <= name)
    decreases |t| - i
  {
    if i >= |t| then None else if t[i].key <= name then Some(t[i]) else Scan(t, name, i + 1)
  }

  function Lookup(t: Table, name: string): (r: Option<Named>)
    ensures r.Some? ==> r.value in t && r.value.key <= name
    ensures r.None? <==> forall j :: 0 <= j < |t| ==> !(t[j].key <= name)
  {
    Scan(t, name, 0)
  }

  // ---- why the binary search is right ----------------------------------------------------

  lemma {:induction false} CompareZero(name: string, key: string)
    ensures Compare(name, key) == 0 <==> key <= name
  {
    if key != "" && name != "" && name[0] == key[0] {
      CompareZero(name[1..], key[1..]);
      assert key == [key[0]] + key[1..] && name == [name[0]] + name[1..];
    }
  }

  /** A name not below the greater of two keys is above the lesser one, unless that is its prefix. */
  lemma {:induction false} CompareMonotone(name: string, a: string, b: string)
    requires Less(a, b) && !(a <= b)
    requires Compare(name, b) >= 0
    ensures Compare(name, a) > 0
  {
    if a[0] == b[0] && name[0] == b[0] {
      assert a == [a[0]] + a[1..] && b == [b[0]] + b[1..];
      CompareMonotone(name[1..], a[1..], b[1..]);
    }
  }

  lemma {:induction false} LessIrreflexive(a: string)
    ensures !Less(a, a)
  {
    if a != "" {
      LessIrreflexive(a[1..]);
    }
  }

  /** A key with its only semicolon at the end is no proper prefix of another such key. */
  lemma KeysPrefixFree(a: Named, b: Named)
    requires a.Valid() && b.Valid() && a.key <= b.key
    ensures a.key == b.key
  {
    assert a.key[|a.key| - 1] == b.key[|a.key| - 1];
  }

  lemma TableMonotone(t: Table, name: string, i: nat, j: nat)
    requires ValidTable(t) && i < j < |t|
    requires Compare(name, t[j].key) >= 0
    ensures Compare(name, t[i].key) > 0
  {
    if t[i].key <= t[j].key {
      KeysPrefixFree(t[i], t[j]);
      LessIrreflexive(t[i].key);
    }
    CompareMonotone(name, t[i].key, t[j].key);
  }

  /** At most one key starts a name, so the scan's first hit is the only hit. */
  lemma LookupUnique(t: Table, name: string, i: nat)
    requires ValidTable(t) && i < |t| && t[i].key <= name
    ensures Lookup(t, name) == Some(t[i])
  {
    var r := Lookup(t, name).value;
    var j :| 0 <= j < |t| && t[j] == r;
    CompareZero(name, t[i].key);
    CompareZero(name, t[j].key);
    if i < j {
      TableMonotone(t, name, i, j);
    } else if j < i {
      TableMonotone(t, name, j, i);
    }
  }

  /** bsearch, as the C library runs it, agrees with the linear scan. */
  method GetNamedEntity(t: Table, name: string) returns (r: Option<Named>)
    requires ValidTable(t)
    ensures r == Lookup(t, name)
  {
    var lo, hi := 0, |t|;
    while lo < hi
      invariant 0 <= lo <= hi <= |t|
      invariant forall i :: 0 <= i < lo ==> Compare(name, t[i].key) > 0
      invariant forall i :: hi <= i < |t| ==> Compare(name, t[i].key) < 0
    {
      var mid := (lo + hi) / 2;
      var order := Compare(name, t[mid].key);
      if order < 0 {
        forall i | mid <= i < |t| ensures Compare(name, t[i].key) < 0 {
          if mid < i && Compare(name, t[i].key) >= 0 {
            TableMonotone(t, name, mid, i);
          }
        }
        hi := mid;
      } else if order > 0 {
        forall i | 0 <= i <= mid ensures Compare(name, t[i].key) > 0 {
          if i < mid {
            TableMonotone(t, name, i, mid);
          }
        }
        lo := mid + 1;
      } else {
        CompareZero(name, t[mid].key);
        LookupUnique(t, name, mid);
        return Some(t[mid]);
      }
    }
    forall i | 0 <= i < |t| ensures !(t[i].key <= name) {
      CompareZero(name, t[i].key);
    }
    r := None;
  }

  /** On a hit, the first semicolon after the ampersand is the last byte of the key. */
  lemma HitEndsAtFirstSemicolon(row: Named, name: string)
    requires row.Valid() && row.key <= name
    ensures IndexOf(name, ';') == |row.key| - 1
  {
    assert name[..|row.key| - 1] == row.key[..|row.key| - 1];
    IndexOfUnique(name, ';', |row.key| - 1);
  }
}
