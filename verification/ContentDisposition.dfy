/** The value of a key in a Content-Disposition header: cut out, decoded in place, freed of slashes. */
module ContentDisposition {
  import opened Text
  import opened Wrappers
  import opened EntityLookup
  import opened Entity
  import opened EntityLaws

  /** What stands between `key="` and the next quote, or the end. */
  function Quoted(key: string, header: string): (r: Option<string>)
    ensures r.Some? ==> |r.value| + |key| + 2 <= |header| && '"' !in r.value
  {
    var p := Find(header, key + "=\"");
    if p == -1 then None
    else
      var tail := header[p + |key| + 2..];
      Some(tail[..IndexOf(tail, '"')])
  }

  /** Slashes become underscores. */
  function Sanitized(s: string): (r: string)
    ensures |r| == |s|
    ensures forall i :: 0 <= i < |s| ==> r[i] == if s[i] == '/' then '_' else s[i]
  {
    if s == "" then "" else [if s[0] == '/' then '_' else s[0]] + Sanitized(s[1..])
  }

  /** The part of a byte string a C program sees. */
  function Seen(s: string): string {
    s[..IndexOf(s, NUL)]
  }

  /** The name the upload modules receive. */
  function ExtractedName(t: Table, key: string, header: string): Option<string> {
    var v := Quoted(key, header);
    if v.None? then None else Some(Sanitized(Seen(Decode(t, v.value))))
  }

  /** sanitize_string */
  method SanitizeString(a: array<char>)
    requires Terminated(a, 0)
    modifies a
    ensures Terminated(a, 0) && CString(a, 0) == Sanitized(old(CString(a, 0)))
  {
    hide Terminated, StrLen, Sanitized;
    ghost var s := CString(a, 0);
    var i := 0;
    while i < StrLen(a, 0)
      invariant 0 <= i <= |s| && Replaced(a[..], s, i)
      invariant Terminated(a, 0) && StrLen(a, 0) == |s|
    {
      if a[i] == '/' {
        a[i] := '_';
      }
      i := i + 1;
      ReplacedLength(a, s, i);
    }
    assert a[0..|s|] == Sanitized(s);
  }

  /** Memory holds `s` with the slashes before `i` replaced. */
  ghost predicate Replaced(memory: seq<char>, s: string, i: nat)
    requires i <= |s|
  {
    && |s| < |memory| && memory[|s|] == NUL
    && (forall k :: 0 <= k < i ==> memory[k] == if s[k] == '/' then '_' else s[k])
    && (forall k :: i <= k < |s| ==> memory[k] == s[k])
  }

  lemma ReplacedLength(a: array<char>, s: string, i: nat)
    requires NulFree(s) && i <= |s| && Replaced(a[..], s, i)
    ensures Terminated(a, 0) && StrLen(a, 0) == |s|
  {
    assert forall k :: 0 <= k < |s| ==> a[0..|s|][k] == a[k] != NUL;
    StrLenIs(a, 0, a[0..|s|]);
  }

  /** extract_key_value; its buffer for the pattern holds keys of up to eight characters. */
  method ExtractKeyValue(t: Table, key: string, header: string) returns (ret: array?<char>)
    requires ValidTable(t) && NulFree(header) && |key| <= 8
    ensures ret == null <==> ExtractedName(t, key, header).None?
    ensures ret != null ==> Terminated(ret, 0) && fresh(ret)
    ensures ret != null ==> Some(CString(ret, 0)) == ExtractedName(t, key, header)
  {
    hide Decode, Find, Sanitized, StrLen, Terminated;
    if |header| == 0 {
      return null;
    }
    var pos := Find(header, key + "=\"");
    if pos == -1 {
      return null;
    }
    pos := pos + |key| + 2;
    ghost var value := Quoted(key, header).value;
    ret := new char[|header|];
    CopyQuoted(ret, header, pos);
    NulFreePart(header, pos, value);
    StrLenIs(ret, 0, value);
    var length := DecodeHtmlEntities(t, ret, null);
    SeenInMemory(ret, Decode(t, value));
    SanitizeString(ret);
  }

  /** The bytes of the header from a position to the next quote, or the end, as a C string. */
  method CopyQuoted(ret: array<char>, header: string, start: nat)
    requires start <= |header| == ret.Length && 0 < start
    modifies ret
    ensures
      var tail := header[start..];
      var value := tail[..IndexOf(tail, '"')];
      ret[0..|value|] == value && ret[|value|] == NUL
  {
    ghost var tail := header[start..];
    ghost var value := tail[..IndexOf(tail, '"')];
    var i, pos := 0, start;
    while pos < |header| && header[pos] != '"'
      invariant pos == start + i && i <= |value| && pos <= |header|
      invariant ret[..i] == value[..i]
      decreases |header| - pos
    {
      assert tail[i] == header[pos];
      ret[i] := header[pos];
      i, pos := i + 1, pos + 1;
    }
    assert forall k :: 0 <= k < |value| ==> value[k] == tail[k];
    assert i < |tail| ==> tail[i] == header[pos];
    ret[i] := NUL;
  }

  lemma NulFreePart(header: string, start: nat, value: string)
    requires NulFree(header) && start <= |header| && value <= header[start..]
    ensures NulFree(value)
  {
    assert forall k :: 0 <= k < |value| ==> value[k] == header[start..][k] == header[start + k];
  }

  lemma SeenInMemory(a: array<char>, s: string)
    requires |s| < a.Length && a[..|s|] == s && a[|s|] == NUL
    ensures Terminated(a, 0) && CString(a, 0) == Seen(s)
  {
    var n := IndexOf(s, NUL);
    assert a[0..n] == s[..n];
    assert forall k :: 0 <= k < |s| ==> a[k] == a[..|s|][k] == s[k];
    StrLenIs(a, 0, s[..n]);
  }

  // ---- what it means for names -----------------------------------------------------------

  /** A name escaped into a header, up to a quote or the end, comes back, its slashes replaced. */
  lemma NameRoundTrip(t: Table, key: string, name: string, before: string, closing: string)
    requires ValidTable(t) && KnowsEscapes(t)
    requires NulFree(name) && '"' !in name && (closing == "" || closing[0] == '"')
    requires var header := before + (key + "=\"") + (Escape(name) + closing);
      forall i: nat :: i < |before| ==> !OccursAt(header, key + "=\"", i)
    ensures
      var header := before + (key + "=\"") + (Escape(name) + closing);
      && ExtractedName(t, key, header) == Some(Sanitized(name))
      && (ExtractedName(t, key, header) == Some(name) <==> '/' !in name)
  {
    hide Decode, Escape;
    var pat, tail := key + "=\"", Escape(name) + closing;
    var header := before + pat + tail;
    assert header[|before|..|before| + |pat|] == pat;
    FindUnique(header, pat, |before|);
    assert header[|before| + |pat|..] == tail;
    NoQuoteInEscape(name);
    assert tail[..|Escape(name)|] == Escape(name);
    if closing == "" {
      assert '"' !in tail;
    } else {
      IndexOfUnique(tail, '"', |Escape(name)|);
    }
    DecodeEscape(t, name);
    assert IndexOf(name, NUL) == |name|;
    assert name[..|name|] == name;
    SanitizedSame(name);
  }

  lemma SanitizedSame(s: string)
    ensures Sanitized(s) == s <==> '/' !in s
  {
    assert forall i :: 0 <= i < |s| ==> (Sanitized(s)[i] == s[i] <==> s[i] != '/');
  }

  lemma {:induction false} NoQuoteInEscapeOnce(s: string)
    requires '"' !in s
    ensures '"' !in EscapeOnce(s)
  {
    if s != "" {
      assert s[0] in s && '"' !in s[1..];
      NoQuoteInEscapeOnce(s[1..]);
    }
  }

  lemma NoQuoteInEscape(s: string)
    requires '"' !in s
    ensures '"' !in Escape(s)
  {
    ThreePassesAreOne(s);
    NoQuoteInEscapeOnce(s);
  }

  /** No extracted name can leave the upload directory: it holds no slash, whatever the header says. */
  lemma NoSlash(t: Table, key: string, header: string)
    requires ExtractedName(t, key, header).Some?
    ensures '/' !in ExtractedName(t, key, header).value
  {
    var s := Seen(Decode(t, Quoted(key, header).value));
    assert forall i :: 0 <= i < |s| ==> Sanitized(s)[i] != '/';
  }

  // ---- where a name is looked for --------------------------------------------------------

  function Quotes(s: string): nat {
    if s == "" then 0 else Quotes(s[..|s| - 1]) + if s[|s| - 1] == '"' then 1 else 0
  }

  /** The parameter `name` starts at `i`: outside of quotes, and at the start of a word. */
  predicate ParamAt(header: string, i: nat) {
    && OccursAt(header, "name=\"", i)
    && (i == 0 || header[i - 1] == ';' || header[i - 1] == ' ' || header[i - 1] == '\t')
    && Quotes(header[..i]) % 2 == 0
  }

  /** Where the parameter `name` first starts at or after `from`, or -1. */
  function ParamFrom(header: string, from: nat): (i: int)
    ensures i == -1 || (from <= i && ParamAt(header, i))
    ensures forall j: nat :: from <= j && (i == -1 || j < i) ==> !ParamAt(header, j)
    decreases |header| - from
  {
    if from >= |header| then -1
    else if ParamAt(header, from) then from
    else ParamFrom(header, from + 1)
  }

  lemma ParamFromIs(header: string, i: nat)
    requires ParamAt(header, i) && forall j: nat :: j < i ==> !ParamAt(header, j)
    ensures ParamFrom(header, 0) == i
  {
  }

  /** What the code makes of the quoted text after `name="` at `i`. */
  function ValueAt(t: Table, header: string, i: nat): string
    requires i + 6 <= |header|
  {
    var tail := header[i + 6..];
    Sanitized(Seen(Decode(t, tail[..IndexOf(tail, '"')])))
  }

  /** The value of the parameter `name`, if the header has one. */
  function ParamValue(t: Table, header: string): Option<string> {
    var i := ParamFrom(header, 0);
    if i == -1 then None else Some(ValueAt(t, header, i))
  }

  /** A `name="` that ends a longer word or is quoted, and up to it no parameter `name`. */
  ghost predicate Decoy(header: string) {
    exists i: nat :: OccursAt(header, "name=\"", i) && forall j: nat :: j <= i ==> !ParamAt(header, j)
  }

  /** The search ends at the parameter `name`, or finds nothing where there is none, exactly without a decoy. */
  lemma NameSearch(header: string)
    ensures Find(header, "name=\"") == ParamFrom(header, 0) <==> !Decoy(header)
    ensures Decoy(header) ==> Find(header, "name=\"") != -1 && !ParamAt(header, Find(header, "name=\""))
  {
    hide Find, ParamFrom, ParamAt, OccursAt;
    ParamOccurs(header);
    var n, p := ParamFrom(header, 0), Find(header, "name=\"");
    assert n != -1 ==> OccursAt(header, "name=\"", n);
    if Decoy(header) {
      var i: nat :| OccursAt(header, "name=\"", i) && forall j: nat :: j <= i ==> !ParamAt(header, j);
      assert 0 <= p <= i;
    } else {
      assert forall j: nat :: j < p ==> !ParamAt(header, j);
      assert p != -1 ==> ParamAt(header, p);
    }
  }

  /**
    * The name the code gives is the value of the parameter `name` where there is no decoy; and where there
    * is one, it is the value of the first decoy, so it is right only by coincidence of the two values.
    */
  lemma NameExtracted(t: Table, header: string)
    ensures !Decoy(header) ==> ExtractedName(t, "name", header) == ParamValue(t, header)
    ensures Decoy(header) ==>
              var i := Find(header, "name=\"");
              && i != -1 && !ParamAt(header, i) && ExtractedName(t, "name", header) == Some(ValueAt(t, header, i))
              && (ExtractedName(t, "name", header) == ParamValue(t, header) <==>
                  ParamFrom(header, 0) != -1 && ValueAt(t, header, i) == ValueAt(t, header, ParamFrom(header, 0)))
  {
    hide Decode, Sanitized, Seen, ParamFrom, ParamAt, Decoy, Find;
    ParamOccurs(header);
    assert "name" + "=\"" == "name=\"";
    NameSearch(header);
  }

  /** A file name stands in the header, and no `name="` before it. */
  ghost predicate FilenameFirst(header: string) {
    exists f: nat :: OccursAt(header, "filename=\"", f) && forall j: nat :: j < f ==> !OccursAt(header, "name=\"", j)
  }

  lemma NameInFilename(header: string, f: nat)
    requires OccursAt(header, "filename=\"", f)
    ensures OccursAt(header, "name=\"", f + 4) && !ParamAt(header, f + 4)
    ensures forall j: nat :: f <= j < f + 4 ==> !OccursAt(header, "name=\"", j)
  {
    hide Quotes;
    assert header[f..f + 10] == "filename=\"";
    assert header[f + 4..f + 10] == header[f..f + 10][4..] == "name=\"";
    assert header[f + 3] == header[f..f + 10][3] == 'e';
    forall j: nat | f <= j < f + 4 ensures !OccursAt(header, "name=\"", j) {
      assert header[j] == header[f..f + 10][j - f] != 'n';
      assert |header[j..]| >= 6 && header[j..j + 6][0] == header[j];
    }
  }

  /** A file name is such a decoy: with one in front, or alone, its value is given for both. */
  lemma NameFoundInFilename(t: Table, header: string)
    requires FilenameFirst(header)
    ensures Decoy(header) && ExtractedName(t, "name", header) == ExtractedName(t, "filename", header) != None
  {
    hide Decode, Sanitized, Seen, ParamAt;
    var f: nat :| OccursAt(header, "filename=\"", f) && forall j: nat :: j < f ==> !OccursAt(header, "name=\"", j);
    NameInFilename(header, f);
    FindUnique(header, "name=\"", f + 4);
    forall k: nat | k < f ensures !OccursAt(header, "filename=\"", k) {
      if OccursAt(header, "filename=\"", k) {
        NameInFilename(header, k);
      }
    }
    FindUnique(header, "filename=\"", f);
    assert forall j: nat :: j <= f + 4 ==> !ParamAt(header, j) by { ParamOccurs(header); }
    assert "filename" + "=\"" == "filename=\"" && "name" + "=\"" == "name=\"";
  }

  lemma ParamOccurs(header: string)
    ensures forall j: nat :: ParamAt(header, j) ==> OccursAt(header, "name=\"", j)
  {
  }

  // ---- headers that are misread ----------------------------------------------------------

  /** The two four-letter words that `name` ends in the headers below. */
  predicate Decoying(word: string) {
    word == "file" || word == "nick"
  }

  /**
    * `filename="x"; name="b"` and `nickname="x"; name="b"` give the name `x` for `b`, and the first
    * parameter of each alone gives `x` for none.
    */
  lemma NameMistaken(t: Table, word: string)
    requires Decoying(word)
    ensures
      var alone, both := word + "name=\"x\"", word + "name=\"x\"; name=\"b\"";
      && ExtractedName(t, "name", both) == Some("x") && ParamValue(t, both) == Some("b")
      && ExtractedName(t, "name", alone) == Some("x") && ParamValue(t, alone) == None
  {
    hide ParamFrom, ParamAt, Decode, Sanitized, Seen, ExtractedName;
    var alone, both := word + "name=\"x\"", word + "name=\"x\"; name=\"b\"";
    assert both == word + ("name=\"x\"" + "; name=\"b\"") && alone == word + ("name=\"x\"" + "");
    FirstIsX(t, word, both, "; name=\"b\"");
    FirstIsX(t, word, alone, "");
    ParamsOf(word);
    assert both[20..] == "b\"";
    assert "b\""[..1] == "b";
    IndexOfUnique("b\"", '"', 1);
    Short(t, "b");
  }

  lemma FirstIsX(t: Table, word: string, header: string, more: string)
    requires Decoying(word) && header == word + ("name=\"x\"" + more)
    ensures ExtractedName(t, "name", header) == Some("x")
  {
    hide Decode, Sanitized, Seen;
    assert header[4..10] == "name=\"";
    forall k: nat | k < 4 ensures !OccursAt(header, "name=\"", k) {
      assert header[k..k + 6][0] == word[k];
      assert header[k..k + 6][1] == if k < 3 then word[k + 1] else 'n';
    }
    FindUnique(header, "name=\"", 4);
    assert "name" + "=\"" == "name=\"";
    var tail := header[10..];
    assert tail[0] == 'x' && tail[1] == '"';
    IndexOfUnique(tail, '"', 1);
    assert tail[..1] == "x";
    Short(t, "x");
  }

  lemma ParamsOf(word: string)
    requires Decoying(word)
    ensures ParamFrom(word + "name=\"x\"", 0) == -1
    ensures ParamFrom(word + "name=\"x\"; name=\"b\"", 0) == 14
  {
    hide ParamFrom, Quotes;
    var alone, both := word + "name=\"x\"", word + "name=\"x\"; name=\"b\"";
    forall j: nat ensures !ParamAt(alone, j) {
      NotParam(word, alone, j);
    }
    forall j: nat | j < 14 ensures !ParamAt(both, j) {
      NotParam(word, both, j);
    }
    assert both[14..20] == "name=\"" && both[13] == ' ';
    assert Quotes(both[..14]) == 2 by { TwoQuotes(word, both[..14]); }
    ParamFromIs(both, 14);
  }

  lemma NotParam(word: string, header: string, j: nat)
    requires Decoying(word)
    requires header == word + "name=\"x\"" || (header == word + "name=\"x\"; name=\"b\"" && j < 14)
    ensures !ParamAt(header, j)
  {
    hide Quotes;
    if j == 4 {
      assert header[3] == word[3];
    } else if j < 4 {
      assert header[j] == word[j] && header[j + 1] == if j < 3 then word[j + 1] else 'n';
      assert header[j..j + 6][0] == header[j] && header[j..j + 6][1] == header[j + 1];
    } else if j + 6 <= |header| {
      assert header[j] != 'n';
      assert header[j..j + 6][0] == header[j];
    }
  }

  lemma TwoQuotes(word: string, s: string)
    requires Decoying(word) && s == word + "name=\"x\"; "
    ensures Quotes(s) == 2
  {
    assert s == [word[0], word[1], word[2], word[3], 'n', 'a', 'm', 'e', '=', '"', 'x', '"', ';', ' '];
    assert forall k :: 0 <= k < 9 ==> s[k] != '"';
    NoQuotes(s[..9]);
    assert s[..10][..9] == s[..9] && Quotes(s[..10]) == 1;
    assert s[..11][..10] == s[..10] && Quotes(s[..11]) == 1;
    assert s[..12][..11] == s[..11] && Quotes(s[..12]) == 2;
    assert s[..13][..12] == s[..12] && Quotes(s[..13]) == 2;
    assert s[..13] == s[..|s| - 1];
  }

  lemma {:induction false} NoQuotes(s: string)
    requires forall k :: 0 <= k < |s| ==> s[k] != '"'
    ensures Quotes(s) == 0
  {
    if s != "" {
      NoQuotes(s[..|s| - 1]);
    }
  }

  /** A plain character stands for itself. */
  lemma Short(t: Table, s: string)
    requires |s| == 1 && s[0] != '&' && s[0] != NUL && s[0] != '/'
    ensures Sanitized(Seen(Decode(t, s))) == s
  {
    assert s[1..] == "";
    assert Decode(t, s) == s;
    assert Seen(s) == s;
  }
}
