/**
  * Printing parts as section 5.1.1 of RFC 2046 lays them out and parsing the result gives the parts
  * back; what the content of a part may not contain; what a preamble does.
  */
module MultipartRoundTrip {
  import opened Text
  import opened Wrappers
  import opened Multipart

  /** A header line: its key, how many spaces follow the colon, its value. */
  datatype Field = Field(key: string, gap: nat, value: string)

  datatype Part = Part(headers: seq<Field>, content: string)

  // ---- printing --------------------------------------------------------------------------

  function Spaces(n: nat): string {
    seq(n, i => ' ')
  }

  function HeaderLine(h: Field): string {
    h.key + ":" + Spaces(h.gap) + h.value
  }

  function HeaderText(headers: seq<Field>): string {
    if headers == [] then "" else HeaderLine(headers[0]) + CRLF + HeaderText(headers[1..])
  }

  /** One part after its delimiter: header lines, a blank line, the content. */
  function PartText(p: Part): string {
    CRLF + (HeaderText(p.headers) + (CRLF + p.content)) + CRLF
  }

  /** Every part behind its delimiter, then the closing delimiter, then whatever follows. */
  function Render(boundary: string, parts: seq<Part>, epilogue: string): string {
    var d := Delimiter(boundary);
    if parts == [] then d + "--" + epilogue
    else d + PartText(parts[0]) + Render(boundary, parts[1..], epilogue)
  }

  // ---- what is well formed ---------------------------------------------------------------

  predicate WellFormedHeader(h: Field) {
    && h.key != "" && (forall c :: c in h.key ==> c != ':' && c != CR && c != LF && c != NUL)
    && (forall c :: c in h.value ==> c != CR && c != LF && c != NUL)
    && (if h.value == "" then h.gap > 0 else h.value[0] != ' ')
  }

  ghost predicate WellFormed(boundary: string, p: Part) {
    && (forall i :: 0 <= i < |p.headers| ==> WellFormedHeader(p.headers[i]))
    && !Occurs(p.content, Delimiter(boundary))
  }

  predicate OneLine(boundary: string) {
    CR !in boundary && LF !in boundary
  }

  // ---- what the module should be told ----------------------------------------------------

  function HeaderEvents(headers: seq<Field>): seq<Event> {
    if headers == [] then [] else [Header(headers[0].key, headers[0].value)] + HeaderEvents(headers[1..])
  }

  function Events(parts: seq<Part>): seq<Event> {
    if parts == [] then []
    else HeaderEvents(parts[0].headers) + [Data(parts[0].content)] + Events(parts[1..])
  }

  /** Events told one at a time, until the module reports an error. */
  function Feed(m: UploadModule, log: seq<Event>, events: seq<Event>): (seq<Event>, bool)
    decreases |events|
  {
    if events == [] then (log, false)
    else
      var log := log + [events[0]];
      if m(log) then (log, true) else Feed(m, log, events[1..])
  }

  lemma {:induction false} FeedAppend(m: UploadModule, log: seq<Event>, a: seq<Event>, b: seq<Event>)
    ensures Feed(m, log, a + b) ==
              var r := Feed(m, log, a); if r.1 then r else Feed(m, r.0, b)
    decreases |a|
  {
    if a == [] {
      assert a + b == b;
    } else {
      assert (a + b)[1..] == a[1..] + b;
      FeedAppend(m, log + [a[0]], a[1..], b);
    }
  }

  lemma {:induction false} FeedAll(m: UploadModule, log: seq<Event>, events: seq<Event>)
    requires !Feed(m, log, events).1
    ensures Feed(m, log, events).0 == log + events
    decreases |events|
  {
    if events != [] {
      FeedAll(m, log + [events[0]], events[1..]);
      assert log + events == log + [events[0]] + events[1..];
    }
  }

  // ---- lines -----------------------------------------------------------------------------

  lemma ReadLineOf(line: string, rest: string)
    requires LF !in line
    ensures ReadLine(line + CRLF + rest) == Some((line, rest))
  {
    var s := line + CRLF + rest;
    assert s[|line|] == CR && s[|line| + 1] == LF;
    assert forall k :: 0 <= k < |line| + 1 ==> s[k] != LF;
    assert LF !in s[..|line| + 1];
    IndexOfUnique(s, LF, |line| + 1);
    assert s[..|line|] == line;
    assert s[|line| + 2..] == rest;
  }

  lemma SpanInIs(s: string, delimiters: set<char>, n: nat)
    requires n <= |s| && (forall i :: 0 <= i < n ==> s[i] in delimiters)
    requires n < |s| ==> s[n] !in delimiters
    ensures SpanIn(s, delimiters) == n
  {
    var k := SpanIn(s, delimiters);
    assert k < |s| ==> s[k] !in delimiters;
    assert n < |s| ==> s[n] !in delimiters;
  }

  lemma SpanNotInIs(s: string, delimiters: set<char>, n: nat)
    requires n <= |s| && (forall i :: 0 <= i < n ==> s[i] !in delimiters)
    requires n < |s| ==> s[n] in delimiters
    ensures SpanNotIn(s, delimiters) == n
  {
    var k := SpanNotIn(s, delimiters);
    assert k < |s| ==> s[k] in delimiters;
    assert n < |s| ==> s[n] in delimiters;
  }

  /** A token that starts at once and is closed by a delimiter. */
  lemma TokenOf(token: string, close: char, rest: string, delimiters: set<char>)
    requires token != "" && close in delimiters && (forall c :: c in token ==> c !in delimiters)
    ensures Token(token + [close] + rest, delimiters) == Some((token, rest))
  {
    var s := token + [close] + rest;
    assert s[0] == token[0];
    SpanInIs(s, delimiters, 0);
    assert s[0..] == s;
    SpanNotInIs(s, delimiters, |token|);
    assert s[..|token|] == token && s[|token| + 1..] == rest;
  }

  lemma LastTokenOf(token: string, delimiters: set<char>)
    requires token != "" && (forall c :: c in token ==> c !in delimiters)
    ensures Token(token, delimiters) == Some((token, ""))
  {
    SpanInIs(token, delimiters, 0);
    assert token[0..] == token;
    SpanNotInIs(token, delimiters, |token|);
    assert token[..|token|] == token;
  }

  /** The spaces after the colon are stepped over. */
  lemma ValueOf(h: Field)
    requires WellFormedHeader(h)
    ensures
      var value := Spaces(h.gap) + h.value;
      && Token(value, {CR, LF}) == Some((value, "")) && value[SpanIn(value, {' '})..] == h.value
      && (forall c :: c in value ==> c == ' ' || c in h.value)
  {
    hide Token, SpanIn;
    var value := Spaces(h.gap) + h.value;
    assert forall c :: c in value ==> c == ' ' || c in h.value;
    LastTokenOf(value, {CR, LF});
    assert h.gap < |value| ==> value[h.gap] == h.value[0];
    SpanInIs(value, {' '}, h.gap);
    assert value[h.gap..] == h.value;
  }

  lemma KeyValueOf(h: Field)
    requires WellFormedHeader(h)
    ensures KeyValue(HeaderLine(h)) == Some((h.key, h.value))
    ensures Visible(HeaderLine(h)) == HeaderLine(h) && HeaderLine(h) != "" && LF !in HeaderLine(h)
  {
    hide Token, SpanIn, Spaces, Visible;
    var line, value := HeaderLine(h), Spaces(h.gap) + h.value;
    assert line == h.key + [':'] + value;
    TokenOf(h.key, ':', value, {':'});
    ValueOf(h);
    LineIsClean(h.key, value, line);
  }

  lemma LineIsClean(key: string, value: string, line: string)
    requires line == key + [':'] + value
    requires NUL !in key && LF !in key && NUL !in value && LF !in value
    ensures Visible(line) == line && LF !in line
  {
    assert IndexOf(line, NUL) == |line|;
    assert line[..|line|] == line;
  }

  // ---- headers ---------------------------------------------------------------------------

  lemma {:induction false} ReadHeadersOf(m: UploadModule, headers: seq<Field>, rest: string,
                                         log: seq<Event>)
    requires forall i :: 0 <= i < |headers| ==> WellFormedHeader(headers[i])
    ensures
      var r := ReadHeaders(m, State(HeaderText(headers) + (CRLF + rest), log, false));
      var fed := Feed(m, log, HeaderEvents(headers));
      && r.Some? && r.value.log == fed.0 && r.value.error == fed.1
      && (!fed.1 ==> r.value.input == rest)
  {
    hide ReadLine, KeyValue, Visible, WellFormedHeader;
    var input := HeaderText(headers) + (CRLF + rest);
    if headers == [] {
      assert input == "" + CRLF + rest;
      ReadLineOf("", rest);
      assert Visible("") == "" by { VisibleNothing(); }
    } else {
      var h := headers[0];
      assert WellFormedHeader(h);
      KeyValueOf(h);
      var tail := HeaderText(headers[1..]) + (CRLF + rest);
      assert input == HeaderLine(h) + CRLF + tail;
      ReadLineOf(HeaderLine(h), tail);
      assert forall i :: 0 <= i < |headers[1..]| ==> headers[1..][i] == headers[i + 1];
      var events := HeaderEvents(headers);
      assert events[0] == Header(h.key, h.value) && events[1..] == HeaderEvents(headers[1..]);
      ReadHeadersOf(m, headers[1..], rest, log + [events[0]]);
    }
  }

  lemma VisibleNothing()
    ensures Visible("") == ""
  {
  }

  // ---- delimiters ------------------------------------------------------------------------

  lemma DelimiterOneLine(boundary: string)
    requires OneLine(boundary)
    ensures forall i :: 0 <= i < |Delimiter(boundary)| ==> Delimiter(boundary)[i] != CR && Delimiter(boundary)[i] != LF
  {
    var d := Delimiter(boundary);
    assert forall i :: 2 <= i < |d| ==> d[i] == boundary[i - 2] && d[i] in boundary;
  }

  /** A delimiter cannot straddle the line end before the real one. */
  lemma NoStraddling(content: string, d: string, rest: string, i: nat)
    requires |d| >= 2 && forall k :: 0 <= k < |d| ==> d[k] != CR && d[k] != LF
    requires i < |content| + 2 && OccursAt(content + CRLF + (d + rest), d, i)
    ensures OccursAt(content, d, i)
  {
    var s := content + CRLF + (d + rest);
    assert s[|content|] == CR && s[|content| + 1] == LF;
    assert forall k :: i <= k < i + |d| ==> s[k] == s[i..i + |d|][k - i] == d[k - i];
    assert content[i..i + |d|] == s[i..i + |d|];
  }

  /** So the search ends at the real one exactly when the content holds none. */
  lemma FindDelimiter(content: string, d: string, rest: string)
    requires |d| >= 2 && forall k :: 0 <= k < |d| ==> d[k] != CR && d[k] != LF
    ensures
      var next := Find(content + CRLF + (d + rest), d);
      && 0 <= next <= |content| + 2
      && (next == |content| + 2 <==> !Occurs(content, d))
  {
    var s := content + CRLF + (d + rest);
    var end := |content| + 2;
    assert s[end..end + |d|] == d;
    assert OccursAt(s, d, end);
    forall i: nat | OccursAt(content, d, i) ensures OccursAt(s, d, i) {
      assert s[i..i + |d|] == content[i..i + |d|];
    }
    forall i: nat | i < end && OccursAt(s, d, i) ensures OccursAt(content, d, i) {
      NoStraddling(content, d, rest, i);
    }
  }

  lemma FindAtStart(d: string, rest: string)
    ensures Find(d + rest, d) == 0
  {
    assert OccursAt(d + rest, d, 0);
  }

  // ---- one part --------------------------------------------------------------------------

  /** What the parser has left of a part once its header lines are read. */
  function Body(p: Part, d: string, rest: string): string {
    p.content + CRLF + (d + rest)
  }

  /** The input with a part in it, behind a preamble and before the next delimiter. */
  function PartInput(pre: string, d: string, p: Part, rest: string): string {
    pre + (d + PartText(p) + (d + rest))
  }

  /** The header lines of the part at the first delimiter, which is behind the preamble. */
  lemma HeadersOfPart(m: UploadModule, d: string, p: Part, rest: string, log: seq<Event>, pre: string)
    requires forall i :: 0 <= i < |p.headers| ==> WellFormedHeader(p.headers[i])
    ensures
      var after := State(Drain(PartInput(pre, d, p, rest), |d| + |pre| + 2), log, false);
      var h := ReadHeaders(m, after);
      var fed := Feed(m, log, HeaderEvents(p.headers));
      && h.Some? && h.value.log == fed.0 && h.value.error == fed.1
      && (!fed.1 ==> h.value.input == Body(p, d, rest))
  {
    hide ReadHeaders, WellFormedHeader, HeaderText, Feed;
    var input := PartInput(pre, d, p, rest);
    var after := HeaderText(p.headers) + (CRLF + Body(p, d, rest));
    assert input[|d| + |pre| + 2..] == after;
    ReadHeadersOf(m, p.headers, Body(p, d, rest), log);
  }

  /** The parser from a part's delimiter on: the header lines, then the data between here and the next delimiter. */
  lemma PartAfterHeaders(m: UploadModule, boundary: string, p: Part, rest: string, log: seq<Event>, pre: string)
    requires forall i :: 0 <= i < |p.headers| ==> WellFormedHeader(p.headers[i])
    requires Find(PartInput(pre, Delimiter(boundary), p, rest), Delimiter(boundary)) == |pre|
    ensures
      var d := Delimiter(boundary);
      var fed := Feed(m, log, HeaderEvents(p.headers));
      var s := State(Body(p, d, rest), fed.0, false);
      var next := Find(s.input, d);
      var r := NextFile(m, boundary, State(PartInput(pre, d, p, rest), log, false));
      if fed.1 then r.0 == BadMessage && r.1.log == fed.0 && r.1.error
      else r == if next == -1 || next < |pre| then (BadMessage, s) else HandData(m, d, s, |pre|, next)
  {
    hide ReadHeaders, WellFormedHeader, PartInput, HeaderEvents, Delimiter, HandData, Find, Drain, Body, Feed;
    var d := Delimiter(boundary);
    HeadersOfPart(m, d, p, rest, log, pre);
    var h := ReadHeaders(m, State(Drain(PartInput(pre, d, p, rest), |d| + |pre| + 2), log, false));
    var fed := Feed(m, log, HeaderEvents(p.headers));
    assert !fed.1 ==> h.value == State(Body(p, d, rest), fed.0, false);
  }

  /** What parsing a well-formed part does: the next delimiter is where the input then begins. */
  lemma PartParsed(m: UploadModule, boundary: string, p: Part, rest: string, log: seq<Event>)
    requires OneLine(boundary) && WellFormed(boundary, p) && |rest| >= 2
    ensures
      var d := Delimiter(boundary);
      var fed := Feed(m, log, HeaderEvents(p.headers) + [Data(p.content)]);
      var r := NextFile(m, boundary, State(d + PartText(p) + (d + rest), log, false));
      && r.1.log == fed.0 && r.1.error == fed.1
      && r.0 == (if fed.1 then BadMessage else if rest[..2] == "--" then Last else More)
      && (!fed.1 ==> r.1.input == d + rest)
  {
    hide NextFile, Occurs, WellFormedHeader, PartText, HeaderEvents, Delimiter, HandData, Find, Feed, OccursAt;
    var d := Delimiter(boundary);
    var input := d + PartText(p) + (d + rest);
    assert PartInput("", d, p, rest) == input;
    assert input == d + (PartText(p) + (d + rest));
    FindAtStart(d, PartText(p) + (d + rest));
    PartAfterHeaders(m, boundary, p, rest, log, "");
    FeedAppend(m, log, HeaderEvents(p.headers), [Data(p.content)]);
    DelimiterOneLine(boundary);
    FindDelimiter(p.content, d, rest);
    var fed := Feed(m, log, HeaderEvents(p.headers));
    if !fed.1 {
      HandDataOf(m, d, p, rest, State(Body(p, d, rest), fed.0, false));
    }
  }

  /** The data of a part whose delimiter was found where it should be. */
  lemma HandDataOf(m: UploadModule, d: string, p: Part, rest: string, s: State)
    requires |d| >= 2 && |rest| >= 2 && s.input == Body(p, d, rest) && !s.error
    requires OccursAt(s.input, d, |p.content| + 2)
    ensures
      var fed := Feed(m, s.log, [Data(p.content)]);
      HandData(m, d, s, 0, |p.content| + 2) ==
        (if fed.1 then (BadMessage, State(s.input, fed.0, true))
         else (if rest[..2] == "--" then Last else More, State(d + rest, fed.0, false)))
  {
    var next := |p.content| + 2;
    assert s.input[0..0 + (next - 2)] == p.content;
    assert s.input[next..] == d + rest;
    assert Feed(m, s.log + [Data(p.content)], []) == (s.log + [Data(p.content)], false);
    ClosingDelimiter(d, rest);
  }

  lemma ClosingDelimiter(d: string, rest: string)
    requires |rest| >= 2
    ensures d + "--" <= d + rest <==> rest[..2] == "--"
  {
    assert (d + rest)[..|d| + 2] == d + rest[..2];
    assert rest[..2] == (d + rest[..2])[|d|..];
    assert (d + "--")[|d|..] == "--";
  }

  // ---- the whole body --------------------------------------------------------------------

  /**
    * Parsing undoes printing. For every module, boundary and list of parts: the module is told exactly
    * the headers and contents in order; the parse ends well at the closing delimiter if the module
    * never objects, and otherwise stops at its first objection.
    */
  lemma {:induction false} UploadOfRender(m: UploadModule, boundary: string, parts: seq<Part>, epilogue: string,
                                          log: seq<Event>)
    requires OneLine(boundary) && parts != []
    requires forall i :: 0 <= i < |parts| ==> WellFormed(boundary, parts[i])
    ensures
      var fed := Feed(m, log, Events(parts));
      var r := Upload(m, boundary, State(Render(boundary, parts, epilogue), log, false));
      && r.1.log == fed.0 && r.1.error == fed.1
      && r.0 == (if fed.1 then BadMessage else Last)
      && (!fed.1 ==> r.1.input == Render(boundary, [], epilogue) && r.1.log == log + Events(parts))
  {
    hide NextFile, WellFormed, PartText, Delimiter;
    var d := Delimiter(boundary);
    var p, more := parts[0], parts[1..];
    var first := HeaderEvents(p.headers) + [Data(p.content)];
    assert WellFormed(boundary, p);
    FeedAppend(m, log, first, Events(more));
    var rest := AfterDelimiter(boundary, more, epilogue);
    PartParsed(m, boundary, p, rest, log);
    var fed := Feed(m, log, first);
    if !fed.1 && more != [] {
      assert forall i :: 0 <= i < |more| ==> more[i] == parts[i + 1];
      UploadOfRender(m, boundary, more, epilogue, fed.0);
    }
    if !Feed(m, log, Events(parts)).1 {
      FeedAll(m, log, Events(parts));
    }
  }

  /** A rendered body is a delimiter and something that tells more parts from none. */
  lemma AfterDelimiter(boundary: string, parts: seq<Part>, epilogue: string) returns (rest: string)
    ensures Render(boundary, parts, epilogue) == Delimiter(boundary) + rest && |rest| >= 2
    ensures rest[..2] == "--" <==> parts == []
  {
    hide Delimiter, HeaderText;
    if parts == [] {
      rest := "--" + epilogue;
      assert rest[..2] == "--";
    } else {
      rest := PartText(parts[0]) + Render(boundary, parts[1..], epilogue);
      assert rest[0] == CR;
      assert rest[..2][0] == CR;
    }
  }

  /** The round trip for a module that accepts everything, from an empty log. */
  lemma RoundTrip(boundary: string, parts: seq<Part>, epilogue: string)
    requires OneLine(boundary) && parts != []
    requires forall i :: 0 <= i < |parts| ==> WellFormed(boundary, parts[i])
    ensures Upload(_ => false, boundary, State(Render(boundary, parts, epilogue), [], false)) ==
            (Last, State(Delimiter(boundary) + "--" + epilogue, Events(parts), false))
  {
    hide Upload, WellFormed, Delimiter;
    var accept: UploadModule := _ => false;
    UploadOfRender(accept, boundary, parts, epilogue, []);
    NeverFails(accept, [], Events(parts));
    assert [] + Events(parts) == Events(parts);
  }

  lemma {:induction false} NeverFails(m: UploadModule, log: seq<Event>, events: seq<Event>)
    requires forall l :: !m(l)
    ensures !Feed(m, log, events).1
    decreases |events|
  {
    if events != [] {
      NeverFails(m, log + [events[0]], events[1..]);
    }
  }

  // ---- what a content may not contain ----------------------------------------------------

  const ACCEPT: UploadModule := _ => false

  /** For a module that accepts everything, the events after some log are all told. */
  lemma FeedAccept(log: seq<Event>, events: seq<Event>)
    ensures Feed(ACCEPT, log, events) == (log + events, false)
  {
    NeverFails(ACCEPT, log, events);
    FeedAll(ACCEPT, log, events);
  }

  /** The parser after the header lines of a part, for a module that accepts everything. */
  lemma AcceptedPart(boundary: string, p: Part, rest: string, log: seq<Event>, pre: string)
    requires forall i :: 0 <= i < |p.headers| ==> WellFormedHeader(p.headers[i])
    requires Find(PartInput(pre, Delimiter(boundary), p, rest), Delimiter(boundary)) == |pre|
    ensures
      var d := Delimiter(boundary);
      var s := State(Body(p, d, rest), log + HeaderEvents(p.headers), false);
      var next := Find(s.input, d);
      NextFile(ACCEPT, boundary, State(PartInput(pre, d, p, rest), log, false)) ==
        if next == -1 || next < |pre| then (BadMessage, s) else HandData(ACCEPT, d, s, |pre|, next)
  {
    hide NextFile, WellFormedHeader, PartInput, HeaderEvents, Delimiter, HandData, Find, Body, Feed;
    PartAfterHeaders(ACCEPT, boundary, p, rest, log, pre);
    FeedAccept(log, HeaderEvents(p.headers));
  }

  /** A content is delivered whole exactly when the delimiter occurs nowhere in it. */
  lemma ContentDelivered(boundary: string, p: Part, rest: string, log: seq<Event>)
    requires OneLine(boundary) && |rest| >= 2
    requires forall i :: 0 <= i < |p.headers| ==> WellFormedHeader(p.headers[i])
    ensures
      var d := Delimiter(boundary);
      NextFile(ACCEPT, boundary, State(PartInput("", d, p, rest), log, false)).1.log
        == log + HeaderEvents(p.headers) + [Data(p.content)]
      <==> !Occurs(p.content, d)
  {
    hide WellFormedHeader, HeaderText, HeaderEvents, Delimiter, NextFile, Find, Occurs;
    var d := Delimiter(boundary);
    assert PartInput("", d, p, rest) == d + (PartText(p) + (d + rest));
    FindAtStart(d, PartText(p) + (d + rest));
    AcceptedPart(boundary, p, rest, log, "");
    DelimiterOneLine(boundary);
    FindDelimiter(p.content, d, rest);
    var next, told := Find(Body(p, d, rest), d), log + HeaderEvents(p.headers);
    var r := NextFile(ACCEPT, boundary, State(PartInput("", d, p, rest), log, false)).1;
    if next != |p.content| + 2 {
      assert r.log == told || (r.log == told + [Data(Body(p, d, rest)[0..next - 2])]);
      assert (told + [Data(p.content)])[|told|] == Data(p.content);
    } else {
      HandDataOf(ACCEPT, d, p, rest, State(Body(p, d, rest), log + HeaderEvents(p.headers), false));
      FeedAccept(log + HeaderEvents(p.headers), [Data(p.content)]);
    }
  }

  /** A content with the delimiter in it is told cut short, or not at all. */
  lemma ContentCut(boundary: string, p: Part, rest: string, log: seq<Event>)
    requires OneLine(boundary) && |rest| >= 2 && Occurs(p.content, Delimiter(boundary))
    requires forall i :: 0 <= i < |p.headers| ==> WellFormedHeader(p.headers[i])
    ensures
      var d, told := Delimiter(boundary), log + HeaderEvents(p.headers);
      var r := NextFile(ACCEPT, boundary, State(PartInput("", d, p, rest), log, false));
      if |r.1.log| <= |told| then !r.0.More? && r.1.log == told else r.1.log[|told|] != Data(p.content)
  {
    hide WellFormedHeader, HeaderText, HeaderEvents, Delimiter, NextFile, Find, Occurs;
    var d := Delimiter(boundary);
    assert PartInput("", d, p, rest) == d + (PartText(p) + (d + rest));
    FindAtStart(d, PartText(p) + (d + rest));
    AcceptedPart(boundary, p, rest, log, "");
    DelimiterOneLine(boundary);
    FindDelimiter(p.content, d, rest);
  }

  /**
    * A whole body is delivered, every part with its headers and its content and nothing else, exactly
    * when no content has the delimiter in it.
    */
  lemma {:induction false} BodyDelivered(boundary: string, parts: seq<Part>, epilogue: string, log: seq<Event>)
    requires OneLine(boundary) && parts != []
    requires forall i :: 0 <= i < |parts| ==>
               forall j :: 0 <= j < |parts[i].headers| ==> WellFormedHeader(parts[i].headers[j])
    ensures
      Upload(ACCEPT, boundary, State(Render(boundary, parts, epilogue), log, false)).1.log == log + Events(parts)
      <==> forall i :: 0 <= i < |parts| ==> !Occurs(parts[i].content, Delimiter(boundary))
  {
    hide NextFile, WellFormedHeader, PartText, Delimiter, Occurs, Feed, HeaderEvents;
    var d := Delimiter(boundary);
    var p, more := parts[0], parts[1..];
    var told := log + HeaderEvents(p.headers);
    var rest := AfterDelimiter(boundary, more, epilogue);
    var start := State(Render(boundary, parts, epilogue), log, false);
    var r := NextFile(ACCEPT, boundary, start);
    assert start.input == PartInput("", d, p, rest);
    assert log + Events(parts) == told + [Data(p.content)] + Events(more);
    if Occurs(p.content, d) {
      ContentCut(boundary, p, rest, log);
      LaterLog(boundary, start);
    } else {
      PartParsed(ACCEPT, boundary, p, rest, log);
      FeedAccept(log, HeaderEvents(p.headers) + [Data(p.content)]);
      assert log + (HeaderEvents(p.headers) + [Data(p.content)]) == told + [Data(p.content)];
      assert parts == [p] + more;
      if more == [] {
        assert Events(more) == [];
      } else {
        assert forall i :: 0 <= i < |more| ==> more[i] == parts[i + 1];
        BodyDelivered(boundary, more, epilogue, told + [Data(p.content)]);
      }
    }
  }

  lemma LaterLog(boundary: string, s: State)
    requires !s.error
    ensures NextFile(ACCEPT, boundary, s).1.log <= Upload(ACCEPT, boundary, s).1.log
  {
    hide NextFile;
    var r := NextFile(ACCEPT, boundary, s);
    if r.0.More? {
      ErrorEndsFile(ACCEPT, boundary, s);
      UploadHeeds(ACCEPT, boundary, r.1);
    }
  }

  /**
    * RFC 2046 only keeps the delimiter from the start of a line of the content. A content with one in
    * the middle of a line is legal there and is cut short here.
    */
  ghost predicate LegalContent(content: string, d: string) {
    !Occurs(CRLF + content, CRLF + d)
  }

  lemma LegalContentCutShort()
    ensures
      var p := Part([Field("a", 1, "b")], "xy--b");
      && LegalContent(p.content, Delimiter("b"))
      && NextFile(ACCEPT, "b", State(PartInput("", Delimiter("b"), p, "--"), [], false)).1.log
         != HeaderEvents(p.headers) + [Data(p.content)]
  {
    hide NextFile;
    var p, d := Part([Field("a", 1, "b")], "xy--b"), Delimiter("b");
    assert d == "--b";
    assert OccursAt(p.content, d, 2);
    ContentDelivered("b", p, "--", []);
    assert [] + HeaderEvents(p.headers) + [Data(p.content)] == HeaderEvents(p.headers) + [Data(p.content)];
    var s := CRLF + p.content;
    assert s == [CR, LF, 'x', 'y', '-', '-', 'b'];
    assert (CRLF + d)[0] == CR && (CRLF + d)[2] == '-';
    forall i: nat ensures !OccursAt(s, CRLF + d, i) {
      if i <= 2 {
        assert s[i..i + 5][0] == s[i] && s[i..i + 5][2] == s[i + 2];
      }
    }
  }

  // ---- preambles -------------------------------------------------------------------------

  /**
    * The parser keeps the position of the first delimiter and reads the first part's data from that
    * position on, although everything before the data is gone by then. So a preamble shifts the data by
    * its own length, and one longer than the data and the line end is refused.
    */
  lemma PreambleShifts(boundary: string, p: Part, rest: string, log: seq<Event>, pre: string)
    requires OneLine(boundary) && |rest| >= 2 && WellFormed(boundary, p)
    requires Find(PartInput(pre, Delimiter(boundary), p, rest), Delimiter(boundary)) == |pre|
    ensures
      var d := Delimiter(boundary);
      var r := NextFile(ACCEPT, boundary, State(PartInput(pre, d, p, rest), log, false));
      var body, n := Body(p, d, rest), |p.content|;
      if n + 2 < |pre| then r.0 == BadMessage && r.1.log == log + HeaderEvents(p.headers)
      else if |pre| + n > |body| then r.0 == Abort && r.1.log == log + HeaderEvents(p.headers)
      else
        && r.0 == (if rest[..2] == "--" then Last else More)
        && r.1.log == log + HeaderEvents(p.headers) + [Data(body[|pre|..|pre| + n])]
        && r.1.input == d + rest && !r.1.error
  {
    hide WellFormedHeader, HeaderEvents, Delimiter, NextFile, Find, Occurs, PartInput;
    assert Body(p, Delimiter(boundary), rest)[|p.content| + 2..] == Delimiter(boundary) + rest;
    ClosingDelimiter(Delimiter(boundary), rest);
    AcceptedPart(boundary, p, rest, log, pre);
    DelimiterOneLine(boundary);
    FindDelimiter(p.content, Delimiter(boundary), rest);
  }

  /** So the content is delivered exactly when it is also what stands so much further on, within the limits. */
  lemma PreambleExact(boundary: string, p: Part, rest: string, log: seq<Event>, pre: string)
    requires OneLine(boundary) && |rest| >= 2 && WellFormed(boundary, p)
    requires Find(PartInput(pre, Delimiter(boundary), p, rest), Delimiter(boundary)) == |pre|
    ensures
      var d := Delimiter(boundary);
      var body := Body(p, d, rest);
      NextFile(ACCEPT, boundary, State(PartInput(pre, d, p, rest), log, false)).1.log
        == log + HeaderEvents(p.headers) + [Data(p.content)]
      <==> |pre| <= |p.content| + 2 && |pre| <= |body| && p.content <= body[|pre|..]
  {
    hide WellFormed, HeaderEvents, Delimiter, NextFile, Find, PartInput;
    PreambleShifts(boundary, p, rest, log, pre);
    var body, n, k := Body(p, Delimiter(boundary), rest), |p.content|, |pre|;
    var told := log + HeaderEvents(p.headers);
    assert (told + [Data(p.content)])[|told|] == Data(p.content);
    if k + n <= |body| {
      var data := body[k..k + n];
      assert (told + [Data(data)])[|told|] == Data(data);
      assert data == body[k..][..n];
      assert data == p.content <==> p.content <= body[k..];
    }
  }

  /**
    * A whole body behind a preamble: it is delivered, every part with its headers and its content and
    * nothing else, exactly when the first content meets that condition; the other parts do not matter.
    */
  lemma PreambleDelivered(boundary: string, parts: seq<Part>, epilogue: string, log: seq<Event>, pre: string)
    requires OneLine(boundary) && parts != [] && forall i :: 0 <= i < |parts| ==> WellFormed(boundary, parts[i])
    requires Find(pre + Render(boundary, parts, epilogue), Delimiter(boundary)) == |pre|
    ensures
      var content := parts[0].content;
      var body := content + CRLF + Render(boundary, parts[1..], epilogue);
      Upload(ACCEPT, boundary, State(pre + Render(boundary, parts, epilogue), log, false)).1.log == log + Events(parts)
      <==> |pre| <= |content| + 2 && |pre| <= |body| && content <= body[|pre|..]
  {
    hide NextFile, Upload, WellFormed, PartText, Delimiter, Find, HeaderEvents, Render, Events;
    var p, more := parts[0], parts[1..];
    var rest := AfterDelimiter(boundary, more, epilogue);
    var start := State(pre + Render(boundary, parts, epilogue), log, false);
    PartsSplit(boundary, parts, epilogue, rest, pre);
    assert WellFormed(boundary, p);
    PreambleExact(boundary, p, rest, log, pre);
    FirstPartDecides(boundary, parts, epilogue, rest, log, pre);
  }

  /** The first part in front of the others. */
  lemma PartsSplit(boundary: string, parts: seq<Part>, epilogue: string, rest: string, pre: string)
    requires parts != [] && Render(boundary, parts[1..], epilogue) == Delimiter(boundary) + rest
    ensures pre + Render(boundary, parts, epilogue) == PartInput(pre, Delimiter(boundary), parts[0], rest)
    ensures parts[0].content + CRLF + Render(boundary, parts[1..], epilogue) ==
            Body(parts[0], Delimiter(boundary), rest)
    ensures Events(parts) == HeaderEvents(parts[0].headers) + [Data(parts[0].content)] + Events(parts[1..])
  {
    hide Delimiter, PartText, HeaderEvents;
  }

  /** The body is delivered if the first part is. */
  lemma FirstPartDecides(boundary: string, parts: seq<Part>, epilogue: string, rest: string, log: seq<Event>,
                         pre: string)
    requires OneLine(boundary) && parts != [] && forall i :: 0 <= i < |parts| ==> WellFormed(boundary, parts[i])
    requires |rest| >= 2 && (rest[..2] == "--" <==> parts[1..] == [])
    requires Render(boundary, parts[1..], epilogue) == Delimiter(boundary) + rest
    requires Find(PartInput(pre, Delimiter(boundary), parts[0], rest), Delimiter(boundary)) == |pre|
    ensures
      var start := State(PartInput(pre, Delimiter(boundary), parts[0], rest), log, false);
      Upload(ACCEPT, boundary, start).1.log == log + Events(parts) <==>
      NextFile(ACCEPT, boundary, start).1.log == log + HeaderEvents(parts[0].headers) + [Data(parts[0].content)]
  {
    hide NextFile, WellFormed, PartInput, Delimiter, Find, HeaderEvents, Feed, Render, Events;
    var p, more := parts[0], parts[1..];
    var told := log + HeaderEvents(p.headers);
    var start := State(PartInput(pre, Delimiter(boundary), p, rest), log, false);
    var r := NextFile(ACCEPT, boundary, start);
    PartsSplit(boundary, parts, epilogue, rest, pre);
    assert WellFormed(boundary, p);
    PreambleShifts(boundary, p, rest, log, pre);
    LaterLog(boundary, start);
    assert log + Events(parts) == told + [Data(p.content)] + Events(more);
    if r.1.log == told + [Data(p.content)] {
      if more == [] {
        assert Events(more) == [] by { NoEvents(); }
      } else {
        assert forall i :: 0 <= i < |more| ==> more[i] == parts[i + 1];
        UploadOfRender(ACCEPT, boundary, more, epilogue, r.1.log);
        FeedAccept(r.1.log, Events(more));
      }
    } else {
      AnotherLog(told, r.1.log, Data(p.content), Events(more), Upload(ACCEPT, boundary, start).1.log);
    }
  }

  lemma NoEvents()
    ensures Events([]) == []
  {
  }

  /** What is told in place of an event cannot be made up for later. */
  lemma AnotherLog(told: seq<Event>, log: seq<Event>, event: Event, more: seq<Event>, final: seq<Event>)
    requires log <= final && log != told + [event]
    requires (log == told && final == log) || (|log| == |told| + 1 && told <= log)
    ensures final != told + [event] + more
  {
    assert (told + [event] + more)[|told|] == event;
    assert |log| == |told| + 1 ==> log == told + [log[|told|]];
  }

  /** With a content free of CR and no shorter than the preamble, only an empty preamble is harmless. */
  lemma PreambleHarmless(boundary: string, p: Part, rest: string, log: seq<Event>, pre: string)
    requires OneLine(boundary) && |rest| >= 2 && WellFormed(boundary, p)
    requires Find(PartInput(pre, Delimiter(boundary), p, rest), Delimiter(boundary)) == |pre|
    requires CR !in p.content && |pre| <= |p.content|
    ensures
      var d := Delimiter(boundary);
      NextFile(ACCEPT, boundary, State(PartInput(pre, d, p, rest), log, false)).1.log
        == log + HeaderEvents(p.headers) + [Data(p.content)]
      <==> pre == ""
  {
    hide WellFormed, HeaderEvents, Delimiter, NextFile, Find, PartInput;
    PreambleExact(boundary, p, rest, log, pre);
    var body, n, k := Body(p, Delimiter(boundary), rest), |p.content|, |pre|;
    if pre == "" {
      assert p.content <= body[0..];
    } else {
      assert body[k..][n - k] == body[n] == CR;
      assert p.content[n - k] in p.content;
    }
  }

  const HELLO := Part([Field("a", 1, "b")], "hello!")

  /** A body that the RFC allows, a line of preamble before its only part, from which `lo!`, CR, LF, `-` is saved. */
  lemma PreambleSpoils()
    ensures
      WellFormed("b", HELLO) &&
      var body := "x" + CRLF + Render("b", [HELLO], "");
      Upload(ACCEPT, "b", State(body, [], false)).1.log == [Header("a", "b"), Data("lo!" + CRLF + "-")]
  {
    hide NextFile, Occurs;
    var p, pre, d := HELLO, "x" + CRLF, Delimiter("b");
    assert d == "--b" && pre == ['x', CR, LF];
    HelloFacts();
    assert Render("b", [p], "") == d + PartText(p) + (d + "--") by {
      assert d + "--" + "" == d + "--";
    }
    var body := pre + Render("b", [p], "");
    assert body == PartInput(pre, d, p, "--");
    assert Find(body, d) == 3 by {
      assert body[3..6] == d && OccursAt(body, d, 3);
      assert body[0] == 'x' && body[1] == CR && body[2] == LF;
      forall i: nat | i < 3 ensures !OccursAt(body, d, i) {
        assert body[i..i + 3][0] == body[i] != '-';
      }
      FindUnique(body, d, 3);
    }
    PreambleShifts("b", p, "--", [], pre);
    assert Body(p, d, "--")[3..9] == "lo!" + CRLF + "-";
    assert HeaderEvents(p.headers[1..]) == [];
    assert HeaderEvents(p.headers) == [Header("a", "b")];
    assert "--"[..2] == "--";
  }

  lemma HelloFacts()
    ensures WellFormed("b", HELLO) && OneLine("b")
  {
    forall i: nat ensures !OccursAt("hello!", "--b", i) {
      if i + 3 <= 6 {
        assert "hello!"[i..i + 3][0] == "hello!"[i];
      }
    }
    assert Delimiter("b") == "--b" && WellFormedHeader(Field("a", 1, "b"));
  }

  // ---- every body ------------------------------------------------------------------------

  /** No proper beginning of the log, past where it started, made the module object. */
  ghost predicate Obedient(m: UploadModule, before: seq<Event>, after: seq<Event>) {
    before <= after && forall k :: |before| < k < |after| ==> !m(after[..k])
  }

  /** A step of the parser: the module hears nothing after its first objection, and an error is one. */
  ghost predicate Heeds(m: UploadModule, s: State, r: State) {
    && Obedient(m, s.log, r.log)
    && (r.error <==> |s.log| < |r.log| && m(r.log))
  }

  lemma {:induction false} ReadHeadersHeeds(m: UploadModule, s: State)
    requires !s.error && ReadHeaders(m, s).Some?
    ensures Heeds(m, s, ReadHeaders(m, s).value)
    decreases |s.input|
  {
    hide ReadLine, KeyValue, Visible;
    var ln := ReadLine(s.input);
    if ln.Some? && Visible(ln.value.0) != "" {
      var kv := KeyValue(Visible(ln.value.0));
      var log := s.log + [Header(kv.value.0, kv.value.1)];
      if !m(log) {
        var next := State(ln.value.1, log, s.error);
        ReadHeadersHeeds(m, next);
        var after := ReadHeaders(m, next).value.log;
        assert after[..|log|] == log;
        assert s.log <= log <= after;
      }
    }
  }

  /** One part, whatever the bytes. */
  lemma NextFileHeeds(m: UploadModule, boundary: string, s: State)
    requires !s.error
    ensures Heeds(m, s, NextFile(m, boundary, s).1)
  {
    hide ReadHeaders, Find, Occurs, OccursAt, Delimiter;
    var d := Delimiter(boundary);
    var start := Find(s.input, d);
    if start != -1 {
      var after := s.(input := Drain(s.input, |d| + start + 2));
      if ReadHeaders(m, after).Some? {
        ReadHeadersHeeds(m, after);
        var h := ReadHeaders(m, after).value;
        var r := NextFile(m, boundary, s).1;
        if !h.error && |r.log| > |h.log| {
          assert forall k :: 0 <= k <= |h.log| ==> r.log[..k] == h.log[..k];
          assert h.log[..|h.log|] == h.log;
        }
      }
    }
  }

  /** Over a whole upload of any bytes, no handler is called after the first error. */
  lemma {:induction false} UploadHeeds(m: UploadModule, boundary: string, s: State)
    requires !s.error
    ensures Heeds(m, s, Upload(m, boundary, s).1)
    decreases |s.input|
  {
    hide NextFile, Delimiter;
    NextFileHeeds(m, boundary, s);
    var r := NextFile(m, boundary, s);
    if r.0.More? {
      ErrorEndsFile(m, boundary, s);
      UploadHeeds(m, boundary, r.1);
      var after := Upload(m, boundary, r.1).1.log;
      assert forall k :: 0 <= k <= |r.1.log| ==> after[..k] == r.1.log[..k];
      assert r.1.log[..|r.1.log|] == r.1.log;
      assert |after| == |r.1.log| ==> after == r.1.log;
      assert s.log <= r.1.log <= after;
    }
  }

  /** How many parts the loop goes through. */
  function Rounds(m: UploadModule, boundary: string, s: State): nat
    decreases |s.input|
  {
    var r := NextFile(m, boundary, s);
    if r.0.More? then 1 + Rounds(m, boundary, r.1) else 1
  }

  /** Every round that asks for another consumes a delimiter, so the body bounds the rounds. */
  lemma {:induction false} RoundsBounded(m: UploadModule, boundary: string, s: State)
    ensures (Rounds(m, boundary, s) - 1) * |Delimiter(boundary)| <= |s.input|
    decreases |s.input|
  {
    hide NextFile, Delimiter;
    var r := NextFile(m, boundary, s);
    if r.0.More? {
      RoundsBounded(m, boundary, r.1);
      var n, d := Rounds(m, boundary, r.1), |Delimiter(boundary)|;
      assert n * d == (n - 1) * d + d;
    }
  }

  // ---- how an upload ends ----------------------------------------------------------------

  /** `b` is the end of `a`. */
  ghost predicate EndOf(b: string, a: string) {
    |b| <= |a| && a[|a| - |b|..] == b
  }

  lemma EndOfTransitive(c: string, b: string, a: string)
    requires EndOf(c, b) && EndOf(b, a)
    ensures EndOf(c, a)
  {
    assert a[|a| - |c|..] == b[|b| - |c|..];
  }

  lemma EndOccurs(b: string, a: string, pat: string)
    requires EndOf(b, a) && pat <= b
    ensures Occurs(a, pat)
  {
    var i: nat := |a| - |b|;
    assert a[i..][..|pat|] == pat;
    assert a[i..i + |pat|] == pat;
    assert OccursAt(a, pat, i);
  }

  lemma {:induction false} ReadHeadersEnd(m: UploadModule, s: State)
    requires ReadHeaders(m, s).Some?
    ensures EndOf(ReadHeaders(m, s).value.input, s.input)
    decreases |s.input|
  {
    hide KeyValue, Visible;
    var ln := ReadLine(s.input);
    if ln.Some? && Visible(ln.value.0) != "" {
      var rest := ln.value.1;
      var kv := KeyValue(Visible(ln.value.0));
      var log := s.log + [Header(kv.value.0, kv.value.1)];
      assert EndOf(rest, s.input);
      if !m(log) {
        ReadHeadersEnd(m, State(rest, log, s.error));
        EndOfTransitive(ReadHeaders(m, s).value.input, rest, s.input);
      }
    }
  }

  /** What a part leaves is the end of what there was; it is the last only at a closing delimiter. */
  lemma NextFileEnd(m: UploadModule, boundary: string, s: State)
    ensures
      var r := NextFile(m, boundary, s);
      && EndOf(r.1.input, s.input)
      && (r.0.Last? ==> Delimiter(boundary) + "--" <= r.1.input)
      && (r.0.More? ==> Delimiter(boundary) <= r.1.input && !(Delimiter(boundary) + "--" <= r.1.input))
      && (r.1.error && !s.error ==> r.0.BadMessage?)
      && (!Occurs(s.input, Delimiter(boundary)) ==> r == (BadMessage, s))
  {
    hide ReadHeaders, Find, Occurs, OccursAt, Delimiter, HandData, EndOf, Drain;
    var d := Delimiter(boundary);
    var start := Find(s.input, d);
    if start == -1 {
      EndOfSelf(s.input);
    } else {
      EndOfSelf(s.input);
      var after := s.(input := Drain(s.input, |d| + start + 2));
      DrainEnd(s.input, |d| + start + 2);
      var h := ReadHeaders(m, after);
      if h.Some? {
        ReadHeadersEnd(m, after);
        EndOfTransitive(h.value.input, after.input, s.input);
        HeadersError(m, after);
        var next := Find(h.value.input, d);
        if next != -1 {
          HandDataEnd(m, d, h.value, start, next);
          EndOfTransitive(HandData(m, d, h.value, start, next).1.input, h.value.input, s.input);
        }
      }
    }
  }

  lemma EndOfSelf(a: string)
    ensures EndOf(a, a)
  {
  }

  lemma DrainEnd(a: string, n: nat)
    ensures EndOf(Drain(a, n), a)
  {
  }

  lemma HandDataEnd(m: UploadModule, d: string, s: State, start: nat, next: nat)
    requires OccursAt(s.input, d, next)
    ensures
      var r := HandData(m, d, s, start, next);
      && EndOf(r.1.input, s.input)
      && (r.0.Last? ==> d + "--" <= r.1.input) && (r.0.More? ==> d <= r.1.input && !(d + "--" <= r.1.input))
      && (r.1.error && !s.error ==> r.0.BadMessage?)
  {
    assert s.input[next..][..|d|] == d;
  }

  lemma {:induction false} HeadersError(m: UploadModule, s: State)
    requires ReadHeaders(m, s).Some?
    ensures s.error ==> ReadHeaders(m, s).value.error
    decreases |s.input|
  {
    hide ReadLine, KeyValue, Visible;
    var ln := ReadLine(s.input);
    if ln.Some? && Visible(ln.value.0) != "" {
      var kv := KeyValue(Visible(ln.value.0));
      var log := s.log + [Header(kv.value.0, kv.value.1)];
      if !m(log) {
        HeadersError(m, State(ln.value.1, log, s.error));
      }
    }
  }

  /**
    * On any bytes: an upload never ends with more to come; it ends well only at a closing delimiter, which
    * is what is left then; and it ends with an error at once if the delimiter is nowhere.
    */
  lemma {:induction false} UploadEnd(m: UploadModule, boundary: string, s: State)
    ensures
      var r := Upload(m, boundary, s);
      && !r.0.More? && EndOf(r.1.input, s.input)
      && (r.0.Last? ==> Delimiter(boundary) + "--" <= r.1.input)
      && (!Occurs(s.input, Delimiter(boundary)) ==> r == (BadMessage, s))
    decreases |s.input|
  {
    hide NextFile, Delimiter, Occurs, EndOf;
    NextFileEnd(m, boundary, s);
    var r := NextFile(m, boundary, s);
    if r.0.More? {
      UploadEnd(m, boundary, r.1);
      EndOfTransitive(Upload(m, boundary, r.1).1.input, r.1.input, s.input);
    }
  }

  /** So no upload without a closing delimiter ends well, whatever its parts. */
  lemma NoClosingDelimiter(m: UploadModule, boundary: string, s: State)
    requires !Occurs(s.input, Delimiter(boundary) + "--")
    ensures Upload(m, boundary, s).0 == BadMessage || Upload(m, boundary, s).0 == Abort
  {
    hide Upload, Delimiter, Occurs;
    UploadEnd(m, boundary, s);
    var r := Upload(m, boundary, s);
    if r.0.Last? {
      EndOccurs(r.1.input, s.input, Delimiter(boundary) + "--");
    }
  }

  /** An objection of the module is an error of the upload. */
  lemma {:induction false} ObjectionIsError(m: UploadModule, boundary: string, s: State)
    requires !s.error
    ensures Upload(m, boundary, s).1.error ==> Upload(m, boundary, s).0.BadMessage?
    decreases |s.input|
  {
    hide NextFile;
    NextFileEnd(m, boundary, s);
    ErrorEndsFile(m, boundary, s);
    if NextFile(m, boundary, s).0.More? {
      ObjectionIsError(m, boundary, NextFile(m, boundary, s).1);
    }
  }

  /** A line may also end in LF alone. */
  lemma ReadLineBare(line: string, rest: string)
    requires LF !in line && (line == "" || line[|line| - 1] != CR)
    ensures ReadLine(line + [LF] + rest) == Some((line, rest))
  {
    var s := line + [LF] + rest;
    assert s[|line|] == LF && s[..|line|] == line;
    IndexOfUnique(s, LF, |line|);
    assert |line| > 0 ==> s[|line| - 1] == line[|line| - 1];
    assert s[|line| + 1..] == rest;
  }

  /** A header line without a colon has no value: the code goes on with a null pointer. */
  lemma NoColonAborts(m: UploadModule, boundary: string, line: string, rest: string, log: seq<Event>)
    requires line != "" && ':' !in line && LF !in line && NUL !in line
    ensures NextFile(m, boundary, State(Delimiter(boundary) + CRLF + (line + CRLF + rest), log, false)).0.Abort?
  {
    hide ReadLine, Delimiter, Find;
    var d := Delimiter(boundary);
    var s := State(d + CRLF + (line + CRLF + rest), log, false);
    assert s.input == d + (CRLF + (line + CRLF + rest));
    FindAtStart(d, CRLF + (line + CRLF + rest));
    assert Drain(s.input, |d| + 0 + 2) == line + CRLF + rest;
    ReadLineOf(line, rest);
    assert IndexOf(line, NUL) == |line| && line[..|line|] == line;
    assert line[0] in line;
    SpanInIs(line, {':'}, 0);
    SpanNotInIs(line, {':'}, |line|);
    assert line[0..] == line;
    assert KeyValue(line) == None;
  }

  /** A body that ends with a delimiter, or one byte after it: the module is told the part, then the code reads on. */
  lemma EndAfterDelimiterAborts(boundary: string, p: Part, rest: string, log: seq<Event>)
    requires OneLine(boundary) && WellFormed(boundary, p) && |rest| < 2
    ensures
      var d := Delimiter(boundary);
      var r := NextFile(ACCEPT, boundary, State(PartInput("", d, p, rest), log, false));
      r.0.Abort? && r.1.log == log + HeaderEvents(p.headers) + [Data(p.content)]
  {
    hide NextFile, Occurs, WellFormedHeader, PartText, HeaderEvents, Delimiter, Find;
    var d := Delimiter(boundary);
    assert PartInput("", d, p, rest) == d + (PartText(p) + (d + rest));
    FindAtStart(d, PartText(p) + (d + rest));
    AcceptedPart(boundary, p, rest, log, "");
    DelimiterOneLine(boundary);
    FindDelimiter(p.content, d, rest);
    assert Body(p, d, rest)[0..|p.content|] == p.content;
  }

  /** Header lines right before the next delimiter leave no line end to take off the data. */
  lemma NoLineEndAborts(m: UploadModule, boundary: string, rest: string, log: seq<Event>)
    ensures
      var d := Delimiter(boundary);
      NextFile(m, boundary, State(d + CRLF + CRLF + d + rest, log, false)) == (Abort, State(d + rest, log, false))
  {
    hide ReadLine, Delimiter, Find;
    var d := Delimiter(boundary);
    var s := State(d + CRLF + CRLF + d + rest, log, false);
    assert s.input == d + (CRLF + CRLF + d + rest);
    FindAtStart(d, CRLF + CRLF + d + rest);
    assert Drain(s.input, |d| + 0 + 2) == "" + CRLF + (d + rest);
    ReadLineOf("", d + rest);
    VisibleNothing();
    FindAtStart(d, rest);
  }

  /** Header lines that the body breaks off in are left for the data, where no delimiter is found. */
  lemma BrokenOffHeaders(m: UploadModule, boundary: string, tail: string, log: seq<Event>)
    requires LF !in tail && !Occurs(tail, Delimiter(boundary))
    ensures
      NextFile(m, boundary, State(Delimiter(boundary) + CRLF + tail, log, false)) ==
        (BadMessage, State(tail, log, false))
  {
    hide Delimiter, Find, Occurs;
    var d := Delimiter(boundary);
    var s := State(d + CRLF + tail, log, false);
    assert s.input == d + (CRLF + tail);
    FindAtStart(d, CRLF + tail);
    assert Drain(s.input, |d| + 0 + 2) == tail;
    assert IndexOf(tail, LF) == |tail|;
  }

  /** A NUL byte in a header line hides the rest of it; one in front makes it the end of the headers. */
  lemma LineCutAtNul(m: UploadModule, h: Field, hidden: string, rest: string, log: seq<Event>)
    requires WellFormedHeader(h) && LF !in hidden
    ensures
      var s := State(HeaderLine(h) + [NUL] + hidden + CRLF + rest, log, false);
      var told := log + [Header(h.key, h.value)];
      ReadHeaders(m, s) == if m(told) then Some(State(rest, told, true)) else ReadHeaders(m, State(rest, told, false))
    ensures ReadHeaders(m, State([NUL] + hidden + CRLF + rest, log, false)) == Some(State(rest, log, false))
  {
    hide WellFormedHeader, KeyValue, ReadLine, HeaderLine;
    var seen := HeaderLine(h);
    var line := seen + [NUL] + hidden;
    KeyValueOf(h);
    assert LF !in line;
    ReadLineOf(line, rest);
    CutAtNul(seen, hidden);
    assert seen + [NUL] + hidden + CRLF + rest == line + CRLF + rest;
    CutAtNul("", hidden);
    assert "" + [NUL] + hidden == [NUL] + hidden;
    VisibleNothing();
    ReadLineOf([NUL] + hidden, rest);
  }

  lemma CutAtNul(seen: string, hidden: string)
    requires Visible(seen) == seen
    ensures Visible(seen + [NUL] + hidden) == seen
  {
    var line := seen + [NUL] + hidden;
    assert |seen[..IndexOf(seen, NUL)]| == |seen|;
    assert line[|seen|] == NUL && line[..|seen|] == seen;
    IndexOfUnique(line, NUL, |seen|);
  }
}
