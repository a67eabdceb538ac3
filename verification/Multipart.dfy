/**
  * The upload parser: it cuts a multipart/form-data body at the boundary, hands the header lines and
  * the data of each part to an upload module, and stops at the closing delimiter. The input buffer is
  * a flat byte string; an upload module is what it was told so far and whether it has had enough.
  */
module Multipart {
  import opened Text
  import opened Wrappers

  const CR: char := '\r'
  const LF: char := '\n'
  const CRLF: string := [CR, LF]

  /** What a module is told. */
  datatype Event = Header(key: string, value: string) | Data(bytes: string)

  /** Whether a module reports an error once it has been told these events. */
  type UploadModule = seq<Event> -> bool

  /**
    * How a step ends: with more parts to come, at the closing delimiter, with -EBADMSG, or in a read
    * the C code makes through a null pointer or past the data it has.
    */
  datatype Outcome = More | Last | BadMessage | Abort

  datatype State = State(input: string, log: seq<Event>, error: bool)

  // ---- libevent and the C library --------------------------------------------------------

  /** evbuffer_readln with EVBUFFER_EOL_CRLF: a line ends at LF, and one CR before it goes too. */
  function ReadLine(input: string): (r: Option<(string, string)>)
    ensures r.Some? ==> |r.value.1| < |input| && |r.value.0| + |r.value.1| < |input|
  {
    var i := IndexOf(input, LF);
    if i == |input| then None
    else
      var line := if i > 0 && input[i - 1] == CR then input[..i - 1] else input[..i];
      Some((line, input[i + 1..]))
  }

  function Drain(input: string, n: nat): string {
    if n <= |input| then input[n..] else ""
  }

  /** How many characters from the start are, or are not, among the delimiters of strtok. */
  function SpanIn(s: string, delimiters: set<char>): (n: nat)
    ensures n <= |s|
    ensures forall i :: 0 <= i < n ==> s[i] in delimiters
    ensures n < |s| ==> s[n] !in delimiters
  {
    if s != "" && s[0] in delimiters then 1 + SpanIn(s[1..], delimiters) else 0
  }

  function SpanNotIn(s: string, delimiters: set<char>): (n: nat)
    ensures n <= |s|
    ensures forall i :: 0 <= i < n ==> s[i] !in delimiters
    ensures n < |s| ==> s[n] in delimiters
  {
    if s != "" && s[0] !in delimiters then 1 + SpanNotIn(s[1..], delimiters) else 0
  }

  /** strtok_r: the next token and what it leaves for the next call, or None for a null pointer. */
  function Token(s: string, delimiters: set<char>): Option<(string, string)> {
    var t := s[SpanIn(s, delimiters)..];
    var n := SpanNotIn(t, delimiters);
    if t == "" then None else Some((t[..n], if n < |t| then t[n + 1..] else ""))
  }

  /** A header line as handle_file_header_line takes it apart; None where it meets a null value. */
  function KeyValue(line: string): Option<(string, string)> {
    var key := Token(line, {':'});
    if key.None? then None
    else
      var value := Token(key.value.1, {CR, LF});
      if value.None? then None
      else Some((key.value.0, value.value.0[SpanIn(value.value.0, {' '})..]))
  }

  /** The part of a line a C program sees. */
  function Visible(line: string): string {
    line[..IndexOf(line, NUL)]
  }

  // ---- the parser as a function ----------------------------------------------------------

  /** The header lines of a part; None where a line has no value. */
  function ReadHeaders(m: UploadModule, s: State): (r: Option<State>)
    ensures r.Some? ==> |r.value.input| <= |s.input| && |s.log| <= |r.value.log|
    decreases |s.input|
  {
    var ln := ReadLine(s.input);
    if ln.None? then Some(s)
    else
      var line, rest := Visible(ln.value.0), ln.value.1;
      if line == "" then Some(s.(input := rest))
      else
        var kv := KeyValue(line);
        if kv.None? then None
        else
          var log := s.log + [Header(kv.value.0, kv.value.1)];
          if m(log) then Some(State(rest, log, true)) else ReadHeaders(m, State(rest, log, s.error))
  }

  function Delimiter(boundary: string): (d: string)
    ensures |d| >= 2
  {
    "--" + boundary
  }

  /** The data from position `start` of the buffer up to the delimiter at `next`. */
  function HandData(m: UploadModule, d: string, s: State, start: nat, next: nat): (Outcome, State)
    requires OccursAt(s.input, d, next)
  {
    var length := next - 2;
    if length < 0 || start + length > |s.input| then (Abort, s)
    else
      var log := s.log + [Data(s.input[start..start + length])];
      if m(log) then (BadMessage, State(s.input, log, true))
      else
        var rest := State(s.input[next..], log, s.error);
        if |rest.input| < |d| + 2 then (Abort, rest)
        else if d + "--" <= rest.input then (Last, rest)
        else (More, rest)
  }

  /** multipart_handle_next_file */
  function NextFile(m: UploadModule, boundary: string, s: State): (r: (Outcome, State))
    ensures r.0.More? ==> |r.1.input| + |Delimiter(boundary)| <= |s.input|
  {
    var d := Delimiter(boundary);
    var start := Find(s.input, d);
    if start == -1 then (BadMessage, s)
    else
      var h := ReadHeaders(m, s.(input := Drain(s.input, |d| + start + 2)));
      if h.None? then (Abort, s)
      else if h.value.error then (BadMessage, h.value)
      else
        var next := Find(h.value.input, d);
        if next == -1 || next < start then (BadMessage, h.value)
        else HandData(m, d, h.value, start, next)
  }

  /** The loop of upload: parts until one ends otherwise than with more to come. */
  function Upload(m: UploadModule, boundary: string, s: State): (Outcome, State)
    decreases |s.input|
  {
    var r := NextFile(m, boundary, s);
    if r.0.More? then Upload(m, boundary, r.1) else r
  }

  // ---- the parser as the code runs it ----------------------------------------------------

  class Parser {
    const mod: UploadModule
    const boundary: string
    var input: string
    var log: seq<Event>
    var uploadError: bool

    ghost function Abstract(): State
      reads this
    {
      State(input, log, uploadError)
    }

    constructor (mod: UploadModule, boundary: string, input: string)
      ensures Abstract() == State(input, [], false)
      ensures this.mod == mod && this.boundary == boundary
    {
      this.mod, this.boundary, this.input := mod, boundary, input;
      log, uploadError := [], false;
    }

    method Tell(event: Event)
      modifies this`log, this`uploadError
      ensures log == old(log) + [event]
      ensures uploadError == (old(uploadError) || mod(log))
    {
      log := log + [event];
      if mod(log) {
        uploadError := true;
      }
    }

    /** handle_file_header_line: whether to go on, to stop, or to fail on a null value. */
    method HandleHeaderLine(line: string) returns (result: int, aborted: bool)
      requires !uploadError
      modifies this`log, this`uploadError
      ensures line == "" ==> result == 1 && !aborted && Abstract() == old(Abstract())
      ensures line != "" ==> aborted == KeyValue(line).None?
      ensures aborted ==> Abstract() == old(Abstract())
      ensures line != "" && !aborted ==>
                var kv := KeyValue(line).value;
                && log == old(log) + [Header(kv.0, kv.1)]
                && uploadError == mod(log)
                && result == if uploadError then 1 else 0
    {
      aborted := false;
      if |line| == 0 {
        return 1, false;
      }
      var kv := KeyValue(line);
      if kv.None? {
        return 0, true;
      }
      Tell(Header(kv.value.0, kv.value.1));
      result := if uploadError then 1 else 0;
    }

    /** The loop over the header lines of a part. */
    method HandleHeaderLines() returns (aborted: bool)
      requires !uploadError
      modifies this`input, this`log, this`uploadError
      ensures aborted == ReadHeaders(mod, old(Abstract())).None?
      ensures !aborted ==> Some(Abstract()) == ReadHeaders(mod, old(Abstract()))
    {
      hide ReadLine, KeyValue, Visible;
      ghost var goal := ReadHeaders(mod, Abstract());
      while true
        invariant !uploadError && ReadHeaders(mod, Abstract()) == goal
        decreases |input|
      {
        var ln := ReadLine(input);
        if ln.None? {
          return false;
        }
        input := ln.value.1;
        var r;
        r, aborted := HandleHeaderLine(Visible(ln.value.0));
        if aborted {
          return;
        }
        if r != 0 {
          return;
        }
      }
    }

    /** From the data of a part to the decision whether more parts follow. */
    method HandleData(d: string, start: nat, next: nat) returns (result: Outcome)
      requires !uploadError && OccursAt(input, d, next)
      modifies this`input, this`log, this`uploadError
      ensures (result, Abstract()) == HandData(mod, d, old(Abstract()), start, next)
    {
      var length := next - 2;
      if length < 0 || start + length > |input| {
        return Abort;
      }
      Tell(Data(input[start..start + length]));
      if uploadError {
        return BadMessage;
      }
      input := input[next..];
      if |input| < |d| + 2 {
        return Abort;
      }
      result := if d + "--" <= input then Last else More;
    }

    /** multipart_handle_next_file */
    method HandleNextFile() returns (result: Outcome)
      requires !uploadError
      modifies this`input, this`log, this`uploadError
      ensures result == NextFile(mod, boundary, old(Abstract())).0
      ensures result != Abort ==> Abstract() == NextFile(mod, boundary, old(Abstract())).1
    {
      hide ReadHeaders, Occurs, HandData, Delimiter;
      var d := Delimiter(boundary);
      var start := Find(input, d);
      if start == -1 {
        return BadMessage;
      }
      input := Drain(input, |d| + start + 2);
      var aborted := HandleHeaderLines();
      if aborted {
        return Abort;
      }
      if uploadError {
        return BadMessage;
      }
      var next := Find(input, d);
      if next == -1 || next < start {
        return BadMessage;
      }
      result := HandleData(d, start, next);
    }

    /** upload, after the boundary is known */
    method HandleUpload() returns (result: Outcome)
      requires !uploadError
      modifies this`input, this`log, this`uploadError
      ensures result == Upload(mod, boundary, old(Abstract())).0 && result != More
      ensures result != Abort ==> Abstract() == Upload(mod, boundary, old(Abstract())).1
    {
      hide NextFile;
      ghost var goal := Upload(mod, boundary, Abstract());
      result := More;
      while result == More
        invariant result == More ==> !uploadError && Upload(mod, boundary, Abstract()) == goal
        invariant result != More ==> result == goal.0 && (result != Abort ==> Abstract() == goal.1)
        decreases result == More, |input|
      {
        ghost var s := Abstract();
        ErrorEndsFile(mod, boundary, s);
        result := HandleNextFile();
      }
    }
  }

  /** A part that ends with more to come leaves no error behind. */
  lemma ErrorEndsFile(m: UploadModule, boundary: string, s: State)
    requires !s.error
    ensures var r := NextFile(m, boundary, s); r.0.More? ==> !r.1.error
  {
    hide ReadHeaders, Find, OccursAt, Delimiter;
  }
}
