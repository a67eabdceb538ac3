/**
  * The upload queue of the drop zone: files wait, go out in requests of one or of several, at most so
  * many at a time, and end. Files and requests are known by number; what the source keeps as fields of
  * a file object is kept here in maps by file.
  */
module UploadQueue {

  datatype Status = Added | Queued | Uploading | Canceled | Failed | Success {
    predicate Terminal() {
      Canceled? || Failed? || Success?
    }
  }

  datatype Options = Options(parallel: nat, multiple: bool, autoProcess: bool, autoQueue: bool)

  /**
    * `files` is the list on the page; `status`, `accepted` and `xhr` the fields of every file ever added;
    * `requests` the files each request was made for; `open` the requests whose events may still come;
    * `timers` the calls of processQueue that setTimeout still owes.
    */
  datatype State = State(
    files: seq<nat>,
    status: map<nat, Status>,
    accepted: set<nat>,
    xhr: map<nat, nat>,
    requests: map<nat, seq<nat>>,
    open: set<nat>,
    timers: nat)

  const EMPTY := State([], map[], {}, map[], map[], {}, 0)

  /** Several keys of a map set to one value. */
  function SetAll<V>(m: map<nat, V>, keys: seq<nat>, v: V): map<nat, V> {
    map k | k in m.Keys + (set x | x in keys) :: if k in keys then v else m[k]
  }

  lemma SetAllStep<V>(m: map<nat, V>, keys: seq<nat>, k: nat, v: V)
    ensures SetAll(m, [], v) == m
    ensures SetAll(m, keys + [k], v) == SetAll(m, keys, v)[k := v]
  {
    assert (set x | x in keys + [k]) == (set x | x in keys) + {k};
  }

  /** getFilesWithStatus, in list order. */
  function With(files: seq<nat>, status: map<nat, Status>, v: Status): seq<nat> {
    if files == [] then []
    else
      var more := With(files[1..], status, v);
      if files[0] in status && status[files[0]] == v then [files[0]] + more else more
  }

  lemma {:induction false} WithAppend(files: seq<nat>, f: nat, status: map<nat, Status>, v: Status)
    ensures With(files + [f], status, v) ==
            With(files, status, v) + if f in status && status[f] == v then [f] else []
  {
    if files == [] {
      assert (files + [f])[1..] == [];
    } else {
      assert (files + [f])[1..] == files[1..] + [f];
      WithAppend(files[1..], f, status, v);
    }
  }

  /** _getFilesWithXhr, in list order. */
  function WithXhr(files: seq<nat>, xhr: map<nat, nat>, x: nat): seq<nat> {
    if files == [] then []
    else
      var more := WithXhr(files[1..], xhr, x);
      if files[0] in xhr && xhr[files[0]] == x then [files[0]] + more else more
  }

  function WithoutFile(files: seq<nat>, f: nat): seq<nat> {
    if files == [] then []
    else
      var more := WithoutFile(files[1..], f);
      if files[0] == f then more else [files[0]] + more
  }

  function NextXhr(s: State): nat {
    |s.requests|
  }

  // ---- the operations as functions -------------------------------------------------------

  /** processFiles and uploadFiles: one request for these files. */
  function Start(s: State, list: seq<nat>): State {
    var x := NextXhr(s);
    s.(status := SetAll(s.status, list, Uploading), xhr := SetAll(s.xhr, list, x),
       requests := s.requests[x := list], open := s.open + {x})
  }

  /** A request for each file. */
  function StartEach(s: State, list: seq<nat>): State
    decreases |list|
  {
    if list == [] then s else StartEach(Start(s, [list[0]]), list[1..])
  }

  function Slots(s: State, o: Options): nat {
    var n := |With(s.files, s.status, Uploading)|;
    if n >= o.parallel then 0 else o.parallel - n
  }

  /** The files processQueue starts: as many of the queued ones, from the front, as there are slots. */
  function Ready(s: State, o: Options): seq<nat> {
    var queued := With(s.files, s.status, Queued);
    if |queued| <= Slots(s, o) then queued else queued[..Slots(s, o)]
  }

  function Processed(s: State, o: Options): State {
    if Ready(s, o) == [] then s
    else if o.multiple then Start(s, Ready(s, o))
    else StartEach(s, Ready(s, o))
  }

  function MaybeProcess(s: State, o: Options): State {
    if o.autoProcess then Processed(s, o) else s
  }

  /** enqueueFile; None is the error it throws. */
  datatype Enqueued = Done(state: State) | Thrown

  function Enqueue(s: State, o: Options, f: nat): Enqueued {
    if f in s.status && s.status[f] == Added && f in s.accepted then
      Done(s.(status := s.status[f := Queued], timers := if o.autoProcess then s.timers + 1 else s.timers))
    else Thrown
  }

  /** _errorProcessing and _finished: these files end with `v`. */
  function End(s: State, o: Options, list: seq<nat>, v: Status): State {
    MaybeProcess(s.(status := SetAll(s.status, list, v)), o)
  }

  /** handleError calls _errorProcessing with all the files, once for each of them. */
  function EndRepeatedly(s: State, o: Options, list: seq<nat>, times: nat): State
    decreases times
  {
    if times == 0 then s else EndRepeatedly(End(s, o, list, Failed), o, list, times - 1)
  }

  /** addFile of a new file, with the verdict of a synchronous accept. */
  function Add(s: State, o: Options, f: nat, ok: bool): State {
    var s := s.(files := s.files + [f], status := s.status[f := Added]);
    if !ok then End(s, o, [f], Failed)
    else
      var s := s.(accepted := s.accepted + {f});
      if o.autoQueue && Enqueue(s, o, f).Done? then Enqueue(s, o, f).state else s
  }

  /** cancelUpload; the methods below ask that a file that is uploading has its request. */
  function Cancel(s: State, o: Options, f: nat): State {
    var status :=
      if f !in s.status then s.status
      else if s.status[f] == Uploading && f in s.xhr then SetAll(s.status, WithXhr(s.files, s.xhr, s.xhr[f]), Canceled)
      else if s.status[f] == Added || s.status[f] == Queued then s.status[f := Canceled]
      else s.status;
    MaybeProcess(s.(status := status), o)
  }

  /** removeFile */
  function Remove(s: State, o: Options, f: nat): State {
    var s := if f in s.status && s.status[f] == Uploading then Cancel(s, o, f) else s;
    s.(files := WithoutFile(s.files, f))
  }

  /** onload (`ok` for a 2xx reply) and onerror of a request. */
  function Reply(s: State, o: Options, x: nat, ok: bool): State
    requires x in s.requests && s.requests[x] != [] && s.requests[x][0] in s.status
  {
    var list := s.requests[x];
    var s := s.(open := s.open - {x});
    if s.status[list[0]] == Canceled then s
    else if ok then End(s, o, list, Success)
    else EndRepeatedly(s, o, list, |list|)
  }

  /** disable: cancelUpload for every file of the list it began with. */
  function CancelEach(s: State, o: Options, list: seq<nat>): State
    decreases |list|
  {
    if list == [] then s else CancelEach(Cancel(s, o, list[0]), o, list[1..])
  }

  // ---- the operations as the code runs them ----------------------------------------------

  class Dropzone {
    const options: Options
    var files: seq<nat>
    var status: map<nat, Status>
    var accepted: set<nat>
    var xhr: map<nat, nat>
    var requests: map<nat, seq<nat>>
    var open: set<nat>
    var timers: nat

    ghost function Now(): State
      reads this
    {
      State(files, status, accepted, xhr, requests, open, timers)
    }

    constructor (options: Options)
      ensures Now() == EMPTY && this.options == options
    {
      this.options := options;
      files, status, accepted, xhr, requests, open, timers := [], map[], {}, map[], map[], {}, 0;
    }

    method FilesWithStatus(v: Status) returns (results: seq<nat>)
      ensures results == With(files, status, v)
    {
      results := [];
      for i := 0 to |files|
        invariant results == With(files[..i], status, v)
      {
        assert files[..i + 1] == files[..i] + [files[i]];
        WithAppend(files[..i], files[i], status, v);
        if files[i] in status && status[files[i]] == v {
          results := results + [files[i]];
        }
      }
      assert files[..|files|] == files;
    }

    /** The loops that give every file of a list one status. */
    method SetStatus(list: seq<nat>, v: Status)
      modifies this`status
      ensures status == SetAll(old(status), list, v)
    {
      hide SetAll;
      var i := 0;
      SetAllStep(status, [], 0, v);
      while i < |list|
        invariant 0 <= i <= |list| && status == SetAll(old(status), list[..i], v)
      {
        assert list[..i + 1] == list[..i] + [list[i]];
        SetAllStep(old(status), list[..i], list[i], v);
        status := status[list[i] := v];
        i := i + 1;
      }
      assert list[..|list|] == list;
    }

    /** uploadFiles, as far as the queue goes: a new request that every file remembers. */
    method UploadFiles(list: seq<nat>)
      modifies this`xhr, this`requests, this`open
      ensures xhr == SetAll<nat>(old(xhr), list, |old(requests)|)
      ensures requests == old(requests)[|old(requests)| := list] && open == old(open) + {|old(requests)|}
    {
      hide SetAll;
      var x: nat := |requests|;
      var i := 0;
      SetAllStep(xhr, [], 0, x);
      while i < |list|
        invariant 0 <= i <= |list| && xhr == SetAll(old(xhr), list[..i], x)
        invariant requests == old(requests) && open == old(open)
      {
        assert list[..i + 1] == list[..i] + [list[i]];
        SetAllStep(old(xhr), list[..i], list[i], x);
        xhr := xhr[list[i] := x];
        i := i + 1;
      }
      assert list[..|list|] == list;
      requests, open := requests[x := list], open + {x};
    }

    method ProcessFiles(list: seq<nat>)
      modifies this`status, this`xhr, this`requests, this`open
      ensures Now() == Start(old(Now()), list)
    {
      SetStatus(list, Uploading);
      UploadFiles(list);
    }

    method ProcessQueue()
      modifies this`status, this`xhr, this`requests, this`open
      ensures Now() == Processed(old(Now()), options)
    {
      hide Start;
      var parallelUploads := options.parallel;
      var uploading := FilesWithStatus(Uploading);
      var i := |uploading|;
      ghost var ready := Ready(Now(), options);
      if i >= parallelUploads {
        return;
      }
      var queuedFiles := FilesWithStatus(Queued);
      if !(|queuedFiles| > 0) {
        return;
      }
      if options.multiple {
        var n := parallelUploads - i;
        ProcessFiles(if n < |queuedFiles| then queuedFiles[..n] else queuedFiles);
        return;
      }
      ghost var goal := StartEach(Now(), ready);
      while i < parallelUploads
        invariant i <= parallelUploads
        invariant StartEach(Now(), First(queuedFiles, parallelUploads - i)) == goal
      {
        if |queuedFiles| == 0 {
          return;
        }
        ghost var next := First(queuedFiles, parallelUploads - i);
        assert next[0] == queuedFiles[0] && next[1..] == First(queuedFiles[1..], parallelUploads - i - 1);
        ProcessFiles([queuedFiles[0]]);
        queuedFiles := queuedFiles[1..];
        i := i + 1;
      }
    }

    method AutoProcess()
      modifies this`status, this`xhr, this`requests, this`open
      ensures Now() == MaybeProcess(old(Now()), options)
    {
      if options.autoProcess {
        ProcessQueue();
      }
    }

    method EnqueueFile(f: nat) returns (thrown: bool)
      modifies this`status, this`timers
      ensures thrown == Enqueue(old(Now()), options, f).Thrown?
      ensures Now() == if thrown then old(Now()) else Enqueue(old(Now()), options, f).state
    {
      if f in status && status[f] == Added && f in accepted {
        status := status[f := Queued];
        if options.autoProcess {
          timers := timers + 1;
        }
        return false;
      }
      thrown := true;
    }

    method Finish(list: seq<nat>, v: Status)
      modifies this`status, this`xhr, this`requests, this`open
      ensures Now() == End(old(Now()), options, list, v)
    {
      SetStatus(list, v);
      AutoProcess();
    }

    method AddFile(f: nat, ok: bool)
      modifies this
      ensures Now() == Add(old(Now()), options, f, ok)
    {
      hide End;
      files := files + [f];
      status := status[f := Added];
      if !ok {
        Finish([f], Failed);
      } else {
        accepted := accepted + {f};
        if options.autoQueue {
          var thrown := EnqueueFile(f);
        }
      }
    }

    method CancelUpload(f: nat)
      requires f in status && (status[f] == Uploading ==> f in xhr)
      modifies this`status, this`xhr, this`requests, this`open
      ensures Now() == Cancel(old(Now()), options, f)
    {
      hide MaybeProcess;
      if status[f] == Uploading {
        SetStatus(WithXhr(files, xhr, xhr[f]), Canceled);
      } else if status[f] == Added || status[f] == Queued {
        status := status[f := Canceled];
      }
      AutoProcess();
    }

    method RemoveFile(f: nat)
      requires f in status && (status[f] == Uploading ==> f in xhr)
      modifies this
      ensures Now() == Remove(old(Now()), options, f)
    {
      hide Cancel;
      if status[f] == Uploading {
        CancelUpload(f);
      }
      files := WithoutFile(files, f);
    }

    method OnReply(x: nat, ok: bool)
      requires x in requests && requests[x] != [] && requests[x][0] in status
      modifies this
      ensures Now() == Reply(old(Now()), options, x, ok)
    {
      hide End;
      var list := requests[x];
      open := open - {x};
      if status[list[0]] == Canceled {
        return;
      }
      if ok {
        Finish(list, Success);
      } else {
        ghost var goal := EndRepeatedly(Now(), options, list, |list|);
        var j := 0;
        while j < |list|
          invariant 0 <= j <= |list| && EndRepeatedly(Now(), options, list, |list| - j) == goal
        {
          Finish(list, Failed);
          j := j + 1;
        }
      }
    }
  }

  /** At most the first `n`. */
  function First(list: seq<nat>, n: nat): seq<nat> {
    if |list| <= n then list else list[..n]
  }
}
