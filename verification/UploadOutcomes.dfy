/** What each operation of the upload queue does to which file, and how a file comes by its last status. */
module UploadOutcomes {
  import opened UploadQueue
  import opened UploadQueueLaws

  // ---- serving the queue -----------------------------------------------------------------

  /** No file changed but some that waited, which are uploading now; with `may` false, none did. */
  ghost predicate Started(before: map<nat, Status>, after: map<nat, Status>, may: bool) {
    && after.Keys == before.Keys
    && forall f :: f in before ==>
         after[f] == before[f] || (may && before[f] == Queued && after[f] == Uploading)
  }

  lemma ProcessedStarts(s: State, o: Options)
    requires Core(s, o)
    ensures Started(s.status, Processed(s, o).status, true) && Processed(s, o).files == s.files
  {
    hide Core, Saturated, Ready, Processed, With, SetAll;
    ProcessedKeeps(s, o);
    var queued, k := With(s.files, s.status, Queued), |Ready(s, o)|;
    WithMembers(s.files, s.status, Queued);
    assert forall f :: f in queued[..k] ==> f in queued;
    SetAllIs(s.status, queued[..k], Uploading);
    assert Processed(s, o).status.Keys == s.status.Keys;
  }

  lemma MaybeStarts(s: State, o: Options)
    requires Core(s, o)
    ensures Started(s.status, MaybeProcess(s, o).status, o.autoProcess) && MaybeProcess(s, o).files == s.files
  {
    hide Core, Processed;
    if o.autoProcess {
      ProcessedStarts(s, o);
    }
  }

  /** A file for each of the requests from `x` on. */
  ghost predicate OneEach(requests: map<nat, seq<nat>>, x: nat, list: seq<nat>) {
    forall y: nat :: x <= y < x + |list| ==> y in requests && requests[y] == [list[y - x]]
  }

  lemma {:induction false} StartEachRequests(s: State, list: seq<nat>)
    requires Numbered(s.requests)
    ensures
      var r, n := StartEach(s, list).requests, |s.requests|;
      && |r| == n + |list| && OneEach(r, n, list) && Numbered(r)
      && (forall x :: x in s.requests ==> x in r && r[x] == s.requests[x])
    decreases |list|
  {
    hide SetAll, Numbered, OneEach, Start;
    var n := |s.requests|;
    if list == [] {
      OneEachNone(s.requests, n);
    } else {
      var next := Start(s, [list[0]]);
      StartRequests(s, [list[0]]);
      StartEachRequests(next, list[1..]);
      OneEachFirst(StartEach(s, list).requests, n, list);
    }
  }

  lemma StartRequests(s: State, list: seq<nat>)
    requires Numbered(s.requests) && list != []
    ensures
      var n, r := |s.requests|, Start(s, list).requests;
      && n !in s.requests && r == s.requests[n := list] && |r| == n + 1 && Numbered(r)
  {
    hide SetAll, Numbered;
    StartNumbered(s.requests, list);
    assert Start(s, list).requests.Keys == s.requests.Keys + {|s.requests|};
  }

  lemma OneEachNone(requests: map<nat, seq<nat>>, x: nat)
    ensures OneEach(requests, x, [])
  {
  }

  lemma OneEachFirst(requests: map<nat, seq<nat>>, x: nat, list: seq<nat>)
    requires list != [] && x in requests && requests[x] == [list[0]] && OneEach(requests, x + 1, list[1..])
    ensures OneEach(requests, x, list)
  {
    forall y: nat | x <= y < x + |list| ensures y in requests && requests[y] == [list[y - x]] {
      assert y > x ==> list[1..][y - (x + 1)] == list[y - x];
    }
  }

  /** With uploadMultiple, processQueue makes one request for all it starts; without, one for each, in order. */
  lemma RequestsByMode(s: State, o: Options)
    requires Core(s, o) && Ready(s, o) != []
    ensures
      var list, n, r := Ready(s, o), |s.requests|, Processed(s, o).requests;
      && (forall x :: x in s.requests ==> x in r && r[x] == s.requests[x])
      && (if o.multiple then r == s.requests[n := list] && n !in s.requests
          else |r| == n + |list| && OneEach(r, n, list))
  {
    hide Core, Ready, SetAll;
    assert Numbered(s.requests) by { CoreNumbered(s, o); }
    StartNumbered(s.requests, Ready(s, o));
    if !o.multiple {
      StartEachRequests(s, Ready(s, o));
    }
  }

  lemma CoreNumbered(s: State, o: Options)
    requires Core(s, o)
    ensures Numbered(s.requests)
  {
  }

  // ---- one operation ---------------------------------------------------------------------

  /** The files of a list have the status `v`, and the others are as after serving the queue. */
  ghost predicate Turned(before: map<nat, Status>, after: map<nat, Status>, list: seq<nat>, v: Status, may: bool) {
    && after.Keys == before.Keys
    && forall f :: f in before ==>
         if f in list then after[f] == v
         else after[f] == before[f] || (may && before[f] == Queued && after[f] == Uploading)
  }

  lemma TurnedThenServed(s: State, o: Options, list: seq<nat>, v: Status, open: set<nat>)
    requires v.Terminal() && forall f :: f in list ==> f in s.status
    requires Core(s.(status := SetAll(s.status, list, v), open := open), o)
    ensures
      var mid := s.(status := SetAll(s.status, list, v), open := open);
      Turned(s.status, MaybeProcess(mid, o).status, list, v, o.autoProcess)
  {
    hide Core, MaybeProcess, SetAll;
    var mid := s.(status := SetAll(s.status, list, v), open := open);
    MaybeStarts(mid, o);
    SetAllIs(s.status, list, v);
    assert mid.status.Keys == s.status.Keys;
  }

  /**
    * A reply: with a 2xx status every file of the request succeeded, otherwise, or without a reply, every
    * one failed; after a cancellation nothing changes.
    */
  lemma ReplyGives(s: State, o: Options, x: nat, ok: bool)
    requires Inv(s, o) && x in s.open
    ensures x in s.requests && s.requests[x] != [] && s.requests[x][0] in s.status
    ensures
      var list, r := s.requests[x], Reply(s, o, x, ok);
      if Has(s.status, list[0], Uploading)
      then Turned(s.status, r.status, list, if ok then Success else Failed, o.autoProcess)
      else Has(s.status, list[0], Canceled) && r == s.(open := s.open - {x})
  {
    assert x in s.requests by { OpenKnown(s, o, x); }
    hide Core, SetAll, MaybeProcess, EndRepeatedly, Turned;
    CoreRequest(s, o, x);
    var list, v := s.requests[x], if ok then Success else Failed;
    if Has(s.status, list[0], Uploading) {
      GroupEnds(s, o, x, v, s.open - {x});
      TurnedThenServed(s, o, list, v, s.open - {x});
      if !ok {
        FailedReply(s, o, x);
      }
    }
  }

  /** A cancellation: of the whole request if the file is uploading, of the file alone if it waits. */
  lemma CancelGives(s: State, o: Options, f: nat)
    requires Inv(s, o) && f in s.status
    ensures
      var r := Cancel(s, o, f);
      if s.status[f] == Uploading
      then f in s.xhr && s.xhr[f] in s.requests && f in s.requests[s.xhr[f]]
           && Turned(s.status, r.status, s.requests[s.xhr[f]], Canceled, o.autoProcess)
      else Turned(s.status, r.status, if s.status[f].Terminal() then [] else [f], Canceled, o.autoProcess)
  {
    hide Linked, Shared, Live, Placed, Bounded, SetAll, Saturated, MaybeProcess, WithXhr, Turned;
    if s.status[f] == Uploading {
      GroupedFiles(s, o, f);
      var x := s.xhr[f];
      CoreRequest(s, o, x);
      FileInGroup(s, f);
      GroupEnds(s, o, x, Canceled, s.open);
      TurnedThenServed(s, o, s.requests[x], Canceled, s.open);
      assert s.(status := SetAll(s.status, s.requests[x], Canceled), open := s.open)
          == s.(status := SetAll(s.status, s.requests[x], Canceled));
    } else if s.status[f].Terminal() {
      SetAllStep(s.status, [], 0, Canceled);
      assert s.(status := SetAll(s.status, [], Canceled), open := s.open) == s;
      TurnedThenServed(s, o, [], Canceled, s.open);
      assert s.(status := s.status) == s;
    } else {
      SetAllStep(s.status, [], f, Canceled);
      assert [] + [f] == [f];
      LoneFile(s, o, f, Canceled) by { PlacedWaiting(s, o, f); }
      TurnedThenServed(s, o, [f], Canceled, s.open);
      assert s.(status := SetAll(s.status, [f], Canceled), open := s.open) == s.(status := s.status[f := Canceled]);
    }
  }

  lemma PlacedWaiting(s: State, o: Options, f: nat)
    requires Core(s, o) && f in s.status && (s.status[f] == Added || s.status[f] == Queued)
    ensures f !in s.xhr
  {
  }

  /** A removal takes just this file off the list, and cancels first what is uploading. */
  lemma RemoveGives(s: State, o: Options, f: nat)
    requires Inv(s, o) && f in s.status
    ensures
      var r := Remove(s, o, f);
      && (forall g :: g in r.files <==> g in s.files && g != f)
      && r.status == if s.status[f] == Uploading then Cancel(s, o, f).status else s.status
  {
    hide Core, Cancel;
    CancelKeeps(s, o, f);
    WithoutFileMembers(s.files, f);
  }

  /** A new file is last on the list: failed if not accepted, else waiting or, without autoQueue, just added. */
  lemma AddGives(s: State, o: Options, f: nat, ok: bool)
    requires Inv(s, o) && f !in s.status
    ensures
      var r := Add(s, o, f, ok);
      && r.files == s.files + [f] && f in r.status && (f in r.accepted <==> ok || f in s.accepted)
      && r.status[f] == (if !ok then Failed else if o.autoQueue then Queued else Added)
      && Started(s.status, map g | g in r.status && g != f :: r.status[g], o.autoProcess && !ok)
      && r.timers == s.timers + if ok && o.autoQueue && o.autoProcess then 1 else 0
  {
    hide Core, MaybeProcess, SetAll, Inv;
    if !ok {
      AddFailed(s, o, f);
    }
    var r := Add(s, o, f, ok);
    assert ok ==> forall g :: g in s.status ==> g in r.status && r.status[g] == s.status[g];
    assert (map g | g in r.status && g != f :: r.status[g]).Keys == s.status.Keys;
  }

  lemma AddFailed(s: State, o: Options, f: nat)
    requires Inv(s, o) && f !in s.status
    ensures
      var r := Add(s, o, f, false);
      && r.files == s.files + [f] && r.accepted == s.accepted && r.timers == s.timers
      && r.status.Keys == s.status.Keys + {f} && r.status[f] == Failed
      && forall g :: g in s.status ==>
           r.status[g] == s.status[g] || (o.autoProcess && s.status[g] == Queued && r.status[g] == Uploading)
  {
    hide Core, MaybeProcess, SetAll, With;
    var mid := s.(files := s.files + [f], status := s.status[f := Added]);
    NewFile(s, o, f);
    LoneFile(mid, o, f, Failed);
    var ended := mid.(status := mid.status[f := Failed]);
    SetAllStep(mid.status, [], f, Failed);
    assert [] + [f] == [f];
    assert Add(s, o, f, false) == MaybeProcess(ended, o);
    MaybeStarts(ended, o);
    MaybeRest(ended, o);
  }

  lemma MaybeRest(s: State, o: Options)
    requires Core(s, o)
    ensures MaybeProcess(s, o).accepted == s.accepted && MaybeProcess(s, o).timers == s.timers
  {
    hide Core, Processed, Saturated, With, Ready;
    if o.autoProcess {
      ProcessedKeeps(s, o);
    }
  }

  /** Only an accepted file that was just added can be enqueued; then it waits, and the queue is served soon. */
  lemma EnqueueGives(s: State, o: Options, f: nat)
    ensures Enqueue(s, o, f).Done? <==> Has(s.status, f, Added) && f in s.accepted
    ensures Enqueue(s, o, f).Done? ==>
              var r := Enqueue(s, o, f).state;
              && r.status == s.status[f := Queued] && r.files == s.files
              && r.timers == s.timers + if o.autoProcess then 1 else 0
  {
  }

  // ---- how a file comes by its status ----------------------------------------------------

  /** Nothing gets the status `v` that did not have it. */
  ghost predicate NoNew(before: map<nat, Status>, after: map<nat, Status>, v: Status) {
    forall f :: Has(after, f, v) ==> Has(before, f, v)
  }

  lemma {:induction false} CancelEachNoNew(s: State, o: Options, list: seq<nat>, v: Status)
    requires Inv(s, o) && (forall f :: f in list ==> f in s.status) && (v == Success || v == Failed)
    ensures NoNew(s.status, CancelEach(s, o, list).status, v)
    decreases |list|
  {
    hide Inv, Cancel;
    if list != [] {
      var f, mid := list[0], Cancel(s, o, list[0]);
      CancelGives(s, o, f);
      CancelKeeps(s, o, f);
      assert forall g :: g in list[1..] ==> g in list;
      CancelEachNoNew(mid, o, list[1..], v);
    }
  }

  /** The request of `f` is answered with `ok` while the file is uploading. */
  ghost predicate Answered(s: State, a: Action, f: nat, ok: bool) {
    && a.ReplyTo? && a.ok == ok && a.x in s.requests && f in s.requests[a.x] && Has(s.status, f, Uploading)
  }

  /** A file succeeds at such an answer only; it fails at one, or when it is added and not accepted. */
  lemma StepOutcome(s: State, o: Options, a: Action, f: nat)
    requires Inv(s, o) && Possible(s, a)
    ensures
      var t := Next(s, o, a);
      && (Has(t.status, f, Success) <==> Has(s.status, f, Success) || Answered(s, a, f, true))
      && (Has(t.status, f, Failed) <==> Has(s.status, f, Failed) || Answered(s, a, f, false) || a == AddFile(f, false))
  {
    hide Inv, Add, Cancel, Remove, Reply, CancelEach, Processed, Enqueue;
    StepKeeps(s, o, a);
    match a {
      case AddFile(g, ok) =>
        AddGives(s, o, g, ok);
        assert f != g && f in Add(s, o, g, ok).status ==>
                 f in (map h | h in Add(s, o, g, ok).status && h != g :: Add(s, o, g, ok).status[h]);
      case EnqueueFile(g) => EnqueueGives(s, o, g);
      case ProcessNow => ProcessedStarts(s, o) by { InvCore(s, o); }
      case Timer =>
        InvCore(s, o);
        SameCore(s, s.(timers := s.timers - 1), o);
        ProcessedStarts(s.(timers := s.timers - 1), o);
      case CancelFile(g) => CancelGives(s, o, g);
      case RemoveFile(g) =>
        RemoveGives(s, o, g);
        CancelGives(s, o, g);
      case ReplyTo(x, ok) =>
        ReplyGives(s, o, x, ok);
        GroupStatus(s, o, x);
      case DisableAll =>
        FilesKnown(s, o);
        CancelEachNoNew(s, o, s.files, Success);
        CancelEachNoNew(s, o, s.files, Failed);
    }
  }

  lemma InvCore(s: State, o: Options)
    requires Inv(s, o)
    ensures Core(s, o)
  {
  }

  lemma GroupStatus(s: State, o: Options, x: nat)
    requires Inv(s, o) && x in s.requests
    ensures s.requests[x] != [] && s.requests[x][0] in s.status
    ensures forall g :: g in s.requests[x] ==> g in s.status && s.status[g] == s.status[s.requests[x][0]]
  {
    hide Core;
    CoreRequest(s, o, x);
  }

  /** At some point of the run the request of `f` was answered with `ok` while the file was uploading. */
  ghost predicate WasAnswered(o: Options, actions: seq<Action>, f: nat, ok: bool) {
    exists i :: 0 <= i < |actions| && Run(o, actions[..i]).Reached?
      && Answered(Run(o, actions[..i]).state, actions[i], f, ok)
  }

  lemma WasAnsweredStep(o: Options, actions: seq<Action>, last: Action, f: nat, ok: bool)
    requires Run(o, actions).Reached?
    ensures WasAnswered(o, actions + [last], f, ok) <==>
            WasAnswered(o, actions, f, ok) || Answered(Run(o, actions).state, last, f, ok)
  {
    hide Run;
    var all := actions + [last];
    assert all[..|actions|] == actions && all[|actions|] == last;
    assert forall i :: 0 <= i < |actions| ==> all[..i] == actions[..i] && all[i] == actions[i];
  }

  /**
    * In every run, a file has succeeded exactly if its request was answered with a 2xx status while it was
    * uploading, and it has failed exactly if that was answered otherwise or it was not accepted.
    */
  lemma {:induction false} OutcomeIsTheAnswer(o: Options, actions: seq<Action>, f: nat)
    requires Run(o, actions).Reached?
    ensures Has(Run(o, actions).state.status, f, Success) <==> WasAnswered(o, actions, f, true)
    ensures Has(Run(o, actions).state.status, f, Failed) <==>
            WasAnswered(o, actions, f, false) || AddFile(f, false) in actions
    decreases |actions|
  {
    hide Inv, Next, Possible, WasAnswered, Answered;
    if actions == [] {
      NotAnswered(o, f);
    } else {
      var before, last := actions[..|actions| - 1], actions[|actions| - 1];
      assert actions == before + [last];
      OutcomeIsTheAnswer(o, before, f);
      RunKeeps(o, before);
      StepOutcome(Run(o, before).state, o, last, f);
      WasAnsweredStep(o, before, last, f, true);
      WasAnsweredStep(o, before, last, f, false);
    }
  }

  lemma NotAnswered(o: Options, f: nat)
    ensures !WasAnswered(o, [], f, true) && !WasAnswered(o, [], f, false)
  {
  }

  /** Without autoProcessQueue only processQueue itself makes a file upload. */
  lemma NothingStartsAlone(s: State, o: Options, a: Action, f: nat)
    requires Inv(s, o) && Possible(s, a) && !o.autoProcess && a != ProcessNow && a != Timer
    ensures Has(Next(s, o, a).status, f, Uploading) ==> Has(s.status, f, Uploading)
  {
    hide Inv, Add, Cancel, Remove, Reply, CancelEach, Processed, Enqueue;
    match a {
      case AddFile(g, ok) =>
        AddGives(s, o, g, ok);
        assert f != g && f in Add(s, o, g, ok).status ==>
                 f in (map h | h in Add(s, o, g, ok).status && h != g :: Add(s, o, g, ok).status[h]);
      case EnqueueFile(g) => EnqueueGives(s, o, g);
      case CancelFile(g) => CancelGives(s, o, g);
      case RemoveFile(g) =>
        RemoveGives(s, o, g);
        CancelGives(s, o, g);
      case ReplyTo(x, ok) => ReplyGives(s, o, x, ok);
      case DisableAll =>
        FilesKnown(s, o);
        CancelEachStartsNone(s, o, s.files);
    }
  }

  lemma {:induction false} CancelEachStartsNone(s: State, o: Options, list: seq<nat>)
    requires Inv(s, o) && (forall f :: f in list ==> f in s.status) && !o.autoProcess
    ensures NoNew(s.status, CancelEach(s, o, list).status, Uploading)
    decreases |list|
  {
    hide Inv, Cancel;
    if list != [] {
      CancelGives(s, o, list[0]);
      CancelKeeps(s, o, list[0]);
      assert forall g :: g in list[1..] ==> g in list;
      CancelEachStartsNone(Cancel(s, o, list[0]), o, list[1..]);
    }
  }
}
