/** What every reachable state of the upload queue keeps. */
module UploadQueueLaws {
  import opened UploadQueue

  // ---- lists by status -------------------------------------------------------------------

  ghost predicate Distinct(files: seq<nat>) {
    forall i, j :: 0 <= i < j < |files| ==> files[i] != files[j]
  }

  predicate Has(status: map<nat, Status>, f: nat, v: Status) {
    f in status && status[f] == v
  }

  lemma {:induction false} WithMembers(files: seq<nat>, status: map<nat, Status>, v: Status)
    ensures forall f :: f in With(files, status, v) <==> f in files && Has(status, f, v)
    ensures |With(files, status, v)| <= |files|
  {
    if files != [] {
      WithMembers(files[1..], status, v);
      assert files == [files[0]] + files[1..];
    }
  }

  lemma {:induction false} WithDistinct(files: seq<nat>, status: map<nat, Status>, v: Status)
    requires Distinct(files)
    ensures Distinct(With(files, status, v))
  {
    if files != [] {
      assert Distinct(files[1..]);
      WithDistinct(files[1..], status, v);
      WithMembers(files[1..], status, v);
      assert files[0] !in files[1..];
    }
  }

  lemma {:induction false} WithSame(files: seq<nat>, a: map<nat, Status>, b: map<nat, Status>, v: Status)
    requires forall f :: f in files ==> (Has(a, f, v) <==> Has(b, f, v))
    ensures With(files, a, v) == With(files, b, v)
  {
    if files != [] {
      assert files[0] in files && forall f :: f in files[1..] ==> f in files;
      assert Has(a, files[0], v) <==> Has(b, files[0], v);
      WithSame(files[1..], a, b, v);
    }
  }

  lemma {:induction false} WithFewer(files: seq<nat>, a: map<nat, Status>, b: map<nat, Status>, v: Status)
    requires forall f :: f in files && Has(b, f, v) ==> Has(a, f, v)
    ensures |With(files, b, v)| <= |With(files, a, v)|
  {
    if files != [] {
      assert files[0] in files && forall f :: f in files[1..] ==> f in files;
      assert Has(b, files[0], v) ==> Has(a, files[0], v);
      WithFewer(files[1..], a, b, v);
    }
  }

  /** One more file of a status. */
  lemma {:induction false} WithOneMore(files: seq<nat>, status: map<nat, Status>, f: nat, v: Status)
    requires Distinct(files) && f in files && !Has(status, f, v)
    ensures |With(files, status[f := v], v)| == |With(files, status, v)| + 1
  {
    var rest := files[1..];
    assert Distinct(rest);
    if files[0] == f {
      assert f !in rest;
      WithSame(rest, status, status[f := v], v);
    } else {
      assert f in rest;
      WithOneMore(rest, status, f, v);
    }
  }

  /** The first file of a status gets another one. */
  lemma {:induction false} WithFirstGone(files: seq<nat>, status: map<nat, Status>, v: Status, w: Status)
    requires Distinct(files) && v != w && With(files, status, v) != []
    ensures With(files, status[With(files, status, v)[0] := w], v) == With(files, status, v)[1..]
  {
    var f, rest := With(files, status, v)[0], files[1..];
    assert Distinct(rest);
    if Has(status, files[0], v) {
      assert f == files[0] && f !in rest;
      WithSame(rest, status, status[f := w], v);
      assert With(files, status, v)[1..] == With(rest, status, v);
    } else {
      WithMembers(rest, status, v);
      assert f in With(rest, status, v);
      WithFirstGone(rest, status, v, w);
    }
  }

  lemma {:induction false} WithoutFileMembers(files: seq<nat>, f: nat)
    ensures forall g :: g in WithoutFile(files, f) <==> g in files && g != f
    ensures Distinct(files) ==> Distinct(WithoutFile(files, f))
  {
    if files != [] {
      WithoutFileMembers(files[1..], f);
      assert files == [files[0]] + files[1..];
      if Distinct(files) {
        assert Distinct(files[1..]);
        assert files[0] !in files[1..];
      }
    }
  }

  lemma {:induction false} WithWithoutFile(files: seq<nat>, f: nat, status: map<nat, Status>, v: Status)
    ensures |With(WithoutFile(files, f), status, v)| <= |With(files, status, v)|
    ensures !Has(status, f, v) ==> With(WithoutFile(files, f), status, v) == With(files, status, v)
  {
    if files != [] {
      WithWithoutFile(files[1..], f, status, v);
    }
  }

  lemma {:induction false} WithXhrMembers(files: seq<nat>, xhr: map<nat, nat>, x: nat)
    ensures forall f :: f in WithXhr(files, xhr, x) <==> f in files && f in xhr && xhr[f] == x
  {
    if files != [] {
      WithXhrMembers(files[1..], xhr, x);
      assert files == [files[0]] + files[1..];
    }
  }

  // ---- setting several -------------------------------------------------------------------

  lemma SetAllAt<V>(m: map<nat, V>, keys: seq<nat>, v: V, k: nat)
    ensures k in SetAll(m, keys, v) <==> k in m || k in keys
    ensures k in keys ==> SetAll(m, keys, v)[k] == v
    ensures k in m && k !in keys ==> SetAll(m, keys, v)[k] == m[k]
  {
  }

  /** `b` is `a` with every key of a list set to `v`. */
  ghost predicate SetTo<V>(a: map<nat, V>, b: map<nat, V>, keys: seq<nat>, v: V) {
    && (forall k :: k in b <==> k in a || k in keys)
    && (forall k :: k in keys ==> k in b && b[k] == v)
    && (forall k :: k in a && k !in keys ==> k in b && b[k] == a[k])
  }

  lemma SetAllIs<V>(m: map<nat, V>, keys: seq<nat>, v: V)
    ensures SetTo(m, SetAll(m, keys, v), keys, v)
  {
  }

  lemma SetAllFront<V>(m: map<nat, V>, keys: seq<nat>, v: V)
    requires keys != []
    ensures SetAll(m, keys, v) == SetAll(m[keys[0] := v], keys[1..], v)
  {
    assert keys == [keys[0]] + keys[1..];
    assert (set x | x in keys) == {keys[0]} + (set x | x in keys[1..]);
  }

  lemma SetAllIdle<V>(m: map<nat, V>, keys: seq<nat>, v: V)
    requires forall k :: k in keys ==> k in m && m[k] == v
    ensures SetAll(m, keys, v) == m
  {
    assert m.Keys + (set x | x in keys) == m.Keys;
  }

  /** Starting queued files: so many more are uploading. */
  lemma {:induction false} StartedCount(files: seq<nat>, status: map<nat, Status>, list: seq<nat>)
    requires Distinct(files) && Distinct(list)
    requires forall f :: f in list ==> f in files && Has(status, f, Queued)
    ensures |With(files, SetAll(status, list, Uploading), Uploading)| == |With(files, status, Uploading)| + |list|
    decreases |list|
  {
    if list == [] {
      SetAllStep(status, [], 0, Uploading);
    } else {
      var f, rest := list[0], list[1..];
      SetAllFront(status, list, Uploading);
      assert f in list && f !in rest && Distinct(rest) && forall g :: g in rest ==> g in list;
      WithOneMore(files, status, f, Uploading);
      StartedCount(files, status[f := Uploading], rest);
    }
  }

  /** Starting the first `k` queued files leaves the others queued, in order. */
  lemma {:induction false} StartedQueue(files: seq<nat>, status: map<nat, Status>, k: nat)
    requires Distinct(files) && k <= |With(files, status, Queued)|
    ensures
      var queued := With(files, status, Queued);
      With(files, SetAll(status, queued[..k], Uploading), Queued) == queued[k..]
    decreases k
  {
    var queued := With(files, status, Queued);
    if k == 0 {
      SetAllStep(status, [], 0, Uploading);
    } else {
      SetAllFront(status, queued[..k], Uploading);
      assert queued[..k][1..] == queued[1..][..k - 1];
      WithFirstGone(files, status, Queued, Uploading);
      StartedQueue(files, status[queued[0] := Uploading], k - 1);
      assert queued[1..][k - 1..] == queued[k..];
    }
  }

  // ---- the invariant ---------------------------------------------------------------------

  /** A file that went out remembers its request, and the request its files. */
  ghost predicate Linked(xhr: map<nat, nat>, requests: map<nat, seq<nat>>) {
    && Numbered(requests)
    && (forall x, g :: x in requests && g in requests[x] ==> g in xhr && xhr[g] == x)
    && (forall f :: f in xhr ==> xhr[f] in requests && f in requests[xhr[f]])
  }

  /** Requests are numbered in turn, and none is empty. */
  ghost predicate Numbered(requests: map<nat, seq<nat>>) {
    forall x :: x in requests ==> x < |requests| && requests[x] != []
  }

  lemma StartNumbered(requests: map<nat, seq<nat>>, list: seq<nat>)
    requires Numbered(requests) && list != []
    ensures |requests| !in requests && Numbered(requests[|requests| := list])
  {
    var x: nat := |requests|;
    assert requests[x := list].Keys == requests.Keys + {x};
  }

  /** The files of a request share one status, and it is one of a file that went out. */
  ghost predicate Shared(status: map<nat, Status>, requests: map<nat, seq<nat>>) {
    forall x, g :: x in requests && g in requests[x] ==>
      && g in status && requests[x][0] in status && status[g] == status[requests[x][0]]
      && status[g] != Added && status[g] != Queued
  }

  /** What uploads is on the list and has a request; what waits has none. */
  ghost predicate Placed(files: seq<nat>, status: map<nat, Status>, xhr: map<nat, nat>) {
    && Distinct(files) && (forall f :: f in files ==> f in status)
    && (forall f :: f in status && status[f] == Uploading ==> f in xhr && f in files)
    && (forall f :: f in status && (status[f] == Added || status[f] == Queued) ==> f !in xhr)
  }

  /** A request whose events may still come is uploading or was canceled; any other has ended. */
  ghost predicate Live(status: map<nat, Status>, requests: map<nat, seq<nat>>, open: set<nat>) {
    && open <= requests.Keys
    && forall x :: x in requests && requests[x] != [] && requests[x][0] in status ==>
         if x in open then status[requests[x][0]] == Uploading || status[requests[x][0]] == Canceled
         else status[requests[x][0]].Terminal()
  }

  /** At most so many files upload at a time. */
  ghost predicate Bounded(files: seq<nat>, status: map<nat, Status>, parallel: nat) {
    |With(files, status, Uploading)| <= parallel
  }

  ghost predicate Core(s: State, o: Options) {
    && Linked(s.xhr, s.requests) && Shared(s.status, s.requests) && Placed(s.files, s.status, s.xhr)
    && Live(s.status, s.requests, s.open) && Bounded(s.files, s.status, o.parallel)
  }

  /** No file waits while there is a slot. */
  ghost predicate Saturated(s: State, o: Options) {
    With(s.files, s.status, Queued) == [] || |With(s.files, s.status, Uploading)| >= o.parallel
  }

  ghost predicate Inv(s: State, o: Options) {
    Core(s, o) && (o.autoProcess ==> s.timers > 0 || Saturated(s, o))
  }

  lemma ReadyEmpty(s: State, o: Options)
    ensures Ready(s, o) == [] <==> Saturated(s, o)
  {
  }

  // ---- starting files --------------------------------------------------------------------

  lemma StartLinked(xhr: map<nat, nat>, xhr': map<nat, nat>, requests: map<nat, seq<nat>>, list: seq<nat>, x: nat)
    requires Linked(xhr, requests) && list != [] && x == |requests| && SetTo(xhr, xhr', list, x)
    requires forall f :: f in list ==> f !in xhr
    ensures Linked(xhr', requests[x := list])
  {
    hide Numbered;
    var n := requests[x := list];
    StartNumbered(requests, list);
    forall y, g | y in n && g in n[y] ensures g in xhr' && xhr'[g] == y {
      if y != x {
        assert y in requests && g in requests[y] && g in xhr;
      }
    }
    forall f | f in xhr' ensures xhr'[f] in n && f in n[xhr'[f]] {
      if f !in list {
        assert f in xhr && xhr[f] in requests;
      }
    }
  }

  lemma StartShared(status: map<nat, Status>, status': map<nat, Status>, requests: map<nat, seq<nat>>,
                    list: seq<nat>, x: nat)
    requires Shared(status, requests) && (forall y :: y in requests ==> requests[y] != [])
    requires list != [] && SetTo(status, status', list, Uploading) && forall f :: f in list ==> Has(status, f, Queued)
    ensures Shared(status', requests[x := list])
  {
    var n := requests[x := list];
    forall y, g | y in n && g in n[y]
      ensures g in status' && n[y][0] in status' && status'[g] == status'[n[y][0]]
        && status'[g] != Added && status'[g] != Queued
    {
      assert n[y][0] in n[y];
      if y != x {
        assert g !in list by { assert y in requests && g in requests[y]; }
        assert n[y][0] !in list by { assert y in requests && requests[y][0] in requests[y]; }
      }
    }
  }

  lemma StartPlaced(files: seq<nat>, status: map<nat, Status>, xhr: map<nat, nat>, list: seq<nat>, x: nat)
    requires Placed(files, status, xhr) && forall f :: f in list ==> f in files && Has(status, f, Queued)
    ensures Placed(files, SetAll(status, list, Uploading), SetAll(xhr, list, x))
  {
  }

  lemma StartLive(status: map<nat, Status>, requests: map<nat, seq<nat>>, open: set<nat>, list: seq<nat>)
    requires Live(status, requests, open) && Shared(status, requests) && list != []
    requires forall x :: x in requests ==> x < |requests| && requests[x] != []
    requires forall f :: f in list ==> Has(status, f, Queued)
    ensures Live(SetAll(status, list, Uploading), requests[|requests| := list], open + {|requests|})
  {
    var r, n := SetAll(status, list, Uploading), requests[|requests| := list];
    assert list[0] in list;
    forall x | x in requests ensures requests[x][0] in status && requests[x][0] !in list {
      assert requests[x][0] in requests[x];
    }
  }

  lemma LinkedNumbers(xhr: map<nat, nat>, requests: map<nat, seq<nat>>)
    requires Linked(xhr, requests)
    ensures Numbered(requests)
  {
  }

  /** A request for files that wait, within the slots. */
  lemma StartCore(s: State, o: Options, list: seq<nat>)
    requires Core(s, o) && list != [] && Distinct(list)
    requires forall f :: f in list ==> f in s.files && Has(s.status, f, Queued)
    requires |With(s.files, s.status, Uploading)| + |list| <= o.parallel
    ensures Core(Start(s, list), o)
  {
    hide SetAll, SetTo, Linked, Live, Shared;
    assert forall f :: f in list ==> f !in s.xhr;
    LinkedNumbers(s.xhr, s.requests);
    var x: nat := NextXhr(s);
    SetAllIs(s.xhr, list, x);
    SetAllIs(s.status, list, Uploading);
    StartLinked(s.xhr, SetAll(s.xhr, list, x), s.requests, list, x);
    StartShared(s.status, SetAll(s.status, list, Uploading), s.requests, list, x);
    StartPlaced(s.files, s.status, s.xhr, list, NextXhr(s));
    StartLive(s.status, s.requests, s.open, list);
    StartedCount(s.files, s.status, list);
  }

  lemma {:induction false} StartEachCore(s: State, o: Options, list: seq<nat>)
    requires Core(s, o) && Distinct(list)
    requires forall f :: f in list ==> f in s.files && Has(s.status, f, Queued)
    requires |With(s.files, s.status, Uploading)| + |list| <= o.parallel
    ensures
      var r := StartEach(s, list);
      && Core(r, o) && r.files == s.files && r.timers == s.timers && r.accepted == s.accepted
      && r.status == SetAll(s.status, list, Uploading)
    decreases |list|
  {
    hide Linked, Shared, Live, SetAll;
    if list == [] {
      SetAllStep(s.status, [], 0, Uploading);
    } else {
      var f, rest := list[0], list[1..];
      var t := Start(s, [f]);
      SetAllIs(s.status, [f], Uploading);
      assert f in list && f !in rest && Distinct(rest) && forall g :: g in rest ==> g in list;
      StartCore(s, o, [f]);
      StartedCount(s.files, s.status, [f]);
      assert t.status == SetAll(s.status, [f], Uploading);
      StartEachCore(t, o, rest);
      SetAllStep(s.status, [], f, Uploading);
      assert [] + [f] == [f];
      SetAllFront(s.status, list, Uploading);
    }
  }

  /**
    * processQueue: it starts the first waiting files, as many as there are slots, changes no other
    * file, and when it returns no file waits or all slots are full.
    */
  lemma ProcessedKeeps(s: State, o: Options)
    requires Core(s, o)
    ensures
      var r := Processed(s, o);
      var queued := With(s.files, s.status, Queued);
      var k := |Ready(s, o)|;
      && Core(r, o) && Saturated(r, o) && r.files == s.files && r.timers == s.timers && r.accepted == s.accepted
      && k <= |queued| && Ready(s, o) == queued[..k]
      && r.status == SetAll(s.status, queued[..k], Uploading)
      && With(r.files, r.status, Queued) == queued[k..]
      && |With(r.files, r.status, Uploading)| == |With(s.files, s.status, Uploading)| + k
  {
    hide Linked, Shared, Live, Has, SetAll;
    var queued, list := With(s.files, s.status, Queued), Ready(s, o);
    var k := |list|;
    assert list == queued[..k];
    WithMembers(s.files, s.status, Queued);
    WithDistinct(s.files, s.status, Queued);
    assert forall f :: f in list ==> f in queued;
    StartedQueue(s.files, s.status, k);
    StartedCount(s.files, s.status, list);
    if list == [] {
      SetAllStep(s.status, [], 0, Uploading);
      ReadyEmpty(s, o);
    } else if o.multiple {
      StartCore(s, o, list);
    } else {
      StartEachCore(s, o, list);
    }
  }

  /** The same behind the autoProcessQueue option. */
  lemma MaybeProcessKeeps(s: State, o: Options)
    requires Core(s, o)
    ensures
      var r := MaybeProcess(s, o);
      && Core(r, o) && (o.autoProcess ==> Saturated(r, o)) && r.files == s.files && r.timers == s.timers
      && (forall f :: f in s.status ==> f in r.status && (s.status[f] != Queued ==> r.status[f] == s.status[f]))
      && (forall f :: f in r.status ==> f in s.status)
  {
    hide Core, Saturated, Ready, Processed;
    if o.autoProcess {
      ProcessedKeeps(s, o);
      var queued := With(s.files, s.status, Queued);
      WithMembers(s.files, s.status, Queued);
      assert forall f :: f in queued[..|Ready(s, o)|] ==> f in queued;
    }
  }

  // ---- ending files ----------------------------------------------------------------------

  lemma GroupShared(status: map<nat, Status>, status': map<nat, Status>, requests: map<nat, seq<nat>>,
                    xhr: map<nat, nat>, x: nat, v: Status)
    requires Shared(status, requests) && Linked(xhr, requests) && x in requests && v.Terminal()
    requires SetTo(status, status', requests[x], v)
    ensures Shared(status', requests)
    ensures forall y :: y in requests ==>
              && requests[y] != [] && requests[y][0] in status && requests[y][0] in status'
              && status'[requests[y][0]] == if y == x then v else status[requests[y][0]]
  {
    hide Numbered;
    LinkedNumbers(xhr, requests);
    forall y, g | y in requests && g in requests[y]
      ensures g in status' && status'[g] == if y == x then v else status[g]
    {
      assert xhr[g] == y;
    }
    assert forall y :: y in requests ==> requests[y] != [] by { assert Numbered(requests); NumberedFull(requests); }
    assert forall y :: y in requests ==> requests[y][0] in requests[y];
  }

  lemma NumberedFull(requests: map<nat, seq<nat>>)
    requires Numbered(requests)
    ensures forall y :: y in requests ==> requests[y] != []
  {
  }

  lemma GroupPlaced(files: seq<nat>, status: map<nat, Status>, status': map<nat, Status>, xhr: map<nat, nat>,
                    list: seq<nat>, v: Status)
    requires Placed(files, status, xhr) && SetTo(status, status', list, v) && v.Terminal()
    ensures Placed(files, status', xhr)
  {
  }

  /** A request that uploads ends: all of its files with `v`, at its last event or when it is canceled. */
  lemma GroupEnds(s: State, o: Options, x: nat, v: Status, open: set<nat>)
    requires Core(s, o) && x in s.requests && s.requests[x] != [] && Has(s.status, s.requests[x][0], Uploading)
    requires v.Terminal() && (open == s.open - {x} || (open == s.open && v == Canceled))
    ensures Core(s.(status := SetAll(s.status, s.requests[x], v), open := open), o)
  {
    hide SetAll, SetTo, Linked, Shared, Placed, Live;
    var list := s.requests[x];
    var status' := SetAll(s.status, list, v);
    SetAllIs(s.status, list, v);
    GroupShared(s.status, status', s.requests, s.xhr, x, v);
    GroupPlaced(s.files, s.status, status', s.xhr, list, v);
    GroupLive(s, status', x, v, open);
    FewerUploading(s.files, s.status, status', list, v);
  }

  lemma GroupLive(s: State, status': map<nat, Status>, x: nat, v: Status, open: set<nat>)
    requires Live(s.status, s.requests, s.open) && x in s.requests && v.Terminal()
    requires Linked(s.xhr, s.requests) && Shared(s.status, s.requests)
    requires open == s.open - {x} || (open == s.open && v == Canceled)
    requires forall y :: y in s.requests ==>
               && s.requests[y] != [] && s.requests[y][0] in s.status && s.requests[y][0] in status'
               && status'[s.requests[y][0]] == if y == x then v else s.status[s.requests[y][0]]
    ensures Live(status', s.requests, open)
  {
    hide Linked, Shared;
  }

  lemma FewerUploading(files: seq<nat>, status: map<nat, Status>, status': map<nat, Status>, list: seq<nat>, v: Status)
    requires SetTo(status, status', list, v) && v != Uploading
    ensures |With(files, status', Uploading)| <= |With(files, status, Uploading)|
  {
    WithFewer(files, status, status', Uploading);
  }

  /** A file that has not gone out gets another status than Uploading; its list may have grown before it. */
  lemma LoneFile(s: State, o: Options, f: nat, v: Status)
    requires Core(s, o) && f in s.status && f !in s.xhr && v != Uploading
    ensures Core(s.(status := s.status[f := v]), o)
  {
    hide Linked, Shared, Live, With;
    var status' := s.status[f := v];
    LoneShared(s, o, f, v);
    WithSame(s.files, s.status, status', Uploading);
  }

  lemma LoneShared(s: State, o: Options, f: nat, v: Status)
    requires Core(s, o) && f in s.status && f !in s.xhr
    ensures Shared(s.status[f := v], s.requests) && Live(s.status[f := v], s.requests, s.open)
  {
    hide Bounded, Placed;
    LinkedNumbers(s.xhr, s.requests);
    forall y, g | y in s.requests && g in s.requests[y] ensures g != f {
      assert g in s.xhr;
    }
    assert forall y :: y in s.requests ==> s.requests[y][0] in s.requests[y];
  }

  // ---- every operation keeps the invariant -------------------------------------------------

  /** Statuses of files that were known; those that had ended are as they were. */
  ghost predicate Forward(before: map<nat, Status>, after: map<nat, Status>) {
    forall f :: f in before ==> f in after && (before[f].Terminal() ==> after[f] == before[f])
  }

  /** An operation that ends in processQueue. */
  lemma ThenProcess(s: State, o: Options)
    requires Core(s, o)
    ensures Inv(MaybeProcess(s, o), o)
    ensures Forward(s.status, MaybeProcess(s, o).status) && MaybeProcess(s, o).files == s.files
  {
    hide Core, Saturated, MaybeProcess;
    MaybeProcessKeeps(s, o);
  }

  lemma CoreRequest(s: State, o: Options, x: nat)
    requires Core(s, o) && x in s.requests
    ensures s.requests[x] != [] && s.requests[x][0] in s.status && s.requests[x][0] in s.requests[x]
    ensures x in s.open ==> Has(s.status, s.requests[x][0], Uploading) || Has(s.status, s.requests[x][0], Canceled)
    ensures x !in s.open ==> s.status[s.requests[x][0]].Terminal()
    ensures forall g :: g in s.requests[x] ==> g in s.status && s.status[g] == s.status[s.requests[x][0]]
  {
    LinkedNumbers(s.xhr, s.requests);
    assert s.requests[x][0] in s.requests[x];
  }

  lemma SetAllForward(status: map<nat, Status>, list: seq<nat>, v: Status)
    requires forall g :: g in list && g in status ==> !status[g].Terminal()
    ensures Forward(status, SetAll(status, list, v))
  {
  }

  lemma ForwardTransitive(a: map<nat, Status>, b: map<nat, Status>, c: map<nat, Status>)
    requires Forward(a, b) && Forward(b, c)
    ensures Forward(a, c)
  {
  }

  /** The grouped files of a file that uploads are all the files of its request. */
  lemma GroupedFiles(s: State, o: Options, f: nat)
    requires Core(s, o) && Has(s.status, f, Uploading)
    ensures f in s.xhr && s.xhr[f] in s.requests
    ensures
      var x := s.xhr[f];
      SetAll(s.status, WithXhr(s.files, s.xhr, x), Canceled) == SetAll(s.status, s.requests[x], Canceled)
  {
    hide Shared, Live, Bounded, SetAll, WithXhr;
    var x := s.xhr[f];
    CoreRequest(s, o, x);
    WithXhrMembers(s.files, s.xhr, x);
    var a, b := WithXhr(s.files, s.xhr, x), s.requests[x];
    FileInGroup(s, f);
    forall g ensures g in a <==> g in b {
      if g in a {
        FileInGroup(s, g);
      }
    }
    SetAllSame(s.status, a, b, Canceled);
  }

  lemma SetAllSame<V>(m: map<nat, V>, a: seq<nat>, b: seq<nat>, v: V)
    requires forall g :: g in a <==> g in b
    ensures SetAll(m, a, v) == SetAll(m, b, v)
  {
    assert (set g | g in a) == (set g | g in b);
  }

  lemma CancelKeeps(s: State, o: Options, f: nat)
    requires Inv(s, o) && f in s.status
    ensures Inv(Cancel(s, o, f), o) && Forward(s.status, Cancel(s, o, f).status) && Cancel(s, o, f).files == s.files
    ensures Cancel(s, o, f).status[f].Terminal()
  {
    hide Linked, Shared, Live, Bounded, SetAll, Saturated, MaybeProcess, WithXhr;
    var mid := s;
    if s.status[f] == Uploading {
      GroupedFiles(s, o, f);
      var x := s.xhr[f];
      CoreRequest(s, o, x);
      FileInGroup(s, f);
      GroupEnds(s, o, x, Canceled, s.open);
      mid := s.(status := SetAll(s.status, s.requests[x], Canceled));
      SetAllForward(s.status, s.requests[x], Canceled);
      SetAllAt(s.status, s.requests[x], Canceled, f);
    } else if s.status[f] == Added || s.status[f] == Queued {
      LoneFile(s, o, f, Canceled);
      mid := s.(status := s.status[f := Canceled]);
    }
    assert s.(status := s.status) == s;
    assert Cancel(s, o, f) == MaybeProcess(mid, o);
    ThenProcess(mid, o);
    ForwardTransitive(s.status, mid.status, Cancel(s, o, f).status);
  }

  lemma FileInGroup(s: State, f: nat)
    requires Linked(s.xhr, s.requests) && f in s.xhr
    ensures s.xhr[f] in s.requests && f in s.requests[s.xhr[f]]
  {
  }

  lemma RemoveKeeps(s: State, o: Options, f: nat)
    requires Inv(s, o) && f in s.status
    ensures Inv(Remove(s, o, f), o) && Forward(s.status, Remove(s, o, f).status)
  {
    hide Core, Cancel, Saturated;
    if s.status[f] == Uploading {
      CancelKeeps(s, o, f);
      UnlistKeeps(Cancel(s, o, f), o, f);
    } else {
      UnlistKeeps(s, o, f);
    }
  }

  lemma UnlistKeeps(s: State, o: Options, f: nat)
    requires Inv(s, o) && f in s.status && s.status[f] != Uploading
    ensures Inv(s.(files := WithoutFile(s.files, f)), o)
  {
    hide Linked, Shared, Live, With;
    WithoutFileMembers(s.files, f);
    WithWithoutFile(s.files, f, s.status, Uploading);
    WithWithoutFile(s.files, f, s.status, Queued);
    if With(s.files, s.status, Queued) == [] {
      assert |With(WithoutFile(s.files, f), s.status, Queued)| == 0;
    }
  }

  lemma AddKeeps(s: State, o: Options, f: nat, ok: bool)
    requires Inv(s, o) && f !in s.status
    ensures Inv(Add(s, o, f, ok), o) && Forward(s.status, Add(s, o, f, ok).status)
  {
    hide Core, MaybeProcess, Enqueue, With;
    var mid := s.(files := s.files + [f], status := s.status[f := Added]);
    NewFile(s, o, f);
    NewFileLists(s, f);
    assert Forward(s.status, mid.status);
    if !ok {
      LoneFile(mid, o, f, Failed);
      var ended := mid.(status := mid.status[f := Failed]);
      SetAllStep(mid.status, [], f, Failed);
      assert [] + [f] == [f];
      assert Add(s, o, f, ok) == MaybeProcess(ended, o);
      ThenProcess(ended, o);
      ForwardTransitive(s.status, ended.status, Add(s, o, f, ok).status);
    } else {
      var waiting := mid.(accepted := mid.accepted + {f});
      assert Core(waiting, o) by { SameCore(mid, waiting, o); }
      if o.autoQueue && Enqueue(waiting, o, f).Done? {
        EnqueueKeeps(waiting, o, f);
        ForwardTransitive(s.status, waiting.status, Add(s, o, f, ok).status);
      }
    }
  }

  lemma SameCore(a: State, b: State, o: Options)
    requires Core(a, o) && b == a.(accepted := b.accepted, timers := b.timers)
    ensures Core(b, o)
  {
  }

  lemma NewFileLists(s: State, f: nat)
    requires f !in s.status
    ensures With(s.files + [f], s.status[f := Added], Queued) == With(s.files, s.status, Queued)
    ensures With(s.files + [f], s.status[f := Added], Uploading) == With(s.files, s.status, Uploading)
  {
    var status' := s.status[f := Added];
    WithAppend(s.files, f, status', Queued);
    WithAppend(s.files, f, status', Uploading);
    WithSame(s.files, s.status, status', Queued);
    WithSame(s.files, s.status, status', Uploading);
  }

  lemma NewFile(s: State, o: Options, f: nat)
    requires Core(s, o) && f !in s.status
    ensures Core(s.(files := s.files + [f], status := s.status[f := Added]), o)
    ensures f !in s.xhr
  {
    hide Shared, Live, With;
    LinkedNumbers(s.xhr, s.requests);
    hide Linked;
    if f in s.xhr {
      FileKnown(s, o, f);
    }
    NewFileLists(s, f);
    NewFileShared(s, f);
    assert f !in s.files;
  }

  lemma NewFileShared(s: State, f: nat)
    requires Shared(s.status, s.requests) && Live(s.status, s.requests, s.open)
    requires Numbered(s.requests) && f !in s.status
    ensures Shared(s.status[f := Added], s.requests) && Live(s.status[f := Added], s.requests, s.open)
  {
    NumberedFull(s.requests);
    forall x | x in s.requests ensures s.requests[x][0] in s.requests[x] && s.requests[x][0] != f {
    }
    forall x, g | x in s.requests && g in s.requests[x] ensures g in s.status && g != f {
    }
  }

  lemma FileKnown(s: State, o: Options, f: nat)
    requires Core(s, o) && f in s.xhr
    ensures f in s.status
  {
    hide Live, Bounded, Placed;
    FileInGroup(s, f);
  }

  lemma EnqueueKeeps(s: State, o: Options, f: nat)
    requires Inv(s, o) && Enqueue(s, o, f).Done?
    ensures Inv(Enqueue(s, o, f).state, o) && Forward(s.status, Enqueue(s, o, f).state.status)
  {
    hide Linked, Shared, Live;
    LoneFile(s, o, f, Queued);
  }

  /** Once the files have failed and the queue was served, failing them again changes nothing. */
  lemma EndAgain(s: State, o: Options, list: seq<nat>)
    requires forall f :: f in list ==> Has(s.status, f, Failed)
    requires o.autoProcess ==> Saturated(s, o)
    ensures End(s, o, list, Failed) == s
  {
    hide SetAll;
    SetAllIdle(s.status, list, Failed);
    ReadyEmpty(s, o);
  }

  lemma {:induction false} EndRepeatedlyIdle(s: State, o: Options, list: seq<nat>, times: nat)
    requires forall f :: f in list ==> Has(s.status, f, Failed)
    requires o.autoProcess ==> Saturated(s, o)
    ensures EndRepeatedly(s, o, list, times) == s
    decreases times
  {
    hide End, Saturated;
    if times > 0 {
      EndAgain(s, o, list);
      EndRepeatedlyIdle(s, o, list, times - 1);
    }
  }

  lemma CanceledReply(s: State, o: Options, x: nat)
    requires Core(s, o) && x in s.requests && s.requests[x] != [] && Has(s.status, s.requests[x][0], Canceled)
    ensures Core(s.(open := s.open - {x}), o)
  {
    hide Linked, Shared, Placed, Bounded;
  }

  /** The last event of a request that uploads. */
  lemma UploadEnds(s: State, o: Options, x: nat, v: Status)
    requires Core(s, o) && x in s.open && x in s.requests && s.requests[x] != []
    requires Has(s.status, s.requests[x][0], Uploading) && v.Terminal()
    ensures
      var r := End(s.(open := s.open - {x}), o, s.requests[x], v);
      && Inv(r, o) && Forward(s.status, r.status) && (o.autoProcess ==> Saturated(r, o))
      && forall f :: f in s.requests[x] ==> Has(r.status, f, v)
  {
    hide Core, SetAll, MaybeProcess, Saturated, With;
    CoreRequest(s, o, x);
    var list := s.requests[x];
    var mid := s.(status := SetAll(s.status, list, v), open := s.open - {x});
    GroupEnds(s, o, x, v, s.open - {x});
    SetAllForward(s.status, list, v);
    ThenProcess(mid, o);
    MaybeProcessKeeps(mid, o);
    var r := MaybeProcess(mid, o);
    ForwardTransitive(s.status, mid.status, r.status);
    AllSet(s.status, list, v, r.status);
  }

  lemma ReplyKeeps(s: State, o: Options, x: nat, ok: bool)
    requires Inv(s, o) && x in s.open
    ensures x in s.requests && s.requests[x] != [] && s.requests[x][0] in s.status
    ensures Inv(Reply(s, o, x, ok), o) && Forward(s.status, Reply(s, o, x, ok).status)
  {
    assert x in s.requests by { OpenKnown(s, o, x); }
    hide Core, End, With, EndRepeatedly;
    CoreRequest(s, o, x);
    var list := s.requests[x];
    if Has(s.status, list[0], Canceled) {
      CanceledReply(s, o, x);
    } else if ok {
      UploadEnds(s, o, x, Success);
    } else {
      FailedReply(s, o, x);
    }
  }

  /** Failing every file once for each of them is failing them once. */
  lemma FailedReply(s: State, o: Options, x: nat)
    requires Core(s, o) && x in s.open && x in s.requests && s.requests[x] != []
    requires Has(s.status, s.requests[x][0], Uploading)
    ensures
      var list, replied := s.requests[x], s.(open := s.open - {x});
      var r := EndRepeatedly(replied, o, list, |list|);
      r == End(replied, o, list, Failed) && Inv(r, o) && Forward(s.status, r.status)
  {
    hide Core, End, Saturated, Forward;
    UploadEnds(s, o, x, Failed);
    var list := s.requests[x];
    EndRepeatedlyIdle(End(s.(open := s.open - {x}), o, list, Failed), o, list, |list| - 1);
  }

  lemma OpenKnown(s: State, o: Options, x: nat)
    requires Core(s, o) && x in s.open
    ensures x in s.requests
  {
  }

  lemma AllSet(status: map<nat, Status>, list: seq<nat>, v: Status, after: map<nat, Status>)
    requires Forward(SetAll(status, list, v), after) && v.Terminal()
    ensures forall f :: f in list ==> Has(after, f, v)
  {
    forall f | f in list ensures Has(after, f, v) {
      SetAllAt(status, list, v, f);
    }
  }

  // ---- disabling -------------------------------------------------------------------------

  lemma {:induction false} CancelEachKeeps(s: State, o: Options, list: seq<nat>)
    requires Inv(s, o) && forall f :: f in list ==> f in s.status
    ensures
      var r := CancelEach(s, o, list);
      Inv(r, o) && Forward(s.status, r.status) && r.files == s.files
      && forall f :: f in list ==> f in r.status && r.status[f].Terminal()
    decreases |list|
  {
    hide Inv, Cancel;
    if list != [] {
      var f, mid := list[0], Cancel(s, o, list[0]);
      CancelKeeps(s, o, f);
      assert forall g :: g in list[1..] ==> g in list;
      CancelEachKeeps(mid, o, list[1..]);
      var r := CancelEach(s, o, list);
      ForwardTransitive(s.status, mid.status, r.status);
      assert forall g :: g in list ==> g == f || g in list[1..];
    }
  }

  /**
    * disable: although every cancellation restarts the queue, in the end every file of the list has
    * ended, and the files that had ended before are as they were.
    */
  method Disable(z: Dropzone)
    requires Inv(z.Now(), z.options)
    modifies z
    ensures z.Now() == CancelEach(old(z.Now()), z.options, old(z.files))
    ensures Inv(z.Now(), z.options) && z.files == old(z.files)
    ensures forall f :: f in z.files ==> f in z.status && z.status[f].Terminal()
    ensures Forward(old(z.status), z.status)
  {
    hide Cancel, CancelEach, Core, Saturated;
    ghost var s := z.Now();
    FilesKnown(s, z.options);
    CancelEachKeeps(s, z.options, s.files);
    var list := z.files;
    var i := 0;
    assert list[0..] == list;
    while i < |list|
      invariant 0 <= i <= |list| && Inv(z.Now(), z.options)
      invariant CancelEach(z.Now(), z.options, list[i..]) == CancelEach(s, z.options, list)
      invariant forall f :: f in list ==> f in z.status
    {
      ghost var before := z.Now();
      var f := list[i];
      UploadsKnown(before, z.options, f);
      CancelKeeps(before, z.options, f);
      CancelEachStep(before, z.options, list[i..]);
      assert list[i..][1..] == list[i + 1..];
      z.CancelUpload(f);
      i := i + 1;
    }
    CancelEachNone(z.Now(), z.options, list[i..]);
  }

  lemma CancelEachStep(s: State, o: Options, list: seq<nat>)
    requires list != []
    ensures CancelEach(s, o, list) == CancelEach(Cancel(s, o, list[0]), o, list[1..])
  {
  }

  lemma CancelEachNone(s: State, o: Options, list: seq<nat>)
    requires list == []
    ensures CancelEach(s, o, list) == s
  {
  }

  lemma FilesKnown(s: State, o: Options)
    requires Inv(s, o)
    ensures forall f :: f in s.files ==> f in s.status
  {
  }

  lemma UploadsKnown(s: State, o: Options, f: nat)
    requires Inv(s, o) && f in s.status
    ensures s.status[f] == Uploading ==> f in s.xhr
  {
  }

  // ---- whole runs ------------------------------------------------------------------------

  datatype Action =
    | AddFile(f: nat, ok: bool)
    | EnqueueFile(f: nat)
    | ProcessNow
    | Timer
    | CancelFile(f: nat)
    | RemoveFile(f: nat)
    | ReplyTo(x: nat, ok: bool)
    | DisableAll

  /** A file is added once, a request is answered once, a timer fires once. */
  predicate Possible(s: State, a: Action) {
    match a
    case AddFile(f, _) => f !in s.status
    case EnqueueFile(_) => true
    case ProcessNow => true
    case Timer => s.timers > 0
    case CancelFile(f) => f in s.status
    case RemoveFile(f) => f in s.status
    case ReplyTo(x, _) => x in s.open && x in s.requests && s.requests[x] != [] && s.requests[x][0] in s.status
    case DisableAll => true
  }

  function Next(s: State, o: Options, a: Action): State
    requires Possible(s, a)
  {
    match a
    case AddFile(f, ok) => Add(s, o, f, ok)
    case EnqueueFile(f) => if Enqueue(s, o, f).Done? then Enqueue(s, o, f).state else s
    case ProcessNow => Processed(s, o)
    case Timer => Processed(s.(timers := s.timers - 1), o)
    case CancelFile(f) => Cancel(s, o, f)
    case RemoveFile(f) => Remove(s, o, f)
    case ReplyTo(x, ok) => Reply(s, o, x, ok)
    case DisableAll => CancelEach(s, o, s.files)
  }

  datatype Reached = Reached(state: State) | Impossible

  function Run(o: Options, actions: seq<Action>): Reached {
    if actions == [] then Reached(EMPTY)
    else
      var before, last := Run(o, actions[..|actions| - 1]), actions[|actions| - 1];
      if before.Reached? && Possible(before.state, last) then Reached(Next(before.state, o, last)) else Impossible
  }

  lemma ProcessStep(s: State, t: State, o: Options)
    requires Inv(s, o) && t == s.(timers := t.timers)
    ensures Inv(Processed(t, o), o) && Forward(s.status, Processed(t, o).status) && Saturated(Processed(t, o), o)
  {
    hide Core, Saturated, Processed, With, Ready;
    SameCore(s, t, o);
    ProcessedKeeps(t, o);
    WithMembers(t.files, t.status, Queued);
    var queued := With(t.files, t.status, Queued);
    assert forall f :: f in queued[..|Ready(t, o)|] ==> f in queued;
    SetAllForward(t.status, queued[..|Ready(t, o)|], Uploading);
  }

  /** Every action keeps the invariant and leaves the files that have ended as they are. */
  lemma StepKeeps(s: State, o: Options, a: Action)
    requires Inv(s, o) && Possible(s, a)
    ensures Inv(Next(s, o, a), o) && Forward(s.status, Next(s, o, a).status)
  {
    hide Inv, Add, Cancel, Remove, Reply, CancelEach, Processed, Enqueue, Saturated;
    match a {
      case AddFile(f, ok) => AddKeeps(s, o, f, ok);
      case EnqueueFile(f) =>
        if Enqueue(s, o, f).Done? {
          EnqueueKeeps(s, o, f);
        }
      case ProcessNow => ProcessStep(s, s, o);
      case Timer => ProcessStep(s, s.(timers := s.timers - 1), o);
      case CancelFile(f) => CancelKeeps(s, o, f);
      case RemoveFile(f) => RemoveKeeps(s, o, f);
      case ReplyTo(x, ok) => ReplyKeeps(s, o, x, ok);
      case DisableAll =>
        FilesKnown(s, o);
        CancelEachKeeps(s, o, s.files);
    }
  }

  lemma {:induction false} RunKeeps(o: Options, actions: seq<Action>)
    requires Run(o, actions).Reached?
    ensures Inv(Run(o, actions).state, o)
    decreases |actions|
  {
    hide Inv, Next, Possible;
    if actions == [] {
      EmptyInv(o);
    } else {
      RunKeeps(o, actions[..|actions| - 1]);
      StepKeeps(Run(o, actions[..|actions| - 1]).state, o, actions[|actions| - 1]);
    }
  }

  lemma EmptyInv(o: Options)
    ensures Inv(EMPTY, o)
  {
  }

  // ---- the results -------------------------------------------------------------------------

  /** Never more uploads than the option allows. */
  lemma UploadsBounded(o: Options, actions: seq<Action>)
    requires Run(o, actions).Reached?
    ensures
      var s := Run(o, actions).state;
      |With(s.files, s.status, Uploading)| <= o.parallel
  {
    hide Run, Linked, Shared, Placed, Live;
    RunKeeps(o, actions);
  }

  /** With autoProcessQueue, whenever no timer is owed, no file waits while there is a slot. */
  lemma WorkConserving(o: Options, actions: seq<Action>)
    requires Run(o, actions).Reached? && o.autoProcess && Run(o, actions).state.timers == 0
    ensures
      var s := Run(o, actions).state;
      With(s.files, s.status, Queued) == [] || |With(s.files, s.status, Uploading)| == o.parallel
  {
    hide Run, Linked, Shared, Placed, Live, With;
    RunKeeps(o, actions);
  }

  /**
    * The queue runs dry: with autoProcessQueue and at least one slot, once no timer is owed and no request
    * has events to come but canceled ones, every file of the list has ended, or was never enqueued.
    */
  lemma QueueRunsDry(o: Options, actions: seq<Action>, f: nat)
    requires Run(o, actions).Reached? && o.autoProcess && o.parallel > 0
    requires Run(o, actions).state.timers == 0 && OnlyCanceledOpen(Run(o, actions).state)
    requires f in Run(o, actions).state.files
    ensures
      var s := Run(o, actions).state;
      f in s.status && (s.status[f].Terminal() || s.status[f] == Added)
  {
    hide Core, Run, With;
    var s := Run(o, actions).state;
    RunKeeps(o, actions);
    FilesKnown(s, o);
    forall g | g in s.files ensures !Has(s.status, g, Uploading) {
      NoneUploading(s, o, g);
    }
    WithNone(s.files, s.status, Uploading);
    assert With(s.files, s.status, Queued) == [];
    WithMembers(s.files, s.status, Queued);
  }

  lemma {:induction false} WithNone(files: seq<nat>, status: map<nat, Status>, v: Status)
    requires forall f :: f in files ==> !Has(status, f, v)
    ensures With(files, status, v) == []
  {
    if files != [] {
      assert files[0] in files && forall f :: f in files[1..] ==> f in files;
      assert !Has(status, files[0], v);
      WithNone(files[1..], status, v);
    }
  }

  /** The requests whose events may still come are aborted ones; a browser sends no more for these. */
  ghost predicate OnlyCanceledOpen(s: State) {
    forall x :: x in s.open && x in s.requests ==> forall f :: f in s.requests[x] ==> Has(s.status, f, Canceled)
  }

  /** Then no file is uploading. */
  lemma NoneUploading(s: State, o: Options, f: nat)
    requires Core(s, o) && OnlyCanceledOpen(s)
    ensures !Has(s.status, f, Uploading)
  {
    hide Core;
    if Has(s.status, f, Uploading) {
      GroupOfUpload(s, o, f);
      CoreRequest(s, o, s.xhr[f]);
    }
  }

  lemma GroupOfUpload(s: State, o: Options, f: nat)
    requires Core(s, o) && Has(s.status, f, Uploading)
    ensures f in s.xhr && s.xhr[f] in s.requests && f in s.requests[s.xhr[f]]
  {
    hide Shared, Live, Bounded;
  }

  /** Files that went out together have the same status from then on. */
  lemma GroupsShareStatus(o: Options, actions: seq<Action>, f: nat, g: nat)
    requires Run(o, actions).Reached?
    requires
      var s := Run(o, actions).state;
      f in s.xhr && g in s.xhr && s.xhr[f] == s.xhr[g]
    ensures
      var s := Run(o, actions).state;
      f in s.status && g in s.status && s.status[f] == s.status[g]
  {
    hide Run, Live, Placed, Bounded;
    RunKeeps(o, actions);
    var s := Run(o, actions).state;
    FileInGroup(s, f);
    FileInGroup(s, g);
    CoreRequest(s, o, s.xhr[f]);
  }

  /** SUCCESS, ERROR and CANCELED are never left, whatever happens next. */
  lemma {:induction false} EndedForGood(o: Options, actions: seq<Action>, more: seq<Action>, f: nat)
    requires Run(o, actions + more).Reached?
    ensures Run(o, actions).Reached?
    ensures f in Run(o, actions).state.status && Run(o, actions).state.status[f].Terminal() ==>
              f in Run(o, actions + more).state.status
              && Run(o, actions + more).state.status[f] == Run(o, actions).state.status[f]
    decreases |more|
  {
    hide Inv, Next, Possible;
    if more == [] {
      assert actions + more == actions;
    } else {
      var init, last := more[..|more| - 1], more[|more| - 1];
      var all := actions + more;
      assert all[..|all| - 1] == actions + init && all[|all| - 1] == last;
      EndedForGood(o, actions, init, f);
      RunKeeps(o, actions + init);
      StepKeeps(Run(o, actions + init).state, o, last);
    }
  }
}
