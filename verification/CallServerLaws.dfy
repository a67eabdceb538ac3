/** What every run of the call server keeps, up to unmounting, and what unmounting leaves. */
module CallServerLaws {
  import opened Text
  import opened Wrappers
  import opened CallServer

  // ---- paths -----------------------------------------------------------------------------

  /** Two calls have the same path exactly when their numbers differ by a multiple of 2^32. */
  lemma PathsAgree(mount: string, m: nat, n: nat)
    ensures Path(mount, m) == Path(mount, n) <==> m % INTS == n % INTS
  {
    hide PrintInt;
    if Path(mount, m) == Path(mount, n) {
      var k := |mount + "/pending/"|;
      assert PrintInt(Int32(m)) == Path(mount, m)[k..];
      assert PrintInt(Int32(n)) == Path(mount, n)[k..];
      PrintIntInjective(Int32(m), Int32(n));
    }
    SameInt32(m, n);
  }

  /** The path a page polls: the number in decimal, while it fits a C int of 32 bits, and then a negative one. */
  lemma PathPrinted(mount: string, n: nat)
    requires n < 0x1_0000_0000
    ensures Path(mount, n) ==
            if n < 0x8000_0000 then mount + "/pending/" + Digits(n, 10)
            else mount + "/pending/-" + Digits(0x1_0000_0000 - n, 10)
  {
    hide Int32, PrintInt;
    Int32Is(n);
    if n < 0x8000_0000 {
      PrintIntOf(n);
    } else {
      PrintIntOf(0x1_0000_0000 - n);
      assert Int32(n) == 0 - (0x1_0000_0000 - n);
      assert mount + "/pending/" + ("-" + Digits(0x1_0000_0000 - n, 10))
          == mount + "/pending/-" + Digits(0x1_0000_0000 - n, 10);
    }
  }

  lemma PrintIntOf(n: nat)
    ensures PrintInt(n) == Digits(n, 10)
    ensures n > 0 ==> PrintInt(0 - n) == "-" + Digits(n, 10)
  {
  }

  lemma SameInt32(m: nat, n: nat)
    ensures Int32(m) == Int32(n) <==> m % INTS == n % INTS
  {
    hide Int32;
    Int32Is(m);
    Int32Is(n);
  }

  lemma Int32Is(n: nat)
    ensures Int32(n) == if n % INTS < INTS / 2 then n % INTS else n % INTS - INTS
  {
    var q, r := n / INTS, n % INTS;
    assert n + INTS / 2 == INTS * q + (r + INTS / 2);
  }

  // ---- lists -----------------------------------------------------------------------------

  lemma {:induction false} WithoutMultiset(list: seq<nat>, n: nat)
    ensures multiset(Without(list, n)) == multiset(list) - multiset{n}
  {
    if list != [] {
      assert list == [list[0]] + list[1..];
      if list[0] != n {
        WithoutMultiset(list[1..], n);
        assert multiset(Without(list, n)) == multiset{list[0]} + (multiset(list[1..]) - multiset{n});
      }
    }
  }

  lemma WithoutElements(list: seq<nat>, n: nat)
    ensures forall m :: m in Without(list, n) ==> m in list
  {
    WithoutMultiset(list, n);
    forall m | m in Without(list, n) ensures m in list {
      assert m in multiset(Without(list, n));
      assert m in multiset(list);
    }
  }

  // ---- the invariant ---------------------------------------------------------------------

  /** Every live resource is on exactly one of the two lists, exactly once. */
  ghost predicate Listed(pending: seq<nat>, gc: seq<nat>, live: set<nat>) {
    multiset(pending) + multiset(gc) == multiset(live)
  }

  /** The path of a live resource is its own, and the registry holds the live resources and nothing else. */
  ghost predicate Registered(mount: string, callid: nat, registry: map<string, nat>, calls: map<nat, Call>) {
    && (forall n :: n in calls ==>
          n < callid && calls[n].path == Path(mount, n)
          && calls[n].path in registry && registry[calls[n].path] == n)
    && (forall p :: p in registry ==> registry[p] in calls && calls[registry[p]].path == p)
  }

  /** A call has its result once it completed, and says "pending" before; what is garbage has completed. */
  ghost predicate Truthful(callid: nat, gc: seq<nat>, calls: map<nat, Call>, results: map<nat, Json>) {
    && (forall n :: n in gc ==> n in results)
    && (forall n :: n in calls ==>
          calls[n].retbuf == (if n in results then Some(results[n]) else None)
          && (n !in results ==> calls[n].status == "pending"))
    && (forall n :: n in results ==> n < callid)
  }

  /** An open connection's hook is for a completed call that it was armed for; a closed one has none. */
  ghost predicate Hooked(armed: map<nat, nat>, results: map<nat, Json>, answered: map<nat, set<nat>>,
                         closed: set<nat>)
  {
    && (forall c :: c in armed ==> armed[c] in results && c in Ever(answered, armed[c]) && c !in closed)
    && (forall n :: n in answered ==> n in results)
  }

  function Count(log: seq<nat>, n: nat): nat {
    multiset(log)[n]
  }

  /** Every deletion of a call is by another closed connection that was armed for it. */
  ghost predicate Attributed(deletions: seq<nat>, answered: map<nat, set<nat>>, closed: set<nat>) {
    forall n :: Count(deletions, n) <= |Ever(answered, n) * closed|
  }

  /** The completed calls are the live ones and the deleted ones, and these were deleted once. */
  ghost predicate Spent(deletions: seq<nat>, results: map<nat, Json>, live: set<nat>) {
    && (forall n :: n in deletions ==> n in results && n !in live && Count(deletions, n) == 1)
    && (forall n :: n in results && n !in live ==> n in deletions)
  }

  ghost predicate Inv(s: State) {
    && !s.corrupt
    && Listed(s.pending, s.gc, s.calls.Keys)
    && Registered(s.mount, s.callid, s.registry, s.calls)
    && Truthful(s.callid, s.gc, s.calls, s.results)
    && Hooked(s.armed, s.results, s.answered, s.closed)
    && Attributed(s.deletions, s.answered, s.closed)
    && Spent(s.deletions, s.results, s.calls.Keys)
  }

  lemma MountedInv(mount: string)
    ensures Inv(Mounted(mount))
  {
  }

  // ---- every step keeps it ---------------------------------------------------------------

  lemma CreateListed(pending: seq<nat>, gc: seq<nat>, live: set<nat>, n: nat)
    requires Listed(pending, gc, live) && n !in live
    ensures Listed(pending + [n], gc, live + {n})
  {
    assert multiset(pending + [n]) == multiset(pending) + multiset{n};
    assert multiset(live + {n}) == multiset(live) + multiset{n};
  }

  lemma CreateRegistered(s: State, conn: nat, isAsync: bool)
    requires Registered(s.mount, s.callid, s.registry, s.calls)
    ensures
      var r := Create(s, conn, isAsync, true, true).0;
      Registered(r.mount, r.callid, r.registry, r.calls) <==> s.FreshPath()
  {
    hide Path;
    var n, r := s.callid, Create(s, conn, isAsync, true, true).0;
    assert n in r.calls && n !in s.calls;
    if !s.FreshPath() {
      assert r.registry[r.calls[n].path] != n;
    }
  }

  lemma CreateTruthful(callid: nat, gc: seq<nat>, calls: map<nat, Call>, results: map<nat, Json>, call: Call)
    requires Truthful(callid, gc, calls, results) && call.retbuf.None? && call.status == "pending"
    ensures Truthful(callid + 1, gc, calls[callid := call], results)
  {
  }

  /** Numbering a call keeps the invariant exactly when its path is not taken. */
  lemma CreateKeeps(s: State, conn: nat, isAsync: bool, marshals: bool, starts: bool)
    requires Inv(s)
    ensures
      var r := Create(s, conn, isAsync, marshals, starts).0;
      Inv(r) <==> !(marshals && starts) || s.FreshPath()
  {
    hide Path, Listed, Hooked, Attributed, Count;
    var r := Create(s, conn, isAsync, marshals, starts).0;
    if marshals && starts {
      var n := s.callid;
      assert n !in s.calls;
      CreateListed(s.pending, s.gc, s.calls.Keys, n);
      assert r.calls.Keys == s.calls.Keys + {n};
      CreateRegistered(s, conn, isAsync);
      CreateTruthful(n, s.gc, s.calls, s.results, r.calls[n]);
      assert n !in s.results;
    }
  }

  lemma ArmHooked(armed: map<nat, nat>, results: map<nat, Json>, answered: map<nat, set<nat>>, closed: set<nat>,
                  conn: nat, n: nat)
    requires Hooked(armed, results, answered, closed) && n in results && conn !in closed
    ensures Hooked(armed[conn := n], results, answered[n := Ever(answered, n) + {conn}], closed)
  {
    var after := answered[n := Ever(answered, n) + {conn}];
    assert forall m :: Ever(answered, m) <= Ever(after, m);
  }

  lemma ArmAttributed(deletions: seq<nat>, answered: map<nat, set<nat>>, closed: set<nat>, conn: nat, n: nat)
    requires Attributed(deletions, answered, closed) && conn !in closed
    ensures Attributed(deletions, answered[n := Ever(answered, n) + {conn}], closed)
  {
    hide Count;
    var after := answered[n := Ever(answered, n) + {conn}];
    forall m ensures Count(deletions, m) <= |Ever(after, m) * closed| {
      assert Ever(after, m) * closed == Ever(answered, m) * closed;
    }
  }

  lemma CompleteTruthful(s: State, n: nat, call: Call, results: map<nat, Json>)
    requires Truthful(s.callid, s.gc, s.calls, s.results) && s.InFlight(n) && n < s.callid
    requires call.retbuf.Some? && results == s.results[n := call.retbuf.value]
    ensures n !in s.results
    ensures Truthful(s.callid, s.gc, s.calls[n := call], results)
  {
  }

  lemma MoreResults(armed: map<nat, nat>, results: map<nat, Json>, more: map<nat, Json>,
                    answered: map<nat, set<nat>>, closed: set<nat>)
    requires Hooked(armed, results, answered, closed) && results.Keys <= more.Keys
    ensures Hooked(armed, more, answered, closed)
  {
  }

  lemma CompleteKeeps(s: State, n: nat, data: Json)
    requires Inv(s) && s.InFlight(n) && (s.calls[n].isAsync || s.calls[n].conn !in s.closed)
    ensures Inv(Complete(s, n, data).0)
  {
    hide Path, Listed, Attributed, Count, Truthful, Hooked;
    var r := Complete(s, n, data).0;
    var call := s.calls[n].(retbuf := Some(data));
    CompleteTruthful(s, n, call, r.results);
    assert r.calls == s.calls[n := call] && r.calls.Keys == s.calls.Keys;
    MoreResults(s.armed, s.results, r.results, s.answered, s.closed);
    if !call.isAsync {
      ArmHooked(s.armed, r.results, s.answered, s.closed, call.conn, n);
      ArmAttributed(s.deletions, s.answered, s.closed, call.conn, n);
    }
  }

  /** A live resource is on one of the lists and not on the other. */
  lemma OnOneList(pending: seq<nat>, gc: seq<nat>, live: set<nat>, n: nat)
    requires Listed(pending, gc, live) && n in live
    ensures multiset(pending)[n] + multiset(gc)[n] == 1
    ensures n in pending <==> n !in gc
  {
    assert multiset(live)[n] == 1;
    assert n in multiset(pending) <==> n in pending;
    assert n in multiset(gc) <==> n in gc;
  }

  lemma RemoveListed(pending: seq<nat>, gc: seq<nat>, live: set<nat>, n: nat)
    requires Listed(pending, gc, live) && n in live
    ensures Listed(Without(pending, n), Without(gc, n), live - {n})
    ensures Listed(Without(pending, n), Without(gc, n) + [n], live)
  {
    WithoutMultiset(pending, n);
    WithoutMultiset(gc, n);
    OnOneList(pending, gc, live, n);
    RemoveOnce(multiset(pending), multiset(gc), multiset(live), n);
    RemoveMember(live, n);
    assert multiset(Without(gc, n) + [n]) == multiset(Without(gc, n)) + multiset{n};
  }

  lemma RemoveOnce(p: multiset<nat>, g: multiset<nat>, l: multiset<nat>, n: nat)
    requires p + g == l && l[n] == 1
    ensures (p - multiset{n}) + (g - multiset{n}) == l - multiset{n}
    ensures (p - multiset{n}) + ((g - multiset{n}) + multiset{n}) == l
  {
    assert p[n] + g[n] == 1;
  }

  lemma RemoveMember(live: set<nat>, n: nat)
    requires n in live
    ensures multiset(live)[n] == 1 && multiset(live - {n}) == multiset(live) - multiset{n}
  {
  }

  lemma ReadoutKeeps(s: State, path: string, conn: nat)
    requires Inv(s) && conn !in s.closed
    ensures Inv(Readout(s, path, conn).0)
  {
    hide Path, Listed, Attributed, Hooked, Count, Without;
    var r := Readout(s, path, conn).0;
    if r != s {
      var n := s.registry[path];
      RemoveListed(s.pending, s.gc, s.calls.Keys, n);
      WithoutElements(s.gc, n);
      assert r.calls.Keys == s.calls.Keys;
      ArmHooked(s.armed, s.results, s.answered, s.closed, conn, n);
      ArmAttributed(s.deletions, s.answered, s.closed, conn, n);
    }
  }

  // ---- deletion --------------------------------------------------------------------------

  lemma DeleteRegistered(s: State, n: nat)
    requires Registered(s.mount, s.callid, s.registry, s.calls) && n in s.calls
    ensures Registered(s.mount, s.callid, s.registry - {s.calls[n].path}, s.calls - {n})
  {
    hide Path;
  }

  lemma DeleteTruthful(callid: nat, gc: seq<nat>, calls: map<nat, Call>, results: map<nat, Json>, n: nat)
    requires Truthful(callid, gc, calls, results)
    ensures Truthful(callid, Without(gc, n), calls - {n}, results)
  {
    WithoutElements(gc, n);
  }

  lemma DeleteSpent(deletions: seq<nat>, results: map<nat, Json>, live: set<nat>, n: nat)
    requires Spent(deletions, results, live) && n in results && n in live
    ensures Spent(deletions + [n], results, live - {n})
  {
    var after := deletions + [n];
    assert multiset(after) == multiset(deletions) + multiset{n};
    assert multiset(deletions)[n] == 0;
    forall m | m in after ensures m in results && m !in live - {n} && Count(after, m) == 1 {
      assert m in deletions || m == n;
    }
    assert after[|deletions|] == n;
    assert forall m :: m in deletions ==> m in after;
  }

  lemma CloseHooked(armed: map<nat, nat>, results: map<nat, Json>, answered: map<nat, set<nat>>, closed: set<nat>,
                    conn: nat)
    requires Hooked(armed, results, answered, closed)
    ensures Hooked(armed - {conn}, results, answered, closed + {conn})
  {
  }

  /** The deletion that a closing connection makes is paid for by that connection. */
  lemma CloseAttributed(deletions: seq<nat>, answered: map<nat, set<nat>>, closed: set<nat>, conn: nat, n: nat)
    requires Attributed(deletions, answered, closed) && conn in Ever(answered, n) && conn !in closed
    ensures Attributed(deletions + [n], answered, closed + {conn})
  {
    assert multiset(deletions + [n]) == multiset(deletions) + multiset{n};
    forall m ensures Count(deletions + [n], m) <= |Ever(answered, m) * (closed + {conn})| {
      CloseGrows(Ever(answered, m), closed, conn);
    }
  }

  lemma CloseGrows(ever: set<nat>, closed: set<nat>, conn: nat)
    ensures |ever * closed| <= |ever * (closed + {conn})|
    ensures conn in ever && conn !in closed ==> |ever * closed| + 1 == |ever * (closed + {conn})|
  {
    var more := ever * (closed + {conn});
    assert more == ever * closed + if conn in ever then {conn} else {};
    SubsetSize(ever * closed, more);
  }

  lemma CloseIdle(deletions: seq<nat>, answered: map<nat, set<nat>>, closed: set<nat>, conn: nat)
    requires Attributed(deletions, answered, closed)
    ensures Attributed(deletions, answered, closed + {conn})
  {
    hide Count;
    forall m ensures Count(deletions, m) <= |Ever(answered, m) * (closed + {conn})| {
      CloseGrows(Ever(answered, m), closed, conn);
    }
  }

  /**
    * Closing a connection keeps the invariant exactly when the call its hook is for is still live;
    * otherwise the call is deleted a second time, and at least two connections were armed for it.
    */
  lemma CloseKeeps(s: State, conn: nat)
    requires Inv(s) && conn !in s.closed
    ensures
      var r := Close(s, conn);
      && (Inv(r) <==> !r.corrupt) && (r.corrupt <==> conn in s.armed && s.armed[conn] !in s.calls)
      && Attributed(r.deletions, r.answered, r.closed)
      && (forall n :: n in r.deletions ==> n in r.results)
      && (r.corrupt ==> Count(r.deletions, s.armed[conn]) == 2 && |Ever(r.answered, s.armed[conn])| >= 2)
  {
    hide Path, Listed, Registered, Truthful, Attributed, Without, Count;
    var r := Close(s, conn);
    CloseHooked(s.armed, s.results, s.answered, s.closed, conn);
    if conn !in s.armed {
      CloseIdle(s.deletions, s.answered, s.closed, conn);
    } else {
      var n := s.armed[conn];
      CloseAttributed(s.deletions, s.answered, s.closed, conn, n);
      if n in s.calls {
        RemoveListed(s.pending, s.gc, s.calls.Keys, n);
        DeleteRegistered(s, n);
        DeleteTruthful(s.callid, s.gc, s.calls, s.results, n);
        DeleteSpent(s.deletions, s.results, s.calls.Keys, n);
        assert r.calls.Keys == s.calls.Keys - {n};
      } else {
        assert n in s.deletions && Count(s.deletions, n) == 1;
        TwoConnections(r.deletions, r.answered, r.closed, s.deletions, n);
      }
    }
  }

  lemma TwoConnections(after: seq<nat>, answered: map<nat, set<nat>>, closed: set<nat>, before: seq<nat>, n: nat)
    requires Attributed(after, answered, closed) && after == before + [n] && Count(before, n) == 1
    ensures Count(after, n) == 2 && |Ever(answered, n)| >= 2
  {
    assert multiset(after) == multiset(before) + multiset{n};
    SubsetSize(Ever(answered, n) * closed, Ever(answered, n));
  }

  lemma SubsetSize(a: set<nat>, b: set<nat>)
    requires a <= b
    ensures |a| <= |b|
  {
    assert b == a + (b - a);
  }

  // ---- whole runs ------------------------------------------------------------------------

  datatype Step =
    | Request(conn: nat, isAsync: bool, marshals: bool, starts: bool)
    | Completion(n: nat, data: Json)
    | Read(path: string, conn: nat)
    | Closing(conn: nat)

  /**
    * What the environment may do: requests come on open connections, a synchronous caller stays until
    * it is answered, the node completes a call once, a path is not given out while it is in use. After
    * memory was freed twice nothing is said any more.
    */
  predicate Enabled(s: State, step: Step) {
    && !s.corrupt
    && match step
       case Request(conn, _, marshals, starts) => conn !in s.closed && (marshals && starts ==> s.FreshPath())
       case Completion(n, _) => s.InFlight(n) && (s.calls[n].isAsync || s.calls[n].conn !in s.closed)
       case Read(_, conn) => conn !in s.closed
       case Closing(conn) => conn !in s.closed
  }

  function Apply(s: State, step: Step): State
    requires Enabled(s, step)
  {
    match step
    case Request(conn, isAsync, marshals, starts) => Create(s, conn, isAsync, marshals, starts).0
    case Completion(n, data) => Complete(s, n, data).0
    case Read(path, conn) => Readout(s, path, conn).0
    case Closing(conn) => Close(s, conn)
  }

  /** The state at the end of a run from mounting, if every step of it is one the environment may take. */
  function Run(mount: string, steps: seq<Step>): Option<State> {
    if steps == [] then Some(Mounted(mount))
    else
      var before, last := Run(mount, steps[..|steps| - 1]), steps[|steps| - 1];
      if before.Some? && Enabled(before.value, last) then Some(Apply(before.value, last)) else None
  }

  /** What holds even after a double deletion. */
  ghost predicate Sound(s: State) {
    && (!s.corrupt ==> Inv(s))
    && Attributed(s.deletions, s.answered, s.closed)
    && (forall n :: n in s.deletions ==> n in s.results)
    && (s.corrupt ==> exists n :: Count(s.deletions, n) == 2 && |Ever(s.answered, n)| >= 2)
  }

  lemma StepSound(s: State, step: Step)
    requires Inv(s) && Enabled(s, step)
    ensures Sound(Apply(s, step))
  {
    hide Listed, Registered, Truthful, Hooked, Attributed, Create, Complete, Readout, Close, Count, Ever;
    match step {
      case Request(conn, isAsync, marshals, starts) =>
        CreateKeeps(s, conn, isAsync, marshals, starts);
      case Completion(n, data) =>
        CompleteKeeps(s, n, data);
      case Read(path, conn) =>
        ReadoutKeeps(s, path, conn);
      case Closing(conn) =>
        CloseKeeps(s, conn);
    }
  }

  lemma {:induction false} RunSound(mount: string, steps: seq<Step>, s: State)
    requires Run(mount, steps) == Some(s)
    ensures Sound(s)
    decreases |steps|
  {
    hide Inv, Apply, Attributed, Count, Ever;
    if steps == [] {
      MountedInv(mount);
      NothingYet(mount);
    } else {
      var last := steps[|steps| - 1];
      var before := Run(mount, steps[..|steps| - 1]).value;
      RunSound(mount, steps[..|steps| - 1], before);
      StepSound(before, last);
    }
  }

  lemma NothingYet(mount: string)
    ensures Attributed(Mounted(mount).deletions, Mounted(mount).answered, Mounted(mount).closed)
  {
  }

  /** In every run, no resource is deleted before its call completed. */
  lemma NoEarlyDeletion(mount: string, steps: seq<Step>, s: State, n: nat)
    requires Run(mount, steps) == Some(s) && n in s.deletions
    ensures n in s.results
  {
    hide Attributed, Inv, Count, Ever;
    RunSound(mount, steps, s);
  }

  /** In a run that answers each call on one connection only, no resource is deleted twice. */
  lemma DeletedOnce(mount: string, steps: seq<Step>, s: State)
    requires Run(mount, steps) == Some(s) && forall n :: |Ever(s.answered, n)| <= 1
    ensures !s.corrupt && Inv(s)
    ensures forall n :: Count(s.deletions, n) <= 1
  {
    hide Listed, Registered, Truthful, Hooked, Ever;
    RunSound(mount, steps, s);
    forall n ensures Count(s.deletions, n) <= 1 {
      if n in s.deletions {
        assert Count(s.deletions, n) == 1;
      }
    }
  }

  /** Reading one result over two connections and closing both always deletes the resource twice. */
  lemma TwoReadersCorrupt(s: State, n: nat, a: nat, b: nat)
    requires Inv(s) && n in s.calls && n in s.results
    requires a != b && a !in s.closed && b !in s.closed
    ensures
      var path := s.calls[n].path;
      Close(Close(Readout(Readout(s, path, a).0, path, b).0, a), b).corrupt
  {
    hide Path, Listed, Hooked, Attributed, Spent, Without, Ever;
    var path := s.calls[n].path;
    var one := Readout(s, path, a).0;
    var two := Readout(one, path, b).0;
    assert two.armed[a] == n && two.armed[b] == n;
    assert two.calls.Keys == s.calls.Keys;
  }

  lemma RunStep(mount: string, steps: seq<Step>, step: Step)
    requires Run(mount, steps).Some? && Enabled(Run(mount, steps).value, step)
    ensures Run(mount, steps + [step]) == Some(Apply(Run(mount, steps).value, step))
  {
    hide Enabled, Apply;
    assert (steps + [step])[..|steps|] == steps;
  }

  /** A run that does it: one call, one result, two readers, two closed connections. */
  lemma TwoReadersRun(mount: string, data: Json)
    ensures
      var path := Path(mount, 0);
      var steps :=
        [Request(0, true, true, true), Completion(0, data), Read(path, 1), Read(path, 2), Closing(1), Closing(2)];
      Run(mount, steps).Some? && Run(mount, steps).value.corrupt && Run(mount, steps).value.deletions == [0, 0]
  {
    hide Run, Path, Without, Ever;
    var path := Path(mount, 0);
    var steps := [Request(0, true, true, true), Completion(0, data)];
    OneCompleted(mount, data);
    RunStep(mount, steps, Read(path, 1));
    var one := steps + [Read(path, 1)];
    RunStep(mount, one, Read(path, 2));
    var two := one + [Read(path, 2)];
    RunStep(mount, two, Closing(1));
    var three := two + [Closing(1)];
    RunStep(mount, three, Closing(2));
    assert three + [Closing(2)] ==
           [Request(0, true, true, true), Completion(0, data), Read(path, 1), Read(path, 2), Closing(1), Closing(2)];
  }

  lemma OneCompleted(mount: string, data: Json)
    ensures
      var steps, path := [Request(0, true, true, true), Completion(0, data)], Path(mount, 0);
      && Run(mount, steps).Some?
      && var s := Run(mount, steps).value;
         && s.registry == map[path := 0] && s.calls == map[0 := Call(path, true, 0, Some(data), "pending")]
         && s.armed == map[] && s.deletions == [] && s.closed == {} && !s.corrupt
  {
    hide Run, Path;
    RunNothing(mount);
    RunStep(mount, [], Request(0, true, true, true));
    assert [] + [Request(0, true, true, true)] == [Request(0, true, true, true)];
    RunStep(mount, [Request(0, true, true, true)], Completion(0, data));
    assert [Request(0, true, true, true)] + [Completion(0, data)] ==
           [Request(0, true, true, true), Completion(0, data)];
  }

  lemma RunNothing(mount: string)
    ensures Run(mount, []) == Some(Mounted(mount))
  {
  }

  /** One asynchronous call, and then as many as wanted that the node refuses to start. */
  function CallThenRefusals(refusals: nat): seq<Step> {
    if refusals == 0 then [Request(0, true, true, true)]
    else CallThenRefusals(refusals - 1) + [Request(0, true, true, false)]
  }

  /** Every refusal uses up a number all the same. */
  lemma {:induction false} RefusalsCount(mount: string, refusals: nat)
    ensures Run(mount, CallThenRefusals(refusals)).Some?
    ensures
      var s := Run(mount, CallThenRefusals(refusals)).value;
      s == Create(Mounted(mount), 0, true, true, true).0.(callid := 1 + refusals)
  {
    hide Run, Path;
    if refusals == 0 {
      RunNothing(mount);
      RunStep(mount, [], Request(0, true, true, true));
      assert [] + [Request(0, true, true, true)] == [Request(0, true, true, true)];
    } else {
      RefusalsCount(mount, refusals - 1);
      RunStep(mount, CallThenRefusals(refusals - 1), Request(0, true, true, false));
    }
  }

  /**
    * The counter wraps: after 2^32 - 1 refusals the first call is still pending and the next one would
    * get its path, be refused by the registry, and be out of reach.
    */
  lemma WrappedPathIsTaken(mount: string, conn: nat)
    ensures
      var steps := CallThenRefusals(INTS - 1);
      && Run(mount, steps).Some?
      && var s := Run(mount, steps).value;
         && Inv(s) && s.InFlight(0) && s.callid == INTS && !s.FreshPath()
         && var (t, reply) := Create(s, conn, true, true, true);
            !Inv(t) && reply == AcceptedAt(s.calls[0].path) && INTS in t.calls && t.registry[s.calls[0].path] == 0
  {
    hide Run, Path, CallThenRefusals, Inv;
    var steps := CallThenRefusals(INTS - 1);
    RefusalsCount(mount, INTS - 1);
    var s := Run(mount, steps).value;
    RunSound(mount, steps, s);
    PathsAgree(mount, 0, INTS);
    CreateKeeps(s, conn, true, true, true);
  }

  /** A readout says "pending" or gives the result the node gave; it never says "dead". */
  lemma ReadoutTruthful(s: State, path: string, conn: nat)
    requires Inv(s)
    ensures
      var reply := Readout(s, path, conn).1;
      if path !in s.registry then reply == NotFound
      else
        var n := s.registry[path];
        reply == if n in s.results then Result(s.results[n]) else Status("pending")
  {
    hide Path, Listed, Hooked, Attributed, Spent, Without;
  }

  // ---- what is freed, and when -----------------------------------------------------------

  /** Nothing of a call is left. */
  ghost predicate Gone(s: State, n: nat, path: string) {
    n !in s.calls && n !in s.pending && n !in s.gc && path !in s.registry
  }

  /** The connection a hook was set for closes: its call is deleted, and nothing of it is left. */
  lemma ClosedAndFreed(s: State, conn: nat, n: nat)
    requires Inv(s) && conn in s.armed && s.armed[conn] == n && n in s.calls
    ensures
      var t := Close(s, conn);
      !t.corrupt && Gone(t, n, s.calls[n].path) && t.deletions == s.deletions + [n]
  {
    hide Path, Truthful, Hooked, Attributed, Spent, Without;
    var after := s.(closed := s.closed + {conn}, armed := s.armed - {conn});
    assert Orderly(after);
    DeleteOrderly(after, n);
    NotListed(Delete(after, n), n);
  }

  lemma NotListed(s: State, n: nat)
    requires Orderly(s) && n !in s.calls
    ensures n !in s.pending && n !in s.gc
  {
    if n in s.pending || n in s.gc {
      ListedLive(s.pending, s.gc, s.calls.Keys, n);
    }
  }

  /** A synchronous call is freed by the connection that it is answered on, as soon as that closes. */
  lemma SynchronousFreed(s: State, n: nat, data: Json)
    requires Inv(s) && s.InFlight(n) && !s.calls[n].isAsync && s.calls[n].conn !in s.closed
    ensures
      var (t, reply) := Complete(s, n, data);
      var u := Close(t, s.calls[n].conn);
      && reply == Result(data)
      && !u.corrupt && Gone(u, n, s.calls[n].path) && u.deletions == s.deletions + [n]
  {
    hide Inv, Close, Gone;
    CompleteKeeps(s, n, data);
    ClosedAndFreed(Complete(s, n, data).0, s.calls[n].conn, n);
  }

  /** The completion of an asynchronous call is told to nobody; whoever reads its path from then on gets the result. */
  lemma AsynchronousWaits(s: State, n: nat, data: Json, conn: nat)
    requires Inv(s) && s.InFlight(n) && s.calls[n].isAsync
    ensures
      var (t, reply) := Complete(s, n, data);
      && reply == NoReply && t.armed == s.armed && t.answered == s.answered && t.pending == s.pending
      && Readout(t, s.calls[n].path, conn).1 == Result(data)
  {
    hide Path, Listed, Hooked, Attributed, Spent, Without;
  }

  /** An asynchronous call is freed by the connection that its result is read on; it waits for that as garbage. */
  lemma ReadFreed(s: State, path: string, conn: nat)
    requires Inv(s) && conn !in s.closed && path in s.registry && s.registry[path] in s.results
    ensures
      var n, (t, reply) := s.registry[path], Readout(s, path, conn);
      var u := Close(t, conn);
      && reply == Result(s.results[n]) && n !in t.pending && n in t.gc && t.calls[n].status == "dead"
      && !u.corrupt && Gone(u, n, path) && u.deletions == s.deletions + [n]
  {
    hide Close, Gone, Without, Listed, Hooked, Attributed, Spent, Path;
    var n, t := s.registry[path], Readout(s, path, conn).0;
    ReadoutTruthful(s, path, conn);
    ReadoutKeeps(s, path, conn);
    assert n in t.gc;
    OnOneList(t.pending, t.gc, t.calls.Keys, n);
    ClosedAndFreed(t, conn, n);
  }

  /**
    * What the answer to a new call means: refused arguments leave everything as it is, a node that refuses
    * uses up a number, and otherwise the call is pending; an asynchronous one is, at the path in the answer.
    */
  lemma CreateTells(s: State, conn: nat, isAsync: bool, marshals: bool, starts: bool, other: nat)
    requires Inv(s) && (marshals && starts ==> s.FreshPath())
    ensures
      var n, (t, reply) := s.callid, Create(s, conn, isAsync, marshals, starts);
      && (reply == BadRequest <==> !marshals) && (reply == BadRequest ==> t == s)
      && (reply == StartFailed <==> marshals && !starts) && (reply == StartFailed ==> t == s.(callid := n + 1))
      && (marshals && starts ==>
            && t.InFlight(n) && t.calls[n].conn == conn && t.calls[n].isAsync == isAsync
            && t.pending == s.pending + [n] && t.gc == s.gc && t.callid == n + 1
            && reply == (if isAsync then AcceptedAt(Path(s.mount, n)) else NoReply)
            && Readout(t, Path(s.mount, n), other) == (t, Status("pending")))
  {
    hide Path, Listed, Registered, Truthful, Hooked, Attributed, Spent;
  }

  /** A connection that more than one call was answered on has only the hook of the last. */
  ghost predicate Reused(answered: map<nat, set<nat>>, conn: nat, n: nat) {
    exists m :: m != n && conn in Ever(answered, m)
  }

  /** A live call still has the hook of each of its connections, unless a later call took it. */
  ghost predicate Awaited(live: set<nat>, armed: map<nat, nat>, answered: map<nat, set<nat>>, closed: set<nat>) {
    forall n, c :: n in live && c in Ever(answered, n) ==>
      Reused(answered, c, n) || (c !in closed && c in armed && armed[c] == n)
  }

  lemma ArmAwaited(live: set<nat>, armed: map<nat, nat>, answered: map<nat, set<nat>>, closed: set<nat>, conn: nat,
                   n: nat)
    requires Awaited(live, armed, answered, closed) && conn !in closed
    ensures Awaited(live, armed[conn := n], answered[n := Ever(answered, n) + {conn}], closed)
  {
    var after := answered[n := Ever(answered, n) + {conn}];
    forall m, c | m in live && c in Ever(after, m)
      ensures Reused(after, c, m) || (c !in closed && c in armed[conn := n] && armed[conn := n][c] == m)
    {
      if m != n {
        assert c in Ever(answered, m);
        if c == conn {
          assert n != m && c in Ever(after, n);
        }
      }
      if Reused(answered, c, m) {
        var k :| k != m && c in Ever(answered, k);
        assert c in Ever(after, k);
      }
    }
  }

  lemma CloseAwaited(live: set<nat>, armed: map<nat, nat>, answered: map<nat, set<nat>>, closed: set<nat>, conn: nat)
    requires Awaited(live, armed, answered, closed)
    ensures
      var left := if conn in armed then live - {armed[conn]} else live;
      Awaited(left, armed - {conn}, answered, closed + {conn})
  {
  }

  lemma NewAwaited(live: set<nat>, armed: map<nat, nat>, answered: map<nat, set<nat>>, closed: set<nat>, n: nat)
    requires Awaited(live, armed, answered, closed) && Ever(answered, n) == {}
    ensures Awaited(live + {n}, armed, answered, closed)
  {
  }

  ghost predicate StateAwaited(s: State) {
    Awaited(s.calls.Keys, s.armed, s.answered, s.closed)
  }

  lemma CreateAwaited(s: State, conn: nat, isAsync: bool, marshals: bool, starts: bool)
    requires Inv(s) && StateAwaited(s)
    ensures StateAwaited(Create(s, conn, isAsync, marshals, starts).0)
  {
    hide Path, Inv, Awaited, Ever;
    Unanswered(s, s.callid);
    NewAwaited(s.calls.Keys, s.armed, s.answered, s.closed, s.callid);
    var r := Create(s, conn, isAsync, marshals, starts).0;
    if marshals && starts {
      assert r.calls.Keys == s.calls.Keys + {s.callid};
    }
  }

  lemma CompleteAwaited(s: State, n: nat, data: Json)
    requires StateAwaited(s) && s.InFlight(n) && (s.calls[n].isAsync || s.calls[n].conn !in s.closed)
    ensures StateAwaited(Complete(s, n, data).0)
  {
    hide Awaited, Ever;
    assert Complete(s, n, data).0.calls.Keys == s.calls.Keys;
    if !s.calls[n].isAsync {
      ArmAwaited(s.calls.Keys, s.armed, s.answered, s.closed, s.calls[n].conn, n);
    }
  }

  lemma ReadoutAwaited(s: State, path: string, conn: nat)
    requires StateAwaited(s) && conn !in s.closed
    ensures StateAwaited(Readout(s, path, conn).0)
  {
    hide Awaited, Ever, Without;
    assert Readout(s, path, conn).0.calls.Keys == s.calls.Keys;
    if path in s.registry {
      ArmAwaited(s.calls.Keys, s.armed, s.answered, s.closed, conn, s.registry[path]);
    }
  }

  lemma ClosingAwaited(s: State, conn: nat)
    requires StateAwaited(s) && !Close(s, conn).corrupt
    ensures StateAwaited(Close(s, conn))
  {
    hide Awaited, Ever, Without;
    CloseAwaited(s.calls.Keys, s.armed, s.answered, s.closed, conn);
    assert conn in s.armed ==> (s.calls - {s.armed[conn]}).Keys == s.calls.Keys - {s.armed[conn]};
  }

  lemma StepAwaited(s: State, step: Step)
    requires Inv(s) && Enabled(s, step) && StateAwaited(s) && !Apply(s, step).corrupt
    ensures StateAwaited(Apply(s, step))
  {
    hide Inv, StateAwaited, Create, Complete, Readout, Close;
    match step {
      case Request(conn, isAsync, marshals, starts) => CreateAwaited(s, conn, isAsync, marshals, starts);
      case Completion(n, data) => CompleteAwaited(s, n, data);
      case Read(path, conn) => ReadoutAwaited(s, path, conn);
      case Closing(conn) => ClosingAwaited(s, conn);
    }
  }

  lemma Unanswered(s: State, n: nat)
    requires Inv(s) && n >= s.callid
    ensures Ever(s.answered, n) == {}
  {
    hide Path, Listed, Registered, Attributed, Spent;
  }

  lemma {:induction false} RunAwaited(mount: string, steps: seq<Step>, s: State)
    requires Run(mount, steps) == Some(s) && !s.corrupt
    ensures StateAwaited(s)
    decreases |steps|
  {
    hide Inv, Apply, Attributed, Count, Ever, StateAwaited;
    if steps == [] {
      NothingAwaited(mount);
    } else {
      var last := steps[|steps| - 1];
      var before := Run(mount, steps[..|steps| - 1]).value;
      RunSound(mount, steps[..|steps| - 1], before);
      RunAwaited(mount, steps[..|steps| - 1], before);
      StepAwaited(before, last);
    }
  }

  lemma NothingAwaited(mount: string)
    ensures StateAwaited(Mounted(mount))
  {
  }

  /**
    * In every run: once a connection that a call was answered on has closed, the call is deleted, unless
    * another call was answered on that connection too.
    */
  lemma FreedInTheEnd(mount: string, steps: seq<Step>, s: State, n: nat, conn: nat)
    requires Run(mount, steps) == Some(s) && !s.corrupt
    requires conn in Ever(s.answered, n) && conn in s.closed && !Reused(s.answered, conn, n)
    ensures n !in s.calls && n in s.deletions
  {
    hide Path, Listed, Registered, Truthful, Attributed;
    RunSound(mount, steps, s);
    RunAwaited(mount, steps, s);
    assert n in s.answered && n in s.results;
  }

  // ---- unmounting ------------------------------------------------------------------------

  lemma {:induction false} WithoutAbsent(list: seq<nat>, n: nat)
    requires n !in list
    ensures Without(list, n) == list
  {
    if list != [] {
      assert list[0] in list && n !in list[1..];
      WithoutAbsent(list[1..], n);
    }
  }

  ghost predicate Orderly(s: State) {
    !s.corrupt && Listed(s.pending, s.gc, s.calls.Keys) && Registered(s.mount, s.callid, s.registry, s.calls)
  }

  lemma DeleteOrderly(s: State, n: nat)
    requires Orderly(s) && n in s.calls
    ensures Orderly(Delete(s, n))
    ensures n !in s.pending ==> Delete(s, n).pending == s.pending
    ensures n !in s.gc ==> Delete(s, n).gc == s.gc
  {
    hide Path, Without, Listed;
    RemoveListed(s.pending, s.gc, s.calls.Keys, n);
    DeleteRegistered(s, n);
    assert Delete(s, n).calls.Keys == s.calls.Keys - {n};
    if n !in s.pending {
      WithoutAbsent(s.pending, n);
    }
    if n !in s.gc {
      WithoutAbsent(s.gc, n);
    }
  }

  lemma ListedLive(pending: seq<nat>, gc: seq<nat>, live: set<nat>, n: nat)
    requires Listed(pending, gc, live) && (n in pending || n in gc)
    ensures n in live
  {
    assert n in multiset(pending) + multiset(gc);
  }

  lemma {:induction false} DeletePending(s: State)
    requires Orderly(s)
    ensures
      var r := DeleteAll(s, s.pending);
      Orderly(r) && r.pending == [] && r.gc == s.gc && r.deletions == s.deletions + s.pending && r.armed == s.armed
    decreases |s.pending|
  {
    hide Listed, Registered;
    if s.pending != [] {
      var n := s.pending[0];
      ListedLive(s.pending, s.gc, s.calls.Keys, n);
      OnOneList(s.pending, s.gc, s.calls.Keys, n);
      DeleteOrderly(s, n);
      var r := Delete(s, n);
      DeletePending(r);
      assert s.deletions + s.pending == s.deletions + [n] + s.pending[1..];
    }
  }

  lemma {:induction false} DeleteGarbage(s: State)
    requires Orderly(s)
    ensures
      var r := DeleteAll(s, s.gc);
      Orderly(r) && r.gc == [] && r.pending == s.pending && r.deletions == s.deletions + s.gc && r.armed == s.armed
    decreases |s.gc|
  {
    hide Listed, Registered;
    if s.gc != [] {
      var n := s.gc[0];
      ListedLive(s.pending, s.gc, s.calls.Keys, n);
      OnOneList(s.pending, s.gc, s.calls.Keys, n);
      DeleteOrderly(s, n);
      var r := Delete(s, n);
      DeleteGarbage(r);
      assert s.deletions + s.gc == s.deletions + [n] + s.gc[1..];
    }
  }

  /**
    * Unmounting after any run that stayed sound: every live resource is deleted once, and nothing is
    * left on the lists, in memory or in the registry.
    */
  lemma CleanupEmpties(s: State)
    requires Inv(s)
    ensures
      var r := Cleanup(s);
      && !r.corrupt && r.pending == [] && r.gc == [] && r.calls == map[] && r.registry == map[]
      && r.deletions == s.deletions + s.pending + s.gc && r.armed == s.armed
      && (forall n :: Count(r.deletions, n) <= 1)
  {
    hide Path, Truthful, Hooked, Attributed, DeleteAll;
    DeletePending(s);
    var mid := DeleteAll(s, s.pending);
    DeleteGarbage(mid);
    var r := DeleteAll(mid, mid.gc);
    assert multiset(r.calls.Keys) == multiset{};
    assert forall n :: n in r.calls.Keys ==> n in multiset(r.calls.Keys);
    assert r.calls == map[];
    assert r.registry == map[] by { assert forall p :: p !in r.registry; }
    CountOnce(s, r.deletions);
  }

  lemma CountOnce(s: State, log: seq<nat>)
    requires Listed(s.pending, s.gc, s.calls.Keys) && Spent(s.deletions, s.results, s.calls.Keys)
    requires log == s.deletions + s.pending + s.gc
    ensures forall n :: Count(log, n) <= 1
  {
    assert multiset(log) == multiset(s.deletions) + (multiset(s.pending) + multiset(s.gc));
    forall n ensures Count(log, n) <= 1 {
      if n in s.deletions {
        assert n !in multiset(s.calls.Keys);
      } else {
        assert n !in multiset(s.deletions);
      }
    }
  }

  /** Closing a connection after that frees memory again exactly when its hook was still armed. */
  lemma CloseAfterUnmount(s: State, conn: nat)
    requires Inv(s)
    ensures Close(Cleanup(s), conn).corrupt <==> conn in s.armed
  {
    hide Inv, Cleanup, Count;
    CleanupEmpties(s);
  }

  /** A run that does it: one call, one result, one reader whose connection is open when the server unmounts. */
  lemma UnmountedTooEarly(mount: string, data: Json)
    ensures
      var steps := [Request(0, true, true, true), Completion(0, data), Read(Path(mount, 0), 1)];
      && Run(mount, steps).Some? && Inv(Run(mount, steps).value)
      && Close(Cleanup(Run(mount, steps).value), 1).corrupt
  {
    hide Run, Path, Without, Ever, Inv, Cleanup, Close;
    var steps, read := [Request(0, true, true, true), Completion(0, data)], Read(Path(mount, 0), 1);
    OneCompleted(mount, data);
    RunStep(mount, steps, read);
    assert steps + [read] == [Request(0, true, true, true), Completion(0, data), read];
    var s := Run(mount, steps + [read]).value;
    RunSound(mount, steps + [read], s);
    CloseAfterUnmount(s, 1);
  }

  // ---- 32-bit numbers --------------------------------------------------------------------

  /** As long as fewer than 2^32 calls are numbered while one is live, the next path is free. */
  lemma WindowGivesFreshPath(s: State)
    requires Inv(s) && forall n :: n in s.calls ==> s.callid - n < INTS
    ensures s.FreshPath()
  {
    hide Path, Listed, Hooked, Attributed, Truthful, Spent;
    if !s.FreshPath() {
      var n := s.registry[Path(s.mount, s.callid)];
      PathsAgree(s.mount, n, s.callid);
      CloseNumbers(n, s.callid);
      assert false;
    }
  }

  lemma CloseNumbers(m: nat, n: nat)
    requires m < n && n - m < INTS
    ensures m % INTS != n % INTS
  {
  }

  lemma CreateNumber(s: State, conn: nat, isAsync: bool, marshals: bool, starts: bool)
    ensures Create(s, conn, isAsync, marshals, starts).0.callid <= s.callid + 1
  {
  }

  lemma CompleteNumber(s: State, n: nat, data: Json)
    requires s.InFlight(n)
    ensures Complete(s, n, data).0.callid == s.callid
  {
  }

  lemma ReadoutNumber(s: State, path: string, conn: nat)
    ensures Readout(s, path, conn).0.callid == s.callid
  {
  }

  lemma CloseNumber(s: State, conn: nat)
    ensures Close(s, conn).callid == s.callid
  {
  }

  ghost predicate ResultsKept(s: State, t: State) {
    forall n :: n in s.results ==> n in t.results && t.results[n] == s.results[n]
  }

  lemma CreateResults(s: State, conn: nat, isAsync: bool, marshals: bool, starts: bool)
    ensures ResultsKept(s, Create(s, conn, isAsync, marshals, starts).0)
  {
  }

  /** A call completes once, so its result is never replaced. */
  lemma CompleteResults(s: State, n: nat, data: Json)
    requires Inv(s) && s.InFlight(n)
    ensures ResultsKept(s, Complete(s, n, data).0)
  {
    hide Path, Listed, Registered, Hooked, Attributed, Spent;
    assert n !in s.results;
  }

  lemma ReadoutResults(s: State, path: string, conn: nat)
    ensures ResultsKept(s, Readout(s, path, conn).0)
  {
  }

  lemma CloseResults(s: State, conn: nat)
    ensures ResultsKept(s, Close(s, conn))
  {
  }

  /** A step numbers at most one call. */
  lemma StepNumbers(s: State, step: Step)
    requires Enabled(s, step)
    ensures Apply(s, step).callid <= s.callid + 1
  {
    hide Create, Complete, Readout, Close;
    match step {
      case Request(conn, isAsync, marshals, starts) => CreateNumber(s, conn, isAsync, marshals, starts);
      case Completion(n, data) => CompleteNumber(s, n, data);
      case Read(path, conn) => ReadoutNumber(s, path, conn);
      case Closing(conn) => CloseNumber(s, conn);
    }
  }

  lemma {:induction false} RunNumbers(mount: string, steps: seq<Step>)
    requires Run(mount, steps).Some?
    ensures Run(mount, steps).value.callid <= |steps|
    decreases |steps|
  {
    hide Apply, Enabled;
    if steps != [] {
      RunNumbers(mount, steps[..|steps| - 1]);
      StepNumbers(Run(mount, steps[..|steps| - 1]).value, steps[|steps| - 1]);
    }
  }

  /** So in a run of fewer than 2^32 steps a call never meets a path in use: asking for a free one excludes nothing. */
  lemma ShortRunsHaveFreshPaths(mount: string, steps: seq<Step>, s: State)
    requires Run(mount, steps) == Some(s) && |steps| < INTS && !s.corrupt
    ensures s.FreshPath()
  {
    hide Run, Path, Inv, State.FreshPath;
    RunSound(mount, steps, s);
    RunNumbers(mount, steps);
    WindowGivesFreshPath(s);
  }

  /** Live paths are pairwise distinct. */
  lemma LivePathsDistinct(s: State, m: nat, n: nat)
    requires Inv(s) && m in s.calls && n in s.calls && s.calls[m].path == s.calls[n].path
    ensures m == n
  {
    hide Path, Listed, Hooked, Attributed, Truthful, Spent;
  }
}
