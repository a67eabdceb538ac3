/**
  * The callbacks of the server as the code runs them, over the lists, tables and counters they update. The
  * state of the object is always what the functions make of it, so it keeps the invariant where they do.
  */
module CallNode {
  import opened Wrappers
  import opened CallServer
  import opened CallServerLaws

  lemma CreateKeepsInv(s: State, conn: nat, isAsync: bool, marshals: bool, starts: bool)
    ensures Inv(s) ==> (Inv(Create(s, conn, isAsync, marshals, starts).0) <==> !(marshals && starts) || s.FreshPath())
  {
    hide Inv, Create;
    if Inv(s) {
      CreateKeeps(s, conn, isAsync, marshals, starts);
    }
  }

  lemma DeleteKeepsOrder(s: State, n: nat)
    ensures Orderly(s) && n in s.calls ==> Orderly(Delete(s, n))
  {
    hide Orderly, Delete;
    if Orderly(s) && n in s.calls {
      DeleteOrderly(s, n);
    }
  }

  class Node {
    const mount: string
    var callid: nat
    var pending: seq<nat>
    var gc: seq<nat>
    var registry: map<string, nat>
    var calls: map<nat, Call>
    var armed: map<nat, nat>
    ghost var corrupt: bool
    ghost var results: map<nat, Json>
    ghost var deletions: seq<nat>
    ghost var answered: map<nat, set<nat>>
    ghost var closed: set<nat>

    ghost function Now(): State
      reads this
    {
      State(mount, callid, pending, gc, registry, calls, armed, corrupt, results, deletions, answered, closed)
    }

    constructor (mount: string)
      ensures Now() == Mounted(mount) && Inv(Now())
    {
      this.mount := mount;
      callid, pending, gc, registry, calls, armed := 0, [], [], map[], map[], map[];
      corrupt, results, deletions, answered, closed := false, map[], [], map[], {};
      new;
      MountedInv(mount);
    }

    method SetCloseHook(conn: nat, n: nat)
      modifies this`armed, this`answered
      ensures Now() == old(Now()).Arm(conn, n)
    {
      answered := answered[n := Ever(answered, n) + {conn}];
      armed := armed[conn := n];
    }

    /** evhttp_set_cb, which refuses a path that is taken, and list_add_tail. */
    method Enlist(n: nat, call: Call)
      modifies this`calls, this`registry, this`pending
      ensures calls == old(calls)[n := call] && pending == old(pending) + [n]
      ensures registry == if call.path in old(registry) then old(registry) else old(registry)[call.path := n]
    {
      calls := calls[n := call];
      if call.path !in registry {
        registry := registry[call.path := n];
      }
      pending := pending + [n];
    }

    method CallCreate(conn: nat, isAsync: bool, marshals: bool, starts: bool) returns (reply: Reply)
      modifies this
      ensures (Now(), reply) == Create(old(Now()), conn, isAsync, marshals, starts)
      ensures old(Inv(Now())) ==> (Inv(Now()) <==> !(marshals && starts) || old(Now().FreshPath()))
    {
      hide Inv, Path, State.FreshPath;
      CreateKeepsInv(Now(), conn, isAsync, marshals, starts);
      if !marshals {
        return BadRequest;
      }
      var n := callid;
      callid := callid + 1;
      var path := Path(mount, n);
      if !starts {
        return StartFailed;
      }
      Enlist(n, Call(path, isAsync, conn, None, "pending"));
      reply := if isAsync then AcceptedAt(path) else NoReply;
    }

    method CallCompleted(n: nat, data: Json) returns (reply: Reply)
      requires Now().InFlight(n)
      modifies this
      ensures (Now(), reply) == Complete(old(Now()), n, data)
      ensures old(Inv(Now())) && (old(calls[n].isAsync) || old(calls[n].conn !in closed)) ==> Inv(Now())
    {
      hide Inv, Ever;
      if Inv(Now()) && (calls[n].isAsync || calls[n].conn !in closed) {
        CompleteKeeps(Now(), n, data);
      }
      calls := calls[n := calls[n].(retbuf := Some(data))];
      results := results[n := data];
      if calls[n].isAsync {
        return NoReply;
      }
      SetCloseHook(calls[n].conn, n);
      reply := Result(data);
    }

    method ResourceReadout(path: string, conn: nat) returns (reply: Reply)
      modifies this
      ensures (Now(), reply) == Readout(old(Now()), path, conn)
      ensures old(Inv(Now())) && conn !in old(closed) ==> Inv(Now())
    {
      hide Inv, Ever, Without;
      if Inv(Now()) && conn !in closed {
        ReadoutKeeps(Now(), path, conn);
      }
      if path !in registry || registry[path] !in calls {
        return NotFound;
      }
      var n := registry[path];
      if calls[n].retbuf.None? {
        return Status(calls[n].status);
      }
      pending, gc := Without(pending, n), Without(gc, n);
      gc := gc + [n];
      calls := calls[n := calls[n].(status := "dead")];
      SetCloseHook(conn, n);
      reply := Result(calls[n].retbuf.value);
    }

    method CallDelete(n: nat)
      modifies this
      ensures Now() == Delete(old(Now()), n)
      ensures old(Orderly(Now())) && n in old(calls) ==> Orderly(Now())
    {
      hide Orderly, Without;
      DeleteKeepsOrder(Now(), n);
      deletions := deletions + [n];
      if n !in calls {
        corrupt := true;
        return;
      }
      pending, gc := Without(pending, n), Without(gc, n);
      registry := registry - {calls[n].path};
      calls := calls - {n};
    }

    method ConnectionClosed(conn: nat)
      modifies this
      ensures Now() == Close(old(Now()), conn)
      ensures old(Inv(Now())) && conn !in old(closed) ==>
                (Inv(Now()) <==> !corrupt) && (corrupt <==> conn in old(armed) && old(armed)[conn] !in old(calls))
    {
      hide Inv, Delete, Attributed, Count, Ever;
      if Inv(Now()) && conn !in closed {
        CloseKeeps(Now(), conn);
      }
      closed := closed + {conn};
      if conn in armed {
        var n := armed[conn];
        armed := armed - {conn};
        CallDelete(n);
      } else {
        assert armed - {conn} == armed;
      }
    }

    /** list_for_each_entry_safe with ahttpd_call_delete for every entry the list began with. */
    method DeleteEach(list: seq<nat>)
      modifies this
      ensures Now() == DeleteAll(old(Now()), list)
    {
      hide Delete, Orderly;
      ghost var goal := DeleteAll(Now(), list);
      var i := 0;
      assert list[0..] == list;
      while i < |list|
        invariant 0 <= i <= |list| && DeleteAll(Now(), list[i..]) == goal
      {
        assert list[i..][1..] == list[i + 1..];
        CallDelete(list[i]);
        i := i + 1;
      }
    }

    method CallresourceCleanup()
      modifies this
      ensures Now() == Cleanup(old(Now()))
      ensures old(Inv(Now())) ==> !corrupt && pending == [] && gc == [] && calls == map[] && registry == map[]
    {
      hide Inv, DeleteAll, Count;
      if Inv(Now()) {
        CleanupEmpties(Now());
      }
      DeleteEach(pending);
      DeleteEach(gc);
    }
  }
}
