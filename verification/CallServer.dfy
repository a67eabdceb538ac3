/**
  * Calls to a node and the temporary resources that stand for them. A call gets a number and a path;
  * it is on the pending list until its result is read, then on the list of garbage, and it is deleted
  * when the connection that carried the result closes. Connections and calls are known by number;
  * the number of a call is how many were numbered before it, of which the path shows a 32-bit int.
  */
module CallServer {
  import opened Text
  import opened Wrappers

  /** The JSON text of a result. */
  type Json = string

  const INTS: nat := 0x1_0000_0000

  /** A counter of C type int after `n` increments from zero. */
  function Int32(n: nat): int {
    (n + INTS / 2) % INTS - INTS / 2
  }

  function Path(mount: string, n: nat): string {
    mount + "/pending/" + PrintInt(Int32(n))
  }

  /** The connections ever armed for a call. */
  function Ever(answered: map<nat, set<nat>>, n: nat): set<nat> {
    if n in answered then answered[n] else {}
  }

  datatype Call = Call(path: string, isAsync: bool, conn: nat, retbuf: Option<Json>, status: string)

  datatype Reply =
    NoReply | BadRequest | StartFailed | NotFound | AcceptedAt(path: string) | Status(text: string) | Result(data: Json)

  /**
    * `calls` is the memory of the live resources, `registry` the server's callback table, `armed` the
    * close hook of each connection. `corrupt` is set when a deleted resource is deleted once more,
    * which frees its memory twice. The last four fields only record what happened: results by call,
    * deletions in order, the connections ever armed for a call, and the closed connections.
    */
  datatype State = State(
    mount: string,
    callid: nat,
    pending: seq<nat>,
    gc: seq<nat>,
    registry: map<string, nat>,
    calls: map<nat, Call>,
    armed: map<nat, nat>,
    corrupt: bool,
    results: map<nat, Json>,
    deletions: seq<nat>,
    answered: map<nat, set<nat>>,
    closed: set<nat>)
  {
    predicate InFlight(n: nat) {
      n in calls && calls[n].retbuf.None?
    }

    /** evhttp_connection_set_closecb: a later hook takes the place of an earlier one. */
    function Arm(conn: nat, n: nat): State {
      this.(armed := armed[conn := n], answered := answered[n := Ever(answered, n) + {conn}])
    }

    /** The next path is not registered already. */
    predicate FreshPath() {
      Path(mount, callid) !in registry
    }
  }

  function Mounted(mount: string): State {
    State(mount, 0, [], [], map[], map[], map[], false, map[], [], map[], {})
  }

  /** list_del */
  function Without(list: seq<nat>, n: nat): seq<nat> {
    if list == [] then [] else if list[0] == n then list[1..] else [list[0]] + Without(list[1..], n)
  }

  // ---- the callbacks as functions --------------------------------------------------------

  /** ahttpd_call_create. `marshals` and `starts` are whether the arguments fit and the node takes the call. */
  function Create(s: State, conn: nat, isAsync: bool, marshals: bool, starts: bool): (State, Reply) {
    if !marshals then (s, BadRequest)
    else
      var n := s.callid;
      var path := Path(s.mount, n);
      var s := s.(callid := n + 1);
      if !starts then (s, StartFailed)
      else
        var call := Call(path, isAsync, conn, None, "pending");
        (s.(calls := s.calls[n := call],
            registry := if path in s.registry then s.registry else s.registry[path := n],
            pending := s.pending + [n]),
         if isAsync then AcceptedAt(path) else NoReply)
  }

  /** call_completed_cb */
  function Complete(s: State, n: nat, data: Json): (State, Reply)
    requires s.InFlight(n)
  {
    var call := s.calls[n].(retbuf := Some(data));
    var s := s.(calls := s.calls[n := call], results := s.results[n := data]);
    if call.isAsync then (s, NoReply) else (s.Arm(call.conn, n), Result(data))
  }

  /** resource_readout, or what the server replies where no callback is registered. */
  function Readout(s: State, path: string, conn: nat): (State, Reply) {
    if path !in s.registry || s.registry[path] !in s.calls then (s, NotFound)
    else
      var n := s.registry[path];
      var call := s.calls[n];
      if call.retbuf.None? then (s, Status(call.status))
      else
        (s.(pending := Without(s.pending, n), gc := Without(s.gc, n) + [n],
            calls := s.calls[n := call.(status := "dead")]).Arm(conn, n),
         Result(call.retbuf.value))
  }

  /** ahttpd_call_delete */
  function Delete(s: State, n: nat): State {
    var s := s.(deletions := s.deletions + [n]);
    if n !in s.calls then s.(corrupt := true)
    else
      s.(pending := Without(s.pending, n), gc := Without(s.gc, n),
         registry := s.registry - {s.calls[n].path}, calls := s.calls - {n})
  }

  /** A connection closes, and its hook runs. */
  function Close(s: State, conn: nat): State {
    var after := s.(closed := s.closed + {conn}, armed := s.armed - {conn});
    if conn in s.armed then Delete(after, s.armed[conn]) else after
  }

  function DeleteAll(s: State, list: seq<nat>): State
    decreases |list|
  {
    if list == [] then s else DeleteAll(Delete(s, list[0]), list[1..])
  }

  /** ahttpd_callresource_cleanup */
  function Cleanup(s: State): State {
    var s := DeleteAll(s, s.pending);
    DeleteAll(s, s.gc)
  }
}
