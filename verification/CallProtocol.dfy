/**
  * The page's half of the call protocol together with the server: any number of pages that follow
  * aura.js, the server, the node, and a network that may lose any answer and close any connection.
  */
module CallProtocol {
  import opened Wrappers
  import opened CallServer
  import opened CallServerLaws

  /** What a page's handler is called with; `arg` is its last argument, which may be left out. */
  datatype Handled =
    | Failure(arg: Option<string>)
    | Undefined(arg: Option<string>)
    | Got(data: Json, arg: Option<string>)

  /**
    * Where a page stands: nothing sent; PUT sent; the server waiting for the node to answer a synchronous
    * call; answer to the PUT under way; timer set; poll sent; answer to the poll under way; at the end.
    */
  datatype Phase =
    | Idle
    | Calling(conn: nat)
    | Serving(conn: nat)
    | Answered(reply: Reply)
    | Waiting(loc: string)
    | Polling(loc: string, conn: nat)
    | PollAnswered(loc: string, reply: Reply)
    | Finished

  /**
    * A page: whether it uses auraCallAsync or auraCall, and with which `arg`; the call the server made for
    * it, and the calls of its handler so far.
    */
  datatype Page = Page(phase: Phase, isAsync: bool, arg: string, call: Option<nat>, handled: seq<Handled>)

  const NEW_PAGE := Page(Idle, false, "", None, [])

  datatype World = World(server: State, pages: seq<Page>)

  datatype Action =
    | Send(k: nat, conn: nat, isAsync: bool, arg: string)
    | Serve(k: nat, marshals: bool, starts: bool)
    | NodeCompletes(n: nat, data: Json, k: nat)
    | Deliver(k: nat)
    | LoseCall(k: nat)
    | Poll(k: nat, conn: nat)
    | ServePoll(k: nat)
    | DeliverPoll(k: nat)
    | LosePoll(k: nat)
    | CloseConnection(conn: nat)
    | Open

  // ---- the page --------------------------------------------------------------------------

  /** The callbacks of auraCallAsync and auraCall for an answer of the server. */
  function OnCallReply(p: Page): Page
    requires p.phase.Answered?
  {
    var arg := Some(p.arg);
    match p.phase.reply
    case AcceptedAt(loc) =>
      if p.isAsync then p.(phase := Waiting(loc)) else p.(phase := Finished, handled := p.handled + [Undefined(arg)])
    case Result(data) =>
      p.(phase := Finished, handled := p.handled + [if p.isAsync then Failure(arg) else Got(data, arg)])
    case _ => p.(phase := Finished, handled := p.handled + [Failure(arg)])
  }

  /** The success callback of doPollForResult, which was given no `arg`; it has none for errors. */
  function OnPollReply(p: Page): Page
    requires p.phase.PollAnswered?
  {
    match p.phase.reply
    case Status(text) =>
      if text == "pending" then p.(phase := Waiting(p.phase.loc))
      else p.(phase := Finished, handled := p.handled + [Undefined(None)])
    case Result(data) => p.(phase := Finished, handled := p.handled + [Got(data, None)])
    case _ => p.(phase := Finished)
  }

  /** The error callback of auraCallAsync and auraCall. */
  function OnCallError(p: Page): Page {
    p.(phase := Finished, handled := p.handled + [Failure(Some(p.arg))])
  }

  // ---- the world -------------------------------------------------------------------------

  /** A synchronous caller stays on its connection until it is answered. */
  predicate Held(w: World, conn: nat) {
    exists k :: 0 <= k < |w.pages| && w.pages[k].phase == Serving(conn)
  }

  predicate Possible(w: World, a: Action) {
    var s := w.server;
    match a
    case Open => true
    case CloseConnection(conn) => conn !in s.closed && !Held(w, conn)
    case NodeCompletes(n, _, k) =>
      s.InFlight(n) && (s.calls[n].isAsync ||
        (k < |w.pages| && w.pages[k].phase == Serving(s.calls[n].conn) && w.pages[k].call == Some(n)))
    case Send(k, conn, _, _) => k < |w.pages| && w.pages[k].phase.Idle? && conn !in s.closed
    case Serve(k, marshals, starts) =>
      k < |w.pages| && w.pages[k].phase.Calling? && w.pages[k].phase.conn !in s.closed
      && (marshals && starts ==> s.FreshPath())
    case Deliver(k) => k < |w.pages| && w.pages[k].phase.Answered?
    case LoseCall(k) => k < |w.pages| && (w.pages[k].phase.Calling? || w.pages[k].phase.Answered?)
    case Poll(k, conn) => k < |w.pages| && w.pages[k].phase.Waiting? && conn !in s.closed
    case ServePoll(k) => k < |w.pages| && w.pages[k].phase.Polling? && w.pages[k].phase.conn !in s.closed
    case DeliverPoll(k) => k < |w.pages| && w.pages[k].phase.PollAnswered?
    case LosePoll(k) => k < |w.pages| && (w.pages[k].phase.Polling? || w.pages[k].phase.PollAnswered?)
  }

  function Set(w: World, s: State, k: nat, p: Page): World
    requires k < |w.pages|
  {
    World(s, w.pages[k := p])
  }

  function Next(w: World, a: Action): World
    requires Possible(w, a)
  {
    var s := w.server;
    match a
    case Open => w.(pages := w.pages + [NEW_PAGE])
    case CloseConnection(conn) => w.(server := Close(s, conn))
    case NodeCompletes(n, data, k) =>
      var (t, reply) := Complete(s, n, data);
      if s.calls[n].isAsync then w.(server := t)
      else Set(w, t, k, w.pages[k].(phase := Answered(reply)))
    case Send(k, conn, isAsync, arg) =>
      Set(w, s, k, w.pages[k].(phase := Calling(conn), isAsync := isAsync, arg := arg))
    case Serve(k, marshals, starts) =>
      var p := w.pages[k];
      var (t, reply) := Create(s, p.phase.conn, p.isAsync, marshals, starts);
      var call := if marshals && starts then Some(s.callid) else None;
      Set(w, t, k, p.(phase := if reply.NoReply? then Serving(p.phase.conn) else Answered(reply), call := call))
    case Deliver(k) => Set(w, s, k, OnCallReply(w.pages[k]))
    case LoseCall(k) => Set(w, s, k, OnCallError(w.pages[k]))
    case Poll(k, conn) => Set(w, s, k, w.pages[k].(phase := Polling(w.pages[k].phase.loc, conn)))
    case ServePoll(k) =>
      var p := w.pages[k];
      var (t, reply) := Readout(s, p.phase.loc, p.phase.conn);
      Set(w, t, k, p.(phase := PollAnswered(p.phase.loc, reply)))
    case DeliverPoll(k) => Set(w, s, k, OnPollReply(w.pages[k]))
    case LosePoll(k) => Set(w, s, k, w.pages[k].(phase := Finished))
  }

  function Run(mount: string, actions: seq<Action>): Option<World> {
    if actions == [] then Some(World(Mounted(mount), []))
    else
      var before, last := Run(mount, actions[..|actions| - 1]), actions[|actions| - 1];
      if before.Some? && Possible(before.value, last) then Some(Next(before.value, last)) else None
  }

  // ---- the invariant ---------------------------------------------------------------------

  /** The asynchronous call at `loc` is live and its result was given to nobody. */
  ghost predicate Unread(s: State, n: nat, loc: string) {
    n in s.calls && s.calls[n].isAsync && s.calls[n].path == loc && Ever(s.answered, n) == {}
  }

  ghost predicate Delivered(s: State, n: nat, data: Json) {
    n in s.results && s.results[n] == data
  }

  /** What holds of a page in each phase. */
  ghost predicate PageOk(s: State, p: Page) {
    && (p.call.Some? ==> p.call.value < s.callid)
    && (!p.phase.Finished? ==> p.handled == [])
    && match p.phase
       case Idle => p.call.None?
       case Calling(_) => p.call.None?
       case Serving(conn) =>
         !p.isAsync && p.call.Some? && conn !in s.closed && s.InFlight(p.call.value)
         && s.calls[p.call.value].conn == conn && !s.calls[p.call.value].isAsync && Ever(s.answered, p.call.value) == {}
       case Answered(reply) =>
         (match reply
          case AcceptedAt(loc) => p.isAsync && p.call.Some? && Unread(s, p.call.value, loc)
          case Result(data) => !p.isAsync && p.call.Some? && Delivered(s, p.call.value, data)
          case _ => p.call.None?)
       case Waiting(loc) => p.call.Some? && Unread(s, p.call.value, loc)
       case Polling(loc, _) => p.call.Some? && Unread(s, p.call.value, loc)
       case PollAnswered(loc, reply) =>
         p.call.Some? &&
         (match reply
          case Status(text) => text == "pending" && Unread(s, p.call.value, loc)
          case Result(data) => Delivered(s, p.call.value, data)
          case _ => false)
       case Finished => HandledOk(s, p)
  }

  /** The handler was called at most once, and with data only for a call that completed with that data. */
  ghost predicate HandledOk(s: State, p: Page) {
    || p.handled == [] || (|p.handled| == 1 && p.handled[0].Failure?)
    || (|p.handled| == 1 && p.handled[0].Got? && p.call.Some? && Delivered(s, p.call.value, p.handled[0].data))
  }

  /** No two pages have the same call. */
  ghost predicate Separate(pages: seq<Page>) {
    forall i, j :: 0 <= i < j < |pages| && pages[i].call.Some? ==> pages[i].call != pages[j].call
  }

  ghost predicate AnsweredOnce(answered: map<nat, set<nat>>) {
    forall n :: |Ever(answered, n)| <= 1
  }

  ghost predicate WorldInv(w: World) {
    && Inv(w.server) && AnsweredOnce(w.server.answered) && Separate(w.pages)
    && forall k :: 0 <= k < |w.pages| ==> PageOk(w.server, w.pages[k])
  }

  // ---- what a step of the server leaves as it is -------------------------------------------

  /** For a page, nothing it relies on changed from `s` to `t`. */
  ghost predicate Kept(s: State, t: State, p: Page) {
    && s.callid <= t.callid
    && (p.call.Some? ==>
          var n := p.call.value;
          && (n in s.calls && Ever(s.answered, n) == {} ==>
                n in t.calls && t.calls[n].path == s.calls[n].path && t.calls[n].isAsync == s.calls[n].isAsync
                && t.calls[n].conn == s.calls[n].conn && Ever(t.answered, n) == {}
                && (p.phase.Serving? ==> t.calls[n].retbuf == s.calls[n].retbuf))
          && (n in s.results ==> n in t.results && t.results[n] == s.results[n]))
    && (p.phase.Serving? && p.phase.conn !in s.closed ==> p.phase.conn !in t.closed)
  }

  lemma KeptOk(s: State, t: State, p: Page)
    requires PageOk(s, p) && Kept(s, t, p)
    ensures PageOk(t, p)
  {
  }

  lemma CreateKept(s: State, conn: nat, isAsync: bool, marshals: bool, starts: bool, p: Page)
    requires Inv(s) && PageOk(s, p)
    ensures Kept(s, Create(s, conn, isAsync, marshals, starts).0, p)
  {
    hide Path, PageOk, Listed, Hooked, Attributed, Truthful, Spent;
    assert p.call.Some? ==> p.call.value < s.callid by { CallNumbered(s, p); }
  }

  lemma CallNumbered(s: State, p: Page)
    requires PageOk(s, p)
    ensures p.call.Some? ==> p.call.value < s.callid
  {
  }

  lemma CompleteKept(s: State, n: nat, data: Json, p: Page)
    requires Inv(s) && s.InFlight(n) && PageOk(s, p)
    requires s.calls[n].isAsync || p.call != Some(n)
    requires p.phase.Serving? && p.call.Some? ==> !s.calls[p.call.value].isAsync
    ensures Kept(s, Complete(s, n, data).0, p)
  {
    hide Path, PageOk, Listed, Hooked, Attributed, Registered, Spent;
  }

  lemma ReadoutKept(s: State, path: string, conn: nat, p: Page)
    requires Inv(s) && (path in s.registry ==> p.call != Some(s.registry[path]))
    ensures Kept(s, Readout(s, path, conn).0, p)
  {
    hide Path, PageOk, Listed, Hooked, Attributed, Registered, Truthful, Spent, Without;
  }

  lemma CloseKept(s: State, conn: nat, p: Page)
    requires Inv(s) && !(p.phase == Serving(conn))
    ensures Kept(s, Close(s, conn), p)
  {
    hide Path, PageOk, Listed, Attributed, Registered, Truthful, Spent, Without;
  }

  // ---- every step of the world keeps the invariant -----------------------------------------

  /** A step that moves one page and leaves what the others rely on. */
  lemma SetKeeps(w: World, t: State, k: nat, p: Page)
    requires WorldInv(w) && k < |w.pages| && Inv(t) && AnsweredOnce(t.answered) && PageOk(t, p)
    requires p.call.None? || p.call == w.pages[k].call || p.call.value >= w.server.callid
    requires forall j :: 0 <= j < |w.pages| && j != k ==> Kept(w.server, t, w.pages[j])
    ensures WorldInv(Set(w, t, k, p))
  {
    hide PageOk, Kept, Inv, AnsweredOnce;
    var r := Set(w, t, k, p);
    forall j | 0 <= j < |r.pages| ensures PageOk(t, r.pages[j]) {
      if j != k {
        KeptOk(w.server, t, w.pages[j]);
      }
    }
    forall i, j | 0 <= i < j < |r.pages| && r.pages[i].call.Some? ensures r.pages[i].call != r.pages[j].call {
      CallNumbered(w.server, w.pages[i]);
      CallNumbered(w.server, w.pages[j]);
    }
  }

  lemma KeptSame(s: State, p: Page)
    ensures Kept(s, s, p)
  {
  }

  /** A step of one page alone. */
  lemma PageStep(w: World, k: nat, p: Page)
    requires WorldInv(w) && k < |w.pages| && PageOk(w.server, p) && (p.call == w.pages[k].call || p.call.None?)
    ensures WorldInv(Set(w, w.server, k, p))
  {
    hide PageOk, Kept, Inv, AnsweredOnce, Separate;
    forall j | 0 <= j < |w.pages| && j != k ensures Kept(w.server, w.server, w.pages[j]) {
      KeptSame(w.server, w.pages[j]);
    }
    SetKeeps(w, w.server, k, p);
  }

  /** A step of the server alone. */
  lemma ServerStep(w: World, t: State)
    requires WorldInv(w) && Inv(t) && AnsweredOnce(t.answered)
    requires forall j :: 0 <= j < |w.pages| ==> Kept(w.server, t, w.pages[j])
    ensures WorldInv(w.(server := t))
  {
    hide PageOk, Kept, Inv, AnsweredOnce, Separate;
    forall j | 0 <= j < |w.pages| ensures PageOk(t, w.pages[j]) {
      KeptOk(w.server, t, w.pages[j]);
    }
  }

  lemma DeliverOk(s: State, p: Page)
    requires PageOk(s, p) && p.phase.Answered?
    ensures PageOk(s, OnCallReply(p)) && OnCallReply(p).call == p.call
  {
  }

  lemma DeliverPollOk(s: State, p: Page)
    requires PageOk(s, p) && p.phase.PollAnswered?
    ensures PageOk(s, OnPollReply(p)) && OnPollReply(p).call == p.call
  {
  }

  lemma OpenKeeps(w: World)
    requires WorldInv(w)
    ensures WorldInv(w.(pages := w.pages + [NEW_PAGE]))
  {
    hide Inv, AnsweredOnce;
    assert PageOk(w.server, NEW_PAGE);
  }

  lemma CloseConnectionKeeps(w: World, conn: nat)
    requires WorldInv(w) && Possible(w, CloseConnection(conn))
    ensures WorldInv(w.(server := Close(w.server, conn)))
  {
    hide PageOk, Kept, Inv, Separate, Attributed, Count, Ever, Delete;
    var s, t := w.server, Close(w.server, conn);
    CloseKeeps(s, conn);
    assert t.answered == s.answered by { CloseAnswered(s, conn); }
    assert |Ever(s.answered, if conn in s.armed then s.armed[conn] else 0)| <= 1;
    forall j | 0 <= j < |w.pages| ensures Kept(s, t, w.pages[j]) {
      CloseKept(s, conn, w.pages[j]);
    }
    ServerStep(w, t);
  }

  lemma CloseAnswered(s: State, conn: nat)
    ensures Close(s, conn).answered == s.answered
  {
  }

  lemma ArmOnce(answered: map<nat, set<nat>>, n: nat, conn: nat)
    requires AnsweredOnce(answered) && Ever(answered, n) == {}
    ensures AnsweredOnce(answered[n := Ever(answered, n) + {conn}])
  {
    var after := answered[n := Ever(answered, n) + {conn}];
    forall m ensures |Ever(after, m)| <= 1 {
      if m == n {
        assert Ever(after, m) == {conn};
      } else {
        assert Ever(after, m) == Ever(answered, m);
      }
    }
  }

  lemma ServingFacts(s: State, p: Page)
    requires PageOk(s, p) && p.phase.Serving?
    ensures p.call.Some? && p.call.value in s.calls && !s.calls[p.call.value].isAsync
    ensures p.phase.conn !in s.closed && Ever(s.answered, p.call.value) == {} && p.handled == []
  {
  }

  lemma NodeCompletesKeeps(w: World, n: nat, data: Json, k: nat)
    requires WorldInv(w) && Possible(w, NodeCompletes(n, data, k))
    ensures WorldInv(Next(w, NodeCompletes(n, data, k)))
  {
    hide PageOk, Kept, Inv, Ever, Path;
    var s, t := w.server, Complete(w.server, n, data).0;
    if !s.calls[n].isAsync {
      ServingFacts(s, w.pages[k]);
      ArmOnce(s.answered, n, s.calls[n].conn);
    }
    CompleteKeeps(s, n, data);
    forall j | 0 <= j < |w.pages| && (s.calls[n].isAsync || j != k) ensures Kept(s, t, w.pages[j]) {
      if w.pages[j].phase.Serving? {
        ServingFacts(s, w.pages[j]);
      }
      CompleteKept(s, n, data, w.pages[j]);
    }
    if s.calls[n].isAsync {
      ServerStep(w, t);
    } else {
      CompletedPageOk(s, n, data, w.pages[k]);
      SetKeeps(w, t, k, w.pages[k].(phase := Answered(Result(data))));
    }
  }

  lemma CompletedPageOk(s: State, n: nat, data: Json, p: Page)
    requires Inv(s) && PageOk(s, p) && p.phase.Serving? && p.call == Some(n) && s.InFlight(n)
    ensures PageOk(Complete(s, n, data).0, p.(phase := Answered(Result(data))))
  {
    hide Path, Inv;
  }

  lemma ServeKeeps(w: World, k: nat, marshals: bool, starts: bool)
    requires WorldInv(w) && Possible(w, Serve(k, marshals, starts))
    ensures WorldInv(Next(w, Serve(k, marshals, starts)))
  {
    hide PageOk, Kept, Inv, Ever, Path, Separate;
    var s, p := w.server, w.pages[k];
    var t := Create(s, p.phase.conn, p.isAsync, marshals, starts).0;
    CreateKeeps(s, p.phase.conn, p.isAsync, marshals, starts);
    forall j | 0 <= j < |w.pages| && j != k ensures Kept(s, t, w.pages[j]) {
      CreateKept(s, p.phase.conn, p.isAsync, marshals, starts, w.pages[j]);
    }
    ServedPageOk(s, p, marshals, starts);
    SetKeeps(w, t, k, Next(w, Serve(k, marshals, starts)).pages[k]);
  }

  /** The page after its PUT is handled. */
  lemma ServedPageOk(s: State, p: Page, marshals: bool, starts: bool)
    requires Inv(s) && PageOk(s, p) && p.phase.Calling? && p.phase.conn !in s.closed
    ensures
      var (t, reply) := Create(s, p.phase.conn, p.isAsync, marshals, starts);
      var call := if marshals && starts then Some(s.callid) else None;
      PageOk(t, p.(phase := if reply.NoReply? then Serving(p.phase.conn) else Answered(reply), call := call))
  {
    hide Path, Listed, Registered, Attributed, Spent;
    assert s.callid !in s.results;
    assert Ever(s.answered, s.callid) == {};
  }

  lemma ServePollKeeps(w: World, k: nat)
    requires WorldInv(w) && Possible(w, ServePoll(k))
    ensures WorldInv(Next(w, ServePoll(k)))
  {
    hide PageOk, Kept, Inv, Ever, Path;
    var s, p := w.server, w.pages[k];
    PollFinds(s, p);
    var loc, conn, n := p.phase.loc, p.phase.conn, p.call.value;
    var (t, reply) := Readout(s, loc, conn);
    ReadoutKeeps(s, loc, conn);
    forall j | 0 <= j < |w.pages| && j != k ensures Kept(s, t, w.pages[j]) {
      ReadoutKept(s, loc, conn, w.pages[j]);
    }
    if t != s {
      ArmOnce(s.answered, n, conn);
    }
    SetKeeps(w, t, k, p.(phase := PollAnswered(loc, reply)));
  }

  /** A poll finds the page's own call, and the answer is the truth about it. */
  lemma PollFinds(s: State, p: Page)
    requires Inv(s) && PageOk(s, p) && p.phase.Polling?
    ensures
      var loc, conn := p.phase.loc, p.phase.conn;
      var (t, reply) := Readout(s, loc, conn);
      && p.call.Some? && loc in s.registry && s.registry[loc] == p.call.value && p.call.value in s.calls
      && Ever(s.answered, p.call.value) == {}
      && t.answered == (if t == s then s.answered
                        else s.answered[p.call.value := Ever(s.answered, p.call.value) + {conn}])
      && PageOk(t, p.(phase := PollAnswered(loc, reply)))
  {
    hide Path, Listed, Hooked, Attributed, Spent, Without;
    ReadoutTruthful(s, p.phase.loc, p.phase.conn);
  }

  lemma LoseOk(s: State, p: Page)
    requires PageOk(s, p) && (p.phase.Calling? || p.phase.Answered?)
    ensures PageOk(s, OnCallError(p))
  {
  }

  lemma PollPhasesOk(s: State, p: Page, conn: nat)
    requires PageOk(s, p)
    ensures p.phase.Waiting? ==> PageOk(s, p.(phase := Polling(p.phase.loc, conn)))
    ensures p.phase.Polling? || p.phase.PollAnswered? ==> PageOk(s, p.(phase := Finished))
    ensures forall isAsync, arg ::
              p.phase.Idle? ==> PageOk(s, p.(phase := Calling(conn), isAsync := isAsync, arg := arg))
  {
  }

  lemma StepKeeps(w: World, a: Action)
    requires WorldInv(w) && Possible(w, a)
    ensures WorldInv(Next(w, a))
  {
    hide Inv, PageOk, Separate, AnsweredOnce, Create, Complete, Readout, Close, Kept;
    match a {
      case Open => OpenKeeps(w);
      case CloseConnection(conn) => CloseConnectionKeeps(w, conn);
      case NodeCompletes(n, data, k) => NodeCompletesKeeps(w, n, data, k);
      case Send(k, conn, isAsync, arg) =>
        PollPhasesOk(w.server, w.pages[k], conn);
        PageStep(w, k, w.pages[k].(phase := Calling(conn), isAsync := isAsync, arg := arg));
      case Serve(k, marshals, starts) => ServeKeeps(w, k, marshals, starts);
      case Deliver(k) =>
        DeliverOk(w.server, w.pages[k]);
        PageStep(w, k, OnCallReply(w.pages[k]));
      case LoseCall(k) =>
        LoseOk(w.server, w.pages[k]);
        PageStep(w, k, OnCallError(w.pages[k]));
      case Poll(k, conn) =>
        PollPhasesOk(w.server, w.pages[k], conn);
        PageStep(w, k, w.pages[k].(phase := Polling(w.pages[k].phase.loc, conn)));
      case ServePoll(k) => ServePollKeeps(w, k);
      case DeliverPoll(k) =>
        DeliverPollOk(w.server, w.pages[k]);
        PageStep(w, k, OnPollReply(w.pages[k]));
      case LosePoll(k) =>
        PollPhasesOk(w.server, w.pages[k], 0);
        PageStep(w, k, w.pages[k].(phase := Finished));
    }
  }

  // ---- the results -------------------------------------------------------------------------

  lemma {:induction false} RunKeeps(mount: string, actions: seq<Action>)
    requires Run(mount, actions).Some?
    ensures WorldInv(Run(mount, actions).value)
    decreases |actions|
  {
    hide Inv, PageOk, Separate, Next, Possible;
    if actions == [] {
      MountedInv(mount);
      NobodyYet(mount);
    } else {
      RunKeeps(mount, actions[..|actions| - 1]);
      StepKeeps(Run(mount, actions[..|actions| - 1]).value, actions[|actions| - 1]);
    }
  }

  lemma NobodyYet(mount: string)
    ensures Separate([]) && AnsweredOnce(Mounted(mount).answered)
  {
  }

  /**
    * In every interleaving, each page's handler is called at most once, and with data only after its own
    * call completed, and with the data it completed with.
    */
  lemma HandlerOnce(mount: string, actions: seq<Action>, k: nat)
    requires Run(mount, actions).Some? && k < |Run(mount, actions).value.pages|
    ensures
      var w := Run(mount, actions).value;
      var p := w.pages[k];
      && |p.handled| <= 1
      && (forall h :: h in p.handled && !h.Failure? ==>
            h.Got? && p.call.Some? && p.call.value in w.server.results && h.data == w.server.results[p.call.value])
  {
    hide Run, Inv;
    RunKeeps(mount, actions);
  }

  /** Only a lost poll leaves a page without an answer: in a run without one, at its end it was called exactly once. */
  lemma {:induction false} HandlerCalled(mount: string, actions: seq<Action>, k: nat)
    requires Run(mount, actions).Some? && k < |Run(mount, actions).value.pages|
    requires LosePoll(k) !in actions && Run(mount, actions).value.pages[k].phase.Finished?
    ensures |Run(mount, actions).value.pages[k].handled| == 1
    decreases |actions|
  {
    hide Inv, PageOk, Separate, Next, Possible;
    if actions != [] {
      var before, last := actions[..|actions| - 1], actions[|actions| - 1];
      var w := Run(mount, before).value;
      assert last in actions && LosePoll(k) !in before;
      RunKeeps(mount, before);
      FinishedStep(w, last, k);
      if k < |w.pages| && w.pages[k].phase.Finished? {
        HandlerCalled(mount, before, k);
      }
    }
  }

  /** A page gets to its end by a call of its handler, unless its poll is lost, and stays there. */
  lemma FinishedStep(w: World, a: Action, k: nat)
    requires WorldInv(w) && Possible(w, a) && a != LosePoll(k) && k < |Next(w, a).pages|
    requires Next(w, a).pages[k].phase.Finished?
    ensures k < |w.pages|
    ensures if w.pages[k].phase.Finished? then Next(w, a).pages[k].handled == w.pages[k].handled
            else |Next(w, a).pages[k].handled| == 1
  {
    hide Inv, Separate, AnsweredOnce, Create, Complete, Readout, Close;
  }

  /** What a page is told in the end: the result of its call, or a failure where no call was made. */
  ghost predicate Told(s: State, p: Page) {
    if p.call.Some?
    then
      && p.call.value in s.results
      && p.handled == [Got(s.results[p.call.value], if p.isAsync then None else Some(p.arg))]
    else p.handled == [Failure(Some(p.arg))]
  }

  lemma ToldKept(s: State, t: State, p: Page)
    requires Told(s, p)
    requires forall n :: n in s.results ==> n in t.results && t.results[n] == s.results[n]
    ensures Told(t, p)
  {
  }

  /** Results stay. */
  lemma NextResults(w: World, a: Action)
    requires Inv(w.server) && Possible(w, a)
    ensures
      var s, t := w.server, Next(w, a).server;
      forall n :: n in s.results ==> n in t.results && t.results[n] == s.results[n]
  {
    hide Create, Complete, Readout, Close, Inv;
    var s := w.server;
    match a {
      case CloseConnection(conn) => CloseResults(s, conn);
      case NodeCompletes(n, data, _) => CompleteResults(s, n, data);
      case Serve(k, marshals, starts) => CreateResults(s, w.pages[k].phase.conn, w.pages[k].isAsync, marshals, starts);
      case ServePoll(k) => ReadoutResults(s, w.pages[k].phase.loc, w.pages[k].phase.conn);
      case _ =>
    }
  }

  /** A page comes to its end with what it should be told, unless one of its messages is lost. */
  lemma EndStep(w: World, a: Action, k: nat)
    requires WorldInv(w) && Possible(w, a) && a != LosePoll(k) && a != LoseCall(k) && k < |Next(w, a).pages|
    requires Next(w, a).pages[k].phase.Finished?
    requires k < |w.pages| ==> ArgOk(w.pages[k])
    ensures k < |w.pages|
    ensures if w.pages[k].phase.Finished? then Next(w, a).pages[k] == w.pages[k]
            else Told(Next(w, a).server, Next(w, a).pages[k])
  {
    hide Inv, Separate, AnsweredOnce, Create, Complete, Readout, Close;
    if k < |w.pages| && a == Deliver(k) {
      ToldAfterCall(w.server, w.pages[k]);
    } else if k < |w.pages| && a == DeliverPoll(k) {
      ToldAfterPoll(w.server, w.pages[k]);
    }
  }

  lemma ToldAfterCall(s: State, p: Page)
    requires PageOk(s, p) && p.phase.Answered? && OnCallReply(p).phase.Finished?
    ensures Told(s, OnCallReply(p))
  {
  }

  lemma ToldAfterPoll(s: State, p: Page)
    requires PageOk(s, p) && ArgOk(p) && p.phase.PollAnswered? && OnPollReply(p).phase.Finished?
    ensures Told(s, OnPollReply(p))
  {
  }

  /**
    * In every interleaving in which no message of a page is lost, a page at its end was told exactly the
    * result of its call, or exactly a failure if there is no call.
    */
  lemma {:induction false} ResultDelivered(mount: string, actions: seq<Action>, k: nat)
    requires Run(mount, actions).Some? && k < |Run(mount, actions).value.pages|
    requires LosePoll(k) !in actions && LoseCall(k) !in actions
    requires Run(mount, actions).value.pages[k].phase.Finished?
    ensures Told(Run(mount, actions).value.server, Run(mount, actions).value.pages[k])
    decreases |actions|
  {
    hide Inv, PageOk, Separate, AnsweredOnce, Next, Possible, Told, ArgOk;
    if actions != [] {
      var before, last := actions[..|actions| - 1], actions[|actions| - 1];
      var w := Run(mount, before).value;
      assert last in actions && LosePoll(k) !in before && LoseCall(k) !in before;
      RunKeeps(mount, before);
      RunArgs(mount, before);
      EndStep(w, last, k);
      if w.pages[k].phase.Finished? {
        ResultDelivered(mount, before, k);
        NextResults(w, last);
        ToldKept(w.server, Next(w, last).server, w.pages[k]);
      }
    }
  }

  /** How a page stands to `arg`: polls are of asynchronous calls, and only what came by a poll goes without it. */
  ghost predicate ArgOk(p: Page) {
    && (p.phase.Waiting? || p.phase.Polling? || p.phase.PollAnswered? ==> p.isAsync)
    && (p.phase.Idle? ==> p.handled == [])
    && forall h :: h in p.handled ==> h.arg == if p.isAsync && !h.Failure? then None else Some(p.arg)
  }

  lemma ArgStep(w: World, a: Action)
    requires Possible(w, a) && forall k :: 0 <= k < |w.pages| ==> ArgOk(w.pages[k])
    ensures forall k :: 0 <= k < |Next(w, a).pages| ==> ArgOk(Next(w, a).pages[k])
  {
    hide Create, Complete, Readout, Close;
  }

  lemma {:induction false} RunArgs(mount: string, actions: seq<Action>)
    requires Run(mount, actions).Some?
    ensures forall k :: 0 <= k < |Run(mount, actions).value.pages| ==> ArgOk(Run(mount, actions).value.pages[k])
    decreases |actions|
  {
    hide Next, Possible, ArgOk;
    if actions != [] {
      RunArgs(mount, actions[..|actions| - 1]);
      ArgStep(Run(mount, actions[..|actions| - 1]).value, actions[|actions| - 1]);
    }
  }

  /**
    * The handler gets the `arg` it was registered with, exactly when it is told of a failure or the call was
    * synchronous; the result of an asynchronous call, which comes by a poll, is handed over without it.
    */
  lemma ArgReachesHandler(mount: string, actions: seq<Action>, k: nat)
    requires Run(mount, actions).Some? && k < |Run(mount, actions).value.pages|
    ensures
      var p := Run(mount, actions).value.pages[k];
      forall h :: h in p.handled ==>
        && (h.arg == Some(p.arg) <==> h.Failure? || !p.isAsync)
        && (h.arg == None <==> h.Got? && p.isAsync)
  {
    hide Run;
    RunArgs(mount, actions);
    HandlerOnce(mount, actions, k);
  }

  lemma RunStep(mount: string, actions: seq<Action>, a: Action)
    requires Run(mount, actions).Some? && Possible(Run(mount, actions).value, a)
    ensures Run(mount, actions + [a]) == Some(Next(Run(mount, actions).value, a))
  {
    hide Possible, Next;
    assert (actions + [a])[..|actions|] == actions;
  }

  const CALL_AND_ANSWER: seq<Action> := [Open, Send(0, 1, true, "x"), Serve(0, true, true), Deliver(0)]

  /** An asynchronous call is accepted, and the page is told where to poll. */
  lemma CallAccepted(mount: string)
    ensures Run(mount, CALL_AND_ANSWER).Some?
    ensures
      var w, path := Run(mount, CALL_AND_ANSWER).value, Path(mount, 0);
      && w.pages == [Page(Waiting(path), true, "x", Some(0), [])]
      && w.server == Create(Mounted(mount), 1, true, true, true).0
  {
    hide Run, Path, Create;
    assert Run(mount, []) == Some(World(Mounted(mount), [])) by { RunNothing(mount); }
    FirstReply(mount);
    RunStep(mount, [], Open);
    assert [] + [Open] == [Open];
    RunStep(mount, [Open], Send(0, 1, true, "x"));
    var two := [Open] + [Send(0, 1, true, "x")];
    RunStep(mount, two, Serve(0, true, true));
    var three := two + [Serve(0, true, true)];
    RunStep(mount, three, Deliver(0));
    assert three + [Deliver(0)] == CALL_AND_ANSWER;
  }

  lemma RunNothing(mount: string)
    ensures Run(mount, []) == Some(World(Mounted(mount), []))
  {
  }

  lemma FirstReply(mount: string)
    ensures Create(Mounted(mount), 1, true, true, true).1 == AcceptedAt(Path(mount, 0)) && Mounted(mount).FreshPath()
  {
  }

  /** The run that loses it: a call, its result, one poll, and the handler gets the result without `arg`. */
  lemma ArgLost(mount: string, data: Json)
    ensures
      var actions := CALL_AND_ANSWER + [NodeCompletes(0, data, 0), Poll(0, 1), ServePoll(0), DeliverPoll(0)];
      && Run(mount, actions).Some?
      && Run(mount, actions).value.pages == [Page(Finished, true, "x", Some(0), [Got(data, None)])]
  {
    hide Run, Path, Create, Complete, Readout;
    CallAccepted(mount);
    PolledOnce(mount, data);
    var start, path := CALL_AND_ANSWER, Path(mount, 0);
    RunStep(mount, start, NodeCompletes(0, data, 0));
    var one := start + [NodeCompletes(0, data, 0)];
    RunStep(mount, one, Poll(0, 1));
    var two := one + [Poll(0, 1)];
    assert Run(mount, two).value.pages == [Page(Polling(path, 1), true, "x", Some(0), [])];
    RunStep(mount, two, ServePoll(0));
    var three := two + [ServePoll(0)];
    assert Run(mount, three).value.pages == [Page(PollAnswered(path, Result(data)), true, "x", Some(0), [])];
    RunStep(mount, three, DeliverPoll(0));
    var all, unheard: seq<Handled> := three + [DeliverPoll(0)], [];
    assert unheard + [Got(data, None)] == [Got(data, None)];
    assert Run(mount, all).value.pages == [Page(Finished, true, "x", Some(0), [Got(data, None)])];
    assert all == start + [NodeCompletes(0, data, 0), Poll(0, 1), ServePoll(0), DeliverPoll(0)];
  }

  lemma PolledOnce(mount: string, data: Json)
    ensures
      var s := Create(Mounted(mount), 1, true, true, true).0;
      && s.InFlight(0) && s.calls[0].isAsync
      && var t := Complete(s, 0, data).0;
         t.closed == {} && Readout(t, Path(mount, 0), 1).1 == Result(data)
  {
    hide Path;
  }

  lemma NextNumbers(w: World, a: Action)
    requires Possible(w, a)
    ensures Next(w, a).server.callid <= w.server.callid + 1
  {
    hide Create, Complete, Readout, Close;
    var s := w.server;
    match a {
      case CloseConnection(conn) => CloseNumber(s, conn);
      case NodeCompletes(n, data, _) => CompleteNumber(s, n, data);
      case Serve(k, marshals, starts) => CreateNumber(s, w.pages[k].phase.conn, w.pages[k].isAsync, marshals, starts);
      case ServePoll(k) => ReadoutNumber(s, w.pages[k].phase.loc, w.pages[k].phase.conn);
      case _ =>
    }
  }

  lemma {:induction false} RunNumbers(mount: string, actions: seq<Action>)
    requires Run(mount, actions).Some?
    ensures Run(mount, actions).value.server.callid <= |actions|
    decreases |actions|
  {
    hide Next, Possible;
    if actions != [] {
      RunNumbers(mount, actions[..|actions| - 1]);
      NextNumbers(Run(mount, actions[..|actions| - 1]).value, actions[|actions| - 1]);
    }
  }

  /** In a run of fewer than 2^32 actions, asking for a free path when a call is served excludes nothing. */
  lemma ShortRunsHaveFreshPaths(mount: string, actions: seq<Action>)
    requires Run(mount, actions).Some? && |actions| < INTS
    ensures Run(mount, actions).value.server.FreshPath()
  {
    hide Run, Path, Inv, PageOk, State.FreshPath;
    RunKeeps(mount, actions);
    RunNumbers(mount, actions);
    WindowGivesFreshPath(Run(mount, actions).value.server);
  }

  /** A page that polls always finds its own call: it is never told of another one, or of none. */
  lemma PollNeverMisses(mount: string, actions: seq<Action>, k: nat)
    requires Run(mount, actions).Some? && k < |Run(mount, actions).value.pages|
    requires Run(mount, actions).value.pages[k].phase.Polling?
    ensures
      var w := Run(mount, actions).value;
      var loc := w.pages[k].phase.loc;
      loc in w.server.registry && w.pages[k].call == Some(w.server.registry[loc])
  {
    hide Run, Inv, PageOk;
    RunKeeps(mount, actions);
    PollFinds(Run(mount, actions).value.server, Run(mount, actions).value.pages[k]);
  }

  /** With such pages no call is answered on two connections, so none is deleted twice or too early. */
  lemma NeverDeletedTwice(mount: string, actions: seq<Action>, n: nat)
    requires Run(mount, actions).Some?
    ensures
      var s := Run(mount, actions).value.server;
      && !s.corrupt && |Ever(s.answered, n)| <= 1 && Count(s.deletions, n) <= 1
      && (n in s.deletions ==> n in s.results)
  {
    hide Run, PageOk, Listed, Registered, Truthful, Hooked, Ever;
    RunKeeps(mount, actions);
    var s := Run(mount, actions).value.server;
    if n in s.deletions {
      assert Count(s.deletions, n) == 1;
    }
  }

  /** Two pages never share a call. */
  lemma CallsApart(mount: string, actions: seq<Action>, i: nat, j: nat)
    requires Run(mount, actions).Some? && i < j < |Run(mount, actions).value.pages|
    ensures
      var pages := Run(mount, actions).value.pages;
      pages[i].call.Some? ==> pages[i].call != pages[j].call
  {
    hide Run, PageOk, Inv;
    RunKeeps(mount, actions);
  }
}
