/**
  * The upload module that keeps uploads in memory: every accepted upload gets a number, a place in the
  * listing and two paths, one to fetch it and one to drop it, until it is dropped.
  */
module BufferModule {
  import opened Text

  /** What a registered path does. */
  datatype Target = Download(id: nat) | Drop(id: nat)

  datatype Buffer = Buffer(id: nat, data: string)

  datatype State = State(
    mount: string,
    maxSize: nat,
    currentSize: nat,
    currentId: nat,
    buffers: seq<Buffer>,
    paths: map<string, Target>)

  const MAX_SIZE: nat := 8 * 1024 * 1024

  function Initial(mount: string): State {
    State(mount, MAX_SIZE, 0, 0, [], map[])
  }

  function PathOf(mount: string, t: Target): string {
    match t
    case Download(id) => mount + "/download/" + Digits(id, 10)
    case Drop(id) => mount + "/drop/" + Digits(id, 10)
  }

  /** list_del of the buffer with a number. */
  function Unlisted(buffers: seq<Buffer>, id: nat): seq<Buffer> {
    if buffers == [] then []
    else if buffers[0].id == id then buffers[1..]
    else [buffers[0]] + Unlisted(buffers[1..], id)
  }

  /** buf_avail_register */
  function Register(s: State, id: nat): State {
    s.(paths := s.paths[PathOf(s.mount, Download(id)) := Download(id)][PathOf(s.mount, Drop(id)) := Drop(id)])
  }

  /** buf_avail_deregister */
  function Deregister(s: State, id: nat): State {
    s.(paths := s.paths - {PathOf(s.mount, Download(id))} - {PathOf(s.mount, Drop(id))})
  }

  /** buf_avail_drop of a listed buffer. */
  function DropBuffer(s: State, id: nat): State {
    var s := Deregister(s, id);
    s.(buffers := Unlisted(s.buffers, id))
  }

  /**
    * buffer_handle_data: refused beyond the quota; `allocates` is whether the node has memory for the
    * data, and without it the number is used up all the same.
    */
  function HandleData(s: State, data: string, allocates: bool): (State, bool) {
    if s.currentSize + |data| > s.maxSize then (s, false)
    else
      var id := s.currentId;
      var s := s.(currentId := id + 1);
      if !allocates then (s, false)
      else
        (Register(s.(buffers := s.buffers + [Buffer(id, data)]), id).(currentSize := s.currentSize + |data|), true)
  }

  /**
    * The buffer an upload is putting together, as current_buf names it: none, one, or one whose memory was
    * freed since.
    */
  datatype Current = Nothing | Alive | Freed

  /** The module with the current buffer. `broken` is set where freed memory or no memory at all is used. */
  datatype Desk = Desk(state: State, current: Current, broken: bool)

  /** buf_avail_drop of the current buffer, and buffer_send_result after an error: freed, and still named. */
  function Release(d: Desk): Desk {
    match d.current
    case Nothing => d
    case Alive => d.(current := Freed)
    case Freed => d.(broken := true)
  }

  /** buffer_handle_rq_headers */
  function BeginUpload(d: Desk): Desk {
    Release(d).(current := Nothing)
  }

  /** buffer_handle_form_header */
  function FormHeader(d: Desk): Desk {
    match d.current
    case Nothing => d.(current := Alive)
    case Alive => d
    case Freed => d.(broken := true)
  }

  /** buffer_handle_data with the current buffer; a refusal drops it and sends the error, which drops it again. */
  function TakeData(d: Desk, data: string, allocates: bool): (Desk, bool) {
    var (s, accepted) := HandleData(d.state, data, allocates);
    if d.state.currentSize + |data| > d.state.maxSize then (Release(Release(d)), false)
    else if !d.current.Alive? then (d.(broken := true), false)
    else if !accepted then (Release(Release(d.(state := s))), false)
    else (Desk(s, Nothing, d.broken), true)
  }

  /** One part of an upload: whether it has header lines, its data, whether the node has memory for them. */
  datatype Part = Part(headers: bool, data: string, allocates: bool)

  /** How a body goes on after its last whole part: not at all, or cut off, maybe after more header lines. */
  datatype Ending = Complete | CutOff(headers: bool)

  /** The parts of an upload, up to the first refusal or the end; an error is sent for both kinds of failure. */
  function TakeParts(d: Desk, parts: seq<Part>, ending: Ending): Desk
    decreases |parts|
  {
    if parts == [] then
      match ending
      case Complete => d
      case CutOff(headers) => Release(if headers then FormHeader(d) else d)
    else
      var p := parts[0];
      var (after, accepted) := TakeData(if p.headers then FormHeader(d) else d, p.data, p.allocates);
      if accepted then TakeParts(after, parts[1..], ending) else Release(after)
  }

  /** A whole upload request. */
  function Post(d: Desk, parts: seq<Part>, ending: Ending): Desk {
    TakeParts(BeginUpload(d), parts, ending)
  }

  /** A request for a path: rq_drop_buffer where that is what the path does. */
  function Request(s: State, path: string): State {
    if path in s.paths && s.paths[path].Drop? then DropBuffer(s, s.paths[path].id) else s
  }

  // ---- as the code runs it ---------------------------------------------------------------

  class Module {
    const mount: string
    const maxSize: nat
    var currentSize: nat
    var currentId: nat
    var buffers: seq<Buffer>
    var paths: map<string, Target>
    var current: Current
    ghost var broken: bool

    ghost function Whole(): Desk
      reads this
    {
      Desk(Now(), current, broken)
    }

    ghost function Now(): State
      reads this
    {
      State(mount, maxSize, currentSize, currentId, buffers, paths)
    }

    constructor (mount: string)
      ensures Whole() == Desk(Initial(mount), Nothing, false) && Inv(Now())
    {
      this.mount, maxSize := mount, MAX_SIZE;
      currentSize, currentId, buffers, paths := 0, 0, [], map[];
      current, broken := Nothing, false;
      new;
      InitialInv(mount);
    }

    method AvailRegister(id: nat)
      modifies this`paths
      ensures Now() == Register(old(Now()), id)
    {
      paths := paths[PathOf(mount, Download(id)) := Download(id)];
      paths := paths[PathOf(mount, Drop(id)) := Drop(id)];
    }

    method AvailDrop(id: nat)
      modifies this`paths, this`buffers
      ensures Now() == DropBuffer(old(Now()), id)
    {
      paths := paths - {PathOf(mount, Download(id))};
      paths := paths - {PathOf(mount, Drop(id))};
      buffers := Unlisted(buffers, id);
    }

    method ReleaseCurrent()
      modifies this`current, this`broken
      ensures Whole() == Release(old(Whole()))
    {
      if current.Freed? {
        broken := true;
      } else if current.Alive? {
        current := Freed;
      }
    }

    method HandleRqHeaders()
      modifies this`current, this`broken
      ensures Whole() == BeginUpload(old(Whole()))
    {
      ReleaseCurrent();
      current := Nothing;
    }

    method HandleFormHeader()
      modifies this`current, this`broken
      ensures Whole() == FormHeader(old(Whole()))
    {
      if current.Freed? {
        broken := true;
      } else {
        current := Alive;
      }
    }

    method HandleUpload(data: string, allocates: bool) returns (accepted: bool)
      modifies this
      ensures (Whole(), accepted) == TakeData(old(Whole()), data, allocates)
      ensures accepted <==> allocates && old(currentSize) + |data| <= maxSize && old(current).Alive?
      ensures old(Inv(Now())) ==> Inv(Now())
    {
      hide Inv, PathOf;
      if Inv(Now()) {
        HandleDataKeeps(Now(), data, allocates);
      }
      if currentSize + |data| > maxSize {
        ReleaseCurrent();
        ReleaseCurrent();
        return false;
      }
      if !current.Alive? {
        broken := true;
        return false;
      }
      var id := currentId;
      currentId := currentId + 1;
      if !allocates {
        ReleaseCurrent();
        ReleaseCurrent();
        return false;
      }
      buffers := buffers + [Buffer(id, data)];
      AvailRegister(id);
      currentSize := currentSize + |data|;
      current := Nothing;
      accepted := true;
    }

    method HandlePost(parts: seq<Part>, ending: Ending)
      modifies this
      ensures Whole() == Post(old(Whole()), parts, ending)
      ensures old(Inv(Now())) ==> Inv(Now())
    {
      hide Inv, TakeData, Release, FormHeader;
      ghost var kept := Inv(Now());
      HandleRqHeaders();
      ghost var goal := TakeParts(Whole(), parts, ending);
      var i := 0;
      assert parts[0..] == parts;
      while i < |parts|
        invariant 0 <= i <= |parts| && TakeParts(Whole(), parts[i..], ending) == goal
        invariant kept ==> Inv(Now())
      {
        assert parts[i..][1..] == parts[i + 1..];
        if parts[i].headers {
          HandleFormHeader();
        }
        var accepted := HandleUpload(parts[i].data, parts[i].allocates);
        if !accepted {
          ReleaseCurrent();
          return;
        }
        i := i + 1;
      }
      if ending.CutOff? {
        if ending.headers {
          HandleFormHeader();
        }
        ReleaseCurrent();
      }
    }

    method HandleRequest(path: string)
      modifies this
      ensures Whole() == old(Whole()).(state := Request(old(Now()), path))
      ensures old(Inv(Now())) ==> Inv(Now())
    {
      hide Inv, PathOf, Unlisted;
      if Inv(Now()) {
        RequestKeeps(Now(), path);
      }
      if path in paths && paths[path].Drop? {
        AvailDrop(paths[path].id);
      }
    }
  }

  // ---- the invariant ---------------------------------------------------------------------

  lemma PathsApart(mount: string, a: Target, b: Target)
    requires PathOf(mount, a) == PathOf(mount, b)
    ensures a == b
  {
    hide Digits;
    var p, k := PathOf(mount, a), |mount|;
    assert p[k + 2] == if a.Download? then 'o' else 'r';
    assert p[k + 2] == if b.Download? then 'o' else 'r';
    var n := if a.Download? then k + 10 else k + 6;
    assert p[n..] == Digits(a.id, 10) && p[n..] == Digits(b.id, 10);
    DigitsInjective(a.id, b.id, 10);
  }

  /** The listing is in the order of the numbers, all of which are used up. */
  ghost predicate Numbered(buffers: seq<Buffer>, next: nat) {
    && (forall i :: 0 <= i < |buffers| ==> buffers[i].id < next)
    && (forall i, j :: 0 <= i < j < |buffers| ==> buffers[i].id < buffers[j].id)
  }

  ghost predicate Has(buffers: seq<Buffer>, id: nat) {
    exists i :: 0 <= i < |buffers| && buffers[i].id == id
  }

  /** The registered paths are the two of every listed buffer, and nothing else. */
  ghost predicate Registered(mount: string, buffers: seq<Buffer>, paths: map<string, Target>) {
    && (forall p :: p in paths ==> p == PathOf(mount, paths[p]) && Has(buffers, paths[p].id))
    && (forall t: Target :: Has(buffers, t.id) ==> PathOf(mount, t) in paths)
  }

  function Bytes(buffers: seq<Buffer>): nat {
    if buffers == [] then 0 else |buffers[0].data| + Bytes(buffers[1..])
  }

  ghost predicate Inv(s: State) {
    && Numbered(s.buffers, s.currentId) && Registered(s.mount, s.buffers, s.paths)
    && Bytes(s.buffers) <= s.currentSize <= s.maxSize
  }

  lemma {:induction false} BytesAppend(buffers: seq<Buffer>, b: Buffer)
    ensures Bytes(buffers + [b]) == Bytes(buffers) + |b.data|
  {
    if buffers == [] {
      assert (buffers + [b])[1..] == [];
    } else {
      assert (buffers + [b])[1..] == buffers[1..] + [b];
      BytesAppend(buffers[1..], b);
    }
  }

  /** Taking out a number leaves the others, in order. */
  lemma {:induction false} UnlistedFacts(buffers: seq<Buffer>, id: nat, next: nat)
    requires Numbered(buffers, next)
    ensures Numbered(Unlisted(buffers, id), next)
    ensures forall n :: Has(Unlisted(buffers, id), n) <==> Has(buffers, n) && n != id
    ensures Bytes(Unlisted(buffers, id)) <= Bytes(buffers)
  {
    if buffers != [] {
      var first, rest := buffers[0], buffers[1..];
      assert buffers == [first] + rest;
      assert Numbered(rest, next);
      UnlistedFacts(rest, id, next);
      forall n ensures Has(buffers, n) <==> n == first.id || Has(rest, n) {
        HasFirst(buffers, n);
      }
      assert !Has(rest, first.id);
      if first.id != id {
        UnlistedAfterFirst(first, rest, Unlisted(rest, id), next);
      }
    }
  }

  lemma UnlistedAfterFirst(first: Buffer, rest: seq<Buffer>, r: seq<Buffer>, next: nat)
    requires Numbered([first] + rest, next) && Numbered(r, next) && forall n :: Has(r, n) ==> Has(rest, n)
    ensures Numbered([first] + r, next)
    ensures forall n :: Has([first] + r, n) <==> n == first.id || Has(r, n)
  {
    var before, after := [first] + rest, [first] + r;
    assert after[1..] == r && before[1..] == rest && before[0] == first && after[0] == first;
    forall n ensures Has(after, n) <==> n == first.id || Has(r, n) {
      HasFirst(after, n);
    }
    forall j | 0 <= j < |r| ensures first.id < r[j].id {
      assert Has(r, r[j].id);
      var i :| 0 <= i < |rest| && rest[i].id == r[j].id;
      assert before[i + 1] == rest[i] && before[0].id < before[i + 1].id;
    }
    assert forall j :: 0 < j < |after| ==> after[j] == r[j - 1];
  }

  lemma HasFirst(buffers: seq<Buffer>, n: nat)
    requires buffers != []
    ensures Has(buffers, n) <==> n == buffers[0].id || Has(buffers[1..], n)
  {
    var rest := buffers[1..];
    if Has(buffers, n) {
      var i :| 0 <= i < |buffers| && buffers[i].id == n;
      assert i > 0 ==> rest[i - 1].id == n;
    }
    if Has(rest, n) {
      var i :| 0 <= i < |rest| && rest[i].id == n;
      assert buffers[i + 1].id == n;
    }
  }

  lemma HasLast(buffers: seq<Buffer>, b: Buffer, n: nat)
    ensures Has(buffers + [b], n) <==> n == b.id || Has(buffers, n)
  {
    var all := buffers + [b];
    if Has(buffers, n) {
      var i :| 0 <= i < |buffers| && buffers[i].id == n;
      assert all[i].id == n;
    }
    assert all[|buffers|] == b;
  }

  lemma InitialInv(mount: string)
    ensures Inv(Initial(mount))
  {
  }

  lemma RegisterKeeps(mount: string, buffers: seq<Buffer>, paths: map<string, Target>, b: Buffer)
    requires Registered(mount, buffers, paths)
    ensures
      var d, r := PathOf(mount, Download(b.id)), PathOf(mount, Drop(b.id));
      Registered(mount, buffers + [b], paths[d := Download(b.id)][r := Drop(b.id)])
  {
    hide PathOf, Has;
    var d, r := PathOf(mount, Download(b.id)), PathOf(mount, Drop(b.id));
    var after, all := paths[d := Download(b.id)][r := Drop(b.id)], buffers + [b];
    forall n ensures Has(all, n) <==> n == b.id || Has(buffers, n) {
      HasLast(buffers, b, n);
    }
    if d == r {
      PathsApart(mount, Download(b.id), Drop(b.id));
    }
    forall t: Target | Has(all, t.id) ensures PathOf(mount, t) in after {
      if t.id == b.id {
        assert t == Download(b.id) || t == Drop(b.id);
      }
    }
  }

  lemma DropKeeps(mount: string, buffers: seq<Buffer>, rest: seq<Buffer>, paths: map<string, Target>, id: nat)
    requires Registered(mount, buffers, paths) && forall n :: Has(rest, n) <==> Has(buffers, n) && n != id
    ensures Registered(mount, rest, paths - {PathOf(mount, Download(id))} - {PathOf(mount, Drop(id))})
  {
    hide PathOf, Has;
    var d, r := PathOf(mount, Download(id)), PathOf(mount, Drop(id));
    var after := paths - {d} - {r};
    forall p | p in after ensures p == PathOf(mount, after[p]) && Has(rest, after[p].id) {
      assert after[p] == paths[p];
      assert after[p] == Download(after[p].id) || after[p] == Drop(after[p].id);
    }
    forall t: Target | Has(rest, t.id) ensures PathOf(mount, t) in after {
      if PathOf(mount, t) == d {
        PathsApart(mount, t, Download(id));
      }
      if PathOf(mount, t) == r {
        PathsApart(mount, t, Drop(id));
      }
    }
  }

  lemma HandleDataKeeps(s: State, data: string, allocates: bool)
    requires Inv(s)
    ensures Inv(HandleData(s, data, allocates).0)
  {
    hide PathOf, Registered;
    if s.currentSize + |data| <= s.maxSize && allocates {
      RegisterKeeps(s.mount, s.buffers, s.paths, Buffer(s.currentId, data));
      BytesAppend(s.buffers, Buffer(s.currentId, data));
    }
  }

  lemma RequestKeeps(s: State, path: string)
    requires Inv(s)
    ensures Inv(Request(s, path)) && Request(s, path).currentId == s.currentId
    ensures forall n :: Has(Request(s, path).buffers, n) ==> Has(s.buffers, n)
  {
    hide PathOf, Registered, Numbered, Has;
    if path in s.paths && s.paths[path].Drop? {
      var id := s.paths[path].id;
      UnlistedFacts(s.buffers, id, s.currentId);
      DropKeeps(s.mount, s.buffers, Unlisted(s.buffers, id), s.paths, id);
    }
  }

  // ---- whole runs ------------------------------------------------------------------------

  datatype Action = Upload(data: string, allocates: bool) | Visit(path: string)

  function Next(s: State, a: Action): State {
    match a
    case Upload(data, allocates) => HandleData(s, data, allocates).0
    case Visit(path) => Request(s, path)
  }

  function Run(s: State, actions: seq<Action>): State
    decreases |actions|
  {
    if actions == [] then s else Run(Next(s, actions[0]), actions[1..])
  }

  lemma NextKeeps(s: State, a: Action)
    requires Inv(s)
    ensures Inv(Next(s, a)) && s.currentId <= Next(s, a).currentId
    ensures forall n: nat :: n < s.currentId && Has(Next(s, a).buffers, n) ==> Has(s.buffers, n)
  {
    hide PathOf, Inv, Has, Unlisted;
    match a {
      case Upload(data, allocates) =>
        HandleDataKeeps(s, data, allocates);
        forall n: nat | n < s.currentId && Has(Next(s, a).buffers, n) ensures Has(s.buffers, n) {
          HasLast(s.buffers, Buffer(s.currentId, data), n);
        }
      case Visit(path) =>
        RequestKeeps(s, path);
    }
  }

  /**
    * In every run the registered paths are exactly those of the listed buffers, the listing is in upload
    * order, and what is held is within what was ever accepted, which is within the quota.
    */
  lemma {:induction false} RunKeeps(s: State, actions: seq<Action>)
    requires Inv(s)
    ensures Inv(Run(s, actions)) && s.currentId <= Run(s, actions).currentId
    decreases |actions|
  {
    hide Inv, Next;
    if actions != [] {
      NextKeeps(s, actions[0]);
      RunKeeps(Next(s, actions[0]), actions[1..]);
    }
  }

  /** The same, spelled out, for a module from its start. */
  lemma RegistryAgrees(mount: string, actions: seq<Action>)
    ensures
      var t := Run(Initial(mount), actions);
      && (forall p :: p in t.paths <==>
            exists target: Target :: Has(t.buffers, target.id) && p == PathOf(t.mount, target))
      && (forall i, j :: 0 <= i < j < |t.buffers| ==> t.buffers[i].id < t.buffers[j].id < t.currentId)
      && Bytes(t.buffers) <= t.currentSize <= t.maxSize
  {
    hide PathOf, Has, Run;
    InitialInv(mount);
    RunKeeps(Initial(mount), actions);
  }

  /** A number that is used up and not listed never comes back. */
  lemma {:induction false} NeverReused(s: State, actions: seq<Action>, id: nat)
    requires Inv(s) && id < s.currentId && !Has(s.buffers, id)
    ensures !Has(Run(s, actions).buffers, id)
    decreases |actions|
  {
    hide Inv, Next, Has;
    if actions != [] {
      NextKeeps(s, actions[0]);
      NeverReused(Next(s, actions[0]), actions[1..], id);
    }
  }

  lemma {:induction false} UnlistedOthers(buffers: seq<Buffer>, b: Buffer, id: nat)
    requires b in buffers && b.id != id
    ensures b in Unlisted(buffers, id)
  {
    if buffers[0].id != id && buffers[0] != b {
      UnlistedOthers(buffers[1..], b, id);
    }
  }

  /** A buffer stays, with its data, and can be fetched, for as long as nobody visits its drop path. */
  lemma {:induction false} KeptUntilDropped(s: State, actions: seq<Action>, b: Buffer)
    requires Inv(s) && b in s.buffers
    requires Visit(PathOf(s.mount, Drop(b.id))) !in actions
    ensures
      var t, path := Run(s, actions), PathOf(s.mount, Download(b.id));
      b in t.buffers && path in t.paths && t.paths[path] == Download(b.id)
    decreases |actions|
  {
    hide PathOf, Unlisted, Numbered;
    if actions == [] {
      var i :| 0 <= i < |s.buffers| && s.buffers[i] == b;
      assert Has(s.buffers, Download(b.id).id);
      var path := PathOf(s.mount, Download(b.id));
      PathsApart(s.mount, s.paths[path], Download(b.id));
    } else {
      var a, t := actions[0], Next(s, actions[0]);
      NextKeeps(s, a);
      if a.Visit? && a.path in s.paths && s.paths[a.path].Drop? {
        var id := s.paths[a.path].id;
        assert Drop(id) == s.paths[a.path];
        assert a.path == PathOf(s.mount, Drop(id));
        UnlistedOthers(s.buffers, b, id);
      }
      KeptUntilDropped(t, actions[1..], b);
    }
  }

  /** The bytes of the uploads that a run accepts. */
  function Taken(s: State, actions: seq<Action>): nat
    decreases |actions|
  {
    if actions == [] then 0
    else
      (if actions[0].Upload? && HandleData(s, actions[0].data, actions[0].allocates).1 then |actions[0].data| else 0)
      + Taken(Next(s, actions[0]), actions[1..])
  }

  /**
    * The quota is over everything ever accepted: dropping gives nothing back, so after any run an upload
    * fits if and only if it fits beside all that was taken before it, dropped or not.
    */
  lemma {:induction false} QuotaIsForGood(s: State, actions: seq<Action>, more: string)
    ensures
      HandleData(Run(s, actions), more, true).1 <==> s.currentSize + Taken(s, actions) + |more| <= s.maxSize
    decreases |actions|
  {
    hide PathOf, Unlisted;
    if actions != [] {
      var t := Next(s, actions[0]);
      assert t.maxSize == s.maxSize;
      assert t.currentSize + Taken(t, actions[1..]) == s.currentSize + Taken(s, actions);
      QuotaIsForGood(t, actions[1..], more);
    }
  }

  /** An accepted upload can be fetched and dropped at once, and visiting its drop path takes it away. */
  lemma UploadThenDrop(s: State, data: string)
    requires Inv(s) && s.currentSize + |data| <= s.maxSize
    ensures
      var (t, accepted) := HandleData(s, data, true);
      var id := s.currentId;
      var drop := PathOf(s.mount, Drop(id));
      && accepted && t.buffers == s.buffers + [Buffer(id, data)] && t.currentId == id + 1
      && PathOf(s.mount, Download(id)) in t.paths && t.paths[PathOf(s.mount, Download(id))] == Download(id)
      && drop in t.paths && t.paths[drop] == Drop(id)
      && Request(t, drop).buffers == s.buffers && Request(t, drop).paths == s.paths
      && Request(t, drop).currentSize == s.currentSize + |data|
  {
    hide PathOf;
    var id, b := s.currentId, Buffer(s.currentId, data);
    var d, r := PathOf(s.mount, Download(id)), PathOf(s.mount, Drop(id));
    if d == r {
      PathsApart(s.mount, Download(id), Drop(id));
    }
    HasLast(s.buffers, b, id);
    UnlistLast(s.buffers, b);
    assert d !in s.paths && r !in s.paths by { NotYet(s, id); }
    assert s.paths[d := Download(id)][r := Drop(id)] - {d} - {r} == s.paths;
  }

  // ---- the current buffer ----------------------------------------------------------------

  /**
    * Every part has header lines, and the node has memory for its data, up to the first part that does not
    * fit the room left; that one has none.
    */
  predicate Safe(parts: seq<Part>, room: int) {
    parts == [] ||
    var p := parts[0];
    if |p.data| > room then !p.headers
    else p.headers && p.allocates && Safe(parts[1..], room - |p.data|)
  }

  predicate AllFit(parts: seq<Part>, room: int) {
    parts == [] || (|parts[0].data| <= room && AllFit(parts[1..], room - |parts[0].data|))
  }

  function Room(s: State): int {
    s.maxSize - s.currentSize
  }

  lemma {:induction false} TakePartsSafe(d: Desk, parts: seq<Part>, ending: Ending)
    requires d.current.Nothing?
    ensures
      var r := TakeParts(d, parts, ending);
      && (r.broken <==> d.broken || !Safe(parts, Room(d.state)))
      && (!r.broken ==>
            r.current == if ending == CutOff(true) && AllFit(parts, Room(d.state)) then Freed else Nothing)
    decreases |parts|
  {
    hide PathOf;
    if parts != [] {
      var p := parts[0];
      var (after, accepted) := TakeData(if p.headers then FormHeader(d) else d, p.data, p.allocates);
      if accepted {
        assert Room(after.state) == Room(d.state) - |p.data|;
        TakePartsSafe(after, parts[1..], ending);
      }
    }
  }

  /**
    * An upload is handled within its own memory exactly when the last one was not cut off after header
    * lines of a part and every part up to a refused one has header lines, and no such part is refused.
    * A refusal frees the current buffer and then has it freed again by the error it sends.
    */
  lemma PostSafe(d: Desk, parts: seq<Part>, ending: Ending)
    requires !d.broken && !d.current.Alive?
    ensures
      var r := Post(d, parts, ending);
      && (r.broken <==> d.current.Freed? || !Safe(parts, Room(d.state)))
      && (!r.broken ==>
            r.current == if ending == CutOff(true) && AllFit(parts, Room(d.state)) then Freed else Nothing)
  {
    hide TakeParts, Safe, AllFit;
    TakePartsSafe(BeginUpload(d), parts, ending);
  }

  /** The uploads that a post comes to. */
  function UploadsOf(parts: seq<Part>, room: int): seq<Action> {
    if parts == [] || |parts[0].data| > room then []
    else [Upload(parts[0].data, parts[0].allocates)] + UploadsOf(parts[1..], room - |parts[0].data|)
  }

  /** As long as nothing is broken, posts are runs of uploads, so what runs keep holds of the module. */
  lemma {:induction false} PostIsRun(d: Desk, parts: seq<Part>, ending: Ending)
    requires d.current.Nothing? && !TakeParts(d, parts, ending).broken
    ensures TakeParts(d, parts, ending).state == Run(d.state, UploadsOf(parts, Room(d.state)))
    decreases |parts|
  {
    hide PathOf;
    if parts != [] {
      var p := parts[0];
      var (after, accepted) := TakeData(if p.headers then FormHeader(d) else d, p.data, p.allocates);
      TakePartsSafe(d, parts, ending);
      if accepted {
        assert Room(after.state) == Room(d.state) - |p.data|;
        PostIsRun(after, parts[1..], ending);
        var first := [Upload(p.data, p.allocates)];
        assert (first + UploadsOf(parts[1..], Room(after.state)))[1..] == UploadsOf(parts[1..], Room(after.state));
      }
    }
  }

  /** From the start: one upload over the quota, and one cut off after header lines with any other after it. */
  lemma FreedTwice(mount: string, data: string, parts: seq<Part>, ending: Ending)
    requires |data| > MAX_SIZE
    ensures
      var start := Desk(Initial(mount), Nothing, false);
      && Post(start, [Part(true, data, true)], Complete).broken
      && !Post(start, [], CutOff(true)).broken && Post(Post(start, [], CutOff(true)), parts, ending).broken
  {
    hide TakeParts, Post;
    var start := Desk(Initial(mount), Nothing, false);
    PostSafe(start, [Part(true, data, true)], Complete);
    PostSafe(start, [], CutOff(true));
    PostSafe(Post(start, [], CutOff(true)), parts, ending);
  }

  /** The printed paths: one fetches the buffer just uploaded, the other takes it off the list. */
  lemma PathsPrinted(s: State, data: string)
    requires Inv(s) && s.currentSize + |data| <= s.maxSize
    ensures
      var t, id := HandleData(s, data, true).0, Digits(s.currentId, 10);
      var download, drop := s.mount + "/download/" + id, s.mount + "/drop/" + id;
      && download in t.paths && t.paths[download] == Download(s.currentId) && Request(t, download) == t
      && drop in t.paths && t.paths[drop] == Drop(s.currentId)
      && Request(t, drop).buffers == s.buffers && Request(t, drop).paths == s.paths
  {
    hide Digits, HandleData, Request;
    UploadThenDrop(s, data);
    var t := HandleData(s, data, true).0;
    NotADrop(t, s.mount + "/download/" + Digits(s.currentId, 10));
  }

  lemma NotADrop(s: State, path: string)
    requires path in s.paths && s.paths[path].Download?
    ensures Request(s, path) == s
  {
  }

  /** What is held after a run without drops is what was taken, on top of what was held before. */
  lemma {:induction false} HeldIsTaken(s: State, actions: seq<Action>)
    requires forall a :: a in actions ==> a.Upload?
    ensures Bytes(Run(s, actions).buffers) == Bytes(s.buffers) + Taken(s, actions)
    decreases |actions|
  {
    hide Register;
    if actions != [] {
      var a := actions[0];
      assert a in actions && forall b :: b in actions[1..] ==> b in actions;
      BytesAppend(s.buffers, Buffer(s.currentId, a.data));
      var id := s.currentId;
      RegisterBuffers(s.(currentId := id + 1, buffers := s.buffers + [Buffer(id, a.data)]), id);
      HeldIsTaken(Next(s, a), actions[1..]);
    }
  }

  lemma RegisterBuffers(s: State, id: nat)
    ensures Register(s, id).buffers == s.buffers
  {
  }

  /** The first upload fits if it is no more than eight megabytes. */
  lemma FirstUploadFits(mount: string, data: string)
    ensures HandleData(Initial(mount), data, true).1 <==> |data| <= 8388608
  {
  }

  /**
    * What a refusal leaves: beyond the quota everything, and without memory everything but the number that it
    * used up. The current buffer is freed twice by the refusal alone.
    */
  lemma RefusalLeaves(d: Desk, data: string, allocates: bool)
    requires d.current.Alive? && !TakeData(d, data, allocates).1
    ensures
      var r := TakeData(d, data, allocates).0;
      && r.broken && r.current.Freed?
      && r.state == (if d.state.currentSize + |data| > d.state.maxSize then d.state
                     else d.state.(currentId := d.state.currentId + 1))
  {
    hide PathOf;
  }

  /** Whatever is done with a buffer that was freed already breaks the module. */
  lemma FreedIsFinal(d: Desk, data: string, allocates: bool)
    requires d.current.Freed?
    ensures Release(d).broken && FormHeader(d).broken && BeginUpload(d).broken && TakeData(d, data, allocates).0.broken
  {
    hide PathOf;
  }

  lemma NotYet(s: State, id: nat)
    requires Inv(s) && id >= s.currentId
    ensures forall t: Target :: t.id == id ==> PathOf(s.mount, t) !in s.paths
  {
    hide PathOf;
    forall t: Target | t.id == id ensures PathOf(s.mount, t) !in s.paths {
      var p := PathOf(s.mount, t);
      if p in s.paths {
        PathsApart(s.mount, t, s.paths[p]);
      }
    }
  }

  lemma {:induction false} UnlistLast(buffers: seq<Buffer>, b: Buffer)
    requires forall i :: 0 <= i < |buffers| ==> buffers[i].id != b.id
    ensures Unlisted(buffers + [b], b.id) == buffers
  {
    var all := buffers + [b];
    if buffers != [] {
      assert all[1..] == buffers[1..] + [b];
      UnlistLast(buffers[1..], b);
    }
  }
}
