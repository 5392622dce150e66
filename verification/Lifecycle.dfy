/** The application's life: published frontend and backend states, and the Prosody child
    process, owned by reference-counted handles and killed when the last one is dropped.

    Requests are served one at a time.  What can go wrong outside the program is a parameter,
    the `World`; killing a process is taken to work, and Prosody not to exit by itself. */
module Lifecycle {
  import opened Wrappers

  type Domain = string

  datatype Frontend =
    | FrontendRunning(domain: Domain)
    | FrontendRunningWithMisconfiguration(domain: Domain)
    | FrontendMisconfigured
    | FrontendRestarting

  /** `op` names the operational backend: everything that shares one process handle. */
  datatype Backend =
    | BackendStarting | BackendStartFailed
    | BackendRunning(op: nat)
    | BackendRestarting | BackendRestartFailed
    | BackendUndergoingFactoryReset | BackendUndergoingBackup | BackendUndergoingRestore
    | BackendStopped

  /** The pairs that have routes and so can be published. */
  predicate Publishable(f: Frontend, b: Backend) {
    match b
    case BackendRunning(_) => f.FrontendRunning? || f.FrontendRunningWithMisconfiguration?
    case BackendUndergoingFactoryReset => f.FrontendRestarting?
    case BackendStopped => f.FrontendMisconfigured?
    case _ => f.FrontendRunning?
  }

  predicate HasDomain(f: Frontend) { f.FrontendRunning? || f.FrontendRunningWithMisconfiguration? }

  // ---- ownership ----

  /** A child process object: how many strong references it has, and its running process. */
  datatype Instance = Instance(strong: nat, handle: Option<nat>)

  datatype State = State(
    frontend: Frontend, backend: Backend, weak: Option<nat>, instances: map<nat, Instance>, processes: set<nat>,
      nextId: nat)

  function HandleSet(i: Instance): set<nat> { if i.handle.Some? then {i.handle.value} else {} }

  function Retained(s: State, op: nat): State
    requires op in s.instances
  {
    s.(instances := s.instances[op := s.instances[op].(strong := s.instances[op].strong + 1)])
  }

  /** Dropping the last reference stops the process. */
  function Released(s: State, op: nat): State
    requires op in s.instances
  {
    var i := s.instances[op];
    if i.strong > 1 then s.(instances := s.instances[op := i.(strong := i.strong - 1)])
    else s.(instances := s.instances - {op}, processes := s.processes - HandleSet(i))
  }

  /** The published state keeps the new backend alive and lets go of the old one. */
  function Published(s: State, f: Frontend, b: Backend): State
    requires b.BackendRunning? ==> b.op in s.instances
    requires s.backend.BackendRunning? ==> s.backend.op in s.instances
  {
    var kept := if b.BackendRunning? then Retained(s, b.op) else s;
    var swapped := Swapped(kept, f, b);
    if s.backend.BackendRunning? then Released(swapped, s.backend.op) else swapped
  }

  function Halted(s: State, op: nat): State
    requires op in s.instances
  {
    s.(instances := s.instances[op := s.instances[op].(handle := None)],
      processes := s.processes - HandleSet(s.instances[op]))
  }

  function Created(s: State): State {
    s.(instances := s.instances[s.nextId := Instance(1, None)], nextId := s.nextId + 1)
  }

  function Started(s: State, op: nat): State
    requires op in s.instances
  {
    s.(instances := s.instances[op := s.instances[op].(handle := Some(s.nextId))],
      processes := s.processes + {s.nextId}, nextId := s.nextId + 1)
  }

  // ---- the invariant ----

  /** References held by the published state and by the request being served. */
  function References(s: State, local: multiset<nat>): multiset<nat> {
    Op(s.backend) + local
  }

  ghost predicate InstanceOk(s: State, refs: multiset<nat>, op: nat) {
    && (op in s.instances <==> op in refs)
    && (op in s.instances ==>
          && s.instances[op].strong == refs[op] && op < s.nextId
          && (s.instances[op].handle.Some? ==> s.instances[op].handle.value in s.processes))
  }

  ghost predicate HasOwner(s: State, p: nat) {
    exists op :: op in s.instances && s.instances[op].handle == Some(p)
  }

  /** Reference counts are right, every process has exactly one owner, and a shutdown would
      find the published one. */
  ghost predicate Owned(s: State, local: multiset<nat>) {
    && (forall op :: InstanceOk(s, References(s, local), op))
    && (forall p :: p in s.processes ==> p < s.nextId && HasOwner(s, p))
    && (forall a, b :: a in s.instances && b in s.instances && a != b && s.instances[a].handle.Some? ==>
        s.instances[a].handle != s.instances[b].handle)
    && s.weak == (if s.backend.BackendRunning? then Some(s.backend.op) else None)
  }

  lemma OwnedAt(s: State, local: multiset<nat>, op: nat)
    requires Owned(s, local) && op in References(s, local)
    ensures op in s.instances && s.instances[op].strong == References(s, local)[op]
  {
    assert InstanceOk(s, References(s, local), op);
  }

  lemma RetainKeeps(s: State, local: multiset<nat>, op: nat)
    requires Owned(s, local) && op in s.instances
    ensures Owned(Retained(s, op), local + multiset{op})
  {
    var t := Retained(s, op);
    forall o
      ensures InstanceOk(t, References(t, local + multiset{op}), o)
    {
      assert InstanceOk(s, References(s, local), o);
    }
    OwnersKept(s, t);
  }

  /** Processes keep their owners as long as handles stay. */
  lemma OwnersKept(s: State, t: State)
    requires forall p :: p in s.processes ==> p < s.nextId && HasOwner(s, p)
    requires t.processes <= s.processes && s.nextId <= t.nextId
    requires forall o ::
      o in s.instances && s.instances[o].handle.Some? && s.instances[o].handle.value in t.processes ==>
      o in t.instances && t.instances[o].handle == s.instances[o].handle
    ensures forall p :: p in t.processes ==> p < t.nextId && HasOwner(t, p)
  {
    forall p | p in t.processes ensures HasOwner(t, p) {
      var o :| o in s.instances && s.instances[o].handle == Some(p);
      assert t.instances[o].handle == Some(p);
    }
  }

  lemma ReleasedInstances(s: State, local: multiset<nat>, op: nat, o: nat)
    requires Owned(s, local) && op in local && op in s.instances && s.instances[op].strong == References(s, local)[op]
    ensures InstanceOk(Released(s, op), References(Released(s, op), local - multiset{op}), o)
  {
    assert InstanceOk(s, References(s, local), o);
    assert References(Released(s, op), local - multiset{op})[o] == References(s, local)[o] - if o == op then 1 else 0;
  }

  lemma ReleasedOwners(s: State, local: multiset<nat>, op: nat)
    requires Owned(s, local) && op in s.instances
    ensures forall p :: p in Released(s, op).processes ==> p < s.nextId && HasOwner(Released(s, op), p)
  {
    OwnersKept(s, Released(s, op));
  }

  lemma ReleaseKeeps(s: State, local: multiset<nat>, op: nat)
    requires Owned(s, local) && op in local
    ensures op in s.instances && Owned(Released(s, op), local - multiset{op})
  {
    OwnedAt(s, local, op);
    ReleasedOwners(s, local, op);
    forall o ensures InstanceOk(Released(s, op), References(Released(s, op), local - multiset{op}), o) {
      ReleasedInstances(s, local, op, o);
    }
  }

  lemma HaltKeeps(s: State, local: multiset<nat>, op: nat)
    requires Owned(s, local) && op in s.instances
    ensures Owned(Halted(s, op), local)
  {
    var t := Halted(s, op);
    forall o ensures InstanceOk(t, References(t, local), o) { assert InstanceOk(s, References(s, local), o); }
    OwnersKept(s, t);
  }

  lemma CreateKeeps(s: State, local: multiset<nat>)
    requires Owned(s, local)
    ensures s.nextId !in s.instances && Owned(Created(s), local + multiset{s.nextId})
  {
    assert InstanceOk(s, References(s, local), s.nextId);
    var t := Created(s);
    forall o
      ensures InstanceOk(t, References(t, local + multiset{s.nextId}), o)
    {
      assert InstanceOk(s, References(s, local), o);
    }
    OwnersKept(s, t);
  }

  lemma StartKeeps(s: State, local: multiset<nat>, op: nat)
    requires Owned(s, local) && op in s.instances && s.instances[op].handle == None
    ensures Owned(Started(s, op), local)
  {
    var t := Started(s, op);
    forall o ensures InstanceOk(t, References(t, local), o) { assert InstanceOk(s, References(s, local), o); }
    forall p | p in t.processes ensures p < t.nextId && HasOwner(t, p) {
      if p == s.nextId {
        assert t.instances[op].handle == Some(p);
      } else {
        var o :| o in s.instances && s.instances[o].handle == Some(p);
        assert t.instances[o].handle == Some(p);
      }
    }
    assert forall o :: o in s.instances && s.instances[o].handle.Some? ==> InstanceOk(s, References(s, local), o);
  }

  function Op(b: Backend): multiset<nat> { if b.BackendRunning? then multiset{b.op} else multiset{} }

  function Swapped(s: State, f: Frontend, b: Backend): State {
    s.(frontend := f, backend := b, weak := if b.BackendRunning? then Some(b.op) else None)
  }

  lemma RetainBackend(s: State, local: multiset<nat>, b: Backend)
    requires Owned(s, local) && (b.BackendRunning? ==> b.op in s.instances)
    ensures Owned(if b.BackendRunning? then Retained(s, b.op) else s, local + Op(b))
  {
    if b.BackendRunning? { RetainKeeps(s, local, b.op); } else { assert local + Op(b) == local; }
  }

  lemma ReleaseBackend(s: State, local: multiset<nat>, b: Backend)
    requires Owned(s, local + Op(b))
    ensures b.BackendRunning? ==> b.op in s.instances
    ensures Owned(if b.BackendRunning? then Released(s, b.op) else s, local)
  {
    if b.BackendRunning? {
      ReleaseKeeps(s, local + Op(b), b.op);
      assert local + Op(b) - multiset{b.op} == local;
    } else {
      assert local + Op(b) == local;
    }
  }

  /** Publishing takes a reference to the new backend and gives up the one to the old. */
  lemma PublishKeeps(s: State, local: multiset<nat>, f: Frontend, b: Backend)
    requires Owned(s, local) && (b.BackendRunning? ==> b.op in local)
    ensures (b.BackendRunning? ==> b.op in s.instances) && (s.backend.BackendRunning? ==> s.backend.op in s.instances)
    ensures Owned(Published(s, f, b), local)
  {
    if b.BackendRunning? { OwnedAt(s, local, b.op); }
    if s.backend.BackendRunning? { OwnedAt(s, local, s.backend.op); }
    RetainBackend(s, local, b);
    var kept := if b.BackendRunning? then Retained(s, b.op) else s;
    SwapBackend(kept, local, f, b);
    ReleaseBackend(Swapped(kept, f, b), local, s.backend);
  }

  lemma SwapBackend(s: State, local: multiset<nat>, f: Frontend, b: Backend)
    requires Owned(s, local + Op(b))
    ensures Owned(Swapped(s, f, b), local + Op(s.backend))
  {
    assert Op(b) + (local + Op(s.backend)) == Op(s.backend) + (local + Op(b));
    SwapKeeps(s, local + Op(b), Swapped(s, f, b), local + Op(s.backend));
  }

  lemma SwapKeeps(s: State, local: multiset<nat>, t: State, local': multiset<nat>)
    requires Owned(s, local) && References(t, local') == References(s, local)
    requires t.instances == s.instances && t.processes == s.processes && t.nextId == s.nextId
    requires t.weak == (if t.backend.BackendRunning? then Some(t.backend.op) else None)
    ensures Owned(t, local')
  {
    forall o ensures InstanceOk(t, References(t, local'), o) { assert InstanceOk(s, References(s, local), o); }
    OwnersKept(s, t);
  }

  // ---- between requests ----

  /** Between requests only the published state holds references. */
  ghost predicate Tidy(s: State) {
    && Owned(s, multiset{}) && Publishable(s.frontend, s.backend)
    && !s.backend.BackendUndergoingBackup? && !s.backend.BackendUndergoingRestore?
  }

  /** ... and a published Running backend has its process. */
  ghost predicate Full(s: State) {
    && Tidy(s)
    && (s.backend.BackendRunning? ==> s.backend.op in s.instances && s.instances[s.backend.op].handle.Some?)
  }

  /** So no Prosody runs unless the published backend is Running, in which case at most one
      does, and exactly one in a full state. */
  lemma CountProcesses(s: State)
    requires Tidy(s)
    ensures !s.backend.BackendRunning? ==> s.processes == {} && s.instances == map[]
    ensures s.backend.BackendRunning? ==>
      s.backend.op in s.instances && s.weak == Some(s.backend.op) && s.processes == HandleSet(s.instances[s.backend.op])
    ensures |s.processes| <= 1
    ensures Full(s) <==> |s.processes| == if s.backend.BackendRunning? then 1 else 0
  {
    forall o
      ensures o in s.instances <==> o in References(s, multiset{})
    {
      assert InstanceOk(s, References(s, multiset{}), o);
    }
    if s.backend.BackendRunning? {
      var op := s.backend.op;
      assert InstanceOk(s, References(s, multiset{}), op);
      forall p | p in s.processes ensures p in HandleSet(s.instances[op]) {
        var o :| o in s.instances && s.instances[o].handle == Some(p);
      }
      assert s.processes == HandleSet(s.instances[op]);
    } else {
      forall p ensures p !in s.processes { assert p in s.processes ==> HasOwner(s, p); }
      assert s.processes == {};
      assert s.instances == map[];
    }
  }

  // ---- what can be seen from outside ----

  datatype Request = FrontendReload | BackendReload | BackendRestart | Reload | FactoryReset | PostBackup | PutRestore

  datatype Outcome = NotRouted | Responded(ok: bool) | Panicked

  /** What happens around a request: whether stopping a process fails after the process is
      gone (for instance because its log task failed), whether everything needed for a new
      backend works, whether a process started by itself survives, whether one can be
      signalled, what configuration is read, if any that is valid, whether backups are
      configured and the request gets past its checks, whether the backup or restoration
      itself succeeds, and whether what a factory reset deletes can be found and deleted. */
  datatype World = World(
    stopFails: bool, bootstraps: bool, starts: bool, signals: bool,
    config: Option<Domain>, ready: bool, succeeds: bool, resets: bool)

  /** The published states, and whether a Prosody runs. */
  datatype View = View(frontend: Frontend, backend: Backend, process: bool)

  function Anonymous(b: Backend): Backend { if b.BackendRunning? then BackendRunning(0) else b }

  function ViewOf(s: State): View { View(s.frontend, Anonymous(s.backend), s.processes != {}) }

  /** A Prosody runs exactly while a Running backend is published. */
  predicate Accounted(v: View) { v.process <==> v.backend.BackendRunning? }

  const RUNNING := BackendRunning(0)

  predicate StopsFirst(r: Request, w: World) {
    r == BackendRestart || (w.ready && (r == PostBackup || r == PutRestore))
  }

  /** Starting and restarting, done or failed: the states that offer nothing but to try again. */
  predicate Restartable(b: Backend) {
    b.BackendStarting? || b.BackendStartFailed? || b.BackendRestarting? || b.BackendRestartFailed?
  }

  /** How a request changes what can be seen. */
  function Served(v: View, r: Request, w: World): (View, Outcome) {
    if v.backend.BackendRunning? then ServedRunning(v, r, w)
    else if v.backend.BackendStopped? && r == Reload then
      (match w.config
       case None => (v, Responded(false))
       case Some(domain) => Booted(FrontendRunning(domain), BackendStartFailed, w))
    else if Restartable(v.backend) && r == BackendRestart then
      Booted(v.frontend, if v.backend.BackendRestarting? || v.backend.BackendRestartFailed? then BackendRestartFailed
        else BackendStartFailed, w)
    else (v, NotRouted)
  }

  function Booted(f: Frontend, failed: Backend, w: World): (View, Outcome) {
    if w.bootstraps then (View(f, RUNNING, true), Responded(true)) else (View(f, failed, false), Responded(false))
  }

  function ServedRunning(v: View, r: Request, w: World): (View, Outcome) {
    var reloads := HasDomain(v.frontend) && w.config == Some(v.frontend.domain);
    if r == Reload then
      if reloads then ReloadedBackend(v.(frontend := FrontendRunning(v.frontend.domain)), w) else (v, Responded(false))
    else if !v.frontend.FrontendRunning? then (v, NotRouted)
    else match r
      case FrontendReload =>
        if reloads then (v, Responded(true))
        else (v.(frontend := FrontendRunningWithMisconfiguration(v.frontend.domain)), Responded(false))
      case BackendReload => ReloadedBackend(v, w)
      case FactoryReset =>
        if !w.resets || (w.stopFails && v.process) then
          (View(FrontendRestarting, BackendUndergoingFactoryReset, false), Responded(false))
        else if w.config == None then (View(FrontendMisconfigured, BackendStopped, false), Responded(true))
        else Booted(FrontendRunning(w.config.value), BackendStartFailed, w)
      case _ =>
        if !StopsFirst(r, w) then (v, Responded(false))
        else if w.stopFails && v.process then (v.(process := false), Panicked)
        else
          var (after, restarted) := Booted(v.frontend, BackendRestartFailed, w);
          (after, if r == BackendRestart then restarted else Responded(w.succeeds))
  }

  function ReloadedBackend(v: View, w: World): (View, Outcome) {
    if v.process then (v, Responded(w.signals)) else (v.(process := w.starts), Responded(w.starts))
  }

  // ---- when a Prosody runs ----

  /** A request panics: stopping the process fails, on one of the routes that unwrap it. */
  predicate Panics(v: View, r: Request, w: World) {
    w.stopFails && v.process && v.backend.BackendRunning? && v.frontend.FrontendRunning? && StopsFirst(r, w)
  }

  /** A request puts right a Running backend without a process: it starts one, or a new
      backend, or publishes that there is none. */
  predicate Recovers(v: View, r: Request, w: World) {
    match r
    case Reload => w.starts && HasDomain(v.frontend) && w.config == Some(v.frontend.domain)
    case BackendReload => w.starts && v.frontend.FrontendRunning?
    case FactoryReset => v.frontend.FrontendRunning?
    case FrontendReload => false
    case _ => v.frontend.FrontendRunning? && StopsFirst(r, w)
  }

  /** One request: a run of Prosody stays accounted for unless the request panics, and one
      that is not comes to be again exactly if the request recovers it. */
  lemma ServedExactly(v: View, r: Request, w: World)
    ensures Served(v, r, w).1.Panicked? <==> Panics(v, r, w)
    ensures Accounted(v) ==> (Accounted(Served(v, r, w).0) <==> !Panics(v, r, w))
    ensures v.backend.BackendRunning? && !v.process ==> (Accounted(Served(v, r, w).0) <==> Recovers(v, r, w))
  {
  }

  predicate Follows(v: View, v': View, r: Request, w: World) { v' == Served(v, r, w).0 }

  ghost predicate IsRun(views: seq<View>, requests: seq<Request>, worlds: seq<World>) {
    && |views| == |requests| + 1 && |worlds| == |requests|
    && forall i :: 0 <= i < |requests| ==> Follows(views[i], views[i + 1], requests[i], worlds[i])
  }

  predicate Answers(o: Outcome, v: View, r: Request, w: World) { o == Served(v, r, w).1 }

  /** Some request has panicked, and none since has put things right. */
  ghost predicate LeftWithout(views: seq<View>, requests: seq<Request>, worlds: seq<World>, n: nat)
    requires IsRun(views, requests, worlds) && n <= |requests|
  {
    exists i :: 0 <= i < n && Panics(views[i], requests[i], worlds[i])
      && forall j :: i < j < n ==> !Recovers(views[j], requests[j], worlds[j])
  }

  /** At every point of every run, exactly one Prosody runs if a Running backend is published
      and none otherwise, if and only if no request has panicked without another one
      recovering since. */
  lemma {:induction false} RunExactly(views: seq<View>, requests: seq<Request>, worlds: seq<World>, n: nat)
    requires IsRun(views, requests, worlds) && n <= |requests| && Accounted(views[0])
    ensures Accounted(views[n]) <==> !LeftWithout(views, requests, worlds, n)
    ensures !Accounted(views[n]) ==> views[n].backend.BackendRunning? && !views[n].process
  {
    if n > 0 {
      RunExactly(views, requests, worlds, n - 1);
      assert Follows(views[n - 1], views[n], requests[n - 1], worlds[n - 1]);
      ServedExactly(views[n - 1], requests[n - 1], worlds[n - 1]);
      if Accounted(views[n - 1]) {
        AfterAccounted(views, requests, worlds, n);
      } else {
        AfterLeft(views, requests, worlds, n);
      }
    }
  }

  lemma AfterAccounted(views: seq<View>, requests: seq<Request>, worlds: seq<World>, n: nat)
    requires IsRun(views, requests, worlds) && 0 < n <= |requests| && Accounted(views[n - 1])
    requires !LeftWithout(views, requests, worlds, n - 1)
    ensures LeftWithout(views, requests, worlds, n) <==> Panics(views[n - 1], requests[n - 1], worlds[n - 1])
  {
    if LeftWithout(views, requests, worlds, n) {
      var i :| 0 <= i < n && Panics(views[i], requests[i], worlds[i])
        && forall j :: i < j < n ==> !Recovers(views[j], requests[j], worlds[j]);
      assert i == n - 1;
    }
  }

  lemma AfterLeft(views: seq<View>, requests: seq<Request>, worlds: seq<World>, n: nat)
    requires IsRun(views, requests, worlds) && 0 < n <= |requests| && !views[n - 1].process
    requires LeftWithout(views, requests, worlds, n - 1)
    ensures LeftWithout(views, requests, worlds, n) <==> !Recovers(views[n - 1], requests[n - 1], worlds[n - 1])
  {
    var i :| 0 <= i < n - 1 && Panics(views[i], requests[i], worlds[i])
      && forall j :: i < j < n - 1 ==> !Recovers(views[j], requests[j], worlds[j]);
    if !Recovers(views[n - 1], requests[n - 1], worlds[n - 1]) {
      assert forall j :: i < j < n ==> !Recovers(views[j], requests[j], worlds[j]);
    }
  }

  /** The run that fails: a restart, a backup or a restoration whose stop fails leaves the
      Running backend published without a process, and so do any reloads of the frontend
      after it; the next restart whose stop does not fail puts things right. */
  lemma StopFailureLeavesNone(domain: Domain, r: Request, w: World, later: World)
    requires w.stopFails && StopsFirst(r, w)
    ensures var v := View(FrontendRunning(domain), RUNNING, true);
      var (v', o) := Served(v, r, w);
      && Accounted(v) && o == Panicked && v' == View(FrontendRunning(domain), RUNNING, false) && !Accounted(v')
      && !Accounted(Served(v', FrontendReload, later).0) && Accounted(Served(v', BackendRestart, later).0)
  {
  }

  // ---- what each route comes to ----

  predicate StopsWell(v: View, w: World) { !(w.stopFails && v.process) }

  /** What a request was for has been achieved. */
  predicate Achieves(v: View, r: Request, w: World) {
    match r
    case FrontendReload => ReadsSameDomain(v, w)
    case BackendReload => HasProsody(v, w)
    case Reload =>
      if v.backend.BackendRunning? then ReadsSameDomain(v, w) && HasProsody(v, w) else w.config.Some? && w.bootstraps
    case BackendRestart => w.bootstraps && (v.backend.BackendRunning? ==> StopsWell(v, w))
    case FactoryReset => w.resets && StopsWell(v, w) && (w.config.Some? ==> w.bootstraps)
    case _ => w.ready && StopsWell(v, w) && w.succeeds
  }

  predicate ReadsSameDomain(v: View, w: World) { HasDomain(v.frontend) && w.config == Some(v.frontend.domain) }

  /** The running Prosody can be signalled, or one can be started. */
  predicate HasProsody(v: View, w: World) { if v.process then w.signals else w.starts }

  /** The published state has a route for the request. */
  predicate Routed(v: View, r: Request) {
    match v.backend
    case BackendRunning(_) => v.frontend.FrontendRunning? || r == Reload
    case BackendStopped => r == Reload
    case _ => Restartable(v.backend) && r == BackendRestart
  }

  /** Requests without a route change nothing; the others answer that all went well exactly
      when they achieved what they were for. */
  lemma AnsweredExactly(v: View, r: Request, w: World)
    requires Publishable(v.frontend, v.backend)
    ensures Served(v, r, w).1.NotRouted? <==> !Routed(v, r)
    ensures !Routed(v, r) ==> Served(v, r, w).0 == v
    ensures Served(v, r, w).1 == Responded(true) <==> Routed(v, r) && Achieves(v, r, w)
  {
  }

  /** Reloading keeps the backend, and publishes the frontend for the domain that was read;
      if that is not the one before, or nothing valid was read, the frontend stays, or is
      marked as misconfigured by a frontend reload. */
  lemma ReloadsPublish(v: View, r: Request, w: World)
    requires Publishable(v.frontend, v.backend) && v.backend.BackendRunning? && Routed(v, r)
    requires r == Reload || r == FrontendReload || r == BackendReload
    ensures var v' := Served(v, r, w).0;
      && v'.backend == v.backend
      && (v.process ==> v'.process)
      && (r != BackendReload && w.config == Some(v.frontend.domain) ==>
          v'.frontend == FrontendRunning(v.frontend.domain))
      && (r == FrontendReload && w.config != Some(v.frontend.domain) ==>
            v'.frontend == FrontendRunningWithMisconfiguration(v.frontend.domain))
      && (r == BackendReload || (r == Reload && w.config != Some(v.frontend.domain)) ==> v'.frontend == v.frontend)
  {
  }

  /** A factory reset publishes that it is under way until everything is deleted; then the
      configuration that is read decides: none that is valid leaves the server to be
      configured, and otherwise it runs, or failed to start, for the domain that was read. */
  lemma ResetPublishes(v: View, w: World)
    requires Publishable(v.frontend, v.backend) && Routed(v, FactoryReset)
    ensures var v' := Served(v, FactoryReset, w).0;
      && (!w.resets || !StopsWell(v, w) ==> v' == View(FrontendRestarting, BackendUndergoingFactoryReset, false))
      && (w.resets && StopsWell(v, w) ==>
            && (w.config == None ==> v' == View(FrontendMisconfigured, BackendStopped, false))
            && (w.config.Some? ==> v'.frontend == FrontendRunning(w.config.value))
            && (w.config.Some? && w.bootstraps ==> v'.backend.BackendRunning? && v'.process)
            && (w.config.Some? && !w.bootstraps ==> v'.backend == BackendStartFailed && !v'.process))
  {
  }

  /** Configuring a server after a reset comes to the same. */
  lemma ConfigurePublishes(v: View, w: World)
    requires Publishable(v.frontend, v.backend) && v.backend.BackendStopped?
    ensures var v' := Served(v, Reload, w).0;
      && (w.config == None ==> v' == v)
      && (w.config.Some? ==> v'.frontend == FrontendRunning(w.config.value))
      && (w.config.Some? && w.bootstraps ==> v'.backend.BackendRunning? && v'.process)
      && (w.config.Some? && !w.bootstraps ==> v'.backend == BackendStartFailed && !v'.process)
  {
  }

  /** Starting or restarting keeps the frontend; it ends Running with a process, or failed:
      as a start if nothing has run since the server came up or was reset, as a restart
      otherwise. */
  lemma RestartPublishes(v: View, r: Request, w: World)
    requires Publishable(v.frontend, v.backend) && Routed(v, r)
    requires r == BackendRestart || (StopsFirst(r, w) && v.backend.BackendRunning?)
    requires v.backend.BackendRunning? ==> StopsWell(v, w)
    ensures var v' := Served(v, r, w).0;
      && v'.frontend == v.frontend
      && (w.bootstraps ==> v'.backend.BackendRunning? && v'.process)
      && (!w.bootstraps ==> !v'.process)
      && (!w.bootstraps && (v.backend.BackendStarting? || v.backend.BackendStartFailed?) ==>
            v'.backend == BackendStartFailed)
      && (!w.bootstraps && !v.backend.BackendStarting? && !v.backend.BackendStartFailed? ==>
            v'.backend == BackendRestartFailed)
  {
  }

  /** A backup or restoration that does not get past its checks changes nothing; one whose
      stop fails, like such a restart, loses the process and nothing else. */
  lemma RefusedChangesNothing(v: View, r: Request, w: World)
    requires Publishable(v.frontend, v.backend) && v.backend.BackendRunning? && Routed(v, r)
    ensures (r == PostBackup || r == PutRestore) && !w.ready ==> Served(v, r, w).0 == v
    ensures (r == BackendRestart || ((r == PostBackup || r == PutRestore) && w.ready)) && !StopsWell(v, w) ==>
      Served(v, r, w) == (v.(process := false), Panicked)
  {
  }

  /** In every run, the domain served at any point is the first one, or one that a request
      has read since. */
  lemma {:induction false} DomainWasRead(views: seq<View>, requests: seq<Request>, worlds: seq<World>, n: nat)
    requires IsRun(views, requests, worlds) && n <= |requests| && HasDomain(views[n].frontend)
    requires forall k :: 0 <= k <= |requests| ==> Publishable(views[k].frontend, views[k].backend)
    ensures (HasDomain(views[0].frontend) && views[n].frontend.domain == views[0].frontend.domain)
      || exists i :: 0 <= i < n && worlds[i].config == Some(views[n].frontend.domain)
  {
    if n > 0 {
      var v, w := views[n - 1], worlds[n - 1];
      assert Follows(v, views[n], requests[n - 1], w);
      if HasDomain(v.frontend) && v.frontend.domain == views[n].frontend.domain {
        DomainWasRead(views, requests, worlds, n - 1);
      } else {
        assert w.config == Some(views[n].frontend.domain);
      }
    }
  }

  // ---- configuration ----

  /** "Running with misconfiguration" comes of a failed `/lifecycle/frontend-reload` only; a
      failed `/lifecycle/reload` keeps the frontend it found, and a `/lifecycle/reload` that
      gets past the configuration has the same domain. */
  lemma MisconfiguredOnlyByFrontendReload(v: View, r: Request, w: World)
    ensures var (v', o) := Served(v, r, w);
      && (v'.frontend.FrontendRunningWithMisconfiguration? && v'.frontend != v.frontend ==>
            r == FrontendReload && o == Responded(false) && v.frontend == FrontendRunning(v'.frontend.domain))
      && (r == Reload && v.backend.BackendRunning? && HasDomain(v.frontend) ==>
            if w.config == Some(v.frontend.domain) then v'.frontend == FrontendRunning(v.frontend.domain)
            else v' == v && o == Responded(false))
  {
  }

  predicate KeepsDomain(r: Request, before: Frontend, after: Frontend) {
    r != FactoryReset && HasDomain(before) ==> HasDomain(after) && after.domain == before.domain
  }

  /** Two different domains have a factory reset between them. */
  lemma {:induction false} DomainChangesOnlyAcrossReset(views: seq<View>, requests: seq<Request>, worlds: seq<World>,
                                                        i: nat, j: nat)
    requires IsRun(views, requests, worlds) && i <= j <= |requests| && HasDomain(views[i].frontend)
    requires HasDomain(views[j].frontend)
    requires views[i].frontend.domain != views[j].frontend.domain
    requires forall k :: 0 <= k <= |requests| ==> Publishable(views[k].frontend, views[k].backend)
    ensures exists k :: i <= k < j && requests[k] == FactoryReset
    decreases j - i
  {
    if requests[i] != FactoryReset {
      assert Follows(views[i], views[i + 1], requests[i], worlds[i]);
      assert KeepsDomain(requests[i], views[i].frontend, views[i + 1].frontend);
      DomainChangesOnlyAcrossReset(views, requests, worlds, i + 1, j);
    }
  }

  // ---- the server ----

  datatype StopResult = Stopped | StoppedWithError

  class App {
    var frontend: Frontend
    var backend: Backend
    var weak: Option<nat>
    var instances: map<nat, Instance>
    var processes: set<nat>
    var nextId: nat

    ghost function Now(): State
      reads this
    {
      State(frontend, backend, weak, instances, processes, nextId)
    }

    /** The server starts with a valid configuration. */
    constructor (domain: Domain)
      ensures Full(Now()) && frontend == FrontendRunning(domain) && backend == BackendStarting
    {
      frontend, backend, weak := FrontendRunning(domain), BackendStarting, None;
      instances, processes, nextId := map[], {}, 0;
    }

    method Retain(op: nat)
      requires op in instances
      modifies this
      ensures Now() == Retained(old(Now()), op)
    {
      instances := instances[op := instances[op].(strong := instances[op].strong + 1)];
    }

    method Release(op: nat)
      requires op in instances
      modifies this
      ensures Now() == Released(old(Now()), op)
    {
      var i := instances[op];
      if i.strong > 1 {
        instances := instances[op := i.(strong := i.strong - 1)];
      } else {
        instances := instances - {op};
        processes := processes - HandleSet(i);
      }
    }

    /** `set_state` */
    method Publish(f: Frontend, b: Backend, ghost local: multiset<nat>)
      requires Owned(Now(), local) && (b.BackendRunning? ==> b.op in local)
      modifies this
      ensures old(Now()).backend.BackendRunning? ==> old(Now()).backend.op in old(Now()).instances
      ensures b.BackendRunning? ==> b.op in old(Now()).instances
      ensures Now() == Published(old(Now()), f, b) && Owned(Now(), local)
    {
      PublishKeeps(Now(), local, f, b);
      var previous := backend;
      if b.BackendRunning? { Retain(b.op); }
      weak := if b.BackendRunning? then Some(b.op) else None;
      frontend, backend := f, b;
      if previous.BackendRunning? { Release(previous.op); }
    }

    /** `ProsodyChildProcess::stop`: without a process there is nothing that could fail. */
    method Stop(op: nat, fails: bool, ghost local: multiset<nat>) returns (r: StopResult)
      requires Owned(Now(), local) && op in instances
      modifies this
      ensures Now() == Halted(old(Now()), op) && Owned(Now(), local)
      ensures r == if fails && old(instances)[op].handle.Some? then StoppedWithError else Stopped
    {
      HaltKeeps(Now(), local, op);
      var i := instances[op];
      instances := instances[op := i.(handle := None)];
      processes := processes - HandleSet(i);
      r := if fails && i.handle.Some? then StoppedWithError else Stopped;
    }

    /** `ProsodyChildProcess::start`: a process that does not survive leaves nothing. */
    method Start(op: nat, survives: bool, ghost local: multiset<nat>)
      requires Owned(Now(), local) && op in instances && instances[op].handle == None
      modifies this
      ensures Now() == (if survives then Started(old(Now()), op) else old(Now())) && Owned(Now(), local)
    {
      StartKeeps(Now(), local, op);
      if survives {
        instances := instances[op := instances[op].(handle := Some(nextId))];
        processes := processes + {nextId};
        nextId := nextId + 1;
      }
    }

    /** Any step may fail; the process then goes with the handle. */
    method Bootstrap(works: bool) returns (res: Option<nat>)
      requires Owned(Now(), multiset{})
      modifies this
      ensures frontend == old(frontend) && backend == old(backend) && weak == old(weak)
      ensures res.Some? <==> works
      ensures res == None ==> Owned(Now(), multiset{})
      ensures res.Some? ==>
        Owned(Now(), multiset{res.value}) && res.value in instances && instances[res.value].handle.Some?
    {
      var failing: nat := *; // the step that fails, if any does
      if !works && failing == 0 { return None; }
      var op := nextId;
      CreateKeeps(Now(), multiset{});
      assert multiset{} + multiset{op} == multiset{op};
      instances := instances[op := Instance(1, None)];
      nextId := nextId + 1;
      Start(op, works || failing > 1, multiset{op});
      if !works {
        ReleaseKeeps(Now(), multiset{op}, op);
        assert multiset{op} - multiset{op} == multiset{};
        Release(op);
        return None;
      }
      return Some(op);
    }

    /** `try_bootstrapping`, ending the request with a Running backend or a failed one. */
    method BootstrapOr(f: Frontend, failed: Backend, works: bool)
      requires Owned(Now(), multiset{}) && f.FrontendRunning?
      requires (failed.BackendStartFailed? || failed.BackendRestartFailed?)
      modifies this
      ensures Full(Now()) && frontend == f && (if works then backend.BackendRunning? else backend == failed)
    {
      var res := Bootstrap(works);
      if res == None {
        Publish(f, failed, multiset{});
        return;
      }
      var op := res.value;
      var local := multiset{op};
      Publish(f, BackendRunning(op), local);
      ReleaseKeeps(Now(), local, op);
      assert local - local == multiset{};
      assert InstanceOk(Now(), References(Now(), local), op);
      Release(op);
    }

    /** `do_restart_backend` */
    method DoRestartBackend(f: Frontend, works: bool)
      requires Owned(Now(), multiset{}) && f.FrontendRunning?
      modifies this
      ensures Full(Now()) && frontend == f
      ensures (if works then backend.BackendRunning? else backend == BackendRestartFailed)
    {
      Publish(f, BackendRestarting, multiset{});
      BootstrapOr(f, BackendRestartFailed, works);
    }

    /** The request shares the published backend, stops it and lets go of it. */
    method StopAndLetGo(fails: bool) returns (r: StopResult)
      requires Tidy(Now()) && backend.BackendRunning?
      modifies this
      ensures Tidy(Now()) && frontend == old(frontend) && backend == old(backend)
      ensures backend.op in instances && instances[backend.op].handle == None
      ensures r == if fails && old(processes) != {} then StoppedWithError else Stopped
    {
      var op := backend.op;
      CountProcesses(Now());
      RetainKeeps(Now(), multiset{}, op);
      assert multiset{} + multiset{op} == multiset{op};
      Retain(op);
      r := Stop(op, fails, multiset{op});
      ReleaseKeeps(Now(), multiset{op}, op);
      assert multiset{op} - multiset{op} == multiset{};
      Release(op);
      CountProcesses(Now());
    }

    /** Backup, restoration and restart share this shape.  A failed stop panics before
        anything is published: the Running backend stays, without a process. */
    method RestartAround(r: Request, w: World) returns (o: Outcome)
      requires Tidy(Now()) && frontend.FrontendRunning? && backend.BackendRunning? && StopsFirst(r, w)
      modifies this
      ensures Tidy(Now()) && (ViewOf(Now()), o) == Served(ViewOf(old(Now())), r, w)
      ensures o.Panicked? <==> w.stopFails && old(processes) != {}
      ensures if o.Panicked? then frontend == old(frontend) && backend == old(backend) && processes == {}
        else Full(Now())
    {
      var stopped := StopAndLetGo(w.stopFails);
      if stopped == StoppedWithError {
        CountProcesses(Now());
        return Panicked;
      }
      DoRestartBackend(frontend, w.bootstraps);
      CountProcesses(Now());
      return Responded(if r == BackendRestart then w.bootstraps else w.succeeds);
    }

    /** `do_factory_reset` */
    method DoFactoryReset(w: World) returns (o: Outcome)
      requires Tidy(Now()) && frontend.FrontendRunning? && backend.BackendRunning?
      modifies this
      ensures Full(Now()) && o.Responded? && (ViewOf(Now()), o) == Served(ViewOf(old(Now())), FactoryReset, w)
    {
      var op := backend.op;
      CountProcesses(Now());
      RetainKeeps(Now(), multiset{}, op);
      assert multiset{} + multiset{op} == multiset{op};
      Retain(op);
      var found: bool := *; // Prosody's paths
      var ok := ResetBackend(op, w, w.resets || found);
      if !ok || !w.resets {
        CountProcesses(Now());
        return Responded(false);
      }
      if w.config == None {
        Publish(FrontendMisconfigured, BackendStopped, multiset{});
        CountProcesses(Now());
        return Responded(true);
      }
      Publish(FrontendRunning(w.config.value), BackendStarting, multiset{});
      BootstrapOr(frontend, BackendStartFailed, w.bootstraps);
      CountProcesses(Now());
      return Responded(w.bootstraps);
    }

    /** The reset is published and the process stopped, or let go of. */
    method ResetBackend(op: nat, w: World, found: bool) returns (ok: bool)
      requires Owned(Now(), multiset{op}) && backend == BackendRunning(op) && op in instances
      modifies this
      ensures Tidy(Now()) && frontend == FrontendRestarting && backend == BackendUndergoingFactoryReset
      ensures ok <==> found && !(w.stopFails && old(instances)[op].handle.Some?)
    {
      Publish(FrontendRestarting, BackendUndergoingFactoryReset, multiset{op});
      OwnedAt(Now(), multiset{op}, op);
      ok := found;
      if ok {
        var r := Stop(op, w.stopFails, multiset{op});
        ok := r == Stopped;
      }
      OwnedAt(Now(), multiset{op}, op);
      ReleaseKeeps(Now(), multiset{op}, op);
      assert multiset{op} - multiset{op} == multiset{};
      Release(op);
    }

    /** `do_reload_frontend` on a Running backend: the new configuration must have the same
        domain. */
    method DoReloadFrontend(failed: Frontend, config: Option<Domain>) returns (ok: bool)
      requires Tidy(Now()) && backend.BackendRunning? && HasDomain(frontend) && HasDomain(failed)
      requires failed.domain == frontend.domain
      modifies this
      ensures Tidy(Now()) && (old(Full(Now())) ==> Full(Now())) && (ok <==> config == Some(old(frontend).domain))
      ensures Now() == old(Now()).(frontend := if ok then FrontendRunning(old(frontend).domain) else failed)
    {
      ok := config == Some(frontend.domain);
      Republish(if ok then FrontendRunning(frontend.domain) else failed);
    }

    method Republish(f: Frontend)
      requires Tidy(Now()) && backend.BackendRunning? && HasDomain(f)
      modifies this
      ensures Now() == old(Now()).(frontend := f) && Tidy(Now()) && (old(Full(Now())) ==> Full(Now()))
    {
      var op := backend.op;
      var local := multiset{op};
      CountProcesses(Now());
      RetainKeeps(Now(), multiset{}, op);
      assert multiset{} + local == local;
      assert InstanceOk(Now(), References(Now(), multiset{}), op);
      Retain(op);
      Publish(f, BackendRunning(op), local);
      ReleaseKeeps(Now(), local, op);
      assert local - local == multiset{};
      Release(op);
      assert instances == old(instances);
    }

    /** `do_reload_backend`: Prosody is signalled, or started if it has no process. */
    method DoReloadBackend(w: World) returns (ok: bool)
      requires Tidy(Now()) && backend.BackendRunning?
      modifies this
      ensures Tidy(Now()) && (ViewOf(Now()), Responded(ok)) == ReloadedBackend(ViewOf(old(Now())), w)
      ensures frontend == old(frontend) && backend == old(backend)
    {
      CountProcesses(Now());
      ok := w.signals;
      if instances[backend.op].handle == None {
        Start(backend.op, w.starts, multiset{});
        ok := w.starts;
      }
      CountProcesses(Now());
    }

    /** Serves one request through the routes of the published state.  References are
        counted and processes owned throughout; what can be seen changes as `Served` says. */
    method Serve(r: Request, w: World) returns (o: Outcome)
      requires Tidy(Now())
      modifies this
      ensures Tidy(Now()) && (ViewOf(Now()), o) == Served(ViewOf(old(Now())), r, w)
      ensures o.Panicked? <==> Panics(ViewOf(old(Now())), r, w)
      ensures old(Full(Now())) ==> (Full(Now()) <==> !Panics(ViewOf(old(Now())), r, w))
    {
      ServedExactly(ViewOf(Now()), r, w);
      CountProcesses(Now());
      if backend.BackendRunning? {
        o := ServeRunning(r, w);
      } else if backend.BackendStopped? && r == Reload {
        o := InitConfig(w);
      } else if Restartable(backend) && r == BackendRestart {
        o := StartAgain(w);
      } else {
        o := NotRouted;
      }
      CountProcesses(Now());
    }

    /** `do_init_config` */
    method InitConfig(w: World) returns (o: Outcome)
      requires Tidy(Now()) && backend.BackendStopped?
      modifies this
      ensures Full(Now()) && (ViewOf(Now()), o) == Served(ViewOf(old(Now())), Reload, w)
    {
      CountProcesses(Now());
      if w.config == None {
        Publish(FrontendMisconfigured, BackendStopped, multiset{});
        CountProcesses(Now());
        return Responded(false);
      }
      Publish(FrontendRunning(w.config.value), BackendStarting, multiset{});
      BootstrapOr(frontend, BackendStartFailed, w.bootstraps);
      CountProcesses(Now());
      return Responded(w.bootstraps);
    }

    /** `backend_start_again`, `backend_start_retry`, `backend_restart_again` and
        `backend_restart_retry` */
    method StartAgain(w: World) returns (o: Outcome)
      requires Tidy(Now()) && frontend.FrontendRunning? && !backend.BackendRunning?
      modifies this
      ensures Full(Now()) && (ViewOf(Now()), o) == Served(ViewOf(old(Now())), BackendRestart, w)
    {
      if backend.BackendRestarting? || backend.BackendRestartFailed? {
        DoRestartBackend(frontend, w.bootstraps);
      } else {
        if backend.BackendStartFailed? { Publish(frontend, BackendStarting, multiset{}); }
        BootstrapOr(frontend, BackendStartFailed, w.bootstraps);
      }
      CountProcesses(Now());
      return Responded(w.bootstraps);
    }

    method ServeRunning(r: Request, w: World) returns (o: Outcome)
      requires Tidy(Now()) && backend.BackendRunning?
      modifies this
      ensures Tidy(Now()) && (ViewOf(Now()), o) == Served(ViewOf(old(Now())), r, w)
    {
      if r == Reload {
        var ok := DoReloadFrontend(frontend, w.config);
        if ok { ok := DoReloadBackend(w); }
        return Responded(ok);
      }
      if frontend.FrontendRunningWithMisconfiguration? { return NotRouted; }
      if r == FrontendReload {
        var ok := DoReloadFrontend(FrontendRunningWithMisconfiguration(frontend.domain), w.config);
        return Responded(ok);
      }
      if r == BackendReload {
        var ok := DoReloadBackend(w);
        return Responded(ok);
      }
      if r == FactoryReset {
        o := DoFactoryReset(w);
        return;
      }
      if !w.ready && r != BackendRestart {
        return Responded(false);
      }
      o := RestartAround(r, w);
    }

    /** Any run of requests, one after the other, whatever happens around them.  At every
        point at most one Prosody runs; and exactly one if a Running backend is published and
        none otherwise, if and only if no request has panicked without another one
        recovering since. */
    method Run(requests: seq<Request>, worlds: seq<World>) returns (outcomes: seq<Outcome>, views: seq<View>)
      requires Full(Now()) && |worlds| == |requests|
      modifies this
      ensures Tidy(Now()) && |processes| <= 1 && |outcomes| == |requests| && IsRun(views, requests, worlds)
      ensures views[0] == ViewOf(old(Now())) && views[|requests|] == ViewOf(Now())
      ensures forall i :: 0 <= i < |requests| ==> Answers(outcomes[i], views[i], requests[i], worlds[i])
      ensures forall i :: 0 <= i <= |requests| ==> Publishable(views[i].frontend, views[i].backend)
      ensures Full(Now()) <==> !LeftWithout(views, requests, worlds, |requests|)
    {
      CountProcesses(Now());
      outcomes, views := [], [View(frontend, Anonymous(backend), processes != {})];
      for k := 0 to |requests|
        invariant Tidy(Now()) && |outcomes| == k && |views| == k + 1
        invariant views[0] == ViewOf(old(Now())) && views[k] == ViewOf(Now())
        invariant forall i :: 0 <= i < k ==> Follows(views[i], views[i + 1], requests[i], worlds[i])
        invariant forall i :: 0 <= i < k ==> Answers(outcomes[i], views[i], requests[i], worlds[i])
        invariant forall i :: 0 <= i <= k ==> Publishable(views[i].frontend, views[i].backend)
      {
        var o := Serve(requests[k], worlds[k]);
        outcomes := outcomes + [o];
        views := views + [View(frontend, Anonymous(backend), processes != {})];
      }
      CountProcesses(Now());
      RunExactly(views, requests, worlds, |requests|);
    }

    /** Shutdown: the process found through the published weak reference is stopped, after
        which none is left. */
    method Cleanup(fails: bool) returns (r: StopResult)
      requires Tidy(Now())
      modifies this
      ensures processes == {}
    {
      CountProcesses(Now());
      r := Stopped;
      if weak.Some? && weak.value in instances {
        r := Stop(weak.value, fails, multiset{});
      }
    }
  }
}
