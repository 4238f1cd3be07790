/**
 The registry of services by group, application and path (cyfs-group-lib/src/group_manager.rs):
 a read-locked lookup followed, with other callers in between, by a write-locked insertion.
 Every lock section is one step, and any caller may take the next step.
 */
module ServiceRegistry {

  import opened Options

  type ObjectId = nat

  type Service = nat

  datatype Path = Path(group: ObjectId, dec: ObjectId, rpath: string)

  // ----- the nested maps -----

  type ByRPath = map<string, Service>
  type ByDec = map<ObjectId, ByRPath>
  type ByGroup = map<ObjectId, ByDec>

  function Lookup(m: ByGroup, p: Path): Option<Service> {
    if p.group in m && p.dec in m[p.group] && p.rpath in m[p.group][p.dec]
    then Some(m[p.group][p.dec][p.rpath]) else None
  }

  /** entry(..).or_insert_with(..) on three levels: the flag says whether the new service went in. */
  function EntryOrInsert(m: ByGroup, p: Path, offered: Service): (r: (ByGroup, Service, bool))
    ensures Lookup(m, p).Some? ==> r.1 == Lookup(m, p).value && !r.2
    ensures Lookup(m, p).None? ==> r.1 == offered && r.2
    ensures Lookup(r.0, p) == Some(r.1)
    ensures forall q | q != p :: Lookup(r.0, q) == Lookup(m, q)
  {
    var byDec: ByDec := if p.group in m then m[p.group] else map[];
    var byRPath: ByRPath := if p.dec in byDec then byDec[p.dec] else map[];
    var isNew := p.rpath !in byRPath;
    var byRPath': ByRPath := if isNew then byRPath[p.rpath := offered] else byRPath;
    (m[p.group := byDec[p.dec := byRPath']], byRPath'[p.rpath], isNew)
  }

  // ----- callers -----

  datatype Call =
    | Find(path: Path)           // find_rpath_service
    | Start(path: Path)          // start_rpath_service
    | FindOrRestart(path: Path)  // find_or_restart_service

  datatype Error = InvalidParam | NotFound | Reject | DelegateFailed

  datatype Result = Ok(service: Service) | Err(error: Error)

  /** Where a caller stands between its lock sections. */
  datatype Pc = Called | NotThere | HasDelegate | MustStart(service: Service) | Returned(result: Result)

  datatype Caller = Caller(call: Call, pc: Pc)

  datatype State = State(
    services: ByGroup,
    callers: seq<Caller>,
    nextService: Service,
    starts: seq<(nat, Service)>)

  /** The application of the manager, and whether it was opened with a delegate factory. */
  datatype Config = Config(dec: ObjectId, hasFactory: bool)

  /** One step of caller `t`; `granted` is whether the factory, if asked, hands out a delegate. */
  function Step(c: Config, s: State, t: nat, granted: bool): State
    requires t < |s.callers|
  {
    var caller := s.callers[t];
    var path := caller.call.path;
    match caller.pc
    case Called =>
      if caller.call.FindOrRestart? && path.dec != c.dec then GoTo(s, t, Returned(Err(InvalidParam)))
      else
        var found := Lookup(s.services, path);
        if found.Some? then GoTo(s, t, Returned(Ok(found.value)))
        else if caller.call.Find? then GoTo(s, t, Returned(Err(NotFound)))
        else GoTo(s, t, NotThere)
    case NotThere =>
      if caller.call.Start? then
        var (services, service, isNew) := EntryOrInsert(s.services, path, s.nextService);
        GoTo(s.(services := services, nextService := s.nextService + 1), t, Returned(Ok(service)))
      else if !c.hasFactory then GoTo(s, t, Returned(Err(Reject)))
      else if !granted then GoTo(s, t, Returned(Err(DelegateFailed)))
      else GoTo(s, t, HasDelegate)
    case HasDelegate =>
      var (services, service, isNew) := EntryOrInsert(s.services, path, s.nextService);
      var s' := s.(services := services, nextService := s.nextService + 1);
      if isNew then GoTo(s', t, MustStart(service)) else GoTo(s', t, Returned(Ok(service)))
    case MustStart(service) =>
      // a failure to start is logged and the service is returned all the same
      GoTo(s.(starts := s.starts + [(t, service)]), t, Returned(Ok(service)))
    case Returned(_) => s
  }

  function GoTo(s: State, t: nat, pc: Pc): State
    requires t < |s.callers|
  {
    s.(callers := s.callers[t := s.callers[t].(pc := pc)])
  }

  // ----- runs -----

  /** start_rpath_service and find_rpath_service always use the manager's own application. */
  ghost predicate Init(c: Config, s: State) {
    && s.services == map[]
    && s.starts == []
    && forall i | 0 <= i < |s.callers| ::
         s.callers[i].pc == Called && (!s.callers[i].call.FindOrRestart? ==> s.callers[i].call.path.dec == c.dec)
  }

  ghost predicate Next(c: Config, s: State, s': State) {
    exists t: nat, granted: bool :: t < |s.callers| && s' == Step(c, s, t, granted)
  }

  ghost predicate IsRun(c: Config, run: seq<State>) {
    && run != []
    && Init(c, run[0])
    && forall i | 0 <= i < |run| - 1 :: Next(c, run[i], run[i + 1])
  }

  /** The service a caller holds or has returned. */
  function Held(caller: Caller): Option<Service> {
    match caller.pc
    case MustStart(service) => Some(service)
    case Returned(Ok(service)) => Some(service)
    case _ => None
  }

  ghost predicate Started(s: State, service: Service) {
    exists i | 0 <= i < |s.starts| :: s.starts[i].1 == service
  }

  /** A lookup that fails ends there, and only find_or_restart_service asks for a delegate. */
  predicate MayBeAt(caller: Caller) {
    && (caller.pc == NotThere ==> !caller.call.Find?)
    && (caller.pc == HasDelegate ==> caller.call.FindOrRestart?)
  }

  ghost predicate Inv(s: State) {
    // registered services are distinct and older than the next one
    && (forall p | Lookup(s.services, p).Some? :: Lookup(s.services, p).value < s.nextService)
    && (forall p, q | Lookup(s.services, p).Some? && Lookup(s.services, p) == Lookup(s.services, q) :: p == q)
    // what a caller holds is what is registered under its path
    && (forall t | 0 <= t < |s.callers| && Held(s.callers[t]).Some? ::
          Lookup(s.services, s.callers[t].call.path) == Held(s.callers[t]))
    // a service waits for at most one start, or has been started, not both
    && (forall t, u | 0 <= t < u < |s.callers| && s.callers[t].pc.MustStart? && s.callers[u].pc.MustStart? ::
          s.callers[t].pc.service != s.callers[u].pc.service)
    && (forall t | 0 <= t < |s.callers| :: MayBeAt(s.callers[t]))
    && (forall t | 0 <= t < |s.callers| && s.callers[t].pc.MustStart? ::
          s.callers[t].call.FindOrRestart? && !Started(s, s.callers[t].pc.service))
    && (forall i, j | 0 <= i < j < |s.starts| :: s.starts[i].1 != s.starts[j].1)
    // a start was called by a find_or_restart_service that has returned the service
    && (forall i | 0 <= i < |s.starts| ::
          && s.starts[i].0 < |s.callers|
          && s.callers[s.starts[i].0].call.FindOrRestart?
          && s.callers[s.starts[i].0].pc == Returned(Ok(s.starts[i].1)))
  }

  lemma {:induction false} InitInv(c: Config, s: State)
    requires Init(c, s)
    ensures Inv(s)
  {
  }

  /** A caller that has nothing to start moves on. */
  lemma {:induction false} MoveInv(s: State, t: nat, pc: Pc)
    requires Inv(s) && t < |s.callers|
    requires !s.callers[t].pc.MustStart? && !s.callers[t].pc.Returned?
    requires !pc.MustStart? && MayBeAt(Caller(s.callers[t].call, pc))
    requires Held(Caller(s.callers[t].call, pc)).Some? ==>
               Held(Caller(s.callers[t].call, pc)) == Lookup(s.services, s.callers[t].call.path)
    ensures Inv(GoTo(s, t, pc))
  {
    hide Lookup;
    var s' := GoTo(s, t, pc);
    forall service
      ensures Started(s', service) == Started(s, service)
    {
    }
  }

  /** An entry keeps what is registered, and what it adds is new to everybody. */
  lemma {:induction false} EntryInv(s: State, p: Path)
    requires Inv(s)
    ensures var (services, service, isNew) := EntryOrInsert(s.services, p, s.nextService);
            var s' := s.(services := services, nextService := s.nextService + 1);
            && Inv(s')
            && (isNew ==> !Started(s', service))
            && (isNew ==>
                  forall u | 0 <= u < |s.callers| && s.callers[u].pc.MustStart? :: s.callers[u].pc.service != service)
  {
    hide Lookup, EntryOrInsert;
    var (services, service, isNew) := EntryOrInsert(s.services, p, s.nextService);
    var s' := s.(services := services, nextService := s.nextService + 1);
    forall t | 0 <= t < |s.callers| && Held(s.callers[t]).Some?
      ensures Lookup(services, s.callers[t].call.path) == Held(s.callers[t])
      ensures Held(s.callers[t]).value < s.nextService
    {
    }
    forall service
      ensures Started(s', service) == Started(s, service)
    {
    }
    forall i | 0 <= i < |s.starts|
      ensures s.starts[i].1 < s.nextService
    {
      assert Held(s.callers[s.starts[i].0]) == Some(s.starts[i].1);
    }
  }

  /** The caller that registered a service nobody knew is the one to start it. */
  lemma {:induction false} WinnerInv(s: State, t: nat, service: Service)
    requires Inv(s) && t < |s.callers|
    requires s.callers[t].pc == HasDelegate
    requires Lookup(s.services, s.callers[t].call.path) == Some(service)
    requires !Started(s, service)
    requires forall u | 0 <= u < |s.callers| && s.callers[u].pc.MustStart? :: s.callers[u].pc.service != service
    ensures Inv(GoTo(s, t, MustStart(service)))
  {
    hide Lookup;
    var s' := GoTo(s, t, MustStart(service));
    forall service
      ensures Started(s', service) == Started(s, service)
    {
    }
  }

  lemma {:induction false} InsertInv(s: State, t: nat)
    requires Inv(s) && t < |s.callers|
    requires s.callers[t].pc == (if s.callers[t].call.Start? then NotThere else HasDelegate)
    ensures var (services, service, isNew) := EntryOrInsert(s.services, s.callers[t].call.path, s.nextService);
            var s' := s.(services := services, nextService := s.nextService + 1);
            Inv(GoTo(s', t, if isNew && !s.callers[t].call.Start? then MustStart(service) else Returned(Ok(service))))
  {
    hide Inv, Lookup, EntryOrInsert, GoTo;
    var (services, service, isNew) := EntryOrInsert(s.services, s.callers[t].call.path, s.nextService);
    var s' := s.(services := services, nextService := s.nextService + 1);
    EntryInv(s, s.callers[t].call.path);
    if isNew && !s.callers[t].call.Start? {
      WinnerInv(s', t, service);
    } else {
      MoveInv(s', t, Returned(Ok(service)));
    }
  }

  lemma {:induction false} StartInv(s: State, t: nat)
    requires Inv(s) && t < |s.callers| && s.callers[t].pc.MustStart?
    ensures var service := s.callers[t].pc.service;
            Inv(GoTo(s.(starts := s.starts + [(t, service)]), t, Returned(Ok(service))))
  {
    hide Lookup;
    var mine := s.callers[t].pc.service;
    var s' := GoTo(s.(starts := s.starts + [(t, mine)]), t, Returned(Ok(mine)));
    forall service | Started(s', service)
      ensures Started(s, service) || service == mine
    {
      var i :| 0 <= i < |s'.starts| && s'.starts[i].1 == service;
      if i < |s.starts| {
        assert s.starts[i].1 == service;
      }
    }
  }

  lemma {:induction false} StepInv(c: Config, s: State, t: nat, granted: bool)
    requires Inv(s) && t < |s.callers|
    ensures Inv(Step(c, s, t, granted))
  {
    var caller := s.callers[t];
    assert MayBeAt(caller);
    hide Inv, Lookup, EntryOrInsert;
    match caller.pc
    case Called => MoveInv(s, t, Step(c, s, t, granted).callers[t].pc);
    case NotThere =>
      if caller.call.Start? {
        InsertInv(s, t);
      } else {
        MoveInv(s, t, Step(c, s, t, granted).callers[t].pc);
      }
    case HasDelegate => InsertInv(s, t);
    case MustStart(service) => StartInv(s, t);
    case Returned(_) =>
  }

  lemma {:induction false} Stepped(c: Config, run: seq<State>, i: nat) returns (t: nat, granted: bool)
    requires IsRun(c, run) && i + 1 < |run|
    ensures t < |run[i].callers| && run[i + 1] == Step(c, run[i], t, granted)
  {
    hide Step, Init;
    assert Next(c, run[i], run[i + 1]);
    t, granted :| t < |run[i].callers| && run[i + 1] == Step(c, run[i], t, granted);
  }

  lemma {:induction false} RunInv(c: Config, run: seq<State>, i: nat)
    requires IsRun(c, run) && i < |run|
    ensures Inv(run[i])
  {
    hide Inv, Step, Next;
    if i == 0 {
      InitInv(c, run[0]);
    } else {
      RunInv(c, run, i - 1);
      var t, granted := Stepped(c, run, i - 1);
      StepInv(c, run[i - 1], t, granted);
    }
  }

  /** What one step can change: nothing that is registered, no answer, no past start. */
  ghost predicate Extends(s: State, s': State) {
    && (forall p | Lookup(s.services, p).Some? :: Lookup(s'.services, p) == Lookup(s.services, p))
    && |s.callers| == |s'.callers|
    && (forall t | 0 <= t < |s.callers| :: s'.callers[t].call == s.callers[t].call)
    && (forall t | 0 <= t < |s.callers| && Held(s.callers[t]).Some? :: Held(s'.callers[t]) == Held(s.callers[t]))
    && s.starts <= s'.starts
  }

  lemma {:induction false} StepExtends(c: Config, s: State, t: nat, granted: bool)
    requires t < |s.callers|
    ensures Extends(s, Step(c, s, t, granted))
  {
  }

  lemma {:induction false} ExtendsReflexive(s: State)
    ensures Extends(s, s)
  {
    hide Lookup, Held;
  }

  lemma {:induction false} ExtendsTransitive(s: State, s': State, s'': State)
    requires Extends(s, s') && Extends(s', s'')
    ensures Extends(s, s'')
  {
    hide Lookup, Held;
  }

  lemma {:induction false} RunExtends(c: Config, run: seq<State>, i: nat, j: nat)
    requires IsRun(c, run) && i <= j < |run|
    ensures Extends(run[i], run[j])
    decreases j
  {
    hide *;
    if i == j {
      ExtendsReflexive(run[i]);
    } else {
      RunExtends(c, run, i, j - 1);
      var t, granted := Stepped(c, run, j - 1);
      StepExtends(c, run[j - 1], t, granted);
      ExtendsTransitive(run[i], run[j - 1], run[j]);
    }
  }

  // ----- safety of every interleaving -----

  /**
   Whatever the interleaving, the callers that ask for one path, at whatever moments they answer,
   hold the same service: the one registered under the path at the end.
   */
  lemma {:induction false} OneServicePerPath(c: Config, run: seq<State>, i: nat, j: nat, t: nat, u: nat)
    requires IsRun(c, run) && i < |run| && j < |run|
    requires t < |run[i].callers| && u < |run[j].callers|
    requires run[i].callers[t].call.path == run[j].callers[u].call.path
    requires Held(run[i].callers[t]).Some? && Held(run[j].callers[u]).Some?
    ensures Held(run[i].callers[t]) == Held(run[j].callers[u])
    ensures Lookup(run[|run| - 1].services, run[i].callers[t].call.path) == Held(run[i].callers[t])
  {
    RunInv(c, run, i);
    RunInv(c, run, j);
    RunExtends(c, run, i, |run| - 1);
    RunExtends(c, run, j, |run| - 1);
  }

  /** Callers of different paths never share a service. */
  lemma {:induction false} ServicesNotShared(c: Config, run: seq<State>, i: nat, j: nat, t: nat, u: nat)
    requires IsRun(c, run) && i < |run| && j < |run|
    requires t < |run[i].callers| && u < |run[j].callers|
    requires run[i].callers[t].call.path != run[j].callers[u].call.path
    requires Held(run[i].callers[t]).Some? && Held(run[j].callers[u]).Some?
    ensures Held(run[i].callers[t]) != Held(run[j].callers[u])
  {
    RunInv(c, run, i);
    RunInv(c, run, j);
    RunInv(c, run, |run| - 1);
    RunExtends(c, run, i, |run| - 1);
    RunExtends(c, run, j, |run| - 1);
  }

  /** Step `k` of the run is the insertion, by caller `t`, of `service` under a path that had none. */
  ghost predicate Won(run: seq<State>, k: nat, t: nat, service: Service) {
    && k + 1 < |run|
    && t < |run[k].callers| == |run[k + 1].callers|
    && run[k].callers[t].call.FindOrRestart?
    && run[k].callers[t].pc == HasDelegate
    && run[k + 1].callers[t].pc == MustStart(service)
    && Lookup(run[k].services, run[k].callers[t].call.path).None?
    && Lookup(run[k + 1].services, run[k].callers[t].call.path) == Some(service)
  }

  /** A caller comes to owe a start only by the insertion it won, and a start is made only by who owes it. */
  lemma {:induction false} StepStarts(c: Config, s: State, u: nat, granted: bool)
    requires u < |s.callers| && MayBeAt(s.callers[u])
    ensures var s' := Step(c, s, u, granted);
            && |s'.callers| == |s.callers|
            && (forall t | 0 <= t < |s.callers| && s'.callers[t].pc.MustStart? ::
                  || s'.callers[t] == s.callers[t]
                  || Won([s, s'], 0, t, s'.callers[t].pc.service))
            && (s'.starts == s.starts ||
                (s.callers[u].pc.MustStart? && s'.starts == s.starts + [(u, s.callers[u].pc.service)]))
  {
    hide Lookup, EntryOrInsert;
  }

  lemma {:induction false} MustStartWon(c: Config, run: seq<State>, i: nat, t: nat) returns (k: nat)
    requires IsRun(c, run) && i < |run|
    requires t < |run[i].callers| && run[i].callers[t].pc.MustStart?
    ensures k < i && Won(run, k, t, run[i].callers[t].pc.service)
  {
    if i == 0 {
      assert false;
    } else {
      hide Inv, Step, Lookup, Init, Next;
      var u, granted := Stepped(c, run, i - 1);
      RunMayBeAt(c, run, i - 1, u);
      StepStarts(c, run[i - 1], u, granted);
      if run[i].callers[t] == run[i - 1].callers[t] {
        k := MustStartWon(c, run, i - 1, t);
      } else {
        k := i - 1;
        assert Won([run[i - 1], run[i]], 0, t, run[i].callers[t].pc.service);
      }
    }
  }

  /** The manager calls start at most once for a service. */
  lemma {:induction false} StartedOnce(c: Config, run: seq<State>, i: nat, x: nat, y: nat)
    requires IsRun(c, run) && i < |run|
    requires x < |run[i].starts| && y < |run[i].starts| && run[i].starts[x].1 == run[i].starts[y].1
    ensures x == y
  {
    hide Step, Next, Lookup;
    RunInv(c, run, i);
  }

  lemma {:induction false} RunMayBeAt(c: Config, run: seq<State>, i: nat, t: nat)
    requires IsRun(c, run) && i < |run| && t < |run[i].callers|
    ensures MayBeAt(run[i].callers[t])
  {
    hide Step, Next, Lookup;
    RunInv(c, run, i);
  }

  /**
   A start is called only by the find_or_restart_service whose insertion registered the service;
   so a service that start_rpath_service registered is never started by the manager.
   */
  lemma {:induction false} StartedByWinner(c: Config, run: seq<State>, i: nat, x: nat) returns (k: nat)
    requires IsRun(c, run) && i < |run| && x < |run[i].starts|
    ensures k < i && Won(run, k, run[i].starts[x].0, run[i].starts[x].1)
  {
    if i == 0 {
      assert false;
    } else {
      hide *;
      var u, granted := Stepped(c, run, i - 1);
      RunMayBeAt(c, run, i - 1, u);
      StepStarts(c, run[i - 1], u, granted);
      if x < |run[i - 1].starts| {
        k := StartedByWinner(c, run, i - 1, x);
      } else {
        k := MustStartWon(c, run, i - 1, u);
      }
    }
  }

  // ----- every winner starts -----

  /** A caller that owes a start makes it on the way to its answer; nobody else moves it. */
  lemma {:induction false} StepPays(c: Config, s: State, u: nat, granted: bool, t: nat, service: Service)
    requires u < |s.callers| && t < |s.callers|
    requires s.callers[t].pc == MustStart(service) || (s.callers[t].pc == Returned(Ok(service)) && (t, service) in s.starts)
    ensures var s' := Step(c, s, u, granted);
            && |s'.callers| == |s.callers|
            && (|| s'.callers[t].pc == MustStart(service)
                || (s'.callers[t].pc == Returned(Ok(service)) && (t, service) in s'.starts))
  {
    hide Lookup, EntryOrInsert;
  }

  /** From its insertion on, a winner owes the start or has made it and answered. */
  lemma {:induction false} WinnerPays(c: Config, run: seq<State>, k: nat, t: nat, service: Service, j: nat)
    requires IsRun(c, run) && Won(run, k, t, service) && k < j < |run|
    ensures t < |run[j].callers|
    ensures || run[j].callers[t].pc == MustStart(service)
            || (run[j].callers[t].pc == Returned(Ok(service)) && (t, service) in run[j].starts)
    decreases j
  {
    hide Step, Next, Init, Lookup;
    if j == k + 1 {
    } else {
      WinnerPays(c, run, k, t, service, j - 1);
      var u, granted := Stepped(c, run, j - 1);
      StepPays(c, run[j - 1], u, granted, t, service);
    }
  }

  /** By the time the winner has returned, its service has been started, by it and exactly once. */
  lemma {:induction false} StartedExactlyOnce(c: Config, run: seq<State>, k: nat, t: nat, service: Service, j: nat)
    returns (x: nat)
    requires IsRun(c, run) && Won(run, k, t, service) && k < j < |run|
    requires t < |run[j].callers| && run[j].callers[t].pc.Returned?
    ensures x < |run[j].starts| && run[j].starts[x] == (t, service)
    ensures forall y | 0 <= y < |run[j].starts| && run[j].starts[y].1 == service :: y == x
  {
    hide Step, Next, Init, Lookup, Won, IsRun;
    WinnerPays(c, run, k, t, service, j);
    x :| 0 <= x < |run[j].starts| && run[j].starts[x] == (t, service);
    forall y | 0 <= y < |run[j].starts| && run[j].starts[y].1 == service
      ensures y == x
    {
      StartedOnce(c, run, j, x, y);
    }
  }

  /** Step `k` of the run is the insertion, by a start_rpath_service, of `service` under a path that had none. */
  ghost predicate Handed(run: seq<State>, k: nat, t: nat, service: Service) {
    && k + 1 < |run|
    && t < |run[k].callers| == |run[k + 1].callers|
    && run[k].callers[t].call.Start?
    && run[k].callers[t].pc == NotThere
    && run[k + 1].callers[t].pc == Returned(Ok(service))
    && Lookup(run[k].services, run[k].callers[t].call.path).None?
    && Lookup(run[k + 1].services, run[k].callers[t].call.path) == Some(service)
  }

  /** A path gets its service in one step of one caller, who either owes its start or is start_rpath_service. */
  lemma {:induction false} StepRegisters(c: Config, s: State, u: nat, granted: bool, p: Path)
    requires u < |s.callers| && MayBeAt(s.callers[u]) && Lookup(s.services, p).None?
    ensures var s' := Step(c, s, u, granted);
            Lookup(s'.services, p).Some? ==>
              && s.callers[u].call.path == p
              && (|| Won([s, s'], 0, u, Lookup(s'.services, p).value)
                  || Handed([s, s'], 0, u, Lookup(s'.services, p).value))
  {
    hide Lookup, EntryOrInsert;
  }

  /** Every registered service, in every state of every run, was put there by one of the two. */
  lemma {:induction false} RegisteredBySomeone(c: Config, run: seq<State>, i: nat, p: Path) returns (k: nat, t: nat)
    requires IsRun(c, run) && i < |run| && Lookup(run[i].services, p).Some?
    ensures k < i && t < |run[k].callers| && run[k].callers[t].call.path == p
    ensures Won(run, k, t, Lookup(run[i].services, p).value) || Handed(run, k, t, Lookup(run[i].services, p).value)
  {
    if i == 0 {
      assert false;
    } else {
      var u, granted := Stepped(c, run, i - 1);
      RunMayBeAt(c, run, i - 1, u);
      if Lookup(run[i - 1].services, p).Some? {
        k, t := RegisteredBySomeone(c, run, i - 1, p);
        RunExtends(c, run, i - 1, i);
      } else {
        StepRegisters(c, run[i - 1], u, granted, p);
        k, t := i - 1, u;
        OnePair(run, i - 1, t, Lookup(run[i].services, p).value);
      }
    }
  }

  lemma {:induction false} OnePair(run: seq<State>, k: nat, t: nat, service: Service)
    requires k + 1 < |run|
    ensures Won([run[k], run[k + 1]], 0, t, service) == Won(run, k, t, service)
    ensures Handed([run[k], run[k + 1]], 0, t, service) == Handed(run, k, t, service)
  {
    hide Lookup;
  }

  /** The step that registers a service is one step of the run, and one caller's. */
  lemma {:induction false} NotBoth(c: Config, run: seq<State>, k: nat, t: nat, k': nat, t': nat, service: Service)
    requires IsRun(c, run) && Handed(run, k, t, service)
    ensures !Won(run, k', t', service)
  {
    hide Step, Next, Init, Lookup, Held;
    if Won(run, k', t', service) {
      var path, path' := run[k].callers[t].call.path, run[k'].callers[t'].call.path;
      SamePath(c, run, k + 1, path, k' + 1, path', service);
      var u, granted := Stepped(c, run, k);
      if k == k' {
        OnlyOneMoves(c, run[k], u, granted, t, t');
      } else if k < k' {
        RunExtends(c, run, k + 1, k');
      } else {
        RunExtends(c, run, k' + 1, k);
      }
      assert false;
    }
  }

  lemma {:induction false} SamePath(c: Config, run: seq<State>, i: nat, p: Path, j: nat, q: Path, service: Service)
    requires IsRun(c, run) && i < |run| && j < |run|
    requires Lookup(run[i].services, p) == Some(service) && Lookup(run[j].services, q) == Some(service)
    ensures p == q
  {
    hide Step, Next, Init, Lookup;
    RunExtends(c, run, i, |run| - 1);
    RunExtends(c, run, j, |run| - 1);
    RunInv(c, run, |run| - 1);
  }

  lemma {:induction false} OnlyOneMoves(c: Config, s: State, u: nat, granted: bool, t: nat, t': nat)
    requires u < |s.callers| && t < |s.callers| && t' < |s.callers|
    ensures var s' := Step(c, s, u, granted);
            |s'.callers| == |s.callers| &&
            (s'.callers[t] != s.callers[t] && s'.callers[t'] != s.callers[t'] ==> t == t')
  {
    hide Lookup, EntryOrInsert;
  }

  /** A service that start_rpath_service registered is never started by the manager. */
  lemma {:induction false} HandedNeverStarted(c: Config, run: seq<State>, k: nat, t: nat, service: Service, i: nat, x: nat)
    requires IsRun(c, run) && Handed(run, k, t, service)
    requires i < |run| && x < |run[i].starts|
    ensures run[i].starts[x].1 != service
  {
    hide Step, Next, Init, Lookup, Won, Handed, IsRun;
    var k' := StartedByWinner(c, run, i, x);
    NotBoth(c, run, k, t, k', run[i].starts[x].0, service);
  }

  // ----- answers -----

  /** Which refusals a call can end in; a call for another application ends in InvalidParam or has not begun. */
  predicate Answerable(c: Config, caller: Caller) {
    var foreign := caller.call.FindOrRestart? && caller.call.path.dec != c.dec;
    && (foreign ==> caller.pc == Called || caller.pc == Returned(Err(InvalidParam)))
    && (caller.pc == Returned(Err(InvalidParam)) ==> foreign)
    && (caller.pc == Returned(Err(NotFound)) ==> caller.call.Find?)
    && (caller.pc == Returned(Err(Reject)) ==> caller.call.FindOrRestart? && !c.hasFactory)
    && (caller.pc == Returned(Err(DelegateFailed)) ==> caller.call.FindOrRestart? && c.hasFactory)
    && (caller.pc == HasDelegate ==> c.hasFactory)
    && (!caller.call.FindOrRestart? ==> caller.call.path.dec == c.dec)
  }

  lemma {:induction false} StepAnswerable(c: Config, s: State, u: nat, granted: bool, t: nat)
    requires u < |s.callers| && t < |s.callers| && MayBeAt(s.callers[t]) && Answerable(c, s.callers[t])
    ensures t < |Step(c, s, u, granted).callers| && Answerable(c, Step(c, s, u, granted).callers[t])
  {
    hide Lookup, EntryOrInsert;
  }

  /** In every state of every run: a refusal means what its code says. */
  lemma {:induction false} AnswersMeant(c: Config, run: seq<State>, i: nat, t: nat)
    requires IsRun(c, run) && i < |run| && t < |run[i].callers|
    ensures Answerable(c, run[i].callers[t])
  {
    hide Step, Next, Answerable, Lookup;
    if i == 0 {
      assert Answerable(c, run[0].callers[t]) by {
        FreshAnswerable(c, run[0], t);
      }
    } else {
      var u, granted := Stepped(c, run, i - 1);
      RunExtends(c, run, i - 1, i);
      AnswersMeant(c, run, i - 1, t);
      RunMayBeAt(c, run, i - 1, t);
      StepAnswerable(c, run[i - 1], u, granted, t);
    }
  }

  lemma {:induction false} FreshAnswerable(c: Config, s: State, t: nat)
    requires Init(c, s) && t < |s.callers|
    ensures Answerable(c, s.callers[t])
  {
  }

  /** No service of another application is ever registered. */
  lemma {:induction false} OwnApplicationOnly(c: Config, run: seq<State>, i: nat, p: Path)
    requires IsRun(c, run) && i < |run| && Lookup(run[i].services, p).Some?
    ensures p.dec == c.dec
  {
    hide Lookup, IsRun;
    var k, t := RegisteredBySomeone(c, run, i, p);
    AnswersMeant(c, run, k, t);
  }

  lemma {:induction false} StepFinds(c: Config, s: State, u: nat, granted: bool, t: nat, service: Service)
    requires u < |s.callers| && t < |s.callers|
    requires s.callers[t].pc == Called || s.callers[t].pc == Returned(Ok(service))
    requires s.callers[t].call.path.dec == c.dec && Lookup(s.services, s.callers[t].call.path) == Some(service)
    ensures var s' := Step(c, s, u, granted);
            && |s'.callers| == |s.callers|
            && s'.callers[t].call == s.callers[t].call
            && (s'.callers[t].pc == Called || s'.callers[t].pc == Returned(Ok(service)))
            && Lookup(s'.services, s.callers[t].call.path) == Some(service)
  {
    hide Lookup, EntryOrInsert;
  }

  /** A call that begins after its path has a service answers that service, whichever call it is. */
  lemma {:induction false} RegisteredIsFound(c: Config, run: seq<State>, i: nat, j: nat, t: nat, service: Service)
    requires IsRun(c, run) && i <= j < |run| && t < |run[i].callers| && run[i].callers[t].pc == Called
    requires Lookup(run[i].services, run[i].callers[t].call.path) == Some(service)
    ensures t < |run[j].callers| && run[j].callers[t].call == run[i].callers[t].call
    ensures run[j].callers[t].pc == Called || run[j].callers[t].pc == Returned(Ok(service))
    ensures Lookup(run[j].services, run[i].callers[t].call.path) == Some(service)
    decreases j
  {
    hide Step, Next, Init, Lookup;
    OwnApplicationOnly(c, run, i, run[i].callers[t].call.path);
    if i == j {
    } else {
      RegisteredIsFound(c, run, i, j - 1, t, service);
      var u, granted := Stepped(c, run, j - 1);
      StepFinds(c, run[j - 1], u, granted, t, service);
    }
  }

  lemma {:induction false} StepNotFound(c: Config, s: State, u: nat, granted: bool, t: nat)
    requires u < |s.callers| && t < |s.callers|
    requires Step(c, s, u, granted).callers[t].pc == Returned(Err(NotFound))
    ensures || s.callers[t].pc == Returned(Err(NotFound))
            || (s.callers[t].pc == Called && Lookup(s.services, s.callers[t].call.path).None?)
  {
    hide Lookup, EntryOrInsert;
  }

  /** And a call that answers NotFound was made while its path had none. */
  lemma {:induction false} NotFoundMeant(c: Config, run: seq<State>, j: nat, t: nat) returns (i: nat)
    requires IsRun(c, run) && j < |run| && t < |run[j].callers| && run[j].callers[t].pc == Returned(Err(NotFound))
    ensures i < j && t < |run[i].callers| && run[i].callers[t].pc == Called
    ensures Lookup(run[i].services, run[i].callers[t].call.path).None?
  {
    if j == 0 {
      assert false;
    } else {
      var u, granted := Stepped(c, run, j - 1);
      RunExtends(c, run, j - 1, j);
      StepNotFound(c, run[j - 1], u, granted, t);
      hide *;
      if run[j - 1].callers[t].pc == Returned(Err(NotFound)) {
        i := NotFoundMeant(c, run, j - 1, t);
      } else {
        i := j - 1;
      }
    }
  }

  /** A call gets past the factory exactly if there is one and it hands out a delegate, and else says which it lacked. */
  lemma {:induction false} DelegateExactly(c: Config, s: State, t: nat, granted: bool)
    requires t < |s.callers| && s.callers[t].pc == NotThere && s.callers[t].call.FindOrRestart?
    ensures var pc := Step(c, s, t, granted).callers[t].pc;
            && (pc == HasDelegate <==> c.hasFactory && granted)
            && (pc == Returned(Err(Reject)) <==> !c.hasFactory)
            && (pc == Returned(Err(DelegateFailed)) <==> c.hasFactory && !granted)
  {
  }

  /** What is left of a call. */
  function Remaining(pc: Pc): nat {
    match pc
    case Called => 4
    case NotThere => 3
    case HasDelegate => 2
    case MustStart(_) => 1
    case Returned(_) => 0
  }

  /** Every step of a call that has not returned brings it closer, and it moves no other: four steps are enough. */
  lemma {:induction false} StepProgress(c: Config, s: State, t: nat, granted: bool, u: nat)
    requires t < |s.callers| && u < |s.callers|
    ensures var s' := Step(c, s, t, granted);
            && |s'.callers| == |s.callers|
            && (if u == t && !s.callers[t].pc.Returned? then Remaining(s'.callers[u].pc) < Remaining(s.callers[u].pc)
                else s'.callers[u] == s.callers[u])
  {
    hide Lookup, EntryOrInsert;
  }
}
