/**
 * The OS process manager (internal/process/local/local.go): Start, Stop, Wait
 * and the reaper goroutine, as locked sections that interleave freely with
 * process spawning, exits and signals.
 */
module LocalManager {
  import opened Domain
  import opened Prelude

  /** What the reaper of a registered child has done: nothing, seen the exit, or published it. */
  datatype Reaper = Watching | Reaped(code: int) | Finalized

  /** kid names the spawned child itself, since the kernel may reuse a pid. */
  datatype Child = Child(
    id: string, kid: nat, pid: int, status: Status, exitCode: Option<int>, closes: nat, reaper: Reaper)

  datatype Handle = Handle(id: string, pid: int, status: Status, exitCode: Option<int>)

  function HandleOf(p: Child): Handle {
    Handle(p.id, p.pid, p.status, p.exitCode)
  }

  /** The reaper's locked section; the close is unguarded, so a second one would panic. */
  function Finalize(p: Child): Child
    requires p.reaper.Reaped?
  {
    p.(exitCode := Some(p.reaper.code),
       status := if p.status == Stopping || p.status == Running || p.status == Starting then Exited else p.status,
       closes := p.closes + 1,
       reaper := Finalized)
  }

  datatype Table = Table(procs: map<string, nat>, children: seq<Child>)

  ghost predicate WellFormed(t: Table) {
    forall id :: id in t.procs ==> t.procs[id] < |t.children| && t.children[t.procs[id]].id == id
  }

  /** The statuses of a child that has not ended. */
  predicate Alive(p: Child) {
    p.status in {Starting, Running, Unhealthy, Stopping}
  }

  predicate LiveUnder(t: Table, id: string)
    requires WellFormed(t)
  {
    id in t.procs && !IsTerminal(t.children[t.procs[id]].status)
  }

  function Added(t: Table, id: string, kid: nat, pid: int): Table {
    Table(t.procs[id := |t.children|], t.children + [Child(id, kid, pid, Running, None, 0, Watching)])
  }

  function Updated(t: Table, e: nat, p: Child): Table
    requires e < |t.children|
  {
    t.(children := t.children[e := p])
  }

  // ---------------------------------------------------------------------------
  // The manager object and its locked sections
  // ---------------------------------------------------------------------------

  datatype Lookup = NotFound | AlreadyTerminal(child: nat, handle: Handle) | Found(child: nat)

  /** What the first locked section of Stop and Wait finds under an id. */
  function LookupOf(t: Table, id: string): Lookup
    requires WellFormed(t)
  {
    if id !in t.procs then NotFound
    else
      var e := t.procs[id];
      if IsTerminal(t.children[e].status) then AlreadyTerminal(e, HandleOf(t.children[e])) else Found(e)
  }

  class Manager {
    var procs: map<string, nat>
    var children: seq<Child>

    function Contents(): Table
      reads this
    {
      Table(procs, children)
    }

    constructor ()
      ensures Contents() == Table(map[], []) && WellFormed(Contents())
    {
      procs, children := map[], [];
    }

    /** Start's first section: refuse a live id, forget an exited one. */
    method BeginStart(id: string) returns (ok: bool)
      requires WellFormed(Contents())
      modifies this
      ensures WellFormed(Contents()) && children == old(children)
      ensures ok <==> !LiveUnder(old(Contents()), id)
      ensures ok <==> !(id in old(procs) && Alive(old(children)[old(procs)[id]]))
      ensures procs == if ok then old(procs) - {id} else old(procs)
    {
      if id in procs {
        if !IsTerminal(children[procs[id]].status) {
          return false;
        }
        procs := procs - {id};
      }
      assert id !in old(procs) ==> old(procs) - {id} == old(procs);
      ok := true;
    }

    /** Start's second section: the spawned child is registered unless a live one got there first. */
    method Register(id: string, kid: nat, pid: int) returns (handle: Option<Handle>)
      requires WellFormed(Contents())
      modifies this
      ensures WellFormed(Contents())
      ensures handle.None? <==> LiveUnder(old(Contents()), id)
      ensures Contents() == if handle.None? then old(Contents()) else Added(old(Contents()), id, kid, pid)
      ensures handle.None? <==> id in old(procs) && Alive(old(children)[old(procs)[id]])
      ensures handle.Some? ==>
        && handle.value == Handle(id, pid, Running, None)
        && procs == old(procs)[id := |old(children)|]
        && children == old(children) + [Child(id, kid, pid, Running, None, 0, Watching)]
    {
      if id in procs && !IsTerminal(children[procs[id]].status) {
        return None;
      }
      var p := Child(id, kid, pid, Running, None, 0, Watching);
      procs, children := procs[id := |children|], children + [p];
      handle := Some(HandleOf(p));
    }

    method FinishReap(e: nat)
      requires WellFormed(Contents()) && e < |children| && children[e].reaper.Reaped?
      modifies this
      ensures WellFormed(Contents()) && Contents() == Updated(old(Contents()), e, Finalize(old(children)[e]))
      ensures procs == old(procs) && |children| == |old(children)|
      ensures forall d :: 0 <= d < |children| && d != e ==> children[d] == old(children)[d]
      ensures var p, was := children[e], old(children)[e];
        && p.id == was.id && p.kid == was.kid && p.pid == was.pid
        && p.exitCode == Some(was.reaper.code) && p.closes == was.closes + 1 && p.reaper == Finalized
        && p.status == if was.status in {Starting, Running, Stopping} then Exited else was.status
    {
      var p := children[e];
      p := p.(exitCode := Some(p.reaper.code));
      if p.status == Stopping || p.status == Running || p.status == Starting {
        p := p.(status := Exited);
      }
      p := p.(closes := p.closes + 1, reaper := Finalized);
      children := children[e := p];
    }

    method BeginStop(id: string) returns (r: Lookup)
      requires WellFormed(Contents())
      modifies this
      ensures WellFormed(Contents()) && procs == old(procs)
      ensures r == LookupOf(old(Contents()), id)
      ensures Contents() ==
        if r.Found? then Updated(old(Contents()), procs[id], old(children)[procs[id]].(status := Stopping))
        else old(Contents())
      ensures r.NotFound? <==> id !in procs
      ensures r.Found? <==> id in procs && Alive(old(children)[procs[id]])
      ensures r.Found? ==> children[procs[id]] == old(children)[procs[id]].(status := Stopping)
      ensures forall d :: 0 <= d < |old(children)| && (r.Found? ==> d != procs[id]) ==>
        d < |children| && children[d] == old(children)[d]
    {
      if id !in procs {
        return NotFound;
      }
      var e := procs[id];
      if IsTerminal(children[e].status) {
        return AlreadyTerminal(e, HandleOf(children[e]));
      }
      children := children[e := children[e].(status := Stopping)];
      r := Found(e);
    }

    /**
     * Wait's first section. A call that goes on to wait holds a child whose done is
     * still open and whose reaper is yet to close it; one that returns has the final answer.
     */
    method Find(id: string) returns (r: Lookup)
      requires SoundTable(Contents())
      ensures r == LookupOf(Contents(), id)
      ensures r.NotFound? <==> id !in procs
      ensures r.Found? <==> id in procs && Alive(children[procs[id]])
      ensures !r.NotFound? ==> r.child == procs[id] && children[r.child].id == id
      ensures r.Found? ==> children[r.child].closes == 0 && !children[r.child].reaper.Finalized?
      ensures r.AlreadyTerminal? ==> children[r.child].reaper.Finalized? && r.handle.exitCode.Some?
      ensures r.AlreadyTerminal? ==>
        var p := children[r.child];
        r.handle == Handle(id, p.pid, p.status, p.exitCode)
    {
      if id !in procs {
        return NotFound;
      }
      var e := procs[id];
      if IsTerminal(children[e].status) {
        return AlreadyTerminal(e, HandleOf(children[e]));
      }
      r := Found(e);
    }
  }

  // ---------------------------------------------------------------------------
  // Calls in flight and the steps that interleave
  // ---------------------------------------------------------------------------

  datatype Outcome = Refused | Started(handle: Handle) | Stopped(child: nat) | Waited(child: nat, handle: Handle)

  datatype Call =
    | Spawning(id: string)                             // Start: before the OS spawned the child
    | Assigning(id: string, kid: nat, pid: int)        // Start: spawned, job object to come
    | Registering(id: string, kid: nat, pid: int)      // Start: second section to come
    | Losing(kid: nat)                                 // Start: lost the race, killing its own child
    | StopBlocked(child: nat)                          // Stop: signalled, waiting for done
    | WaitBlocked(child: nat)                          // Wait: waiting for done
    | Returned(outcome: Outcome)

  datatype State = State(
    table: Table,
    calls: map<nat, Call>,
    spawned: nat,            // children 0..spawned-1 were spawned
    disposed: set<nat>,      // children killed and waited for by the Start that spawned them
    unassigned: set<nat>)    // those among them whose Start went on without a job object

  datatype Step =
    | StartBegins(c: nat, id: string)
    | SpawnFails(c: nat)
    | Spawns(c: nat, pid: int)
    | JobAssigned(c: nat)
    | JobFails(c: nat, strict: bool)
    | StartRegisters(c: nat)
    | LoserDisposed(c: nat)
    | ChildExits(c: nat, code: int)     // the reaper of registered child c returns from its wait
    | ReaperFinalizes(c: nat)           // the reaper of registered child c publishes the exit
    | StopBegins(c: nat, id: string)
    | StopSeesDone(c: nat)
    | StopGivesUp(c: nat)
    | WaitBegins(c: nat, id: string)
    | WaitWakes(c: nat)
    | WaitCancelled(c: nat)

  const Init := State(Table(map[], []), map[], 0, {}, {})

  ghost predicate ByReaper(step: Step) {
    step.ChildExits? || step.ReaperFinalizes?
  }

  ghost predicate DoneClosed(t: Table, e: nat) {
    e < |t.children| && t.children[e].closes > 0
  }

  ghost predicate Enabled(s: State, step: Step) {
    match step
    case StartBegins(c, id) => c !in s.calls
    case SpawnFails(c) => c in s.calls && s.calls[c].Spawning?
    case Spawns(c, pid) => c in s.calls && s.calls[c].Spawning?
    case JobAssigned(c) => c in s.calls && s.calls[c].Assigning?
    case JobFails(c, strict) => c in s.calls && s.calls[c].Assigning?
    case StartRegisters(c) => c in s.calls && s.calls[c].Registering?
    case LoserDisposed(c) => c in s.calls && s.calls[c].Losing?
    case ChildExits(e, code) => e < |s.table.children| && s.table.children[e].reaper.Watching?
    case ReaperFinalizes(e) => e < |s.table.children| && s.table.children[e].reaper.Reaped?
    case StopBegins(c, id) => c !in s.calls
    case StopSeesDone(c) => c in s.calls && s.calls[c].StopBlocked? && DoneClosed(s.table, s.calls[c].child)
    case StopGivesUp(c) => c in s.calls && s.calls[c].StopBlocked?
    case WaitBegins(c, id) => c !in s.calls
    case WaitWakes(c) => c in s.calls && s.calls[c].WaitBlocked? && DoneClosed(s.table, s.calls[c].child)
    case WaitCancelled(c) => c in s.calls && s.calls[c].WaitBlocked?
  }

  ghost function Goes(s: State, c: nat, to: Call): State {
    s.(calls := s.calls[c := to])
  }

  ghost function Apply(s: State, step: Step): State
    requires Inv(s) && Enabled(s, step)
  {
    var t := s.table;
    match step
    case StartBegins(c, id) =>
      if LiveUnder(t, id) then Goes(s, c, Returned(Refused))
      else Goes(s, c, Spawning(id)).(table := t.(procs := t.procs - {id}))
    case SpawnFails(c) => Goes(s, c, Returned(Refused))
    case Spawns(c, pid) => Goes(s, c, Assigning(s.calls[c].id, s.spawned, pid)).(spawned := s.spawned + 1)
    case JobAssigned(c) => Goes(s, c, Registering(s.calls[c].id, s.calls[c].kid, s.calls[c].pid))
    case JobFails(c, strict) =>
      var call := s.calls[c];
      Goes(s, c, if strict then Returned(Refused) else Registering(call.id, call.kid, call.pid)).(
        disposed := s.disposed + {call.kid},
        unassigned := if strict then s.unassigned else s.unassigned + {call.kid})
    case StartRegisters(c) =>
      var call := s.calls[c];
      if LiveUnder(t, call.id) then Goes(s, c, Losing(call.kid))
      else
        Goes(s, c, Returned(Started(Handle(call.id, call.pid, Running, None)))).(
          table := Added(t, call.id, call.kid, call.pid))
    case LoserDisposed(c) => Goes(s, c, Returned(Refused)).(disposed := s.disposed + {s.calls[c].kid})
    case ChildExits(e, code) => s.(table := Updated(t, e, t.children[e].(reaper := Reaped(code))))
    case ReaperFinalizes(e) => s.(table := Updated(t, e, Finalize(t.children[e])))
    case StopBegins(c, id) =>
      match LookupOf(t, id) {
        case NotFound => Goes(s, c, Returned(Refused))
        case AlreadyTerminal(e, _) => Goes(s, c, Returned(Stopped(e)))
        case Found(e) => Goes(s, c, StopBlocked(e)).(table := Updated(t, e, t.children[e].(status := Stopping)))
      }
    case StopSeesDone(c) => Goes(s, c, Returned(Stopped(s.calls[c].child)))
    case StopGivesUp(c) => Goes(s, c, Returned(Refused))
    case WaitBegins(c, id) =>
      match LookupOf(t, id) {
        case NotFound => Goes(s, c, Returned(Refused))
        case AlreadyTerminal(e, h) => Goes(s, c, Returned(Waited(e, h)))
        case Found(e) => Goes(s, c, WaitBlocked(e))
      }
    case WaitWakes(c) =>
      var e := s.calls[c].child;
      Goes(s, c, Returned(Waited(e, HandleOf(t.children[e]))))
    case WaitCancelled(c) => Goes(s, c, Returned(Refused))
  }

  // ---------------------------------------------------------------------------
  // The invariant
  // ---------------------------------------------------------------------------

  /** done closed at most once, and: closed, terminal, exit code set and finalized are one and the same. */
  ghost predicate Sound(p: Child) {
    && p.closes <= 1 && (p.closes == 1 <==> p.reaper.Finalized?)
    && (p.status == Running || p.status == Stopping || p.status == Exited)
    && (IsTerminal(p.status) <==> p.reaper.Finalized?)
    && (p.exitCode.Some? <==> p.reaper.Finalized?)
  }

  /** A child that is not finalized is still the one found under its id. */
  ghost predicate Reachable(t: Table, e: nat)
    requires e < |t.children|
  {
    t.children[e].reaper.Finalized? || (t.children[e].id in t.procs && t.procs[t.children[e].id] == e)
  }

  ghost predicate SoundTable(t: Table) {
    && WellFormed(t)
    && forall e :: 0 <= e < |t.children| ==> Sound(t.children[e]) && Reachable(t, e)
  }

  ghost predicate CallInv(t: Table, call: Call) {
    match call
    case StopBlocked(e) => e < |t.children|
    case WaitBlocked(e) => e < |t.children|
    case Returned(Stopped(e)) => e < |t.children| && t.children[e].reaper.Finalized?
    case Returned(Waited(e, h)) =>
      e < |t.children| && t.children[e].reaper.Finalized? && h == HandleOf(t.children[e])
    case _ => true
  }

  ghost predicate Inv(s: State) {
    SoundTable(s.table) && forall c :: c in s.calls ==> CallInv(s.table, s.calls[c])
  }

  /** Identity is fixed, a finalized child is frozen, and a stopping child never runs again. */
  ghost predicate ChildEvolves(p: Child, p': Child) {
    && p'.id == p.id && p'.kid == p.kid && p'.pid == p.pid
    && (p.reaper.Finalized? ==> p' == p)
    && (p.status == Stopping || p.status == Exited ==> p'.status == Stopping || p'.status == Exited)
  }

  ghost predicate Evolves(t: Table, t': Table) {
    && |t.children| <= |t'.children|
    && forall e :: 0 <= e < |t.children| ==> ChildEvolves(t.children[e], t'.children[e])
  }

  lemma ForgettingKeeps(t: Table, id: string)
    requires SoundTable(t) && !LiveUnder(t, id)
    ensures SoundTable(t.(procs := t.procs - {id}))
  {
    var t' := t.(procs := t.procs - {id});
    forall e | 0 <= e < |t.children| ensures Reachable(t', e) {
      assert Reachable(t, e);
    }
  }

  lemma AddedKeeps(t: Table, id: string, kid: nat, pid: int)
    requires SoundTable(t) && !LiveUnder(t, id)
    ensures SoundTable(Added(t, id, kid, pid)) && Evolves(t, Added(t, id, kid, pid))
  {
    var t' := Added(t, id, kid, pid);
    forall e | 0 <= e < |t'.children| ensures Sound(t'.children[e]) && Reachable(t', e) {
      assert e < |t.children| ==> Reachable(t, e) && t'.children[e] == t.children[e];
    }
  }

  lemma UpdatedKeeps(t: Table, e: nat, p: Child)
    requires SoundTable(t) && e < |t.children| && ChildEvolves(t.children[e], p) && Sound(p)
    ensures SoundTable(Updated(t, e, p)) && Evolves(t, Updated(t, e, p))
  {
    var t' := Updated(t, e, p);
    forall d | 0 <= d < |t'.children| ensures Sound(t'.children[d]) && Reachable(t', d) {
      assert Reachable(t, d);
    }
  }

  lemma StopBeginsKeeps(t: Table, id: string)
    requires SoundTable(t) && LookupOf(t, id).Found?
    ensures var e := t.procs[id];
      var t' := Updated(t, e, t.children[e].(status := Stopping));
      SoundTable(t') && Evolves(t, t')
  {
    var e := t.procs[id];
    UpdatedKeeps(t, e, t.children[e].(status := Stopping));
  }

  /** The five ways a step changes the table; every other step leaves it alone. */
  ghost predicate TableMoves(t: Table, call: Call, step: Step, t': Table)
    requires WellFormed(t)
  {
    || t' == t
    || (step.StartBegins? && !LiveUnder(t, step.id) && t' == t.(procs := t.procs - {step.id}))
    || (step.StartRegisters? && call.Registering? && !LiveUnder(t, call.id) &&
        t' == Added(t, call.id, call.kid, call.pid))
    || (step.ChildExits? && step.c < |t.children| && t.children[step.c].reaper.Watching? &&
        t' == Updated(t, step.c, t.children[step.c].(reaper := Reaped(step.code))))
    || (step.ReaperFinalizes? && step.c < |t.children| && t.children[step.c].reaper.Reaped? &&
        t' == Updated(t, step.c, Finalize(t.children[step.c])))
    || (step.StopBegins? && LookupOf(t, step.id).Found? &&
        t' == Updated(t, t.procs[step.id], t.children[t.procs[step.id]].(status := Stopping)))
  }

  ghost function CallOf(s: State, c: nat): Call {
    if c in s.calls then s.calls[c] else Returned(Refused)
  }

  lemma StepMovesTable(s: State, step: Step)
    requires Inv(s) && Enabled(s, step)
    ensures TableMoves(s.table, CallOf(s, step.c), step, Apply(s, step).table)
  {
  }

  lemma TableMoveKeeps(t: Table, call: Call, step: Step, t': Table)
    requires SoundTable(t) && TableMoves(t, call, step, t')
    ensures SoundTable(t') && Evolves(t, t')
  {
    if t' != t {
      match step
      case StartBegins(_, id) => ForgettingKeeps(t, id);
      case StartRegisters(_) => AddedKeeps(t, call.id, call.kid, call.pid);
      case ChildExits(e, code) => UpdatedKeeps(t, e, t.children[e].(reaper := Reaped(code)));
      case ReaperFinalizes(e) => UpdatedKeeps(t, e, Finalize(t.children[e]));
      case StopBegins(_, id) => StopBeginsKeeps(t, id);
    }
  }

  lemma TableStep(s: State, step: Step)
    requires Inv(s) && Enabled(s, step)
    ensures SoundTable(Apply(s, step).table) && Evolves(s.table, Apply(s, step).table)
  {
    StepMovesTable(s, step);
    TableMoveKeeps(s.table, CallOf(s, step.c), step, Apply(s, step).table);
  }

  lemma CallerFits(s: State, step: Step)
    requires Inv(s) && Enabled(s, step)
    ensures var s' := Apply(s, step);
      if ByReaper(step) then s'.calls == s.calls
      else step.c in s'.calls && CallInv(s'.table, s'.calls[step.c]) && s'.calls == s.calls[step.c := s'.calls[step.c]]
  {
    assert !ByReaper(step) && step.c in s.calls ==> CallInv(s.table, s.calls[step.c]);
  }

  lemma CallsKept(t: Table, t': Table, call: Call)
    requires Evolves(t, t') && CallInv(t, call)
    ensures CallInv(t', call)
  {
  }

  lemma StepKeepsInv(s: State, step: Step)
    requires Inv(s) && Enabled(s, step)
    ensures Inv(Apply(s, step)) && Evolves(s.table, Apply(s, step).table)
  {
    var s' := Apply(s, step);
    TableStep(s, step);
    CallerFits(s, step);
    forall c | c in s'.calls ensures CallInv(s'.table, s'.calls[c]) {
      if ByReaper(step) || c != step.c {
        CallsKept(s.table, s'.table, s.calls[c]);
      }
    }
  }

  // ---------------------------------------------------------------------------
  // Every spawned child is accounted for
  // ---------------------------------------------------------------------------

  /** The child a Start spawned and has neither registered nor given up. */
  ghost function Held(call: Call): set<nat> {
    match call
    case Assigning(_, kid, _) => {kid}
    case Registering(_, kid, _) => {kid}
    case Losing(kid) => {kid}
    case _ => {}
  }

  ghost predicate Registered(t: Table, kid: nat) {
    exists e :: 0 <= e < |t.children| && t.children[e].kid == kid
  }

  ghost predicate HeldByCall(calls: map<nat, Call>, kid: nat) {
    exists c :: c in calls && kid in Held(calls[c])
  }

  /** Registered children each have a reaper; the others are in a Start's hands or disposed of. */
  ghost predicate NoneLeaked(s: State) {
    forall kid: nat :: kid < s.spawned ==>
      Registered(s.table, kid) || HeldByCall(s.calls, kid) || kid in s.disposed
  }

  ghost predicate RegisteredOnce(s: State) {
    && (forall d, e :: 0 <= d < e < |s.table.children| ==> s.table.children[d].kid != s.table.children[e].kid)
    && (forall e :: 0 <= e < |s.table.children| ==> s.table.children[e].kid < s.spawned)
  }

  ghost predicate Exclusive(s: State) {
    && RegisteredOnce(s)
    && (forall c, kid {:trigger kid in Held(s.calls[c])} ::
          c in s.calls && kid in Held(s.calls[c]) ==> kid < s.spawned && !Registered(s.table, kid))
    && (forall c, d, kid :: c in s.calls && d in s.calls && kid in Held(s.calls[c]) && kid in Held(s.calls[d]) ==> c == d)
  }

  /** The children's kids after a step: the same, or one more that its Start registers. */
  lemma KidsMove(s: State, step: Step)
    requires Inv(s) && Enabled(s, step)
    ensures var t, t' := s.table, Apply(s, step).table;
      && |t.children| <= |t'.children| <= |t.children| + 1
      && (forall e :: 0 <= e < |t.children| ==> t'.children[e].kid == t.children[e].kid)
      && (|t'.children| > |t.children| ==>
            && step.StartRegisters? && step.c in s.calls && s.calls[step.c].Registering?
            && t'.children[|t.children|].kid == s.calls[step.c].kid && Held(Apply(s, step).calls[step.c]) == {})
  {
    StepMovesTable(s, step);
  }

  /** How a step moves the registered children. */
  lemma RegisteredMoves(s: State, step: Step, kid: nat)
    requires Inv(s) && Enabled(s, step)
    ensures Registered(s.table, kid) ==> Registered(Apply(s, step).table, kid)
    ensures Registered(Apply(s, step).table, kid) && !Registered(s.table, kid) ==>
      step.StartRegisters? && s.calls[step.c].kid == kid && Held(Apply(s, step).calls[step.c]) == {}
  {
    KidsMove(s, step);
    var t, t' := s.table, Apply(s, step).table;
    if Registered(t, kid) {
      var e :| 0 <= e < |t.children| && t.children[e].kid == kid;
      assert t'.children[e].kid == kid;
    }
    if Registered(t', kid) {
      var e :| 0 <= e < |t'.children| && t'.children[e].kid == kid;
      assert e < |t.children| ==> t.children[e].kid == kid;
    }
  }

  /** How a step moves the child in its caller's hands. */
  lemma HandsMove(s: State, step: Step, kid: nat)
    requires Inv(s) && Enabled(s, step)
    ensures var s' := Apply(s, step);
      && s.spawned <= s'.spawned <= s.spawned + 1 && s.disposed <= s'.disposed
      && (s'.spawned > s.spawned ==> step.Spawns? && Held(s'.calls[step.c]) == {s.spawned})
      && (!ByReaper(step) && kid in Held(s'.calls[step.c]) ==>
            (step.Spawns? && s.spawned == kid) || (step.c in s.calls && kid in Held(s.calls[step.c])))
      && (!ByReaper(step) && step.c in s.calls && kid in Held(s.calls[step.c]) ==>
            kid in Held(s'.calls[step.c]) || Registered(s'.table, kid) || kid in s'.disposed)
  {
    if step.StartRegisters? && !LiveUnder(s.table, s.calls[step.c].id) {
      assert Apply(s, step).table.children[|s.table.children|].kid == s.calls[step.c].kid;
    }
  }

  lemma StepKeepsRegisteredOnce(s: State, step: Step)
    requires Inv(s) && Enabled(s, step) && Exclusive(s)
    ensures RegisteredOnce(Apply(s, step))
  {
    KidsMove(s, step);
    HandsMove(s, step, 0);
    var t, t' := s.table, Apply(s, step).table;
    if |t'.children| > |t.children| {
      var kid := t'.children[|t.children|].kid;
      assert kid in Held(s.calls[step.c]);
      assert kid < s.spawned && !Registered(t, kid);
      assert forall d :: 0 <= d < |t.children| ==> t.children[d].kid != kid;
    }
  }

  lemma StepKeepsHeldApart(s: State, step: Step, c: nat, kid: nat)
    requires Inv(s) && Enabled(s, step) && Exclusive(s)
    requires c in Apply(s, step).calls && kid in Held(Apply(s, step).calls[c])
    ensures kid < Apply(s, step).spawned && !Registered(Apply(s, step).table, kid)
  {
    HandsMove(s, step, kid);
    RegisteredMoves(s, step, kid);
    CallerFits(s, step);
    assert step.StartRegisters? ==> s.calls[step.c].kid in Held(s.calls[step.c]);
  }

  lemma StepKeepsHeldOnce(s: State, step: Step, c: nat, d: nat, kid: nat)
    requires Inv(s) && Enabled(s, step) && Exclusive(s)
    requires c in Apply(s, step).calls && kid in Held(Apply(s, step).calls[c])
    requires d in Apply(s, step).calls && kid in Held(Apply(s, step).calls[d])
    ensures c == d
  {
    HandsMove(s, step, kid);
    CallerFits(s, step);
  }

  lemma StepKeepsExclusive(s: State, step: Step)
    requires Inv(s) && Enabled(s, step) && Exclusive(s)
    ensures Exclusive(Apply(s, step))
  {
    StepKeepsRegisteredOnce(s, step);
    var s' := Apply(s, step);
    forall c, kid | c in s'.calls && kid in Held(s'.calls[c])
      ensures kid < s'.spawned && !Registered(s'.table, kid)
    {
      StepKeepsHeldApart(s, step, c, kid);
    }
    forall c, d, kid | c in s'.calls && d in s'.calls && kid in Held(s'.calls[c]) && kid in Held(s'.calls[d])
      ensures c == d
    {
      StepKeepsHeldOnce(s, step, c, d, kid);
    }
  }

  lemma StepLeaksNothing(s: State, step: Step)
    requires Inv(s) && Enabled(s, step) && NoneLeaked(s)
    ensures NoneLeaked(Apply(s, step))
  {
    var s' := Apply(s, step);
    CallerFits(s, step);
    forall kid: nat | kid < s'.spawned
      ensures Registered(s'.table, kid) || HeldByCall(s'.calls, kid) || kid in s'.disposed
    {
      HandsMove(s, step, kid);
      RegisteredMoves(s, step, kid);
      if kid == s.spawned {
        assert kid in Held(s'.calls[step.c]);
      } else if !Registered(s.table, kid) && kid !in s.disposed {
        var c :| c in s.calls && kid in Held(s.calls[c]);
        assert ByReaper(step) || c != step.c ==> s'.calls[c] == s.calls[c];
      }
    }
  }

  // ---------------------------------------------------------------------------
  // A Start that goes on without its job object
  // ---------------------------------------------------------------------------

  ghost predicate InUse(s: State, kid: nat) {
    Registered(s.table, kid) || HeldByCall(s.calls, kid)
  }

  /** A child registered or in a Start's hands was killed only if its job object could not be assigned. */
  ghost predicate KilledForItsJob(s: State) {
    && s.unassigned <= s.disposed && (forall kid :: kid in s.disposed ==> kid < s.spawned)
    && (forall kid: nat :: InUse(s, kid) ==> (kid in s.disposed <==> kid in s.unassigned))
  }

  lemma DisposedMoves(s: State, step: Step, kid: nat)
    requires Inv(s) && Enabled(s, step)
    ensures var s' := Apply(s, step);
      && s.disposed <= s'.disposed && s.unassigned <= s'.unassigned
      && (kid in s'.disposed && kid !in s.disposed ==> step.c in s.calls && kid in Held(s.calls[step.c]))
      && (kid in s'.unassigned && kid !in s.unassigned ==> kid in s'.disposed)
      && (kid in s'.disposed && kid !in s.disposed && kid in Held(s'.calls[step.c]) ==> kid in s'.unassigned)
      && (kid in s'.unassigned && kid !in s.unassigned ==> step.c in s.calls && kid in Held(s.calls[step.c]))
      && (kid in s'.disposed && kid !in s.disposed ==> s'.table == s.table && !ByReaper(step))
  {
  }

  /** A child in use after a step was in use before it, or was spawned by it. */
  lemma InUseMoves(s: State, step: Step, kid: nat)
    requires Inv(s) && Enabled(s, step) && InUse(Apply(s, step), kid)
    ensures InUse(s, kid) || kid == s.spawned
  {
    HandsMove(s, step, kid);
    RegisteredMoves(s, step, kid);
    CallerFits(s, step);
    var s' := Apply(s, step);
    if HeldByCall(s'.calls, kid) {
      var c :| c in s'.calls && kid in Held(s'.calls[c]);
      assert ByReaper(step) || c != step.c ==> s'.calls[c] == s.calls[c];
    }
  }

  /** A child newly killed that stays in use is in the hands of the call that killed it. */
  lemma NewlyKilled(s: State, step: Step, kid: nat)
    requires Inv(s) && Enabled(s, step) && Exclusive(s) && InUse(Apply(s, step), kid)
    requires kid in Apply(s, step).disposed && kid !in s.disposed
    ensures kid in Apply(s, step).unassigned
  {
    DisposedMoves(s, step, kid);
    RegisteredMoves(s, step, kid);
    CallerFits(s, step);
    var s' := Apply(s, step);
    assert !Registered(s'.table, kid);
    var c :| c in s'.calls && kid in Held(s'.calls[c]);
    SameHands(s, step, c, kid);
  }

  /** What its caller held before a step, only the caller can hold after it. */
  lemma SameHands(s: State, step: Step, c: nat, kid: nat)
    requires Inv(s) && Enabled(s, step) && Exclusive(s) && !ByReaper(step)
    requires step.c in s.calls && kid in Held(s.calls[step.c])
    requires c in Apply(s, step).calls && kid in Held(Apply(s, step).calls[c])
    ensures c == step.c
  {
    CallerFits(s, step);
  }

  lemma StepKeepsKilledForItsJob(s: State, step: Step)
    requires Inv(s) && Enabled(s, step) && Exclusive(s) && KilledForItsJob(s)
    ensures KilledForItsJob(Apply(s, step))
  {
    var s' := Apply(s, step);
    HandsMove(s, step, 0);
    forall kid | kid in s'.disposed ensures kid < s'.spawned {
      DisposedMoves(s, step, kid);
    }
    forall kid | kid in s'.unassigned ensures kid in s'.disposed {
      DisposedMoves(s, step, kid);
    }
    forall kid: nat | InUse(s', kid) ensures kid in s'.disposed <==> kid in s'.unassigned {
      StepKeepsItsKill(s, step, kid);
    }
  }

  lemma StepKeepsItsKill(s: State, step: Step, kid: nat)
    requires Inv(s) && Enabled(s, step) && Exclusive(s) && KilledForItsJob(s) && InUse(Apply(s, step), kid)
    ensures kid in Apply(s, step).disposed <==> kid in Apply(s, step).unassigned
  {
    DisposedMoves(s, step, kid);
    InUseMoves(s, step, kid);
    if kid in Apply(s, step).disposed && kid !in s.disposed {
      NewlyKilled(s, step, kid);
    }
  }

  // ---------------------------------------------------------------------------
  // Whole runs
  // ---------------------------------------------------------------------------

  ghost predicate Feasible(steps: seq<Step>)
    decreases |steps|, 0
  {
    steps == [] || (Feasible(steps[..|steps| - 1]) && Enabled(Exec(steps[..|steps| - 1]), steps[|steps| - 1]))
  }

  ghost function Exec(steps: seq<Step>): (s: State)
    requires Feasible(steps)
    ensures Inv(s) && Exclusive(s) && NoneLeaked(s) && KilledForItsJob(s)
    decreases |steps|, 1
  {
    if steps == [] then Init
    else
      var before, step := Exec(steps[..|steps| - 1]), steps[|steps| - 1];
      StepKeepsInv(before, step);
      StepKeepsExclusive(before, step);
      StepLeaksNothing(before, step);
      StepKeepsKilledForItsJob(before, step);
      Apply(before, step)
  }

  lemma EvolvesTransitive(t: Table, t': Table, t'': Table)
    requires Evolves(t, t') && Evolves(t', t'')
    ensures Evolves(t, t'')
  {
  }

  lemma EvolvesFurther(t: Table, s: State, step: Step)
    requires Inv(s) && Enabled(s, step) && Evolves(t, s.table)
    ensures Evolves(t, Apply(s, step).table)
  {
    StepKeepsInv(s, step);
    EvolvesTransitive(t, s.table, Apply(s, step).table);
  }

  lemma {:induction false} RunEvolves(steps: seq<Step>, n: nat)
    requires Feasible(steps) && n <= |steps|
    ensures Feasible(steps[..n]) && Evolves(Exec(steps[..n]).table, Exec(steps).table)
  {
    if n == |steps| {
      assert steps[..n] == steps;
    } else {
      var front := steps[..|steps| - 1];
      RunEvolves(front, n);
      assert front[..n] == steps[..n];
      EvolvesFurther(Exec(steps[..n]).table, Exec(front), steps[|steps| - 1]);
    }
  }

  /** At every moment: done, terminal status, exit code and finalized reaper agree. */
  lemma DoneMeansFinalized(steps: seq<Step>, e: nat)
    requires Feasible(steps) && e < |Exec(steps).table.children|
    ensures var p := Exec(steps).table.children[e];
      && p.closes <= 1
      && (p.closes == 1 <==> IsTerminal(p.status))
      && (IsTerminal(p.status) <==> p.exitCode.Some?)
      && (p.exitCode.Some? <==> p.reaper.Finalized?)
  {
    assert Sound(Exec(steps).table.children[e]);
  }

  /** A registered child that is not finalized is never lost from the map: its id leads to it alone. */
  lemma LiveChildStaysReachable(steps: seq<Step>, e: nat)
    requires Feasible(steps) && e < |Exec(steps).table.children|
    requires !Exec(steps).table.children[e].reaper.Finalized?
    ensures var t := Exec(steps).table;
      && t.children[e].id in t.procs && t.procs[t.children[e].id] == e
      && forall d :: 0 <= d < |t.children| && d != e && t.children[d].id == t.children[e].id ==> t.children[d].reaper.Finalized?
  {
    var t := Exec(steps).table;
    assert Reachable(t, e);
    forall d | 0 <= d < |t.children| && d != e && t.children[d].id == t.children[e].id
      ensures t.children[d].reaper.Finalized?
    {
      assert Reachable(t, d);
    }
  }

  /** A finalized child keeps its status and exit code, even after its id is used again. */
  lemma FinalizedIsForever(steps: seq<Step>, n: nat, e: nat)
    requires Feasible(steps) && n <= |steps|
    requires Feasible(steps[..n]) && e < |Exec(steps[..n]).table.children|
    requires Exec(steps[..n]).table.children[e].reaper.Finalized?
    ensures e < |Exec(steps).table.children| && Exec(steps).table.children[e] == Exec(steps[..n]).table.children[e]
  {
    RunEvolves(steps, n);
  }

  /** Stop answers nil, and Wait answers with a handle, only for a child the reaper finalized. */
  lemma AnswersComeAfterTheReaper(steps: seq<Step>, c: nat)
    requires Feasible(steps) && c in Exec(steps).calls && Exec(steps).calls[c].Returned?
    ensures match Exec(steps).calls[c].outcome
      case Stopped(e) => e < |Exec(steps).table.children| && Exec(steps).table.children[e].reaper.Finalized?
      case Waited(e, h) =>
        && e < |Exec(steps).table.children| && Exec(steps).table.children[e].reaper.Finalized?
        && h.id == Exec(steps).table.children[e].id && h.status == Exited
        && h.exitCode == Exec(steps).table.children[e].exitCode && h.exitCode.Some?
      case _ => true
  {
    var s := Exec(steps);
    assert CallInv(s.table, s.calls[c]);
    if s.calls[c].outcome.Waited? {
      assert Sound(s.table.children[s.calls[c].outcome.child]);
    }
  }

  // What a call answers, told by the steps of the run alone.

  /** The child's exit with this code has been seen, and not replaced by another. */
  ghost predicate ExitSeen(t: Table, e: nat, code: int) {
    && e < |t.children|
    && match t.children[e].reaper
       case Watching => false
       case Reaped(seen) => seen == code
       case Finalized => t.children[e].exitCode == Some(code)
  }

  ghost predicate IsFinalized(t: Table, e: nat) {
    e < |t.children| && t.children[e].reaper.Finalized?
  }

  lemma StepTellsExits(s: State, step: Step, e: nat, code: int)
    requires Inv(s) && Enabled(s, step)
    ensures ExitSeen(Apply(s, step).table, e, code) <==> ExitSeen(s.table, e, code) || step == ChildExits(e, code)
    ensures IsFinalized(Apply(s, step).table, e) <==> IsFinalized(s.table, e) || step == ReaperFinalizes(e)
  {
    StepMovesTable(s, step);
  }

  lemma InOneMore<T>(s: seq<T>, x: T)
    requires s != []
    ensures x in s <==> x in s[..|s| - 1] || x == s[|s| - 1]
  {
    assert s == s[..|s| - 1] + [s[|s| - 1]];
  }

  lemma {:induction false} RunTellsExits(steps: seq<Step>, e: nat, code: int)
    requires Feasible(steps)
    ensures ExitSeen(Exec(steps).table, e, code) <==> ChildExits(e, code) in steps
    ensures IsFinalized(Exec(steps).table, e) <==> ReaperFinalizes(e) in steps
  {
    if steps != [] {
      var front, step := steps[..|steps| - 1], steps[|steps| - 1];
      RunTellsExits(front, e, code);
      StepTellsExits(Exec(front), step, e, code);
      InOneMore(steps, ChildExits(e, code));
      InOneMore(steps, ReaperFinalizes(e));
    }
  }

  /** A child carries an exit code exactly when it exited with it and its reaper published that. */
  lemma ExitCodeIsTheExit(steps: seq<Step>, e: nat, code: int)
    requires Feasible(steps) && e < |Exec(steps).table.children|
    ensures Exec(steps).table.children[e].exitCode == Some(code) <==>
      ChildExits(e, code) in steps && ReaperFinalizes(e) in steps
  {
    RunTellsExits(steps, e, code);
    assert Sound(Exec(steps).table.children[e]);
  }

  /** Wait answers with the code the child exited with, after its reaper published it. */
  lemma WaitTellsTheExitCode(steps: seq<Step>, c: nat)
    requires Feasible(steps) && c in Exec(steps).calls
    requires Exec(steps).calls[c].Returned? && Exec(steps).calls[c].outcome.Waited?
    ensures var answer := Exec(steps).calls[c].outcome;
      && answer.handle.exitCode.Some? && ReaperFinalizes(answer.child) in steps
      && forall code :: ChildExits(answer.child, code) in steps <==> answer.handle.exitCode == Some(code)
  {
    var e := Exec(steps).calls[c].outcome.child;
    AnswersComeAfterTheReaper(steps, c);
    forall code ensures
      Exec(steps).table.children[e].exitCode == Some(code) <==>
      ChildExits(e, code) in steps && ReaperFinalizes(e) in steps
    {
      ExitCodeIsTheExit(steps, e, code);
    }
    RunTellsExits(steps, e, 0);
  }

  /** An answer is about the id the call was made with, and a Start answers for the child it spawned. */
  ghost predicate AnswersItsId(t: Table, steps: seq<Step>, c: nat, answer: Outcome) {
    match answer
    case Refused => true
    case Started(h) =>
      StartBegins(c, h.id) in steps && Spawns(c, h.pid) in steps && h.status == Running && h.exitCode.None?
    case Stopped(e) => e < |t.children| && StopBegins(c, t.children[e].id) in steps
    case Waited(e, h) =>
      WaitBegins(c, h.id) in steps && e < |t.children| && h.id == t.children[e].id && h.pid == t.children[e].pid
  }

  /** What a call holds is about the id it was made with. */
  ghost predicate AboutItsId(t: Table, steps: seq<Step>, c: nat, call: Call) {
    match call
    case Spawning(id) => StartBegins(c, id) in steps
    case Assigning(id, _, pid) => StartBegins(c, id) in steps && Spawns(c, pid) in steps
    case Registering(id, _, pid) => StartBegins(c, id) in steps && Spawns(c, pid) in steps
    case StopBlocked(e) => e < |t.children| && StopBegins(c, t.children[e].id) in steps
    case WaitBlocked(e) => e < |t.children| && WaitBegins(c, t.children[e].id) in steps
    case Losing(_) => true
    case Returned(outcome) => AnswersItsId(t, steps, c, outcome)
  }

  lemma AboutItsIdKept(t: Table, t': Table, steps: seq<Step>, step: Step, c: nat, call: Call)
    requires Evolves(t, t') && AboutItsId(t, steps, c, call)
    ensures AboutItsId(t', steps + [step], c, call)
  {
  }

  lemma CallerIsAboutItsId(s: State, steps: seq<Step>, step: Step)
    requires Inv(s) && Enabled(s, step) && !ByReaper(step)
    requires step.c in s.calls ==> AboutItsId(s.table, steps, step.c, s.calls[step.c])
    ensures step.c in Apply(s, step).calls
    ensures AboutItsId(Apply(s, step).table, steps + [step], step.c, Apply(s, step).calls[step.c])
  {
    CallerFits(s, step);
    StepKeepsInv(s, step);
    assert step.c in s.calls ==> CallInv(s.table, s.calls[step.c]);
    assert step in steps + [step];
  }

  lemma {:induction false} CallsAreAboutTheirIds(steps: seq<Step>, c: nat)
    requires Feasible(steps) && c in Exec(steps).calls
    ensures AboutItsId(Exec(steps).table, steps, c, Exec(steps).calls[c])
  {
    var front, step := steps[..|steps| - 1], steps[|steps| - 1];
    var s := Exec(front);
    assert steps == front + [step];
    StepKeepsInv(s, step);
    CallerFits(s, step);
    if c in s.calls {
      CallsAreAboutTheirIds(front, c);
    }
    if !ByReaper(step) && c == step.c {
      CallerIsAboutItsId(s, front, step);
    } else {
      AboutItsIdKept(s.table, Exec(steps).table, front, step, c, s.calls[c]);
    }
  }

  /** Start, Stop and Wait answer for the id they were called with. */
  lemma AnswersAreForTheAskedId(steps: seq<Step>, c: nat)
    requires Feasible(steps) && c in Exec(steps).calls && Exec(steps).calls[c].Returned?
    ensures AnswersItsId(Exec(steps).table, steps, c, Exec(steps).calls[c].outcome)
  {
    CallsAreAboutTheirIds(steps, c);
  }

  /** A Start that lost the race: its child is never registered, and is disposed of when it returns. */
  ghost predicate Lost(s: State, c: nat, kid: nat) {
    && kid < s.spawned && !Registered(s.table, kid)
    && (forall d :: d in s.calls && d != c ==> kid !in Held(s.calls[d]))
    && c in s.calls && (s.calls[c] == Losing(kid) || (s.calls[c] == Returned(Refused) && kid in s.disposed))
  }

  lemma StepKeepsLost(s: State, step: Step, c: nat, kid: nat)
    requires Inv(s) && Enabled(s, step) && Lost(s, c, kid)
    ensures Lost(Apply(s, step), c, kid)
  {
    HandsMove(s, step, kid);
    RegisteredMoves(s, step, kid);
    CallerFits(s, step);
    assert step.StartRegisters? ==> s.calls[step.c].kid in Held(s.calls[step.c]);
  }

  lemma LosingIsLost(s: State, c: nat, kid: nat)
    requires Exclusive(s) && c in s.calls && s.calls[c] == Losing(kid)
    ensures Lost(s, c, kid)
  {
    assert kid in Held(s.calls[c]);
  }

  lemma {:induction false} LoserIsKilledAndWaitedFor(steps: seq<Step>, n: nat, c: nat, kid: nat)
    requires Feasible(steps) && n <= |steps| && Feasible(steps[..n])
    requires c in Exec(steps[..n]).calls && Exec(steps[..n]).calls[c] == Losing(kid)
    ensures Lost(Exec(steps), c, kid)
  {
    if n == |steps| {
      assert steps[..n] == steps;
      LosingIsLost(Exec(steps), c, kid);
    } else {
      var front := steps[..|steps| - 1];
      assert front[..n] == steps[..n];
      LoserIsKilledAndWaitedFor(front, n, c, kid);
      StepKeepsLost(Exec(front), steps[|steps| - 1], c, kid);
    }
  }

  /** In every run, a registered child was killed by its own Start exactly when that Start went on without a job. */
  lemma RegisteredWasKilledIff(steps: seq<Step>, e: nat)
    requires Feasible(steps) && e < |Exec(steps).table.children|
    ensures var s := Exec(steps);
      s.table.children[e].kid in s.disposed <==> s.table.children[e].kid in s.unassigned
  {
    var s := Exec(steps);
    assert Registered(s.table, s.table.children[e].kid);
    assert InUse(s, s.table.children[e].kid);
  }

  lemma ExecOneMore(steps: seq<Step>, step: Step)
    requires Feasible(steps) && Enabled(Exec(steps), step)
    ensures Feasible(steps + [step]) && Exec(steps + [step]) == Apply(Exec(steps), step)
  {
    assert (steps + [step])[..|steps|] == steps;
  }

  lemma RegisteredRun(id: string, pid: int) returns (steps: seq<Step>)
    ensures Feasible(steps) && Exec(steps).calls.Keys == {0}
    ensures Exec(steps).table == Table(map[id := 0], [Child(id, 0, pid, Running, None, 0, Watching)])
  {
    ExecOneMore([], StartBegins(0, id));
    steps := [] + [StartBegins(0, id)];
    ExecOneMore(steps, Spawns(0, pid));
    steps := steps + [Spawns(0, pid)];
    ExecOneMore(steps, JobAssigned(0));
    steps := steps + [JobAssigned(0)];
    ExecOneMore(steps, StartRegisters(0));
    steps := steps + [StartRegisters(0)];
  }

  // One child alone in the table, and exactly these calls made.

  ghost predicate At(steps: seq<Step>, p: Child, calls: map<nat, Call>) {
    Feasible(steps) && Exec(steps).table == Table(map[p.id := 0], [p]) && Exec(steps).calls == calls
  }

  lemma WaitsFor(steps: seq<Step>, p: Child, calls: map<nat, Call>, c: nat)
    requires At(steps, p, calls) && c !in calls && p.status == Running
    ensures At(steps + [WaitBegins(c, p.id)], p, calls[c := WaitBlocked(0)])
  {
    ExecOneMore(steps, WaitBegins(c, p.id));
  }

  lemma IsStopped(steps: seq<Step>, p: Child, calls: map<nat, Call>, c: nat)
    requires At(steps, p, calls) && c !in calls && p.status == Running
    ensures At(steps + [StopBegins(c, p.id)], p.(status := Stopping), calls[c := StopBlocked(0)])
  {
    ExecOneMore(steps, StopBegins(c, p.id));
  }

  lemma Exits(steps: seq<Step>, p: Child, calls: map<nat, Call>, code: int)
    requires At(steps, p, calls) && p.reaper.Watching?
    ensures At(steps + [ChildExits(0, code)], p.(reaper := Reaped(code)), calls)
  {
    ExecOneMore(steps, ChildExits(0, code));
  }

  lemma IsReaped(steps: seq<Step>, p: Child, calls: map<nat, Call>)
    requires At(steps, p, calls) && p.reaper.Reaped? && p.status == Stopping && p.closes == 0
    ensures At(steps + [ReaperFinalizes(0)],
      p.(exitCode := Some(p.reaper.code), status := Exited, closes := 1, reaper := Finalized), calls)
  {
    ExecOneMore(steps, ReaperFinalizes(0));
  }

  lemma Wakes(steps: seq<Step>, p: Child, calls: map<nat, Call>, c: nat)
    requires At(steps, p, calls) && c in calls && calls[c] == WaitBlocked(0) && p.closes > 0
    ensures At(steps + [WaitWakes(c)], p, calls[c := Returned(Waited(0, Handle(p.id, p.pid, p.status, p.exitCode)))])
  {
    ExecOneMore(steps, WaitWakes(c));
  }

  lemma SeesDone(steps: seq<Step>, p: Child, calls: map<nat, Call>, c: nat)
    requires At(steps, p, calls) && c in calls && calls[c] == StopBlocked(0) && p.closes > 0
    ensures At(steps + [StopSeesDone(c)], p, calls[c := Returned(Stopped(0))])
  {
    ExecOneMore(steps, StopSeesDone(c));
  }

  /** A process can be started, waited for, stopped and exit with any code; Wait and Stop then both answer. */
  lemma AnyExitCanBeAwaited(id: string, pid: int, code: int) returns (steps: seq<Step>)
    ensures Feasible(steps) && 1 in Exec(steps).calls && 2 in Exec(steps).calls
    ensures Exec(steps).calls[1] == Returned(Waited(0, Handle(id, pid, Exited, Some(code))))
    ensures Exec(steps).calls[2] == Returned(Stopped(0))
  {
    steps := RegisteredRun(id, pid);
    var p, calls := Child(id, 0, pid, Running, None, 0, Watching), Exec(steps).calls;
    WaitsFor(steps, p, calls, 1);
    steps, calls := steps + [WaitBegins(1, id)], calls[1 := WaitBlocked(0)];
    IsStopped(steps, p, calls, 2);
    steps, p, calls := steps + [StopBegins(2, id)], p.(status := Stopping), calls[2 := StopBlocked(0)];
    Exits(steps, p, calls, code);
    steps, p := steps + [ChildExits(0, code)], p.(reaper := Reaped(code));
    IsReaped(steps, p, calls);
    steps, p := steps + [ReaperFinalizes(0)], Child(id, 0, pid, Exited, Some(code), 1, Finalized);
    Wakes(steps, p, calls, 1);
    steps, calls := steps + [WaitWakes(1)], calls[1 := Returned(Waited(0, Handle(id, pid, Exited, Some(code))))];
    SeesDone(steps, p, calls, 2);
    steps := steps + [StopSeesDone(2)];
  }

  /** And it happens: Start kills its child, answers success, and the handle says running. */
  lemma StartCanAnswerForAKilledChild(id: string, pid: int) returns (steps: seq<Step>)
    ensures Feasible(steps) && 0 in Exec(steps).calls
    ensures Exec(steps).calls[0] == Returned(Started(Handle(id, pid, Running, None)))
    ensures var t := Exec(steps).table;
      |t.children| == 1 && t.children[0].kid in Exec(steps).disposed && t.children[0].status == Running
  {
    var steps1: seq<Step> := [] + [StartBegins(0, id)];
    ExecOneMore([], StartBegins(0, id));
    ExecOneMore(steps1, Spawns(0, pid));
    var steps2 := steps1 + [Spawns(0, pid)];
    ExecOneMore(steps2, JobFails(0, false));
    var steps3 := steps2 + [JobFails(0, false)];
    ExecOneMore(steps3, StartRegisters(0));
    steps := steps3 + [StartRegisters(0)];
  }
}
