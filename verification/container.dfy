/**
 * The container-backed process manager (internal/process/container/container.go).
 *
 * Every section the source runs under its mutex is one atomic step; engine
 * calls happen between steps, with any outcome, while other calls proceed.
 */
module ContainerManager {
  import opened Domain
  import opened Prelude

  /** closes counts how often the done channel was closed; a second close would panic. */
  datatype Entry = Entry(id: string, containerID: string, status: Status, exitCode: Option<int>, closes: nat)

  datatype Handle = Handle(id: string, containerID: string, status: Status, exitCode: Option<int>)

  datatype EngineStatus = EngineStatus(running: bool, health: string, exitCode: int, oomKilled: bool)

  function HandleOf(e: Entry): Handle {
    Handle(e.id, e.containerID, e.status, e.exitCode)
  }

  function ExitStatus(st: EngineStatus): (Status, int) {
    (if st.oomKilled || st.exitCode != 0 then Crashed else Exited, st.exitCode)
  }

  function CloseIfOpen(e: Entry): Entry {
    if e.closes > 0 then e else e.(closes := 1)
  }

  /** The second locked section of Stop. */
  function Settled(e: Entry): Entry {
    CloseIfOpen(e.(exitCode := Some(0), status := Exited))
  }

  /** The second locked section of Inspect. */
  function Refreshed(e: Entry, st: EngineStatus): Entry {
    if e.status != Running && e.status != Unhealthy then e
    else if !st.running then
      CloseIfOpen(e.(status := ExitStatus(st).0, exitCode := Some(ExitStatus(st).1)))
    else e.(status := if st.health == "unhealthy" then Unhealthy else Running)
  }

  /** The map from process id to entry; entries are shared by reference, so they have an address. */
  datatype Table = Table(procs: map<string, nat>, entries: seq<Entry>)

  ghost predicate WellFormed(t: Table) {
    && (forall id :: id in t.procs ==> t.procs[id] < |t.entries| && t.entries[t.procs[id]].id == id)
    && (forall e :: 0 <= e < |t.entries| ==> t.entries[e].id in t.procs && t.procs[t.entries[e].id] == e)
  }

  function Added(t: Table, id: string, cid: string): Table {
    Table(t.procs[id := |t.entries|], t.entries + [Entry(id, cid, Running, None, 0)])
  }

  function Updated(t: Table, e: nat, entry: Entry): Table
    requires e < |t.entries|
  {
    t.(entries := t.entries[e := entry])
  }

  // ---------------------------------------------------------------------------
  // The manager object and its locked sections
  // ---------------------------------------------------------------------------

  datatype Lookup = NotFound | AlreadyTerminal(entry: nat, handle: Handle) | Found(entry: nat, containerID: string)

  /** The statuses of a container that has not ended. */
  predicate Alive(e: Entry) {
    e.status in {Starting, Running, Unhealthy, Stopping}
  }

  /** What the first locked section of Stop, Wait and Inspect finds under an id. */
  function LookupOf(t: Table, id: string): Lookup
    requires WellFormed(t)
  {
    if id !in t.procs then NotFound
    else
      var e := t.procs[id];
      if IsTerminal(t.entries[e].status) then AlreadyTerminal(e, HandleOf(t.entries[e]))
      else Found(e, t.entries[e].containerID)
  }

  class Manager {
    var procs: map<string, nat>
    var entries: seq<Entry>

    function Contents(): Table
      reads this
    {
      Table(procs, entries)
    }

    constructor ()
      ensures Contents() == Table(map[], []) && WellFormed(Contents())
    {
      procs, entries := map[], [];
    }

    /** No other entry changed, and the entry kept its identity. */
    twostate predicate OnlyChanged(e: nat)
      reads this
    {
      && procs == old(procs) && |entries| == |old(entries)|
      && (forall d :: 0 <= d < |entries| && d != e ==> entries[d] == old(entries)[d])
      && (e < |entries| ==> entries[e].id == old(entries)[e].id && entries[e].containerID == old(entries)[e].containerID)
    }

    method Exists(id: string) returns (found: bool)
      ensures found <==> id in procs
    {
      found := id in procs;
    }

    /** Bind a fresh container to an id, unless another start got there first. */
    method Register(id: string, cid: string) returns (handle: Option<Handle>)
      requires WellFormed(Contents())
      modifies this
      ensures WellFormed(Contents())
      ensures handle.Some? <==> id !in old(procs)
      ensures Contents() == if id in old(procs) then old(Contents()) else Added(old(Contents()), id, cid)
      ensures handle.Some? ==>
        && handle.value == Handle(id, cid, Running, None)
        && procs == old(procs)[id := |old(entries)|]
        && entries == old(entries) + [Entry(id, cid, Running, None, 0)]
    {
      if id in procs {
        return None;
      }
      var e := Entry(id, cid, Running, None, 0);
      procs, entries := procs[id := |entries|], entries + [e];
      handle := Some(HandleOf(e));
    }

    /** The first locked section of Stop. */
    method BeginStop(id: string) returns (r: Lookup)
      requires WellFormed(Contents())
      modifies this
      ensures WellFormed(Contents()) && procs == old(procs)
      ensures r == LookupOf(old(Contents()), id)
      ensures Contents() ==
        if r.Found? then Updated(old(Contents()), procs[id], old(entries)[procs[id]].(status := Stopping))
        else old(Contents())
      ensures r.NotFound? <==> id !in procs
      ensures r.Found? <==> id in procs && Alive(old(entries)[procs[id]])
      ensures r.Found? ==>
        r.containerID == entries[procs[id]].containerID
        && entries[procs[id]] == old(entries)[procs[id]].(status := Stopping)
      ensures forall e :: 0 <= e < |old(entries)| && (r.Found? ==> e != procs[id]) ==>
        e < |entries| && entries[e] == old(entries)[e]
    {
      if id !in procs {
        return NotFound;
      }
      var e := procs[id];
      if IsTerminal(entries[e].status) {
        return AlreadyTerminal(e, HandleOf(entries[e]));
      }
      entries := entries[e := entries[e].(status := Stopping)];
      r := Found(e, entries[e].containerID);
    }

    /** The second locked section of Stop, after the engine stopped the container. */
    method FinishStop(e: nat)
      requires WellFormed(Contents()) && e < |entries|
      modifies this
      ensures WellFormed(Contents()) && Contents() == Updated(old(Contents()), e, Settled(old(entries)[e]))
      ensures OnlyChanged(e)
      ensures entries[e].exitCode == Some(0) && entries[e].status == Exited
      ensures entries[e].closes == if old(entries)[e].closes == 0 then 1 else old(entries)[e].closes
    {
      var entry := entries[e];
      entry := entry.(exitCode := Some(0));
      entry := entry.(status := Exited);
      if entry.closes == 0 {
        entry := entry.(closes := entry.closes + 1);
      }
      entries := entries[e := entry];
    }

    /**
     * The first locked section of Wait and of Inspect. A call that goes on holds the
     * id's entry with its done still open; one that returns has the final answer.
     */
    method Find(id: string) returns (r: Lookup)
      requires AllSound(Contents())
      ensures r == LookupOf(Contents(), id)
      ensures r.NotFound? <==> id !in procs
      ensures r.Found? <==> id in procs && Alive(entries[procs[id]])
      ensures !r.NotFound? ==> r.entry == procs[id] && entries[r.entry].id == id
      ensures r.Found? ==> r.containerID == entries[r.entry].containerID
      ensures r.Found? ==> entries[r.entry].closes == 0 && entries[r.entry].exitCode.None?
      ensures r.AlreadyTerminal? ==> entries[r.entry].closes == 1 && r.handle.exitCode.Some?
      ensures r.AlreadyTerminal? ==>
        var p := entries[r.entry];
        r.handle == Handle(id, p.containerID, p.status, p.exitCode)
    {
      if id !in procs {
        return NotFound;
      }
      var e := procs[id];
      if IsTerminal(entries[e].status) {
        return AlreadyTerminal(e, HandleOf(entries[e]));
      }
      r := Found(e, entries[e].containerID);
    }

    /** The last locked section of Inspect: take over the engine's answer, unless a Stop came between. */
    method FinishInspect(e: nat, st: EngineStatus) returns (h: Handle)
      requires WellFormed(Contents()) && e < |entries|
      modifies this
      ensures WellFormed(Contents()) && Contents() == Updated(old(Contents()), e, Refreshed(old(entries)[e], st))
      ensures h == HandleOf(entries[e])
      ensures OnlyChanged(e)
      ensures var p, was := entries[e], old(entries)[e];
        && h == Handle(p.id, p.containerID, p.status, p.exitCode)
        && (was.status != Running && was.status != Unhealthy ==> p == was)
        && ((was.status == Running || was.status == Unhealthy) && !st.running ==>
              && p.exitCode == Some(st.exitCode) && p.closes > 0
              && p.status == if st.oomKilled || st.exitCode != 0 then Crashed else Exited)
        && ((was.status == Running || was.status == Unhealthy) && st.running ==>
              && p.exitCode == was.exitCode && p.closes == was.closes
              && p.status == if st.health == "unhealthy" then Unhealthy else Running)
    {
      var entry := entries[e];
      if entry.status == Running || entry.status == Unhealthy {
        if !st.running {
          var (status, code) := ExitStatus(st);
          entry := entry.(status := status, exitCode := Some(code));
          if entry.closes == 0 {
            entry := entry.(closes := entry.closes + 1);
          }
        } else if st.health == "unhealthy" {
          entry := entry.(status := Unhealthy);
        } else {
          entry := entry.(status := Running);
        }
        entries := entries[e := entry];
      }
      h := HandleOf(entries[e]);
    }
  }

  // ---------------------------------------------------------------------------
  // Calls in flight and the steps that interleave
  // ---------------------------------------------------------------------------

  datatype Outcome =
    | Refused
    | Started(handle: Handle)
    | Stopped(entry: nat)
    | Waited(entry: nat, handle: Handle)
    | Inspected(handle: Handle)

  /** Where a call is between two of its locked sections. */
  datatype Call =
    | Launching(id: string)                    // Start: engine Run in flight
    | Registering(id: string, cid: string)     // Start: Run returned, second section to come
    | Discarding(cid: string)                  // Start: lost the race, stopping its own container
    | StopInFlight(entry: nat)                 // Stop: engine Stop in flight
    | Blocked(entry: nat)                      // Wait: waiting for done
    | InspectInFlight(entry: nat)              // Inspect: engine Inspect in flight
    | Returned(outcome: Outcome)

  datatype State = State(
    table: Table,
    calls: map<nat, Call>,
    created: set<string>,      // containers engine Run returned
    stopAsked: set<string>)    // containers engine Stop was called on

  datatype Step =
    | StartBegins(c: nat, id: string)
    | RunFails(c: nat)
    | RunReturns(c: nat, cid: string)
    | StartRegisters(c: nat)
    | DiscardReturns(c: nat)
    | StopBegins(c: nat, id: string)
    | StopFails(c: nat)
    | StopSettles(c: nat)
    | WaitBegins(c: nat, id: string)
    | WaitWakes(c: nat)
    | WaitCancelled(c: nat)
    | InspectBegins(c: nat, id: string, canInspect: bool)
    | InspectFails(c: nat)
    | InspectSettles(c: nat, st: EngineStatus)

  const Init := State(Table(map[], []), map[], {}, {})

  ghost predicate Enabled(s: State, step: Step) {
    match step
    case StartBegins(c, id) => c !in s.calls
    case RunFails(c) => c in s.calls && s.calls[c].Launching?
    case RunReturns(c, cid) => c in s.calls && s.calls[c].Launching? && cid !in s.created
    case StartRegisters(c) => c in s.calls && s.calls[c].Registering?
    case DiscardReturns(c) => c in s.calls && s.calls[c].Discarding?
    case StopBegins(c, id) => c !in s.calls
    case StopFails(c) => c in s.calls && s.calls[c].StopInFlight?
    case StopSettles(c) => c in s.calls && s.calls[c].StopInFlight?
    case WaitBegins(c, id) => c !in s.calls
    case WaitWakes(c) =>
      && c in s.calls && s.calls[c].Blocked?
      && s.calls[c].entry < |s.table.entries| && s.table.entries[s.calls[c].entry].closes > 0
    case WaitCancelled(c) => c in s.calls && s.calls[c].Blocked?
    case InspectBegins(c, id, canInspect) => c !in s.calls
    case InspectFails(c) => c in s.calls && s.calls[c].InspectInFlight?
    case InspectSettles(c, st) => c in s.calls && s.calls[c].InspectInFlight?
  }

  ghost function Goes(s: State, c: nat, to: Call): State {
    s.(calls := s.calls[c := to])
  }

  ghost function Apply(s: State, step: Step): State
    requires Inv(s) && Enabled(s, step)
  {
    var t := s.table;
    match step
    case StartBegins(c, id) => Goes(s, c, if id in t.procs then Returned(Refused) else Launching(id))
    case RunFails(c) => Goes(s, c, Returned(Refused))
    case RunReturns(c, cid) => Goes(s, c, Registering(s.calls[c].id, cid)).(created := s.created + {cid})
    case StartRegisters(c) =>
      var id, cid := s.calls[c].id, s.calls[c].cid;
      if id in t.procs then Goes(s, c, Discarding(cid))
      else Goes(s, c, Returned(Started(Handle(id, cid, Running, None)))).(table := Added(t, id, cid))
    case DiscardReturns(c) =>
      Goes(s, c, Returned(Refused)).(stopAsked := s.stopAsked + {s.calls[c].cid})
    case StopBegins(c, id) =>
      match LookupOf(t, id) {
        case NotFound => Goes(s, c, Returned(Refused))
        case AlreadyTerminal(e, _) => Goes(s, c, Returned(Stopped(e)))
        case Found(e, _) =>
          Goes(s, c, StopInFlight(e)).(table := Updated(t, e, t.entries[e].(status := Stopping)))
      }
    case StopFails(c) =>
      Goes(s, c, Returned(Refused)).(stopAsked := s.stopAsked + {t.entries[s.calls[c].entry].containerID})
    case StopSettles(c) =>
      var e := s.calls[c].entry;
      Goes(s, c, Returned(Stopped(e))).(
        table := Updated(t, e, Settled(t.entries[e])),
        stopAsked := s.stopAsked + {t.entries[e].containerID})
    case WaitBegins(c, id) =>
      match LookupOf(t, id) {
        case NotFound => Goes(s, c, Returned(Refused))
        case AlreadyTerminal(e, h) => Goes(s, c, Returned(Waited(e, h)))
        case Found(e, _) => Goes(s, c, Blocked(e))
      }
    case WaitWakes(c) =>
      var e := s.calls[c].entry;
      Goes(s, c, Returned(Waited(e, HandleOf(t.entries[e]))))
    case WaitCancelled(c) => Goes(s, c, Returned(Refused))
    case InspectBegins(c, id, canInspect) =>
      match LookupOf(t, id) {
        case NotFound => Goes(s, c, Returned(Refused))
        case AlreadyTerminal(_, h) => Goes(s, c, Returned(Inspected(h)))
        case Found(e, _) =>
          Goes(s, c, if canInspect then InspectInFlight(e) else Returned(Inspected(HandleOf(t.entries[e]))))
      }
    case InspectFails(c) => Goes(s, c, Returned(Inspected(HandleOf(t.entries[s.calls[c].entry]))))
    case InspectSettles(c, st) =>
      var e := s.calls[c].entry;
      var entry := Refreshed(t.entries[e], st);
      Goes(s, c, Returned(Inspected(HandleOf(entry)))).(table := Updated(t, e, entry))
  }

  // ---------------------------------------------------------------------------
  // The invariant
  // ---------------------------------------------------------------------------

  /** done closed at most once, and closed exactly when the status is terminal and the code is set. */
  ghost predicate Sound(e: Entry) {
    e.closes <= 1 && (e.closes == 1 <==> IsTerminal(e.status)) && (IsTerminal(e.status) <==> e.exitCode.Some?)
  }

  /** While some Stop is in flight its entry is stopping, or already settled by another Stop. */
  ghost predicate StopClaimed(e: Entry) {
    e.status == Stopping || (e.status == Exited && e.exitCode == Some(0))
  }

  ghost predicate CallInv(t: Table, call: Call) {
    match call
    case StopInFlight(e) => e < |t.entries| && StopClaimed(t.entries[e])
    case Blocked(e) => e < |t.entries|
    case InspectInFlight(e) => e < |t.entries|
    case Returned(Stopped(e)) => e < |t.entries| && IsTerminal(t.entries[e].status)
    case Returned(Waited(e, h)) =>
      e < |t.entries| && IsTerminal(h.status) && h.exitCode.Some? && h == HandleOf(t.entries[e])
    case Returned(Started(h)) =>
      && h.id in t.procs && t.procs[h.id] < |t.entries|
      && t.entries[t.procs[h.id]].containerID == h.containerID
    case _ => true
  }

  /** The container a Start holds but has not bound to an id. */
  ghost function Unbound(call: Call): set<string> {
    match call
    case Registering(_, cid) => {cid}
    case Discarding(cid) => {cid}
    case _ => {}
  }

  ghost predicate Bound(t: Table, cid: string) {
    exists e :: 0 <= e < |t.entries| && t.entries[e].containerID == cid
  }

  ghost predicate HeldByCall(calls: map<nat, Call>, cid: string) {
    exists c :: c in calls && cid in Unbound(calls[c])
  }

  ghost predicate ContainersDistinct(s: State) {
    && (forall d, e :: 0 <= d < e < |s.table.entries| ==>
          s.table.entries[d].containerID != s.table.entries[e].containerID)
    && (forall e :: 0 <= e < |s.table.entries| ==> s.table.entries[e].containerID in s.created)
  }

  /** No container is bound twice, bound while still held, or held by two calls. */
  ghost predicate Exclusive(s: State) {
    && ContainersDistinct(s)
    && (forall c, cid {:trigger cid in Unbound(s.calls[c])} ::
          c in s.calls && cid in Unbound(s.calls[c]) ==> cid in s.created && !Bound(s.table, cid))
    && (forall c, d, cid :: c in s.calls && d in s.calls && cid in Unbound(s.calls[c]) && cid in Unbound(s.calls[d]) ==> c == d)
  }

  /** Every container ever created is bound, still in a Start's hands, or was asked to stop. */
  ghost predicate NoneLeaked(s: State) {
    forall cid :: cid in s.created ==> Bound(s.table, cid) || HeldByCall(s.calls, cid) || cid in s.stopAsked
  }

  ghost predicate Inv(s: State) {
    && WellFormed(s.table)
    && (forall e :: 0 <= e < |s.table.entries| ==> Sound(s.table.entries[e]))
    && (forall c :: c in s.calls ==> CallInv(s.table, s.calls[c]))
  }

  /** What may change between an earlier and a later table. */
  ghost predicate Evolves(t: Table, t': Table) {
    && |t.entries| <= |t'.entries|
    && (forall id :: id in t.procs ==> id in t'.procs && t'.procs[id] == t.procs[id])
    && forall e :: 0 <= e < |t.entries| ==> EntryEvolves(t.entries[e], t'.entries[e])
  }

  /** Identity is fixed, a terminal entry is frozen, and a stop is never undone. */
  ghost predicate EntryEvolves(e: Entry, e': Entry) {
    && e'.id == e.id && e'.containerID == e.containerID
    && (IsTerminal(e.status) ==> e' == e)
    && (StopClaimed(e) ==> StopClaimed(e'))
  }

  ghost predicate AllSound(t: Table) {
    WellFormed(t) && forall e :: 0 <= e < |t.entries| ==> Sound(t.entries[e])
  }

  lemma AddedKeeps(t: Table, id: string, cid: string)
    requires AllSound(t) && id !in t.procs
    ensures AllSound(Added(t, id, cid)) && Evolves(t, Added(t, id, cid))
  {
  }

  lemma UpdatedKeeps(t: Table, e: nat, entry: Entry)
    requires AllSound(t) && e < |t.entries|
    requires EntryEvolves(t.entries[e], entry) && Sound(entry)
    ensures AllSound(Updated(t, e, entry)) && Evolves(t, Updated(t, e, entry))
  {
  }

  lemma StopBeginsKeeps(t: Table, id: string)
    requires AllSound(t) && LookupOf(t, id).Found?
    ensures var e := t.procs[id];
      var t' := Updated(t, e, t.entries[e].(status := Stopping));
      AllSound(t') && Evolves(t, t')
  {
    var e := t.procs[id];
    UpdatedKeeps(t, e, t.entries[e].(status := Stopping));
  }

  lemma SettledKeeps(t: Table, e: nat)
    requires AllSound(t) && e < |t.entries| && StopClaimed(t.entries[e])
    ensures AllSound(Updated(t, e, Settled(t.entries[e]))) && Evolves(t, Updated(t, e, Settled(t.entries[e])))
  {
    UpdatedKeeps(t, e, Settled(t.entries[e]));
  }

  lemma RefreshedKeeps(t: Table, e: nat, st: EngineStatus)
    requires AllSound(t) && e < |t.entries|
    ensures AllSound(Updated(t, e, Refreshed(t.entries[e], st))) && Evolves(t, Updated(t, e, Refreshed(t.entries[e], st)))
  {
    UpdatedKeeps(t, e, Refreshed(t.entries[e], st));
  }

  /** The four ways a step changes the table; every other step leaves it alone. */
  ghost predicate TableMoves(t: Table, call: Call, step: Step, t': Table)
    requires WellFormed(t)
  {
    || t' == t
    || (step.StartRegisters? && call.Registering? && call.id !in t.procs && t' == Added(t, call.id, call.cid))
    || (step.StopBegins? && LookupOf(t, step.id).Found? &&
        t' == Updated(t, t.procs[step.id], t.entries[t.procs[step.id]].(status := Stopping)))
    || (step.StopSettles? && call.StopInFlight? && call.entry < |t.entries| && StopClaimed(t.entries[call.entry]) &&
        t' == Updated(t, call.entry, Settled(t.entries[call.entry])))
    || (step.InspectSettles? && call.InspectInFlight? && call.entry < |t.entries| &&
        t' == Updated(t, call.entry, Refreshed(t.entries[call.entry], step.st)))
  }

  ghost function CallOf(s: State, c: nat): Call {
    if c in s.calls then s.calls[c] else Returned(Refused)
  }

  lemma StepMovesTable(s: State, step: Step)
    requires Inv(s) && Enabled(s, step)
    ensures TableMoves(s.table, CallOf(s, step.c), step, Apply(s, step).table)
  {
    assert step.c in s.calls ==> CallInv(s.table, s.calls[step.c]);
  }

  lemma TableMoveKeeps(t: Table, call: Call, step: Step, t': Table)
    requires AllSound(t) && TableMoves(t, call, step, t')
    ensures AllSound(t') && Evolves(t, t')
  {
    if t' != t {
      match step
      case StartRegisters(_) => AddedKeeps(t, call.id, call.cid);
      case StopBegins(_, id) => StopBeginsKeeps(t, id);
      case StopSettles(_) => SettledKeeps(t, call.entry);
      case InspectSettles(_, st) => RefreshedKeeps(t, call.entry, st);
    }
  }

  /** Every locked section leaves a sound table that the old one may evolve into. */
  lemma TableStep(s: State, step: Step)
    requires Inv(s) && Enabled(s, step)
    ensures AllSound(Apply(s, step).table) && Evolves(s.table, Apply(s, step).table)
  {
    StepMovesTable(s, step);
    TableMoveKeeps(s.table, CallOf(s, step.c), step, Apply(s, step).table);
  }

  /** The call that took the step is left in a state its own table supports. */
  lemma CallerFits(s: State, step: Step)
    requires Inv(s) && Enabled(s, step)
    ensures var s' := Apply(s, step);
      && step.c in s'.calls && CallInv(s'.table, s'.calls[step.c])
      && s'.calls == s.calls[step.c := s'.calls[step.c]]
  {
    assert step.c in s.calls ==> CallInv(s.table, s.calls[step.c]);
  }

  lemma CallsKept(t: Table, t': Table, call: Call)
    requires WellFormed(t) && Evolves(t, t') && CallInv(t, call)
    ensures CallInv(t', call)
  {
  }

  /** Every locked section keeps the invariant, whatever the engine answered. */
  lemma StepKeepsInv(s: State, step: Step)
    requires Inv(s) && Enabled(s, step)
    ensures Inv(Apply(s, step)) && Evolves(s.table, Apply(s, step).table)
  {
    var s' := Apply(s, step);
    TableStep(s, step);
    CallerFits(s, step);
    forall c | c in s'.calls ensures CallInv(s'.table, s'.calls[c]) {
      if c != step.c {
        CallsKept(s.table, s'.table, s.calls[c]);
      }
    }
  }

  /** How a step moves the bound containers and the calls. */
  lemma StepMoves(s: State, step: Step)
    requires Inv(s) && Enabled(s, step)
    ensures var s' := Apply(s, step);
      && |s.table.entries| <= |s'.table.entries|
      && (forall e :: 0 <= e < |s.table.entries| ==> s'.table.entries[e].containerID == s.table.entries[e].containerID)
      && (|s'.table.entries| == |s.table.entries| ||
           (|s'.table.entries| == |s.table.entries| + 1 && step.StartRegisters? &&
             s'.table.entries[|s.table.entries|].containerID == s.calls[step.c].cid))
      && (|s'.table.entries| > |s.table.entries| ==> Unbound(s'.calls[step.c]) == {})
  {
    StepKeepsInv(s, step);
  }

  lemma BoundMoves(s: State, step: Step, cid: string)
    requires Inv(s) && Enabled(s, step)
    ensures Bound(s.table, cid) ==> Bound(Apply(s, step).table, cid)
    ensures Bound(Apply(s, step).table, cid) && !Bound(s.table, cid) ==>
      step.StartRegisters? && s.calls[step.c].cid == cid && Unbound(Apply(s, step).calls[step.c]) == {}
  {
    StepMoves(s, step);
    var t, t' := s.table, Apply(s, step).table;
    if Bound(t, cid) {
      var e :| 0 <= e < |t.entries| && t.entries[e].containerID == cid;
      assert t'.entries[e].containerID == cid;
    }
    if Bound(t', cid) {
      var e :| 0 <= e < |t'.entries| && t'.entries[e].containerID == cid;
      assert e < |t.entries| ==> t.entries[e].containerID == cid;
    }
  }

  /** The containers in the caller's hands after a step come from its hands before, or are new. */
  lemma HandsMove(s: State, step: Step, cid: string)
    requires Inv(s) && Enabled(s, step)
    ensures var s' := Apply(s, step);
      && s.created <= s'.created && s.stopAsked <= s'.stopAsked
      && (cid in Unbound(s'.calls[step.c]) ==>
            (step.RunReturns? && step.cid == cid) || (step.c in s.calls && cid in Unbound(s.calls[step.c])))
      && (step.c in s.calls && cid in Unbound(s.calls[step.c]) ==>
            cid in Unbound(s'.calls[step.c]) || Bound(s'.table, cid) || cid in s'.stopAsked)
  {
    if step.StartRegisters? && s.calls[step.c].id !in s.table.procs {
      var t' := Apply(s, step).table;
      assert t'.entries[|s.table.entries|].containerID == s.calls[step.c].cid;
    }
  }

  lemma StepKeepsContainersDistinct(s: State, step: Step)
    requires Inv(s) && Enabled(s, step) && Exclusive(s)
    ensures ContainersDistinct(Apply(s, step))
  {
    StepMoves(s, step);
    HandsMove(s, step, "");
    if step.StartRegisters? {
      var cid := s.calls[step.c].cid;
      assert cid in Unbound(s.calls[step.c]);
      assert forall d :: 0 <= d < |s.table.entries| ==> s.table.entries[d].containerID != cid;
    }
  }

  lemma StepKeepsHeldUnbound(s: State, step: Step, c: nat, cid: string)
    requires Inv(s) && Enabled(s, step) && Exclusive(s)
    requires c in Apply(s, step).calls && cid in Unbound(Apply(s, step).calls[c])
    ensures cid in Apply(s, step).created && !Bound(Apply(s, step).table, cid)
  {
    HandsMove(s, step, cid);
    BoundMoves(s, step, cid);
    CallerFits(s, step);
    assert step.StartRegisters? ==> s.calls[step.c].cid in Unbound(s.calls[step.c]);
  }

  lemma StepKeepsHeldOnce(s: State, step: Step, c: nat, d: nat, cid: string)
    requires Inv(s) && Enabled(s, step) && Exclusive(s)
    requires c in Apply(s, step).calls && cid in Unbound(Apply(s, step).calls[c])
    requires d in Apply(s, step).calls && cid in Unbound(Apply(s, step).calls[d])
    ensures c == d
  {
    HandsMove(s, step, cid);
    CallerFits(s, step);
  }

  lemma StepKeepsExclusive(s: State, step: Step)
    requires Inv(s) && Enabled(s, step) && Exclusive(s)
    ensures Exclusive(Apply(s, step))
  {
    StepKeepsContainersDistinct(s, step);
    var s' := Apply(s, step);
    forall c, cid | c in s'.calls && cid in Unbound(s'.calls[c])
      ensures cid in s'.created && !Bound(s'.table, cid)
    {
      StepKeepsHeldUnbound(s, step, c, cid);
    }
    forall c, d, cid | c in s'.calls && d in s'.calls && cid in Unbound(s'.calls[c]) && cid in Unbound(s'.calls[d])
      ensures c == d
    {
      StepKeepsHeldOnce(s, step, c, d, cid);
    }
  }

  lemma StepLeaksNothing(s: State, step: Step)
    requires Inv(s) && Enabled(s, step) && NoneLeaked(s)
    ensures NoneLeaked(Apply(s, step))
  {
    var s' := Apply(s, step);
    CallerFits(s, step);
    forall cid | cid in s'.created
      ensures Bound(s'.table, cid) || HeldByCall(s'.calls, cid) || cid in s'.stopAsked
    {
      HandsMove(s, step, cid);
      BoundMoves(s, step, cid);
      if cid in s.created && !Bound(s.table, cid) && cid !in s.stopAsked {
        var c :| c in s.calls && cid in Unbound(s.calls[c]);
        assert c != step.c ==> s'.calls[c] == s.calls[c];
      } else if cid !in s.created {
        assert cid in Unbound(s'.calls[step.c]);
      }
    }
  }

  // ---------------------------------------------------------------------------
  // Whole runs
  // ---------------------------------------------------------------------------

  /** Any interleaving of steps, each possible in the state before it. */
  ghost predicate Feasible(steps: seq<Step>)
    decreases |steps|, 0
  {
    steps == [] || (Feasible(steps[..|steps| - 1]) && Enabled(Exec(steps[..|steps| - 1]), steps[|steps| - 1]))
  }

  ghost function Exec(steps: seq<Step>): (s: State)
    requires Feasible(steps)
    ensures Inv(s) && Exclusive(s) && NoneLeaked(s)
    decreases |steps|, 1
  {
    if steps == [] then Init
    else
      var before, step := Exec(steps[..|steps| - 1]), steps[|steps| - 1];
      StepKeepsInv(before, step);
      StepKeepsExclusive(before, step);
      StepLeaksNothing(before, step);
      Apply(before, step)
  }

  lemma EvolvesFurther(t: Table, s: State, step: Step)
    requires Inv(s) && Enabled(s, step) && Evolves(t, s.table)
    ensures Evolves(t, Apply(s, step).table)
  {
    StepKeepsInv(s, step);
    EvolvesTransitive(t, s.table, Apply(s, step).table);
  }

  lemma EvolvesTransitive(t: Table, t': Table, t'': Table)
    requires Evolves(t, t') && Evolves(t', t'')
    ensures Evolves(t, t'')
  {
  }

  /** Prefixes of a run are runs, and its table only evolves. */
  lemma {:induction false} RunEvolves(steps: seq<Step>, n: nat)
    requires Feasible(steps) && n <= |steps|
    ensures Feasible(steps[..n]) && Evolves(Exec(steps[..n]).table, Exec(steps).table)
  {
    if n == |steps| {
      assert steps[..n] == steps;
    } else {
      var front := steps[..|steps| - 1];
      RunEvolves(front, n);
      assert front[..n] == steps[..n];
      EvolvesFurther(Exec(steps[..n]).table, Exec(front), steps[|steps| - 1]);
    }
  }

  /** At every moment of every run: done, status and exit code agree, and done closed at most once. */
  lemma DoneMeansTerminal(steps: seq<Step>, e: nat)
    requires Feasible(steps) && e < |Exec(steps).table.entries|
    ensures var entry := Exec(steps).table.entries[e];
      && entry.closes <= 1
      && (entry.closes == 1 <==> IsTerminal(entry.status))
      && (IsTerminal(entry.status) <==> entry.exitCode.Some?)
  {
    assert Sound(Exec(steps).table.entries[e]);
  }

  /** A terminal status and its exit code never change again. */
  lemma TerminalIsForever(steps: seq<Step>, n: nat, e: nat)
    requires Feasible(steps) && n <= |steps|
    requires Feasible(steps[..n]) && e < |Exec(steps[..n]).table.entries|
    requires IsTerminal(Exec(steps[..n]).table.entries[e].status)
    ensures e < |Exec(steps).table.entries| && Exec(steps).table.entries[e] == Exec(steps[..n]).table.entries[e]
  {
    RunEvolves(steps, n);
    TerminalFrozen(Exec(steps[..n]).table, Exec(steps).table, e);
  }

  lemma TerminalFrozen(early: Table, late: Table, e: nat)
    requires Evolves(early, late) && e < |early.entries| && IsTerminal(early.entries[e].status)
    ensures late.entries[e] == early.entries[e]
  {
  }

  /** From an earlier to a later table: the id has its entry and container still, and no other entry has the id. */
  ghost predicate StillBound(early: Table, late: Table, id: string) {
    && id in early.procs && id in late.procs && late.procs[id] == early.procs[id]
    && early.procs[id] < |early.entries| && early.procs[id] < |late.entries|
    && late.entries[late.procs[id]].containerID == early.entries[early.procs[id]].containerID
    && forall e :: 0 <= e < |late.entries| && late.entries[e].id == id ==> e == early.procs[id]
  }

  lemma BindingStays(early: Table, late: Table, id: string)
    requires WellFormed(early) && WellFormed(late) && Evolves(early, late) && id in early.procs
    ensures StillBound(early, late, id)
  {
  }

  /** An id, once bound, keeps its one container for the rest of the run. */
  lemma OneContainerPerId(steps: seq<Step>, n: nat, id: string)
    requires Feasible(steps) && n <= |steps|
    requires Feasible(steps[..n]) && id in Exec(steps[..n]).table.procs
    ensures StillBound(Exec(steps[..n]).table, Exec(steps).table, id)
  {
    RunEvolves(steps, n);
    BindingStays(Exec(steps[..n]).table, Exec(steps).table, id);
  }

  /** What a returned call may be believed to have established, at every later moment. */
  lemma ReturnedCallsAreRight(steps: seq<Step>, c: nat)
    requires Feasible(steps) && c in Exec(steps).calls && Exec(steps).calls[c].Returned?
    ensures match Exec(steps).calls[c].outcome
      case Stopped(e) => e < |Exec(steps).table.entries| && Exec(steps).table.entries[e].closes == 1
      case Waited(e, h) =>
        && IsTerminal(h.status) && h.exitCode.Some?
        && e < |Exec(steps).table.entries|
        && var p := Exec(steps).table.entries[e];
           h == Handle(p.id, p.containerID, p.status, p.exitCode)
      case Started(h) =>
        && h.id in Exec(steps).table.procs
        && Exec(steps).table.entries[Exec(steps).table.procs[h.id]].containerID == h.containerID
      case _ => true
  {
    assert CallInv(Exec(steps).table, Exec(steps).calls[c]);
  }

  // What a call answers and how a container ended, told by the steps of the run alone.

  /** What a call holds or answered is about the id it was made with, and a Start answers for its own container. */
  ghost predicate AboutItsId(t: Table, steps: seq<Step>, c: nat, call: Call) {
    match call
    case Launching(id) => StartBegins(c, id) in steps
    case Registering(id, cid) => StartBegins(c, id) in steps && RunReturns(c, cid) in steps
    case Discarding(_) => true
    case StopInFlight(e) => e < |t.entries| && StopBegins(c, t.entries[e].id) in steps
    case Blocked(e) => e < |t.entries| && WaitBegins(c, t.entries[e].id) in steps
    case InspectInFlight(e) => e < |t.entries| && InspectBegins(c, t.entries[e].id, true) in steps
    case Returned(outcome) => AnswersItsId(t, steps, c, outcome)
  }

  ghost predicate AnswersItsId(t: Table, steps: seq<Step>, c: nat, answer: Outcome) {
    match answer
    case Refused => true
    case Started(h) =>
      && StartBegins(c, h.id) in steps && RunReturns(c, h.containerID) in steps
      && h.status == Running && h.exitCode.None?
    case Stopped(e) => e < |t.entries| && StopBegins(c, t.entries[e].id) in steps
    case Waited(e, h) => WaitBegins(c, h.id) in steps
    case Inspected(h) => InspectBegins(c, h.id, true) in steps || InspectBegins(c, h.id, false) in steps
  }

  /** A Stop of the id settled the entry, or an Inspect of it saw the container not running. */
  ghost predicate EndedBy(steps: seq<Step>, p: Entry) {
    (exists c :: StoppedBy(steps, p, c)) || (exists c, st :: SeenEnded(steps, p, c, st))
  }

  ghost predicate StoppedBy(steps: seq<Step>, p: Entry, c: nat) {
    StopBegins(c, p.id) in steps && StopSettles(c) in steps && p.status == Exited && p.exitCode == Some(0)
  }

  ghost predicate SeenEnded(steps: seq<Step>, p: Entry, c: nat, st: EngineStatus) {
    && InspectBegins(c, p.id, true) in steps && InspectSettles(c, st) in steps
    && !st.running && p.exitCode == Some(st.exitCode)
    && p.status == if st.oomKilled || st.exitCode != 0 then Crashed else Exited
  }

  lemma EndedByKept(steps: seq<Step>, step: Step, p: Entry)
    requires EndedBy(steps, p)
    ensures EndedBy(steps + [step], p)
  {
    if c :| StoppedBy(steps, p, c) {
      assert StoppedBy(steps + [step], p, c);
    } else {
      var c, st :| SeenEnded(steps, p, c, st);
      assert SeenEnded(steps + [step], p, c, st);
    }
  }

  lemma AboutItsIdKept(t: Table, t': Table, steps: seq<Step>, step: Step, c: nat, call: Call)
    requires Evolves(t, t') && AboutItsId(t, steps, c, call)
    ensures AboutItsId(t', steps + [step], c, call)
  {
  }

  ghost predicate Begins(step: Step) {
    step.StartBegins? || step.StopBegins? || step.WaitBegins? || step.InspectBegins?
  }

  lemma BeginIsAboutItsId(s: State, steps: seq<Step>, step: Step)
    requires Inv(s) && Enabled(s, step) && Begins(step) && step in steps
    ensures AboutItsId(Apply(s, step).table, steps, step.c, Apply(s, step).calls[step.c])
  {
  }

  lemma LaterIsAboutItsId(s: State, steps: seq<Step>, step: Step)
    requires Inv(s) && Enabled(s, step) && !Begins(step) && step in steps
    requires AboutItsId(s.table, steps, step.c, s.calls[step.c])
    ensures AboutItsId(Apply(s, step).table, steps, step.c, Apply(s, step).calls[step.c])
  {
    assert CallInv(s.table, s.calls[step.c]);
  }

  lemma CallerIsAboutItsId(s: State, steps: seq<Step>, step: Step)
    requires Inv(s) && Enabled(s, step)
    requires step.c in s.calls ==> AboutItsId(s.table, steps, step.c, s.calls[step.c])
    ensures step.c in Apply(s, step).calls
    ensures AboutItsId(Apply(s, step).table, steps + [step], step.c, Apply(s, step).calls[step.c])
  {
    if Begins(step) {
      BeginIsAboutItsId(s, steps + [step], step);
    } else {
      AboutItsIdKept(s.table, s.table, steps, step, step.c, s.calls[step.c]);
      LaterIsAboutItsId(s, steps + [step], step);
    }
  }

  /** An entry that ends at a step ends by that step's Stop or Inspect. */
  lemma NewEnd(s: State, steps: seq<Step>, step: Step, e: nat)
    requires Inv(s) && Enabled(s, step) && e < |Apply(s, step).table.entries|
    requires step.c in s.calls ==> AboutItsId(s.table, steps, step.c, s.calls[step.c])
    requires IsTerminal(Apply(s, step).table.entries[e].status)
    ensures (e < |s.table.entries| && Apply(s, step).table.entries[e] == s.table.entries[e])
         || EndedBy(steps + [step], Apply(s, step).table.entries[e])
  {
    StepMovesTable(s, step);
    var p := Apply(s, step).table.entries[e];
    assert step in steps + [step];
    if step.StopSettles? && s.calls[step.c].entry == e {
      assert StoppedBy(steps + [step], p, step.c);
    } else if step.InspectSettles? && s.calls[step.c].entry == e && p != s.table.entries[e] {
      assert SeenEnded(steps + [step], p, step.c, step.st);
    }
  }

  lemma {:induction false} CallsAreAboutTheirIds(steps: seq<Step>, c: nat)
    requires Feasible(steps) && c in Exec(steps).calls
    ensures AboutItsId(Exec(steps).table, steps, c, Exec(steps).calls[c])
  {
    var front, step := steps[..|steps| - 1], steps[|steps| - 1];
    var s := Exec(front);
    assert steps == front + [step];
    StepKeepsInv(s, step);
    CallerFits(s, step);
    if c in s.calls {
      CallsAreAboutTheirIds(front, c);
    }
    if c == step.c {
      CallerIsAboutItsId(s, front, step);
    } else {
      AboutItsIdKept(s.table, Exec(steps).table, front, step, c, s.calls[c]);
    }
  }

  /** Start, Stop, Wait and Inspect answer for the id they were called with. */
  lemma AnswersAreForTheAskedId(steps: seq<Step>, c: nat)
    requires Feasible(steps) && c in Exec(steps).calls && Exec(steps).calls[c].Returned?
    ensures AnswersItsId(Exec(steps).table, steps, c, Exec(steps).calls[c].outcome)
  {
    CallsAreAboutTheirIds(steps, c);
  }

  lemma EndsFurther(s: State, steps: seq<Step>, step: Step, e: nat)
    requires Inv(s) && Enabled(s, step) && e < |Apply(s, step).table.entries|
    requires step.c in s.calls ==> AboutItsId(s.table, steps, step.c, s.calls[step.c])
    requires e < |s.table.entries| && IsTerminal(s.table.entries[e].status) ==> EndedBy(steps, s.table.entries[e])
    requires IsTerminal(Apply(s, step).table.entries[e].status)
    ensures EndedBy(steps + [step], Apply(s, step).table.entries[e])
  {
    NewEnd(s, steps, step, e);
    if e < |s.table.entries| && Apply(s, step).table.entries[e] == s.table.entries[e] {
      EndedByKept(steps, step, s.table.entries[e]);
    }
  }

  ghost predicate AllEndsEarned(t: Table, steps: seq<Step>) {
    forall e :: 0 <= e < |t.entries| && IsTerminal(t.entries[e].status) ==> EndedBy(steps, t.entries[e])
  }

  lemma StepKeepsEndsEarned(s: State, steps: seq<Step>, step: Step)
    requires Inv(s) && Enabled(s, step) && AllEndsEarned(s.table, steps)
    requires step.c in s.calls ==> AboutItsId(s.table, steps, step.c, s.calls[step.c])
    ensures AllEndsEarned(Apply(s, step).table, steps + [step])
  {
    var t' := Apply(s, step).table;
    forall e | 0 <= e < |t'.entries| && IsTerminal(t'.entries[e].status) ensures EndedBy(steps + [step], t'.entries[e]) {
      EndsFurther(s, steps, step, e);
    }
  }

  lemma {:induction false} RunEndsEarned(steps: seq<Step>)
    requires Feasible(steps)
    ensures AllEndsEarned(Exec(steps).table, steps)
  {
    if steps != [] {
      var front, step := steps[..|steps| - 1], steps[|steps| - 1];
      assert steps == front + [step];
      RunEndsEarned(front);
      if step.c in Exec(front).calls {
        CallsAreAboutTheirIds(front, step.c);
      }
      StepKeepsEndsEarned(Exec(front), front, step);
    }
  }

  /** Exited with 0 after a Stop, or the status and the code an Inspect was given. */
  lemma EndsAreEarned(steps: seq<Step>, e: nat)
    requires Feasible(steps) && e < |Exec(steps).table.entries|
    requires IsTerminal(Exec(steps).table.entries[e].status)
    ensures EndedBy(steps, Exec(steps).table.entries[e])
  {
    RunEndsEarned(steps);
  }

  lemma ExecOneMore(steps: seq<Step>, step: Step)
    requires Feasible(steps) && Enabled(Exec(steps), step)
    ensures Feasible(steps + [step]) && Exec(steps + [step]) == Apply(Exec(steps), step)
  {
    assert (steps + [step])[..|steps|] == steps;
  }

  lemma RegisteredRun(id: string, cid: string) returns (steps: seq<Step>)
    ensures Feasible(steps) && Exec(steps).calls.Keys == {0}
    ensures Exec(steps).table == Table(map[id := 0], [Entry(id, cid, Running, None, 0)])
  {
    ExecOneMore([], StartBegins(0, id));
    steps := [] + [StartBegins(0, id)];
    ExecOneMore(steps, RunReturns(0, cid));
    steps := steps + [RunReturns(0, cid)];
    ExecOneMore(steps, StartRegisters(0));
    steps := steps + [StartRegisters(0)];
  }

  // One entry alone in the table, and exactly these calls made.

  ghost predicate At(steps: seq<Step>, p: Entry, calls: map<nat, Call>) {
    Feasible(steps) && Exec(steps).table == Table(map[p.id := 0], [p]) && Exec(steps).calls == calls
  }

  lemma WaitsFor(steps: seq<Step>, p: Entry, calls: map<nat, Call>, c: nat)
    requires At(steps, p, calls) && c !in calls && p.status == Running
    ensures At(steps + [WaitBegins(c, p.id)], p, calls[c := Blocked(0)])
  {
    ExecOneMore(steps, WaitBegins(c, p.id));
  }

  lemma IsInspected(steps: seq<Step>, p: Entry, calls: map<nat, Call>, c: nat)
    requires At(steps, p, calls) && c !in calls && p.status == Running
    ensures At(steps + [InspectBegins(c, p.id, true)], p, calls[c := InspectInFlight(0)])
  {
    ExecOneMore(steps, InspectBegins(c, p.id, true));
  }

  lemma IsSeenEnded(steps: seq<Step>, p: Entry, calls: map<nat, Call>, c: nat, st: EngineStatus)
    requires At(steps, p, calls) && c in calls && calls[c] == InspectInFlight(0)
    requires p.status == Running && p.closes == 0 && !st.running
    ensures var status := if st.oomKilled || st.exitCode != 0 then Crashed else Exited;
      At(steps + [InspectSettles(c, st)], Entry(p.id, p.containerID, status, Some(st.exitCode), 1),
         calls[c := Returned(Inspected(Handle(p.id, p.containerID, status, Some(st.exitCode))))])
  {
    ExecOneMore(steps, InspectSettles(c, st));
  }

  lemma Wakes(steps: seq<Step>, p: Entry, calls: map<nat, Call>, c: nat)
    requires At(steps, p, calls) && c in calls && calls[c] == Blocked(0) && p.closes > 0
    ensures At(steps + [WaitWakes(c)], p, calls[c := Returned(Waited(0, Handle(p.id, p.containerID, p.status, p.exitCode)))])
  {
    ExecOneMore(steps, WaitWakes(c));
  }

  /** A container that ends on its own, in any way, can be seen by an Inspect, and a Wait then answers with that. */
  lemma AnyEndCanBeAwaited(id: string, cid: string, st: EngineStatus) returns (steps: seq<Step>)
    requires !st.running
    ensures var status := if st.oomKilled || st.exitCode != 0 then Crashed else Exited;
      && Feasible(steps) && 1 in Exec(steps).calls
      && Exec(steps).calls[1] == Returned(Waited(0, Handle(id, cid, status, Some(st.exitCode))))
  {
    var status := if st.oomKilled || st.exitCode != 0 then Crashed else Exited;
    steps := RegisteredRun(id, cid);
    var p, calls := Entry(id, cid, Running, None, 0), Exec(steps).calls;
    WaitsFor(steps, p, calls, 1);
    steps, calls := steps + [WaitBegins(1, id)], calls[1 := Blocked(0)];
    IsInspected(steps, p, calls, 2);
    steps, calls := steps + [InspectBegins(2, id, true)], calls[2 := InspectInFlight(0)];
    IsSeenEnded(steps, p, calls, 2, st);
    steps, p := steps + [InspectSettles(2, st)], Entry(id, cid, status, Some(st.exitCode), 1);
    calls := calls[2 := Returned(Inspected(Handle(id, cid, status, Some(st.exitCode))))];
    Wakes(steps, p, calls, 1);
    steps := steps + [WaitWakes(1)];
  }

  /** A Start that lost the race holds its container alone, and it is bound to nothing. */
  ghost predicate Lost(s: State, c: nat, cid: string) {
    && cid in s.created && !Bound(s.table, cid)
    && (forall d :: d in s.calls && d != c ==> cid !in Unbound(s.calls[d]))
    && c in s.calls && (s.calls[c] == Discarding(cid) || (s.calls[c].Returned? && cid in s.stopAsked))
  }

  lemma StepKeepsLost(s: State, step: Step, c: nat, cid: string)
    requires Inv(s) && Enabled(s, step) && Lost(s, c, cid)
    ensures Lost(Apply(s, step), c, cid)
  {
    HandsMove(s, step, cid);
    BoundMoves(s, step, cid);
    CallerFits(s, step);
    assert step.StartRegisters? ==> s.calls[step.c].cid in Unbound(s.calls[step.c]);
  }

  lemma DiscardingIsLost(s: State, c: nat, cid: string)
    requires Exclusive(s) && c in s.calls && s.calls[c] == Discarding(cid)
    ensures Lost(s, c, cid)
  {
    assert cid in Unbound(s.calls[c]);
  }

  /** The loser of a Start race stops its own container, which is never bound to any id. */
  lemma {:induction false} LoserStopsItsOwn(steps: seq<Step>, n: nat, c: nat, cid: string)
    requires Feasible(steps) && n <= |steps| && Feasible(steps[..n])
    requires c in Exec(steps[..n]).calls && Exec(steps[..n]).calls[c] == Discarding(cid)
    ensures Lost(Exec(steps), c, cid)
  {
    if n == |steps| {
      assert steps[..n] == steps;
      DiscardingIsLost(Exec(steps), c, cid);
    } else {
      var front := steps[..|steps| - 1];
      assert front[..n] == steps[..n];
      LoserStopsItsOwn(front, n, c, cid);
      StepKeepsLost(Exec(front), steps[|steps| - 1], c, cid);
    }
  }
}
