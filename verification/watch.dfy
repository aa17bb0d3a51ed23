/**
 * The debounced file watcher (internal/watch/watch.go): each tick compares what
 * the system answers with the last snapshots and sends settled changes into a
 * bounded channel.
 */
module Watch {
  import opened Prelude

  datatype Snap = Snap(mod: int, size: int, isDir: bool)

  type Entries = map<string, Snap>

  /** What the system answers for a path at one moment: its stat and its listing, each may fail. */
  datatype View = View(stat: Option<Snap>, entries: Option<Entries>)

  /** The zero time marks a batch that has not begun; the ticker never delivers it. */
  type Time = t: nat | t > 0 witness 1

  /** The changes of a path since its last event: when the first and the latest were detected. */
  datatype Batch = Batch(first: nat, last: nat)

  datatype Event = Event(path: string, at: Time)

  const CAPACITY := 64

  ghost predicate SameEntry(a: Snap, b: Snap) {
    a.mod == b.mod && a.size == b.size
  }

  /** The same names, each with the same time and size. */
  ghost predicate SameEntries(a: Entries, b: Entries) {
    a.Keys == b.Keys && forall name :: name in a ==> SameEntry(a[name], b[name])
  }

  function EntriesOf(dirs: map<string, Entries>, dir: string): Entries {
    if dir in dirs then dirs[dir] else map[]
  }

  /** A tick detects a change exactly when the stat differs, or a directory's entries do. */
  ghost predicate Changed(last: Snap, prev: Entries, v: View) {
    && v.stat.Some?
    && (!SameEntry(v.stat.value, last) || (last.isDir && v.entries.Some? && !SameEntries(v.entries.value, prev)))
  }

  // ---------------------------------------------------------------------------
  // What happened, in order
  // ---------------------------------------------------------------------------

  /** A change was detected, or an event was sent. */
  datatype Happening = Seen(path: string, at: Time) | Sent(path: string, at: Time)

  /** The changes of a path since its last event. */
  ghost function BatchOf(log: seq<Happening>, path: string): Option<Batch> {
    if log == [] then None
    else
      var earlier := BatchOf(log[..|log| - 1], path);
      match log[|log| - 1]
      case Seen(p, at) =>
        if p != path then earlier
        else if earlier.None? then Some(Batch(at, at)) else Some(Batch(earlier.value.first, at))
      case Sent(p, at) => if p != path then earlier else None
  }

  datatype Policy = Policy(debounce: int, maxWait: int)

  predicate IsDue(policy: Policy, b: Batch, now: int) {
    now - b.last >= policy.debounce || (policy.maxWait > 0 && now - b.first >= policy.maxWait)
  }

  /** Every event ends a batch that was due. */
  ghost predicate AllDue(policy: Policy, log: seq<Happening>) {
    forall k :: 0 <= k < |log| && log[k].Sent? ==> DueAt(policy, log, k)
  }

  ghost predicate DueAt(policy: Policy, log: seq<Happening>, k: nat)
    requires k < |log|
  {
    var b := BatchOf(log[..k], log[k].path);
    b.Some? && IsDue(policy, b.value, log[k].at)
  }

  ghost function EventsOf(log: seq<Happening>): seq<Event> {
    if log == [] then []
    else
      EventsOf(log[..|log| - 1]) +
      if log[|log| - 1].Sent? then [Event(log[|log| - 1].path, log[|log| - 1].at)] else []
  }

  ghost predicate PendingIs(pending: map<string, Batch>, log: seq<Happening>) {
    forall path :: BatchOf(log, path) == if path in pending then Some(pending[path]) else None
  }

  ghost predicate Begun(pending: map<string, Batch>) {
    forall path :: path in pending ==> pending[path].first > 0
  }

  lemma SeeOne(pending: map<string, Batch>, log: seq<Happening>, path: string, now: Time)
    requires PendingIs(pending, log)
    ensures PendingIs(pending[path := Batch(if path in pending then pending[path].first else now, now)],
                      log + [Seen(path, now)])
  {
    var more := log + [Seen(path, now)];
    assert more[..|log|] == log;
  }

  lemma SendOne(policy: Policy, pending: map<string, Batch>, log: seq<Happening>, path: string, now: Time)
    requires PendingIs(pending, log) && AllDue(policy, log) && path in pending && IsDue(policy, pending[path], now)
    ensures PendingIs(pending - {path}, log + [Sent(path, now)])
    ensures AllDue(policy, log + [Sent(path, now)])
    ensures EventsOf(log + [Sent(path, now)]) == EventsOf(log) + [Event(path, now)]
  {
    var more := log + [Sent(path, now)];
    assert more[..|log|] == log;
    assert BatchOf(log, path) == Some(pending[path]);
    forall k | 0 <= k < |more| && more[k].Sent? ensures DueAt(policy, more, k) {
      assert k < |log| ==> more[..k] == log[..k] && DueAt(policy, log, k);
    }
  }

  lemma StillAllDue(policy: Policy, log: seq<Happening>, path: string, now: Time)
    requires AllDue(policy, log)
    ensures AllDue(policy, log + [Seen(path, now)]) && EventsOf(log + [Seen(path, now)]) == EventsOf(log)
  {
    var more := log + [Seen(path, now)];
    assert more[..|log|] == log;
    forall k | 0 <= k < |more| && more[k].Sent? ensures DueAt(policy, more, k) {
      assert more[..k] == log[..k] && DueAt(policy, log, k);
    }
  }

  class Watcher {
    const policy: Policy
    var paths: map<string, Snap>
    var dirs: map<string, Entries>
    var pending: map<string, Batch>
    var events: seq<Event>            // in the channel, not received yet
    var closed: bool
    ghost var received: seq<Event>
    ghost var log: seq<Happening>

    /** The pending map is what the log says has not been reported; every event was due; none is lost. */
    ghost predicate Valid()
      reads this
    {
      && PendingIs(pending, log) && Begun(pending) && AllDue(policy, log)
      && received + events == EventsOf(log) && |events| <= CAPACITY
    }

    constructor (policy: Policy)
      ensures Valid() && log == [] && !closed && paths == map[] && this.policy == policy
    {
      this.policy := policy;
      paths, dirs, pending, events, closed := map[], map[], map[], [], false;
      received, log := [], [];
    }

    /** Compares a directory with its snapshot: the same number of entries, and each of them unchanged. */
    method DirChanged(dir: string, listing: Option<Entries>) returns (changed: bool)
      modifies this`dirs
      ensures changed <==> listing.Some? && !SameEntries(listing.value, EntriesOf(old(dirs), dir))
      ensures dirs == if changed then old(dirs)[dir := listing.value] else old(dirs)
      ensures changed <==> listing.Some? && EntriesDiffer(listing.value, EntriesOf(old(dirs), dir))
    {
      DifferMeans();
      if listing.None? {
        return false;
      }
      var cur, prev := listing.value, EntriesOf(dirs, dir);
      changed := |cur| != |prev|;
      if !changed {
        var names := cur.Keys;
        while names != {}
          invariant names <= cur.Keys
          invariant !changed && forall name :: name in cur && name !in names ==> name in prev && SameEntry(cur[name], prev[name])
          decreases |names|
        {
          var name :| name in names;
          if name !in prev || cur[name].mod != prev[name].mod || cur[name].size != prev[name].size {
            changed := true;
            break;
          }
          names := names - {name};
        }
        if !changed {
          SubsetSameSize(cur.Keys, prev.Keys);
        }
      }
      if changed {
        dirs := dirs[dir := cur];
      }
    }

    /** A detected change begins a batch or extends it. */
    method Note(path: string, now: Time)
      requires Valid()
      modifies this`pending, this`log
      ensures Valid() && log == old(log) + [Seen(path, now)]
      ensures pending == old(pending)[path := Batch(if path in old(pending) then old(pending)[path].first else now, now)]
    {
      var pc := if path in pending then pending[path] else Batch(0, 0);
      if pc.first == 0 {
        pc := pc.(first := now);
      }
      SeeOne(pending, log, path, now);
      StillAllDue(policy, log, path, now);
      pending := pending[path := pc.(last := now)];
      log := log + [Seen(path, now)];
    }

    /** The comparison for one path; a directory that differs gets its new snapshot. */
    method Compare(path: string, v: View) returns (changed: bool)
      requires path in paths
      modifies this`dirs
      ensures changed <==> Changed(paths[path], EntriesOf(old(dirs), path), v)
      ensures forall other :: other != path ==> EntriesOf(dirs, other) == EntriesOf(old(dirs), other)
      ensures EntriesUpToDate(paths[path], EntriesOf(old(dirs), path), v, EntriesOf(dirs, path))
    {
      if v.stat.None? {
        return false;
      }
      var last, info := paths[path], v.stat.value;
      changed := info.mod != last.mod || info.size != last.size;
      if last.isDir {
        var inside := DirChanged(path, v.entries);
        changed := changed || inside;
      }
    }

    /** One path of a tick. */
    method LookAt(path: string, now: Time, v: View) returns (changed: bool)
      requires Valid() && path in paths
      modifies this`paths, this`dirs, this`pending, this`log
      ensures Valid()
      ensures changed <==> Changed(old(paths)[path], EntriesOf(old(dirs), path), v)
      ensures log == if changed then old(log) + [Seen(path, now)] else old(log)
      ensures path in paths && paths == old(paths)[path := paths[path]]
      ensures forall other :: other != path ==> EntriesOf(dirs, other) == EntriesOf(old(dirs), other)
      ensures UpToDate(old(paths)[path], EntriesOf(old(dirs), path), v, paths[path], EntriesOf(dirs, path))
      ensures v.stat.None? ==> !changed
      ensures v.stat.Some? ==>
        var was, now := old(paths)[path], v.stat.value;
        && (was.mod != now.mod || was.size != now.size ==> changed)
        && (was.mod == now.mod && was.size == now.size && !was.isDir ==> !changed)
      ensures changed ==>
        && paths[path] == Snap(v.stat.value.mod, v.stat.value.size, old(paths)[path].isDir)
        && pending == old(pending)[path := Batch(if path in old(pending) then old(pending)[path].first else now, now)]
      ensures !changed ==> pending == old(pending)
    {
      changed := Compare(path, v);
      if changed {
        paths := paths[path := Snap(v.stat.value.mod, v.stat.value.size, paths[path].isDir)];
        Note(path, now);
      }
    }

    /** One turn of the first loop; start is the log when the loop began. */
    method LookAtNext(path: string, now: Time, look: string -> View, ghost was: map<string, Snap>,
                      ghost wasIn: map<string, Entries>, ghost start: seq<Happening>, ghost todo: set<string>,
                      ghost seen: seq<string>) returns (ghost more: seq<string>)
      requires Valid() && Looked(was, wasIn, look, todo, paths, dirs, seen) && path in todo
      requires log == start + SeenAt(seen, now)
      modifies this`paths, this`dirs, this`pending, this`log
      ensures Valid() && Looked(was, wasIn, look, todo - {path}, paths, dirs, more)
      ensures log == start + SeenAt(more, now)
    {
      ghost var p0, d0 := paths, dirs;
      var changed := LookAt(path, now, look(path));
      LookedAtOne(was, wasIn, look, todo, p0, d0, seen, path, changed, paths, dirs);
      more := if changed then seen + [path] else seen;
      SeenOneMore(seen, path, now);
      Assoc(start, SeenAt(seen, now), [Seen(path, now)]);
    }

    /** The first half of a tick, in whatever order the map is walked. */
    method Detect(now: Time, look: string -> View) returns (ghost seen: seq<string>)
      requires Valid()
      modifies this`paths, this`dirs, this`pending, this`log
      ensures Valid() && log == old(log) + SeenAt(seen, now)
      ensures Looked(old(paths), old(dirs), look, {}, paths, dirs, seen)
    {
      seen := [];
      var todo := paths.Keys;
      assert log == old(log) + SeenAt(seen, now);
      while todo != {}
        invariant Valid() && log == old(log) + SeenAt(seen, now)
        invariant Looked(old(paths), old(dirs), look, todo, paths, dirs, seen)
        decreases |todo|
      {
        var path :| path in todo;
        seen := LookAtNext(path, now, look, old(paths), old(dirs), old(log), todo, seen);
        todo := todo - {path};
      }
    }

    /** The consumer takes events off the channel. */
    method Receive(n: nat)
      requires Valid()
      modifies this`events, this`received
      ensures Valid() && |events| <= |old(events)|
      ensures received + events == old(received) + old(events)
      ensures |events| == if n < |old(events)| then |old(events)| - n else 0
    {
      var k := if n < |events| then n else |events|;
      received := received + events[..k];
      events := events[k..];
      assert old(received) + old(events) == received + events;
    }

    /** A non-blocking send of a due path. */
    method TrySend(path: string, now: Time) returns (ok: bool)
      requires Valid() && path in pending && IsDue(policy, pending[path], now)
      modifies this`pending, this`events, this`log
      ensures Valid() && (ok <==> |old(events)| < CAPACITY)
      ensures log == if ok then old(log) + [Sent(path, now)] else old(log)
      ensures pending == if ok then old(pending) - {path} else old(pending)
      ensures |events| == |old(events)| + if ok then 1 else 0
    {
      ok := |events| < CAPACITY;
      if ok {
        SendOne(policy, pending, log, path, now);
        events := events + [Event(path, now)];
        pending := pending - {path};
        log := log + [Sent(path, now)];
      }
    }

    /** One turn of the second loop, for a due path; start is the log when the loop began. */
    method SendNext(path: string, now: Time, n: nat, ghost was: map<string, Batch>, ghost start: seq<Happening>,
                    ghost todo: set<string>, ghost held: nat, ghost sent: seq<string>) returns (ghost more: seq<string>)
      requires Valid() && Emitted(policy, was, now, todo, pending, sent, held + |sent| >= CAPACITY)
      requires path in todo && IsDue(policy, pending[path], now) && |events| <= held + |sent|
      requires log == start + SentAt(sent, now)
      modifies this`pending, this`events, this`received, this`log
      ensures Valid() && Emitted(policy, was, now, todo - {path}, pending, more, held + |more| >= CAPACITY)
      ensures log == start + SentAt(more, now) && |events| <= held + |more|
    {
      ghost var left, full := pending, held + |sent| >= CAPACITY;
      Receive(n);
      var ok := TrySend(path, now);
      more := if ok then sent + [path] else sent;
      EmittedOne(policy, was, now, todo, left, sent, full, path, ok, held + |more| >= CAPACITY);
      SentOneMore(sent, path, now);
      Assoc(start, SentAt(sent, now), [Sent(path, now)]);
    }

    /**
     * The second half of a tick: a non-blocking send of every due path, in whatever
     * order the map is walked, while the consumer takes what it likes before each attempt.
     */
    method EmitDue(now: Time, taken: nat -> nat) returns (ghost sent: seq<string>)
      requires Valid()
      modifies this`pending, this`events, this`received, this`log
      ensures Valid() && log == old(log) + SentAt(sent, now)
      ensures Emitted(policy, old(pending), now, {}, pending, sent, |old(events)| + |sent| >= CAPACITY)
      ensures |old(events)| + |sent| < 64 ==>
        forall p :: p in pending ==>
          now - pending[p].last < policy.debounce && (policy.maxWait <= 0 || now - pending[p].first < policy.maxWait)
    {
      sent := [];
      var todo, attempt := pending.Keys, 0;
      assert log == old(log) + SentAt(sent, now);
      while todo != {}
        invariant Valid() && log == old(log) + SentAt(sent, now) && |events| <= |old(events)| + |sent|
        invariant Emitted(policy, old(pending), now, todo, pending, sent, |old(events)| + |sent| >= CAPACITY)
        decreases |todo|
      {
        var path :| path in todo;
        var pc := pending[path];
        if now - pc.last >= policy.debounce || (policy.maxWait > 0 && now - pc.first >= policy.maxWait) {
          sent := SendNext(path, now, taken(attempt), old(pending), old(log), todo, |old(events)|, sent);
          attempt := attempt + 1;
        } else {
          EmittedOne(policy, old(pending), now, todo, pending, sent, |old(events)| + |sent| >= CAPACITY, path, false,
                     |old(events)| + |sent| >= CAPACITY);
        }
        todo := todo - {path};
      }
      NoneLeftDue(policy, old(pending), now, pending, sent, |old(events)| + |sent| >= CAPACITY);
    }

    /** A tick detects exactly the paths that changed, and then sends what is due unless the channel is full. */
    method Tick(now: Time, look: string -> View, taken: nat -> nat) returns (ghost seen: seq<string>, ghost sent: seq<string>)
      requires Valid()
      modifies this
      ensures Valid() && closed == old(closed)
      ensures log == old(log) + SeenAt(seen, now) + SentAt(sent, now)
      ensures old(closed) ==> log == old(log) && paths == old(paths) && dirs == old(dirs) && events == old(events)
      ensures !old(closed) ==> Looked(old(paths), old(dirs), look, {}, paths, dirs, seen)
      ensures !old(closed) ==>
        forall p :: p in pending && IsDue(policy, pending[p], now) ==> |old(events)| + |sent| >= CAPACITY
      ensures !old(closed) && |old(events)| + |sent| < 64 ==>
        forall p :: p in pending ==>
          now - pending[p].last < policy.debounce && (policy.maxWait <= 0 || now - pending[p].first < policy.maxWait)
      ensures !old(closed) ==> DetectedPlainly(old(paths), old(dirs), look, seen)
      ensures Delivered(old(received) + old(events), received + events, sent, now)
    {
      seen, sent := [], [];
      if closed {
        assert log == old(log) + SeenAt(seen, now) + SentAt(sent, now);
        return;
      }
      seen := Detect(now, look);
      LookedPlainly(old(paths), old(dirs), look, paths, dirs, seen);
      sent := EmitDue(now, taken);
      TickDelivers(old(log), seen, sent, now);
    }

    /** A directory whose listing fails is refused after its path has been registered. */
    method Add(path: string, v: View) returns (ok: bool)
      requires Valid()
      modifies this`paths, this`dirs
      ensures Valid()
      ensures ok <==> !closed && v.stat.Some? && (v.stat.value.isDir ==> v.entries.Some?)
      ensures paths == if !closed && v.stat.Some? then old(paths)[path := v.stat.value] else old(paths)
      ensures dirs == if ok && v.stat.value.isDir then old(dirs)[path := v.entries.value] else old(dirs)
    {
      if v.stat.None? || closed {
        return false;
      }
      paths := paths[path := v.stat.value];
      if v.stat.value.isDir {
        if v.entries.None? {
          return false;
        }
        dirs := dirs[path := v.entries.value];
      }
      ok := true;
    }

    method Close()
      requires Valid()
      modifies this`closed
      ensures Valid() && closed
    {
      closed := true;
    }
  }

  /**
   * A tick that still has some pending paths to do: the sent ones were due and are
   * no longer pending, and a due one is kept only when the channel was full.
   */
  ghost predicate Emitted(policy: Policy, was: map<string, Batch>, now: Time, todo: set<string>,
                          pending: map<string, Batch>, sent: seq<string>, full: bool) {
    && todo <= pending.Keys && NoDup(sent)
    && pending == was - SetOf(sent)
    && (forall p :: p in sent ==> p in was && IsDue(policy, was[p], now))
    && (!full ==> forall p :: p in pending && p !in todo ==> !IsDue(policy, pending[p], now))
  }

  lemma NoneLeftDue(policy: Policy, was: map<string, Batch>, now: Time, pending: map<string, Batch>,
                    sent: seq<string>, full: bool)
    requires Emitted(policy, was, now, {}, pending, sent, full)
    ensures !full ==> forall p :: p in pending ==>
      now - pending[p].last < policy.debounce && (policy.maxWait <= 0 || now - pending[p].first < policy.maxWait)
  {
  }

  lemma EmittedOne(policy: Policy, was: map<string, Batch>, now: Time, todo: set<string>,
                   pending: map<string, Batch>, sent: seq<string>, full: bool, path: string, ok: bool, fuller: bool)
    requires Emitted(policy, was, now, todo, pending, sent, full) && path in todo && (full ==> fuller)
    requires ok ==> IsDue(policy, pending[path], now)
    requires !ok && IsDue(policy, pending[path], now) ==> fuller
    ensures ok ==> Emitted(policy, was, now, todo - {path}, pending - {path}, sent + [path], fuller)
    ensures !ok ==> Emitted(policy, was, now, todo - {path}, pending, sent, fuller)
  {
    SetOfAppend(sent, path);
  }

  /**
   * A tick that still has some paths to do: those are untouched, the others are
   * up to date, and the ones that had changed are exactly the ones seen.
   */
  ghost predicate Looked(was: map<string, Snap>, wasIn: map<string, Entries>, look: string -> View, todo: set<string>,
                         paths: map<string, Snap>, dirs: map<string, Entries>, seen: seq<string>) {
    && todo <= paths.Keys == was.Keys
    && (forall p :: p in paths ==> OneLooked(was[p], EntriesOf(wasIn, p), look(p), p in todo, paths[p], EntriesOf(dirs, p)))
    && NoDup(seen) && (forall p :: p in seen <==> p in was && p !in todo && Changed(was[p], EntriesOf(wasIn, p), look(p)))
  }

  ghost predicate OneLooked(was: Snap, before: Entries, v: View, waiting: bool, snap: Snap, after: Entries) {
    if waiting then snap == was && after == before else UpToDate(was, before, v, snap, after)
  }

  /** What a tick detects, path by path: another time or size, or in a directory another name, time or size. */
  ghost predicate DetectedPlainly(was: map<string, Snap>, wasIn: map<string, Entries>, look: string -> View, seen: seq<string>) {
    && (forall p :: p in seen ==> p in was && look(p).stat.Some?)
    && forall p :: p in was && look(p).stat.Some? ==>
         var stat, entries, before := look(p).stat.value, look(p).entries, EntriesOf(wasIn, p);
         p in seen <==>
           || stat.mod != was[p].mod || stat.size != was[p].size
           || (was[p].isDir && entries.Some? && EntriesDiffer(entries.value, before))
  }

  /** Some name is in one of them alone, or has another time or size. */
  ghost predicate EntriesDiffer(now: Entries, before: Entries) {
    || (exists name :: name in before && name !in now)
    || (exists name :: name in now && name !in before)
    || (exists name :: name in now && name in before &&
          (now[name].mod != before[name].mod || now[name].size != before[name].size))
  }

  lemma LookedPlainly(was: map<string, Snap>, wasIn: map<string, Entries>, look: string -> View,
                      paths: map<string, Snap>, dirs: map<string, Entries>, seen: seq<string>)
    requires Looked(was, wasIn, look, {}, paths, dirs, seen)
    ensures DetectedPlainly(was, wasIn, look, seen)
  {
    DifferMeans();
  }

  lemma DifferMeans()
    ensures forall now: Entries, before: Entries :: EntriesDiffer(now, before) <==> !SameEntries(now, before)
  {
  }

  lemma LookedAtOne(was: map<string, Snap>, wasIn: map<string, Entries>, look: string -> View, todo: set<string>,
                    paths: map<string, Snap>, dirs: map<string, Entries>, seen: seq<string>,
                    path: string, changed: bool, newPaths: map<string, Snap>, newDirs: map<string, Entries>)
    requires Looked(was, wasIn, look, todo, paths, dirs, seen) && path in todo
    requires path in newPaths && newPaths == paths[path := newPaths[path]]
    requires forall other :: other != path ==> EntriesOf(newDirs, other) == EntriesOf(dirs, other)
    requires changed <==> Changed(paths[path], EntriesOf(dirs, path), look(path))
    requires UpToDate(paths[path], EntriesOf(dirs, path), look(path), newPaths[path], EntriesOf(newDirs, path))
    ensures Looked(was, wasIn, look, todo - {path}, newPaths, newDirs, if changed then seen + [path] else seen)
  {
    SetOfAppend(seen, path);
    assert OneLooked(was[path], EntriesOf(wasIn, path), look(path), true, paths[path], EntriesOf(dirs, path));
    forall p | p in newPaths && p != path
      ensures OneLooked(was[p], EntriesOf(wasIn, p), look(p), p in todo - {path}, newPaths[p], EntriesOf(newDirs, p))
    {
      assert OneLooked(was[p], EntriesOf(wasIn, p), look(p), p in todo, paths[p], EntriesOf(dirs, p));
    }
  }

  ghost function SeenAt(paths: seq<string>, now: Time): (r: seq<Happening>)
    ensures |r| == |paths| && forall k :: 0 <= k < |paths| ==> r[k] == Seen(paths[k], now)
  {
    seq(|paths|, k requires 0 <= k < |paths| => Seen(paths[k], now))
  }

  ghost function SentAt(paths: seq<string>, now: Time): (r: seq<Happening>)
    ensures |r| == |paths| && forall k :: 0 <= k < |paths| ==> r[k] == Sent(paths[k], now)
  {
    seq(|paths|, k requires 0 <= k < |paths| => Sent(paths[k], now))
  }

  /** The events after are those before and one for each of the paths, in order, at the time. */
  ghost predicate Delivered(before: seq<Event>, after: seq<Event>, paths: seq<string>, now: Time) {
    && |after| == |before| + |paths| && before <= after
    && forall k :: 0 <= k < |paths| ==> after[|before| + k] == Event(paths[k], now)
  }

  lemma {:induction false} TickDelivers(log: seq<Happening>, seen: seq<string>, sent: seq<string>, now: Time)
    ensures Delivered(EventsOf(log), EventsOf(log + SeenAt(seen, now) + SentAt(sent, now)), sent, now)
  {
    var start := log + SeenAt(seen, now);
    if sent == [] {
      SeeingSendsNothing(log, seen, now);
      assert start + SentAt(sent, now) == start;
    } else {
      var front, last := sent[..|sent| - 1], sent[|sent| - 1];
      TickDelivers(log, seen, front, now);
      assert sent == front + [last];
      SentOneMore(front, last, now);
      Assoc(start, SentAt(front, now), [Sent(last, now)]);
      SendingAddsOne(start + SentAt(front, now), last, now);
    }
  }

  lemma SendingAddsOne(log: seq<Happening>, path: string, now: Time)
    ensures EventsOf(log + [Sent(path, now)]) == EventsOf(log) + [Event(path, now)]
  {
    assert (log + [Sent(path, now)])[..|log|] == log;
  }

  lemma {:induction false} SeeingSendsNothing(log: seq<Happening>, seen: seq<string>, now: Time)
    ensures EventsOf(log + SeenAt(seen, now)) == EventsOf(log)
  {
    if seen == [] {
      assert log + SeenAt(seen, now) == log;
    } else {
      SeeingSendsNothing(log, seen[..|seen| - 1], now);
      var more := log + SeenAt(seen, now);
      assert more[..|more| - 1] == log + SeenAt(seen[..|seen| - 1], now);
    }
  }

  lemma SeenOneMore(paths: seq<string>, path: string, now: Time)
    ensures SeenAt(paths + [path], now) == SeenAt(paths, now) + [Seen(path, now)]
  {
  }

  lemma SentOneMore(paths: seq<string>, path: string, now: Time)
    ensures SentAt(paths + [path], now) == SentAt(paths, now) + [Sent(path, now)]
  {
  }

  /** After a tick the snapshots are what the system answered; a failed answer leaves them alone. */
  ghost predicate UpToDate(was: Snap, before: Entries, v: View, snap: Snap, after: Entries) {
    && snap.isDir == was.isDir
    && (if v.stat.Some? then SameEntry(snap, v.stat.value) else snap == was)
    && EntriesUpToDate(was, before, v, after)
  }

  ghost predicate EntriesUpToDate(was: Snap, before: Entries, v: View, after: Entries) {
    if v.stat.Some? && was.isDir && v.entries.Some? then SameEntries(v.entries.value, after) else after == before
  }

  // ---------------------------------------------------------------------------
  // What the log of every run guarantees
  // ---------------------------------------------------------------------------

  /** Between two positions nothing was sent for a path. */
  ghost predicate NoneSent(log: seq<Happening>, path: string, from: nat, to: nat) {
    to <= |log| && forall k :: from <= k < to ==> !(log[k].Sent? && log[k].path == path)
  }

  ghost predicate NoneSeen(log: seq<Happening>, path: string, from: nat, to: nat) {
    to <= |log| && forall k :: from <= k < to ==> !(log[k].Seen? && log[k].path == path)
  }

  /**
   * The changes since a path's last event: the one at i is the first of them, the
   * one at j the latest, and s is just after that event.
   */
  ghost predicate IsBatch(log: seq<Happening>, path: string, b: Batch, s: nat, i: nat, j: nat) {
    && s <= i <= j < |log|
    && (s == 0 || (log[s - 1].Sent? && log[s - 1].path == path))
    && log[i].Seen? && log[i].path == path && log[i].at == b.first
    && log[j].Seen? && log[j].path == path && log[j].at == b.last
    && NoneSent(log, path, s, |log|) && NoneSeen(log, path, s, i) && NoneSeen(log, path, j + 1, |log|)
  }

  /** After s, the path's last event, nothing was detected. */
  ghost predicate IsQuiet(log: seq<Happening>, path: string, s: nat) {
    && s <= |log| && (s == 0 || (log[s - 1].Sent? && log[s - 1].path == path))
    && NoneSent(log, path, s, |log|) && NoneSeen(log, path, s, |log|)
  }

  /** BatchOf says what it is meant to say. */
  lemma {:induction false} BatchMeans(log: seq<Happening>, path: string) returns (s: nat, i: nat, j: nat)
    ensures match BatchOf(log, path)
      case Some(b) => IsBatch(log, path, b, s, i, j)
      case None => IsQuiet(log, path, s)
  {
    s, i, j := 0, 0, 0;
    if log != [] {
      var front, last := log[..|log| - 1], log[|log| - 1];
      s, i, j := BatchMeans(front, path);
      if last.path == path {
        match last
        case Seen(_, at) =>
          i, j := if BatchOf(front, path).None? then |front| else i, |front|;
        case Sent(_, at) =>
          s := |log|;
      }
    }
  }

  /** No detected change is lost: an event for its path follows it, or the path is pending. */
  lemma NoChangeIsLost(pending: map<string, Batch>, log: seq<Happening>, k: nat)
    requires PendingIs(pending, log) && k < |log| && log[k].Seen?
    ensures log[k].path in pending || exists m :: k < m < |log| && log[m].Sent? && log[m].path == log[k].path
  {
    var path := log[k].path;
    var s, i, j := BatchMeans(log, path);
    if path !in pending {
      assert BatchOf(log, path) == None;
      assert k < s;
      assert log[s - 1].Sent? && log[s - 1].path == path;
    }
  }

  /**
   * Every event covers a change not reported before: a detection at j, with no event
   * for the path between the batch's first detection at i and this one, and it is sent
   * only after the quiet time since j or the longest wait since i.
   */
  lemma EventCoversAChange(policy: Policy, log: seq<Happening>, k: nat) returns (s: nat, i: nat, j: nat)
    requires AllDue(policy, log) && k < |log| && log[k].Sent?
    ensures var path, now := log[k].path, log[k].at;
      && s <= i <= j < k && log[i].Seen? && log[i].path == path && log[j].Seen? && log[j].path == path
      && (s == 0 || (log[s - 1].Sent? && log[s - 1].path == path))
      && NoneSent(log, path, s, k) && NoneSeen(log, path, s, i) && NoneSeen(log, path, j + 1, k)
      && (now - log[j].at >= policy.debounce || (policy.maxWait > 0 && now - log[i].at >= policy.maxWait))
  {
    assert DueAt(policy, log, k);
    s, i, j := BatchMeans(log[..k], log[k].path);
  }

  /** A pending path is exactly one with a detection after its last event, and the entry holds its times. */
  lemma PendingMeans(pending: map<string, Batch>, log: seq<Happening>, path: string)
    requires PendingIs(pending, log)
    ensures path in pending <==> exists k :: 0 <= k < |log| && log[k] == Seen(path, log[k].at) && NoneSent(log, path, k, |log|)
    ensures path in pending ==> exists s, i, j :: IsBatch(log, path, pending[path], s, i, j)
  {
    var s, i, j := BatchMeans(log, path);
    assert BatchOf(log, path) == if path in pending then Some(pending[path]) else None;
    if path in pending {
      assert IsBatch(log, path, pending[path], s, i, j);
      assert log[i] == Seen(path, log[i].at) && NoneSent(log, path, i, |log|);
    } else {
      forall k | 0 <= k < |log| && log[k] == Seen(path, log[k].at) ensures !NoneSent(log, path, k, |log|) {
        assert k < s;
        assert log[s - 1].Sent? && log[s - 1].path == path;
      }
    }
  }
}
