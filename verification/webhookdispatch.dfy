/**
 * The webhook dispatcher (internal/daemon/webhook_dispatch.go): a cursor over
 * the event log, polled while hooks and events come and go.
 */
module WebhookDispatch {
  import opened Prelude
  import opened EventLog

  /** An empty list of event kinds matches every kind. */
  datatype Hook = Hook(id: string, events: seq<string>)

  predicate Matches(h: Hook, kind: string): (r: bool)
    ensures h.events == [] ==> r
    ensures h.events != [] ==> (r <==> exists i :: 0 <= i < |h.events| && h.events[i] == kind)
  {
    h.events == [] || kind in h.events
  }

  const PAGE_LIMIT := 100
  const MAX_ATTEMPTS := 3

  /** One event handed to one hook. */
  datatype Pair = Pair(hook: string, number: nat)

  /** A pair and how each of its attempts ended. */
  datatype Delivery = Delivery(target: Pair, answers: seq<bool>)

  /** For each attempt of each pair: whether it succeeds, and whether shutdown is seen after it. */
  type Network = (Pair, nat) -> (bool, bool)

  // ---------------------------------------------------------------------------
  // One delivery
  // ---------------------------------------------------------------------------

  /**
   * answer says whether an attempt succeeds, stopped whether the daemon is
   * shutting down by the time the wait after that attempt would be over.
   */
  method DeliverWithRetry(answer: nat -> bool, stopped: nat -> bool, backoff: nat)
    returns (answers: seq<bool>, waits: seq<nat>)
    ensures 1 <= |answers| <= MAX_ATTEMPTS && |waits| == |answers| - 1
    ensures forall i :: 0 <= i < |answers| ==> answers[i] == answer(i)
    ensures forall i :: 0 <= i < |answers| - 1 ==> !answers[i] && !stopped(i)
    ensures |answers| < MAX_ATTEMPTS ==> answers[|answers| - 1] || stopped(|answers| - 1)
    ensures |waits| > 0 ==> waits[0] == backoff
    ensures forall i :: 0 < i < |waits| ==> waits[i] == 2 * waits[i - 1]
  {
    answers, waits := [], [];
    var pause := backoff;
    for attempt := 0 to MAX_ATTEMPTS
      invariant |answers| == attempt == |waits| < MAX_ATTEMPTS
      invariant forall i :: 0 <= i < attempt ==> answers[i] == answer(i) && !answers[i] && !stopped(i)
      invariant pause == if attempt == 0 then backoff else 2 * waits[attempt - 1]
      invariant |waits| > 0 ==> waits[0] == backoff
      invariant forall i :: 0 < i < |waits| ==> waits[i] == 2 * waits[i - 1]
    {
      answers := answers + [answer(attempt)];
      if answer(attempt) || attempt == MAX_ATTEMPTS - 1 || stopped(attempt) {
        return;
      }
      waits := waits + [pause];
      pause := pause * 2;
    }
  }

  predicate WellTried(d: Delivery) {
    && 1 <= |d.answers| <= MAX_ATTEMPTS
    && forall i :: 0 <= i < |d.answers| - 1 ==> !d.answers[i]
  }

  /**
   * A delivery was tried against the network: each answer is the network's, a
   * further attempt follows a failure without shutdown, and it is given up
   * before the last attempt only on success or shutdown.
   */
  ghost predicate TriedOn(network: Network, d: Delivery) {
    var n := |d.answers|;
    && 1 <= n <= 3
    && (forall i :: 0 <= i < n ==> d.answers[i] == network(d.target, i).0)
    && (forall i :: 0 <= i < n - 1 ==> !d.answers[i] && !network(d.target, i).1)
    && (n < 3 ==> d.answers[n - 1] || network(d.target, n - 1).1)
  }

  /** The deliveries from a position on. */
  ghost predicate AllTriedOn(network: Network, ds: seq<Delivery>, from: nat) {
    forall k :: from <= k < |ds| ==> TriedOn(network, ds[k])
  }

  // ---------------------------------------------------------------------------
  // One tick
  // ---------------------------------------------------------------------------

  /** The pairs one event goes to, in the order of the hooks. */
  function PairsOf(hooks: seq<Hook>, e: Event): seq<Pair> {
    if hooks == [] then []
    else
      var last := hooks[|hooks| - 1];
      var before := PairsOf(hooks[..|hooks| - 1], e);
      if Matches(last, e.kind) then before + [Pair(last.id, e.seqNo)] else before
  }

  /** The pairs of a page, event by event. */
  function PairsOfPage(hooks: seq<Hook>, page: seq<Event>): seq<Pair> {
    if page == [] then []
    else PairsOfPage(hooks, page[..|page| - 1]) + PairsOf(hooks, page[|page| - 1])
  }

  function Targets(ds: seq<Delivery>): seq<Pair> {
    if ds == [] then [] else Targets(ds[..|ds| - 1]) + [ds[|ds| - 1].target]
  }

  /** What the log holds, the dispatcher's cursor, and the pairs dispatched so far. */
  datatype State = State(appended: seq<Event>, cursor: nat, pairs: seq<Pair>)

  ghost function Latest(appended: seq<Event>, maxKeep: nat): nat {
    var newest := LastN(Matching(Retained(appended, maxKeep), 0, ""), 1);
    if newest == [] then 0 else newest[|newest| - 1].seqNo
  }

  ghost function PageFrom(appended: seq<Event>, cursor: nat, maxKeep: nat): seq<Event> {
    FirstN(Matching(Retained(appended, maxKeep), cursor, ""), PAGE_LIMIT)
  }

  ghost function Ticked(s: State, hooks: seq<Hook>, maxKeep: nat): State {
    if hooks == [] then s.(cursor := Latest(s.appended, maxKeep))
    else
      var page := PageFrom(s.appended, s.cursor, maxKeep);
      s.(cursor := CursorAfter(s.cursor, page), pairs := s.pairs + PairsOfPage(hooks, page))
  }

  lemma PageAscends(appended: seq<Event>, cursor: nat, maxKeep: nat)
    ensures var page := PageFrom(appended, cursor, maxKeep);
      AscendingSeq(page) && forall e :: e in page ==> e.seqNo > cursor
  {
    PageMembers(Consumer(appended, cursor, []), PAGE_LIMIT, maxKeep, "");
  }

  lemma {:induction false} EveryoneMatches(es: seq<Event>)
    requires forall i :: 0 <= i < |es| ==> es[i].seqNo > 0
    ensures Matching(es, 0, "") == es
  {
    if es != [] {
      EveryoneMatches(es[..|es| - 1]);
      assert es == es[..|es| - 1] + [es[|es| - 1]];
    }
  }

  /** The cursor moves on by a hundred events, from the oldest one left if it was outrun, or to the newest. */
  lemma PageTakesTheNextHundred(appended: seq<Event>, cursor: nat, maxKeep: nat)
    requires maxKeep > 0 && cursor <= |appended|
    ensures var from := if cursor + maxKeep < |appended| then |appended| - maxKeep else cursor;
      CursorAfter(cursor, PageFrom(appended, cursor, maxKeep)) ==
        if from + 100 < |appended| then from + 100 else |appended|
  {
    var h := History(appended);
    var from := if cursor < Evicted(appended, maxKeep) then Evicted(appended, maxKeep) else cursor;
    RetainedAbove(appended, maxKeep, cursor, "");
    AllBetween(h, from);
    CursorAtTheEnd(h, from, cursor);
  }

  lemma AllBetween(h: seq<Event>, from: nat)
    requires from <= |h| && forall i :: 0 <= i < |h| ==> h[i].seqNo > 0
    ensures Between(h, from, |h|, "") == h[from..]
  {
    assert h[from..|h|] == h[from..];
    EveryoneMatches(h[from..]);
  }

  lemma CursorAtTheEnd(h: seq<Event>, from: nat, cursor: nat)
    requires Numbered(h) && from <= |h| && (from == |h| ==> cursor == from)
    ensures CursorAfter(cursor, FirstN(h[from..], 100)) == if from + 100 < |h| then from + 100 else |h|
  {
  }

  lemma LatestInTheRing(events: seq<Event>, seqCtr: nat, appended: seq<Event>, maxKeep: nat)
    requires maxKeep > 0 && (events, seqCtr) == RingAfter(appended, maxKeep)
    ensures var newest := LastN(Matching(events, 0, ""), 1);
      Latest(appended, maxKeep) == if newest == [] then 0 else newest[|newest| - 1].seqNo
  {
    RingIsTheNewest(appended, maxKeep);
  }

  class Dispatcher {
    var cursor: nat
    var deliveries: seq<Delivery>

    ghost function Value(bus: Bus): State
      reads this, bus
    {
      State(bus.appended, cursor, Targets(deliveries))
    }

    ghost predicate Valid()
      reads this
    {
      forall d :: d in deliveries ==> WellTried(d)
    }

    /** The cursor starts at the newest event, so nothing older is replayed. */
    constructor (bus: Bus)
      requires bus.Valid()
      ensures Valid() && deliveries == [] && cursor == Latest(bus.appended, bus.maxKeep)
    {
      cursor, deliveries := 0, [];
      new;
      cursor := LatestEventSeq(bus);
    }

    static method LatestEventSeq(bus: Bus) returns (number: nat)
      requires bus.Valid()
      ensures number == Latest(bus.appended, bus.maxKeep)
    {
      LatestInTheRing(bus.events, bus.seqCtr, bus.appended, bus.maxKeep);
      var evs := bus.Query("", 1);
      if |evs| == 0 {
        return 0;
      }
      return evs[|evs| - 1].seqNo;
    }

    method Tick(bus: Bus, hooks: seq<Hook>, network: Network, backoff: nat)
      requires bus.Valid() && Valid()
      modifies this
      ensures Valid() && Value(bus) == Ticked(old(Value(bus)), hooks, bus.maxKeep)
      ensures old(deliveries) <= deliveries && AllTriedOn(network, deliveries, |old(deliveries)|)
      ensures hooks == [] ==> cursor == |bus.appended| && deliveries == old(deliveries)
      ensures hooks != [] && old(cursor) <= |bus.appended| ==>
        var from := if old(cursor) + bus.maxKeep < |bus.appended| then |bus.appended| - bus.maxKeep else old(cursor);
        cursor == if from + 100 < |bus.appended| then from + 100 else |bus.appended|
    {
      if |hooks| == 0 {
        LatestIsTheLength(bus.appended, bus.maxKeep);
        cursor := LatestEventSeq(bus);
        return;
      }
      if cursor <= |bus.appended| {
        PageTakesTheNextHundred(bus.appended, cursor, bus.maxKeep);
      }
      DispatchNext(bus, hooks, network, backoff);
    }

    /** A tick with hooks: the next page. */
    method DispatchNext(bus: Bus, hooks: seq<Hook>, network: Network, backoff: nat)
      requires bus.Valid() && Valid() && hooks != []
      modifies this
      ensures Valid() && Value(bus) == Ticked(old(Value(bus)), hooks, bus.maxKeep)
      ensures old(deliveries) <= deliveries && AllTriedOn(network, deliveries, |old(deliveries)|)
    {
      RingIsTheNewest(bus.appended, bus.maxKeep);
      PageAscends(bus.appended, cursor, bus.maxKeep);
      var page := bus.QuerySince(cursor, "", PAGE_LIMIT);
      DispatchPage(hooks, page, network, backoff);
    }

    /** The loop over the page: the cursor follows the events. */
    method DispatchPage(hooks: seq<Hook>, page: seq<Event>, network: Network, backoff: nat)
      requires Valid() && AscendingSeq(page) && forall e :: e in page ==> e.seqNo > cursor
      modifies this
      ensures Valid() && old(deliveries) <= deliveries && cursor == CursorAfter(old(cursor), page)
      ensures AllTriedOn(network, deliveries, |old(deliveries)|)
      ensures Targets(deliveries) == old(Targets(deliveries)) + PairsOfPage(hooks, page)
    {
      ghost var was := Targets(deliveries);
      var k := 0;
      while k < |page|
        invariant 0 <= k <= |page| && Valid() && old(deliveries) <= deliveries
        invariant AllTriedOn(network, deliveries, |old(deliveries)|)
        invariant cursor == if k == 0 then old(cursor) else page[k - 1].seqNo
        invariant Targets(deliveries) == was + PairsOfPage(hooks, page[..k])
      {
        var e := page[k];
        assert page[..k + 1][..k] == page[..k] && e in page;
        if e.seqNo > cursor {
          cursor := e.seqNo;
        }
        Assoc(was, PairsOfPage(hooks, page[..k]), PairsOf(hooks, e));
        DispatchEvent(hooks, e, network, backoff);
        k := k + 1;
      }
      assert page[..k] == page;
    }

    method DispatchEvent(hooks: seq<Hook>, e: Event, network: Network, backoff: nat)
      requires Valid()
      modifies this`deliveries
      ensures Valid() && old(deliveries) <= deliveries
      ensures AllTriedOn(network, deliveries, |old(deliveries)|)
      ensures Targets(deliveries) == old(Targets(deliveries)) + PairsOf(hooks, e)
    {
      ghost var was := Targets(deliveries);
      var k := 0;
      while k < |hooks|
        invariant 0 <= k <= |hooks| && Valid() && old(deliveries) <= deliveries
        invariant AllTriedOn(network, deliveries, |old(deliveries)|)
        invariant Targets(deliveries) == was + PairsOf(hooks[..k], e)
      {
        var h := hooks[k];
        OneMoreHook(hooks, k, e);
        if Matches(h, e.kind) {
          Deliver(Pair(h.id, e.seqNo), network, backoff);
          Assoc(was, PairsOf(hooks[..k], e), [Pair(h.id, e.seqNo)]);
        }
        k := k + 1;
      }
      assert hooks[..k] == hooks;
    }

    /** One delivery, tried on the network. */
    method Deliver(target: Pair, network: Network, backoff: nat)
      requires Valid()
      modifies this`deliveries
      ensures Valid() && old(deliveries) <= deliveries && |deliveries| == |old(deliveries)| + 1
      ensures AllTriedOn(network, deliveries, |old(deliveries)|)
      ensures Targets(deliveries) == old(Targets(deliveries)) + [target]
    {
      var answers, waits := DeliverWithRetry((i: nat) => network(target, i).0, (i: nat) => network(target, i).1, backoff);
      var d := Delivery(target, answers);
      assert WellTried(d) && TriedOn(network, d);
      assert (deliveries + [d])[..|deliveries|] == deliveries;
      deliveries := deliveries + [d];
    }
  }

  lemma OneMoreHook(hooks: seq<Hook>, k: nat, e: Event)
    requires k < |hooks|
    ensures PairsOf(hooks[..k + 1], e) ==
      if Matches(hooks[k], e.kind) then PairsOf(hooks[..k], e) + [Pair(hooks[k].id, e.seqNo)]
      else PairsOf(hooks[..k], e)
  {
    assert hooks[..k + 1][..k] == hooks[..k];
  }

  // ---------------------------------------------------------------------------
  // Every run: events are logged and ticks happen in any order
  // ---------------------------------------------------------------------------

  /** Something the daemon logs, or a tick with the hooks registered at that moment. */
  datatype Move = Logged(e: Event) | Polled(hooks: seq<Hook>)

  ghost function Step(s: State, m: Move, maxKeep: nat): State {
    match m
    case Logged(e) => s.(appended := s.appended + [e])
    case Polled(hooks) => Ticked(s, hooks, maxKeep)
  }

  ghost function After(s: State, moves: seq<Move>, maxKeep: nat): State {
    if moves == [] then s
    else Step(After(s, moves[..|moves| - 1], maxKeep), moves[|moves| - 1], maxKeep)
  }

  ghost function Startup(before: seq<Event>, maxKeep: nat): State {
    State(before, Latest(before, maxKeep), [])
  }

  /** The registry lists each hook id once. */
  ghost predicate Listed(m: Move) {
    m.Polled? ==> forall i, j :: 0 <= i < j < |m.hooks| ==> m.hooks[i].id != m.hooks[j].id
  }

  ghost predicate AllListed(moves: seq<Move>) {
    forall k :: 0 <= k < |moves| ==> Listed(moves[k])
  }

  /** Event numbers never go down, and one event goes to distinct hooks. */
  ghost predicate Ordered(ps: seq<Pair>) {
    forall i, j :: 0 <= i < j < |ps| ==> Before(ps[i], ps[j])
  }

  ghost predicate Before(p: Pair, q: Pair) {
    p.number < q.number || (p.number == q.number && p.hook != q.hook)
  }

  /** A hook wants an event, and the pair says so. */
  predicate Asks(h: Hook, e: Event, p: Pair) {
    Matches(h, e.kind) && p == Pair(h.id, e.seqNo)
  }

  lemma {:induction false} PairsOfMembers(hooks: seq<Hook>, e: Event)
    ensures forall p :: p in PairsOf(hooks, e) <==> exists h :: h in hooks && Asks(h, e, p)
  {
    if hooks != [] {
      var front, last := hooks[..|hooks| - 1], hooks[|hooks| - 1];
      PairsOfMembers(front, e);
      assert hooks == front + [last];
      forall p ensures p in PairsOf(hooks, e) <==> exists h :: h in hooks && Asks(h, e, p) {
        assert p in PairsOf(hooks, e) <==> p in PairsOf(front, e) || Asks(last, e, p);
        if h :| h in hooks && Asks(h, e, p) {
          assert h in front || h == last;
        }
      }
    }
  }

  lemma {:induction false} PairsOfOrdered(hooks: seq<Hook>, e: Event)
    requires Listed(Polled(hooks))
    ensures Ordered(PairsOf(hooks, e))
  {
    if hooks != [] {
      var front, last := hooks[..|hooks| - 1], hooks[|hooks| - 1];
      PairsOfOrdered(front, e);
      PairsOfMembers(front, e);
      assert hooks == front + [last];
      forall p | p in PairsOf(front, e) ensures Before(p, Pair(last.id, e.seqNo)) {
        var h :| h in front && Asks(h, e, p);
      }
      OrderedInTwo(PairsOf(front, e), [Pair(last.id, e.seqNo)]);
    }
  }

  lemma OrderedInTwo(a: seq<Pair>, b: seq<Pair>)
    requires Ordered(a) && Ordered(b)
    requires forall p, q :: p in a && q in b ==> Before(p, q)
    ensures Ordered(a + b)
  {
  }

  lemma {:induction false} PageMembersAsk(hooks: seq<Hook>, page: seq<Event>)
    ensures forall p :: p in PairsOfPage(hooks, page) <==> exists h, e :: h in hooks && e in page && Asks(h, e, p)
  {
    if page != [] {
      var front, last := page[..|page| - 1], page[|page| - 1];
      PageMembersAsk(hooks, front);
      PairsOfMembers(hooks, last);
      forall p ensures p in PairsOfPage(hooks, page) <==> exists h, e :: h in hooks && e in page && Asks(h, e, p) {
        assert p in PairsOfPage(hooks, page) <==> p in PairsOfPage(hooks, front) || p in PairsOf(hooks, last);
        if h, e :| h in hooks && e in page && Asks(h, e, p) {
          assert e in front || e == last;
        }
      }
    }
  }

  lemma {:induction false} PageOrdered(hooks: seq<Hook>, page: seq<Event>)
    requires Listed(Polled(hooks)) && AscendingSeq(page)
    ensures Ordered(PairsOfPage(hooks, page))
  {
    if page != [] {
      var front, last := page[..|page| - 1], page[|page| - 1];
      PageOrdered(hooks, front);
      PairsOfOrdered(hooks, last);
      PageMembersAsk(hooks, front);
      PairsOfMembers(hooks, last);
      forall p, q | p in PairsOfPage(hooks, front) && q in PairsOf(hooks, last) ensures Before(p, q) {
        var h, e :| h in hooks && e in front && Asks(h, e, p);
        assert e.seqNo < last.seqNo;
      }
      OrderedInTwo(PairsOfPage(hooks, front), PairsOf(hooks, last));
    }
  }

  /** The newest event of a log that keeps any is the last one appended. */
  lemma LatestIsTheLength(appended: seq<Event>, maxKeep: nat)
    requires maxKeep > 0
    ensures Latest(appended, maxKeep) == |appended|
  {
    var kept := Retained(appended, maxKeep);
    if appended != [] {
      assert kept[|kept| - 1].seqNo == |appended|;
    }
  }

  /** What one move adds. */
  lemma StepAdds(s: State, m: Move, maxKeep: nat) returns (added: seq<Pair>)
    requires maxKeep > 0 && Listed(m) && s.cursor <= |s.appended|
    ensures var t := Step(s, m, maxKeep);
      && t.pairs == s.pairs + added && Ordered(added) && s.appended <= t.appended
      && s.cursor <= t.cursor <= |t.appended|
      && forall p :: p in added ==> s.cursor < p.number <= t.cursor
  {
    added := [];
    if m.Polled? {
      LatestIsTheLength(s.appended, maxKeep);
      if m.hooks != [] {
        var page := PageFrom(s.appended, s.cursor, maxKeep);
        PageMembers(Consumer(s.appended, s.cursor, []), PAGE_LIMIT, maxKeep, "");
        PageOrdered(m.hooks, page);
        PageMembersAsk(m.hooks, page);
        added := PairsOfPage(m.hooks, page);
      }
    }
  }

  /** From any state on, a run only dispatches events above the cursor, each pair in its order. */
  lemma {:induction false} RunAdds(s: State, moves: seq<Move>, maxKeep: nat) returns (added: seq<Pair>)
    requires maxKeep > 0 && AllListed(moves) && s.cursor <= |s.appended|
    ensures var t := After(s, moves, maxKeep);
      && t.pairs == s.pairs + added && Ordered(added) && s.appended <= t.appended
      && s.cursor <= t.cursor <= |t.appended|
      && forall p :: p in added ==> s.cursor < p.number <= t.cursor
  {
    added := [];
    if moves != [] {
      var front, last := moves[..|moves| - 1], moves[|moves| - 1];
      var earlier := RunAdds(s, front, maxKeep);
      var later := StepAdds(After(s, front, maxKeep), last, maxKeep);
      OrderedInTwo(earlier, later);
      Assoc(s.pairs, earlier, later);
      added := earlier + later;
    }
  }

  /**
   * However hooks and events come and go: nothing at or below the startup cursor
   * is dispatched, no pair twice, and each hook sees event numbers going up.
   */
  lemma EachPairAtMostOnce(before: seq<Event>, moves: seq<Move>, maxKeep: nat)
    requires maxKeep > 0 && AllListed(moves)
    ensures var pairs := After(Startup(before, maxKeep), moves, maxKeep).pairs;
      && NoDup(pairs)
      && (forall p :: p in pairs ==> p.number > |before|)
      && (forall i, j :: 0 <= i < j < |pairs| && pairs[i].hook == pairs[j].hook ==> pairs[i].number < pairs[j].number)
  {
    LatestIsTheLength(before, maxKeep);
    var added := RunAdds(Startup(before, maxKeep), moves, maxKeep);
    var pairs := After(Startup(before, maxKeep), moves, maxKeep).pairs;
    assert pairs == added;
    forall i, j | 0 <= i < j < |pairs|
      ensures Before(pairs[i], pairs[j])
    {
    }
  }

  // ---------------------------------------------------------------------------
  // What does get through
  // ---------------------------------------------------------------------------

  /** At every tick the hook is registered and no more than maxKeep events were logged since the cursor. */
  ghost predicate Served(h: Hook, s: State, moves: seq<Move>, maxKeep: nat) {
    forall k :: 0 <= k < |moves| && moves[k].Polled? ==> h in moves[k].hooks && KeepsUpWith(s, moves[..k], maxKeep)
  }

  ghost predicate KeepsUpWith(s: State, moves: seq<Move>, maxKeep: nat) {
    var t := After(s, moves, maxKeep);
    |t.appended| <= t.cursor + maxKeep
  }

  /** A hook that is registered throughout gets every matching event the cursor has passed. */
  ghost predicate Complete(h: Hook, from: nat, t: State) {
    forall e :: Due(t.appended, from, t.cursor, "", e) && Matches(h, e.kind) ==> Pair(h.id, e.seqNo) in t.pairs
  }

  lemma TickCompletes(h: Hook, from: nat, t: State, hooks: seq<Hook>, maxKeep: nat)
    requires Complete(h, from, t) && h in hooks && |t.appended| <= t.cursor + maxKeep
    ensures Complete(h, from, Ticked(t, hooks, maxKeep))
  {
    var u := Ticked(t, hooks, maxKeep);
    var page := PageFrom(t.appended, t.cursor, maxKeep);
    PageMembers(Consumer(t.appended, t.cursor, []), PAGE_LIMIT, maxKeep, "");
    PageMembersAsk(hooks, page);
    forall e | Due(t.appended, from, u.cursor, "", e) && Matches(h, e.kind) ensures Pair(h.id, e.seqNo) in u.pairs {
      if e.seqNo <= t.cursor {
        assert Due(t.appended, from, t.cursor, "", e);
      } else {
        assert Due(t.appended, t.cursor, u.cursor, "", e);
        assert e in page && Asks(h, e, Pair(h.id, e.seqNo));
      }
    }
  }

  lemma {:induction false} EveryMatchIsDispatched(h: Hook, before: seq<Event>, moves: seq<Move>, maxKeep: nat)
    requires maxKeep > 0 && AllListed(moves) && Served(h, Startup(before, maxKeep), moves, maxKeep)
    ensures Complete(h, |before|, After(Startup(before, maxKeep), moves, maxKeep))
  {
    var s := Startup(before, maxKeep);
    LatestIsTheLength(before, maxKeep);
    if moves != [] {
      var front, last := moves[..|moves| - 1], moves[|moves| - 1];
      assert forall k :: 0 <= k < |front| ==> front[..k] == moves[..k];
      EveryMatchIsDispatched(h, before, front, maxKeep);
      var t := After(s, front, maxKeep);
      var added := RunAdds(s, front, maxKeep);
      match last
      case Logged(e) =>
        forall d ensures Due(t.appended + [e], |before|, t.cursor, "", d) <==> Due(t.appended, |before|, t.cursor, "", d) {
        }
      case Polled(hooks) =>
        assert KeepsUpWith(s, front, maxKeep);
        TickCompletes(h, |before|, t, hooks, maxKeep);
    }
  }

  ghost predicate AskedFor(m: Move, e: Event, p: Pair) {
    m.Polled? && exists h :: h in m.hooks && Asks(h, e, p)
  }

  ghost predicate EverAskedFor(moves: seq<Move>, appended: seq<Event>, p: Pair) {
    && 0 < p.number <= |appended|
    && exists k :: 0 <= k < |moves| && AskedFor(moves[k], History(appended)[p.number - 1], p)
  }

  lemma StillAskedFor(moves: seq<Move>, m: Move, appended: seq<Event>, more: seq<Event>, p: Pair)
    requires EverAskedFor(moves, appended, p) && appended <= more
    ensures EverAskedFor(moves + [m], more, p)
  {
    var e := History(appended)[p.number - 1];
    var k :| 0 <= k < |moves| && AskedFor(moves[k], e, p);
    assert e == History(more)[p.number - 1];
    assert AskedFor((moves + [m])[k], e, p);
  }

  /** Every dispatched pair was asked for: its hook, registered at some tick, matches its event. */
  lemma {:induction false} EveryPairWasAskedFor(before: seq<Event>, moves: seq<Move>, maxKeep: nat)
    requires maxKeep > 0 && AllListed(moves)
    ensures var t := After(Startup(before, maxKeep), moves, maxKeep);
      forall p :: p in t.pairs ==> EverAskedFor(moves, t.appended, p)
  {
    if moves != [] {
      var s := Startup(before, maxKeep);
      var front, last := moves[..|moves| - 1], moves[|moves| - 1];
      EveryPairWasAskedFor(before, front, maxKeep);
      LatestIsTheLength(before, maxKeep);
      var earlier := RunAdds(s, front, maxKeep);
      var t, u := After(s, front, maxKeep), After(s, moves, maxKeep);
      var added := StepAdds(t, last, maxKeep);
      assert moves == front + [last];
      forall p | p in u.pairs ensures EverAskedFor(moves, u.appended, p) {
        if p in t.pairs {
          StillAskedFor(front, last, t.appended, u.appended, p);
        } else {
          NewPairAskedFor(t, last, maxKeep, p);
          assert AskedFor(moves[|moves| - 1], History(u.appended)[p.number - 1], p);
        }
      }
    }
  }

  lemma NewPairAskedFor(t: State, m: Move, maxKeep: nat, p: Pair)
    requires maxKeep > 0 && t.cursor <= |t.appended|
    requires p in Step(t, m, maxKeep).pairs && p !in t.pairs
    ensures 0 < p.number <= |t.appended| && AskedFor(m, History(t.appended)[p.number - 1], p)
    ensures m.Polled?
  {
    assert m.Polled? && m.hooks != [];
    var page := PageFrom(t.appended, t.cursor, maxKeep);
    PageMembers(Consumer(t.appended, t.cursor, []), PAGE_LIMIT, maxKeep, "");
    PageMembersAsk(m.hooks, page);
    var h, e :| h in m.hooks && e in page && Asks(h, e, p);
    assert Due(t.appended, t.cursor, CursorAfter(t.cursor, page), "", e);
  }
}
