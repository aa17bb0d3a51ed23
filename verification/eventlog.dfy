/**
 * The bounded domain-event log (internal/event/event.go): the in-memory ring,
 * the SQLite table under its count sweep, and the queries of both.
 */
module EventLog {
  import opened Prelude

  /** Seq 0 marks an event that is not in the log yet. */
  datatype Event = Event(seqNo: nat, id: string, kind: string, processID: string, body: string)

  const DEFAULT_LIMIT := 100
  const DEFAULT_MAX_EVENTS := 100_000

  /** The count bound in force when one is asked for. */
  function Bound(maxKeep: int): (n: nat)
    ensures n > 0 && (maxKeep > 0 ==> n == maxKeep) && (maxKeep <= 0 ==> n == 100_000)
  {
    if maxKeep <= 0 then DEFAULT_MAX_EVENTS else maxKeep
  }

  function EffectiveLimit(limit: int): (n: nat)
    ensures n > 0 && (limit > 0 ==> n == limit) && (limit <= 0 ==> n == 100)
  {
    if limit <= 0 then DEFAULT_LIMIT else limit
  }

  /** The empty process id matches every event. */
  predicate About(e: Event, processID: string) {
    processID == "" || e.processID == processID
  }

  /** The events that are about a process and come after a sequence number. */
  function Matching(es: seq<Event>, since: nat, processID: string): seq<Event> {
    if es == [] then []
    else
      var front, last := es[..|es| - 1], es[|es| - 1];
      var before := Matching(front, since, processID);
      if last.seqNo > since && About(last, processID) then before + [last] else before
  }

  function FirstN(es: seq<Event>, n: nat): seq<Event> {
    if |es| <= n then es else es[..n]
  }

  function LastN(es: seq<Event>, n: nat): seq<Event> {
    if |es| <= n then es else es[|es| - n..]
  }

  ghost predicate AscendingSeq(es: seq<Event>) {
    forall i, j :: 0 <= i < j < |es| ==> es[i].seqNo < es[j].seqNo
  }

  // ---------------------------------------------------------------------------
  // Facts about matching
  // ---------------------------------------------------------------------------

  lemma {:induction false} MatchingInTwo(a: seq<Event>, b: seq<Event>, since: nat, processID: string)
    ensures Matching(a + b, since, processID) == Matching(a, since, processID) + Matching(b, since, processID)
  {
    if b == [] {
      assert a + b == a;
      NothingMore(Matching(a, since, processID));
    } else {
      var front, last := b[..|b| - 1], b[|b| - 1];
      MatchingInTwo(a, front, since, processID);
      assert (a + b)[..|a + b| - 1] == a + front;
      Assoc(Matching(a, since, processID), Matching(front, since, processID), [last]);
    }
  }

  // What the answers are, without the functions above.

  /** The earliest events about the process after a number, at most n; any left out come later than all of them. */
  ghost predicate IsEarliest(es: seq<Event>, since: nat, processID: string, n: nat, out: seq<Event>) {
    && |out| <= n && AscendingSeq(out)
    && (forall e :: e in out ==> e in es && e.seqNo > since && (processID == "" || e.processID == processID))
    && forall e :: e in es && e.seqNo > since && (processID == "" || e.processID == processID) && e !in out ==>
         |out| == n && forall o :: o in out ==> o.seqNo < e.seqNo
  }

  /** The newest events about the process, at most n; any left out come before all of them. */
  ghost predicate IsNewest(es: seq<Event>, processID: string, n: nat, out: seq<Event>) {
    && |out| <= n && AscendingSeq(out)
    && (forall e :: e in out ==> e in es && (processID == "" || e.processID == processID))
    && forall e :: e in es && (processID == "" || e.processID == processID) && e !in out ==>
         |out| == n && forall o :: o in out ==> e.seqNo < o.seqNo
  }

  lemma FirstNIsEarliest(es: seq<Event>, since: nat, processID: string, n: nat)
    requires AscendingSeq(es)
    ensures IsEarliest(es, since, processID, n, FirstN(Matching(es, since, processID), n))
  {
    MatchingMembers(es, since, processID);
    MatchingAscends(es, since, processID);
    FirstNSplits(Matching(es, since, processID), n);
  }

  lemma LastNIsNewest(es: seq<Event>, processID: string, n: nat)
    requires AscendingSeq(es) && forall e :: e in es ==> e.seqNo > 0
    ensures IsNewest(es, processID, n, LastN(Matching(es, 0, processID), n))
  {
    MatchingMembers(es, 0, processID);
    MatchingAscends(es, 0, processID);
    LastNSplits(Matching(es, 0, processID), n);
  }

  lemma FirstNSplits(all: seq<Event>, n: nat)
    requires AscendingSeq(all)
    ensures |FirstN(all, n)| <= n && AscendingSeq(FirstN(all, n)) && forall e :: e in FirstN(all, n) ==> e in all
    ensures forall e :: e in all && e !in FirstN(all, n) ==>
      |FirstN(all, n)| == n && forall o :: o in FirstN(all, n) ==> o.seqNo < e.seqNo
  {
    if |all| > n {
      AscendsAcross(all, n);
    }
  }

  lemma LastNSplits(all: seq<Event>, n: nat)
    requires AscendingSeq(all)
    ensures |LastN(all, n)| <= n && AscendingSeq(LastN(all, n)) && forall e :: e in LastN(all, n) ==> e in all
    ensures forall e :: e in all && e !in LastN(all, n) ==>
      |LastN(all, n)| == n && forall o :: o in LastN(all, n) ==> e.seqNo < o.seqNo
  {
    if |all| > n {
      AscendsAcross(all, |all| - n);
    }
  }

  /** Every event before a cut of an ascending sequence comes before every event after it. */
  lemma AscendsAcross(all: seq<Event>, k: nat)
    requires AscendingSeq(all) && k <= |all|
    ensures forall e :: e in all <==> e in all[..k] || e in all[k..]
    ensures forall d, e :: d in all[..k] && e in all[k..] ==> d.seqNo < e.seqNo
  {
    CutInTwo(all, k);
  }

  lemma NothingMore(es: seq<Event>)
    ensures es + [] == es
  {
  }

  lemma MatchingOneMore(es: seq<Event>, i: nat, since: nat, processID: string)
    requires i < |es|
    ensures Matching(es[..i + 1], since, processID) ==
      if es[i].seqNo > since && About(es[i], processID) then Matching(es[..i], since, processID) + [es[i]]
      else Matching(es[..i], since, processID)
  {
    assert es[..i + 1][..i] == es[..i];
  }

  lemma WholePrefix(es: seq<Event>)
    ensures es[..|es|] == es
  {
  }

  lemma CutInTwo(es: seq<Event>, k: nat)
    requires k <= |es|
    ensures es == es[..k] + es[k..]
  {
  }

  /** Once enough of the first events match, they are the page. */
  lemma FullPage(es: seq<Event>, k: nat, since: nat, processID: string, n: nat)
    requires k <= |es| && |Matching(es[..k], since, processID)| == n
    ensures FirstN(Matching(es, since, processID), n) == Matching(es[..k], since, processID)
  {
    CutInTwo(es, k);
    MatchingInTwo(es[..k], es[k..], since, processID);
    FirstOfTwo(Matching(es[..k], since, processID), Matching(es[k..], since, processID));
  }

  lemma FirstOfTwo(a: seq<Event>, b: seq<Event>)
    ensures FirstN(a + b, |a|) == a
  {
  }

  lemma {:induction false} MatchingMembers(es: seq<Event>, since: nat, processID: string)
    ensures forall e :: e in Matching(es, since, processID) <==> e in es && e.seqNo > since && About(e, processID)
  {
    if es != [] {
      var front, last := es[..|es| - 1], es[|es| - 1];
      MatchingMembers(front, since, processID);
      assert forall e :: e in es <==> e in front || e == last;
    }
  }

  lemma {:induction false} MatchingAscends(es: seq<Event>, since: nat, processID: string)
    requires AscendingSeq(es)
    ensures AscendingSeq(Matching(es, since, processID))
  {
    if es != [] {
      var front, last := es[..|es| - 1], es[|es| - 1];
      MatchingAscends(front, since, processID);
      MatchingMembers(front, since, processID);
      AscendsByOne(Matching(front, since, processID), last);
    }
  }

  lemma AscendsByOne(es: seq<Event>, last: Event)
    requires AscendingSeq(es) && forall e :: e in es ==> e.seqNo < last.seqNo
    ensures AscendingSeq(es + [last])
  {
  }

  // ---------------------------------------------------------------------------
  // The in-memory backend
  // ---------------------------------------------------------------------------

  class Bus {
    const maxKeep: nat
    var events: seq<Event>
    var seqCtr: nat
    ghost var appended: seq<Event>   // everything ever appended

    ghost predicate Valid()
      reads this
    {
      maxKeep > 0 && (events, seqCtr) == RingAfter(appended, maxKeep)
    }

    constructor (maxKeep: int)
      ensures Valid() && this.maxKeep == Bound(maxKeep) && appended == []
    {
      this.maxKeep, events, seqCtr, appended := Bound(maxKeep), [], 0, [];
    }

    method Append(e: Event) returns (stored: Event)
      requires Valid()
      modifies this
      ensures Valid() && appended == old(appended) + [e]
      ensures stored == e.(seqNo := |appended|) && events == Retained(appended, maxKeep)
      ensures HoldsNewest(events, appended, maxKeep)
    {
      RingAppend(events, seqCtr, appended, e, maxKeep);
      seqCtr := seqCtr + 1;
      stored := e.(seqNo := seqCtr);
      Keep(events + [stored]);
      appended := appended + [e];
    }

    /** The newest of the events, up to the bound. */
    method Keep(all: seq<Event>)
      modifies this`events
      ensures events == LastN(all, maxKeep)
    {
      events := all;
      if |events| > maxKeep {
        events := events[|events| - maxKeep..];
      }
    }

    method QuerySince(since: nat, processID: string, limit: int) returns (out: seq<Event>)
      requires Valid()
      ensures out == FirstN(Matching(events, since, processID), EffectiveLimit(limit))
      ensures IsEarliest(events, since, processID, if limit <= 0 then 100 else limit, out)
    {
      var lim := if limit <= 0 then DEFAULT_LIMIT else limit;
      RingIsNumbered(appended, maxKeep);
      FirstNIsEarliest(events, since, processID, lim);
      out := FirstMatching(since, processID, lim);
    }

    /** The loop of QuerySince. */
    method FirstMatching(since: nat, processID: string, lim: nat) returns (out: seq<Event>)
      requires lim > 0
      ensures out == FirstN(Matching(events, since, processID), lim)
    {
      out := [];
      var i := 0;
      while i < |events|
        invariant 0 <= i <= |events| && |out| < lim
        invariant out == Matching(events[..i], since, processID)
      {
        var e := events[i];
        MatchingOneMore(events, i, since, processID);
        if e.seqNo > since && (processID == "" || e.processID == processID) {
          out := out + [e];
          if |out| >= lim {
            FullPage(events, i + 1, since, processID, lim);
            return;
          }
        }
        i := i + 1;
      }
      WholePrefix(events);
    }

    method Query(processID: string, limit: int) returns (out: seq<Event>)
      requires Valid()
      ensures out == LastN(Matching(events, 0, processID), EffectiveLimit(limit))
      ensures IsNewest(events, processID, if limit <= 0 then 100 else limit, out)
    {
      RingIsNumbered(appended, maxKeep);
      var lim := if limit <= 0 then DEFAULT_LIMIT else limit;
      LastNIsNewest(events, processID, lim);
      out := MatchingOf(processID);
      if |out| > lim {
        out := out[|out| - lim..];
      }
    }

    /** The loop of Query: every event about the process, numbered events all matching from 0. */
    method MatchingOf(processID: string) returns (out: seq<Event>)
      requires forall e :: e in events ==> e.seqNo > 0
      ensures out == Matching(events, 0, processID)
    {
      out := [];
      var i := 0;
      while i < |events|
        invariant 0 <= i <= |events| && out == Matching(events[..i], 0, processID)
      {
        var e := events[i];
        MatchingOneMore(events, i, 0, processID);
        if processID == "" || e.processID == processID {
          out := out + [e];
        }
        i := i + 1;
      }
      WholePrefix(events);
    }
  }

  // ---------------------------------------------------------------------------
  // The SQLite backend
  // ---------------------------------------------------------------------------

  // The clauses of the statements used, over rows in primary-key order.

  datatype Condition = NotAtMost(bound: nat) | AboutSince(processID: string, since: nat)

  predicate Holds(c: Condition, r: Event) {
    match c
    case NotAtMost(bound) => !(r.seqNo <= bound)
    case AboutSince(processID, since) => (processID == "" || r.processID == processID) && r.seqNo > since
  }

  function Where(rows: seq<Event>, c: Condition): seq<Event> {
    if rows == [] then []
    else Where(rows[..|rows| - 1], c) + if Holds(c, rows[|rows| - 1]) then [rows[|rows| - 1]] else []
  }

  function LimitOffset(rows: seq<Event>, limit: nat, offset: nat): seq<Event> {
    if |rows| <= offset then [] else FirstN(rows[offset..], limit)
  }

  class SqlLog {
    const maxKeep: nat
    var rows: seq<Event>   // the events table in primary-key order
    var sequence: nat      // the AUTOINCREMENT high-water mark
    ghost var appended: seq<Event>   // everything ever accepted

    ghost predicate Valid()
      reads this
    {
      maxKeep > 0 && (rows, sequence) == TableAfter(appended, maxKeep)
    }

    constructor (maxKeep: int)
      ensures Valid() && this.maxKeep == Bound(maxKeep) && appended == []
    {
      this.maxKeep, rows, sequence, appended := Bound(maxKeep), [], 0, [];
    }

    /** INSERT, refused when the id is taken, then the count sweep; the age bound is idle. */
    method Append(e: Event) returns (stored: Option<Event>)
      requires Valid()
      modifies this
      ensures Valid()
      ensures stored.None? <==> exists r :: r in old(rows) && r.id == e.id
      ensures stored.None? ==> rows == old(rows) && sequence == old(sequence) && appended == old(appended)
      ensures stored.Some? ==> appended == old(appended) + [e] && stored.value == e.(seqNo := |appended|)
      ensures stored.Some? ==> rows == Retained(appended, maxKeep) && HoldsNewest(rows, appended, maxKeep)
    {
      if exists r :: r in rows && r.id == e.id {
        return None;
      }
      var row := Insert(e);
      stored := Some(row);
    }

    /** The new row gets the next number of the sequence; then the sweep. */
    method Insert(e: Event) returns (row: Event)
      requires Valid()
      modifies this
      ensures Valid() && appended == old(appended) + [e]
      ensures row == e.(seqNo := |appended|) && rows == Retained(appended, maxKeep)
      ensures HoldsNewest(rows, appended, maxKeep)
    {
      RetainedHoldsNewest(appended + [e], maxKeep);
      ghost var after := TableStep(appended, e, maxKeep);
      sequence := sequence + 1;
      row := e.(seqNo := sequence);
      rows := rows + [row];
      Sweep();
      assert (rows, sequence) == after;
      appended := appended + [e];
    }

    /** DELETE the rows at or below the one that many newest rows come after. */
    method Sweep()
      modifies this`rows
      ensures rows == Swept(old(rows), maxKeep)
    {
      var cut := LimitOffset(Reversed(rows), 1, maxKeep);
      if |cut| > 0 {
        var bound := cut[0].seqNo;
        rows := Where(rows, NotAtMost(bound));
      }
    }

    method QuerySince(since: nat, processID: string, limit: int) returns (out: seq<Event>)
      requires Valid()
      ensures out == FirstN(Matching(rows, since, processID), EffectiveLimit(limit))
      ensures IsEarliest(rows, since, processID, if limit <= 0 then 100 else limit, out)
    {
      var lim := if limit <= 0 then DEFAULT_LIMIT else limit;
      TableIsTheRing(appended, maxKeep);
      RingIsNumbered(appended, maxKeep);
      FirstNIsEarliest(rows, since, processID, lim);
      WhereMatches(rows, since, processID);
      out := FirstN(Where(rows, AboutSince(processID, since)), lim);
    }

    /** The newest rows by a descending scan, put back in ascending order. */
    method Query(processID: string, limit: int) returns (out: seq<Event>)
      requires Valid()
      ensures out == LastN(Matching(rows, 0, processID), EffectiveLimit(limit))
      ensures IsNewest(rows, processID, if limit <= 0 then 100 else limit, out)
    {
      var lim := if limit <= 0 then DEFAULT_LIMIT else limit;
      TableIsTheRing(appended, maxKeep);
      RingIsNumbered(appended, maxKeep);
      LastNIsNewest(rows, processID, lim);
      WhereMatches(rows, 0, processID);
      NewestByDescent(Matching(rows, 0, processID), lim);
      var newest := FirstN(Reversed(Where(rows, AboutSince(processID, 0))), lim);
      out := Reversed(newest);
    }
  }

  lemma NewestByDescent(es: seq<Event>, n: nat)
    ensures Reversed(FirstN(Reversed(es), n)) == LastN(es, n)
  {
    var first := FirstN(Reversed(es), n);
    forall i | 0 <= i < |first| ensures Reversed(first)[i] == LastN(es, n)[i] {
      assert first[|first| - 1 - i] == Reversed(es)[|first| - 1 - i];
    }
  }

  /** The sweep statement. */
  function Swept(rows: seq<Event>, maxKeep: nat): seq<Event> {
    var cut := LimitOffset(Reversed(rows), 1, maxKeep);
    if |cut| == 0 then rows else Where(rows, NotAtMost(cut[0].seqNo))
  }

  lemma {:induction false} WhereMatches(rows: seq<Event>, since: nat, processID: string)
    ensures Where(rows, AboutSince(processID, since))
         == Matching(rows, since, processID)
  {
    if rows != [] {
      WhereMatches(rows[..|rows| - 1], since, processID);
    }
  }

  /** In ascending rows, those above the row at a position are the ones after it. */
  lemma {:induction false} WhereAbove(rows: seq<Event>, k: nat, bound: nat)
    requires AscendingSeq(rows) && k < |rows| && rows[k].seqNo == bound
    ensures Where(rows, NotAtMost(bound)) == rows[k + 1..]
  {
    var front := rows[..|rows| - 1];
    if k < |front| {
      WhereAbove(front, k, bound);
      assert rows[k + 1..] == front[k + 1..] + [rows[|rows| - 1]];
    } else {
      NoneAbove(front, bound);
    }
  }

  lemma {:induction false} NoneAbove(rows: seq<Event>, bound: nat)
    requires forall e :: e in rows ==> e.seqNo <= bound
    ensures Where(rows, NotAtMost(bound)) == []
  {
    if rows != [] {
      NoneAbove(rows[..|rows| - 1], bound);
    }
  }

  /** The sweep statement keeps exactly the newest maxKeep rows. */
  lemma SweepKeepsNewest(rows: seq<Event>, maxKeep: nat)
    requires AscendingSeq(rows)
    ensures Swept(rows, maxKeep) == LastN(rows, maxKeep) && AscendingSeq(Swept(rows, maxKeep))
  {
    if |rows| > maxKeep {
      var k := |rows| - 1 - maxKeep;
      assert LimitOffset(Reversed(rows), 1, maxKeep)[0] == rows[k];
      WhereAbove(rows, k, rows[k].seqNo);
    }
  }

  // ---------------------------------------------------------------------------
  // The two backends side by side
  // ---------------------------------------------------------------------------

  /** Everything ever appended, numbered from 1. */
  ghost function History(appended: seq<Event>): (h: seq<Event>)
    ensures |h| == |appended| && forall i :: 0 <= i < |h| ==> h[i] == appended[i].(seqNo := i + 1)
    ensures AscendingSeq(h)
  {
    seq(|appended|, i requires 0 <= i < |appended| => appended[i].(seqNo := i + 1))
  }

  /** The ring's content and counter after a sequence of Appends. */
  ghost function RingAfter(appended: seq<Event>, maxKeep: nat): (seq<Event>, nat) {
    if appended == [] then ([], 0)
    else
      var (events, ctr) := RingAfter(appended[..|appended| - 1], maxKeep);
      (LastN(events + [appended[|appended| - 1].(seqNo := ctr + 1)], maxKeep), ctr + 1)
  }

  /** The table's rows and sequence after a sequence of Appends with unused ids. */
  ghost function TableAfter(appended: seq<Event>, maxKeep: nat): (seq<Event>, nat) {
    if appended == [] then ([], 0)
    else
      var (rows, sequence) := TableAfter(appended[..|appended| - 1], maxKeep);
      (Swept(rows + [appended[|appended| - 1].(seqNo := sequence + 1)], maxKeep), sequence + 1)
  }

  lemma LastNOfMore(h: seq<Event>, e: Event, n: nat)
    requires n > 0
    ensures LastN(LastN(h, n) + [e], n) == LastN(h + [e], n)
  {
  }

  /** The ring always holds the newest maxKeep events of everything appended. */
  lemma {:induction false} RingIsTheNewest(appended: seq<Event>, maxKeep: nat)
    requires maxKeep > 0
    ensures RingAfter(appended, maxKeep) == (LastN(History(appended), maxKeep), |appended|)
  {
    if appended == [] {
      assert History(appended) == [];
    } else {
      var front, last := appended[..|appended| - 1], appended[|appended| - 1];
      RingIsTheNewest(front, maxKeep);
      HistoryOneMore(appended);
      LastNOfMore(History(front), last.(seqNo := |appended|), maxKeep);
    }
  }

  lemma HistoryOneMore(appended: seq<Event>)
    requires appended != []
    ensures History(appended) ==
      History(appended[..|appended| - 1]) + [appended[|appended| - 1].(seqNo := |appended|)]
  {
  }

  /** So does the table under its count sweep: the backends hold the same events. */
  lemma {:induction false} TableIsTheRing(appended: seq<Event>, maxKeep: nat)
    requires maxKeep > 0
    ensures TableAfter(appended, maxKeep) == RingAfter(appended, maxKeep)
  {
    if appended != [] {
      var front, last := appended[..|appended| - 1], appended[|appended| - 1];
      TableIsTheRing(front, maxKeep);
      RingIsTheNewest(front, maxKeep);
      OneMoreRow(front, last.(seqNo := |appended|), maxKeep);
      SweepKeepsNewest(RingAfter(front, maxKeep).0 + [last.(seqNo := |appended|)], maxKeep);
    }
  }

  /** The last maxKeep of the events appended, or all of them, each with its place as its number. */
  ghost predicate HoldsNewest(es: seq<Event>, appended: seq<Event>, maxKeep: nat) {
    && |es| == (if |appended| < maxKeep then |appended| else maxKeep)
    && forall i :: 0 <= i < |es| ==>
         es[i] == appended[|appended| - |es| + i].(seqNo := |appended| - |es| + i + 1)
  }

  lemma RetainedHoldsNewest(appended: seq<Event>, maxKeep: nat)
    ensures HoldsNewest(Retained(appended, maxKeep), appended, maxKeep)
  {
  }

  lemma RingIsNumbered(appended: seq<Event>, maxKeep: nat)
    requires maxKeep > 0
    ensures AscendingSeq(RingAfter(appended, maxKeep).0)
    ensures forall e :: e in RingAfter(appended, maxKeep).0 ==> e.seqNo > 0
  {
    RingIsTheNewest(appended, maxKeep);
  }

  lemma RingStep(appended: seq<Event>, e: Event, maxKeep: nat) returns (after: (seq<Event>, nat))
    requires maxKeep > 0
    ensures after == RingAfter(appended + [e], maxKeep) == (Retained(appended + [e], maxKeep), |appended| + 1)
    ensures var (events, ctr) := RingAfter(appended, maxKeep);
      ctr == |appended| && after == (LastN(events + [e.(seqNo := ctr + 1)], maxKeep), ctr + 1)
  {
    assert (appended + [e])[..|appended|] == appended;
    RingIsTheNewest(appended, maxKeep);
    RingIsTheNewest(appended + [e], maxKeep);
    after := RingAfter(appended + [e], maxKeep);
  }

  lemma RingAppend(events: seq<Event>, seqCtr: nat, appended: seq<Event>, e: Event, maxKeep: nat)
    requires maxKeep > 0 && (events, seqCtr) == RingAfter(appended, maxKeep)
    ensures var kept := LastN(events + [e.(seqNo := seqCtr + 1)], maxKeep);
      && seqCtr == |appended| && RingAfter(appended + [e], maxKeep) == (kept, seqCtr + 1)
      && kept == Retained(appended + [e], maxKeep) && HoldsNewest(kept, appended + [e], maxKeep)
  {
    var after := RingStep(appended, e, maxKeep);
    RetainedHoldsNewest(appended + [e], maxKeep);
  }

  lemma TableStep(appended: seq<Event>, e: Event, maxKeep: nat) returns (after: (seq<Event>, nat))
    requires maxKeep > 0
    ensures after == TableAfter(appended + [e], maxKeep) == (Retained(appended + [e], maxKeep), |appended| + 1)
    ensures var (rows, sequence) := TableAfter(appended, maxKeep);
      sequence == |appended| && after == (Swept(rows + [e.(seqNo := sequence + 1)], maxKeep), sequence + 1)
  {
    assert (appended + [e])[..|appended|] == appended;
    TableIsTheRing(appended, maxKeep);
    TableIsTheRing(appended + [e], maxKeep);
    RingIsTheNewest(appended, maxKeep);
    RingIsTheNewest(appended + [e], maxKeep);
    after := TableAfter(appended + [e], maxKeep);
  }

  lemma OneMoreRow(appended: seq<Event>, e: Event, maxKeep: nat)
    requires e.seqNo == |appended| + 1
    ensures AscendingSeq(LastN(History(appended), maxKeep) + [e])
  {
  }

  /** Both backends therefore answer every query with the same list. */
  lemma SameAnswers(appended: seq<Event>, maxKeep: nat, since: nat, processID: string, limit: int)
    requires maxKeep > 0
    ensures var ring, table := RingAfter(appended, maxKeep).0, TableAfter(appended, maxKeep).0;
      && FirstN(Matching(ring, since, processID), EffectiveLimit(limit))
           == FirstN(Matching(table, since, processID), EffectiveLimit(limit))
      && LastN(Matching(ring, 0, processID), EffectiveLimit(limit))
           == LastN(Matching(table, 0, processID), EffectiveLimit(limit))
  {
    TableIsTheRing(appended, maxKeep);
  }

  // ---------------------------------------------------------------------------
  // A consumer that resumes from the last sequence number it saw
  // ---------------------------------------------------------------------------

  datatype Op = Append(e: Event) | Page(limit: int)

  datatype Consumer = Consumer(appended: seq<Event>, cursor: nat, delivered: seq<Event>)

  ghost function Retained(appended: seq<Event>, maxKeep: nat): seq<Event> {
    LastN(History(appended), maxKeep)
  }

  /** The first sequence number still in the log is one above this. */
  ghost function Evicted(appended: seq<Event>, maxKeep: nat): nat {
    if |appended| <= maxKeep then 0 else |appended| - maxKeep
  }

  ghost function PageOf(c: Consumer, maxKeep: nat, processID: string, limit: int): seq<Event> {
    FirstN(Matching(Retained(c.appended, maxKeep), c.cursor, processID), EffectiveLimit(limit))
  }

  ghost function CursorAfter(cursor: nat, page: seq<Event>): nat {
    if page == [] then cursor else page[|page| - 1].seqNo
  }

  /** The matching events with sequence numbers above from, up to and including to. */
  ghost function Between(h: seq<Event>, from: nat, to: nat, processID: string): seq<Event> {
    if from < to <= |h| then Matching(h[from..to], 0, processID) else []
  }

  ghost function Min(a: nat, b: nat): nat {
    if a < b then a else b
  }

  ghost function Consumed(c: Consumer, op: Op, maxKeep: nat, processID: string): Consumer {
    match op
    case Append(e) => c.(appended := c.appended + [e])
    case Page(limit) =>
      var page := PageOf(c, maxKeep, processID, limit);
      Consumer(c.appended, CursorAfter(c.cursor, page), c.delivered + page)
  }

  ghost function Run(start: nat, ops: seq<Op>, maxKeep: nat, processID: string): Consumer {
    if ops == [] then Consumer([], start, [])
    else Consumed(Run(start, ops[..|ops| - 1], maxKeep, processID), ops[|ops| - 1], maxKeep, processID)
  }

  /** Some page moved the cursor past a number that had been evicted before that page was taken. */
  ghost predicate Skipped(start: nat, ops: seq<Op>, maxKeep: nat, processID: string, number: nat) {
    ops != [] && (Skipped(start, ops[..|ops| - 1], maxKeep, processID, number) ||
    SkippedLast(start, ops, maxKeep, processID, number))
  }

  ghost predicate SkippedLast(start: nat, ops: seq<Op>, maxKeep: nat, processID: string, number: nat)
    requires ops != []
  {
    var c := Run(start, ops[..|ops| - 1], maxKeep, processID);
    c.cursor < number <= Min(Run(start, ops, maxKeep, processID).cursor, Evicted(c.appended, maxKeep))
  }

  /** Every page was taken with no more than maxKeep events appended since the cursor. */
  ghost predicate KeepsUp(start: nat, ops: seq<Op>, maxKeep: nat, processID: string) {
    forall k :: 0 <= k < |ops| && ops[k].Page? ==> Lag(start, ops[..k], maxKeep, processID) <= maxKeep
  }

  ghost function Lag(start: nat, ops: seq<Op>, maxKeep: nat, processID: string): int {
    var c := Run(start, ops, maxKeep, processID);
    |c.appended| - c.cursor
  }

  ghost predicate Numbered(h: seq<Event>) {
    forall i :: 0 <= i < |h| ==> h[i].seqNo == i + 1
  }

  lemma OneMoreBetween(h: seq<Event>, from: nat, to: nat, processID: string)
    requires Numbered(h) && from < to <= |h|
    ensures Between(h, from, to, processID) ==
      if About(h[to - 1], processID) then Between(h, from, to - 1, processID) + [h[to - 1]]
      else Between(h, from, to - 1, processID)
  {
    assert h[from..to][..to - from - 1] == h[from..to - 1];
  }

  lemma SameBetween(h: seq<Event>, g: seq<Event>, from: nat, to: nat, processID: string)
    requires to <= |h| && to <= |g| && h[..to] == g[..to]
    ensures Between(h, from, to, processID) == Between(g, from, to, processID)
  {
    if from < to {
      assert h[from..to] == h[..to][from..] && g[from..to] == g[..to][from..];
    }
  }

  /** In the numbered history, a number above a bound is a position at or after it. */
  lemma {:induction false} MatchingFrom(h: seq<Event>, from: nat, processID: string)
    requires Numbered(h)
    ensures Matching(h, from, processID) == Between(h, from, |h|, processID)
  {
    if h != [] {
      var front := h[..|h| - 1];
      MatchingFrom(front, from, processID);
      SameBetween(h, front, from, |front|, processID);
      if from < |h| {
        OneMoreBetween(h, from, |h|, processID);
      }
    }
  }

  lemma {:induction false} NoneMatch(es: seq<Event>, since: nat, processID: string)
    requires forall i :: 0 <= i < |es| ==> es[i].seqNo <= since
    ensures Matching(es, since, processID) == []
  {
    if es != [] {
      NoneMatch(es[..|es| - 1], since, processID);
    }
  }

  /** Two adjacent stretches of the history. */
  lemma BetweenInTwo(h: seq<Event>, a: nat, b: nat, c: nat, processID: string)
    requires a <= b <= c <= |h|
    ensures Between(h, a, c, processID) == Between(h, a, b, processID) + Between(h, b, c, processID)
  {
    if a < c {
      assert h[a..c] == h[a..b] + h[b..c];
      MatchingInTwo(h[a..b], h[b..c], 0, processID);
      assert a == b ==> h[a..b] == [];
      assert b == c ==> h[b..c] == [];
    }
  }

  /** What the log still holds above a cursor is the history above both the cursor and the evicted part. */
  lemma RetainedAbove(appended: seq<Event>, maxKeep: nat, cursor: nat, processID: string)
    ensures var lo := if cursor < Evicted(appended, maxKeep) then Evicted(appended, maxKeep) else cursor;
      Matching(Retained(appended, maxKeep), cursor, processID) == Between(History(appended), lo, |appended|, processID)
  {
    var h, gone := History(appended), Evicted(appended, maxKeep);
    assert Retained(appended, maxKeep) == h[gone..];
    if cursor < gone {
      MatchingAllAbove(h[gone..], cursor, gone, processID);
      MatchingFrom(h, gone, processID);
      MatchingDrop(h, gone, gone, processID);
    } else {
      MatchingDrop(h, gone, cursor, processID);
      MatchingFrom(h, cursor, processID);
    }
  }

  lemma {:induction false} MatchingAllAbove(es: seq<Event>, a: nat, b: nat, processID: string)
    requires forall i :: 0 <= i < |es| ==> es[i].seqNo > a && es[i].seqNo > b
    ensures Matching(es, a, processID) == Matching(es, b, processID)
  {
    if es != [] {
      MatchingAllAbove(es[..|es| - 1], a, b, processID);
    }
  }

  lemma MatchingDrop(es: seq<Event>, k: nat, since: nat, processID: string)
    requires k <= |es| && forall i :: 0 <= i < k ==> es[i].seqNo <= since
    ensures Matching(es[k..], since, processID) == Matching(es, since, processID)
  {
    assert es == es[..k] + es[k..];
    MatchingInTwo(es[..k], es[k..], since, processID);
    NoneMatch(es[..k], since, processID);
  }

  lemma FirstOfMore(fewer: seq<Event>, e: Event, n: nat)
    ensures FirstN(fewer + [e], n) == if |fewer| < n then fewer + [e] else FirstN(fewer, n)
    ensures |fewer| < n ==> FirstN(fewer, n) == fewer
  {
  }

  /** The first n matches of a history are all its matches up to the last of them. */
  lemma {:induction false} FirstMatches(h: seq<Event>, from: nat, to: nat, processID: string, n: nat) returns (last: nat)
    requires n > 0 && from <= to <= |h| && Numbered(h)
    ensures from <= last <= to
    ensures FirstN(Between(h, from, to, processID), n) == Between(h, from, last, processID)
    ensures last == CursorAfter(from, Between(h, from, last, processID))
  {
    if from == to {
      last := from;
    } else {
      last := FirstMatches(h, from, to - 1, processID, n);
      var fewer := Between(h, from, to - 1, processID);
      OneMoreBetween(h, from, to, processID);
      if About(h[to - 1], processID) {
        FirstOfMore(fewer, h[to - 1], n);
        last := if |fewer| < n then to else last;
      }
    }
  }

  lemma InStretch(h: seq<Event>, from: nat, to: nat, e: Event)
    requires Numbered(h) && from <= to <= |h|
    ensures e in h[from..to] <==> from < e.seqNo <= to && e == h[e.seqNo - 1]
  {
    if e in h[from..to] {
      var i :| 0 <= i < to - from && h[from..to][i] == e;
      assert h[from + i].seqNo == from + i + 1;
    }
    if from < e.seqNo <= to && e == h[e.seqNo - 1] {
      assert h[from..to][e.seqNo - 1 - from] == e;
    }
  }

  /** Which events a stretch of the history holds. */
  lemma BetweenMembers(h: seq<Event>, from: nat, to: nat, processID: string)
    requires Numbered(h) && (from < to ==> to <= |h|)
    ensures AscendingSeq(Between(h, from, to, processID))
    ensures forall e ::
      e in Between(h, from, to, processID) <==> from < e.seqNo <= to && e == h[e.seqNo - 1] && About(e, processID)
  {
    if from < to {
      StretchAscends(h, from, to);
      MatchingMembers(h[from..to], 0, processID);
      MatchingAscends(h[from..to], 0, processID);
      forall e ensures e in h[from..to] <==> from < e.seqNo <= to && e == h[e.seqNo - 1] {
        InStretch(h, from, to, e);
      }
    }
  }

  lemma StretchAscends(h: seq<Event>, from: nat, to: nat)
    requires Numbered(h) && from <= to <= |h|
    ensures AscendingSeq(h[from..to])
  {
    forall i, j | 0 <= i < j < to - from ensures h[from..to][i].seqNo < h[from..to][j].seqNo {
      assert h[from + i].seqNo == from + i + 1 && h[from + j].seqNo == from + j + 1;
    }
  }

  /** One page: the matching history from the cursor, or from the evicted part, to the new cursor. */
  lemma PageIsAStretch(c: Consumer, maxKeep: nat, processID: string, limit: int)
    ensures var page := PageOf(c, maxKeep, processID, limit);
      var lo := if c.cursor < Evicted(c.appended, maxKeep) then Evicted(c.appended, maxKeep) else c.cursor;
      var cursor := CursorAfter(c.cursor, page);
      && page == Between(History(c.appended), lo, cursor, processID)
      && c.cursor <= cursor && (cursor == c.cursor || lo < cursor <= |c.appended|)
  {
    var lo := if c.cursor < Evicted(c.appended, maxKeep) then Evicted(c.appended, maxKeep) else c.cursor;
    RetainedAbove(c.appended, maxKeep, c.cursor, processID);
    if lo <= |c.appended| {
      var last := FirstMatches(History(c.appended), lo, |c.appended|, processID, EffectiveLimit(limit));
    }
  }

  /** What every run keeps between the history, the cursor and what was delivered. */
  ghost predicate Accounted(c: Consumer, start: nat, skipped: iset<nat>, processID: string) {
    && start <= c.cursor && (c.cursor == start || c.cursor <= |c.appended|)
    && AscendingSeq(c.delivered)
    && (forall number :: number in skipped ==> number <= c.cursor)
    && (forall e :: e in c.delivered <==> Due(c.appended, start, c.cursor, processID, e) && e.seqNo !in skipped)
  }

  /** The matching events above the start that the cursor has passed. */
  ghost predicate Due(appended: seq<Event>, start: nat, cursor: nat, processID: string, e: Event) {
    && start < e.seqNo <= cursor && e.seqNo <= |appended|
    && e == History(appended)[e.seqNo - 1] && About(e, processID)
  }

  ghost function SkippedBy(start: nat, ops: seq<Op>, maxKeep: nat, processID: string): iset<nat> {
    iset number: nat | Skipped(start, ops, maxKeep, processID, number)
  }

  lemma AppendAccounts(c: Consumer, e: Event, start: nat, skipped: iset<nat>, processID: string)
    requires Accounted(c, start, skipped, processID)
    ensures Accounted(c.(appended := c.appended + [e]), start, skipped, processID)
  {
    var more := c.appended + [e];
    forall d ensures Due(more, start, c.cursor, processID, d) <==> Due(c.appended, start, c.cursor, processID, d) {
    }
  }

  lemma PageAccounts(c: Consumer, page: seq<Event>, cursor: nat, gone: nat, start: nat,
                     skipped: iset<nat>, also: iset<nat>, processID: string)
    requires Accounted(c, start, skipped, processID)
    requires c.cursor <= cursor && (cursor == c.cursor || cursor <= |c.appended|)
    requires AscendingSeq(page)
    requires forall e :: e in page <==> Due(c.appended, c.cursor, cursor, processID, e) && e.seqNo > gone
    requires forall number :: number in also <==> number in skipped || c.cursor < number <= Min(cursor, gone)
    ensures Accounted(Consumer(c.appended, cursor, c.delivered + page), start, also, processID)
  {
    var all := c.delivered + page;
    forall e ensures e in all <==> Due(c.appended, start, cursor, processID, e) && e.seqNo !in also {
      assert e in all <==> e in c.delivered || e in page;
    }
    forall i, j | 0 <= i < j < |all| ensures all[i].seqNo < all[j].seqNo {
      assert i < |c.delivered| ==> all[i] in c.delivered;
      assert j >= |c.delivered| ==> all[j] in page;
    }
  }

  /** Which events a page holds: the due ones that are still in the log. */
  lemma PageMembers(c: Consumer, limit: int, maxKeep: nat, processID: string)
    ensures var page := PageOf(c, maxKeep, processID, limit);
      var cursor := CursorAfter(c.cursor, page);
      && c.cursor <= cursor && (cursor == c.cursor || cursor <= |c.appended|) && AscendingSeq(page)
      && forall e ::
           e in page <==>
           Due(c.appended, c.cursor, cursor, processID, e) && e.seqNo > Evicted(c.appended, maxKeep)
  {
    var page, gone := PageOf(c, maxKeep, processID, limit), Evicted(c.appended, maxKeep);
    PageIsAStretch(c, maxKeep, processID, limit);
    StretchIsDue(c, page, if c.cursor < gone then gone else c.cursor, CursorAfter(c.cursor, page), gone, processID);
  }

  lemma StretchIsDue(c: Consumer, page: seq<Event>, lo: nat, cursor: nat, gone: nat, processID: string)
    requires lo == (if c.cursor < gone then gone else c.cursor)
    requires page == Between(History(c.appended), lo, cursor, processID)
    requires cursor == c.cursor || cursor <= |c.appended|
    ensures AscendingSeq(page)
    ensures forall e :: e in page <==> Due(c.appended, c.cursor, cursor, processID, e) && e.seqNo > gone
  {
    var h := History(c.appended);
    BetweenMembers(h, lo, cursor, processID);
    forall e: Event
      ensures lo < e.seqNo <= cursor && e == h[e.seqNo - 1] && About(e, processID)
         <==> Due(c.appended, c.cursor, cursor, processID, e) && e.seqNo > gone
    {
    }
  }

  /** A page delivers what is due, except what was evicted first. */
  lemma PageStepAccounts(c: Consumer, limit: int, maxKeep: nat, start: nat,
                         skipped: iset<nat>, also: iset<nat>, processID: string)
    requires Accounted(c, start, skipped, processID)
    requires var cursor := Consumed(c, Page(limit), maxKeep, processID).cursor;
      forall number ::
        number in also <==> number in skipped || c.cursor < number <= Min(cursor, Evicted(c.appended, maxKeep))
    ensures Accounted(Consumed(c, Page(limit), maxKeep, processID), start, also, processID)
  {
    var page := PageOf(c, maxKeep, processID, limit);
    PageMembers(c, limit, maxKeep, processID);
    PageAccounts(c, page, CursorAfter(c.cursor, page), Evicted(c.appended, maxKeep), start, skipped, also, processID);
  }

  lemma {:induction false} EveryRunAccounts(start: nat, ops: seq<Op>, maxKeep: nat, processID: string)
    ensures Accounted(Run(start, ops, maxKeep, processID), start, SkippedBy(start, ops, maxKeep, processID), processID)
  {
    var now := SkippedBy(start, ops, maxKeep, processID);
    if ops != [] {
      var front, last := ops[..|ops| - 1], ops[|ops| - 1];
      EveryRunAccounts(start, front, maxKeep, processID);
      var c, before := Run(start, front, maxKeep, processID), SkippedBy(start, front, maxKeep, processID);
      match last
      case Append(e) =>
        assert now == before;
        AppendAccounts(c, e, start, before, processID);
      case Page(limit) =>
        PageStepAccounts(c, limit, maxKeep, start, before, now, processID);
    }
  }

  /**
   * Delivered events ascend, so none comes twice; and of the matching events the
   * cursor has passed, exactly those not evicted before their page are delivered.
   */
  lemma ExactlyOnceUnlessEvicted(start: nat, ops: seq<Op>, maxKeep: nat, processID: string)
    ensures var c := Run(start, ops, maxKeep, processID);
      && AscendingSeq(c.delivered)
      && forall e ::
           e in c.delivered <==>
           Due(c.appended, start, c.cursor, processID, e) && !Skipped(start, ops, maxKeep, processID, e.seqNo)
  {
    EveryRunAccounts(start, ops, maxKeep, processID);
  }

  /** A consumer that never lags by more than maxKeep appends is given every matching event, in order. */
  lemma {:induction false} NothingMissedWithoutLag(start: nat, ops: seq<Op>, maxKeep: nat, processID: string)
    requires KeepsUp(start, ops, maxKeep, processID)
    ensures var c := Run(start, ops, maxKeep, processID);
      && start <= c.cursor && (c.cursor == start || c.cursor <= |c.appended|)
      && c.delivered == Between(History(c.appended), start, c.cursor, processID)
  {
    if ops != [] {
      var front, last := ops[..|ops| - 1], ops[|ops| - 1];
      assert forall k :: 0 <= k < |front| ==> front[..k] == ops[..k];
      assert KeepsUp(start, front, maxKeep, processID);
      NothingMissedWithoutLag(start, front, maxKeep, processID);
      var c := Run(start, front, maxKeep, processID);
      match last
      case Append(e) =>
        var h := History(c.appended);
        assert History(c.appended + [e])[..|h|] == h;
        if c.cursor <= |h| {
          SameBetween(h, History(c.appended + [e]), start, c.cursor, processID);
        }
      case Page(limit) =>
        assert Lag(start, front, maxKeep, processID) <= maxKeep;
        PageIsAStretch(c, maxKeep, processID, limit);
        var cursor := Run(start, ops, maxKeep, processID).cursor;
        if c.cursor < cursor {
          BetweenInTwo(History(c.appended), start, c.cursor, cursor, processID);
        }
    }
  }
}
