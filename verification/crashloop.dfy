/** The supervision tick over all process ids (CrashLoop in internal/supervise/loop.go). */
module CrashLoop {
  import opened Prelude
  import opened Supervise

  /** What the caller's hooks see of a step; a counter reset is internal. */
  ghost function Visible(a: Action): Action {
    if a == ResetCount then Quiet else a
  }

  class Supervisor {
    const ids: seq<string>
    const policy: Policy
    var counters: map<string, RestartCounter>
    var nextAttempt: map<string, int>
    var exhausted: map<string, bool>

    /** Each id has its own counter object, working with the loop's policy. */
    ghost predicate Valid()
      reads this
    {
      && (forall id :: id in counters ==> counters[id].policy == policy.(stableWindow := Window(policy)))
      && (forall a, b :: a in counters && b in counters && a != b ==> counters[a] != counters[b])
    }

    ghost function StateOf(id: string): IdState
      reads this, counters.Values
    {
      IdState(
        if id in counters then counters[id].Value() else Fresh,
        if id in nextAttempt then Some(nextAttempt[id]) else None,
        id in exhausted && exhausted[id])
    }

    constructor (ids: seq<string>, policy: Policy)
      ensures this.ids == ids && this.policy == policy && Valid() && counters == map[]
      ensures forall id :: StateOf(id) == FreshId
    {
      this.ids, this.policy := ids, policy;
      counters, nextAttempt, exhausted := map[], map[], map[];
    }

    /** The id's counter, made on first use. */
    method CounterOf(id: string) returns (c: RestartCounter)
      requires Valid()
      modifies this`counters
      ensures Valid() && id in counters && counters[id] == c
      ensures fresh(counters.Values - old(counters.Values))
      ensures forall other :: StateOf(other) == old(StateOf(other))
    {
      if id in counters {
        return counters[id];
      }
      c := new RestartCounter(policy);
      counters := counters[id := c];
    }

    /** One id's part of a tick, its counter at hand. */
    method Process(id: string, c: RestartCounter, a: Answer) returns (action: Action)
      requires Valid() && id in counters && counters[id] == c
      modifies this`nextAttempt, this`exhausted, c
      ensures Valid()
      ensures StateOf(id) == Step(policy, old(StateOf(id)), a)
      ensures forall other :: other != id ==> StateOf(other) == old(StateOf(other))
      ensures action == Visible(ActionOf(policy, old(StateOf(id)), a))
    {
      if !a.failed && a.running && a.healthy {
        c.ObserveHealthy(a.now);
        if c.count == 0 {
          exhausted := exhausted[id := false];
        }
        return Quiet;
      }
      if !a.desiredRunning {
        return Quiet;
      }
      action := Sickly(id, c, a);
    }

    /** A sick id: report an exhausted budget once, wait for the deadline, or restart. */
    method Sickly(id: string, c: RestartCounter, a: Answer) returns (action: Action)
      requires Valid() && id in counters && counters[id] == c && Sick(a)
      modifies this`nextAttempt, this`exhausted, c
      ensures Valid()
      ensures StateOf(id) == Step(policy, old(StateOf(id)), a)
      ensures forall other :: other != id ==> StateOf(other) == old(StateOf(other))
      ensures action == Visible(ActionOf(policy, old(StateOf(id)), a))
    {
      c.ObserveUnhealthy(a.now);
      if !ShouldRestart(c.policy, c.count) {
        if !(id in exhausted && exhausted[id]) {
          exhausted := exhausted[id := true];
          return ReportExhausted;
        }
        return Quiet;
      }
      if id in nextAttempt && a.now < nextAttempt[id] {
        return Quiet;
      }
      c.RecordRestart();
      var wait := NextBackoff(policy, c.count, a.roll);
      nextAttempt := nextAttempt[id := a.now + wait];
      action := Restart;
    }

    method Observe(id: string, a: Answer) returns (action: Action)
      requires Valid()
      modifies this, counters.Values
      ensures Valid() && fresh(counters.Values - old(counters.Values))
      ensures StateOf(id) == Step(policy, old(StateOf(id)), a)
      ensures forall other :: other != id ==> StateOf(other) == old(StateOf(other))
      ensures action == Visible(ActionOf(policy, old(StateOf(id)), a))
    {
      var c := CounterOf(id);
      assert c in counters.Values;
      action := Process(id, c, a);
    }

    /** Every id is where the first k answers of a tick take it from where it started. */
    ghost predicate Reached(start: imap<string, IdState>, answers: seq<Answer>, k: nat)
      requires k <= |ids| == |answers| && forall id :: id in start
      reads this, counters.Values
    {
      forall id :: StateOf(id) == Told(policy, start[id], ids, answers, k, id)
    }

    method ObserveNext(answers: seq<Answer>, k: nat, ghost start: imap<string, IdState>) returns (action: Action)
      requires Valid() && k < |ids| == |answers| && (forall id :: id in start) && Reached(start, answers, k)
      modifies this, counters.Values
      ensures Valid() && fresh(counters.Values - old(counters.Values))
      ensures Reached(start, answers, k + 1)
      ensures ActsOn(policy, start[ids[k]], ids, answers, k, action)
    {
      action := Observe(ids[k], answers[k]);
      forall id {
        ToldOneMore(policy, start[id], ids, answers, k, id);
      }
    }

    /** One tick: every id in turn, with the answers the environment gave; start is where each id is. */
    method Tick(answers: seq<Answer>, ghost start: imap<string, IdState>) returns (actions: seq<Action>)
      requires Valid() && |answers| == |ids|
      requires forall id :: id in start && start[id] == StateOf(id)
      modifies this, counters.Values
      ensures Valid() && fresh(counters.Values - old(counters.Values))
      ensures Reached(start, answers, |ids|)
      ensures |actions| == |ids|
      ensures forall k :: 0 <= k < |ids| ==> ActsOn(policy, start[ids[k]], ids, answers, k, actions[k])
    {
      actions := [];
      var k := 0;
      while k < |ids|
        invariant 0 <= k <= |ids| == |answers| && |actions| == k
        invariant Valid() && fresh(counters.Values - old(counters.Values)) && Reached(start, answers, k)
        invariant forall j :: 0 <= j < k ==> ActsOn(policy, start[ids[j]], ids, answers, j, actions[j])
      {
        var action := ObserveNext(answers, k, start);
        actions := actions + [action];
        k := k + 1;
      }
    }
  }

  /** What the hooks see of answer k of a tick, given the state its id started the tick in. */
  ghost function ShownBy(p: Policy, s: IdState, ids: seq<string>, answers: seq<Answer>, k: nat): Action
    requires k < |ids| == |answers|
  {
    Visible(ActionOf(p, Told(p, s, ids, answers, k, ids[k]), answers[k]))
  }

  /** The action is the id's own, and a restart only where the answer was sick and the id is desired running. */
  ghost predicate ActsOn(p: Policy, s: IdState, ids: seq<string>, answers: seq<Answer>, k: nat, action: Action)
    requires k < |ids| == |answers|
  {
    && action == ShownBy(p, s, ids, answers, k)
    && (action == Restart ==> p.enabled && answers[k].desiredRunning && !Well(answers[k]))
  }

  /** An id's state after the first k answers of a tick: those for other ids do not touch it. */
  ghost function Told(p: Policy, s: IdState, ids: seq<string>, answers: seq<Answer>, k: nat, id: string): IdState
    requires k <= |ids| == |answers|
  {
    if k == 0 then s
    else
      var before := Told(p, s, ids, answers, k - 1, id);
      if ids[k - 1] == id then Step(p, before, answers[k - 1]) else before
  }

  lemma ToldOneMore(p: Policy, s: IdState, ids: seq<string>, answers: seq<Answer>, k: nat, id: string)
    requires k < |ids| == |answers|
    ensures Told(p, s, ids, answers, k + 1, id) ==
      if id == ids[k] then Step(p, Told(p, s, ids, answers, k, id), answers[k]) else Told(p, s, ids, answers, k, id)
  {
  }

  /** The answers among the first k that are about one id. */
  ghost function About(ids: seq<string>, answers: seq<Answer>, k: nat, id: string): seq<Answer>
    requires k <= |ids| == |answers|
  {
    if k == 0 then []
    else if ids[k - 1] == id then About(ids, answers, k - 1, id) + [answers[k - 1]]
    else About(ids, answers, k - 1, id)
  }

  lemma AfterAppend(p: Policy, run: seq<Answer>, a: Answer)
    ensures After(p, run + [a]) == Step(p, After(p, run), a)
    ensures Done(p, run + [a], |run|) == ActionOf(p, After(p, run), a)
  {
    assert (run + [a])[..|run|] == run;
  }

  lemma ContinuesOneMore(p: Policy, heard: seq<Answer>, about: seq<Answer>, told: IdState, a: Answer)
    requires told == After(p, heard + about)
    ensures Step(p, told, a) == After(p, heard + (about + [a]))
  {
    AfterAppend(p, heard + about, a);
    Assoc(heard, about, [a]);
  }

  /** A tick continues the id's own run with the answers about it, in order. */
  lemma {:induction false} TickContinuesEachRun(p: Policy, heard: seq<Answer>, ids: seq<string>, answers: seq<Answer>,
                                                k: nat, id: string)
    requires k <= |ids| == |answers|
    ensures Told(p, After(p, heard), ids, answers, k, id) == After(p, heard + About(ids, answers, k, id))
  {
    if k == 0 {
      assert heard + [] == heard;
    } else {
      TickContinuesEachRun(p, heard, ids, answers, k - 1, id);
      if ids[k - 1] == id {
        ContinuesOneMore(p, heard, About(ids, answers, k - 1, id),
                         Told(p, After(p, heard), ids, answers, k - 1, id), answers[k - 1]);
      }
    }
  }

  /** All answers about one id over a sequence of ticks. */
  ghost function Heard(ids: seq<string>, ticks: seq<seq<Answer>>, id: string): seq<Answer>
    requires forall t :: t in ticks ==> |t| == |ids|
  {
    if ticks == [] then []
    else
      assert ticks[|ticks| - 1] in ticks;
      Heard(ids, ticks[..|ticks| - 1], id) + About(ids, ticks[|ticks| - 1], |ids|, id)
  }

  /** The state the tick contracts give one id over a sequence of ticks. */
  ghost function LoopState(p: Policy, ids: seq<string>, ticks: seq<seq<Answer>>, id: string): IdState
    requires forall t :: t in ticks ==> |t| == |ids|
  {
    if ticks == [] then FreshId
    else
      assert ticks[|ticks| - 1] in ticks;
      Told(p, LoopState(p, ids, ticks[..|ticks| - 1], id), ids, ticks[|ticks| - 1], |ids|, id)
  }

  /**
   * Whatever the other ids do, an id's state is that of a run of its own, so
   * budget, backoff, stable window and exhaustion hold for each id by itself.
   */
  lemma {:induction false} IdsAreIndependent(p: Policy, ids: seq<string>, ticks: seq<seq<Answer>>, id: string)
    requires forall t :: t in ticks ==> |t| == |ids|
    ensures LoopState(p, ids, ticks, id) == After(p, Heard(ids, ticks, id))
  {
    if ticks != [] {
      var front, last := ticks[..|ticks| - 1], ticks[|ticks| - 1];
      assert last in ticks;
      IdsAreIndependent(p, ids, front, id);
      TickContinuesEachRun(p, Heard(ids, front, id), ids, last, |ids|, id);
    }
  }

  // ---------------------------------------------------------------------------
  // The calls the loop makes
  // ---------------------------------------------------------------------------

  /** What the hooks see of a run of one id, tick by tick. */
  ghost function Shown(p: Policy, run: seq<Answer>): (r: seq<Action>)
    ensures |r| == |run| && forall k :: 0 <= k < |run| ==> r[k] == Visible(Done(p, run, k))
  {
    seq(|run|, k requires 0 <= k < |run| => Visible(Done(p, run, k)))
  }

  /** What the hooks see of one id in the first k answers of a tick, given the state it starts in. */
  ghost function ShownTo(p: Policy, s: IdState, ids: seq<string>, answers: seq<Answer>, k: nat, id: string): seq<Action>
    requires k <= |ids| == |answers|
  {
    if k == 0 then []
    else if ids[k - 1] == id then ShownTo(p, s, ids, answers, k - 1, id) + [ShownBy(p, s, ids, answers, k - 1)]
    else ShownTo(p, s, ids, answers, k - 1, id)
  }

  /** What the tick contracts show of one id over a sequence of ticks. */
  ghost function LoopShown(p: Policy, ids: seq<string>, ticks: seq<seq<Answer>>, id: string): seq<Action>
    requires forall t :: t in ticks ==> |t| == |ids|
  {
    if ticks == [] then []
    else
      assert ticks[|ticks| - 1] in ticks;
      var front := ticks[..|ticks| - 1];
      LoopShown(p, ids, front, id) + ShownTo(p, LoopState(p, ids, front, id), ids, ticks[|ticks| - 1], |ids|, id)
  }

  lemma ShownOneMore(p: Policy, run: seq<Answer>, a: Answer)
    ensures Shown(p, run + [a]) == Shown(p, run) + [Visible(ActionOf(p, After(p, run), a))]
  {
    AfterAppend(p, run, a);
    forall k | 0 <= k < |run| ensures Done(p, run + [a], k) == Done(p, run, k) {
      assert (run + [a])[..k] == run[..k];
    }
  }

  lemma ShowsOneMore(p: Policy, heard: seq<Answer>, about: seq<Answer>, shown: seq<Action>, a: Answer, told: IdState)
    requires Shown(p, heard) + shown == Shown(p, heard + about) && told == After(p, heard + about)
    ensures Shown(p, heard) + (shown + [Visible(ActionOf(p, told, a))]) == Shown(p, heard + (about + [a]))
  {
    ShownOneMore(p, heard + about, a);
    Assoc(heard, about, [a]);
    Assoc(Shown(p, heard), shown, [Visible(ActionOf(p, told, a))]);
  }

  lemma {:induction false} TickShowsTheRun(p: Policy, heard: seq<Answer>, ids: seq<string>, answers: seq<Answer>,
                                           k: nat, id: string)
    requires k <= |ids| == |answers|
    ensures Shown(p, heard) + ShownTo(p, After(p, heard), ids, answers, k, id)
      == Shown(p, heard + About(ids, answers, k, id))
  {
    if k == 0 {
      assert heard + [] == heard;
    } else {
      TickShowsTheRun(p, heard, ids, answers, k - 1, id);
      if ids[k - 1] == id {
        TickContinuesEachRun(p, heard, ids, answers, k - 1, id);
        ShowsOneMore(p, heard, About(ids, answers, k - 1, id), ShownTo(p, After(p, heard), ids, answers, k - 1, id),
                     answers[k - 1], Told(p, After(p, heard), ids, answers, k - 1, id));
      }
    }
  }

  /**
   * The calls the loop makes for an id are those of the id's own run, in order:
   * restarts, exhaustion reports and silences, tick by tick.
   */
  lemma {:induction false} LoopMakesTheRunsCalls(p: Policy, ids: seq<string>, ticks: seq<seq<Answer>>, id: string)
    requires forall t :: t in ticks ==> |t| == |ids|
    ensures LoopShown(p, ids, ticks, id) == Shown(p, Heard(ids, ticks, id))
  {
    if ticks != [] {
      var front, last := ticks[..|ticks| - 1], ticks[|ticks| - 1];
      assert last in ticks;
      LoopMakesTheRunsCalls(p, ids, front, id);
      IdsAreIndependent(p, ids, front, id);
      TickShowsTheRun(p, Heard(ids, front, id), ids, last, |ids|, id);
    }
  }

  /** Restart calls among the first j shown actions, from the i-th on. */
  ghost function RestartCalls(shown: seq<Action>, i: nat, j: nat): nat
    requires i <= j <= |shown|
  {
    if i == j then 0 else RestartCalls(shown, i, j - 1) + if shown[j - 1] == Restart then 1 else 0
  }

  lemma {:induction false} CallsAreRestarts(p: Policy, run: seq<Answer>, i: nat, j: nat)
    requires i <= j <= |run|
    ensures RestartCalls(Shown(p, run), i, j) == Restarts(p, run, i, j)
  {
    if i < j {
      CallsAreRestarts(p, run, i, j - 1);
    }
  }

  /** In the loop itself, whatever the other ids do: between two resets of its counter an id is restarted at most Max times. */
  lemma LoopKeepsTheBudget(p: Policy, ids: seq<string>, ticks: seq<seq<Answer>>, id: string, i: nat, j: nat)
    requires (forall t :: t in ticks ==> |t| == |ids|) && p.max > 0
    requires i <= j <= |Heard(ids, ticks, id)| && NoReset(p, Heard(ids, ticks, id), i, j)
    ensures |LoopShown(p, ids, ticks, id)| == |Heard(ids, ticks, id)|
    ensures RestartCalls(LoopShown(p, ids, ticks, id), i, j) <= p.max
  {
    LoopMakesTheRunsCalls(p, ids, ticks, id);
    CallsAreRestarts(p, Heard(ids, ticks, id), i, j);
    BudgetHolds(p, Heard(ids, ticks, id), i, j);
  }

  /** A reset at r, the last before j, and exactly Max restart calls between them. */
  ghost predicate EarnedSince(p: Policy, run: seq<Answer>, shown: seq<Action>, r: nat, j: nat)
    requires r < j <= |run| == |shown|
  {
    IsLastReset(p, run, r, j) && RestartCalls(shown, r + 1, j) == p.max
  }

  lemma RunReportsAreEarned(p: Policy, run: seq<Answer>, i: nat, j: nat)
    requires p.enabled && p.max > 0 && i < j < |run|
    requires Shown(p, run)[i] == Shown(p, run)[j] == ReportExhausted
    ensures exists r :: i < r < j && EarnedSince(p, run, Shown(p, run), r, j)
  {
    ReportsAreEarned(p, run, i, j);
    var r :| i < r < j && IsLastReset(p, run, r, j) && Restarts(p, run, r + 1, j) == p.max;
    CallsAreRestarts(p, run, r + 1, j);
    assert EarnedSince(p, run, Shown(p, run), r, j);
  }

  /**
   * In the loop itself: between two exhaustion calls for an id its counter was
   * reset, with exactly Max restart calls after the last reset.
   */
  lemma LoopReportsAreEarned(p: Policy, ids: seq<string>, ticks: seq<seq<Answer>>, id: string, i: nat, j: nat)
    requires (forall t :: t in ticks ==> |t| == |ids|) && p.enabled && p.max > 0
    requires i < j < |LoopShown(p, ids, ticks, id)|
    requires LoopShown(p, ids, ticks, id)[i] == LoopShown(p, ids, ticks, id)[j] == ReportExhausted
    ensures |LoopShown(p, ids, ticks, id)| == |Heard(ids, ticks, id)|
    ensures exists r :: i < r < j && EarnedSince(p, Heard(ids, ticks, id), LoopShown(p, ids, ticks, id), r, j)
  {
    LoopMakesTheRunsCalls(p, ids, ticks, id);
    RunReportsAreEarned(p, Heard(ids, ticks, id), i, j);
  }
}
