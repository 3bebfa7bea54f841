/**
 * What cancelling means when callbacks may start new queries and cancel again:
 * a channel as a queue of outstanding queries and a log of callbacks made.
 */
module Cancelling {
  import opened Bytes

  /** What a callback can do to the channel: start a query, or cancel all. */
  datatype Action = Send(script: Script) | CancelAll

  /** What a query's callback does, by the status it is called with: ECANCELLED, or EDESTRUCTION. */
  datatype Script = Script(cancelled: seq<Action>, destroyed: seq<Action>)

  datatype Query = Query(id: nat, script: Script)

  datatype State = State(queue: seq<Query>, log: seq<nat>, nextId: nat)

  // ---------- A measure for scripts ----------

  function Size(a: Action): nat
    decreases a, 1
  {
    match a
    case Send(script) => 2 + Sizes(script.cancelled) + Sizes(script.destroyed)
    case CancelAll => 1
  }

  function Sizes(acts: seq<Action>): nat
    decreases acts, 0
  {
    if acts == [] then 0 else Size(acts[0]) + Sizes(acts[1..])
  }

  /** Everything still to come from queries: one for the callback, and its scripts. */
  function Potential(qs: seq<Query>): nat {
    if qs == [] then 0
    else 1 + Sizes(qs[0].script.cancelled) + Sizes(qs[0].script.destroyed) + Potential(qs[1..])
  }

  lemma {:induction false} PotentialAppend(a: seq<Query>, b: seq<Query>)
    ensures Potential(a + b) == Potential(a) + Potential(b)
  {
    if a == [] {
      assert a + b == b;
    } else {
      assert (a + b)[1..] == a[1..] + b;
      PotentialAppend(a[1..], b);
    }
  }

  // ---------- The meaning of a callback and of a cancellation ----------

  function Sent(st: State, script: Script): State {
    State(st.queue + [Query(st.nextId, script)], st.log, st.nextId + 1)
  }

  lemma SentPotential(st: State, script: Script)
    ensures Potential(Sent(st, script).queue) ==
      Potential(st.queue) + 1 + Sizes(script.cancelled) + Sizes(script.destroyed)
  {
    var q := Query(st.nextId, script);
    PotentialAppend(st.queue, [q]);
    assert Potential([q]) == 1 + Sizes(script.cancelled) + Sizes(script.destroyed) + Potential([]);
  }

  /** Runs the actions of one callback. */
  function Run(acts: seq<Action>, st: State): (r: State)
    ensures Potential(r.queue) <= Potential(st.queue) + Sizes(acts)
    decreases Sizes(acts) + Potential(st.queue), 0
  {
    if acts == [] then st
    else
      assert Sizes(acts) == Size(acts[0]) + Sizes(acts[1..]);
      match acts[0]
      case Send(script) =>
        SentPotential(st, script);
        Run(acts[1..], Sent(st, script))
      case CancelAll =>
        Run(acts[1..], Cancel(st))
  }

  /** Calls back each of `qs` in turn; what they start goes to the queue. */
  function Drain(qs: seq<Query>, st: State): (r: State)
    ensures Potential(r.queue) <= Potential(st.queue) + Potential(qs)
    decreases Potential(qs) + Potential(st.queue), 1
  {
    if qs == [] then st
    else Drain(qs[1..], Run(qs[0].script.cancelled, st.(log := st.log + [qs[0].id])))
  }

  /** ares_cancel: exactly the queries there on entry are taken off and called back. */
  function Cancel(st: State): (r: State)
    ensures Potential(r.queue) <= Potential(st.queue)
    decreases Potential(st.queue), 2
  {
    Drain(st.queue, st.(queue := []))
  }

  // ---------- Whom a cancellation calls back ----------

  function Ids(qs: seq<Query>): (ids: seq<nat>)
    ensures |ids| == |qs|
  {
    seq(|qs|, i requires 0 <= i < |qs| => qs[i].id)
  }

  /** The entries below `n`, in order. */
  function Below(s: seq<nat>, n: nat): seq<nat> {
    if s == [] then []
    else Below(s[..|s| - 1], n) + (if s[|s| - 1] < n then [s[|s| - 1]] else [])
  }

  predicate AllAtLeast(qs: seq<Query>, n: nat) {
    forall i | 0 <= i < |qs| :: n <= qs[i].id
  }

  predicate AllBelow(s: seq<nat>, n: nat) {
    forall i | 0 <= i < |s| :: s[i] < n
  }

  lemma {:induction false} BelowAppend(a: seq<nat>, b: seq<nat>, n: nat)
    ensures Below(a + b, n) == Below(a, n) + Below(b, n)
  {
    if b == [] {
      assert a + b == a;
    } else {
      var m := |b| - 1;
      assert (a + b)[..|a| + m] == a + b[..m] && (a + b)[|a| + m] == b[m];
      BelowAppend(a, b[..m], n);
    }
  }

  lemma {:induction false} BelowAll(s: seq<nat>, n: nat)
    requires AllBelow(s, n)
    ensures Below(s, n) == s
  {
    if s != [] { BelowAll(s[..|s| - 1], n); }
  }

  lemma {:induction false} BelowNone(s: seq<nat>, n: nat)
    requires forall i | 0 <= i < |s| :: n <= s[i]
    ensures Below(s, n) == []
  {
    if s != [] { BelowNone(s[..|s| - 1], n); }
  }

  /** A callback touches no query that is older than everything in the queue. */
  lemma {:induction false} RunLeavesOld(acts: seq<Action>, st: State, n: nat)
    requires n <= st.nextId && AllAtLeast(st.queue, n)
    ensures n <= Run(acts, st).nextId && AllAtLeast(Run(acts, st).queue, n)
    ensures Below(Run(acts, st).log, n) == Below(st.log, n)
    decreases Sizes(acts) + Potential(st.queue), 0
  {
    if acts != [] {
      assert Sizes(acts) == Size(acts[0]) + Sizes(acts[1..]);
      match acts[0]
      case Send(script) =>
        SentPotential(st, script);
        RunLeavesOld(acts[1..], Sent(st, script), n);
      case CancelAll =>
        DrainCalls(st.queue, st.(queue := []), n);
        BelowNone(Ids(st.queue), n);
        RunLeavesOld(acts[1..], Cancel(st), n);
    }
  }

  lemma IdsCons(qs: seq<Query>)
    requires qs != []
    ensures Ids(qs) == [qs[0].id] + Ids(qs[1..])
  {
  }

  /** Draining calls back the older ones among `qs`, each once and in order, and no other old query. */
  lemma {:induction false} DrainCalls(qs: seq<Query>, st: State, n: nat)
    requires n <= st.nextId && AllAtLeast(st.queue, n)
    ensures n <= Drain(qs, st).nextId && AllAtLeast(Drain(qs, st).queue, n)
    ensures Below(Drain(qs, st).log, n) == Below(st.log, n) + Below(Ids(qs), n)
    decreases Potential(qs) + Potential(st.queue), 1
  {
    hide Below;
    if qs == [] {
      BelowNone(Ids(qs), n);
    } else {
      var q, rest := qs[0], qs[1..];
      IdsCons(qs);
      hide Ids;
      var called := st.(log := st.log + [q.id]);
      RunLeavesOld(q.script.cancelled, called, n);
      DrainCalls(rest, Run(q.script.cancelled, called), n);
      BelowAppend(st.log, [q.id], n);
      BelowAppend([q.id], Ids(rest), n);
      AppendAssoc(Below(st.log, n), Below([q.id], n), Below(Ids(rest), n));
    }
  }

  // ---------- Nothing is lost, nothing is called twice ----------

  /** The numbers from `a` up to `b`. */
  function Range(a: nat, b: nat): seq<nat>
    requires a <= b
  {
    seq(b - a, i => a + i)
  }

  lemma RangeSplit(a: nat, b: nat, c: nat)
    requires a <= b <= c
    ensures multiset(Range(a, c)) == multiset(Range(a, b)) + multiset(Range(b, c))
  {
    assert Range(a, c) == Range(a, b) + Range(b, c);
  }

  /** Called back or still waiting. */
  function Accounted(st: State): multiset<nat> {
    multiset(st.log) + multiset(Ids(st.queue))
  }

  /** Everything accounted for before still is, and so is every query started since; each once. */
  ghost predicate Conserves(before: State, after: State, taken: multiset<nat>) {
    before.nextId <= after.nextId &&
    Accounted(after) == Accounted(before) + taken + multiset(Range(before.nextId, after.nextId))
  }

  lemma ConservesTwice(a: State, b: State, c: State, x: multiset<nat>, y: multiset<nat>)
    requires Conserves(a, b, x) && Conserves(b, c, y)
    ensures Conserves(a, c, x + y)
  {
    RangeSplit(a.nextId, b.nextId, c.nextId);
  }

  lemma SentConserves(st: State, script: Script)
    ensures Conserves(st, Sent(st, script), multiset{})
  {
    assert Ids(Sent(st, script).queue) == Ids(st.queue) + [st.nextId];
    assert Range(st.nextId, st.nextId + 1) == [st.nextId];
  }

  lemma EmptyConserves(st: State)
    ensures Conserves(st, st, multiset{})
  {
    assert Range(st.nextId, st.nextId) == [];
  }

  lemma {:induction false} RunConserves(acts: seq<Action>, st: State)
    ensures Conserves(st, Run(acts, st), multiset{})
    decreases Sizes(acts) + Potential(st.queue), 0
  {
    hide Conserves;
    if acts == [] {
      EmptyConserves(st);
    } else {
      assert Sizes(acts) == Size(acts[0]) + Sizes(acts[1..]);
      var none: multiset<nat> := multiset{};
      assert none + none == none;
      match acts[0]
      case Send(script) =>
        SentPotential(st, script);
        SentConserves(st, script);
        RunConserves(acts[1..], Sent(st, script));
        ConservesTwice(st, Sent(st, script), Run(acts, st), multiset{}, multiset{});
      case CancelAll =>
        CancelConserves(st);
        RunConserves(acts[1..], Cancel(st));
        ConservesTwice(st, Cancel(st), Run(acts, st), multiset{}, multiset{});
    }
  }

  lemma CallConserves(st: State, q: Query)
    ensures Conserves(st, st.(log := st.log + [q.id]), multiset{q.id})
  {
    assert Range(st.nextId, st.nextId) == [];
  }

  lemma {:induction false} DrainConserves(qs: seq<Query>, st: State)
    ensures Conserves(st, Drain(qs, st), multiset(Ids(qs)))
    decreases Potential(qs) + Potential(st.queue), 1
  {
    hide Conserves;
    if qs == [] {
      EmptyConserves(st);
      assert Ids(qs) == [];
    } else {
      var q, rest := qs[0], qs[1..];
      var called := st.(log := st.log + [q.id]);
      var next := Run(q.script.cancelled, called);
      CallConserves(st, q);
      RunConserves(q.script.cancelled, called);
      ConservesTwice(st, called, next, multiset{q.id}, multiset{});
      DrainConserves(rest, next);
      ConservesTwice(st, next, Drain(rest, next), multiset{q.id} + multiset{}, multiset(Ids(rest)));
      IdsCons(qs);
      assert multiset(Ids(qs)) == multiset{q.id} + multiset{} + multiset(Ids(rest));
    }
  }

  lemma CancelConserves(st: State)
    ensures Conserves(st, Cancel(st), multiset{})
    decreases Potential(st.queue), 2
  {
    var empty := st.(queue := []);
    DrainConserves(st.queue, empty);
    assert Ids(empty.queue) == [];
  }

  // ---------- The promises of ares_cancel ----------

  /** Numbers are handed out once: every number used is that of one query, called back or outstanding. */
  ghost predicate Proper(st: State) {
    Accounted(st) == multiset(Range(0, st.nextId))
  }

  lemma {:induction false} RangeCount(a: nat, b: nat, x: nat)
    requires a <= b
    ensures multiset(Range(a, b))[x] == if a <= x < b then 1 else 0
    decreases b
  {
    if a < b {
      RangeCount(a, b - 1, x);
      assert Range(a, b) == Range(a, b - 1) + [b - 1];
    } else {
      assert Range(a, b) == [];
    }
  }

  /** So no number is out of range, and none occurs twice. */
  lemma ProperCounts(st: State)
    requires Proper(st)
    ensures AllBelow(st.log, st.nextId) && AllBelow(Ids(st.queue), st.nextId)
    ensures forall id: nat :: Accounted(st)[id] == if id < st.nextId then 1 else 0
  {
    forall id: nat ensures Accounted(st)[id] == if id < st.nextId then 1 else 0 {
      RangeCount(0, st.nextId, id);
    }
    forall i | 0 <= i < |st.log| ensures st.log[i] < st.nextId {
      assert st.log[i] in multiset(st.log);
      assert Accounted(st)[st.log[i]] > 0;
    }
    forall i | 0 <= i < |st.queue| ensures Ids(st.queue)[i] < st.nextId {
      assert Ids(st.queue)[i] in multiset(Ids(st.queue));
      assert Accounted(st)[Ids(st.queue)[i]] > 0;
    }
  }

  lemma NewIsProper()
    ensures Proper(State([], [], 0))
  {
    assert Ids([]) == [] && Range(0, 0) == [];
  }

  lemma StaysProper(a: State, b: State)
    requires Proper(a) && Conserves(a, b, multiset{})
    ensures Proper(b)
  {
    RangeSplit(0, a.nextId, b.nextId);
  }

  lemma RunStaysProper(acts: seq<Action>, st: State)
    ensures Proper(st) ==> Proper(Run(acts, st))
  {
    RunConserves(acts, st);
    if Proper(st) { StaysProper(st, Run(acts, st)); }
  }

  /**
   * Every query present on entry is called back exactly once, in list order;
   * none of them is left; what is on the channel afterwards was started since;
   * and every query ever started is either called back once or still there.
   */
  lemma CancelCallsThosePresent(st: State)
    requires Proper(st)
    ensures Below(Cancel(st).log, st.nextId) == st.log + Ids(st.queue)
    ensures AllAtLeast(Cancel(st).queue, st.nextId)
    ensures Proper(Cancel(st))
  {
    var n, empty := st.nextId, st.(queue := []);
    ProperCounts(st);
    DrainCalls(st.queue, empty, n);
    BelowAll(st.log, n);
    BelowAll(Ids(st.queue), n);
    CancelConserves(st);
    StaysProper(st, Cancel(st));
  }

  /** Actions that only start queries. */
  predicate OnlySends(acts: seq<Action>) {
    forall i | 0 <= i < |acts| :: acts[i].Send?
  }

  /** The queries they start, one after the other, numbered from `n`. */
  function Started(acts: seq<Action>, n: nat): (qs: seq<Query>)
    requires OnlySends(acts)
    ensures |qs| == |acts|
  {
    seq(|acts|, i requires 0 <= i < |acts| => Query(n + i, acts[i].script))
  }

  /** The scripts that run when some queries are cancelled. */
  function Scripts(qs: seq<Query>): seq<Action> {
    if qs == [] then [] else qs[0].script.cancelled + Scripts(qs[1..])
  }

  lemma {:induction false} RunStarts(acts: seq<Action>, st: State)
    requires OnlySends(acts)
    ensures Run(acts, st) == State(st.queue + Started(acts, st.nextId), st.log, st.nextId + |acts|)
    decreases |acts|
  {
    if acts == [] {
      assert st.queue + Started(acts, st.nextId) == st.queue;
    } else {
      var next := Sent(st, acts[0].script);
      assert OnlySends(acts[1..]);
      RunStarts(acts[1..], next);
      var rest := Started(acts[1..], next.nextId);
      assert Started(acts, st.nextId) == [Query(st.nextId, acts[0].script)] + rest;
      AppendAssoc(st.queue, [Query(st.nextId, acts[0].script)], rest);
    }
  }

  lemma SplitSends(a: seq<Action>, b: seq<Action>, n: nat)
    requires OnlySends(a + b)
    ensures OnlySends(a) && OnlySends(b)
    ensures Started(a + b, n) == Started(a, n) + Started(b, n + |a|)
  {
    forall i | 0 <= i < |a| ensures a[i].Send? { assert (a + b)[i] == a[i]; }
    forall i | 0 <= i < |b| ensures b[i].Send? { assert (a + b)[|a| + i] == b[i]; }
  }

  lemma {:induction false} DrainStarts(qs: seq<Query>, st: State)
    requires OnlySends(Scripts(qs))
    ensures Drain(qs, st) == State(st.queue + Started(Scripts(qs), st.nextId), st.log + Ids(qs),
                                   st.nextId + |Scripts(qs)|)
    decreases |qs|
  {
    if qs == [] {
      assert st.queue + Started([], st.nextId) == st.queue && st.log + Ids(qs) == st.log;
    } else {
      var q, rest := qs[0], qs[1..];
      var a, b := q.script.cancelled, Scripts(rest);
      SplitSends(a, b, st.nextId);
      var called := st.(log := st.log + [q.id]);
      RunStarts(a, called);
      DrainStarts(rest, Run(a, called));
      IdsCons(qs);
      AppendAssoc(st.log, [q.id], Ids(rest));
      AppendAssoc(st.queue, Started(a, st.nextId), Started(b, st.nextId + |a|));
    }
  }

  /** When callbacks only start queries, all of those stay on the channel, uncancelled and in order. */
  lemma StartedQueriesStay(st: State)
    requires OnlySends(Scripts(st.queue))
    ensures Cancel(st).log == st.log + Ids(st.queue)
    ensures Cancel(st).queue == Started(Scripts(st.queue), st.nextId)
  {
    DrainStarts(st.queue, st.(queue := []));
  }
}
