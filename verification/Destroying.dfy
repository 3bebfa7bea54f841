/** What destroying a channel means: its queries are called back and released one after the other. */
module Destroying {
  import opened Bytes
  import opened Cancelling

  /** Destruction runs to its end, or comes upon the record of a query that has already been released. */
  datatype Outcome = Completed(state: State) | Broken(state: State)

  /** The channel after the callback of the first query; the query itself has not been released by the loop yet. */
  function FirstCalled(st: State): State
    requires st.queue != []
  {
    Run(st.queue[0].script.destroyed, st.(log := st.log + [st.queue[0].id]))
  }

  /** The same once the loop has released the query, if its callback only starts queries. */
  function AfterFirst(st: State): State
    requires st.queue != [] && OnlySends(st.queue[0].script.destroyed)
  {
    var q := st.queue[0];
    State(st.queue[1..] + Started(q.script.destroyed, st.nextId), st.log + [q.id], st.nextId + |q.script.destroyed|)
  }

  lemma {:induction false} StartedPotential(acts: seq<Action>, n: nat)
    requires OnlySends(acts)
    ensures Potential(Started(acts, n)) <= Sizes(acts)
    decreases |acts|
  {
    if acts != [] {
      assert OnlySends(acts[1..]);
      StartedPotential(acts[1..], n + 1);
      assert Started(acts, n)[1..] == Started(acts[1..], n + 1);
    }
  }

  lemma AfterFirstIsLess(st: State)
    requires st.queue != [] && OnlySends(st.queue[0].script.destroyed)
    ensures Potential(AfterFirst(st).queue) < Potential(st.queue)
  {
    var q := st.queue[0];
    StartedPotential(q.script.destroyed, st.nextId);
    PotentialAppend(st.queue[1..], Started(q.script.destroyed, st.nextId));
  }

  /** Then the query is still the first on the list when its callback returns. */
  lemma StillFirst(st: State)
    requires st.queue != [] && OnlySends(st.queue[0].script.destroyed)
    ensures FirstCalled(st) == AfterFirst(st).(queue := [st.queue[0]] + AfterFirst(st).queue)
  {
    var q := st.queue[0];
    var more := Started(q.script.destroyed, st.nextId);
    RunStarts(q.script.destroyed, st.(log := st.log + [q.id]));
    assert st.queue == [q] + st.queue[1..];
    AppendAssoc([q], st.queue[1..], more);
  }

  /**
   * The loop of ares_destroy. It takes the successor before the callback, so it stops after a query that was last,
   * whatever that query's callback started. A callback that cancels releases the very query it belongs to.
   */
  function Destroy(st: State): Outcome
    decreases Potential(st.queue)
  {
    if st.queue == [] then Completed(st)
    else if !OnlySends(st.queue[0].script.destroyed) then Broken(FirstCalled(st))
    else
      AfterFirstIsLess(st);
      if |st.queue| == 1 then Completed(AfterFirst(st)) else Destroy(AfterFirst(st))
  }

  /** The queries that the loop calls back, in order. */
  function Calls(st: State): seq<Query>
    decreases Potential(st.queue)
  {
    if st.queue == [] then []
    else if !OnlySends(st.queue[0].script.destroyed) || |st.queue| == 1 then [st.queue[0]]
    else
      AfterFirstIsLess(st);
      [st.queue[0]] + Calls(AfterFirst(st))
  }

  // ---------- A callback that cancels ----------

  /** A cancellation leaves only queries started since. */
  lemma {:induction false} CancelEmpties(acts: seq<Action>, st: State, n: nat)
    requires !OnlySends(acts) && n <= st.nextId
    ensures AllAtLeast(Run(acts, st).queue, n)
    decreases |acts|
  {
    match acts[0]
    case Send(script) =>
      assert forall i | 1 <= i < |acts| :: acts[i] == acts[1..][i - 1];
      CancelEmpties(acts[1..], Sent(st, script), n);
    case CancelAll =>
      DrainCalls(st.queue, st.(queue := []), n);
      RunLeavesOld(acts[1..], Cancel(st), n);
  }

  lemma FirstIsOld(st: State)
    requires Proper(st) && st.queue != []
    ensures st.queue[0].id < st.nextId && Accounted(st)[st.queue[0].id] == 1
    ensures forall id: nat :: Accounted(st)[id] == if id < st.nextId then 1 else 0
  {
    ProperCounts(st);
    assert Ids(st.queue)[0] == st.queue[0].id;
  }

  lemma CalledAccounts(st: State)
    requires st.queue != []
    ensures st.nextId <= FirstCalled(st).nextId
    ensures Accounted(FirstCalled(st)) ==
            Accounted(st) + multiset{st.queue[0].id} + multiset(Range(st.nextId, FirstCalled(st).nextId))
  {
    var q := st.queue[0];
    var called := st.(log := st.log + [q.id]);
    RunConserves(q.script.destroyed, called);
    assert Accounted(called) == Accounted(st) + multiset{q.id};
  }

  /** In all, the query called back is accounted for twice, any other at most once. */
  lemma CallCounts(st: State)
    requires Proper(st) && st.queue != []
    ensures Accounted(FirstCalled(st))[st.queue[0].id] == 2
    ensures forall id: nat | id != st.queue[0].id :: Accounted(FirstCalled(st))[id] <= 1
  {
    hide Run;
    hide Range;
    hide Accounted;
    var q, t := st.queue[0], FirstCalled(st);
    FirstIsOld(st);
    CalledAccounts(st);
    forall id: nat
      ensures Accounted(t)[id] ==
              Accounted(st)[id] + multiset{q.id}[id] + (if st.nextId <= id < t.nextId then 1 else 0)
    {
      RangeCount(st.nextId, t.nextId, id);
    }
  }

  /**
   * When the callback of the first query returns, the query is still outstanding exactly if the callback did not
   * cancel; otherwise it has been called back a second time. No other query has been called back twice.
   */
  lemma CallbackDecides(st: State)
    requires Proper(st) && st.queue != []
    ensures st.queue[0].id in Ids(FirstCalled(st).queue) <==> OnlySends(st.queue[0].script.destroyed)
    ensures multiset(FirstCalled(st).log)[st.queue[0].id] == if OnlySends(st.queue[0].script.destroyed) then 1 else 2
    ensures forall id: nat | id != st.queue[0].id :: multiset(FirstCalled(st).log)[id] <= 1
  {
    hide Run;
    hide Range;
    var q, t := st.queue[0], FirstCalled(st);
    FirstIsOld(st);
    CallCounts(st);
    if OnlySends(q.script.destroyed) {
      StillFirst(st);
      assert Ids(t.queue)[0] == q.id && t.log[|st.log|] == q.id;
      assert q.id in multiset(t.log) && q.id in multiset(Ids(t.queue));
    } else {
      CancelEmpties(q.script.destroyed, st.(log := st.log + [q.id]), st.nextId);
      forall i | 0 <= i < |t.queue| ensures Ids(t.queue)[i] != q.id {
        assert st.nextId <= t.queue[i].id;
      }
      assert multiset(Ids(t.queue))[q.id] == 0;
    }
    forall id: nat | id != q.id ensures multiset(t.log)[id] <= 1 {
      assert multiset(t.log)[id] <= Accounted(t)[id];
    }
  }

  // ---------- The promises of ares_destroy ----------

  /** No query has been called back twice. */
  ghost predicate NoneTwice(log: seq<nat>) {
    forall id: nat :: multiset(log)[id] <= 1
  }

  lemma ProperNoneTwice(st: State)
    requires Proper(st)
    ensures NoneTwice(st.log)
  {
    ProperCounts(st);
    forall id: nat ensures multiset(st.log)[id] <= 1 {
      assert multiset(st.log)[id] <= Accounted(st)[id];
    }
  }

  lemma IdsAppend(a: seq<Query>, b: seq<Query>)
    ensures Ids(a + b) == Ids(a) + Ids(b)
  {
  }

  lemma StartedIds(acts: seq<Action>, n: nat)
    requires OnlySends(acts)
    ensures Ids(Started(acts, n)) == Range(n, n + |acts|)
  {
  }

  lemma MoveOver(log: multiset<nat>, x: nat, rest: multiset<nat>, more: multiset<nat>)
    ensures log + multiset{x} + (rest + more) == log + (multiset{x} + rest) + more
  {
  }

  lemma AfterFirstProper(st: State)
    requires Proper(st) && st.queue != [] && OnlySends(st.queue[0].script.destroyed)
    ensures Proper(AfterFirst(st))
  {
    hide Ids;
    hide Range;
    hide Started;
    var q, rest := st.queue[0], st.queue[1..];
    var more := Started(q.script.destroyed, st.nextId);
    IdsCons(st.queue);
    IdsAppend(rest, more);
    StartedIds(q.script.destroyed, st.nextId);
    RangeSplit(0, st.nextId, st.nextId + |q.script.destroyed|);
    MoveOver(multiset(st.log), q.id, multiset(Ids(rest)), multiset(Ids(more)));
  }

  lemma SendsOrCancels(acts: seq<Action>)
    ensures OnlySends(acts) <==> CancelAll !in acts
  {
    if !OnlySends(acts) {
      var i :| 0 <= i < |acts| && !acts[i].Send?;
      assert acts[i] == CancelAll;
    }
  }

  /**
   * Destruction completes exactly if no callback it makes cancels, and exactly then no query is called back twice.
   * Every query started is then accounted for once.
   */
  lemma {:induction false} DestroyCompletes(st: State)
    requires Proper(st)
    ensures Destroy(st).Completed? <==> forall q | q in Calls(st) :: CancelAll !in q.script.destroyed
    ensures Destroy(st).Completed? <==> NoneTwice(Destroy(st).state.log)
    ensures Destroy(st).Completed? ==> Proper(Destroy(st).state)
    decreases Potential(st.queue)
  {
    hide Proper;
    if st.queue == [] {
      ProperNoneTwice(st);
    } else {
      var q := st.queue[0];
      SendsOrCancels(q.script.destroyed);
      if !OnlySends(q.script.destroyed) {
        CallbackDecides(st);
        assert q in Calls(st);
      } else {
        AfterFirstIsLess(st);
        AfterFirstProper(st);
        if |st.queue| == 1 {
          ProperNoneTwice(AfterFirst(st));
        } else {
          DestroyCompletes(AfterFirst(st));
        }
      }
    }
  }

  /** When it completes, the queries called back begin with those outstanding at the start, in list order. */
  lemma {:induction false} DestroyCallsThosePresent(st: State)
    requires Destroy(st).Completed?
    ensures Destroy(st).state.log == st.log + Ids(Calls(st))
    ensures st.queue <= Calls(st)
    decreases Potential(st.queue)
  {
    if st.queue == [] {
      assert st.log + Ids([]) == st.log;
    } else {
      var q, calls := st.queue[0], Calls(st);
      AfterFirstIsLess(st);
      IdsCons(calls);
      if |st.queue| == 1 {
        assert calls == [q] && calls[1..] == [] && Ids([]) == [];
        assert st.queue == [q];
      } else {
        DestroyCallsThosePresent(AfterFirst(st));
        assert calls[1..] == Calls(AfterFirst(st));
        AppendAssoc(st.log, [q.id], Ids(calls[1..]));
        assert st.queue == [q] + st.queue[1..];
        assert st.queue[1..] <= AfterFirst(st).queue;
      }
    }
  }

  /** What is left is what the last callback started, under the last numbers used. */
  lemma {:induction false} DestroyLeaves(st: State)
    requires Destroy(st).Completed? && st.queue != []
    ensures var t, calls := Destroy(st).state, Calls(st);
      && calls != [] && var last := calls[|calls| - 1].script.destroyed;
      && OnlySends(last) && |last| <= t.nextId && t.queue == Started(last, t.nextId - |last|)
    decreases Potential(st.queue)
  {
    AfterFirstIsLess(st);
    if |st.queue| == 1 {
      assert AfterFirst(st).queue == Started(st.queue[0].script.destroyed, st.nextId);
    } else {
      DestroyLeaves(AfterFirst(st));
    }
  }

  /** No script cancels, nor does one that it starts. */
  predicate Plain(acts: seq<Action>)
    decreases acts, 0
  {
    forall i | 0 <= i < |acts| :: PlainAction(acts[i])
  }

  predicate PlainAction(a: Action)
    decreases a, 1
  {
    match a
    case Send(script) => Plain(script.destroyed)
    case CancelAll => false
  }

  lemma PlainStarts(acts: seq<Action>, n: nat)
    requires Plain(acts)
    ensures OnlySends(acts) && forall q | q in Started(acts, n) :: Plain(q.script.destroyed)
  {
    forall i | 0 <= i < |acts| ensures acts[i].Send? && Plain(acts[i].script.destroyed) {
      assert PlainAction(acts[i]);
    }
  }

  /** On such a channel destruction completes. */
  lemma {:induction false} PlainCompletes(st: State)
    requires forall q | q in st.queue :: Plain(q.script.destroyed)
    ensures Destroy(st).Completed?
    decreases Potential(st.queue)
  {
    if st.queue != [] {
      assert st.queue[0] in st.queue;
      PlainStarts(st.queue[0].script.destroyed, st.nextId);
      AfterFirstIsLess(st);
      if |st.queue| > 1 {
        hide Plain;
        PlainCompletes(AfterFirst(st));
      }
    }
  }

  /** Callbacks that start nothing. */
  ghost predicate StartsNothing(st: State) {
    forall i | 0 <= i < |st.queue| :: forall a | a in st.queue[i].script.destroyed :: a == CancelAll
  }

  /**
   * If no callback starts a query, destruction completes exactly if none does anything at all, as those of host and
   * address lookups: then each query is called back once, in order, and nothing is left.
   */
  lemma {:induction false} QuietDestroy(st: State)
    requires StartsNothing(st)
    ensures Destroy(st).Completed? <==> forall i | 0 <= i < |st.queue| :: st.queue[i].script.destroyed == []
    ensures Destroy(st).Completed? ==> Destroy(st).state == State([], st.log + Ids(st.queue), st.nextId)
    decreases |st.queue|
  {
    if st.queue == [] {
      assert st.log + Ids(st.queue) == st.log;
    } else {
      var q, rest := st.queue[0], st.queue[1..];
      if q.script.destroyed == [] {
        var next := AfterFirst(st);
        assert next == State(rest, st.log + [q.id], st.nextId);
        IdsCons(st.queue);
        AppendAssoc(st.log, [q.id], Ids(rest));
        assert forall i | 0 <= i < |rest| :: rest[i] == st.queue[i + 1];
        assert StartsNothing(next);
        QuietDestroy(next);
        assert forall i | 1 <= i < |st.queue| :: st.queue[i] == rest[i - 1];
        AfterFirstIsLess(st);
        if |st.queue| == 1 {
          assert rest == [];
        }
      } else {
        assert q.script.destroyed[0] in st.queue[0].script.destroyed;
      }
    }
  }

  /** A callback that does nothing. */
  const NOTHING := Script([], [])

  /** One query whose callback starts another: the new one is never called back and is still listed. */
  lemma LastCallbackLeaks()
    ensures var st := State([Query(0, Script([], [Send(NOTHING)]))], [], 1);
      Proper(st) && Destroy(st) == Completed(State([Query(1, NOTHING)], [0], 2))
  {
    var st := State([Query(0, Script([], [Send(NOTHING)]))], [], 1);
    assert Ids(st.queue) == [0] && Range(0, 1) == [0];
    assert Started([Send(NOTHING)], 1) == [Query(1, NOTHING)];
  }

  /** One query whose callback cancels: it is called back twice, and then its record is gone. */
  lemma CancelInCallbackBreaks()
    ensures var st := State([Query(0, Script([], [CancelAll]))], [], 1);
      Proper(st) && Destroy(st) == Broken(State([], [0, 0], 1))
  {
    var q := Query(0, Script([], [CancelAll]));
    var st := State([q], [], 1);
    assert Ids(st.queue) == [0] && Range(0, 1) == [0];
    var empty := State([], [0, 0], 1);
    assert [] + [0] == [0] && [0] + [0] == [0, 0];
    assert [q][1..] == [] && [CancelAll][1..] == [];
    assert Drain([q], State([], [0], 1)) == Drain([], Run([], empty)) == empty;
    assert Cancel(State([q], [0], 1)) == empty;
    assert Run([CancelAll], State([q], [0], 1)) == Run([], empty) == empty;
    assert FirstCalled(st) == Run([CancelAll], State([q], [0], 1));
  }
}
