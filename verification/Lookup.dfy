/** ares_gethostbyname and ares_gethostbyaddr as state machines over the replies to their searches. */
module Lookup {
  import opened Ares
  import opened Bytes

  /** A host entry. */
  datatype Entry = Entry(name: seq<byte>, family: Family, addrs: seq<seq<byte>>)

  /** What is looked up: a name of some family, or an address. */
  datatype Kind = ByName(want: Want) | ByAddr

  /** `file(i)` is what the hosts file yields when the source at position `i` of the lookup string is consulted. */
  datatype Config = Config(kind: Kind, lookups: seq<char>, file: nat -> Option<Entry>)

  /** What a search reports: its status, its timeouts and, on success, what parsing the reply gave. */
  datatype Reply = Reply(status: Status, timeouts: nat, parsed: Status, host: Option<Entry>)

  datatype How = File | Dns(family: Family)
  datatype Consulted = Consulted(pos: nat, how: How)
  datatype Call = Call(status: Status, timeouts: nat, host: Option<Entry>)

  /** Waiting for a search, with the rest of the lookup string from `next` on; or done, and the record released. */
  datatype Phase = Searching(next: nat, family: Family) | Done

  datatype State = State(phase: Phase, timeouts: nat, consulted: seq<Consulted>, calls: seq<Call>)

  function End(s: State, status: Status, host: Option<Entry>): State {
    s.(phase := Done, calls := s.calls + [Call(status, s.timeouts, host)])
  }

  /** The family asked for first: AAAA if it will do. */
  function FirstFamily(c: Config): Family {
    if c.kind == ByName(Only(INET6)) || c.kind == ByName(UNSPEC) then INET6 else INET
  }

  function Search(s: State, next: nat, family: Family): State
    requires next > 0
  {
    s.(phase := Searching(next, family), consulted := s.consulted + [Consulted(next - 1, Dns(family))])
  }

  /** next_lookup from position `p` on. */
  function NextLookup(c: Config, s: State, p: nat, status: Status): State
    requires p <= |c.lookups|
    decreases |c.lookups| - p
  {
    if p == |c.lookups| then End(s, if c.kind.ByName? then status else ENOTFOUND, None)
    else if c.lookups[p] == 'b' then Search(s, p + 1, FirstFamily(c))
    else if c.lookups[p] == 'f' then
      var tried := s.(consulted := s.consulted + [Consulted(p, File)]);
      if c.file(p).Some? then End(tried, SUCCESS, c.file(p)) else NextLookup(c, tried, p + 1, status)
    else NextLookup(c, s, p + 1, status)
  }

  function Start(c: Config): State {
    NextLookup(c, State(Done, 0, [], []), 0, ECONNREFUSED)
  }

  /** The AAAA answer was of no use and an A record would do. */
  predicate FallsBack(c: Config, family: Family, r: Reply) {
    && c.kind == ByName(UNSPEC) && family == INET6
    && if r.status == SUCCESS then
         || r.parsed == ENODATA || r.parsed == EBADRESP
         || (r.parsed == SUCCESS && r.host.Some? && r.host.value.addrs == [])
       else r.status == ENODATA || r.status == EBADRESP || r.status == ETIMEOUT
  }

  /** host_callback and addr_callback. */
  function OnReply(c: Config, s: State, r: Reply): State
    requires s.phase.Searching? && 0 < s.phase.next <= |c.lookups|
  {
    var t := s.(timeouts := s.timeouts + r.timeouts);
    if FallsBack(c, s.phase.family, r) then Search(t, s.phase.next, INET)
    else if r.status == SUCCESS then End(t, r.parsed, r.host)
    else if r.status == EDESTRUCTION then End(t, r.status, None)
    else NextLookup(c, t, s.phase.next, r.status)
  }

  lemma {:induction false} NextBounds(c: Config, s: State, p: nat, status: Status)
    requires p <= |c.lookups|
    ensures NextLookup(c, s, p, status).phase.Searching? ==>
      p < NextLookup(c, s, p, status).phase.next <= |c.lookups| &&
      c.lookups[NextLookup(c, s, p, status).phase.next - 1] == 'b' &&
      NextLookup(c, s, p, status).phase.family == FirstFamily(c)
    ensures NextLookup(c, s, p, status).timeouts == s.timeouts
    decreases |c.lookups| - p
  {
    if p < |c.lookups| && c.lookups[p] != 'b' {
      if c.lookups[p] == 'f' {
        NextBounds(c, s.(consulted := s.consulted + [Consulted(p, File)]), p + 1, status);
      } else {
        NextBounds(c, s, p + 1, status);
      }
    }
  }

  /** The state after some replies; a search calls back once, so none comes when no search is out. */
  function After(c: Config, rs: seq<Reply>): (s: State)
    ensures s.phase.Searching? ==> 0 < s.phase.next <= |c.lookups|
  {
    if rs == [] then
      NextBounds(c, State(Done, 0, [], []), 0, ECONNREFUSED);
      Start(c)
    else
      var s := After(c, rs[..|rs| - 1]);
      if s.phase.Done? then s
      else
        var r := rs[|rs| - 1];
        NextBounds(c, s.(timeouts := s.timeouts + r.timeouts), s.phase.next, r.status);
        OnReply(c, s, r)
  }

  // ---------- Exactly one call of the user's callback ----------

  lemma {:induction false} NextCalls(c: Config, s: State, p: nat, status: Status)
    requires p <= |c.lookups| && s.calls == []
    ensures NextLookup(c, s, p, status).phase.Searching? ==> NextLookup(c, s, p, status).calls == []
    ensures NextLookup(c, s, p, status).phase.Done? ==>
      |NextLookup(c, s, p, status).calls| == 1 && NextLookup(c, s, p, status).calls[0].timeouts == s.timeouts
    decreases |c.lookups| - p
  {
    if p < |c.lookups| && c.lookups[p] != 'b' {
      var passed := if c.lookups[p] == 'f' then s.(consulted := s.consulted + [Consulted(p, File)]) else s;
      NextCalls(c, passed, p + 1, status);
    }
  }

  /** Whatever the replies, the callback is made once: when the record is released, and not before. */
  lemma {:induction false} CalledOnce(c: Config, rs: seq<Reply>)
    ensures |After(c, rs).calls| == if After(c, rs).phase.Done? then 1 else 0
    ensures After(c, rs).phase.Done? ==> After(c, rs).calls[0].timeouts == After(c, rs).timeouts
  {
    if rs == [] {
      NextCalls(c, State(Done, 0, [], []), 0, ECONNREFUSED);
      NextBounds(c, State(Done, 0, [], []), 0, ECONNREFUSED);
    } else {
      var before, r := rs[..|rs| - 1], rs[|rs| - 1];
      CalledOnce(c, before);
      var s := After(c, before);
      if s.phase.Searching? {
        var t := s.(timeouts := s.timeouts + r.timeouts);
        NextCalls(c, t, s.phase.next, r.status);
        NextBounds(c, t, s.phase.next, r.status);
      }
    }
  }

  // ---------- A run: every reply answers a search that is out ----------

  ghost predicate IsRun(c: Config, rs: seq<Reply>) {
    forall i | 0 <= i < |rs| :: After(c, rs[..i]).phase.Searching?
  }

  lemma RunPrefix(c: Config, rs: seq<Reply>)
    requires IsRun(c, rs) && rs != []
    ensures IsRun(c, rs[..|rs| - 1]) && After(c, rs[..|rs| - 1]).phase.Searching?
  {
    var before := rs[..|rs| - 1];
    forall i | 0 <= i < |before| ensures After(c, before[..i]).phase.Searching? {
      assert before[..i] == rs[..i];
    }
  }

  function Sum(rs: seq<Reply>): nat {
    if rs == [] then 0 else Sum(rs[..|rs| - 1]) + rs[|rs| - 1].timeouts
  }

  /** The timeouts reported are those of all searches of the run. */
  lemma {:induction false} TimeoutsAddUp(c: Config, rs: seq<Reply>)
    requires IsRun(c, rs)
    ensures After(c, rs).timeouts == Sum(rs)
    ensures After(c, rs).phase.Done? ==> |After(c, rs).calls| == 1 && After(c, rs).calls[0].timeouts == Sum(rs)
  {
    CalledOnce(c, rs);
    if rs == [] {
      NextBounds(c, State(Done, 0, [], []), 0, ECONNREFUSED);
    } else {
      var before, r := rs[..|rs| - 1], rs[|rs| - 1];
      RunPrefix(c, rs);
      TimeoutsAddUp(c, before);
      var s := After(c, before);
      NextBounds(c, s.(timeouts := s.timeouts + r.timeouts), s.phase.next, r.status);
    }
  }

  // ---------- How many searches ----------

  /** DNS sources from `p` on. */
  function DnsFrom(lookups: seq<char>, p: nat): nat
    requires p <= |lookups|
    decreases |lookups| - p
  {
    if p == |lookups| then 0 else (if lookups[p] == 'b' then 1 else 0) + DnsFrom(lookups, p + 1)
  }

  function PerSource(c: Config): nat { if c.kind == ByName(UNSPEC) then 2 else 1 }

  /** Searches that may still be made: the fallback of the one that is out, and those of later sources. */
  function Budget(c: Config, s: State): nat
    requires s.phase.Searching? ==> s.phase.next <= |c.lookups|
  {
    if s.phase.Done? then 0
    else
      (if c.kind == ByName(UNSPEC) && s.phase.family == INET6 then 1 else 0)
      + PerSource(c) * DnsFrom(c.lookups, s.phase.next)
  }

  lemma {:induction false} NextBudget(c: Config, s: State, p: nat, status: Status)
    requires p <= |c.lookups|
    ensures var n := NextLookup(c, s, p, status);
      n.phase.Searching? ==> n.phase.next <= |c.lookups| && Budget(c, n) + 1 == PerSource(c) * DnsFrom(c.lookups, p)
    decreases |c.lookups| - p
  {
    if p < |c.lookups| && c.lookups[p] != 'b' {
      var passed := if c.lookups[p] == 'f' then s.(consulted := s.consulted + [Consulted(p, File)]) else s;
      NextBudget(c, passed, p + 1, status);
    }
  }

  /** Each reply is paid for out of the budget, so the pair (sources left, AAAA pending) goes down with every search. */
  lemma BudgetShrinks(c: Config, s: State, r: Reply)
    requires s.phase.Searching? && 0 < s.phase.next <= |c.lookups|
    ensures OnReply(c, s, r).phase.Searching? ==>
      OnReply(c, s, r).phase.next <= |c.lookups| && Budget(c, OnReply(c, s, r)) < Budget(c, s)
  {
    NextBudget(c, s.(timeouts := s.timeouts + r.timeouts), s.phase.next, r.status);
  }

  /** At most one search for each DNS source, two when either family will do; so every run ends. */
  lemma {:induction false} SearchesBounded(c: Config, rs: seq<Reply>)
    requires IsRun(c, rs)
    ensures After(c, rs).phase.Searching? ==>
      |rs| + 1 + Budget(c, After(c, rs)) <= PerSource(c) * DnsFrom(c.lookups, 0)
    ensures |rs| <= PerSource(c) * DnsFrom(c.lookups, 0)
  {
    if rs == [] {
      NextBudget(c, State(Done, 0, [], []), 0, ECONNREFUSED);
    } else {
      RunPrefix(c, rs);
      SearchesBounded(c, rs[..|rs| - 1]);
      BudgetShrinks(c, After(c, rs[..|rs| - 1]), rs[|rs| - 1]);
    }
  }

  // ---------- The order of the sources ----------

  predicate IsSource(ch: char) { ch == 'b' || ch == 'f' }

  /** Positions of the sources before `e`, in order. */
  function Sources(lookups: seq<char>, e: nat): seq<nat>
    requires e <= |lookups|
  {
    if e == 0 then [] else Sources(lookups, e - 1) + (if IsSource(lookups[e - 1]) then [e - 1] else [])
  }

  /** A search for A records made because the one for AAAA records at the same source gave nothing. */
  predicate IsFallback(c: Config, e: Consulted) {
    FirstFamily(c) == INET6 && e.how == Dns(INET)
  }

  /** Positions consulted, fallbacks aside. */
  function Visited(c: Config, es: seq<Consulted>): seq<nat> {
    if es == [] then []
    else Visited(c, es[..|es| - 1]) + (if IsFallback(c, es[|es| - 1]) then [] else [es[|es| - 1].pos])
  }

  /** One event more, if it fits. */
  ghost predicate FitsAt(c: Config, es: seq<Consulted>, i: nat)
    requires i < |es|
  {
    && es[i].pos < |c.lookups|
    && (es[i].how == File ==> c.lookups[es[i].pos] == 'f')
    && (es[i].how.Dns? ==> c.lookups[es[i].pos] == 'b')
    && (IsFallback(c, es[i]) ==> i > 0 && es[i - 1] == Consulted(es[i].pos, Dns(INET6)))
  }

  /** Each source is consulted the way its letter says, and a fallback follows the search it stands in for. */
  ghost predicate Fitting(c: Config, es: seq<Consulted>) {
    forall i | 0 <= i < |es| :: FitsAt(c, es, i)
  }

  /** Where next_lookup stops when started at `p`: after the first source that takes over, or at the end. */
  function StopsAt(c: Config, p: nat): (e: nat)
    requires p <= |c.lookups|
    ensures p <= e <= |c.lookups|
    decreases |c.lookups| - p
  {
    if p == |c.lookups| then p
    else if c.lookups[p] == 'b' || (c.lookups[p] == 'f' && c.file(p).Some?) then p + 1
    else StopsAt(c, p + 1)
  }

  lemma FitsOneMore(c: Config, es: seq<Consulted>, last: Consulted)
    requires Fitting(c, es) && FitsAt(c, es + [last], |es|)
    ensures Fitting(c, es + [last])
  {
    var more := es + [last];
    forall i | 0 <= i < |more| ensures FitsAt(c, more, i) {
      if i < |es| {
        assert FitsAt(c, es, i);
        assert more[i] == es[i] && (i > 0 ==> more[i - 1] == es[i - 1]);
      }
    }
  }

  lemma FitOne(c: Config, es: seq<Consulted>, p: nat, how: How)
    requires p < |c.lookups| && IsSource(c.lookups[p]) && Fitting(c, es)
    requires how == (if c.lookups[p] == 'b' then Dns(FirstFamily(c)) else File)
    ensures Fitting(c, es + [Consulted(p, how)])
  {
    assert !IsFallback(c, Consulted(p, how));
    FitsOneMore(c, es, Consulted(p, how));
  }

  lemma VisitOne(c: Config, es: seq<Consulted>, p: nat, how: How)
    requires p < |c.lookups| && IsSource(c.lookups[p])
    requires Visited(c, es) == Sources(c.lookups, p)
    requires how == (if c.lookups[p] == 'b' then Dns(FirstFamily(c)) else File)
    requires Fitting(c, es)
    ensures Visited(c, es + [Consulted(p, how)]) == Sources(c.lookups, p + 1)
    ensures Fitting(c, es + [Consulted(p, how)])
  {
    var more := es + [Consulted(p, how)];
    assert more[..|more| - 1] == es;
    assert Visited(c, more) == Visited(c, es) + [p];
    FitOne(c, es, p, how);
  }

  lemma SkipOne(lookups: seq<char>, p: nat)
    requires p < |lookups|
    ensures !IsSource(lookups[p]) ==> Sources(lookups, p + 1) == Sources(lookups, p)
  {
  }

  lemma {:induction false} NextVisits(c: Config, s: State, p: nat, status: Status)
    requires p <= |c.lookups| && Visited(c, s.consulted) == Sources(c.lookups, p) && Fitting(c, s.consulted)
    ensures Visited(c, NextLookup(c, s, p, status).consulted) == Sources(c.lookups, StopsAt(c, p))
    ensures Fitting(c, NextLookup(c, s, p, status).consulted)
    ensures NextLookup(c, s, p, status).phase.Searching? ==> NextLookup(c, s, p, status).phase.next == StopsAt(c, p)
    ensures NextLookup(c, s, p, status).phase.Searching? ==>
      var es := NextLookup(c, s, p, status).consulted;
      es != [] && es[|es| - 1] == Consulted(StopsAt(c, p) - 1, Dns(FirstFamily(c)))
    decreases |c.lookups| - p
  {
    hide Visited;
    hide Sources;
    hide Fitting;
    if p < |c.lookups| {
      SkipOne(c.lookups, p);
      if c.lookups[p] == 'b' {
        VisitOne(c, s.consulted, p, Dns(FirstFamily(c)));
      } else if c.lookups[p] == 'f' {
        VisitOne(c, s.consulted, p, File);
        if c.file(p).None? {
          NextVisits(c, s.(consulted := s.consulted + [Consulted(p, File)]), p + 1, status);
        }
      } else {
        NextVisits(c, s, p + 1, status);
      }
    }
  }

  /** What holds between replies: `e` is where the lookup string has been read to. */
  ghost predicate InOrder(c: Config, s: State, e: nat) {
    && e <= |c.lookups|
    && Visited(c, s.consulted) == Sources(c.lookups, e) && Fitting(c, s.consulted)
    && (s.phase.Searching? ==>
      && s.phase.next == e && 0 < e && c.lookups[e - 1] == 'b'
      && s.consulted != [] && s.consulted[|s.consulted| - 1] == Consulted(e - 1, Dns(s.phase.family)))
  }

  lemma FallbackVisits(c: Config, es: seq<Consulted>, e: nat)
    requires 0 < e && FirstFamily(c) == INET6
    ensures Visited(c, es + [Consulted(e - 1, Dns(INET))]) == Visited(c, es)
  {
    var more := es + [Consulted(e - 1, Dns(INET))];
    assert more[..|more| - 1] == es;
    assert Visited(c, es) + [] == Visited(c, es);
  }

  lemma FallbackInOrder(c: Config, s: State, e: nat)
    requires InOrder(c, s, e) && s.phase.Searching? && FirstFamily(c) == INET6 && s.phase.family == INET6
    ensures InOrder(c, Search(s, s.phase.next, INET), e)
  {
    hide Visited;
    hide Sources;
    var es := s.consulted;
    FallbackVisits(c, es, e);
    FitsOneMore(c, es, Consulted(e - 1, Dns(INET)));
  }

  /** How far the lookup string has been read after some replies. */
  function ReadTo(c: Config, rs: seq<Reply>): (e: nat)
    ensures e <= |c.lookups|
  {
    if rs == [] then StopsAt(c, 0)
    else
      var before, r := rs[..|rs| - 1], rs[|rs| - 1];
      var s := After(c, before);
      if s.phase.Done? || FallsBack(c, s.phase.family, r) || r.status == SUCCESS || r.status == EDESTRUCTION
      then ReadTo(c, before)
      else StopsAt(c, ReadTo(c, before))
  }

  lemma StartInOrder(c: Config)
    ensures InOrder(c, Start(c), StopsAt(c, 0))
  {
    NextVisits(c, State(Done, 0, [], []), 0, ECONNREFUSED);
    NextBounds(c, State(Done, 0, [], []), 0, ECONNREFUSED);
  }

  lemma NextInOrder(c: Config, s: State, status: Status)
    requires s.phase.Searching? && InOrder(c, s, s.phase.next)
    ensures InOrder(c, NextLookup(c, s, s.phase.next, status), StopsAt(c, s.phase.next))
  {
    NextVisits(c, s, s.phase.next, status);
    NextBounds(c, s, s.phase.next, status);
  }

  /**
   * Sources are consulted in the order of the lookup string, none is skipped, and none comes after the last one read.
   */
  lemma {:induction false} SourcesInOrder(c: Config, rs: seq<Reply>)
    ensures InOrder(c, After(c, rs), ReadTo(c, rs))
  {
    hide Visited;
    hide Sources;
    hide Fitting;
    hide StopsAt;
    hide NextLookup;
    if rs == [] {
      StartInOrder(c);
    } else {
      var before, r := rs[..|rs| - 1], rs[|rs| - 1];
      SourcesInOrder(c, before);
      var s := After(c, before);
      if s.phase.Searching? {
        var t := s.(timeouts := s.timeouts + r.timeouts);
        if FallsBack(c, s.phase.family, r) {
          FallbackInOrder(c, t, ReadTo(c, before));
        } else if r.status != SUCCESS && r.status != EDESTRUCTION {
          NextInOrder(c, t, r.status);
        }
      }
    }
  }

  // ---------- The status reported ----------

  /** From `p` on there is no DNS source, and the hosts file has nothing. */
  ghost predicate NothingFrom(c: Config, p: nat) {
    forall i | p <= i < |c.lookups| :: c.lookups[i] != 'b' && (c.lookups[i] == 'f' ==> c.file(i).None?)
  }

  /** `i` is the first source from `p` on that takes over, and it is the hosts file. */
  ghost predicate FileAnswers(c: Config, p: nat, i: nat) {
    && p <= i < |c.lookups| && c.lookups[i] == 'f' && c.file(i).Some?
    && forall j | p <= j < i :: c.lookups[j] != 'b' && (c.lookups[j] == 'f' ==> c.file(j).None?)
  }

  lemma {:induction false} NextReports(c: Config, s: State, p: nat, status: Status)
    requires p <= |c.lookups| && s.calls == []
    ensures var n := NextLookup(c, s, p, status);
      n.phase.Done? ==>
        || (NothingFrom(c, p) && n.calls == [Call(if c.kind.ByName? then status else ENOTFOUND, s.timeouts, None)])
        || (exists i :: FileAnswers(c, p, i) && n.calls == [Call(SUCCESS, s.timeouts, c.file(i))])
    ensures NextLookup(c, s, p, status).phase.Searching? ==> !NothingFrom(c, p)
    decreases |c.lookups| - p
  {
    if p < |c.lookups| && c.lookups[p] != 'b' {
      if c.lookups[p] == 'f' {
        if c.file(p).Some? {
          assert FileAnswers(c, p, p);
        } else {
          NextReportsLater(c, s.(consulted := s.consulted + [Consulted(p, File)]), p, status);
        }
      } else {
        NextReportsLater(c, s, p, status);
      }
    }
  }

  lemma {:induction false} NextReportsLater(c: Config, s: State, p: nat, status: Status)
    requires p < |c.lookups| && s.calls == [] && c.lookups[p] != 'b' && (c.lookups[p] == 'f' ==> c.file(p).None?)
    ensures var n := NextLookup(c, s, p + 1, status);
      n.phase.Done? ==>
        || (NothingFrom(c, p) && n.calls == [Call(if c.kind.ByName? then status else ENOTFOUND, s.timeouts, None)])
        || (exists i :: FileAnswers(c, p, i) && n.calls == [Call(SUCCESS, s.timeouts, c.file(i))])
    ensures NextLookup(c, s, p + 1, status).phase.Searching? ==> !NothingFrom(c, p)
    decreases |c.lookups| - p, 0
  {
    NextReports(c, s, p + 1, status);
    var n := NextLookup(c, s, p + 1, status);
    if n.phase.Done? && !NothingFrom(c, p) {
      var i :| FileAnswers(c, p + 1, i) && n.calls == [Call(SUCCESS, s.timeouts, c.file(i))];
      assert FileAnswers(c, p, i);
    }
  }

  /** What a run that has ended reported. */
  ghost predicate Reports(c: Config, rs: seq<Reply>, call: Call) {
    if rs == [] then
      || (NothingFrom(c, 0) && call == Call(if c.kind.ByName? then ECONNREFUSED else ENOTFOUND, 0, None))
      || (exists i :: FileAnswers(c, 0, i) && call == Call(SUCCESS, 0, c.file(i)))
    else
      var r, e := rs[|rs| - 1], ReadTo(c, rs[..|rs| - 1]);
      if r.status == SUCCESS then call == Call(r.parsed, Sum(rs), r.host)
      else if r.status == EDESTRUCTION then call == Call(EDESTRUCTION, Sum(rs), None)
      else
        || (NothingFrom(c, e) && call == Call(if c.kind.ByName? then r.status else ENOTFOUND, Sum(rs), None))
        || (exists i :: FileAnswers(c, e, i) && call == Call(SUCCESS, Sum(rs), c.file(i)))
  }

  /**
    * The one call carries what the source that ended the run gave; when the sources ran out, the status of the last
    * search, or connection refused if there was none (a lookup by address always says not found).
    */
  lemma RunReports(c: Config, rs: seq<Reply>)
    requires IsRun(c, rs) && After(c, rs).phase.Done?
    ensures |After(c, rs).calls| == 1 && Reports(c, rs, After(c, rs).calls[0])
  {
    if rs == [] {
      NextReports(c, State(Done, 0, [], []), 0, ECONNREFUSED);
    } else {
      var before, r := rs[..|rs| - 1], rs[|rs| - 1];
      RunPrefix(c, rs);
      CalledOnce(c, before);
      TimeoutsAddUp(c, before);
      SourcesInOrder(c, before);
      var s := After(c, before);
      NextReports(c, s.(timeouts := s.timeouts + r.timeouts), s.phase.next, r.status);
    }
  }
}
