/**
  * The lookup record of ares_gethostbyname and ares_gethostbyaddr in memory, and the functions that drive it. A search
  * may call back before it returns, so every function below may find the record released when a search it started
  * comes back; the record's fields are reachable only while it is live.
  */
module HostLookup {
  import opened Ares
  import opened Bytes
  import opened Numbers
  import opened Lookup

  /** Replies delivered one after the other while a search is out. */
  function Feed(c: Config, s: State, rs: seq<Reply>): (t: State)
    requires s.phase.Searching? ==> 0 < s.phase.next <= |c.lookups|
    ensures t.phase.Searching? ==> 0 < t.phase.next <= |c.lookups|
    decreases |rs|
  {
    if rs == [] || s.phase.Done? then s
    else
      NextBounds(c, s.(timeouts := s.timeouts + rs[0].timeouts), s.phase.next, rs[0].status);
      Feed(c, OnReply(c, s, rs[0]), rs[1..])
  }

  /** Feeding replies in several instalments, nested or not, is the run over all of them. */
  lemma {:induction false} FeedIsRun(c: Config, rs: seq<Reply>, more: seq<Reply>)
    ensures Feed(c, After(c, rs), more) == After(c, rs + more)
    decreases |more|
  {
    if more == [] {
      assert rs + more == rs;
    } else {
      var longer := rs + [more[0]];
      assert longer[..|longer| - 1] == rs;
      assert longer + more[1..] == rs + more;
      FeedIsRun(c, longer, more[1..]);
      if After(c, rs).phase.Done? {
        assert After(c, longer) == After(c, rs);
      }
    }
  }

  /** struct host_query or struct addr_query. */
  class Record {
    var live: bool
    var remaining: nat
    var sent: Option<Family>
    var timeouts: nat

    constructor ()
      ensures live && remaining == 0 && timeouts == 0
    {
      live, remaining, sent, timeouts := true, 0, None, 0;
    }

    function Remaining(): nat
      requires live
      reads this
    { remaining }

    function Sent(): Option<Family>
      requires live
      reads this
    { sent }

    function Timeouts(): nat
      requires live
      reads this
    { timeouts }

    method AddTimeouts(n: nat)
      requires live
      modifies this`timeouts
      ensures timeouts == old(timeouts) + n
    {
      timeouts := timeouts + n;
    }

    method Sending(next: nat, family: Family)
      requires live
      modifies this`remaining, this`sent
      ensures remaining == next && sent == Some(family)
    {
      remaining, sent := next, Some(family);
    }

    method Free()
      requires live
      modifies this`live
      ensures !live
    {
      live := false;
    }
  }

  /** One lookup: its record, and what the outside has seen of it. */
  class HostLookup {
    const c: Config
    const q: Record
    var consulted: seq<Consulted>
    var calls: seq<Call>

    /** Record and log are those of state `s`, the phase aside. */
    ghost predicate Carries(s: State)
      reads this, q
    {
      q.live && q.timeouts == s.timeouts && consulted == s.consulted && calls == s.calls
    }

    /** Record and log are those of state `s`: the record is gone exactly when the run is over. */
    ghost predicate Stands(s: State)
      reads this, q
    {
      && consulted == s.consulted && calls == s.calls
      && q.live == s.phase.Searching?
      && (q.live ==> q.timeouts == s.timeouts && q.sent.Some? && s.phase == Searching(q.remaining, q.sent.value))
    }

    /** end_hquery and end_aquery. */
    method EndQuery(status: Status, host: Option<Entry>, ghost s: State)
      requires Carries(s)
      modifies this, q
      ensures Stands(End(s, status, host))
    {
      calls := calls + [Call(status, q.Timeouts(), host)];
      q.Free();
    }

    /** next_lookup. */
    method NextLookup(status: Status, script: seq<Reply>, ghost s: State)
      requires Carries(s) && q.remaining <= |c.lookups|
      requires Lookup.NextLookup(c, s, q.remaining, status).phase.Searching? ==>
        0 < Lookup.NextLookup(c, s, q.remaining, status).phase.next <= |c.lookups|
      modifies this, q
      ensures Stands(Feed(c, Lookup.NextLookup(c, s, old(q.remaining), status), script))
      decreases |script|, 2
    {
      ghost var goal := Lookup.NextLookup(c, s, q.remaining, status);
      var p, host := q.Remaining(), None;
      while p < |c.lookups| && c.lookups[p] != 'b' && host.None?
        invariant p <= |c.lookups| && Carries(s.(consulted := consulted))
        invariant host.None? ==> goal == Lookup.NextLookup(c, s.(consulted := consulted), p, status)
        invariant host.Some? ==> goal == End(s.(consulted := consulted), SUCCESS, host)
        decreases |c.lookups| - p, host.None?
      {
        if c.lookups[p] == 'f' {
          consulted := consulted + [Consulted(p, File)];
          host := c.file(p);
        }
        p := p + 1;
      }
      ghost var t := s.(consulted := consulted);
      if host.Some? {
        EndQuery(SUCCESS, host, t);
      } else if p < |c.lookups| {
        Search(p + 1, FirstFamily(c), script, t);
      } else {
        EndQuery(if c.kind.ByName? then status else ENOTFOUND, None, t);
      }
    }

    /** ares_gethostbyname or ares_gethostbyaddr once their arguments are in order; `script` is delivered at once. */
    constructor (c: Config, script: seq<Reply>)
      ensures this.c == c && fresh(q)
      ensures Stands(After(c, script))
    {
      this.c := c;
      q := new Record();
      consulted, calls := [], [];
      new;
      ghost var s := State(Done, 0, [], []);
      NextBounds(c, s, 0, ECONNREFUSED);
      NextLookup(ECONNREFUSED, script, s);
      FeedIsRun(c, [], script);
      assert [] + script == script;
    }

    /** ares_search and ares_query: those replies that are already there are delivered before it returns. */
    method Search(next: nat, family: Family, script: seq<Reply>, ghost s: State)
      requires Carries(s) && 0 < next <= |c.lookups|
      modifies this, q
      ensures Stands(Feed(c, Lookup.Search(s, next, family), script))
      decreases |script|, 1
    {
      q.Sending(next, family);
      consulted := consulted + [Consulted(next - 1, Dns(family))];
      if script != [] {
        Callback(script[0], script[1..], Lookup.Search(s, next, family));
      }
    }

    /** host_callback and addr_callback. */
    method Callback(r: Reply, script: seq<Reply>, ghost s: State)
      requires Stands(s) && s.phase.Searching? && 0 < s.phase.next <= |c.lookups|
      modifies this, q
      ensures Stands(Feed(c, s, [r] + script))
      decreases |script|, 3
    {
      q.AddTimeouts(r.timeouts);
      ghost var t := s.(timeouts := s.timeouts + r.timeouts);
      NextBounds(c, t, s.phase.next, r.status);
      assert ([r] + script)[1..] == script;
      if FallsBack(c, q.Sent().value, r) {
        Search(q.Remaining(), INET, script, t);
      } else if r.status == SUCCESS {
        EndQuery(r.parsed, r.host, t);
      } else if r.status == EDESTRUCTION {
        EndQuery(r.status, None, t);
      } else {
        NextLookup(r.status, script, t);
      }
    }

    /** A reply that comes later, whatever came before it. */
    method Deliver(ghost rs: seq<Reply>, r: Reply, script: seq<Reply>)
      requires Stands(After(c, rs)) && q.live
      modifies this, q
      ensures Stands(After(c, rs + [r] + script))
      ensures q.live ==> calls == []
      ensures !q.live ==> |calls| == 1
    {
      Callback(r, script, After(c, rs));
      FeedIsRun(c, rs, [r] + script);
      assert rs + ([r] + script) == rs + [r] + script;
      CalledOnce(c, rs + [r] + script);
    }
  }

  // ---------- The entry points ----------

  function Dots(s: seq<byte>): nat {
    if s == [] then 0 else Dots(s[..|s| - 1]) + (if s[|s| - 1] == DOT then 1 else 0)
  }

  /** All digits and dots, with three dots. */
  ghost predicate LooksNumeric(name: seq<byte>) {
    Dots(name) == 3 && forall i | 0 <= i < |name| :: IsDigit(name[i]) || name[i] == DOT
  }

  /** The entry for a name that is itself an address. A dotted quad is taken as one whichever family is asked for. */
  ghost function Literal(c: Conv, want: Want, name: seq<byte>): Option<Entry> {
    if !want.Only? then None
    else if LooksNumeric(name) && c.v4(name).Some? then Some(Entry(name, INET, [c.v4(name).value]))
    else if want == Only(INET6) && c.v6(name).Some? then Some(Entry(name, INET6, [c.v6(name).value]))
    else None
  }

  /** The scan of fake_hostent. */
  method ScanNumeric(name: seq<byte>) returns (numeric: bool)
    ensures numeric == LooksNumeric(name)
  {
    var numdots, valid, i := 0, true, 0;
    while i < |name| && valid
      invariant i <= |name|
      invariant valid ==> numdots == Dots(name[..i]) && forall j | 0 <= j < i :: IsDigit(name[j]) || name[j] == DOT
      invariant !valid ==> exists j | 0 <= j < |name| :: !IsDigit(name[j]) && name[j] != DOT
      decreases valid, |name| - i
    {
      assert name[..i + 1][..i] == name[..i];
      if !IsDigit(name[i]) && name[i] != DOT {
        valid := false;
      } else if name[i] == DOT {
        numdots := numdots + 1;
      }
      i := i + 1;
    }
    assert valid ==> name[..i] == name;
    numeric := numdots == 3 && valid;
  }

  /** fake_hostent, but for the copy of the name. */
  method FakeHostent(c: Conv, want: Want, name: seq<byte>) returns (entry: Option<Entry>)
    ensures entry == Literal(c, want, name)
  {
    entry := None;
    if want.Only? {
      var numeric := ScanNumeric(name);
      if numeric && c.v4(name).Some? {
        entry := Some(Entry(name, INET, [c.v4(name).value]));
      } else if want == Only(INET6) && c.v6(name).Some? {
        entry := Some(Entry(name, INET6, [c.v6(name).value]));
      }
    }
  }

  /** One call per lookup: none while a search is out, and one otherwise. */
  ghost predicate CalledIfOver(calls: seq<Call>, lookup: HostLookup?)
    reads lookup, if lookup == null then {} else {lookup.q}
  {
    |calls| == if lookup != null && lookup.q.live then 0 else 1
  }

  /**
    * ares_gethostbyname: an unknown family, a literal address, and a lookup that needs a record. `refuses` says which
    * of its requests for memory fail: the copy of a literal's name, or the record and the copy of the name.
    */
  method GetHostByName(c: Config, conv: Conv, name: seq<byte>, refuses: nat -> bool, script: seq<Reply>)
      returns (calls: seq<Call>, lookup: HostLookup?)
    requires c.kind.ByName?
    ensures CalledIfOver(calls, lookup)
    ensures c.kind.want == UnknownFamily ==> lookup == null && calls == [Call(ENOTIMP, 0, None)]
    ensures c.kind.want != UnknownFamily && Literal(conv, c.kind.want, name).Some? ==>
      lookup == null &&
      calls == [if refuses(0) then Call(ENOMEM, 0, None) else Call(SUCCESS, 0, Literal(conv, c.kind.want, name))]
    ensures c.kind.want != UnknownFamily && Literal(conv, c.kind.want, name).None? && (refuses(0) || refuses(1)) ==>
      lookup == null && calls == [Call(ENOMEM, 0, None)]
    ensures c.kind.want != UnknownFamily && Literal(conv, c.kind.want, name).None? && !refuses(0) && !refuses(1) ==>
      lookup != null && lookup.c == c && lookup.Stands(After(c, script)) && calls == lookup.calls
  {
    lookup := null;
    if c.kind.want == UnknownFamily {
      calls := [Call(ENOTIMP, 0, None)];
    } else {
      var entry := FakeHostent(conv, c.kind.want, name);
      if entry.Some? {
        calls := [if refuses(0) then Call(ENOMEM, 0, None) else Call(SUCCESS, 0, entry)];
      } else if refuses(0) || refuses(1) {
        calls := [Call(ENOMEM, 0, None)];
      } else {
        lookup := new HostLookup(c, script);
        calls := lookup.calls;
        CalledOnce(c, script);
      }
    }
  }

  /** ares_gethostbyaddr: the family must be known and the length must be its own. */
  method GetHostByAddr(c: Config, family: Want, addrlen: int, refuses: nat -> bool, script: seq<Reply>)
      returns (calls: seq<Call>, lookup: HostLookup?)
    requires c.kind.ByAddr?
    ensures CalledIfOver(calls, lookup)
    ensures !((family == Only(INET) && addrlen == 4) || (family == Only(INET6) && addrlen == 16)) ==>
      lookup == null && calls == [Call(ENOTIMP, 0, None)]
    ensures (family == Only(INET) && addrlen == 4) || (family == Only(INET6) && addrlen == 16) ==>
      if refuses(0) then lookup == null && calls == [Call(ENOMEM, 0, None)]
      else lookup != null && lookup.c == c && lookup.Stands(After(c, script)) && calls == lookup.calls
  {
    lookup := null;
    if !family.Only? {
      calls := [Call(ENOTIMP, 0, None)];
    } else if (family.family == INET && addrlen != 4) || (family.family == INET6 && addrlen != 16) {
      calls := [Call(ENOTIMP, 0, None)];
    } else if refuses(0) {
      calls := [Call(ENOMEM, 0, None)];
    } else {
      lookup := new HostLookup(c, script);
      calls := lookup.calls;
      CalledOnce(c, script);
    }
  }
}
