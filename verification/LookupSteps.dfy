/** Each step of a host lookup, with the statuses and families written out. */
module LookupSteps {
  import opened Ares
  import opened Lookup

  /** A reply to a search for AAAA records after which A records are asked for, if either family will do. */
  ghost predicate Useless(r: Reply) {
    || r.status in {ENODATA, EBADRESP, ETIMEOUT}
    || (r.status == SUCCESS && r.parsed in {ENODATA, EBADRESP})
    || (r.status == SUCCESS && r.parsed == SUCCESS && r.host.Some? && r.host.value.addrs == [])
  }

  /** The family of the first search at a source. */
  ghost predicate AskedFirst(kind: Kind, family: Family) {
    match kind
    case ByName(Only(f)) => family == f
    case ByName(UNSPEC) => family == INET6
    case ByName(UnknownFamily) => family == INET
    case ByAddr => family == INET
  }

  /** The source at `i` is the first from `p` on that takes over: DNS, or a hosts file that knows the name. */
  ghost predicate TakesOver(c: Config, p: nat, i: nat) {
    && p <= i < |c.lookups| && (c.lookups[i] == 'b' || (c.lookups[i] == 'f' && c.file(i).Some?))
    && forall j | p <= j < i :: c.lookups[j] != 'b' && (c.lookups[j] == 'f' ==> c.file(j).None?)
  }

  /** What comes of going through the sources from `p` on, with `status` so far. */
  ghost predicate GoesOn(c: Config, s: State, p: nat, status: Status, t: State) {
    && (forall i: nat | TakesOver(c, p, i) ::
          if c.lookups[i] == 'b' then
            t.phase.Searching? && t.phase.next == i + 1 && AskedFirst(c.kind, t.phase.family) && t.calls == s.calls
          else
            t.phase.Done? && t.calls == s.calls + [Call(SUCCESS, s.timeouts, c.file(i))])
    && (NothingFrom(c, p) ==>
          && t.phase.Done?
          && t.calls == s.calls + [Call(if c.kind == ByAddr then ENOTFOUND else status, s.timeouts, None)])
  }

  lemma TakesOverLater(c: Config, p: nat)
    requires p < |c.lookups| && c.lookups[p] != 'b' && (c.lookups[p] == 'f' ==> c.file(p).None?)
    ensures forall i: nat :: TakesOver(c, p, i) <==> TakesOver(c, p + 1, i)
    ensures NothingFrom(c, p) <==> NothingFrom(c, p + 1)
  {
  }

  lemma SourceTakesOver(c: Config, s: State, p: nat, status: Status)
    requires p < |c.lookups| && (c.lookups[p] == 'b' || (c.lookups[p] == 'f' && c.file(p).Some?))
    ensures GoesOn(c, s, p, status, NextLookup(c, s, p, status))
  {
    assert forall i: nat | TakesOver(c, p, i) :: i == p;
  }

  lemma GoesOnLater(c: Config, s: State, passed: State, p: nat, status: Status, t: State)
    requires p < |c.lookups| && c.lookups[p] != 'b' && (c.lookups[p] == 'f' ==> c.file(p).None?)
    requires GoesOn(c, passed, p + 1, status, t) && passed.calls == s.calls && passed.timeouts == s.timeouts
    ensures GoesOn(c, s, p, status, t)
  {
    TakesOverLater(c, p);
    hide TakesOver;
    hide NothingFrom;
  }

  lemma NoSourceLeft(c: Config, s: State, status: Status)
    ensures GoesOn(c, s, |c.lookups|, status, NextLookup(c, s, |c.lookups|, status))
  {
  }

  lemma {:induction false} NextGoesOn(c: Config, s: State, p: nat, status: Status)
    requires p <= |c.lookups|
    ensures GoesOn(c, s, p, status, NextLookup(c, s, p, status))
    decreases |c.lookups| - p
  {
    hide GoesOn;
    if p == |c.lookups| {
      NoSourceLeft(c, s, status);
    } else if c.lookups[p] == 'b' || (c.lookups[p] == 'f' && c.file(p).Some?) {
      SourceTakesOver(c, s, p, status);
    } else {
      var passed := if c.lookups[p] == 'f' then s.(consulted := s.consulted + [Consulted(p, File)]) else s;
      NextGoesOn(c, passed, p + 1, status);
      GoesOnLater(c, s, passed, p, status, NextLookup(c, passed, p + 1, status));
    }
  }

  /** One of the two cases of `GoesOn` applies. */
  lemma {:induction false} SomethingOrNothing(c: Config, p: nat)
    requires p <= |c.lookups|
    ensures NothingFrom(c, p) || exists i: nat :: TakesOver(c, p, i)
    decreases |c.lookups| - p
  {
    if p < |c.lookups| {
      if c.lookups[p] == 'b' || (c.lookups[p] == 'f' && c.file(p).Some?) {
        assert TakesOver(c, p, p);
      } else {
        SomethingOrNothing(c, p + 1);
        TakesOverLater(c, p);
        if !NothingFrom(c, p) {
          var i: nat :| TakesOver(c, p + 1, i);
          assert TakesOver(c, p, i);
        }
      }
    }
  }

  /** A lookup starts with the first source; without any, the connection is refused. */
  lemma StartDecides(c: Config)
    ensures GoesOn(c, State(Done, 0, [], []), 0, ECONNREFUSED, After(c, []))
  {
    NextGoesOn(c, State(Done, 0, [], []), 0, ECONNREFUSED);
  }

  lemma AfterOne(c: Config, rs: seq<Reply>, r: Reply)
    requires After(c, rs).phase.Searching?
    ensures After(c, rs + [r]) == OnReply(c, After(c, rs), r)
  {
    hide OnReply;
    var more := rs + [r];
    assert more[..|more| - 1] == rs && more[|more| - 1] == r;
  }

  lemma OnReplyIs(c: Config, s: State, r: Reply)
    requires s.phase.Searching? && 0 < s.phase.next <= |c.lookups|
    ensures var t, sum := OnReply(c, s, r), s.timeouts + r.timeouts;
      && t.timeouts == sum
      && if c.kind == ByName(UNSPEC) && s.phase.family == INET6 && Useless(r) then
           t.phase == Searching(s.phase.next, INET) && t.calls == s.calls
         else if r.status == SUCCESS then t.phase == Done && t.calls == s.calls + [Call(r.parsed, sum, r.host)]
         else if r.status == EDESTRUCTION then t.phase == Done && t.calls == s.calls + [Call(EDESTRUCTION, sum, None)]
         else GoesOn(c, s.(timeouts := sum), s.phase.next, r.status, t)
  {
    hide NextLookup;
    hide GoesOn;
    NextGoesOn(c, s.(timeouts := s.timeouts + r.timeouts), s.phase.next, r.status);
    NextBounds(c, s.(timeouts := s.timeouts + r.timeouts), s.phase.next, r.status);
  }

  /**
   * What a reply does to a lookup that waits for one. After a useless answer to a search for AAAA records, and only
   * then, A records are asked for at the same source. Otherwise a success or the destruction of the channel ends the
   * lookup, and any other status makes it go on to the next source.
   */
  lemma ReplyDecides(c: Config, rs: seq<Reply>, r: Reply)
    requires After(c, rs).phase.Searching?
    ensures var s, t := After(c, rs), After(c, rs + [r]);
      var sum := s.timeouts + r.timeouts;
      && t.timeouts == sum
      && if c.kind == ByName(UNSPEC) && s.phase.family == INET6 && Useless(r) then
           t.phase == Searching(s.phase.next, INET) && t.calls == s.calls
         else if r.status == SUCCESS then t.phase == Done && t.calls == s.calls + [Call(r.parsed, sum, r.host)]
         else if r.status == EDESTRUCTION then t.phase == Done && t.calls == s.calls + [Call(EDESTRUCTION, sum, None)]
         else GoesOn(c, s.(timeouts := sum), s.phase.next, r.status, t)
  {
    hide GoesOn;
    hide After;
    AfterOne(c, rs, r);
    OnReplyIs(c, After(c, rs), r);
  }

  /** The fallback by itself: exactly when the lookup is for either family and the answer was useless. */
  lemma FallbackDecides(c: Config, rs: seq<Reply>, r: Reply)
    requires After(c, rs).phase.Searching? && After(c, rs).phase.family == INET6
    ensures After(c, rs + [r]).phase == Searching(After(c, rs).phase.next, INET) <==>
      c.kind == ByName(UNSPEC) && Useless(r)
  {
    var s := After(c, rs);
    ReplyDecides(c, rs, r);
    SomethingOrNothing(c, s.phase.next);
  }
}
