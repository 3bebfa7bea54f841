/** ares_parse_a_reply and ares_parse_aaaa_reply: one pass over the records, into arrays sized by the header. */
module ParseReply {
  import opened Ares
  import opened Bytes
  import opened Memory
  import opened Records
  import opened Reply

  datatype AddrTtl = AddrTtl(addr: seq<byte>, ttl: int)

  /** A host entry and every block it owns; `addrBlock` is Null when there are no addresses. */
  datatype Hostent = Hostent(
    self: Block, name: Block, aliasList: Block, aliases: seq<Block>,
    addrList: Block, addrBlock: Block, addrs: seq<seq<byte>>)
  {
    function Blocks(): multiset<Block> {
      (if addrBlock == Null then multiset{} else multiset{addrBlock}) + multiset{aliasList} + multiset(aliases)
      + multiset{name} + multiset{self} + multiset{addrList}
    }
  }

  /** The names held by blocks. */
  function Texts(bs: seq<Block>): (ts: seq<seq<byte>>)
    ensures |ts| == |bs|
  {
    seq(|bs|, i requires 0 <= i < |bs| => if bs[i].Str? then bs[i].text else [])
  }

  /** The caller's TTL array holds the addresses so far, as many as it has room for. */
  ghost predicate TtlsFilled(a: Answer, ttls: seq<AddrTtl>, max: int) {
    && max <= |ttls| && |a.ttls| == |a.addrs|
    && forall k | 0 <= k < |a.addrs| && k < max :: ttls[k] == AddrTtl(a.addrs[k], a.ttls[k])
  }

  /** The kept arrays hold what the fold has gathered, when they are wanted at all. */
  ghost predicate Stored(a: Answer, want: bool, addrs: seq<seq<byte>>, aliases: seq<Block>) {
    want ==>
      && |a.addrs| <= |addrs| && addrs[..|a.addrs|] == a.addrs
      && |a.aliases| <= |aliases| && Texts(aliases[..|a.aliases|]) == a.aliases
  }

  /** The variables of the record loop: `hostname`, the arrays with their counts, `addrttls` and `cname_ttl`. */
  datatype Work = Work(host: Block, addrs: seq<seq<byte>>, naddrs: nat, aliases: seq<Block>, naliases: nat,
                       ttls: seq<AddrTtl>, cnameTtl: int)

  /** The variables hold what the fold has gathered. */
  ghost predicate Holds(a: Answer, w: Work, want: bool, max: int) {
    && w.host.Str? && w.host.text == a.name && w.cnameTtl == a.cnameTtl
    && w.naddrs == |a.addrs| && w.naliases == |a.aliases|
    && Stored(a, want, w.addrs, w.aliases) && TtlsFilled(a, w.ttls, max)
  }

  /** The first `n` aliases, when aliases are kept at all. */
  ghost function Kept(want: bool, aliases: seq<Block>, n: nat): multiset<Block>
    requires want ==> n <= |aliases|
  {
    if want then multiset(aliases[..n]) else multiset{}
  }

  /** Live, beside `base`: the current name and the aliases kept. */
  ghost predicate Owns(live: multiset<Block>, base: multiset<Block>, want: bool, aliases: seq<Block>, naliases: nat,
                       host: Block) {
    (want ==> naliases <= |aliases|) && live == base + Kept(want, aliases, naliases) + multiset{host}
  }

  ghost predicate OwnsWork(live: multiset<Block>, base: multiset<Block>, want: bool, w: Work) {
    Owns(live, base, want, w.aliases, w.naliases, w.host)
  }

  /** There is room for `left` more records in the arrays. */
  ghost predicate Fits(w: Work, want: bool, left: nat) {
    want ==> w.naddrs + left <= |w.addrs| && w.naliases + left <= |w.aliases|
  }

  /** Nothing was written at `n` or beyond, nor at `max` or beyond. */
  ghost predicate Untouched(before: seq<AddrTtl>, after: seq<AddrTtl>, n: nat, max: int) {
    |before| == |after| && forall k | 0 <= k < |before| && (n <= k || max <= k) :: after[k] == before[k]
  }

  /** One record further: at most one address or alias more, and nothing else written. */
  ghost predicate Further(w: Work, w': Work, max: int) {
    && |w'.addrs| == |w.addrs| && |w'.aliases| == |w.aliases|
    && w.naddrs <= w'.naddrs && w.naliases <= w'.naliases && w'.naddrs + w'.naliases <= w.naddrs + w.naliases + 1
    && Untouched(w.ttls, w'.ttls, w'.naddrs, max)
  }

  ghost function MoreAddress(a: Answer, data: seq<byte>, ttl: int): Answer {
    a.(addrs := a.addrs + [data], ttls := a.ttls + [ttl])
  }

  ghost function MoreAlias(a: Answer, target: seq<byte>, owner: seq<byte>, ttl: int): Answer {
    a.(name := target, aliases := a.aliases + [owner], cnameTtl := if a.cnameTtl > ttl then ttl else a.cnameTtl)
  }

  /** The address branch: into the array, and into the caller's array while there is room. */
  method StoreAddress(data: seq<byte>, ttl: int, want: bool, addrs: seq<seq<byte>>, naddrs: nat,
                      ttls: seq<AddrTtl>, max: int, ghost a: Answer, ghost aliases: seq<Block>)
      returns (addrs': seq<seq<byte>>, ttls': seq<AddrTtl>)
    requires naddrs == |a.addrs| && (want ==> naddrs < |addrs|)
    requires Stored(a, want, addrs, aliases) && TtlsFilled(a, ttls, max)
    ensures Stored(MoreAddress(a, data, ttl), want, addrs', aliases) && |addrs'| == |addrs|
    ensures TtlsFilled(MoreAddress(a, data, ttl), ttls', max)
    ensures Untouched(ttls, ttls', naddrs + 1, max)
  {
    addrs', ttls' := addrs, ttls;
    if want {
      addrs' := addrs'[naddrs := data];
      assert addrs'[..naddrs + 1] == addrs[..naddrs] + [data];
    }
    if naddrs < max { ttls' := ttls'[naddrs := AddrTtl(data, ttl)]; }
  }

  lemma KeepOne(before: seq<Block>, after: seq<Block>, n: nat, name: Block)
    requires n < |before| && after == before[n := name]
    ensures after[..n + 1] == before[..n] + [name]
    ensures Kept(true, after, n + 1) == Kept(true, before, n) + multiset{name}
  {
    assert after[..n + 1] == before[..n] + [name];
  }

  lemma KeepNone(before: seq<Block>, after: seq<Block>, n: nat)
    ensures Kept(false, after, n + 1) == Kept(false, before, n) == multiset{}
  {
  }

  lemma StoreAlias(a: Answer, b: Answer, want: bool, addrs: seq<seq<byte>>, before: seq<Block>, after: seq<Block>,
                   name: Block, ttls: seq<AddrTtl>, max: int)
    requires Stored(a, want, addrs, before) && TtlsFilled(a, ttls, max) && name.Str?
    requires b.addrs == a.addrs && b.ttls == a.ttls && b.aliases == a.aliases + [name.text]
    requires want ==> |a.aliases| < |before| && after == before[|a.aliases| := name]
    ensures Stored(b, want, addrs, after) && TtlsFilled(b, ttls, max)
  {
    if want {
      var n := |a.aliases|;
      KeepOne(before, after, n, name);
      assert Texts(after[..n + 1]) == Texts(before[..n]) + [name.text];
    }
  }

  /** The alias branch: keep or release the owner's name, then follow the record to its target. */
  method FollowAlias(heap: Heap, msg: seq<byte>, host: Block, name: Block, target: nat, want: bool,
                     aliases: seq<Block>, naliases: nat, ghost base: multiset<Block>)
      returns (status: Status, host': Block, aliases': seq<Block>)
    requires heap.Valid() && name.Str? && host.Str?
    requires want ==> naliases < |aliases|
    requires Owns(heap.live, base + multiset{name}, want, aliases, naliases, host)
    modifies heap
    ensures heap.Valid()
    ensures status == SUCCESS || status == EBADRESP || status == ENOMEM
    ensures status == SUCCESS ==> host'.Str? && NameAt(msg, target) == Some(host'.text)
    ensures status == EBADRESP ==> NameAt(msg, target).None?
    ensures aliases' == if want then aliases[naliases := name] else aliases
    ensures Owns(heap.live, base, want, aliases', naliases + 1, host')
    ensures heap.failures == old(heap.failures) + if status == ENOMEM then 1 else 0
    ensures status != EBADRESP ==> heap.asked == old(heap.asked) + 1
  {
    hide NameAt;
    hide Heap.Valid;
    hide Kept;
    aliases' := aliases;
    Regroup(base, multiset{name}, Kept(want, aliases, naliases), multiset{host});
    if want {
      aliases' := aliases'[naliases := name];
      KeepOne(aliases, aliases', naliases, name);
    } else {
      KeepNone(aliases, aliases', naliases);
      heap.Free(name);
    }
    ghost var rest := base + Kept(want, aliases', naliases + 1);
    assert heap.live == rest + multiset{host};
    host' := host;
    var data, len;
    status, data, len := ExpandForResponse(heap, msg, target);
    if status == SUCCESS {
      Swap(rest, host, data);
      heap.Free(host);
      host' := data;
    }
    assert heap.live == rest + multiset{host'};
  }

  /** Releasing a name that is held beside everything else. */
  method Release(heap: Heap, name: Block, ghost base: multiset<Block>, want: bool, ghost w: Work)
    requires heap.Valid() && OwnsWork(heap.live, base + multiset{name}, want, w)
    modifies heap
    ensures heap.Valid() && OwnsWork(heap.live, base, want, w)
    ensures heap.failures == old(heap.failures) && heap.asked == old(heap.asked)
  {
    hide Heap.Valid;
    hide Kept;
    Regroup(base, multiset{name}, Kept(want, w.aliases, w.naliases), multiset{w.host});
    heap.Free(name);
  }

  lemma StepCases(msg: seq<byte>, f: Family, a: Answer, r: Record)
    requires r.data + r.len <= |msg|
    ensures IsAddress(f, a.name, r) ==>
      Step(msg, f, a, r) == Some(MoreAddress(a, msg[r.data..r.data + r.len], r.ttl))
    ensures !IsAddress(f, a.name, r) && r.IsCname() && NameAt(msg, r.data).Some? ==>
      Step(msg, f, a, r) == Some(MoreAlias(a, NameAt(msg, r.data).value, r.owner, r.ttl))
    ensures !IsAddress(f, a.name, r) && r.IsCname() && NameAt(msg, r.data).None? ==> Step(msg, f, a, r).None?
    ensures !IsAddress(f, a.name, r) && !r.IsCname() ==> Step(msg, f, a, r) == Some(a)
  {
  }

  /** The address branch of the loop body. */
  method TakeAddress(msg: seq<byte>, r: Record, w: Work, want: bool, max: int, ghost a: Answer)
      returns (w': Work, ghost next: Answer)
    requires r.data + r.len <= |msg| && Holds(a, w, want, max) && Fits(w, want, 1)
    ensures next == MoreAddress(a, msg[r.data..r.data + r.len], r.ttl)
    ensures w' == w.(addrs := w'.addrs, naddrs := w.naddrs + 1, ttls := w'.ttls)
    ensures Holds(next, w', want, max) && Further(w, w', max)
  {
    hide Stored;
    hide TtlsFilled;
    hide Untouched;
    var data := msg[r.data..r.data + r.len];
    var addrs, ttls := StoreAddress(data, r.ttl, want, w.addrs, w.naddrs, w.ttls, max, a, w.aliases);
    w' := w.(addrs := addrs, naddrs := w.naddrs + 1, ttls := ttls);
    next := MoreAddress(a, data, r.ttl);
  }

  /** The alias branch of the loop body. */
  method TakeAlias(heap: Heap, msg: seq<byte>, r: Record, name: Block, w: Work, want: bool, max: int, ghost a: Answer,
                   ghost base: multiset<Block>)
      returns (status: Status, w': Work, ghost next: Answer)
    requires heap.Valid() && name.Str? && name.text == r.owner
    requires Holds(a, w, want, max) && Fits(w, want, 1)
    requires OwnsWork(heap.live, base + multiset{name}, want, w)
    modifies heap
    ensures heap.Valid() && Further(w, w', max) && w'.naliases == w.naliases + 1
    ensures OwnsWork(heap.live, base, want, w')
    ensures status == SUCCESS || status == EBADRESP || status == ENOMEM
    ensures status == SUCCESS ==>
      NameAt(msg, r.data).Some? && next == MoreAlias(a, NameAt(msg, r.data).value, r.owner, r.ttl)
    ensures status == SUCCESS ==> Holds(next, w', want, max)
    ensures status == EBADRESP ==> NameAt(msg, r.data).None?
    ensures heap.failures == old(heap.failures) + if status == ENOMEM then 1 else 0
    ensures status != EBADRESP ==> heap.asked == old(heap.asked) + 1
  {
    hide Heap.Valid;
    hide NameAt;
    hide Stored;
    hide TtlsFilled;
    hide Owns;
    var host, aliases;
    status, host, aliases := FollowAlias(heap, msg, w.host, name, r.data, want, w.aliases, w.naliases, base);
    w', next := w.(host := host, aliases := aliases, naliases := w.naliases + 1), a;
    if status == SUCCESS {
      if w.cnameTtl > r.ttl { w' := w'.(cnameTtl := r.ttl); }
      next := MoreAlias(a, host.text, r.owner, r.ttl);
      StoreAlias(a, next, want, w.addrs, w.aliases, aliases, name, w.ttls, max);
    }
  }

  lemma FurtherSame(w: Work, max: int)
    ensures Further(w, w, max)
  {
  }

  lemma SameOwner(live: multiset<Block>, base: multiset<Block>, want: bool, w: Work, w': Work)
    requires OwnsWork(live, base, want, w)
    requires w'.host == w.host && w'.aliases == w.aliases && w'.naliases == w.naliases
    ensures OwnsWork(live, base, want, w')
  {
  }

  /** The body of the record loop once the record is decoded. */
  method TakeRecord(heap: Heap, msg: seq<byte>, f: Family, name: Block, r: Record, w: Work, want: bool, max: int,
                    ghost a: Answer, ghost base: multiset<Block>)
      returns (status: Status, w': Work, ghost next: Answer)
    requires heap.Valid() && name.Str? && name.text == r.owner && r.data + r.len <= |msg|
    requires Holds(a, w, want, max) && Fits(w, want, 1)
    requires OwnsWork(heap.live, base + multiset{name}, want, w)
    modifies heap
    ensures heap.Valid() && Further(w, w', max)
    ensures OwnsWork(heap.live, base, want, w')
    ensures status == SUCCESS || status == EBADRESP || status == ENOMEM
    ensures status == SUCCESS ==> Step(msg, f, a, r) == Some(next) && Holds(next, w', want, max)
    ensures status == EBADRESP ==> Step(msg, f, a, r).None?
    ensures status == ENOMEM ==> Step(msg, f, a, r).None? || |Step(msg, f, a, r).value.aliases| == w'.naliases
    ensures heap.failures == old(heap.failures) + if status == ENOMEM then 1 else 0
    ensures status != EBADRESP ==> heap.asked == old(heap.asked) + w'.naliases - w.naliases
  {
    hide Heap.Valid;
    hide NameAt;
    hide IsAddress;
    hide Step;
    hide Stored;
    hide TtlsFilled;
    hide OwnsWork;
    StepCases(msg, f, a, r);
    FurtherSame(w, max);
    status, w', next := SUCCESS, w, a;
    if IsAddress(f, w.host.text, r) {
      w', next := TakeAddress(msg, r, w, want, max, a);
      Release(heap, name, base, want, w);
      SameOwner(heap.live, base, want, w, w');
    } else if r.IsCname() {
      status, w', next := TakeAlias(heap, msg, r, name, w, want, max, a, base);
    } else {
      Release(heap, name, base, want, w);
    }
  }

  lemma OwnMore(live: multiset<Block>, base: multiset<Block>, want: bool, w: Work)
    requires OwnsWork(live, base, want, w)
    ensures forall name :: OwnsWork(live + multiset{name}, base + multiset{name}, want, w)
  {
  }

  lemma {:induction false} GatherGrows(msg: seq<byte>, f: Family, a: Answer, p: nat, count: nat)
    ensures Gather(msg, f, a, p, count).Some? ==> |a.aliases| <= |Gather(msg, f, a, p, count).value.aliases|
    decreases count
  {
    hide ReadRecord;
    if count > 0 {
      var r := ReadRecord(msg, p);
      if r.Some? {
        var next := Step(msg, f, a, r.value);
        if next.Some? { GatherGrows(msg, f, next.value, r.value.data + r.value.len, count - 1); }
      }
    }
  }

  /** The first record, then the rest. */
  lemma GatherStep(msg: seq<byte>, f: Family, a: Answer, p: nat, left: nat, r: Record)
    requires left > 0 && ReadRecord(msg, p) == Some(r)
    ensures p < r.data && r.data + r.len <= |msg|
    ensures Step(msg, f, a, r).None? ==> Gather(msg, f, a, p, left).None?
    ensures Step(msg, f, a, r).Some? ==>
      Gather(msg, f, a, p, left) == Gather(msg, f, Step(msg, f, a, r).value, r.data + r.len, left - 1)
    ensures Step(msg, f, a, r).Some? && Gather(msg, f, a, p, left).Some? ==>
      |Step(msg, f, a, r).value.aliases| <= |Gather(msg, f, a, p, left).value.aliases|
  {
    hide ReadRecord;
    hide Step;
    if Step(msg, f, a, r).Some? {
      GatherGrows(msg, f, Step(msg, f, a, r).value, r.data + r.len, left - 1);
    }
  }

  lemma NoRecord(msg: seq<byte>, f: Family, a: Answer, p: nat, left: nat)
    requires left > 0
    ensures ReadRecord(msg, p).None? ==> Gather(msg, f, a, p, left).None?
  {
    hide ReadRecord;
  }

  /** One turn of the record loop. */
  method NextRecord(heap: Heap, msg: seq<byte>, f: Family, aptr: nat, left: nat, w: Work, want: bool, max: int,
                    ghost a: Answer, ghost base: multiset<Block>)
      returns (status: Status, aptr': nat, w': Work, ghost a': Answer)
    requires heap.Valid() && left > 0
    requires Holds(a, w, want, max) && Fits(w, want, 1)
    requires OwnsWork(heap.live, base, want, w)
    modifies heap
    ensures heap.Valid() && Further(w, w', max)
    ensures OwnsWork(heap.live, base, want, w')
    ensures status == SUCCESS || status == EBADRESP || status == ENOMEM
    ensures aptr <= aptr' && (status == SUCCESS ==> aptr < aptr' <= |msg|)
    ensures status == SUCCESS ==> Gather(msg, f, a, aptr, left) == Gather(msg, f, a', aptr', left - 1)
    ensures status == SUCCESS ==> Holds(a', w', want, max)
    ensures status == EBADRESP ==> Gather(msg, f, a, aptr, left).None?
    ensures status == ENOMEM && Gather(msg, f, a, aptr, left).Some? ==>
      w'.naliases <= |Gather(msg, f, a, aptr, left).value.aliases|
    ensures heap.failures == old(heap.failures) + if status == ENOMEM then 1 else 0
    ensures status != EBADRESP ==> heap.asked == old(heap.asked) + 1 + w'.naliases - w.naliases
  {
    hide Heap.Valid;
    hide ReadRecord;
    hide Step;
    hide Gather;
    hide Stored;
    hide TtlsFilled;
    hide OwnsWork;
    hide Untouched;
    aptr', w', a' := aptr, w, a;
    FurtherSame(w, max);
    OwnMore(heap.live, base, want, w);
    GatherGrows(msg, f, a, aptr, left);
    NoRecord(msg, f, a, aptr, left);
    var name, r;
    status, name, r := DecodeRecord(heap, msg, aptr);
    if status == SUCCESS {
      GatherStep(msg, f, a, aptr, left, r);
      status, w', a' := TakeRecord(heap, msg, f, name, r, w, want, max, a, base);
      aptr' := r.data + r.len;
    }
  }

  /** Where the loop stands after `i` records: what is still to be gathered from `aptr` completes the whole. */
  ghost predicate Standing(msg: seq<byte>, f: Family, whole: Option<Answer>, aptr: nat, left: nat, a: Answer, w: Work,
                           want: bool, max: int)
  {
    aptr <= |msg| && Gather(msg, f, a, aptr, left) == whole && Holds(a, w, want, max)
  }

  lemma StartHolds(question: Block, addrs: seq<seq<byte>>, aliases: seq<Block>, ttls: seq<AddrTtl>, want: bool,
                   max: int)
    requires question.Str? && max <= |ttls|
    ensures Holds(Start(question.text), Work(question, addrs, 0, aliases, 0, ttls, INT_MAX), want, max)
    ensures Untouched(ttls, ttls, 0, max)
  {
  }

  lemma FurtherFits(w: Work, w': Work, want: bool, left: nat, max: int)
    requires left > 0 && Fits(w, want, left) && Further(w, w', max)
    ensures Fits(w', want, left - 1)
  {
  }

  lemma UntouchedTwice(a: seq<AddrTtl>, w: Work, w': Work, max: int)
    requires Untouched(a, w.ttls, w.naddrs, max) && Further(w, w', max)
    ensures Untouched(a, w'.ttls, w'.naddrs, max)
  {
  }

  /** One turn of the loop, from standing to standing. */
  method Turn(heap: Heap, msg: seq<byte>, f: Family, aptr: nat, left: nat, w: Work, want: bool, max: int,
              ghost a: Answer, ghost base: multiset<Block>, ghost whole: Option<Answer>)
      returns (status: Status, aptr': nat, w': Work, ghost a': Answer)
    requires heap.Valid() && left > 0
    requires Standing(msg, f, whole, aptr, left, a, w, want, max) && Fits(w, want, left)
    requires OwnsWork(heap.live, base, want, w)
    modifies heap
    ensures heap.Valid() && Further(w, w', max) && Fits(w', want, left - 1)
    ensures OwnsWork(heap.live, base, want, w')
    ensures status == SUCCESS || status == EBADRESP || status == ENOMEM
    ensures aptr <= aptr'
    ensures status == SUCCESS ==> Standing(msg, f, whole, aptr', left - 1, a', w', want, max)
    ensures status == EBADRESP ==> whole.None?
    ensures status == ENOMEM && whole.Some? ==> w'.naliases <= |whole.value.aliases|
    ensures heap.failures == old(heap.failures) + if status == ENOMEM then 1 else 0
    ensures status != EBADRESP ==> heap.asked == old(heap.asked) + 1 + w'.naliases - w.naliases
  {
    hide Heap.Valid;
    hide Gather;
    hide Holds;
    hide OwnsWork;
    hide Untouched;
    status, aptr', w', a' := NextRecord(heap, msg, f, aptr, left, w, want, max, a, base);
    FurtherFits(w, w', want, left, max);
  }

  lemma Stands(msg: seq<byte>, f: Family, whole: Option<Answer>, aptr: nat, left: nat, a: Answer, w: Work, want: bool,
               max: int)
    requires aptr <= |msg| && whole == Gather(msg, f, a, aptr, left) && Holds(a, w, want, max)
    ensures Standing(msg, f, whole, aptr, left, a, w, want, max)
  {
  }

  lemma StoodToEnd(msg: seq<byte>, f: Family, whole: Option<Answer>, aptr: nat, a: Answer, w: Work, want: bool,
                   max: int)
    ensures Standing(msg, f, whole, aptr, 0, a, w, want, max) ==> whole == Some(a) && Holds(a, w, want, max)
  {
    hide Holds;
  }

  lemma UntouchedSame(ttls: seq<AddrTtl>, n: nat, max: int)
    ensures Untouched(ttls, ttls, n, max)
  {
  }

  /** The record loop. Every array write fits because each record adds at most one address or alias. */
  method ReadAnswers(heap: Heap, msg: seq<byte>, f: Family, first: nat, ancount: nat, w0: Work, want: bool, max: int,
                     ghost base: multiset<Block>)
      returns (status: Status, w: Work, ghost a: Answer)
    requires heap.Valid() && w0.host.Str? && first <= |msg| && w0.naddrs == w0.naliases == 0
    requires Holds(Start(w0.host.text), w0, want, max) && Fits(w0, want, ancount)
    requires OwnsWork(heap.live, base, want, w0)
    modifies heap
    ensures heap.Valid() && w.naddrs + w.naliases <= ancount && |w.aliases| == |w0.aliases|
    ensures OwnsWork(heap.live, base, want, w)
    ensures status == SUCCESS || status == EBADRESP || status == ENOMEM
    ensures status == SUCCESS ==> Gather(msg, f, Start(w0.host.text), first, ancount) == Some(a)
    ensures status == SUCCESS ==> Holds(a, w, want, max)
    ensures status == EBADRESP ==> Gather(msg, f, Start(w0.host.text), first, ancount).None?
    ensures Untouched(w0.ttls, w.ttls, w.naddrs, max)
    ensures heap.failures == old(heap.failures) + if status == ENOMEM then 1 else 0
    ensures status == SUCCESS ==> heap.asked == old(heap.asked) + ancount + w.naliases
    ensures status == ENOMEM && Gather(msg, f, Start(w0.host.text), first, ancount).Some? ==>
      heap.asked <= old(heap.asked) + ancount + |Gather(msg, f, Start(w0.host.text), first, ancount).value.aliases|
  {
    hide Heap.Valid;
    hide Holds;
    hide OwnsWork;
    hide Start;
    hide Untouched;
    hide Gather;
    hide Standing;
    hide Fits;
    ghost var whole := Gather(msg, f, Start(w0.host.text), first, ancount);
    status, w, a := SUCCESS, w0, Start(w0.host.text);
    Stands(msg, f, whole, first, ancount, a, w, want, max);
    FurtherSame(w, max);
    UntouchedSame(w.ttls, w.naddrs, max);
    var aptr, i := first, 0;
    while i < ancount && status == SUCCESS
      invariant 0 <= i <= ancount && first <= aptr && w.naddrs + w.naliases <= i
      invariant |w.aliases| == |w0.aliases|
      invariant heap.Valid() && OwnsWork(heap.live, base, want, w)
      invariant status == SUCCESS || status == EBADRESP || status == ENOMEM
      invariant status == SUCCESS ==>
        Standing(msg, f, whole, aptr, ancount - i, a, w, want, max) && Fits(w, want, ancount - i)
      invariant status == EBADRESP ==> whole.None?
      invariant status == ENOMEM && whole.Some? ==> w.naliases <= |whole.value.aliases|
      invariant Untouched(w0.ttls, w.ttls, w.naddrs, max)
      invariant heap.failures == old(heap.failures) + if status == ENOMEM then 1 else 0
      invariant status != EBADRESP ==> heap.asked == old(heap.asked) + i + w.naliases
    {
      ghost var before := w;
      status, aptr, w, a := Turn(heap, msg, f, aptr, ancount - i, w, want, max, a, base, whole);
      UntouchedTwice(w0.ttls, before, w, max);
      i := i + 1;
    }
    StoodToEnd(msg, f, whole, aptr, a, w, want, max);
  }

  function Min(x: int, y: int): int { if x > y then y else x }

  /** The second loop: no address outlives the aliases that led to it. */
  method ClampTtls(ttls0: seq<AddrTtl>, n: int, cnameTtl: int) returns (ttls: seq<AddrTtl>)
    requires n <= |ttls0|
    ensures |ttls| == |ttls0|
    ensures forall k | 0 <= k < |ttls| ::
      ttls[k] == if k < n then AddrTtl(ttls0[k].addr, Min(ttls0[k].ttl, cnameTtl)) else ttls0[k]
  {
    ttls := ttls0;
    var i := 0;
    while i < n
      invariant 0 <= i && (i <= n || i == 0) && |ttls| == |ttls0|
      invariant forall k | 0 <= k < |ttls| ::
        ttls[k] == if k < i then AddrTtl(ttls0[k].addr, Min(ttls0[k].ttl, cnameTtl)) else ttls0[k]
    {
      if ttls[i].ttl > cnameTtl { ttls := ttls[i := AddrTtl(ttls[i].addr, cnameTtl)]; }
      i := i + 1;
    }
  }

  lemma FrontOut(rest: multiset<Block>, bs: seq<Block>, i: nat, last: Block)
    requires i < |bs|
    ensures rest + multiset(bs[i..]) + multiset{last} - multiset{bs[i]} == rest + multiset(bs[i + 1..]) + multiset{last}
    ensures bs[i] in rest + multiset(bs[i..]) + multiset{last}
  {
    assert bs[i..] == [bs[i]] + bs[i + 1..];
  }

  /** Releases the kept aliases one by one. */
  method FreeAliases(heap: Heap, bs: seq<Block>, ghost rest: multiset<Block>, ghost last: Block)
    requires heap.Valid() && heap.live == rest + multiset(bs) + multiset{last}
    modifies heap
    ensures heap.Valid() && heap.live == rest + multiset{last}
    ensures heap.failures == old(heap.failures) && heap.asked == old(heap.asked)
  {
    hide Heap.Valid;
    assert bs[0..] == bs;
    for i := 0 to |bs|
      invariant heap.Valid() && heap.live == rest + multiset(bs[i..]) + multiset{last}
      invariant heap.failures == old(heap.failures) && heap.asked == old(heap.asked)
    {
      FrontOut(rest, bs, i, last);
      heap.Free(bs[i]);
    }
    assert bs[|bs|..] == [];
  }

  /** Blocks allocated for the two arrays. */
  ghost function Arrays(want: bool, addrBlock: Block, aliasBlock: Block): multiset<Block> {
    if want then multiset{addrBlock} + multiset{aliasBlock} else multiset{}
  }

  /** The common failure exit: everything allocated so far goes back. */
  method CleanUp(heap: Heap, want: bool, w: Work, addrBlock: Block, aliasBlock: Block, ghost live0: multiset<Block>)
    requires heap.Valid()
    requires OwnsWork(heap.live, live0 + Arrays(want, addrBlock, aliasBlock), want, w)
    modifies heap
    ensures heap.Valid() && heap.live == live0
    ensures heap.failures == old(heap.failures) && heap.asked == old(heap.asked)
  {
    hide Heap.Valid;
    ghost var arrays := Arrays(want, addrBlock, aliasBlock);
    if want {
      FreeAliases(heap, w.aliases[..w.naliases], live0 + arrays, w.host);
      Reorder(live0, addrBlock, aliasBlock, w.host);
      TakeOut(live0 + multiset{w.host} + multiset{addrBlock}, aliasBlock);
      heap.Free(aliasBlock);
      TakeOut(live0 + multiset{w.host}, addrBlock);
      heap.Free(addrBlock);
    }
    TakeOut(live0, w.host);
    heap.Free(w.host);
  }

  lemma AddUp(l: multiset<Block>, x: multiset<Block>, y: multiset<Block>, a: multiset<Block>,
              n: multiset<Block>, s: multiset<Block>, d: multiset<Block>)
    ensures l + (x + y) + a + n + s + d == l + (x + y + a + n + s + d)
    ensures l + (x + y) + a + n + s + d - x == l + (multiset{} + y + a + n + s + d)
  {
  }

  /** All blocks in the order they were allocated, with the addresses kept or let go. */
  lemma BlocksSum(live0: multiset<Block>, h: Hostent, addrBlock: Block, all: multiset<Block>)
    requires addrBlock != Null
    requires all == live0 + (multiset{addrBlock} + multiset{h.aliasList}) + multiset(h.aliases) + multiset{h.name}
                    + multiset{h.self} + multiset{h.addrList}
    ensures h.addrBlock == addrBlock ==> all == live0 + h.Blocks()
    ensures h.addrBlock == Null ==> all - multiset{addrBlock} == live0 + h.Blocks()
    ensures addrBlock in all
  {
    AddUp(live0, multiset{addrBlock}, multiset{h.aliasList}, multiset(h.aliases), multiset{h.name},
          multiset{h.self}, multiset{h.addrList});
  }

  /** Builds the host entry out of what was gathered; addresses that were not needed go back. */
  method BuildHost(heap: Heap, w: Work, addrBlock: Block, aliasBlock: Block, ghost live0: multiset<Block>)
      returns (ok: bool, h: Hostent)
    requires heap.Valid() && addrBlock != Null && w.naddrs <= |w.addrs| && w.naliases < |w.aliases|
    requires OwnsWork(heap.live, live0 + Arrays(true, addrBlock, aliasBlock), true, w)
    modifies heap
    ensures heap.Valid()
    ensures !ok ==> heap.live == old(heap.live) && heap.failures == old(heap.failures) + 1
    ensures !ok ==> old(heap.asked) < heap.asked <= old(heap.asked) + 2
    ensures ok ==>
      heap.live == live0 + h.Blocks() && heap.failures == old(heap.failures) && heap.asked == old(heap.asked) + 2
    ensures ok ==> h.name == w.host && h.aliases == w.aliases[..w.naliases] && h.addrs == w.addrs[..w.naddrs]
  {
    hide Heap.Valid;
    hide Hostent.Blocks;
    h := Hostent(Null, w.host, aliasBlock, w.aliases[..w.naliases], Null, if w.naddrs == 0 then Null else addrBlock,
                 w.addrs[..w.naddrs]);
    ghost var before := live0 + (multiset{addrBlock} + multiset{aliasBlock}) + multiset(h.aliases) + multiset{w.host};
    assert heap.live == before;
    ok := false;
    var self := heap.Malloc();
    if self != Null {
      var list := heap.Malloc();
      if list != Null {
        h := h.(self := self, addrList := list);
        BlocksSum(live0, h, addrBlock, heap.live);
        if w.naddrs == 0 { heap.Free(addrBlock); }
        ok := true;
      } else {
        TakeOut(before, self);
        heap.Free(self);
      }
    }
  }

  /** What a successful call hands back. */
  ghost predicate Delivered(a: Answer, want: bool, host: Option<Hostent>) {
    && (host.Some? <==> want)
    && (want ==>
         && host.value.name.Str? && host.value.name.text == a.name
         && Texts(host.value.aliases) == a.aliases && host.value.addrs == a.addrs)
  }

  /** The first `n` of the caller's TTL entries, and nothing else, are the answer's. */
  ghost predicate TtlsDelivered(a: Answer, before: seq<AddrTtl>, after: seq<AddrTtl>, max: int, n: int) {
    && n == Min(|a.addrs|, max) && |after| == |before| && n <= |after| && |a.ttls| == |a.addrs|
    && (forall k | 0 <= k < n :: after[k] == AddrTtl(a.addrs[k], Min(a.ttls[k], a.cnameTtl)))
    && (forall k | 0 <= k < |after| && n <= k :: after[k] == before[k])
  }

  /** Requests for the two arrays, and again for the entry and its list of addresses. */
  function TwoIf(want: bool): nat { if want then 2 else 0 }

  /** Room for the addresses and aliases: `ancount` bounds both. */
  method AllocateArrays(heap: Heap, want: bool) returns (ok: bool, addrBlock: Block, aliasBlock: Block)
    requires heap.Valid()
    modifies heap
    ensures heap.Valid()
    ensures ok ==>
      heap.live == old(heap.live) + Arrays(want, addrBlock, aliasBlock) && heap.failures == old(heap.failures)
    ensures ok ==> heap.asked == old(heap.asked) + TwoIf(want)
    ensures ok && want ==> addrBlock != Null && aliasBlock != Null
    ensures !ok ==> heap.live == old(heap.live) && heap.failures == old(heap.failures) + 1
    ensures !ok ==> old(heap.asked) < heap.asked <= old(heap.asked) + TwoIf(want)
  {
    hide Heap.Valid;
    ok, addrBlock, aliasBlock := true, Null, Null;
    if want {
      addrBlock := heap.Malloc();
      ok := addrBlock != Null;
      if ok {
        aliasBlock := heap.Malloc();
        ok := aliasBlock != Null;
        if !ok {
          TakeOut(old(heap.live), addrBlock);
          heap.Free(addrBlock);
        }
      }
    }
  }

  lemma ClampedDelivers(a: Answer, w: Work, want: bool, max: int, ttls: seq<AddrTtl>, n: int)
    requires Holds(a, w, want, max) && n == Min(w.naddrs, max) && |ttls| == |w.ttls|
    requires forall k | 0 <= k < |ttls| ::
      ttls[k] == if k < n then AddrTtl(w.ttls[k].addr, Min(w.ttls[k].ttl, w.cnameTtl)) else w.ttls[k]
    ensures TtlsDelivered(a, w.ttls, ttls, max, n)
  {
  }

  lemma HoldsCounts(a: Answer, w: Work, want: bool, max: int)
    requires Holds(a, w, want, max)
    ensures w.naddrs == |a.addrs| && w.naliases == |a.aliases| && Min(w.naddrs, max) <= |w.ttls|
  {
  }

  /** What became of the gathered answer: clamp the TTLs and build the entry, or give everything back. */
  method Finish(heap: Heap, want: bool, w: Work, max: int, addrBlock: Block, aliasBlock: Block,
                ghost a: Answer, ghost live0: multiset<Block>)
      returns (status: Status, host: Option<Hostent>, ttls: seq<AddrTtl>, n: int)
    requires heap.Valid() && (want ==> addrBlock != Null && w.naliases < |w.aliases|)
    requires Holds(a, w, want, max)
    requires OwnsWork(heap.live, live0 + Arrays(want, addrBlock, aliasBlock), want, w)
    modifies heap
    ensures heap.Valid() && (status == SUCCESS || (status == ENOMEM && want))
    ensures heap.live == live0 + if host.Some? then host.value.Blocks() else multiset{}
    ensures status == SUCCESS ==> Delivered(a, want, host)
    ensures TtlsDelivered(a, w.ttls, ttls, max, n)
    ensures status != SUCCESS ==> host.None?
    ensures heap.failures == old(heap.failures) + if status == ENOMEM then 1 else 0
    ensures status == SUCCESS ==> heap.asked == old(heap.asked) + TwoIf(want)
    ensures status == ENOMEM ==> old(heap.asked) < heap.asked <= old(heap.asked) + TwoIf(want)
  {
    hide Heap.Valid;
    hide OwnsWork;
    hide Hostent.Blocks;
    hide TtlsDelivered;
    hide TtlsFilled;
    HoldsCounts(a, w, want, max);
    n := if w.naddrs < max then w.naddrs else max;
    ttls := ClampTtls(w.ttls, n, w.cnameTtl);
    ClampedDelivers(a, w, want, max, ttls, n);
    status, host := SUCCESS, None;
    if want {
      var ok, h := BuildHost(heap, w, addrBlock, aliasBlock, live0);
      if ok { host := Some(h); } else { status := ENOMEM; }
    }
    if host.None? {
      CleanUp(heap, want, w, addrBlock, aliasBlock, live0);
      TakeOut(live0, w.host);
    }
  }

  lemma ThroughToCaller(a: Answer, before: seq<AddrTtl>, filled: seq<AddrTtl>, after: seq<AddrTtl>, max: int, n: int)
    requires Untouched(before, filled, |a.addrs|, max) && TtlsDelivered(a, filled, after, max, n)
    ensures TtlsDelivered(a, before, after, max, n)
  {
  }

  lemma BadOpening(msg: seq<byte>, f: Family)
    requires Opening(msg).None?
    ensures Meaning(msg, f) == BadResponse
  {
  }

  lemma OwnNothing(live: multiset<Block>, live0: multiset<Block>, arrays: multiset<Block>, want: bool, w: Work)
    requires live == live0 + multiset{w.host} + arrays && w.naliases == 0
    ensures OwnsWork(live, live0 + arrays, want, w)
  {
  }

  /** What gathering all records means for the reply. */
  ghost function Verdict(a: Answer): Outcome {
    if a.addrs == [] && a.aliases == [] then NoData else Answered(a)
  }

  /**
   * Requests made before the host entry is built: the question, the arrays, each record's owner, each alias's target.
   */
  ghost function Early(msg: seq<byte>, f: Family, want: bool): nat {
    if Opening(msg).Some? && Meaning(msg, f).Answered? then
      1 + TwoIf(want) + Opening(msg).value.count + |Meaning(msg, f).answer.aliases|
    else 0
  }

  lemma EarlyIs(msg: seq<byte>, f: Family, want: bool, o: Opened)
    requires Opening(msg) == Some(o)
    ensures Gather(msg, f, Start(o.question), o.first, o.count).None? ==> Meaning(msg, f) == BadResponse
    ensures Gather(msg, f, Start(o.question), o.first, o.count).Some? ==>
      Meaning(msg, f) == Verdict(Gather(msg, f, Start(o.question), o.first, o.count).value)
    ensures Meaning(msg, f).Answered? ==>
      && Gather(msg, f, Start(o.question), o.first, o.count) == Some(Meaning(msg, f).answer)
      && Early(msg, f, want) == 1 + TwoIf(want) + o.count + |Meaning(msg, f).answer.aliases|
  {
    hide Gather;
    MeaningOf(msg, f, o, Gather(msg, f, Start(o.question), o.first, o.count));
  }

  lemma EarlyCounts(msg: seq<byte>, f: Family, want: bool)
    ensures Meaning(msg, f).Answered? ==> Early(msg, f, want) >= 1
  {
  }

  /** The same once the question has been read. */
  method GatherOpened(heap: Heap, msg: seq<byte>, f: Family, first: nat, ancount: nat, w0: Work, want: bool, max: int,
                      ghost live0: multiset<Block>)
      returns (status: Status, w: Work, addrBlock: Block, aliasBlock: Block, ghost a: Answer)
    requires heap.Valid() && w0.host.Str? && first <= |msg| && max <= |w0.ttls|
    requires w0.naddrs == w0.naliases == 0 && w0.cnameTtl == INT_MAX && |w0.addrs| == ancount
    requires |w0.aliases| == ancount + 1
    requires heap.live == live0 + multiset{w0.host}
    modifies heap
    ensures heap.Valid()
    ensures status == SUCCESS || status == EBADRESP || status == ENOMEM
    ensures status == SUCCESS ==>
      Gather(msg, f, Start(w0.host.text), first, ancount) == Some(a) && Holds(a, w, want, max)
    ensures status == SUCCESS ==> OwnsWork(heap.live, live0 + Arrays(want, addrBlock, aliasBlock), want, w)
    ensures status == SUCCESS ==> Untouched(w0.ttls, w.ttls, w.naddrs, max)
    ensures status == SUCCESS && want ==> addrBlock != Null && w.naliases < |w.aliases|
    ensures status == EBADRESP ==> Gather(msg, f, Start(w0.host.text), first, ancount).None?
    ensures status != SUCCESS ==> heap.live == live0
    ensures heap.failures == old(heap.failures) + if status == ENOMEM then 1 else 0
    ensures status == SUCCESS ==> heap.asked == old(heap.asked) + TwoIf(want) + ancount + |a.aliases|
    ensures status == ENOMEM && Gather(msg, f, Start(w0.host.text), first, ancount).Some? ==>
      heap.asked <= old(heap.asked) + TwoIf(want) + ancount
        + |Gather(msg, f, Start(w0.host.text), first, ancount).value.aliases|
  {
    hide Heap.Valid;
    hide Stored;
    hide TtlsFilled;
    hide Untouched;
    hide Gather;
    hide OwnsWork;
    w, a := w0, Start(w0.host.text);
    StartHolds(w0.host, w0.addrs, w0.aliases, w0.ttls, want, max);
    assert w0 == Work(w0.host, w0.addrs, 0, w0.aliases, 0, w0.ttls, INT_MAX);
    var ok;
    ok, addrBlock, aliasBlock := AllocateArrays(heap, want);
    if !ok {
      TakeOut(live0, w0.host);
      heap.Free(w0.host);
      status := ENOMEM;
    } else {
      OwnNothing(heap.live, live0, Arrays(want, addrBlock, aliasBlock), want, w0);
      status, w, a := ReadAnswers(heap, msg, f, first, ancount, w0, want, max,
                                  live0 + Arrays(want, addrBlock, aliasBlock));
      if status != SUCCESS {
        CleanUp(heap, want, w, addrBlock, aliasBlock, live0);
      }
    }
  }

  /** All but the building of the entry: the loop's variables at its end, or everything given back. */
  method GatherReply(heap: Heap, msg: seq<byte>, f: Family, want: bool, ttls0: seq<AddrTtl>, max: int)
      returns (status: Status, w: Work, addrBlock: Block, aliasBlock: Block, ghost a: Answer)
    requires heap.Valid() && max <= |ttls0|
    modifies heap
    ensures heap.Valid()
    ensures status == SUCCESS || status == EBADRESP || status == ENOMEM
    ensures status == SUCCESS ==> Meaning(msg, f) == Verdict(a) && Holds(a, w, want, max)
    ensures status == SUCCESS ==> OwnsWork(heap.live, old(heap.live) + Arrays(want, addrBlock, aliasBlock), want, w)
    ensures status == SUCCESS ==> Untouched(ttls0, w.ttls, w.naddrs, max)
    ensures status == SUCCESS && want ==> addrBlock != Null && w.naliases < |w.aliases|
    ensures status == EBADRESP ==> Meaning(msg, f) == BadResponse
    ensures status != SUCCESS ==> heap.live == old(heap.live)
    ensures heap.failures == old(heap.failures) + if status == ENOMEM then 1 else 0
    ensures status == SUCCESS && Meaning(msg, f).Answered? ==> heap.asked == old(heap.asked) + Early(msg, f, want)
    ensures status == ENOMEM && Meaning(msg, f).Answered? ==> heap.asked <= old(heap.asked) + Early(msg, f, want)
  {
    hide Heap.Valid;
    hide Opening;
    hide Holds;
    hide Untouched;
    hide Meaning;
    hide Gather;
    hide Early;
    hide Verdict;
    ghost var live0 := heap.live;
    addrBlock, aliasBlock, a := Null, Null, Start([]);
    var question, first, ancount;
    status, question, first, ancount := OpenReply(heap, msg);
    w := Work(question, seq(ancount, _ => []), 0, seq(ancount + 1, _ => Null), 0, ttls0, INT_MAX);
    if status == SUCCESS {
      EarlyIs(msg, f, want, Opened(question.text, first, ancount));
      status, w, addrBlock, aliasBlock, a := GatherOpened(heap, msg, f, first, ancount, w, want, max, live0);
    } else if status == EBADRESP {
      BadOpening(msg, f);
    } else {
      EarlyCounts(msg, f, want);
    }
  }

  /** A refusal before request `b` is one among the first `count`. */
  lemma RefusedEarly(refuses: nat -> bool, a: nat, b: nat, count: nat)
    requires Refusals(refuses, b) > Refusals(refuses, a) && b <= a + count
    ensures !Granted(refuses, a, count)
  {
    if a <= b {
      GrantedIfNoMore(refuses, a, b - a);
      assert !Granted(refuses, a, b - a);
    } else {
      GrantedIfNoMore(refuses, b, a - b);
    }
  }

  lemma NoneRefused(refuses: nat -> bool, a: nat, b: nat, count: nat)
    requires b == a + count && Refusals(refuses, b) == Refusals(refuses, a)
    ensures Granted(refuses, a, count)
  {
    GrantedIfNoMore(refuses, a, b - a);
  }

  lemma GrantedFewer(refuses: nat -> bool, a: nat, count: nat, more: nat)
    requires count <= more
    ensures Granted(refuses, a, more) ==> Granted(refuses, a, count)
  {
  }

  lemma GrantedSum(refuses: nat -> bool, a: nat, count: nat, more: nat)
    requires Granted(refuses, a, count)
    ensures Granted(refuses, a, count + more) <==> Granted(refuses, a + count, more)
  {
    if Granted(refuses, a, count + more) {
      forall i | a + count <= i < a + count + more ensures !refuses(i) {
      }
    }
  }

  /** The end of a reply that answers: whether it succeeds is for the last requests for memory to say. */
  method Conclude(heap: Heap, want: bool, w: Work, max: int, addrBlock: Block, aliasBlock: Block, ttls0: seq<AddrTtl>,
                  ghost a: Answer, ghost live0: multiset<Block>)
      returns (status: Status, host: Option<Hostent>, ttls: seq<AddrTtl>, n: int)
    requires heap.Valid() && (want ==> addrBlock != Null && w.naliases < |w.aliases|)
    requires Holds(a, w, want, max) && Untouched(ttls0, w.ttls, w.naddrs, max)
    requires OwnsWork(heap.live, live0 + Arrays(want, addrBlock, aliasBlock), want, w)
    modifies heap
    ensures heap.Valid() && (status == SUCCESS || status == ENOMEM)
    ensures heap.live == live0 + if host.Some? then host.value.Blocks() else multiset{}
    ensures status == SUCCESS ==> Delivered(a, want, host)
    ensures TtlsDelivered(a, ttls0, ttls, max, n)
    ensures status != SUCCESS ==> host.None?
    ensures heap.failures == old(heap.failures) + if status == ENOMEM then 1 else 0
    ensures status == SUCCESS <==> Granted(heap.refuses, old(heap.asked), TwoIf(want))
  {
    hide Heap.Valid;
    hide Holds;
    hide OwnsWork;
    hide Delivered;
    hide TtlsDelivered;
    hide Untouched;
    hide Granted;
    hide Refusals;
    hide Hostent.Blocks;
    hide TwoIf;
    HoldsCounts(a, w, want, max);
    heap.Counted();
    status, host, ttls, n := Finish(heap, want, w, max, addrBlock, aliasBlock, a, live0);
    heap.Counted();
    ThroughToCaller(a, ttls0, w.ttls, ttls, max, n);
    if status == SUCCESS {
      NoneRefused(heap.refuses, old(heap.asked), heap.asked, TwoIf(want));
    } else {
      RefusedEarly(heap.refuses, old(heap.asked), heap.asked, TwoIf(want));
    }
  }

  /**
   * ares_parse_a_reply and ares_parse_aaaa_reply. The status and everything returned are what the reply means; every
   * block taken is in the entry or back. Which requests for memory are refused decides the rest: if all those before
   * the host entry are granted, the TTLs are delivered, also when the entry itself then cannot be built.
   */
  method ParseAddressReply(heap: Heap, msg: seq<byte>, f: Family, want: bool, ttls0: seq<AddrTtl>, max: int)
      returns (status: Status, host: Option<Hostent>, ttls: seq<AddrTtl>, n: int)
    requires heap.Valid() && max <= |ttls0|
    modifies heap
    ensures heap.Valid()
    ensures heap.live == old(heap.live) + if host.Some? then host.value.Blocks() else multiset{}
    ensures status == SUCCESS || status == EBADRESP || status == ENODATA || status == ENOMEM
    ensures status == EBADRESP ==> Meaning(msg, f) == BadResponse
    ensures status == ENODATA ==> Meaning(msg, f) == NoData
    ensures status == SUCCESS ==> Meaning(msg, f).Answered? && Delivered(Meaning(msg, f).answer, want, host)
    ensures status != SUCCESS ==> host.None?
    ensures heap.failures == old(heap.failures) + if status == ENOMEM then 1 else 0
    ensures status == SUCCESS <==>
      Meaning(msg, f).Answered? && Granted(heap.refuses, old(heap.asked), Early(msg, f, want) + TwoIf(want))
    ensures Meaning(msg, f).Answered? && Granted(heap.refuses, old(heap.asked), Early(msg, f, want)) ==>
      TtlsDelivered(Meaning(msg, f).answer, ttls0, ttls, max, n)
    ensures Meaning(msg, f).Answered? && !Granted(heap.refuses, old(heap.asked), Early(msg, f, want)) ==>
      status == ENOMEM && n == 0
    ensures !Meaning(msg, f).Answered? ==> n == 0
  {
    hide Heap.Valid;
    hide Holds;
    hide OwnsWork;
    hide Delivered;
    hide TtlsDelivered;
    hide Untouched;
    hide Meaning;
    hide Gather;
    hide Early;
    hide Granted;
    hide Refusals;
    hide Hostent.Blocks;
    hide TwoIf;
    host, ttls, n := None, ttls0, 0;
    ghost var live0, asked0, early := heap.live, heap.asked, Early(msg, f, want);
    TakeOut(live0, Null);
    heap.Counted();
    var w, addrBlock, aliasBlock; ghost var a;
    status, w, addrBlock, aliasBlock, a := GatherReply(heap, msg, f, want, ttls0, max);
    heap.Counted();
    GrantedFewer(heap.refuses, asked0, early, early + TwoIf(want));
    if status == SUCCESS {
      HoldsCounts(a, w, want, max);
      if w.naddrs != 0 || w.naliases != 0 {
        NoneRefused(heap.refuses, asked0, heap.asked, early);
        GrantedSum(heap.refuses, asked0, early, TwoIf(want));
        status, host, ttls, n := Conclude(heap, want, w, max, addrBlock, aliasBlock, ttls0, a, live0);
      } else {
        status := ENODATA;
        CleanUp(heap, want, w, addrBlock, aliasBlock, live0);
      }
    } else if status == ENOMEM && Meaning(msg, f).Answered? {
      RefusedEarly(heap.refuses, asked0, heap.asked, early);
    }
  }
}
