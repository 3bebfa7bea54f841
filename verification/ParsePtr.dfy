/** ares_parse_ptr_reply: the record loop with its growing alias array. */
module ParsePtr {
  import opened Ares
  import opened Bytes
  import opened Memory
  import opened Records
  import opened PtrReply
  import PR = ParseReply

  ghost function Maybe(b: Block): multiset<Block> {
    if b == Null then multiset{} else multiset{b}
  }

  /** What the parser holds beside the blocks of its caller. */
  ghost predicate Owns(live: multiset<Block>, live0: multiset<Block>, list: Block, aliases: seq<Block>, cnt: nat,
                       host: Block, owner: Block)
  {
    cnt <= |aliases| &&
    live == live0 + multiset{owner} + Maybe(host) + multiset{list} + multiset(aliases[..cnt])
  }

  /** The parser's variables hold what has been found. */
  ghost predicate Holds(s: Trail, owner: Block, host: Block, aliases: seq<Block>, cnt: nat) {
    && owner.Str? && owner.text == s.owner
    && cnt == |s.targets| < |aliases|
    && (forall k | 0 <= k < cnt :: aliases[k].Str? && aliases[k].text == CString(s.targets[k]))
    && (if cnt == 0 then host == Null else host.Str? && host.text == s.targets[cnt - 1])
  }

  lemma Moves(l: multiset<Block>, o: multiset<Block>, h: multiset<Block>, t: multiset<Block>, a: multiset<Block>,
              x: multiset<Block>)
    ensures l + o + h + t + a + x == l + o + h + t + (a + x)
    ensures l + o + h + t + a + x - h == l + o + x + t + a
    ensures l + o + h + t + a + x - o == l + x + h + t + a
    ensures l + o + h + t + a - t + x == l + o + h + x + a
    ensures l + o + h + t + a + x - x == l + o + h + t + a
    ensures h <= l + o + h + t + a + x && o <= l + o + h + t + a + x && t <= l + o + h + t + a
  {
  }

  /** A new host name in place of the old one. */
  lemma NewHost(live: multiset<Block>, live0: multiset<Block>, list: Block, aliases: seq<Block>, cnt: nat,
                host: Block, owner: Block, data: Block)
    requires Owns(live, live0, list, aliases, cnt, host, owner) && data != Null
    ensures host == Null ==> Owns(live + multiset{data}, live0, list, aliases, cnt, data, owner)
    ensures host != Null ==> Owns(live + multiset{data} - multiset{host}, live0, list, aliases, cnt, data, owner)
    ensures host == Null || host in live + multiset{data}
  {
    Moves(live0, multiset{owner}, Maybe(host), multiset{list}, multiset(aliases[..cnt]), multiset{data});
  }

  /** A new owner in place of the old one. */
  lemma NewOwner(live: multiset<Block>, live0: multiset<Block>, list: Block, aliases: seq<Block>, cnt: nat,
                 host: Block, owner: Block, data: Block)
    requires Owns(live, live0, list, aliases, cnt, host, owner)
    ensures Owns(live + multiset{data} - multiset{owner}, live0, list, aliases, cnt, host, data)
    ensures owner in live + multiset{data}
  {
    Moves(live0, multiset{owner}, Maybe(host), multiset{list}, multiset(aliases[..cnt]), multiset{data});
  }

  lemma NewAlias(live: multiset<Block>, live0: multiset<Block>, list: Block, aliases: seq<Block>, cnt: nat,
                 host: Block, owner: Block, b: Block)
    requires Owns(live, live0, list, aliases, cnt, host, owner) && cnt < |aliases|
    ensures Owns(live + multiset{b}, live0, list, aliases[cnt := b], cnt + 1, host, owner)
  {
    var kept, kept' := aliases[..cnt], aliases[cnt := b][..cnt + 1];
    assert kept' == kept + [b];
    assert multiset(kept') == multiset(kept) + multiset{b};
    Moves(live0, multiset{owner}, Maybe(host), multiset{list}, multiset(kept), multiset{b});
  }

  lemma NewList(live: multiset<Block>, live0: multiset<Block>, list: Block, aliases: seq<Block>, cnt: nat,
                host: Block, owner: Block, b: Block, more: seq<Block>)
    requires Owns(live, live0, list, aliases, cnt, host, owner)
    ensures Owns(live - multiset{list} + multiset{b}, live0, b, aliases + more, cnt, host, owner)
    ensures list in live
  {
    assert (aliases + more)[..cnt] == aliases[..cnt];
    hide Maybe;
    Moves(live0, multiset{owner}, Maybe(host), multiset{list}, multiset(aliases[..cnt]), multiset{b});
  }

  ghost function With(s: Trail, target: seq<byte>): Trail {
    s.(targets := s.targets + [target])
  }

  lemma HoldsTarget(s: Trail, owner: Block, host: Block, aliases: seq<Block>, cnt: nat, data: Block, b: Block,
                    aliases': seq<Block>)
    requires Holds(s, owner, host, aliases, cnt) && data.Str? && b.Str? && b.text == CString(data.text)
    requires aliases[cnt := b] <= aliases' && cnt + 1 < |aliases'|
    ensures Holds(With(s, data.text), owner, data, aliases', cnt + 1)
  {
  }

  /** Doubles the alias array; every alias keeps its place. */
  method Grow(heap: Heap, list: Block, aliases: seq<Block>, ghost cnt: nat, ghost host: Block, ghost owner: Block,
              ghost live0: multiset<Block>)
      returns (status: Status, list': Block, aliases': seq<Block>)
    requires heap.Valid() && Owns(heap.live, live0, list, aliases, cnt, host, owner)
    modifies heap
    ensures heap.Valid() && Owns(heap.live, live0, list', aliases', cnt, host, owner)
    ensures status == SUCCESS || status == ENOMEM
    ensures status == SUCCESS ==> |aliases'| == 2 * |aliases| && aliases <= aliases'
    ensures heap.failures == old(heap.failures) + if status == ENOMEM then 1 else 0
  {
    hide Heap.Valid;
    hide Owns;
    var more := seq(|aliases|, _ => Null);
    list', aliases', status := list, aliases, SUCCESS;
    ghost var live := heap.live;
    NewList(live, live0, list, aliases, cnt, host, owner, list, []);
    var b := heap.Realloc(list);
    if b == Null {
      status := ENOMEM;
    } else {
      NewList(live, live0, list, aliases, cnt, host, owner, b, more);
      list', aliases' := b, aliases + more;
    }
  }

  /** The target of a PTR record becomes the host name. */
  method SetHost(heap: Heap, msg: seq<byte>, target: nat, ghost list: Block, ghost aliases: seq<Block>, ghost cnt: nat,
                 host: Block, ghost owner: Block, ghost live0: multiset<Block>)
      returns (status: Status, host': Block)
    requires heap.Valid() && Owns(heap.live, live0, list, aliases, cnt, host, owner)
    modifies heap
    ensures heap.Valid() && Owns(heap.live, live0, list, aliases, cnt, host', owner)
    ensures status == SUCCESS || status == EBADRESP || status == ENOMEM
    ensures status == EBADRESP ==> NameAt(msg, target).None?
    ensures status == SUCCESS ==> host'.Str? && NameAt(msg, target) == Some(host'.text)
    ensures heap.failures == old(heap.failures) + if status == ENOMEM then 1 else 0
  {
    hide Heap.Valid;
    hide NameAt;
    hide Owns;
    host' := host;
    ghost var live := heap.live;
    var data, len;
    status, data, len := ExpandForResponse(heap, msg, target);
    if status == SUCCESS {
      NewHost(live, live0, list, aliases, cnt, host, owner, data);
      if host != Null { heap.Free(host); }
      host' := data;
    }
  }

  /** A copy of the host name is stored as the next alias; the array doubles when it is full. */
  method AddAlias(heap: Heap, list: Block, aliases: seq<Block>, cnt: nat, text: seq<byte>,
                  ghost host: Block, ghost owner: Block, ghost live0: multiset<Block>)
      returns (status: Status, list': Block, aliases': seq<Block>, cnt': nat, b: Block)
    requires heap.Valid() && Owns(heap.live, live0, list, aliases, cnt, host, owner) && cnt < |aliases|
    modifies heap
    ensures heap.Valid() && Owns(heap.live, live0, list', aliases', cnt', host, owner)
    ensures status == SUCCESS || status == ENOMEM
    ensures status == SUCCESS ==> b.Str? && b.text == CString(text) && cnt' == cnt + 1 < |aliases'|
    ensures status == SUCCESS ==> aliases[cnt := b] <= aliases'
    ensures heap.failures == old(heap.failures) + if status == ENOMEM then 1 else 0
  {
    hide Heap.Valid;
    hide Owns;
    hide CString;
    status, list', aliases', cnt' := SUCCESS, list, aliases, cnt;
    ghost var live := heap.live;
    b := heap.Duplicate(text);
    if b == Null {
      status := ENOMEM;
    } else {
      NewAlias(live, live0, list, aliases, cnt, host, owner, b);
      aliases', cnt' := aliases[cnt := b], cnt + 1;
      if cnt' >= |aliases'| {
        status, list', aliases' := Grow(heap, list, aliases', cnt', host, owner, live0);
      }
    }
  }

  /** An alias changes the owner that is asked for. */
  method SetOwner(heap: Heap, msg: seq<byte>, target: nat, ghost list: Block, ghost aliases: seq<Block>, ghost cnt: nat,
                  ghost host: Block, owner: Block, ghost live0: multiset<Block>)
      returns (status: Status, owner': Block)
    requires heap.Valid() && Owns(heap.live, live0, list, aliases, cnt, host, owner)
    modifies heap
    ensures heap.Valid() && Owns(heap.live, live0, list, aliases, cnt, host, owner')
    ensures status == SUCCESS || status == EBADRESP || status == ENOMEM
    ensures status == EBADRESP ==> NameAt(msg, target).None?
    ensures status == SUCCESS ==> owner'.Str? && NameAt(msg, target) == Some(owner'.text)
    ensures heap.failures == old(heap.failures) + if status == ENOMEM then 1 else 0
  {
    hide Heap.Valid;
    hide NameAt;
    hide Owns;
    owner' := owner;
    ghost var live := heap.live;
    var data, len;
    status, data, len := ExpandForResponse(heap, msg, target);
    if status == SUCCESS {
      NewOwner(live, live0, list, aliases, cnt, host, owner, data);
      heap.Free(owner);
      owner' := data;
    }
  }

  /** The body of the record loop once the record is decoded. */
  method TakeRecord(heap: Heap, msg: seq<byte>, r: Record, list: Block, aliases: seq<Block>, cnt: nat,
                    host: Block, owner: Block, ghost live0: multiset<Block>, ghost s: Trail)
      returns (status: Status, list': Block, aliases': seq<Block>, cnt': nat, host': Block, owner': Block,
               ghost s': Trail)
    requires heap.Valid() && Owns(heap.live, live0, list, aliases, cnt, host, owner)
    requires Holds(s, owner, host, aliases, cnt)
    modifies heap
    ensures heap.Valid() && Owns(heap.live, live0, list', aliases', cnt', host', owner')
    ensures status == SUCCESS || status == EBADRESP || status == ENOMEM
    ensures status == EBADRESP ==> Step(msg, s, r).None?
    ensures status == SUCCESS ==> Step(msg, s, r) == Some(s') && Holds(s', owner', host', aliases', cnt')
    ensures heap.failures == old(heap.failures) + if status == ENOMEM then 1 else 0
  {
    hide Heap.Valid;
    hide NameAt;
    hide Owns;
    hide IsPtr;
    status, list', aliases', cnt', host', owner', s' := SUCCESS, list, aliases, cnt, host, owner, s;
    if IsPtr(owner.text, r) {
      status, host' := SetHost(heap, msg, r.data, list, aliases, cnt, host, owner, live0);
      if status == SUCCESS {
        var b;
        status, list', aliases', cnt', b := AddAlias(heap, list, aliases, cnt, host'.text, host', owner, live0);
        if status == SUCCESS {
          HoldsTarget(s, owner, host, aliases, cnt, host', b, aliases');
          s' := With(s, host'.text);
        }
      }
    } else if r.IsCname() {
      status, owner' := SetOwner(heap, msg, r.data, list, aliases, cnt, host, owner, live0);
      if status == SUCCESS { s' := s.(owner := owner'.text); }
    }
  }

  lemma NameIn(live: multiset<Block>, live0: multiset<Block>, list: Block, aliases: seq<Block>, cnt: nat,
               host: Block, owner: Block)
    requires Owns(live, live0, list, aliases, cnt, host, owner)
    ensures forall n :: Owns(live + multiset{n}, live0 + multiset{n}, list, aliases, cnt, host, owner)
  {
    hide Maybe;
  }

  lemma NameOut(live: multiset<Block>, live0: multiset<Block>, list: Block, aliases: seq<Block>, cnt: nat,
                host: Block, owner: Block, n: Block)
    requires Owns(live, live0 + multiset{n}, list, aliases, cnt, host, owner)
    ensures Owns(live - multiset{n}, live0, list, aliases, cnt, host, owner) && n in live
  {
    hide Maybe;
  }

  lemma NoRecord(msg: seq<byte>, s: Trail, p: nat, left: nat)
    requires left > 0
    ensures ReadRecord(msg, p).None? ==> Gather(msg, s, p, left).None?
  {
    hide ReadRecord;
  }

  lemma GatherStep(msg: seq<byte>, s: Trail, p: nat, left: nat, r: Record)
    requires left > 0 && ReadRecord(msg, p) == Some(r)
    ensures p < r.data && r.data + r.len <= |msg|
    ensures Step(msg, s, r).None? ==> Gather(msg, s, p, left).None?
    ensures Step(msg, s, r).Some? ==>
      Gather(msg, s, p, left) == Gather(msg, Step(msg, s, r).value, r.data + r.len, left - 1)
  {
    hide ReadRecord;
    hide Step;
  }

  /** One turn of the record loop; the record's own name is released on every way out. */
  method NextRecord(heap: Heap, msg: seq<byte>, aptr: nat, left: nat, list: Block, aliases: seq<Block>, cnt: nat,
                    host: Block, owner: Block, ghost live0: multiset<Block>, ghost s: Trail)
      returns (status: Status, aptr': nat, list': Block, aliases': seq<Block>, cnt': nat, host': Block, owner': Block,
               ghost s': Trail)
    requires heap.Valid() && left > 0 && Owns(heap.live, live0, list, aliases, cnt, host, owner)
    requires Holds(s, owner, host, aliases, cnt)
    modifies heap
    ensures heap.Valid() && Owns(heap.live, live0, list', aliases', cnt', host', owner')
    ensures status == SUCCESS || status == EBADRESP || status == ENOMEM
    ensures status == EBADRESP ==> Gather(msg, s, aptr, left).None?
    ensures status == SUCCESS ==> aptr < aptr' <= |msg|
    ensures status == SUCCESS ==> Gather(msg, s, aptr, left) == Gather(msg, s', aptr', left - 1)
    ensures status == SUCCESS ==> Holds(s', owner', host', aliases', cnt')
    ensures heap.failures == old(heap.failures) + if status == ENOMEM then 1 else 0
  {
    hide Heap.Valid;
    hide ReadRecord;
    hide Step;
    hide Holds;
    hide Owns;
    hide Gather;
    aptr', list', aliases', cnt', host', owner', s' := aptr, list, aliases, cnt, host, owner, s;
    NoRecord(msg, s, aptr, left);
    NameIn(heap.live, live0, list, aliases, cnt, host, owner);
    var name, r;
    status, name, r := DecodeRecord(heap, msg, aptr);
    if status == SUCCESS {
      GatherStep(msg, s, aptr, left, r);
      status, list', aliases', cnt', host', owner', s' :=
        TakeRecord(heap, msg, r, list, aliases, cnt, host, owner, live0 + multiset{name}, s);
      NameOut(heap.live, live0, list', aliases', cnt', host', owner', name);
      heap.Free(name);
      aptr' := r.data + r.len;
    }
  }

  /** The record loop. */
  method ReadAnswers(heap: Heap, msg: seq<byte>, first: nat, ancount: nat, question: Block, list0: Block,
                     aliases0: seq<Block>, ghost live0: multiset<Block>)
      returns (status: Status, list: Block, aliases: seq<Block>, cnt: nat, host: Block, owner: Block, ghost s: Trail)
    requires heap.Valid() && question.Str? && first <= |msg| && aliases0 != []
    requires Owns(heap.live, live0, list0, aliases0, 0, Null, question)
    modifies heap
    ensures heap.Valid() && Owns(heap.live, live0, list, aliases, cnt, host, owner)
    ensures status == SUCCESS || status == EBADRESP || status == ENOMEM
    ensures status == EBADRESP ==> Gather(msg, Trail(question.text, []), first, ancount).None?
    ensures status == SUCCESS ==>
      Gather(msg, Trail(question.text, []), first, ancount) == Some(s) && Holds(s, owner, host, aliases, cnt)
    ensures heap.failures == old(heap.failures) + if status == ENOMEM then 1 else 0
  {
    hide Heap.Valid;
    hide Owns;
    hide ReadRecord;
    hide Step;
    status, list, aliases, cnt, host, owner := SUCCESS, list0, aliases0, 0, Null, question;
    s := Trail(question.text, []);
    var aptr: nat, i := first, 0;
    while i < ancount && status == SUCCESS
      invariant 0 <= i <= ancount && heap.Valid()
      invariant status == SUCCESS || status == EBADRESP || status == ENOMEM
      invariant Owns(heap.live, live0, list, aliases, cnt, host, owner)
      invariant status == EBADRESP ==> Gather(msg, Trail(question.text, []), first, ancount).None?
      invariant status == SUCCESS ==>
        && aptr <= |msg| && Holds(s, owner, host, aliases, cnt)
        && Gather(msg, s, aptr, ancount - i) == Gather(msg, Trail(question.text, []), first, ancount)
      invariant heap.failures == old(heap.failures) + if status == ENOMEM then 1 else 0
    {
      status, aptr, list, aliases, cnt, host, owner, s :=
        NextRecord(heap, msg, aptr, ancount - i, list, aliases, cnt, host, owner, live0, s);
      i := i + 1;
    }
  }

  lemma Last(rest: multiset<Block>, list: Block, a: multiset<Block>)
    ensures rest + multiset{list} + a == rest + a + multiset{list}
  {
  }

  /** The failure exit: everything the parser still holds goes back. */
  method CleanUp(heap: Heap, list: Block, aliases: seq<Block>, cnt: nat, host: Block, owner: Block,
                 ghost live0: multiset<Block>)
    requires heap.Valid() && Owns(heap.live, live0, list, aliases, cnt, host, owner)
    modifies heap
    ensures heap.Valid() && heap.live == live0 && heap.failures == old(heap.failures)
  {
    hide Heap.Valid;
    ghost var rest := live0 + multiset{owner} + Maybe(host);
    Last(rest, list, multiset(aliases[..cnt]));
    PR.FreeAliases(heap, aliases[..cnt], rest, list);
    TakeOut(rest, list);
    heap.Free(list);
    TakeOut(live0 + multiset{owner}, host);
    if host != Null { heap.Free(host); }
    TakeOut(live0, owner);
    heap.Free(owner);
  }

  /** The entry's own blocks, taken one after the other; on a failure those already taken go back. */
  method AllocateEntry(heap: Heap) returns (ok: bool, self: Block, addrList: Block, addrBlock: Block, aliasList: Block)
    requires heap.Valid()
    modifies heap
    ensures heap.Valid()
    ensures ok ==> addrBlock != Null && heap.failures == old(heap.failures)
    ensures ok ==>
      heap.live == old(heap.live) + multiset{self} + multiset{addrList} + multiset{addrBlock} + multiset{aliasList}
    ensures !ok ==> heap.live == old(heap.live) && heap.failures == old(heap.failures) + 1
  {
    hide Heap.Valid;
    ok, addrList, addrBlock, aliasList := false, Null, Null, Null;
    ghost var l := heap.live;
    self := heap.Malloc();
    if self != Null {
      addrList := heap.Malloc();
      if addrList != Null {
        addrBlock := heap.Malloc();
        if addrBlock != Null {
          aliasList := heap.Malloc();
          if aliasList != Null {
            ok := true;
          } else {
            TakeOut(l + multiset{self} + multiset{addrList}, addrBlock);
            heap.Free(addrBlock);
            TakeOut(l + multiset{self}, addrList);
            heap.Free(addrList);
            TakeOut(l, self);
            heap.Free(self);
          }
        } else {
          TakeOut(l + multiset{self}, addrList);
          heap.Free(addrList);
          TakeOut(l, self);
          heap.Free(self);
        }
      } else {
        TakeOut(l, self);
        heap.Free(self);
      }
    }
  }

  lemma Tally(l: multiset<Block>, o: multiset<Block>, h: multiset<Block>, t: multiset<Block>, a: multiset<Block>,
              s: multiset<Block>, d: multiset<Block>, x: multiset<Block>, y: multiset<Block>)
    ensures l + o + h + t + a + s + d + x + y - t - o == l + (x + y + a + h + s + d)
    ensures t <= l + o + h + t + a + s + d + x + y && o <= l + o + h + t + a + s + d + x + y - t
  {
  }

  /** Builds the entry; the parser's array and the owner's name are no longer needed. */
  method BuildHost(heap: Heap, addr: seq<byte>, list: Block, aliases: seq<Block>, cnt: nat, host: Block, owner: Block,
                   ghost live0: multiset<Block>)
      returns (ok: bool, h: PR.Hostent)
    requires heap.Valid() && host != Null && Owns(heap.live, live0, list, aliases, cnt, host, owner)
    modifies heap
    ensures heap.Valid()
    ensures !ok ==> heap.live == old(heap.live) && heap.failures == old(heap.failures) + 1
    ensures ok ==> heap.live == live0 + h.Blocks() && heap.failures == old(heap.failures)
    ensures ok ==> h.name == host && h.aliases == aliases[..cnt] && h.addrs == [addr]
  {
    ghost var l := heap.live;
    assert l == live0 + multiset{owner} + multiset{host} + multiset{list} + multiset(aliases[..cnt]);
    hide Heap.Valid;
    hide Owns;
    var self, addrList, addrBlock, aliasList;
    ok, self, addrList, addrBlock, aliasList := AllocateEntry(heap);
    h := PR.Hostent(self, host, aliasList, aliases[..cnt], addrList, addrBlock, [addr]);
    if ok {
      Tally(live0, multiset{owner}, multiset{host}, multiset{list}, multiset(aliases[..cnt]), multiset{self},
            multiset{addrList}, multiset{addrBlock}, multiset{aliasList});
      heap.Free(list);
      heap.Free(owner);
    }
  }

  /** What a successful call hands back: every target in order, the last of them as the host's name. */
  ghost predicate Delivered(targets: seq<seq<byte>>, addr: seq<byte>, h: PR.Hostent) {
    && targets != [] && h.addrs == [addr]
    && |h.aliases| == |targets|
    && (forall k | 0 <= k < |targets| :: h.aliases[k].Str? && h.aliases[k].text == CString(targets[k]))
    && h.name.Str? && h.name.text == targets[|targets| - 1]
  }

  lemma BadOpening(msg: seq<byte>, status: Status)
    requires status == EBADRESP ==> Opening(msg).None?
    ensures status == EBADRESP ==> Meaning(msg) == BadResponse
  {
  }

  lemma OwnNothing(live0: multiset<Block>, question: Block, list: Block, aliases: seq<Block>)
    ensures Owns(live0 + multiset{question} + multiset{list}, live0, list, aliases, 0, Null, question)
  {
  }

  /** Everything after the question: the loop, then the entry or the way back. */
  method Answer(heap: Heap, msg: seq<byte>, first: nat, ancount: nat, question: Block, list0: Block,
                aliases0: seq<Block>, addr: seq<byte>, ghost live0: multiset<Block>)
      returns (status: Status, h: Option<PR.Hostent>)
    requires heap.Valid() && question.Str? && aliases0 != [] && first <= |msg|
    requires Opening(msg) == Some(Opened(question.text, first, ancount))
    requires Owns(heap.live, live0, list0, aliases0, 0, Null, question)
    modifies heap
    ensures heap.Valid()
    ensures heap.live == live0 + if h.Some? then h.value.Blocks() else multiset{}
    ensures status == SUCCESS || status == EBADRESP || status == ENODATA || status == ENOMEM
    ensures status == EBADRESP ==> Meaning(msg) == BadResponse
    ensures status == ENODATA ==> Meaning(msg) == NoData
    ensures status == SUCCESS <==> h.Some?
    ensures status == SUCCESS ==> Meaning(msg).Found? && Delivered(Meaning(msg).targets, addr, h.value)
    ensures heap.failures == old(heap.failures) + if status == ENOMEM then 1 else 0
  {
    hide Heap.Valid;
    hide Opening;
    hide Meaning;
    hide Gather;
    hide Owns;
    hide PR.Hostent.Blocks;
    h := None;
    TakeOut(live0, Null);
    var list, aliases, cnt, host, owner; ghost var s;
    status, list, aliases, cnt, host, owner, s :=
      ReadAnswers(heap, msg, first, ancount, question, list0, aliases0, live0);
    MeaningOf(msg, Opened(question.text, first, ancount), Gather(msg, Trail(question.text, []), first, ancount));
    if status == SUCCESS && host == Null { status := ENODATA; }
    if status == SUCCESS {
      var ok, e := BuildHost(heap, addr, list, aliases, cnt, host, owner, live0);
      if ok { h := Some(e); } else { status := ENOMEM; }
    }
    if h.None? { CleanUp(heap, list, aliases, cnt, host, owner, live0); }
  }

  /** ares_parse_ptr_reply. The status and the names are what the reply means; every block is in the entry or back. */
  method ParsePtrReply(heap: Heap, msg: seq<byte>, addr: seq<byte>) returns (status: Status, host: Option<PR.Hostent>)
    requires heap.Valid()
    modifies heap
    ensures heap.Valid()
    ensures heap.live == old(heap.live) + if host.Some? then host.value.Blocks() else multiset{}
    ensures status == SUCCESS || status == EBADRESP || status == ENODATA || status == ENOMEM
    ensures status == EBADRESP ==> Meaning(msg) == BadResponse
    ensures status == ENODATA ==> Meaning(msg) == NoData
    ensures status == SUCCESS <==> host.Some?
    ensures status == SUCCESS ==> Meaning(msg).Found? && Delivered(Meaning(msg).targets, addr, host.value)
    ensures heap.failures == old(heap.failures) + if status == ENOMEM then 1 else 0
  {
    hide Heap.Valid;
    hide Opening;
    hide Meaning;
    hide Gather;
    host := None;
    ghost var live0 := heap.live;
    TakeOut(live0, Null);
    var question, first, ancount;
    status, question, first, ancount := OpenReply(heap, msg);
    if status != SUCCESS {
      BadOpening(msg, status);
    } else {
      var list := heap.Malloc();
      if list == Null {
        TakeOut(live0, question);
        heap.Free(question);
        status := ENOMEM;
      } else {
        var aliases := seq(8, _ => Null);
        OwnNothing(live0, question, list, aliases);
        status, host := Answer(heap, msg, first, ancount, question, list, aliases, addr, live0);
      }
    }
  }
}
