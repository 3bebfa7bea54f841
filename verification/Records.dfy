/** Resource records of an answer section, and how the parsers get at them. */
module Records {
  import opened Ares
  import opened Bytes
  import opened Names
  import opened Expand
  import opened Memory

  const RRFIXEDSZ := 10
  const C_IN := 1
  const T_A := 1
  const T_CNAME := 5
  const T_PTR := 12
  const T_AAAA := 28
  const INT_MAX := 0x7fff_ffff

  /** Section 4.1.3 of RFC 1035; the data are `len` octets at `data`, the TTL is kept in a signed int. */
  datatype Record = Record(owner: seq<byte>, rrtype: nat, rrclass: nat, ttl: int, data: nat, len: nat) {
    predicate IsCname() {
      rrclass == C_IN && rrtype == T_CNAME
    }
  }

  /** The text of the name at `p`, if there is one. */
  ghost function NameAt(msg: seq<byte>, p: nat): Option<seq<byte>> {
    if HasExpansion(msg, p) then Some(Text(NameLabels(msg, p))) else None
  }

  /** The record at `p`, if all of it lies within the message. */
  ghost function ReadRecord(msg: seq<byte>, p: nat): (r: Option<Record>)
    ensures r.Some? ==> p < r.value.data && r.value.data + r.value.len <= |msg|
  {
    if !HasExpansion(msg, p) then None
    else
      var f := p + InPlace(msg, p);
      if f + RRFIXEDSZ > |msg| then None
      else if f + RRFIXEDSZ + U16(msg, f + 8) > |msg| then None
      else Some(Record(Text(NameLabels(msg, p)), U16(msg, f), U16(msg, f + 2), Signed32(U32(msg, f + 4)),
                       f + RRFIXEDSZ, U16(msg, f + 8)))
  }

  /** Records already read, in front of those still to come. */
  ghost function Onward(done: seq<Record>, rest: Option<seq<Record>>): Option<seq<Record>> {
    if rest.None? then None else Some(done + rest.value)
  }

  /** `count` records one after the other from `p` on. */
  ghost function ReadRecords(msg: seq<byte>, p: nat, count: nat): (r: Option<seq<Record>>)
    decreases count
  {
    if count == 0 then Some([])
    else
      var first := ReadRecord(msg, p);
      if first.None? then None
      else Onward([first.value], ReadRecords(msg, first.value.data + first.value.len, count - 1))
  }

  /** ares__expand_name_for_response: a name in its own block, or a bad response. */
  method ExpandForResponse(heap: Heap, msg: seq<byte>, p: nat) returns (status: Status, name: Block, len: nat)
    requires heap.Valid()
    modifies heap
    ensures heap.Valid()
    ensures status == SUCCESS || status == EBADRESP || status == ENOMEM
    ensures status == SUCCESS ==> name.Str? && NameAt(msg, p) == Some(name.text) && len == InPlace(msg, p)
    ensures status == SUCCESS ==> heap.live == old(heap.live) + multiset{name} && name !in old(heap.live)
    ensures status == EBADRESP <==> NameAt(msg, p).None?
    ensures status != SUCCESS ==> heap.live == old(heap.live)
    ensures heap.failures == old(heap.failures) + if status == ENOMEM then 1 else 0
    ensures heap.asked == old(heap.asked) + if status == EBADRESP then 0 else 1
  {
    var mallocOk := !heap.refuses(heap.asked);
    var buf;
    status, buf, len := ExpandName(msg, p, mallocOk);
    name := Null;
    if status == SUCCESS {
      ghost var t := Text(NameLabels(msg, p));
      assert buf[..buf.Length - 1] == (t + [NUL])[..|t|] == t;
      name := heap.AddString(buf[..buf.Length - 1]);
    } else if status == ENOMEM {
      heap.Refuse();
    } else {
      status := EBADRESP;
    }
  }

  /** The head of the record loop: the owner and the fixed part, checked against the end of the message. */
  method DecodeRecord(heap: Heap, msg: seq<byte>, p: nat) returns (status: Status, name: Block, r: Record)
    requires heap.Valid()
    modifies heap
    ensures heap.Valid()
    ensures status == SUCCESS || status == EBADRESP || status == ENOMEM
    ensures status == SUCCESS ==> ReadRecord(msg, p) == Some(r) && name.Str? && name.text == r.owner
    ensures status == SUCCESS ==> heap.live == old(heap.live) + multiset{name} && name !in old(heap.live)
    ensures status == EBADRESP ==> ReadRecord(msg, p).None?
    ensures status != SUCCESS ==> heap.live == old(heap.live)
    ensures heap.failures == old(heap.failures) + if status == ENOMEM then 1 else 0
    ensures status != EBADRESP ==> heap.asked == old(heap.asked) + 1
  {
    hide Heap.Valid;
    hide Text;
    hide HasExpansion;
    hide InPlace;
    hide NameLabels;
    hide U16;
    hide U32;
    hide Signed32;
    r := Record([], 0, 0, 0, 0, 0);
    var len;
    status, name, len := ExpandForResponse(heap, msg, p);
    if status == SUCCESS {
      TakeOut(old(heap.live), name);
      var f := p + len;
      if f + RRFIXEDSZ <= |msg| && f + RRFIXEDSZ + U16(msg, f + 8) <= |msg| {
        r := Record(name.text, U16(msg, f), U16(msg, f + 2), Signed32(U32(msg, f + 4)), f + RRFIXEDSZ, U16(msg, f + 8));
      } else {
        heap.Free(name);
        status := EBADRESP;
      }
    }
  }

  /** Where the answers of a reply begin: the question's name, the first record, and how many there are. */
  datatype Opened = Opened(question: seq<byte>, first: nat, count: nat)

  ghost function Opening(msg: seq<byte>): (o: Option<Opened>)
    ensures o.Some? ==> o.value.first <= |msg|
  {
    if |msg| < HFIXEDSZ || U16(msg, 4) != 1 || !HasExpansion(msg, HFIXEDSZ) then None
    else
      var first := HFIXEDSZ + InPlace(msg, HFIXEDSZ) + QFIXEDSZ;
      if first > |msg| then None
      else Some(Opened(Text(NameLabels(msg, HFIXEDSZ)), first, U16(msg, 6)))
  }

  /** The checks every reply parser starts with. */
  method OpenReply(heap: Heap, msg: seq<byte>) returns (status: Status, name: Block, first: nat, ancount: nat)
    requires heap.Valid()
    modifies heap
    ensures heap.Valid()
    ensures status == SUCCESS || status == EBADRESP || status == ENOMEM
    ensures status == SUCCESS ==> name.Str? && Opening(msg) == Some(Opened(name.text, first, ancount))
    ensures status == SUCCESS ==> heap.live == old(heap.live) + multiset{name}
    ensures status == EBADRESP ==> Opening(msg).None?
    ensures status != SUCCESS ==> heap.live == old(heap.live)
    ensures heap.failures == old(heap.failures) + if status == ENOMEM then 1 else 0
    ensures status != EBADRESP ==> heap.asked == old(heap.asked) + 1
  {
    hide Heap.Valid;
    hide Text;
    hide HasExpansion;
    hide InPlace;
    hide NameLabels;
    hide U16;
    status, name, first, ancount := EBADRESP, Null, 0, 0;
    if |msg| < HFIXEDSZ { return; }
    var qdcount := U16(msg, 4);
    ancount := U16(msg, 6);
    if qdcount != 1 { return; }
    var len;
    status, name, len := ExpandForResponse(heap, msg, HFIXEDSZ);
    if status == SUCCESS {
      first := HFIXEDSZ + len + QFIXEDSZ;
      if first > |msg| {
        TakeOut(old(heap.live), name);
        heap.Free(name);
        status := EBADRESP;
      }
    }
  }
}
