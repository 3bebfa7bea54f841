/** The wire format written out, and read back: names with pointers, fields, records and whole replies. */
module Wire {
  import opened Ares
  import opened Bytes
  import opened Names
  import opened RoundTrip
  import opened Records

  ghost predicate Holds(msg: seq<byte>, p: nat, s: seq<byte>) {
    p + |s| <= |msg| && msg[p..p + |s|] == s
  }

  lemma HoldsInside(a: seq<byte>, s: seq<byte>, z: seq<byte>)
    ensures Holds(a + s + z, |a|, s)
  {
  }

  lemma HoldsParts(msg: seq<byte>, p: nat, s: seq<byte>, t: seq<byte>)
    requires Holds(msg, p, s + t)
    ensures Holds(msg, p, s) && Holds(msg, p + |s|, t)
  {
    var u := msg[p..p + |s + t|];
    assert msg[p..p + |s|] == u[..|s|] == s;
    assert msg[p + |s|..p + |s| + |t|] == u[|s|..] == t;
  }

  // ---------- Pointers ----------

  /** Section 4.1.4 of RFC 1035: two bits set, then the offset in fourteen. */
  function PointerBytes(t: nat): (s: seq<byte>)
    requires t < 0x4000
    ensures |s| == 2
  {
    [0xc0 + t / 256, t % 256]
  }

  lemma PointerElement(msg: seq<byte>, p: nat, t: nat)
    requires t < 0x4000 && Holds(msg, p, PointerBytes(t))
    ensures ElementAt(msg, p) == if t < |msg| then Jump(t) else Bad
  {
    var s := msg[p..p + 2];
    assert msg[p] == s[0] && msg[p + 1] == s[1];
  }

  /** A name of some labels and a pointer: they are the front of the name that the pointer leads to. */
  lemma LabelsThenPointer(msg: seq<byte>, p: nat, ls: seq<Label>, t: nat)
    requires ValidLabels(ls) && t < 0x4000 && Holds(msg, p, LabelBytes(ls) + PointerBytes(t))
    ensures HasExpansion(msg, p) <==> HasExpansion(msg, t)
    ensures HasExpansion(msg, t) ==> NameLabels(msg, p) == ls + NameLabels(msg, t)
    ensures t < |msg| ==> InPlace(msg, p) == |LabelBytes(ls)| + 2
  {
    var w := LabelBytes(ls);
    var rest := p + |w|;
    HoldsParts(msg, p, w, PointerBytes(t));
    LabelsThenRest(msg, p, ls, rest);
    PointerElement(msg, rest, t);
    ExpansionStep(msg, rest);
    ExpansionStep(msg, t);
  }

  /** The label `l` stands at `p`. */
  ghost predicate IsLabel(msg: seq<byte>, p: nat, l: Label) {
    0 < |l| <= 63 && Holds(msg, p, [|l|] + l)
  }

  /** A pointer to `t` stands at `p`. */
  ghost predicate IsPointer(msg: seq<byte>, p: nat, t: nat) {
    t < 0x4000 && Holds(msg, p, PointerBytes(t))
  }

  lemma LabelElement(msg: seq<byte>, p: nat, l: Label)
    requires IsLabel(msg, p, l)
    ensures p + 1 + |l| < |msg| ==> ElementAt(msg, p) == Take(l, p + 1 + |l|)
    ensures p + 1 + |l| >= |msg| ==> ElementAt(msg, p) == Bad
  {
    var s := [|l|] + l;
    HoldsParts(msg, p, [|l|], l);
    assert msg[p] == msg[p..p + 1][0] == |l|;
  }

  lemma ElementIsWritten(msg: seq<byte>, p: nat)
    ensures ElementAt(msg, p).Root? ==> Holds(msg, p, [0])
    ensures ElementAt(msg, p).Jump? ==> IsPointer(msg, p, ElementAt(msg, p).next)
    ensures ElementAt(msg, p).Take? ==> IsLabel(msg, p, ElementAt(msg, p).content)
    ensures ElementAt(msg, p).Take? ==> ElementAt(msg, p).next == p + 1 + |ElementAt(msg, p).content|
  {
    match ElementAt(msg, p)
    case Root => assert msg[p..p + 1] == [0];
    case Jump(t) => assert msg[p..p + 2] == PointerBytes(t);
    case Take(l, next) => assert msg[p..p + 1 + |l|] == [|l|] + l;
    case Bad =>
  }

  /** A name is a zero octet, or a pointer to a name, or a label of up to 63 octets and a name; nothing else is. */
  lemma NameGrammar(msg: seq<byte>, p: nat)
    ensures HasExpansion(msg, p) <==>
      || Holds(msg, p, [0])
      || (exists t :: IsPointer(msg, p, t) && HasExpansion(msg, t))
      || (exists l :: IsLabel(msg, p, l) && HasExpansion(msg, p + 1 + |l|))
  {
    ExpansionStep(msg, p);
    ElementIsWritten(msg, p);
    assert Holds(msg, p, [0]) ==> msg[p] == msg[p..p + 1][0] == 0;
    if HasExpansion(msg, p) {
      match ElementAt(msg, p)
      case Root =>
      case Jump(t) => assert IsPointer(msg, p, t) && HasExpansion(msg, t);
      case Take(l, next) => assert IsLabel(msg, p, l) && HasExpansion(msg, p + 1 + |l|);
    } else {
      forall t | IsPointer(msg, p, t) ensures !HasExpansion(msg, t) {
        PointerElement(msg, p, t);
        ExpansionStep(msg, t);
      }
      forall l | IsLabel(msg, p, l) ensures !HasExpansion(msg, p + 1 + |l|) {
        LabelElement(msg, p, l);
        ExpansionStep(msg, p + 1 + |l|);
      }
    }
  }

  /** A name compressed against an earlier one is the whole name again, and takes the room of what is its own. */
  lemma CompressedReadsBack(a: seq<byte>, ms: seq<Label>, b: seq<byte>, ls: seq<Label>, z: seq<byte>)
    requires ValidLabels(ms) && ValidLabels(ls) && |a| < 0x4000
    ensures var front := a + LabelBytes(ms) + [0] + b;
      var m := front + (LabelBytes(ls) + PointerBytes(|a|)) + z;
      && HasExpansion(m, |front|) && NameLabels(m, |front|) == ls + ms
      && InPlace(m, |front|) == |LabelBytes(ls)| + 2
  {
    var front := a + LabelBytes(ms) + [0] + b;
    var later := LabelBytes(ls) + PointerBytes(|a|);
    var m := front + later + z;
    assert m == a + LabelBytes(ms) + [0] + (b + later + z);
    QuestionName(a, ms, b + later + z);
    HoldsInside(front, later, z);
    LabelsThenPointer(m, |front|, ls, |a|);
  }

  // ---------- Fields and records ----------

  /** Four octets holding the low 32 bits of `v`, most significant first. */
  function Put32(v: int): (s: seq<byte>)
    ensures |s| == 4
  {
    Put16(v / 0x1_0000) + Put16(v)
  }

  lemma LowWord(v: int)
    ensures v % 0x1_0000_0000 == ((v / 0x1_0000) % 0x1_0000) * 0x1_0000 + v % 0x1_0000
  {
  }

  lemma Field32(a: seq<byte>, v: int, z: seq<byte>)
    ensures U32(a + Put32(v) + z, |a|) == v % 0x1_0000_0000
  {
    var hi, lo := Put16(v / 0x1_0000), Put16(v);
    var m := a + Put32(v) + z;
    assert m == a + hi + (lo + z) && m == (a + hi) + lo + z;
    Field16(a, v / 0x1_0000, lo + z);
    Field16(a + hi, v, z);
    LowWord(v);
  }

  /** A record to be written: the octets of its owner's name, its fields and its data. */
  datatype Written = Written(owner: seq<byte>, rrtype: int, rrclass: int, ttl: int, data: seq<byte>)

  /** Section 4.1.3 of RFC 1035, up to the data: type, class, TTL and length. */
  function FixedBytes(rrtype: int, rrclass: int, ttl: int, len: int): (s: seq<byte>)
    ensures |s| == 10
  {
    Put16(rrtype) + Put16(rrclass) + Put32(ttl) + Put16(len)
  }

  function RecordBytes(w: Written): (s: seq<byte>)
    ensures |s| == |w.owner| + 10 + |w.data|
  {
    w.owner + FixedBytes(w.rrtype, w.rrclass, w.ttl, |w.data|) + w.data
  }

  lemma FixedReadsBack(a: seq<byte>, rrtype: int, rrclass: int, ttl: int, len: int, z: seq<byte>)
    ensures var m := a + FixedBytes(rrtype, rrclass, ttl, len) + z;
      && U16(m, |a|) == rrtype % 0x1_0000 && U16(m, |a| + 2) == rrclass % 0x1_0000
      && U32(m, |a| + 4) == ttl % 0x1_0000_0000 && U16(m, |a| + 8) == len % 0x1_0000
  {
    var t, c, l, n := Put16(rrtype), Put16(rrclass), Put32(ttl), Put16(len);
    var m := a + FixedBytes(rrtype, rrclass, ttl, len) + z;
    assert m == a + t + (c + l + n + z) && m == (a + t) + c + (l + n + z);
    assert m == (a + t + c) + l + (n + z) && m == (a + t + c + l) + n + z;
    Field16(a, rrtype, c + l + n + z);
    Field16(a + t, rrclass, l + n + z);
    Field32(a + t + c, ttl, n + z);
    Field16(a + t + c + l, len, z);
  }

  /** `r` has the fields of `w`, at the offset `p`: numbers as wide as on the wire, and the TTL as a signed value. */
  ghost predicate Agrees(msg: seq<byte>, p: nat, w: Written, r: Record) {
    && HasExpansion(msg, p) && r.owner == Text(NameLabels(msg, p))
    && r.rrtype == w.rrtype % 0x1_0000 && r.rrclass == w.rrclass % 0x1_0000
    && -0x8000_0000 <= r.ttl < 0x8000_0000 && (r.ttl - w.ttl) % 0x1_0000_0000 == 0
    && r.data == p + |w.owner| + 10 && r.len == |w.data| && Holds(msg, r.data, w.data)
  }

  /** The octets of the owner are a name, in place, at `p`. */
  ghost predicate NameThere(msg: seq<byte>, p: nat, owner: seq<byte>) {
    HasExpansion(msg, p) && InPlace(msg, p) == |owner|
  }

  lemma SignedAgrees(ttl: int)
    ensures (Signed32(ttl % 0x1_0000_0000) - ttl) % 0x1_0000_0000 == 0
  {
  }

  /** What is read of a written record is what was written. */
  lemma RecordReadsBack(a: seq<byte>, w: Written, z: seq<byte>)
    requires |w.data| < 0x1_0000 && NameThere(a + RecordBytes(w) + z, |a|, w.owner)
    ensures var m := a + RecordBytes(w) + z;
      ReadRecord(m, |a|).Some? && Agrees(m, |a|, w, ReadRecord(m, |a|).value)
  {
    hide FixedBytes;
    hide HasExpansion;
    hide NameLabels;
    hide InPlace;
    hide Text;
    hide U16;
    hide U32;
    hide Signed32;
    var m := a + RecordBytes(w) + z;
    var fixed := FixedBytes(w.rrtype, w.rrclass, w.ttl, |w.data|);
    assert m == (a + w.owner) + fixed + (w.data + z) && m == (a + w.owner + fixed) + w.data + z;
    FixedReadsBack(a + w.owner, w.rrtype, w.rrclass, w.ttl, |w.data|, w.data + z);
    HoldsInside(a + w.owner + fixed, w.data, z);
    SignedAgrees(w.ttl);
  }

  /** A record that the message does not hold to its end is none. */
  lemma RecordCutShort(a: seq<byte>, owner: seq<byte>, rest: seq<byte>)
    requires NameThere(a + owner + rest, |a|, owner)
    requires |rest| < 10 || exists t, c, l, n, d | 0 <= n < 0x1_0000 :: rest == FixedBytes(t, c, l, n) + d && |d| < n
    ensures ReadRecord(a + owner + rest, |a|).None?
  {
    hide HasExpansion;
    hide InPlace;
    hide U16;
    hide FixedBytes;
    var m := a + owner + rest;
    if |rest| >= 10 {
      var t, c, l, n, d :| 0 <= n < 0x1_0000 && rest == FixedBytes(t, c, l, n) + d && |d| < n;
      assert m == (a + owner) + FixedBytes(t, c, l, n) + d;
      FixedReadsBack(a + owner, t, c, l, n, d);
    }
  }

  // ---------- Replies ----------

  function AllBytes(ws: seq<Written>): seq<byte> {
    if ws == [] then [] else RecordBytes(ws[0]) + AllBytes(ws[1..])
  }

  /** Where record `i` of those written from `p` on begins. */
  function Offset(p: nat, ws: seq<Written>, i: nat): nat
    requires i <= |ws|
    decreases i
  {
    if i == 0 then p else Offset(p + |RecordBytes(ws[0])|, ws[1..], i - 1)
  }

  ghost predicate AllThere(msg: seq<byte>, p: nat, ws: seq<Written>) {
    forall i | 0 <= i < |ws| :: |ws[i].data| < 0x1_0000 && NameThere(msg, Offset(p, ws, i), ws[i].owner)
  }

  lemma RestThere(msg: seq<byte>, p: nat, ws: seq<Written>)
    requires ws != [] && AllThere(msg, p, ws)
    ensures NameThere(msg, p, ws[0].owner) && AllThere(msg, p + |RecordBytes(ws[0])|, ws[1..])
  {
    hide NameThere;
    hide RecordBytes;
    assert Offset(p, ws, 0) == p;
    var q := p + |RecordBytes(ws[0])|;
    forall i | 0 <= i < |ws[1..]| ensures NameThere(msg, Offset(q, ws[1..], i), ws[1..][i].owner) {
      assert Offset(p, ws, i + 1) == Offset(q, ws[1..], i);
    }
  }

  lemma DataEnds(msg: seq<byte>, p: nat, w: Written, r: Record)
    requires Agrees(msg, p, w, r)
    ensures r.data + r.len == p + |RecordBytes(w)|
  {
  }

  /** Records written one after the other are read one after the other, each as it was written. */
  lemma {:induction false} RecordsReadBack(a: seq<byte>, ws: seq<Written>, z: seq<byte>)
    requires AllThere(a + AllBytes(ws) + z, |a|, ws)
    ensures var m := a + AllBytes(ws) + z;
      && ReadRecords(m, |a|, |ws|).Some?
      && var rs := ReadRecords(m, |a|, |ws|).value;
      |rs| == |ws| && forall i | 0 <= i < |ws| :: Agrees(m, Offset(|a|, ws, i), ws[i], rs[i])
    decreases |ws|
  {
    hide ReadRecord;
    hide RecordBytes;
    hide Agrees;
    hide NameThere;
    var m := a + AllBytes(ws) + z;
    if ws != [] {
      var w, more := ws[0], ws[1..];
      var b := a + RecordBytes(w);
      assert m == b + AllBytes(more) + z && m == a + RecordBytes(w) + (AllBytes(more) + z);
      RestThere(m, |a|, ws);
      assert |ws[0].data| < 0x1_0000;
      RecordReadsBack(a, w, AllBytes(more) + z);
      RecordsReadBack(b, more, z);
      var r := ReadRecord(m, |a|).value;
      DataEnds(m, |a|, w, r);
      assert ReadRecords(m, |a|, |ws|) == Onward([r], ReadRecords(m, |b|, |more|));
      var rs := ReadRecords(m, |a|, |ws|).value;
      forall i | 0 <= i < |ws| ensures Agrees(m, Offset(|a|, ws, i), ws[i], rs[i]) {
        if i > 0 {
          assert Offset(|a|, ws, i) == Offset(|b|, more, i - 1);
          assert rs[i] == ReadRecords(m, |b|, |more|).value[i - 1];
        }
      }
    }
  }

  /** The header of a reply: identifier, flags, and the counts of its four sections. */
  function ReplyHeader(id: int, flags: int, questions: int, answers: int, more: int, extra: int): (h: seq<byte>)
    ensures |h| == 12
  {
    Put16(id) + Put16(flags) + Put16(questions) + Put16(answers) + Put16(more) + Put16(extra)
  }

  lemma CountsReadBack(id: int, flags: int, questions: int, answers: int, more: int, extra: int, z: seq<byte>)
    ensures var m := ReplyHeader(id, flags, questions, answers, more, extra) + z;
      U16(m, 4) == questions % 0x1_0000 && U16(m, 6) == answers % 0x1_0000
  {
    var i, f, q, n := Put16(id), Put16(flags), Put16(questions), Put16(answers);
    var m := ReplyHeader(id, flags, questions, answers, more, extra) + z;
    var rest := Put16(more) + Put16(extra) + z;
    assert m == (i + f) + q + (n + rest) && m == (i + f + q) + n + rest;
    Field16(i + f, questions, n + rest);
    Field16(i + f + q, answers, rest);
  }

  /** A reply opens at its first answer exactly if it has one question, and its name, type and class are there. */
  lemma ReplyOpens(id: int, flags: int, questions: int, answers: int, more: int, extra: int, name: seq<byte>,
                   rest: seq<byte>)
    requires NameThere(ReplyHeader(id, flags, questions, answers, more, extra) + name + rest, 12, name)
    ensures var m := ReplyHeader(id, flags, questions, answers, more, extra) + name + rest;
      Opening(m) == if questions % 0x1_0000 == 1 && |rest| >= 4
                    then Some(Opened(Text(NameLabels(m, 12)), 12 + |name| + 4, answers % 0x1_0000)) else None
  {
    hide HasExpansion;
    hide NameLabels;
    hide InPlace;
    hide Text;
    hide U16;
    var h := ReplyHeader(id, flags, questions, answers, more, extra);
    assert h + name + rest == h + (name + rest);
    CountsReadBack(id, flags, questions, answers, more, extra, name + rest);
  }

  /** What does not hold a header, or no name after it, is no reply. */
  lemma NoReply(msg: seq<byte>)
    requires |msg| < 12 || !HasExpansion(msg, 12)
    ensures Opening(msg).None?
  {
  }
}
