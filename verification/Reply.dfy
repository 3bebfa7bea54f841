/** What an address reply means: a fold over its answer records. */
module Reply {
  import opened Ares
  import opened Bytes
  import opened Records

  // ares_parse_a_reply and ares_parse_aaaa_reply differ in these only.

  function RrType(f: Family): nat { if f == INET then T_A else T_AAAA }

  function AddrSize(f: Family): nat { if f == INET then 4 else 16 }

  /** What has been gathered from some records; `ttls` runs beside `addrs`. */
  datatype Answer = Answer(
    name: seq<byte>,
    aliases: seq<seq<byte>>,
    addrs: seq<seq<byte>>,
    ttls: seq<int>,
    cnameTtl: int)

  function Start(question: seq<byte>): Answer {
    Answer(question, [], [], [], INT_MAX)
  }

  /** An address record for the name as it stands when the record is reached. */
  predicate IsAddress(f: Family, name: seq<byte>, r: Record) {
    r.rrclass == C_IN && r.rrtype == RrType(f) && r.len == AddrSize(f) && SameName(r.owner, name)
  }

  /** One record. None: an alias whose target is not a name. */
  ghost function Step(msg: seq<byte>, f: Family, a: Answer, r: Record): Option<Answer>
    requires r.data + r.len <= |msg|
  {
    if IsAddress(f, a.name, r) then
      Some(a.(addrs := a.addrs + [msg[r.data..r.data + r.len]], ttls := a.ttls + [r.ttl]))
    else if r.IsCname() then
      if NameAt(msg, r.data).None? then None
      else Some(a.(name := NameAt(msg, r.data).value, aliases := a.aliases + [r.owner],
                   cnameTtl := if a.cnameTtl > r.ttl then r.ttl else a.cnameTtl))
    else Some(a)
  }

  ghost predicate InMessage(msg: seq<byte>, rs: seq<Record>) {
    forall i | 0 <= i < |rs| :: rs[i].data + rs[i].len <= |msg|
  }

  ghost function Fold(msg: seq<byte>, f: Family, a: Answer, rs: seq<Record>): Option<Answer>
    requires InMessage(msg, rs)
    decreases |rs|
  {
    if rs == [] then Some(a)
    else
      var next := Step(msg, f, a, rs[0]);
      if next.None? then None
      else
        assert InMessage(msg, rs[1..]);
        Fold(msg, f, next.value, rs[1..])
  }

  /** Decoding and gathering in one pass, as the parsers go. */
  ghost function Gather(msg: seq<byte>, f: Family, a: Answer, p: nat, count: nat): Option<Answer>
    decreases count
  {
    if count == 0 then Some(a)
    else
      var r := ReadRecord(msg, p);
      if r.None? then None
      else
        var next := Step(msg, f, a, r.value);
        if next.None? then None
        else Gather(msg, f, next.value, r.value.data + r.value.len, count - 1)
  }

  lemma InMessageCons(msg: seq<byte>, r: Record, rs: seq<Record>)
    requires r.data + r.len <= |msg| && InMessage(msg, rs)
    ensures InMessage(msg, [r] + rs)
  {
  }

  lemma {:induction false} RecordsInMessage(msg: seq<byte>, p: nat, count: nat)
    ensures ReadRecords(msg, p, count).Some? ==> InMessage(msg, ReadRecords(msg, p, count).value)
    decreases count
  {
    hide ReadRecord;
    if count > 0 {
      var r := ReadRecord(msg, p);
      if r.Some? {
        var q := r.value.data + r.value.len;
        RecordsInMessage(msg, q, count - 1);
        var rest := ReadRecords(msg, q, count - 1);
        if rest.Some? { InMessageCons(msg, r.value, rest.value); }
      }
    }
  }

  /** One pass gives the same as decoding all records first and folding over them. */
  lemma {:induction false} GatherIsFold(msg: seq<byte>, f: Family, a: Answer, p: nat, count: nat)
    ensures ReadRecords(msg, p, count).Some? ==>
      && InMessage(msg, ReadRecords(msg, p, count).value)
      && Gather(msg, f, a, p, count) == Fold(msg, f, a, ReadRecords(msg, p, count).value)
    ensures ReadRecords(msg, p, count).None? ==> Gather(msg, f, a, p, count).None?
    decreases count
  {
    hide ReadRecord;
    hide Step;
    if count > 0 {
      RecordsInMessage(msg, p, count);
      var r := ReadRecord(msg, p);
      if r.Some? {
        var next, q := Step(msg, f, a, r.value), r.value.data + r.value.len;
        var rest := ReadRecords(msg, q, count - 1);
        RecordsInMessage(msg, q, count - 1);
        if next.Some? { GatherIsFold(msg, f, next.value, q, count - 1); }
        if rest.Some? { assert ([r.value] + rest.value)[1..] == rest.value; }
      }
    }
  }

  // ---------- The whole reply ----------

  datatype Outcome = BadResponse | NoData | Answered(answer: Answer)

  /** A reply is bad, has nothing to say, or answers; everything the parsers return comes from here. */
  ghost function Meaning(msg: seq<byte>, f: Family): Outcome {
    var o := Opening(msg);
    if o.None? then BadResponse
    else
      var rs := ReadRecords(msg, o.value.first, o.value.count);
      if rs.None? then BadResponse
      else
        RecordsInMessage(msg, o.value.first, o.value.count);
        var a := Fold(msg, f, Start(o.value.question), rs.value);
        if a.None? then BadResponse
        else if a.value.addrs == [] && a.value.aliases == [] then NoData
        else Answered(a.value)
  }

  lemma MeaningOf(msg: seq<byte>, f: Family, o: Opened, g: Option<Answer>)
    requires Opening(msg) == Some(o) && Gather(msg, f, Start(o.question), o.first, o.count) == g
    ensures g.None? ==> Meaning(msg, f) == BadResponse
    ensures g.Some? && g.value.addrs == [] && g.value.aliases == [] ==> Meaning(msg, f) == NoData
    ensures g.Some? && (g.value.addrs != [] || g.value.aliases != []) ==> Meaning(msg, f) == Answered(g.value)
  {
    GatherIsFold(msg, f, Start(o.question), o.first, o.count);
  }
}
