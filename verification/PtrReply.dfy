/** What a PTR reply means: the names that answer the question, through any aliases. */
module PtrReply {
  import opened Ares
  import opened Bytes
  import opened Records
  import opened ReplyFacts

  /** The owner being asked for, and the targets found for it so far. */
  datatype Trail = Trail(owner: seq<byte>, targets: seq<seq<byte>>)

  predicate IsPtr(owner: seq<byte>, r: Record) {
    r.rrclass == C_IN && r.rrtype == T_PTR && SameName(r.owner, owner)
  }

  ghost function Step(msg: seq<byte>, s: Trail, r: Record): Option<Trail> {
    if IsPtr(s.owner, r) then
      if NameAt(msg, r.data).None? then None else Some(s.(targets := s.targets + [NameAt(msg, r.data).value]))
    else if r.IsCname() then
      if NameAt(msg, r.data).None? then None else Some(s.(owner := NameAt(msg, r.data).value))
    else Some(s)
  }

  ghost function Fold(msg: seq<byte>, s: Trail, rs: seq<Record>): Option<Trail>
    decreases |rs|
  {
    if rs == [] then Some(s)
    else
      var next := Step(msg, s, rs[0]);
      if next.None? then None else Fold(msg, next.value, rs[1..])
  }

  /** Decoding and following in one pass, as the parser goes. */
  ghost function Gather(msg: seq<byte>, s: Trail, p: nat, count: nat): Option<Trail>
    decreases count
  {
    if count == 0 then Some(s)
    else
      var r := ReadRecord(msg, p);
      if r.None? then None
      else
        var next := Step(msg, s, r.value);
        if next.None? then None else Gather(msg, next.value, r.value.data + r.value.len, count - 1)
  }

  lemma {:induction false} GatherIsFold(msg: seq<byte>, s: Trail, p: nat, count: nat)
    ensures ReadRecords(msg, p, count).Some? ==>
      Gather(msg, s, p, count) == Fold(msg, s, ReadRecords(msg, p, count).value)
    ensures ReadRecords(msg, p, count).None? ==> Gather(msg, s, p, count).None?
    decreases count
  {
    hide ReadRecord;
    hide Step;
    if count > 0 {
      var r := ReadRecord(msg, p);
      if r.Some? {
        var next, q := Step(msg, s, r.value), r.value.data + r.value.len;
        var rest := ReadRecords(msg, q, count - 1);
        if next.Some? { GatherIsFold(msg, next.value, q, count - 1); }
        if rest.Some? { assert ([r.value] + rest.value)[1..] == rest.value; }
      }
    }
  }

  datatype Outcome = BadResponse | NoData | Found(targets: seq<seq<byte>>)

  ghost function Meaning(msg: seq<byte>): Outcome {
    var o := Opening(msg);
    if o.None? then BadResponse
    else
      var rs := ReadRecords(msg, o.value.first, o.value.count);
      if rs.None? then BadResponse
      else
        var s := Fold(msg, Trail(o.value.question, []), rs.value);
        if s.None? then BadResponse
        else if s.value.targets == [] then NoData
        else Found(s.value.targets)
  }

  lemma MeaningOf(msg: seq<byte>, o: Opened, g: Option<Trail>)
    requires Opening(msg) == Some(o) && Gather(msg, Trail(o.question, []), o.first, o.count) == g
    ensures g.None? ==> Meaning(msg) == BadResponse
    ensures g.Some? && g.value.targets == [] ==> Meaning(msg) == NoData
    ensures g.Some? && g.value.targets != [] ==> Meaning(msg) == Found(g.value.targets)
  {
    hide ReadRecords;
    hide Opening;
    hide Fold;
    hide Gather;
    GatherIsFold(msg, Trail(o.question, []), o.first, o.count);
  }

  // ---------- Record by record ----------

  /** The PTR records of the owner in force when reached, in order. */
  ghost function Picks(msg: seq<byte>, question: seq<byte>, rs: seq<Record>, n: nat): seq<nat>
    requires n <= |rs|
  {
    if n == 0 then []
    else
      Picks(msg, question, rs, n - 1)
      + (if IsPtr(NameBefore(msg, question, rs, n - 1), rs[n - 1]) then [n - 1] else [])
  }

  /** Record `i` must lead to a name: it is an alias, or a PTR record of the owner in force. */
  ghost predicate Leads(msg: seq<byte>, question: seq<byte>, rs: seq<Record>, i: nat)
    requires i < |rs|
  {
    rs[i].IsCname() || IsPtr(NameBefore(msg, question, rs, i), rs[i])
  }

  ghost predicate AllReadable(msg: seq<byte>, question: seq<byte>, rs: seq<Record>, n: nat)
    requires n <= |rs|
  {
    forall i | 0 <= i < n && Leads(msg, question, rs, i) :: NameAt(msg, rs[i].data).Some?
  }

  ghost predicate Followed(msg: seq<byte>, question: seq<byte>, rs: seq<Record>, n: nat, s: Trail)
    requires n <= |rs|
  {
    && s.owner == NameBefore(msg, question, rs, n)
    && |s.targets| == |Picks(msg, question, rs, n)|
    && forall k | 0 <= k < |s.targets| ::
         && Picks(msg, question, rs, n)[k] < n
         && NameAt(msg, rs[Picks(msg, question, rs, n)[k]].data) == Some(s.targets[k])
  }

  lemma StepFollows(msg: seq<byte>, question: seq<byte>, rs: seq<Record>, n: nat, s: Trail)
    requires n < |rs| && Followed(msg, question, rs, n, s)
    ensures Step(msg, s, rs[n]).None? <==> Leads(msg, question, rs, n) && NameAt(msg, rs[n].data).None?
    ensures Step(msg, s, rs[n]).Some? ==> Followed(msg, question, rs, n + 1, Step(msg, s, rs[n]).value)
  {
    hide NameAt;
    hide SameName;
  }

  /** The fold fails when a followed record leads to no name; otherwise its targets are the matching records' names. */
  lemma {:induction false} FoldFollows(msg: seq<byte>, question: seq<byte>, rs: seq<Record>, n: nat, s: Trail)
    requires n <= |rs| && Followed(msg, question, rs, n, s) && AllReadable(msg, question, rs, n)
    ensures Fold(msg, s, rs[n..]).Some? <==> AllReadable(msg, question, rs, |rs|)
    ensures Fold(msg, s, rs[n..]).Some? ==> Followed(msg, question, rs, |rs|, Fold(msg, s, rs[n..]).value)
    decreases |rs| - n
  {
    hide Followed;
    hide Step;
    hide NameAt;
    hide Leads;
    if n < |rs| {
      assert rs[n..][1..] == rs[n + 1..];
      StepFollows(msg, question, rs, n, s);
      var next := Step(msg, s, rs[n]);
      if next.Some? { FoldFollows(msg, question, rs, n + 1, next.value); }
    }
  }

  lemma PtrIs(msg: seq<byte>, question: seq<byte>, rs: seq<Record>)
    ensures forall i | 0 <= i < |rs| ::
      IsPtr(NameBefore(msg, question, rs, i), rs[i]) <==>
      rs[i].rrclass == 1 && rs[i].rrtype == 12 && SameName(rs[i].owner, NameBefore(msg, question, rs, i))
  {
    hide NameBefore;
    hide SameName;
  }

  lemma {:induction false} PicksAre(msg: seq<byte>, question: seq<byte>, rs: seq<Record>, n: nat)
    requires n <= |rs|
    ensures forall j, k | 0 <= j < k < |Picks(msg, question, rs, n)| ::
      Picks(msg, question, rs, n)[j] < Picks(msg, question, rs, n)[k]
    ensures forall i :: i in Picks(msg, question, rs, n) <==>
      0 <= i < n && IsPtr(NameBefore(msg, question, rs, i), rs[i])
    ensures forall i | 0 <= i < n ::
      i in Picks(msg, question, rs, n) <==>
      rs[i].rrclass == 1 && rs[i].rrtype == 12 && SameName(rs[i].owner, NameBefore(msg, question, rs, i))
  {
    PtrIs(msg, question, rs);
    hide IsPtr;
    hide NameBefore;
    if n > 0 {
      PicksAre(msg, question, rs, n - 1);
      var q := Picks(msg, question, rs, n - 1);
      assert forall k | 0 <= k < |q| :: q[k] in q;
    }
  }

  ghost predicate WellFormed(msg: seq<byte>) {
    && Opening(msg).Some?
    && ReadRecords(msg, Opening(msg).value.first, Opening(msg).value.count).Some?
    && var rs := ReadRecords(msg, Opening(msg).value.first, Opening(msg).value.count).value;
       AllReadable(msg, Opening(msg).value.question, rs, |rs|)
  }

  /** The whole parser, in terms of the records of the reply. */
  lemma MeaningIs(msg: seq<byte>)
    ensures Meaning(msg) != BadResponse <==> WellFormed(msg)
    ensures WellFormed(msg) ==>
      var o := Opening(msg).value;
      var rs := ReadRecords(msg, o.first, o.count).value;
      match Meaning(msg)
      case BadResponse => false
      case NoData => Picks(msg, o.question, rs, |rs|) == []
      case Found(ts) =>
        ts != [] && Followed(msg, o.question, rs, |rs|, Trail(NameBefore(msg, o.question, rs, |rs|), ts))
  {
    hide Opening;
    hide ReadRecords;
    hide Leads;
    hide NameAt;
    if Opening(msg).Some? {
      var o := Opening(msg).value;
      var r := ReadRecords(msg, o.first, o.count);
      if r.Some? {
        FoldFollows(msg, o.question, r.value, 0, Trail(o.question, []));
        assert r.value[0..] == r.value;
      }
    }
  }
}
