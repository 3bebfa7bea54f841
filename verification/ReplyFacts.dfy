/** What the fold over the answer records amounts to, record by record. */
module ReplyFacts {
  import opened Ares
  import opened Bytes
  import opened Records
  import opened Reply

  /** The name in force when record `i` is reached: the last alias's target, else the question. */
  ghost function NameBefore(msg: seq<byte>, question: seq<byte>, rs: seq<Record>, i: nat): seq<byte>
    requires i <= |rs|
  {
    if i == 0 then question
    else if rs[i - 1].IsCname() && NameAt(msg, rs[i - 1].data).Some? then NameAt(msg, rs[i - 1].data).value
    else NameBefore(msg, question, rs, i - 1)
  }

  /** The records that are addresses of the name in force, in order. */
  ghost function Picks(msg: seq<byte>, f: Family, question: seq<byte>, rs: seq<Record>, n: nat): seq<nat>
    requires n <= |rs|
  {
    if n == 0 then []
    else
      Picks(msg, f, question, rs, n - 1)
      + (if IsAddress(f, NameBefore(msg, question, rs, n - 1), rs[n - 1]) then [n - 1] else [])
  }

  /** The alias records, in order. */
  ghost function Aliases(rs: seq<Record>, n: nat): seq<nat>
    requires n <= |rs|
  {
    if n == 0 then [] else Aliases(rs, n - 1) + (if rs[n - 1].IsCname() then [n - 1] else [])
  }

  /** The smallest TTL of the alias records, or INT_MAX. */
  ghost function AliasTtl(rs: seq<Record>, n: nat): int
    requires n <= |rs|
  {
    if n == 0 then INT_MAX
    else
      var t := AliasTtl(rs, n - 1);
      if rs[n - 1].IsCname() && t > rs[n - 1].ttl then rs[n - 1].ttl else t
  }

  /** Every alias among the first `n` records leads to a name. */
  ghost predicate TargetsReadable(msg: seq<byte>, rs: seq<Record>, n: nat)
    requires n <= |rs|
  {
    forall i | 0 <= i < n && rs[i].IsCname() :: NameAt(msg, rs[i].data).Some?
  }

  ghost predicate Gathered(msg: seq<byte>, f: Family, question: seq<byte>, rs: seq<Record>, n: nat, a: Answer)
    requires n <= |rs| && InMessage(msg, rs)
  {
    var picks, aliases := Picks(msg, f, question, rs, n), Aliases(rs, n);
    && a.name == NameBefore(msg, question, rs, n)
    && a.cnameTtl == AliasTtl(rs, n)
    && |a.addrs| == |a.ttls| == |picks|
    && (forall k | 0 <= k < |picks| ::
          && picks[k] < n
          && a.addrs[k] == msg[rs[picks[k]].data..rs[picks[k]].data + rs[picks[k]].len]
          && a.ttls[k] == rs[picks[k]].ttl)
    && |a.aliases| == |aliases|
    && (forall k | 0 <= k < |aliases| :: aliases[k] < n && a.aliases[k] == rs[aliases[k]].owner)
  }

  lemma StartGathers(msg: seq<byte>, f: Family, question: seq<byte>, rs: seq<Record>)
    requires InMessage(msg, rs)
    ensures Gathered(msg, f, question, rs, 0, Start(question))
  {
  }

  /** The next record is an address of the name in force, an alias, or neither. */
  lemma StepIs(msg: seq<byte>, f: Family, a: Answer, r: Record)
    requires r.data + r.len <= |msg| && (r.IsCname() ==> NameAt(msg, r.data).Some?)
    ensures IsAddress(f, a.name, r) ==> !r.IsCname()
    ensures IsAddress(f, a.name, r) ==>
      Step(msg, f, a, r) == Some(a.(addrs := a.addrs + [msg[r.data..r.data + r.len]], ttls := a.ttls + [r.ttl]))
    ensures r.IsCname() ==>
      Step(msg, f, a, r) == Some(a.(name := NameAt(msg, r.data).value, aliases := a.aliases + [r.owner],
                                    cnameTtl := if a.cnameTtl > r.ttl then r.ttl else a.cnameTtl))
    ensures !IsAddress(f, a.name, r) && !r.IsCname() ==> Step(msg, f, a, r) == Some(a)
  {
    hide NameAt;
    hide SameName;
  }

  lemma OneMoreRecord(msg: seq<byte>, f: Family, question: seq<byte>, rs: seq<Record>, n: nat)
    requires n < |rs| && (rs[n].IsCname() ==> NameAt(msg, rs[n].data).Some?)
    ensures NameBefore(msg, question, rs, n + 1) ==
            if rs[n].IsCname() then NameAt(msg, rs[n].data).value else NameBefore(msg, question, rs, n)
    ensures Picks(msg, f, question, rs, n + 1) ==
            Picks(msg, f, question, rs, n) + (if IsAddress(f, NameBefore(msg, question, rs, n), rs[n]) then [n] else [])
    ensures Aliases(rs, n + 1) == Aliases(rs, n) + (if rs[n].IsCname() then [n] else [])
    ensures AliasTtl(rs, n + 1) ==
            if rs[n].IsCname() && AliasTtl(rs, n) > rs[n].ttl then rs[n].ttl else AliasTtl(rs, n)
  {
    hide NameAt;
    hide IsAddress;
  }

  lemma StepGathers(msg: seq<byte>, f: Family, question: seq<byte>, rs: seq<Record>, n: nat, a: Answer)
    requires n < |rs| && InMessage(msg, rs) && Gathered(msg, f, question, rs, n, a)
    requires rs[n].IsCname() ==> NameAt(msg, rs[n].data).Some?
    ensures Step(msg, f, a, rs[n]).Some?
    ensures Gathered(msg, f, question, rs, n + 1, Step(msg, f, a, rs[n]).value)
  {
    hide Step;
    hide NameAt;
    hide IsAddress;
    hide NameBefore;
    hide Picks;
    hide Aliases;
    hide AliasTtl;
    StepIs(msg, f, a, rs[n]);
    OneMoreRecord(msg, f, question, rs, n);
  }

  lemma StepFails(msg: seq<byte>, f: Family, a: Answer, r: Record)
    requires r.data + r.len <= |msg| && r.IsCname() && NameAt(msg, r.data).None?
    ensures Step(msg, f, a, r).None?
  {
  }

  /**
   * The fold over the records is exactly this: it fails when an alias leads to no
   * name; otherwise the name is the last alias's target, the addresses are the
   * records that match the name in force when reached, in order.
   */
  lemma {:induction false} FoldGathers(msg: seq<byte>, f: Family, question: seq<byte>, rs: seq<Record>, n: nat,
                                       a: Answer)
    requires n <= |rs| && InMessage(msg, rs) && Gathered(msg, f, question, rs, n, a)
    requires TargetsReadable(msg, rs, n)
    ensures InMessage(msg, rs[n..])
    ensures Fold(msg, f, a, rs[n..]).Some? <==> TargetsReadable(msg, rs, |rs|)
    ensures Fold(msg, f, a, rs[n..]).Some? ==> Gathered(msg, f, question, rs, |rs|, Fold(msg, f, a, rs[n..]).value)
    decreases |rs| - n
  {
    hide Gathered;
    hide Step;
    hide NameAt;
    assert InMessage(msg, rs[n..]);
    if n < |rs| {
      assert rs[n..][1..] == rs[n + 1..];
      if rs[n].IsCname() && NameAt(msg, rs[n].data).None? {
        StepFails(msg, f, a, rs[n]);
      } else {
        StepGathers(msg, f, question, rs, n, a);
        FoldGathers(msg, f, question, rs, n + 1, Step(msg, f, a, rs[n]).value);
      }
    }
  }

  lemma AddressIs(msg: seq<byte>, f: Family, question: seq<byte>, rs: seq<Record>)
    ensures forall i | 0 <= i < |rs| ::
      IsAddress(f, NameBefore(msg, question, rs, i), rs[i]) <==>
      && rs[i].rrclass == 1 && rs[i].rrtype == (if f == INET then 1 else 28)
      && rs[i].len == (if f == INET then 4 else 16)
      && SameName(rs[i].owner, NameBefore(msg, question, rs, i))
  {
    hide NameBefore;
    hide SameName;
  }

  /** Picks lists exactly the matching records, each once and in order. */
  lemma {:induction false} PicksAre(msg: seq<byte>, f: Family, question: seq<byte>, rs: seq<Record>, n: nat)
    requires n <= |rs|
    ensures forall j, k | 0 <= j < k < |Picks(msg, f, question, rs, n)| ::
      Picks(msg, f, question, rs, n)[j] < Picks(msg, f, question, rs, n)[k]
    ensures forall i :: i in Picks(msg, f, question, rs, n) <==>
      0 <= i < n && IsAddress(f, NameBefore(msg, question, rs, i), rs[i])
    ensures forall i | 0 <= i < n ::
      i in Picks(msg, f, question, rs, n) <==>
      && rs[i].rrclass == 1 && rs[i].rrtype == (if f == INET then 1 else 28)
      && rs[i].len == (if f == INET then 4 else 16)
      && SameName(rs[i].owner, NameBefore(msg, question, rs, i))
  {
    AddressIs(msg, f, question, rs);
    hide IsAddress;
    hide NameBefore;
    if n > 0 {
      PicksAre(msg, f, question, rs, n - 1);
      var q := Picks(msg, f, question, rs, n - 1);
      assert forall k | 0 <= k < |q| :: q[k] in q;
    }
  }

  lemma {:induction false} AliasesAre(rs: seq<Record>, n: nat)
    requires n <= |rs|
    ensures forall j, k | 0 <= j < k < |Aliases(rs, n)| :: Aliases(rs, n)[j] < Aliases(rs, n)[k]
    ensures forall i :: i in Aliases(rs, n) <==> 0 <= i < n && rs[i].rrclass == 1 && rs[i].rrtype == 5
  {
    if n > 0 {
      AliasesAre(rs, n - 1);
      var q := Aliases(rs, n - 1);
      assert forall k | 0 <= k < |q| :: q[k] in q;
    }
  }

  /** The name in force comes from the last alias before it. */
  lemma {:induction false} LastAliasRules(msg: seq<byte>, question: seq<byte>, rs: seq<Record>, n: nat, j: nat)
    requires j < n <= |rs| && TargetsReadable(msg, rs, n)
    requires rs[j].IsCname() && forall i | j < i < n :: !rs[i].IsCname()
    ensures NameBefore(msg, question, rs, n) == NameAt(msg, rs[j].data).value
  {
    if j < n - 1 { LastAliasRules(msg, question, rs, n - 1, j); }
  }

  lemma {:induction false} NoAliasKeepsQuestion(msg: seq<byte>, question: seq<byte>, rs: seq<Record>, n: nat)
    requires n <= |rs| && forall i | 0 <= i < n :: !rs[i].IsCname()
    ensures NameBefore(msg, question, rs, n) == question
  {
    if n > 0 { NoAliasKeepsQuestion(msg, question, rs, n - 1); }
  }

  lemma {:induction false} AliasTtlIsLeast(rs: seq<Record>, n: nat)
    requires n <= |rs|
    ensures AliasTtl(rs, n) <= INT_MAX
    ensures forall i | 0 <= i < n && rs[i].IsCname() :: AliasTtl(rs, n) <= rs[i].ttl
    ensures AliasTtl(rs, n) == INT_MAX || exists i :: 0 <= i < n && rs[i].IsCname() && AliasTtl(rs, n) == rs[i].ttl
  {
    if n > 0 { AliasTtlIsLeast(rs, n - 1); }
  }

  /**
   * A returned TTL is the least of the record's own and those of every alias in
   * the section, before it or after it, compared as signed values.
   */
  lemma ReturnedTtl(rs: seq<Record>, own: nat, t: int)
    requires own < |rs| && rs[own].ttl <= INT_MAX
    requires t == if rs[own].ttl > AliasTtl(rs, |rs|) then AliasTtl(rs, |rs|) else rs[own].ttl
    ensures t <= rs[own].ttl && forall i | 0 <= i < |rs| && rs[i].IsCname() :: t <= rs[i].ttl
    ensures t == rs[own].ttl || exists i :: 0 <= i < |rs| && rs[i].IsCname() && t == rs[i].ttl
  {
    AliasTtlIsLeast(rs, |rs|);
  }

  /** When a reply is bad: it does not open, a record runs past its end, or an alias leads to no name. */
  ghost predicate WellFormed(msg: seq<byte>) {
    && Opening(msg).Some?
    && var o := Opening(msg).value;
    && var rs := ReadRecords(msg, o.first, o.count);
    && rs.Some? && TargetsReadable(msg, rs.value, |rs.value|)
  }

  /** The whole parser, in terms of the records of the reply. */
  lemma MeaningIs(msg: seq<byte>, f: Family)
    ensures Meaning(msg, f) != BadResponse <==> WellFormed(msg)
    ensures WellFormed(msg) ==>
      var o := Opening(msg).value;
      var rs := ReadRecords(msg, o.first, o.count).value;
      InMessage(msg, rs) &&
      match Meaning(msg, f)
      case BadResponse => false
      case NoData => Picks(msg, f, o.question, rs, |rs|) == [] && Aliases(rs, |rs|) == []
      case Answered(a) =>
        && (Picks(msg, f, o.question, rs, |rs|) != [] || Aliases(rs, |rs|) != [])
        && Gathered(msg, f, o.question, rs, |rs|, a)
  {
    hide Opening;
    hide ReadRecords;
    hide Picks;
    hide Aliases;
    hide NameBefore;
    hide AliasTtl;
    hide NameAt;
    if Opening(msg).Some? {
      var o := Opening(msg).value;
      var r := ReadRecords(msg, o.first, o.count);
      if r.Some? {
        RecordsInMessage(msg, o.first, o.count);
        var a := Start(o.question);
        StartGathers(msg, f, o.question, r.value);
        FoldGathers(msg, f, o.question, r.value, 0, a);
        assert r.value[0..] == r.value;
      }
    }
  }
}
