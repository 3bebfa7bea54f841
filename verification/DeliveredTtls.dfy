/** The TTL entries that the address parsers give their caller, in terms of the records of the reply. */
module DeliveredTtls {
  import opened Ares
  import opened Bytes
  import opened Records
  import opened Reply
  import opened ReplyFacts
  import ParseReply

  /** A TTL is kept in a signed int. */
  lemma RecordTtl(msg: seq<byte>, p: nat)
    ensures ReadRecord(msg, p).Some? ==> ReadRecord(msg, p).value.ttl <= INT_MAX
  {
  }

  lemma {:induction false} RecordTtls(msg: seq<byte>, p: nat, count: nat)
    ensures ReadRecords(msg, p, count).Some? ==> forall r | r in ReadRecords(msg, p, count).value :: r.ttl <= INT_MAX
    decreases count
  {
    hide ReadRecord;
    RecordTtl(msg, p);
    if count > 0 && ReadRecord(msg, p).Some? {
      var r := ReadRecord(msg, p).value;
      RecordTtls(msg, r.data + r.len, count - 1);
    }
  }

  /** The least TTL of record `own` and of all aliases, compared as signed values. */
  ghost predicate IsLeastTtl(rs: seq<Record>, own: nat, t: int)
    requires own < |rs|
  {
    && t <= rs[own].ttl && (forall i | 0 <= i < |rs| && rs[i].IsCname() :: t <= rs[i].ttl)
    && (t == rs[own].ttl || exists i :: 0 <= i < |rs| && rs[i].IsCname() && t == rs[i].ttl)
  }

  /**
   * Entry `k` delivered belongs to the record that gives address `k`: it holds that address, and the least of the
   * record's TTL and those of every alias in the section, before it or after it.
   */
  lemma EntryIsLeast(msg: seq<byte>, f: Family, before: seq<ParseReply.AddrTtl>, after: seq<ParseReply.AddrTtl>,
                     max: int, n: int, k: nat)
    requires Meaning(msg, f).Answered?
    requires ParseReply.TtlsDelivered(Meaning(msg, f).answer, before, after, max, n) && k < n
    ensures WellFormed(msg)
    ensures var o := Opening(msg).value;
      var rs := ReadRecords(msg, o.first, o.count).value;
      var picks := Picks(msg, f, o.question, rs, |rs|);
      && k < |picks| && picks[k] < |rs| && var r := rs[picks[k]];
      && r.data + r.len <= |msg| && after[k].addr == msg[r.data..r.data + r.len]
      && IsLeastTtl(rs, picks[k], after[k].ttl)
  {
    hide Opening;
    hide ReadRecords;
    hide Picks;
    hide Aliases;
    hide NameBefore;
    hide AliasTtl;
    hide NameAt;
    hide Meaning;
    MeaningIs(msg, f);
    var o := Opening(msg).value;
    RecordTtls(msg, o.first, o.count);
    var rs := ReadRecords(msg, o.first, o.count).value;
    ReturnedTtl(rs, Picks(msg, f, o.question, rs, |rs|)[k], after[k].ttl);
  }
}
