/** The host entries that the parsers give their caller, in terms of the records of the reply. */
module DeliveredEntries {
  import opened Ares
  import opened Bytes
  import opened Records
  import opened ReplyFacts
  import Reply
  import PtrReply
  import ParseReply
  import ParsePtr

  /**
   * An A or AAAA reply: the name is the target of the last alias or that of the question, the aliases are the owners of
   * the alias records, and the addresses the data of the matching records, each in order.
   */
  lemma AddressEntry(msg: seq<byte>, f: Family, host: Option<ParseReply.Hostent>)
    requires Reply.Meaning(msg, f).Answered? && ParseReply.Delivered(Reply.Meaning(msg, f).answer, true, host)
    ensures WellFormed(msg) && host.Some?
    ensures var o, h := Opening(msg).value, host.value;
      var rs := ReadRecords(msg, o.first, o.count).value;
      var picks, aliases := Picks(msg, f, o.question, rs, |rs|), Aliases(rs, |rs|);
      && h.name.Str? && h.name.text == NameBefore(msg, o.question, rs, |rs|)
      && |h.aliases| == |aliases| && |h.addrs| == |picks|
      && (forall k | 0 <= k < |aliases| ::
            && aliases[k] < |rs|
            && (if h.aliases[k].Str? then h.aliases[k].text else []) == rs[aliases[k]].owner)
      && (forall k | 0 <= k < |picks| ::
            && picks[k] < |rs| && rs[picks[k]].data + rs[picks[k]].len <= |msg|
            && h.addrs[k] == msg[rs[picks[k]].data..rs[picks[k]].data + rs[picks[k]].len])
  {
    hide Opening;
    hide ReadRecords;
    hide Picks;
    hide Aliases;
    hide NameBefore;
    hide AliasTtl;
    hide NameAt;
    hide Reply.Meaning;
    MeaningIs(msg, f);
    var h := host.value;
    forall k | 0 <= k < |h.aliases|
      ensures (if h.aliases[k].Str? then h.aliases[k].text else []) == Reply.Meaning(msg, f).answer.aliases[k]
    {
      assert ParseReply.Texts(h.aliases)[k] == Reply.Meaning(msg, f).answer.aliases[k];
    }
  }

  /**
   * A PTR reply: the aliases are the names in the data of the matching records, in order and as C strings; the name is
   * the last of them, and the address is the one asked about.
   */
  lemma NameEntry(msg: seq<byte>, addr: seq<byte>, h: ParseReply.Hostent)
    requires PtrReply.Meaning(msg).Found? && ParsePtr.Delivered(PtrReply.Meaning(msg).targets, addr, h)
    ensures PtrReply.WellFormed(msg) && h.addrs == [addr]
    ensures var o := Opening(msg).value;
      var rs := ReadRecords(msg, o.first, o.count).value;
      var picks := PtrReply.Picks(msg, o.question, rs, |rs|);
      && |h.aliases| == |picks| > 0
      && (forall k | 0 <= k < |picks| ::
            && picks[k] < |rs| && NameAt(msg, rs[picks[k]].data).Some?
            && h.aliases[k].Str? && h.aliases[k].text == CString(NameAt(msg, rs[picks[k]].data).value))
      && h.name.Str? && NameAt(msg, rs[picks[|picks| - 1]].data) == Some(h.name.text)
  {
    hide Opening;
    hide ReadRecords;
    hide PtrReply.Picks;
    hide NameBefore;
    hide NameAt;
    hide PtrReply.Meaning;
    hide CString;
    PtrReply.MeaningIs(msg);
  }
}
