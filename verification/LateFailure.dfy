/** A failed call of the address parsers that leaves the caller's TTL count filled in. */
module LateFailure {
  import opened Ares
  import opened Bytes
  import opened Names
  import opened Memory
  import opened Records
  import opened Reply
  import opened ParseReply

  /**
   * For every reply with an address: if only the request for the host entry is refused, the TTLs are there all the
   * same.
   */
  method FailsLate(msg: seq<byte>, f: Family, ttls0: seq<AddrTtl>, max: int, at: nat)
      returns (status: Status, ttls: seq<AddrTtl>, n: int)
    requires Meaning(msg, f).Answered? && Meaning(msg, f).answer.addrs != [] && 0 < max <= |ttls0|
    requires at == Early(msg, f, true)
    ensures status == ENOMEM && n > 0 && TtlsDelivered(Meaning(msg, f).answer, ttls0, ttls, max, n)
  {
    hide Meaning;
    hide Early;
    hide Delivered;
    hide Hostent.Blocks;
    hide Heap.Valid;
    var refuses := (i: nat) => i == at;
    var heap := new Heap(refuses);
    var host;
    status, host, ttls, n := ParseAddressReply(heap, msg, f, true, ttls0, max);
    assert Granted(refuses, 0, at) && refuses(at);
  }

  /** A reply for the root name with the one address 127.0.0.1. */
  const SAMPLE: seq<byte> := [
    0, 0, 128, 0, 0, 1, 0, 1, 0, 0, 0, 0,
    0, 0, 1, 0, 1,
    0, 0, 1, 0, 1, 0, 0, 0, 60, 0, 4, 127, 0, 0, 1]

  lemma SampleOpens()
    ensures Opening(SAMPLE) == Some(Opened([], 17, 1))
  {
    hide HasExpansion;
    hide NameLabels;
    hide InPlace;
    hide Text;
    RootName(SAMPLE, 12);
    assert U16(SAMPLE, 4) == 1 && U16(SAMPLE, 6) == 1;
  }

  lemma SampleRecord()
    ensures ReadRecord(SAMPLE, 17) == Some(Record([], T_A, C_IN, 60, 28, 4))
  {
    hide HasExpansion;
    hide NameLabels;
    hide InPlace;
    hide Text;
    RootName(SAMPLE, 17);
    assert U16(SAMPLE, 18) == 1 && U16(SAMPLE, 20) == 1 && U16(SAMPLE, 22) == 0 && U16(SAMPLE, 24) == 60;
    assert U16(SAMPLE, 26) == 4;
  }

  lemma SampleMeans()
    ensures Meaning(SAMPLE, INET) == Answered(Answer([], [], [[127, 0, 0, 1]], [60], INT_MAX))
    ensures Early(SAMPLE, INET, true) == 4
  {
    hide Opening;
    hide ReadRecord;
    SampleOpens();
    SampleRecord();
    var r := Record([], T_A, C_IN, 60, 28, 4);
    var localhost: seq<byte> := SAMPLE[28..32];
    assert localhost == [127, 0, 0, 1];
    var a := Answer([], [], [localhost], [60], INT_MAX);
    assert IsAddress(INET, Start([]).name, r);
    assert Start([]).addrs + [localhost] == [localhost] && Start([]).ttls + [60] == [60];
    assert Step(SAMPLE, INET, Start([]), r) == Some(a);
    assert Gather(SAMPLE, INET, a, 32, 0) == Some(a);
    assert Gather(SAMPLE, INET, Start([]), 17, 1) == Some(a);
    MeaningOf(SAMPLE, INET, Opened([], 17, 1), Some(a));
  }

  /** With the fifth request refused, the parser reports that memory ran out and one TTL. */
  method FailsLateOnSample(ttls0: seq<AddrTtl>) returns (status: Status, ttls: seq<AddrTtl>, n: int)
    requires |ttls0| == 1
    ensures status == ENOMEM && n == 1 && ttls == [AddrTtl([127, 0, 0, 1], 60)]
  {
    hide Meaning;
    hide Early;
    SampleMeans();
    status, ttls, n := FailsLate(SAMPLE, INET, ttls0, 1, 4);
  }
}
