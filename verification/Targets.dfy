/** Where the name in the data of a record comes from: nothing confines it to the data. */
module Targets {
  import opened Ares
  import opened Bytes
  import opened Names
  import opened NameText
  import opened Records
  import opened Reply

  /** Where the octets of the element at `o` end. */
  function ElementEnd(msg: seq<byte>, o: nat): nat {
    match ElementAt(msg, o)
    case Bad => o
    case Root => o + 1
    case Jump(_) => o + 2
    case Take(_, next) => next
  }

  /** All elements on a path lie before `e`. */
  ghost predicate Within(msg: seq<byte>, path: seq<nat>, e: nat) {
    forall i | 0 <= i < |path| :: path[i] < e && ElementEnd(msg, path[i]) <= e
  }

  /** An element of a message that ends early is an element of the whole. */
  lemma ElementOfPrefix(msg: seq<byte>, e: nat, o: nat)
    requires e <= |msg| && !ElementAt(msg[..e], o).Bad?
    ensures ElementAt(msg, o) == ElementAt(msg[..e], o) && o < e && ElementEnd(msg, o) <= e
  {
  }

  /** And the other way round, if it and the place it leads to are there. */
  lemma ElementInPrefix(msg: seq<byte>, e: nat, o: nat)
    requires o < e <= |msg| && !ElementAt(msg, o).Bad? && ElementEnd(msg, o) <= e
    requires ElementAt(msg, o).Root? || ElementAt(msg, o).next < e
    ensures ElementAt(msg[..e], o) == ElementAt(msg, o)
  {
    if ElementAt(msg, o).Take? {
      assert msg[..e][o + 1..o + 1 + msg[o]] == msg[o + 1..o + 1 + msg[o]];
    }
  }

  lemma PrefixPath(msg: seq<byte>, e: nat, path: seq<nat>)
    requires e <= |msg| && path != [] && ExpandsVia(msg[..e], path[0], path)
    ensures ExpandsVia(msg, path[0], path) && Within(msg, path, e)
  {
    hide ElementAt;
    var m := msg[..e];
    forall i | 0 <= i < |path|
      ensures path[i] < e && ElementEnd(msg, path[i]) <= e && ElementAt(m, path[i]) == ElementAt(msg, path[i])
    {
      assert i < |path| - 1 ==> Follows(m, path[i], path[i + 1]);
      ElementOfPrefix(msg, e, path[i]);
    }
    forall i | 0 <= i < |path| - 1 ensures Follows(msg, path[i], path[i + 1]) {
      assert Follows(m, path[i], path[i + 1]);
    }
  }

  lemma PathInPrefix(msg: seq<byte>, e: nat, path: seq<nat>)
    requires e <= |msg| && path != [] && ExpandsVia(msg, path[0], path) && Within(msg, path, e)
    ensures ExpandsVia(msg[..e], path[0], path)
  {
    hide ElementAt;
    hide ElementEnd;
    var m := msg[..e];
    forall i | 0 <= i < |path| ensures ElementAt(m, path[i]) == ElementAt(msg, path[i]) {
      assert i < |path| - 1 ==> Follows(msg, path[i], path[i + 1]);
      ElementInPrefix(msg, e, path[i]);
    }
    forall i | 0 <= i < |path| - 1 ensures Follows(m, path[i], path[i + 1]) {
      assert Follows(msg, path[i], path[i + 1]);
    }
  }

  lemma {:induction false} SameLabels(msg: seq<byte>, e: nat, path: seq<nat>)
    requires e <= |msg| && path != [] && ExpandsVia(msg[..e], path[0], path)
    ensures LabelsAlong(msg[..e], path) == LabelsAlong(msg, path)
  {
    hide ElementAt;
    if |path| > 1 {
      TailExpands(msg[..e], path);
      SameLabels(msg, e, path[1..]);
      ElementOfPrefix(msg, e, path[0]);
    }
  }

  lemma StartsThere(msg: seq<byte>, p: nat, path: seq<nat>)
    requires ExpandsVia(msg, p, path)
    ensures path != [] && path[0] == p
  {
  }

  /**
   * The name at `p` is the same when the message ends at `e`, exactly if it has none or every element that its
   * expansion visits lies before `e`.
   */
  lemma NameInPrefix(msg: seq<byte>, e: nat, p: nat)
    requires e <= |msg|
    ensures NameAt(msg[..e], p) == NameAt(msg, p) <==> (HasExpansion(msg, p) ==> Within(msg, PathFrom(msg, p), e))
  {
    hide ExpandsVia;
    hide LabelsAlong;
    hide Within;
    hide Text;
    var m := msg[..e];
    if HasExpansion(m, p) {
      var path := PathFrom(m, p);
      StartsThere(m, p, path);
      PrefixPath(msg, e, path);
      SameLabels(msg, e, path);
      ExpansionUnique(msg, p, path, PathFrom(msg, p));
    } else if HasExpansion(msg, p) && Within(msg, PathFrom(msg, p), e) {
      StartsThere(msg, p, PathFrom(msg, p));
      PathInPrefix(msg, e, PathFrom(msg, p));
    }
  }

  /** The target of an alias is the same if the message ends with the record, exactly if its expansion stays before. */
  lemma TargetInRecord(msg: seq<byte>, p: nat)
    requires ReadRecord(msg, p).Some?
    ensures var r := ReadRecord(msg, p).value;
      NameAt(msg[..r.data + r.len], r.data) == NameAt(msg, r.data) <==>
      (HasExpansion(msg, r.data) ==> Within(msg, PathFrom(msg, r.data), r.data + r.len))
  {
    hide ReadRecord;
    var r := ReadRecord(msg, p).value;
    NameInPrefix(msg, r.data + r.len, r.data);
  }

  // ---------- A target that the record does not hold ----------

  /** A reply for the root name: an alias without data, and then the octets of the name `a`. */
  const SAMPLE: seq<byte> := [
    0, 0, 128, 0, 0, 1, 0, 1, 0, 0, 0, 0,
    0, 0, 1, 0, 1,
    0, 0, 5, 0, 1, 0, 0, 0, 60, 0, 0,
    1, 97, 0]

  lemma SampleOpens()
    ensures Opening(SAMPLE) == Some(Opened([], 17, 1))
  {
    hide HasExpansion;
    hide NameLabels;
    hide InPlace;
    hide Text;
    RootName(SAMPLE, 12);
    assert U16(SAMPLE, 4) == 1 && U16(SAMPLE, 6) == 1;
  }

  lemma SampleRecord()
    ensures ReadRecord(SAMPLE, 17) == Some(Record([], T_CNAME, C_IN, 60, 28, 0))
  {
    hide HasExpansion;
    hide NameLabels;
    hide InPlace;
    hide Text;
    RootName(SAMPLE, 17);
    assert U16(SAMPLE, 18) == 5 && U16(SAMPLE, 20) == 1;
    assert U16(SAMPLE, 22) == 0 && U16(SAMPLE, 24) == 60 && U16(SAMPLE, 26) == 0;
  }

  lemma SampleTarget()
    ensures NameAt(SAMPLE, 28) == Some([97])
  {
    assert SAMPLE[29..30] == [97];
    assert ElementAt(SAMPLE, 28) == Take([97], 30);
    TakeStep(SAMPLE, 28, [97], 30);
    RootName(SAMPLE, 30);
    assert NameLabels(SAMPLE, 28) == [[97]];
    TextOne([97]);
    assert Escape([97]) == [97] by { assert [97][1..] == []; }
  }

  /** The record ends where its data would begin, yet the reply answers, with the name that follows it. */
  lemma TargetAfterRecord()
    ensures Meaning(SAMPLE, INET) == Answered(Answer([97], [[]], [], [], 60))
    ensures ReadRecord(SAMPLE, 17).Some? && ReadRecord(SAMPLE, 17).value.len == 0
  {
    hide Opening;
    hide ReadRecord;
    hide NameAt;
    SampleOpens();
    SampleRecord();
    SampleTarget();
    var r := Record([], T_CNAME, C_IN, 60, 28, 0);
    var a := Answer([97], [[]], [], [], 60);
    assert Start([]).aliases + [[]] == [[]];
    assert Step(SAMPLE, INET, Start([]), r) == Some(a);
    assert Gather(SAMPLE, INET, a, 28, 0) == Some(a);
    assert Gather(SAMPLE, INET, Start([]), 17, 1) == Some(a);
    MeaningOf(SAMPLE, INET, Opened([], 17, 1), Some(a));
  }
}
