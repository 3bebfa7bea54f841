/** What the encoder writes, the decoder reads; what the decoder prints, the encoder takes back. */
module RoundTrip {
  import opened Ares
  import opened Bytes
  import opened Names
  import opened NameText
  import opened Expand
  import opened Query

  lemma Slice(a: seq<byte>, b: seq<byte>, c: seq<byte>)
    ensures (a + b + c)[|a|..|a| + |b|] == b
  {
  }

  /** Reading a field out of the middle of a message. */
  lemma Field16(a: seq<byte>, v: int, c: seq<byte>)
    ensures U16(a + Put16(v) + c, |a|) == v % 0x1_0000
  {
    var m := a + Put16(v) + c;
    assert m[|a|] == Put16(v)[0] && m[|a| + 1] == Put16(v)[1];
  }

  lemma HeaderFields(id: int, rd: bool, edns: bool, rest: seq<byte>)
    ensures var m := Header(id, rd, edns) + rest;
      && U16(m, 0) == id % 0x1_0000
      && m[2] == (if rd then 1 else 0) && m[3] == 0
      && U16(m, 4) == 1 && U16(m, 6) == 0 && U16(m, 8) == 0
      && U16(m, 10) == if edns then 1 else 0
  {
    var h: seq<byte> :=
      [(id / 256) % 256, id % 256, if rd then 1 else 0, 0, 0, 1, 0, 0, 0, 0, 0, if edns then 1 else 0];
    HeaderOctets(h, id, rd, edns);
    hide Header;
    var m := h + rest;
    assert m[0] == h[0] && m[1] == h[1] && m[2] == h[2] && m[3] == h[3] && m[4] == h[4] && m[5] == h[5];
    assert m[6] == h[6] && m[7] == h[7] && m[8] == h[8] && m[9] == h[9] && m[10] == h[10] && m[11] == h[11];
  }

  /** The name written after the header is found again at offset 12, in place. */
  lemma QuestionName(h: seq<byte>, ls: seq<Label>, rest: seq<byte>)
    requires ValidLabels(ls)
    ensures var m := h + LabelBytes(ls) + [0] + rest;
      HasExpansion(m, |h|) && NameLabels(m, |h|) == ls && InPlace(m, |h|) == |LabelBytes(ls)| + 1
  {
    var w := LabelBytes(ls);
    var m := h + w + [0] + rest;
    var end := |h| + |w|;
    assert m == h + w + ([0] + rest);
    Slice(h, w, [0] + rest);
    assert m[end] == 0;
    ExpansionStep(m, end);
    LabelsThenRest(m, |h|, ls, end);
    assert ls + [] == ls;
  }

  /** A query seen as header and rest, as name and rest, and as question and OPT record. */
  lemma Parts(h: seq<byte>, w: seq<byte>, z: seq<byte>, t: seq<byte>, c: seq<byte>, opt: seq<byte>, m: seq<byte>)
    requires m == h + w + z + t + c + opt
    ensures m == h + (w + z + t + c + opt)
    ensures m == h + w + z + (t + c + opt)
    ensures m == (h + w + z) + t + (c + opt)
  {
  }

  lemma HeaderReadsBack(ls: seq<Label>, dnsclass: int, rrtype: int, id: int, rd: bool, udpSize: int)
    requires ValidLabels(ls)
    ensures var m := QueryBytes(ls, dnsclass, rrtype, id, rd, udpSize);
      && |m| >= HFIXEDSZ && U16(m, 0) == id % 0x1_0000 && m[2] == (if rd then 1 else 0) && m[3] == 0
      && U16(m, 4) == 1 && U16(m, 6) == 0 && U16(m, 8) == 0 && U16(m, 10) == (if udpSize != 0 then 1 else 0)
  {
    Parts(Header(id, rd, udpSize != 0), LabelBytes(ls), [0], Put16(rrtype), Put16(dnsclass), OptRecord(udpSize),
          QueryBytes(ls, dnsclass, rrtype, id, rd, udpSize));
    HeaderFields(id, rd, udpSize != 0,
                 LabelBytes(ls) + [0] + Put16(rrtype) + Put16(dnsclass) + OptRecord(udpSize));
  }

  /** The question and the OPT record, read back where a parser looks for them. */
  lemma QueryReadsBack(ls: seq<Label>, dnsclass: int, rrtype: int, id: int, rd: bool, udpSize: int,
                       m: seq<byte>, q: nat)
    requires ValidLabels(ls)
    requires m == QueryBytes(ls, dnsclass, rrtype, id, rd, udpSize)
    requires q == HFIXEDSZ + InPlace(m, HFIXEDSZ)
    ensures HasExpansion(m, HFIXEDSZ) && NameLabels(m, HFIXEDSZ) == ls
    ensures q + QFIXEDSZ <= |m| && U16(m, q) == rrtype % 0x1_0000 && U16(m, q + 2) == dnsclass % 0x1_0000
    ensures m[q + QFIXEDSZ..] == OptRecord(udpSize)
  {
    var h, w, opt := Header(id, rd, udpSize != 0), LabelBytes(ls), OptRecord(udpSize);
    var t, c := Put16(rrtype), Put16(dnsclass);
    Parts(h, w, [0], t, c, opt, m);
    QuestionName(h, ls, t + c + opt);
    Field16(h + w + [0], rrtype, c + opt);
    Field16(h + w + [0] + t, dnsclass, opt);
  }

  /** The OPT record: root owner, type 41, the advertised size as its class, nothing else set. */
  lemma OptReadsBack(udpSize: int)
    requires udpSize != 0
    ensures var r := OptRecord(udpSize);
      |r| == 11 && r[0] == 0 && U16(r, 1) == 41 && U16(r, 3) == udpSize % 0x1_0000 && U32(r, 5) == 0 && U16(r, 9) == 0
  {
    var r := OptRecord(udpSize);
    assert r[1..3] == Put16(T_OPT) && r[3..5] == Put16(udpSize) && r[9..11] == Put16(0);
  }

  /**
   * Encode, then decode: the query for an accepted text expands to its canonical
   * text, and that text is accepted and encodes to the very same bytes.
   */
  lemma EncodeThenDecode(text: seq<byte>, dnsclass: int, rrtype: int, id: int, rd: bool, udpSize: int)
    requires NUL !in text && Accepts(text)
    ensures var m := QueryBytes(Parse(text).value, dnsclass, rrtype, id, rd, udpSize);
      && HasExpansion(m, HFIXEDSZ)
      && var canonical := Text(NameLabels(m, HFIXEDSZ));
      && NUL !in canonical && Accepts(canonical)
      && QueryBytes(Parse(canonical).value, dnsclass, rrtype, id, rd, udpSize) == m
  {
    var ls := Parse(text).value;
    var m := QueryBytes(ls, dnsclass, rrtype, id, rd, udpSize);
    QueryReadsBack(ls, dnsclass, rrtype, id, rd, udpSize, m, HFIXEDSZ + InPlace(m, HFIXEDSZ));
    if text != [DOT] { SplitFacts(text, 0); }
    ParseOfText(ls);
    TextHasNoNul(ls);
  }

  /**
   * Decode, then encode: the text of any name in any message, however compressed,
   * stands for the labels it came from. It is accepted exactly when the labels
   * fit in 255 octets, and then the encoder writes those labels out in full.
   */
  lemma DecodeThenEncode(msg: seq<byte>, p: nat)
    requires HasExpansion(msg, p)
    ensures Parse(Text(NameLabels(msg, p))) == Some(NameLabels(msg, p))
    ensures ValidLabels(NameLabels(msg, p))
    ensures Accepts(Text(NameLabels(msg, p))) <==> |LabelBytes(NameLabels(msg, p))| + 1 <= 255
  {
    var ls := NameLabels(msg, p);
    LabelsNonEmpty(msg, PathFrom(msg, p));
    assert forall i | 0 <= i < |ls| :: ls[i] in ls;
    ParseOfText(ls);
  }

  /** Two names with the same text have the same labels, wherever and however they are written. */
  lemma TextDeterminesLabels(a: seq<byte>, p: nat, b: seq<byte>, q: nat)
    requires HasExpansion(a, p) && HasExpansion(b, q)
    ensures Text(NameLabels(a, p)) == Text(NameLabels(b, q)) <==> NameLabels(a, p) == NameLabels(b, q)
  {
    DecodeThenEncode(a, p);
    DecodeThenEncode(b, q);
  }
}
