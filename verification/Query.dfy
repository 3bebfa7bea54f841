/** ares_create_query: escaped text in, a complete DNS query out. */
module Query {
  import opened Ares
  import opened Bytes
  import opened Names
  import opened NameText

  const EDNSFIXEDSZ := 11
  const MAXLABEL := 63
  const MAXCDNAME := 255
  const T_OPT := 41

  /** Sections 2.3.4 and 3.1 of RFC 1035: labels of 63 octets, 255 octets in all. */
  predicate Encodable(ls: seq<Label>) {
    ValidLabels(ls) && |LabelBytes(ls)| + 1 <= MAXCDNAME
  }

  /** Section 4.1.1 of RFC 1035: one question, opcode QUERY, perhaps one additional record. */
  function Header(id: int, rd: bool, edns: bool): (h: seq<byte>)
    ensures |h| == HFIXEDSZ
  {
    Put16(id) + [if rd then 1 else 0, 0] + Put16(1) + Put16(0) + Put16(0) + Put16(if edns then 1 else 0)
  }

  lemma HeaderOctets(h: seq<byte>, id: int, rd: bool, edns: bool)
    requires |h| == HFIXEDSZ && h[0] == (id / 256) % 256 && h[1] == id % 256 && h[2] == (if rd then 1 else 0)
    requires h[3] == h[4] == 0 && h[5] == 1 && h[6] == h[7] == h[8] == h[9] == h[10] == 0
    requires h[11] == (if edns then 1 else 0)
    ensures h == Header(id, rd, edns)
  {
  }

  /** Section 6.1.2 of RFC 6891: root owner, type OPT, class the payload size, no data. */
  function OptRecord(udpSize: int): (r: seq<byte>)
    ensures |r| == if udpSize != 0 then EDNSFIXEDSZ else 0
  {
    if udpSize == 0 then []
    else [0] + Put16(T_OPT) + Put16(udpSize) + [0, 0, 0, 0] + Put16(0)
  }

  function QueryBytes(ls: seq<Label>, dnsclass: int, rrtype: int, id: int, rd: bool, udpSize: int): seq<byte>
    requires ValidLabels(ls)
  {
    Header(id, rd, udpSize != 0) + LabelBytes(ls) + [0] + Put16(rrtype) + Put16(dnsclass) + OptRecord(udpSize)
  }

  predicate Accepts(name: seq<byte>) {
    Parse(name).Some? && Encodable(Parse(name).value)
  }

  /** Puts `s` into `buf` at `q`. */
  method Put(buf: array<byte>, q: nat, s: seq<byte>) returns (end: nat)
    requires q + |s| <= buf.Length
    modifies buf
    ensures end == q + |s| && buf[..end] == old(buf[..q]) + s
  {
    ghost var before := buf[..q];
    for i := 0 to |s|
      invariant buf[..q + i] == before + s[..i]
    {
      buf[q + i] := s[i];
      assert s[..i + 1] == s[..i] + [s[i]];
    }
    assert s[..|s|] == s;
    end := q + |s|;
  }

  /** The counting loop over one label. */
  method CountLabel(name: seq<byte>, start: nat) returns (len: nat)
    requires start <= |name|
    ensures len == |ContentOf(name, start)|
  {
    var p: nat := start;
    len := 0;
    while p < |name| && name[p] != DOT
      invariant start <= p <= |name|
      invariant len + |ContentOf(name, p)| == |ContentOf(name, start)|
    {
      if name[p] == BACKSLASH && p + 1 < |name| { p := p + 1; }
      len := len + 1;
      p := p + 1;
    }
  }

  /** The copying loop over one label: stops at its dot, or at the end of the text. */
  method CopyLabel(name: seq<byte>, start: nat, buf: array<byte>, q: nat) returns (p: nat, end: nat)
    requires start <= |name|
    requires q + |ContentOf(name, start)| <= buf.Length
    modifies buf
    ensures p == EndOf(name, start)
    ensures end == q + |ContentOf(name, start)|
    ensures buf[..end] == old(buf[..q]) + ContentOf(name, start)
  {
    ghost var whole := old(buf[..q]) + ContentOf(name, start);
    p, end := start, q;
    while p < |name| && name[p] != DOT
      invariant start <= p <= |name| && EndOf(name, p) == EndOf(name, start)
      invariant end + |ContentOf(name, p)| == |whole| <= buf.Length
      invariant buf[..end] + ContentOf(name, p) == whole
    {
      if name[p] == BACKSLASH && p + 1 < |name| { p := p + 1; }
      end := Put(buf, end, [name[p]]);
      p := p + 1;
    }
  }

  /** The labels of a text from position `p` on, with those already found in front. */
  ghost function Onward(name: seq<byte>, p: nat, done: seq<Label>): Option<seq<Label>>
    requires p <= |name|
  {
    var rest := SplitFrom(name, p);
    if rest.None? then None else Some(done + rest.value)
  }

  lemma OnwardEnds(name: seq<byte>, done: seq<Label>)
    ensures Onward(name, 0, []) == SplitFrom(name, 0)
    ensures Onward(name, |name|, done) == Some(done)
  {
    var r := SplitFrom(name, 0);
    if r.Some? { assert [] + r.value == r.value; }
    assert done + [] == done;
  }

  /** Accepted by the label loop: no empty label and none too long. */
  predicate Writable(r: Option<seq<Label>>) {
    r.Some? && ValidLabels(r.value)
  }

  lemma OnwardDot(name: seq<byte>, p: nat, done: seq<Label>)
    requires p < |name| && name[p] == DOT
    ensures Onward(name, p, done).None?
  {
  }

  lemma SplitEnds(name: seq<byte>, p: nat, done: seq<Label>)
    requires p < |name| && name[p] != DOT && EndOf(name, p) == |name|
    ensures Onward(name, p, done) == Some(done + [ContentOf(name, p)])
  {
  }

  lemma SplitGoesOn(name: seq<byte>, p: nat, done: seq<Label>, next: nat)
    requires p < |name| && name[p] != DOT && next == EndOf(name, p) + 1 <= |name|
    ensures Onward(name, p, done) == Onward(name, next, done + [ContentOf(name, p)])
  {
    var rest := SplitFrom(name, next);
    if rest.Some? { AppendAssoc(done, [ContentOf(name, p)], rest.value); }
  }

  lemma LongLabel(name: seq<byte>, p: nat, done: seq<Label>)
    requires p < |name| && name[p] != DOT && |ContentOf(name, p)| > MAXLABEL
    ensures !Writable(Onward(name, p, done))
  {
    var r := Onward(name, p, done);
    if r.Some? { assert r.value[|done|] == ContentOf(name, p); }
  }

  /** One label: its counted length, then its octets. */
  method EncodeLabel(name: seq<byte>, at: nat, buf: array<byte>, start: nat) returns (ok: bool, p: nat, q: nat)
    requires at < |name| && name[at] != DOT
    requires start + EndOf(name, at) - at + 1 <= buf.Length
    modifies buf
    ensures ok <==> 0 < |ContentOf(name, at)| <= MAXLABEL
    ensures ok ==> p == EndOf(name, at)
    ensures ok ==> q == start + 1 + |ContentOf(name, at)| <= start + 1 + p - at
    ensures ok ==> buf[..q] == old(buf[..start]) + [|ContentOf(name, at)|] + ContentOf(name, at)
  {
    ContentFacts(name, at);
    hide ContentOf;
    hide EndOf;
    var len := CountLabel(name, at);
    ok, p, q := len <= MAXLABEL, at, start;
    if !ok { return; }
    q := Put(buf, q, [len]);
    p, q := CopyLabel(name, at, buf, q);
  }

  lemma LabelBytesMore(before: seq<byte>, ls: seq<Label>, l: Label)
    requires ValidLabels(ls) && 0 < |l| <= 63
    ensures ValidLabels(ls + [l])
    ensures before + LabelBytes(ls) + [|l|] + l == before + LabelBytes(ls + [l])
    ensures |LabelBytes(ls + [l])| == |LabelBytes(ls)| + 1 + |l|
  {
    LabelBytesAppend(ls, [l]);
    assert LabelBytes([l]) == [|l|] + l + LabelBytes([]) == [|l|] + l;
    hide LabelBytes;
    AppendAssoc(before + LabelBytes(ls), [|l|], l);
    AppendAssoc(before, LabelBytes(ls), [|l|] + l);
  }

  lemma NoLabels()
    ensures ValidLabels([]) && LabelBytes([]) == []
  {
  }

  /** The label loop: writes the labels of `name`, or stops at one it cannot write. */
  method WriteLabels(name: seq<byte>, buf: array<byte>, start: nat) returns (ok: bool, q: nat)
    requires start + |name| + 2 <= buf.Length
    modifies buf
    ensures ok <==> Writable(SplitFrom(name, 0))
    ensures ok ==> q == start + |LabelBytes(SplitFrom(name, 0).value)| <= start + |name| + 1
    ensures ok ==> buf[..q] == old(buf[..start]) + LabelBytes(SplitFrom(name, 0).value)
  {
    hide Onward;
    hide SplitFrom;
    hide LabelBytes;
    hide ContentOf;
    hide EndOf;
    hide ValidLabels;
    var at: nat := 0;
    q := start;
    ghost var ls: seq<Label> := [];
    ghost var before := buf[..start];
    OnwardEnds(name, ls);
    NoLabels();
    while at < |name|
      invariant 0 <= at <= |name| && ValidLabels(ls)
      invariant SplitFrom(name, 0) == Onward(name, at, ls)
      invariant q == start + |LabelBytes(ls)| <= start + at
      invariant buf[..q] == before + LabelBytes(ls)
    {
      if name[at] == DOT {
        OnwardDot(name, at, ls);
        return false, q;
      }
      ghost var l := ContentOf(name, at);
      var p;
      ok, p, q := EncodeLabel(name, at, buf, q);
      if !ok {
        ContentFacts(name, at);
        LongLabel(name, at, ls);
        return false, q;
      }
      LabelBytesMore(before, ls, l);
      if p == |name| {
        SplitEnds(name, at, ls);
        return true, q;
      }
      SplitGoesOn(name, at, ls, p + 1);
      ls := ls + [l];
      at := p + 1;
    }
    OnwardEnds(name, ls);
    return true, q;
  }

  /** Sets the header of a new query. */
  method PutHeader(buf: array<byte>, id: int, rd: bool, edns: bool) returns (q: nat)
    requires buf.Length >= HFIXEDSZ
    modifies buf
    ensures q == HFIXEDSZ && buf[..q] == Header(id, rd, edns)
  {
    q := Put(buf, 0, seq(HFIXEDSZ, _ => 0));
    buf[0], buf[1] := (id / 256) % 256, id % 256;
    if rd { buf[2] := 1; }
    buf[4], buf[5] := 0, 1;
    if edns { buf[10], buf[11] := 0, 1; }
    HeaderOctets(buf[..q], id, rd, edns);
  }

  /**
   * Builds a query, or reports a bad name. Success is exactly an acceptable name,
   * and the bytes are then those of the one question for its labels.
   */
  method CreateQuery(text: seq<byte>, dnsclass: int, rrtype: int, id: int, rd: bool, udpSize: int, mallocOk: bool)
      returns (status: Status, buf: array<byte>, buflen: nat)
    requires NUL !in text
    ensures status == SUCCESS <==> mallocOk && Accepts(text)
    ensures status == ENOMEM <==> !mallocOk
    ensures status == EBADNAME <==> mallocOk && !Accepts(text)
    ensures status == SUCCESS ==>
      buflen <= buf.Length && buf[..buflen] == QueryBytes(Parse(text).value, dnsclass, rrtype, id, rd, udpSize)
    ensures status != SUCCESS ==> buflen == 0
  {
    var opt := if udpSize != 0 then EDNSFIXEDSZ else 0;
    if !mallocOk {
      buf := new byte[0];
      return ENOMEM, buf, 0;
    }
    buf := new byte[|text| + 2 + HFIXEDSZ + QFIXEDSZ + opt];
    var q := PutHeader(buf, id, rd, udpSize != 0);
    var name := text;
    if text == [DOT] { name := text[1..]; }
    var ok;
    ok, q := WriteLabels(name, buf, q);
    if !ok { return EBADNAME, buf, 0; }
    q := Put(buf, q, [0]);
    q := Put(buf, q, Put16(rrtype));
    q := Put(buf, q, Put16(dnsclass));
    if udpSize != 0 {
      q := Put(buf, q, [0] + Put16(T_OPT) + Put16(udpSize) + [0, 0, 0, 0] + Put16(0));
    }
    if q > MAXCDNAME + HFIXEDSZ + QFIXEDSZ + opt { return EBADNAME, buf, 0; }
    return SUCCESS, buf, q;
  }
}
