/** ares_expand_name: a checking pass that measures, then an unchecked pass that writes. */
module Expand {
  import opened Ares
  import opened Bytes
  import opened Names

  lemma NoElement(msg: seq<byte>, p: nat)
    requires ElementAt(msg, p).Bad?
    ensures !HasExpansion(msg, p)
  {
    ExpansionStep(msg, p);
  }

  lemma EndOfName(msg: seq<byte>, p: nat, seen: seq<Label>)
    requires p < |msg| && msg[p] == 0
    ensures HasExpansion(msg, p) && seen + NameLabels(msg, p) == seen
  {
    ExpansionStep(msg, p);
  }

  lemma OneMoreLabel(msg: seq<byte>, seen: seq<Label>, l: Label, next: nat)
    ensures |Dotted(seen + [l])| == |Dotted(seen)| + |Escape(l)| + 1
    ensures HasExpansion(msg, next) ==>
      seen + ([l] + NameLabels(msg, next)) == seen + [l] + NameLabels(msg, next)
  {
    DottedAppend(seen, [l]);
    DottedOne(l);
    if HasExpansion(msg, next) { AppendAssoc(seen, [l], NameLabels(msg, next)); }
  }

  lemma TextSize(ls: seq<Label>)
    ensures |Text(ls)| == if |Dotted(ls)| != 0 then |Dotted(ls)| - 1 else 0
  {
  }

  /** A walk with more elements than the message has octets is on a loop. */
  lemma TooManyPointers(msg: seq<byte>, path: seq<nat>)
    requires Walk(msg, path) && |path| > |msg|
    ensures !HasExpansion(msg, path[0])
  {
    if HasExpansion(msg, path[0]) {
      var whole := PathFrom(msg, path[0]);
      WalkIsPrefix(msg, path, whole);
      ExpansionIsShort(msg, whole);
    }
  }

  /** The inner counting loop: two for an octet that needs a backslash, one for any other. */
  method EscapedSize(l: Label) returns (n: nat)
    ensures n == |Escape(l)|
  {
    n := 0;
    for i := 0 to |l|
      invariant n == |Escape(l[..i])|
    {
      EscapeAppend(l[..i], [l[i]]);
      assert l[..i + 1] == l[..i] + [l[i]];
      n := n + if l[i] == DOT || l[i] == BACKSLASH then 2 else 1;
    }
    assert l[..|l|] == l;
  }

  /**
   * The first pass. A negative result means exactly that the octets have no
   * finite expansion inside the message; otherwise it is the length of the text.
   */
  method NameLength(msg: seq<byte>, start: nat) returns (r: int)
    ensures r >= 0 <==> HasExpansion(msg, start)
    ensures r >= 0 ==> r == |Text(NameLabels(msg, start))|
    ensures r >= -1
  {
    var encoded: nat, n: nat, indir: nat := start, 0, 0;
    ghost var path: seq<nat> := [start];
    ghost var seen: seq<Label> := [];
    if encoded >= |msg| {
      ExpansionStep(msg, start);
      return -1;
    }
    assert Walk(msg, path) && Dotted(seen) == [];
    if HasExpansion(msg, start) { assert seen + NameLabels(msg, start) == NameLabels(msg, start); }
    hide HasExpansion;
    hide NameLabels;
    hide Walk;
    hide Dotted;
    hide Escape;
    while msg[encoded] != 0
      invariant 0 <= encoded < |msg| && indir <= |msg|
      invariant Walk(msg, path) && path[0] == start && path[|path| - 1] == encoded
      invariant indir < |path|
      invariant HasExpansion(msg, start) <==> HasExpansion(msg, encoded)
      invariant HasExpansion(msg, encoded) ==> NameLabels(msg, start) == seen + NameLabels(msg, encoded)
      invariant n == |Dotted(seen)|
      decreases |msg| - indir, |msg| - encoded
    {
      var b := msg[encoded];
      if b >= 0xc0 {
        if encoded + 1 >= |msg| {
          NoElement(msg, encoded);
          return -1;
        }
        var offset := (b as int - 0xc0) * 256 + msg[encoded + 1];
        if offset >= |msg| {
          NoElement(msg, encoded);
          return -1;
        }
        JumpStep(msg, encoded, offset);
        ExtendWalk(msg, path, offset);
        path := path + [offset];
        encoded := offset;
        indir := indir + 1;
        if indir > |msg| {
          TooManyPointers(msg, path);
          return -1;
        }
      } else if b < 0x40 {
        if encoded + b + 1 >= |msg| {
          NoElement(msg, encoded);
          return -1;
        }
        var next := encoded + 1 + b;
        var l := msg[encoded + 1..next];
        TakeStep(msg, encoded, l, next);
        ExtendWalk(msg, path, next);
        var size := EscapedSize(l);
        OneMoreLabel(msg, seen, l, next);
        seen, path := seen + [l], path + [next];
        n := n + size + 1;
        encoded := next;
      } else {
        NoElement(msg, encoded);
        return -1;
      }
    }
    EndOfName(msg, encoded, seen);
    r := if n != 0 then n - 1 else n;
    TextSize(seen);
  }

  /** Writes one octet at `q`, after a backslash if it needs one. */
  method WriteByte(s: array<byte>, q: nat, b: byte) returns (end: nat)
    requires q + |EscapeByte(b)| <= s.Length
    modifies s
    ensures end == q + |EscapeByte(b)|
    ensures s[..end] == old(s[..q]) + EscapeByte(b)
  {
    end := q;
    if b == DOT || b == BACKSLASH {
      s[end] := BACKSLASH;
      end := end + 1;
    }
    s[end] := b;
    end := end + 1;
  }

  lemma EscapeSplit(l: Label, i: nat)
    requires i < |l|
    ensures Escape(l[..i + 1]) == Escape(l[..i]) + EscapeByte(l[i])
    ensures |Escape(l[..i + 1])| <= |Escape(l)|
  {
    assert l[..i + 1] == l[..i] + [l[i]] && l == l[..i + 1] + l[i + 1..];
    EscapeAppend(l[..i], [l[i]]);
    EscapeAppend(l[..i + 1], l[i + 1..]);
    assert Escape([l[i]]) == EscapeByte(l[i]) + Escape([]);
  }

  /** Writes one label and its dot at `q`, escaping as it goes. */
  method WriteLabel(s: array<byte>, q: nat, l: Label) returns (end: nat)
    requires q + |Escape(l)| + 1 <= s.Length
    modifies s
    ensures end == q + |Escape(l)| + 1
    ensures s[..end] == old(s[..q]) + Escape(l) + [DOT]
  {
    end := q;
    ghost var before := s[..q];
    for i := 0 to |l|
      invariant end == q + |Escape(l[..i])| <= q + |Escape(l)|
      invariant s[..end] == before + Escape(l[..i])
    {
      EscapeSplit(l, i);
      end := WriteByte(s, end, l[i]);
    }
    assert l[..|l|] == l;
    s[end] := DOT;
    end := end + 1;
  }

  /** The text still to be written when the second pass stands at `p`, and how many elements away the end is. */
  ghost function Rest(msg: seq<byte>, p: nat): seq<byte>
    requires HasExpansion(msg, p)
  {
    Dotted(NameLabels(msg, p))
  }

  ghost function Distance(msg: seq<byte>, p: nat): nat
    requires HasExpansion(msg, p)
  {
    |PathFrom(msg, p)|
  }

  /** Where a pointer leads, as the unchecked pass computes it. */
  function PointerAt(msg: seq<byte>, p: nat): nat
    requires p + 1 < |msg| && msg[p] >= 0xc0
  {
    (msg[p] as int - 0xc0) * 256 + msg[p + 1]
  }

  lemma InBounds(msg: seq<byte>, p: nat)
    requires HasExpansion(msg, p)
    ensures p < |msg|
    ensures msg[p] == 0 ==> Rest(msg, p) == [] && InPlace(msg, p) == 1
    ensures msg[p] >= 0xc0 ==> p + 1 < |msg| && InPlace(msg, p) == 2
    ensures 0 < msg[p] < 0xc0 ==> p + 1 + msg[p] < |msg|
  {
    ExpansionStep(msg, p);
  }

  /** What the unchecked pass may rely on at a pointer. */
  lemma PointerStep(msg: seq<byte>, p: nat)
    requires HasExpansion(msg, p) && p + 1 < |msg| && msg[p] >= 0xc0
    ensures var next := PointerAt(msg, p);
      && next < |msg| && HasExpansion(msg, next) && Distance(msg, next) < Distance(msg, p)
      && Rest(msg, p) == Rest(msg, next)
  {
    ExpansionStep(msg, p);
    StepExpansion(msg, p, ElementAt(msg, p).next);
  }

  /** What the unchecked pass may rely on at a label. */
  lemma LabelStep(msg: seq<byte>, p: nat, next: nat)
    requires HasExpansion(msg, p) && p < |msg| && 0 < msg[p] < 0xc0 && next == p + 1 + msg[p] < |msg|
    ensures HasExpansion(msg, next) && Distance(msg, next) < Distance(msg, p)
    ensures Rest(msg, p) == Escape(msg[p + 1..next]) + [DOT] + Rest(msg, next)
    ensures InPlace(msg, p) == next - p + InPlace(msg, next)
  {
    ExpansionStep(msg, p);
    StepExpansion(msg, p, next);
    var ls := NameLabels(msg, p);
    assert ls[0] == msg[p + 1..next] && ls[1..] == NameLabels(msg, next);
  }

  /** One turn of the second pass: follow a pointer, or copy out a label. */
  method WriteElement(msg: seq<byte>, p: nat, s: array<byte>, q: nat) returns (next: nat, end: nat)
    requires HasExpansion(msg, p) && p < |msg| && msg[p] != 0
    requires q + |Rest(msg, p)| <= s.Length
    modifies s
    ensures next < |msg| && HasExpansion(msg, next) && Distance(msg, next) < Distance(msg, p)
    ensures end <= s.Length && s[..end] + Rest(msg, next) == old(s[..q]) + Rest(msg, p)
    ensures msg[p] < 0xc0 ==> p < next && InPlace(msg, p) == next - p + InPlace(msg, next)
    ensures msg[p] >= 0xc0 ==> InPlace(msg, p) == 2
  {
    hide HasExpansion;
    hide Rest;
    hide Distance;
    hide InPlace;
    hide Escape;
    InBounds(msg, p);
    if msg[p] >= 0xc0 {
      PointerStep(msg, p);
      next, end := PointerAt(msg, p), q;
    } else {
      next := p + 1 + msg[p];
      LabelStep(msg, p, next);
      end := WriteLabel(s, q, msg[p + 1..next]);
    }
  }

  /** The second pass, which checks nothing. */
  method WriteText(msg: seq<byte>, encoded: nat, s: array<byte>) returns (enclen: nat)
    requires HasExpansion(msg, encoded) && Rest(msg, encoded) != []
    requires s.Length == |Rest(msg, encoded)|
    modifies s
    ensures s[..] == Text(NameLabels(msg, encoded)) + [NUL]
    ensures enclen == InPlace(msg, encoded)
  {
    ghost var t := Rest(msg, encoded);
    var p: nat, q: nat, indir := encoded, 0, false;
    enclen := 0;
    InBounds(msg, p);
    while msg[p] != 0
      invariant HasExpansion(msg, p) && p < |msg|
      invariant q <= s.Length && s[..q] + Rest(msg, p) == t
      invariant if indir then enclen == InPlace(msg, encoded)
                else p >= encoded && p - encoded + InPlace(msg, p) == InPlace(msg, encoded)
      decreases Distance(msg, p)
    {
      if msg[p] >= 0xc0 && !indir {
        InBounds(msg, p);
        enclen, indir := p + 2 - encoded, true;
      }
      assert |s[..q]| + |Rest(msg, p)| == |t|;
      p, q := WriteElement(msg, p, s, q);
    }
    InBounds(msg, p);
    if !indir { enclen := p + 1 - encoded; }
    assert s[..] == s[..q] == t;
    s[q - 1] := NUL;
    assert s[..] == t[..|t| - 1] + [NUL];
  }

  lemma {:induction false} LabelsNonEmpty(msg: seq<byte>, path: seq<nat>)
    ensures forall l | l in LabelsAlong(msg, path) :: 0 < |l| < 64
  {
    if |path| > 1 { LabelsNonEmpty(msg, path[1..]); }
  }

  /** Only a name without labels has an empty text; it is a root or pointers to one. */
  lemma EmptyText(msg: seq<byte>, p: nat)
    requires HasExpansion(msg, p) && Text(NameLabels(msg, p)) == []
    ensures NameLabels(msg, p) == []
    ensures ElementAt(msg, p).Root? || ElementAt(msg, p).Jump?
  {
    ExpansionStep(msg, p);
    var ls := NameLabels(msg, p);
    if ls != [] { LabelsNonEmpty(msg, PathFrom(msg, p)); EscapeLength(ls[0]); }
  }

  /**
   * Both passes. Fails exactly when there is no finite expansion (or no memory);
   * the buffer is filled to its last octet, which is the terminator.
   */
  method ExpandName(msg: seq<byte>, encoded: nat, mallocOk: bool)
      returns (status: Status, s: array<byte>, enclen: nat)
    ensures status == EBADNAME <==> !HasExpansion(msg, encoded)
    ensures status == ENOMEM <==> HasExpansion(msg, encoded) && !mallocOk
    ensures status == SUCCESS <==> HasExpansion(msg, encoded) && mallocOk
    ensures status == SUCCESS ==> s[..] == Text(NameLabels(msg, encoded)) + [NUL]
    ensures status == SUCCESS ==> enclen == InPlace(msg, encoded)
  {
    s, enclen := new byte[0], 0;
    var nlen := NameLength(msg, encoded);
    if nlen < 0 { return EBADNAME, s, enclen; }
    if !mallocOk { return ENOMEM, s, enclen; }
    s := new byte[nlen + 1];
    if nlen == 0 {
      s[0] := NUL;
      EmptyText(msg, encoded);
      enclen := if msg[encoded] >= 0xc0 then 2 else 1;
    } else {
      enclen := WriteText(msg, encoded, s);
    }
    return SUCCESS, s, enclen;
  }
}
