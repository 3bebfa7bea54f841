/** Domain names in a message: RFC 1035, section 4.1.4, and their escaped text. */
module Names {
  import opened Bytes

  type Label = seq<byte>

  // ---------- The wire grammar, one element at a time ----------

  /** What the octets at one offset say, within the bounds of the message. */
  datatype Element =
    | Root
    | Take(content: Label, next: nat)
    | Jump(next: nat)
    | Bad

  function ElementAt(msg: seq<byte>, p: nat): Element {
    if p >= |msg| then Bad
    else if msg[p] == 0 then Root
    else if msg[p] >= 0xc0 then
      if p + 1 >= |msg| then Bad
      else
        var offset := (msg[p] as int - 0xc0) * 256 + msg[p + 1];
        if offset >= |msg| then Bad else Jump(offset)
    else if msg[p] < 0x40 then
      if p + msg[p] + 1 >= |msg| then Bad
      else Take(msg[p + 1..p + 1 + msg[p]], p + 1 + msg[p])
    else Bad
  }

  ghost predicate Follows(msg: seq<byte>, p: nat, q: nat) {
    var e := ElementAt(msg, p);
    (e.Take? || e.Jump?) && e.next == q
  }

  /** Offsets reached one after the other by following labels and pointers. */
  ghost predicate Walk(msg: seq<byte>, path: seq<nat>) {
    path != [] && forall i | 0 <= i < |path| - 1 :: Follows(msg, path[i], path[i + 1])
  }

  /** A finite expansion of the name at `p`: a walk from `p` to a zero octet. */
  ghost predicate ExpandsVia(msg: seq<byte>, p: nat, path: seq<nat>) {
    Walk(msg, path) && path[0] == p && ElementAt(msg, path[|path| - 1]).Root?
  }

  ghost predicate HasExpansion(msg: seq<byte>, p: nat) {
    exists path :: ExpandsVia(msg, p, path)
  }

  /** The labels met along a walk, in order. */
  ghost function LabelsAlong(msg: seq<byte>, path: seq<nat>): seq<Label> {
    if |path| <= 1 then []
    else
      var e := ElementAt(msg, path[0]);
      (if e.Take? then [e.content] else []) + LabelsAlong(msg, path[1..])
  }

  ghost function PathFrom(msg: seq<byte>, p: nat): (path: seq<nat>)
    requires HasExpansion(msg, p)
    ensures ExpandsVia(msg, p, path)
  {
    var path :| ExpandsVia(msg, p, path);
    path
  }

  ghost function NameLabels(msg: seq<byte>, p: nat): seq<Label>
    requires HasExpansion(msg, p)
  {
    LabelsAlong(msg, PathFrom(msg, p))
  }

  // ---------- Walks are deterministic, so they never come back ----------

  lemma TailExpands(msg: seq<byte>, path: seq<nat>)
    requires |path| > 1 && ExpandsVia(msg, path[0], path)
    ensures Follows(msg, path[0], path[1])
    ensures ExpandsVia(msg, path[1], path[1..])
  {
    forall i | 0 <= i < |path[1..]| - 1 ensures Follows(msg, path[1..][i], path[1..][i + 1]) {
      assert Follows(msg, path[i + 1], path[i + 2]);
    }
  }

  /** Every walk from where an expansion starts is a prefix of the expansion. */
  lemma {:induction false} WalkIsPrefix(msg: seq<byte>, walk: seq<nat>, whole: seq<nat>)
    requires Walk(msg, walk) && whole != [] && walk[0] == whole[0]
    requires ExpandsVia(msg, whole[0], whole)
    ensures walk <= whole
  {
    if |walk| > 1 {
      assert Follows(msg, walk[0], walk[1]);
      assert |whole| > 1 && Follows(msg, whole[0], whole[1]);
      forall i | 0 <= i < |walk[1..]| - 1 ensures Follows(msg, walk[1..][i], walk[1..][i + 1]) {
        assert Follows(msg, walk[i + 1], walk[i + 2]);
      }
      TailExpands(msg, whole);
      WalkIsPrefix(msg, walk[1..], whole[1..]);
      assert walk == [walk[0]] + walk[1..] && whole == [whole[0]] + whole[1..];
    }
  }

  /** An offset has at most one expansion. */
  lemma ExpansionUnique(msg: seq<byte>, p: nat, a: seq<nat>, b: seq<nat>)
    requires ExpandsVia(msg, p, a) && ExpandsVia(msg, p, b)
    ensures a == b
  {
    WalkIsPrefix(msg, a, b);
    WalkIsPrefix(msg, b, a);
  }

  lemma {:induction false} SuffixExpands(msg: seq<byte>, path: seq<nat>, i: nat)
    requires path != [] && ExpandsVia(msg, path[0], path) && i < |path|
    ensures ExpandsVia(msg, path[i], path[i..])
  {
    if i > 0 {
      TailExpands(msg, path);
      SuffixExpands(msg, path[1..], i - 1);
      assert path[1..][i - 1..] == path[i..];
    }
  }

  /** An expansion never visits an offset twice. */
  lemma NeverRevisits(msg: seq<byte>, path: seq<nat>, i: nat, j: nat)
    requires path != [] && ExpandsVia(msg, path[0], path)
    requires i < j < |path|
    ensures path[i] != path[j]
  {
    SuffixExpands(msg, path, i);
    SuffixExpands(msg, path, j);
    if path[i] == path[j] {
      ExpansionUnique(msg, path[i], path[i..], path[j..]);
    }
  }

  /** Pigeonhole: distinct offsets below `n` are at most `n` many. */
  lemma {:induction false} Pigeonhole(s: seq<nat>, n: nat)
    requires forall i | 0 <= i < |s| :: s[i] < n
    requires forall i, j | 0 <= i < j < |s| :: s[i] != s[j]
    ensures |s| <= n
  {
    if s != [] {
      assert s[0] < n;
      if k :| 0 <= k < |s| && s[k] == n - 1 {
        var t := s[..k] + s[k + 1..];
        Pigeonhole(t, n - 1);
      } else {
        Pigeonhole(s, n - 1);
      }
    }
  }

  lemma ExpansionIsShort(msg: seq<byte>, path: seq<nat>)
    requires path != [] && ExpandsVia(msg, path[0], path)
    ensures |path| <= |msg|
  {
    forall i | 0 <= i < |path| ensures path[i] < |msg| {
      SuffixExpands(msg, path, i);
      if i < |path| - 1 { assert Follows(msg, path[i], path[i + 1]); }
    }
    forall i, j | 0 <= i < j < |path| ensures path[i] != path[j] {
      NeverRevisits(msg, path, i, j);
    }
    Pigeonhole(path, |msg|);
  }

  // ---------- The recursive reading of section 4.1.4 ----------

  lemma FirstElement(msg: seq<byte>, path: seq<nat>)
    requires path != [] && ExpandsVia(msg, path[0], path)
    ensures ElementAt(msg, path[0]).Root? || (|path| > 1 && Follows(msg, path[0], path[1]))
  {
  }

  lemma StepExpansion(msg: seq<byte>, p: nat, q: nat)
    requires Follows(msg, p, q)
    ensures HasExpansion(msg, p) <==> HasExpansion(msg, q)
    ensures HasExpansion(msg, q) ==>
      PathFrom(msg, p) == [p] + PathFrom(msg, q) &&
      NameLabels(msg, p) ==
        (if ElementAt(msg, p).Take? then [ElementAt(msg, p).content] else []) + NameLabels(msg, q)
  {
    if HasExpansion(msg, q) {
      var tail := PathFrom(msg, q);
      var path := [p] + tail;
      forall i | 0 <= i < |path| - 1 ensures Follows(msg, path[i], path[i + 1]) {
        if i > 0 { assert Follows(msg, tail[i - 1], tail[i]); }
      }
      assert ExpandsVia(msg, p, path);
      ExpansionUnique(msg, p, path, PathFrom(msg, p));
      assert path[1..] == tail;
    } else if HasExpansion(msg, p) {
      TailExpands(msg, PathFrom(msg, p));
    }
  }

  /** An expansion exists, and which labels it has, element by element. */
  lemma ExpansionStep(msg: seq<byte>, p: nat)
    ensures var e := ElementAt(msg, p);
      match e
      case Root => HasExpansion(msg, p) && NameLabels(msg, p) == []
      case Bad => !HasExpansion(msg, p)
      case Jump(q) =>
        && (HasExpansion(msg, p) <==> HasExpansion(msg, q))
        && (HasExpansion(msg, q) ==> NameLabels(msg, p) == NameLabels(msg, q))
      case Take(l, q) =>
        && (HasExpansion(msg, p) <==> HasExpansion(msg, q))
        && (HasExpansion(msg, q) ==> NameLabels(msg, p) == [l] + NameLabels(msg, q))
  {
    var e := ElementAt(msg, p);
    match e
    case Root =>
      assert ExpandsVia(msg, p, [p]);
      ExpansionUnique(msg, p, [p], PathFrom(msg, p));
    case Bad =>
      if HasExpansion(msg, p) { FirstElement(msg, PathFrom(msg, p)); }
    case Jump(q) => StepExpansion(msg, p, q);
    case Take(l, q) => StepExpansion(msg, p, q);
  }

  lemma JumpStep(msg: seq<byte>, p: nat, q: nat)
    requires ElementAt(msg, p) == Jump(q)
    ensures Follows(msg, p, q)
    ensures HasExpansion(msg, p) <==> HasExpansion(msg, q)
    ensures HasExpansion(msg, q) ==> NameLabels(msg, p) == NameLabels(msg, q)
  {
    ExpansionStep(msg, p);
  }

  lemma TakeStep(msg: seq<byte>, p: nat, l: Label, q: nat)
    requires ElementAt(msg, p) == Take(l, q)
    ensures Follows(msg, p, q)
    ensures HasExpansion(msg, p) <==> HasExpansion(msg, q)
    ensures HasExpansion(msg, q) ==> NameLabels(msg, p) == [l] + NameLabels(msg, q)
  {
    ExpansionStep(msg, p);
  }

  lemma ExtendWalk(msg: seq<byte>, path: seq<nat>, q: nat)
    requires Walk(msg, path) && Follows(msg, path[|path| - 1], q)
    ensures Walk(msg, path + [q])
  {
  }

  // ---------- Escaped text ----------

  function EscapeByte(b: byte): seq<byte> {
    if b == DOT || b == BACKSLASH then [BACKSLASH, b] else [b]
  }

  function Escape(l: Label): seq<byte> {
    if l == [] then [] else EscapeByte(l[0]) + Escape(l[1..])
  }

  function Dotted(ls: seq<Label>): (t: seq<byte>)
    ensures ls != [] ==> t != []
  {
    if ls == [] then [] else Escape(ls[0]) + [DOT] + Dotted(ls[1..])
  }

  /** Escaped labels joined by dots, without a final dot. */
  function Text(ls: seq<Label>): seq<byte> {
    var t := Dotted(ls);
    if t == [] then [] else t[..|t| - 1]
  }

  lemma {:induction false} EscapeAppend(l: Label, m: Label)
    ensures Escape(l + m) == Escape(l) + Escape(m)
  {
    if l == [] {
      assert l + m == m;
    } else {
      assert (l + m)[1..] == l[1..] + m;
      EscapeAppend(l[1..], m);
    }
  }

  lemma {:induction false} DottedAppend(a: seq<Label>, b: seq<Label>)
    ensures Dotted(a + b) == Dotted(a) + Dotted(b)
  {
    if a == [] {
      assert a + b == b;
    } else {
      assert (a + b)[1..] == a[1..] + b;
      DottedAppend(a[1..], b);
    }
  }

  lemma DottedOne(l: Label)
    ensures Dotted([l]) == Escape(l) + [DOT]
  {
    assert Dotted([l]) == Escape(l) + [DOT] + Dotted([]);
  }

  lemma {:induction false} EscapeLength(l: Label)
    ensures |l| <= |Escape(l)| <= 2 * |l|
  {
    if l != [] { EscapeLength(l[1..]); }
  }

  /** The text of an expansion is no longer than 127 octets for each octet of the message. */
  lemma {:induction false} DottedBound(msg: seq<byte>, path: seq<nat>)
    requires Walk(msg, path)
    ensures |Dotted(LabelsAlong(msg, path))| <= 127 * (|path| - 1)
  {
    if |path| > 1 {
      assert Follows(msg, path[0], path[1]);
      forall i | 0 <= i < |path[1..]| - 1 ensures Follows(msg, path[1..][i], path[1..][i + 1]) {
        assert Follows(msg, path[i + 1], path[i + 2]);
      }
      DottedBound(msg, path[1..]);
      var e := ElementAt(msg, path[0]);
      var rest := LabelsAlong(msg, path[1..]);
      if e.Take? {
        EscapeLength(e.content);
        DottedAppend([e.content], rest);
        DottedOne(e.content);
      } else {
        assert [] + rest == rest;
      }
    }
  }

  lemma ExpansionBound(msg: seq<byte>, p: nat)
    requires HasExpansion(msg, p)
    ensures |Text(NameLabels(msg, p))| + 1 <= 127 * |msg|
  {
    var path := PathFrom(msg, p);
    ExpansionIsShort(msg, path);
    DottedBound(msg, path);
  }

  // ---------- The part of a name that sits in place ----------

  /** Octets from `p` to the end of the name's own encoding: through its zero octet or its first pointer. */
  function InPlace(msg: seq<byte>, p: nat): (n: nat)
    ensures ElementAt(msg, p).Bad? ==> n == 0
    ensures !ElementAt(msg, p).Bad? ==> 0 < n && p + n <= |msg|
    decreases |msg| - p
  {
    match ElementAt(msg, p)
    case Bad => 0
    case Root => 1
    case Jump(_) => 2
    case Take(_, q) => q - p + InPlace(msg, q)
  }

  // ---------- Writing labels out ----------

  predicate ValidLabels(ls: seq<Label>) {
    forall l | l in ls :: 0 < |l| <= 63
  }

  /** Length octet and contents of each label, without a terminator. */
  function LabelBytes(ls: seq<Label>): seq<byte>
    requires ValidLabels(ls)
  {
    if ls == [] then [] else [|ls[0]|] + ls[0] + LabelBytes(ls[1..])
  }

  lemma {:induction false} LabelBytesAppend(a: seq<Label>, b: seq<Label>)
    requires ValidLabels(a) && ValidLabels(b)
    ensures LabelBytes(a + b) == LabelBytes(a) + LabelBytes(b)
  {
    if a == [] {
      assert a + b == b;
    } else {
      assert (a + b)[1..] == a[1..] + b;
      LabelBytesAppend(a[1..], b);
    }
  }

  lemma Slices(msg: seq<byte>, p: nat, rest: nat, n: byte, front: seq<byte>, back: seq<byte>)
    requires p <= rest <= |msg| && |front| == n && msg[p..rest] == [n] + front + back
    ensures p + 1 + n <= rest && msg[p] == n && msg[p + 1..p + 1 + n] == front && msg[p + 1 + n..rest] == back
  {
    var w := msg[p..rest];
    assert w[0] == n && w[1..1 + n] == front && w[1 + n..] == back;
    var m := msg[p + 1..p + 1 + n];
    assert |w[1..1 + n]| == |m| && forall k | 0 <= k < |m| :: w[1..1 + n][k] == m[k];
    assert w[1 + n..] == msg[p + 1 + n..rest];
  }

  lemma ElementWritten(msg: seq<byte>, p: nat, ls: seq<Label>, rest: nat)
    requires ls != [] && ValidLabels(ls)
    requires rest == p + |LabelBytes(ls)| < |msg| && msg[p..rest] == LabelBytes(ls)
    ensures var q := p + 1 + |ls[0]|;
      && ElementAt(msg, p) == Take(ls[0], q)
      && rest == q + |LabelBytes(ls[1..])| && msg[q..rest] == LabelBytes(ls[1..])
  {
    var w, n := LabelBytes(ls), |ls[0]|;
    Slices(msg, p, rest, n, ls[0], LabelBytes(ls[1..]));
  }

  /**
   * Labels written at `p` are the front of the name at `p`, whatever continues
   * it: a zero octet, or a pointer to the rest of the name elsewhere.
   */
  lemma {:induction false} LabelsThenRest(msg: seq<byte>, p: nat, ls: seq<Label>, rest: nat)
    requires ValidLabels(ls)
    requires rest == p + |LabelBytes(ls)| < |msg| && msg[p..rest] == LabelBytes(ls)
    ensures HasExpansion(msg, p) <==> HasExpansion(msg, rest)
    ensures HasExpansion(msg, rest) ==> NameLabels(msg, p) == ls + NameLabels(msg, rest)
    ensures InPlace(msg, p) == |LabelBytes(ls)| + InPlace(msg, rest)
    decreases |ls|
  {
    if ls == [] {
      if HasExpansion(msg, p) { assert [] + NameLabels(msg, p) == NameLabels(msg, p); }
    } else {
      var q := p + 1 + |ls[0]|;
      ElementWritten(msg, p, ls, rest);
      LabelsThenRest(msg, q, ls[1..], rest);
      TakeStep(msg, p, ls[0], q);
      if HasExpansion(msg, rest) { ConsAppend(ls, NameLabels(msg, rest)); }
    }
  }

  /** A zero octet is the root. */
  lemma RootName(msg: seq<byte>, p: nat)
    requires p < |msg| && msg[p] == 0
    ensures HasExpansion(msg, p) && NameLabels(msg, p) == [] && InPlace(msg, p) == 1 && Text(NameLabels(msg, p)) == []
  {
    ExpansionStep(msg, p);
  }
}
