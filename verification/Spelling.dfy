/** Every spelling of a name as text, and what the encoder takes it for. */
module Spelling {
  import opened Ares
  import opened Bytes
  import opened Names
  import opened NameText

  /** An octet of a label as text: as it is, or after a backslash. */
  datatype Unit = Bare(b: byte) | Quoted(b: byte)

  /** A dot or a backslash must be quoted; anything else may be. */
  predicate Good(us: seq<Unit>) {
    forall i | 0 <= i < |us| :: us[i].Bare? ==> us[i].b != 46 && us[i].b != 92
  }

  function UnitText(u: Unit): seq<byte> {
    if u.Bare? then [u.b] else [92, u.b]
  }

  function UnitsText(us: seq<Unit>): seq<byte> {
    if us == [] then [] else UnitText(us[0]) + UnitsText(us[1..])
  }

  /** The label that is spelled. */
  function Value(us: seq<Unit>): Label {
    seq(|us|, i requires 0 <= i < |us| => us[i].b)
  }

  lemma ValueCons(us: seq<Unit>)
    requires us != []
    ensures Value(us) == [us[0].b] + Value(us[1..])
  {
  }

  /** One unit: where it ends, and what it stands for. */
  lemma UnitAt(name: seq<byte>, p: nat, u: Unit)
    requires Good([u]) && At(name, p, UnitText(u))
    ensures p < |name| && name[p] != DOT
    ensures name[NameText.Escaped(name, p)] == u.b && NameText.Escaped(name, p) + 1 == p + |UnitText(u)|
  {
    assert [u][0] == u;
    assert name[p + 0] == UnitText(u)[0];
    if u.Quoted? {
      assert name[p + 1] == UnitText(u)[1];
    }
  }

  /** Units up to a dot or the end of the text are one label. */
  lemma {:induction false} UnitsAt(name: seq<byte>, p: nat, us: seq<Unit>, q: nat)
    requires Good(us) && At(name, p, UnitsText(us)) && q == p + |UnitsText(us)|
    requires q == |name| || name[q] == DOT
    ensures EndOf(name, p) == q && ContentOf(name, p) == Value(us)
    decreases |us|
  {
    if us != [] {
      AtConcat(name, p, UnitText(us[0]), UnitsText(us[1..]));
      UnitAt(name, p, us[0]);
      UnitsAt(name, p + |UnitText(us[0])|, us[1..], q);
      ValueCons(us);
    }
  }

  /** A backslash at the very end stands for itself. */
  lemma {:induction false} LoneAt(name: seq<byte>, p: nat, us: seq<Unit>)
    requires Good(us) && At(name, p, UnitsText(us) + [92]) && |name| == p + |UnitsText(us)| + 1
    ensures EndOf(name, p) == |name| && ContentOf(name, p) == Value(us) + [92]
    decreases |us|
  {
    if us == [] {
      assert UnitsText(us) + [92] == [92] && name[p + 0] == [92][0];
      assert ContentOf(name, p) == [92] + ContentOf(name, p + 1);
    } else {
      var rest := UnitsText(us[1..]) + [92];
      AppendAssoc(UnitText(us[0]), UnitsText(us[1..]), [92]);
      AtConcat(name, p, UnitText(us[0]), rest);
      UnitAt(name, p, us[0]);
      LoneAt(name, p + |UnitText(us[0])|, us[1..]);
      ValueCons(us);
      AppendAssoc([us[0].b], Value(us[1..]), [92]);
    }
  }

  // ---------- Names ----------

  /** Labels that are not empty. */
  predicate Spelled(ss: seq<seq<Unit>>) {
    forall i | 0 <= i < |ss| :: ss[i] != [] && Good(ss[i])
  }

  /** Each label with a dot after it. */
  function DottedText(ss: seq<seq<Unit>>): seq<byte> {
    if ss == [] then [] else UnitsText(ss[0]) + [46] + DottedText(ss[1..])
  }

  function Values(ss: seq<seq<Unit>>): seq<Label> {
    seq(|ss|, i requires 0 <= i < |ss| => Value(ss[i]))
  }

  lemma FirstUnit(us: seq<Unit>)
    requires us != [] && Good(us)
    ensures UnitsText(us) != [] && UnitsText(us)[0] != DOT
  {
  }

  lemma ValuesCons(ss: seq<seq<Unit>>)
    requires ss != []
    ensures Values(ss) == [Value(ss[0])] + Values(ss[1..])
  {
  }

  lemma StartsLabel(name: seq<byte>, p: nat, us: seq<Unit>)
    requires us != [] && Good(us) && At(name, p, UnitsText(us))
    ensures p < |name| && name[p] != DOT
  {
    FirstUnit(us);
    assert name[p + 0] == UnitsText(us)[0];
  }

  ghost function InFront(ls: seq<Label>, rest: Option<seq<Label>>): Option<seq<Label>> {
    if rest.None? then None else Some(ls + rest.value)
  }

  lemma SplitStep(name: seq<byte>, p: nat, e: nat)
    requires p < |name| && name[p] != DOT && EndOf(name, p) == e < |name|
    ensures SplitFrom(name, p) == InFront([ContentOf(name, p)], SplitFrom(name, e + 1))
  {
  }

  lemma DottedCons(ss: seq<seq<Unit>>)
    requires ss != []
    ensures DottedText(ss) == UnitsText(ss[0]) + [46] + DottedText(ss[1..])
    ensures Spelled(ss) ==> ss[0] != [] && Good(ss[0]) && Spelled(ss[1..])
  {
  }

  lemma AtThere(name: seq<byte>, p: nat, s: seq<byte>)
    requires At(name, p, s)
    ensures p + |s| <= |name| && forall k | 0 <= k < |s| :: name[p + k] == s[k]
  {
  }

  /** Labels with their dots are the front of what is read. */
  lemma {:induction false} LabelsInFront(name: seq<byte>, p: nat, ss: seq<seq<Unit>>, q: nat)
    requires Spelled(ss) && At(name, p, DottedText(ss)) && q == p + |DottedText(ss)| <= |name|
    ensures SplitFrom(name, p) == InFront(Values(ss), SplitFrom(name, q))
    decreases |ss|
  {
    hide UnitsText;
    hide SplitFrom;
    hide EndOf;
    hide ContentOf;
    hide At;
    hide Value;
    if ss == [] {
      if SplitFrom(name, q).Some? {
        assert Values(ss) + SplitFrom(name, q).value == SplitFrom(name, q).value;
      }
    } else {
      var us, more := ss[0], ss[1..];
      var e := p + |UnitsText(us)|;
      DottedCons(ss);
      AtConcat(name, p, UnitsText(us) + [46], DottedText(more));
      AtConcat(name, p, UnitsText(us), [46]);
      AtThere(name, e, [46]);
      assert name[e + 0] == [46][0];
      StartsLabel(name, p, us);
      UnitsAt(name, p, us, e);
      SplitStep(name, p, e);
      LabelsInFront(name, e + 1, more, q);
      ValuesCons(ss);
      if SplitFrom(name, q).Some? {
        AppendAssoc([Value(us)], Values(more), SplitFrom(name, q).value);
      }
    }
  }

  /** What may follow the labels with dots: nothing, a last label, one that ends with a backslash, or a dot too many. */
  datatype Tail = Nothing | Last(units: seq<Unit>) | Lone(units: seq<Unit>) | DotTooMany(rest: seq<byte>)

  predicate GoodTail(tail: Tail) {
    match tail
    case Nothing => true
    case Last(us) => us != [] && Good(us)
    case Lone(us) => Good(us)
    case DotTooMany(_) => true
  }

  function TailText(tail: Tail): seq<byte> {
    match tail
    case Nothing => []
    case Last(us) => UnitsText(us)
    case Lone(us) => UnitsText(us) + [92]
    case DotTooMany(rest) => [46] + rest
  }

  function TailValue(tail: Tail): Option<seq<Label>> {
    match tail
    case Nothing => Some([])
    case Last(us) => Some([Value(us)])
    case Lone(us) => Some([Value(us) + [92]])
    case DotTooMany(_) => None
  }

  lemma TailAt(name: seq<byte>, p: nat, tail: Tail)
    requires GoodTail(tail) && At(name, p, TailText(tail)) && |name| == p + |TailText(tail)|
    ensures SplitFrom(name, p) == TailValue(tail)
  {
    match tail
    case Nothing =>
    case Last(us) =>
      StartsLabel(name, p, us);
      UnitsAt(name, p, us, |name|);
    case Lone(us) =>
      if us == [] {
        assert UnitsText(us) + [92] == [92];
        assert name[p + 0] == [92][0];
      } else {
        AtConcat(name, p, UnitsText(us), [92]);
        StartsLabel(name, p, us);
      }
      LoneAt(name, p, us);
    case DotTooMany(rest) =>
      assert name[p + 0] == ([46] + rest)[0];
  }

  lemma AtFront(a: seq<byte>, b: seq<byte>)
    ensures At(a + b, 0, a) && At(a + b, |a|, b)
  {
  }

  /** What the encoder takes a text for: the labels spelled, unless one of them is empty; a lone dot is the root. */
  lemma ParseIs(ss: seq<seq<Unit>>, tail: Tail)
    requires Spelled(ss) && GoodTail(tail)
    ensures var t := DottedText(ss) + TailText(tail);
      Parse(t) == if t == [46] then Some([]) else InFront(Values(ss), TailValue(tail))
  {
    hide SplitFrom;
    var t := DottedText(ss) + TailText(tail);
    AtFront(DottedText(ss), TailText(tail));
    LabelsInFront(t, 0, ss, |DottedText(ss)|);
    TailAt(t, |DottedText(ss)|, tail);
  }

  // ---------- Every text is one of these ----------

  lemma UnitStep(name: seq<byte>, p: nat, u: Unit)
    requires p < |name| && name[p] != DOT && (name[p] == BACKSLASH ==> p + 1 < |name|)
    requires u == if name[p] == BACKSLASH then Quoted(name[p + 1]) else Bare(name[p])
    ensures var q := NameText.Escaped(name, p) + 1;
      && p < q <= |name| && EndOf(name, p) == EndOf(name, q)
      && name[p..EndOf(name, p)] == UnitText(u) + name[q..EndOf(name, q)]
  {
  }

  lemma MoreUnits(u: Unit, us: seq<Unit>, rest: seq<byte>)
    ensures UnitsText([u] + us) + rest == UnitText(u) + (UnitsText(us) + rest)
  {
    assert ([u] + us)[1..] == us;
    AppendAssoc(UnitText(u), UnitsText(us), rest);
  }

  lemma NoLabel(name: seq<byte>, p: nat)
    requires p <= |name|
    ensures p == |name| || name[p] == DOT ==> EndOf(name, p) == p
    ensures p + 1 == |name| && name[p] == BACKSLASH ==> EndOf(name, p) == |name| && name[p..|name|] == [92]
    ensures UnitsText([]) == []
  {
  }

  /** The units of a label, and whether a lone backslash ends it. */
  lemma {:induction false} LabelUnits(name: seq<byte>, p: nat) returns (us: seq<Unit>, lone: bool)
    requires p <= |name|
    ensures Good(us) && name[p..EndOf(name, p)] == UnitsText(us) + (if lone then [92] else [])
    ensures lone ==> EndOf(name, p) == |name|
    decreases |name| - p
  {
    hide EndOf;
    hide UnitsText;
    NoLabel(name, p);
    if p == |name| || name[p] == DOT {
      us, lone := [], false;
    } else if name[p] == BACKSLASH && p + 1 == |name| {
      us, lone := [], true;
    } else {
      var u := if name[p] == BACKSLASH then Quoted(name[p + 1]) else Bare(name[p]);
      var q := NameText.Escaped(name, p) + 1;
      var more;
      more, lone := LabelUnits(name, q);
      UnitStep(name, p, u);
      MoreUnits(u, more, if lone then [92] else []);
      us := [u] + more;
    }
  }

  lemma {:induction false} EndIsDot(name: seq<byte>, p: nat)
    requires p <= |name| && EndOf(name, p) < |name|
    ensures name[EndOf(name, p)] == DOT
    decreases |name| - p
  {
    if name[p] != DOT {
      EndIsDot(name, NameText.Escaped(name, p) + 1);
    }
  }

  lemma OneLabelMore(us: seq<Unit>, ss: seq<seq<Unit>>, tail: Tail)
    requires us != [] && Good(us) && Spelled(ss)
    ensures Spelled([us] + ss)
    ensures DottedText([us] + ss) + TailText(tail) == UnitsText(us) + [46] + (DottedText(ss) + TailText(tail))
  {
    hide UnitsText;
    hide TailText;
    assert ([us] + ss)[1..] == ss;
    AppendAssoc(UnitsText(us) + [46], DottedText(ss), TailText(tail));
  }

  lemma CutAt(name: seq<byte>, p: nat, e: nat)
    requires p <= e <= |name|
    ensures e == |name| ==> name[p..e] == name[p..]
    ensures e < |name| ==> name[p..] == name[p..e] + [name[e]] + name[e + 1..]
  {
  }

  lemma NoUnits(name: seq<byte>, p: nat, us: seq<Unit>, lone: bool)
    requires p < |name| && name[p] != DOT
    requires name[p..EndOf(name, p)] == UnitsText(us) + (if lone then [92] else [])
    ensures us == [] ==> lone
  {
    ContentFacts(name, p);
  }

  lemma NothingSpelled()
    ensures DottedText([]) == [] && forall t: seq<byte> :: [] + t == t
  {
  }

  /** So every text is some labels with dots, and a tail. */
  lemma {:induction false} EveryText(name: seq<byte>, p: nat) returns (ss: seq<seq<Unit>>, tail: Tail)
    requires p <= |name|
    ensures Spelled(ss) && GoodTail(tail) && name[p..] == DottedText(ss) + TailText(tail)
    decreases |name| - p
  {
    hide UnitsText;
    hide DottedText;
    hide EndOf;
    ss, tail := [], Nothing;
    NothingSpelled();
    if p < |name| {
      if name[p] == DOT {
        tail := DotTooMany(name[p + 1..]);
        assert name[p..] == [46] + name[p + 1..];
      } else {
        var e := EndOf(name, p);
        var us, lone := LabelUnits(name, p);
        NoUnits(name, p, us, lone);
        CutAt(name, p, e);
        if e == |name| {
          tail := if lone then Lone(us) else Last(us);
        } else {
          EndIsDot(name, p);
          var more;
          more, tail := EveryText(name, e + 1);
          OneLabelMore(us, more, tail);
          ss := [us] + more;
        }
      }
    }
  }

  // ---------- The canonical text ----------

  lemma EscapeMore(l: Label, b: byte)
    ensures Escape([]) == [] && Escape(l + [b]) == Escape(l) + (if b == 46 || b == 92 then [92, b] else [b])
  {
    EscapeAppend(l, [b]);
    assert [b][1..] == [] && Escape([b]) == EscapeByte(b) + Escape([]);
  }

  lemma ButLastOf(t: seq<byte>, u: seq<byte>)
    requires t == u + [46]
    ensures t[..|t| - 1] == u
  {
  }

  lemma {:induction false} LastDot(ls: seq<Label>)
    requires ls != []
    ensures Dotted(ls)[|Dotted(ls)| - 1] == 46
  {
    if |ls| == 1 {
      assert ls == [ls[0]];
      DottedOne(ls[0]);
    } else {
      LastDot(ls[1..]);
    }
  }

  lemma TextMore(ls: seq<Label>, l: Label)
    requires ls != []
    ensures Text(ls + [l]) == Text(ls) + [46] + Escape(l)
  {
    hide Dotted;
    hide Escape;
    DottedAppend(ls, [l]);
    DottedOne(l);
    LastDot(ls);
    assert Dotted(ls) == Text(ls) + [46];
    AppendAssoc(Dotted(ls), Escape(l), [46]);
    ButLastOf(Dotted(ls + [l]), Text(ls) + [46] + Escape(l));
  }

  /** The text of a name, by equations: dots between the labels, and a backslash before a dot or a backslash. */
  lemma TextIs(ls: seq<Label>, l: Label, b: byte)
    ensures Text([]) == [] && Text([l]) == Escape(l)
    ensures ls != [] ==> Text(ls + [l]) == Text(ls) + [46] + Escape(l)
    ensures Escape([]) == [] && Escape(l + [b]) == Escape(l) + (if b == 46 || b == 92 then [92, b] else [b])
  {
    hide Escape;
    TextOne(l);
    EscapeMore(l, b);
    if ls != [] {
      TextMore(ls, l);
    }
  }
}
