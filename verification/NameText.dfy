/** Reading escaped text back into labels: the encoder's side of the name syntax. */
module NameText {
  import opened Ares
  import opened Bytes
  import opened Names

  predicate NonEmpty(ls: seq<Label>) {
    forall i | 0 <= i < |ls| :: ls[i] != []
  }

  predicate NulFree(ls: seq<Label>) {
    forall i | 0 <= i < |ls| :: NUL !in ls[i]
  }

  // ---------- The syntax, as a cursor meets it ----------

  /** The octet a label continues with at `p`: the one there, or the one its backslash escapes. */
  function Escaped(name: seq<byte>, p: nat): (i: nat)
    requires p < |name|
    ensures p <= i < |name|
  {
    if name[p] == BACKSLASH && p + 1 < |name| then p + 1 else p
  }

  /** Where the label at `p` ends: at a dot that is not escaped, or at the end of the text. */
  function EndOf(name: seq<byte>, p: nat): (e: nat)
    requires p <= |name|
    ensures p <= e <= |name|
    decreases |name| - p
  {
    if p == |name| || name[p] == DOT then p else EndOf(name, Escaped(name, p) + 1)
  }

  /** The label at `p`, backslashes removed. A last lone backslash stands for itself. */
  function ContentOf(name: seq<byte>, p: nat): (l: Label)
    requires p <= |name|
    decreases |name| - p
  {
    if p == |name| || name[p] == DOT then []
    else [name[Escaped(name, p)]] + ContentOf(name, Escaped(name, p) + 1)
  }

  /** The labels from `p` on; None if one of them is empty. One dot may end the text. */
  function SplitFrom(name: seq<byte>, p: nat): Option<seq<Label>>
    requires p <= |name|
    decreases |name| - p
  {
    if p == |name| then Some([])
    else if name[p] == DOT then None
    else if EndOf(name, p) == |name| then Some([ContentOf(name, p)])
    else
      var rest := SplitFrom(name, EndOf(name, p) + 1);
      if rest.None? then None else Some([ContentOf(name, p)] + rest.value)
  }

  /** The labels a host name text stands for; "." is the root. */
  function Parse(t: seq<byte>): Option<seq<Label>> {
    if t == [DOT] then Some([]) else SplitFrom(t, 0)
  }

  lemma {:induction false} ContentFacts(name: seq<byte>, p: nat)
    requires p <= |name|
    ensures |ContentOf(name, p)| <= EndOf(name, p) - p
    ensures p < |name| && name[p] != DOT ==> ContentOf(name, p) != [] && EndOf(name, p) > p
    ensures NUL !in name ==> NUL !in ContentOf(name, p)
    decreases |name| - p
  {
    if p < |name| && name[p] != DOT { ContentFacts(name, Escaped(name, p) + 1); }
  }

  /** Labels read from a C string are not empty and hold no NUL. */
  lemma {:induction false} SplitFacts(name: seq<byte>, p: nat)
    requires p <= |name| && SplitFrom(name, p).Some?
    ensures NonEmpty(SplitFrom(name, p).value)
    ensures NUL !in name ==> NulFree(SplitFrom(name, p).value)
    decreases |name| - p
  {
    if p < |name| {
      ContentFacts(name, p);
      if EndOf(name, p) < |name| { SplitFacts(name, EndOf(name, p) + 1); }
    }
  }

  // ---------- The printer and the parser agree ----------

  /** `s` stands in `name` at `p`. */
  ghost predicate At(name: seq<byte>, p: nat, s: seq<byte>) {
    p + |s| <= |name| && forall k | 0 <= k < |s| :: name[p + k] == s[k]
  }

  lemma AtConcat(name: seq<byte>, p: nat, a: seq<byte>, b: seq<byte>)
    requires At(name, p, a + b)
    ensures At(name, p, a) && At(name, p + |a|, b)
  {
    var c := a + b;
    forall k | 0 <= k < |a| ensures name[p + k] == a[k] { assert name[p + k] == c[k]; }
    forall k | 0 <= k < |b| ensures name[p + |a| + k] == b[k] { assert name[p + (|a| + k)] == c[|a| + k]; }
  }

  /** The escaped form of a label reads as that label. */
  lemma {:induction false} LabelAt(name: seq<byte>, p: nat, l: Label, q: nat)
    requires At(name, p, Escape(l)) && q == p + |Escape(l)|
    requires q == |name| || name[q] == DOT
    ensures EndOf(name, p) == q && ContentOf(name, p) == l
    decreases |l|
  {
    if l != [] {
      var e := EscapeByte(l[0]);
      AtConcat(name, p, e, Escape(l[1..]));
      assert name[p] == e[0] && (|e| == 2 ==> name[p + 1] == e[1]);
      assert Escaped(name, p) == p + |e| - 1;
      LabelAt(name, p + |e|, l[1..], q);
      assert l == [l[0]] + l[1..];
    }
  }

  lemma EscapeFront(l: Label)
    requires l != []
    ensures Escape(l) != [] && Escape(l)[0] != DOT
  {
  }

  /** A label followed by its dot. */
  lemma LabelThenDot(name: seq<byte>, p: nat, l: Label, q: nat)
    requires l != [] && At(name, p, Escape(l) + [DOT]) && q == p + |Escape(l)|
    ensures q < |name| && name[p] != DOT && EndOf(name, p) == q && ContentOf(name, p) == l
  {
    var e := Escape(l);
    EscapeFront(l);
    AtConcat(name, p, e, [DOT]);
    assert name[p + |e|] == (e + [DOT])[|e|] == DOT;
    assert name[p + 0] == e[0];
    LabelAt(name, p, l, q);
  }

  /** A label at the end of the text. */
  lemma LabelThenEnd(name: seq<byte>, p: nat, l: Label)
    requires l != [] && At(name, p, Escape(l)) && |name| == p + |Escape(l)|
    ensures p < |name| && name[p] != DOT && EndOf(name, p) == |name| && ContentOf(name, p) == l
  {
    EscapeFront(l);
    assert name[p + 0] == Escape(l)[0];
    LabelAt(name, p, l, |name|);
  }

  lemma ButLast(a: seq<byte>, b: seq<byte>)
    requires b != []
    ensures (a + b)[..|a + b| - 1] == a + b[..|b| - 1]
  {
  }

  lemma TextCons(ls: seq<Label>)
    requires |ls| > 1
    ensures Text(ls) == Escape(ls[0]) + [DOT] + Text(ls[1..])
  {
    ButLast(Escape(ls[0]) + [DOT], Dotted(ls[1..]));
  }

  lemma TextOne(l: Label)
    ensures Text([l]) == Escape(l)
  {
    DottedOne(l);
    ButLast(Escape(l), [DOT]);
  }

  lemma SplitOne(name: seq<byte>, p: nat, l: Label)
    requires p < |name| && name[p] != DOT && EndOf(name, p) == |name| && ContentOf(name, p) == l
    ensures SplitFrom(name, p) == Some([l])
  {
  }

  lemma SplitCons(name: seq<byte>, p: nat, l: Label, q: nat, rest: seq<Label>)
    requires p < q < |name| && name[p] != DOT && EndOf(name, p) == q && ContentOf(name, p) == l
    requires SplitFrom(name, q + 1) == Some(rest)
    ensures SplitFrom(name, p) == Some([l] + rest)
  {
  }

  /** The canonical text of labels splits into those labels. */
  lemma {:induction false} TextAt(name: seq<byte>, p: nat, ls: seq<Label>)
    requires ls != [] && NonEmpty(ls)
    requires At(name, p, Text(ls)) && p + |Text(ls)| == |name|
    ensures SplitFrom(name, p) == Some(ls) && p < |name| && name[p] != DOT
    decreases |ls|
  {
    hide Text;
    hide Dotted;
    hide Escape;
    hide At;
    hide SplitFrom;
    hide EndOf;
    hide ContentOf;
    var l, rest := ls[0], ls[1..];
    assert ls == [l] + rest && l != [] && NonEmpty(rest);
    if rest == [] {
      assert ls == [l];
      TextOne(l);
      LabelThenEnd(name, p, l);
      SplitOne(name, p, l);
    } else {
      TextCons(ls);
      EscapeFront(l);
      AtConcat(name, p, Escape(l) + [DOT], Text(rest));
      LabelThenDot(name, p, l, p + |Escape(l)|);
      TextAt(name, p + |Escape(l)| + 1, rest);
      SplitCons(name, p, l, p + |Escape(l)|, rest);
    }
  }

  /** A dot after the last label makes no difference. */
  lemma {:induction false} DottedAt(name: seq<byte>, p: nat, ls: seq<Label>)
    requires NonEmpty(ls)
    requires At(name, p, Dotted(ls)) && p + |Dotted(ls)| == |name|
    ensures SplitFrom(name, p) == Some(ls)
    decreases |ls|
  {
    if ls != [] {
      var l, rest := ls[0], ls[1..];
      assert ls == [l] + rest && l != [] && NonEmpty(rest);
      assert Dotted(ls) == Escape(l) + [DOT] + Dotted(rest);
      EscapeFront(l);
      hide *;
      AtConcat(name, p, Escape(l) + [DOT], Dotted(rest));
      LabelThenDot(name, p, l, p + |Escape(l)|);
      DottedAt(name, p + |Escape(l)| + 1, rest);
      SplitCons(name, p, l, p + |Escape(l)|, rest);
    }
  }

  /** Parsing the canonical text of any labels gives those labels back, with or without a final dot. */
  lemma ParseOfText(ls: seq<Label>)
    requires NonEmpty(ls)
    ensures Parse(Text(ls)) == Some(ls)
    ensures Parse(Dotted(ls)) == Some(ls)
  {
    if ls != [] {
      TextAt(Text(ls), 0, ls);
      DottedAt(Dotted(ls), 0, ls);
      EscapeFront(ls[0]);
      assert Dotted(ls)[0] == Escape(ls[0])[0];
    }
  }

  lemma {:induction false} EscapeHasNoNul(l: Label)
    requires NUL !in l
    ensures NUL !in Escape(l)
  {
    if l != [] { EscapeHasNoNul(l[1..]); }
  }

  lemma {:induction false} TextHasNoNul(ls: seq<Label>)
    requires NulFree(ls)
    ensures NUL !in Dotted(ls) && NUL !in Text(ls)
  {
    if ls != [] {
      EscapeHasNoNul(ls[0]);
      TextHasNoNul(ls[1..]);
    }
  }
}
