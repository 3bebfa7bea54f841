/** Which names the parsers take for equal: strcasecmp on the text of two names, in terms of their labels. */
module SameNames {
  import opened Ares
  import opened Bytes
  import opened Names
  import opened NameText

  /** Letter case aside: the same octet, or a capital letter and its small one. */
  lemma SameLetter(x: byte, y: byte)
    ensures Lower(x) == Lower(y) <==> x == y || (65 <= x <= 90 && y == x + 32) || (65 <= y <= 90 && x == y + 32)
  {
  }

  function LowerAll(s: seq<byte>): seq<byte> {
    seq(|s|, i requires 0 <= i < |s| => Lower(s[i]))
  }

  function LowerLabels(ls: seq<Label>): seq<Label> {
    seq(|ls|, i requires 0 <= i < |ls| => LowerAll(ls[i]))
  }

  lemma LowerAppend(a: seq<byte>, b: seq<byte>)
    ensures LowerAll(a + b) == LowerAll(a) + LowerAll(b)
  {
  }

  lemma LowerByte(b: byte)
    ensures LowerAll(EscapeByte(b)) == EscapeByte(Lower(b))
  {
  }

  /** Neither a dot nor a backslash has a case, so folding and escaping commute. */
  lemma {:induction false} LowerEscape(l: Label)
    ensures LowerAll(Escape(l)) == Escape(LowerAll(l))
  {
    if l != [] {
      LowerEscape(l[1..]);
      LowerByte(l[0]);
      LowerAppend(EscapeByte(l[0]), Escape(l[1..]));
      assert LowerAll(l)[1..] == LowerAll(l[1..]);
    }
  }

  lemma {:induction false} LowerDotted(ls: seq<Label>)
    ensures LowerAll(Dotted(ls)) == Dotted(LowerLabels(ls))
  {
    hide Escape;
    if ls != [] {
      LowerDotted(ls[1..]);
      LowerEscape(ls[0]);
      assert LowerLabels(ls)[1..] == LowerLabels(ls[1..]);
      LowerAppend(Escape(ls[0]) + [DOT], Dotted(ls[1..]));
      LowerAppend(Escape(ls[0]), [DOT]);
      assert LowerAll([DOT]) == [DOT];
    }
  }

  lemma LowerText(ls: seq<Label>)
    ensures LowerAll(Text(ls)) == Text(LowerLabels(ls))
  {
    LowerDotted(ls);
    var t := Dotted(ls);
    if t != [] {
      assert LowerAll(t)[..|t| - 1] == LowerAll(t[..|t| - 1]);
    }
  }

  // ---------- What a C string holds of a name ----------

  /** The labels up to the first NUL; the last of them may be cut short, or empty. */
  function CutLabels(ls: seq<Label>): (r: seq<Label>)
    ensures ls != [] ==> r != []
  {
    if ls == [] then []
    else if NUL in ls[0] then [CString(ls[0])]
    else [ls[0]] + CutLabels(ls[1..])
  }

  /** The same, where nothing at all is the root. */
  function BeforeNul(ls: seq<Label>): seq<Label> {
    if CutLabels(ls) == [[]] then [] else CutLabels(ls)
  }

  lemma {:induction false} CutNulFree(ls: seq<Label>)
    requires NulFree(ls)
    ensures CutLabels(ls) == ls
  {
    if ls != [] {
      CutNulFree(ls[1..]);
    }
  }

  lemma SplitAtNul(l: Label)
    requires NUL in l
    ensures var c := CString(l); |c| < |l| && l == c + [NUL] + l[|c| + 1..]
  {
    var c := CString(l);
    assert |c| == |l| ==> c == l;
  }

  lemma FrontOf(a: seq<byte>, b: seq<byte>, c: seq<byte>)
    ensures a + b <= a + b + c
  {
  }

  /** A label with a NUL in it, in the text. */
  lemma NulInLabel(l: Label, rest: seq<byte>)
    requires NUL in l
    ensures NUL !in Escape(CString(l)) && Escape(CString(l)) + [NUL] <= Escape(l) + [DOT] + rest
    ensures |Escape(CString(l)) + [NUL]| < |Escape(l) + [DOT] + rest|
  {
    SplitAtNul(l);
    var c := CString(l);
    var more := l[|c| + 1..];
    EscapeHasNoNul(c);
    EscapeAppend(c + [NUL], more);
    EscapeAppend(c, [NUL]);
    assert Escape([NUL]) == [NUL] by { assert [NUL][1..] == []; }
    hide Escape;
    assert Escape(l) + [DOT] + rest == Escape(c) + [NUL] + (Escape(more) + [DOT] + rest);
    FrontOf(Escape(c), [NUL], Escape(more) + [DOT] + rest);
  }

  lemma PrefixAfter(u: seq<byte>, v: seq<byte>, w: seq<byte>)
    requires v <= w
    ensures u + v <= u + w
  {
  }

  /** In the text of a name the first NUL stands right after the labels before it. */
  lemma {:induction false} NulInText(ls: seq<Label>)
    requires !NulFree(ls)
    ensures NUL !in Text(CutLabels(ls)) && Text(CutLabels(ls)) + [NUL] <= Dotted(ls)
    ensures |Text(CutLabels(ls)) + [NUL]| < |Dotted(ls)|
  {
    hide Escape;
    hide Text;
    var l, rest := ls[0], ls[1..];
    if NUL in l {
      TextOne(CString(l));
      NulInLabel(l, Dotted(rest));
    } else {
      assert !NulFree(rest);
      NulInText(rest);
      var cut := CutLabels(rest);
      assert ([l] + cut)[1..] == cut;
      TextCons([l] + cut);
      EscapeHasNoNul(l);
      PrefixAfter(Escape(l) + [DOT], Text(cut) + [NUL], Dotted(rest));
      assert Escape(l) + [DOT] + (Text(cut) + [NUL]) == Escape(l) + [DOT] + Text(cut) + [NUL];
    }
  }

  /** So the C string of a name's text is the text of the labels before the NUL. */
  lemma TextBeforeNul(ls: seq<Label>)
    ensures CString(Text(ls)) == Text(BeforeNul(ls))
  {
    var t := Text(ls);
    TextOne([]);
    if NulFree(ls) {
      CutNulFree(ls);
      TextHasNoNul(ls);
      StringUpTo(t, 0, |t|);
    } else {
      NulInText(ls);
      hide Dotted;
      var front := Text(CutLabels(ls));
      assert front + [NUL] <= t;
      assert t[|front|] == (front + [NUL])[|front|];
      forall i | 0 <= i < |front| ensures t[i] != NUL {
        assert t[i] == (front + [NUL])[i] == front[i];
      }
      StringUpTo(t, 0, |front|);
      assert t[0..|front|] == front;
    }
  }

  // ---------- Text with or without a last dot ----------

  /** Labels of which only the last may be empty, and not if it is the only one. */
  predicate Readable(ls: seq<Label>) {
    ls != [[]] && forall i | 0 <= i < |ls| - 1 :: ls[i] != []
  }

  predicate Open(ls: seq<Label>) { ls != [] && ls[|ls| - 1] == [] }

  function Closed(ls: seq<Label>): seq<Label> {
    if Open(ls) then ls[..|ls| - 1] else ls
  }

  /** An empty last label leaves the dot before it. */
  lemma TextOpen(ls: seq<Label>)
    ensures Text(ls + [[]]) == Dotted(ls)
  {
    DottedAppend(ls, [[]]);
    DottedOne([]);
    ButLast(Dotted(ls), [DOT]);
  }

  lemma ReadableText(ls: seq<Label>)
    requires Readable(ls)
    ensures Parse(Text(ls)) == Some(Closed(ls))
    ensures Open(ls) ==> Text(ls) == Dotted(Closed(ls)) && Closed(ls) != []
  {
    hide Text;
    hide Dotted;
    var c := Closed(ls);
    assert NonEmpty(c);
    ParseOfText(c);
    if Open(ls) {
      assert ls == c + [[]];
      TextOpen(c);
    }
  }

  lemma TextIsShorter(ls: seq<Label>)
    requires ls != []
    ensures |Text(ls)| < |Dotted(ls)|
  {
  }

  lemma OpenOrClosed(ls: seq<Label>)
    ensures ls == if Open(ls) then Closed(ls) + [[]] else Closed(ls)
  {
  }

  lemma TextTellsApart(a: seq<Label>, b: seq<Label>)
    requires Readable(a) && Readable(b)
    ensures Text(a) == Text(b) <==> a == b
  {
    hide Text;
    hide Dotted;
    hide Parse;
    hide Closed;
    hide Open;
    ReadableText(a);
    ReadableText(b);
    if Text(a) == Text(b) {
      OpenOrClosed(a);
      OpenOrClosed(b);
      if Open(a) != Open(b) {
        TextIsShorter(Closed(a));
      }
    }
  }

  lemma {:induction false} CutIsReadable(ls: seq<Label>)
    requires NonEmpty(ls)
    ensures forall i | 0 <= i < |CutLabels(ls)| - 1 :: CutLabels(ls)[i] != []
  {
    if ls != [] && NUL !in ls[0] {
      CutIsReadable(ls[1..]);
      assert CutLabels(ls) == [ls[0]] + CutLabels(ls[1..]);
    }
  }

  lemma LowerReadable(ls: seq<Label>)
    requires Readable(ls)
    ensures Readable(LowerLabels(ls))
  {
    var m := LowerLabels(ls);
    forall i | 0 <= i < |ls| ensures m[i] == [] <==> ls[i] == [] {
      assert |m[i]| == |ls[i]|;
    }
    assert |ls| == 1 ==> ls == [ls[0]] && m == [m[0]];
  }

  // ---------- Comparing names ----------

  lemma SameIfLower(a: seq<byte>, b: seq<byte>)
    ensures SameName(a, b) <==> LowerAll(CString(a)) == LowerAll(CString(b))
  {
    var x, y := CString(a), CString(b);
    if LowerAll(x) == LowerAll(y) {
      assert |LowerAll(x)| == |x| && |LowerAll(y)| == |y|;
      forall i | 0 <= i < |x| ensures Lower(x[i]) == Lower(y[i]) {
        assert LowerAll(x)[i] == LowerAll(y)[i];
      }
    }
  }

  /** Any two names: their texts compare equal exactly if their labels before the first NUL do, letter case aside. */
  lemma ComparesBeforeNul(a: seq<Label>, b: seq<Label>)
    requires NonEmpty(a) && NonEmpty(b)
    ensures SameName(Text(a), Text(b)) <==> LowerLabels(BeforeNul(a)) == LowerLabels(BeforeNul(b))
  {
    hide Text;
    hide LowerLabels;
    hide CString;
    hide SameName;
    var x, y := BeforeNul(a), BeforeNul(b);
    SameIfLower(Text(a), Text(b));
    TextBeforeNul(a);
    TextBeforeNul(b);
    LowerText(x);
    LowerText(y);
    CutIsReadable(a);
    CutIsReadable(b);
    LowerReadable(x);
    LowerReadable(y);
    TextTellsApart(LowerLabels(x), LowerLabels(y));
  }

  lemma NulFreeBefore(ls: seq<Label>)
    requires NonEmpty(ls) && NulFree(ls)
    ensures BeforeNul(ls) == ls
  {
    CutNulFree(ls);
  }

  /** Labels without NUL: the texts compare equal exactly if the labels do, letter case aside. */
  lemma SameNameIsSameLabels(a: seq<Label>, b: seq<Label>)
    requires NonEmpty(a) && NonEmpty(b) && NulFree(a) && NulFree(b)
    ensures SameName(Text(a), Text(b)) <==> LowerLabels(a) == LowerLabels(b)
  {
    NulFreeBefore(a);
    NulFreeBefore(b);
    ComparesBeforeNul(a, b);
  }

  lemma {:induction false} NulHidesTheRest(ls: seq<Label>, more: seq<Label>)
    requires !NulFree(ls)
    ensures CutLabels(ls + more) == CutLabels(ls)
  {
    assert (ls + more)[0] == ls[0] && (ls + more)[1..] == ls[1..] + more;
    if NUL !in ls[0] {
      assert !NulFree(ls[1..]);
      NulHidesTheRest(ls[1..], more);
    }
  }

  /** The labels of `b` that hold a NUL are labels of `a`. */
  predicate NoNewNul(a: seq<Label>, b: seq<Label>) {
    forall l | l in b && NUL in l :: l in a
  }

  /** A name that holds a NUL compares equal to the longer names that begin with it. */
  lemma LongerNameComparesEqual(a: seq<Label>, l: Label)
    requires NonEmpty(a) && !NulFree(a) && l != []
    ensures SameName(Text(a), Text(a + [l])) && LowerLabels(a) != LowerLabels(a + [l])
  {
    hide Text;
    hide SameName;
    assert NonEmpty(a + [l]);
    NulHidesTheRest(a, [l]);
    ComparesBeforeNul(a, a + [l]);
    assert |LowerLabels(a)| != |LowerLabels(a + [l])|;
  }

  /** Two names of one label that differ after a NUL. */
  lemma DifferentNamesCompareEqual()
    ensures SameName(Text([[NUL, 97]]), Text([[NUL, 98]])) && LowerLabels([[NUL, 97]]) != LowerLabels([[NUL, 98]])
  {
    hide Text;
    hide SameName;
    ComparesBeforeNul([[NUL, 97]], [[NUL, 98]]);
    assert LowerLabels([[NUL, 97]])[0][1] == 97 && LowerLabels([[NUL, 98]])[0][1] == 98;
  }

  /**
   * A name is compared label by label, with all names that bring no NUL of their own, exactly if it holds no NUL
   * itself.
   */
  lemma ComparedByLabels(a: seq<Label>)
    requires NonEmpty(a)
    ensures NulFree(a) <==>
      forall b | NonEmpty(b) && NoNewNul(a, b) ::
        SameName(Text(a), Text(b)) <==> LowerLabels(a) == LowerLabels(b)
  {
    hide Text;
    hide SameName;
    hide LowerLabels;
    if NulFree(a) {
      forall b | NonEmpty(b) && NoNewNul(a, b)
        ensures SameName(Text(a), Text(b)) <==> LowerLabels(a) == LowerLabels(b)
      {
        assert NulFree(b);
        SameNameIsSameLabels(a, b);
      }
    } else {
      var b := a + [[1]];
      assert NonEmpty(b) && NoNewNul(a, b);
      LongerNameComparesEqual(a, [1]);
    }
  }
}
