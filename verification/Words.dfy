/** Text as words separated by spaces. */
module Words {
  import opened Bytes

  predicate IsSpace(b: byte) { b == 32 || 9 <= b <= 13 }

  /** The first place from `p` on with a space, or the end. */
  function WordEnd(t: seq<byte>, p: nat): (e: nat)
    requires p <= |t|
    ensures p <= e <= |t|
    decreases |t| - p
  {
    if p == |t| || IsSpace(t[p]) then p else WordEnd(t, p + 1)
  }

  /** The first place from `p` on without a space, or the end. */
  function WordStart(t: seq<byte>, p: nat): (e: nat)
    requires p <= |t|
    ensures p <= e <= |t| && (e < |t| ==> !IsSpace(t[e]) && WordEnd(t, e) > e)
    decreases |t| - p
  {
    if p == |t| || !IsSpace(t[p]) then p else WordStart(t, p + 1)
  }

  /** The words of a text from `p` on. */
  function Fields(t: seq<byte>, p: nat): seq<seq<byte>>
    requires p <= |t|
    decreases |t| - p
  {
    var a := WordStart(t, p);
    if a == |t| then [] else [t[a..WordEnd(t, a)]] + Fields(t, WordEnd(t, a))
  }

  lemma {:induction false} AllSpaces(t: seq<byte>, p: nat)
    requires p <= |t| && forall i | p <= i < |t| :: IsSpace(t[i])
    ensures WordStart(t, p) == |t|
    decreases |t| - p
  {
    if p < |t| {
      AllSpaces(t, p + 1);
    }
  }

  lemma {:induction false} StartAppend(t: seq<byte>, u: seq<byte>, p: nat)
    requires p <= |t| && forall i | 0 <= i < |u| :: IsSpace(u[i])
    ensures WordStart(t + u, p) == if WordStart(t, p) < |t| then WordStart(t, p) else |t + u|
    decreases |t + u| - p
  {
    if p < |t| {
      assert (t + u)[p] == t[p];
      if IsSpace(t[p]) {
        StartAppend(t, u, p + 1);
      }
    } else {
      AllSpaces(t + u, p);
    }
  }

  lemma {:induction false} EndAppend(t: seq<byte>, u: seq<byte>, p: nat)
    requires p <= |t| && forall i | 0 <= i < |u| :: IsSpace(u[i])
    ensures WordEnd(t + u, p) == WordEnd(t, p)
    decreases |t| - p
  {
    if p < |t| {
      assert (t + u)[p] == t[p];
      if !IsSpace(t[p]) {
        EndAppend(t, u, p + 1);
      }
    }
  }

  lemma {:induction false} SpacesEnd(t: seq<byte>, u: seq<byte>, p: nat)
    requires p <= |t| && forall i | 0 <= i < |u| :: IsSpace(u[i])
    ensures Fields(t + u, p) == Fields(t, p)
    decreases |t| - p
  {
    StartAppend(t, u, p);
    var a := WordStart(t, p);
    if a < |t| {
      EndAppend(t, u, a);
      assert (t + u)[a..WordEnd(t, a)] == t[a..WordEnd(t, a)];
      SpacesEnd(t, u, WordEnd(t, a));
    }
  }

  lemma {:induction false} StartAgain(t: seq<byte>, p: nat)
    requires p <= |t|
    ensures WordStart(t, WordStart(t, p)) == WordStart(t, p) && Fields(t, WordStart(t, p)) == Fields(t, p)
    decreases |t| - p
  {
    if p < |t| && IsSpace(t[p]) {
      StartAgain(t, p + 1);
    }
  }

  /** A word, and what follows it and its spaces. */
  lemma OneField(t: seq<byte>, a: nat)
    requires a < |t| && WordStart(t, a) == a
    ensures Fields(t, a) == [t[a..WordEnd(t, a)]] + Fields(t, WordStart(t, WordEnd(t, a)))
    ensures a < WordEnd(t, a) && WordStart(t, WordStart(t, WordEnd(t, a))) == WordStart(t, WordEnd(t, a))
  {
    StartAgain(t, WordEnd(t, a));
  }

  lemma {:induction false} EndIsSpace(t: seq<byte>, p: nat)
    requires p <= |t| && WordEnd(t, p) < |t|
    ensures IsSpace(t[WordEnd(t, p)]) && WordStart(t, WordEnd(t, p) + 1) == WordStart(t, WordEnd(t, p))
    decreases |t| - p
  {
    if !IsSpace(t[p]) {
      EndIsSpace(t, p + 1);
    }
  }

  lemma NoField(t: seq<byte>)
    ensures Fields(t, |t|) == []
  {
  }

  lemma StartBeyond(t: seq<byte>, p: nat)
    requires p <= |t|
    ensures WordStart(t, p) >= p
  {
  }

  method EndOfWord(t: seq<byte>, p: nat) returns (q: nat)
    requires p <= |t|
    ensures q == WordEnd(t, p)
  {
    q := p;
    while q < |t| && !IsSpace(t[q])
      invariant p <= q <= |t| && WordEnd(t, q) == WordEnd(t, p)
    {
      q := q + 1;
    }
  }

  method StartOfWord(t: seq<byte>, p: nat) returns (q: nat)
    requires p <= |t|
    ensures q == WordStart(t, p)
  {
    q := p;
    while q < |t| && IsSpace(t[q])
      invariant p <= q <= |t| && WordStart(t, q) == WordStart(t, p)
    {
      q := q + 1;
    }
  }

  // ---------- Words laid out ----------

  predicate Spaces(gap: seq<byte>) {
    forall i | 0 <= i < |gap| :: gap[i] == 32 || 9 <= gap[i] <= 13
  }

  predicate IsWord(word: seq<byte>) {
    word != [] && forall i | 0 <= i < |word| :: !(word[i] == 32 || 9 <= word[i] <= 13)
  }

  /** Words with spaces before, between and after them. */
  function Laid(gaps: seq<seq<byte>>, words: seq<seq<byte>>): seq<byte>
    requires |gaps| == |words| + 1
    decreases |words|
  {
    if words == [] then gaps[0] else gaps[0] + words[0] + Laid(gaps[1..], words[1..])
  }

  predicate WellLaid(gaps: seq<seq<byte>>, words: seq<seq<byte>>) {
    && |gaps| == |words| + 1 && (forall i | 0 <= i < |gaps| :: Spaces(gaps[i]))
    && (forall i | 0 <= i < |words| :: IsWord(words[i])) && (forall i | 1 <= i < |words| :: gaps[i] != [])
  }

  lemma {:induction false} SkipsGap(a: seq<byte>, gap: seq<byte>, z: seq<byte>)
    requires Spaces(gap) && (z == [] || !IsSpace(z[0]))
    ensures WordStart(a + gap + z, |a|) == |a| + |gap|
    decreases |gap|
  {
    var t := a + gap + z;
    if gap != [] {
      assert t[|a|] == gap[0];
      assert t == (a + [gap[0]]) + gap[1..] + z;
      SkipsGap(a + [gap[0]], gap[1..], z);
    } else if z != [] {
      assert t[|a|] == z[0];
    }
  }

  lemma {:induction false} SkipsWord(a: seq<byte>, word: seq<byte>, z: seq<byte>)
    requires (word == [] || IsWord(word)) && (z == [] || IsSpace(z[0]))
    ensures WordEnd(a + word + z, |a|) == |a| + |word|
    decreases |word|
  {
    var t := a + word + z;
    if word != [] {
      assert t[|a|] == word[0];
      assert t == (a + [word[0]]) + word[1..] + z;
      SkipsWord(a + [word[0]], word[1..], z);
    } else if z != [] {
      assert t[|a|] == z[0];
    }
  }

  lemma RestLaid(gaps: seq<seq<byte>>, words: seq<seq<byte>>)
    requires WellLaid(gaps, words) && words != []
    ensures Spaces(gaps[0]) && IsWord(words[0]) && WellLaid(gaps[1..], words[1..])
    ensures var rest := Laid(gaps[1..], words[1..]);
      Laid(gaps, words) == gaps[0] + words[0] + rest && (rest == [] || IsSpace(rest[0]))
  {
    var rest := Laid(gaps[1..], words[1..]);
    assert Spaces(gaps[1]);
    if |words| > 1 {
      assert gaps[1] != [];
      assert rest[0] == gaps[1][0];
    }
  }

  lemma FieldsStep(t: seq<byte>, p: nat, a: nat, e: nat)
    requires p <= |t| && WordStart(t, p) == a && (a < |t| ==> WordEnd(t, a) == e)
    ensures Fields(t, p) == if a == |t| then [] else [t[a..e]] + Fields(t, e)
  {
  }

  lemma LastGap(a: seq<byte>, gap: seq<byte>)
    requires Spaces(gap)
    ensures Fields(a + gap, |a|) == []
  {
    SkipsGap(a, gap, []);
    assert a + gap + [] == a + gap;
    FieldsStep(a + gap, |a|, |a + gap|, 0);
  }

  lemma FirstWord(a: seq<byte>, gap: seq<byte>, word: seq<byte>, rest: seq<byte>)
    requires Spaces(gap) && IsWord(word) && (rest == [] || IsSpace(rest[0]))
    ensures Fields(a + (gap + word + rest), |a|) == [word] + Fields((a + gap + word) + rest, |a + gap + word|)
  {
    hide Fields;
    hide WordStart;
    hide WordEnd;
    var t, b := a + (gap + word + rest), a + gap;
    assert t == a + gap + (word + rest) && t == b + word + rest;
    assert (word + rest)[0] == word[0] && !IsSpace(word[0]);
    SkipsGap(a, gap, word + rest);
    SkipsWord(b, word, rest);
    FieldsStep(t, |a|, |b|, |b| + |word|);
    assert t[|b|..|b| + |word|] == word;
  }

  /** The words of a text laid out are those words, whatever the spaces. */
  lemma {:induction false} LaidWords(a: seq<byte>, gaps: seq<seq<byte>>, words: seq<seq<byte>>)
    requires WellLaid(gaps, words)
    ensures Fields(a + Laid(gaps, words), |a|) == words
    decreases |words|
  {
    hide Fields;
    hide IsWord;
    hide Spaces;
    if words == [] {
      LastGap(a, gaps[0]);
    } else {
      var gap, word, rest := gaps[0], words[0], Laid(gaps[1..], words[1..]);
      RestLaid(gaps, words);
      FirstWord(a, gap, word, rest);
      LaidWords(a + gap + word, gaps[1..], words[1..]);
    }
  }
}
