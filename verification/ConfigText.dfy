/** The text of resolver options and of search lists, as set_options and set_search read it. */
module ConfigText {
  import opened Ares
  import opened Bytes
  import opened Words
  import opened Numbers

  // ---------- Search lists ----------

  lemma PieceEnds(t: seq<byte>, p: nat)
    requires p < |t|
    ensures WordStart(t, WordEnd(t, p)) > p
  {
  }

  /** The domains of a text: its words, and an empty one in front if it begins with a space. */
  function Pieces(t: seq<byte>, p: nat): seq<seq<byte>>
    requires p <= |t|
    decreases |t| - p, if p < |t| && IsSpace(t[p]) then 1 else 0
  {
    if p == |t| then []
    else
      var q := WordEnd(t, p);
      var next := WordStart(t, q);
      PieceEnds(t, p);
      [t[p..q]] + Pieces(t, next)
  }

  lemma OnePiece(t: seq<byte>, p: nat)
    requires p < |t|
    ensures WordStart(t, WordEnd(t, p)) > p
    ensures Pieces(t, p) == [t[p..WordEnd(t, p)]] + Pieces(t, WordStart(t, WordEnd(t, p)))
  {
    PieceEnds(t, p);
  }

  lemma NoPieces(t: seq<byte>)
    ensures Pieces(t, |t|) == []
  {
  }

  /** The fields from a place on, in terms of the piece there. */
  lemma FieldsFromSpace(t: seq<byte>, p: nat)
    requires p < |t|
    ensures var q, next := WordEnd(t, p), WordStart(t, WordEnd(t, p));
      && (next < |t| ==> !IsSpace(t[next]))
      && if IsSpace(t[p]) then t[p..q] == [] && Fields(t, p) == Fields(t, next)
         else Fields(t, p) == [t[p..q]] + Fields(t, next)
  {
    hide Fields;
    StartAgain(t, p);
    if !IsSpace(t[p]) {
      OneField(t, p);
    }
  }

  /** After the first, every piece is a word. */
  lemma {:induction false} PiecesAreFields(t: seq<byte>, p: nat)
    requires p <= |t|
    ensures Pieces(t, p) == (if p < |t| && IsSpace(t[p]) then [[]] else []) + Fields(t, p)
    decreases |t| - p
  {
    hide Pieces;
    hide Fields;
    if p < |t| {
      var q := WordEnd(t, p);
      var next := WordStart(t, q);
      OnePiece(t, p);
      PiecesAreFields(t, next);
      FieldsFromSpace(t, p);
    } else {
      NoPieces(t);
      NoField(t);
    }
  }

  /** set_search: the pass that copies stores as many domains as the pass that counts has counted. */
  method SplitSearch(t: seq<byte>) returns (domains: seq<seq<byte>>)
    ensures domains == Pieces(t, 0)
  {
    hide Pieces;
    NoPieces(t);
    var n, p := 0, 0;
    while p < |t|
      invariant p <= |t| && n + |Pieces(t, p)| == |Pieces(t, 0)|
    {
      OnePiece(t, p);
      p := EndOfWord(t, p);
      p := StartOfWord(t, p);
      n := n + 1;
    }
    var room := new seq<byte>[n](_ => []);
    ghost var whole := Pieces(t, 0);
    var i := 0;
    p := 0;
    while p < |t|
      invariant p <= |t| && i + |Pieces(t, p)| == n && Pieces(t, p) == whole[i..]
      invariant room[..i] == whole[..i]
      decreases |t| - p
    {
      OnePiece(t, p);
      var q := EndOfWord(t, p);
      ghost var rest := Pieces(t, p);
      assert whole[i] == rest[0] && whole[i + 1..] == rest[1..];
      room[i] := t[p..q];
      i := i + 1;
      p := StartOfWord(t, q);
    }
    domains := room[..];
  }

  // ---------- Options ----------

  /** A word of RES_OPTIONS or of an options line that the resolver knows. */
  datatype Word = NdotsWord(value: int) | RetransWord(value: int) | RetryWord(value: int) | RotateWord

  const NDOTS_TEXT: seq<byte> := [110, 100, 111, 116, 115, 58]
  const RETRANS_TEXT: seq<byte> := [114, 101, 116, 114, 97, 110, 115, 58]
  const RETRY_TEXT: seq<byte> := [114, 101, 116, 114, 121, 58]
  const ROTATE_TEXT: seq<byte> := [114, 111, 116, 97, 116, 101]

  /** The mask of aresx_sltosi clears the sign bit. */
  function Number(t: seq<byte>, p: nat): (n: int)
    requires p <= |t|
    ensures 0 <= n < 0x8000_0000
  {
    Strtol(t, p) % 0x8000_0000
  }

  /** try_option: the word from `p` to `q` begins with `opt`. */
  predicate Begins(t: seq<byte>, p: nat, q: nat, opt: seq<byte>)
    requires p <= q <= |t|
  {
    q - p >= |opt| && t[p..p + |opt|] == opt
  }

  function KnownWord(t: seq<byte>, p: nat, q: nat): seq<Word>
    requires p <= q <= |t|
  {
    if Begins(t, p, q, NDOTS_TEXT) then [NdotsWord(Number(t, p + |NDOTS_TEXT|))]
    else if Begins(t, p, q, RETRANS_TEXT) then [RetransWord(Number(t, p + |RETRANS_TEXT|))]
    else if Begins(t, p, q, RETRY_TEXT) then [RetryWord(Number(t, p + |RETRY_TEXT|))]
    else if Begins(t, p, q, ROTATE_TEXT) then [RotateWord]
    else []
  }

  /** The words of a text that the resolver knows, in order. */
  function WordsFrom(t: seq<byte>, p: nat): seq<Word>
    requires p <= |t|
    decreases |t| - p
  {
    if p == |t| then []
    else
      PieceEnds(t, p);
      KnownWord(t, p, WordEnd(t, p)) + WordsFrom(t, WordStart(t, WordEnd(t, p)))
  }

  // ---------- Whose number it is ----------

  /**
   * A value begins at `p`, in a word that ends at `q`. It is the word's own exactly if the word goes on there, or if
   * the number that strtol finds further on is 0.
   */
  lemma NumberIsOwn(t: seq<byte>, p: nat, q: nat)
    requires p <= q <= |t| && (q < |t| ==> IsSpace(t[q])) && (p < q ==> !IsSpace(t[p]))
    ensures Number(t, p) == Number(t[..q], p) <==> p < q || Number(t, p) == 0
  {
    hide Strtol;
    if p < q {
      StrtolInWord(t, p, q);
    } else {
      StrtolEnd(t[..q]);
    }
  }

  /** The word from `p` to `q` is the name of an option and nothing else. */
  predicate BareName(t: seq<byte>, p: nat, q: nat)
    requires p <= q <= |t|
  {
    t[p..q] == NDOTS_TEXT || t[p..q] == RETRANS_TEXT || t[p..q] == RETRY_TEXT
  }

  lemma {:induction false} InsideWord(t: seq<byte>, p: nat, i: nat)
    requires p <= |t| && p <= i < WordEnd(t, p)
    ensures !IsSpace(t[i])
    decreases i - p
  {
    if p < i {
      InsideWord(t, p + 1, i);
    }
  }

  lemma ValueIsOwn(t: seq<byte>, p: nat, n: nat)
    requires p <= |t| && p + n <= WordEnd(t, p)
    ensures var q := WordEnd(t, p);
      Number(t, p + n) == Number(t[..q], p + n) <==> p + n < q || Number(t, q) == 0
  {
    hide Number;
    var q := WordEnd(t, p);
    if q < |t| {
      EndIsSpace(t, p);
    }
    if p + n < q {
      InsideWord(t, p, p + n);
    }
    NumberIsOwn(t, p + n, q);
  }

  lemma SameBegin(t: seq<byte>, p: nat, q: nat, opt: seq<byte>)
    requires p <= q <= |t|
    ensures Begins(t[..q], p, q, opt) == Begins(t, p, q, opt)
    ensures Begins(t, p, q, opt) ==> p + |opt| <= q && (t[p..q] == opt <==> p + |opt| == q)
  {
    if q - p >= |opt| {
      assert t[..q][p..p + |opt|] == t[p..p + |opt|];
    }
  }

  /** At most one option's name stands at a place. */
  lemma OneName(t: seq<byte>, p: nat, q: nat)
    requires p <= q <= |t|
    ensures Begins(t, p, q, NDOTS_TEXT) ==> t[p..q] != RETRANS_TEXT && t[p..q] != RETRY_TEXT
    ensures Begins(t, p, q, RETRANS_TEXT) ==> t[p..q] != NDOTS_TEXT && t[p..q] != RETRY_TEXT
    ensures Begins(t, p, q, RETRY_TEXT) ==> t[p..q] != NDOTS_TEXT && t[p..q] != RETRANS_TEXT
    ensures BareName(t, p, q) ==>
      Begins(t, p, q, NDOTS_TEXT) || Begins(t, p, q, RETRANS_TEXT) || Begins(t, p, q, RETRY_TEXT)
  {
    var w := t[p..q];
    if q - p >= 6 {
      assert t[p..p + 6] == w[..6];
      assert NDOTS_TEXT[0] == 110 && RETRY_TEXT[0] == 114 && RETRANS_TEXT[0] == 114;
      assert RETRY_TEXT[4] == 121 && RETRANS_TEXT[4] == 97;
    }
    if q - p >= 8 {
      assert t[p..p + 8] == w[..8];
    }
  }

  /** A word is read as if nothing came after it, unless it is a bare name and another number than 0 comes next. */
  lemma WordIsOwn(t: seq<byte>, p: nat)
    requires p <= |t|
    ensures var q := WordEnd(t, p);
      KnownWord(t, p, q) == KnownWord(t[..q], p, q) <==> !BareName(t, p, q) || Number(t, q) == 0
  {
    hide Number;
    hide Begins;
    var q := WordEnd(t, p);
    SameBegin(t, p, q, NDOTS_TEXT);
    SameBegin(t, p, q, RETRANS_TEXT);
    SameBegin(t, p, q, RETRY_TEXT);
    SameBegin(t, p, q, ROTATE_TEXT);
    OneName(t, p, q);
    if Begins(t, p, q, NDOTS_TEXT) { ValueIsOwn(t, p, |NDOTS_TEXT|); }
    if Begins(t, p, q, RETRANS_TEXT) { ValueIsOwn(t, p, |RETRANS_TEXT|); }
    if Begins(t, p, q, RETRY_TEXT) { ValueIsOwn(t, p, |RETRY_TEXT|); }
  }

  /** The words of a text, each read as if nothing came after it. */
  function OwnWords(t: seq<byte>, p: nat): seq<Word>
    requires p <= |t|
    decreases |t| - p
  {
    if p == |t| then []
    else
      PieceEnds(t, p);
      var q := WordEnd(t, p);
      KnownWord(t[..q], p, q) + OwnWords(t, WordStart(t, q))
  }

  /** No bare name of an option stands before a number other than 0. */
  ghost predicate NumbersAttached(t: seq<byte>, p: nat)
    requires p <= |t|
    decreases |t| - p
  {
    p == |t| ||
    (PieceEnds(t, p);
     var q := WordEnd(t, p);
     (BareName(t, p, q) ==> Number(t, q) == 0) && NumbersAttached(t, WordStart(t, q)))
  }

  lemma KnownLength(t: seq<byte>, p: nat, q: nat)
    requires p <= q <= |t|
    ensures |KnownWord(t, p, q)| == |KnownWord(t[..q], p, q)|
  {
    hide Number;
    hide Begins;
    SameBegin(t, p, q, NDOTS_TEXT);
    SameBegin(t, p, q, RETRANS_TEXT);
    SameBegin(t, p, q, RETRY_TEXT);
    SameBegin(t, p, q, ROTATE_TEXT);
  }

  lemma SplitEqual<T>(a: seq<T>, b: seq<T>, x: seq<T>, y: seq<T>)
    requires |a| == |x|
    ensures a + b == x + y <==> a == x && b == y
  {
    if a + b == x + y {
      assert a == (a + b)[..|a|] && b == (a + b)[|a|..];
      assert x == (x + y)[..|a|] && y == (x + y)[|a|..];
    }
  }

  /** A whole text is read word by word exactly if no bare name stands before a number other than 0. */
  lemma {:induction false} WordsAreOwn(t: seq<byte>, p: nat)
    requires p <= |t|
    ensures WordsFrom(t, p) == OwnWords(t, p) <==> NumbersAttached(t, p)
    decreases |t| - p
  {
    hide KnownWord;
    hide BareName;
    hide Number;
    if p < |t| {
      var q := WordEnd(t, p);
      PieceEnds(t, p);
      WordIsOwn(t, p);
      KnownLength(t, p, q);
      WordsAreOwn(t, WordStart(t, q));
      var next := WordStart(t, q);
      SplitEqual(KnownWord(t, p, q), WordsFrom(t, next), KnownWord(t[..q], p, q), OwnWords(t, next));
    }
  }

  /** A number may follow its name after a space, for strtol reads on. */
  lemma SpaceBeforeNumber()
    ensures WordsFrom(NDOTS_TEXT + [32, 53], 0) == [NdotsWord(5)]
  {
    var t: seq<byte> := [110, 100, 111, 116, 115, 58, 32, 53];
    assert NDOTS_TEXT + [32, 53] == t;
    assert WordEnd(t, 6) == 6 && WordEnd(t, 5) == 6 && WordEnd(t, 4) == 6 && WordEnd(t, 3) == 6;
    assert WordEnd(t, 2) == 6 && WordEnd(t, 1) == 6 && WordEnd(t, 0) == 6;
    assert WordStart(t, 7) == 7 && WordStart(t, 6) == 7 && WordEnd(t, 7) == 8 && WordStart(t, 8) == 8;
    assert t[0..6] == NDOTS_TEXT;
    assert Decimal(t, 8, 5) == 5 && Decimal(t, 7, 0) == 5;
    assert Number(t, 6) == 5;
    assert KnownWord(t, 0, 6) == [NdotsWord(5)];
    assert KnownWord(t, 7, 8) == [];
    assert WordsFrom(t, 7) == KnownWord(t, 7, 8) + WordsFrom(t, 8);
    assert WordsFrom(t, 0) == KnownWord(t, 0, 6) + WordsFrom(t, 7);
  }

  // ---------- Options printed and read back ----------

  /** The octets of a text. */
  function Octets(s: string): seq<byte> {
    seq(|s|, i requires 0 <= i < |s| => s[i] as int % 256)
  }

  lemma OptionNames()
    ensures Octets("ndots:") == NDOTS_TEXT && Octets("retrans:") == RETRANS_TEXT
    ensures Octets("retry:") == RETRY_TEXT && Octets("rotate") == ROTATE_TEXT
  {
  }

  lemma OneWordOnly(t: seq<byte>)
    requires IsWord(t)
    ensures WordEnd(t, 0) == |t| && WordStart(t, |t|) == |t|
    ensures WordsFrom(t, 0) == KnownWord(t, 0, |t|)
  {
    hide KnownWord;
    SkipsWord([], t, []);
    assert [] + t + [] == t;
    PieceEnds(t, 0);
    assert WordsFrom(t, 0) == KnownWord(t, 0, |t|) + WordsFrom(t, |t|);
  }

  lemma NameThenDigits(name: seq<byte>, n: nat)
    requires IsWord(name) && n < 0x8000_0000
    ensures var t := name + Digits(n);
      IsWord(t) && Begins(t, 0, |t|, name) && Number(t, |name|) == n
  {
    hide Strtol;
    hide Digits;
    var t := name + Digits(n);
    DigitsAreDigits(n);
    assert t[0..|name|] == name;
    StrtolDigits(name, n);
  }

  lemma AreWords()
    ensures IsWord(NDOTS_TEXT) && IsWord(RETRANS_TEXT) && IsWord(RETRY_TEXT) && IsWord(ROTATE_TEXT)
  {
  }

  lemma FirstOfNames(d: seq<byte>)
    ensures var t := RETRANS_TEXT + d; !Begins(t, 0, |t|, NDOTS_TEXT)
    ensures var t := RETRY_TEXT + d; !Begins(t, 0, |t|, NDOTS_TEXT) && !Begins(t, 0, |t|, RETRANS_TEXT)
    ensures var t := ROTATE_TEXT;
      && !Begins(t, 0, |t|, NDOTS_TEXT) && !Begins(t, 0, |t|, RETRANS_TEXT) && !Begins(t, 0, |t|, RETRY_TEXT)
      && Begins(t, 0, |t|, ROTATE_TEXT)
  {
    var r, y, o := RETRANS_TEXT + d, RETRY_TEXT + d, ROTATE_TEXT;
    assert r[0] == 114 && y[0] == 114 && y[4] == 121;
    assert |r| >= 6 ==> r[0..6][0] == 114;
    assert y[0..6][0] == 114;
    assert |y| >= 8 ==> y[0..8][4] == 121;
    assert o[0..6] == o && o[1] == 111;
  }

  /** Each option printed is read as itself. */
  lemma OptionsReadBack(n: nat)
    requires n < 0x8000_0000
    ensures WordsFrom(Octets("ndots:") + Digits(n), 0) == [NdotsWord(n)]
    ensures WordsFrom(Octets("retrans:") + Digits(n), 0) == [RetransWord(n)]
    ensures WordsFrom(Octets("retry:") + Digits(n), 0) == [RetryWord(n)]
    ensures WordsFrom(Octets("rotate"), 0) == [RotateWord]
  {
    hide WordsFrom;
    hide Digits;
    hide Number;
    hide IsWord;
    OptionNames();
    hide Octets;
    AreWords();
    var d := Digits(n);
    NameThenDigits(NDOTS_TEXT, n);
    NameThenDigits(RETRANS_TEXT, n);
    NameThenDigits(RETRY_TEXT, n);
    OneWordOnly(NDOTS_TEXT + d);
    OneWordOnly(RETRANS_TEXT + d);
    OneWordOnly(RETRY_TEXT + d);
    OneWordOnly(ROTATE_TEXT);
    FirstOfNames(d);
  }
}
