/** Numbers in text, as strtol reads them, and what a C int keeps of them. */
module Numbers {
  import opened Bytes
  import opened Words

  const PLUS: byte := 43
  const MINUS: byte := 45
  const ZERO: byte := 48

  predicate IsDigit(b: byte) { ZERO <= b <= 57 }

  /** The value of the digits that a text has from `p` on, continuing `v`. */
  function Decimal(t: seq<byte>, p: nat, v: nat): nat
    requires p <= |t|
    decreases |t| - p
  {
    if p == |t| || !IsDigit(t[p]) then v else Decimal(t, p + 1, 10 * v + (t[p] - ZERO))
  }

  const LONG_MAX := 0x7fff_ffff_ffff_ffff

  /** The nearest number that a long of 64 bits holds. */
  function ToLong(v: int): (n: int)
    ensures -LONG_MAX - 1 <= n <= LONG_MAX
  {
    if v > LONG_MAX then LONG_MAX else if v < -LONG_MAX - 1 then -LONG_MAX - 1 else v
  }

  /** strtol with base 10: spaces and a sign may come before the digits. */
  function Strtol(t: seq<byte>, p: nat): (n: int)
    requires p <= |t|
    ensures -LONG_MAX - 1 <= n <= LONG_MAX
  {
    var a := WordStart(t, p);
    ToLong(if a < |t| && t[a] == MINUS then 0 - Decimal(t, a + 1, 0)
           else if a < |t| && t[a] == PLUS then Decimal(t, a + 1, 0)
           else Decimal(t, a, 0))
  }

  /** A long cast to an int of 32 bits. */
  function ToInt(n: int): (i: int)
    ensures -0x8000_0000 <= i < 0x8000_0000 && (i - n) % 0x1_0000_0000 == 0
  {
    Signed32(n % 0x1_0000_0000)
  }

  /** Only the digits up to `hi` matter if the character there is none. */
  lemma {:induction false} DecimalInside(t: seq<byte>, lo: nat, hi: nat, i: nat, v: nat)
    requires lo + i <= hi <= |t| && (hi < |t| ==> !IsDigit(t[hi]))
    ensures Decimal(t, lo + i, v) == Decimal(t[lo..hi], i, v)
    decreases hi - lo - i
  {
    if lo + i < hi && IsDigit(t[lo + i]) {
      DecimalInside(t, lo, hi, i + 1, 10 * v + (t[lo + i] - ZERO));
    }
  }

  /** Nothing but digits to read. */
  lemma StrtolPlain(t: seq<byte>, p: nat)
    requires p <= |t| && (p < |t| ==> !IsSpace(t[p]) && t[p] != PLUS && t[p] != MINUS)
    ensures Strtol(t, p) == ToLong(Decimal(t, p, 0))
  {
  }

  lemma StrtolEnd(t: seq<byte>)
    ensures Strtol(t, |t|) == 0
  {
  }

  /** A number at the start of a word is in that word. */
  lemma StrtolInWord(t: seq<byte>, p: nat, q: nat)
    requires p < q <= |t| && !IsSpace(t[p]) && (q < |t| ==> IsSpace(t[q]))
    ensures Strtol(t, p) == Strtol(t[..q], p)
  {
    assert t[..q] == t[0..q];
    DecimalInside(t, 0, q, p, 0);
    DecimalInside(t, 0, q, p + 1, 0);
  }

  // ---------- Printing and reading back ----------

  /** A number in decimal. */
  function Digits(n: nat): seq<byte> {
    (if n < 10 then [] else Digits(n / 10)) + [ZERO + n % 10]
  }

  lemma {:induction false} DigitsAreDigits(n: nat)
    ensures Digits(n) != [] && forall i | 0 <= i < |Digits(n)| :: IsDigit(Digits(n)[i])
  {
    if n >= 10 {
      DigitsAreDigits(n / 10);
    }
  }

  lemma {:induction false} DecimalOneMore(s: seq<byte>, ch: byte, i: nat, v: nat)
    requires i <= |s| && IsDigit(ch) && forall j | i <= j < |s| :: IsDigit(s[j])
    ensures Decimal(s + [ch], i, v) == 10 * Decimal(s, i, v) + (ch - ZERO)
    decreases |s| - i
  {
    if i < |s| {
      assert (s + [ch])[i] == s[i];
      DecimalOneMore(s, ch, i + 1, 10 * v + (s[i] - ZERO));
    } else {
      assert (s + [ch])[i] == ch;
      assert Decimal(s + [ch], i + 1, 10 * v + (ch - ZERO)) == 10 * v + (ch - ZERO);
    }
  }

  lemma {:induction false} DecimalDigits(u: seq<byte>, n: nat)
    ensures Decimal(u + Digits(n), |u|, 0) == n
  {
    var last: byte := ZERO + n % 10;
    if n < 10 {
      assert Digits(n) == [last];
      DecimalOneMore(u, last, |u|, 0);
    } else {
      DigitsAreDigits(n / 10);
      DecimalDigits(u, n / 10);
      DecimalOneMore(u + Digits(n / 10), last, |u|, 0);
      assert u + Digits(n) == u + Digits(n / 10) + [last];
    }
  }

  lemma StrtolDigits(u: seq<byte>, n: nat)
    ensures Strtol(u + Digits(n), |u|) == ToLong(n)
  {
    DigitsAreDigits(n);
    assert (u + Digits(n))[|u|] == Digits(n)[0];
    StrtolPlain(u + Digits(n), |u|);
    DecimalDigits(u, n);
  }

  lemma DigitsEnd(u: seq<byte>, n: nat, z: seq<byte>)
    requires z == [] || !IsDigit(z[0])
    ensures Decimal(u + Digits(n) + z, |u|, 0) == n
  {
    var t := u + Digits(n);
    assert (t + z)[0..|t|] == t;
    assert z != [] ==> (t + z)[|t|] == z[0];
    DecimalInside(t + z, 0, |t|, |u|, 0);
    DecimalDigits(u, n);
  }

  /** Where a number begins is a digit or a sign. */
  lemma SignThenDigits(sign: seq<byte>, n: nat, z: seq<byte>)
    requires sign in {[], [43], [45]}
    ensures var s := sign + Digits(n) + z;
      s != [] && !IsSpace(s[0]) && s[0] == if sign == [] then Digits(n)[0] else sign[0]
    ensures Digits(n) != [] && IsDigit(Digits(n)[0])
  {
    DigitsAreDigits(n);
  }

  lemma StrtolFrom(t: seq<byte>, p: nat, a: nat)
    requires p <= |t| && WordStart(t, p) == a < |t|
    ensures t[a] == 45 ==> Strtol(t, p) == ToLong(0 - Decimal(t, a + 1, 0))
    ensures t[a] == 43 ==> Strtol(t, p) == ToLong(Decimal(t, a + 1, 0))
    ensures t[a] != 45 && t[a] != 43 ==> Strtol(t, p) == ToLong(Decimal(t, a, 0))
  {
  }

  lemma LongHolds(v: int)
    ensures ToLong(v) == v <==> -0x8000_0000_0000_0000 <= v < 0x8000_0000_0000_0000
  {
  }

  /** Spaces, a sign and digits: the number, as far as a long of 64 bits holds it. */
  lemma StrtolReadsBack(a: seq<byte>, gap: seq<byte>, sign: seq<byte>, n: nat, z: seq<byte>)
    requires Spaces(gap) && sign in {[], [43], [45]} && (z == [] || !IsDigit(z[0]))
    ensures var v := if sign == [45] then 0 - n else n;
      && Strtol(a + gap + sign + Digits(n) + z, |a|) == ToLong(v)
      && (ToLong(v) == v <==> -0x8000_0000_0000_0000 <= v < 0x8000_0000_0000_0000)
  {
    hide Digits;
    hide Decimal;
    hide WordStart;
    hide Strtol;
    hide ToLong;
    var d := Digits(n);
    var t, u, s := a + gap + sign + d + z, a + gap + sign, sign + d + z;
    assert t == a + gap + s && t == u + d + z;
    SignThenDigits(sign, n, z);
    SkipsGap(a, gap, s);
    assert t[|a + gap|] == s[0];
    StrtolFrom(t, |a|, |a + gap|);
    DigitsEnd(u, n, z);
    LongHolds(if sign == [45] then 0 - n else n);
  }
}
