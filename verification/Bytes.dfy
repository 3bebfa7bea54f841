/** Octets, C strings and the big-endian fields of a DNS message. */
module Bytes {

  type byte = b: int | 0 <= b < 256

  const NUL: byte := 0
  const DOT: byte := 46
  const BACKSLASH: byte := 92

  /** Octets of a message header, and of the fixed part of a question. */
  const HFIXEDSZ := 12
  const QFIXEDSZ := 4

  /** A two-octet field read in network order. */
  function U16(m: seq<byte>, i: nat): (v: nat)
    requires i + 2 <= |m|
    ensures v < 0x1_0000
  {
    (m[i] as int) * 256 + m[i + 1]
  }

  /** A four-octet field read in network order. */
  function U32(m: seq<byte>, i: nat): (v: nat)
    requires i + 4 <= |m|
    ensures v < 0x1_0000_0000
  {
    U16(m, i) * 0x1_0000 + U16(m, i + 2)
  }

  /** The value of an unsigned 32-bit word stored into a signed int. */
  function Signed32(v: nat): (r: int)
    requires v < 0x1_0000_0000
    ensures -0x8000_0000 <= r < 0x8000_0000 && (r == v || r == v - 0x1_0000_0000)
  {
    if v < 0x8000_0000 then v else v - 0x1_0000_0000
  }

  /** Two octets holding the low sixteen bits of `v`, most significant first. */
  function Put16(v: int): (s: seq<byte>)
    ensures |s| == 2 && U16(s, 0) == v % 0x1_0000
  {
    [(v / 256) % 256, v % 256]
  }

  /** The C string in a buffer from `i` on: what comes before the terminator. */
  function StringFrom(buf: seq<byte>, i: nat): (s: seq<byte>)
    requires i <= |buf|
    ensures |s| <= |buf| - i
    decreases |buf| - i
  {
    if i == |buf| || buf[i] == NUL then [] else [buf[i]] + StringFrom(buf, i + 1)
  }

  lemma {:induction false} StringIs(buf: seq<byte>, i: nat)
    requires i <= |buf|
    ensures StringFrom(buf, i) == buf[i..i + |StringFrom(buf, i)|] && NUL !in StringFrom(buf, i)
    ensures i + |StringFrom(buf, i)| < |buf| ==> buf[i + |StringFrom(buf, i)|] == NUL
    decreases |buf| - i
  {
    if i < |buf| && buf[i] != NUL {
      StringIs(buf, i + 1);
    }
  }

  lemma {:induction false} StringUpTo(buf: seq<byte>, i: nat, j: nat)
    requires i <= j <= |buf| && (j < |buf| ==> buf[j] == NUL) && forall m | i <= m < j :: buf[m] != NUL
    ensures StringFrom(buf, i) == buf[i..j]
    decreases j - i
  {
    if i < j {
      StringUpTo(buf, i + 1, j);
    }
  }

  /** The part of a buffer that C's string functions see. */
  function CString(s: seq<byte>): (r: seq<byte>)
    ensures NUL !in r && r <= s
    ensures |r| < |s| ==> s[|r|] == NUL
  {
    StringIs(s, 0);
    StringFrom(s, 0)
  }

  function Lower(b: byte): byte {
    if 65 <= b <= 90 then b + 32 else b
  }

  /** strcasecmp(a, b) == 0 in the C locale. */
  predicate SameName(a: seq<byte>, b: seq<byte>) {
    var x, y := CString(a), CString(b);
    |x| == |y| && forall i | 0 <= i < |x| :: Lower(x[i]) == Lower(y[i])
  }

  lemma ConsAppend<T>(s: seq<T>, x: seq<T>)
    requires s != []
    ensures [s[0]] + (s[1..] + x) == s + x
  {
  }

  lemma AppendAssoc<T>(a: seq<T>, b: seq<T>, c: seq<T>)
    ensures a + (b + c) == a + b + c
  {
  }
}
