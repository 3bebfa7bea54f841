/** sort_addresses and sort6_addresses: the addresses of a host entry in the order of the channel's sortlist. */
module SortAddresses {
  import opened Ares
  import opened Bytes

  /** A sortlist entry: an address with a mask, or with the number of leading bits that count. */
  datatype Pattern = Pattern(family: Family, isMask: bool, addr: seq<byte>, mask: seq<byte>, bits: nat)

  /** The bits that two numbers of `n` bits have in common. */
  function Common(x: nat, y: nat, n: nat): (z: nat)
    ensures z <= x && z <= y
  {
    if n == 0 then 0 else 2 * Common(x / 2, y / 2, n - 1) + (if x % 2 == 1 && y % 2 == 1 then 1 else 0)
  }

  function And(x: byte, y: byte): byte {
    Common(x, y, 8)
  }

  /** The address with the bits outside the mask cleared. */
  function Masked(a: seq<byte>, m: seq<byte>): seq<byte> {
    if |a| != |m| then a else seq(|a|, i requires 0 <= i < |a| => And(a[i], m[i]))
  }

  /** A number without its last `n` bits. */
  function Without(x: nat, n: nat): nat {
    if n == 0 then x else Without(x / 2, n - 1)
  }

  /** The first `bits` bits of two addresses agree (ares__bitncmp gives 0). */
  predicate SameBits(a: seq<byte>, b: seq<byte>, bits: nat) {
    var n, r := bits / 8, bits % 8;
    && n <= |a| && n <= |b| && a[..n] == b[..n]
    && (r == 0 || (n < |a| && n < |b| && Without(a[n], 8 - r) == Without(b[n], 8 - r)))
  }

  /** A mask is used with IPv4 only. */
  predicate Matches(family: Family, a: seq<byte>, p: Pattern) {
    && p.family == family
    && if family == INET && p.isMask then Masked(a, p.mask) == p.addr else SameBits(a, p.addr, p.bits)
  }

  /** The first entry from `i` on that matches, or the length of the list. */
  function IndexFrom(family: Family, a: seq<byte>, sortlist: seq<Pattern>, i: nat): (k: nat)
    requires i <= |sortlist|
    ensures i <= k <= |sortlist|
    decreases |sortlist| - i
  {
    if i == |sortlist| || Matches(family, a, sortlist[i]) then i else IndexFrom(family, a, sortlist, i + 1)
  }

  function Index(family: Family, a: seq<byte>, sortlist: seq<Pattern>): nat {
    IndexFrom(family, a, sortlist, 0)
  }

  /** get_address_index and get6_address_index. */
  method AddressIndex(family: Family, a: seq<byte>, sortlist: seq<Pattern>) returns (k: nat)
    ensures k <= |sortlist|
    ensures k < |sortlist| ==> Matches(family, a, sortlist[k])
    ensures forall j | 0 <= j < k :: !Matches(family, a, sortlist[j])
    ensures k == Index(family, a, sortlist)
  {
    k := 0;
    while k < |sortlist| && !Matches(family, a, sortlist[k])
      invariant k <= |sortlist|
      invariant forall j | 0 <= j < k :: !Matches(family, a, sortlist[j])
      invariant IndexFrom(family, a, sortlist, k) == Index(family, a, sortlist)
    {
      k := k + 1;
    }
  }

  /** Orders addresses by the sortlist entry they match. */
  datatype Order = Order(family: Family, sortlist: seq<Pattern>) {
    function Key(a: seq<byte>): nat {
      Index(family, a, sortlist)
    }
  }

  ghost predicate Sorted(o: Order, s: seq<seq<byte>>) {
    forall i, j | 0 <= i < j < |s| :: o.Key(s[i]) <= o.Key(s[j])
  }

  /** The addresses with key `k`, in order. */
  function WithKey(o: Order, s: seq<seq<byte>>, k: nat): seq<seq<byte>> {
    if s == [] then []
    else WithKey(o, s[..|s| - 1], k) + (if o.Key(s[|s| - 1]) == k then [s[|s| - 1]] else [])
  }

  /** For every key, the addresses with that key are the same and in the same order. */
  ghost predicate SameByKey(o: Order, s: seq<seq<byte>>, t: seq<seq<byte>>) {
    forall k: nat :: WithKey(o, s, k) == WithKey(o, t, k)
  }

  lemma {:induction false} WithKeyAppend(o: Order, s: seq<seq<byte>>, t: seq<seq<byte>>, k: nat)
    ensures WithKey(o, s + t, k) == WithKey(o, s, k) + WithKey(o, t, k)
    decreases |t|
  {
    if t == [] {
      assert s + t == s;
    } else {
      var u := s + t;
      assert u[..|u| - 1] == s + t[..|t| - 1];
      WithKeyAppend(o, s, t[..|t| - 1], k);
    }
  }

  lemma {:induction false} NoneWithKey(o: Order, s: seq<seq<byte>>, k: nat)
    requires forall i | 0 <= i < |s| :: o.Key(s[i]) != k
    ensures WithKey(o, s, k) == []
  {
    if s != [] {
      NoneWithKey(o, s[..|s| - 1], k);
    }
  }

  /** Two neighbouring stretches without a key in common can change places. */
  lemma SwapStretches(o: Order, v: seq<seq<byte>>, x: seq<byte>, k: nat)
    requires forall i | 0 <= i < |v| :: o.Key(x) < o.Key(v[i])
    ensures WithKey(o, v + [x], k) == WithKey(o, [x] + v, k)
  {
    WithKeyAppend(o, v, [x], k);
    WithKeyAppend(o, [x], v, k);
    if k == o.Key(x) {
      NoneWithKey(o, v, k);
    } else {
      NoneWithKey(o, [x], k);
    }
  }

  lemma WithKeyThree(o: Order, u: seq<seq<byte>>, v: seq<seq<byte>>, w: seq<seq<byte>>, k: nat)
    ensures WithKey(o, u + v + w, k) == WithKey(o, u, k) + WithKey(o, v, k) + WithKey(o, w, k)
  {
    WithKeyAppend(o, u + v, w, k);
    WithKeyAppend(o, u, v, k);
  }

  /** Moving an address in front of others with greater keys changes no key's subsequence. */
  lemma MoveAhead(o: Order, u: seq<seq<byte>>, v: seq<seq<byte>>, x: seq<byte>, w: seq<seq<byte>>)
    requires forall i | 0 <= i < |v| :: o.Key(x) < o.Key(v[i])
    ensures SameByKey(o, u + (v + [x]) + w, u + ([x] + v) + w)
  {
    forall k: nat ensures WithKey(o, u + (v + [x]) + w, k) == WithKey(o, u + ([x] + v) + w, k) {
      WithKeyThree(o, u, v + [x], w, k);
      WithKeyThree(o, u, [x] + v, w, k);
      SwapStretches(o, v, x, k);
    }
  }

  lemma {:induction false} CountByKey(o: Order, s: seq<seq<byte>>, x: seq<byte>)
    ensures multiset(s)[x] == multiset(WithKey(o, s, o.Key(x)))[x]
  {
    hide Order.Key;
    if s != [] {
      var front, y := s[..|s| - 1], s[|s| - 1];
      CountByKey(o, front, x);
      assert s == front + [y];
      assert multiset(s)[x] == multiset(front)[x] + multiset([y])[x];
      if o.Key(y) == o.Key(x) {
        assert WithKey(o, s, o.Key(x)) == WithKey(o, front, o.Key(x)) + [y];
      } else {
        assert x != y;
        assert WithKey(o, s, o.Key(x)) == WithKey(o, front, o.Key(x));
      }
    }
  }

  /** The same subsequence for every key is in particular the same collection. */
  lemma {:induction false} SameCollection(o: Order, s: seq<seq<byte>>, t: seq<seq<byte>>)
    requires SameByKey(o, s, t)
    ensures multiset(s) == multiset(t)
  {
    forall x ensures multiset(s)[x] == multiset(t)[x] {
      CountByKey(o, s, x);
      CountByKey(o, t, x);
      assert WithKey(o, s, o.Key(x)) == WithKey(o, t, o.Key(x));
    }
  }

  lemma LastOf<T>(u: seq<T>, x: T, v: seq<T>, y: T)
    requires u + [x] == v + [y]
    ensures u == v && x == y
  {
    assert |u + [x]| == |v + [y]|;
    assert (u + [x])[|u|] == x && (v + [y])[|v|] == y;
    assert u == (u + [x])[..|u|] && v == (v + [y])[..|v|];
  }

  lemma SameButLast(o: Order, s: seq<seq<byte>>, t: seq<seq<byte>>, k: nat)
    requires s != [] && t != [] && o.Key(s[|s| - 1]) == o.Key(t[|t| - 1]) && WithKey(o, s, k) == WithKey(o, t, k)
    ensures WithKey(o, s[..|s| - 1], k) == WithKey(o, t[..|t| - 1], k)
    ensures k == o.Key(s[|s| - 1]) ==> s[|s| - 1] == t[|t| - 1]
  {
    var u, v := WithKey(o, s[..|s| - 1], k), WithKey(o, t[..|t| - 1], k);
    if k == o.Key(s[|s| - 1]) {
      LastOf(u, s[|s| - 1], v, t[|t| - 1]);
    } else {
      assert u + [] == u && v + [] == v;
    }
  }

  lemma LastKey(o: Order, s: seq<seq<byte>>, t: seq<seq<byte>>)
    requires multiset(s) == multiset(t) && Sorted(o, t) && s != [] && |s| == |t|
    ensures o.Key(s[|s| - 1]) <= o.Key(t[|t| - 1])
  {
    assert s[|s| - 1] in multiset(s);
    assert s[|s| - 1] in t;
  }

  lemma SameLength(o: Order, s: seq<seq<byte>>, t: seq<seq<byte>>)
    requires SameByKey(o, s, t)
    ensures |s| == |t| && multiset(s) == multiset(t)
  {
    SameCollection(o, s, t);
    assert |multiset(s)| == |s| && |multiset(t)| == |t|;
  }

  lemma SortedPrefix(o: Order, s: seq<seq<byte>>, n: nat)
    requires Sorted(o, s) && n <= |s|
    ensures Sorted(o, s[..n])
  {
  }

  lemma SameSplit(o: Order, s: seq<seq<byte>>, t: seq<seq<byte>>)
    requires s != [] && |s| == |t| && SameByKey(o, s, t) && o.Key(s[|s| - 1]) == o.Key(t[|t| - 1])
    ensures SameByKey(o, s[..|s| - 1], t[..|t| - 1]) && s[|s| - 1] == t[|t| - 1]
  {
    hide WithKey;
    hide Index;
    var n := |s| - 1;
    forall k: nat ensures WithKey(o, s[..n], k) == WithKey(o, t[..n], k) {
      SameButLast(o, s, t, k);
    }
    SameButLast(o, s, t, o.Key(s[n]));
  }

  /** A stable sort has only one result. */
  lemma {:induction false} OneResult(o: Order, s: seq<seq<byte>>, t: seq<seq<byte>>)
    requires SameByKey(o, s, t) && Sorted(o, s) && Sorted(o, t)
    ensures s == t
    decreases |s|
  {
    hide SameByKey;
    hide Sorted;
    hide Index;
    SameLength(o, s, t);
    if s != [] {
      var n := |s| - 1;
      LastKey(o, s, t);
      LastKey(o, t, s);
      SameSplit(o, s, t);
      SortedPrefix(o, s, n);
      SortedPrefix(o, t, n);
      OneResult(o, s[..n], t[..n]);
      assert s == s[..n] + [s[n]] && t == t[..n] + [t[n]];
    }
  }

  /** `s` with the element at `i` moved back to `j`. */
  function MovedBack(s: seq<seq<byte>>, j: nat, i: nat): seq<seq<byte>>
    requires j <= i < |s|
  {
    s[..j] + [s[i]] + s[j..i] + s[i + 1..]
  }

  lemma MovedSorted(o: Order, s: seq<seq<byte>>, j: nat, i: nat)
    requires j <= i < |s| && Sorted(o, s[..i])
    requires forall m | j <= m < i :: o.Key(s[i]) < o.Key(s[m])
    requires j > 0 ==> o.Key(s[j - 1]) <= o.Key(s[i])
    ensures Sorted(o, MovedBack(s, j, i)[..i + 1])
  {
    hide Index;
    var t := MovedBack(s, j, i)[..i + 1];
    forall p, q | 0 <= p < q < |t| ensures o.Key(t[p]) <= o.Key(t[q]) {
      ghost var from := m => if m < j then m else if m == j then i else m - 1;
      assert t[p] == s[from(p)] && t[q] == s[from(q)];
      if from(p) < i && from(q) < i {
        assert s[from(p)] == s[..i][from(p)] && s[from(q)] == s[..i][from(q)];
      } else if p < j {
        assert s[p] == s[..i][p] && s[j - 1] == s[..i][j - 1];
      }
    }
  }

  lemma Moved(o: Order, s: seq<seq<byte>>, j: nat, i: nat)
    requires j <= i < |s| && Sorted(o, s[..i])
    requires forall m | j <= m < i :: o.Key(s[i]) < o.Key(s[m])
    requires j > 0 ==> o.Key(s[j - 1]) <= o.Key(s[i])
    ensures Sorted(o, MovedBack(s, j, i)[..i + 1])
    ensures SameByKey(o, s, MovedBack(s, j, i))
  {
    MoveAhead(o, s[..j], s[j..i], s[i], s[i + 1..]);
    assert s == s[..j] + (s[j..i] + [s[i]]) + s[i + 1..];
    assert MovedBack(s, j, i) == s[..j] + ([s[i]] + s[j..i]) + s[i + 1..];
    MovedSorted(o, s, j, i);
  }

  lemma IsMovedBack(s: seq<seq<byte>>, t: seq<seq<byte>>, j: nat, i: nat)
    requires j <= i < |s| == |t| && t[j] == s[i]
    requires forall m | 0 <= m < |s| && (m < j || m > i) :: t[m] == s[m]
    requires forall m | j < m <= i :: t[m] == s[m - 1]
    ensures t == MovedBack(s, j, i)
  {
  }

  /** One round of the outer loop: the address at `i` moves back past those with greater keys. */
  method InsertAt(a: array<seq<byte>>, i: nat, family: Family, sortlist: seq<Pattern>)
    requires i < a.Length && Sorted(Order(family, sortlist), a[..i])
    modifies a
    ensures Sorted(Order(family, sortlist), a[..i + 1])
    ensures SameByKey(Order(family, sortlist), old(a[..]), a[..])
  {
    hide Index;
    hide Sorted;
    hide SameByKey;
    ghost var o := Order(family, sortlist);
    ghost var was := a[..];
    var x := a[i];
    var key := AddressIndex(family, x, sortlist);
    var j := i;
    var stop := false;
    while j > 0 && !stop
      invariant 0 <= j <= i
      invariant forall m | 0 <= m < a.Length && (m <= j || m > i) && m != j :: a[m] == was[m]
      invariant forall m | j < m <= i :: a[m] == was[m - 1]
      invariant j == i ==> a[j] == was[j]
      invariant forall m | j <= m < i :: key < o.Key(was[m])
      invariant stop ==> j > 0 && o.Key(was[j - 1]) <= key
      decreases j, !stop
    {
      var y := a[j - 1];
      var other := AddressIndex(family, y, sortlist);
      if other <= key {
        stop := true;
      } else {
        a[j] := y;
        j := j - 1;
      }
    }
    a[j] := x;
    IsMovedBack(was, a[..], j, i);
    Moved(o, was, j, i);
    assert a[..i + 1] == a[..][..i + 1];
  }

  /** sort_addresses and sort6_addresses: the stable sort by first matching entry, unmatched addresses last. */
  method Sort(a: array<seq<byte>>, family: Family, sortlist: seq<Pattern>)
    modifies a
    ensures Sorted(Order(family, sortlist), a[..])
    ensures SameByKey(Order(family, sortlist), old(a[..]), a[..])
    ensures multiset(a[..]) == multiset(old(a[..]))
  {
    ghost var o := Order(family, sortlist);
    var i := 0;
    while i < a.Length
      invariant i <= a.Length
      invariant Sorted(o, a[..i])
      invariant SameByKey(o, old(a[..]), a[..])
    {
      InsertAt(a, i, family, sortlist);
      i := i + 1;
    }
    assert a[..i] == a[..];
    SameCollection(o, old(a[..]), a[..]);
  }
}
