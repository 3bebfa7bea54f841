/** Which names are addresses themselves, and are not looked up. */
module Literals {
  import opened Ares
  import opened Bytes
  import opened Lookup
  import opened HostLookup

  predicate AllDigits(s: seq<byte>) {
    forall i | 0 <= i < |s| :: 48 <= s[i] <= 57
  }

  /** Four runs of digits with dots between them; a run may be empty. */
  ghost predicate IsQuad(name: seq<byte>, a: seq<byte>, b: seq<byte>, c: seq<byte>, d: seq<byte>) {
    AllDigits(a) && AllDigits(b) && AllDigits(c) && AllDigits(d) && name == a + [46] + b + [46] + c + [46] + d
  }

  predicate DigitsAndDots(s: seq<byte>) {
    forall i | 0 <= i < |s| :: 48 <= s[i] <= 57 || s[i] == 46
  }

  lemma {:induction false} DotsAppend(u: seq<byte>, v: seq<byte>)
    ensures Dots(u + v) == Dots(u) + Dots(v)
    decreases |v|
  {
    if v == [] {
      assert u + v == u;
    } else {
      var w := u + v;
      assert w[..|w| - 1] == u + v[..|v| - 1];
      DotsAppend(u, v[..|v| - 1]);
    }
  }

  lemma {:induction false} NoDots(s: seq<byte>)
    requires AllDigits(s)
    ensures Dots(s) == 0
  {
    if s != [] {
      NoDots(s[..|s| - 1]);
    }
  }

  lemma OneDot()
    ensures Dots([46]) == 1
  {
    assert [46][..0] == [];
  }

  /** The run after the last dot. */
  lemma {:induction false} LastRun(s: seq<byte>) returns (u: seq<byte>, v: seq<byte>)
    requires DigitsAndDots(s)
    ensures Dots(s) == 0 ==> AllDigits(s)
    ensures Dots(s) > 0 ==> s == u + [46] + v && DigitsAndDots(u) && AllDigits(v) && Dots(u) + 1 == Dots(s)
  {
    u, v := [], [];
    if s != [] {
      var front, last := s[..|s| - 1], s[|s| - 1];
      if last == 46 {
        u := front;
        assert s == u + [46] + v;
      } else {
        u, v := LastRun(front);
        v := v + [last];
        assert Dots(s) > 0 ==> s == u + [46] + v;
      }
    }
  }

  lemma QuadIsNumeric(name: seq<byte>, a: seq<byte>, b: seq<byte>, c: seq<byte>, d: seq<byte>)
    requires IsQuad(name, a, b, c, d)
    ensures LooksNumeric(name)
  {
    hide Dots;
    NoDots(a);
    NoDots(b);
    NoDots(c);
    NoDots(d);
    OneDot();
    DotsAppend(a, [46]);
    DotsAppend(a + [46], b);
    DotsAppend(a + [46] + b, [46]);
    DotsAppend(a + [46] + b + [46], c);
    DotsAppend(a + [46] + b + [46] + c, [46]);
    DotsAppend(a + [46] + b + [46] + c + [46], d);
  }

  /** The scan takes exactly the names of that shape for numeric. */
  lemma NumericIsQuad(name: seq<byte>)
    ensures LooksNumeric(name) <==> exists a, b, c, d :: IsQuad(name, a, b, c, d)
  {
    hide Dots;
    if LooksNumeric(name) {
      var r3, d := LastRun(name);
      var r2, c := LastRun(r3);
      var a, b := LastRun(r2);
      var u, v := LastRun(a);
      assert IsQuad(name, a, b, c, d);
    }
    if a, b, c, d :| IsQuad(name, a, b, c, d) {
      QuadIsNumeric(name, a, b, c, d);
    }
  }

  /**
   * A name is taken for an address exactly if one family is asked for, and it is a dotted quad that denotes an IPv4
   * address, or IPv6 is asked for and it denotes an IPv6 address; the entry then has that one address.
   */
  lemma LiteralIs(conv: Conv, want: Want, name: seq<byte>)
    ensures var quad := (exists a, b, c, d :: IsQuad(name, a, b, c, d)) && conv.v4(name).Some?;
      && (Literal(conv, want, name).Some? <==>
            (want in {Only(INET), Only(INET6)} && quad) || (want == Only(INET6) && conv.v6(name).Some?))
      && (Literal(conv, want, name).Some? ==>
            Literal(conv, want, name).value ==
            if quad then Entry(name, INET, [conv.v4(name).value]) else Entry(name, INET6, [conv.v6(name).value]))
  {
    hide LooksNumeric;
    NumericIsQuad(name);
    assert want.Only? ==> want.family == INET || want.family == INET6;
  }
}
