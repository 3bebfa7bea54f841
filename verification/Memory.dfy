/** The allocator: every block handed out is live until it is released, and releasing needs a live block. */
module Memory {
  import opened Bytes

  /** A pointer with what its block holds: a finished string, or other storage. */
  datatype Block =
    | Null
    | Str(id: nat, text: seq<byte>)
    | Raw(id: nat)

  /** How many of the first `n` requests are refused. */
  function Refusals(refuses: nat -> bool, n: nat): nat {
    if n == 0 then 0 else Refusals(refuses, n - 1) + (if refuses(n - 1) then 1 else 0)
  }

  /** The `count` requests from `first` on are all granted. */
  ghost predicate Granted(refuses: nat -> bool, first: nat, count: nat) {
    forall i | first <= i < first + count :: !refuses(i)
  }

  lemma {:induction false} GrantedIfNoMore(refuses: nat -> bool, first: nat, count: nat)
    ensures Refusals(refuses, first) <= Refusals(refuses, first + count)
    ensures Granted(refuses, first, count) <==> Refusals(refuses, first + count) == Refusals(refuses, first)
    decreases count
  {
    if count > 0 {
      GrantedIfNoMore(refuses, first, count - 1);
      assert !refuses(first + count - 1) || !Granted(refuses, first, count);
      assert Granted(refuses, first, count) <==> Granted(refuses, first, count - 1) && !refuses(first + count - 1);
    }
  }

  /**
   * The allocator follows a schedule: request number `i`, counted from the first ever made, is refused if `refuses(i)`.
   */
  class Heap {
    const refuses: nat -> bool
    var live: multiset<Block>
    var next: nat
    var asked: nat
    var failures: nat

    /** Blocks are distinct, so `live` holds each at most once and a second release is impossible. */
    ghost predicate Valid()
      reads this
    {
      && Null !in live
      && (forall b | b in live :: b.id < next && live[b] == 1)
      && (forall a, b | a in live && b in live && a.id == b.id :: a == b)
      && failures == Refusals(refuses, asked)
    }

    constructor (refuses: nat -> bool)
      ensures Valid() && this.refuses == refuses && live == multiset{} && asked == 0 && failures == 0
    {
      this.refuses := refuses;
      live, next, asked, failures := multiset{}, 0, 0, 0;
    }

    lemma Counted()
      requires Valid()
      ensures failures == Refusals(refuses, asked) && Null !in live
    {
    }

    /** ares_malloc, which may fail at any call. */
    method Malloc() returns (b: Block)
      requires Valid()
      modifies this
      ensures Valid()
      ensures b == Null || b.Raw?
      ensures b == Null ==> live == old(live) && failures == old(failures) + 1
      ensures b != Null ==> live == old(live) + multiset{b} && failures == old(failures) && b !in old(live)
      ensures asked == old(asked) + 1
    {
      if refuses(asked) {
        b := Null;
        failures := failures + 1;
      } else {
        b := Raw(next);
        live, next := live + multiset{b}, next + 1;
      }
      asked := asked + 1;
    }

    /** Records a block that ares_malloc returned and that now holds a string. */
    method AddString(text: seq<byte>) returns (b: Block)
      requires Valid() && !refuses(asked)
      modifies this
      ensures Valid()
      ensures b.Str? && b.text == text
      ensures live == old(live) + multiset{b} && failures == old(failures) && b !in old(live)
      ensures asked == old(asked) + 1
    {
      b := Str(next, text);
      live, next, asked := live + multiset{b}, next + 1, asked + 1;
    }

    /** Records that ares_malloc returned no block. */
    method Refuse()
      requires Valid() && refuses(asked)
      modifies this
      ensures Valid() && live == old(live) && failures == old(failures) + 1
      ensures asked == old(asked) + 1
    {
      asked, failures := asked + 1, failures + 1;
    }

    /** A copy of a string in a block of its own: ares_malloc, then strncpy. */
    method Duplicate(text: seq<byte>) returns (b: Block)
      requires Valid()
      modifies this
      ensures Valid()
      ensures b == Null || (b.Str? && b.text == CString(text))
      ensures live == (if b == Null then old(live) else old(live) + multiset{b})
      ensures failures == old(failures) + if b == Null then 1 else 0
    {
      b := Null;
      if refuses(asked) { Refuse(); } else { b := AddString(CString(text)); }
    }

    /** ares_free. */
    method Free(b: Block)
      requires Valid()
      requires b == Null || b in live
      modifies this
      ensures Valid()
      ensures live == old(live) - multiset{b} && failures == old(failures) && asked == old(asked)
      ensures b !in live
    {
      live := live - multiset{b};
    }

    /** ares_realloc of storage: the old block stays when there is no new one. */
    method Realloc(b: Block) returns (b': Block)
      requires Valid() && b in live
      modifies this
      ensures Valid()
      ensures b' == Null || b'.Raw?
      ensures live == if b' == Null then old(live) else old(live) - multiset{b} + multiset{b'}
      ensures failures == old(failures) + if b' == Null then 1 else 0
    {
      b' := Malloc();
      if b' != Null { Free(b); }
    }
  }

  // ---------- Accounting ----------

  /** The block that a pointer owns, if it is not null. */
  function One(b: Block): multiset<Block> {
    if b == Null then multiset{} else multiset{b}
  }

  /** Releasing a block that may be null. */
  lemma TakeOne(rest: multiset<Block>, b: Block)
    requires Null !in rest + One(b)
    ensures b == Null || b in rest + One(b)
    ensures rest + One(b) - multiset{b} == rest
  {
  }

  lemma Swap(rest: multiset<Block>, a: Block, b: Block)
    ensures rest + multiset{a} + multiset{b} - multiset{a} == rest + multiset{b}
    ensures a in rest + multiset{a} + multiset{b}
  {
  }

  lemma TakeOut(rest: multiset<Block>, a: Block)
    ensures rest + multiset{a} - multiset{a} == rest && a in rest + multiset{a}
    ensures rest + multiset{} == rest
  {
  }

  lemma Reorder(rest: multiset<Block>, a: Block, b: Block, c: Block)
    ensures rest + (multiset{a} + multiset{b}) + multiset{c} == rest + multiset{c} + multiset{a} + multiset{b}
  {
  }

  lemma Regroup(a: multiset<Block>, b: multiset<Block>, c: multiset<Block>, d: multiset<Block>)
    ensures a + b + c + d == a + (c + b) + d
    ensures a + b + c + d - b == a + c + d
  {
  }
}
