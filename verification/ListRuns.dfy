/** Any sequence of insertions and removals on any number of lists, as a sequence of changes to abstract sequences. */
module ListRuns {
  import opened Lists

  /** Insertion in front of a node (at the end of the list, if that node is its head), or removal. */
  datatype Op = Put(n: Node, target: Node) | Take(n: Node)

  /** The lists as sequences, each starting with its head, and the head of the list that a node is in. */
  datatype Shape = Shape(owner: map<Node, Node>, rings: map<Node, seq<Node>>)

  /** What the callers of the list functions keep to: a node is in one list at a time, and heads stay where they are. */
  ghost predicate Legal(nodes: set<Node>, s: Shape, op: Op) {
    match op
    case Put(n, target) => n in nodes && n !in s.owner && target in s.owner
    case Take(n) => n in nodes && n !in s.rings
  }

  /** The place of a node in a ring, where something inserted in front of it goes. */
  ghost function Place(r: seq<Node>, n: Node): (k: nat)
    requires n in r
    ensures 0 < k <= |r| && n == r[if k == |r| then 0 else k]
  {
    if n == r[0] then |r| else var k :| 0 <= k < |r| && r[k] == n; k
  }

  ghost function Apply(s: Shape, op: Op): Shape {
    match op
    case Put(n, target) =>
      if target in s.owner && s.owner[target] in s.rings && target in s.rings[s.owner[target]] then
        var h := s.owner[target];
        Shape(s.owner[n := h], s.rings[h := InsertAt(s.rings[h], Place(s.rings[h], target), n)])
      else s
    case Take(n) => Shape(s.owner - {n}, map h | h in s.rings :: Without(s.rings[h], n))
  }

  ghost function After(s: Shape, ops: seq<Op>): Shape {
    if ops == [] then s else Apply(After(s, ops[..|ops| - 1]), ops[|ops| - 1])
  }

  ghost predicate AllLegal(nodes: set<Node>, s: Shape, ops: seq<Op>) {
    forall i | 0 <= i < |ops| :: Legal(nodes, After(s, ops[..i]), ops[i])
  }

  /** One operation on the pointers. */
  method Perform(w: World, op: Op)
    requires w.Valid() && Legal(w.nodes, Shape(w.owner, w.rings), op)
    modifies w, w.nodes
    ensures w.Valid() && w.nodes == old(w.nodes)
    ensures Shape(w.owner, w.rings) == Apply(old(Shape(w.owner, w.rings)), op)
  {
    hide Without;
    hide InsertAt;
    hide World.Valid;
    w.IsTidy();
    match op {
      case Put(n, target) =>
        InRing(w.nodes, w.owner, w.rings, target);
        ghost var h := w.owner[target];
        w.Insert(n, target, h, Place(w.rings[h], target));
      case Take(n) => w.Remove(n);
    }
  }

  /** After any sequence of operations the pointers are circles again, and they are the sequences that result. */
  method Run(w: World, ops: seq<Op>)
    requires w.Valid() && AllLegal(w.nodes, Shape(w.owner, w.rings), ops)
    modifies w, w.nodes
    ensures w.Valid() && w.nodes == old(w.nodes)
    ensures Shape(w.owner, w.rings) == After(old(Shape(w.owner, w.rings)), ops)
  {
    hide World.Valid;
    hide Apply;
    ghost var s := Shape(w.owner, w.rings);
    var i := 0;
    while i < |ops|
      invariant i <= |ops| && w.Valid() && w.nodes == old(w.nodes)
      invariant Shape(w.owner, w.rings) == After(s, ops[..i])
    {
      Perform(w, ops[i]);
      i := i + 1;
      assert ops[..i][..i - 1] == ops[..i - 1];
    }
    assert ops[..i] == ops;
  }

  lemma {:induction false} NotIn(r: seq<Node>, n: Node)
    ensures n !in Without(r, n)
  {
    if r != [] {
      NotIn(r[1..], n);
    }
  }

  /** Removing a node again changes nothing. */
  lemma TakeTwice(s: Shape, n: Node)
    ensures Apply(Apply(s, Take(n)), Take(n)) == Apply(s, Take(n))
  {
    var t := Apply(s, Take(n));
    forall h | h in t.rings ensures Without(t.rings[h], n) == t.rings[h] {
      NotIn(s.rings[h], n);
      WithoutAbsent(t.rings[h], n);
    }
    assert Apply(t, Take(n)).rings == t.rings;
  }

  lemma {:induction false} WithoutAppend(u: seq<Node>, v: seq<Node>, n: Node)
    ensures Without(u + v, n) == Without(u, n) + Without(v, n)
  {
    if u == [] {
      assert u + v == v;
    } else {
      assert (u + v)[1..] == u[1..] + v;
      WithoutAppend(u[1..], v, n);
    }
  }

  lemma WithoutItself(n: Node)
    ensures Without([n], n) == []
  {
  }

  lemma InsertThenWithout(r: seq<Node>, k: nat, n: Node)
    requires k <= |r| && n !in r
    ensures Without(InsertAt(r, k, n), n) == r
  {
    hide Without;
    WithoutAppend(r[..k] + [n], r[k..], n);
    WithoutAppend(r[..k], [n], n);
    WithoutAbsent(r[..k], n);
    WithoutAbsent(r[k..], n);
    WithoutItself(n);
    assert r[..k] + [] + r[k..] == r;
  }

  /** In tidy lists a node without an owner is in none. */
  lemma NowhereYet(nodes: set<Node>, s: Shape, n: Node)
    requires Tidy(nodes, s.owner, s.rings) && n !in s.owner
    ensures forall h | h in s.rings :: n !in s.rings[h] && Without(s.rings[h], n) == s.rings[h]
  {
    hide Without;
    forall h | h in s.rings ensures n !in s.rings[h] && Without(s.rings[h], n) == s.rings[h] {
      RingNodes(nodes, s.owner, s.rings, h);
      WithoutAbsent(s.rings[h], n);
    }
  }

  lemma Undone(s: Shape, n: Node, h: Node, target: Node)
    requires n !in s.owner && target in s.owner && s.owner[target] == h && h in s.rings && target in s.rings[h]
    requires forall g | g in s.rings :: n !in s.rings[g] && Without(s.rings[g], n) == s.rings[g]
    ensures Apply(Apply(s, Put(n, target)), Take(n)) == s
  {
    hide Without;
    hide InsertAt;
    var k := Place(s.rings[h], target);
    InsertThenWithout(s.rings[h], k, n);
    var t := Apply(s, Put(n, target));
    assert t.rings == s.rings[h := InsertAt(s.rings[h], k, n)];
    var u := Apply(t, Take(n));
    assert u.rings == s.rings;
    assert u.owner == s.owner;
  }

  /** A removal undoes an insertion, wherever it was made. */
  lemma PutThenTake(nodes: set<Node>, s: Shape, n: Node, target: Node)
    requires Tidy(nodes, s.owner, s.rings) && Legal(nodes, s, Put(n, target))
    ensures Apply(Apply(s, Put(n, target)), Take(n)) == s
  {
    InRing(nodes, s.owner, s.rings, target);
    NowhereYet(nodes, s, n);
    Undone(s, n, s.owner[target], target);
  }
}
