/** Circular doubly linked lists with a dummy head, as pointers and as sequences. */
module Lists {

  class Node {
    var prev: Node?
    var next: Node?
    /** The number of the query the node is part of; a head's is not used. */
    const data: nat

    constructor (d: nat)
      ensures prev == null && next == null && data == d
    {
      prev, next, data := null, null, d;
    }
  }

  /** Going round: the position after the last one is the head's. */
  function After(i: nat, n: nat): nat { if i + 1 >= n then 0 else i + 1 }

  /** The nodes of `r`, head first, point to each other in a circle. */
  ghost predicate Linked(r: seq<Node>)
    reads r
  {
    forall i | 0 <= i < |r| :: r[i].next == r[After(i, |r|)] && r[After(i, |r|)].prev == r[i]
  }

  ghost predicate Distinct(r: seq<Node>) {
    forall i, j | 0 <= i < j < |r| :: r[i] != r[j]
  }

  function InsertAt(r: seq<Node>, k: nat, n: Node): seq<Node>
    requires k <= |r|
  {
    r[..k] + [n] + r[k..]
  }

  function RemoveAt(r: seq<Node>, k: nat): seq<Node>
    requires k < |r|
  {
    r[..k] + r[k + 1..]
  }

  lemma InsertIndex(r: seq<Node>, k: nat, n: Node, i: nat)
    requires k <= |r| && i <= |r|
    ensures |InsertAt(r, k, n)| == |r| + 1
    ensures InsertAt(r, k, n)[i] == if i < k then r[i] else if i == k then n else r[i - 1]
  {
  }

  lemma RemoveIndex(r: seq<Node>, k: nat, i: nat)
    requires k < |r| && i < |r| - 1
    ensures |RemoveAt(r, k)| == |r| - 1
    ensures RemoveAt(r, k)[i] == if i < k then r[i] else r[i + 1]
  {
  }

  twostate lemma StaysLinked(r: seq<Node>)
    requires old(Linked(r)) && forall m | m in r :: m.next == old(m.next) && m.prev == old(m.prev)
    ensures Linked(r)
  {
    forall i | 0 <= i < |r| ensures r[i].next == r[After(i, |r|)] && r[After(i, |r|)].prev == r[i] {
      assert r[i] in r && r[After(i, |r|)] in r;
    }
  }

  lemma Alone(h: Node)
    requires h.next == h && h.prev == h
    ensures Linked([h])
  {
  }

  /** ares__insert_in_list, on one ring: `old` is the node at `k`, or the head when `k` is past the end. */
  method Splice(node: Node, target: Node, ghost r: seq<Node>, ghost k: nat)
    requires r != [] && Linked(r) && Distinct(r) && node !in r
    requires 0 < k <= |r| && target == r[if k == |r| then 0 else k]
    modifies node, r
    ensures Linked(InsertAt(r, k, node))
  {
    ghost var before := r[k - 1];
    assert target.prev == before && before.next == target by {
      assert r[After(k - 1, |r|)].prev == r[k - 1];
    }
    node.next := target;
    node.prev := target.prev;
    target.prev.next := node;
    target.prev := node;
    ghost var s := InsertAt(r, k, node);
    hide InsertAt;
    forall i | 0 <= i < |s| ensures s[i].next == s[After(i, |s|)] && s[After(i, |s|)].prev == s[i] {
      InsertIndex(r, k, node, i);
      InsertIndex(r, k, node, After(i, |s|));
    }
  }

  /** ares__remove_from_list, on the ring that holds the node. */
  method Unsplice(node: Node, ghost r: seq<Node>, ghost k: nat)
    requires Linked(r) && Distinct(r)
    requires 0 < k < |r| && r[k] == node
    modifies r
    ensures Linked(RemoveAt(r, k))
    ensures node.prev == null && node.next == null
  {
    assert node.prev == r[k - 1] by { assert r[After(k - 1, |r|)].prev == r[k - 1]; }
    assert node.next == r[After(k, |r|)];
    node.prev.next := node.next;
    node.next.prev := node.prev;
    node.prev := null;
    node.next := null;
    ghost var s := RemoveAt(r, k);
    RemoveIndex(r, k, 0);
    hide RemoveAt;
    forall i | 0 <= i < |s| ensures s[i].next == s[After(i, |s|)] && s[After(i, |s|)].prev == s[i] {
      RemoveIndex(r, k, i);
      RemoveIndex(r, k, After(i, |s|));
    }
  }

  /** The head swap of ares_cancel: `copy` takes the place of the head in a ring that is not empty. */
  method SwapHead(head: Node, copy: Node, ghost r: seq<Node>)
    requires |r| > 1 && r[0] == head && Linked(r) && Distinct(r) && copy !in r
    modifies copy, r
    ensures Linked(r[0 := copy])
    ensures head.next == head && head.prev == head
  {
    assert head.next == r[After(0, |r|)];
    assert head.prev == r[|r| - 1] by { assert r[After(|r| - 1, |r|)].prev == r[|r| - 1]; }
    copy.prev := head.prev;
    copy.next := head.next;
    copy.prev.next := copy;
    copy.next.prev := copy;
    head.prev := head;
    head.next := head;
  }

  /** A sequence without a node. */
  function Without(r: seq<Node>, n: Node): seq<Node> {
    if r == [] then [] else (if r[0] == n then [] else [r[0]]) + Without(r[1..], n)
  }

  lemma {:induction false} WithoutAbsent(r: seq<Node>, n: Node)
    requires n !in r
    ensures Without(r, n) == r
  {
    if r != [] { WithoutAbsent(r[1..], n); }
  }

  /** In a ring, leaving a node out is removing it where it stands. */
  lemma {:induction false} WithoutIsRemove(r: seq<Node>, n: Node, k: nat)
    requires k < |r| && r[k] == n && Distinct(r)
    ensures Without(r, n) == RemoveAt(r, k)
  {
    if k == 0 {
      forall i | 0 <= i < |r[1..]| ensures r[1..][i] != n { assert r[0] != r[i + 1]; }
      WithoutAbsent(r[1..], n);
      assert RemoveAt(r, 0) == r[1..];
    } else {
      WithoutIsRemove(r[1..], n, k - 1);
      assert r[0] != r[k];
      assert RemoveAt(r, k) == [r[0]] + RemoveAt(r[1..], k - 1);
    }
  }

  /** A ring as a sequence: its head first, no node twice, and each node known to belong to it. */
  ghost predicate Shaped(h: Node, r: seq<Node>, owner: map<Node, Node>) {
    r != [] && r[0] == h && Distinct(r) && forall i | 0 <= i < |r| :: r[i] in owner && owner[r[i]] == h
  }

  /** Rings and owners agree: every ring's nodes are owned by its head, and every owned node is in its owner's ring. */
  ghost predicate Tidy(nodes: set<Node>, owner: map<Node, Node>, rings: map<Node, seq<Node>>) {
    && owner.Keys <= nodes
    && (forall h | h in rings :: Shaped(h, rings[h], owner))
    && (forall n | n in owner :: owner[n] in rings && n in rings[owner[n]])
  }

  lemma RingNodes(nodes: set<Node>, owner: map<Node, Node>, rings: map<Node, seq<Node>>, h: Node)
    requires Tidy(nodes, owner, rings) && h in rings
    ensures rings[h] != [] && rings[h][0] == h && Distinct(rings[h])
    ensures forall n | n in rings[h] :: n in nodes && n in owner && owner[n] == h
  {
  }

  /** Rings share no node. */
  lemma RingsApart(nodes: set<Node>, owner: map<Node, Node>, rings: map<Node, seq<Node>>, g: Node, h: Node)
    requires Tidy(nodes, owner, rings) && g in rings && h in rings && g != h
    ensures forall n | n in rings[g] :: n !in rings[h]
  {
  }

  /** No other ring shares a node with the ring of `h`, and a node without an owner is in none. */
  lemma OthersApart(nodes: set<Node>, owner: map<Node, Node>, rings: map<Node, seq<Node>>, h: Node)
    requires Tidy(nodes, owner, rings) && h in rings
    ensures forall g, m | g in rings && g != h && m in rings[g] :: m !in rings[h]
    ensures forall g, m | g in rings && m in rings[g] :: m in owner && m in nodes
  {
  }

  lemma InsertMembers(r: seq<Node>, k: nat, n: Node)
    requires k <= |r|
    ensures forall m | m in InsertAt(r, k, n) :: m in r || m == n
  {
  }

  lemma RemoveMembers(r: seq<Node>, k: nat)
    requires k < |r|
    ensures forall m | m in RemoveAt(r, k) :: m in r
  {
  }

  lemma TidyHead(nodes: set<Node>, owner: map<Node, Node>, rings: map<Node, seq<Node>>, h: Node)
    requires Tidy(nodes, owner, rings) && h !in nodes
    ensures Tidy(nodes + {h}, owner[h := h], rings[h := [h]]) && h !in owner && h !in rings
  {
  }

  lemma TidyInsert(nodes: set<Node>, owner: map<Node, Node>, rings: map<Node, seq<Node>>, h: Node, k: nat, n: Node)
    requires Tidy(nodes, owner, rings) && h in rings && 0 < k <= |rings[h]|
    requires n in nodes && n !in owner
    ensures Tidy(nodes, owner[n := h], rings[h := InsertAt(rings[h], k, n)])
  {
    var r, s, owner', rings' := rings[h], InsertAt(rings[h], k, n), owner[n := h], rings[h := InsertAt(rings[h], k, n)];
    forall i | 0 <= i < |s| ensures s[i] in owner' && owner'[s[i]] == h { InsertIndex(r, k, n, i); }
    forall i, j | 0 <= i < j < |s| ensures s[i] != s[j] {
      InsertIndex(r, k, n, i);
      InsertIndex(r, k, n, j);
    }
    InsertIndex(r, k, n, 0);
    InsertIndex(r, k, n, k);
    forall m | m in owner' ensures owner'[m] in rings' && m in rings'[owner'[m]] {
      if m == n {
        assert s[k] == n;
      } else if owner[m] == h {
        var i :| 0 <= i < |r| && r[i] == m;
        InsertIndex(r, k, n, if i < k then i else i + 1);
      }
    }
  }

  lemma TidyRemove(nodes: set<Node>, owner: map<Node, Node>, rings: map<Node, seq<Node>>, h: Node, k: nat)
    requires Tidy(nodes, owner, rings) && h in rings && 0 < k < |rings[h]|
    ensures Tidy(nodes, owner - {rings[h][k]}, rings[h := RemoveAt(rings[h], k)])
  {
    var r, n := rings[h], rings[h][k];
    var s, owner', rings' := RemoveAt(r, k), owner - {n}, rings[h := RemoveAt(r, k)];
    forall i | 0 <= i < |s| ensures s[i] in owner' && owner'[s[i]] == h { RemoveIndex(r, k, i); }
    forall i, j | 0 <= i < j < |s| ensures s[i] != s[j] {
      RemoveIndex(r, k, i);
      RemoveIndex(r, k, j);
    }
    RemoveIndex(r, k, 0);
    forall g | g in rings' ensures Shaped(g, rings'[g], owner') {
      if g != h { RingsApart(nodes, owner, rings, h, g); }
    }
    forall m | m in owner' ensures owner'[m] in rings' && m in rings'[owner'[m]] {
      if owner[m] == h {
        var i :| 0 <= i < |r| && r[i] == m;
        RemoveIndex(r, k, if i < k then i else i - 1);
      }
    }
  }

  /** Owners after the members of `h` have moved to `copy`. */
  ghost function Moved(owner: map<Node, Node>, h: Node, copy: Node): map<Node, Node> {
    (map n | n in owner :: if owner[n] == h && n != h then copy else owner[n])[copy := copy]
  }

  lemma TidySwap(nodes: set<Node>, owner: map<Node, Node>, rings: map<Node, seq<Node>>, h: Node, copy: Node)
    requires Tidy(nodes, owner, rings) && h in rings && copy !in nodes
    ensures Tidy(nodes + {copy}, Moved(owner, h, copy), rings[copy := rings[h][0 := copy]][h := [h]])
  {
    var r, owner' := rings[h], Moved(owner, h, copy);
    var s, rings' := r[0 := copy], rings[copy := r[0 := copy]][h := [h]];
    assert copy !in owner && copy !in rings && copy !in r;
    assert Shaped(copy, s, owner');
    forall g | g in rings' ensures Shaped(g, rings'[g], owner') {
      if g != h && g != copy { RingsApart(nodes, owner, rings, h, g); }
    }
    forall m | m in owner' ensures owner'[m] in rings' && m in rings'[owner'[m]] {
      if m == copy {
        assert s[0] == copy;
      } else if owner[m] == h && m != h {
        var i :| 0 <= i < |r| && r[i] == m;
        assert s[i] == m;
      }
    }
  }

  /** A head that goes away must be the whole of its ring. */
  lemma TidyDrop(nodes: set<Node>, owner: map<Node, Node>, rings: map<Node, seq<Node>>, h: Node)
    requires Tidy(nodes, owner, rings) && h in rings && rings[h] == [h]
    ensures Tidy(nodes - {h}, owner - {h}, rings - {h})
  {
    var owner', rings' := owner - {h}, rings - {h};
    forall g | g in rings' ensures Shaped(g, rings'[g], owner') {
      RingsApart(nodes, owner, rings, g, h);
      assert h in rings[h];
    }
  }

  lemma SwapMembers(r: seq<Node>, copy: Node, s: seq<Node>)
    requires r != [] && s == r[0 := copy]
    ensures forall m | m in s :: m in r || m == copy
  {
  }

  lemma MovedKeys(owner: map<Node, Node>, h: Node, copy: Node)
    ensures Moved(owner, h, copy).Keys == owner.Keys + {copy}
  {
  }

  lemma InRing(nodes: set<Node>, owner: map<Node, Node>, rings: map<Node, seq<Node>>, n: Node)
    requires Tidy(nodes, owner, rings) && n in owner
    ensures owner[n] in rings && n in rings[owner[n]]
  {
  }

  lemma LeaveOthers(nodes: set<Node>, owner: map<Node, Node>, rings: map<Node, seq<Node>>, n: Node)
    requires Tidy(nodes, owner, rings)
    ensures forall h | h in rings && (n !in owner || owner[n] != h) :: Without(rings[h], n) == rings[h]
  {
    forall h | h in rings && (n !in owner || owner[n] != h) ensures Without(rings[h], n) == rings[h] {
      RingNodes(nodes, owner, rings, h);
      WithoutAbsent(rings[h], n);
    }
  }

  /** Every ring is a circle of known nodes. */
  ghost predicate Circles(nodes: set<Node>, rings: map<Node, seq<Node>>)
    reads nodes
  {
    forall h | h in rings :: (forall n | n in rings[h] :: n in nodes) && Linked(rings[h])
  }

  /** A node in no ring points nowhere. */
  ghost predicate Idle(nodes: set<Node>, owner: map<Node, Node>)
    reads nodes
  {
    forall n | n in nodes && n !in owner :: n.prev == null && n.next == null
  }

  lemma IdleMoved(nodes: set<Node>, owner: map<Node, Node>, h: Node, copy: Node)
    requires Idle(nodes, owner)
    ensures Idle(nodes + {copy}, Moved(owner, h, copy))
  {
    hide Moved;
    MovedKeys(owner, h, copy);
  }

  /** The rings with one of them replaced. */
  lemma CirclesWith(nodes: set<Node>, rings: map<Node, seq<Node>>, h: Node, r: seq<Node>)
    requires forall g | g in rings && g != h :: Linked(rings[g]) && forall n | n in rings[g] :: n in nodes
    requires Linked(r) && forall n | n in r :: n in nodes
    ensures Circles(nodes, rings[h := r])
  {
    hide Linked;
  }

  lemma SwappedCircles(nodes: set<Node>, owner: map<Node, Node>, rings: map<Node, seq<Node>>, h: Node, copy: Node)
    requires Tidy(nodes, owner, rings) && h in rings && copy !in nodes && rings[h] != []
    requires forall g | g in rings && g != h :: Linked(rings[g])
    requires Linked(rings[h][0 := copy]) && Linked([h])
    ensures Circles(nodes + {copy}, rings[copy := rings[h][0 := copy]][h := [h]])
  {
    hide Tidy;
    hide Linked;
    RingNodes(nodes, owner, rings, h);
    OthersApart(nodes, owner, rings, h);
    SwapMembers(rings[h], copy, rings[h][0 := copy]);
  }

  lemma DroppedCircles(nodes: set<Node>, owner: map<Node, Node>, rings: map<Node, seq<Node>>, h: Node)
    requires Tidy(nodes, owner, rings) && Circles(nodes, rings) && h in rings && rings[h] == [h]
    ensures Circles(nodes - {h}, rings - {h})
  {
    hide Linked;
    forall g | g in rings && g != h ensures h !in rings[g] {
      RingsApart(nodes, owner, rings, g, h);
      assert h in rings[h];
    }
  }

  /** All lists of a program: every ring by its head, and for every node in use the head of its ring. */
  class World {
    ghost var nodes: set<Node>
    ghost var owner: map<Node, Node>
    ghost var rings: map<Node, seq<Node>>

    ghost predicate Valid()
      reads this, nodes
    {
      && Tidy(nodes, owner, rings)
      && Circles(nodes, rings)
      && Idle(nodes, owner)
    }

    lemma IsTidy()
      requires Valid()
      ensures Tidy(nodes, owner, rings)
    {
    }

    /** Where `next` leads from the head and from the first member of a ring. */
    lemma FirstOf(h: Node)
      requires Valid() && h in rings
      ensures h in nodes && rings[h] != [] && rings[h][0] == h && Distinct(rings[h])
      ensures h.next == rings[h][After(0, |rings[h]|)]
      ensures |rings[h]| > 1 ==> rings[h][1] in nodes && rings[h][1].next == rings[h][After(1, |rings[h]|)]
    {
      RingNodes(nodes, owner, rings, h);
      assert Linked(rings[h]);
    }

    constructor ()
      ensures Valid() && nodes == {} && rings == map[] && owner == map[]
    {
      nodes, owner, rings := {}, map[], map[];
    }

    /** ares__init_list_head. */
    method InitHead(h: Node)
      requires Valid() && h !in nodes
      modifies this, h
      ensures Valid() && nodes == old(nodes) + {h} && owner == old(owner)[h := h] && rings == old(rings)[h := [h]]
    {
      hide Tidy;
      hide Linked;
      ghost var before := rings;
      TidyHead(nodes, owner, rings, h);
      h.prev := h;
      h.next := h;
      Alone(h);
      nodes, owner, rings := nodes + {h}, owner[h := h], rings[h := [h]];
      forall g | g in rings ensures (forall n | n in rings[g] :: n in nodes) && Linked(rings[g]) {
        if g != h { StaysLinked(before[g]); }
      }
    }

    /** ares__init_list_node. */
    method InitNode(n: Node)
      requires Valid() && n !in nodes
      modifies this, n
      ensures Valid() && nodes == old(nodes) + {n} && owner == old(owner) && rings == old(rings)
    {
      hide Linked;
      hide Shaped;
      n.prev := null;
      n.next := null;
      nodes := nodes + {n};
      forall g | g in rings ensures (forall m | m in rings[g] :: m in nodes) && Linked(rings[g]) {
        StaysLinked(rings[g]);
      }
    }

    /** ares__is_list_empty. */
    method IsEmpty(h: Node) returns (empty: bool)
      requires Valid() && h in rings
      ensures empty <==> rings[h] == [h]
    {
      empty := h.next == h && h.prev == h;
      RingNodes(nodes, owner, rings, h);
      assert rings[h][0].next == rings[h][After(0, |rings[h]|)];
    }

    /** ares__insert_in_list: `n` goes in front of the node at `k`, or at the end when `target` is the head. */
    method Insert(n: Node, target: Node, ghost h: Node, ghost k: nat)
      requires Valid() && n in nodes && n !in owner && h in rings
      requires 0 < k <= |rings[h]| && target == rings[h][if k == |rings[h]| then 0 else k]
      modifies this, nodes
      ensures Valid() && nodes == old(nodes) && owner == old(owner)[n := h]
      ensures rings == old(rings)[h := InsertAt(old(rings)[h], k, n)]
    {
      hide Tidy;
      hide Linked;
      hide InsertAt;
      ghost var r, before := rings[h], rings;
      RingNodes(nodes, owner, rings, h);
      OthersApart(nodes, owner, rings, h);
      TidyInsert(nodes, owner, rings, h, k, n);
      InsertMembers(r, k, n);
      Splice(n, target, r, k);
      owner, rings := owner[n := h], rings[h := InsertAt(r, k, n)];
      forall g | g in rings ensures Linked(rings[g]) {
        if g != h { StaysLinked(before[g]); }
      }
    }

    /** A node is in a list exactly if it points somewhere. */
    lemma PointsIfOwned(n: Node)
      requires Valid() && n in nodes
      ensures n.next != null <==> n in owner
    {
      if n in owner {
        InRing(nodes, owner, rings, n);
        var r := rings[owner[n]];
        var k :| 0 <= k < |r| && r[k] == n;
        assert Linked(r);
      }
    }

    /** ares__remove_from_list: out of the list it is in, if any. */
    method Remove(n: Node)
      requires Valid() && n in nodes && n !in rings
      modifies this, nodes
      ensures Valid() && nodes == old(nodes) && owner == old(owner) - {n}
      ensures rings.Keys == old(rings).Keys
      ensures forall h | h in rings :: rings[h] == Without(old(rings)[h], n)
    {
      hide Tidy;
      hide Linked;
      hide Shaped;
      hide Distinct;
      hide RemoveAt;
      hide Without;
      PointsIfOwned(n);
      LeaveOthers(nodes, owner, rings, n);
      if n.next != null {
        InRing(nodes, owner, rings, n);
        ghost var h := owner[n];
        ghost var r := rings[h];
        ghost var k :| 0 <= k < |r| && r[k] == n;
        RingNodes(nodes, owner, rings, h);
        OthersApart(nodes, owner, rings, h);
        WithoutIsRemove(r, n, k);
        TidyRemove(nodes, owner, rings, h, k);
        RemoveMembers(r, k);
        Unsplice(n, r, k);
        forall g | g in rings && g != h ensures Linked(rings[g]) {
          StaysLinked(rings[g]);
        }
        CirclesWith(nodes, rings, h, RemoveAt(r, k));
        owner, rings := owner - {n}, rings[h := RemoveAt(r, k)];
      }
    }

    /** The head swap: the members of `h` move to `copy`, and `h` is empty. */
    method Swap(h: Node, copy: Node)
      requires Valid() && h in rings && |rings[h]| > 1 && copy !in nodes
      modifies this, nodes, copy
      ensures Valid() && nodes == old(nodes) + {copy} && owner == Moved(old(owner), h, copy)
      ensures rings == old(rings)[copy := old(rings)[h][0 := copy]][h := [h]]
    {
      hide Tidy;
      hide Linked;
      hide Moved;
      hide Distinct;
      ghost var r := rings[h];
      RingNodes(nodes, owner, rings, h);
      OthersApart(nodes, owner, rings, h);
      TidySwap(nodes, owner, rings, h, copy);
      SwapHead(h, copy, r);
      Alone(h);
      forall g | g in rings && g != h ensures Linked(rings[g]) {
        StaysLinked(rings[g]);
      }
      assert Idle(nodes, owner);
      IdleMoved(nodes, owner, h, copy);
      SwappedCircles(nodes, owner, rings, h, copy);
      nodes, owner, rings := nodes + {copy}, Moved(owner, h, copy), rings[copy := r[0 := copy]][h := [h]];
    }

    /** A head on the stack goes out of scope. */
    method Drop(h: Node)
      requires Valid() && h in rings && rings[h] == [h]
      modifies this
      ensures Valid() && nodes == old(nodes) - {h} && owner == old(owner) - {h} && rings == old(rings) - {h}
    {
      hide Tidy;
      hide Linked;
      TidyDrop(nodes, owner, rings, h);
      DroppedCircles(nodes, owner, rings, h);
      nodes, owner, rings := nodes - {h}, owner - {h}, rings - {h};
    }
  }
}
