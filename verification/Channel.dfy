/** A channel's outstanding queries on linked lists: ares_send, ares__free_query, ares_cancel, ares_destroy. */
module Channel {
  import opened Lists
  import opened Cancelling
  import opened Destroying

  /** A query: its four list nodes and what its callback will do. */
  datatype Rec = Rec(all: Node, qid: Node, timeout: Node, server: Node, script: Script)

  ghost predicate RecOk(id: nat, q: Rec, nodes: set<Node>, rings: map<Node, seq<Node>>) {
    && {q.all, q.qid, q.timeout, q.server} <= nodes
    && q.all !in rings && q.qid !in rings && q.timeout !in rings && q.server !in rings
    && q.all.data == q.qid.data == q.timeout.data == q.server.data == id
    && q.all != q.qid && q.all != q.timeout && q.all != q.server
    && q.qid != q.timeout && q.qid != q.server && q.timeout != q.server
  }

  /** Where a node of a query may be linked: `all` in a list of queries, the other three in the tables. */
  ghost predicate Belongs(n: Node, queries: map<nat, Rec>, inTable: bool) {
    && n.data in queries
    && if inTable then n in {queries[n.data].qid, queries[n.data].timeout, queries[n.data].server}
       else n == queries[n.data].all
  }

  /** Every linked node is part of a live query, and every live query is on exactly one list of queries. */
  ghost predicate Consistent(queries: map<nat, Rec>, nodes: set<Node>, owner: map<Node, Node>,
                             rings: map<Node, seq<Node>>, tables: set<Node>)
  {
    && (forall id | id in queries :: RecOk(id, queries[id], nodes, rings))
    && (forall n | n in owner && n !in rings :: Belongs(n, queries, owner[n] in tables))
    && (forall id | id in queries :: queries[id].all in owner && owner[queries[id].all] !in tables)
  }

  ghost function QueryOf(id: nat, queries: map<nat, Rec>): Query {
    Query(id, if id in queries then queries[id].script else NOTHING)
  }

  /** The queries on a list, front first. */
  ghost function Listed(r: seq<Node>, queries: map<nat, Rec>): seq<Query> {
    if |r| == 0 then [] else seq(|r| - 1, i requires 0 <= i < |r| - 1 => QueryOf(r[i + 1].data, queries))
  }

  lemma ListedSame(r: seq<Node>, queries: map<nat, Rec>, queries': map<nat, Rec>)
    requires forall i | 1 <= i < |r| ::
      r[i].data in queries && r[i].data in queries' && queries[r[i].data] == queries'[r[i].data]
    ensures Listed(r, queries) == Listed(r, queries')
  {
  }

  lemma ListedAppend(r: seq<Node>, n: Node, queries: map<nat, Rec>)
    requires r != [] && n.data in queries
    ensures Listed(r + [n], queries) == Listed(r, queries) + [Query(n.data, queries[n.data].script)]
  {
  }

  lemma ListedFirst(r: seq<Node>, queries: map<nat, Rec>)
    requires |r| > 1 && r[1].data in queries
    ensures Listed(r, queries) != []
    ensures Listed(r, queries)[0] == Query(r[1].data, queries[r[1].data].script)
    ensures Listed(r, queries)[1..] == Listed([r[0]] + r[2..], queries)
  {
  }

  // ---------- Starting and releasing a query, on abstract lists ----------

  lemma SendConsistent(queries: map<nat, Rec>, nodes: set<Node>, owner: map<Node, Node>, rings: map<Node, seq<Node>>,
                       tables: set<Node>, id: nat, q: Rec, head: Node, table: Node, rings': map<Node, seq<Node>>)
    requires Consistent(queries, nodes, owner, rings, tables) && id !in queries
    requires rings'.Keys == rings.Keys
    requires RecOk(id, q, nodes + {q.all, q.qid, q.timeout, q.server}, rings)
    requires {q.all, q.qid, q.timeout, q.server} !! nodes && owner.Keys <= nodes
    requires head !in tables && table in tables
    ensures Consistent(queries[id := q], nodes + {q.all, q.qid, q.timeout, q.server},
                       owner[q.all := head][q.qid := table], rings', tables)
  {
    var queries', owner' := queries[id := q], owner[q.all := head][q.qid := table];
    forall n | n in owner' && n !in rings' ensures Belongs(n, queries', owner'[n] in tables) {
      if n != q.all && n != q.qid { assert Belongs(n, queries, owner[n] in tables); }
    }
  }

  lemma FreeConsistent(queries: map<nat, Rec>, nodes: set<Node>, owner: map<Node, Node>, rings: map<Node, seq<Node>>,
                       tables: set<Node>, id: nat, q: Rec, rings': map<Node, seq<Node>>)
    requires Consistent(queries, nodes, owner, rings, tables) && id in queries && q == queries[id]
    requires rings'.Keys == rings.Keys
    ensures Consistent(queries - {id}, nodes, owner - {q.qid} - {q.timeout} - {q.server} - {q.all}, rings', tables)
  {
    var queries', owner' := queries - {id}, owner - {q.qid} - {q.timeout} - {q.server} - {q.all};
    forall n | n in owner' && n !in rings' ensures Belongs(n, queries', owner'[n] in tables) {
      assert Belongs(n, queries, owner[n] in tables);
    }
    forall i | i in queries' ensures queries'[i].all in owner' && owner'[queries'[i].all] !in tables {
      assert RecOk(i, queries[i], nodes, rings) && RecOk(id, q, nodes, rings);
    }
  }

  ghost function WithoutFour(r: seq<Node>, q: Rec): seq<Node> {
    Without(Without(Without(Without(r, q.qid), q.timeout), q.server), q.all)
  }

  /** Releasing a query leaves every list of queries as it was, but for the query itself. */
  lemma FreeLeaves(queries: map<nat, Rec>, nodes: set<Node>, owner: map<Node, Node>, rings: map<Node, seq<Node>>,
                   tables: set<Node>, id: nat, h: Node)
    requires Tidy(nodes, owner, rings) && Consistent(queries, nodes, owner, rings, tables)
    requires id in queries && h in rings && h !in tables
    ensures WithoutFour(rings[h], queries[id]) == Without(rings[h], queries[id].all)
    ensures owner[queries[id].all] != h ==> Without(rings[h], queries[id].all) == rings[h]
  {
    var q := queries[id];
    RingNodes(nodes, owner, rings, h);
    assert RecOk(id, q, nodes, rings);
    forall n | n in {q.qid, q.timeout, q.server} ensures n !in rings[h] {
      assert n !in owner || Belongs(n, queries, owner[n] in tables);
    }
    WithoutAbsent(rings[h], q.qid);
    WithoutAbsent(rings[h], q.timeout);
    WithoutAbsent(rings[h], q.server);
    if owner[q.all] != h { WithoutAbsent(rings[h], q.all); }
  }

  lemma FreeLeavesAll(queries: map<nat, Rec>, nodes: set<Node>, owner: map<Node, Node>, rings: map<Node, seq<Node>>,
                      tables: set<Node>, id: nat, q: Rec)
    requires Tidy(nodes, owner, rings) && Consistent(queries, nodes, owner, rings, tables)
    requires id in queries && q == queries[id]
    ensures forall h | h in rings && h !in tables :: WithoutFour(rings[h], q) == Without(rings[h], q.all)
    ensures RecOk(id, q, nodes, rings)
  {
    forall h | h in rings && h !in tables ensures WithoutFour(rings[h], q) == Without(rings[h], q.all)
    {
      FreeLeaves(queries, nodes, owner, rings, tables, id, h);
    }
  }

  lemma HeadsOwnThemselves(nodes: set<Node>, owner: map<Node, Node>, rings: map<Node, seq<Node>>)
    requires Tidy(nodes, owner, rings)
    ensures forall g | g in rings :: g in owner && owner[g] == g
  {
    forall g | g in rings ensures g in owner && owner[g] == g {
      RingNodes(nodes, owner, rings, g);
      assert rings[g][0] in rings[g];
    }
  }

  /** The members of a list of queries are live. */
  lemma MembersLive(queries: map<nat, Rec>, nodes: set<Node>, owner: map<Node, Node>, rings: map<Node, seq<Node>>,
                    tables: set<Node>, h: Node)
    requires Tidy(nodes, owner, rings) && Consistent(queries, nodes, owner, rings, tables)
    requires h in rings && h !in tables
    ensures forall i | 1 <= i < |rings[h]| ::
      && rings[h][i].data in queries && queries[rings[h][i].data].all == rings[h][i]
      && rings[h][i] in owner && owner[rings[h][i]] == h && rings[h][i] !in rings
  {
    RingNodes(nodes, owner, rings, h);
    HeadsOwnThemselves(nodes, owner, rings);
    forall i | 1 <= i < |rings[h]| ensures rings[h][i] !in rings && Belongs(rings[h][i], queries, false) {
      assert rings[h][i] in rings[h] && rings[h][0] != rings[h][i];
    }
  }

  /** The first member of a list, taken off. */
  lemma WithoutFirst(r: seq<Node>)
    requires |r| > 1 && Distinct(r)
    ensures Without(r, r[1]) == [r[0]] + r[2..]
  {
    WithoutIsRemove(r, r[1], 1);
    assert RemoveAt(r, 1) == [r[0]] + r[2..];
  }

  /** Releasing the query at the front of `copy` shortens that list and leaves the others. */
  lemma FreeFront(queries: map<nat, Rec>, nodes: set<Node>, owner: map<Node, Node>, rings: map<Node, seq<Node>>,
                  tables: set<Node>, id: nat, copy: Node, q: Query, rest: seq<Query>)
    requires Tidy(nodes, owner, rings) && Consistent(queries, nodes, owner, rings, tables)
    requires copy in rings && copy !in tables && |rings[copy]| > 1 && rings[copy][1].data == id
    requires Listed(rings[copy], queries) == [q] + rest
    ensures id in queries && q == Query(id, queries[id].script)
    ensures Without(rings[copy], queries[id].all) == [copy] + rings[copy][2..]
    ensures Listed([copy] + rings[copy][2..], queries - {id}) == rest
    ensures forall h | h in rings && h != copy && h !in tables ::
      && Without(rings[h], queries[id].all) == rings[h]
      && Listed(rings[h], queries - {id}) == Listed(rings[h], queries)
  {
    var r := rings[copy];
    MembersLive(queries, nodes, owner, rings, tables, copy);
    RingNodes(nodes, owner, rings, copy);
    ListedFirst(r, queries);
    assert ([q] + rest)[1..] == rest;
    WithoutFirst(r);
    var r' := [copy] + r[2..];
    forall i | 1 <= i < |r'| ensures r'[i].data in queries && r'[i].data != id {
      assert r'[i] == r[i + 1] && r[i + 1] != r[1];
    }
    ListedSame(r', queries, queries - {id});
    forall h | h in rings && h != copy && h !in tables
      ensures Without(rings[h], queries[id].all) == rings[h]
      ensures Listed(rings[h], queries - {id}) == Listed(rings[h], queries)
    {
      FreeLeaves(queries, nodes, owner, rings, tables, id, h);
      MembersLive(queries, nodes, owner, rings, tables, h);
      ListedSame(rings[h], queries, queries - {id});
    }
  }

  lemma OwnersAreHeads(nodes: set<Node>, owner: map<Node, Node>, rings: map<Node, seq<Node>>)
    requires Tidy(nodes, owner, rings)
    ensures forall n | n in owner :: owner[n] in rings
  {
  }

  lemma DataMatches(queries: map<nat, Rec>, nodes: set<Node>, owner: map<Node, Node>, rings: map<Node, seq<Node>>,
                    tables: set<Node>)
    requires Consistent(queries, nodes, owner, rings, tables)
    ensures forall id | id in queries :: queries[id].all.data == id && queries[id].all in owner
  {
    forall id | id in queries ensures queries[id].all.data == id { assert RecOk(id, queries[id], nodes, rings); }
  }

  lemma SwapConsistent(queries: map<nat, Rec>, nodes: set<Node>, owner: map<Node, Node>, rings: map<Node, seq<Node>>,
                       tables: set<Node>, head: Node, copy: Node, rings': map<Node, seq<Node>>)
    requires Consistent(queries, nodes, owner, rings, tables) && owner.Keys <= nodes && tables <= nodes
    requires head !in tables && copy !in nodes && rings'.Keys == rings.Keys + {copy}
    ensures Consistent(queries, nodes + {copy}, Moved(owner, head, copy), rings', tables)
  {
    var owner' := Moved(owner, head, copy);
    forall n | n in owner' && n !in rings' ensures Belongs(n, queries, owner'[n] in tables) {
      assert Belongs(n, queries, owner[n] in tables);
    }
  }

  lemma DropConsistent(queries: map<nat, Rec>, nodes: set<Node>, owner: map<Node, Node>, rings: map<Node, seq<Node>>,
                       tables: set<Node>, copy: Node)
    requires Tidy(nodes, owner, rings) && Consistent(queries, nodes, owner, rings, tables)
    requires copy in rings && rings[copy] == [copy] && copy !in tables
    ensures Consistent(queries, nodes - {copy}, owner - {copy}, rings - {copy}, tables)
  {
    var owner', rings' := owner - {copy}, rings - {copy};
    forall id | id in queries ensures RecOk(id, queries[id], nodes - {copy}, rings') {
      assert RecOk(id, queries[id], nodes, rings);
    }
    forall n | n in owner' && n !in rings' ensures Belongs(n, queries, owner'[n] in tables) {
      assert Belongs(n, queries, owner[n] in tables);
    }
    forall id | id in queries ensures queries[id].all in owner' && owner'[queries[id].all] !in tables {
      assert RecOk(id, queries[id], nodes, rings);
    }
  }

  /** Takes a query's nodes off whatever lists they are on. */
  method Unlink(world: World, q: Rec)
    requires world.Valid() && {q.all, q.qid, q.timeout, q.server} <= world.nodes
    requires q.all !in world.rings && q.qid !in world.rings && q.timeout !in world.rings && q.server !in world.rings
    modifies world, world.nodes
    ensures world.Valid() && world.nodes == old(world.nodes) && world.rings.Keys == old(world.rings).Keys
    ensures world.owner == old(world.owner) - {q.qid} - {q.timeout} - {q.server} - {q.all}
    ensures forall h | h in world.rings :: world.rings[h] == WithoutFour(old(world.rings)[h], q)
  {
    hide World.Valid;
    hide Without;
    world.Remove(q.qid);
    world.Remove(q.timeout);
    world.Remove(q.server);
    world.Remove(q.all);
  }

  lemma AtEnd(r: seq<Node>, n: Node)
    ensures InsertAt(r, |r|, n) == r + [n]
  {
  }

  /** Initialises a new query's nodes. */
  method InitNodes(world: World, q: Rec)
    requires world.Valid() && {q.all, q.qid, q.timeout, q.server} !! world.nodes
    requires q.all != q.qid && q.all != q.timeout && q.all != q.server
    requires q.qid != q.timeout && q.qid != q.server && q.timeout != q.server
    modifies world, q.all, q.qid, q.timeout, q.server
    ensures world.Valid() && world.owner == old(world.owner) && world.rings == old(world.rings)
    ensures world.nodes == old(world.nodes) + {q.all, q.qid, q.timeout, q.server}
  {
    hide World.Valid;
    world.InitNode(q.qid);
    world.InitNode(q.timeout);
    world.InitNode(q.server);
    world.InitNode(q.all);
  }

  /** Puts a node at the end of a list. */
  method Append(world: World, n: Node, h: Node)
    requires world.Valid() && h in world.rings && n in world.nodes && n !in world.owner
    modifies world, world.nodes
    ensures world.Valid() && world.nodes == old(world.nodes) && world.owner == old(world.owner)[n := h]
    ensures world.rings == old(world.rings)[h := old(world.rings)[h] + [n]]
  {
    world.IsTidy();
    RingNodes(world.nodes, world.owner, world.rings, h);
    hide World.Valid;
    hide Tidy;
    AtEnd(world.rings[h], n);
    hide InsertAt;
    world.Insert(n, h, h, |world.rings[h]|);
  }

  /** The lists of a channel and the queries on them, at one time. */
  datatype Snapshot = Snapshot(queries: map<nat, Rec>, owner: map<Node, Node>, rings: map<Node, seq<Node>>)

  ghost predicate Same(touched: set<Node>, tables: set<Node>, added: set<Node>, a: Snapshot, b: Snapshot) {
    && b.rings.Keys == a.rings.Keys + added
    && (forall h | h in a.rings && h !in touched && h !in tables :: b.rings[h] == a.rings[h])
    && (forall id | id in a.queries && a.queries[id].all in a.owner && a.owner[a.queries[id].all] !in touched ::
          && id in b.queries && b.queries[id] == a.queries[id]
          && a.queries[id].all in b.owner && b.owner[a.queries[id].all] == a.owner[a.queries[id].all])
  }

  lemma SameRefl(touched: set<Node>, tables: set<Node>, a: Snapshot)
    ensures Same(touched, tables, {}, a, a)
  {
  }

  lemma SameTwice(touched: set<Node>, tables: set<Node>, a: Snapshot, b: Snapshot, c: Snapshot)
    requires Same(touched, tables, {}, a, b) && Same(touched, tables, {}, b, c)
    ensures Same(touched, tables, {}, a, c)
  {
  }

  /** A list that was not touched still lists the same queries. */
  lemma SameList(head: Node, copy: Node, tables: set<Node>, a: Snapshot, b: Snapshot)
    requires Same({head}, tables, {}, a, b) && copy in a.rings && copy != head && copy !in tables
    requires forall i | 1 <= i < |a.rings[copy]| ::
      && a.rings[copy][i].data in a.queries && a.queries[a.rings[copy][i].data].all == a.rings[copy][i]
      && a.rings[copy][i] in a.owner && a.owner[a.rings[copy][i]] == copy
    ensures copy in b.rings && b.rings[copy] == a.rings[copy]
    ensures Listed(a.rings[copy], a.queries) == Listed(a.rings[copy], b.queries)
  {
    ListedSame(a.rings[copy], a.queries, b.queries);
  }

  /** The head swap touches the list of all queries, and adds the copy. */
  lemma SameAfterSwap(head: Node, copy: Node, tables: set<Node>, a: Snapshot, b: Snapshot)
    requires head in a.rings && a.rings[head] != [] && copy !in a.rings && copy !in a.owner
    requires b.queries == a.queries && b.owner == Moved(a.owner, head, copy)
    requires b.rings == a.rings[copy := a.rings[head][0 := copy]][head := [head]]
    ensures Same({head}, tables, {copy}, a, b)
  {
  }

  lemma ListedSwap(r: seq<Node>, copy: Node, queries: map<nat, Rec>)
    requires r != []
    ensures Listed(r[0 := copy], queries) == Listed(r, queries) && Listed([r[0]], queries) == []
  {
  }

  /** Head swap, drain, and the copy gone again: only the list of all queries was touched. */
  lemma SameAfterCancel(head: Node, copy: Node, tables: set<Node>, a: Snapshot, b: Snapshot, c: Snapshot, d: Snapshot)
    requires Same({head}, tables, {copy}, a, b) && Same({head, copy}, tables, {}, b, c)
    requires d == Snapshot(c.queries, c.owner - {copy}, c.rings - {copy})
    requires copy !in a.rings && (forall n | n in a.owner :: a.owner[n] in a.rings)
    requires copy in c.owner && c.owner[copy] == copy
    ensures Same({head}, tables, {}, a, d)
  {
  }

  /** Releasing the front query of `copy` after its callback. */
  lemma SameAfterFree(head: Node, copy: Node, tables: set<Node>, id: nat, a: Snapshot, b: Snapshot, c: Snapshot)
    requires Same({head}, tables, {}, a, b)
    requires c.queries == b.queries - {id} && c.rings.Keys == b.rings.Keys
    requires forall h | h in b.rings && h != copy && h !in tables :: c.rings[h] == b.rings[h]
    requires forall n | n in b.owner && n.data != id :: n in c.owner && c.owner[n] == b.owner[n]
    requires forall i | i in b.queries :: b.queries[i].all.data == i
    requires id in a.queries && a.queries[id].all in a.owner && a.owner[a.queries[id].all] == copy
    ensures Same({head, copy}, tables, {}, a, c)
  {
  }

  /** A new query at the end of the list of all queries, and in a bucket. */
  lemma SameAfterSend(head: Node, table: Node, tables: set<Node>, id: nat, q: Rec, a: Snapshot, b: Snapshot)
    requires head in a.rings && table in a.rings && table in tables
    requires id !in a.queries && q.all !in a.owner && q.qid !in a.owner
    requires b.queries == a.queries[id := q] && b.owner == a.owner[q.all := head][q.qid := table]
    requires b.rings == a.rings[head := a.rings[head] + [q.all]][table := a.rings[table] + [q.qid]]
    ensures Same({head}, tables, {}, a, b)
  {
  }

  predicate FourNodes(q: Rec, id: nat) {
    && q.all.data == q.qid.data == q.timeout.data == q.server.data == id
    && q.all != q.qid && q.all != q.timeout && q.all != q.server
    && q.qid != q.timeout && q.qid != q.server && q.timeout != q.server
  }

  lemma NewIsOk(q: Rec, id: nat, nodes: set<Node>, rings: map<Node, seq<Node>>)
    requires FourNodes(q, id) && {q.all, q.qid, q.timeout, q.server} !! nodes && rings.Keys <= nodes
    ensures RecOk(id, q, nodes + {q.all, q.qid, q.timeout, q.server}, rings)
  {
  }

  lemma OneAdded(queries: map<nat, Rec>, id: nat, q: Rec)
    requires id !in queries
    ensures queries[id := q] - {id} == queries
  {
    assert (queries[id := q] - {id}).Keys == queries.Keys;
  }

  lemma OnlyAdded(nodes: set<Node>, more: set<Node>)
    requires more !! nodes
    ensures nodes + more - nodes == more
  {
  }

  method NewQuery(id: nat, script: Script) returns (q: Rec)
    ensures FourNodes(q, id) && q.script == script
    ensures fresh(q.all) && fresh(q.qid) && fresh(q.timeout) && fresh(q.server)
  {
    var all := new Node(id);
    var qid := new Node(id);
    var timeout := new Node(id);
    var server := new Node(id);
    q := Rec(all, qid, timeout, server, script);
  }

  lemma KeysKnown(nodes: set<Node>, owner: map<Node, Node>, rings: map<Node, seq<Node>>)
    requires Tidy(nodes, owner, rings)
    ensures owner.Keys <= nodes && rings.Keys <= nodes
  {
    HeadsOwnThemselves(nodes, owner, rings);
  }

  /** A new query on the list `head` and in the bucket `table`. */
  method Link(world: World, q: Rec, id: nat, head: Node, table: Node)
    requires world.Valid() && head in world.rings && table in world.rings && head != table
    requires {q.all, q.qid, q.timeout, q.server} !! world.nodes && FourNodes(q, id)
    modifies world, world.nodes, q.all, q.qid, q.timeout, q.server
    ensures world.Valid() && world.nodes == old(world.nodes) + {q.all, q.qid, q.timeout, q.server}
    ensures world.owner == old(world.owner)[q.all := head][q.qid := table]
    ensures world.rings ==
      old(world.rings)[head := old(world.rings)[head] + [q.all]][table := old(world.rings)[table] + [q.qid]]
  {
    world.IsTidy();
    KeysKnown(world.nodes, world.owner, world.rings);
    hide World.Valid;
    hide Tidy;
    InitNodes(world, q);
    Append(world, q.all, head);
    Append(world, q.qid, table);
  }

  lemma OneOrTwo(r: seq<Node>)
    requires r != [] && Distinct(r)
    ensures |r| == 1 || r[0] != r[|r| - 1]
  {
  }

  /** When no query is on the list of all queries, none is in a table either. */
  lemma EmptyMeansAllEmpty(queries: map<nat, Rec>, nodes: set<Node>, owner: map<Node, Node>,
                           rings: map<Node, seq<Node>>, tables: set<Node>, head: Node)
    requires Tidy(nodes, owner, rings) && Consistent(queries, nodes, owner, rings, tables)
    requires head in rings && head !in tables && rings.Keys == {head} + tables && rings[head] == [head]
    ensures queries == map[] && forall h | h in rings :: rings[h] == [h]
  {
    forall id | id in queries ensures false {
      assert RecOk(id, queries[id], nodes, rings);
      InRing(nodes, owner, rings, queries[id].all);
    }
    assert queries.Keys == {};
    HeadsOwnThemselves(nodes, owner, rings);
    forall n | n in owner ensures n in rings {
      assert n in rings || Belongs(n, queries, owner[n] in tables);
    }
    forall h | h in rings ensures rings[h] == [h] {
      RingNodes(nodes, owner, rings, h);
      var r := rings[h];
      OneOrTwo(r);
      forall i | 0 <= i < |r| ensures r[i] == h { assert r[i] in r; }
      assert r[|r| - 1] == h;
    }
  }

  lemma DestroyTurn(st: State)
    ensures st.queue == [] ==> Destroying.Destroy(st) == Completed(st)
    ensures st.queue != [] && !OnlySends(st.queue[0].script.destroyed) ==>
      Destroying.Destroy(st) == Broken(FirstCalled(st))
    ensures |st.queue| == 1 && OnlySends(st.queue[0].script.destroyed) ==>
      Destroying.Destroy(st) == Completed(AfterFirst(st))
    ensures |st.queue| > 1 && OnlySends(st.queue[0].script.destroyed) ==>
      Destroying.Destroy(st) == Destroying.Destroy(AfterFirst(st))
    ensures st.queue != [] && OnlySends(st.queue[0].script.destroyed) ==>
      Potential(AfterFirst(st).queue) < Potential(st.queue)
  {
    if st.queue != [] && OnlySends(st.queue[0].script.destroyed) { AfterFirstIsLess(st); }
  }

  lemma SentStaysProper(st: State, script: Script)
    ensures Proper(st) ==> Proper(Sent(st, script))
  {
    SentConserves(st, script);
    if Proper(st) { StaysProper(st, Sent(st, script)); }
  }

  lemma CancelKeepsPromises(st: State)
    ensures Proper(st) ==> Proper(Cancelling.Cancel(st)) && AllAtLeast(Cancelling.Cancel(st).queue, st.nextId)
    ensures Proper(st) ==> Below(Cancelling.Cancel(st).log, st.nextId) == st.log + Ids(st.queue)
  {
    if Proper(st) { CancelCallsThosePresent(st); }
  }

  lemma SameHeads(touched: set<Node>, tables: set<Node>, a: Snapshot, b: Snapshot)
    requires Same(touched, tables, {}, a, b)
    ensures b.rings.Keys == a.rings.Keys
  {
  }

  lemma InList(queries: map<nat, Rec>, nodes: set<Node>, owner: map<Node, Node>, rings: map<Node, seq<Node>>,
               tables: set<Node>, head: Node, id: nat)
    requires Tidy(nodes, owner, rings) && Consistent(queries, nodes, owner, rings, tables)
    requires head in rings && head !in tables && rings.Keys == {head} + tables && id in queries
    ensures exists i | 1 <= i < |rings[head]| :: rings[head][i].data == id
  {
    var n := queries[id].all;
    assert RecOk(id, queries[id], nodes, rings);
    InRing(nodes, owner, rings, n);
    hide Tidy;
    hide Consistent;
    assert owner[n] == head;
    RingNodes(nodes, owner, rings, head);
    var i :| 0 <= i < |rings[head]| && rings[head][i] == n;
    assert i > 0;
  }

  /** If the only list of queries is that of all queries, a query is live exactly if it is on it. */
  lemma ListedIfLive(queries: map<nat, Rec>, nodes: set<Node>, owner: map<Node, Node>, rings: map<Node, seq<Node>>,
                     tables: set<Node>, head: Node, id: nat)
    requires Tidy(nodes, owner, rings) && Consistent(queries, nodes, owner, rings, tables)
    requires head in rings && head !in tables && rings.Keys == {head} + tables
    ensures id in queries <==> id in Ids(Listed(rings[head], queries))
  {
    hide Tidy;
    hide Consistent;
    var r := rings[head];
    MembersLive(queries, nodes, owner, rings, tables, head);
    if id in queries {
      InList(queries, nodes, owner, rings, tables, head, id);
      var i :| 1 <= i < |r| && r[i].data == id;
      assert Ids(Listed(r, queries))[i - 1] == id;
    }
    if id in Ids(Listed(r, queries)) {
      var i :| 0 <= i < |Listed(r, queries)| && Ids(Listed(r, queries))[i] == id;
      assert r[i + 1].data == id;
    }
  }

  lemma ListedLength(r: seq<Node>, queries: map<nat, Rec>)
    requires r != []
    ensures |Listed(r, queries)| == |r| - 1
  {
  }

  /** One turn of the drain, and what it leaves to do. */
  lemma DrainTurn(qs: seq<Query>, st: State, total: nat)
    requires qs != [] && Potential(qs) + Potential(st.queue) <= total
    ensures qs == [qs[0]] + qs[1..]
    ensures 1 + Sizes(qs[0].script.cancelled) + Potential(st.queue) <= total
    ensures Drain(qs, st) == Drain(qs[1..], Cancelling.Run(qs[0].script.cancelled, st.(log := st.log + [qs[0].id])))
    ensures var next := Cancelling.Run(qs[0].script.cancelled, st.(log := st.log + [qs[0].id]));
      Potential(qs[1..]) + Potential(next.queue) <= total
  {
  }

  lemma DrainAll(st: State)
    ensures Drain(st.queue, st.(queue := [])) == Cancelling.Cancel(st)
    ensures Potential(st.(queue := []).queue) == 0
  {
  }

  lemma DrainNone(st: State)
    ensures Drain([], st) == st
  {
  }

  lemma NewConsistent(nodes: set<Node>, owner: map<Node, Node>, rings: map<Node, seq<Node>>, tables: set<Node>)
    requires owner.Keys == rings.Keys
    ensures Consistent(map[], nodes, owner, rings, tables)
  {
  }

  lemma NothingListed(h: Node, queries: map<nat, Rec>)
    ensures Listed([h], queries) == []
  {
  }

  /** The heads of new lists: one, and `size` more. */
  method NewLists(size: nat) returns (w: World, h: Node, ts: seq<Node>)
    ensures w.Valid() && fresh(w) && fresh(w.nodes) && |ts| == size && h !in ts
    ensures w.nodes == w.rings.Keys == w.owner.Keys && h in w.rings && w.rings[h] == [h]
    ensures w.rings.Keys == {h} + (set t | t in ts)
  {
    hide World.Valid;
    w := new World();
    h := new Node(0);
    w.InitHead(h);
    ts := [];
    while |ts| < size
      invariant |ts| <= size && w.Valid() && fresh(w) && fresh(w.nodes) && h !in ts
      invariant w.nodes == w.rings.Keys == w.owner.Keys && h in w.rings && w.rings[h] == [h]
      invariant w.rings.Keys == {h} + (set t | t in ts)
    {
      var t := new Node(0);
      w.InitHead(t);
      ts := ts + [t];
    }
  }

  /** The lists with a new query at the end of two of them. */
  ghost function Filed(rings: map<Node, seq<Node>>, head: Node, bucket: Node, q: Rec): map<Node, seq<Node>>
    requires head in rings && bucket in rings
  {
    rings[head := rings[head] + [q.all]][bucket := rings[bucket] + [q.qid]]
  }

  class Channel {
    const world: World
    const allHead: Node
    const tables: seq<Node>
    var queries: map<nat, Rec>
    var log: seq<nat>
    var nextId: nat

    ghost function TableSet(): set<Node> { set t | t in tables }

    ghost predicate Valid()
      reads this, world, world.nodes
    {
      && world.Valid()
      && allHead in world.rings && allHead !in tables
      && |tables| > 0 && (forall t | t in tables :: t in world.rings)
      && Consistent(queries, world.nodes, world.owner, world.rings, TableSet())
      && (forall id | id in queries :: id < nextId)
    }

    /** The queue and the callbacks made so far. */
    ghost function Abs(): State
      requires Valid()
      reads this, world, world.nodes
    {
      State(Listed(world.rings[allHead], queries), log, nextId)
    }

    /**
     * What holds whenever the application has control: the only lists are the channel's own, and every query is called
     * back or outstanding, once. While callbacks run it does not: a query is called back before it is released, and
     * those being cancelled are on a list of their own.
     */
    ghost predicate Sound()
      reads this, world, world.nodes
    {
      Valid() && world.rings.Keys == {allHead} + TableSet() && Proper(Abs())
    }

    /** The empty lists of a new channel: all queries, and the hash tables. */
    constructor (size: nat)
      requires size > 0
      ensures Sound() && fresh(world) && fresh(world.nodes)
      ensures Abs() == State([], [], 0) && |tables| == size
    {
      hide World.Valid;
      hide Proper;
      hide Consistent;
      hide Listed;
      var w, h, ts := NewLists(size);
      world, allHead, tables := w, h, ts;
      queries, log, nextId := map[], [], 0;
      new;
      assert TableSet() == set t | t in ts;
      NewConsistent(world.nodes, world.owner, world.rings, TableSet());
      NothingListed(allHead, queries);
      NewIsProper();
    }

    ghost function View(): Snapshot
      reads this, world
    {
      Snapshot(queries, world.owner, world.rings)
    }

    /** But for new lists, lists of queries other than those in `touched`, and the queries on them, are as they were. */
    twostate predicate Kept(touched: set<Node>, new added: set<Node> := {})
      reads this, world
    {
      Same(touched, TableSet(), added, old(View()), View())
    }

    /** ares__free_query: off every list it is on, and gone. */
    method FreeQuery(id: nat)
      requires Valid() && id in queries
      modifies this, world, world.nodes
      ensures Valid() && world.nodes == old(world.nodes)
      ensures queries == old(queries) - {id} && log == old(log) && nextId == old(nextId)
      ensures world.rings.Keys == old(world.rings).Keys
      ensures forall h | h in world.rings && h !in tables ::
        world.rings[h] == Without(old(world.rings)[h], old(queries)[id].all)
      ensures forall n | n in old(world.owner) && n.data != id ::
        n in world.owner && world.owner[n] == old(world.owner)[n]
    {
      hide World.Valid;
      hide Consistent;
      hide Tidy;
      hide Without;
      hide WithoutFour;
      var q := queries[id];
      ghost var owner0, rings0 := world.owner, world.rings;
      world.IsTidy();
      FreeLeavesAll(queries, world.nodes, owner0, rings0, TableSet(), id, q);
      Unlink(world, q);
      FreeConsistent(queries, world.nodes, owner0, rings0, TableSet(), id, q, world.rings);
      queries := queries - {id};
    }

    /** ares_send: a new query at the end of the list of all queries, and in its hash bucket. */
    method Send(script: Script)
      requires Valid()
      modifies this, world, world.nodes
      ensures Valid() && Abs() == Sent(old(Abs()), script)
      ensures old(world.rings)[allHead] <= world.rings[allHead]
      ensures old(nextId) in queries && queries - {old(nextId)} == old(queries)
      ensures tables[old(nextId) % |tables|] in old(world.rings) && allHead in old(world.rings)
      ensures world.rings ==
        Filed(old(world.rings), allHead, tables[old(nextId) % |tables|], queries[old(nextId)])
      ensures Kept({allHead}) && old(world.nodes) <= world.nodes && fresh(world.nodes - old(world.nodes))
      ensures old(Sound()) ==> Sound()
    {
      hide World.Valid;
      hide Consistent;
      hide Tidy;
      hide Listed;
      hide Proper;
      hide RecOk;
      hide FourNodes;
      hide Same;
      ghost var st0, a := Abs(), View();
      var id := nextId;
      var q := NewQuery(id, script);
      var table := tables[id % |tables|];
      ghost var queries0, nodes0, owner0, rings0 := queries, world.nodes, world.owner, world.rings;
      world.IsTidy();
      KeysKnown(nodes0, owner0, rings0);
      MembersLive(queries0, nodes0, owner0, rings0, TableSet(), allHead);
      RingNodes(nodes0, owner0, rings0, allHead);
      NewIsOk(q, id, nodes0, rings0);
      ghost var four := {q.all, q.qid, q.timeout, q.server};
      assert fresh(four);
      OnlyAdded(nodes0, four);
      OneAdded(queries0, id, q);
      Link(world, q, id, allHead, table);
      queries, nextId := queries[id := q], nextId + 1;
      SameAfterSend(allHead, table, TableSet(), id, q, a, View());
      SendConsistent(queries0, nodes0, owner0, rings0, TableSet(), id, q, allHead, table, world.rings);
      ListedSame(rings0[allHead], queries0, queries);
      ListedAppend(rings0[allHead], q.all, queries);
      SentStaysProper(st0, script);
      assert world.nodes - old(world.nodes) == four;
    }

    /** What one callback, or the application, does to the channel. */
    method Run(acts: seq<Action>)
      requires Valid()
      modifies this, world, world.nodes
      decreases Sizes(acts) + Potential(Abs().queue), 0
      ensures Valid() && Abs() == Cancelling.Run(acts, old(Abs()))
      ensures Kept({allHead}) && old(world.nodes) <= world.nodes && fresh(world.nodes - old(world.nodes))
      ensures OnlySends(acts) ==> old(world.rings)[allHead] <= world.rings[allHead]
      ensures old(Sound()) ==> Sound()
    {
      hide Valid;
      hide Listed;
      hide Same;
      hide Proper;
      ghost var a, st := View(), Abs();
      RunStaysProper(acts, st);
      if acts == [] {
        SameRefl({allHead}, TableSet(), a);
      } else {
        assert Sizes(acts) == Size(acts[0]) + Sizes(acts[1..]);
        match acts[0] {
          case Send(script) =>
            SentPotential(st, script);
            Send(script);
          case CancelAll =>
            Cancel();
        }
        ghost var b := View();
        Run(acts[1..]);
        SameTwice({allHead}, TableSet(), a, b, View());
      }
      SameHeads({allHead}, TableSet(), a, View());
    }

    /** One turn of the drain: the first query on `copy` is called back, then released. */
    method CancelFirst(copy: Node, node: Node, ghost q: Query, ghost rest: seq<Query>)
      requires Valid() && copy in world.rings && copy != allHead && copy !in tables
      requires |world.rings[copy]| > 1 && node == world.rings[copy][1]
      requires Listed(world.rings[copy], queries) == [q] + rest
      modifies this, world, world.nodes
      decreases 1 + Sizes(q.script.cancelled) + Potential(Abs().queue), 1
      ensures Valid() && copy in world.rings
      ensures world.rings[copy] == [copy] + old(world.rings)[copy][2..] && Listed(world.rings[copy], queries) == rest
      ensures Abs() == Cancelling.Run(q.script.cancelled, old(Abs()).(log := old(log) + [q.id]))
      ensures Kept({allHead, copy}) && old(world.nodes) <= world.nodes && fresh(world.nodes - old(world.nodes))
    {
      hide World.Valid;
      hide Sound;
      hide Same;
      hide Cancelling.Run;
      hide Consistent;
      hide Tidy;
      hide Without;
      hide Listed;
      hide Potential;
      hide Sizes;
      var id := node.data;
      world.IsTidy();
      FreeFront(queries, world.nodes, world.owner, world.rings, TableSet(), id, copy, q, rest);
      MembersLive(queries, world.nodes, world.owner, world.rings, TableSet(), copy);
      ghost var r, a := world.rings[copy], View();
      log := log + [id];
      Run(queries[id].script.cancelled);
      ghost var b := View();
      SameList(allHead, copy, TableSet(), a, b);
      world.IsTidy();
      FreeFront(queries, world.nodes, world.owner, world.rings, TableSet(), id, copy, q, rest);
      DataMatches(queries, world.nodes, world.owner, world.rings, TableSet());
      FreeQuery(id);
      SameAfterFree(allHead, copy, TableSet(), id, a, b, View());
    }

    /** The head swap: the outstanding queries move to a list of their own, and the channel's is empty. */
    method Detach() returns (copy: Node)
      requires Valid() && |world.rings[allHead]| > 1
      modifies this, world, world.nodes
      ensures Valid() && fresh(copy) && copy in world.rings && copy != allHead && copy !in tables
      ensures world.rings[copy] == old(world.rings)[allHead][0 := copy]
      ensures Listed(world.rings[copy], queries) == old(Abs()).queue && Abs() == old(Abs()).(queue := [])
      ensures Kept({allHead}, {copy}) && copy !in old(world.rings)
      ensures world.nodes == old(world.nodes) + {copy}
    {
      hide World.Valid;
      hide Consistent;
      hide Tidy;
      hide Listed;
      hide Same;
      hide Moved;
      ghost var a := View();
      ghost var nodes0, owner0, rings0 := world.nodes, world.owner, world.rings;
      world.IsTidy();
      KeysKnown(nodes0, owner0, rings0);
      RingNodes(nodes0, owner0, rings0, allHead);
      copy := new Node(0);
      world.Swap(allHead, copy);
      ListedSwap(rings0[allHead], copy, queries);
      SameAfterSwap(allHead, copy, TableSet(), a, View());
      SwapConsistent(queries, nodes0, owner0, rings0, TableSet(), allHead, copy, world.rings);
    }

    /** The emptied list's head leaves the stack. */
    method Discard(copy: Node)
      requires Valid() && copy in world.rings && world.rings[copy] == [copy] && copy != allHead && copy !in tables
      modifies world
      ensures Valid() && Abs() == old(Abs())
      ensures world.nodes == old(world.nodes) - {copy} && world.owner == old(world.owner) - {copy}
      ensures world.rings == old(world.rings) - {copy}
    {
      hide World.Valid;
      hide Consistent;
      hide Tidy;
      hide Listed;
      world.IsTidy();
      DropConsistent(queries, world.nodes, world.owner, world.rings, TableSet(), copy);
      world.Drop(copy);
    }

    /** ares__is_list_empty on the list of all queries. */
    method NoQueries() returns (empty: bool)
      requires Valid()
      ensures empty ==> Abs().queue == []
      ensures !empty ==> |world.rings[allHead]| > 1
    {
      empty := world.IsEmpty(allHead);
      world.FirstOf(allHead);
    }

    /**
     * ares_cancel. Whatever the callbacks do, new queries and nested
     * cancellations included, the channel ends up as the specification says.
     */
    method Cancel()
      requires Valid()
      modifies this, world, world.nodes
      decreases Potential(Abs().queue), 3
      ensures Valid() && Abs() == Cancelling.Cancel(old(Abs()))
      ensures Kept({allHead}) && old(world.nodes) <= world.nodes && fresh(world.nodes - old(world.nodes))
      ensures old(Sound()) ==> Sound() && Below(log, old(nextId)) == old(log) + Ids(old(Abs()).queue)
      ensures old(Sound()) ==> AllAtLeast(Abs().queue, old(nextId))
    {
      hide World.Valid;
      hide Consistent;
      hide Tidy;
      hide Listed;
      hide Same;
      hide Proper;
      hide Below;
      ghost var st0, a := Abs(), View();
      CancelKeepsPromises(st0);
      world.IsTidy();
      OwnersAreHeads(world.nodes, world.owner, world.rings);
      var empty := NoQueries();
      if empty {
        SameRefl({allHead}, TableSet(), a);
      } else {
        var copy := Detach();
        ghost var b := View();
        CancelDetached(copy, st0);
        ghost var c := View();
        world.IsTidy();
        HeadsOwnThemselves(world.nodes, world.owner, world.rings);
        Discard(copy);
        SameAfterCancel(allHead, copy, TableSet(), a, b, c, View());
      }
      SameHeads({allHead}, TableSet(), a, View());
    }

    /** The drain loop. */
    method CancelDetached(copy: Node, ghost st0: State)
      requires Valid() && copy in world.rings && copy != allHead && copy !in tables
      requires Listed(world.rings[copy], queries) == st0.queue && Abs() == st0.(queue := [])
      modifies this, world, world.nodes
      decreases Potential(st0.queue), 2
      ensures Valid() && Abs() == Cancelling.Cancel(st0)
      ensures copy in world.rings && world.rings[copy] == [copy] && Kept({allHead, copy})
      ensures old(world.nodes) <= world.nodes && fresh(world.nodes - old(world.nodes))
    {
      hide World.Valid;
      hide Consistent;
      hide Listed;
      hide Potential;
      hide Drain;
      ghost var rest, total := st0.queue, Potential(st0.queue);
      DrainAll(st0);
      world.FirstOf(copy);
      hide Same;
      ghost var a := View();
      SameRefl({allHead, copy}, TableSet(), a);
      var node := copy.next;
      while node != copy
        invariant Valid() && copy in world.rings && Kept({allHead, copy})
        invariant Listed(world.rings[copy], queries) == rest
        invariant |world.rings[copy]| > 0 && world.rings[copy][0] == copy && Distinct(world.rings[copy])
        invariant node == world.rings[copy][After(0, |world.rings[copy]|)]
        invariant Drain(rest, Abs()) == Cancelling.Cancel(st0)
        invariant Potential(rest) + Potential(Abs().queue) <= total
        invariant old(world.nodes) <= world.nodes && fresh(world.nodes - old(world.nodes))
        decreases |rest|
      {
        world.FirstOf(copy);
        ListedLength(world.rings[copy], queries);
        var next := node.next;
        DrainTurn(rest, Abs(), total);
        ghost var b := View();
        CancelFirst(copy, node, rest[0], rest[1..]);
        SameTwice({allHead, copy}, TableSet(), a, b, View());
        rest := rest[1..];
        node := next;
        world.FirstOf(copy);
      }
      ListedLength(world.rings[copy], queries);
      DrainNone(Abs());
    }

    /**
     * One turn of the loop of ares_destroy: the first query is called back and released, unless its record has been
     * released by the callback already.
     */
    method DestroyFirst(node: Node) returns (released: bool)
      requires Sound() && |world.rings[allHead]| > 1 && node == world.rings[allHead][1]
      modifies this, world, world.nodes
      ensures old(Abs()).queue != [] && released == OnlySends(old(Abs()).queue[0].script.destroyed)
      ensures released ==> Sound() && Abs() == AfterFirst(old(Abs()))
      ensures released ==> [allHead] + old(world.rings)[allHead][2..] <= world.rings[allHead]
      ensures !released ==> Valid() && Abs() == FirstCalled(old(Abs()))
      ensures old(world.nodes) <= world.nodes && fresh(world.nodes - old(world.nodes))
    {
      hide World.Valid;
      hide Same;
      hide Consistent;
      hide Tidy;
      hide Without;
      hide Listed;
      hide Proper;
      hide OnlySends;
      hide AfterFirst;
      hide Cancelling.Run;
      var id := node.data;
      ghost var st, a := Abs(), View();
      world.IsTidy();
      MembersLive(queries, world.nodes, world.owner, world.rings, TableSet(), allHead);
      ListedFirst(world.rings[allHead], queries);
      CallbackDecides(st);
      log := log + [id];
      Run(queries[id].script.destroyed);
      SameHeads({allHead}, TableSet(), a, View());
      world.IsTidy();
      ListedIfLive(queries, world.nodes, world.owner, world.rings, TableSet(), allHead, id);
      released := id in queries;
      if released {
        StillFirst(st);
        AfterFirstProper(st);
        FreeFront(queries, world.nodes, world.owner, world.rings, TableSet(), id, allHead, st.queue[0],
                  AfterFirst(st).queue);
        FreeQuery(id);
      }
    }

    /** The assertions of ares_destroy: every list of the channel is empty. */
    method AllEmpty() returns (clean: bool)
      requires Valid() && world.rings.Keys == {allHead} + TableSet()
      ensures clean <==> Abs().queue == []
      ensures clean ==> queries == map[] && forall h | h in world.rings :: world.rings[h] == [h]
    {
      hide World.Valid;
      hide Listed;
      world.FirstOf(allHead);
      ListedLength(world.rings[allHead], queries);
      clean := world.IsEmpty(allHead);
      if clean {
        world.IsTidy();
        EmptyMeansAllEmpty(queries, world.nodes, world.owner, world.rings, TableSet(), allHead);
      }
      for i := 0 to |tables|
        invariant clean <==> world.rings[allHead] == [allHead]
      {
        var e := world.IsEmpty(tables[i]);
        clean := clean && e;
      }
    }

    /**
     * The query part of ares_destroy. `completed` says that it never came upon a released record: exactly if no
     * callback made cancels. `clean` is the conjunction of the assertions on the lists that follow.
     */
    method Destroy() returns (completed: bool, clean: bool)
      requires Sound()
      modifies this, world, world.nodes
      ensures completed == Destroying.Destroy(old(Abs())).Completed?
      ensures Valid() && Abs() == Destroying.Destroy(old(Abs())).state
      ensures completed ==> Sound()
      ensures completed <==> forall q | q in Calls(old(Abs())) :: CancelAll !in q.script.destroyed
      ensures completed <==> NoneTwice(log)
      ensures clean <==> completed && Abs().queue == []
      ensures clean ==> queries == map[] && forall h | h in world.rings :: world.rings[h] == [h]
    {
      hide World.Valid;
      hide Consistent;
      hide Listed;
      hide Proper;
      hide Destroying.Destroy;
      hide AfterFirst;
      hide FirstCalled;
      hide Calls;
      hide NoneTwice;
      ghost var st0 := Abs();
      DestroyCompletes(st0);
      world.FirstOf(allHead);
      ListedLength(world.rings[allHead], queries);
      DestroyTurn(st0);
      completed, clean := true, false;
      var node := allHead.next;
      while node != allHead && completed
        invariant Valid() && old(world.nodes) <= world.nodes && fresh(world.nodes - old(world.nodes))
        invariant completed ==> Sound()
        invariant |world.rings[allHead]| > 0 && world.rings[allHead][0] == allHead && Distinct(world.rings[allHead])
        invariant completed && node != allHead ==> |world.rings[allHead]| > 1 && node == world.rings[allHead][1]
        invariant completed && node != allHead ==> Destroying.Destroy(Abs()) == Destroying.Destroy(st0)
        invariant completed && node == allHead ==> Completed(Abs()) == Destroying.Destroy(st0)
        invariant !completed ==> Broken(Abs()) == Destroying.Destroy(st0)
        decreases completed, Potential(Abs().queue), node != allHead
      {
        world.FirstOf(allHead);
        ListedLength(world.rings[allHead], queries);
        var next := node.next;
        DestroyTurn(Abs());
        completed := DestroyFirst(node);
        node := next;
        world.FirstOf(allHead);
      }
      if completed {
        clean := AllEmpty();
      }
    }
  }
}
