/**
  * The connections of a channel to its servers. Each connection has a generation number, which queries remember in
  * order to tell whether a server has been connected to anew since they last used it.
  */
module Connections {
  import opened Ares
  import opened Bytes

  /** A server: the generation of its connection, its sockets, and the requests waiting to be written. */
  datatype Server = Server(generation: nat, tcpOpen: bool, udpOpen: bool, queue: seq<nat>, broken: bool)

  /** The channel's counter and servers; `freed` are the requests released so far. */
  datatype State = State(counter: nat, servers: Option<seq<Server>>, freed: seq<nat>)

  datatype Action =
    | SetServers(count: nat)
    | OpenTcp(i: nat)
    | OpenUdp(i: nat)
    | Enqueue(i: nat, request: nat)
    | CloseOne(i: nat)
    | CloseAll

  /** A server with its sockets closed and its buffers empty. */
  function Closed(counter: nat, s: Server): Server {
    Server(if s.tcpOpen then counter + 1 else s.generation, false, false, [], false)
  }

  function Close(t: State, i: nat): State
    requires t.servers.Some? && i < |t.servers.value|
  {
    var s := t.servers.value[i];
    State(if s.tcpOpen then t.counter + 1 else t.counter, Some(t.servers.value[i := Closed(t.counter, s)]),
          t.freed + s.queue)
  }

  function CloseFrom(t: State, i: nat): State
    requires t.servers.Some? && i <= |t.servers.value|
    decreases |t.servers.value| - i
  {
    if i == |t.servers.value| then t else CloseFrom(Close(t, i), i + 1)
  }

  /** The requests waiting at some servers, one server after the other. */
  function Waiting(servers: seq<Server>): seq<nat> {
    if servers == [] then [] else servers[0].queue + Waiting(servers[1..])
  }

  /** A server without sockets and without requests. */
  predicate IsClosed(s: Server) {
    !s.tcpOpen && !s.udpOpen && s.queue == [] && !s.broken
  }

  /** Closing leaves a server without sockets, its requests released in order and the other servers as they were. */
  lemma CloseCloses(t: State, i: nat)
    requires t.servers.Some? && i < |t.servers.value|
    ensures var u := Close(t, i);
      && u.servers.Some? && |u.servers.value| == |t.servers.value| && IsClosed(u.servers.value[i])
      && u.freed == t.freed + t.servers.value[i].queue
      && forall j | 0 <= j < |t.servers.value| && j != i :: u.servers.value[j] == t.servers.value[j]
  {
  }

  /** So does closing all of them. */
  lemma {:induction false} CloseFromCloses(t: State, i: nat)
    requires t.servers.Some? && i <= |t.servers.value|
    ensures var u := CloseFrom(t, i);
      && u.servers.Some? && |u.servers.value| == |t.servers.value|
      && (forall j | 0 <= j < |t.servers.value| ::
            if j < i then u.servers.value[j] == t.servers.value[j] else IsClosed(u.servers.value[j]))
      && u.freed == t.freed + Waiting(t.servers.value[i..])
    decreases |t.servers.value| - i
  {
    var servers := t.servers.value;
    if i < |servers| {
      var next := Close(t, i);
      CloseCloses(t, i);
      hide Close;
      CloseFromCloses(next, i + 1);
      assert servers[i..][1..] == servers[i + 1..] == next.servers.value[i + 1..];
      AppendAssoc(t.freed, servers[i].queue, Waiting(servers[i + 1..]));
    } else {
      assert t.freed + Waiting(servers[i..]) == t.freed;
    }
  }

  /** Servers with consecutive new generations. */
  function Started(counter: nat, count: nat): seq<Server> {
    seq(count, i requires 0 <= i < count => Server(counter + i + 1, false, false, [], false))
  }

  /** New servers: as many as asked for, closed, with the generations that follow the counter. */
  lemma StartedAre(counter: nat, count: nat)
    ensures |Started(counter, count)| == count
    ensures forall i | 0 <= i < count ::
      IsClosed(Started(counter, count)[i]) && Started(counter, count)[i].generation == counter + 1 + i
  {
  }

  function Install(t: State, count: nat): State {
    if count == 0 then t.(servers := None)
    else t.(counter := t.counter + count, servers := Some(Started(t.counter, count)))
  }

  /** One action; one that names no server of the channel does nothing. */
  function Step(t: State, a: Action): State {
    match a
    case SetServers(count) => Install(if t.servers.Some? then CloseFrom(t, 0) else t, count)
    case CloseAll => if t.servers.Some? then CloseFrom(t, 0) else t
    case CloseOne(i) => if t.servers.Some? && i < |t.servers.value| then Close(t, i) else t
    case OpenTcp(i) =>
      if t.servers.Some? && i < |t.servers.value| then
        t.(counter := t.counter + 1,
           servers := Some(t.servers.value[i := t.servers.value[i].(generation := t.counter + 1, tcpOpen := true)]))
      else t
    case OpenUdp(i) =>
      if t.servers.Some? && i < |t.servers.value| then
        t.(servers := Some(t.servers.value[i := t.servers.value[i].(udpOpen := true)]))
      else t
    case Enqueue(i, r) =>
      if t.servers.Some? && i < |t.servers.value| then
        t.(servers := Some(t.servers.value[i := t.servers.value[i].(queue := t.servers.value[i].queue + [r])]))
      else t
  }

  /** Opening and queueing: one server changes, and a request goes to the end of its queue. */
  lemma ActionsAre(t: State, i: nat, request: nat)
    requires t.servers.Some? && i < |t.servers.value|
    ensures var s := t.servers.value[i];
      && Step(t, Enqueue(i, request)) == t.(servers := Some(t.servers.value[i := s.(queue := s.queue + [request])]))
      && Step(t, OpenUdp(i)) == t.(servers := Some(t.servers.value[i := s.(udpOpen := true)]))
      && Step(t, OpenTcp(i)) ==
         State(t.counter + 1, Some(t.servers.value[i := s.(tcpOpen := true, generation := t.counter + 1)]), t.freed)
  {
  }

  function Run(t: State, actions: seq<Action>): State {
    if actions == [] then t else Step(Run(t, actions[..|actions| - 1]), actions[|actions| - 1])
  }

  /** A channel as allocated, before its first servers are set. */
  const FRESH := State(0, None, [])

  /** Generations are pairwise distinct and none exceeds the counter. */
  ghost predicate Sound(t: State) {
    t.servers.Some? ==>
      && (forall i | 0 <= i < |t.servers.value| :: t.servers.value[i].generation <= t.counter)
      && (forall i, j | 0 <= i < j < |t.servers.value| ::
            t.servers.value[i].generation != t.servers.value[j].generation)
  }

  /** From `t` to `u` a server kept its generation, or got one that no server had before. */
  ghost predicate Newer(t: State, u: State) {
    && t.counter <= u.counter
    && (u.servers.Some? ==> forall i | 0 <= i < |u.servers.value| ::
          || u.servers.value[i].generation > t.counter
          || (&& t.servers.Some? && i < |t.servers.value|
              && u.servers.value[i].generation == t.servers.value[i].generation))
  }

  lemma NewerTwice(t: State, u: State, v: State)
    requires Newer(t, u) && Newer(u, v)
    ensures Newer(t, v)
  {
    if v.servers.Some? {
      forall i | 0 <= i < |v.servers.value| && v.servers.value[i].generation <= t.counter
        ensures t.servers.Some? && i < |t.servers.value|
        ensures v.servers.value[i].generation == t.servers.value[i].generation
      {
        assert u.servers.Some? && i < |u.servers.value|;
        assert v.servers.value[i].generation == u.servers.value[i].generation;
      }
    }
  }

  lemma CloseKeeps(t: State, i: nat)
    requires Sound(t) && t.servers.Some? && i < |t.servers.value|
    ensures Sound(Close(t, i)) && Newer(t, Close(t, i))
  {
  }

  lemma {:induction false} CloseFromKeeps(t: State, i: nat)
    requires Sound(t) && t.servers.Some? && i <= |t.servers.value|
    ensures Sound(CloseFrom(t, i)) && Newer(t, CloseFrom(t, i))
    decreases |t.servers.value| - i
  {
    if i < |t.servers.value| {
      CloseKeeps(t, i);
      CloseFromKeeps(Close(t, i), i + 1);
      NewerTwice(t, Close(t, i), CloseFrom(Close(t, i), i + 1));
    }
  }

  lemma InstallKeeps(t: State, count: nat)
    requires Sound(t)
    ensures Sound(Install(t, count)) && Newer(t, Install(t, count))
  {
  }

  lemma OpenKeeps(t: State, i: nat)
    requires Sound(t)
    ensures Sound(Step(t, OpenTcp(i))) && Newer(t, Step(t, OpenTcp(i)))
  {
  }

  lemma SameGenerations(t: State, u: State)
    requires Sound(t) && u.counter == t.counter && u.servers.Some? == t.servers.Some?
    requires t.servers.Some? ==> |u.servers.value| == |t.servers.value|
    requires t.servers.Some? ==>
      forall i | 0 <= i < |t.servers.value| :: u.servers.value[i].generation == t.servers.value[i].generation
    ensures Sound(u) && Newer(t, u)
  {
  }

  lemma StepKeeps(t: State, a: Action)
    requires Sound(t)
    ensures Sound(Step(t, a)) && Newer(t, Step(t, a))
  {
    hide Sound;
    hide Newer;
    hide CloseFrom;
    hide Close;
    SameGenerations(t, t);
    match a
    case SetServers(count) =>
      InstallKeeps(t, count);
      if t.servers.Some? {
        CloseFromKeeps(t, 0);
        InstallKeeps(CloseFrom(t, 0), count);
        NewerTwice(t, CloseFrom(t, 0), Install(CloseFrom(t, 0), count));
      }
    case CloseAll => if t.servers.Some? { CloseFromKeeps(t, 0); }
    case CloseOne(i) => if t.servers.Some? && i < |t.servers.value| { CloseKeeps(t, i); }
    case OpenTcp(i) => OpenKeeps(t, i);
    case OpenUdp(i) => SameGenerations(t, Step(t, a));
    case Enqueue(i, r) => SameGenerations(t, Step(t, a));
  }

  /**
   * Whatever happens to a channel, its generations stay distinct and below the counter, and none is ever used again.
   */
  lemma {:induction false} RunKeeps(t: State, actions: seq<Action>)
    requires Sound(t)
    ensures Sound(Run(t, actions)) && Newer(t, Run(t, actions))
  {
    if actions != [] {
      var before := actions[..|actions| - 1];
      RunKeeps(t, before);
      StepKeeps(Run(t, before), actions[|actions| - 1]);
      NewerTwice(t, Run(t, before), Run(t, actions));
    }
  }

  lemma EveryChannelIsSound(actions: seq<Action>)
    ensures Sound(Run(FRESH, actions))
  {
    RunKeeps(FRESH, actions);
  }

  predicate HasServer(t: State, i: nat) {
    t.servers.Some? && i < |t.servers.value|
  }

  /** Closing other servers, or one that is not connected, leaves a generation as it is. */
  lemma {:induction false} KeepsPlace(t: State, from: nat, i: nat)
    requires HasServer(t, i) && from <= |t.servers.value| && (i < from || !t.servers.value[i].tcpOpen)
    ensures HasServer(CloseFrom(t, from), i)
    ensures CloseFrom(t, from).servers.value[i].generation == t.servers.value[i].generation
    decreases |t.servers.value| - from
  {
    if from < |t.servers.value| {
      KeepsPlace(Close(t, from), from + 1, i);
    }
  }

  lemma {:induction false} ClosedAnew(t: State, from: nat, i: nat)
    requires Sound(t) && t.servers.Some? && from <= i < |t.servers.value| && t.servers.value[i].tcpOpen
    ensures HasServer(CloseFrom(t, from), i) && CloseFrom(t, from).servers.value[i].generation > t.counter
    decreases i - from
  {
    CloseKeeps(t, from);
    if from < i {
      ClosedAnew(Close(t, from), from + 1, i);
    } else {
      KeepsPlace(Close(t, i), i + 1, i);
    }
  }

  /** The action ends the connection to server `i` or makes a new one. */
  predicate Renews(t: State, a: Action, i: nat) {
    || !HasServer(t, i) || a.SetServers? || a == OpenTcp(i)
    || ((a == CloseOne(i) || a == CloseAll) && t.servers.value[i].tcpOpen)
  }

  lemma NothingLeft(t: State, count: nat)
    requires Sound(t)
    ensures Step(t, SetServers(count)).servers.Some? ==>
      forall i | 0 <= i < |Step(t, SetServers(count)).servers.value| ::
        Step(t, SetServers(count)).servers.value[i].generation > t.counter
  {
    if t.servers.Some? {
      CloseFromKeeps(t, 0);
    }
  }

  /** An action keeps a server's generation exactly if it does not renew the connection. */
  lemma StepDecides(t: State, a: Action, i: nat)
    requires Sound(t) && HasServer(t, i)
    ensures HasServer(Step(t, a), i) && Step(t, a).servers.value[i].generation == t.servers.value[i].generation <==>
            !Renews(t, a, i)
  {
    match a
    case SetServers(count) => NothingLeft(t, count);
    case CloseAll => if t.servers.value[i].tcpOpen { ClosedAnew(t, 0, i); } else { KeepsPlace(t, 0, i); }
    case CloseOne(j) =>
    case OpenTcp(j) =>
    case OpenUdp(j) =>
    case Enqueue(j, r) =>
  }

  ghost predicate NeverRenewed(t: State, actions: seq<Action>, i: nat) {
    forall k | 0 <= k < |actions| :: !Renews(Run(t, actions[..k]), actions[k], i)
  }

  lemma NeverBefore(t: State, actions: seq<Action>, i: nat)
    requires actions != []
    ensures var before := actions[..|actions| - 1];
      NeverRenewed(t, actions, i) <==> NeverRenewed(t, before, i) && !Renews(Run(t, before), actions[|actions| - 1], i)
  {
    hide Run;
    hide Renews;
    var n := |actions| - 1;
    var before := actions[..n];
    assert forall k | 0 <= k < n :: before[..k] == actions[..k] && before[k] == actions[k];
    if NeverRenewed(t, before, i) && !Renews(Run(t, before), actions[n], i) {
      forall k | 0 <= k < |actions| ensures !Renews(Run(t, actions[..k]), actions[k], i) {
        if k < n {
          assert !Renews(Run(t, before[..k]), before[k], i);
        }
      }
    }
    if NeverRenewed(t, actions, i) {
      forall k | 0 <= k < n ensures !Renews(Run(t, before[..k]), before[k], i) {
        assert !Renews(Run(t, actions[..k]), actions[k], i);
      }
    }
  }

  lemma NothingRenewed(t: State, i: nat)
    ensures NeverRenewed(t, [], i)
  {
  }

  lemma RenewsNothing(t: State, a: Action, i: nat)
    ensures !Renews(t, a, i) ==> HasServer(t, i)
  {
  }

  /** A generation of `t` that is there after a further action was there before it, at the same place. */
  lemma FoundBefore(t: State, i: nat, u: State, v: State, j: nat)
    requires Sound(t) && HasServer(t, i) && Newer(t, u) && Newer(u, v) && HasServer(v, j)
    ensures v.servers.value[j].generation == t.servers.value[i].generation ==>
      HasServer(u, j) && u.servers.value[j].generation == v.servers.value[j].generation
  {
  }

  /**
    * A query that remembers a server's generation finds it again later exactly at the same place in the list, and
    * exactly if no action since has ended the connection or made a new one.
    */
  lemma {:induction false} RememberedGeneration(t: State, i: nat, actions: seq<Action>, j: nat)
    requires Sound(t) && HasServer(t, i) && HasServer(Run(t, actions), j)
    ensures Run(t, actions).servers.value[j].generation == t.servers.value[i].generation <==>
            j == i && NeverRenewed(t, actions, i)
    decreases |actions|
  {
    hide Step;
    hide Renews;
    hide NeverRenewed;
    if actions == [] {
      NothingRenewed(t, i);
    } else {
      var before, last := actions[..|actions| - 1], actions[|actions| - 1];
      var u := Run(t, before);
      RunKeeps(t, before);
      StepKeeps(u, last);
      NeverBefore(t, actions, i);
      FoundBefore(t, i, u, Step(u, last), j);
      RenewsNothing(u, last, i);
      if HasServer(u, j) {
        RememberedGeneration(t, i, before, j);
        StepDecides(u, last, j);
      }
    }
  }

  // ---------- The code ----------

  class Channel {
    var counter: nat
    var servers: Option<seq<Server>>
    var freed: seq<nat>

    ghost function Abs(): State
      reads this
    {
      State(counter, servers, freed)
    }

    constructor ()
      ensures Abs() == FRESH
    {
      counter, servers, freed := 0, None, [];
    }

    /** ares__close_sockets. */
    method CloseSockets(i: nat)
      requires servers.Some? && i < |servers.value|
      modifies this
      ensures Abs() == Close(old(Abs()), i)
    {
      var s := servers.value[i];
      while s.queue != []
        invariant unchanged(`counter, `servers)
        invariant s == servers.value[i].(queue := s.queue)
        invariant freed + s.queue == old(freed) + servers.value[i].queue
        decreases |s.queue|
      {
        assert s.queue == [s.queue[0]] + s.queue[1..];
        assert freed + s.queue == freed + [s.queue[0]] + s.queue[1..];
        freed := freed + [s.queue[0]];
        s := s.(queue := s.queue[1..]);
      }
      assert freed == freed + s.queue;
      s := s.(broken := false);
      if s.tcpOpen {
        counter := counter + 1;
        s := s.(tcpOpen := false, generation := counter);
      }
      s := s.(udpOpen := false);
      servers := Some(servers.value[i := s]);
    }

    /** The loop over all servers in ares_cancel and ares__destroy_servers_state. */
    method CloseAllSockets()
      requires servers.Some?
      modifies this
      ensures Abs() == CloseFrom(old(Abs()), 0)
    {
      var i := 0;
      while i < |servers.value|
        invariant servers.Some? && i <= |servers.value|
        invariant CloseFrom(Abs(), i) == CloseFrom(old(Abs()), 0)
        decreases |servers.value| - i
      {
        CloseSockets(i);
        i := i + 1;
      }
    }

    /** ares__init_servers_state on a list of `count` servers. */
    method InitServersState(count: nat)
      modifies this`counter, this`servers
      ensures counter == old(counter) + count && servers == Some(Started(old(counter), count))
    {
      var blank := Server(0, false, false, [], false);
      var list := seq(count, _ => blank);
      var i := 0;
      while i < count
        invariant i <= count == |list| && counter == old(counter) + i
        invariant forall j | 0 <= j < i :: list[j] == Started(old(counter), count)[j]
      {
        counter := counter + 1;
        list := list[i := Server(counter, false, false, [], false)];
        i := i + 1;
      }
      assert list == Started(old(counter), count);
      servers := Some(list);
    }

    /** ares_set_servers and ares_set_servers_ports. */
    method SetServers(count: nat)
      modifies this
      ensures Abs() == Step(old(Abs()), Action.SetServers(count))
    {
      if servers.Some? {
        CloseAllSockets();
      }
      servers := None;
      if count > 0 {
        InitServersState(count);
      }
    }
  }
}
