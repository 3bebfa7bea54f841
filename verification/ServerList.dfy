/** set_servers_csv: a list of servers, with or without ports, read from text. */
module ServerList {
  import opened Ares
  import opened Bytes
  import opened Numbers

  const COMMA: byte := 44
  const COLON: byte := 58
  const OPEN: byte := 91
  const CLOSE: byte := 93

  // ---------- One entry ----------

  function Colons(e: seq<byte>): nat {
    if e == [] then 0 else Colons(e[..|e| - 1]) + (if e[|e| - 1] == COLON then 1 else 0)
  }

  /** Where the host begins: after the last opening bracket. */
  function HostStart(e: seq<byte>): (h: nat)
    ensures h <= |e|
  {
    if e == [] then 0 else if e[|e| - 1] == OPEN then |e| else HostStart(e[..|e| - 1])
  }

  /** The character at `k` separates host and port: a colon that is the only one, or a bracket before a colon. */
  predicate Separates(e: seq<byte>, k: nat)
    requires k < |e|
  {
    (e[k] == COLON && Colons(e) == 1) || (e[k] == CLOSE && k + 1 < |e| && e[k + 1] == COLON)
  }

  /** A character that may stand in a port. */
  predicate InPort(e: seq<byte>, j: nat) {
    j < |e| && (IsDigit(e[j]) || (e[j] == COLON && Colons(e) != 1))
  }

  /** A port is given, and the host ends at `k`: what follows is digits, and colons unless a colon would separate. */
  ghost predicate PortAt(e: seq<byte>, k: nat) {
    && HostStart(e) < k && k + 1 < |e| && Separates(e, k)
    && forall j | k < j < |e| :: InPort(e, j)
  }

  lemma PortAtOnePlace(e: seq<byte>, k: nat, l: nat)
    requires PortAt(e, k) && PortAt(e, l)
    ensures k == l
  {
    assert !InPort(e, k) && !InPort(e, l);
  }

  /** An entry with several colons and no closing bracket is a bare IPv6 address: no part of it is a port. */
  lemma BareIPv6HasNoPort(e: seq<byte>, k: nat)
    requires Colons(e) > 1 && CLOSE !in e
    ensures !PortAt(e, k)
  {
  }

  /** The number of a port whose host ends at `k`. */
  ghost function PortOf(e: seq<byte>, k: nat): int
    requires PortAt(e, k)
  {
    ToInt(Strtol(e, if e[k] == CLOSE then k + 2 else k + 1))
  }

  /** The text of the host and the value of the port of an entry, 0 if none is given. */
  ghost function HostAndPort(e: seq<byte>): (seq<byte>, int) {
    if k: nat :| PortAt(e, k) then (e[HostStart(e)..k], PortOf(e, k)) else (e[HostStart(e)..], 0)
  }

  /** The server that an entry denotes. */
  ghost function EntryNode(c: Conv, usePort: bool, e: seq<byte>): Option<Node> {
    var (host, port) := HostAndPort(e);
    var shown := if usePort then port else 0;
    if c.v4(host).Some? then Some(Node(INET, c.v4(host).value, shown, shown))
    else if c.v6(host).Some? then Some(Node(INET6, c.v6(host).value, shown, shown))
    else None
  }

  /**
   * The scan stops at `q`: everything after it may stand in a port, and `q` is the host's first character or cannot.
   */
  ghost predicate StopsAt(e: seq<byte>, q: nat) {
    && q < |e| && (q <= HostStart(e) || !InPort(e, q))
    && forall j | q < j < |e| :: InPort(e, j)
  }

  lemma StopDecides(e: seq<byte>, q: nat, k: nat)
    requires StopsAt(e, q)
    ensures PortAt(e, k) <==> k == q && HostStart(e) < q && q + 1 < |e| && Separates(e, q)
  {
    assert PortAt(e, k) ==> !InPort(e, k);
    assert PortAt(e, k) && k < q ==> InPort(e, q);
  }

  lemma {:induction false} SomeColon(e: seq<byte>, k: nat)
    requires k < |e| && e[k] == COLON
    ensures Colons(e) > 0
  {
    if k < |e| - 1 {
      SomeColon(e[..|e| - 1], k);
    }
  }

  lemma NoRoomNoPort(e: seq<byte>, k: nat)
    requires HostStart(e) >= |e| || Colons(e) == 0
    ensures !PortAt(e, k)
  {
    if PortAt(e, k) && Colons(e) == 0 {
      SomeColon(e, if e[k] == COLON then k else k + 1);
    }
  }

  /** What follows the host is read from the buffer as from the entry. */
  lemma PortInBuffer(buf: seq<byte>, lo: nat, hi: nat, k: nat, p: nat)
    requires lo <= hi < |buf| && buf[hi] == NUL && PortAt(buf[lo..hi], k)
    requires p == lo + if buf[lo + k] == CLOSE then k + 2 else k + 1
    ensures p <= hi && ToInt(Strtol(buf, p)) == PortOf(buf[lo..hi], k)
  {
    hide Colons;
    hide HostStart;
    var e := buf[lo..hi];
    assert e[k] == buf[lo + k];
    if p < hi {
      assert InPort(e, p - lo) && e[p - lo] == buf[p];
    }
    hide PortAt;
    StrtolPlain(buf, p);
    StrtolPlain(e, p - lo);
    DecimalInside(buf, lo, hi, p - lo, 0);
  }

  /** The backward scan: where it leaves `pp`, and whether that is the end of a host with a port after it. */
  method FindPort(buf: array<byte>, start: nat, startHost: nat, end: nat, cc: nat) returns (found: bool, pp: int)
    requires start <= startHost <= end < buf.Length && buf[end] == NUL
    requires startHost == start + HostStart(buf[start..end]) && cc == Colons(buf[start..end]) && cc > 0
    ensures found ==> start <= pp < end && PortAt(buf[start..end], pp - start)
    ensures !found ==> forall k: nat :: !PortAt(buf[start..end], k)
  {
    hide Colons;
    hide HostStart;
    ghost var e := buf[start..end];
    pp := end - 1;
    var p, stopped := end, false;
    ghost var q := pp;
    while pp > startHost && !stopped
      invariant startHost - 1 <= pp <= end && (startHost == end ==> pp == end - 1 && !stopped)
      invariant !stopped ==> p == pp + 1 && q == pp < end
      invariant startHost <= end - 1 ==> startHost <= q < end && q - start < |e|
      invariant startHost <= end - 1 ==> forall j | q - start < j < |e| :: InPort(e, j)
      invariant stopped ==> startHost < q && !InPort(e, q - start)
      invariant stopped ==> pp == if Separates(e, q - start) then q else end
      decreases !stopped, pp
    {
      assert e[pp - start] == buf[pp];
      assert p < end ==> e[p - start] == buf[p];
      if (buf[pp] == CLOSE && buf[p] == COLON) || (buf[pp] == COLON && cc == 1) {
        stopped := true;
      } else if !(IsDigit(buf[pp]) || buf[pp] == COLON) {
        pp, p := end, end;
        stopped := true;
      } else {
        pp, p := pp - 1, p - 1;
        q := pp;
      }
    }
    found := pp != startHost && pp + 1 < end;
    forall k: nat ensures PortAt(e, k) <==> found && k == pp - start {
      if startHost == end {
        NoRoomNoPort(e, k);
      } else {
        StopDecides(e, q - start, k);
      }
    }
  }

  lemma HostAndPortIs(e: seq<byte>, k: nat)
    requires PortAt(e, k)
    ensures HostAndPort(e) == (e[HostStart(e)..k], PortOf(e, k))
  {
    hide PortOf;
    hide Colons;
    hide HostStart;
    forall l: nat | PortAt(e, l) ensures l == k {
      PortAtOnePlace(e, k, l);
    }
  }

  lemma WholeSlice(buf: array<byte>, lo: nat, hi: nat)
    requires lo <= hi <= buf.Length
    ensures buf[..][lo..hi] == buf[lo..hi]
  {
  }

  lemma SliceOfSlice(s: seq<byte>, e: seq<byte>, start: nat, lo: nat, hi: nat)
    requires start <= lo <= hi <= start + |e| <= |s| && forall j | lo <= j < hi :: s[j] == e[j - start]
    ensures s[lo..hi] == e[lo - start..hi - start] && e[lo - start..|e|] == e[lo - start..]
  {
  }

  lemma NoPortHost(e: seq<byte>)
    requires forall k: nat :: !PortAt(e, k)
    ensures HostAndPort(e) == (e[HostStart(e)..|e|], 0)
  {
    hide PortAt;
    assert e[HostStart(e)..] == e[HostStart(e)..|e|];
  }

  lemma PortInside(e: seq<byte>, k: nat)
    requires PortAt(e, k)
    ensures HostStart(e) < k && k + 1 < |e| && (e[k] == CLOSE ==> k + 2 <= |e|)
  {
  }

  /** The port is read and the host terminated in place, at `stop`. */
  method CutPort(buf: array<byte>, start: nat, startHost: nat, end: nat, cc: nat) returns (port: int, ghost stop: nat)
    requires start <= startHost <= end < buf.Length && buf[end] == NUL
    requires startHost == start + HostStart(buf[start..end]) && cc == Colons(buf[start..end])
    modifies buf
    ensures startHost <= stop <= end && buf[stop] == NUL
    ensures forall j | 0 <= j < buf.Length && j != stop :: buf[j] == old(buf[j])
    ensures HostAndPort(old(buf[start..end])) == (old(buf[start..end])[startHost - start..stop - start], port)
  {
    hide Colons;
    hide HostStart;
    hide Strtol;
    hide HostAndPort;
    hide PortAt;
    ghost var e := buf[start..end];
    port, stop := 0, end;
    if cc > 0 {
      var found, pp := FindPort(buf, start, startHost, end, cc);
      assert buf[start..end] == e;
      if found {
        PortInside(e, pp - start);
        var p := if buf[pp] == CLOSE then pp + 2 else pp + 1;
        port := ToInt(Strtol(buf[..], p));
        WholeSlice(buf, start, end);
        PortInBuffer(buf[..], start, end, pp - start, p);
        HostAndPortIs(e, pp - start);
        buf[pp] := NUL;
        stop := pp;
      } else {
        NoPortHost(e);
      }
    } else {
      forall k: nat ensures !PortAt(e, k) {
        NoRoomNoPort(e, k);
      }
      NoPortHost(e);
    }
  }

  method CutEntry(buf: array<byte>, start: nat, startHost: nat, end: nat, cc: nat) returns (host: seq<byte>, port: int)
    requires start <= startHost <= end < buf.Length && buf[end] == NUL && forall j | start <= j < end :: buf[j] != NUL
    requires startHost == start + HostStart(buf[start..end]) && cc == Colons(buf[start..end])
    modifies buf
    ensures (host, port) == HostAndPort(old(buf[start..end]))
    ensures forall j | end < j < buf.Length :: buf[j] == old(buf[j])
  {
    hide Colons;
    hide HostStart;
    hide StringFrom;
    hide HostAndPort;
    ghost var e, stop := buf[start..end], end;
    port, stop := CutPort(buf, start, startHost, end, cc);
    host := StringFrom(buf[..], startHost);
    StringUpTo(buf[..], startHost, stop);
    SliceOfSlice(buf[..], e, start, startHost, stop);
  }

  /** The branch of set_servers_csv at a comma: the entry before it is cut into strings and read. */
  method TakeEntry(c: Conv, usePort: bool, buf: array<byte>, start: nat, startHost: nat, end: nat, cc: nat)
    returns (node: Option<Node>)
    requires start <= startHost <= end < buf.Length && forall j | start <= j < end :: buf[j] != NUL
    requires startHost == start + HostStart(buf[start..end]) && cc == Colons(buf[start..end])
    modifies buf
    ensures node == EntryNode(c, usePort, old(buf[start..end]))
    ensures forall j | end < j < buf.Length :: buf[j] == old(buf[j])
  {
    hide Colons;
    hide HostStart;
    hide HostAndPort;
    hide StringFrom;
    hide Strtol;
    ghost var e := buf[start..end];
    buf[end] := NUL;
    assert buf[start..end] == e;
    var host, port := CutEntry(buf, start, startHost, end, cc);
    var shown := if usePort then port else 0;
    if c.v4(host).Some? {
      node := Some(Node(INET, c.v4(host).value, shown, shown));
    } else if c.v6(host).Some? {
      node := Some(Node(INET6, c.v6(host).value, shown, shown));
    } else {
      node := None;
    }
  }

  // ---------- The list ----------

  function NextComma(t: seq<byte>, p: nat): (k: nat)
    requires p <= |t|
    ensures p <= k <= |t| && (k < |t| ==> t[k] == COMMA)
    decreases |t| - p
  {
    if p == |t| || t[p] == COMMA then p else NextComma(t, p + 1)
  }

  function Prepend(ns: seq<Node>, rest: Option<seq<Node>>): Option<seq<Node>> {
    if rest.None? then None else Some(ns + rest.value)
  }

  /** The servers that the entries from `start` on denote, if each denotes one. */
  ghost function ServersFrom(c: Conv, usePort: bool, t: seq<byte>, start: nat): Option<seq<Node>>
    requires start <= |t|
    decreases |t| - start
  {
    var k := NextComma(t, start);
    if k == |t| then Some([])
    else if EntryNode(c, usePort, t[start..k]).None? then None
    else Prepend([EntryNode(c, usePort, t[start..k]).value], ServersFrom(c, usePort, t, k + 1))
  }

  /** The text as it is scanned: every entry ends with a comma. */
  function WithComma(text: seq<byte>): seq<byte> {
    if text != [] && text[|text| - 1] == COMMA then text else text + [COMMA]
  }

  ghost function Servers(c: Conv, usePort: bool, text: seq<byte>): Option<seq<Node>> {
    if text == [] then Some([]) else ServersFrom(c, usePort, WithComma(text), 0)
  }

  lemma {:induction false} CommaAhead(t: seq<byte>, p: nat, k: nat)
    requires p <= k <= |t| && forall j | p <= j < k :: t[j] != COMMA
    requires k < |t| ==> t[k] == COMMA
    ensures NextComma(t, p) == k
    decreases k - p
  {
    if p < k {
      CommaAhead(t, p + 1, k);
    }
  }

  lemma PrependTwice(ns: seq<Node>, n: Node, rest: Option<seq<Node>>)
    ensures Prepend(ns, Prepend([n], rest)) == Prepend(ns + [n], rest)
  {
    if rest.Some? {
      assert ns + ([n] + rest.value) == ns + [n] + rest.value;
    }
  }

  /** An entry has been read. */
  lemma OneMore(c: Conv, usePort: bool, t: seq<byte>, start: nat, k: nat, nodes: seq<Node>)
    requires start <= k < |t| && t[k] == COMMA && forall j | start <= j < k :: t[j] != COMMA
    ensures EntryNode(c, usePort, t[start..k]).None? ==> ServersFrom(c, usePort, t, start) == None
    ensures EntryNode(c, usePort, t[start..k]).Some? ==>
      Prepend(nodes, ServersFrom(c, usePort, t, start)) ==
      Prepend(nodes + [EntryNode(c, usePort, t[start..k]).value], ServersFrom(c, usePort, t, k + 1))
  {
    CommaAhead(t, start, k);
    if EntryNode(c, usePort, t[start..k]).Some? {
      PrependTwice(nodes, EntryNode(c, usePort, t[start..k]).value, ServersFrom(c, usePort, t, k + 1));
    }
  }

  lemma OneChar(t: seq<byte>, start: nat, k: nat)
    requires start <= k < |t|
    ensures Colons(t[start..k + 1]) == Colons(t[start..k]) + (if t[k] == COLON then 1 else 0)
    ensures HostStart(t[start..k + 1]) == if t[k] == OPEN then k + 1 - start else HostStart(t[start..k])
  {
    var e := t[start..k + 1];
    assert e[..|e| - 1] == t[start..k];
  }

  lemma EmptyEntry(t: seq<byte>, i: nat)
    requires i <= |t|
    ensures Colons(t[i..i]) == 0 && HostStart(t[i..i]) == 0
  {
  }

  lemma NothingBefore(rest: Option<seq<Node>>)
    ensures Prepend([], rest) == rest
  {
    if rest.Some? {
      assert [] + rest.value == rest.value;
    }
  }

  lemma AtEnd(c: Conv, usePort: bool, t: seq<byte>, start: nat, nodes: seq<Node>)
    requires start <= |t| && forall j | start <= j < |t| :: t[j] != COMMA
    ensures Prepend(nodes, ServersFrom(c, usePort, t, start)) == Some(nodes)
  {
    CommaAhead(t, start, |t|);
    assert nodes + [] == nodes;
  }

  /** From `start` on the buffer still holds the text, and its terminator. */
  ghost predicate Unread(buf: array<byte>, t: seq<byte>, start: nat)
    reads buf
  {
    && start <= |t| && buf.Length == |t| + 1 && buf[|t|] == NUL
    && forall j | start <= j < |t| :: buf[j] == t[j] && t[j] != NUL
  }

  lemma Peek(buf: array<byte>, t: seq<byte>, start: nat, ptr: nat)
    requires Unread(buf, t, start) && start <= ptr <= |t|
    ensures buf.Length == |t| + 1 && (buf[ptr] == NUL <==> ptr == |t|) && (ptr < |t| ==> buf[ptr] == t[ptr])
  {
  }

  /** The scan is at `ptr` within the entry that begins at `start`. */
  ghost predicate InEntry(t: seq<byte>, start: nat, ptr: nat, startHost: nat, cc: nat) {
    && start <= startHost <= ptr <= |t|
    && cc == Colons(t[start..ptr]) && startHost == start + HostStart(t[start..ptr])
    && forall j | start <= j < ptr :: t[j] != COMMA
  }

  lemma NewEntry(t: seq<byte>, i: nat)
    requires i <= |t|
    ensures InEntry(t, i, i, i, 0)
  {
    EmptyEntry(t, i);
  }

  lemma InEntryOn(t: seq<byte>, start: nat, ptr: nat, startHost: nat, cc: nat)
    requires InEntry(t, start, ptr, startHost, cc) && ptr < |t| && t[ptr] != COMMA
    ensures InEntry(t, start, ptr + 1, if t[ptr] == OPEN then ptr + 1 else startHost,
                    if t[ptr] == COLON then cc + 1 else cc)
  {
    OneChar(t, start, ptr);
  }

  lemma EntryIsThere(buf: array<byte>, t: seq<byte>, start: nat, ptr: nat)
    requires Unread(buf, t, start) && start <= ptr <= |t|
    ensures buf[start..ptr] == t[start..ptr]
  {
  }

  /** The scan meets a comma: the entry is read and the next one begins. */
  method AtComma(c: Conv, usePort: bool, buf: array<byte>, ghost t: seq<byte>, start: nat, startHost: nat, ptr: nat,
                 cc: nat, nodes: seq<Node>, ghost whole: Option<seq<Node>>)
      returns (ok: bool, more: seq<Node>)
    requires Unread(buf, t, start) && InEntry(t, start, ptr, startHost, cc) && ptr < |t| && t[ptr] == COMMA
    requires Prepend(nodes, ServersFrom(c, usePort, t, start)) == whole
    modifies buf
    ensures Unread(buf, t, ptr + 1)
    ensures ok ==> Prepend(more, ServersFrom(c, usePort, t, ptr + 1)) == whole
    ensures !ok ==> whole == None
  {
    hide EntryNode;
    hide ServersFrom;
    hide Colons;
    hide HostStart;
    more := nodes;
    EntryIsThere(buf, t, start, ptr);
    OneMore(c, usePort, t, start, ptr, nodes);
    var node := TakeEntry(c, usePort, buf, start, startHost, ptr, cc);
    ok := node.Some?;
    if ok {
      more := nodes + [node.value];
    }
  }

  lemma NoCommas(t: seq<byte>, start: nat, startHost: nat, cc: nat)
    requires InEntry(t, start, |t|, startHost, cc)
    ensures start <= |t| && forall j | start <= j < |t| :: t[j] != COMMA
  {
  }

  /** The loop of set_servers_csv. */
  method ScanServers(c: Conv, usePort: bool, buf: array<byte>, ghost t: seq<byte>) returns (ok: bool, nodes: seq<Node>)
    requires Unread(buf, t, 0)
    modifies buf
    ensures ok == ServersFrom(c, usePort, t, 0).Some?
    ensures ok ==> nodes == ServersFrom(c, usePort, t, 0).value
  {
    hide EntryNode;
    hide ServersFrom;
    hide InEntry;
    hide Unread;
    nodes, ok := [], true;
    ghost var whole := ServersFrom(c, usePort, t, 0);
    var start, startHost, cc, ptr := 0, 0, 0, 0;
    NewEntry(t, 0);
    NothingBefore(whole);
    Peek(buf, t, 0, 0);
    while ok && buf[ptr] != NUL
      invariant start <= ptr <= |t| && buf.Length == |t| + 1
      invariant Unread(buf, t, start)
      invariant ok ==> InEntry(t, start, ptr, startHost, cc)
      invariant ok ==> Prepend(nodes, ServersFrom(c, usePort, t, start)) == whole
      invariant !ok ==> whole == None
      decreases ok, |t| - ptr
    {
      Peek(buf, t, start, ptr);
      if buf[ptr] == COMMA {
        ok, nodes := AtComma(c, usePort, buf, t, start, startHost, ptr, cc, nodes, whole);
        start, startHost, cc := ptr + 1, ptr + 1, 0;
        NewEntry(t, start);
      } else {
        InEntryOn(t, start, ptr, startHost, cc);
        if buf[ptr] == COLON {
          cc := cc + 1;
        } else if buf[ptr] == OPEN {
          startHost := ptr + 1;
        }
      }
      ptr := ptr + 1;
    }
    if ok {
      Peek(buf, t, start, ptr);
      NoCommas(t, start, startHost, cc);
      AtEnd(c, usePort, t, start, nodes);
    }
  }

  /** set_servers_csv: success exactly when every entry denotes a server, and then those servers in order. */
  method ReadServers(c: Conv, usePort: bool, text: seq<byte>) returns (ok: bool, nodes: seq<Node>)
    requires forall ch | ch in text :: ch != NUL
    ensures ok == Servers(c, usePort, text).Some?
    ensures ok ==> nodes == Servers(c, usePort, text).value
  {
    hide ServersFrom;
    nodes, ok := [], true;
    if text != [] {
      var t := WithComma(text);
      assert forall j | 0 <= j < |t| :: t[j] == COMMA || t[j] in text;
      var buf := new byte[|t| + 1](i requires 0 <= i <= |t| => if i < |t| then t[i] else NUL);
      ok, nodes := ScanServers(c, usePort, buf, t);
    }
  }

  // ---------- Printing and reading back ----------

  /** A server with the text of its address. */
  datatype Printed = Printed(text: seq<byte>, family: Family, addr: seq<byte>, port: nat)

  /** The text is one of the address: without the list's own punctuation, and with colons only for IPv6. */
  ghost predicate IsText(c: Conv, s: Printed) {
    && s.text != [] && (forall ch | ch in s.text :: ch != COMMA && ch != OPEN && ch != CLOSE && ch != NUL)
    && (s.family == INET ==> COLON !in s.text && c.v4(s.text) == Some(s.addr))
    && (s.family == INET6 ==> Colons(s.text) >= 2 && c.v4(s.text) == None && c.v6(s.text) == Some(s.addr))
  }

  function EntryText(s: Printed): seq<byte> {
    if s.port == 0 then s.text
    else if s.family == INET then s.text + [COLON] + Digits(s.port)
    else [OPEN] + s.text + [CLOSE, COLON] + Digits(s.port)
  }

  function ListText(ss: seq<Printed>): seq<byte> {
    if ss == [] then [] else if |ss| == 1 then EntryText(ss[0]) else EntryText(ss[0]) + [COMMA] + ListText(ss[1..])
  }

  /** The server that is read: its port is what strtol and an int make of the number. */
  function AsNode(s: Printed): Node {
    var port := ToInt(ToLong(s.port));
    Node(s.family, s.addr, port, port)
  }

  lemma PortsFit(port: nat)
    ensures ToInt(ToLong(port)) == port <==> port < 0x8000_0000
  {
  }

  function AsNodes(ss: seq<Printed>): seq<Node> {
    seq(|ss|, i requires 0 <= i < |ss| => AsNode(ss[i]))
  }

  lemma {:induction false} ColonsAppend(u: seq<byte>, v: seq<byte>)
    ensures Colons(u + v) == Colons(u) + Colons(v)
    decreases |v|
  {
    if v == [] {
      assert u + v == u;
    } else {
      var w := u + v;
      assert w[..|w| - 1] == u + v[..|v| - 1];
      ColonsAppend(u, v[..|v| - 1]);
    }
  }

  lemma {:induction false} NoColons(u: seq<byte>)
    requires COLON !in u
    ensures Colons(u) == 0
  {
    if u != [] {
      assert u[|u| - 1] in u;
      NoColons(u[..|u| - 1]);
    }
  }

  lemma {:induction false} HostStartAppend(u: seq<byte>, v: seq<byte>)
    requires OPEN !in v
    ensures HostStart(u + v) == HostStart(u)
    decreases |v|
  {
    if v == [] {
      assert u + v == u;
    } else {
      var w := u + v;
      assert v[|v| - 1] in v;
      assert w[..|w| - 1] == u + v[..|v| - 1];
      HostStartAppend(u, v[..|v| - 1]);
    }
  }

  lemma PlainDigits(n: nat)
    ensures COLON !in Digits(n) && OPEN !in Digits(n) && COMMA !in Digits(n) && NUL !in Digits(n)
  {
    DigitsAreDigits(n);
  }

  lemma HostStartOfNothing()
    ensures HostStart([]) == 0 && HostStart([OPEN]) == 1
  {
  }

  lemma BareReadsBack(c: Conv, s: Printed)
    requires IsText(c, s)
    ensures HostAndPort(s.text) == (s.text, 0)
  {
    hide Strtol;
    hide Colons;
    hide HostStart;
    HostStartOfNothing();
    HostStartAppend([], s.text);
    assert [] + s.text == s.text;
    if s.family == INET {
      NoColons(s.text);
    }
    forall k: nat ensures !PortAt(s.text, k) {
      if s.family == INET {
        NoRoomNoPort(s.text, k);
      } else {
        BareIPv6HasNoPort(s.text, k);
      }
    }
    assert s.text[0..] == s.text;
  }

  lemma OneColon(text: seq<byte>, d: seq<byte>)
    requires COLON !in text && COLON !in d
    ensures Colons(text + [COLON] + d) == 1
  {
    NoColons(text);
    NoColons(d);
    ColonsAppend(text + [COLON], d);
    ColonsAppend(text, [COLON]);
    assert [COLON][..0] == [];
  }

  lemma IPv4PortReadsBack(c: Conv, s: Printed)
    requires IsText(c, s) && s.family == INET
    ensures HostAndPort(s.text + [COLON] + Digits(s.port)) == (s.text, ToInt(ToLong(s.port)))
  {
    hide HostAndPort;
    hide Colons;
    hide HostStart;
    hide Digits;
    hide Strtol;
    var d := Digits(s.port);
    var e := s.text + [COLON] + d;
    PlainDigits(s.port);
    DigitsAreDigits(s.port);
    OneColon(s.text, d);
    HostStartAppend([], e);
    HostStartOfNothing();
    assert [] + e == e;
    forall j | |s.text| < j < |e| ensures InPort(e, j) {
      assert e[j] == d[j - |s.text| - 1];
    }
    assert PortAt(e, |s.text|);
    HostAndPortIs(e, |s.text|);
    StrtolDigits(s.text + [COLON], s.port);
    assert e[0..|s.text|] == s.text;
  }

  lemma BracketColons(text: seq<byte>, d: seq<byte>)
    requires Colons(text) >= 2
    ensures Colons([OPEN] + text + [CLOSE, COLON] + d) > 1
  {
    ColonsAppend([OPEN] + text + [CLOSE, COLON], d);
    ColonsAppend([OPEN] + text, [CLOSE, COLON]);
    ColonsAppend([OPEN], text);
  }

  lemma IPv6PortReadsBack(c: Conv, s: Printed)
    requires IsText(c, s) && s.family == INET6
    ensures HostAndPort([OPEN] + s.text + [CLOSE, COLON] + Digits(s.port)) == (s.text, ToInt(ToLong(s.port)))
  {
    hide HostAndPort;
    hide Colons;
    hide HostStart;
    hide Digits;
    hide Strtol;
    HostStartOfNothing();
    var d := Digits(s.port);
    var e := [OPEN] + s.text + [CLOSE, COLON] + d;
    var k := 1 + |s.text|;
    PlainDigits(s.port);
    DigitsAreDigits(s.port);
    BracketColons(s.text, d);
    HostStartAppend([OPEN], s.text + [CLOSE, COLON] + d);
    assert [OPEN] + (s.text + [CLOSE, COLON] + d) == e;
    forall j | k < j < |e| ensures InPort(e, j) {
      if j > k + 1 {
        assert e[j] == d[j - k - 2];
      }
    }
    assert e[k] == CLOSE && e[k + 1] == COLON;
    assert PortAt(e, k);
    HostAndPortIs(e, k);
    StrtolDigits([OPEN] + s.text + [CLOSE, COLON], s.port);
    assert e[1..k] == s.text;
  }

  /** An entry is read as the server it was printed from, if an int holds its port. */
  lemma EntryReadsBack(c: Conv, s: Printed)
    requires IsText(c, s)
    ensures EntryNode(c, true, EntryText(s)) == Some(AsNode(s))
    ensures AsNode(s).udp == AsNode(s).tcp == s.port <==> s.port < 0x8000_0000
  {
    PortsFit(s.port);
    hide HostAndPort;
    hide Digits;
    if s.port == 0 {
      BareReadsBack(c, s);
    } else if s.family == INET {
      IPv4PortReadsBack(c, s);
    } else {
      IPv6PortReadsBack(c, s);
    }
  }

  lemma EntryIsPlain(c: Conv, s: Printed)
    requires IsText(c, s)
    ensures EntryText(s) != [] && forall i | 0 <= i < |EntryText(s)| :: EntryText(s)[i] != COMMA
  {
    hide Digits;
    PlainDigits(s.port);
    var e, d := EntryText(s), Digits(s.port);
    forall i | 0 <= i < |e| ensures e[i] != COMMA {
      assert e[i] in s.text || e[i] in d || e[i] in [OPEN, CLOSE, COLON];
    }
  }

  lemma {:induction false} CommaAfter(u: seq<byte>, t: seq<byte>, start: nat)
    requires start <= |t|
    ensures NextComma(u + t, |u| + start) == |u| + NextComma(t, start)
    decreases |t| - start
  {
    if start < |t| {
      assert (u + t)[|u| + start] == t[start];
      if t[start] != COMMA {
        CommaAfter(u, t, start + 1);
      }
    }
  }

  /** What is read from a place on depends on the text from there on. */
  lemma {:induction false} ReadsAfter(c: Conv, usePort: bool, u: seq<byte>, t: seq<byte>, start: nat)
    requires start <= |t|
    ensures ServersFrom(c, usePort, u + t, |u| + start) == ServersFrom(c, usePort, t, start)
    decreases |t| - start
  {
    hide EntryNode;
    var k := NextComma(t, start);
    CommaAfter(u, t, start);
    if k < |t| {
      assert (u + t)[|u| + start..|u| + k] == t[start..k];
      ReadsAfter(c, usePort, u, t, k + 1);
    }
  }

  /** Every entry followed by a comma. */
  function Terminated(ss: seq<Printed>): seq<byte> {
    if ss == [] then [] else EntryText(ss[0]) + [COMMA] + Terminated(ss[1..])
  }

  lemma {:induction false} ListIsTerminated(c: Conv, ss: seq<Printed>)
    requires ss != [] && forall s | s in ss :: IsText(c, s)
    ensures ListText(ss) != [] && ListText(ss)[|ListText(ss)| - 1] != COMMA
    ensures ListText(ss) + [COMMA] == Terminated(ss)
  {
    hide EntryText;
    EntryIsPlain(c, ss[0]);
    if |ss| == 1 {
      assert ss[1..] == [];
      assert EntryText(ss[0]) + [COMMA] + [] == EntryText(ss[0]) + [COMMA];
    } else {
      assert forall s | s in ss[1..] :: s in ss;
      ListIsTerminated(c, ss[1..]);
      assert ListText(ss) + [COMMA] == EntryText(ss[0]) + [COMMA] + (ListText(ss[1..]) + [COMMA]);
    }
  }

  lemma FirstEntry(c: Conv, usePort: bool, e: seq<byte>, rest: seq<byte>)
    requires forall i | 0 <= i < |e| :: e[i] != COMMA
    requires EntryNode(c, usePort, e).Some?
    ensures ServersFrom(c, usePort, e + [COMMA] + rest, 0) ==
            Prepend([EntryNode(c, usePort, e).value], ServersFrom(c, usePort, rest, 0))
  {
    hide EntryNode;
    var t := e + [COMMA] + rest;
    CommaAhead(t, 0, |e|);
    assert t[0..|e|] == e;
    ReadsAfter(c, usePort, e + [COMMA], rest, 0);
  }

  lemma {:induction false} TerminatedReadsBack(c: Conv, ss: seq<Printed>)
    requires forall s | s in ss :: IsText(c, s)
    ensures ServersFrom(c, true, Terminated(ss), 0) == Some(AsNodes(ss))
  {
    hide EntryText;
    hide EntryNode;
    hide IsText;
    if ss != [] {
      assert forall s | s in ss[1..] :: s in ss;
      TerminatedReadsBack(c, ss[1..]);
      EntryReadsBack(c, ss[0]);
      EntryIsPlain(c, ss[0]);
      FirstEntry(c, true, EntryText(ss[0]), Terminated(ss[1..]));
      assert AsNodes(ss) == [AsNodes(ss)[0]] + AsNodes(ss[1..]);
    }
  }

  /** A list that was printed is read back as the same servers in the same order, with their ports. */
  lemma ListReadsBack(c: Conv, ss: seq<Printed>)
    requires forall s | s in ss :: IsText(c, s)
    ensures Servers(c, true, ListText(ss)) == Some(AsNodes(ss))
  {
    if ss != [] {
      ListIsTerminated(c, ss);
      TerminatedReadsBack(c, ss);
    } else {
      assert AsNodes(ss) == [];
    }
  }

  /** Brackets are for an address with a port: around one without, they become part of the host. */
  lemma BracketsNeedPort(text: seq<byte>)
    requires text != [] && OPEN !in text && forall i | 0 <= i < |text| :: text[i] != CLOSE
    ensures HostAndPort([OPEN] + text + [CLOSE]) == (text + [CLOSE], 0)
  {
    hide Strtol;
    hide Colons;
    hide HostStart;
    HostStartOfNothing();
    var e := [OPEN] + text + [CLOSE];
    HostStartAppend([OPEN], text + [CLOSE]);
    assert [OPEN] + (text + [CLOSE]) == e;
    assert !InPort(e, |e| - 1);
    assert e[1..] == text + [CLOSE];
  }

  // ---------- Lists of any entries ----------

  predicate NoComma(e: seq<byte>) {
    forall i | 0 <= i < |e| :: e[i] != 44
  }

  /** Entries with commas between them. */
  function Joined(es: seq<seq<byte>>): seq<byte>
    requires es != []
  {
    if |es| == 1 then es[0] else es[0] + [44] + Joined(es[1..])
  }

  /** The servers of all entries, if each denotes one. */
  ghost function AllNodes(c: Conv, usePort: bool, es: seq<seq<byte>>): Option<seq<Node>> {
    if es == [] then Some([])
    else if EntryNode(c, usePort, es[0]).None? then None
    else Prepend([EntryNode(c, usePort, es[0]).value], AllNodes(c, usePort, es[1..]))
  }

  lemma AnyEntry(c: Conv, usePort: bool, e: seq<byte>, rest: seq<byte>)
    requires NoComma(e)
    ensures ServersFrom(c, usePort, e + [44] + rest, 0) ==
      if EntryNode(c, usePort, e).None? then None
      else Prepend([EntryNode(c, usePort, e).value], ServersFrom(c, usePort, rest, 0))
  {
    hide EntryNode;
    if EntryNode(c, usePort, e).Some? {
      FirstEntry(c, usePort, e, rest);
    } else {
      var t := e + [44] + rest;
      CommaAhead(t, 0, |e|);
      assert t[0..|e|] == e;
    }
  }

  lemma NothingRead(c: Conv, usePort: bool)
    ensures ServersFrom(c, usePort, [], 0) == Some([])
  {
  }

  lemma {:induction false} EntriesRead(c: Conv, usePort: bool, es: seq<seq<byte>>)
    requires es != [] && forall e | e in es :: NoComma(e)
    ensures ServersFrom(c, usePort, Joined(es) + [44], 0) == AllNodes(c, usePort, es)
  {
    hide EntryNode;
    hide ServersFrom;
    assert es[0] in es;
    if |es| == 1 {
      assert es[0] + [44] + [] == Joined(es) + [44] && es[1..] == [];
      AnyEntry(c, usePort, es[0], []);
      NothingRead(c, usePort);
    } else {
      assert forall e | e in es[1..] :: e in es;
      EntriesRead(c, usePort, es[1..]);
      AnyEntry(c, usePort, es[0], Joined(es[1..]) + [44]);
      assert Joined(es) + [44] == es[0] + [44] + (Joined(es[1..]) + [44]);
    }
  }

  lemma {:induction false} LastOctet(es: seq<seq<byte>>)
    requires es != [] && (forall e | e in es :: NoComma(e)) && es[|es| - 1] != []
    ensures Joined(es) != [] && Joined(es)[|Joined(es)| - 1] != 44
  {
    assert es[0] in es;
    if |es| > 1 {
      assert forall e | e in es[1..] :: e in es;
      LastOctet(es[1..]);
    }
  }

  /**
   * Any text with something in its last entry: success exactly if each entry between commas denotes a server, and then
   * those in order. One comma at the end makes no difference.
   */
  lemma ListIs(c: Conv, usePort: bool, es: seq<seq<byte>>)
    requires es != [] && (forall e | e in es :: NoComma(e)) && es[|es| - 1] != []
    ensures Servers(c, usePort, Joined(es)) == AllNodes(c, usePort, es)
    ensures Servers(c, usePort, Joined(es) + [44]) == AllNodes(c, usePort, es)
  {
    hide ServersFrom;
    LastOctet(es);
    EntriesRead(c, usePort, es);
  }

  /** When ports are not asked for, they are read over: the same addresses, with the channel's ports. */
  lemma PortsIgnored(c: Conv, e: seq<byte>)
    ensures EntryNode(c, false, e).Some? <==> EntryNode(c, true, e).Some?
    ensures EntryNode(c, false, e).Some? ==>
      EntryNode(c, false, e).value == EntryNode(c, true, e).value.(udp := 0, tcp := 0)
  {
    hide HostAndPort;
  }

  /** IPv4 is tried before IPv6, on the text of the host. */
  lemma EntryIs(c: Conv, e: seq<byte>)
    ensures var host, port := HostAndPort(e).0, HostAndPort(e).1;
      && (EntryNode(c, true, e).None? <==> c.v4(host).None? && c.v6(host).None?)
      && (c.v4(host).Some? ==> EntryNode(c, true, e) == Some(Node(INET, c.v4(host).value, port, port)))
      && (c.v4(host).None? && c.v6(host).Some? ==>
            EntryNode(c, true, e) == Some(Node(INET6, c.v6(host).value, port, port)))
  {
    hide HostAndPort;
  }

  /**
   * Where a host ends and a port begins: at the only colon, with digits after it and nothing else; or at a bracket with
   * a colon after it, and then digits and more colons. A host is not empty.
   */
  lemma PortShapes(e: seq<byte>, k: nat)
    ensures PortAt(e, k) <==>
      && HostStart(e) < k < |e| - 1
      && if Colons(e) == 1 then
           && (forall j | k + 1 < j < |e| :: 48 <= e[j] <= 57)
           && (if e[k] == 58 then 48 <= e[k + 1] <= 57 else false)
         else
           && e[k] == 93 && e[k + 1] == 58
           && forall j | k + 1 < j < |e| :: 48 <= e[j] <= 57 || e[j] == 58
  {
    hide Colons;
    hide HostStart;
    if PortAt(e, k) {
      assert InPort(e, k + 1);
      forall j | k + 1 < j < |e| ensures 48 <= e[j] <= 57 || (e[j] == 58 && Colons(e) != 1) {
        assert InPort(e, j);
      }
    }
  }
}
