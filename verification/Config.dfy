/** Channel configuration: four sources in order of precedence, and the duplication of a configured channel. */
module Config {
  import opened Ares
  import opened Bytes
  import opened Words
  import opened ConfigText
  import opened Numbers
  import ServerList
  import opened SortAddresses

  const PRIMARY := 2
  const DEFAULT_TIMEOUT := 5000
  const DEFAULT_TRIES := 4
  type port = p: int | 0 <= p < 0x1_0000

  const NAMESERVER_PORT: port := 53
  const EDNSPACKETSZ := 1280
  const LOOPBACK: seq<byte> := [127, 0, 0, 1]

  /** A 16-bit word with its octets exchanged (htons and ntohs on a little-endian machine). */
  function Swap16(p: port): port {
    (p % 256) * 256 + p / 256
  }

  lemma SwapTwice(p: port)
    ensures Swap16(Swap16(p)) == p
  {
    assert Swap16(p) % 256 == p / 256;
    assert Swap16(p) / 256 == p % 256;
  }

  /** A name server; the ports are in network order, and 0 stands for the channel's own. */
  datatype Server = Server(family: Family, addr: seq<byte>, udp: port, tcp: port)

  /** A server that the options structure can carry. */
  predicate IsPlain(s: Server) {
    s.family == INET && s.udp == 0 && s.tcp == 0
  }

  datatype OptionBit = FLAGS | TIMEOUT | TIMEOUTMS | TRIES | NDOTS | ROTATE | NOROTATE | UDP_PORT | TCP_PORT
    | SOCK_STATE_CB | SOCK_SNDBUF | SOCK_RCVBUF | EDNSPSZ | SERVERS | DOMAINS | LOOKUPS | SORTLIST

  /** struct ares_options. */
  datatype Options = Options(flags: int, timeout: int, tries: int, ndots: int, udp: port, tcp: port, stateCb: nat,
                             sndbuf: int, rcvbuf: int, ednspsz: int, servers: seq<seq<byte>>, domains: seq<seq<byte>>,
                             lookups: string, sortlist: seq<Pattern>)

  /** LOCALDOMAIN and RES_OPTIONS. */
  datatype Env = Env(localDomain: Option<seq<byte>>, resOptions: Option<seq<byte>>)

  function EnvWords(env: Env): seq<Word> {
    if env.resOptions.Some? then WordsFrom(env.resOptions.value, 0) else []
  }

  function EnvDomains(env: Env): Option<seq<seq<byte>>> {
    if env.localDomain.Some? then Some(Pieces(env.localDomain.value, 0)) else None
  }

  /** A line of resolv.conf by its keyword. */
  datatype Line =
    | SearchLine(text: seq<byte>)
    | DomainLine(text: seq<byte>)
    | LookupLine(order: string)
    | NameserverLine(servers: seq<Server>)
    | SortlistLine(patterns: seq<Pattern>)
    | OptionsLine(text: seq<byte>)
    | OtherLine

  /** The domains of a search line; a domain line has one at most. */
  function SearchOf(line: Line): Option<seq<seq<byte>>> {
    if line.SearchLine? then Some(Pieces(line.text, 0))
    else if line.DomainLine? then Some(Pieces(line.text[..WordEnd(line.text, 0)], 0))
    else None
  }

  function WordsOf(line: Line): seq<Word> {
    if line.OptionsLine? then WordsFrom(line.text, 0) else []
  }

  /** resolv.conf, and the lookup order found in the files consulted after it. A missing file has no lines. */
  datatype Files = Unreadable | Files(lines: seq<Line>, elsewhere: Option<string>)

  /** The kernel's host name: unavailable, or what follows its first dot. */
  datatype HostName = NoName | HostName(domain: Option<seq<byte>>)

  // ---------- First value that is not the sentinel ----------

  function OrElse(a: int, b: int): int {
    if a != -1 then a else b
  }

  predicate IsKind(w: Word, kind: Word) {
    match kind
    case NdotsWord(_) => w.NdotsWord?
    case RetransWord(_) => w.RetransWord?
    case RetryWord(_) => w.RetryWord?
    case RotateWord => w.RotateWord?
  }

  function ValueOf(w: Word): int {
    if w.RotateWord? then 1 else w.value
  }

  /** The first value other than -1 that the words give for a setting, or -1. */
  function FirstIn(words: seq<Word>, kind: Word): int {
    if words == [] then -1
    else
      var w := words[|words| - 1];
      OrElse(FirstIn(words[..|words| - 1], kind), if IsKind(w, kind) then ValueOf(w) else -1)
  }

  /** All words of the options lines, in order. */
  function LineWords(lines: seq<Line>): seq<Word> {
    if lines == [] then []
    else LineWords(lines[..|lines| - 1]) + WordsOf(lines[|lines| - 1])
  }

  function Nameservers(lines: seq<Line>): seq<Server> {
    if lines == [] then []
    else
      Nameservers(lines[..|lines| - 1])
      + (if lines[|lines| - 1].NameserverLine? then lines[|lines| - 1].servers else [])
  }

  function Patterns(lines: seq<Line>): seq<Pattern> {
    if lines == [] then []
    else Patterns(lines[..|lines| - 1]) + (if lines[|lines| - 1].SortlistLine? then lines[|lines| - 1].patterns else [])
  }

  function FirstSome<T>(a: Option<T>, b: Option<T>): Option<T> {
    if a.Some? then a else b
  }

  /** The last search or domain line counts, and the first lookup line. */
  function LastSearch(lines: seq<Line>): Option<seq<seq<byte>>> {
    if lines == [] then None
    else FirstSome(SearchOf(lines[|lines| - 1]), LastSearch(lines[..|lines| - 1]))
  }

  function FirstLookup(lines: seq<Line>): Option<string> {
    if lines == [] then None
    else if FirstLookup(lines[..|lines| - 1]).Some? then FirstLookup(lines[..|lines| - 1])
    else if lines[|lines| - 1].LookupLine? then Some(lines[|lines| - 1].order)
    else None
  }

  function IfAny<T(==)>(s: seq<T>): Option<seq<T>> {
    if s == [] then None else Some(s)
  }

  /** No word of the kind gives a value. */
  ghost predicate NoValue(words: seq<Word>, kind: Word) {
    forall i | 0 <= i < |words| :: IsKind(words[i], kind) ==> ValueOf(words[i]) == -1
  }

  lemma {:induction false} FirstInNone(words: seq<Word>, kind: Word)
    ensures FirstIn(words, kind) == -1 <==> NoValue(words, kind)
  {
    hide IsKind;
    if words != [] {
      var n := |words| - 1;
      FirstInNone(words[..n], kind);
      assert NoValue(words, kind) ==> NoValue(words[..n], kind);
      assert FirstIn(words, kind) ==
        OrElse(FirstIn(words[..n], kind), if IsKind(words[n], kind) then ValueOf(words[n]) else -1);
    }
  }

  /** What FirstIn picks: the first word of the kind whose value is not -1. */
  lemma {:induction false} FirstInIs(words: seq<Word>, kind: Word) returns (i: nat)
    requires FirstIn(words, kind) != -1
    ensures i < |words| && IsKind(words[i], kind) && ValueOf(words[i]) == FirstIn(words, kind)
    ensures NoValue(words[..i], kind)
  {
    hide IsKind;
    var n := |words| - 1;
    if FirstIn(words[..n], kind) != -1 {
      i := FirstInIs(words[..n], kind);
      assert words[..n][..i] == words[..i];
    } else {
      FirstInNone(words[..n], kind);
      i := n;
    }
  }

  lemma {:induction false} FirstInAppend(u: seq<Word>, v: seq<Word>, kind: Word)
    ensures FirstIn(u + v, kind) == OrElse(FirstIn(u, kind), FirstIn(v, kind))
    decreases |v|
  {
    if v == [] {
      assert u + v == u;
    } else {
      var w := u + v;
      assert w[..|w| - 1] == u + v[..|v| - 1];
      FirstInAppend(u, v[..|v| - 1], kind);
    }
  }

  lemma FirstInOne(w: Word)
    ensures forall kind :: FirstIn([w], kind) == if IsKind(w, kind) then ValueOf(w) else -1
  {
    assert [w][..0] == [];
  }

  lemma OneWord(t: seq<byte>, p: nat)
    requires p < |t|
    ensures p < WordStart(t, WordEnd(t, p))
    ensures WordsFrom(t, p) == KnownWord(t, p, WordEnd(t, p)) + WordsFrom(t, WordStart(t, WordEnd(t, p)))
  {
    PieceEnds(t, p);
  }

  lemma NoMoreWords(t: seq<byte>)
    ensures WordsFrom(t, |t|) == []
  {
  }

  lemma NamesDiffer(t: seq<byte>, p: nat, q: nat)
    requires p <= q <= |t|
    ensures Begins(t, p, q, NDOTS_TEXT) ==>
      !Begins(t, p, q, RETRANS_TEXT) && !Begins(t, p, q, RETRY_TEXT) && !Begins(t, p, q, ROTATE_TEXT)
    ensures Begins(t, p, q, RETRANS_TEXT) ==> !Begins(t, p, q, RETRY_TEXT) && !Begins(t, p, q, ROTATE_TEXT)
    ensures Begins(t, p, q, RETRY_TEXT) ==> !Begins(t, p, q, ROTATE_TEXT)
  {
    if Begins(t, p, q, NDOTS_TEXT) {
      assert t[p] == t[p..p + |NDOTS_TEXT|][0] == 110;
    }
    if Begins(t, p, q, RETRANS_TEXT) {
      assert t[p + 1] == t[p..p + |RETRANS_TEXT|][1] == 101 && t[p + 4] == t[p..p + |RETRANS_TEXT|][4] == 97;
    }
    if Begins(t, p, q, RETRY_TEXT) {
      assert t[p] == t[p..p + |RETRY_TEXT|][0] == 114 && t[p + 1] == t[p..p + |RETRY_TEXT|][1] == 101;
      assert t[p + 4] == t[p..p + |RETRY_TEXT|][4] == 121;
    }
    if Begins(t, p, q, ROTATE_TEXT) {
      assert t[p] == t[p..p + |ROTATE_TEXT|][0] == 114 && t[p + 1] == t[p..p + |ROTATE_TEXT|][1] == 111;
    }
  }

  lemma FirstInKnown(words: seq<Word>)
    requires |words| <= 1
    ensures forall kind ::
      FirstIn(words, kind) == if |words| == 1 && IsKind(words[0], kind) then ValueOf(words[0]) else -1
  {
    if |words| == 1 {
      FirstInOne(words[0]);
      assert words == [words[0]];
    }
  }

  lemma RotateText()
    ensures WordsFrom(ROTATE_TEXT, 0) == [RotateWord]
  {
    var t := ROTATE_TEXT;
    assert WordEnd(t, 6) == 6 && WordEnd(t, 5) == 6 && WordEnd(t, 4) == 6 && WordEnd(t, 3) == 6;
    assert WordEnd(t, 2) == 6 && WordEnd(t, 1) == 6 && WordEnd(t, 0) == 6 && WordStart(t, 6) == 6;
    assert t[0..6] == t;
    NamesDiffer(t, 0, 6);
    assert Begins(t, 0, 6, ROTATE_TEXT);
    assert KnownWord(t, 0, 6) == [RotateWord];
    assert WordsFrom(t, 0) == KnownWord(t, 0, 6) + WordsFrom(t, 6);
  }

  // ---------- The channel ----------

  /** The plain settings of struct ares_channeldata; -1 means not set yet. */
  datatype Settings = Settings(flags: int, timeout: int, tries: int, ndots: int, rotate: int, udp: int, tcp: int,
                               ednspsz: int, sndbuf: int, rcvbuf: int)

  const UNSET := Settings(-1, -1, -1, -1, -1, -1, -1, -1, -1, -1)

  /** `s` with the four settings that text can change filled in from `words` where they were not set. */
  function Fill(s: Settings, words: seq<Word>): Settings {
    s.(ndots := OrElse(s.ndots, FirstIn(words, NdotsWord(0))),
       timeout := OrElse(s.timeout, FirstIn(words, RetransWord(0))),
       tries := OrElse(s.tries, FirstIn(words, RetryWord(0))),
       rotate := OrElse(s.rotate, FirstIn(words, RotateWord)))
  }

  lemma FillTwice(s: Settings, u: seq<Word>, v: seq<Word>)
    ensures Fill(Fill(s, u), v) == Fill(s, u + v)
  {
    FirstInAppend(u, v, NdotsWord(0));
    FirstInAppend(u, v, RetransWord(0));
    FirstInAppend(u, v, RetryWord(0));
    FirstInAppend(u, v, RotateWord);
  }

  lemma FillNothing(s: Settings)
    ensures Fill(s, []) == s
  {
  }

  function ToServer(n: Node): Server {
    Server(n.family, n.addr, Swap16(n.udp % 0x1_0000), Swap16(n.tcp % 0x1_0000))
  }

  lemma LowOctets(v: int)
    ensures (v % 0x1_0000) % 256 == v % 256 && (v % 0x1_0000) / 256 == (v / 256) % 256
  {
  }

  /** A server keeps the low sixteen bits of its ports, with the octets exchanged. */
  lemma PortsExchanged(n: Node)
    ensures ToServer(n).family == n.family && ToServer(n).addr == n.addr
    ensures ToServer(n).udp == (n.udp % 256) * 256 + (n.udp / 256) % 256
    ensures ToServer(n).tcp == (n.tcp % 256) * 256 + (n.tcp / 256) % 256
  {
    LowOctets(n.udp);
    LowOctets(n.tcp);
  }

  /** What a channel holds once it has been given a list of servers. */
  function Installed(nodes: seq<Node>): Option<seq<Server>> {
    if nodes == [] then None else Some(seq(|nodes|, i requires 0 <= i < |nodes| => ToServer(nodes[i])))
  }

  lemma IsInstalled(servers: Option<seq<Server>>, nodes: seq<Node>)
    requires nodes == [] ==> servers == None
    requires nodes != [] ==> servers.Some? && |servers.value| == |nodes|
    requires nodes != [] ==> forall i | 0 <= i < |nodes| :: servers.value[i] == ToServer(nodes[i])
    ensures servers == Installed(nodes)
  {
    hide ToServer;
    if nodes != [] {
      assert servers.value == Installed(nodes).value;
    }
  }

  /** The settings that the options structure gives. */
  function Given(o: Options, mask: set<OptionBit>): Settings {
    Settings(
      if FLAGS in mask then o.flags else -1,
      if TIMEOUTMS in mask then o.timeout else if TIMEOUT in mask then o.timeout * 1000 else -1,
      if TRIES in mask then o.tries else -1,
      if NDOTS in mask then o.ndots else -1,
      if ROTATE in mask then 1 else if NOROTATE in mask then 0 else -1,
      if UDP_PORT in mask then Swap16(o.udp) else -1,
      if TCP_PORT in mask then Swap16(o.tcp) else -1,
      if EDNSPSZ in mask then o.ednspsz else -1,
      if SOCK_SNDBUF in mask then o.sndbuf else -1,
      if SOCK_RCVBUF in mask then o.rcvbuf else -1)
  }

  /** The settings with a default for each that has one. */
  function Defaulted(s: Settings): Settings {
    Settings(OrElse(s.flags, 0), OrElse(s.timeout, DEFAULT_TIMEOUT), OrElse(s.tries, DEFAULT_TRIES), OrElse(s.ndots, 1),
             OrElse(s.rotate, 0), OrElse(s.udp, Swap16(NAMESERVER_PORT)), OrElse(s.tcp, Swap16(NAMESERVER_PORT)),
             OrElse(s.ednspsz, EDNSPACKETSZ), s.sndbuf, s.rcvbuf)
  }

  function AsServers(addrs: seq<seq<byte>>): seq<Server> {
    seq(|addrs|, i requires 0 <= i < |addrs| => Server(INET, addrs[i], 0, 0))
  }

  lemma NoLines()
    ensures LastSearch([]) == None && FirstLookup([]) == None && Nameservers([]) == [] && Patterns([]) == []
    ensures LineWords([]) == []
  {
  }

  lemma OneMoreLine(lines: seq<Line>, i: nat)
    requires i < |lines|
    ensures LastSearch(lines[..i + 1]) == FirstSome(SearchOf(lines[i]), LastSearch(lines[..i]))
    ensures FirstLookup(lines[..i + 1]) ==
            FirstSome(FirstLookup(lines[..i]), if lines[i].LookupLine? then Some(lines[i].order) else None)
    ensures Nameservers(lines[..i + 1]) ==
            Nameservers(lines[..i]) + (if lines[i].NameserverLine? then lines[i].servers else [])
    ensures Patterns(lines[..i + 1]) ==
      Patterns(lines[..i]) + (if lines[i].SortlistLine? then lines[i].patterns else [])
    ensures LineWords(lines[..i + 1]) == LineWords(lines[..i]) + WordsOf(lines[i])
  {
    assert lines[..i + 1][..i] == lines[..i];
  }

  function HostDomains(host: HostName): Option<seq<seq<byte>>> {
    if host.HostName? && host.domain.Some? then Some([host.domain.value]) else Some([])
  }

  /** The loop of init_by_options over the IPv4 addresses. */
  method CopyServers(addrs: seq<seq<byte>>) returns (servers: seq<Server>)
    ensures servers == AsServers(addrs)
  {
    var filled := new Server[|addrs|](_ => Server(INET, [], 0, 0));
    var i := 0;
    while i < |addrs|
      invariant i <= |addrs|
      invariant filled[..i] == AsServers(addrs)[..i]
    {
      filled[i] := Server(INET, addrs[i], 0, 0);
      i := i + 1;
    }
    servers := filled[..];
  }

  method SetTimes(o: Options, mask: set<OptionBit>, s: Settings) returns (t: Settings)
    requires s == UNSET
    ensures t == Given(o, mask).(udp := -1, tcp := -1, ednspsz := -1, sndbuf := -1, rcvbuf := -1)
  {
    hide Swap16;
    var flags := if FLAGS in mask && s.flags == -1 then o.flags else s.flags;
    var timeout := if TIMEOUTMS in mask && s.timeout == -1 then o.timeout
                   else if TIMEOUT in mask && s.timeout == -1 then o.timeout * 1000
                   else s.timeout;
    var tries := if TRIES in mask && s.tries == -1 then o.tries else s.tries;
    var ndots := if NDOTS in mask && s.ndots == -1 then o.ndots else s.ndots;
    var rotate := if ROTATE in mask && s.rotate == -1 then 1 else s.rotate;
    rotate := if NOROTATE in mask && rotate == -1 then 0 else rotate;
    t := s.(flags := flags, timeout := timeout, tries := tries, ndots := ndots, rotate := rotate);
  }

  method SetPorts(o: Options, mask: set<OptionBit>, s: Settings) returns (t: Settings)
    requires s == Given(o, mask).(udp := -1, tcp := -1, ednspsz := -1, sndbuf := -1, rcvbuf := -1)
    ensures t == Given(o, mask)
  {
    hide Swap16;
    var udp := if UDP_PORT in mask && s.udp == -1 then Swap16(o.udp) else s.udp;
    var tcp := if TCP_PORT in mask && s.tcp == -1 then Swap16(o.tcp) else s.tcp;
    var sndbuf := if SOCK_SNDBUF in mask && s.sndbuf == -1 then o.sndbuf else s.sndbuf;
    var rcvbuf := if SOCK_RCVBUF in mask && s.rcvbuf == -1 then o.rcvbuf else s.rcvbuf;
    var ednspsz := if EDNSPSZ in mask && s.ednspsz == -1 then o.ednspsz else s.ednspsz;
    t := s.(udp := udp, tcp := tcp, ednspsz := ednspsz, sndbuf := sndbuf, rcvbuf := rcvbuf);
  }

  /** The configuration of a channel; None means not set yet. */
  class Channel {
    var plain: Settings
    var servers: Option<seq<Server>>
    var domains: Option<seq<seq<byte>>>
    var sortlist: Option<seq<Pattern>>
    var lookups: Option<string>
    var stateCb: nat
    var createCb: nat
    var configCb: nat
    var local: (string, nat, seq<byte>)

    /** Everything at its distinguished value. */
    constructor ()
      ensures plain == UNSET && stateCb == 0
      ensures servers == None && domains == None && sortlist == None && lookups == None
    {
      plain := UNSET;
      servers, domains, sortlist, lookups := None, None, None, None;
      stateCb, createCb, configCb, local := 0, 0, 0, ("", 0, []);
    }

    /** ARES_CONFIG_CHECK. */
    predicate Complete()
      reads this
    {
      && lookups.Some? && sortlist.Some? && servers.Some? && domains.Some?
      && plain.ndots > -1 && plain.timeout > -1 && plain.tries > -1
    }

    /** What initialisation leaves behind, and nothing undoes. */
    ghost predicate Ready()
      reads this
    {
      && plain.flags != -1 && plain.rotate in {0, 1}
      && 0 <= plain.udp < 0x1_0000 && 0 <= plain.tcp < 0x1_0000
    }

    /** The first part of init_by_options: the plain settings. */
    method SetNumbers(o: Options, mask: set<OptionBit>)
      requires plain == UNSET
      modifies this`plain
      ensures plain == Given(o, mask)
    {
      hide Swap16;
      var s := SetTimes(o, mask, plain);
      plain := SetPorts(o, mask, s);
    }

    /** init_by_options, which comes first. */
    method InitByOptions(o: Options, mask: set<OptionBit>)
      requires plain == UNSET && servers == None && domains == None && sortlist == None && lookups == None
      requires stateCb == 0
      modifies this
      ensures plain == Given(o, mask)
      ensures stateCb == (if SOCK_STATE_CB in mask then o.stateCb else 0)
      ensures servers == (if SERVERS in mask then Some(AsServers(o.servers)) else None)
      ensures domains == (if DOMAINS in mask then Some(o.domains) else None)
      ensures lookups == (if LOOKUPS in mask then Some(o.lookups) else None)
      ensures sortlist == (if SORTLIST in mask then Some(o.sortlist) else None)
    {
      hide AsServers;
      SetNumbers(o, mask);
      var copied := CopyServers(o.servers);
      servers := if SERVERS in mask then Some(copied) else servers;
      domains := if DOMAINS in mask then Some(o.domains) else domains;
      lookups := if LOOKUPS in mask then Some(o.lookups) else lookups;
      sortlist := if SORTLIST in mask then Some(o.sortlist) else sortlist;
      stateCb := if SOCK_STATE_CB in mask && stateCb == 0 then o.stateCb else stateCb;
    }

    /** One word of set_options: at most one of the four names fits. */
    method TakeWord(t: seq<byte>, p: nat, q: nat)
      requires p <= q <= |t|
      modifies this`plain
      ensures plain == Fill(old(plain), KnownWord(t, p, q))
    {
      hide Number;
      hide FirstIn;
      NamesDiffer(t, p, q);
      FirstInKnown(KnownWord(t, p, q));
      if Begins(t, p, q, NDOTS_TEXT) && plain.ndots == -1 {
        plain := plain.(ndots := Number(t, p + |NDOTS_TEXT|));
      }
      if Begins(t, p, q, RETRANS_TEXT) && plain.timeout == -1 {
        plain := plain.(timeout := Number(t, p + |RETRANS_TEXT|));
      }
      if Begins(t, p, q, RETRY_TEXT) && plain.tries == -1 {
        plain := plain.(tries := Number(t, p + |RETRY_TEXT|));
      }
      if Begins(t, p, q, ROTATE_TEXT) && plain.rotate == -1 {
        plain := plain.(rotate := 1);
      }
    }

    /** set_options: a setting that has a value keeps it. */
    method SetOptions(text: seq<byte>)
      modifies this`plain
      ensures plain == Fill(old(plain), WordsFrom(text, 0))
    {
      hide Fill;
      hide WordsFrom;
      hide KnownWord;
      var p := 0;
      while p < |text|
        invariant p <= |text|
        invariant Fill(plain, WordsFrom(text, p)) == Fill(old(plain), WordsFrom(text, 0))
        decreases |text| - p
      {
        var q := EndOfWord(text, p);
        OneWord(text, p);
        FillTwice(plain, KnownWord(text, p, q), WordsFrom(text, WordStart(text, q)));
        TakeWord(text, p, q);
        p := StartOfWord(text, q);
      }
      NoMoreWords(text);
      FillNothing(plain);
    }

    /** init_by_environment. */
    method InitByEnvironment(env: Env)
      modifies this`plain, this`domains
      ensures domains == FirstSome(old(domains), EnvDomains(env))
      ensures plain == Fill(old(plain), EnvWords(env))
    {
      hide Fill;
      if env.localDomain.Some? && domains.None? {
        var split := SplitSearch(env.localDomain.value);
        domains := Some(split);
      }
      FillNothing(plain);
      if env.resOptions.Some? {
        SetOptions(env.resOptions.value);
      }
    }

    /** One line of resolv.conf; servers and patterns are collected aside. */
    method TakeLine(line: Line, updateDomains: bool, collected: seq<Server>, patterns: seq<Pattern>)
      returns (moreServers: seq<Server>, morePatterns: seq<Pattern>)
      modifies this`plain, this`domains, this`lookups
      ensures domains == if updateDomains then FirstSome(SearchOf(line), old(domains)) else old(domains)
      ensures lookups == FirstSome(old(lookups), if line.LookupLine? then Some(line.order) else None)
      ensures moreServers == if servers.None? && line.NameserverLine? then collected + line.servers else collected
      ensures morePatterns == if sortlist.None? && line.SortlistLine? then patterns + line.patterns else patterns
      ensures plain == Fill(old(plain), WordsOf(line))
    {
      hide Fill;
      hide WordsFrom;
      hide Pieces;
      FillNothing(plain);
      moreServers, morePatterns := collected, patterns;
      if line.DomainLine? && updateDomains {
        var e := EndOfWord(line.text, 0);
        var split := SplitSearch(line.text[..e]);
        domains := Some(split);
      } else if line.SearchLine? && updateDomains {
        var split := SplitSearch(line.text);
        domains := Some(split);
      } else if line.LookupLine? && lookups.None? {
        lookups := Some(line.order);
      } else if line.NameserverLine? && servers.None? {
        moreServers := collected + line.servers;
      } else if line.SortlistLine? && sortlist.None? {
        morePatterns := patterns + line.patterns;
      } else if line.OptionsLine? {
        SetOptions(line.text);
      }
    }

    /** The loop of init_by_resolv_conf over the lines of the file. */
    method TakeLines(lines: seq<Line>) returns (collected: seq<Server>, patterns: seq<Pattern>)
      modifies this`plain, this`domains, this`lookups
      ensures domains == FirstSome(old(domains), LastSearch(lines))
      ensures lookups == FirstSome(old(lookups), FirstLookup(lines))
      ensures collected == if servers.None? then Nameservers(lines) else []
      ensures patterns == if sortlist.None? then Patterns(lines) else []
      ensures plain == Fill(old(plain), LineWords(lines))
    {
      hide Fill;
      hide LineWords;
      hide Nameservers;
      hide Patterns;
      hide LastSearch;
      hide FirstLookup;
      var updateDomains := domains.None?;
      collected, patterns := [], [];
      var i := 0;
      NoLines();
      FillNothing(plain);
      while i < |lines|
        invariant i <= |lines|
        invariant domains == if updateDomains then LastSearch(lines[..i]) else old(domains)
        invariant lookups == FirstSome(old(lookups), FirstLookup(lines[..i]))
        invariant collected == if servers.None? then Nameservers(lines[..i]) else []
        invariant patterns == if sortlist.None? then Patterns(lines[..i]) else []
        invariant plain == Fill(old(plain), LineWords(lines[..i]))
      {
        OneMoreLine(lines, i);
        FillTwice(old(plain), LineWords(lines[..i]), WordsOf(lines[i]));
        collected, patterns := TakeLine(lines[i], updateDomains, collected, patterns);
        i := i + 1;
      }
      assert lines[..i] == lines;
    }

    /** init_by_resolv_conf: the files are left alone when nothing they hold could be missing. */
    method InitByResolvConf(files: Files) returns (status: Status)
      modifies this`plain, this`domains, this`lookups, this`servers, this`sortlist
      ensures status == if !old(Complete()) && files == Unreadable then EFILE else SUCCESS
      ensures old(Complete()) || files == Unreadable ==> unchanged(`plain, `domains, `lookups, `servers, `sortlist)
      ensures !old(Complete()) && files.Files? ==>
        && domains == FirstSome(old(domains), LastSearch(files.lines))
        && lookups == FirstSome(old(lookups), FirstSome(FirstLookup(files.lines), files.elsewhere))
        && servers == FirstSome(old(servers), IfAny(Nameservers(files.lines)))
        && sortlist == FirstSome(old(sortlist), IfAny(Patterns(files.lines)))
        && plain == Fill(old(plain), LineWords(files.lines))
    {
      hide Fill;
      hide FirstLookup;
      if Complete() {
        status := SUCCESS;
      } else if files == Unreadable {
        status := EFILE;
      } else {
        var collected, patterns := TakeLines(files.lines);
        if lookups.None? {
          lookups := files.elsewhere;
        }
        if collected != [] {
          servers := Some(collected);
        }
        if patterns != [] {
          sortlist := Some(patterns);
        }
        status := SUCCESS;
      }
    }

    /** The first part of init_by_defaults: the plain settings. */
    method DefaultNumbers()
      modifies this`plain
      ensures plain == Defaulted(old(plain))
    {
      hide Swap16;
      var s := plain;
      if s.flags == -1 { s := s.(flags := 0); }
      if s.timeout == -1 { s := s.(timeout := DEFAULT_TIMEOUT); }
      if s.tries == -1 { s := s.(tries := DEFAULT_TRIES); }
      if s.ndots == -1 { s := s.(ndots := 1); }
      if s.rotate == -1 { s := s.(rotate := 0); }
      if s.udp == -1 { s := s.(udp := Swap16(NAMESERVER_PORT)); }
      if s.tcp == -1 { s := s.(tcp := Swap16(NAMESERVER_PORT)); }
      if s.ednspsz == -1 { s := s.(ednspsz := EDNSPACKETSZ); }
      plain := s;
    }

    /** init_by_defaults. */
    method InitByDefaults(host: HostName) returns (status: Status)
      modifies this`plain, this`domains, this`lookups, this`servers, this`sortlist
      ensures status == if old(domains).None? && host == NoName then EBADNAME else SUCCESS
      ensures plain == Defaulted(old(plain))
      ensures status == SUCCESS ==>
        && servers == FirstSome(old(servers), Some([Server(INET, LOOPBACK, 0, 0)]))
        && domains == FirstSome(old(domains), HostDomains(host))
        && sortlist == FirstSome(old(sortlist), Some([])) && lookups == FirstSome(old(lookups), Some("fb"))
    {
      DefaultNumbers();
      servers := if servers.None? then Some([Server(INET, LOOPBACK, 0, 0)]) else servers;
      status := if domains.None? && host == NoName then EBADNAME else SUCCESS;
      if status == SUCCESS {
        domains := if domains.None? then HostDomains(host) else domains;
        sortlist := if sortlist.None? then Some([]) else sortlist;
        lookups := if lookups.None? then Some("fb") else lookups;
      }
    }

    /** ares_set_servers_ports: an empty list leaves the channel without servers. */
    method SetServersPorts(nodes: seq<Node>)
      modifies this`servers
      ensures nodes == [] ==> servers == None
      ensures nodes != [] ==> servers.Some? && |servers.value| == |nodes|
      ensures nodes != [] ==> forall i | 0 <= i < |nodes| :: servers.value[i] == ToServer(nodes[i])
    {
      hide ToServer;
      servers := None;
      if nodes != [] {
        var filled := new Server[|nodes|](_ => Server(INET, [], 0, 0));
        var i := 0;
        while i < |nodes|
          invariant i <= |nodes| && servers == None
          invariant forall j | 0 <= j < i :: filled[j] == ToServer(nodes[j])
        {
          filled[i] := ToServer(nodes[i]);
          i := i + 1;
        }
        servers := Some(filled[..]);
      }
    }

    /**
     * ares_set_servers_csv and ares_set_servers_ports_csv. The old servers are gone before the text is looked at, so a
     * text that is not a list of servers leaves the channel without any.
     */
    method SetServersCsv(conv: Conv, usePort: bool, text: seq<byte>) returns (status: Status)
      requires NUL !in text
      modifies this`servers
      ensures status == if ServerList.Servers(conv, usePort, text).Some? then SUCCESS else EBADSTR
      ensures status == SUCCESS ==> servers == Installed(ServerList.Servers(conv, usePort, text).value)
      ensures status == EBADSTR ==> servers == None
    {
      hide ServerList.Servers;
      servers := None;
      var ok, nodes := ServerList.ReadServers(conv, usePort, text);
      status := if ok then SUCCESS else EBADSTR;
      if ok {
        SetServersPorts(nodes);
        IsInstalled(servers, nodes);
      }
    }
  }

  // ---------- Initialisation: precedence of the four sources ----------

  /** After options and environment nothing is missing, so resolv.conf is not read. */
  predicate FilesSkipped(o: Options, mask: set<OptionBit>, env: Env) {
    var s := Fill(Given(o, mask), EnvWords(env));
    && LOOKUPS in mask && SORTLIST in mask && SERVERS in mask && (DOMAINS in mask || env.localDomain.Some?)
    && s.ndots > -1 && s.timeout > -1 && s.tries > -1
  }

  /** The lines of resolv.conf that are read. */
  function SeenLines(o: Options, mask: set<OptionBit>, env: Env, files: Files): seq<Line> {
    if FilesSkipped(o, mask, env) || files == Unreadable then [] else files.lines
  }

  function SeenElsewhere(o: Options, mask: set<OptionBit>, env: Env, files: Files): Option<string> {
    if FilesSkipped(o, mask, env) || files == Unreadable then None else files.elsewhere
  }

  predicate IsPrimary(flags: int) {
    (flags / PRIMARY) % 2 == 1
  }

  /** Only the first server is kept when the flags ask for it. */
  function Trimmed(flags: int, servers: seq<Server>): seq<Server> {
    if IsPrimary(flags) && |servers| > 1 then servers[..1] else servers
  }

  function GivenServers(o: Options, mask: set<OptionBit>): Option<seq<Server>> {
    if SERVERS in mask then Some(AsServers(o.servers)) else None
  }

  function GivenSortlist(o: Options, mask: set<OptionBit>): Option<seq<Pattern>> {
    if SORTLIST in mask then Some(o.sortlist) else None
  }

  function GivenLookups(o: Options, mask: set<OptionBit>): Option<string> {
    if LOOKUPS in mask then Some(o.lookups) else None
  }

  function GivenDomains(o: Options, mask: set<OptionBit>): Option<seq<seq<byte>>> {
    if DOMAINS in mask then Some(o.domains) else None
  }

  /** The plain settings that initialisation ends with. */
  function FinalSettings(o: Options, mask: set<OptionBit>, env: Env, lines: seq<Line>): Settings {
    Defaulted(Fill(Given(o, mask), EnvWords(env) + LineWords(lines)))
  }

  function FinalDomains(o: Options, mask: set<OptionBit>, env: Env, lines: seq<Line>,
                        host: HostName): Option<seq<seq<byte>>> {
    FirstSome(GivenDomains(o, mask), FirstSome(EnvDomains(env), FirstSome(LastSearch(lines), HostDomains(host))))
  }

  function FinalServers(o: Options, mask: set<OptionBit>, lines: seq<Line>, flags: int): Option<seq<Server>> {
    var local := [Server(INET, LOOPBACK, 0, 0)];
    Some(Trimmed(flags, FirstSome(GivenServers(o, mask), FirstSome(IfAny(Nameservers(lines)), Some(local))).value))
  }

  function FinalSortlist(o: Options, mask: set<OptionBit>, lines: seq<Line>): Option<seq<Pattern>> {
    FirstSome(GivenSortlist(o, mask), FirstSome(IfAny(Patterns(lines)), Some([])))
  }

  function FinalLookups(o: Options, mask: set<OptionBit>, env: Env, files: Files): Option<string> {
    FirstSome(GivenLookups(o, mask),
              FirstSome(FirstLookup(SeenLines(o, mask, env, files)),
                        FirstSome(SeenElsewhere(o, mask, env, files), Some("fb"))))
  }

  // ---------- Setting by setting ----------

  /** The first of some values that is set, in the order options, environment, files, default. */
  ghost function Chosen(given: int, words: seq<Word>, more: seq<Word>, kind: Word, otherwise: int): int {
    if given != -1 then given
    else if FirstIn(words, kind) != -1 then FirstIn(words, kind)
    else if FirstIn(more, kind) != -1 then FirstIn(more, kind)
    else otherwise
  }

  /** What each plain setting ends up as: seconds count a thousand milliseconds, ports go to network order. */
  ghost predicate Settled(o: Options, mask: set<OptionBit>, env: Env, lines: seq<Line>, s: Settings) {
    var words, more := EnvWords(env), LineWords(lines);
    var millis := if TIMEOUTMS in mask then o.timeout else if TIMEOUT in mask then 1000 * o.timeout else -1;
    && s.flags == (if FLAGS in mask && o.flags != -1 then o.flags else 0)
    && s.timeout == Chosen(millis, words, more, RetransWord(0), 5000)
    && s.tries == Chosen(if TRIES in mask then o.tries else -1, words, more, RetryWord(0), 4)
    && s.ndots == Chosen(if NDOTS in mask then o.ndots else -1, words, more, NdotsWord(0), 1)
    && s.rotate == (if ROTATE in mask then 1 else if NOROTATE in mask then 0
                    else Chosen(-1, words, more, RotateWord, 0))
    && s.udp == (if UDP_PORT in mask then (o.udp % 256) * 256 + o.udp / 256 else 53 * 256)
    && s.tcp == (if TCP_PORT in mask then (o.tcp % 256) * 256 + o.tcp / 256 else 53 * 256)
    && s.ednspsz == (if EDNSPSZ in mask && o.ednspsz != -1 then o.ednspsz else 1280)
    && s.sndbuf == (if SOCK_SNDBUF in mask then o.sndbuf else -1)
    && s.rcvbuf == (if SOCK_RCVBUF in mask then o.rcvbuf else -1)
  }

  lemma IsSettled(o: Options, mask: set<OptionBit>, env: Env, lines: seq<Line>)
    ensures Settled(o, mask, env, lines, FinalSettings(o, mask, env, lines))
  {
    hide EnvWords;
    hide LineWords;
    hide FirstIn;
    var words, more := EnvWords(env), LineWords(lines);
    FirstInAppend(words, more, NdotsWord(0));
    FirstInAppend(words, more, RetransWord(0));
    FirstInAppend(words, more, RetryWord(0));
    FirstInAppend(words, more, RotateWord);
  }

  /** Addresses from the options, else the name servers of the files, else this host; one only if the flags say so. */
  ghost predicate ServersSettled(o: Options, mask: set<OptionBit>, lines: seq<Line>, flags: int, servers: seq<Server>) {
    var all :=
      if SERVERS in mask then seq(|o.servers|, i requires 0 <= i < |o.servers| => Server(INET, o.servers[i], 0, 0))
      else if Nameservers(lines) != [] then Nameservers(lines)
      else [Server(INET, [127, 0, 0, 1], 0, 0)];
    servers == if (flags / 2) % 2 == 1 && |all| > 1 then [all[0]] else all
  }

  /** The lists: options, then the environment for the domains, then the files, then a default. */
  ghost predicate Listed(o: Options, mask: set<OptionBit>, env: Env, lines: seq<Line>, elsewhere: Option<string>,
                         host: HostName, c: Channel)
    reads c
  {
    && c.domains == Some(
         if DOMAINS in mask then o.domains
         else if env.localDomain.Some? then Pieces(env.localDomain.value, 0)
         else if LastSearch(lines).Some? then LastSearch(lines).value
         else if host.HostName? && host.domain.Some? then [host.domain.value]
         else [])
    && c.sortlist == Some(if SORTLIST in mask then o.sortlist else Patterns(lines))
    && c.lookups == Some(
         if LOOKUPS in mask then o.lookups
         else if FirstLookup(lines).Some? then FirstLookup(lines).value
         else if elsewhere.Some? then elsewhere.value
         else "fb")
    && c.servers.Some? && ServersSettled(o, mask, lines, c.plain.flags, c.servers.value)
  }

  lemma IsListed(o: Options, mask: set<OptionBit>, env: Env, files: Files, host: HostName, c: Channel)
    requires c.domains == FinalDomains(o, mask, env, SeenLines(o, mask, env, files), host)
    requires c.servers == FinalServers(o, mask, SeenLines(o, mask, env, files), c.plain.flags)
    requires c.sortlist == FinalSortlist(o, mask, SeenLines(o, mask, env, files))
    requires c.lookups == FinalLookups(o, mask, env, files)
    ensures Listed(o, mask, env, SeenLines(o, mask, env, files), SeenElsewhere(o, mask, env, files), host, c)
  {
    hide SeenLines;
    hide SeenElsewhere;
    hide LastSearch;
    hide FirstLookup;
    hide Nameservers;
    hide Patterns;
    hide Pieces;
  }

  /** The lists in terms of the lines: most add up, but of search lines the last counts, of lookup lines the first. */
  lemma {:induction false} LinesAdd(a: seq<Line>, b: seq<Line>)
    ensures Nameservers(a + b) == Nameservers(a) + Nameservers(b)
    ensures Patterns(a + b) == Patterns(a) + Patterns(b)
    ensures LineWords(a + b) == LineWords(a) + LineWords(b)
    ensures LastSearch(a + b) == if LastSearch(b).Some? then LastSearch(b) else LastSearch(a)
    ensures FirstLookup(a + b) == if FirstLookup(a).Some? then FirstLookup(a) else FirstLookup(b)
    decreases |b|
  {
    hide Nameservers;
    hide Patterns;
    hide LineWords;
    hide LastSearch;
    hide FirstLookup;
    hide WordsOf;
    hide SearchOf;
    NoLines();
    if b == [] {
      assert a + b == a;
    } else {
      var n := |b| - 1;
      LinesAdd(a, b[..n]);
      assert (a + b)[..|a| + n] == a + b[..n] && (a + b)[|a| + n] == b[n];
      OneMoreLine(a + b, |a| + n);
      OneMoreLine(b, n);
      assert (a + b)[..|a| + n + 1] == a + b && b[..n + 1] == b;
      AppendAssoc(Nameservers(a), Nameservers(b[..n]), if b[n].NameserverLine? then b[n].servers else []);
      AppendAssoc(Patterns(a), Patterns(b[..n]), if b[n].SortlistLine? then b[n].patterns else []);
      AppendAssoc(LineWords(a), LineWords(b[..n]), WordsOf(b[n]));
    }
  }

  /** What one line contributes. */
  lemma OneLineIs(line: Line)
    ensures Nameservers([line]) == if line.NameserverLine? then line.servers else []
    ensures Patterns([line]) == if line.SortlistLine? then line.patterns else []
    ensures LineWords([line]) == if line.OptionsLine? then WordsFrom(line.text, 0) else []
    ensures FirstLookup([line]) == if line.LookupLine? then Some(line.order) else None
    ensures match line
      case SearchLine(text) => LastSearch([line]) == Some(Pieces(text, 0))
      case DomainLine(text) => LastSearch([line]) == Some(Pieces(text[..WordEnd(text, 0)], 0))
      case _ => LastSearch([line]) == None
  {
    hide WordsFrom;
    hide Pieces;
    NoLines();
    assert [line][..0] == [];
    OneMoreLine([line], 0);
  }

  /** A timeout in seconds is the same as a thousand times as many milliseconds. */
  lemma SecondsAreMillis(o: Options, mask: set<OptionBit>, env: Env, files: Files, host: HostName)
    requires TIMEOUT in mask && TIMEOUTMS !in mask
    ensures var p, bits := o.(timeout := 1000 * o.timeout), mask - {TIMEOUT} + {TIMEOUTMS};
      var seen := SeenLines(o, mask, env, files);
      && SeenLines(p, bits, env, files) == seen
      && FinalSettings(p, bits, env, seen) == FinalSettings(o, mask, env, seen)
      && FinalDomains(p, bits, env, seen, host) == FinalDomains(o, mask, env, seen, host)
      && (forall flags :: FinalServers(p, bits, seen, flags) == FinalServers(o, mask, seen, flags))
      && FinalSortlist(p, bits, seen) == FinalSortlist(o, mask, seen)
      && FinalLookups(p, bits, env, files) == FinalLookups(o, mask, env, files)
  {
    var p, bits := o.(timeout := 1000 * o.timeout), mask - {TIMEOUT} + {TIMEOUTMS};
    assert Given(p, bits) == Given(o, mask);
  }

  lemma {:induction false} RotateIsOne(words: seq<Word>)
    ensures FirstIn(words, RotateWord) in {-1, 1}
  {
    if words != [] {
      RotateIsOne(words[..|words| - 1]);
    }
  }

  lemma FinalIsReady(o: Options, mask: set<OptionBit>, words: seq<Word>)
    ensures var s := Defaulted(Fill(Given(o, mask), words));
      && s.flags != -1 && s.rotate in {0, 1} && 0 <= s.udp < 0x1_0000 && 0 <= s.tcp < 0x1_0000
  {
    RotateIsOne(words);
  }

  /** What options, environment and files have set, before the defaults. */
  ghost predicate Collected(o: Options, mask: set<OptionBit>, env: Env, files: Files, c: Channel)
    reads c
  {
    var seen := SeenLines(o, mask, env, files);
    && c.plain == Fill(Given(o, mask), EnvWords(env) + LineWords(seen))
    && c.domains == FirstSome(GivenDomains(o, mask), FirstSome(EnvDomains(env), LastSearch(seen)))
    && c.servers == FirstSome(GivenServers(o, mask), IfAny(Nameservers(seen)))
    && c.sortlist == FirstSome(GivenSortlist(o, mask), IfAny(Patterns(seen)))
    && c.lookups == FirstSome(GivenLookups(o, mask), FirstSome(FirstLookup(seen), SeenElsewhere(o, mask, env, files)))
    && c.stateCb == if SOCK_STATE_CB in mask then o.stateCb else 0
  }

  lemma EnvDomainsIs(env: Env)
    ensures EnvDomains(env).Some? <==> env.localDomain.Some?
  {
  }

  lemma SkippedIs(o: Options, mask: set<OptionBit>, env: Env, c: Channel)
    requires c.plain == Fill(Given(o, mask), EnvWords(env)) && c.servers == GivenServers(o, mask)
    requires c.domains == FirstSome(GivenDomains(o, mask), EnvDomains(env))
    requires c.sortlist == GivenSortlist(o, mask) && c.lookups == GivenLookups(o, mask)
    ensures c.Complete() == FilesSkipped(o, mask, env)
  {
    hide Given;
    hide Fill;
    hide AsServers;
  }

  /** The first three sources. */
  method CollectSources(o: Options, mask: set<OptionBit>, env: Env, files: Files) returns (c: Channel)
    ensures fresh(c) && Collected(o, mask, env, files, c)
  {
    hide Given;
    hide Fill;
    hide AsServers;
    hide LineWords;
    hide LastSearch;
    hide FirstLookup;
    hide Nameservers;
    hide Patterns;
    hide EnvWords;
    hide EnvDomains;
    hide FilesSkipped;
    NoLines();
    EnvDomainsIs(env);
    ghost var seen := SeenLines(o, mask, env, files);
    c := new Channel();
    c.InitByOptions(o, mask);
    c.InitByEnvironment(env);
    SkippedIs(o, mask, env, c);
    var ignored := c.InitByResolvConf(files);
    FillNothing(c.plain);
    FillTwice(Given(o, mask), EnvWords(env), LineWords(seen));
  }

  /**
   * ares_init_options: for each setting the first source that has it, in the order options, environment, files,
   * default.
   */
  method Init(o: Options, mask: set<OptionBit>, env: Env, files: Files, host: HostName)
    returns (status: Status, channel: Channel?)
    ensures status == if GivenDomains(o, mask) == None && EnvDomains(env) == None &&
                         LastSearch(SeenLines(o, mask, env, files)) == None && host == NoName
                      then EBADNAME else SUCCESS
    ensures channel != null <==> status == SUCCESS
    ensures channel != null ==> fresh(channel) && channel.Ready()
    ensures channel != null ==> channel.plain == FinalSettings(o, mask, env, SeenLines(o, mask, env, files))
    ensures channel != null ==> channel.domains == FinalDomains(o, mask, env, SeenLines(o, mask, env, files), host)
    ensures channel != null ==>
      channel.servers == FinalServers(o, mask, SeenLines(o, mask, env, files), channel.plain.flags)
    ensures channel != null ==> channel.sortlist == FinalSortlist(o, mask, SeenLines(o, mask, env, files))
    ensures channel != null ==> channel.lookups == FinalLookups(o, mask, env, files)
    ensures channel != null ==> channel.stateCb == if SOCK_STATE_CB in mask then o.stateCb else 0
    ensures channel != null ==>
      var seen := SeenLines(o, mask, env, files);
      && Settled(o, mask, env, seen, channel.plain)
      && Listed(o, mask, env, seen, SeenElsewhere(o, mask, env, files), host, channel)
  {
    hide Settled;
    hide Listed;
    hide Given;
    hide Fill;
    hide Defaulted;
    hide IsPrimary;
    hide LineWords;
    hide LastSearch;
    hide FirstLookup;
    hide Nameservers;
    hide Patterns;
    hide EnvWords;
    hide EnvDomains;
    hide GivenDomains;
    hide GivenServers;
    hide GivenSortlist;
    hide GivenLookups;
    hide SeenLines;
    hide SeenElsewhere;
    var c := CollectSources(o, mask, env, files);
    status := c.InitByDefaults(host);
    channel := null;
    if status == SUCCESS {
      FinalIsReady(o, mask, EnvWords(env) + LineWords(SeenLines(o, mask, env, files)));
      if IsPrimary(c.plain.flags) && |c.servers.value| > 1 {
        c.servers := Some(c.servers.value[..1]);
      }
      channel := c;
      IsSettled(o, mask, env, SeenLines(o, mask, env, files));
      IsListed(o, mask, env, files, host, channel);
    }
  }

  /** Not reading the files loses nothing that they could have set, unless it is rotation. */
  lemma SkippingLosesOnlyRotation(o: Options, mask: set<OptionBit>, env: Env, lines: seq<Line>)
    requires FilesSkipped(o, mask, env)
    ensures FinalSettings(o, mask, env, lines) ==
            FinalSettings(o, mask, env, []).(rotate := FinalSettings(o, mask, env, lines).rotate)
    ensures FinalSettings(o, mask, env, lines) == FinalSettings(o, mask, env, []) <==>
            !(&& FirstIn(LineWords(lines), RotateWord) == 1
              && Given(o, mask).rotate == -1 && FirstIn(EnvWords(env), RotateWord) == -1)
  {
    hide LineWords;
    var g := Given(o, mask);
    NoLines();
    FillTwice(g, EnvWords(env), LineWords(lines));
    FillTwice(g, EnvWords(env), []);
    FillNothing(Fill(g, EnvWords(env)));
    RotateIsOne(LineWords(lines));
  }

  lemma RotateLine()
    ensures LineWords([OptionsLine(ROTATE_TEXT)]) == [RotateWord]
  {
    hide WordsFrom;
    var lines := [OptionsLine(ROTATE_TEXT)];
    assert lines[..0] == [];
    RotateText();
  }

  /** With everything but rotation in the options, a resolv.conf that asks for rotation is not heeded. */
  lemma RotationNotHeeded(o: Options)
    requires o.ndots > -1 && o.timeout > -1 && o.tries > -1
    ensures var mask, env := {LOOKUPS, SORTLIST, SERVERS, DOMAINS, NDOTS, TIMEOUTMS, TRIES}, Env(None, None);
      var lines := [OptionsLine(ROTATE_TEXT)];
      && SeenLines(o, mask, env, Files(lines, None)) == []
      && FinalSettings(o, mask, env, []).rotate == 0
      && FinalSettings(o, mask, env, lines).rotate == 1
  {
    hide FirstIn;
    hide LineWords;
    var mask, env := {LOOKUPS, SORTLIST, SERVERS, DOMAINS, NDOTS, TIMEOUTMS, TRIES}, Env(None, None);
    RotateLine();
    NoLines();
    FirstInKnown([RotateWord]);
    assert EnvWords(env) == [] && EnvWords(env) + [] == [] && EnvWords(env) + [RotateWord] == [RotateWord];
    assert Given(o, mask).rotate == -1;
    FillNothing(Given(o, mask));
    assert FilesSkipped(o, mask, env);
    assert Fill(Given(o, mask), [RotateWord]).rotate == 1;
  }

  // ---------- Duplication ----------

  /** The addresses of the servers that fit into the options structure. */
  function PlainOf(servers: seq<Server>): seq<seq<byte>> {
    if servers == [] then []
    else
      PlainOf(servers[..|servers| - 1])
      + (if IsPlain(servers[|servers| - 1]) then [servers[|servers| - 1].addr] else [])
  }

  lemma {:induction false} PlainPrefix(servers: seq<Server>, i: nat)
    requires i <= |servers|
    ensures |PlainOf(servers[..i])| <= |PlainOf(servers)|
    decreases |servers| - i
  {
    if i < |servers| {
      assert servers[..i + 1][..i] == servers[..i];
      PlainPrefix(servers, i + 1);
    } else {
      assert servers[..i] == servers;
    }
  }

  lemma {:induction false} PlainAgain(servers: seq<Server>)
    requires forall s | s in servers :: IsPlain(s)
    ensures AsServers(PlainOf(servers)) == servers
  {
    if servers != [] {
      var n := |servers| - 1;
      assert forall s | s in servers[..n] :: s in servers;
      PlainAgain(servers[..n]);
      assert servers[n] in servers;
      assert servers == servers[..n] + [servers[n]];
    }
  }

  /** The two passes of ares_save_options over the servers: the second stores as many as the first counted. */
  method SaveServers(servers: seq<Server>) returns (addrs: seq<seq<byte>>)
    ensures addrs == PlainOf(servers)
  {
    var count, i := 0, 0;
    while i < |servers|
      invariant i <= |servers| && count == |PlainOf(servers[..i])|
    {
      if IsPlain(servers[i]) {
        count := count + 1;
      }
      i := i + 1;
      assert servers[..i][..i - 1] == servers[..i - 1];
    }
    assert servers[..i] == servers;
    var room := new seq<byte>[count](_ => []);
    var j := 0;
    i := 0;
    while i < |servers|
      invariant i <= |servers| && j == |PlainOf(servers[..i])| <= count
      invariant room[..j] == PlainOf(servers[..i])
    {
      PlainPrefix(servers, i + 1);
      assert servers[..i + 1][..i] == servers[..i];
      if IsPlain(servers[i]) {
        room[j] := servers[i].addr;
        j := j + 1;
      }
      i := i + 1;
    }
    assert servers[..i] == servers;
    addrs := room[..];
  }

  /** The options that ares_save_options claims to carry. */
  function SavedMask(rotate: int): set<OptionBit> {
    {FLAGS, TRIES, NDOTS, UDP_PORT, TCP_PORT, SOCK_STATE_CB, SERVERS, DOMAINS, LOOKUPS, SORTLIST, TIMEOUTMS} +
    (if rotate != 0 then {ROTATE} else {NOROTATE})
  }

  /** ares_save_options. */
  method SaveOptions(c: Channel) returns (status: Status, o: Options, mask: set<OptionBit>)
    requires c.Ready()
    ensures status == if c.Complete() then SUCCESS else ENODATA
    ensures status == SUCCESS ==>
      && mask == SavedMask(c.plain.rotate)
      && o == Options(c.plain.flags, c.plain.timeout, c.plain.tries, c.plain.ndots, Swap16(c.plain.udp),
                      Swap16(c.plain.tcp), c.stateCb, 0, 0, 0, PlainOf(c.servers.value), c.domains.value,
                      c.lookups.value, c.sortlist.value)
  {
    o, mask := Options(0, 0, 0, 0, 0, 0, 0, 0, 0, 0, [], [], "", []), {};
    if !c.Complete() {
      status := ENODATA;
    } else {
      var addrs := SaveServers(c.servers.value);
      mask := SavedMask(c.plain.rotate);
      o := Options(c.plain.flags, c.plain.timeout, c.plain.tries, c.plain.ndots, Swap16(c.plain.udp),
                   Swap16(c.plain.tcp), c.stateCb, 0, 0, 0, addrs, c.domains.value, c.lookups.value, c.sortlist.value);
      status := SUCCESS;
    }
  }

  /** The addresses saved, server by server: those of IPv4 without ports of their own. */
  lemma {:induction false} PlainAre(a: seq<Server>, b: seq<Server>, s: Server)
    ensures PlainOf(a + b) == PlainOf(a) + PlainOf(b)
    ensures PlainOf([s]) == if s.family == INET && s.udp == 0 && s.tcp == 0 then [s.addr] else []
    decreases |b|
  {
    assert [s][..0] == [];
    if b == [] {
      assert a + b == a;
    } else {
      var n := |b| - 1;
      assert (a + b)[..|a| + n] == a + b[..n] && (a + b)[|a| + n] == b[n];
      PlainAre(a, b[..n], s);
      AppendAssoc(PlainOf(a), PlainOf(b[..n]), if IsPlain(b[n]) then [b[n].addr] else []);
    }
  }

  /** The options structure cannot carry the whole list, so the list itself is copied. */
  predicate NeedsCloning(servers: seq<Server>) {
    exists s | s in servers :: !IsPlain(s)
  }

  /** What a duplicate keeps of the server list. */
  function DuplicateServers(flags: int, servers: seq<Server>): seq<Server> {
    if NeedsCloning(servers) then servers else Trimmed(flags, servers)
  }

  /** The whole list, unless it holds several servers, all plain, and the flags ask for the primary only. */
  lemma ServersKept(flags: int, servers: seq<Server>)
    ensures DuplicateServers(flags, servers) == servers <==>
            !((flags / 2) % 2 == 1 && |servers| > 1 &&
              forall s | s in servers :: s.family == INET && s.udp == 0 && s.tcp == 0)
    ensures DuplicateServers(flags, servers) != servers ==> DuplicateServers(flags, servers) == [servers[0]]
  {
  }

  /** Two plain servers and the primary flag: the second server is lost. */
  lemma PrimaryLosesOne(a: Server, b: Server)
    requires IsPlain(a) && IsPlain(b)
    ensures DuplicateServers(PRIMARY, [a, b]) == [a]
  {
    assert [a, b][..1] == [a];
  }

  lemma AllPlain(servers: seq<Server>)
    requires !NeedsCloning(servers)
    ensures forall s | s in servers :: IsPlain(s)
  {
  }

  lemma CloningNeedsOne(servers: seq<Server>)
    ensures NeedsCloning(servers) ==> servers != []
  {
  }

  function ToNode(s: Server): Node {
    Node(s.family, s.addr, Swap16(s.udp), Swap16(s.tcp))
  }

  lemma LowBits(p: port)
    ensures p % 0x1_0000 == p
  {
  }

  lemma ThereAndBack(s: Server)
    ensures ToServer(ToNode(s)) == s
  {
    hide Swap16;
    LowBits(Swap16(s.udp));
    LowBits(Swap16(s.tcp));
    SwapTwice(s.udp);
    SwapTwice(s.tcp);
  }

  /** An application sees the low sixteen bits of the ports it has set. */
  lemma BackAndThere(n: Node)
    ensures ToNode(ToServer(n)) == n.(udp := n.udp % 0x1_0000, tcp := n.tcp % 0x1_0000)
  {
    hide Swap16;
    SwapTwice(n.udp % 0x1_0000);
    SwapTwice(n.tcp % 0x1_0000);
  }

  /** What ares_get_servers_ports gives. */
  function ToNodes(servers: seq<Server>): seq<Node> {
    seq(|servers|, i requires 0 <= i < |servers| => ToNode(servers[i]))
  }

  lemma PortKept(port: nat)
    ensures ToInt(ToLong(port)) % 0x1_0000 == port <==> port < 0x1_0000
  {
  }

  /**
   * From text to channel and back: a printed list is accepted, and the channel then has its addresses in order. The
   * ports are the ones printed exactly if they have sixteen bits.
   */
  lemma PrintedListKept(conv: Conv, ss: seq<ServerList.Printed>)
    requires ss != [] && forall s | s in ss :: ServerList.IsText(conv, s)
    ensures var read := ServerList.Servers(conv, true, ServerList.ListText(ss));
      && read.Some? && Installed(read.value).Some?
      && var nodes := ToNodes(Installed(read.value).value);
      && |nodes| == |ss|
      && (forall i | 0 <= i < |ss| :: nodes[i].family == ss[i].family && nodes[i].addr == ss[i].addr)
      && forall i | 0 <= i < |ss| :: nodes[i].udp == nodes[i].tcp == ss[i].port <==> ss[i].port < 0x1_0000
  {
    hide Swap16;
    hide ToInt;
    hide ServerList.ListText;
    hide ServerList.IsText;
    ServerList.ListReadsBack(conv, ss);
    var read := ServerList.AsNodes(ss);
    var nodes := ToNodes(Installed(read).value);
    forall i | 0 <= i < |ss|
      ensures nodes[i].family == ss[i].family && nodes[i].addr == ss[i].addr
      ensures nodes[i].udp == nodes[i].tcp == ss[i].port <==> ss[i].port < 0x1_0000
    {
      BackAndThere(ServerList.AsNode(ss[i]));
      PortKept(ss[i].port);
    }
  }

  /** ares_get_servers_ports: a list that ares_set_servers_ports turns back into the same servers. */
  method GetServersPorts(c: Channel) returns (nodes: seq<Node>)
    ensures c.servers.Some? ==> nodes == ToNodes(c.servers.value)
    ensures c.servers.Some? ==> forall i | 0 <= i < |nodes| :: ToServer(nodes[i]) == c.servers.value[i]
    ensures c.servers.None? ==> nodes == []
  {
    hide Swap16;
    hide ToServer;
    hide ToNode;
    nodes := [];
    if c.servers.Some? {
      var i := 0;
      while i < |c.servers.value|
        invariant i == |nodes| <= |c.servers.value|
        invariant forall j | 0 <= j < i ::
          nodes[j] == ToNode(c.servers.value[j]) && ToServer(nodes[j]) == c.servers.value[j]
      {
        ThereAndBack(c.servers.value[i]);
        nodes := nodes + [ToNode(c.servers.value[i])];
        i := i + 1;
      }
    }
  }

  /** The search of ares_dup for a server with another family or port. */
  method AnyToClone(servers: seq<Server>) returns (found: bool)
    ensures found == NeedsCloning(servers)
  {
    var i := 0;
    found := false;
    while i < |servers| && !found
      invariant i <= |servers| && found == NeedsCloning(servers[..i])
      decreases |servers| - i, !found
    {
      found := !IsPlain(servers[i]);
      i := i + 1;
      assert servers[i - 1] in servers[..i];
    }
    assert servers[..|servers|] == servers;
    if found {
      assert forall s | s in servers[..i] :: s in servers;
    }
  }

  lemma SavedNumbers(s: Settings, o: Options, mask: set<OptionBit>)
    requires s.rotate in {0, 1} && 0 <= s.udp < 0x1_0000 && 0 <= s.tcp < 0x1_0000
    requires mask == SavedMask(s.rotate)
    requires o.flags == s.flags && o.timeout == s.timeout && o.tries == s.tries && o.ndots == s.ndots
    requires o.udp == Swap16(s.udp) && o.tcp == Swap16(s.tcp)
    ensures Given(o, mask) == s.(ednspsz := -1, sndbuf := -1, rcvbuf := -1)
  {
    hide Swap16;
    SwapTwice(s.udp);
    SwapTwice(s.tcp);
  }

  lemma NothingToFill(s: Settings, words: seq<Word>)
    requires s.ndots > -1 && s.timeout > -1 && s.tries > -1 && s.rotate != -1
    ensures Fill(s, words) == s
  {
    hide FirstIn;
  }

  /** Saved options leave nothing for the other sources to fill in. */
  lemma SavedGiven(s: Settings, o: Options, mask: set<OptionBit>, env: Env)
    requires s.flags != -1 && s.rotate in {0, 1} && 0 <= s.udp < 0x1_0000 && 0 <= s.tcp < 0x1_0000
    requires s.ndots > -1 && s.timeout > -1 && s.tries > -1
    requires mask == SavedMask(s.rotate)
    requires o.flags == s.flags && o.timeout == s.timeout && o.tries == s.tries && o.ndots == s.ndots
    requires o.udp == Swap16(s.udp) && o.tcp == Swap16(s.tcp)
    ensures FilesSkipped(o, mask, env)
    ensures FinalSettings(o, mask, env, []) == s.(ednspsz := EDNSPACKETSZ, sndbuf := -1, rcvbuf := -1)
  {
    hide Given;
    hide Fill;
    hide Swap16;
    SavedNumbers(s, o, mask);
    NothingToFill(Given(o, mask), EnvWords(env));
    NothingToFill(Given(o, mask), EnvWords(env) + LineWords([]));
  }

  /** And the lists are those saved. */
  lemma SavedLists(rotate: int, o: Options, mask: set<OptionBit>, env: Env, files: Files, host: HostName, flags: int)
    requires mask == SavedMask(rotate) && FilesSkipped(o, mask, env)
    ensures SeenLines(o, mask, env, files) == [] && GivenDomains(o, mask).Some? && SOCK_STATE_CB in mask
    ensures FinalDomains(o, mask, env, [], host) == Some(o.domains)
    ensures FinalServers(o, mask, [], flags) == Some(Trimmed(flags, AsServers(o.servers)))
    ensures FinalSortlist(o, mask, []) == Some(o.sortlist)
    ensures FinalLookups(o, mask, env, files) == Some(o.lookups)
  {
    hide FilesSkipped;
    hide AsServers;
    hide IsPrimary;
  }

  /** ares_dup: whatever the environment and the files say, the duplicate has the settings of the original. */
  method Dup(src: Channel, env: Env, files: Files, host: HostName) returns (status: Status, dest: Channel?)
    requires src.Ready()
    ensures status == if src.Complete() then SUCCESS else ENODATA
    ensures dest != null <==> status == SUCCESS
    ensures dest != null ==> fresh(dest) && dest.Ready() && dest.Complete()
    ensures dest != null ==> dest.plain == src.plain.(ednspsz := EDNSPACKETSZ, sndbuf := -1, rcvbuf := -1)
    ensures dest != null ==>
      && dest.servers == Some(DuplicateServers(src.plain.flags, src.servers.value))
      && dest.domains == src.domains && dest.sortlist == src.sortlist && dest.lookups == src.lookups
      && dest.stateCb == src.stateCb && dest.createCb == src.createCb && dest.configCb == src.configCb
      && dest.local == src.local
  {
    hide AsServers;
    hide FinalSettings;
    hide FinalDomains;
    hide FinalServers;
    hide FinalSortlist;
    hide FinalLookups;
    hide SeenLines;
    hide GivenDomains;
    hide FilesSkipped;
    hide SavedMask;
    hide Trimmed;
    hide NeedsCloning;
    hide PlainOf;
    hide Swap16;
    var o, mask;
    status, o, mask := SaveOptions(src);
    dest := null;
    if status == SUCCESS {
      SavedGiven(src.plain, o, mask, env);
      SavedLists(src.plain.rotate, o, mask, env, files, host, src.plain.flags);
      status, dest := Init(o, mask, env, files, host);
      dest.createCb, dest.configCb, dest.local := src.createCb, src.configCb, src.local;
      var cloning := AnyToClone(src.servers.value);
      if cloning {
        var nodes := GetServersPorts(src);
        assert NeedsCloning(src.servers.value) ==> src.servers.value != [] by { CloningNeedsOne(src.servers.value); }
        dest.SetServersPorts(nodes);
        assert dest.servers.value == src.servers.value;
      } else {
        AllPlain(src.servers.value);
        PlainAgain(src.servers.value);
      }
    }
  }
}
