/** ares__get_hostent and file_lookup: the entries of a hosts file. */
module HostsFile {
  import opened Ares
  import opened Bytes
  import opened Memory
  import opened Words
  import opened Lines

  const HASH: byte := 35

  // ---------- The fields of a line ----------

  /** A line up to its comment. */
  function BeforeHash(t: seq<byte>): seq<byte> {
    if t == [] || t[0] == HASH then [] else [t[0]] + BeforeHash(t[1..])
  }

  /** What a line says before its address is looked at. */
  datatype RawEntry = RawEntry(addr: seq<byte>, name: seq<byte>, aliases: seq<seq<byte>>)

  /** Two fields make an entry, and the others are its aliases. */
  function LineEntry(line: seq<byte>): Option<RawEntry> {
    var fs := Fields(BeforeHash(line), 0);
    if |fs| < 2 then None else Some(RawEntry(fs[0], fs[1], fs[2..]))
  }

  // ---------- In the buffer ----------

  /** From `p` on the buffer still holds the text `t`. */
  ghost predicate Rest(buf: array<byte>, t: seq<byte>, p: nat)
    reads buf
  {
    && p <= |t| < buf.Length && NUL !in t && buf[|t|] == NUL
    && forall j | p <= j < |t| :: buf[j] == t[j]
  }

  method SkipSpaces(buf: array<byte>, p: nat, ghost t: seq<byte>) returns (q: nat)
    requires Rest(buf, t, p)
    ensures q == WordStart(t, p)
  {
    q := p;
    while buf[q] != NUL && IsSpace(buf[q])
      invariant p <= q <= |t| && WordStart(t, q) == WordStart(t, p)
      decreases |t| - q
    {
      q := q + 1;
    }
    assert q < |t| ==> t[q] in t;
  }

  method SkipWord(buf: array<byte>, p: nat, ghost t: seq<byte>) returns (q: nat)
    requires Rest(buf, t, p)
    ensures q == WordEnd(t, p)
  {
    q := p;
    while buf[q] != NUL && !IsSpace(buf[q])
      invariant p <= q <= |t| && WordEnd(t, q) == WordEnd(t, p)
      decreases |t| - q
    {
      q := q + 1;
    }
    assert q < |t| ==> t[q] in t;
  }

  lemma {:induction false} BeforeHashIs(t: seq<byte>, n: nat)
    requires n <= |t| && (n < |t| ==> t[n] == HASH) && forall j | 0 <= j < n :: t[j] != HASH
    ensures BeforeHash(t) == t[..n]
  {
    if n > 0 {
      BeforeHashIs(t[1..], n - 1);
      assert t[..n] == [t[0]] + t[1..][..n - 1];
    }
  }

  /** The line without its comment and trailing spaces: the fields are those before the comment. */
  method Trim(buf: array<byte>, ghost line: seq<byte>) returns (ghost t: seq<byte>)
    requires Holds(buf, line)
    modifies buf
    ensures Rest(buf, t, 0) && Fields(t, 0) == Fields(BeforeHash(line), 0)
  {
    var p: nat := 0;
    while buf[p] != NUL && buf[p] != HASH
      invariant p <= |line| && forall j | 0 <= j < p :: line[j] != HASH
      decreases |line| - p
    {
      p := p + 1;
    }
    assert p < |line| ==> line[p] in line;
    BeforeHashIs(line, p);
    buf[p] := NUL;
    var q: int := p - 1;
    while q >= 0 && IsSpace(buf[q])
      invariant -1 <= q < p && forall j | q < j < p :: IsSpace(line[j])
    {
      q := q - 1;
    }
    q := q + 1;
    buf[q] := NUL;
    t := line[..q];
    assert line[..p] == t + line[q..p];
    SpacesEnd(t, line[q..p], 0);
  }

  lemma Ended(buf: array<byte>, t: seq<byte>, p: nat, q: nat)
    requires Rest(buf, t, p) && p <= q <= |t| && buf[q] == NUL
    ensures q == |t|
  {
    assert forall j | 0 <= j < |t| :: t[j] in t;
  }

  /** The pass that counts the aliases. */
  method CountFields(buf: array<byte>, p: nat, ghost t: seq<byte>) returns (n: nat)
    requires Rest(buf, t, p) && WordStart(t, p) == p
    ensures n == |Fields(t, p)|
  {
    hide Fields;
    hide WordStart;
    hide WordEnd;
    n := 0;
    var a := p;
    while buf[a] != NUL
      invariant p <= a <= |t| && WordStart(t, a) == a
      invariant n + |Fields(t, a)| == |Fields(t, p)|
      decreases |t| - a
    {
      OneField(t, a);
      a := SkipWord(buf, a, t);
      a := SkipSpaces(buf, a, t);
      n := n + 1;
    }
    Ended(buf, t, p, a);
    NoField(t);
  }

  /** A word that has been terminated in place. */
  lemma WordAt(buf: array<byte>, t: seq<byte>, a: nat, e: nat)
    requires a <= e <= |t| < buf.Length && NUL !in t && buf[e] == NUL && forall j | a <= j < e :: buf[j] == t[j]
    ensures StringFrom(buf[..], a) == t[a..e]
  {
    forall j | a <= j < e ensures buf[..][j] != NUL {
      assert t[j] in t;
    }
    StringUpTo(buf[..], a, e);
    assert buf[..][a..e] == t[a..e];
  }

  lemma NoNulInside(buf: seq<byte>, i: nat)
    requires i <= |buf|
    ensures CString(StringFrom(buf, i)) == StringFrom(buf, i)
  {
    var s := StringFrom(buf, i);
    StringIs(buf, i);
    StringUpTo(s, 0, |s|);
  }

  /** One round of the copy pass: the alias at `a` is stored and the next one found. */
  method CopyAlias(buf: array<byte>, a: nat, ghost t: seq<byte>) returns (word: seq<byte>, next: nat)
    requires Rest(buf, t, a) && WordStart(t, a) == a < |t|
    modifies buf
    ensures a < next <= |t| && WordStart(t, next) == next && Rest(buf, t, next)
    ensures Fields(t, a) == [word] + Fields(t, next) && CString(word) == word
  {
    hide Fields;
    hide WordStart;
    hide WordEnd;
    OneField(t, a);
    var p := SkipWord(buf, a, t);
    var q := SkipSpaces(buf, p, t);
    buf[p] := NUL;
    WordAt(buf, t, a, p);
    if p < |t| {
      EndIsSpace(t, a);
      StartBeyond(t, p + 1);
    }
    word, next := StringFrom(buf[..], a), q;
    NoNulInside(buf[..], a);
  }

  // ---------- Entries ----------

  /** A host entry with its one address. */
  datatype Hostent = Hostent(family: Family, addr: seq<byte>, name: seq<byte>, aliases: seq<seq<byte>>)

  /** The address of a text in the family asked for; IPv4 comes first when either will do. */
  function Converted(c: Conv, want: Want, text: seq<byte>): Option<(Family, seq<byte>)> {
    if (want == Only(INET) || want == UNSPEC) && c.v4(text).Some? then Some((INET, c.v4(text).value))
    else if (want == Only(INET6) || want == UNSPEC) && c.v6(text).Some? then Some((INET6, c.v6(text).value))
    else None
  }

  function EntryOf(c: Conv, want: Want, line: seq<byte>): Option<Hostent> {
    if LineEntry(line).None? then None
    else
      var raw := LineEntry(line).value;
      if Converted(c, want, raw.addr).None? then None
      else
        var (family, addr) := Converted(c, want, raw.addr).value;
        Some(Hostent(family, addr, raw.name, raw.aliases))
  }

  // ---------- An entry in memory ----------

  /** What a list of strings holds before the null pointer that ends it. */
  function UpToNull(list: seq<Block>): seq<Block> {
    if list == [] || list[0] == Null then [] else [list[0]] + UpToNull(list[1..])
  }

  lemma {:induction false} UpToNullIs(list: seq<Block>, n: nat)
    requires n < |list| && list[n] == Null && forall j | 0 <= j < n :: list[j] != Null
    ensures UpToNull(list) == list[..n]
  {
    if n > 0 {
      UpToNullIs(list[1..], n - 1);
      assert list[..n] == [list[0]] + list[1..][..n - 1];
    }
  }

  function TextOf(b: Block): seq<byte> {
    if b.Str? then b.text else []
  }

  function TextsOf(bs: seq<Block>): seq<seq<byte>> {
    seq(|bs|, i requires 0 <= i < |bs| => TextOf(bs[i]))
  }

  /** A host entry and the blocks it owns, null where there is none; the list of aliases ends with a null pointer. */
  datatype Stored = Stored(
    family: Family, addr: seq<byte>, self: Block, name: Block, addrList: Block, addrBlock: Block, aliasList: Block,
    aliases: seq<Block>)
  {
    ghost predicate Terminated() {
      if aliasList == Null then aliases == [] else Null in aliases
    }

    /** All of the entry is there. */
    ghost predicate Finished() { aliasList != Null && Null in aliases }

    ghost function Blocks(): multiset<Block> {
      One(self) + One(addrList) + One(addrBlock) + One(aliasList) + multiset(UpToNull(aliases)) + One(name)
    }

    /** What the entry says. */
    function Says(): Hostent {
      Hostent(family, addr, TextOf(name), TextsOf(UpToNull(aliases)))
    }
  }

  /** All live blocks but those of `rest` are the entry's. */
  ghost predicate Keeps(heap: Heap, rest: multiset<Block>, e: Stored)
    reads heap
  {
    heap.Valid() && heap.live == rest + e.Blocks() && e.Terminated()
  }

  lemma Spread(rest: multiset<Block>, e: Stored)
    ensures rest + e.Blocks() ==
            rest + One(e.self) + One(e.addrList) + One(e.addrBlock) + One(e.aliasList) + multiset(UpToNull(e.aliases))
            + One(e.name)
  {
    hide UpToNull;
    hide One;
  }

  lemma FrontBlock(rest: multiset<Block>, list: seq<Block>)
    requires list != [] && list[0] != Null
    ensures list[0] in rest + multiset(UpToNull(list))
    ensures rest + multiset(UpToNull(list)) - multiset{list[0]} == rest + multiset(UpToNull(list[1..]))
  {
    assert multiset([list[0]] + UpToNull(list[1..])) == multiset{list[0]} + multiset(UpToNull(list[1..]));
  }

  lemma EndOfList(rest: multiset<Block>, list: seq<Block>)
    requires list != [] && list[0] == Null
    ensures rest + multiset(UpToNull(list)) == rest
  {
  }

  /** The loop that releases the strings of a list. */
  method FreeList(heap: Heap, list: seq<Block>, ghost rest: multiset<Block>)
    requires heap.Valid() && heap.live == rest + multiset(UpToNull(list)) && Null in list
    modifies heap
    ensures heap.Valid() && heap.live == rest && heap.failures == old(heap.failures)
  {
    hide Heap.Valid;
    hide UpToNull;
    assert list[0..] == list;
    var i := 0;
    while list[i] != Null
      invariant i < |list| && Null in list[i..]
      invariant heap.Valid() && heap.live == rest + multiset(UpToNull(list[i..])) && heap.failures == old(heap.failures)
      decreases |list| - i
    {
      FrontBlock(rest, list[i..]);
      assert list[i..][1..] == list[i + 1..] && list[i..] == [list[i]] + list[i + 1..];
      heap.Free(list[i]);
      i := i + 1;
    }
    EndOfList(rest, list[i..]);
  }

  lemma EmptyList(rest: multiset<Block>)
    ensures UpToNull([]) == [] && rest + multiset(UpToNull([])) == rest
  {
  }

  method FreeOne(heap: Heap, b: Block, ghost rest: multiset<Block>)
    requires heap.Valid() && heap.live == rest + One(b)
    modifies heap
    ensures heap.Valid() && heap.live == rest && heap.failures == old(heap.failures)
  {
    hide Heap.Valid;
    hide One;
    heap.Counted();
    TakeOne(rest, b);
    heap.Free(b);
  }

  /** ares_free_hostent, and the exit of ares__get_hostent when memory runs out: every block there is goes back. */
  method Release(heap: Heap, e: Stored, ghost rest: multiset<Block>)
    requires Keeps(heap, rest, e)
    modifies heap
    ensures heap.Valid() && heap.live == rest && heap.failures == old(heap.failures)
  {
    hide Heap.Valid;
    hide UpToNull;
    hide One;
    heap.Counted();
    Spread(rest, e);
    ghost var r1 := rest + One(e.self);
    ghost var r2 := r1 + One(e.addrList);
    ghost var r3 := r2 + One(e.addrBlock);
    ghost var r4 := r3 + One(e.aliasList);
    TakeOne(r4 + multiset(UpToNull(e.aliases)), e.name);
    heap.Free(e.name);
    if e.aliasList != Null {
      FreeList(heap, e.aliases, r4);
    } else {
      EmptyList(r4);
    }
    FreeOne(heap, e.aliasList, r3);
    FreeOne(heap, e.addrBlock, r2);
    FreeOne(heap, e.addrList, r1);
    FreeOne(heap, e.self, rest);
  }

  lemma OneMore(r: multiset<Block>, a: multiset<Block>, b: multiset<Block>, c: multiset<Block>, d: multiset<Block>,
                x: multiset<Block>)
    ensures r + (multiset{} + b + c + d) + x == r + (x + b + c + d)
    ensures r + (a + multiset{} + c + d) + x == r + (a + x + c + d)
    ensures r + (a + b + multiset{} + d) + x == r + (a + b + x + d)
    ensures r + (a + b + c + multiset{}) + x == r + (a + b + c + x)
  {
  }

  lemma NoAliases(e: Stored)
    requires e.aliasList == Null && e.aliases == []
    ensures e.Blocks() == One(e.self) + One(e.addrList) + One(e.addrBlock) + One(e.name)
  {
    var sum := One(e.self) + One(e.addrList) + One(e.addrBlock);
    assert sum + One(e.aliasList) + multiset(UpToNull(e.aliases)) == sum;
  }

  // A null field of an entry without aliases gets a block.

  lemma AddedSelf(rest: multiset<Block>, e: Stored, b: Block)
    requires e.aliasList == Null && e.aliases == [] && e.self == Null
    ensures rest + e.Blocks() + One(b) == rest + e.(self := b).Blocks()
  {
    hide Stored.Blocks;
    NoAliases(e);
    NoAliases(e.(self := b));
    OneMore(rest, One(e.self), One(e.addrList), One(e.addrBlock), One(e.name), One(b));
  }

  lemma AddedName(rest: multiset<Block>, e: Stored, b: Block)
    requires e.aliasList == Null && e.aliases == [] && e.name == Null
    ensures rest + e.Blocks() + One(b) == rest + e.(name := b).Blocks()
  {
    hide Stored.Blocks;
    NoAliases(e);
    NoAliases(e.(name := b));
    OneMore(rest, One(e.self), One(e.addrList), One(e.addrBlock), One(e.name), One(b));
  }

  lemma AddedAddrList(rest: multiset<Block>, e: Stored, b: Block)
    requires e.aliasList == Null && e.aliases == [] && e.addrList == Null
    ensures rest + e.Blocks() + One(b) == rest + e.(addrList := b).Blocks()
  {
    hide Stored.Blocks;
    NoAliases(e);
    NoAliases(e.(addrList := b));
    OneMore(rest, One(e.self), One(e.addrList), One(e.addrBlock), One(e.name), One(b));
  }

  lemma AddedAddr(rest: multiset<Block>, e: Stored, b: Block)
    requires e.aliasList == Null && e.aliases == [] && e.addrBlock == Null
    ensures rest + e.Blocks() + One(b) == rest + e.(addrBlock := b).Blocks()
  {
    hide Stored.Blocks;
    NoAliases(e);
    NoAliases(e.(addrBlock := b));
    OneMore(rest, One(e.self), One(e.addrList), One(e.addrBlock), One(e.name), One(b));
  }

  /** The alias list, when it is new: nothing but null pointers. */
  lemma AddedList(rest: multiset<Block>, e: Stored, b: Block, list: seq<Block>)
    requires e.aliasList == Null && e.aliases == [] && b != Null
    ensures rest + e.Blocks() + multiset{b} + multiset(UpToNull(list)) ==
            rest + e.(aliasList := b, aliases := list).Blocks()
  {
    EmptyList(rest);
    hide UpToNull;
  }

  lemma NothingYet(rest: multiset<Block>, family: Family, addr: seq<byte>)
    ensures var e := Stored(family, addr, Null, Null, Null, Null, Null, []);
      rest + e.Blocks() == rest && e.Terminated()
  {
  }

  lemma Nothing(rest: multiset<Block>)
    ensures rest + multiset{} == rest
  {
  }

  method Take(heap: Heap) returns (b: Block)
    requires heap.Valid()
    modifies heap
    ensures heap.Valid() && heap.live == old(heap.live) + One(b)
    ensures heap.failures == old(heap.failures) + if b == Null then 1 else 0
  {
    hide Heap.Valid;
    b := heap.Malloc();
    Nothing(heap.live);
  }

  method TakeString(heap: Heap, text: seq<byte>) returns (b: Block)
    requires heap.Valid() && CString(text) == text
    modifies heap
    ensures heap.Valid() && heap.live == old(heap.live) + One(b) && (b != Null ==> TextOf(b) == text)
    ensures heap.failures == old(heap.failures) + if b == Null then 1 else 0
  {
    hide Heap.Valid;
    b := heap.Duplicate(text);
    Nothing(heap.live);
  }

  /** The blocks of an entry that has no aliases yet. */
  ghost predicate Begun(heap: Heap, rest: multiset<Block>, e: Stored, family: Family, addr: seq<byte>)
    reads heap
  {
    && heap.Valid() && heap.live == rest + e.Blocks()
    && e.aliasList == Null && e.aliases == [] && e.family == family && e.addr == addr
  }

  /** struct hostent and the name. */
  method AllocateName(heap: Heap, family: Family, addr: seq<byte>, name: seq<byte>, ghost rest: multiset<Block>)
      returns (ok: bool, e: Stored)
    requires heap.Valid() && heap.live == rest && CString(name) == name
    modifies heap
    ensures Begun(heap, rest, e, family, addr) && e.addrList == Null && e.addrBlock == Null
    ensures ok ==> TextOf(e.name) == name
    ensures heap.failures == old(heap.failures) + if ok then 0 else 1
  {
    hide Heap.Valid;
    hide One;
    hide CString;
    hide TextOf;
    hide Stored.Blocks;
    ok, e := false, Stored(family, addr, Null, Null, Null, Null, Null, []);
    NothingYet(rest, family, addr);
    var b := Take(heap);
    AddedSelf(rest, e, b);
    e := e.(self := b);
    if b != Null {
      b := TakeString(heap, name);
      AddedName(rest, e, b);
      e := e.(name := b);
      ok := b != Null;
    }
  }

  /** struct hostent, the name, and the list of addresses with its one address. */
  method AllocateParts(heap: Heap, family: Family, addr: seq<byte>, name: seq<byte>, ghost rest: multiset<Block>)
      returns (ok: bool, e: Stored)
    requires heap.Valid() && heap.live == rest && CString(name) == name
    modifies heap
    ensures Begun(heap, rest, e, family, addr)
    ensures ok ==> TextOf(e.name) == name
    ensures heap.failures == old(heap.failures) + if ok then 0 else 1
  {
    hide Heap.Valid;
    hide One;
    hide CString;
    hide TextOf;
    hide Stored.Blocks;
    ok, e := AllocateName(heap, family, addr, name, rest);
    if ok {
      var b := Take(heap);
      AddedAddrList(rest, e, b);
      e := e.(addrList := b);
      if b != Null {
        b := Take(heap);
        AddedAddr(rest, e, b);
        e := e.(addrBlock := b);
      }
      ok := b != Null;
    }
  }

  /** The blocks of the aliases copied so far. */
  ghost predicate Copied(list: seq<Block>, fs: seq<seq<byte>>, i: nat) {
    && i <= |fs| && |list| == |fs| + 1
    && (forall j | 0 <= j < i :: list[j].Str? && list[j].text == fs[j])
    && (forall j | i <= j < |list| :: list[j] == Null)
  }

  lemma CopiedList(list: seq<Block>, fs: seq<seq<byte>>, i: nat)
    requires Copied(list, fs, i)
    ensures UpToNull(list) == list[..i] && list[i] == Null && Null in list
    ensures i == |fs| ==> TextsOf(UpToNull(list)) == fs
  {
    UpToNullIs(list, i);
  }

  lemma CopiedMore(list: seq<Block>, fs: seq<seq<byte>>, i: nat, b: Block, rest: multiset<Block>)
    requires Copied(list, fs, i) && i < |fs| && b.Str? && b.text == fs[i]
    ensures Copied(list[i := b], fs, i + 1)
    ensures rest + multiset(list[..i]) + multiset{b} == rest + multiset(list[i := b][..i + 1])
  {
    assert list[i := b][..i + 1] == list[..i] + [b];
  }

  /** The aliases copied so far are in the list, and their blocks are live. */
  ghost predicate Copying(heap: Heap, rest: multiset<Block>, list: seq<Block>, fs: seq<seq<byte>>, i: nat)
    reads heap
  {
    heap.Valid() && Copied(list, fs, i) && heap.live == rest + multiset(list[..i])
  }

  lemma FirstField(fs: seq<seq<byte>>, i: nat, word: seq<byte>, left: seq<seq<byte>>)
    requires i <= |fs| && fs[i..] == [word] + left
    ensures i < |fs| && fs[i] == word && fs[i + 1..] == left
  {
    assert fs[i..][0] == word && fs[i..][1..] == left;
  }

  /** A copy of a word is put into the list. */
  method CopyWord(heap: Heap, word: seq<byte>, room: array<Block>, i: nat, ghost fs: seq<seq<byte>>,
                  ghost rest: multiset<Block>)
      returns (ok: bool)
    requires Copying(heap, rest, room[..], fs, i) && i < |fs| && fs[i] == word && CString(word) == word
    modifies heap, room
    ensures Copying(heap, rest, room[..], fs, if ok then i + 1 else i)
    ensures heap.failures == old(heap.failures) + if ok then 0 else 1
  {
    hide Heap.Valid;
    hide CString;
    ghost var before := room[..];
    var b := heap.Duplicate(word);
    ok := b != Null;
    if ok {
      CopiedMore(before, fs, i, b, rest);
      hide Copied;
      room[i] := b;
      assert room[..] == before[i := b];
    }
  }

  lemma RestThere(buf: array<byte>, t: seq<byte>, a: nat)
    requires Rest(buf, t, a)
    ensures a <= |t| < buf.Length && (a < |t| ==> buf[a] != NUL) && (a == |t| ==> buf[a] == NUL)
  {
    if a < |t| {
      assert t[a] in t;
    }
  }

  lemma StartCopying(heap: Heap, rest: multiset<Block>, list: seq<Block>, fs: seq<seq<byte>>)
    requires heap.Valid() && heap.live == rest && |list| == |fs| + 1 && forall j | 0 <= j < |list| :: list[j] == Null
    ensures Copying(heap, rest, list, fs, 0)
  {
    assert list[..0] == [];
  }

  lemma EndCopying(heap: Heap, rest: multiset<Block>, list: seq<Block>, fs: seq<seq<byte>>, i: nat)
    requires Copying(heap, rest, list, fs, i)
    ensures heap.Valid() && heap.live == rest + multiset(UpToNull(list)) && Null in list
    ensures i == |fs| ==> TextsOf(UpToNull(list)) == fs
  {
    CopiedList(list, fs, i);
  }

  /**
   * The pass that copies the aliases: it stores as many as were counted, unless memory runs out, and the list stays
   * terminated all the time.
   */
  method CopyAliases(heap: Heap, buf: array<byte>, p: nat, n: nat, ghost t: seq<byte>, ghost rest: multiset<Block>)
      returns (ok: bool, list: seq<Block>)
    requires heap.Valid() && heap.live == rest
    requires Rest(buf, t, p) && WordStart(t, p) == p && n == |Fields(t, p)|
    modifies heap, buf
    ensures heap.Valid() && heap.live == rest + multiset(UpToNull(list)) && Null in list
    ensures ok ==> TextsOf(UpToNull(list)) == Fields(t, p)
    ensures heap.failures == old(heap.failures) + if ok then 0 else 1
  {
    hide Heap.Valid;
    hide Fields;
    hide WordStart;
    hide UpToNull;
    hide CString;
    hide Copied;
    hide Copying;
    hide Rest;
    var room := new Block[n + 1](_ => Null);
    var a, i: nat := p, 0;
    ok := true;
    ghost var fs := Fields(t, p);
    NoField(t);
    StartCopying(heap, rest, room[..], fs);
    RestThere(buf, t, a);
    while ok && buf[a] != NUL
      invariant p <= a <= |t| < buf.Length && WordStart(t, a) == a && Rest(buf, t, a) && i <= n
      invariant buf[a] == NUL <==> a == |t|
      invariant ok ==> Fields(t, a) == fs[i..]
      invariant room.Length == n + 1 && Copying(heap, rest, room[..], fs, i)
      invariant heap.failures == old(heap.failures) + if ok then 0 else 1
      decreases ok, |t| - a
    {
      var word, next := CopyAlias(buf, a, t);
      FirstField(fs, i, word, Fields(t, next));
      ok := CopyWord(heap, word, room, i, fs, rest);
      i := if ok then i + 1 else i;
      a := next;
      RestThere(buf, t, a);
    }
    list := room[..];
    EndCopying(heap, rest, list, fs, i);
  }

  /** Builds the entry of a line, or gives everything back when memory runs out. */
  method Store(heap: Heap, family: Family, addr: seq<byte>, name: seq<byte>, buf: array<byte>, p: nat, n: nat,
               ghost t: seq<byte>, ghost rest: multiset<Block>)
      returns (ok: bool, e: Stored)
    requires heap.Valid() && heap.live == rest && CString(name) == name
    requires Rest(buf, t, p) && WordStart(t, p) == p && n == |Fields(t, p)|
    modifies heap, buf
    ensures ok ==> Keeps(heap, rest, e) && e.Finished() && e.Says() == Hostent(family, addr, name, Fields(t, p))
    ensures !ok ==> heap.Valid() && heap.live == rest
    ensures heap.failures == old(heap.failures) + if ok then 0 else 1
  {
    hide Heap.Valid;
    hide UpToNull;
    hide Fields;
    hide CString;
    hide WordStart;
    hide TextOf;
    hide TextsOf;
    hide Stored.Blocks;
    ok, e := AllocateParts(heap, family, addr, name, rest);
    if ok {
      var block := heap.Malloc();
      ok := block != Null;
      if ok {
        var list;
        ok, list := CopyAliases(heap, buf, p, n, t, rest + e.Blocks() + multiset{block});
        AddedList(rest, e, block, list);
        e := e.(aliasList := block, aliases := list);
      }
    }
    if !ok {
      Release(heap, e, rest);
    }
  }

  /** Where the parts of a line are: the host name, and the first alias or the end. */
  lemma SecondField(t: seq<byte>, a: nat, h: nat, l: nat)
    requires a < |t| && WordStart(t, 0) == a
    requires h == WordStart(t, WordEnd(t, a)) && (h < |t| ==> l == WordStart(t, WordEnd(t, h)))
    ensures h == |t| ==> |Fields(t, 0)| == 1
    ensures h < |t| ==> l <= |t| && Fields(t, 0) == [t[a..WordEnd(t, a)]] + [t[h..WordEnd(t, h)]] + Fields(t, l)
    ensures h < |t| ==> WordStart(t, l) == l
  {
    hide Fields;
    StartAgain(t, 0);
    OneField(t, a);
    if h < |t| {
      OneField(t, h);
      AppendAssoc([t[a..WordEnd(t, a)]], [t[h..WordEnd(t, h)]], Fields(t, l));
    } else {
      NoField(t);
    }
  }

  lemma SplitRaw(fs: seq<seq<byte>>, x: seq<byte>, y: seq<byte>, rest: seq<seq<byte>>)
    requires fs == [x] + [y] + rest
    ensures |fs| >= 2 && fs[0] == x && fs[1] == y && fs[2..] == rest
  {
  }

  /** The entry whose address, name and further fields are known to be there. */
  function Entry(c: Conv, want: Want, addr: seq<byte>, name: seq<byte>, aliases: seq<seq<byte>>): Option<Hostent> {
    var found := Converted(c, want, addr);
    if found.None? then None else Some(Hostent(found.value.0, found.value.1, name, aliases))
  }

  /** What a line has given: an entry, if it says one; `want` says what it should say. */
  ghost predicate Outcome(heap: Heap, rest: multiset<Block>, ok: bool, host: Option<Stored>, want: Option<Hostent>)
    reads heap
  {
    && heap.Valid() && (!ok ==> host.None? && want.Some?) && (ok ==> (host.Some? <==> want.Some?))
    && (host.None? ==> heap.live == rest)
    && (host.Some? ==> Keeps(heap, rest, host.value) && host.value.Finished() && host.value.Says() == want.value)
  }

  /** Terminates address and name in place, and counts the aliases. */
  method CutFields(buf: array<byte>, a: nat, e: nat, h: nat, ghost t: seq<byte>) returns (q: nat, n: nat)
    requires Rest(buf, t, a) && a < e == WordEnd(t, a) && e < h == WordStart(t, e) < |t| && WordStart(t, h) == h
    modifies buf
    ensures a <= buf.Length && h <= buf.Length
    ensures StringFrom(buf[..], a) == t[a..e] && StringFrom(buf[..], h) == t[h..WordEnd(t, h)]
    ensures q == WordStart(t, WordEnd(t, h)) == WordStart(t, q) && Rest(buf, t, q) && n == |Fields(t, q)|
  {
    hide Fields;
    hide WordStart;
    hide WordEnd;
    hide StringFrom;
    buf[e] := NUL;
    var p := SkipWord(buf, h, t);
    q := SkipSpaces(buf, p, t);
    OneField(t, h);
    if p < |t| {
      EndIsSpace(t, h);
      StartBeyond(t, p + 1);
    }
    buf[p] := NUL;
    n := CountFields(buf, q, t);
    WordAt(buf, t, a, e);
    WordAt(buf, t, h, p);
  }

  lemma NoEntry(heap: Heap, rest: multiset<Block>, want: Option<Hostent>, ok: bool)
    requires heap.Valid() && heap.live == rest && ok == want.None?
    ensures Outcome(heap, rest, ok, None, want)
  {
  }

  lemma OneEntry(heap: Heap, rest: multiset<Block>, e: Stored, want: Hostent)
    requires Keeps(heap, rest, e) && e.Finished() && e.Says() == want
    ensures Outcome(heap, rest, true, Some(e), Some(want))
  {
  }

  lemma EntryFound(c: Conv, want: Want, addr: seq<byte>, name: seq<byte>, aliases: seq<seq<byte>>)
    ensures var found := Converted(c, want, addr);
      Entry(c, want, addr, name, aliases) ==
      if found.None? then None else Some(Hostent(found.value.0, found.value.1, name, aliases))
  {
  }

  /** The second half of the loop body: the fields are terminated in place, the aliases counted and copied. */
  method TakeFields(heap: Heap, c: Conv, want: Want, buf: array<byte>, a: nat, e: nat, h: nat, ghost t: seq<byte>,
                    ghost rest: multiset<Block>)
      returns (ok: bool, host: Option<Stored>)
    requires heap.Valid() && heap.live == rest
    requires Rest(buf, t, a) && a < e == WordEnd(t, a) && e < h == WordStart(t, e) < |t| && WordStart(t, h) == h
    modifies heap, buf
    ensures Outcome(heap, rest, ok, host,
                    Entry(c, want, t[a..e], t[h..WordEnd(t, h)], Fields(t, WordStart(t, WordEnd(t, h)))))
    ensures heap.failures == old(heap.failures) + if ok then 0 else 1
  {
    hide Heap.Valid;
    hide Fields;
    hide WordStart;
    hide WordEnd;
    hide StringFrom;
    hide CString;
    hide Keeps;
    hide Stored.Says;
    hide Stored.Finished;
    hide Rest;
    hide Converted;
    hide Entry;
    hide Outcome;
    var q, n := CutFields(buf, a, e, h, t);
    NoNulInside(buf[..], h);
    var found := Converted(c, want, StringFrom(buf[..], a));
    ghost var aliases := Fields(t, q);
    EntryFound(c, want, t[a..e], t[h..WordEnd(t, h)], aliases);
    ok, host := true, None;
    if found.Some? {
      var name := StringFrom(buf[..], h);
      ghost var entry := Hostent(found.value.0, found.value.1, name, aliases);
      var stored;
      ok, stored := Store(heap, found.value.0, found.value.1, name, buf, q, n, t, rest);
      if ok {
        host := Some(stored);
        OneEntry(heap, rest, stored, entry);
      } else {
        NoEntry(heap, rest, Some(entry), false);
      }
    } else {
      NoEntry(heap, rest, None, true);
    }
  }

  /** The loop body of ares__get_hostent: the entry of a line, if it has one for the family. */
  method TakeLine(heap: Heap, c: Conv, want: Want, buf: array<byte>, ghost line: seq<byte>, ghost rest: multiset<Block>)
      returns (ok: bool, host: Option<Stored>)
    requires heap.Valid() && heap.live == rest && Holds(buf, line)
    modifies heap, buf
    ensures Outcome(heap, rest, ok, host, EntryOf(c, want, line))
    ensures heap.failures == old(heap.failures) + if ok then 0 else 1
  {
    hide Heap.Valid;
    hide Keeps;
    hide Stored.Says;
    hide Stored.Finished;
    hide Fields;
    hide WordStart;
    hide WordEnd;
    hide StringFrom;
    hide BeforeHash;
    ghost var t := Trim(buf, line);
    ghost var fs := Fields(t, 0);
    ok, host := true, None;
    var a := SkipSpaces(buf, 0, t);
    StartAgain(t, 0);
    if buf[a] == NUL {
      Ended(buf, t, 0, a);
      NoField(t);
    } else {
      var e := SkipWord(buf, a, t);
      var h := SkipSpaces(buf, e, t);
      OneField(t, a);
      ghost var l := if h < |t| then WordStart(t, WordEnd(t, h)) else h;
      SecondField(t, a, h, l);
      if buf[h] == NUL {
        Ended(buf, t, e, h);
      } else {
        StartAgain(t, e);
        if e < |t| {
          EndIsSpace(t, a);
          StartBeyond(t, e + 1);
        }
        ok, host := TakeFields(heap, c, want, buf, a, e, h, t, rest);
        SplitRaw(fs, t[a..e], t[h..WordEnd(t, h)], Fields(t, l));
      }
    }
  }

  // ---------- The file ----------

  /** The entries of some lines, in order. */
  function Collected(c: Conv, want: Want, lines: seq<seq<byte>>): seq<Hostent> {
    if lines == [] then []
    else
      (if EntryOf(c, want, lines[0]).Some? then [EntryOf(c, want, lines[0]).value] else [])
      + Collected(c, want, lines[1..])
  }

  function EntriesFrom(c: Conv, want: Want, data: seq<byte>, p: nat): seq<Hostent>
    requires p <= |data|
  {
    Collected(c, want, LinesFrom(data, p))
  }

  /** The entries of a file, line by line. */
  lemma {:induction false} EntriesAdd(c: Conv, want: Want, a: seq<seq<byte>>, b: seq<seq<byte>>, line: seq<byte>)
    ensures Collected(c, want, a + b) == Collected(c, want, a) + Collected(c, want, b)
    ensures Collected(c, want, [line]) == if EntryOf(c, want, line).Some? then [EntryOf(c, want, line).value] else []
  {
    hide EntryOf;
    assert [line][1..] == [];
    if a == [] {
      assert a + b == b;
    } else {
      assert (a + b)[1..] == a[1..] + b && (a + b)[0] == a[0];
      EntriesAdd(c, want, a[1..], b, line);
      var first := if EntryOf(c, want, a[0]).Some? then [EntryOf(c, want, a[0]).value] else [];
      AppendAssoc(first, Collected(c, want, a[1..]), Collected(c, want, b));
    }
  }

  lemma OneLine(c: Conv, want: Want, data: seq<byte>, p: nat)
    requires p < |data|
    ensures var line, rest := data[p..LineEnd(data, p)], EntriesFrom(c, want, data, After(data, LineEnd(data, p)));
      EntriesFrom(c, want, data, p) ==
        (if EntryOf(c, want, line).Some? then [EntryOf(c, want, line).value] else []) + rest
  {
    hide EntryOf;
    var lines := LinesFrom(data, p);
    assert lines[1..] == LinesFrom(data, After(data, LineEnd(data, p)));
  }

  lemma NoLines(c: Conv, want: Want, data: seq<byte>)
    ensures EntriesFrom(c, want, data, |data|) == []
  {
  }

  /** The lines read have given no entry, one, or the end of the file. */
  ghost predicate Found(c: Conv, want: Want, f: File, start: nat, status: Status, host: Option<Stored>)
    reads f
  {
    && start <= f.pos <= |f.data| && (host.Some? ==> status == SUCCESS)
    && (status == SUCCESS && host.None? ==> EntriesFrom(c, want, f.data, f.pos) == EntriesFrom(c, want, f.data, start))
    && (status == EOF ==> EntriesFrom(c, want, f.data, start) == [])
    && (host.Some? ==>
         && f.pos > start
         && EntriesFrom(c, want, f.data, start) == [host.value.Says()] + EntriesFrom(c, want, f.data, f.pos))
  }

  ghost function Owned(host: Option<Stored>): multiset<Block> {
    if host.Some? then host.value.Blocks() else multiset{}
  }

  /** The blocks taken since `rest` are the line buffer's and those of the entry found. */
  ghost predicate Holding(heap: Heap, rest: multiset<Block>, buf: array?<byte>, block: Block, size: nat,
                          host: Option<Stored>)
    reads heap
  {
    && heap.Valid() && heap.live == rest + One(block) + Owned(host) && (host.Some? ==> host.value.Finished())
    && (buf == null <==> block == Null) && (buf != null ==> buf.Length == Size(size))
  }

  lemma HoldsBuffer(heap: Heap, rest: multiset<Block>, buf: array?<byte>, block: Block, size: nat)
    ensures Holding(heap, rest, buf, block, size, None) == Buffered(heap, rest, buf, block, size)
  {
    assert rest + One(block) + multiset{} == rest + One(block);
  }

  /** One line more. */
  method NextLine(heap: Heap, c: Conv, want: Want, f: File, given: array?<byte>, held: Block, ghost k: nat,
                  ghost start: nat, ghost rest: multiset<Block>)
      returns (status: Status, host: Option<Stored>, buf: array?<byte>, block: Block, ghost size: nat)
    requires Buffered(heap, rest, given, held, k) && f.Valid() && NUL !in f.data
    requires Found(c, want, f, start, SUCCESS, None)
    modifies heap, f, if given == null then {} else {given}
    ensures Holding(heap, rest, buf, block, size, host) && (buf == null || buf == given || fresh(buf))
    ensures f.Valid() && status in {SUCCESS, EOF, ENOMEM} && Found(c, want, f, start, status, host)
    ensures status == SUCCESS && host.None? ==> f.pos > old(f.pos)
    ensures heap.failures == old(heap.failures) + if status == ENOMEM then 1 else 0
  {
    hide Heap.Valid;
    hide Size;
    hide EntryOf;
    hide EntriesFrom;
    hide LineEnd;
    hide Buffered;
    hide Stored.Blocks;
    hide Stored.Says;
    host := None;
    ghost var here := f.pos;
    NoLines(c, want, f.data);
    status, buf, block, size := ReadLine(heap, f, given, held, k, rest);
    SameHeap(heap, rest, buf, block, size);
    if status == SUCCESS {
      LineInFile(f, buf, here);
      OneLine(c, want, f.data, here);
      var ok;
      ok, host := TakeLine(heap, c, want, buf, f.data[here..LineEnd(f.data, here)], rest + One(block));
      status := if ok then SUCCESS else ENOMEM;
    }
  }

  /** The line buffer goes back and the entry stays. */
  lemma WithoutBuffer(rest: multiset<Block>, block: Block, entry: multiset<Block>)
    requires Null !in rest + One(block) + entry
    ensures block == Null || block in rest + One(block) + entry
    ensures rest + One(block) + entry - multiset{block} == rest + entry
  {
  }

  lemma NotYetFound(c: Conv, want: Want, f: File)
    requires f.Valid()
    ensures Found(c, want, f, f.pos, SUCCESS, None)
  {
  }

  lemma WhatIsFound(c: Conv, want: Want, f: File, start: nat, status: Status, host: Option<Stored>)
    requires Found(c, want, f, start, status, host)
    ensures start <= f.pos && (status == EOF ==> EntriesFrom(c, want, f.data, start) == [])
    ensures host.Some? ==>
      && status == SUCCESS && f.pos > start
      && EntriesFrom(c, want, f.data, start) == [host.value.Says()] + EntriesFrom(c, want, f.data, f.pos)
  {
  }

  /** The loop over the lines. */
  method ReadEntry(heap: Heap, c: Conv, want: Want, f: File, ghost start: nat, ghost rest: multiset<Block>)
      returns (status: Status, host: Option<Stored>, buf: array?<byte>, block: Block, ghost size: nat)
    requires heap.Valid() && heap.live == rest && f.Valid() && NUL !in f.data && start == f.pos
    modifies heap, f
    ensures Holding(heap, rest, buf, block, size, host) && f.Valid() && Found(c, want, f, start, status, host)
    ensures status in {SUCCESS, EOF, ENOMEM} && host.Some? == (status == SUCCESS)
    ensures heap.failures == old(heap.failures) + if status == ENOMEM then 1 else 0
  {
    hide Heap.Valid;
    hide EntriesFrom;
    hide Found;
    hide Holding;
    hide Buffered;
    status, host, buf, block, size := SUCCESS, None, null, Null, 0;
    NoBuffer(heap, rest);
    HoldsBuffer(heap, rest, buf, block, size);
    NotYetFound(c, want, f);
    while status == SUCCESS && host.None?
      invariant Holding(heap, rest, buf, block, size, host) && (buf != null ==> fresh(buf))
      invariant f.Valid() && status in {SUCCESS, EOF, ENOMEM} && Found(c, want, f, start, status, host)
      invariant heap.failures == old(heap.failures) + if status == ENOMEM then 1 else 0
      decreases status == SUCCESS && host.None?, |f.data| - f.pos
    {
      HoldsBuffer(heap, rest, buf, block, size);
      status, host, buf, block, size := NextLine(heap, c, want, f, buf, block, size, start, rest);
    }
    WhatIsFound(c, want, f, start, status, host);
  }

  /** The line buffer goes back and the entry stays. */
  method DropBuffer(heap: Heap, ghost buf: array?<byte>, block: Block, ghost size: nat, ghost host: Option<Stored>,
                    ghost rest: multiset<Block>)
    requires Holding(heap, rest, buf, block, size, host)
    modifies heap
    ensures heap.Valid() && heap.live == rest + Owned(host) && heap.failures == old(heap.failures)
    ensures host.Some? ==> host.value.Finished()
  {
    hide Heap.Valid;
    hide Owned;
    hide One;
    heap.Counted();
    WithoutBuffer(rest, block, Owned(host));
    heap.Free(block);
  }

  /** ares__get_hostent: the next entry for the family, skipping what is none. */
  method GetHostent(heap: Heap, c: Conv, want: Want, f: File) returns (status: Status, host: Option<Stored>)
    requires heap.Valid() && f.Valid() && NUL !in f.data
    modifies heap, f
    ensures heap.Valid() && f.Valid() && old(f.pos) <= f.pos && host.Some? == (status == SUCCESS)
    ensures heap.live == old(heap.live) + Owned(host)
    ensures heap.failures == old(heap.failures) + if status == ENOMEM then 1 else 0
    ensures want == UnknownFamily ==> status == EBADFAMILY && f.pos == old(f.pos)
    ensures want != UnknownFamily && status != ENOMEM ==>
      status == if EntriesFrom(c, want, f.data, old(f.pos)) == [] then EOF else SUCCESS
    ensures status == SUCCESS ==>
      && f.pos > old(f.pos) && host.value.Finished()
      && EntriesFrom(c, want, f.data, old(f.pos)) == [host.value.Says()] + EntriesFrom(c, want, f.data, f.pos)
  {
    hide Heap.Valid;
    hide EntriesFrom;
    hide Found;
    hide Holding;
    hide Stored.Blocks;
    hide Stored.Says;
    hide Stored.Finished;
    ghost var rest, start := heap.live, f.pos;
    Nothing(rest);
    host, status := None, EBADFAMILY;
    if want != UnknownFamily {
      var buf, block; ghost var size;
      status, host, buf, block, size := ReadEntry(heap, c, want, f, start, rest);
      WhatIsFound(c, want, f, start, status, host);
      DropBuffer(heap, buf, block, size, host, rest);
    }
  }

  // ---------- Looking a name up ----------

  predicate Known(h: Hostent, name: seq<byte>) {
    SameName(h.name, name) || exists a | a in h.aliases :: SameName(a, name)
  }

  lemma {:induction false} UpToNullAt(list: seq<Block>, i: nat)
    requires i < |list| && forall j | 0 <= j < i :: list[j] != Null
    ensures list[i] == Null ==> UpToNull(list) == list[..i]
    ensures list[i] != Null ==> i < |UpToNull(list)| && UpToNull(list)[i] == list[i]
    ensures i <= |UpToNull(list)| && UpToNull(list)[..i] == list[..i]
  {
    if i > 0 {
      UpToNullAt(list[1..], i - 1);
      assert list[..i] == [list[0]] + list[1..][..i - 1];
    }
  }

  /** The comparisons of file_lookup with the name and each alias, up to the null pointer. */
  method IsKnown(e: Stored, name: seq<byte>) returns (known: bool)
    requires Null in e.aliases
    ensures known == Known(e.Says(), name)
  {
    hide UpToNull;
    hide SameName;
    ghost var names := UpToNull(e.aliases);
    var i: nat := 0;
    known := SameName(TextOf(e.name), name);
    while !known && e.aliases[i] != Null
      invariant i < |e.aliases| && (!known ==> Null in e.aliases[i..])
      invariant !known ==> forall j | 0 <= j < i :: e.aliases[j] != Null && !SameName(TextOf(e.aliases[j]), name)
      invariant !known ==> !SameName(TextOf(e.name), name)
      invariant known ==> Known(e.Says(), name)
      decreases !known, |e.aliases| - i
    {
      UpToNullAt(e.aliases, i);
      known := SameName(TextOf(e.aliases[i]), name);
      if known {
        assert TextsOf(names)[i] == TextOf(e.aliases[i]);
      } else {
        assert e.aliases[i..] == [e.aliases[i]] + e.aliases[i + 1..];
        i := i + 1;
      }
    }
    if !known {
      UpToNullAt(e.aliases, i);
      forall k | 0 <= k < |TextsOf(names)| ensures !SameName(TextsOf(names)[k], name) {
        assert names[k] == e.aliases[k];
      }
    }
  }

  /** An entry knows its name and its aliases, and no other. */
  lemma KnowsItsNames(h: Hostent, name: seq<byte>)
    ensures Known(h, name) <==> exists i | 0 <= i <= |h.aliases| :: SameName(([h.name] + h.aliases)[i], name)
  {
    hide SameName;
    var names := [h.name] + h.aliases;
    assert names[0] == h.name && forall i | 0 <= i < |h.aliases| :: names[i + 1] == h.aliases[i];
    if Known(h, name) && !SameName(h.name, name) {
      var i :| 0 <= i < |h.aliases| && SameName(h.aliases[i], name);
      assert SameName(names[i + 1], name);
    }
  }

  /** `host` is the first of some entries that knows the name. */
  ghost predicate IsFirst(hs: seq<Hostent>, name: seq<byte>, host: Hostent) {
    exists i | 0 <= i < |hs| :: hs[i] == host && Known(host, name) && forall j | 0 <= j < i :: !Known(hs[j], name)
  }

  ghost predicate NoneKnows(hs: seq<Hostent>, name: seq<byte>) {
    forall j | 0 <= j < |hs| :: !Known(hs[j], name)
  }

  lemma FirstAfter(skipped: seq<Hostent>, h: Hostent, rest: seq<Hostent>, name: seq<byte>)
    requires NoneKnows(skipped, name) && Known(h, name)
    ensures IsFirst(skipped + ([h] + rest), name, h)
  {
    hide Known;
    assert (skipped + ([h] + rest))[|skipped|] == h;
  }

  lemma StillNone(skipped: seq<Hostent>, h: Hostent, rest: seq<Hostent>, name: seq<byte>)
    requires NoneKnows(skipped, name) && !Known(h, name)
    ensures NoneKnows(skipped + [h], name) && skipped + ([h] + rest) == skipped + [h] + rest
  {
    hide Known;
  }

  /** What opening the hosts file gives: the file, or that there is none, or another error. */
  datatype Access = Readable(file: File) | Missing | Failed

  /** An entry is kept if it knows the name, and given back otherwise. */
  method Visit(heap: Heap, e: Stored, name: seq<byte>, ghost rest: multiset<Block>) returns (known: bool)
    requires heap.Valid() && heap.live == rest + e.Blocks() && e.Finished()
    modifies heap
    ensures heap.Valid() && known == Known(e.Says(), name) && heap.failures == old(heap.failures)
    ensures heap.live == rest + if known then e.Blocks() else multiset{}
  {
    hide Heap.Valid;
    hide Stored.Blocks;
    hide Known;
    Nothing(rest);
    known := IsKnown(e, name);
    if !known {
      Release(heap, e, rest);
    }
  }

  /** The search in an open file: the entries passed over are given back. */
  method Search(heap: Heap, c: Conv, want: Want, name: seq<byte>, f: File)
      returns (status: Status, host: Option<Stored>)
    requires heap.Valid() && f.Valid() && NUL !in f.data
    modifies heap, f
    ensures heap.Valid() && f.Valid() && host.Some? == (status == SUCCESS)
    ensures heap.live == old(heap.live) + Owned(host)
    ensures heap.failures == old(heap.failures) + if status == ENOMEM then 1 else 0
    ensures status in {SUCCESS, EOF, EBADFAMILY, ENOMEM} && (status == EBADFAMILY <==> want == UnknownFamily)
    ensures status == SUCCESS ==> IsFirst(EntriesFrom(c, want, f.data, old(f.pos)), name, host.value.Says())
    ensures status == EOF ==> NoneKnows(EntriesFrom(c, want, f.data, old(f.pos)), name)
  {
    hide Heap.Valid;
    hide EntriesFrom;
    hide Known;
    hide IsFirst;
    hide Stored.Blocks;
    hide Stored.Says;
    ghost var skipped: seq<Hostent>, rest := [], heap.live;
    ghost var all := EntriesFrom(c, want, f.data, f.pos);
    assert skipped + all == all;
    Nothing(rest);
    var found := false;
    status, host := SUCCESS, None;
    while status == SUCCESS && !found
      invariant heap.Valid() && f.Valid() && status in {SUCCESS, EOF, EBADFAMILY, ENOMEM}
      invariant status == EBADFAMILY ==> want == UnknownFamily
      invariant status in {EOF, ENOMEM} || found ==> want != UnknownFamily
      invariant found ==> status == SUCCESS && host.Some?
      invariant heap.live == rest + if found then host.value.Blocks() else multiset{}
      invariant heap.failures == old(heap.failures) + if status == ENOMEM then 1 else 0
      invariant found ==> IsFirst(all, name, host.value.Says())
      invariant status == SUCCESS && !found ==> NoneKnows(skipped, name)
      invariant status == SUCCESS && !found ==> all == skipped + EntriesFrom(c, want, f.data, f.pos)
      invariant status == EOF ==> NoneKnows(all, name)
      invariant status != SUCCESS ==> host.None?
      decreases status == SUCCESS && !found, |f.data| - f.pos
    {
      status, host := GetHostent(heap, c, want, f);
      if status == SUCCESS {
        ghost var left := EntriesFrom(c, want, f.data, f.pos);
        found := Visit(heap, host.value, name, rest);
        if found {
          FirstAfter(skipped, host.value.Says(), left, name);
        } else {
          StillNone(skipped, host.value.Says(), left, name);
          skipped := skipped + [host.value.Says()];
        }
      } else {
        assert skipped + [] == skipped;
      }
    }
  }

  /**
   * file_lookup: the first entry of the file that has the name or an alias equal to it, letter case aside. Whatever
   * happens, the blocks taken are those of the entry returned.
   */
  method FileLookup(heap: Heap, c: Conv, want: Want, name: seq<byte>, hosts: Access)
      returns (status: Status, host: Option<Stored>)
    requires heap.Valid() && (hosts.Readable? ==> hosts.file.Valid() && NUL !in hosts.file.data)
    modifies heap, if hosts.Readable? then {hosts.file} else {}
    ensures heap.Valid() && host.Some? == (status == SUCCESS)
    ensures heap.live == old(heap.live) + Owned(host)
    ensures heap.failures == old(heap.failures) + if status == ENOMEM then 1 else 0
    ensures hosts == Missing ==> status == ENOTFOUND
    ensures hosts == Failed ==> status == EFILE
    ensures hosts.Readable? ==>
      && status in {SUCCESS, ENOTFOUND, EBADFAMILY, ENOMEM} && (status == EBADFAMILY <==> want == UnknownFamily)
      && var entries := EntriesFrom(c, want, hosts.file.data, old(hosts.file.pos));
      && (status == SUCCESS ==> IsFirst(entries, name, host.value.Says()))
      && (status == ENOTFOUND ==> NoneKnows(entries, name))
  {
    hide Heap.Valid;
    hide EntriesFrom;
    hide IsFirst;
    hide NoneKnows;
    hide Stored.Blocks;
    hide Stored.Says;
    host := None;
    Nothing(heap.live);
    match hosts {
      case Missing => status := ENOTFOUND;
      case Failed => status := EFILE;
      case Readable(file) =>
        status, host := Search(heap, c, want, name, file);
        if status == EOF {
          status := ENOTFOUND;
        }
    }
  }

  // ---------- Lines written and read back ----------

  lemma {:induction false} CutComment(t: seq<byte>, comment: seq<byte>)
    requires (forall i | 0 <= i < |t| :: t[i] != 35) && (comment == [] || comment[0] == 35)
    ensures BeforeHash(t + comment) == t
  {
    var line := t + comment;
    assert forall j | 0 <= j < |t| :: line[j] == t[j];
    assert comment != [] ==> line[|t|] == comment[0];
    BeforeHashIs(line, |t|);
    assert line[..|t|] == t;
  }

  /** The words of a line, whatever the spaces and the comment. */
  lemma LineWords(gaps: seq<seq<byte>>, words: seq<seq<byte>>, comment: seq<byte>)
    requires WellLaid(gaps, words) && (comment == [] || comment[0] == 35)
    requires forall i | 0 <= i < |Laid(gaps, words)| :: Laid(gaps, words)[i] != 35
    ensures Fields(BeforeHash(Laid(gaps, words) + comment), 0) == words
  {
    CutComment(Laid(gaps, words), comment);
    LaidWords([], gaps, words);
    assert [] + Laid(gaps, words) == Laid(gaps, words);
  }

  /**
   * A line with an address, a name and aliases gives that entry, if the address is of a family asked for; IPv4 is tried
   * first when either will do. A line with fewer than two words gives none.
   */
  lemma LineReadsBack(c: Conv, want: Want, gaps: seq<seq<byte>>, words: seq<seq<byte>>, comment: seq<byte>)
    requires WellLaid(gaps, words) && (comment == [] || comment[0] == 35)
    requires forall i | 0 <= i < |Laid(gaps, words)| :: Laid(gaps, words)[i] != 35
    ensures var line := Laid(gaps, words) + comment;
      if |words| < 2 then EntryOf(c, want, line) == None
      else
        var v4 := if want in {Only(INET), UNSPEC} then c.v4(words[0]) else None;
        var v6 := if want in {Only(INET6), UNSPEC} then c.v6(words[0]) else None;
        EntryOf(c, want, line) ==
        match (v4, v6)
        case (Some(a), _) => Some(Hostent(INET, a, words[1], words[2..]))
        case (None, Some(a)) => Some(Hostent(INET6, a, words[1], words[2..]))
        case (None, None) => None
  {
    hide Laid;
    hide Fields;
    LineWords(gaps, words, comment);
  }
}
