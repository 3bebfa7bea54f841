/** ares__read_line: a file read line by line into a buffer that doubles. */
module Lines {
  import opened Ares
  import opened Bytes
  import opened Memory

  const NEWLINE: byte := 10

  /** An open file, without read errors. */
  class File {
    const data: seq<byte>
    var pos: nat

    ghost predicate Valid()
      reads this
    {
      pos <= |data|
    }

    constructor (data: seq<byte>)
      ensures this.data == data && pos == 0 && Valid()
    {
      this.data, pos := data, 0;
    }
  }

  /** The end of the line that starts at `p`: its newline, or the end of the file. */
  function LineEnd(data: seq<byte>, p: nat): (e: nat)
    requires p <= |data|
    ensures p <= e <= |data|
    ensures e < |data| ==> data[e] == NEWLINE
    decreases |data| - p
  {
    if p == |data| || data[p] == NEWLINE then p else LineEnd(data, p + 1)
  }

  lemma {:induction false} LineEndIs(data: seq<byte>, p: nat, e: nat)
    requires p <= e <= |data| && forall j | p <= j < e :: data[j] != NEWLINE
    requires e < |data| ==> data[e] == NEWLINE
    ensures LineEnd(data, p) == e
    decreases e - p
  {
    if p < e {
      LineEndIs(data, p + 1, e);
    }
  }

  lemma {:induction false} NoNewlineBefore(data: seq<byte>, p: nat, j: nat)
    requires p <= j < |data| && j < LineEnd(data, p)
    ensures data[j] != NEWLINE
    decreases j - p
  {
    if p < j {
      NoNewlineBefore(data, p + 1, j);
    }
  }

  function After(data: seq<byte>, e: nat): nat {
    if e < |data| then e + 1 else |data|
  }

  /** The lines of a file from `p` on; what follows the last newline is a line if it is not empty. */
  function LinesFrom(data: seq<byte>, p: nat): seq<seq<byte>>
    requires p <= |data|
    decreases |data| - p
  {
    if p == |data| then []
    else
      var e := LineEnd(data, p);
      [data[p..e]] + LinesFrom(data, After(data, e))
  }

  /** Lines put together again, each with its newline. */
  function Joined(lines: seq<seq<byte>>): seq<byte> {
    if lines == [] then [] else lines[0] + [NEWLINE] + Joined(lines[1..])
  }

  lemma {:induction false} LineHasNoNewline(data: seq<byte>, p: nat)
    requires p <= |data|
    ensures NEWLINE !in data[p..LineEnd(data, p)]
  {
    forall j | p <= j < LineEnd(data, p) ensures data[j] != NEWLINE {
      NoNewlineBefore(data, p, j);
    }
  }

  lemma LinesCons(data: seq<byte>, p: nat)
    requires p < |data|
    ensures var e := LineEnd(data, p);
      && LinesFrom(data, p) == [data[p..e]] + LinesFrom(data, After(data, e))
      && Joined(LinesFrom(data, p)) == data[p..e] + [NEWLINE] + Joined(LinesFrom(data, After(data, e)))
  {
    var lines := LinesFrom(data, p);
    assert lines[1..] == LinesFrom(data, After(data, LineEnd(data, p)));
  }

  lemma LineThenRest(data: seq<byte>, p: nat, e: nat)
    requires p <= e <= |data| && (e < |data| ==> data[e] == NEWLINE)
    ensures e < |data| ==> data[p..] == data[p..e] + [NEWLINE] + data[e + 1..]
    ensures e == |data| ==> data[p..e] == data[p..]
  {
  }

  /** The file from `p` on, with a newline at its end if it has bytes. */
  function Ended(data: seq<byte>, p: nat): seq<byte>
    requires p <= |data|
  {
    if p == |data| || data[|data| - 1] == NEWLINE then data[p..] else data[p..] + [NEWLINE]
  }

  lemma LineThenEnded(data: seq<byte>, p: nat, e: nat)
    requires p <= e <= |data| && p < |data| && (e < |data| ==> data[e] == NEWLINE) && NEWLINE !in data[p..e]
    ensures data[p..e] + [NEWLINE] + Ended(data, After(data, e)) == Ended(data, p)
  {
    LineThenRest(data, p, e);
    if e < |data| {
      AppendAssoc(data[p..e] + [NEWLINE], data[e + 1..], [NEWLINE]);
    } else {
      assert data[p..e][|data| - 1 - p] == data[|data| - 1];
      assert data[p..] + [NEWLINE] + data[|data|..] == data[p..] + [NEWLINE];
    }
  }

  lemma NoMoreLines(data: seq<byte>)
    ensures LinesFrom(data, |data|) == [] && Joined([]) == []
  {
  }

  /** Splitting loses nothing but whether the last line had a newline. */
  lemma {:induction false} SplitThenJoin(data: seq<byte>, p: nat)
    requires p <= |data|
    ensures Joined(LinesFrom(data, p)) == Ended(data, p)
    ensures forall i | 0 <= i < |LinesFrom(data, p)| :: 10 !in LinesFrom(data, p)[i]
    decreases |data| - p
  {
    hide LinesFrom;
    hide LineEnd;
    hide Joined;
    if p < |data| {
      var e := LineEnd(data, p);
      SplitThenJoin(data, After(data, e));
      LinesCons(data, p);
      LineHasNoNewline(data, p);
      LineThenEnded(data, p, e);
    } else {
      NoMoreLines(data);
    }
  }

  // ---------- The buffer ----------

  /** 128 doubled some number of times. */
  function Size(k: nat): nat {
    if k == 0 then 128 else 2 * Size(k - 1)
  }

  lemma {:induction false} SizeIsLarge(k: nat)
    ensures Size(k) >= 128
  {
    if k > 0 {
      SizeIsLarge(k - 1);
    }
  }

  function Strlen(buf: seq<byte>, i: nat): nat
    requires i <= |buf|
  {
    |StringFrom(buf, i)|
  }

  lemma OneMoreByte(before: seq<byte>, after: seq<byte>, lo: nat, m: nat, b: byte)
    requires lo + m < |before| && after == before[lo + m := b]
    ensures after[lo..lo + m + 1] == before[lo..lo + m] + [b] && after[..lo] == before[..lo]
    ensures after[lo..lo + m] == before[lo..lo + m]
  {
  }

  lemma OneMoreOf(data: seq<byte>, lo: nat, m: nat)
    requires lo + m < |data|
    ensures data[lo..lo + m + 1] == data[lo..lo + m] + [data[lo + m]]
  {
  }

  /** fgets: at most `n - 1` bytes, up to and including a newline, and a terminator. */
  method Fgets(f: File, buf: array<byte>, offset: nat, n: nat) returns (got: bool)
    requires f.Valid() && n >= 2 && offset + n <= buf.Length
    modifies f, buf
    ensures f.Valid() && got == (old(f.pos) < |f.data|)
    ensures !got ==> f.pos == old(f.pos) && buf[..] == old(buf[..])
    ensures got ==>
      && old(f.pos) < f.pos < old(f.pos) + n
      && buf[..][..offset] == old(buf[..])[..offset]
      && buf[..][offset..offset + f.pos - old(f.pos)] == f.data[old(f.pos)..f.pos]
      && buf[offset + f.pos - old(f.pos)] == NUL
      && (forall j | old(f.pos) <= j < f.pos - 1 :: f.data[j] != NEWLINE)
      && (f.data[f.pos - 1] == NEWLINE || f.pos == |f.data| || f.pos == old(f.pos) + n - 1)
  {
    got := f.pos < |f.data|;
    if got {
      ghost var start, was := f.pos, buf[..];
      var m, done := 0, false;
      while m < n - 1 && f.pos < |f.data| && !done
        invariant m <= n - 1 && f.pos == start + m <= |f.data|
        invariant buf[..][..offset] == was[..offset]
        invariant buf[..][offset..offset + m] == f.data[start..start + m]
        invariant forall j | start <= j < f.pos - 1 :: f.data[j] != NEWLINE
        invariant m == 0 ==> !done
        invariant m > 0 ==> done == (f.data[f.pos - 1] == NEWLINE)
        decreases n - m, !done
      {
        ghost var before := buf[..];
        buf[offset + m] := f.data[f.pos];
        OneMoreByte(before, buf[..], offset, m, f.data[f.pos]);
        OneMoreOf(f.data, start, m);
        done := f.data[f.pos] == NEWLINE;
        m := m + 1;
        f.pos := f.pos + 1;
      }
      ghost var before := buf[..];
      buf[offset + m] := NUL;
      OneMoreByte(before, buf[..], offset, m, NUL);
    }
  }

  /** realloc to twice the size. */
  method Doubled(buf: array<byte>) returns (bigger: array<byte>)
    ensures fresh(bigger) && bigger.Length == 2 * buf.Length && bigger[..buf.Length] == buf[..]
  {
    bigger := new byte[2 * buf.Length](i requires i >= 0 reads buf => if i < buf.Length then buf[i] else NUL);
  }

  ghost predicate IsString(b: seq<byte>, s: seq<byte>) {
    |s| < |b| && b[..|s|] == s && b[|s|] == NUL && NUL !in s
  }

  /** The buffer holds the string `s`. */
  ghost predicate Holds(buf: array<byte>, s: seq<byte>)
    reads buf
  {
    IsString(buf[..], s)
  }

  /** What has been read of the line that starts at `start` is in the buffer, and there is room for more. */
  ghost predicate Reading(f: File, buf: array<byte>, start: nat, offset: nat)
    reads f, buf
  {
    && start <= f.pos <= |f.data| && offset == f.pos - start <= buf.Length - 2
    && (forall j | start <= j < f.pos :: f.data[j] != NEWLINE)
    && (offset > 0 ==> Holds(buf, f.data[start..f.pos]))
  }

  /** The line that starts at `start` has been read. */
  ghost predicate HasLine(f: File, buf: array<byte>, start: nat)
    reads f, buf
  {
    && start < |f.data| && Holds(buf, f.data[start..LineEnd(f.data, start)])
    && f.pos == After(f.data, LineEnd(f.data, start))
  }

  lemma StringAfter(b: seq<byte>, data: seq<byte>, m: nat, here: nat, pos: nat)
    requires here <= pos <= |data| && NUL !in data && m + pos - here < |b|
    requires b[m..m + pos - here] == data[here..pos] && b[m + pos - here] == NUL
    ensures Strlen(b, m) == pos - here
  {
    forall j | m <= j < m + pos - here ensures b[j] != NUL {
      assert b[j] == b[m..m + pos - here][j - m] == data[here + j - m];
      assert data[here + j - m] in data;
    }
    StringUpTo(b, m, m + pos - here);
  }

  /** After fgets the buffer holds all that has been read of the line. */
  lemma Gathered(b: seq<byte>, data: seq<byte>, start: nat, here: nat, pos: nat)
    requires start <= here < pos <= |data| && NUL !in data && pos - start < |b|
    requires b[..here - start] == data[start..here] && b[here - start..pos - start] == data[here..pos]
    requires b[pos - start] == NUL
    ensures IsString(b, data[start..pos]) && Strlen(b, here - start) == pos - here
    ensures b[pos - start - 1] == data[pos - 1]
  {
    var n, m := pos - start, here - start;
    assert b[..n] == b[..m] + b[m..n];
    assert data[start..pos] == data[start..here] + data[here..pos];
    StringAfter(b, data, m, here, pos);
    assert b[n - 1] == b[..n][n - 1];
  }

  /** The newline at the end of a string is overwritten. */
  lemma Shortened(before: seq<byte>, after: seq<byte>, s: seq<byte>)
    requires s != [] && IsString(before, s) && after == before[|s| - 1 := NUL]
    ensures IsString(after, s[..|s| - 1])
  {
    assert after[..|s| - 1] == before[..|s|][..|s| - 1];
  }

  lemma ReadSoFar(f: File, buf: array<byte>, start: nat, offset: nat)
    requires Reading(f, buf, start, offset)
    ensures buf[..][..offset] == f.data[start..f.pos]
  {
  }

  /** The line is complete: its newline goes. */
  method CutNewline(f: File, buf: array<byte>, len: nat, ghost start: nat)
    requires start < f.pos <= |f.data| && len == f.pos - start && Holds(buf, f.data[start..f.pos])
    requires f.data[f.pos - 1] == NEWLINE && forall j | start <= j < f.pos - 1 :: f.data[j] != NEWLINE
    modifies buf
    ensures HasLine(f, buf, start)
  {
    hide LineEnd;
    LineEndIs(f.data, start, f.pos - 1);
    ghost var before, line := buf[..], f.data[start..f.pos];
    buf[len - 1] := NUL;
    Shortened(before, buf[..], line);
    assert line[..len - 1] == f.data[start..f.pos - 1];
  }

  /** One round of the loop: the line is complete, or the file has ended, or more of the line is to be read. */
  method Round(f: File, buf: array<byte>, offset: nat, ghost start: nat) returns (more: bool, ok: bool, len: nat)
    requires Reading(f, buf, start, offset) && NUL !in f.data
    modifies f, buf
    ensures more ==> old(f.pos) < f.pos <= |f.data| && forall j | start <= j < f.pos :: f.data[j] != NEWLINE
    ensures more ==> len == f.pos - start < buf.Length && Holds(buf, f.data[start..f.pos])
    ensures !more && ok ==> HasLine(f, buf, start)
    ensures !more && !ok ==> f.pos == start == |f.data|
  {
    hide LineEnd;
    hide Strlen;
    hide IsString;
    ghost var here := f.pos;
    ReadSoFar(f, buf, start, offset);
    var got := Fgets(f, buf, offset, buf.Length - offset);
    len := offset;
    if !got {
      more, ok := false, offset != 0;
      LineEndIs(f.data, start, |f.data|);
    } else {
      len := offset + Strlen(buf[..], offset);
      Gathered(buf[..], f.data, start, here, f.pos);
      more, ok := buf[len - 1] != NEWLINE, true;
      if !more {
        CutNewline(f, buf, len, start);
      }
    }
  }

  lemma FirstSize()
    ensures Size(0) == 128
  {
  }

  lemma SizeDoubles(k: nat)
    ensures Size(k + 1) == 2 * Size(k) && Size(k) >= 128
  {
    SizeIsLarge(k);
  }

  lemma LineInFile(f: File, buf: array<byte>, start: nat)
    ensures HasLine(f, buf, start) ==> start < f.pos <= |f.data|
  {
  }

  /** The line buffer and the block it is in: both there or neither, and of a size that doubling gives. */
  ghost predicate Buffered(heap: Heap, rest: multiset<Block>, buf: array?<byte>, block: Block, size: nat)
    reads heap
  {
    heap.Valid() && heap.live == rest + One(block) && (buf == null <==> block == Null) &&
    (buf != null ==> buf.Length == Size(size))
  }

  lemma SameHeap(heap: Heap, rest: multiset<Block>, buf: array?<byte>, block: Block, size: nat)
    requires Buffered(heap, rest, buf, block, size)
    ensures heap.Valid() && heap.live == rest + One(block) && Null !in heap.live
    ensures (buf == null <==> block == Null) && (buf != null ==> buf.Length == Size(size))
  {
    heap.Counted();
  }

  /** The buffer of the first call. */
  method FirstBuffer(heap: Heap, ghost rest: multiset<Block>)
      returns (buf: array?<byte>, block: Block)
    requires heap.Valid() && heap.live == rest
    modifies heap
    ensures Buffered(heap, rest, buf, block, 0) && (buf != null ==> fresh(buf))
    ensures heap.failures == old(heap.failures) + if buf == null then 1 else 0
  {
    hide Heap.Valid;
    FirstSize();
    buf := null;
    block := heap.Malloc();
    if block != Null {
      buf := new byte[128](_ => NUL);
    }
  }

  /** Twice the room, or none: a buffer that cannot grow is given back. */
  method GrowBuffer(heap: Heap, buf: array<byte>, block: Block, ghost size: nat, ghost rest: multiset<Block>)
      returns (bigger: array?<byte>, block': Block)
    requires Buffered(heap, rest, buf, block, size)
    modifies heap
    ensures Buffered(heap, rest, bigger, block', size + 1) && (bigger != null ==> fresh(bigger))
    ensures bigger != null ==> bigger.Length == 2 * buf.Length && bigger[..buf.Length] == buf[..]
    ensures heap.failures == old(heap.failures) + if bigger == null then 1 else 0
  {
    SameHeap(heap, rest, buf, block, size);
    hide Heap.Valid;
    hide Size;
    SizeDoubles(size);
    TakeOne(rest, block);
    bigger := null;
    block' := heap.Realloc(block);
    if block' == Null {
      heap.Free(block);
    } else {
      bigger := Doubled(buf);
    }
  }

  /** What has been read is also in the larger buffer. */
  lemma StillReading(f: File, buf: array<byte>, bigger: array<byte>, start: nat)
    requires start <= f.pos <= |f.data| && Holds(buf, f.data[start..f.pos]) && f.pos - start < buf.Length
    requires forall j | start <= j < f.pos :: f.data[j] != NEWLINE
    requires bigger.Length == 2 * buf.Length >= 256 && bigger[..buf.Length] == buf[..]
    ensures Reading(f, bigger, start, f.pos - start)
  {
    var n := f.pos - start;
    assert bigger[..][..n] == bigger[..buf.Length][..n] == buf[..][..n];
    assert bigger[n] == bigger[..buf.Length][n];
  }

  /**
    * ares__read_line: the next line, without its newline, in a buffer that is larger than the line and whose size is
    * 128 doubled some number of times; or the end of the file; or no buffer, if memory runs out.
    */
  method ReadLine(heap: Heap, f: File, given: array?<byte>, held: Block, ghost k: nat, ghost rest: multiset<Block>)
      returns (status: Status, buf: array?<byte>, block: Block, ghost size: nat)
    requires Buffered(heap, rest, given, held, k) && f.Valid() && NUL !in f.data
    modifies heap, f, if given == null then {} else {given}
    ensures Buffered(heap, rest, buf, block, size) && f.Valid() && old(f.pos) <= f.pos
    ensures status in {SUCCESS, EOF, ENOMEM} && (status == ENOMEM <==> buf == null)
    ensures heap.failures == old(heap.failures) + if status == ENOMEM then 1 else 0
    ensures buf == null || buf == given || fresh(buf)
    ensures status == EOF ==> f.pos == old(f.pos) == |f.data|
    ensures status == SUCCESS ==> HasLine(f, buf, old(f.pos))
  {
    hide Heap.Valid;
    hide Size;
    hide LineEnd;
    hide HasLine;
    hide Buffered;
    ghost var start := f.pos;
    buf, block, size := given, held, k;
    SameHeap(heap, rest, buf, block, size);
    if buf == null {
      buf, block := FirstBuffer(heap, rest);
      size := 0;
      SameHeap(heap, rest, buf, block, size);
      if buf == null {
        status := ENOMEM;
        return;
      }
    }
    SizeIsLarge(size);
    var offset: nat, more, ok := 0, true, false;
    while more && buf != null
      invariant Buffered(heap, rest, buf, block, size) && f.Valid() && start <= f.pos
      invariant heap.failures == old(heap.failures) + if buf == null then 1 else 0
      invariant buf == null || buf == given || fresh(buf)
      invariant buf == null ==> more
      invariant buf != null && more ==> Reading(f, buf, start, offset)
      invariant !more && ok ==> buf != null && HasLine(f, buf, start)
      invariant !more && !ok ==> f.pos == start == |f.data|
      decreases more && buf != null, |f.data| - f.pos
    {
      SameHeap(heap, rest, buf, block, size);
      more, ok, offset := Round(f, buf, offset, start);
      LineInFile(f, buf, start);
      if more && !(offset < buf.Length - 1) {
        SizeIsLarge(size);
        var bigger, block' := GrowBuffer(heap, buf, block, size, rest);
        if bigger != null {
          StillReading(f, buf, bigger, start);
        }
        buf, block, size := bigger, block', size + 1;
      }
    }
    SameHeap(heap, rest, buf, block, size);
    status := if buf == null then ENOMEM else if ok then SUCCESS else EOF;
  }

  lemma NoBuffer(heap: Heap, rest: multiset<Block>)
    requires heap.Valid() && heap.live == rest
    ensures Buffered(heap, rest, null, Null, 0)
  {
  }

  /** The line in the buffer as a C string. */
  method TakeText(f: File, buf: array<byte>, ghost start: nat) returns (text: seq<byte>)
    requires HasLine(f, buf, start)
    ensures start < |f.data| && start < f.pos <= |f.data|
    ensures text == f.data[start..LineEnd(f.data, start)] && f.pos == After(f.data, LineEnd(f.data, start))
  {
    StringUpTo(buf[..], 0, LineEnd(f.data, start) - start);
    text := buf[..Strlen(buf[..], 0)];
  }

  /**
   * Reading a file to its end, as the callers of ares__read_line do: exactly its lines, in order, or those before
   * memory ran out; the buffer goes back.
   */
  method ReadAll(heap: Heap, f: File) returns (status: Status, lines: seq<seq<byte>>)
    requires heap.Valid() && f.pos == 0 && NUL !in f.data
    modifies heap, f
    ensures heap.Valid() && heap.live == old(heap.live)
    ensures status == SUCCESS || status == ENOMEM
    ensures heap.failures == old(heap.failures) + if status == ENOMEM then 1 else 0
    ensures if status == SUCCESS then lines == LinesFrom(f.data, 0) else lines <= LinesFrom(f.data, 0)
  {
    hide Heap.Valid;
    hide Size;
    hide Buffered;
    hide LinesFrom;
    lines := [];
    ghost var rest, size := heap.live, 0;
    var buf: array?<byte>, block := null, Null;
    NoBuffer(heap, rest);
    status := SUCCESS;
    while status == SUCCESS
      invariant Buffered(heap, rest, buf, block, size) && f.Valid() && (buf != null ==> fresh(buf))
      invariant status in {SUCCESS, EOF, ENOMEM}
      invariant heap.failures == old(heap.failures) + if status == ENOMEM then 1 else 0
      invariant status != ENOMEM ==> lines + LinesFrom(f.data, f.pos) == LinesFrom(f.data, 0)
      invariant status == ENOMEM ==> lines <= LinesFrom(f.data, 0)
      invariant status == EOF ==> f.pos == |f.data|
      decreases status == SUCCESS, |f.data| - f.pos
    {
      ghost var start := f.pos;
      status, buf, block, size := ReadLine(heap, f, buf, block, size, rest);
      if status == SUCCESS {
        var text := TakeText(f, buf, start);
        LinesCons(f.data, start);
        AppendAssoc(lines, [text], LinesFrom(f.data, f.pos));
        lines := lines + [text];
      }
    }
    SameHeap(heap, rest, buf, block, size);
    TakeOne(rest, block);
    heap.Free(block);
    NoMoreLines(f.data);
    if status == EOF {
      status := SUCCESS;
      assert lines + [] == lines;
    }
  }
}
