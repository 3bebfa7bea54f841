# A verified model of the c-ares resolver core

This project models the DNS resolver library c-ares (under `src/cares`) in Dafny and proves what its hardest parts
promise. Nothing here runs the C code; every statement below is about the model, which follows the C code branch by
branch. The parts, and what is proved of them:

- **Names and queries** (`Names`, `Expand`, `NameText`, `Spelling`, `Query`, `RoundTrip`, `SameNames`). The compressed
  name format of section 4.1.4 of RFC 1035 is given as a graph of offsets. The counting pass of the decoder fails
  exactly when that graph has no finite path inside the message; the writing pass, which checks nothing, fills its
  buffer to the last octet. The query builder and the decoder undo each other.
- **Replies** (`Memory`, `Records`, `Wire`, `Reply`, `ReplyFacts`, `ParseReply`, `DeliveredTtls`, `DeliveredEntries`,
  `LateFailure`, `Targets`, `PtrReply`, `ParsePtr`). The A, AAAA and PTR parsers refine a fold over the decoded answer
  records, whose result is then described record by record. Every allocated block is in the result or released, once,
  on every exit and for every pattern of allocation failures.
- **Lists, cancellation and destruction** (`Lists`, `ListRuns`, `Cancelling`, `Destroying`, `Channel`). The circular
  lists at pointer level refine sequences, over any run of insertions and removals; cancelling with re-entrant
  callbacks and destruction are proved at pointer level against a specification on sequences, and the promises are
  proved of that specification and stated again of the pointers. They hold from the new channel on, whatever the
  application does with it.
- **Host lookups** (`Lookup`, `LookupSteps`, `HostLookup`, `Literals`, `SortAddresses`, `Patterns`, `Lines`,
  `HostsFile`). Lookups by name and by address as state machines over their replies, in every order of nested and later
  delivery; the sort of the result; and the hosts file, from the doubling line buffer to the entry found, with every
  block accounted for when memory runs out.
- **Configuration** (`ConfigText`, `Config`, `ServerList`, `Connections`). The precedence of the four configuration
  sources, the duplication of a channel, the server list syntax with its backward scan, from text to channel and back,
  and connection generations.

`Ares`, `Bytes`, `Words` and `Numbers` hold what the parts share: status codes, families, octets, C strings, words and
numbers in text.

## Conventions

- A message or text is a sequence of octets; a C string is one without NUL.
  A buffer that the code writes is an array, and every write is proved to be in bounds.
- Integers are unbounded except where their width matters: wire fields are reduced modulo their size, TTLs are compared
  as signed 32-bit values, ports are 16 bits and swapped between byte orders; `strtol` gives the nearest long of 64 bits,
  and a cast to int keeps 32. `ExpansionBound` shows that the decoder's
  counter stays below 127 times the message length.
- Allocation may fail at any point in the name codec, in the reply parsers, in the reader of the hosts file and in the
  entry points of host lookups. In the parsers and the reader the code asks an allocator, `Heap` in `Memory`, which keeps
  the set of live blocks and refuses requests according to a schedule that is any function of their number. Elsewhere
  allocation succeeds.
- The callback of a query is any two finite scripts of the two things it can do to the channel, start a query (with a
  callback of its own) or cancel all queries: one script for being called with ECANCELLED, one for EDESTRUCTION. A search
  or query calls back exactly once.
- `ares_inet_pton` and `inet_addr` are functions given as parameters. Files are octet sequences without read errors.

Where the code and its comments or documentation differ, the model follows the code:

- The comment at the top of the address parsers says that failures set the number of TTL entries to zero. A failure
  while the records are read does. A failure to allocate the host entry after that leaves the entries filled in: as many
  as there are addresses and room (`ParseAddressReply`, `FailsLate`, `FailsLateOnSample`).
- The target name of a CNAME or PTR record is not confined to the record (`TargetAfterRecord`). It does not depend on
  what follows the record exactly if its expansion visits nothing there (`NameInPrefix`, `TargetInRecord`).
- Names are compared as C strings, that is by their labels before the first NUL (`ComparesBeforeNul`); so a name is
  compared label by label, with names that bring no NUL of their own, exactly if it holds none (`ComparedByLabels`).
- `resolv.conf` is not read when the configuration check macro finds nothing missing, but the macro does not look at
  rotation (`SkippingLosesOnlyRotation`, `RotationNotHeeded`).
- With the primary-only flag a duplicate may have fewer servers than the original (`ServersKept`, `PrimaryLosesOne`).
- Destroying a channel leaves behind what the very last callback started (`DestroyLeaves`, `LastCallbackLeaks`).
- The documentation of `ares_destroy` forbids callbacks to add queries and says nothing of `ares_cancel`. A callback that
  cancels is called a second time, and destruction then comes upon its released record; destruction completes, and no
  query is called back twice, exactly if no callback made cancels (`CallbackDecides`, `DestroyCompletes`,
  `CancelInCallbackBreaks`).
- A dotted quad is taken as an address also in a lookup for IPv6 addresses, and gives an IPv4 entry (`Literal`).
- The number of a resolver option may be taken from the next word (`SpaceBeforeNumber`): a word is read as if nothing
  came after it, exactly if it is not the bare name of an option or the next number is 0 (`WordIsOwn`, `WordsAreOwn`). A
  search list that begins with a space has an empty first domain (`PiecesAreFields`).
- Setting servers from a text that is not a list of servers leaves the channel without any (`SetServersCsv`), and a port
  of more than sixteen bits is cut (`PrintedListKept`).

## Model

| member | source | states |
|---|---|---|
| `Names.ExpansionUnique` | src/cares/ares_expand_name.c:140-189 | An offset has at most one path of labels and pointers to a zero octet inside the message |
| `Names.NeverRevisits` | src/cares/ares_expand_name.c:149-166 | A name that expands never visits an offset twice, so a repeated offset is a loop |
| `Names.ExpansionIsShort` | src/cares/ares_expand_name.c:161-166 | A path that expands has at most as many elements as the message has octets (pigeonhole) |
| `Names.ExpansionBound` | src/cares/ares_expand_name.c:140-194 | The text of any name that expands, with its terminator, is at most 127 times the message length |
| `Names.LabelsThenRest` | src/cares/ares_expand_name.c:98-124 | Labels written somewhere are the front of the name there, whether a zero octet or a pointer follows, and the in-place length adds up |
| `Names.InPlace` | src/cares/ares_expand_name.c:86-126 | The length of the name's own encoding never passes the end of the message |
| `Wire.LabelsThenPointer` | src/cares/ares_expand_name.c:149-166 | Labels and the two octets of a pointer to an offset are the front of the name there, and take the room of the labels and two octets |
| `Wire.NameGrammar` | src/cares/ares_expand_name.c:140-194 | A name is a zero octet, a pointer to a name, or a label of up to 63 octets and a name, as written by section 4.1.4 of RFC 1035, and nothing else is |
| `Wire.CompressedReadsBack` | src/cares/ares_expand_name.c:81-194 | A name compressed against an earlier one is read back whole |
| `Expand.TooManyPointers` | src/cares/ares_expand_name.c:161-166 | A walk longer than the message has no expansion: the code's test on the number of pointers rejects only loops |
| `Expand.NameLength` | src/cares/ares_expand_name.c:140-194 | The counting pass succeeds if and only if the name expands, and its result is the length of the escaped text |
| `Expand.WriteText` | src/cares/ares_expand_name.c:81-134 | The writing pass fills a buffer of the counted size exactly with the escaped, dotted labels and a terminator in its last octet, and reports the in-place length |
| `Expand.ExpandName` | src/cares/ares_expand_name.c:62-135 | Bad name if and only if there is no expansion, out of memory if and only if the allocation fails, otherwise the text and the in-place length |
| `NameText.ParseOfText` | src/cares/ares_create_query.c:128-168 | The encoder's reading of text undoes the decoder's writing of any non-empty labels, with or without a final dot |
| `Spelling.ParseIs` | src/cares/ares_create_query.c:128-168 | What the encoder takes any spelling for, with any octets quoted: the labels spelled, none if one is empty, the root for a lone dot; a backslash at the very end stands for itself |
| `Spelling.EveryText` | src/cares/ares_create_query.c:128-168 | Every text is such a spelling |
| `Spelling.TextIs` | src/cares/ares_expand_name.c:97-134 | The text of a name by equations: dots between the labels, a backslash before a dot or a backslash, everything else as it is |
| `NameText.TextHasNoNul` | src/cares/ares_expand_name.c:111-123 | The text of labels without NUL is a C string |
| `Query.EncodeLabel` | src/cares/ares_create_query.c:134-168 | One label is written as its length and its unescaped octets, or refused if and only if it is empty or longer than 63 |
| `Query.WriteLabels` | src/cares/ares_create_query.c:128-170 | The label loop writes the length-prefixed labels of the name, or stops if and only if one cannot be written; it never passes the room computed from the text |
| `Query.PutHeader` | src/cares/ares_create_query.c:111-126 | The header macros produce the header octets: identifier, recursion flag, one question, and one additional record if EDNS is used |
| `Query.CreateQuery` | src/cares/ares_create_query.c:87-202 | Success if and only if memory is there and the name is acceptable, bad name if and only if it is not, and the bytes are the header, question and OPT record for its labels |
| `RoundTrip.HeaderReadsBack` | src/cares/ares_create_query.c:111-126 | Reading the header fields of a query (section 4.1.1 of RFC 1035) gives the identifier, flag and counts it was built with |
| `RoundTrip.QueryReadsBack` | src/cares/ares_create_query.c:128-188 | At offset 12 the name expands to the labels encoded, and type, class and OPT record follow it |
| `RoundTrip.OptReadsBack` | src/cares/ares_create_query.c:176-188 | The OPT record has the root owner, type 41 and the advertised size as its class (section 6.1.2 of RFC 6891) |
| `RoundTrip.EncodeThenDecode` | src/cares/ares_create_query.c:128-201 | A query for an accepted name expands to the canonical text, which is accepted and encodes to the same bytes |
| `RoundTrip.DecodeThenEncode` | src/cares/ares_expand_name.c:62-135 | The text of any name in any message parses to that name's labels, and the encoder accepts it if and only if they fit in 255 octets |
| `RoundTrip.TextDeterminesLabels` | src/cares/ares_expand_name.c:97-134 | Two names have the same text if and only if they have the same labels, however they are compressed |
| `SameNames.ComparesBeforeNul` | src/cares/ares_parse_a_reply.c:146-148 | For any two names, strcasecmp on their texts succeeds if and only if their labels up to the first NUL are the same, letter case aside |
| `SameNames.SameLetter` | src/cares/ares_parse_a_reply.c:146-148 | Letter case aside: the same octet, or a capital letter and its small one |
| `SameNames.SameNameIsSameLabels` | src/cares/ares_parse_a_reply.c:146-148 | For labels without NUL that is if and only if the names have the same labels, letter case aside |
| `SameNames.LongerNameComparesEqual` | src/cares/ares_parse_a_reply.c:146-148 | Any name that holds a NUL compares equal to the longer names that begin with it |
| `SameNames.ComparedByLabels` | src/cares/ares_parse_a_reply.c:146-148 | A name is compared label by label, with all names that bring no NUL of their own, if and only if it holds no NUL |
| `SameNames.DifferentNamesCompareEqual` | src/cares/ares_parse_a_reply.c:146-148 | Two names that differ after a NUL and compare equal |
| `Records.ExpandForResponse` | src/cares/ares_expand_name.c:197-205 | A bad name becomes a bad response, if and only if there is no expansion, and a name is returned in exactly one new block |
| `Records.DecodeRecord` | src/cares/ares_parse_a_reply.c:124-144 | The head of the record loop decodes the record at the cursor, or finds it outside the message and releases its name |
| `Records.OpenReply` | src/cares/ares_parse_a_reply.c:71-91 | The checks that every reply parser starts with: header present, one question, its name and fixed part inside the message |
| `Wire.Field32` | src/cares/ares_dns.h:31-35 | A 32-bit field written in network order is read back |
| `Wire.RecordReadsBack` | src/cares/ares_parse_a_reply.c:124-144 | A written record is read back field by field: owner, type, class, TTL as a signed value, place and length of the data |
| `Wire.RecordCutShort` | src/cares/ares_parse_a_reply.c:124-144 | A record that the message does not hold to its end is refused |
| `Wire.RecordsReadBack` | src/cares/ares_parse_a_reply.c:121-206 | Records written one after the other are read one after the other |
| `Wire.ReplyOpens` | src/cares/ares_parse_a_reply.c:71-91 | A written reply opens with its question's name, at its first answer and with its answer count, if and only if it has one question, complete |
| `Wire.NoReply` | src/cares/ares_parse_a_reply.c:71-86 | What holds no header, or no name after it, does not open |
| `Memory.Heap.Free` | src/cares/ares_parse_a_reply.c:252-263 | Only a live block can be released, and it is then live no more |
| `Memory.GrantedIfNoMore` | src/cares/ares_parse_a_reply.c:93-118 | Requests for memory are all granted if and only if the count of refusals does not rise over them |
| `Reply.GatherIsFold` | src/cares/ares_parse_a_reply.c:121-206 | The one-pass cursor loop gives the same as decoding all records first and folding over them |
| `ReplyFacts.FoldGathers` | src/cares/ares_parse_a_reply.c:146-199 | The fold fails if and only if a CNAME target is unreadable; otherwise name, aliases, addresses and least alias TTL are those of the records |
| `ReplyFacts.PicksAre` | src/cares/ares_parse_a_reply.c:146-172 | The addresses are exactly the records of the right class, type and size whose owner matches the name in force when reached, once each and in order |
| `ReplyFacts.AliasesAre` | src/cares/ares_parse_a_reply.c:174-199 | The aliases are exactly the IN CNAME records, in order |
| `ReplyFacts.LastAliasRules` | src/cares/ares_parse_a_reply.c:174-199 | The name in force is the target of the last CNAME before |
| `ReplyFacts.NoAliasKeepsQuestion` | src/cares/ares_parse_a_reply.c:174-199 | Without a CNAME the name in force is that of the question |
| `ReplyFacts.AliasTtlIsLeast` | src/cares/ares_parse_a_reply.c:192-196 | The TTL kept for aliases is the least TTL of all IN CNAME records of the answer section, as signed values |
| `DeliveredTtls.EntryIsLeast` | src/cares/ares_parse_a_reply.c:146-225 | Entry `k` of the TTL array that the parser delivers has the address of the `k`-th matching record, and the least TTL of that record and of all aliases, before and after it |
| `DeliveredEntries.AddressEntry` | src/cares/ares_parse_a_reply.c:146-251 | The entry of an address reply, record by record: its name, its aliases and its addresses |
| `ReplyFacts.MeaningIs` | src/cares/ares_parse_a_reply.c:67-264 | What a reply means, in terms of its records: bad response if and only if it is not well formed, no data, or the answer gathered |
| `ParseReply.ReadAnswers` | src/cares/ares_parse_a_reply.c:121-206 | The record loop: the number of addresses and aliases together never exceeds the answer count, each decoded name is kept or released, what is gathered is the specification's, and one request for memory is made for each record and each alias |
| `ParseReply.GatherReply` | src/cares/ares_parse_a_reply.c:64-206 | Everything before the entry is built: the loop's variables hold the answer, or all blocks are given back and the reply is bad or memory ran out among those requests |
| `ParseReply.ClampTtls` | src/cares/ares_parse_a_reply.c:215-225 | The second loop lowers exactly the filled TTL entries to the alias TTL |
| `ParseReply.ParseAddressReply` | src/cares/ares_parse_a_reply.c:49-264 | For every message and every schedule of refused requests: host entry and TTLs are what the reply means, all blocks are in the entry or released, success if and only if the reply answers and every request is granted, and the TTL count is filled in if and only if the requests before the entry are granted, also when the entry then fails |
| `LateFailure.FailsLate` | src/cares/ares_parse_a_reply.c:215-251 | For every reply with an address, refusing only the request for the entry gives out of memory with the TTLs delivered |
| `LateFailure.FailsLateOnSample` | src/cares/ares_parse_a_reply.c:215-251 | A reply and a schedule for which out of memory comes with one TTL |
| `Targets.NameInPrefix` | src/cares/ares_expand_name.c:140-194 | The name at an offset is the same in a message cut short if and only if it has none or its expansion visits nothing behind the cut |
| `Targets.TargetInRecord` | src/cares/ares_parse_a_reply.c:176-191 | So the target of a record does not depend on what follows the record if and only if its expansion visits nothing there |
| `Targets.TargetAfterRecord` | src/cares/ares_parse_a_reply.c:176-191 | A reply that answers with an alias whose record has no data |
| `PtrReply.GatherIsFold` | src/cares/ares_parse_ptr_reply.c:89-170 | The loop of the PTR parser is a fold over the decoded records |
| `PtrReply.FoldFollows` | src/cares/ares_parse_ptr_reply.c:113-161 | The fold fails if and only if a followed record is unreadable; otherwise its targets are the matching PTR records' names |
| `PtrReply.PicksAre` | src/cares/ares_parse_ptr_reply.c:113-148 | The targets are exactly the IN PTR records whose owner matches the name in force, in order |
| `PtrReply.MeaningIs` | src/cares/ares_parse_ptr_reply.c:43-219 | What a PTR reply means, in terms of its records |
| `ParsePtr.Grow` | src/cares/ares_parse_ptr_reply.c:135-146 | Doubling the alias array keeps every alias in place |
| `ParsePtr.AddAlias` | src/cares/ares_parse_ptr_reply.c:126-147 | Storing an alias always finds a free slot and leaves one |
| `ParsePtr.ReadAnswers` | src/cares/ares_parse_ptr_reply.c:89-170 | The record loop gathers what the specification says, and owns exactly its names and the array |
| `ParsePtr.ParsePtrReply` | src/cares/ares_parse_ptr_reply.c:43-219 | For every message and every pattern of allocation failures: aliases are all matching targets in order, the host name is the last of them, and all blocks are in the entry or released |
| `DeliveredEntries.NameEntry` | src/cares/ares_parse_ptr_reply.c:113-205 | The entry of a PTR reply, record by record |
| `Lists.Splice` | src/cares/ares_llist.c:46-53 | Insertion before a node of a circle makes the circle with that node inserted |
| `Lists.Unsplice` | src/cares/ares_llist.c:55-62 | Removal makes the circle without the node, which then points nowhere |
| `Lists.SwapHead` | src/cares/ares_cancel.c:34-46 | After the head swap the copy heads the old circle and the head is alone |
| `Lists.World.InitHead` | src/cares/ares_llist.c:27-32 | A head becomes an empty list, and the others are untouched |
| `Lists.World.IsEmpty` | src/cares/ares_llist.c:41-43 | The emptiness test holds if and only if the list is the empty sequence |
| `Lists.World.Insert` | src/cares/ares_llist.c:46-53 | With any number of disjoint lists, insertion changes one list, at one place |
| `Lists.World.Remove` | src/cares/ares_llist.c:55-62 | Removal takes the node out of the list it is in, if any, and changes no other |
| `Lists.World.Swap` | src/cares/ares_cancel.c:34-46 | The head swap moves all members to the copy |
| `ListRuns.Run` | src/cares/ares_llist.c:27-62 | Any sequence of insertions and removals leaves circles that are the sequences resulting from the same changes |
| `ListRuns.TakeTwice` | src/cares/ares_llist.c:55-62 | Removal is idempotent |
| `ListRuns.PutThenTake` | src/cares/ares_llist.c:46-62 | Removing a node undoes its insertion, wherever it was made |
| `Cancelling.DrainCalls` | src/cares/ares_cancel.c:47-53 | Draining calls back the drained queries each once and in order, whatever the callbacks do |
| `Cancelling.CancelConserves` | src/cares/ares_cancel.c:26-54 | No query is lost or called back twice: started queries are the ones called back and the ones on the channel |
| `Cancelling.NewIsProper` | src/cares/ares_init.c:180-191 | On a new channel every query number used is that of one query, called back or outstanding |
| `Cancelling.RunStaysProper` | src/cares/ares_cancel.c:26-54 | Whatever the application or a callback does keeps that so |
| `Cancelling.CancelCallsThosePresent` | src/cares/ares_cancel.c:34-54 | Exactly the queries present on entry are cancelled, once each and in list order; those left were all started since; also with nested cancellation |
| `Cancelling.StartedQueriesStay` | src/cares/ares_cancel.c:34-54 | If callbacks only start queries, all of those stay, uncancelled and in order |
| `Destroying.CallbackDecides` | src/cares/ares_destroy.c:50-58 | When a callback returns, its query is still outstanding if and only if the callback did not cancel; if it did, the query has been called back exactly twice, and no other has |
| `Destroying.DestroyCompletes` | src/cares/ares_destroy.c:50-62 | Destruction completes if and only if no callback it makes cancels, and if and only if no query is called back twice; every query is then accounted for once |
| `Destroying.DestroyCallsThosePresent` | src/cares/ares_destroy.c:50-62 | When it completes, the calls begin with the queries outstanding at the start, in list order |
| `Destroying.DestroyLeaves` | src/cares/ares_destroy.c:50-71 | When it completes, the queries left are exactly those that the last callback started |
| `Destroying.PlainCompletes` | src/cares/ares_destroy.c:50-62 | It completes if no callback on the channel cancels when called by it, nor one that such a callback starts |
| `Destroying.QuietDestroy` | src/cares/ares_destroy.c:50-71 | If callbacks start nothing it completes if and only if they do nothing at all; each query is then called back once, in order, and nothing is left |
| `Destroying.LastCallbackLeaks` | src/cares/ares_destroy.c:50-71 | A channel on which destruction leaves a query listed |
| `Destroying.CancelInCallbackBreaks` | src/cares/ares_destroy.c:50-62 | A channel with one query that is called back twice |
| `Channel.Channel.constructor` | src/cares/ares_init.c:180-191 | A new channel has empty lists, and is sound |
| `Channel.Channel.Send` | src/cares/ares_send.c:114-127 | A new query goes to the end of the list of all queries and into its hash bucket, and a sound channel stays so |
| `Channel.Channel.Run` | src/cares/ares_cancel.c:47-53 | Any actions of a callback or of the application, at pointer level, follow the specification and keep a sound channel sound |
| `Channel.Channel.FreeQuery` | src/cares/ares_process.c:1345-1359 | A released query is off every list, and no other query moves |
| `Channel.Channel.Cancel` | src/cares/ares_cancel.c:26-54 | At pointer level, with callbacks that start queries and cancel again, the channel ends as the specification says; on a sound channel exactly the queries present are called back, once and in order, those left were started since, and it stays sound |
| `Channel.Channel.DestroyFirst` | src/cares/ares_destroy.c:50-58 | One turn of the loop releases the query called back, unless its callback cancelled and its record is gone |
| `Channel.Channel.AllEmpty` | src/cares/ares_destroy.c:63-71 | The assertions on the lists hold if and only if no query is left |
| `Channel.Channel.Destroy` | src/cares/ares_destroy.c:41-71 | At pointer level and for all callbacks destruction follows the specification: it completes if and only if no callback made cancels, if and only if no query is called back twice; the assertions hold if and only if it completes and nothing is left |
| `Lookup.NextBounds` | src/cares/ares_gethostbyname.c:126-153 | A search is started only for a `b`, with the first family, and the rest of the lookup string gets shorter |
| `Lookup.CalledOnce` | src/cares/ares_gethostbyname.c:81-232 | After any replies the callback has been made once if the record is released, and not at all if it is not |
| `Lookup.TimeoutsAddUp` | src/cares/ares_gethostbyname.c:179-232 | The timeouts reported are the sum over all searches of the run |
| `Lookup.BudgetShrinks` | src/cares/ares_gethostbyname.c:126-222 | Each search uses up sources left or the pending fallback |
| `Lookup.SearchesBounded` | src/cares/ares_gethostbyname.c:126-222 | At most one search for each `b`, two if either family will do, so that every run ends; one query for each `b` in a lookup by address |
| `Lookup.SourcesInOrder` | src/cares/ares_gethostbyname.c:126-170 | Sources are consulted in the order of the lookup string, each the way its letter says, none skipped and none after the last one read; a fallback directly follows its AAAA search |
| `Lookup.RunReports` | src/cares/ares_gethostbyname.c:126-232 | The status is that of the source that ended the run; when sources ran out, that of the last search, or connection refused if none was made (not found in a lookup by address) |
| `LookupSteps.StartDecides` | src/cares/ares_gethostbyname.c:126-170 | The start of a lookup: DNS with the family asked for first, the entry of the hosts file, or connection refused |
| `LookupSteps.ReplyDecides` | src/cares/ares_gethostbyname.c:172-222 | What any reply does to any lookup that waits for one, with the statuses written out |
| `LookupSteps.FallbackDecides` | src/cares/ares_gethostbyname.c:188-217 | A search for A records follows one for AAAA records if and only if either family will do and the answer was no data, bad, a timeout or without addresses |
| `HostLookup.FeedIsRun` | src/cares/ares_gethostbyname.c:172-222 | Delivering replies in instalments, nested or later, is the run over all of them |
| `HostLookup.HostLookup.constructor` | src/cares/ares_gethostbyname.c:99-124 | A lookup started with some replies already there stands where the run over them stands |
| `HostLookup.HostLookup.NextLookup` | src/cares/ares_gethostbyname.c:126-170 | The scan of the lookup string follows the state machine, also when the search it starts calls back at once and releases the record |
| `HostLookup.HostLookup.Callback` | src/cares/ares_gethostbyname.c:172-222 | A reply takes the state machine one step and delivers those that follow; the record is not touched once released |
| `HostLookup.HostLookup.Deliver` | src/cares/ares_gethostbyaddr.c:136-164 | After any history, a further reply leaves the lookup where the whole run stands, with one call if and only if the record is gone |
| `HostLookup.HostLookup.EndQuery` | src/cares/ares_gethostbyname.c:224-232 | The end makes the one call with the accumulated timeouts and releases the record |
| `HostLookup.ScanNumeric` | src/cares/ares_gethostbyname.c:250-266 | The scan finds names of digits and dots with three dots |
| `HostLookup.FakeHostent` | src/cares/ares_gethostbyname.c:237-287 | A literal address is recognised if and only if one family is asked for and the name is a dotted quad or, for IPv6, an IPv6 address |
| `Literals.NumericIsQuad` | src/cares/ares_gethostbyname.c:250-266 | Those are exactly the names of four runs of digits with dots between them |
| `Literals.LiteralIs` | src/cares/ares_gethostbyname.c:237-287 | Which entry a literal address gives, with the families written out |
| `HostLookup.GetHostByName` | src/cares/ares_gethostbyname.c:81-124 | Unknown family, literal address, failed allocation or lookup: the callback is made once on every way, unless a search is out |
| `HostLookup.GetHostByAddr` | src/cares/ares_gethostbyaddr.c:64-100 | Family and length are checked, and the callback is made once on every way, unless a query is out |
| `SortAddresses.AddressIndex` | src/cares/ares_gethostbyname.c:448-472 | The index is that of the first matching pattern of the family, or the length of the list |
| `Patterns.MaskMatches` | src/cares/ares_gethostbyname.c:458-463 | A pattern with a mask matches exactly the addresses whose bits under the mask are the pattern's |
| `Patterns.PrefixMatches` | src/cares/ares_gethostbyname.c:464-469 | A pattern with a number of bits matches exactly the addresses that begin with those bits of it |
| `Patterns.OtherFamily` | src/cares/ares_gethostbyname.c:456-457 | A pattern of another family matches no address |
| `Patterns.MaskOrPrefix` | src/cares/ares_gethostbyname.c:456-470 | A mask of leading ones and the number of them match the same addresses |
| `SortAddresses.InsertAt` | src/cares/ares_gethostbyname.c:430-443 | One round sorts one more address into place and keeps the order of addresses with equal index |
| `SortAddresses.Sort` | src/cares/ares_gethostbyname.c:418-443 | The result is sorted by first matching pattern, unmatched last; for each index the addresses with it are the same in the same order; it is a permutation |
| `SortAddresses.SameCollection` | src/cares/ares_gethostbyname.c:418-443 | Keeping the subsequence of every index keeps the collection |
| `SortAddresses.OneResult` | src/cares/ares_gethostbyname.c:474-499 | There is only one stable sort of a list |
| `Lines.Round` | src/cares/ares__read_line.c:45-60 | One round of the loop completes the line, finds the end of the file, or has read more of the line |
| `Lines.ReadLine` | src/cares/ares__read_line.c:31-73 | The next line, without its newline, in a buffer larger than the line whose size is 128 doubled some number of times; or the end of the file; or, if and only if a request is refused, out of memory with the buffer given back |
| `Lines.ReadAll` | src/cares/ares__read_line.c:31-73 | Repeated calls give exactly the newline split of the file, or the lines before memory ran out, and keep no block |
| `Lines.SplitThenJoin` | src/cares/ares__read_line.c:31-73 | The lines hold no newline, and joined they are the file again, up to a last newline |
| `HostsFile.Trim` | src/cares/ares__get_hostent.c:58-68 | Cutting comment and trailing spaces keeps the fields before the comment |
| `HostsFile.CountFields` | src/cares/ares__get_hostent.c:119-133 | The counting pass counts the alias fields |
| `HostsFile.CopyAliases` | src/cares/ares__get_hostent.c:193-217 | The copying pass stores exactly the fields counted, in order, or stops when memory runs out; the list is terminated either way |
| `HostsFile.Store` | src/cares/ares__get_hostent.c:164-221 | The entry is built out of new blocks, all its own, or a request was refused and every block is given back |
| `HostsFile.Release` | src/cares/ares__get_hostent.c:236-258 | Releasing a whole entry, or one that memory ran out for, gives back each block that is there once |
| `HostsFile.TakeFields` | src/cares/ares__get_hostent.c:88-221 | The rest of the loop body: address, name and aliases of a line with two fields, if its address is of the family |
| `HostsFile.TakeLine` | src/cares/ares__get_hostent.c:58-229 | The entry of a line: first field the address, second the name, all others the aliases; nothing if there are fewer than two or the address is not of the family |
| `HostsFile.LineReadsBack` | src/cares/ares__get_hostent.c:58-229 | A line written with any spaces and comment gives the entry of its words |
| `HostsFile.EntriesAdd` | src/cares/ares__get_hostent.c:54-229 | The entries of a file are those of its lines, in order |
| `Words.LaidWords` | src/cares/ares__get_hostent.c:70-133 | The words of a text laid out with any spaces are those words |
| `HostsFile.GetHostent` | src/cares/ares__get_hostent.c:34-261 | The next entry of the file for the family, the end of the file if there is none, bad family, or out of memory if and only if a request is refused; the blocks taken are those of the entry |
| `HostsFile.FileLookup` | src/cares/ares_gethostbyname.c:335-416 | The first entry of the file whose name or alias equals the name asked for, letter case aside; for a known family and without refusals not found if and only if there is none; not found or a file error if the file does not open; the blocks taken are those of the entry returned |
| `HostsFile.KnowsItsNames` | src/cares/ares_gethostbyname.c:397-408 | An entry is found by its name and by each alias, and by nothing else |
| `Config.FirstInIs` | src/cares/ares_init.c:1844-1872 | For each setting, the first word that gives a value other than -1 counts |
| `ConfigText.SplitSearch` | src/cares/ares_init.c:1783-1842 | The copying pass stores as many domains as the counting pass counted |
| `ConfigText.PiecesAreFields` | src/cares/ares_init.c:1783-1842 | The domains are the words of the text, after an empty one if it begins with a space |
| `ConfigText.NumberIsOwn` | src/cares/ares_init.c:1844-1872 | The number read for an option is that of its own word if and only if a character follows the name in it or the number found is 0 |
| `ConfigText.WordIsOwn` | src/cares/ares_init.c:1844-1872 | A word is read as if nothing came after it if and only if it is not a bare name of an option or the number after it is 0 |
| `ConfigText.WordsAreOwn` | src/cares/ares_init.c:1844-1872 | All words of a text are if and only if no bare name stands before a number other than 0 |
| `ConfigText.SpaceBeforeNumber` | src/cares/ares_init.c:1844-1872 | A text in which the number of an option is the next word |
| `ConfigText.OptionsReadBack` | src/cares/ares_init.c:1844-1872 | Each option printed with its number is read as itself |
| `Numbers.StrtolReadsBack` | src/cares/ares_init.c:1854-1862 | Spaces, a sign and digits are read as the number, as far as a long holds it |
| `Config.Channel.InitByOptions` | src/cares/ares_init.c:427-535 | Exactly the settings named in the mask are taken from the options |
| `Config.Channel.SetOptions` | src/cares/ares_init.c:1844-1872 | The words of the text fill in what is not set, and the first one counts |
| `Config.Channel.InitByEnvironment` | src/cares/ares_init.c:537-560 | The environment fills in what the options left |
| `Config.Channel.TakeLines` | src/cares/ares_init.c:1260-1289 | Of resolv.conf the last search line and the first lookup line count, and name servers and patterns are collected from all lines |
| `Config.Channel.InitByResolvConf` | src/cares/ares_init.c:1249-1426 | The files fill in what is missing, and are not read if nothing they are checked for is |
| `Config.Channel.InitByDefaults` | src/cares/ares_init.c:1428-1570 | Every setting that has a default gets it if still not set |
| `Config.Init` | src/cares/ares_init.c:109-258 | Each setting comes from the first source that has it, in the order options, environment, files, default, with every unit and default written out (`Settled`, `Listed`); the server list is then cut to one if the flags ask for it |
| `Config.IsSettled` | src/cares/ares_init.c:427-535 | Setting by setting: the value that wins and its default |
| `Config.IsListed` | src/cares/ares_init.c:1249-1570 | Servers, domains, sortlist and lookups: the list that wins and its default |
| `Config.SecondsAreMillis` | src/cares/ares_init.c:436-439 | A timeout in seconds and a thousand times as many milliseconds give the same channel |
| `Config.LinesAdd` | src/cares/ares_init.c:1260-1289 | Over the lines of resolv.conf, name servers, patterns and option words add up; the last search line and the first lookup line count |
| `Config.OneLineIs` | src/cares/ares_init.c:1260-1289 | What one line contributes |
| `Config.SkippingLosesOnlyRotation` | src/cares/ares_init.c:98-102 | Not reading the files changes no setting but rotation, and changes that if and only if only the files ask for it |
| `Config.RotationNotHeeded` | src/cares/ares_init.c:98-102 | Options that leave only rotation open, and a resolv.conf that asks for it in vain |
| `Config.SaveServers` | src/cares/ares_init.c:366-390 | The second pass over the servers stores as many as the first counted: the IPv4 ones with default ports, in order |
| `Config.PlainAre` | src/cares/ares_init.c:366-390 | Those are taken server by server |
| `Config.SaveOptions` | src/cares/ares_init.c:331-425 | All settings that the options structure has, or no data if and only if the configuration is incomplete |
| `Config.Channel.SetServersPorts` | src/cares/ares_options.c:192-239 | The channel gets the servers of the list, or none if it is empty |
| `Config.PortsExchanged` | src/cares/ares_options.c:224-232 | A server keeps the low sixteen bits of its ports, in network order |
| `Config.Channel.SetServersCsv` | src/cares/ares_options.c:243-402 | Success if and only if every entry of the text denotes a server, and the channel then has those; otherwise it has none |
| `Config.GetServersPorts` | src/cares/ares_options.c:86-141 | The list that setting turns back into the same servers |
| `Config.PrintedListKept` | src/cares/ares_options.c:243-389 | From text to channel and back: a printed list gives its addresses in order, and its ports if and only if they have sixteen bits |
| `Config.Dup` | src/cares/ares_init.c:262-328 | Whatever environment and files say, the duplicate has all settings of the original but EDNS and socket buffer sizes, its domains, lookups, sortlist and callbacks, and the servers that `ServersKept` describes |
| `Config.ServersKept` | src/cares/ares_init.c:300-325 | The whole ordered server list, unless the primary flag is set and it holds several servers that are all IPv4 with default ports |
| `Config.PrimaryLosesOne` | src/cares/ares_init.c:250-252 | Two plain servers of which the duplicate keeps one |
| `ServerList.FindPort` | src/cares/ares_options.c:298-318 | The backward scan finds a port if and only if the entry has one: after its only colon, or after a bracket and a colon |
| `ServerList.PortAtOnePlace` | src/cares/ares_options.c:298-318 | There is at most one place where a port can begin |
| `ServerList.BareIPv6HasNoPort` | src/cares/ares_options.c:298-318 | No part of an entry with several colons and no closing bracket is taken as a port |
| `ServerList.TakeEntry` | src/cares/ares_options.c:289-370 | An entry, cut into strings in place, is read as the server it denotes |
| `ServerList.ReadServers` | src/cares/ares_options.c:243-389 | Success if and only if every entry denotes a server, and then those servers in order |
| `ServerList.ListIs` | src/cares/ares_options.c:243-389 | For any entries between commas: the servers of all, or none if one denotes none; a comma at the end makes no difference |
| `ServerList.EntryIs` | src/cares/ares_options.c:328-355 | IPv4 is tried before IPv6, on the text of the host |
| `ServerList.PortShapes` | src/cares/ares_options.c:298-318 | The two shapes of a port, written out |
| `ServerList.PortsIgnored` | src/cares/ares_options.c:357-358 | Without ports asked for, the same servers with the channel's ports |
| `ServerList.EntryReadsBack` | src/cares/ares_options.c:289-370 | An entry printed as address, IPv4 with port or bracketed IPv6 with port is read as that server, with the port as an int keeps it: the one printed if and only if it is below 2 to the 31st |
| `ServerList.ListReadsBack` | src/cares/ares_options.c:243-389 | A printed list of servers is read back as the same addresses, families and ports in order, for any ports an int holds |
| `ServerList.BracketsNeedPort` | src/cares/ares_options.c:298-326 | Around an address without a port the closing bracket becomes part of the host |
| `Connections.Channel.CloseSockets` | src/cares/ares__close_sockets.c:22-61 | Closing releases every waiting request once and in order, and gives the server a new generation if its TCP socket was open |
| `Connections.Channel.CloseAllSockets` | src/cares/ares_destroy.c:91-108 | The loop over all servers closes each |
| `Connections.CloseCloses` | src/cares/ares__close_sockets.c:22-61 | A closed server has no socket and no request left, its requests are released in order, and the other servers are as they were |
| `Connections.CloseFromCloses` | src/cares/ares_destroy.c:91-108 | So it is with all servers |
| `Connections.Channel.InitServersState` | src/cares/ares_init.c:2125-2146 | New servers get consecutive new generations |
| `Connections.StartedAre` | src/cares/ares_init.c:2125-2146 | New servers are as many as asked for, closed, with the generations that follow the counter |
| `Connections.ActionsAre` | src/cares/ares_process.c:788-805 | Opening a connection and queueing a request change one server, and the request goes to the end |
| `Connections.Channel.SetServers` | src/cares/ares_options.c:192-239 | Setting servers closes the old ones and starts the new ones |
| `Connections.RunKeeps` | src/cares/ares__close_sockets.c:22-61 | Over any run of setting servers, opening, queueing and closing, generations stay distinct and at most the counter, and a new one exceeds all earlier ones |
| `Connections.EveryChannelIsSound` | src/cares/ares_init.c:2125-2146 | So they are on every channel ever reached |
| `Connections.StepDecides` | src/cares/ares__close_sockets.c:46-54 | An action keeps a server's generation if and only if it does not renew its connection |
| `Connections.RememberedGeneration` | src/cares/ares_process.c:725-740 | A generation remembered by a query is found again if and only if it is at the same server and no action since has renewed its connection |

## Left out

- ParseReply.ParseAddressReply: the caller's arrays are fixed-length sequences with checked updates, so that writing into them in place and their aliasing are not captured.
- ParsePtr.ParsePtrReply: the alias array is a sequence with checked updates beside its block, for the same reason.
- Channel.Channel.Destroy: what happens once a released record is touched; the servers and the memory of the channel are not part of it.
- Channel.Channel.Cancel: the closing of the sockets when no query is left (src/cares/ares_cancel.c:55-62); closing itself is `Connections.Channel.CloseAllSockets`.
- Channel.Channel.Send: the choice of a server, timeouts and the sending itself; the nodes for the timeout and server lists are only initialised.
- HostLookup.GetHostByName: who releases host entries, and the memory of record and name.
- Config.Init: the recognition of keywords in resolv.conf and the reading of name server, sortlist and lookup lines, which are taken as lists; allocation failure, the random key and library initialisation.
- Config.Dup: allocation failure.
- SortAddresses.AddressIndex: the bit comparison `ares__bitncmp` is taken by its meaning, equality of the leading bits.
- ServerList.ReadServers: allocation failure.
- Config.Channel.SetServersCsv: the closing of the old servers' sockets; that is `Connections.Channel.SetServers`.
- HostsFile.GetHostent: read errors.
- Connections.Channel.CloseSockets: socket calls and state callbacks; a counter that wraps around.
- Sending, receiving, retrying and timing out of queries, and search domains (`ares_process.c`, `ares_search.c`): network and clock.
- The MX, NS, NAPTR, SOA, SRV and TXT parsers: the same record walk with less state.
- Windows, Android and libresolv configuration, command-line tools, generated protocol code and stack traces elsewhere in the repository.
