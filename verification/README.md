# Verified models of the hard parts of wrk2

wrk2 is a constant-throughput HTTP load generator. Its correctness rests on a few
self-contained algorithms, most of them in the libraries that it bundles. This project
models those algorithms in Dafny and proves what they are for. Dates, sockets and scripts
are not modelled; a clock reading, a buffer that was read or a comparison function is a
parameter.

- **The allocator of LuaJIT** (`Trie.dfy`, `Chunks.dfy`, `HeapIndex.dfy`, `Heap.dfy`): a
  dlmalloc with boundary tags, small bins, a designated victim, a top chunk and bitwise
  tries. The heap stays tiled, fully coalesced and exactly indexed over every run of malloc
  and free by a program that stores within its blocks, and every block keeps its size and
  what was stored in it. Which chunk serves a request is fixed by its size and the free
  chunks: one that need not be split, the victim, a best fit from the bins, or top, in the
  order of the request's class. It is cut to less than 32 bytes more than the padded
  request, and malloc fails only when nothing is large enough.
- **The three passes of DynASM for x86** (`DynAsm*.dfy`): pass 1 stores actions, threads
  chains of forward branches through its buffers and over-estimates offsets, pass 2 shrinks
  branches and alignments, pass 3 emits bytes. Every branch of the output leads to its label.
- **The HTTP parser** (`Http*.dfy`): a resumable byte automaton in strict mode.
  `HttpAutomaton.Step` is the switch over states for one byte, `HttpRun.Run` a run over a
  stream, `HttpCount.Tally` the header counter over a buffer, and
  `Http.HttpParser.Execute` the buffer-at-a-time parser with its marks and bulk loops, which
  is proved to do what the run does, and to report a header overflow exactly when the
  counter says so. `HttpText` defines header fields as text, in literal characters and
  without the automaton; `HttpHeader` proves what the automaton reads in every list of header
  lines; and `HttpMessage` proves what it calls back for whole printed messages, requests
  and responses: version, status or method, target, every name and value, the body as it is
  framed by the header, one completion, and whether another message may follow.
  `HttpRefusal` proves the other direction: words that are no method, numbers, names,
  lengths and chunk sizes are refused, with their errors, exactly when they are none. A run
  does not depend on how the stream is cut into buffers, and the parser's asserts hold in
  every reachable state. The counter does depend on how the stream is cut; a header section
  of up to 40958 bytes never overflows, and none of more than 81920 bytes gets through.
- **The URL parser** (`Url.dfy`): parsing inverts printing, as far as the memory behind the
  URL lets it, for components made of the literal characters that each may have.
- **HdrHistogram** (`HdrIndex.dfy`, `Hdr.dfy`): the counters agree with the list of recorded
  values, ranks included, within the promised relative error.
- **The pattern matcher of Lua** (`LuaPattern.dfy`, `LuaSyntax.dfy`, `LuaMatch.dfy`): a
  backtracking matcher, proved to return the first of an ordered list of successes, which
  holds exactly the matches of a declarative relation. `LuaSyntax` gives patterns as syntax,
  with the character codes that each class stands for, and proves that the relation for a
  printed pattern is the meaning of its syntax.
- **The register shuffle at the head of a side trace** (`Shuffle.dfy`): a parallel move that
  is emitted backwards and breaks cycles through a temporary register.
- **wrk2's pacing** (`Pacing.dfy`): when requests are sent and which latencies are recorded,
  over every run of events on a monotone clock. The corrected latency counts from when the
  responses before the batch were due at the throughput.
- **Lua's quicksort** (`Sort.dfy`): in place, for every comparator.

`Wrappers.dfy` and `Powers.dfy` hold what several of these share.

Ten promises turn out not to hold on all inputs. The model keeps the code as it is; each has
a lemma with the exact condition and one with an input that shows the failure.

- Once a write has begun a batch, a corrected latency is that of the schedule and at least
  the uncorrected one (`Pacing.LatenciesOk`). A response that nobody asked for, before the
  first batch, has the time since the connection began as corrected latency and the clock
  itself as uncorrected one, so the corrected one is smaller unless the connection began
  with the clock at zero (`Pacing.Unasked`). Neither is ever negative.
- A port is read by a function that knows no length. When the port ends the URL, as it always
  does in the target of a CONNECT request, digits behind the buffer become part of it. The
  URL is parsed as it was printed exactly when something follows the authority in it, or the
  digits behind it end and leave the number, or its refusal, unchanged; a next byte that is
  no digit is enough (`Url.AsPrinted`). `http://h:80` is read with port 801, refused, or read
  beyond the known memory, as other bytes follow (`Url.PortReadsOn`).
- A URL with an empty port is refused (`Url.RoundTrip`, `Url.EmptyPort`).
- A URL whose fragment follows the authority directly is refused
  (`Url.RoundTrip`, `Url.FragmentAfterHost`).
- A URL scheme with digits or marks is refused (`Url.RoundTrip`, `Url.SchemeWithDigit`).
- A keyword that a Connection line lists is seen exactly when the parser tells its element
  from the one in front of it (`HttpText.Current`, `HttpHeader.LineRun`). It does so in every
  list without an empty element, an element that is cut off within a keyword, or one that
  begins with a tab or '_' behind a comma (`HttpHeader.ListedIsSeen`), and sees nothing that
  is not listed in any list without NUL (`HttpHeader.SeenIsListed`); but in `clo,close` it
  does not see close (`HttpHeader.CutOff`).
- A Content-Length with spaces among its digits is not refused but read as the one number of
  all of its digits (`HttpRefusal.LengthExact`, `HttpRefusal.LengthsJoin`).
- A header line that is folded forgets what it said so far, like chunked or close, and a
  folded Content-Length is refused (`HttpRefusal.FoldedLine`).
- Blank lines in front of a request are skipped (`HttpRefusal.BlankLinesSkipped`), but a
  parser for responses begins a message with each of their characters
  (`HttpRefusal.BegunAgain`).
- A chunk size above 2^64 - 17, and a Content-Length above 2^64 - 7, are refused although
  they fit their field (`HttpChunks.SizeRun`, `HttpChunks.LengthRun`); 2^64 - 1 is such a
  number (`HttpChunks.LargestRefused`).

## Model

| member | source | states |
|---|---|---|
| Trie.TreeIndexIs | deps/luajit/src/lj_alloc.c:527-542 | Treebin 2k holds the sizes from 2^(k+8) to one and a half times that, treebin 2k+1 those up to 2^(k+9), and the last one everything from 2^24 on. |
| Trie.IndexMonotone | deps/luajit/src/lj_alloc.c:527-542 | A larger chunk never has a lower tree index, up to the size where the index is cut to 32 bits. |
| Trie.IndexPrefix | deps/luajit/src/lj_alloc.c:527-552 | The sizes of one treebin share the high bits that the trie does not resolve. |
| Trie.InsertOk | deps/luajit/src/lj_alloc.c:641-678 | Linking a chunk keeps the bit-prefix trie and adds exactly that chunk. |
| Trie.UnlinkOk | deps/luajit/src/lj_alloc.c:680-724 | Unlinking a chunk, from a ring or by moving a leaf into its node, keeps the trie and removes exactly that chunk. |
| Trie.InsertLargeOk | deps/luajit/src/lj_alloc.c:641-678 | Over all treebins: the bins stay tries of their sizes, the tree map marks the bin, the chunk is added. |
| Trie.UnlinkLargeOk | deps/luajit/src/lj_alloc.c:680-724 | Over all treebins: the chunk is removed, and the map bit goes exactly when its bin becomes empty. |
| Trie.WalkMinIsLeast | deps/luajit/src/lj_alloc.c:1080-1087 | The walk along leftmost children meets the least size of the whole tree. |
| Trie.PathSearch | deps/luajit/src/lj_alloc.c:1050-1072 | Descending by the bits of the request finds the best node of the path and the deepest untaken right subtree, which together beat every other fitting size of the bin. |
| Trie.StartSearch | deps/luajit/src/lj_alloc.c:1048-1078 | The search before its last walk covers all treebins: what is left out cannot fit better. |
| Trie.SearchLarge | deps/luajit/src/lj_alloc.c:1042-1087 | The node found is a smallest chunk of all treebins that holds the request; none is found only when no chunk holds it. |
| Trie.SearchSmall | deps/luajit/src/lj_alloc.c:1106-1122 | For a small request the search finds a smallest chunk of all treebins. |
| Chunks.UseOk | deps/luajit/src/lj_alloc.c:577-579 | Taking a whole free chunk keeps the segment tiled and tagged, and every chunk in use as it was. |
| Chunks.CarveOk | deps/luajit/src/lj_alloc.c:1090-1103 | Splitting a free chunk keeps the invariant, and every chunk in use as it was. |
| Chunks.CarveFromTopOk | deps/luajit/src/lj_alloc.c:1245-1252 | Carving from top keeps the invariant, and every chunk in use as it was. |
| Chunks.MergeOk | deps/luajit/src/lj_alloc.c:1264-1314 | Freeing a chunk together with its free neighbours leaves one free chunk, correctly tagged and coalesced. |
| Chunks.MergeIntoTopOk | deps/luajit/src/lj_alloc.c:1286-1296 | A freed chunk in front of top becomes part of top. |
| Chunks.TilesCover | deps/luajit/src/lj_alloc.c:1174-1326 | Every address of the segment below top lies in exactly one chunk. |
| Chunks.FullyCoalesced | deps/luajit/src/lj_alloc.c:1257-1326 | No two free chunks touch, and none touches top. |
| Chunks.TagsTell | deps/luajit/src/lj_alloc.c:355-391 | The head of a chunk gives its size and use, pinuse says whether the chunk in front is in use, and the foot of a free chunk leads to its begin. |
| Chunks.LiveBlocksDisjoint | deps/luajit/src/lj_alloc.c:1174-1326 | Blocks in use are aligned, inside the segment and pairwise disjoint. |
| HeapIndex.OneHome | deps/luajit/src/lj_alloc.c:588-734 | Every binned chunk is in exactly one place, the small bin or treebin of its size, whose map bit is set. |
| Heap.Heap.constructor | deps/luajit/src/lj_alloc.c:787-800 | A fresh heap is valid, has no chunk, and all of it is top. |
| Heap.Heap.InsertChunk | deps/luajit/src/lj_alloc.c:728-730 | A chunk enters the bin of its size and the index stays exact. |
| Heap.Heap.UnlinkChunk | deps/luajit/src/lj_alloc.c:732-734 | A chunk leaves its bin and the index stays exact. |
| Heap.Heap.ReplaceDv | deps/luajit/src/lj_alloc.c:628-635 | A new designated victim is set and the old one goes to its small bin. |
| Heap.Heap.TakeForSmall | deps/luajit/src/lj_alloc.c:1203-1215 | An unlinked free chunk serves a small request: cut to the request, with its rest as the new victim, exactly when 32 bytes or more are left over, and whole otherwise. |
| Heap.Heap.TakeDv | deps/luajit/src/lj_alloc.c:1229-1244 | The victim serves a request that it is large enough for: it is cut, with its rest as victim, exactly when 32 bytes or more are left over, and taken whole and gone otherwise. |
| Heap.Heap.TakeTop | deps/luajit/src/lj_alloc.c:1245-1253 | Top serves a request that it is larger than. |
| Heap.Heap.TMallocLarge | deps/luajit/src/lj_alloc.c:1042-1103 | The block comes from a smallest binned chunk that holds the request and beats the victim, cut exactly when 32 bytes or more are left over, with the rest binned; failure changes nothing and means that no binned chunk beats the victim. |
| Heap.Heap.TMallocSmall | deps/luajit/src/lj_alloc.c:1106-1134 | The block comes from a smallest chunk of the treebins, with its rest as the new victim. |
| Heap.Heap.MallocSmall | deps/luajit/src/lj_alloc.c:1180-1219 | A small request is served by a small chunk of its size or the next one, else by the victim, else by a smallest binned chunk that fits; failure means that none of these exists, or leaves the request to the victim. |
| Heap.Heap.Malloc | deps/luajit/src/lj_alloc.c:1174-1255 | A request is padded to 16 bytes and its overhead, at least 32. It is served by exactly the chunk that its class prescribes: small ones by a chunk that need not be split, then the victim, then a best fit, then top; large ones by a best fit that beats the victim, then the victim, then top. The chunk is cut exactly when 32 bytes or more are left over, and the new victim is given. The block is new, aligned, and less than 32 bytes larger than the padded request, every block in use is untouched, and the heap stays valid. Failure changes nothing and means that no free chunk and not top is large enough. |
| Heap.Heap.FreeIntoTop | deps/luajit/src/lj_alloc.c:1286-1296 | The freed chunk joins top, and the victim with it when it was merged. |
| Heap.Heap.FreeBeforeVictim | deps/luajit/src/lj_alloc.c:1297-1301 | The freed chunk joins the victim behind it. |
| Heap.Heap.FreeBeforeFree | deps/luajit/src/lj_alloc.c:1302-1323 | The freed chunk joins a binned chunk behind it, which leaves its bin. |
| Heap.Heap.Free | deps/luajit/src/lj_alloc.c:1257-1326 | Exactly the freed block leaves use, all other blocks are untouched, and the heap stays valid: coalesced, tagged and indexed. The victim is the merged chunk when it was part of the merge, gone when that became top, and otherwise as before. |
| Chunks.PayloadIsNoTag | deps/luajit/src/lj_alloc.c:355-391 | A word that the holder of a chunk may write is no head of any chunk or of top, and no foot of a free chunk. |
| Chunks.StoreOk | deps/luajit/src/lj_alloc.c:1174-1326 | Storing within a block keeps the segment tiled and tagged, and every other block in use as it was. |
| Heap.Heap.Store | deps/luajit/src/lj_alloc.c:1174-1326 | A store of the program in a block that it holds changes that word only, and the heap stays valid. |
| Heap.Serve | deps/luajit/src/lj_alloc.c:1174-1326 | After any run of malloc, free and stores within held blocks the heap is valid, top and the chunks together are as large as at the start, its chunks in use are exactly those of the blocks that the program holds, each is at least the padded request and less than 32 bytes more, and each has in it the words that were stored last. Every request is answered as for itself, from the chunk that the free chunks at that time prescribe; a failure changes nothing and means that no free chunk and not top was large enough. |
| DynAsmLabels.TargetMeaning | deps/luajit/dynasm/dasm_x86.h:222-243 | A branch means the latest definition of its label before it, else the first one after it. |
| DynAsmLabels.TargetAfter | deps/luajit/dynasm/dasm_x86.h:239-243 | A further definition resolves exactly the branches that were waiting for that label. |
| DynAsmState.BranchOk | deps/luajit/dynasm/dasm_x86.h:221-236 | Storing a branch keeps the invariant of pass 1, by the label's position or as the head of its chain. |
| DynAsmState.ChainStep | deps/luajit/dynasm/dasm_x86.h:240-241 | Following a chain visits its branches in turn and ends with the last one. |
| DynAsmState.DefineOk | deps/luajit/dynasm/dasm_x86.h:238-244 | Defining a label gives its position to its whole chain and to no other branch. |
| DynAsmState.AppendOk | deps/luajit/dynasm/dasm_x86.h:183-190 | Storing any other action keeps the invariant of pass 1. |
| DynAsmLinking.TargetsKnown | deps/luajit/dynasm/dasm_x86.h:272-280 | When no label is left undefined, every branch slot holds the position of its label. |
| DynAsmLinking.LinkStep | deps/luajit/dynasm/dasm_x86.h:300-337 | One step of pass 2 keeps what the slots mean: labels behind it hold final offsets, labels ahead estimates. |
| DynAsmLinking.LookUp | deps/luajit/dynasm/dasm_x86.h:307-317 | The distance that pass 2 weighs is the final one back to a fixed label, and the estimated one ahead, across sections. |
| DynAsmLayout.AlignedUp | deps/luajit/dynasm/dasm_x86.h:331 | The correction of an alignment moves to the first aligned offset. |
| DynAsmLayout.LayoutContracts | deps/luajit/dynasm/dasm_x86.h:292-341 | Between any two points, in one section or several, the final distance is at most the estimated one and not negative. |
| DynAsmCode.ShortBranchFits | deps/luajit/dynasm/dasm_x86.h:303-324 | A branch is shrunk only when its final displacement fits in a signed byte. |
| DynAsmCode.BranchForm | deps/luajit/dynasm/dasm_x86.h:303-324 | A jump or conditional jump is left long exactly when the short form would not reach back to its label, or its estimated distance ahead is more than 127 bytes; no other branch is shrunk. |
| DynAsmCode.BranchLands | deps/luajit/dynasm/dasm_x86.h:398-405 | In the output every branch, long or short, backward, forward or to a later section, has the opcode of its form (0xe9 or 0xeb, 0x0f 0x8x or 0x7x) and the displacement of its label from its own end. |
| DynAsmCode.PlainByte | deps/luajit/dynasm/dasm_x86.h:427-428 | A byte of the program is in the output where the layout puts it, unless a short branch takes it over. |
| DynAsmCode.AlignmentHolds | deps/luajit/dynasm/dasm_x86.h:421-424 | Every alignment point is aligned in the output, by nops fewer than the alignment. |
| DynAsm.State.constructor | deps/luajit/dynasm/dasm_x86.h:138-151 | A state without actions is valid. |
| DynAsm.State.Put | deps/luajit/dynasm/dasm_x86.h:167-262 | A put appends exactly its actions to the active section, keeps the invariant and switches sections as the list says. |
| DynAsm.State.StoreBranch | deps/luajit/dynasm/dasm_x86.h:221-236 | The new state is that of a branch added. |
| DynAsm.State.StoreLabel | deps/luajit/dynasm/dasm_x86.h:237-244 | Collapsing the chain in place gives the state of a label defined. |
| DynAsm.State.Link | deps/luajit/dynasm/dasm_x86.h:266-346 | Pass 2 completes the layout by its shrink rule, and the code size is the end of the last section. |
| DynAsm.State.Encode | deps/luajit/dynasm/dasm_x86.h:360-439 | Pass 3 writes exactly the code of the layout, as many bytes as link computed, and never reports a phase error. |
| DynAsm.State.GetPcLabel | deps/luajit/dynasm/dasm_x86.h:442-451 | A label's offset is where its latest definition is in the output. |
| HttpRun.RunSplit | src/http_parser.c:694-2043 | A run over two buffers in a row is a run over the first, continued over the second. |
| HttpRun.SegmentationIndependence | src/http_parser.c:627-2075 | Feeding a stream in pieces, however cut, gives the outcome of feeding it whole: the same parser fields and callback log, or the same error at the same byte. |
| HttpRun.InvStep | src/http_parser.c:696-2041 | Every byte keeps the parser's asserts, keeps numbers within their fields and reads of method names within their strings. |
| HttpRun.InvRun | src/http_parser.c:694-2043 | The asserts hold in every reachable state: chunk states are chunked, body states have a length that is neither 0 nor the sentinel, header values are never in the states of a header name. |
| HttpRun.JoinTwice | src/http_parser.c:2045-2065 | Data called back in two parts reads in the joined log like data called back at once. |
| HttpMarks.StepOk | src/http_parser.c:79-142 | Marking, calling back and notifying for one byte logs what the run over single bytes logs. |
| HttpMarks.AtMostOneMark | src/http_parser.c:2055-2059 | At most one mark is set. |
| HttpMarks.TidyStep | src/http_parser.c:669-692 | In every state, bytes belong to the one kind of data that the state is in the middle of. |
| Http.SkipValue | src/http_parser.c:1542-1565 | Skipping an uninteresting value stops at the first CR or LF, or else at the end of the buffer, where the skip is larger than all headers may be. |
| Http.GeneralRun | src/http_parser.c:1542-1565 | What is skipped are bytes that one by one would only be value data. |
| Http.CountedRun | src/http_parser.c:1872-1906 | Taking the rest of a body or chunk at once is taking it byte by byte. |
| Http.EofRun | src/http_parser.c:1909-1913 | Taking a whole buffer as body is taking it byte by byte. |
| Http.HttpParser.constructor | src/http_parser.c:2128-2137 | A fresh parser is valid and in the start state of its type. |
| Http.HttpParser.Name | src/http_parser.c:1316-1443 | The loop over a header name ends as the run over its bytes does. |
| Http.HttpParser.Value | src/http_parser.c:1518-1702 | The loop over a header value ends as the run over its bytes does. |
| Http.HttpParser.Counted | src/http_parser.c:1872-2021 | The bulk step over a body or chunk ends as the run over its bytes does, under the asserted lengths. |
| Http.HttpParser.Plain | src/http_parser.c:694-2043 | A single byte in any other state, with its mark, callbacks and header count. |
| Http.HttpParser.Eof | src/http_parser.c:646-666 | The end of the stream completes a message that reads until then, is silent between messages and is an error elsewhere. |
| Http.HttpParser.Execute | src/http_parser.c:627-2075 | One call reports a header overflow exactly when the header counter passes its limit; else it leaves the fields, nread included, the joined log, the error and the number of parsed bytes of the run over its buffer; an error state parses nothing more. |
| Http.HttpParser.Feed | src/wrk.c:654-674 | A loop of calls over pieces reports a header overflow exactly when the counter over those pieces passes its limit; else it leaves the fields and joined log of one run over the whole stream, or stops with its error. With an upgrade it stops there, and counts as complete exactly when the upgrade ends the stream, unless a piece in the middle ends with it. |
| HttpCount.TallyCounted | src/http_parser.c:1872-1906 | Taking the rest of a body or chunk leaves the header counter as taking it byte by byte does: alone. |
| HttpCount.TallyGeneral | src/http_parser.c:1542-1565 | Skipped bytes of a value are counted at the end of the value. |
| HttpCount.TallyLost | src/http_parser.c:1542-1565 | A skip past the limit overflows whatever the skipped bytes were. |
| HttpCount.SlackStep | src/http_parser.c:155-163 | How often a byte is counted, against how often it is executed, in every state. |
| HttpCount.NoOverflow | src/http_parser.c:144-163 | When no header section, chunk line or trailer of a stream is longer than 40958 bytes, no cut of it overflows. |
| HttpCount.NeverLarger | src/http_parser.c:144-163 | What is parsed without an overflow, in any cut, has no header section, chunk line or trailer longer than 81920 bytes. |
| HttpCount.CountEnds | src/http_parser.c:144-163 | The counter is back at zero behind a header section, a chunk line and the data of a chunk, and goes on counting behind a line of the header. |
| HttpChunks.SizeRun | src/http_parser.c:1920-1972 | A chunk size is read as its mathematical value exactly when that is at most 2^64 - 17, and refused otherwise. |
| HttpChunks.LengthRun | src/http_parser.c:1484-1597 | A Content-Length is read as its mathematical value exactly when that is at most 2^64 - 7, and refused otherwise. |
| HttpChunks.UnhexIs | src/http_parser.c:225-234 | The table of hex digits gives 0 to 15 for the digits and letters of either case, and nothing else a value. |
| HttpChunks.LargestRefused | src/http_parser.c:1579-1584 | The digits of 2^64 - 1, decimal as a Content-Length or hexadecimal as a chunk size, are refused. |
| HttpChunks.HeadRun | src/http_parser.c:1920-1998 | The line of a chunk sets the length and leads to the data, or to the trailer of the last chunk. |
| HttpChunks.BlockRun | src/http_parser.c:1264-1783 | Header lines call back no body and complete no message. |
| HttpChunks.BeforeLast | src/http_parser.c:1920-2036 | Up to the last byte, an encoded body has called back all of its data and no end. |
| HttpChunks.ChunkedRoundTrip | src/http_parser.c:1920-2036 | Decoding an encoded body, with any trailer whose lines the parser accepts, calls back the joined chunks as body, completes the message once, at the last LF, and leaves what follows to the next message. |
| HttpChunks.LinesAccepted | src/http_parser.c:1264-1783 | Wherever a line may begin, the parser accepts every list of trailer lines with a token other than content-length as name and a value within its line. |
| HttpChunks.LinesRoundTrip | src/http_parser.c:1920-2036 | With any such lines as trailer, an encoded body calls back exactly its chunks as body, completes one message, with the last byte and not before, and leaves what follows to the next message. |
| HttpChunks.NoTrailer | src/http_parser.c:1920-2036 | Without a trailer nothing but the body and the end of the message is called back. |
| HttpChunks.ChunkedPieces | src/http_parser.c:1920-2036 | The same, however the encoded body is cut into pieces. |
| HttpChunks.IdentityRoundTrip | src/http_parser.c:1872-1918 | A body of known length is called back whole, the message ends with its last byte, and what follows is left. |
| HttpText.TokenIs | src/http_parser.c:190-222 | The table of token characters, against the characters written out, with the letter case removed. |
| HttpHeader.NameMeans | src/http_parser.c:1264-1443 | The states of the name matcher are apart: it ends in the state of a name exactly when the name is that word in any letter case. |
| HttpHeader.NameRun | src/http_parser.c:1264-1443 | Over every name of token characters, the matcher is in the state that the text read so far prescribes: matching a word it begins, at the end of one, or general. |
| HttpHeader.LineRun | src/http_parser.c:1264-1783 | Every header line with a token as name, a value within its line and no malformed length calls back its name and its value without the blanks in front, and changes length and flags exactly as its text says. |
| HttpHeader.LinesRun | src/http_parser.c:1264-1783 | The same for every list of header lines. |
| HttpHeader.EffectsAre | src/http_parser.c:1445-1776 | The flags behind a list of lines: chunked exactly when some line is Transfer-Encoding with the value chunked, keep-alive, close and upgrade exactly when the parser sees the word in some Connection or Proxy-Connection list, and the upgrade flag exactly when some Upgrade line has a value; all in any letter case. |
| HttpHeader.LengthIs | src/http_parser.c:1484-1597 | The length behind a list of lines is the number of the digits in the last Content-Length line that has a value. |
| HttpHeader.SeenIsListed | src/http_parser.c:1610-1688 | In a list without NUL, the parser sees no keyword that is not an element of it. |
| HttpHeader.ListedIsSeen | src/http_parser.c:1610-1688 | In a list without empty elements, cut-off keywords and elements that begin strangely, it sees exactly the keywords that are elements. |
| HttpHeader.CutOff | src/http_parser.c:1640-1665 | The list `clo,close` has close as an element, and the parser does not see it. |
| HttpMessage.NumberRun | src/http_parser.c:792-905 | A version number or status of any number of digits, up to 999, is read as its decimal value. |
| HttpMessage.StatusLineRun | src/http_parser.c:749-943 | A status line yields version, status and reason, by a parser for responses or for both. |
| HttpMessage.MethodsAre | src/http_parser.h:88-123 | The names of the 27 methods, written out. |
| HttpMessage.VerbRun | src/http_parser.c:945-1069 | Every method name is read as its method, although the matcher guesses another one by the first letter. |
| HttpMessage.TargetAfter | src/http_parser.c:480-609 | Every printed target, asterisk, origin form, absolute form or, for CONNECT, authority, leads the URL states to one that a target may end in. |
| HttpMessage.AskRun | src/http_parser.c:945-1262 | A request line yields method, target and version, by a parser for requests or for both. |
| HttpMessage.NextIs | src/http_parser.c:2079-2118 | Behind a message the parser awaits another one exactly when its version is at least 1.1 and no line lists close, or some line lists keep-alive; otherwise it is dead. |
| HttpMessage.HeadIs | src/http_parser.c:1779-1870 | Behind every printed head the parser knows version, status or method, flags and length as the text says, and goes on as the framing says: another protocol, chunks, a counted body, no body, or a body to the end of the stream. |
| HttpMessage.BareMessage | src/http_parser.c:1779-1870 | A message without a body is called back with one completion, at the end of its head, and what follows is left. |
| HttpMessage.SizedMessage | src/http_parser.c:1872-1907 | A message whose head gives a length has that many bytes as body and one completion, at the end of them. |
| HttpMessage.ChunkedMessage | src/http_parser.c:1920-2036 | A message whose head says chunked has the joined chunks as body, then the trailer lines, and one completion, at the end; keep-alive and close of the trailer count as well. |
| HttpMessage.EofMessage | src/http_parser.c:1909-1913 | A response without length, chunks or a status that forbids a body has everything behind its head as body, and is not complete before the stream ends. |
| HttpMessage.SwitchedMessage | src/http_parser.c:1779-1838 | A CONNECT request, or a message that offers a protocol and lists upgrade, completes at the end of its head, and what follows is left to the other protocol. |
| HttpRefusal.VerbExact | src/http_parser.c:945-1069 | A word is taken for a method exactly when it is one of the 27; any other is refused as a method. |
| HttpRefusal.NumberExact | src/http_parser.c:792-905 | Digits are read as a version number or status exactly when their value is at most 999, and refused otherwise. |
| HttpRefusal.NumberRefuses | src/http_parser.c:792-905 | Only a digit, or what ends the number, may follow in a number. |
| HttpRefusal.NameExact | src/http_parser.c:1264-1443 | A name is read exactly when it is a token, and refused otherwise. |
| HttpRefusal.LengthExact | src/http_parser.c:1484-1597 | A Content-Length is read exactly when it is a digit followed by digits and spaces whose number is at most 2^64 - 7, as that number, and refused otherwise. |
| HttpRefusal.LengthsJoin | src/http_parser.c:1571-1577 | Two numbers with a space between them are read as the one number of all digits. |
| HttpRefusal.SizeExact | src/http_parser.c:1920-1972 | A chunk size is read exactly when it is hex digits of a value of at most 2^64 - 17. |
| HttpRefusal.OnlyIs | src/http_parser.c:770-2036 | Where one character must stand, in the protocol name and behind CR, every other is refused. |
| HttpRefusal.BeginsOnly | src/http_parser.c:700-790 | What may begin a message, and what may follow the last one. |
| HttpRefusal.UrlRefuses | src/http_parser.c:480-609 | In each state of a target, exactly the characters written out lead on. |
| HttpRefusal.LineFeedAlone | src/http_parser.c:907-943 | Wherever a line may end, LF alone does what CR LF does. |
| HttpRefusal.BlankLinesSkipped | src/http_parser.c:702-721 | Blank lines in front of a request, or behind the last message, do nothing. |
| HttpRefusal.BegunAgain | src/http_parser.c:749-768 | Each character of a blank line in front of a response begins a message. |
| HttpRefusal.NoVersion | src/http_parser.c:1113-1131 | A request line that ends behind its target is of HTTP/0.9. |
| HttpRefusal.SpacesSkipped | src/http_parser.c:1071-1150 | Further spaces in front of target, protocol name and status do nothing. |
| HttpRefusal.FoldedLine | src/http_parser.c:1704-1739 | A value goes on behind a line end and a blank; a length is refused there, and a match is forgotten. |
| Url.TablesAre | src/http_parser.c:412-428 | Each character class of the parser has exactly the characters written out for it. |
| Url.ScanRun | src/http_parser.c:2302-2358 | A run of bytes in one URL state is one field, with its offset and length. |
| Url.AuthorityScan | src/http_parser.c:533-557 | The main loop takes userinfo, host and port as one field and notes the '@'. |
| Url.AuthorityHost | src/http_parser.c:2151-2287 | The authority is taken apart into userinfo, host and port; an empty port is incomplete. |
| Url.RoundTrip | src/http_parser.c:2289-2386 | For all printed URLs and all memory behind them: the loops accept exactly when the scheme is alphabetic, the fragment is behind a path or query and the port is not empty; then the parse succeeds exactly when the number that is read for the port ends and is at most 65535, every field is exactly where its component was printed and port is that number. |
| Url.AsPrinted | src/http_parser.c:2373-2386 | The parse is what the printed components promise exactly when the loops refuse them anyway, or something follows the authority, or the digits behind the URL end and leave the number, or its refusal, unchanged; a next byte that is no digit suffices. |
| Url.PortReadsOn | src/http_parser.c:2373-2380 | `http://h:80` in front of 1 is read with port 801, in front of 999 refused, and in front of the end of memory read beyond it. |
| Url.PicksOut | src/http_parser.c:2289-2386 | The offset and length of a field pick out exactly its component, and empty components have no field. |
| Url.ConnectRoundTrip | src/http_parser.c:2368-2386 | A CONNECT target passes the loops exactly when it is a host and a port without userinfo; its port is the number read to the end of the digits in memory, and is as printed exactly when the memory behind it does not disturb it. |
| Url.EmptyPort | src/http_parser.c:2270-2284 | `http://h:/` is refused. |
| Url.FragmentAfterHost | src/http_parser.c:539-557 | `http://h#f` is refused. |
| Url.SchemeWithDigit | src/http_parser.c:508-517 | `h2://h/` is refused. |
| Url.Strtoul | src/http_parser.c:2373-2380 | The port is read to the end of its digits in memory, saturating at ULONG_MAX, or beyond the known memory. |
| Url.HttpParserUrl.ParseHost | src/http_parser.c:2216-2287 | The loop over the host part sets what the host state machine sets. |
| Url.HttpParserUrl.ParseUrl | src/http_parser.c:2289-2386 | The loop over the URL sets the fields and port that the specification gives, fails with it, or reads beyond the known memory with it. |
| HdrIndex.OrBitLen | src/hdr_histogram.c:41-45 | The bit length of an or is the larger of the two bit lengths. |
| HdrIndex.SubIndexBounds | src/hdr_histogram.c:47-65 | The asserts of counts_index: sub-buckets are in range, and in the upper half beyond the first bucket. |
| HdrIndex.IndexIff | src/hdr_histogram.c:41-73 | A value has the index of the one cell whose range holds it. |
| HdrIndex.IndexMono | src/hdr_histogram.c:67-73 | The index map is monotone. |
| HdrIndex.IndexOnto | src/hdr_histogram.c:75-78 | The index map is onto, and value_from_index is the least value of a cell. |
| HdrIndex.TrackableInRange | src/hdr_histogram.c:149-158 | With the buckets that hdr_init counts, every trackable value has a cell. |
| HdrIndex.EquivalentCell | src/hdr_histogram.c:88-111 | The equivalent values of a value are those of its cell. |
| HdrIndex.RelativeError | src/hdr_histogram.c:88-111 | The highest equivalent value exceeds a value by less than a unit or by less than a 10^figures-th of the value. |
| Hdr.Size | src/hdr_histogram.c:127-158 | Exactly one to five figures are accepted; then a bucket has enough cells for the figures, and less than twice as many, and the sizing loop gives every value up to the highest a cell, with no bucket more than needed. |
| Hdr.Histogram.constructor | src/hdr_histogram.c:160-184 | A new histogram has recorded nothing. |
| Hdr.Histogram.Reset | src/hdr_histogram.c:193-198 | A reset histogram has recorded nothing. |
| Hdr.Histogram.Record | src/hdr_histogram.c:215-228 | A value is recorded exactly when it has a cell; counters and total agree with the list of recorded values. |
| Hdr.Histogram.RecordValues | src/hdr_histogram.c:230-243 | The same for a number of equal values. |
| Hdr.Histogram.Totals | src/hdr_histogram.c:220-226 | The counters of all cells add up to the total count. |
| Hdr.RecordCorrected | src/hdr_histogram.c:245-267 | A value and its backfill are recorded completely or not at all. |
| Hdr.BackfillIs | src/hdr_histogram.c:257-264 | The backfill is the value less one, two, ... intervals, as long as at least an interval is left. |
| Hdr.IncrementIs | src/hdr_histogram.c:433-442 | From (0, -1) on, increment_bucket enumerates the cells in order, without gap or repeat. |
| Hdr.Iter.Next | src/hdr_histogram.c:444-494 | The iterator moves to the next cell, with its count, running count and values, exactly while the running count is below the total. |
| Hdr.Iter.NextRecorded | src/hdr_histogram.c:663-675 | The iterator stops at each non-empty cell and skips none; at the end all counts have been seen. |
| Hdr.RankIsKth | src/hdr_histogram.c:335-358 | Rank k is answered by the highest equivalent of the one value that is k-th smallest among those recorded, within the promised precision, for every list that the counters agree with. |
| Hdr.RankOfPercentile | src/hdr_histogram.c:340-343 | A percentile stands for a rank from 1 to the total, the nearest one to its share, from below and above. |
| Hdr.ValueAtPercentile | src/hdr_histogram.c:335-358 | The value at a percentile is the answer for its rank. |
| Hdr.ValueAtRank | src/hdr_histogram.c:335-358 | The loop returns the answer for rank k, at least 1, and 0 when there is none. |
| Hdr.Min | src/hdr_histogram.c:316-333 | The least recorded value, rounded down to its cell; 0 when nothing was recorded. |
| Hdr.MaxValue | src/hdr_histogram.c:299-314 | The greatest recorded value, rounded down to its cell; 0 when nothing was recorded. |
| Hdr.Add | src/hdr_histogram.c:269-287 | Counts are conserved: what is dropped and what is added make up the other histogram; with equal geometry nothing is dropped and every counter is the sum. |
| Hdr.MergedAgree | src/hdr_histogram.c:269-287 | Summed counters agree with both lists together, so merged ranks are those of recording everything into one histogram. |
| LuaPattern.ClassIs | deps/luajit/src/lib_string.c:226-244 | Each class letter has exactly the character codes written out for it, its upper case all others, and an escape of anything else only itself. |
| LuaPattern.AllMatches | deps/luajit/src/lib_string.c:368-451 | The ordered list of successes holds exactly the matches of the pattern relation, captures included. |
| LuaPattern.ItemHolds | deps/luajit/src/lib_string.c:420-445 | The successes of an item are those of all repetition counts that its suffix allows. |
| LuaPattern.BalancedUnique | deps/luajit/src/lib_string.c:281-300 | A balanced string has one end. |
| LuaSyntax.SetRead | deps/luajit/src/lib_string.c:205-267 | A printed set, plain or negated, of members, ranges and class letters has exactly the codes of its parts. |
| LuaSyntax.ElementRead | deps/luajit/src/lib_string.c:368-451 | Every printed element is read as that element: class and suffix, capture, back reference, balance or frontier. |
| LuaSyntax.MatchesMeans | deps/luajit/src/lib_string.c:368-451 | A printed pattern matches exactly as its syntax means: repetitions by their counts over literal codes, captures, back references, balance, frontier and anchor. |
| LuaSyntax.WellFormedIff | deps/luajit/src/lib_string.c:183-203 | A printed pattern is well-formed exactly when each close has an open capture and each back reference a finished one. |
| LuaSyntax.BalancedMeans | deps/luajit/src/lib_string.c:281-300 | A balanced string is one with as many closing as opening characters, and in no proper part from its start. |
| LuaMatch.StarIsGreedy | deps/luajit/src/lib_string.c:302-315 | '*' takes the largest repetition for which the rest of the pattern matches. |
| LuaMatch.PlusIsGreedy | deps/luajit/src/lib_string.c:435-437 | '+' takes the largest positive repetition for which the rest matches. |
| LuaMatch.MinusIsLazy | deps/luajit/src/lib_string.c:317-329 | '-' takes the smallest repetition for which the rest matches. |
| LuaMatch.OptionalIsGreedy | deps/luajit/src/lib_string.c:428-434 | '?' takes the item when it matches and the rest of the pattern matches behind it. |
| LuaMatch.AnswerIff | deps/luajit/src/lib_string.c:368-451 | The first success exists exactly when the relation has a match, and it is one; without one, level and captures are as before. |
| LuaMatch.MatchState.FindClassEnd | deps/luajit/src/lib_string.c:205-224 | The loop finds the end of a class. |
| LuaMatch.MatchState.MatchBracketClass | deps/luajit/src/lib_string.c:246-267 | A character is in a bracket class exactly when a member, range or class letter has it, or with '^' when none has. |
| LuaMatch.MatchState.SingleMatch | deps/luajit/src/lib_string.c:269-277 | One character matches one item: anything by a dot, the codes of a class letter by its escape, itself by any other character, the parts of a set by the set. |
| LuaMatch.MatchState.MatchBalance | deps/luajit/src/lib_string.c:281-300 | The end of the balanced string: the first place where the nesting depth is back to zero. |
| LuaMatch.MatchState.MaxExpand | deps/luajit/src/lib_string.c:302-315 | The first success of trying the largest repetition first. |
| LuaMatch.MatchState.MinExpand | deps/luajit/src/lib_string.c:317-329 | The first success of trying the smallest repetition first. |
| LuaMatch.MatchState.StartCapture | deps/luajit/src/lib_string.c:331-343 | The first success with one more capture; failure undoes the capture. |
| LuaMatch.MatchState.EndCapture | deps/luajit/src/lib_string.c:345-354 | The first success with the last open capture closed; failure opens it again. |
| LuaMatch.MatchState.MatchCapture | deps/luajit/src/lib_string.c:356-366 | A back reference matches exactly the captured text, and a position capture never. |
| LuaMatch.MatchState.Match | deps/luajit/src/lib_string.c:368-451 | The matcher ends with the first success and its captures; when there is none it fails and level and captures are as before. It terminates because the rest of the pattern shrinks. |
| LuaMatch.MatchState.Search | deps/luajit/src/lib_string.c:536-558 | The search returns the first success at the first starting position with a match, only the given one for an anchored pattern, or fails when no position has one. |
| LuaMatch.Find | deps/luajit/src/lib_string.c:536-558 | Searching for a printed pattern finds the first position at which the meaning of its syntax holds, with an end and captures of that meaning, or fails when there is no such position. |
| Shuffle.CoalesceOk | deps/luajit/src/lj_asm.c:1476-1485 | Moving a free live register to its target keeps the code emitted so far correct. |
| Shuffle.RenameOk | deps/luajit/src/lj_asm.c:616-629 | Renaming a target to a temporary register keeps the code correct. |
| Shuffle.OnlyCycles | deps/luajit/src/lj_asm.c:1491-1503 | When no live register is free, only cycles are left. |
| Shuffle.ClassesAre | deps/luajit/src/lj_target_x86.h:66-67 | The two register classes, written out: all integer registers but the stack pointer, and all floating-point ones. |
| Shuffle.TempStays | deps/luajit/src/lj_asm.c:1491-1503 | Whenever cycles have to be broken, the temporary registers of a class are those of the start: free registers and targets, allowed, and not live. |
| Shuffle.LeftIsCycle | deps/luajit/src/lj_asm.c:1491-1503 | What is left live in a class where nothing has moved is a cycle of the start. |
| Shuffle.NoWay | deps/luajit/src/lj_asm.c:1491-1503 | Giving up in a class means that it had a cycle and no temporary register at the start. |
| Shuffle.ASMState.Rename | deps/luajit/src/lj_asm.c:616-637 | The new state of a rename, with its asserts as what it needs. |
| Shuffle.ASMState.BreakCycle | deps/luajit/src/lj_asm.c:1491-1503 | A cycle of a class is broken exactly when the class has a temporary register. |
| Shuffle.CoalesceFree | deps/luajit/src/lj_asm.c:1476-1485 | The inner loop ends with no live register free, and shrinks the live set when it had one. |
| Shuffle.ShuffleRegisters | deps/luajit/src/lj_asm.c:1472-1506 | When the shuffle does not give up, running the emitted moves, last emitted first, leaves every target with its parent register's value, cycles included, touches only free registers and targets and frees the targets; it gives up exactly when some class has a cycle and no temporary register, and terminates. |
| Pacing.CompleteIs | src/wrk.c:485-500 | The completed requests are the responses that came while the thread was not stopped. |
| Pacing.HalfSent | src/wrk.c:598-651 | Requests are half sent exactly when a write was cut short and neither the rest nor a new connection came since. |
| Pacing.OutstandingIs | src/wrk.c:485-651 | A response is outstanding exactly when requests were started and fewer than a batch were counted since; then pending is what is missing. |
| Pacing.BatchStartIs | src/wrk.c:601-632 | The batch-start fields are the clock of the write that began the last batch, and the responses counted before it. |
| Pacing.LatenciesOk | src/wrk.c:519-559 | In every state of every run behind a write that began a batch, with n responses counted before that write: the corrected latency is now - start - n / throughput, rounded up to microseconds, the uncorrected one is now less the clock of that write, and the corrected one is not smaller, nor negative. |
| Pacing.Unasked | src/wrk.c:519-559 | In every state before the first batch, the corrected latency is the time since the connection began, and the uncorrected one the clock itself. |
| Pacing.WaitIs | src/wrk.c:434-473 | The wait: until the completed requests are due at the throughput; when they are, until those since catching up began are due at twice the throughput; else none. Catching up begins with the first answer after a wait for the throughput. |
| Pacing.DueWithin | src/wrk.c:434-473 | What the schedule says is due was not completed faster than its rate. |
| Pacing.ScheduleStep | src/wrk.c:434-651 | Every event keeps the schedule bounds. |
| Pacing.ScheduleSafety | src/wrk.c:434-651 | Over every run where only requested responses come, the responses counted stay within the rate, and while behind within twice the rate since catching up began, by one microsecond and one batch. |
| Pacing.Connection.constructor | src/wrk.c:270-282 | A fresh connection. |
| Pacing.Connection.NextSend | src/wrk.c:434-473 | The wait and the catch-up fields are those of the schedule. |
| Pacing.Connection.DelayRequest | src/wrk.c:475-483 | The socket is looked at again exactly when there is nothing to wait for. |
| Pacing.Connection.SocketWriteable | src/wrk.c:598-651 | The event's effect on the pacing fields. |
| Pacing.Connection.ResponseComplete | src/wrk.c:485-572 | The event's effect on the pacing fields, and the latencies: recorded exactly when the batch is complete or all responses are recorded, the corrected one by the schedule and the uncorrected one by the clock of the write. |
| Pacing.Drive | src/wrk.c:434-651 | Over a whole run of callbacks from a fresh connection, a latency is recorded exactly for the responses that complete a batch, or all, and is the one of the schedule and of the last write that began a batch. |
| Sort.PermExchange | deps/luajit/src/lib_table.c:173-177 | An exchange is a rearrangement. |
| Sort.SideDone | deps/luajit/src/lib_table.c:247-254 | With one side of the pivot sorted only the other side is left. |
| Sort.OrderThree | deps/luajit/src/lib_table.c:207-219 | The median of three is in place, for every strict weak order. |
| Sort.Scan | deps/luajit/src/lib_table.c:228-237 | The scans stay in bounds for every comparator, and by a strict weak order stop at the pivot and raise no error. |
| Sort.Partition | deps/luajit/src/lib_table.c:221-247 | The elements are rearranged around the pivot. |
| Sort.SmallerSide | deps/luajit/src/lib_table.c:247-254 | A call on less than half of at least four elements leaves the depth within the logarithm. |
| Sort.Auxsort | deps/luajit/src/lib_table.c:195-256 | For every comparator a rearrangement; for every strict weak order sorted, without the invalid-order error. No more than log2 of the length frames are on the stack (one, for fewer than four elements), because only the smaller side recurses. |
| Sort.TableSort | deps/luajit/src/lib_table.c:258-267 | The array is a sorted permutation of what it was, for every strict weak order, by a recursion of logarithmic depth. |

## Left out

- Sockets, TLS, threads, event loops, scripts and printing: input and output.
- The allocator's segments, direct chunks, trimming and realloc: the model has one segment, and asking the system for more fails.
- Child pointers and list links of chunks: small bins are sequences and treebins tree values, so the links in memory and the overlay of small bins on an array are not captured.
- Addresses at or above 2^40: the source keeps its memory in the low 2 GB. Requests may have any size.
- DynAsm.State.Put: the actions with operands (immediates, registers, externs, spaces), local and global labels and SETLABEL are not modelled; section buffers hold fewer than 2^24 slots, and growing them is not modelled.
- DynAsm.State.Link: every label that a branch uses is defined, which DASM_CHECKS would otherwise report.
- Http.HttpParser.Execute: callbacks return 0; a buffer has at most 2^32 - 163840 bytes, because within a larger one the 32 bits of nread could wrap. After an error the callback log is not described, since marked data is dropped then.
- Http.HttpParser.Feed: when an upgrade ends a piece that is not the last one, the loop parses what follows, which is another protocol; that is not described.
- HttpHeader.LineRun: folded lines are covered only by HttpRefusal.FoldedLine, and a malformed Content-Length by HttpRefusal.LengthExact.
- HttpMessage.HeadIs: printed messages have CR LF as line ends, a version and single spaces in their start line, and no userinfo or fragment in their target; HttpRefusal has what the parser does otherwise.
- HttpChunks.LinesRoundTrip: folded header lines and a content-length among the trailer are covered only by HttpChunks.ChunkedRoundTrip, through how the parser runs over them.
- Non-strict mode, pausing, and a headers-complete callback that skips the body: F_SKIPBODY is bit 6 of a field of 6 bits.
- Url.HttpParserUrl.ParseUrl: the URL is shorter than 65536 bytes, and a host that the struct held before lies in the buffer, as in a zeroed struct; offsets have 16 bits.
- Url.RoundTrip: host names with characters other than letters, digits, '.' and '-', and IPvFuture literals, are refused by the code and are not among the printed hosts.
- Hdr.Size: logarithms are integer logarithms, and masks and shifts fit an int.
- Hdr.ValueAtPercentile: a percentile is a real number, and the rounding of doubles is not modelled; means, deviations and the linear, logarithmic and percentile iterators are floating point.
- Hdr.Histogram.RecordValues: values and counts are not negative, and counters do not overflow.
- LuaSyntax.MatchesMeans: in printed patterns '.', '(', ')', '[' and '%' stand for themselves only with '%' in front, and so does '%' within a set.
- LuaMatch.MatchState.Match: patterns are well-formed, and the depth limit is not modelled.
- Shuffle.ASMState.Rename: the rename instruction that ra_rename adds to the IR, the modified and weak register sets and the reloads from spill slots.
- Pacing.ScheduleSafety: throughput is a real number and only rounding down to microseconds is modelled; a response is one that was asked for.
- Pacing.Drive: the event loop is a list of events with their clock readings.
- Pacing.Connection.SocketWriteable: the debugging fields, timers and event registrations.
- Sort.Auxsort: comparators have no effects, and indices do not overflow an int.
