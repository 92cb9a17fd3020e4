# Verified models of the parser generator and of the server core

The repository holds a web server and, in its `src` directory, the LALR(1) parser
generator the server's configuration grammar is compiled with. This project models both
and proves what they are for.

**The parser generator and its driver** (`lemon.c`, `lempar.c`). From the nullable symbols
and FIRST sets over states, lookaheads, conflict resolution, default reductions and packed
tables to the stack machine that runs on the tables, the phases are methods with the loops of
the source. Their results are tied to derivations of the grammar. For every grammar the
generator accepts, what the generated parser accepts is a sentence and its value a parse
tree of it, whatever conflicts were resolved on the way. For a grammar without LALR(1)
conflicts the parser accepts exactly the sentences whose trees fit its stack, every run ends
within a bound computed from the word's length, and the lookaheads are the least LALR(1)
ones, so that the generator reports no conflict if and only if there is none (without
precedence declarations). With them, the tables hold what the declared precedences and
associativities say, and exactly the conflicts that these leave open are reported.

**The server core.** The condition cache of the configuration, the chunk queues and
the chunked coding written through them, the search for the end of the request header,
the sorted array behind headers and options, path simplification, the URL, base64 and
MD5 codings and the JSON reader, printer and minifier. Objects that the source updates in
place are classes; pointers into a heap are keys of a map field, so that two queues
can share a heap and steal from each other.

The modules follow the source files. `Wrappers`, `Texts`, `Parts`, `Machine` and `Buffers` hold
what several of them share. `Grammars` defines derivations and parse trees, the two reference
notions of everything about the parser generator. `JsonGrammar` says what the JSON reader makes
of a text; `JsonStandard` has the grammar of RFC 8259 as syntax trees, and proves that the
reader takes exactly that grammar widened at named points, and the printer writes that grammar
only.

## What the proofs found

- A rule may have up to 1000 symbols on its right-hand side, but the driver keeps its length
  in an `unsigned char`: from 256 symbols on a reduce leaves symbols on the stack
  (`LongRules`). The results about the driver carry `ShortRules`.
- `Parse` given the end marker on an empty stack returns at once, so a grammar that
  derives the empty word never accepts it (`Parsers.ParserAcceptsExactly`).
- `msort` has 30 bins and loses elements from 2^30 on (`MergeSort.Msort`).
- An array element that once got a generated number as its key keeps being numbered after
  `array_reset`: a key stored in it is lost (`SortedArray.KeyIsLost`).
- `http_chunk_append_file_range` with an empty range writes the size line `00`, which ends
  a chunked body early: a closed response is decoded if and only if no empty range was asked
  for (`HttpChunk.Response.Close`, `HttpChunk.EmptyRangeBreaks`).
- The loop guard of `li_MD5_Update` wraps for inputs of nearly 2^32 bytes and then reads a block
  behind the input (`Md5.Overrun`).
- A partial reset of the condition cache forgets all that looks at the changed attribute if and
  only if every decided condition that does so is reached from one that looks at it itself
  through decided conditions (`CondCache.Connection.ResetItem`). Checks in the order of the
  conditions, as the modules make them, see to that; an else branch that is checked too early
  can keep its result (`CondCache.OutOfTurnGoesStale`).
- `chunkqueue_push_unused_chunk` keeps up to five chunks, its comment says four. The table
  for URI encoding leaves `~` alone, its comment does not say so.
- The JSON parser takes more than RFC 8259: any control character as white space or inside a
  string, escapes of other letters, a zero before other digits, a sign without digits, and a
  last string that is not closed; and that is all (`JsonStandard.AcceptsExactly`, with
  `ReadSign`, `ReadUnclosed` and the inputs `LoneSign` and `UnclosedText`). It refuses escapes
  that are zero or half a surrogate pair (`JsonStandard.EscapeTaken`, `JsonStandard.ZeroUnit`).

## Model

| member | source | states |
|---|---|---|
| Sets.SetTable.SetAdd | src/lemon.c:3712-3720 | the element is in the set afterwards, no other set changes, and the result says whether it is new |
| Sets.SetTable.SetUnion | src/lemon.c:3723-3737 | the set becomes the union, no other set changes, and the result says whether it grew |
| Precedences.FindRulePrecedences | src/lemon.c:611-628 | a rule without a precedence symbol gets the first symbol of its right-hand side that has precedence, or none if there is none; nothing else changes |
| FirstSets.FindFirstSets | src/lemon.c:634-684 | a symbol is flagged if and only if it derives the empty word, and a terminal is in a FIRST set if and only if something derived from the symbol begins with it |
| States.Closure | src/lemon.c:1173-1210 | the item list is closed under prediction and every item, terminal and link in it has a reason: the closure is the least one |
| Automaton.Lemon.GetState | src/lemon.c:750-790 | the state with this basis is found or built once, with all that is reachable from it, and is linked back to where it was reached from; the states before it stay |
| Automaton.Lemon.BuildShifts | src/lemon.c:795-838 | the state gets one shift for every symbol behind a dot and no other, to the state whose basis is the advanced items |
| Automaton.Lemon.FindStates | src/lemon.c:691-744 | the whole LR(0) automaton: every state has exactly its shifts, no two states have one basis, every state is reachable |
| FollowSets.FindFollowSets | src/lemon.c:879-910 | the worklist loop ends, and with the least family of sets above the given ones that is closed under the links |
| Lookaheads.Follows | src/lemon.c:843-910 | the reversed links and the propagation together give the least follow sets of all configurations |
| Lalr.FollowsAreLalr | src/lemon.c:843-910 | these are the LALR(1) lookaheads, defined without links: the least family that holds the end marker for the start items, what can come behind a predicted symbol, and what is carried across shifts |
| MergeSort.Merge | src/lemon.c:1521-1557 | the loop over both lists gives their merge, which takes the second list first among equals |
| MergeSort.Msort | src/lemon.c:1573-1597 | the result is the stable sort of the list if and only if the list has fewer than 2^30 elements |
| MergeSort.StableSortUnique | src/lemon.c:1573-1597 | there is only one stable sort of a list |
| Actions.ActionSort | src/lemon.c:394-399 | an action list below that limit is sorted, and permuted |
| Actions.ShiftOrReduce | src/lemon.c:1000-1055 | of a shift of a token and a reduce by a rule the shift stays unless the rule has a precedence symbol, both symbols have precedence, and that of the rule's symbol is higher, or equal with the token left-associative; reported are exactly the pairs without precedences and the equal ones of a non-associative operator |
| Actions.ReduceOrReduce | src/lemon.c:1000-1055 | of two reduces the first stays unless both rules have precedence symbols with precedence and that of the second is higher; the pair is reported unless both have precedence and it differs |
| Actions.FindActions | src/lemon.c:916-985 | at most one action of the state lives on each symbol, an uncontested candidate always lives, the conflicts are resolved in favour of the champion, and a conflict is reported if and only if a candidate has a reported meeting with the champion before it; without precedence if and only if there is a conflict |
| Decisions.PrecedenceDecides | src/lemon.c:1000-1055 | for any number of candidates on a symbol, the driver's lookup finds the first of them or, of those preferred to it by the grammar's precedences and associativities, the earliest that no other is preferred to |
| Decisions.OperatorDecides | src/lemon.c:1000-1030 | an operator behind a rule's right-hand side, with no other candidate: the table reduces if the rule's precedence symbol binds tighter than the operator, or as tight and the operator is left-associative, and shifts otherwise |
| Decisions.RulesDecide | src/lemon.c:1030-1041 | two rules that could be reduced: the table has the second one if both precedence symbols have precedence and its own the higher, and otherwise the one that stands first in the grammar |
| Decisions.FirstRuleWins | src/lemon.c:378-391 | without precedence symbols the table has the shift, or else the rule that stands first in the grammar, however many there are |
| Decisions.WhenReported | src/lemon.c:1000-1055 | two candidates go unreported if and only if both have precedence and it, or a declared associativity, decides |
| Decisions.CandidatesExist | src/lemon.c:916-985 | every symbol with a candidate has such a sorted list of candidates |
| Compress.CompressState | src/lemon.c:3628-3675 | the reduce that occurs most often, if it does so twice, is replaced by one default; the other actions stay |
| Compress.CountMeans | src/lemon.c:3628-3675 | how often a reduce occurs is the number of its positions in the list |
| Compress.CompressionPreserves | src/lemon.c:3628-3675 | a symbol finds the same action as before, and a symbol without action finds the default or nothing |
| ActionTable.Acttab.Insert | src/lemon.c:508-583 | the pending set becomes a row of the table at the returned offset: lookups there find its actions and nothing for any other symbol, and so it stays for all rows inserted before |
| ActionTable.SameOffsetSameSet | src/lemon.c:508-583 | two sets have the same offset only if they are equal |
| Tables.ReportTable | src/lemon.c:3309-3374 | the printed tables answer every lookup of every state as its action list says |
| Tables.TablesPreserve | src/lemon.c:3309-3374 | compression and packing together lose no action: the lookup gives the action of each symbol that has one, and else the default reduce or an error |
| Decisions.Decision | src/lempar.c:372-392 | every lookup in the generated tables means a step of the automaton: a shift of it, a complete item of the state, the accept, or an error; an uncontested candidate is always found |
| Soundness.TurnChain | src/lempar.c:601-697 | in every turn, whatever the grammar, the stack stays a path of the automaton (or is emptied) |
| Soundness.ReducedOk | src/lempar.c:452-495 | a reduce finds its right-hand side on the stack and its goto in the table, and the value it pushes is a parse tree of its left-hand side |
| Soundness.AcceptedIsSentence | src/lempar.c:570-699 | after any number of turns the values on the stack are parse trees of the consumed tokens; what is accepted is a sentence followed by the end marker |
| LongRules.PopsRightHandSide | src/lempar.c:441 | a reduce pops exactly its right-hand side if and only if that has fewer than 256 symbols |
| LongRules.LongRuleFails | src/lempar.c:452-495 | for the grammar with one rule of 256 symbols no run accepts its only sentence |
| Completeness.SentenceRun | src/lempar.c:570-699 | without conflicts the run on a sentence ends by accepting with exactly the given tree if that fits the stack, and else with the overflow |
| Completeness.AcceptsExactly | src/lempar.c:570-699 | without conflicts some number of turns accepts with value v if and only if v is a parse tree of the word and fits the stack |
| Completeness.Unambiguous | src/lempar.c:570-699 | a grammar without conflicts has one parse tree for each sentence |
| Parsers.Parser.constructor | src/lempar.c:240-247 | a parser starts with an empty stack |
| Parsers.Parser.Shift | src/lempar.c:397-434 | the entry is on the stack, or a full stack has been emptied |
| Parsers.Parser.Reduce | src/lempar.c:452-495 | the array is updated as the reduce of the stack machine says, and stays a path of the automaton |
| Parsers.Parser.Parse | src/lempar.c:570-699 | the loop on one token ends in the configuration the stack machine reaches in the given number of turns |
| Parsers.Parser.ParseTokens | src/configfile.c:1047-1071 | the calls with one token after the other until one is not taken |
| Parsers.ParserAcceptsExactly | src/lempar.c:570-699 | token by token, without conflicts, the parser accepts with value v if and only if the word is not empty and v is a parse tree of it that fits the stack |
| Parsers.ParserIsSound | src/lempar.c:570-699 | token by token, whatever the conflicts, what is accepted is a non-empty sentence with its parse tree |
| Contexts.LookaheadLegit | src/lemon.c:843-910 | every LALR(1) lookahead can really follow its item, on some stack that is a path of the automaton |
| Consumption.Consumes | src/lempar.c:601-697 | a terminal that can really follow is taken: the run on it ends by shifting or accepting it, or with a full stack |
| Termination.TreesUnique | src/lempar.c:601-697 | two trees of a predicted symbol that yield the same tokens are the same |
| Termination.ReducedSingle | src/lempar.c:601-697 | so the trees of every symbol the parser reduces to, default reductions included, are told apart by what they yield |
| Termination.RunEnds | src/lempar.c:601-697 | without conflicts every run ends, on sentences and other words, within a number of turns computed from the stack depth and the length of the word |
| Termination.ParserEnds | src/lempar.c:570-699 | with that many turns the parser accepts a sentence with its tree or overflows when the tree does not fit, and ends on any other word in a syntax error or an overflow |
| Generator.Generate | src/lemon.c:1431-1459 | all phases in their order, from the grammar as read, give tables the results above hold for, with LALR(1) lookaheads; a conflict is reported if and only if some meeting of candidates is not settled by precedence, so that a conflict-free grammar is not reported, and without precedence no other one |
| Generator.OperatorGroups | src/lemon.c:611-628 | an operator declared left-associative groups to the left: behind a rule whose first symbol with precedence it is, the generated tables reduce, and for any other operator they shift |
| Generator.Recognize | src/lemon.c:1431-1459 | generator and parser together, for every grammar and word: what is accepted is a sentence with its tree; when no conflict is reported and no precedence declared, every non-empty word gets its right answer, given the turns of RunEnds |
| CondCache.Connection.CheckNoCache | src/configfile-glue.c:337-409 | in any order of checks the result is that of the reference evaluation, and the conditions asked on the way are remembered |
| CondCache.Connection.CheckCached | src/configfile-glue.c:597-627 | the cached evaluation agrees with the uncached one in any order of checks and remembers exactly what it asked; decided conditions go on resting on decided ones if and only if the check is in turn |
| CondCache.EvalMeans | src/configfile-glue.c:337-409 | the reference evaluation: a block is used if and only if its condition is known to hold, the block around it is used and the branch before it has failed; it is skipped if and only if the block around it is not used, or the branch before it is used or skipped |
| CondCache.ChainSkips | src/configfile-glue.c:363-387 | behind a branch that is used all later branches of its chain are skipped, and before one that is used or has failed all have failed |
| CondCache.FirstThatHolds | src/configfile-glue.c:363-387 | where the conditions of a chain are known, the branch that is used is the first one whose condition holds |
| CondCache.InTurnKeeps | src/configfile-glue.c:597-627 | decided conditions go on to rest on decided ones if and only if no condition is decided by its parent before the branch in front of it has been checked |
| CondCache.SettledInTurn | src/configfile.c:480-492 | checks in the order of the conditions are in turn |
| CondCache.OutOfTurnGoesStale | src/configfile-glue.c:631-649 | the concrete case: an else branch checked too early keeps its result when its outer condition comes to hold and the cache is told |
| CondCache.Connection.Patch | src/configfile.c:480-492 | a pass over all conditions in their order uses exactly those that are known to hold inside a block that is used and behind branches that failed: of an if/else chain at most one, with the branches before it failed and those behind it skipped |
| CondCache.ClearsAllUnder | src/configfile-glue.c:631-649 | everything that depends on the condition becomes unset and nothing else, although clearing stops at unset ones, as long as decided conditions rest on decided ones |
| CondCache.Connection.ResetItem | src/configfile-glue.c:656-669 | whatever the cache, exactly the conditions reached by clearing are forgotten; that is all that looks at the attribute, and nothing else, if and only if every decided condition that looks at it is reached, and then the cache is right again; after checks in turn it always is |
| CondCache.ResetForgets | src/configfile-glue.c:631-669 | a decided condition is forgotten if and only if it looks at the attribute itself or is descended to from a decided one that is forgotten |
| CondCache.ResetIsExact | src/configfile-glue.c:656-669 | the condition for an exact reset, for any cache |
| CondCache.SupportedReached | src/configfile-glue.c:631-669 | it holds for every attribute when decided conditions rest on decided ones |
| CondCache.Connection.ResetAll | src/configfile-glue.c:674-688 | everything is forgotten, attributes included |
| CondCache.EvalFrame | src/configfile-glue.c:337-409 | a result depends only on the attributes its condition looks at, through parents and earlier branches |
| CondCache.EvalMonotone | src/configfile-glue.c:337-409 | an attribute that becomes available changes no decided result |
| ChunkQueue.Queue.PushUnused | src/chunk.c:145-157 | a chunk goes to the spare list, which keeps at most five, or is freed |
| ChunkQueue.Queue.GetUnused | src/chunk.c:159-176 | the chunk given out is the first spare one, or a new one if there is none; it is reset and in no list |
| ChunkQueue.Queue.ResetQueue | src/chunk.c:201-215 | the queue and its counters are empty |
| ChunkQueue.Queue.AppendFile | src/chunk.c:238-253 | the range of the file is appended; an empty one adds no chunk |
| ChunkQueue.Queue.AppendBuffer | src/chunk.c:255-266 | the bytes of the buffer are appended and counted |
| ChunkQueue.Queue.PrependBuffer | src/chunk.c:268-279 | the bytes of the buffer come before all others and are counted |
| ChunkQueue.Queue.AppendMem | src/chunk.c:282-292 | the bytes are appended and counted |
| ChunkQueue.Queue.AppendQueue | src/chunk.c:295-309 | all bytes of the other queue move to the end of this one, and are counted on both sides |
| ChunkQueue.Queue.GetMemory | src/chunk.c:312-370 | the last chunk has room for at least the asked number of bytes, and the contents stay |
| ChunkQueue.Queue.UseMemory | src/chunk.c:372-388 | what was written there is part of the contents |
| ChunkQueue.Steal | src/chunk.c:410-454 | the first bytes of one queue, as many as asked for or there are, move in order to the end of the other; nothing is lost or doubled and both counters agree |
| ChunkQueue.Queue.AppendMemToTempfile | src/chunk.c:498-596 | the bytes are appended, through as many temporary files as it takes, however the writes are split |
| ChunkQueue.StealWithTempfiles | src/chunk.c:598-657 | the same movement as by Steal, with memory going into temporary files |
| ChunkQueue.Queue.Length | src/chunk.c:659-668 | the sum over the chunks is the number of bytes in the queue and the difference of the counters |
| ChunkQueue.Queue.MarkWritten | src/chunk.c:674-701 | exactly the first bytes leave the queue, chunk by chunk |
| ChunkQueue.Queue.RemoveFinished | src/chunk.c:703-714 | the contents stay, and the first chunk is not empty any more |
| HttpChunk.UintHex | src/buffer.c:239-259 | the hexadecimal digits of the number, two for each byte |
| HttpChunk.UintHexMeans | src/buffer.c:239-259 | these are lower-case digits, two for each byte and no byte more than needed, whose value is the number |
| HttpChunk.Response.AppendFileRange | src/http_chunk.c:64-82 | a range inside the file is appended to the body; a chunked coding is cut short if and only if an empty range is asked for |
| HttpChunk.Response.AppendFile | src/http_chunk.c:84-95 | the file is appended to the body, an empty one without cutting it short |
| HttpChunk.Response.AppendToTempfile | src/http_chunk.c:97-124 | the data with its framing goes into temporary files |
| HttpChunk.Response.AppendData | src/http_chunk.c:126-161 | the data is appended to the body, in memory or in temporary files, framed or not, and what was cut short stays so |
| HttpChunk.Response.SwitchToChunked | src/connections.c:485-498 | what is queued when the coding is switched on becomes its first chunk |
| HttpChunk.Response.MarkWritten | src/chunk.c:674-701 | what the network takes off the queue does not change what was sent and is queued together |
| HttpChunk.Response.Close | src/http_chunk.c:176-183 | after any run of these calls a chunked decoder finds exactly the body in the bytes sent and queued, and nothing if an empty range was asked for on the way |
| HttpChunk.EmptyRangeBreaks | src/http_chunk.c:64-82 | an empty range in a chunked response, and any data after it: what is sent up to the close is not decoded by a chunked decoder |
| HeaderScan.FindEnd | src/connections.c:845-890 | the first empty line is found wherever the chunks divide it, or there is none |
| HeaderScan.HeaderDecided | src/connections.c:845-890 | the end of a header is one place: a text with one is not without, and has no other |
| HeaderScan.EmptyLine | src/connections.c:845-890 | what is looked for is carriage return and line feed, twice |
| HeaderScan.ReadHeader | src/connections.c:845-919 | the request up to and with that line is taken off the queue, and nothing else; without one the queue stays |
| SortedArray.Array.GetIndex | src/array.c:91-121 | the binary search finds the element with the key, up to case, or the place where it belongs |
| SortedArray.Array.GetElement | src/array.c:123-133 | the one element the array maps the key to: the one whose key differs from it in the case of ASCII letters at most |
| SortedArray.CompareMeans | src/buffer.c:440-457 | two keys compare equal if and only if they are equal up to the case of ASCII letters, by character codes |
| SortedArray.RepeatedKey | src/data_string.c:38-51 | a key inserted twice, in any spelling, is found with both values, joined by a comma and a space |
| SortedArray.Array.ExtractElement | src/array.c:135-172 | that element is not mapped any more, every other one still is |
| SortedArray.Array.Reset | src/array.c:62-72 | nothing is mapped; the elements are kept, cleared, with their type and their mark for generated keys |
| SortedArray.Array.FindOrInsert | src/array.c:211-264 | an element with a new key is inserted and the array stays sorted; otherwise the slot of the key is returned and nothing changes |
| SortedArray.Array.Replace | src/array.c:267-276 | the key is mapped to the new element, all other keys to what they were |
| SortedArray.Array.InsertUnique | src/array.c:278-286 | a new key is mapped to the element; for an old one the value is appended to the element there |
| SortedArray.Array.SetKeyValue | src/array.c:193-208 | the array maps the key to the value if and only if no numbered element is reused, or its number equals the key; all other keys stay |
| SortedArray.KeyIsLost | src/array.c:193-208 | the concrete case: a numbered element, a reset, and then a pair whose key is not mapped after it has been set |
| PathSimplify.BufferPathSimplify | src/buffer.c:871-984 | the one pass over the path, in place as well, gives what resolving its segments one by one gives |
| PathSimplify.DotsGo | src/buffer.c:871-984 | whatever stands before and behind: `/./` and `//` become a slash, a component and the `..` behind it go together, `..` at the start goes, and at the end `/.` and `/..` leave their slash |
| PathSimplify.ComponentStays | src/buffer.c:871-984 | every other component stays in its place, and so does a slash at the end |
| PathSimplify.StartAndEnd | src/buffer.c:871-984 | a missing slash is put in front, leading spaces go, and so does all from a zero on |
| PathSimplify.SimplifiedIsClean | src/buffer.c:871-984 | the result begins with a slash and has no empty, `.` or `..` segment |
| PathSimplify.SimplifiedTwice | src/buffer.c:871-984 | simplifying again changes nothing |
| UrlCoding.Append | src/buffer.c:628-718 | the buffer ends in the encoded string, for each of the encodings; the counting pass has reserved the room |
| UrlCoding.Decode | src/buffer.c:813-861 | the pass in place gives the decoded string |
| UrlCoding.DecodeMeans | src/buffer.c:813-861 | each beginning of a text: an escape with digits in either case is its byte, or an underscore instead of a control character; a plus is a space in a query; all else stays up to a zero |
| UrlCoding.HexTable | src/buffer.c:368-378 | a character has a digit's value if and only if it is that digit in lower or upper case |
| UrlCoding.RoundTrip | src/buffer.c:813-861 | decoding what was encoded for a URI gives the string back, with control characters replaced |
| UrlCoding.UriIsSafe | src/buffer.c:493-624 | an encoded string has only characters that may stand in a URI |
| UrlCoding.ByteTables | src/buffer.c:493-624 | the six tables, by byte values |
| UrlCoding.ReadsBack | src/buffer.c:628-718 | the HTML, XML, hexadecimal and header encodings lose nothing: a reader of character references, of pairs of digits and of folded lines gets the string back |
| UrlCoding.MarkupIsSafe | src/buffer.c:628-718 | text encoded for HTML or XML has no markup characters, quotes or control characters, and an ampersand only where it begins a reference |
| UrlCoding.HeaderFolded | src/buffer.c:628-718 | in an encoded header value every line break is followed by a tab |
| Base64.ToBase64NoPadding | src/base64.c:124-183 | the letters of the bytes, nothing before or behind them written |
| Base64.ToBase64 | src/base64.c:185-214 | the same with its padding |
| Base64.Alphabet | src/base64.c:12-38 | the letters and pads of both alphabets in their order |
| Base64.SameBits | src/base64.c:124-183 | three bytes and their four digits are the same 24 bits, and a last byte or two are followed by zero bits |
| Base64.PaddedShape | src/base64.c:185-214 | the padded encoding comes in fours, with two pads behind one byte more than whole groups and one behind two |
| Base64.Decode | src/base64.c:40-122 | the bytes a text stands for, or none if it is not the canonical coding of any; the result array is never left |
| Base64.ReverseTable | src/base64.c:12-38 | a character is read as the digit it is the letter of; exactly white space and control characters are skipped |
| Base64.DecodingReads | src/base64.c:40-122 | skipped characters may stand anywhere, nothing counts behind a zero or behind the pads, and a pad behind whole groups is refused |
| Base64.RoundTrip | src/base64.c:40-122 | decoding either coding of b gives b |
| Md5.Context.constructor | src/md5.c:112-121 | a new context holds the empty message |
| Md5.Context.Update | src/md5.c:127-163 | the context holds the longer message, however it is cut into inputs |
| Md5.Context.Final | src/md5.c:168-191 | the digest of the padded message, and a context without a trace of it |
| Md5.PaddedShape | src/md5.c:168-191 | the padded message: the message, a one bit, as few zeros as fill the block, and the number of bits modulo 2^64, low byte first |
| Md5.FoldMeans | src/md5.c:112-163 | the blocks are transformed in their order from the four initial words |
| Md5.InitBytes | src/md5.c:112-121 | the initial words by their bytes, as RFC 1321 lists them |
| Md5.Encode | src/md5.c:288-298 | the words as bytes, low byte first |
| Md5.CountStep | src/md5.c:127-163 | the two words and the carry between them count bits modulo 2^64 |
| Md5.Hash | src/http_auth.c:522-528 | the digest of parts given one after the other is that of the whole message |
| Md5.Overrun | src/md5.c:127-163 | a block is read past the end of the input if and only if the loop guard wraps |
| Json.PrintString | src/cJSON.c:255-311 | the string in quotes with its escapes, in exactly the counted room |
| Json.PrintValue | src/cJSON.c:375-406 | the printed value |
| Json.PrintArray | src/cJSON.c:437-514 | the printed array, in no more than the counted room |
| Json.PrintObject | src/cJSON.c:553-661 | the printed object, in no more than the counted room |
| Json.PrintedArray | src/cJSON.c:437-514 | what stands between the elements, formatted and not |
| Json.PrintedObject | src/cJSON.c:553-661 | what stands around names, values and members, formatted and not |
| JsonParser.ParseNumber | src/cJSON.c:96-115 | agrees with the grammar on every text |
| JsonParser.ParseString | src/cJSON.c:193-252 | agrees with the grammar on every text, escapes and surrogate pairs included, in the room the scan reserved |
| JsonParser.ParseValue | src/cJSON.c:360-372 | agrees with the grammar on every text |
| JsonParser.ParseArray | src/cJSON.c:409-434 | agrees with the grammar on every text |
| JsonParser.ParseObject | src/cJSON.c:517-550 | agrees with the grammar on every text |
| JsonParser.Parse | src/cJSON.c:327-341 | agrees with the grammar on every text, with and without the demand that nothing follows |
| JsonGrammar.NoZero | src/cJSON.c:193-252 | the unescaped text holds no zero: it is never ended early |
| Texts.DigitTable | src/cJSON.c:178-190 | the hexadecimal digits of the standard in both cases, and nothing else |
| JsonStandard.Utf8Means | src/cJSON.c:193-252 | the bytes of a code point as RFC 3629 puts it together from them, in as few as it takes |
| JsonStandard.Accepts | src/cJSON.c:327-341 | every text of RFC 8259 with whole numbers up to 2^53 and whole code points is accepted with its meaning, defined without the parser's digits and letters, whatever its blanks and escapes; and so is every text of the wider grammar |
| JsonStandard.AcceptsExactly | src/cJSON.c:327-341 | a text is accepted with a value, and nothing behind it, if and only if the wider grammar gives it that meaning |
| JsonStandard.ReadUnclosed | src/cJSON.c:193-252 | a string that is read has no closing quote if and only if the scan for it ends with the text |
| JsonStandard.UnclosedText | src/cJSON.c:193-252 | the concrete case |
| JsonStandard.ReadSign | src/cJSON.c:96-115 | a sign is read alone, as zero, if and only if neither a digit nor a fraction follows |
| JsonStandard.LoneSign | src/cJSON.c:96-115 | the concrete case |
| JsonStandard.EscapeTaken | src/cJSON.c:193-252 | an escape of code units is taken if and only if it is one unit that is neither zero nor half a pair, or a whole surrogate pair |
| JsonStandard.ZeroUnit | src/cJSON.c:193-252 | the concrete case of a zero unit |
| JsonRoundTrip.PrintedIsStandard | src/cJSON.c:375-406 | what is printed is a text of RFC 8259, strictly, that means the printed value, formatted or not |
| JsonRoundTrip.RoundTrip | src/cJSON.c:327-341 | every printed value is read back, formatted or not |
| JsonRoundTrip.PrintedOnce | src/cJSON.c:375-406 | two values that print alike are the same |
| JsonMinify.Minify | src/cJSON.c:739-754 | the pass in place drops white space and comments outside strings and keeps the rest |
| JsonMinify.MinifyMeans | src/cJSON.c:739-754 | each beginning of a text: white space and comments of both kinds go, strings stay with all that is in them, and so does every other character |
| JsonMinify.MinifyPrinted | src/cJSON.c:739-754 | minifying a formatted value gives the unformatted one |

## Left out

- Decisions.Decision: the fallback tokens of yy_find_shift_action (YYFALLBACK, src/lempar.c:347-357) are not modelled; the tables are those of a grammar without `%fallback`.
- Parsers.Parser.Parse: the number of turns is a parameter, because a grammar whose conflicts were resolved can make the loop run forever; Termination bounds it for the others. Error recovery by an `error` symbol, destructors and the callbacks are not modelled: the first syntax error ends the parse.
- Parsers.Parser.Reduce: a semantic action is the building of a parse tree; what the actions of a particular grammar compute is a fold over it.
- Generator.Recognize: the verdict needs that no conflict was reported and no precedence is declared; with precedence soundness is stated here, and what the tables hold in Decisions.
- Generator.Generate: `Small` keeps the action lists below the 2^30 elements that msort can sort; the reports "this rule can not be reduced" and "start symbol on a right-hand side" and the C output other than the tables are not modelled.
- Tables.ReportTable: the row sets are packed by size as qsort orders them, with equal ones in one of the allowed orders.
- Automaton.Lemon.GetState: states are found by comparing basis sets, not through the hash table over sorted bases.
- The lexer of grammar files, the options, symbol indexing and the report file of the generator.
- CondCache.Connection.CheckNoCache: the comparison of an attribute with a string, address range or regular expression is a parameter; captured groups, repeated else chains and log lines are not modelled.
- ChunkQueue.StealWithTempfiles: the writes succeed, in any pieces; failing writes with the search for another directory, and chunkqueue_remove_empty_chunks, are not modelled. Files are values: descriptors, mappings and unlinking are reduced to flags.
- ChunkQueue.Steal: a third queue in the same heap is outside the contract.
- HttpChunk.Response.AppendData: the response head, which is prepended to the queue, and failing writes to temporary files are not modelled.
- HttpChunk.Response.AppendToTempfile: not called with empty data, as in the source, where its only caller has tested for that.
- HeaderScan.ReadHeader: what follows the scan (the limit on the header's size, the state changes) is not modelled.
- SortedArray.Array.InsertUnique: insert_dup is that of string elements; other element types have their own.
- Base64.Decode: the default branch for an unknown character set and the wrappers that append to a buffer.
- Md5.Context.Update: the block transformation is any function of state and block; `Fits` excludes the inputs for which `Md5.Overrun` shows that the source reads behind them.
- JsonParser.ParseNumber: fractions, exponents and numbers beyond 2^53 have the outcome `Outside`, because the source computes them in floating point.
- Json.PrintValue: numbers are integers; the variant that prints into one growing buffer and the allocation hooks are not modelled, and neither is failing allocation.
- JsonParser.Parse: the error position is not modelled; a parsed tree is a value, not linked nodes.
- JsonMinify.Minify: a text that ends inside a string or in an open comment (the outcome `Overrun`) is excluded, because the source then reads behind it.
- Event loops, connections and their states, TLS, the modules other than those above, logging and all input and output.
