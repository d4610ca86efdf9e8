# Verification of threason

threason parses JSON on several threads by speculation. The text is cut into chunks. For each chunk but the first a
worker parses ahead twice, once as if the chunk began inside a string and once as if it did not, and lists the arrays
and objects that are complete in it. The main thread parses from the beginning; where an array or object opens it
looks the position up, stores a handle to the worker's value instead of parsing it, and skips its text. The result is
a document of one byte segment for each chunk, read in place through tags, offset tables and handles.

This project models that in Dafny 4.11 and proves that the fast parse is the plain one:

- **The language.** `Spelling` (how values are written, in literal bytes, and what the writing means), `Lexing` and
  `Language` (the tokens and values that are read are exactly those that are written; printing and reading back).
  `Spelling` refers to neither scanner nor parser.
- **Layers.** `Vectors` (growable byte buffer), `Tokenizer`, `Trees`, `Grammar` (recursive values over tokens,
  sections 2 to 5 of RFC 8259 with the library's own tokens), `Pushdown` (the parser's states over a stack of frames),
  `Encoding` and `Layout` (what the bytes of segment and stack mean, and which of them a step may change), `Storing`
  (every value of a text has an encoding, in room that the text bounds), `Segments` and `Parsers` (the byte-level
  parser context), `Doubles` (the conversion of integers to `double`), `Documents` and `Readers` (reading, and the
  recursive meaning of a document), `Sequential` (the single-threaded parse).
- **Parallel parse.** `Preparse` (workers), `Lookup` (the forward-only iterator), `Parallel` (the main run against the
  sequential run), `Chunking`, `Existence` (workers' results and a main segment exist for every text), `Refusals`,
  `Acceptance` and `Firsts` (which texts one thread and several do not treat alike), `Threads` and `Multithreaded`
  (the imperative code), and `Schedule` (workers and main thread as interleaved steps).
- **Reading.** `SortedIndex` (the lazily sorted key index), `Nesting` and `SortedReads` (sorting the indices of nested
  objects, one after the other), `IndexedHandles` (a lookup that cannot be read), `Visitors` (the iterative visitor,
  against the calls of a whole visit written out).

Positions are counted from the start of the one text all threads share, so a slice is a position and a limit. A tree
has a constructor for handles; `Deref` follows them. What `strtod` computes is a parameter, `Input.strtod`.

`dafny verify dfyconfig.toml` checks everything.

## Where the code does less than it seems to promise

- **One thread and several threads do not accept the same texts.** `thsn_parser_add_value_handle` wants exactly the
  state VALUE and something to pop (lib/parser.h:50-55). A value found in a table is therefore rejected as the first
  element of an array and as the root. `Parallel.ParallelIsSequential` gives the exact condition for given chunks, and
  `Acceptance.AcceptanceFixed` turns it into a function of the text and the number of threads, `Acceptance.Refuses`.
  `Firsts.RefusesExactly` tells it from the sequential parse: a text is refused if and only if somewhere along that
  parse a composite comes as the root or as the first element of an array, and its chunk, entered as guessed by then,
  lists it. `Firsts.LateRootRefused` and `Firsts.LateElementRefused` give families of such texts, and
  `Firsts.TwoThreadsRefuse` one of 2048 bytes, the least length at which two threads are used. It cannot happen in a
  single chunk (`Refusals.SingleChunkAgrees`, `Refusals.SmallTextSingleChunk`), nor where behind the first chunk no
  composite is the root or the first element of an array (`Acceptance.EarlyFirstsAccepted`), which
  `Acceptance.ClearText` reduces to a look at the bytes before each bracket and brace.
- **A wrong guess is harmless.** A chunk's scenario is whatever the first token to reach it suggests, and need not be
  how the chunk really begins. All theorems hold for any guesses: they rest on the tokenizer having no state and on
  lookups at exact positions.
- **Looking a key up does not follow handles** (lib/document.c:296-301), so in a parallel document the value found may
  not be readable through the returned handle. `SortedReads.IndexedValue` says exactly when it is: when the byte there
  is not a handle's tag. `IndexedHandles.MemberIsHandle` and `IndexedHandles.LookupUnreadable` give a text of 2048
  bytes on which two threads make such a document. Lookups in documents of one thread and in values that workers
  parsed are never affected (`SortedReads.PlainIndexed`).
- **Not every integer comes out as it went in**: all numbers are read as `double`. `Doubles.FromIntegerChanges` gives
  the least positive one that changes, 9007199254740993, and `Doubles.FromIntegerExact` the exact condition: an
  integer comes out the same if and only if no more than 53 bits lie between its highest and its lowest bit that is
  set. What is stored is the integer itself (`Documents.AtomDecodes`); `Doubles.FromIntegerNearest` says which double
  is read, and `Visitors.CallsTellValue` with `Visitors.CallsOfConverted` that nothing else is lost.
- **Element numbers are taken modulo 2^61**, since the byte offset is computed in a `size_t` (lib/segment.h:440-442):
  element 2^61 is element 0. `Readers.IndexElement` says which element any number gives.
- **Whatever follows the first value is ignored, and an empty input is accepted**; the visitor then reports an error.
- **The end of input inside a composite is once taken for a value** (lib/parser.h:131-133), but the next token fails,
  so it is never accepted.

## Model

| member | source | states |
|---|---|---|
| Sequential.ParseDocument | lib/document.c:22-49 | For every text: succeeds exactly on the documents of the recursive grammar, stops where the grammar stops, and the document it makes encodes the grammar's tree, reads as it and decodes to it; an input of nothing but space gives an empty document |
| Multithreaded.ParseMultithreaded | lib/parser_threads.c:381-512 | For every text and thread count: succeeds exactly when the grammar accepts and along the sequential parse no composite that its chunk lists is the root or a first element, which is so if none comes first behind the first chunk; the document then decodes, with handles followed, to the tree of the sequential parse and stays so under key lookups, and the scan ends at the same place; zero threads are an error |
| Parallel.ParallelIsSequential | lib/parser_threads.c:315-379 | Whatever the chunks and guesses: the main run succeeds if and only if the sequential parse does and no table hit comes as first array element or as root, and then with the same tree and end |
| Parallel.Simulation | lib/parser_threads.c:330-369 | From any reachable point: the main parser with skips tracks the sequential parser up to following handles, in both directions |
| Schedule.AnyScheduleIsSequential | lib/parser_threads.c:381-512 | Over all interleavings of workers and main thread: the outcome is that of the sequential parse but for refusals, there is a main segment that encodes the main run's tree, and with every such segment the installed ones make up a document that decodes to the sequential tree |
| Schedule.EverySchedule | lib/parser_threads.c:381-512 | Every interleaving ends after boundedly many steps, is never stuck before, returns what the main run returns on finished workers, and frees or hands over each buffer exactly once |
| Visitors.Visit | lib/visitor.c:40-199 | On the document of a value, exactly the calls of a whole visit written out, but those of missing functions, those from behind the start of a skipped composite up to its end, and those behind one answered by aborting; on an empty document no call and an error |
| SortedReads.SortKeepsParallelDocument | lib/segment.h:388-433 | After any number of key lookups in any objects of a parallel document, in the main or in worker segments, the document can still be read from its root, decodes to the same value, and is ready for further lookups |
| Vectors.GrowSize | lib/vector.h:93-102 | A request that fits the address space is met, the new capacity is below twice the new contents, fits a size_t, and at least doubles the old one while there is room |
| Vectors.Vector.Allocate | lib/vector.h:67-75 | An empty byte stack of the given capacity |
| Vectors.Vector.Reallocated | lib/vector.h:103-103 | The larger block starts with the old contents |
| Vectors.Vector.Grow | lib/vector.h:89-113 | Fails exactly when the address space is exhausted and then changes nothing; keeps the contents below; capacity stays within twice the peak offset, and the bytes moved so far within the capacity while growth doubles |
| Vectors.Vector.Shrink | lib/vector.h:116-127 | Drops exactly the top bytes, or fails and changes nothing; never reallocates |
| Vectors.Vector.Push | lib/vector.h:152-159 | Appends the bytes |
| Vectors.Vector.Pop | lib/vector.h:161-168 | Takes off and returns the top bytes: contents below plus the result are the old contents |
| Vectors.Vector.Write | lib/vector.h:141-150 | Overwrites live bytes and nothing else |
| Bytes.LERoundTrip | lib/vector.h:17-41 | An unsigned value copied to bytes is read back unchanged |
| Bytes.SignedRoundTrip | lib/segment.h:84-112 | An integer within the range of its width class is read back unchanged |
| Bytes.Wrap64Digit | lib/parser.h:101-103 | A digit step on the wrapped value gives the wrapped exact value |
| Bytes.TableAtWritten | lib/segment.h:156-170 | A table of offsets is read back as it was written |
| Tokenizer.NextToken | lib/tokenizer.h:27-201 | A token lies between the start and the end of its scan; every token but end of input consumes something |
| Tokenizer.ScanToken | lib/tokenizer.h:27-201 | The scanning loops compute the specified token or error for every slice |
| Tokenizer.ScanString | lib/tokenizer.h:91-129 | Hopping between quotes and counting backslashes backwards finds the quote that the left-to-right escape automaton finds |
| Tokenizer.AdvanceAfterEndOfString | lib/parser_threads.c:177-207 | The second copy of that loop, likewise |
| Tokenizer.ScanToQuote | lib/tokenizer.h:109-115 | Up to the first quote, the automaton's state is the parity of the backslashes before it |
| Tokenizer.CountsAsEscaped | lib/tokenizer.h:109-115 | The backwards loop computes that parity |
| Tokenizer.FindQuote | lib/tokenizer.h:94-95 | The first quote, or the end |
| Tokenizer.ScanNumberToken | lib/tokenizer.h:130-197 | The flag-driven loop, which gives back one character, computes the one-pass scan |
| Tokenizer.ScanKeyword | lib/tokenizer.h:66-90 | A keyword token exactly when the whole word is there |
| Tokenizer.PrefixStability | lib/tokenizer.h:27-201 | A token of a truncated buffer that does not touch the cut is the token of every extension; end of input, unclosed strings and errors excepted |
| Tokenizer.CloseQuoteStable | lib/tokenizer.h:91-129 | A closing quote found before the cut stays |
| Tokenizer.ScanNumberStable | lib/tokenizer.h:145-189 | A number that ends before the cut stays |
| Tokenizer.SkipSpaceStable | lib/tokenizer.h:36-42 | A token that starts before the cut starts there in every extension |
| Tokenizer.TokenFromItsStart | lib/parser_threads.c:346-348 | The tokenizer keeps no state: scanning from an opening token's own position gives that token |
| Tokenizer.StringTokenEnd | lib/parser_threads.c:134-138 | The byte behind a string token is its closing quote, so one further is where scanning goes on |
| Tokenizer.IntTokenText | lib/tokenizer.h:140-196 | An integer token is an optional minus sign and at least one digit |
| Trees.AtollChecked | lib/parser.h:87-110 | The accumulating loop computes the decimal value of the token, modulo 2^64 |
| Lexing.MarkRead | lib/tokenizer.h:49-66 | Behind any space, a bracket, brace, comma or colon is the token of that byte |
| Lexing.WordRead | lib/tokenizer.h:67-90 | The words null, true and false, in literal bytes, are their tokens |
| Lexing.StringCloses | lib/tokenizer.h:91-129 | A string closes at the first quote that does not stand behind a backslash of its own |
| Lexing.CharsOf | lib/tokenizer.h:91-129 | What lies before the closing quote is bytes for themselves and pairs of a backslash and any byte |
| Lexing.StringRead | lib/tokenizer.h:91-129 | A quoted string is one token of exactly the characters between the quotes |
| Lexing.QuoteRead | lib/tokenizer.h:91-129 | A quote begins a string if one closes within the limit, and otherwise takes all that is left |
| Lexing.StartsBehindString | lib/parser_threads.c:177-207 | A worker that takes its chunk to begin inside a string starts right behind the closing quote, or at the limit if there is none |
| Lexing.NumberRead | lib/tokenizer.h:130-197 | An optional minus, digits, an optional dot with digits, an optional e with sign and digits, with nothing behind them that goes on, are one token of exactly that text, a float if and only if there is a dot or an exponent |
| Lexing.NumberRefused | lib/tokenizer.h:145-197 | A final sign, a second dot, a dot in the exponent and a second exponent are errors |
| Lexing.NumberFrom | lib/tokenizer.h:130-197 | Wherever a minus or a digit stands, the parts of a number lie up to where it stops or is garbled |
| Lexing.ErrorsTold | lib/tokenizer.h:27-201 | Behind the space, scanning fails exactly where nothing that can be written begins |
| Language.ValueRead | lib/parser.h:126-360 | Every value as written, with any space, is read as its meaning, up to its end |
| Language.ValueWritten | lib/parser.h:126-360 | Everything that is read as a value is written as one, up to where reading ends |
| Language.ReadAsWritten | lib/parser.h:126-360 | A value is read exactly where one is written, and as what the writing means; so no writing has two meanings |
| Language.DocumentAsWritten | lib/document.c:22-49 | A document is accepted exactly if it is nothing but space, or a value as written with anything behind it, and then as what the writing means |
| Language.IntegerMeans | lib/parser.h:87-110 | Sign and digits of an integer mean what their positions say |
| Language.PrintedIsRead | lib/document.c:22-49 | Printed and read back: every value of null, booleans, integers of 64 bits, quotable strings, arrays and objects is itself again |
| Grammar.Value | lib/parser.h:126-360 | The token-level grammar consumes something, stays within the limit, and yields trees without handles |
| Grammar.ValueStable | lib/parser_threads.c:209-275 | A composite that is complete within a chunk is the same composite in the whole text |
| Grammar.ElementsStable | lib/parser_threads.c:209-275 | Likewise for the elements up to the closing bracket |
| Grammar.MembersStable | lib/parser_threads.c:209-275 | Likewise for the members up to the closing brace |
| Pushdown.HandleToken | lib/parser.h:319-350 | Every state keeps the frames fit for the next state; end of input is never taken for anything but a value |
| Pushdown.Settle | lib/parser.h:351-358 | After a value, the parser goes on in a state that fits the frames below it |
| Pushdown.ValueRun | lib/parser.h:126-360 | In state VALUE on any stack, the machine fails where there is no value and otherwise delivers the grammar's value at its end |
| Pushdown.ArrayRun | lib/parser.h:214-231 | Behind an opening bracket, the machine does what the grammar says |
| Pushdown.ObjectRun | lib/parser.h:264-283 | Behind an opening brace, likewise |
| Pushdown.ElementsRun | lib/parser.h:233-250 | With elements already there, likewise |
| Pushdown.ElementDone | lib/parser.h:233-250 | After an element: close, comma or error, as the grammar says |
| Pushdown.MembersRun | lib/parser.h:252-295 | With members already there, likewise |
| Pushdown.MemberDone | lib/parser.h:297-311 | After a member: close, comma or error, as the grammar says |
| Pushdown.RunIsDocument | lib/document.c:32-38 | The parser finishes if and only if the tokens start with a value of the grammar or there are none; end of input inside a composite never leads to acceptance |
| Encoding.TagMake | lib/segment.h:40-50 | Type and size are read back from the tag |
| Encoding.StringAtReads | lib/segment.h:186-216 | A stored string, inline or by reference, is read back |
| Encoding.EncLocal | lib/segment.h:388-433 | A value's own bytes are all that its encoding depends on |
| Encoding.MemberKey | lib/segment.h:455-465 | A member's key is read back at the member's offset |
| Encoding.SecondTableEntry | lib/segment.h:165-170 | Every entry of the second table is the offset of a member |
| Encoding.OrderLocal | lib/segment.h:218-263 | Key order in the second table depends on the object's bytes only |
| Layout.StateRoundTrip | lib/parser.h:8-17 | A parser state popped off the stack is the state that was pushed |
| Layout.LaidLocal | lib/parser.h:163-212 | Writing outside the open composites leaves every completed element where and what it was |
| Layout.PlugLaid | lib/parser.h:351-358 | A finished value becomes the next element of the composite that waited for it |
| Layout.BeginElement | lib/parser.h:180-192 | The offset noted at a comma is where the next element starts |
| Layout.BeginMember | lib/parser.h:252-262 | The offset noted at a further key is where that key starts |
| Layout.OpenedArray | lib/parser.h:163-178 | A reserved header with nothing behind it is an open array |
| Layout.OpenedObject | lib/parser.h:264-283 | A reserved header and a key is an open object |
| Layout.ClosedHeader | lib/segment.h:171-182 | The patched header holds count and table offsets, and no other byte has changed |
| Layout.ClosedTables | lib/segment.h:156-170 | The tables hold the element offsets, for objects twice |
| Layout.CloseArray | lib/parser.h:194-212 | Closing makes the open array a complete value in place |
| Layout.CloseObject | lib/parser.h:297-307 | Closing makes the open object a complete value in place |
| Layout.IntStored | lib/segment.h:84-112 | Every integer is read back from its width class |
| Layout.StringStored | lib/segment.h:121-132 | Every string is stored so that it is read back |
| Layout.DoubleStored | lib/segment.h:77-82 | The eight bytes of a double are read back |
| Layout.PreservedClosed | lib/segment.h:151-184 | Closing a composite changes no byte but its own reserved header words, and leaves the composites around it open as they were |
| Layout.PreservedBegun | lib/parser.h:180-192 | A further element changes no byte, and every composite stays open with the elements it had |
| Layout.PreservedOn | lib/parser.h:313-360 | What every step keeps, whole runs keep |
| Layout.CompletedUntouched | lib/parser.h:163-212 | Whatever is stored later, every completed element of every open composite stays byte for byte |
| Layout.AtomFormat | lib/segment.h:63-132 | What is stored for each kind of token, in literal tags |
| Layout.LeastWidth | lib/segment.h:84-112 | An integer takes the least width that holds it |
| Layout.CompositeTags | lib/segment.h:134-149 | The literal tags of empty and other arrays and objects, and of handles |
| Layout.AtomStored | lib/parser.h:131-151 | What is stored for a token encodes the value of the token |
| Layout.HandleStored | lib/segment.h:114-119 | Segment number and 56-bit offset are read back |
| Layout.ValuePlugged | lib/parser.h:351-358 | What pops off the stack after a value is the state to return to, and the bytes that remain stand for the composite with the value in it |
| Segments.StoreTaggedValue | lib/segment.h:52-61 | Appends tag and value |
| Segments.StoreInt | lib/segment.h:84-112 | Appends the narrowest width class that holds the value |
| Segments.StoreString | lib/segment.h:121-132 | Inline up to 15 bytes, else by reference |
| Segments.StoreValueHandle | lib/segment.h:114-119 | Appends tag, segment number and offset |
| Segments.StoreCompositeHeader | lib/segment.h:134-149 | Reserves the header, writes the tag only |
| Segments.AppendTables | lib/segment.h:156-170 | Appends the table, for objects twice |
| Segments.StoreCompositeElementsTable | lib/segment.h:151-184 | Appends the table, for objects twice, and patches the header |
| Parsers.ParserContext.Init | lib/parser.h:25-32 | State VALUE, empty stack, empty segment |
| Parsers.ParserContext.ResetState | lib/parser.h:59-64 | Ready for the next value behind the last one |
| Parsers.ParserContext.StoreCompositeHeader | lib/parser.h:163-178 | Header reserved; its offset, the first element's offset and the count 1 are on the stack |
| Parsers.ParserContext.AddCompositeElement | lib/parser.h:180-192 | The count popped is the count pushed; the new offset goes below it |
| Parsers.ParserContext.StoreCompositeElementsTable | lib/parser.h:194-212 | The whole table and the header offset come off the stack as pushed, and the composite is closed in the segment |
| Parsers.ParserContext.StoreAtom | lib/parser.h:131-151 | Succeeds exactly when the token is a value by itself, and appends its bytes |
| Parsers.ParserContext.ParseValue | lib/parser.h:126-161 | The context shows the machine's effect of a value token |
| Parsers.ParserContext.ParseFirstArrayElement | lib/parser.h:214-231 | The context shows the machine's effect in this state |
| Parsers.ParserContext.ParseNextArrayElement | lib/parser.h:233-250 | The context shows the machine's effect in this state |
| Parsers.ParserContext.ParseFirstKv | lib/parser.h:264-283 | The context shows the machine's effect in this state |
| Parsers.ParserContext.ParseKvColon | lib/parser.h:285-295 | The context shows the machine's effect in this state |
| Parsers.ParserContext.ParseKvEnd | lib/parser.h:297-311 | The context shows the machine's effect in this state |
| Parsers.ParserContext.ParseNextKv | lib/parser.h:252-262 | The context shows the machine's effect in this state |
| Parsers.ParserContext.CloseComposite | lib/parser.h:238-243 | The innermost open composite becomes a complete value |
| Parsers.ParserContext.Dispatch | lib/parser.h:319-350 | The switch over states refines the machine |
| Parsers.ParserContext.PopState | lib/parser.h:54-57 | Fails on an empty stack only; otherwise the state is the one pushed with the waiting composite |
| Parsers.ParserContext.ParseNextToken | lib/parser.h:313-360 | One token: the bytes of stack and segment, the result and the completion flag are those of the machine's step; no old byte of the segment changes but header words reserved for open composites, and composites still open keep header and elements |
| Parsers.ParserContext.Complete | lib/parser.h:351-358 | Behind a complete value: the document is complete, or the state popped goes on with the value in the composite that waited |
| Parsers.ParserContext.AddValueHandle | lib/parser.h:47-57 | Succeeds if and only if the state is VALUE and the stack is not empty; then the waiting composite holds the handle, and old bytes and open composites are kept as in a step |
| Documents.EncDecodes | lib/document.c:155-250 | Reading an encoded value, however deep, gives its tree with handles followed |
| Documents.AtomDecodes | lib/segment.h:293-386 | Numbers of all widths are stored exactly, before the reader converts them; booleans, null and strings are read back |
| Documents.ArrayDecodes | lib/document.c:169-210 | Arrays are read back, elements in order |
| Documents.ObjectDecodes | lib/document.c:212-279 | Objects are read back, members in insertion order |
| Documents.TableReads | lib/segment.h:388-415 | The table read is the insertion-order table |
| Documents.FollowsTo | lib/document.c:64-81 | Handle following ends after at most one hop, at a value that is no handle |
| Documents.RootDecodes | lib/document.c:51-62 | The root of a document with linked handles is its tree |
| Documents.DecodesToOne | lib/document.c:51-62 | A document has one meaning |
| Sequential.Feed | lib/document.c:31-38 | The token loop ends on every input and computes the machine's run; segment and stack grow by a bounded amount for each token; over the whole run no old byte changes but reserved header words |
| Preparse.RegionsValid | lib/parser_threads.c:209-275 | Wherever a chunk was entered, every region found is what parsing the whole text from its start consumes, with the same value |
| Preparse.RegionsComplete | lib/parser_threads.c:223-262 | No region is left out: each starts at the first opening token behind the one before, and behind the last there is none or one where no value can be read |
| Preparse.RegionsApart | lib/parser_threads.c:223-262 | Regions come in order and do not overlap |
| Preparse.FindOpen | lib/parser_threads.c:228-235 | The next opening token, unless an error or the end comes first |
| Preparse.CompositeRun | lib/parser_threads.c:241-253 | Parsing a composite from a fresh state comes to the grammar's value |
| Preparse.PreparseValue | lib/parser_threads.c:236-261 | One composite: stored behind everything before it, or a failure exactly when the grammar finds none |
| Preparse.PreparseBuffer | lib/parser_threads.c:209-275 | The table lists exactly the regions found up to the first failure, each with the place of its value, one behind the other |
| Lookup.EntriesOk | lib/parser_threads.c:209-275 | Every entry of either guess, even of a misaligned start, is a region that the whole-text parse consumes exactly, with the value stored at its offset |
| Lookup.TableInOrder | lib/parser_threads.c:209-275 | Entries of a table are in order of position |
| Lookup.Advance | lib/parser_threads.c:85-132 | The guess for a chunk is fixed when it is first reached and never changed |
| Lookup.AdvanceOk | lib/parser_threads.c:85-132 | After advancing, the iterator stands in the chunk that contains the point |
| Lookup.PassedAll | lib/parser_threads.c:85-132 | Behind a chunk every entry of its table has been passed |
| Lookup.SearchOk | lib/parser_threads.c:155-172 | Stepping forward finds the entry at the point if the table has one |
| Lookup.FindIsLookup | lib/parser_threads.c:140-175 | Over increasing points, the forward-only iterator answers as a map lookup in the chosen table of the chunk that contains the point |
| Parallel.HitIsValue | lib/parser_threads.c:336-350 | A value found for a token is the grammar's value there and lies ahead within the text |
| Parallel.HitTracks | lib/parser_threads.c:356-368 | Where a handle is taken both runs go on with the value in place; elsewhere the sequential parser fails or the value is refused |
| Parallel.HandleDeref | lib/parser.h:319-350 | Handling a token does not look at values already parsed |
| Parallel.StepDeref | lib/parser.h:313-360 | A step commutes with following handles |
| Parallel.OpenFails | lib/parser.h:313-360 | Where no value is expected, an opening token is an error |
| Parallel.NoHandleMade | lib/parser_threads.c:352-359 | Tokens never make handles: the root is never one |
| Parallel.TiedLater | lib/parser_threads.c:112-124 | A handle stored under a settled guess stays valid whatever is settled later |
| Parallel.MainTied | lib/parser_threads.c:112-124 | Every handle of the finished document belongs to the table of the guess settled for its chunk, which was settled before the handle was stored |
| Parallel.TiedLinked | lib/parser_threads.c:449-474 | In the installed segments every handle leads to a complete value that holds no handle |
| Parallel.ParallelDecodes | lib/parser_threads.c:447-481 | Main segment and installed segments decode to the main run's tree with handles followed |
| Threads.ThreadContext.Run | lib/parser_threads.c:277-313 | Both results of a worker are those of its chunk, behind the string end and at the chunk's start |
| Threads.PreparseIterator.AdvanceToChar | lib/parser_threads.c:85-132 | Moves as specified, and writes the scenario of no chunk but the one reached |
| Threads.PreparseIterator.FindValueAt | lib/parser_threads.c:140-175 | Finds as specified |
| Threads.PreparseIterator.ConsultFor | lib/parser_threads.c:336-350 | Strings advance the iterator, opening tokens are looked up |
| Threads.TakeValue | lib/parser_threads.c:356-364 | The handle is stored and exactly the value's text is skipped |
| Threads.TakeFound | lib/parser_threads.c:352-364 | Where a value is found, the specified run takes the handle and skips as the thread does |
| Threads.MainRound | lib/parser_threads.c:330-369 | A round of the loop is a step of the specified run, consumes something or ends, and changes no old byte but reserved header words |
| Threads.MainThread | lib/parser_threads.c:315-379 | The main thread ends on every input and computes exactly the specified run, with the segment to match |
| Chunking.EffectiveThreads | lib/parser_threads.c:388-392 | The greatest number of threads, up to the one asked for, that leaves each at least 1024 bytes, and never less than one |
| Chunking.SizeOfChunk | lib/parser_threads.c:399-440 | Every chunk with a worker is a whole share of the text, and the first takes what is left |
| Chunking.ChunkPartition | lib/parser_threads.c:399-440 | Chunks tile the text, and every chunk with a worker is at least 1024 bytes long |
| Chunking.CutText | lib/parser_threads.c:399-440 | The loop cuts at exactly those places and never takes its early exit, so every worker waited for was started |
| Multithreaded.RunWorkers | lib/parser_threads.c:411-440 | One context for every chunk, holding both results of its worker |
| Multithreaded.RunMain | lib/parser_threads.c:441-446 | The main thread leaves all results alone |
| Multithreaded.Collect | lib/parser_threads.c:447-481 | The document holds the main segment and of every worker the segment of the settled guess |
| Refusals.RootRefused | lib/parser.h:47-57 | A root composite behind the first chunk and complete in its own is accepted by the sequential parse and rejected by the parallel one |
| Refusals.FirstElementRefused | lib/parser.h:50-51 | Every root array with only space before it that opens in the first chunk, and whose first element is a composite behind that chunk and complete in its own: the parallel parse rejects it whatever follows |
| Refusals.EquivalenceFails | lib/parser_threads.c:352-368 | 2046 blanks and an empty array: one thread accepts, two threads reject |
| Refusals.SingleChunkAgrees | lib/parser_threads.c:388-392 | With a single chunk both parses accept the same texts |
| Refusals.SmallTextSingleChunk | lib/parser_threads.c:388-392 | Every text below 2048 bytes is a single chunk |
| Acceptance.AcceptanceFixed | lib/parser_threads.c:315-379 | Whatever the workers' segments look like, whether a text is refused depends on the text and the number of threads alone; and then success, tree and end of the main run follow |
| Acceptance.RefusedAlike | lib/parser_threads.c:330-369 | Main runs over chunks that list the same regions meet the same refusals |
| Acceptance.WorkersAlike | lib/parser_threads.c:209-275 | Every worker lists exactly the regions that text and thread count determine, for both guesses |
| Acceptance.NoLateNoRefusal | lib/parser.h:47-57 | If along the sequential run no composite behind the first chunk is the root or a first element, no run over chunks meets a refusal |
| Acceptance.SkipGets | lib/parser_threads.c:352-368 | Where the main thread skips a value, the sequential parser goes through it to the same state |
| Acceptance.EarlyFirstsAccepted | lib/parser_threads.c:352-368 | Such a text is never refused: one thread and several accept alike |
| Acceptance.ClearText | lib/parser.h:50-51 | For which it is enough that behind the first chunk something other than an opening bracket comes before every opening bracket and brace |
| Acceptance.ValueGets | lib/parser.h:126-360 | In an open composite the machine runs through every value of the grammar to the state with the value in place |
| Firsts.RefusesExactly | lib/parser_threads.c:315-379 | For every text and thread count: the parallel parse refuses the text if and only if somewhere along the sequential parse a composite is the root or the first element of an array and its chunk, entered as guessed by then, lists it |
| Firsts.RefusedAtFirsts | lib/parser_threads.c:330-369 | From any point of the main run: its refusals are the listed first composites of the sequential run, skipped values included |
| Firsts.ReadingFollows | lib/parser_threads.c:336-350 | The iterator stands where the guesses along the sequential parse do, and finds a value exactly where one is listed |
| Firsts.NothingInside | lib/parser_threads.c:209-275 | Nothing inside a listed value is listed |
| Firsts.Through | lib/parser_threads.c:360-364 | Going through a listed value, the sequential parse settles no guess and meets no listed composite |
| Firsts.LateRootRefused | lib/parser.h:47-57 | For every text and thread count: a root composite behind the first chunk and complete in its own is accepted by one thread and refused by several |
| Firsts.LateElementRefused | lib/parser.h:50-51 | So is refused a root array that opens in the first chunk and whose first element is complete in a later one |
| Firsts.TwoThreadsRefuse | lib/parser_threads.c:352-368 | 2046 blanks and an empty array: one thread accepts, two threads refuse |
| Storing.Stores | lib/parser.h:126-360 | Behind any bytes, every value whose strings lie in the text and whose integers and handles fit has an encoding, in bounded room |
| Storing.ValueStorable | lib/parser.h:126-360 | Every value of the grammar is such a value, in room that its own text bounds |
| Storing.RefsStorable | lib/segment.h:114-119 | Handles take no more room than the values they stand for |
| Existence.ResultExists | lib/parser_threads.c:209-275 | For every stretch of a text there is a segment and a table with exactly its regions |
| Existence.ChunksExist | lib/parser_threads.c:381-440 | For every text and thread count there are chunks with both results of every worker |
| Existence.MainSegmentExists | lib/parser_threads.c:315-379 | Whatever tree the main run ends with, a segment encodes it |
| SortedIndex.CompareTransitive | lib/segment.h:218-263 | The key order is transitive, also strictly |
| SortedIndex.CompareEqual | lib/segment.h:218-263 | Keys compare equal only if they are the same string |
| SortedIndex.CompareLess | lib/segment.h:218-263 | A key comes first if and only if it is a proper prefix of the other, or has the lesser byte where they first differ |
| SortedIndex.OrderedAscends | lib/segment.h:388-433 | Through the ordered index of an object every key can be read, and none precedes one before it |
| SortedIndex.CompareReverse | lib/segment.h:218-263 | Swapping the keys negates the comparison |
| SortedIndex.SortKeys | lib/segment.h:265-271 | Sorting permutes the table |
| SortedIndex.SortKeysOrdered | lib/segment.h:265-271 | The sorted table is in key order |
| SortedIndex.SortedEnc | lib/segment.h:416-426 | With any ordered permutation as second table the object keeps members and insertion order |
| SortedIndex.SortTable | lib/segment.h:265-271 | In place: second table in order, tag updated, no other byte changed |
| SortedIndex.ReadObjectSorted | lib/segment.h:388-433 | The second table is a permutation of the first through which the keys read ascend byte by byte, prefixes first; a second sorted read changes no byte; insertion order stays |
| SortedIndex.RearrangedKeeps | lib/segment.h:416-426 | Any value around an object that was rearranged keeps its encoding |
| SortedIndex.SortedReadKeeps | lib/segment.h:416-426 | A sorted read anywhere in a segment leaves the value around it |
| SortedIndex.ObjectIndex | lib/segment.h:467-506 | Binary search finds a key if and only if some member has it, and returns the place of the value of such a member |
| SortedReads.SortKeepsDocument | lib/document.c:221-228 | Any sequence of lookups that sort on first use: the document goes on to hold the same objects at the same places, to be readable from its root, and to decode to the same value, if no object overlaps a value it is no part of |
| SortedReads.ReadKeepsDocument | lib/document.c:212-228 | One sorted read of an object anywhere in the document, sorting or not |
| SortedReads.SortableStays | lib/segment.h:416-426 | Sorting one object leaves all others where and what they are, inside or beside it |
| SortedReads.PlainSortable | lib/document.c:22-49 | Documents of the sequential parse are of this kind |
| SortedReads.ParallelSortable | lib/parser_threads.c:447-481 | So are all documents of the parallel parse |
| SortedReads.PlainIndexed | lib/document.c:281-303 | In a document of one thread, and for objects in worker segments, what a lookup returns can always be read |
| SortedReads.EntriesBeside | lib/parser_threads.c:236-261 | Values in a worker segment do not overlap, so an object inside one is beside all others |
| SortedReads.IndexedValue | lib/document.c:281-303 | The handle returned for a key can be read if and only if the byte it points at is not a handle's tag, which is if and only if the member's value is not a handle; it then reads as the member's value |
| Nesting.InsideEnc | lib/segment.h:388-433 | An object inside an encoded value is itself encoded where it is |
| Nesting.InsideLocal | lib/segment.h:388-433 | What is inside a value depends on the value's own bytes |
| Nesting.InsideKept | lib/segment.h:416-426 | Sorting an object leaves every object of the value around it inside that value, be it around, inside or beside the sorted one |
| IndexedHandles.MemberIsHandle | lib/parser_threads.c:352-364 | A text of 2048 bytes for which two threads make an object whose only member is a handle to the worker's segment |
| IndexedHandles.LookupUnreadable | lib/document.c:281-303 | The lookup of that member's key comes to a place whose type cannot be read, although an empty array is stored for it |
| Doubles.FromIntegerNearest | lib/segment.h:328-362 | No double is nearer to the integer than its conversion, and one that is as near is chosen only if its last bit is zero |
| Doubles.FromIntegerExact | lib/segment.h:328-362 | An integer is converted exactly if and only if from its highest bit set to its lowest it has at most 53 bits; those below 2^53 in magnitude do |
| Doubles.FromIntegerChanges | lib/segment.h:353-358 | 9007199254740993 is read as its predecessor |
| Doubles.FromInt64Finite | lib/segment.h:353-358 | Every int64_t has a finite conversion |
| Doubles.MagnitudeReal | lib/segment.h:353-358 | The bits stand for the rounded significand at its exponent, also where rounding carries |
| Readers.FollowHandle | lib/document.c:64-81 | The loop computes handle following wherever that ends |
| Readers.SettledNoRefs | lib/document.c:64-81 | What is read holds no handles |
| Readers.FollowSettles | lib/document.c:64-81 | Two reads are enough to come to the value itself |
| Readers.AtomReads | lib/document.c:83-153 | The type of every kind of value is the right one, and the one reader for the type gives the value; an integer is read as its conversion to double |
| Readers.ArrayOpens | lib/document.c:169-176 | The table of an array holds its elements in order |
| Readers.ObjectOpens | lib/document.c:212-219 | The table of an object holds its members in insertion order |
| Readers.ConsumeElement | lib/document.c:196-210 | The first element, handles followed, and the table of the rest; an error on an empty table |
| Readers.ConsumeMember | lib/document.c:266-279 | The first member's key and value, and the table of the rest; an error on an empty table |
| Readers.IndexElement | lib/document.c:182-194 | Element n, handles followed; an error exactly when n modulo 2^61 is out of range |
| Readers.IndexMember | lib/document.c:252-264 | Key and value of member n; an error exactly when n modulo 2^61 is out of range |
| Readers.ReadKv | lib/document.c:234-250 | Key, and value with handles followed |
| Visitors.VisitValue | lib/visitor.c:58-124 | One value: its call, or the start of a composite whose table goes on the stack unless it is skipped |
| Visitors.NextOf | lib/visitor.c:127-191 | The innermost composite ends with its own context, or gives its next child with the child's context |
| Visitors.NextValue | lib/visitor.c:126-192 | Up through finished composites to the next value |
| Visitors.TraversePlays | lib/visitor.c:10-40 | For any visitor, the traversal of a value makes the calls that playing the written-out calls makes: skipping, missing functions and aborting included |
| Visitors.SkippedOver | lib/visitor.c:94-97 | Inside a skipped composite a value makes no call, however deep |
| Visitors.PatientSeesAll | lib/visitor.c:40-199 | A visitor that never skips or aborts sees every value once and in order, between start and end of its composite |
| Visitors.CallsTellValue | lib/visitor.c:40-199 | The calls determine the value but for the conversion of integers to double |
| Visitors.CallsOfConverted | lib/visitor.c:75-81 | Of an integer nothing but its conversion is told |
| Visitors.ExactTold | lib/segment.h:328-362 | Values whose numbers are exactly converted integers are told apart |
| Visitors.AbortIsPrefix | lib/visitor.c:10-22 | An abort cuts the calls off right behind the first call answered by aborting; with no such answer the visit is the full one |
| Schedule.RoundSeen | lib/parser_threads.c:51-68 | Behind the flag it waits for, the main thread sees what it would see with all workers done |
| Schedule.PublishedStays | lib/parser_threads.c:277-313 | A flag that is set stays set, and the result behind it is the one the chunk determines and never changes |
| Schedule.StepKeeps | lib/parser_threads.c:441-511 | Every step of any thread keeps the invariant |
| Schedule.ReleasedOnce | lib/parser_threads.c:447-511 | In every state: no buffer is released twice, none before its worker has exited, none while the main thread may read a table |
| Schedule.CollectKeeps | lib/parser_threads.c:447-481 | Collecting keeps the invariant: of each worker so far one segment is handed over, the other and both tables are freed |
| Schedule.CleanUpKeeps | lib/parser_threads.c:484-511 | Cleaning up keeps the invariant: on the error path all four buffers of each worker so far are freed |
| Schedule.NeverStuck | lib/parser_threads.c:51-68 | Whenever the main thread waits, the worker it waits for can go on |
| Schedule.StepRanks | lib/parser_threads.c:51-68 | Every step comes closer to the end |

## Left out

- Trees.AtollChecked: integer tokens beyond 64 bits overflow a `long long`, which C leaves undefined; the model takes
  it to wrap around.
- Sequential.ParseDocument: texts are at most 2^48 bytes, so that segment offsets stay within the 56 bits of a handle
  and no buffer reaches PTRDIFF_MAX.
- Multithreaded.ParseMultithreaded: at most 255 effective threads, since chunk numbers and the document's segment
  count are one byte (lib/parser.h:75-76); the same bound on texts. The workers run to their end one after the other
  before the main thread starts; other orders are the subject of `Schedule`, whose workers' results are those of the
  same chunks.
- SortedIndex.SortKeys: `qsort` is insertion sort here. The theorems about documents hold for any ordered permutation.
- Schedule.EverySchedule: flags are atomic steps in one order, so release and acquire are not modelled as such; that
  the waits end assumes only that a thread that can take a step does so eventually.
- Visitors.Visit: the visitor's stack is a sequence of records rather than bytes in a growable buffer, and the
  document is a value, so a callback that sorts an object's index during the visit is not modelled. A callback's
  answer is a function of the calls so far.
- Schedule.AnyScheduleIsSequential: the main thread's own segment is no part of the schedule's state. The claim is
  that there is one, and that every segment that encodes the main run's tree will do; `Threads.MainThread` makes one.
- Refusals.FirstElementRefused: states the family with only space before the array and the array opening in the first
  chunk; `Firsts.RefusesExactly` covers every place.
- Doubles.FromInteger: the rounding mode is to nearest, ties to even, the default of IEEE 754.
- Preparse.PreparseBuffer: the table of regions is a sequence of entries rather than 24-byte records in a growable
  buffer.
- Readers.IndexElement: tables have fewer than 2^61 entries.
- The machine is little-endian with 64-bit `size_t` and pointers and four-byte enums, and a handle's bit-field takes
  up the seven bytes behind the segment number.
- Pointers into the text are positions in it, also in strings stored by reference; reading such a string checks the
  position, where the library dereferences the pointer.
- `strtod` and the bit patterns of doubles: a partial function of the token, after the length check of 128 bytes.
- Allocation failure, failure to create a thread (except in `Schedule`), null arguments and METRICS output: they only
  add early returns. With them goes the `failed` flag of a worker's result, which is never set otherwise.
- `thsn_document_free`, `thsn_parser_context_finish` and the freeing of parser stacks: ownership is proved for the
  buffers that threads hand to each other.
- Bytes above 127 are not space, as in the C locale; what `isspace` does with negative `char` values is not modelled.
- Conformance to the lexical rules of RFC 8259: the tokenizer accepts more (leading zeros, `1e`, further white space,
  escapes that are not checked). `Spelling.Proper` says exactly what is accepted.
- bin/formater.c, the benchmarks, the generator script and the test harness.
