# libunsod: verified models

Models, in Dafny, of the parts of libunsod and its applications that have their
own logic, with proofs of what they are meant to do:

- **cJSON** as used by iperf: parser, two printers, minifier, and edits of the
  node tree. `JsonTree` and `JsonParse` specify printing and parsing as functions
  on values; `JsonRoundTrip` relates them. `JsonString`, `JsonNumber`,
  `JsonCursor`, `JsonMinify`, `JsonRender`, `JsonPrintAlloc` and
  `JsonPrintBuffer` are the loops over arrays and cursors, proved against the
  specification; `JsonForm` spells the printed text out in characters;
  `JsonPrinters` puts the two printers and the minifier side by side. `JsonHeap`
  builds, edits, copies and deletes nodes in an explicit memory of cells in which a
  cell can only be freed while it is allocated; `JsonCells` says what such cells
  show and own, and `JsonChains` what an edit does to ownership.
- **The iperf session**: `ControlWire` is the byte stream with its frames,
  `Session` the two machines as a step system on messages, `SessionWire` the same
  machines on bytes, `Accounting` the byte counters and the pacing, `UdpLoss` the
  sequence numbers.
- **The timer queue** of iperf: `TimerQueue`.
- **libev backends**: `EventEpoll` against a small kernel model, `EventPoll`,
  `EventSelect`, and `EventBackends` for the two together; `EventMask` is the plain
  map they implement.
- **The splice of the transparent proxy**: `ProxySplice`.

`CString` holds bytes and C strings.

What the environment does is a parameter or a choice without a rule: allocations
may fail, reads and writes move any number of bytes, sockets fail, clocks advance,
strangers connect. Flags such as `plenty` and `reliable` say when allocations and
calls do not fail, so that results can be stated for that case outright. Numbers
are exact: C `int` arithmetic is written out where wrapping is part of the
statement (`UdpLoss`, the transfer counts of `ControlWire`, the generation counters
of `EventEpoll`) and unbounded elsewhere.

Where the code does less than it seems to promise, the model follows the code and
states exactly when the promise holds:

- `parse_string` accepts a literal without a closing quote
  (`JsonString.LiteralEnd`, `JsonString.UnclosedLiteral`).
- `print_object` with a buffer and formatting overwrites the variable that holds
  the start, so a non-empty object returns its depth; the outermost object has
  depth zero, where both agree (`JsonPrintBuffer.PrintBuffer.PrintItem`).
- `cJSON_Duplicate` keeps the constant-name flag but copies the name, which is then
  never freed: the copy owns all its cells if and only if no copied node has a
  constant name, and else one cell per such node is lost
  (`JsonHeap.Memory.Duplicate`, `JsonHeap.ConstantNameLeaks`).
- `add_usecs` leaves a negative microsecond part for some negative amounts; the
  order of the timer list is the order of the microseconds exactly for normalised
  times, and a negative delay can put a later timer at the head
  (`TimerQueue.AddUsecs`, `TimerQueue.OrderedIffNormal`,
  `TimerQueue.HeadNotEarliest`).
- A connection with another cookie ends the server if it is accepted while streams
  are created and the server was built with the congestion query, because that
  query is made on the socket that has just been closed (`Session.AbortIff`,
  `Session.StrangerEndsServer`).
- A negative number of streams is accepted and sticks
  (`Session.NegativeNeverCompletes`, `Session.NegativeStreamsStick`).
- The reverse option given twice makes both sides send (`Session.OneSenderIff`,
  `Session.ReversedTwice`).
- A document of 2^31 bytes or more is written whole and then reported as failed, and
  refused by the reader (`ControlWire.Socket.JsonWrite`,
  `ControlWire.Socket.JsonRead`).
- A limit in bytes or blocks ends a round of `iperf_send` but not the rounds that
  follow it in the same call (`Accounting.Test.Round`, `Accounting.LimitOverrun`).
- A burst without a rate stops every stream for good: the check after the burst
  compares with a rate of zero, and no timer gives the light back
  (`Accounting.Test.Send`, `Accounting.Test.Run`).
- The reported UDP loss counts duplicates as recovered packets
  (`UdpLoss.LossExact`, `UdpLoss.LossExactIff`, `UdpLoss.DuplicateHidesLoss`).
- The list of always-ready descriptors can hold one twice, although the comment at
  src/lib/libev/ev_epoll.c:124 says otherwise, and it is then fed twice
  (`EventEpoll.Loop.Modify`, `EventEpoll.ListedTwice`, `EventEpoll.FedAsListed`).

## Model

| member | source | states |
|---|---|---|
| `JsonRoundTrip.RoundTrip` | app/iperf/src/cjson.c:457-481 | for every tree of null, booleans, integers up to 2^53 in size, NUL-free strings, arrays and named objects, parsing the formatted or unformatted print gives back the tree and nothing is left over |
| `JsonRoundTrip.PrintInjective` | app/iperf/src/cjson.c:489-496 | two such trees that print alike, in either format, are equal |
| `JsonRoundTrip.ParsePrinted` | app/iperf/src/cjson.c:509-540 | the same inside any context: a printed value followed by any text parses to the value and stops where that text starts |
| `JsonRoundTrip.ParsePrintedItems` | app/iperf/src/cjson.c:606-636 | the printed items of an array, at any depth and in any context, parse back |
| `JsonRoundTrip.ParsePrintedMembers` | app/iperf/src/cjson.c:735-781 | the printed members of an object parse back, names and order included |
| `JsonRoundTrip.ParsePrintedInt` | app/iperf/src/cjson.c:109-136 | a printed integer parses to the same number |
| `JsonRoundTrip.AccumulatorStaysExact` | app/iperf/src/cjson.c:109-136 | no intermediate value of the digit loop exceeds the number printed, so an integer up to 2^53 stays exact in a double |
| `JsonRoundTrip.ParseQuoted` | app/iperf/src/cjson.c:241-352 | an escaped and quoted string parses to the string and stops behind its closing quote |
| `JsonForm.ArrayForm` | app/iperf/src/cjson.c:639-732 | an array prints as its items between brackets, joined by a comma, with a space behind it when formatted |
| `JsonForm.ObjectForm` | app/iperf/src/cjson.c:784-924 | an object prints as its members between braces, joined by a comma; formatted, each is on its own line behind as many tabs as its depth, the colon is followed by a tab, and the closing brace is indented by the depth outside |
| `JsonForm.StringForm` | app/iperf/src/cjson.c:355-434 | a string prints as the escapes of its bytes between quotes |
| `JsonForm.NameForm` | app/iperf/src/cjson.c:355-434 | a name prints as a string, a missing one as the empty string |
| `JsonForm.EscapeForms` | app/iperf/src/cjson.c:395-432 | the escape of every byte, spelled out: quote and backslash behind a backslash, five control bytes by a letter, the others by `\u00` and two lower-case digits, every other byte as it is |
| `JsonForm.DecimalForm` | app/iperf/src/cjson.c:186-209 | an integer prints as decimal digits that have its value, without a zero in front |
| `JsonForm.IntForm` | app/iperf/src/cjson.c:186-209 | a negative integer prints as a minus and the digits of its size |
| `JsonForm.WordForms` | app/iperf/src/cjson.c:543-603 | the three words |
| `JsonPrinters.PrintBoth` | app/iperf/src/cjson.c:489-505 | when allocations succeed the allocating and the growable-buffer printer give the same bytes, for every tree, format and first buffer size |
| `JsonPrintBuffer.PrintBuffered` | app/iperf/src/cjson.c:498-505 | the buffer holds the printed text and its terminator; with a non-negative first size nothing but a failed allocation makes it fail |
| `JsonPrintBuffer.PrintBuffer.Ensure` | app/iperf/src/cjson.c:155-175 | room for the bytes asked for and the text kept, whether or not the buffer moves; false exactly when there is no buffer |
| `JsonPrintBuffer.PrintBuffer.Update` | app/iperf/src/cjson.c:177-183 | moves the write position to the end of the C string in the buffer |
| `JsonPrintBuffer.PrintBuffer.PrintString` | app/iperf/src/cjson.c:355-434 | appends the escaped and quoted string |
| `JsonPrintBuffer.PrintBuffer.PrintItem` | app/iperf/src/cjson.c:543-603 | appends the printed value; a non-empty formatted object returns its depth as the start, every other value the right start |
| `JsonPrintBuffer.PrintBuffer.PrintArray` | app/iperf/src/cjson.c:639-685 | appends the printed array |
| `JsonPrintBuffer.PrintBuffer.PrintChain` | app/iperf/src/cjson.c:658-684 | appends the items with their separators; fails only without a buffer |
| `JsonPrintBuffer.PrintBuffer.PrintObject` | app/iperf/src/cjson.c:809-855 | appends the printed object at every depth |
| `JsonPrintBuffer.PrintBuffer.PrintMemberChain` | app/iperf/src/cjson.c:809-849 | appends the members with indentation and separators |
| `JsonPrintBuffer.PrintBuffer.PrintOneMember` | app/iperf/src/cjson.c:818-848 | appends one member: indentation, name, colon, value and line end |
| `JsonPrintBuffer.PrintBuffer.constructor` | app/iperf/src/cjson.c:498-505 | an empty buffer of the given size, or none |
| `JsonPrintBuffer.Pow2gtLeast` | app/iperf/src/cjson.c:138-147 | the new size is the least power of two that is not below the size asked for |
| `JsonPrintBuffer.ValueNulFree` | app/iperf/src/cjson.c:543-603 | printed text contains no NUL byte, so the end of the C string is the end of the text |
| `JsonPrintAlloc.PrintItem` | app/iperf/src/cjson.c:543-603 | returns the printed value; nothing but a failed allocation makes it fail |
| `JsonPrintAlloc.PrintArray` | app/iperf/src/cjson.c:685-732 | collects, measures and joins the items; every write falls inside the computed length |
| `JsonPrintAlloc.ComposeItems` | app/iperf/src/cjson.c:711-731 | the joined items fit the block of the computed length |
| `JsonPrintAlloc.ItemsRoomSuffices` | app/iperf/src/cjson.c:690-701 | the computed length covers brackets, separators and texts |
| `JsonPrintAlloc.PrintObject` | app/iperf/src/cjson.c:856-923 | collects, measures and joins the members; every write falls inside the computed length |
| `JsonPrintAlloc.ComposeMembers` | app/iperf/src/cjson.c:894-922 | the joined members fit the block of the computed length |
| `JsonPrintAlloc.MembersRoomSuffices` | app/iperf/src/cjson.c:868-881 | the computed length covers indentation, names, separators and values |
| `JsonPrintAlloc.PrintStringPtr` | app/iperf/src/cjson.c:355-434 | returns the escaped and quoted string; null for a missing name prints as two quotes |
| `JsonRender.EscapedLength` | app/iperf/src/cjson.c:384-389 | the counting loop returns the exact length of the escaped text |
| `JsonRender.WriteEscaped` | app/iperf/src/cjson.c:395-432 | the writing loop appends exactly the escaped text |
| `JsonRender.WriteString` | app/iperf/src/cjson.c:355-434 | writes quote, text, quote and terminator, with the short path when nothing needs escaping |
| `JsonRender.AnyEscape` | app/iperf/src/cjson.c:370-371 | the flag is set exactly when escaping would change the text |
| `JsonRender.IntFits` | app/iperf/src/cjson.c:186-209 | the text of an integer fits the block reserved for a number |
| `JsonMinify.MinifyPrint` | app/iperf/src/cjson.c:1245-1267 | minifying the formatted or unformatted print of any tree gives exactly the unformatted print |
| `JsonPrinters.MinifyText` | app/iperf/src/cjson.c:1245-1267 | an array that holds either print of any tree is turned in place into the unformatted print and its terminator; nothing behind the text changes |
| `JsonPrinters.PrintMinified` | app/iperf/src/cjson.c:489-505 | printing with formatting into the growable buffer and minifying gives the bytes that the allocating printer gives without formatting |
| `JsonMinify.MinifyInPlace` | app/iperf/src/cjson.c:1245-1267 | the in-place loops leave the minified text and its terminator, touch nothing behind the old terminator, and the write cursor never passes the read cursor |
| `JsonMinify.Round` | app/iperf/src/cjson.c:1248-1264 | one round keeps output written plus output still to come constant, with the write cursor at or before the read cursor and the unread text intact |
| `JsonMinify.CopyLiteral` | app/iperf/src/cjson.c:1256-1262 | a string literal is moved byte for byte |
| `JsonMinify.LiteralUntouched` | app/iperf/src/cjson.c:1256-1262 | a printed string literal is unchanged in any context |
| `JsonMinify.MinifyPrinted` | app/iperf/src/cjson.c:1245-1267 | a printed value in any context minifies to its unformatted print in that context |
| `JsonMinify.SpaceVanishes` | app/iperf/src/cjson.c:1249-1252 | the four white-space bytes vanish in any context |
| `JsonMinify.BecomesItself` | app/iperf/src/cjson.c:1264-1264 | every text without white space, slashes and quotes stays, in any context |
| `JsonMinify.LineVanishes` | app/iperf/src/cjson.c:1253-1253 | a double-slash comment vanishes to the end of its line, or of the text |
| `JsonMinify.CommentVanishes` | app/iperf/src/cjson.c:1254-1256 | a comment vanishes to its first star and slash; the opening star counts, so three bytes can be a whole comment |
| `JsonString.Decode` | app/iperf/src/cjson.c:241-352 | the second pass succeeds exactly when the literal is well formed, stays inside the block that the first pass sized, and returns the decoded text and the end of the literal |
| `JsonString.Scan` | app/iperf/src/cjson.c:253-263 | the first pass finds the end of the literal and the length to allocate |
| `JsonString.ScanAligned` | app/iperf/src/cjson.c:253-348 | scan and decode stay aligned over every character, and what is decoded is never longer than what was scanned |
| `JsonString.LiteralEnd` | app/iperf/src/cjson.c:253-351 | success ends just past the closing quote, or at the terminator if the literal has none |
| `JsonString.UnclosedLiteral` | app/iperf/src/cjson.c:253-351 | plain characters behind a quote are accepted with the same value whether or not a closing quote follows; `JsonString.LiteralEnd` says where each ends |
| `JsonString.DecodeUnicode` | app/iperf/src/cjson.c:290-319 | decodes one escape or surrogate pair, or rejects it; what an accepted escape spells is said by `JsonString.EscapeIsNamed` |
| `JsonString.WriteUtf8` | app/iperf/src/cjson.c:321-340 | writes the UTF-8 bytes of the code point, last byte first |
| `JsonString.Utf8RoundTrip` | app/iperf/src/cjson.c:321-340 | the bytes decode, by the rules of section 3 of RFC 3629, to the same code point, for every Unicode scalar value |
| `JsonString.EscapeNamesScalar` | app/iperf/src/cjson.c:290-319 | an accepted escape names a Unicode scalar value other than zero: zero and unpaired surrogates are rejected |
| `JsonString.EscapeDecodes` | app/iperf/src/cjson.c:290-341 | every spelling of a scalar value, each digit in either case, as one unit or as the surrogate pair of section 2.2 of RFC 2781, decodes to its UTF-8 bytes |
| `JsonString.Hex4Reads` | app/iperf/src/cjson.c:211-237 | four digits, each in either case, are read as the number they spell, and only such digits give a number other than zero |
| `JsonString.HexTable` | app/iperf/src/cjson.c:211-237 | the 22 hexadecimal digits and their values, by two tables; no other byte is a digit |
| `JsonString.EscapeIsNamed` | app/iperf/src/cjson.c:290-319 | an accepted escape spells the code point it is decoded to |
| `JsonString.LetterDecodes` | app/iperf/src/cjson.c:272-287 | an escape of one letter: five give control characters, every other stands for itself |
| `JsonParse.Combine` | app/iperf/src/cjson.c:303-319 | a surrogate pair gives the code point from 0x10000 to 0x10ffff whose pair it is by section 2.2 of RFC 2781 |
| `JsonParse.ParseString` | app/iperf/src/cjson.c:241-352 | success consumes at least one byte and leaves a suffix of the input |
| `JsonParse.ParseNumber` | app/iperf/src/cjson.c:109-136 | a number consumes at least one byte and leaves a suffix of the input |
| `JsonParse.ParseValue` | app/iperf/src/cjson.c:509-540 | a parse terminates, and success consumes at least one byte |
| `JsonParse.ParseItems` | app/iperf/src/cjson.c:606-636 | items are consumed with strict progress |
| `JsonParse.ParseMembers` | app/iperf/src/cjson.c:735-781 | members are consumed with strict progress |
| `JsonNumber.ParseNumberAt` | app/iperf/src/cjson.c:109-136 | the loops over sign, integer, fraction and exponent compute the number of the specification and stop at the same byte |
| `JsonNumber.NumberReads` | app/iperf/src/cjson.c:109-136 | sign, digits, digits behind a point and an exponent, with either letter and any sign, are read as the decimal value that they write, and the parse stops behind them |
| `JsonNumber.ScaledMeans` | app/iperf/src/cjson.c:131-131 | scaling by a power of ten, also below zero, stated without division |
| `JsonNumber.DigitsRead` | app/iperf/src/cjson.c:116-128 | the digit loop computes the value of the digits behind what was read before |
| `JsonNumber.SecondZeroEnds` | app/iperf/src/cjson.c:115-117 | one zero may stand in front of other digits; a second zero ends the number |
| `JsonCursor.SkipAt` | app/iperf/src/cjson.c:450-454 | the cursor passes over bytes from 1 to 32 only and stops at the first byte above 32 or at the terminator |
| `JsonHeap.Memory.ParseWithOpts` | app/iperf/src/cjson.c:457-481 | on failure the memory is exactly what it was: all that was allocated has been freed once; on success the new cells are owned by the tree, every other cell is unchanged, and the tree shows the parsed value and end |
| `JsonHeap.Memory.ParseValueAt` | app/iperf/src/cjson.c:509-540 | builds the value in new cells and tells success or failure as the specification does, unless an allocation failed |
| `JsonHeap.Memory.ParseStringAt` | app/iperf/src/cjson.c:241-352 | stores the decoded string in a new cell, or fails as the specification does |
| `JsonHeap.Memory.ParseArrayAt` | app/iperf/src/cjson.c:606-620 | the first item of an array in a new child |
| `JsonHeap.Memory.ParseItemsAt` | app/iperf/src/cjson.c:622-636 | further items, each linked behind the last |
| `JsonHeap.Memory.ParseObjectAt` | app/iperf/src/cjson.c:735-760 | the first member of an object in a new child |
| `JsonHeap.Memory.ParseMemberAt` | app/iperf/src/cjson.c:747-758 | a member: the string moves from the value to the name |
| `JsonHeap.Memory.ParseMembersAt` | app/iperf/src/cjson.c:761-781 | further members, each linked behind the last |
| `JsonHeap.Memory.Delete` | app/iperf/src/cjson.c:95-106 | frees exactly the cells that the chain owns; only allocated cells can be freed, so each is freed once |
| `JsonHeap.Memory.FreeNode` | app/iperf/src/cjson.c:95-106 | frees one node with its children and strings, but not what a reference or a constant name points to |
| `JsonHeap.Memory.CreateReference` | app/iperf/src/cjson.c:957-966 | a new node that shows the same value and owns nothing but itself |
| `JsonHeap.Memory.AddReferenceAndDelete` | app/iperf/src/cjson.c:957-998 | an array that is given a reference to a value outside it and is then deleted frees exactly its own cells, and the value is still shown |
| `JsonCells.DeleteSpares` | app/iperf/src/cjson.c:95-106 | deleting any chain leaves every value that is shown by cells it does not own, so what a reference in a deleted tree points to stays intact |
| `JsonHeap.Memory.AddItemToArray` | app/iperf/src/cjson.c:969-979 | appends to the children, with next and prev mutually inverse, changing only the links involved; an array that owned its children then owns them followed by the item |
| `JsonHeap.Memory.InsertItemInArray` | app/iperf/src/cjson.c:1033-1046 | inserts at the clamped position, changing only the links involved; the array then owns the item there |
| `JsonHeap.Memory.DetachItemFromArray` | app/iperf/src/cjson.c:1004-1014 | removes the child at the position and leaves it unlinked; the array owns the others and the child owns itself; nothing changes past the end |
| `JsonHeap.Memory.ReplaceItemInArray` | app/iperf/src/cjson.c:1047-1059 | the new item takes the place of the old one, whose cells are freed; nothing else but links changes, and the array owns the new item there |
| `JsonChains.InsertedOwns` | app/iperf/src/cjson.c:1033-1046 | linking an item in anywhere keeps every sibling's strings and children and adds the item's |
| `JsonChains.DetachedOwns` | app/iperf/src/cjson.c:1004-1014 | taking a child out splits the owned chain in two, both owned |
| `JsonChains.ExchangedOwns` | app/iperf/src/cjson.c:1047-1059 | exchanging a child exchanges exactly its link of the owned chain |
| `JsonChains.PutFoot` | app/iperf/src/cjson.c:1033-1046 | the cells of the longer chain are those of the chain and of the item, and still distinct |
| `JsonChains.DropFoot` | app/iperf/src/cjson.c:1004-1014 | the cells of a chain are divided between what is left and what was taken out |
| `JsonHeap.Memory.Duplicate` | app/iperf/src/cjson.c:1199-1243 | a recursive copy lies in new cells only and shows the same value and name; it owns all of them if and only if no copied node has a constant name, else all but one per such node; after a failed allocation at most that many cells stay, none if there is no such node |
| `JsonHeap.Memory.DuplicateRest` | app/iperf/src/cjson.c:1223-1242 | copies the siblings one by one behind the first copy, with the same count of cells lost |
| `JsonHeap.Memory.CopyNode` | app/iperf/src/cjson.c:1199-1222 | copies one node with its strings and its constant-name flag; the copy of a constant name is not owned |
| `JsonHeap.ConstantNameLeaks` | app/iperf/src/cjson.c:1199-1222 | a node with a constant name, copied and deleted, leaves three cells where there were two |
| `JsonCells.FrameOwns` | app/iperf/src/cjson.c:95-106 | ownership depends only on the owned cells |
| `JsonCells.FrameLooks` | app/iperf/src/cjson.c:509-540 | the value shown depends only on the cells it is read from |
| `TimerQueue.Queue.Run` | app/iperf/src/timer.c:189-214 | terminates for positive periods; fires only timers due when fired; a timer fires if and only if it was due on entry; a due one-shot fires exactly once and ends on the free list; a periodic one ends at its first expiry plus one period per firing; normalised expiries stay normalised, and nothing fires when nothing is due |
| `TimerQueue.Queue.FirePeriodic` | app/iperf/src/timer.c:197-213 | one round with a periodic timer keeps the invariant of the walk although the timer moves in the list |
| `TimerQueue.Queue.FireOnce` | app/iperf/src/timer.c:197-213 | one round with a one-shot keeps the invariant of the walk |
| `TimerQueue.Queue.MoveOn` | app/iperf/src/timer.c:206-210 | the moved timer is one period later, the saved next timer is where the walk goes on, and the total lateness shrinks |
| `TimerQueue.Queue.Retire` | app/iperf/src/timer.c:211-212 | the one-shot goes to the free list and the total lateness shrinks |
| `TimerQueue.Queue.WalkEnds` | app/iperf/src/timer.c:197-213 | when no due timer is left behind the walk, every timer due on entry has fired |
| `TimerQueue.RestNotDue` | app/iperf/src/timer.c:199-205 | from the first timer that is not due on, none is |
| `TimerQueue.Queue.Timeout` | app/iperf/src/timer.c:169-186 | none exactly for an empty list; else the normalised wait for the head, which for normalised expiries is the least remaining time over all timers, before whose end no timer is due |
| `TimerQueue.Queue.WaitAfter` | app/iperf/src/timer.c:137-238 | after any sequence of create, reset, cancel and run with delays that are not negative, `tmr_timeout` gives exactly the least remaining time over all timers |
| `TimerQueue.Queue.Call` | app/iperf/src/timer.c:137-238 | every such call keeps the queue valid and its expiries normalised |
| `TimerQueue.Queue.Create` | app/iperf/src/timer.c:137-166 | takes a free timer or a new one, and fails only with an empty free list and a failed allocation; the timer expires at now plus the delay and stands behind all that expire no later |
| `TimerQueue.Queue.Take` | app/iperf/src/timer.c:145-152 | the first free timer, else a new one unless the allocation fails |
| `TimerQueue.Queue.Reset` | app/iperf/src/timer.c:217-226 | the timer expires at now plus its period and moves to its place |
| `TimerQueue.Queue.Cancel` | app/iperf/src/timer.c:229-238 | from the active list to the front of the free list; each timer stays on exactly one list |
| `TimerQueue.Queue.ListAdd` | app/iperf/src/timer.c:60-100 | inserts behind every timer that expires no later (ties keep arrival order); links stay mutually inverse and the list sorted |
| `TimerQueue.Queue.InsertionPoint` | app/iperf/src/timer.c:78-98 | the walk finds that place |
| `TimerQueue.Queue.LinkBetween` | app/iperf/src/timer.c:66-98 | the pointer assignments link the timer between its neighbours |
| `TimerQueue.Queue.ListRemove` | app/iperf/src/timer.c:103-112 | unlinks the timer; links stay mutually inverse |
| `TimerQueue.Queue.ListResort` | app/iperf/src/timer.c:115-122 | moves one timer to its sorted place |
| `TimerQueue.Queue.constructor` | app/iperf/src/timer.c:36-38 | two empty lists |
| `TimerQueue.AddUsecs` | app/iperf/src/timer.c:125-134 | adds exactly the microseconds; the result is normalised if and only if the C remainder does not take the microsecond part below zero |
| `TimerQueue.WaitFor` | app/iperf/src/timer.c:177-184 | the normalised difference, zero once past |
| `TimerQueue.BeforeMicros` | app/iperf/src/timer.c:69-71 | the comparison of the code orders normalised times as their microsecond counts do |
| `TimerQueue.DueMicros` | app/iperf/src/timer.c:201-205 | a normalised expiry is due exactly from its microsecond on |
| `TimerQueue.OrderedIffNormal` | app/iperf/src/timer.c:69-71 | a time that `add_usecs` can leave is ordered by the list code as by its microseconds if and only if it is normalised |
| `TimerQueue.NegativeDelay` | app/iperf/src/timer.c:125-134 | 1.9 seconds before 6 seconds is left as 5 seconds and minus 900000 microseconds |
| `TimerQueue.HeadNotEarliest` | app/iperf/src/timer.c:60-186 | a negative delay makes `tmr_timeout` answer half a second where one microsecond is left |
| `Session.EveryRun` | app/iperf/src/iperf_server_api.c:479-647 | in every run of client, server and strangers: server states are a prefix of 9,10,1,2,13,14 and client states of 4,16, no side meets an unknown message, both hold the wanted streams at TEST_START, the server ends in error exactly as `Session.AbortIff` says and the client only with it, and no other state is stuck before completion unless the number of streams is negative |
| `Session.Reachable` | app/iperf/src/iperf_client_api.c:451-528 | the session invariant holds in every reachable state |
| `Session.StepKeeps` | app/iperf/src/iperf_server_api.c:183-252 | every step keeps the invariant that both sides follow the two message scripts |
| `Session.ClientReadKeeps` | app/iperf/src/iperf_client_api.c:222-308 | reading and handling a message keeps the invariant |
| `Session.ServerReadKeeps` | app/iperf/src/iperf_server_api.c:133-252 | the same for the server, in accept, in the loop and in the exchange of results |
| `Session.ServerAcceptKeeps` | app/iperf/src/iperf_server_api.c:505-620 | accepting or denying a connection, failing on the congestion query, and starting the test when all are there, keep the invariant |
| `Session.ControlSequence` | app/iperf/src/iperf_api.c:1058-1067 | the states sent are prefixes of 9,10,1,2,13,14 and of 4,16, and neither side fails |
| `Session.KindsAgree` | app/iperf/src/iperf_api.c:1279-1298 | each reader asks for exactly the kind of message that comes next, so it stays on the frame boundaries |
| `SessionWire.WireRunsAlike` | app/iperf/src/iperf_api.c:1673-1735 | in every run the machines that see only bytes make exactly the moves of the machines on messages, and the bytes written and not yet read are the frames of the messages sent and not yet read: each reader stays on the frame boundaries for the whole session |
| `SessionWire.WireStep` | app/iperf/src/iperf_api.c:1673-1735 | a step is possible on bytes exactly when it is on messages, and does the same |
| `SessionWire.ParamsSendable` | app/iperf/src/iperf_api.c:1302-1372 | the parameters can be framed for every number of streams that an `int` holds |
| `SessionWire.SessionSendable` | app/iperf/src/iperf_api.c:1673-1735 | so can every message of a session, given a cookie of the right size and results below 2^31 bytes |
| `Session.ParamsArrive` | app/iperf/src/iperf_api.c:1302-1420 | the number of streams and the direction arrive in the parameters as they were sent |
| `SessionWire.ParamsText` | app/iperf/src/iperf_api.c:1302-1372 | the text of the document that announces a test, spelled out: the protocol, the number of streams in decimal, and the reverse member exactly when reversed |
| `Session.LookupFirst` | app/iperf/src/cjson.c:939-944 | a lookup finds the first member with the name, and nothing exactly when there is none |
| `Session.SameName` | app/iperf/src/cjson.c:52-58 | two names are the same exactly when they differ at most in the case of letters |
| `Session.ValueIntMeans` | app/iperf/src/cjson.c:519-523 | the integer of a value: numbers are truncated toward zero, true is one, anything else zero |
| `Session.ParamsAbsent` | app/iperf/src/iperf_api.c:1413-1416 | without its member the number of streams stays one, and the direction is reversed exactly when its member is there |
| `Session.StreamsAgree` | app/iperf/src/iperf_server_api.c:576-616 | once TEST_START is sent both sides hold the wanted number of streams and no connection of the client is left over |
| `Session.StrangersNotCounted` | app/iperf/src/iperf_server_api.c:523-567 | a connection with another cookie is never counted: it is dropped and changes nothing else, or ends the server when streams are being created and the congestion query is compiled in |
| `Session.AbortIff` | app/iperf/src/iperf_server_api.c:523-547 | the server of a run ends in error if and only if it was built with the congestion query and accepted a connection with another cookie while creating streams |
| `Session.StrangerEndsServer` | app/iperf/src/iperf_server_api.c:523-547 | a concrete run in which one stranger ends the server |
| `Session.NoDeadlock` | app/iperf/src/iperf_server_api.c:479-647 | every reachable state with a non-negative number of streams that is neither completed nor ended in error has a step |
| `Session.NegativeNeverCompletes` | app/iperf/src/iperf_api.c:800-805 | with a negative number of streams, which the option accepts, no run completes |
| `Session.NegativeStreamsStick` | app/iperf/src/iperf_client_api.c:60-106 | a concrete run with minus one stream that gets stuck |
| `Session.StepsAreBounded` | app/iperf/src/iperf_client_api.c:451-528 | every step of the session lowers a rank, so runs without strangers are finite |
| `Session.OneSenderIff` | app/iperf/src/iperf_api.c:380-412 | exactly one side sends if and only if the reverse option after the last role option was not repeated to no effect |
| `Session.ReversedTwice` | app/iperf/src/iperf_api.c:380-412 | `-c -R -R` leaves the client sender and tells the server to send as well |
| `ControlWire.ReadAll` | app/iperf/src/iperf_api.c:1699-1735 | a reader that asks for the kinds in order gets the writer's messages, values and order, however the bytes are split into reads |
| `ControlWire.Exchange` | app/iperf/src/iperf_api.c:1673-1735 | any sequence of states, documents and cookies written on one side arrives on the other as it was sent, however writes and reads are split |
| `ControlWire.TakeFrame` | app/iperf/src/iperf_api.c:1699-1735 | taking the kind that was written off any stream gives exactly the message and leaves what follows |
| `ControlWire.FrameLength` | app/iperf/src/iperf_api.c:1673-1695 | a state takes one byte, a cookie 37, a document four and its text |
| `ControlWire.ReadMsg` | app/iperf/src/iperf_api.c:1699-1735 | takes exactly one message off the stream, and refuses a document or state that is not there |
| `ControlWire.WriteMsg` | app/iperf/src/iperf_api.c:1673-1695 | if no call fails exactly the frame is written, and success is reported exactly for messages below 2^31 bytes; below that a failure is reported exactly when the last call failed or moved nothing |
| `ControlWire.WriteAll` | app/iperf/src/iperf_api.c:1673-1695 | messages written in turn put their frames on the stream in order |
| `ControlWire.Socket.JsonWrite` | app/iperf/src/iperf_api.c:1673-1695 | if no call fails the big-endian length and the unformatted text are written, and success is reported exactly below 2^31 bytes; below that a failure is reported exactly when the last call failed or moved nothing, so an interrupted write is a success |
| `ControlWire.Socket.JsonRead` | app/iperf/src/iperf_api.c:1699-1735 | if no call fails, reads back the value of a frame and leaves the rest of the stream; behind a whole header anything else is refused: a short text, one that does not parse, or a length of 2^31 or more |
| `ControlWire.FrameSplits` | app/iperf/src/iperf_api.c:1673-1735 | the announced length splits the frame at its text, which parses to the value |
| `ControlWire.Socket.SendState` | app/iperf/src/iperf_api.c:1058-1067 | writes the one byte of the state; success is reported exactly when it was written or the call was interrupted |
| `ControlWire.Socket.Nread` | app/iperf/src/net.c:216-238 | returns exactly the next bytes, all of them unless the stream ends or the last call failed or was interrupted, and their number as an `int`, or -2 exactly after a broken call |
| `ControlWire.Socket.Nwrite` | app/iperf/src/net.c:243-272 | what reaches the stream is a prefix of the buffer, all of it exactly when the last call moved bytes; the number written is returned as an `int`, or -2 exactly after a broken call and -1 exactly after one without buffers or that moved nothing |
| `ControlWire.Be32RoundTrip` | app/iperf/src/iperf_api.c:1682-1712 | the length survives the network byte order |
| `ControlWire.FromBe32RoundTrip` | app/iperf/src/iperf_api.c:1710-1712 | every four bytes are the length of exactly one number |
| `ControlWire.Be32Ordered` | app/iperf/src/iperf_api.c:1682-1684 | the most significant byte comes first: lengths are ordered as their bytes |
| `Accounting.Test.Run` | app/iperf/src/iperf_api.c:1088-1141 | over every run of traffic, timers and the end of omission: the run is a chain of the steps asked for, each as `Accounting.Test.Step` says, up to a failed call or the end of the test; bytes are conserved per stream, the total is the sum over streams, and 8 bytes_sent stays within rate times elapsed plus 8 blksize max(1, burst); without a rate, streams that a burst has stopped never send again |
| `Accounting.Test.Step` | app/iperf/src/iperf_client_api.c:485-520 | each step keeps conservation and pacing, does to every field exactly what its callback does, and leaves stopped streams without a rate stopped |
| `Accounting.Test.Send` | app/iperf/src/iperf_api.c:1088-1141 | sends keep conservation; without an error and before the end no stream that may send is ahead of its rate; without an error, and unless a limit cuts rounds short, every ready stream with a green light has sent what its calls were given, in burst rounds, else in `multisend` rounds without a rate and in one with it, every other stream is unchanged, and the light is the one of the final throttle check; a burst without a rate stops every stream |
| `Accounting.Test.Rounds` | app/iperf/src/iperf_api.c:1094-1129 | at most as many blocks ahead as rounds were made; all rounds are made unless a call fails or a limit is reached |
| `Accounting.Test.Round` | app/iperf/src/iperf_api.c:1103-1126 | one round sends at most one block per stream and, when pacing singly, throttles it at once; it serves exactly the ready streams with a green light, except that after a send that reaches a limit it ends, unless it is the last: so a round passes a limit by less than a block, and a round that starts beyond it sends once |
| `Accounting.Test.SendOne` | app/iperf/src/iperf_tcp.c:76-93 | a send adds the same bytes to stream, interval and test, and one block to the test |
| `Accounting.Test.CheckThrottle` | app/iperf/src/iperf_api.c:1069-1086 | until the test is done, and once time has passed, the light is green exactly when 8000000 bytes_sent is below rate times the microseconds elapsed; nothing else changes |
| `Accounting.Test.ThrottleAll` | app/iperf/src/iperf_api.c:1130-1134 | every stream gets its light by that rule, and nothing else changes |
| `Accounting.BelowRateMeans` | app/iperf/src/iperf_api.c:1077-1079 | the truncated average is below the limit exactly when the bits sent are below rate times elapsed |
| `Accounting.Test.Recv` | app/iperf/src/iperf_api.c:1143-1162 | receives add the same bytes to stream, interval and test; without errors exactly the ready streams are read, each for what its call was given |
| `Accounting.Test.StatsCallback` | app/iperf/src/iperf_api.c:2168-2235 | appends the bytes of the current interval to every stream, marked while omitting, and starts a new one without changing what it transferred; afterwards transferred bytes equal the counted intervals |
| `Accounting.Test.EndOmit` | app/iperf/src/iperf_api.c:2132-2159 | after the omitted start the bytes sent so far are set aside, all other counters are zero and conservation starts anew |
| `Accounting.Test.constructor` | app/iperf/src/iperf_api.c:1164-1225 | a started test: streams with no bytes, the common start time and green lights |
| `Accounting.LimitOverrun` | app/iperf/src/iperf_api.c:1094-1129 | with a single stream a limit in bytes is overrun by all the rounds of the call |
| `UdpLoss.LossExactIff` | app/iperf/src/iperf_udp.c:98-107 | the reported loss is the number of sequence numbers up to the highest that never arrived if and only if no packet was duplicated (and none is numbered zero) |
| `UdpLoss.LossExact` | app/iperf/src/iperf_udp.c:98-107 | in general it is that number less the arrivals that brought nothing new |
| `UdpLoss.DuplicateHidesLoss` | app/iperf/src/iperf_udp.c:98-107 | one packet that arrives twice: nothing is missing and the reported loss is minus one |
| `UdpLoss.ExactLaw` | app/iperf/src/iperf_udp.c:98-107 | without wrapping, packet_count is the highest number and equals received minus out of order plus gaps |
| `UdpLoss.CountersExact` | app/iperf/src/iperf_udp.c:98-107 | each counter on its own, without wrapping: packet_count is the highest number, cnt_error the numbers skipped when a higher one came, outoforder_packets the number of arrivals that were not above all before them |
| `UdpLoss.Overtaken` | app/iperf/src/iperf_udp.c:98-107 | 1, 3, 2 gives one gap and one late packet |
| `UdpLoss.GapLaw` | app/iperf/src/iperf_udp.c:98-107 | the law holds modulo 2^32 for any numbers in any order, also when the 32-bit counters wrap |
| `UdpLoss.Stream.Recv` | app/iperf/src/iperf_udp.c:54-107 | the branches update the counters as the specification folds them; until the counters overflow they are the highest number, the numbers skipped and the number of late arrivals; a failed or empty read changes nothing |
| `EventEpoll.Loop.Modify` | src/lib/libev/ev_epoll.c:70-139 | a nonzero mask that does not kill the descriptor leaves the kernel asking for EPOLLIN exactly with EV_READ, for EPOLLOUT exactly with EV_WRITE and for nothing else, with the current generation, or the descriptor on the always-ready list; only a closed descriptor or a kernel out of memory kills; only this descriptor changes; a list without repeats stays so if and only if the call does not append a descriptor that is on it while its cached mask says otherwise |
| `EventEpoll.Loop.Register` | src/lib/libev/ev_epoll.c:94-119 | the outcomes of the epoll_ctl calls and what the kernel then holds |
| `EventEpoll.Loop.Reify` | src/lib/libev/ev.c:1986-2042 | after a change of the wanted events the descriptor is armed unless killed, and a pollable one is registered for exactly those events; every armed descriptor stays registered for exactly what is wanted |
| `EventEpoll.Loop.ArmedAsks` | src/lib/libev/ev_epoll.c:93-119 | an armed descriptor is on the always-ready list, or the kernel asks for EPOLLIN exactly if reading is wanted, for EPOLLOUT exactly if writing is, and for nothing else |
| `EventEpoll.Loop.Poll` | src/lib/libev/ev_epoll.c:141-235 | every notification is passed on with reading exactly for EPOLLIN, errors and hang-ups and writing exactly for EPOLLOUT, errors and hang-ups, none is taken for spurious, then the wanted always-ready descriptors are fed once per entry, and exactly those entries stay |
| `EventEpoll.Loop.Notify` | src/lib/libev/ev_epoll.c:164-212 | the generation always matches; what is passed on follows the notified bits; an unwanted event leaves the kernel asking for exactly the wanted events, or the descriptor unregistered |
| `EventEpoll.Loop.Correct` | src/lib/libev/ev_epoll.c:186-208 | the corrective epoll_ctl succeeds and keeps the invariant |
| `EventEpoll.Loop.FeedEperms` | src/lib/libev/ev_epoll.c:222-234 | the downward loop with swap-remove feeds every wanted entry from the back, as often as it is listed, and keeps exactly those |
| `EventEpoll.FedAsListed` | src/lib/libev/ev_epoll.c:222-234 | a wanted always-ready descriptor is fed as often as it is on the list, no other is fed |
| `EventEpoll.ListedTwice` | src/lib/libev/ev_epoll.c:70-139 | a run after which descriptor 5 is listed and fed twice |
| `EventEpoll.Loop.Drop` | src/lib/libev/ev_epoll.c:229-233 | dropping an entry and clearing its cached mask keeps the invariant, also for a descriptor that has become pollable |
| `EventEpoll.Loop.Close` | src/lib/libev/ev_epoll.c:48-64 | a descriptor closed behind the backend leaves the kernel set and the invariant intact |
| `EventEpoll.Loop.constructor` | src/lib/libev/ev_epoll.c:237-262 | an empty set and table satisfy the invariant |
| `EventPoll.Poll.Modify` | src/lib/libev/ev_poll.c:51-86 | the array and the index stay inverse through append and swap-remove, and together decode to the map with one descriptor changed |
| `EventPoll.Poll.EntriesAsk` | src/lib/libev/ev_poll.c:73-75 | each descriptor of the map has exactly one entry, which asks for POLLIN exactly if reading is wanted, for POLLOUT exactly if writing is, and for nothing else |
| `EventPoll.Removed` | src/lib/libev/ev_poll.c:76-85 | swap-remove keeps the inverse and removes exactly one descriptor |
| `EventPoll.Poll.Grow` | src/lib/libev/ev_poll.c:42-49 | new index entries are unused |
| `EventPoll.Poll.Scan` | src/lib/libev/ev_poll.c:107-126 | the walk stays inside the array and passes on every entry with events, killing the invalid ones |
| `EventPoll.FedOnce` | src/lib/libev/ev_poll.c:107-126 | each ready descriptor is passed on exactly once, with reading exactly for POLLIN, errors and hang-ups and writing exactly for POLLOUT, errors and hang-ups |
| `EventPoll.KilledInvalid` | src/lib/libev/ev_poll.c:116-117 | exactly the descriptors that are reported invalid are killed |
| `EventPoll.Poll.constructor` | src/lib/libev/ev_poll.c:129-140 | decodes to the empty map |
| `EventSelect.Select.Modify` | src/lib/libev/ev_select.c:70-135 | growing and rewriting the words decodes to the map with one descriptor changed |
| `EventSelect.Select.WordsShow` | src/lib/libev/ev_select.c:127-132 | the bit of a descriptor is set in the read words exactly if reading is wanted and in the write words exactly if writing is |
| `EventSelect.BitsAscend` | src/lib/libev/ev_select.c:108-109 | the 64 masks of a word have one bit each, from the lowest up |
| `EventSelect.OneFd` | src/lib/libev/ev_select.c:106-132 | setting or clearing the bit of one descriptor changes no other |
| `EventSelect.Scan` | src/lib/libev/ev_select.c:244-269 | the word and bit loops report the ready descriptors from the highest down |
| `EventSelect.ScanWord` | src/lib/libev/ev_select.c:256-267 | the bits of one word |
| `EventSelect.ReportedOnce` | src/lib/libev/ev_select.c:244-269 | each ready descriptor is reported exactly once, with its events |
| `EventBackends.InLockstep` | src/lib/libev/ev.c:2012-2039 | after the same modify calls poll and select decode to the same map, the one the calls describe |
| `ProxySplice.Splice.Callback` | src/bin/tproxy/tproxy.c:606-696 | both assertions of the callback hold; exactly one watcher per open pipe, the write watcher exactly when held up by the destination; while the pipe stays open the bytes delivered are the first of the queue, as many as the least of queue, space and 65536, so at least one when both sides have some; bytes delivered are a prefix of bytes received, and all of them when shut without an error; unless receiving or sending fails, it shuts exactly at an error or end of stream |
| `ProxySplice.Splice.Pass` | src/bin/tproxy/tproxy.c:625-683 | moves the first bytes of the queue, as many as the least of queue, space and 65536, and chooses the watcher |
| `ProxySplice.Splice.Move` | src/bin/tproxy/tproxy.c:625-655 | a received chunk is sent whole or the pipe closes |
| `ProxySplice.Splice.Shut` | src/bin/tproxy/tproxy.c:690-696 | shuts one direction; the splice is freed when the second is shut |
| `ProxySplice.Splice.Free` | src/bin/tproxy/tproxy.c:303-321 | freed once |
| `ProxySplice.Splice.constructor` | src/bin/tproxy/tproxy.c:699-716 | both pipes start with their read watcher |

## Left out

- Numbers with a fraction or beyond 2^53 in print: floating-point formatting and rounding; parsing is specified over exact reals.
- The parse error pointer, which is not set on every failure.
- cJSON_Minify on tokens that merge when a comment between them goes: the law is stated for printed text; a text whose comment or literal never ends runs past the terminator and is excluded.
- cJSON_AddItemToObject and the other wrappers around the list edits.
- JsonPrintBuffer.Pow2gtLeast: the result of a size above 2^30 overflows a 32-bit int in the source.
- JsonHeap.Memory.Duplicate: how many of the cells with copied constant names stay after a failure depends on which allocation failed, so only the bound and the case of none are stated.
- JsonHeap.Memory.ReplaceItemInArray: the replaced child must not share cells with the list, as the source demands of a tree.
- Timer callbacks that create, reset or cancel timers; tmr_cleanup and tmr_destroy.
- Session: other errors, termination messages, other tests on the same server, SCTP and UDP set-up; a stranger is taken to send a cookie and to come after the control connection.
- Session.ParamsArrive: only the members of the parameters that decide streams and direction; the others travel in the same document.
- Data still drained by a reversed client after its last statistics, and settings that are not reset between tests.
- Accounting.BelowRate: rounding of the double division is not modelled, and no elapsed time at all counts as not below the rate.
- Accounting.Test.Run: sends made after the end of the test was flagged, when the throttle no longer acts, are outside the pacing bound; counters do not wrap at 64 bits.
- UdpLoss: jitter, the packet header layout and the numbering by the sender.
- EventEpoll: the packing of descriptor and generation into one 64-bit word, duplicated descriptors, forks and kernel failures other than those listed in `Errno`; growth of the event array.
- The watcher lists behind fd_event, fd_kill and fd_reify in ev.c; the fd_set path of select; kqueue, port and Windows backends.
- ProxySplice.Splice.Free: removal from the splice table, deferral while callbacks run and teardown of the connections.
- ProxySplice: a callback is taken to be atomic with respect to the network stack; SYN filtering, accepting and the splice table.
- Socket set-up, options, reports, units, locale, argument parsing, DPDK and the other tools: plumbing or easy members.
