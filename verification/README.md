# Verification of libnetworking

The library carries status messages from measurement nodes to a server: a message becomes a JSON tree, the tree
becomes text, at most 300 bytes of it go onto a TCP stream, and the server cuts the stream into objects by counting
braces, decodes them and queues them. This project models the three layers and proves properties of each and of the
whole chain. `dafny verify dfyconfig.toml` checks everything.

**The JSON engine.** `Json.dfy` has trees and their text (`Render`), `JsonStrings.dfy` and `Utf.dfy` string literals,
`Numbers.dfy` decimal numbers, `Parser.dfy` what the recursive-descent parser computes. On these functions rest the
round trip (`RoundTrip.dfy`), the fact that text cut short never parses (`Locality.dfy`), and minifying as the inverse of
formatting (`Minify.dfy`). The code itself is modelled imperatively and proved to compute those functions: the parser's
cursor (`ParseBuffer.dfy`), the growing print buffer whose offset lags behind its text (`PrintBuffer.dfy`), the in-place
minifier, the doubly linked child lists (`NodeList.dfy`), and the trees they make in memory (`NodeTree.dfy`).
`Lookup.dfy` and `Compare.dfy` have member lookup and structural comparison. RFC 8259 defines JSON (strings in section
7), RFC 3629 section 3 UTF-8, and RFC 2781 section 2.2 surrogate pairs.

**What it means.** Those functions are held against descriptions that share nothing with them and speak of characters,
places and values: `Grammar.dfy` is a grammar of the texts the parser accepts, with `Spelling.dfy` for literals and
`Numerals.dfy` for numbers, and `Grammar.ParseIff` says that it describes the parser exactly; `Paths.dfy` tells when trees
are equal by what is found along paths, `Reorderings.dfy` by the order of members; `Encodings.dfy` has the bytes of each
type of message, and `Decoding.dfy` the trees and texts that decode, and to what.

**The wire.** `Messages.dfy` has messages, their trees and the decoder; `MessageTree.dfy` builds and prints the tree node
by node; `Representation.dfy` fills the caller's struct; `Framer.dfy` cuts the stream, and `Reading.dfy` shows that bytes
which arrive during a read are as good as bytes that were there; `Sending.dfy` is the sender.
`Wire.dfy` puts them together for messages that can be sent, and `Streams.dfy` says of any list of messages whether it
comes back from one stream. For that, `Lexing.dfy` scans text for string literals and brackets alone, and shows that
what the parser accepts the scanner accepts.

**The server.** `Server.dfy` is a machine in which each handler is a thread with a program counter and each lock
acquire, release or access between them is a step. `ServerInvariants.dfy` proves what every step keeps;
`ServerHistory.dfy`, `ServerArrivals.dfy` and `ServerTimes.dfy` add the accounts of queue items, of bytes, and of timeout
reports, the last on top of `KeepAlive.dfy`, which has keep-alives and checks on their own. `ServerRuns.dfy` draws
conclusions for whole runs, and `ServerWaiting.dfy` says who waits for whom and who waits for ever. `ServerMishaps.dfy`
has runs that end badly. `ServerCalls.dfy` has the routines on the queue and the table as they stand in memory, each
proved to do there what the machine's step does.

Several results say that the code does less than one might expect, and when exactly:

- A list of messages comes back whole from one stream exactly when the braces in each text balance and never close more
  than one ahead of their opening, and each encoding fits in 300 bytes (`Streams.StreamIff`): the framer does not know
  about string literals, and the sender cuts silently. A message that is not sendable may be delivered all the same, at
  the price of its neighbour, which is swallowed (`Streams.NeighbourSwallowed`, `Streams.UnsendableDelivered`). But
  nothing is ever invented, reordered or doubled (`Streams.StreamAmong`).
- A tree need not compare equal to its own duplicate. It does exactly when, in each of its objects, members with the same
  key have values that compare equal (`Compare.ReflexiveIff`).
- No cycle of threads ever waits for each other, but a handler that comes late to a connection that is being torn down
  returns with the freed record's mutex locked, and a second late handler then waits for ever, in every continuation
  (`ServerMishaps.HandlerLeftWaiting`). A thread waits for ever exactly when the mutex it wants is a dead connection's and
  is held (`ServerWaiting.WaitsForEverIff`), and a reachable state stands still, until a new signal or call starts a
  thread, exactly when every thread that has not returned waits like that (`ServerWaiting.StuckIff`).
- A handler takes an empty inbox for a closed connection: `recv` failing with `EAGAIN` at src/server.c:353-359 is treated
  like the end of the stream. So a live connection is reported closed and torn down whenever a second signal comes for
  bytes that the handler of the first has read already (`ServerMishaps.LiveReportedClosed`); when a thread decides to tear
  a connection down, exactly, is `ServerRuns.TornDownWhen`. The machine has no step for the peer's close, which would
  only make inboxes stay empty.
- The keep-alive check reads the time of the last keep-alive without the connection's mutex, so a connection may be
  reported silent although a keep-alive was processed in the same second (`ServerMishaps.HeardReportedSilent`). The report
  on its way is right exactly when no keep-alive was processed since the check (`ServerMishaps.ReportRightIff`).

- The parser accepts more than RFC 8259 does, as `Grammar.dfy` and `Spelling.dfy` spell out: control bytes count as
  blanks, numerals may start with zeros and end with their point, four bytes that are not all hex digits count as the
  code 0, and a backslash that such a code leaves over takes the closing quote, which then counts twice.

The comment at include/edsac_representation.h:39 allows texts of 200 bytes; escaping can make even shorter ones too long
for a frame: 123 quotes in a software error do (`Wire.QuotesSendableIff`). `Wire.FitsIff` has the limit for each type.

## Model

| member | source | states |
|---|---|---|
| Utf.LiteralMeaning | src/contrib/cJSON.c:570-688 | For a literal with valid hex digits: a code unit outside the surrogates is consumed as 6 bytes, a proper pair as 12, strict UTF-8 decoding of the emitted bytes gives the code point back, and everything else is refused |
| Utf.Utf8RoundTrip | src/contrib/cJSON.c:633-684 | The encoding used for emitted bytes is inverted by a strict UTF-8 decoder on every scalar value |
| Utf.ParseHex4 | src/contrib/cJSON.c:533-567 | The loop computes the value of four hex digits, and 0 if one is no digit |
| Utf.CombineSurrogates | src/contrib/cJSON.c:614-626 | Masks, shifts and the or give the code point of a surrogate pair |
| Utf.EmitUtf8 | src/contrib/cJSON.c:633-684 | The back-to-front loop with marks and masks writes exactly the UTF-8 bytes, moves past them and touches no byte before |
| Utf.Utf16LiteralToUtf8 | src/contrib/cJSON.c:570-688 | Bytes consumed and written are those of the literal's meaning; 0 means refused |
| Bytes.CharacterCodes | src/contrib/cJSON.c:752-939 | Each named constant is the code of the character it is named after |
| BitOps.ContinuationByte | src/contrib/cJSON.c:665-671 | `(c \| 0x80) & 0xBF` keeps the low six bits under the continuation mark |
| BitOps.MarkFirstByte | src/contrib/cJSON.c:672-676 | Or-ing the first-byte mark adds it, since its bits lie above the value's |
| JsonStrings.EscapedLength | src/contrib/cJSON.c:847-870 | The counting pass predicts the length of the escaped text exactly |
| JsonStrings.EscapedIsPrintable | src/contrib/cJSON.c:886-935 | An escaped body holds no control byte and no NUL |
| JsonStrings.EscapeTable | src/contrib/cJSON.c:886-935 | By character codes, what is written for each byte: the seven short escapes, `\u00` and two hex digits for other control bytes, and every other byte as it is |
| JsonStrings.UnescapeTable | src/contrib/cJSON.c:754-777 | By character codes, the byte each of the eight letters behind a backslash stands for; no other letter but `u` stands for one |
| Spelling.LiteralIff | src/contrib/cJSON.c:691-817 | A string literal is accepted, as certain bytes, exactly if its backslashes pair up and its pieces, told one by one by their characters, stand for these bytes |
| JsonStrings.UnescapeInverse | src/contrib/cJSON.c:691-817 | Both passes over an escaped body stop at its closing quote and give the original bytes |
| JsonStrings.ParseQuoted | src/contrib/cJSON.c:691-939 | Parsing a printed string returns the original bytes and stops just past its closing quote |
| JsonStrings.ParseString | src/contrib/cJSON.c:691-817 | A literal ends behind its closing quote inside the buffer; a refusal leaves the offset in the buffer |
| JsonStrings.RoomLeft | src/contrib/cJSON.c:706-810 | While the passes are at most one byte out of step, what was written fits in what the first pass reserved |
| ParseBuffer.Measure | src/contrib/cJSON.c:705-736 | The first pass finds the closing quote and subtracts one byte for each escape it counts |
| ParseBuffer.UnescapeOne | src/contrib/cJSON.c:741-791 | One round of the second pass writes inside the allocation, whatever the literal contains |
| ParseBuffer.UnescapeInto | src/contrib/cJSON.c:738-810 | Into an array of exactly the size the first pass asked for, the second pass writes the unescaped text and a NUL, or stops at the offending escape |
| Numbers.StrtodDecimal | src/contrib/cJSON.c:490-497 | Reading a printed integer gives it back |
| Numbers.NumberAtDecimal | src/contrib/cJSON.c:259-333 | A printed integer that no number byte follows is read back whole, within the 63 bytes the parser copies |
| Numbers.ValueIntOfInt | src/contrib/cJSON.c:316-327 | The saturated `valueint` of a 32-bit integer is that integer |
| Numerals.ReadsNumeral | src/contrib/cJSON.c:259-333 | A sign, digits, a point, a fraction and an exponent that nothing behind extends are read whole, as the digits' value by place, divided by ten for each digit of the fraction, scaled by the exponent, with the sign |
| Numerals.NumeralRead | src/contrib/cJSON.c:259-333 | Whatever is read is such a numeral, the longest there |
| Numerals.ReadsIff | src/contrib/cJSON.c:259-333 | Something is read exactly when a numeral stands there |
| Numerals.NumberAtIs | src/contrib/cJSON.c:259-333 | The parser reads the longest numeral in the run of digits, signs, points and `e`s, of which it looks at 63 |
| Numerals.DecimalPlain | src/contrib/cJSON.c:467-530 | An integer is printed with a minus only if negative, without zeros in front, and with its value by place |
| ParseBuffer.CopyNumber | src/contrib/cJSON.c:259-309 | The loop copies the number bytes at the offset, at most 63 of them |
| Json.RenderNulFree | src/contrib/cJSON.c:454-464 | A rendering holds no NUL, so `strlen` from any place inside it finds its end |
| Json.Layout | src/contrib/cJSON.c:1430-1712 | Elements are separated by a comma and, formatted, a blank; formatted members stand on lines of their own behind as many tabs as containers are open, the closing brace behind one less |
| Json.ScalarLayout | src/contrib/cJSON.c:1258-1333 | The three words, plain digits, and the escaped text between quotes |
| Parser.SkipBlanks | src/contrib/cJSON.c:956-974 | Skipping blanks stays inside the buffer despite its step back, and moves forward |
| Parser.ParseValue | src/contrib/cJSON.c:1203-1255 | Terminates on every terminated buffer; a value ends strictly behind its start and before the terminator's end |
| Parser.ParseItems | src/contrib/cJSON.c:1368-1419 | The element loop terminates and stays in the buffer although it steps back before the first element |
| Parser.ParseMembers | src/contrib/cJSON.c:1522-1590 | The member loop terminates and stays in the buffer although it steps back before the first key |
| Parser.Parse | src/contrib/cJSON.c:993-1070 | The end or error position lies within the text |
| Parser.ParsedTexts | src/contrib/cJSON.c:691-817 | Keys and strings of a parsed tree are C strings |
| Grammar.ValueSound | src/contrib/cJSON.c:1203-1598 | What the parser takes as a value is in the grammar, for the tree it returns, and nests at most 1000 deep |
| Grammar.ValueComplete | src/contrib/cJSON.c:1203-1598 | Every text of the grammar is taken whole, as its tree, wherever it stands |
| Grammar.ParseIff | src/contrib/cJSON.c:993-1070 | If the end is required, a C string is accepted as a tree exactly if it is one value of the grammar with blanks around it and perhaps a byte order mark in front |
| Grammar.ParsedLeads | src/contrib/cJSON.c:993-1070 | If the end is not required, what is accepted starts with a value of the grammar, and the end reported is its end |
| Grammar.LeadsParsed | src/contrib/cJSON.c:993-1070 | And whatever starts with a value of the grammar is accepted, a number if no number byte follows it |
| ParseBuffer.ParseBuffer.SkipWhitespace | src/contrib/cJSON.c:956-974 | The loop and the step back refine `SkipBlanks` |
| ParseBuffer.ParseBuffer.ParseString | src/contrib/cJSON.c:691-817 | Two passes over a fresh array refine the literal's meaning and move the offset accordingly |
| ParseBuffer.ParseBuffer.ParseNumber | src/contrib/cJSON.c:259-333 | The copied bytes are read as the number at the offset |
| ParseBuffer.ParseBuffer.ParseValue | src/contrib/cJSON.c:1203-1255 | Result and offset are those of the parser function; on success depth is restored, and it never exceeds 1000 |
| ParseBuffer.ParseBuffer.ParseArray | src/contrib/cJSON.c:1336-1427 | Depth bookkeeping and the element loop refine the array function |
| ParseBuffer.ParseBuffer.ParseItems | src/contrib/cJSON.c:1368-1419 | Linking items one after another builds the list the recursive function describes |
| ParseBuffer.ParseBuffer.ParseObject | src/contrib/cJSON.c:1492-1598 | Depth bookkeeping and the member loop refine the object function |
| ParseBuffer.ParseBuffer.ParseMembers | src/contrib/cJSON.c:1522-1590 | Linking members one after another builds the list the recursive function describes |
| ParseBuffer.ParseWithOpts | src/contrib/cJSON.c:993-1070 | For every C string the cursor-based parser computes `Parse`, with its error position clamped to the text |
| RoundTrip.ValueParses | src/contrib/cJSON.c:1203-1712 | Wherever a rendering stands in a buffer, the parser at any depth reads the tree back and stops behind it, or fails if it nests past the limit |
| RoundTrip.PrintParse | src/contrib/cJSON.c:1080-1712 | Parsing either rendering returns the same tree when containers nest at most 1000 deep, and fails when they nest deeper |
| Locality.ValueLocal | src/contrib/cJSON.c:1203-1598 | A successful parse does not depend on the bytes behind its end |
| Locality.CutNeverParses | src/contrib/cJSON.c:1203-1598 | No proper prefix of a printed array or object parses |
| PrintBuffer.PrintBuffer.Ensure | src/contrib/cJSON.c:366-452 | Succeeds exactly when offset, demand and a NUL fit in the capacity; keeps the bytes before the offset across reallocation |
| PrintBuffer.PrintBuffer.UpdateOffset | src/contrib/cJSON.c:454-464 | `strlen` claims exactly the pending text |
| PrintBuffer.PrintBuffer.PrintStringPtr | src/contrib/cJSON.c:820-939 | Succeeds exactly when the quoted text and two bytes fit, and leaves the quoted text behind the offset, ended by a NUL |
| PrintBuffer.PrintBuffer.WriteEscaped | src/contrib/cJSON.c:878-938 | The moving pointer writes the escaped body, each `sprintf` terminator included, inside the reserved bytes, with the closing quote right behind |
| PrintBuffer.CountEscapes | src/contrib/cJSON.c:847-870 | The counting loop computes what escaping adds |
| PrintBuffer.PrintBuffer.PrintNumber | src/contrib/cJSON.c:467-530 | Succeeds exactly when the digits and a NUL fit, and claims them at once |
| PrintBuffer.PrintBuffer.PrintValue | src/contrib/cJSON.c:1258-1333 | Succeeds exactly when the rendering and one or two bytes fit; then the bytes from the old offset are the rendering, ended by a NUL, those before it are unchanged, depth is restored, and offset < length |
| PrintBuffer.PrintBuffer.PrintAndClaim | src/contrib/cJSON.c:1453-1459 | `print_value` followed by `update_offset` moves the offset by exactly the rendering |
| PrintBuffer.PrintBuffer.PrintArray | src/contrib/cJSON.c:1430-1489 | The element loop, its separators and both brackets produce the array's rendering |
| PrintBuffer.PrintBuffer.PrintItems | src/contrib/cJSON.c:1454-1478 | The loop over the elements produces their renderings with separators |
| PrintBuffer.PrintBuffer.PrintObject | src/contrib/cJSON.c:1601-1712 | The member loop, line breaks, tabs and both braces produce the object's rendering |
| PrintBuffer.PrintBuffer.PrintMembers | src/contrib/cJSON.c:1632-1691 | The loop over the members produces keys, colons, values and separators in order |
| PrintBuffer.Print | src/contrib/cJSON.c:1080-1140 | Starting from 256 bytes with recorded length 0, printing yields the rendering and its NUL, and fails only past `INT_MAX` |
| PrintBuffer.PrintPreallocated | src/contrib/cJSON.c:1183-1200 | Succeeds exactly when the caller's length covers the text and one more byte for a number, two for anything else |
| Minify.ValueMinifies | src/contrib/cJSON.c:2451-2519 | Wherever a rendering stands, minifying turns it into the unformatted rendering and goes on behind it |
| Minify.MinifyInvertsFormatting | src/contrib/cJSON.c:2451-2519 | Minifying a formatted rendering gives the unformatted one, and leaves an unformatted one as it is, whatever lies behind it in memory |
| Minify.MinifyInPlace | src/contrib/cJSON.c:2451-2519 | On any block of memory, the in-place filter stays inside the block exactly when the filter function is defined there, and then leaves what that says, a NUL, and every byte behind the NUL as it was; this includes strings and comments that the text does not close, where it runs on behind the NUL |
| Minify.CopyString | src/contrib/cJSON.c:2495-2507 | String contents are copied byte for byte, escapes included, with the quote or NUL that ends them |
| Minify.MinifiedLocal | src/contrib/cJSON.c:2451-2519 | A run that ends depends on nothing behind its end, so it stays in a text exactly when it does so with nothing behind the text |
| Minify.Dropped | src/contrib/cJSON.c:2451-2519 | By character codes: blanks go, a line comment goes with its line feed, a block comment with the first mark that closes it |
| Minify.Stays | src/contrib/cJSON.c:2451-2519 | A string literal stays whatever is in it, and so does every other byte |
| NodeList.ChainUnique | src/contrib/cJSON.c:1738-1755 | Links determine the list of children |
| NodeList.GetArrayItem | src/contrib/cJSON.c:1738-1755 | The walk returns the child at the index, or nothing past the end |
| NodeList.AddItemToArray | src/contrib/cJSON.c:1840-1865 | Appends; only links of the children and the item change, and the chain stays well formed |
| NodeList.AddItemToObject | src/contrib/cJSON.c:1867-1903 | Sets the key and appends |
| NodeList.InsertItemInArray | src/contrib/cJSON.c:1996-2023 | Inserts at the index, appends past the end, ignores a negative index |
| NodeList.DetachItemViaPointer | src/contrib/cJSON.c:1926-1954 | Removes the item, which comes out with no links |
| NodeList.DetachItemFromArray | src/contrib/cJSON.c:1956-1964 | Removes and returns the item at the index, or nothing |
| NodeList.ReplaceItemViaPointer | src/contrib/cJSON.c:2025-2058 | Puts the replacement in the item's place; replacing an item by itself changes nothing |
| NodeList.InsertThenDetach | src/contrib/cJSON.c:1926-2023 | Detaching the item just inserted puts every link back as it was |
| NodeList.DetachThenInsert | src/contrib/cJSON.c:1926-2023 | Inserting the item just detached at its old place puts every link back as it was |
| NodeTree.AddToObject | src/contrib/cJSON.c:1867-1903 | Adding a tree to an object gives it one more member at the end, with the other members' keys and values as they were |
| NodeTree.Duplicate | src/contrib/cJSON.c:2372-2449 | The recursive copy is a well-linked tree of new nodes with the same value, and the original is not modified |
| NodeTree.Walk | src/contrib/cJSON.c:1454-1478 | Following the links reads the tree the nodes stand for |
| Lookup.CaseInsensitiveStrcmp | src/contrib/cJSON.c:90-111 | 0 exactly when the strings fold to the same |
| Lookup.GetObjectItem | src/contrib/cJSON.c:1767-1793 | The loop returns the first member whose key matches in the chosen mode, and nothing on anything but an object |
| Lookup.FindSame | src/contrib/cJSON.c:1767-1793 | Keys that are the same in the chosen mode find the same member |
| Lookup.SameKeyIff | src/contrib/cJSON.c:90-111 | Without regard to case, keys are the same exactly if they have one length and each letter is the same or differs by 32 from an ASCII capital |
| Lookup.FirstFound | src/contrib/cJSON.c:1767-1793 | What is found is the first member in order whose key is the same, and nothing only if there is none |
| Compare.CompareTrees | src/contrib/cJSON.c:2621-2744 | The recursive comparison with its loops computes `Equal` |
| Compare.CompareElements | src/contrib/cJSON.c:2679-2702 | The loop over two arrays compares element by element and then the lengths |
| Compare.CompareMembers | src/contrib/cJSON.c:2704-2737 | One pass over an object checks each member against the first match in the other |
| Compare.Symmetric | src/contrib/cJSON.c:2621-2744 | Comparison is symmetric in both modes |
| Paths.EqualIff | src/contrib/cJSON.c:2621-2744 | Trees are equal exactly when each path of indexes and names from their roots ends at the same scalar, the same kind of container or nothing in both, and neither has members of one name that differ so |
| Reorderings.EqualIsReordering | src/contrib/cJSON.c:2621-2744 | Trees that repeat no key are equal exactly when they differ in the order of members only; without regard to case, once their keys are folded |
| Compare.Transitive | src/contrib/cJSON.c:2621-2744 | Comparison is transitive in both modes, even with repeated keys |
| Compare.Congruence | src/contrib/cJSON.c:2621-2744 | What equals something equals itself, and equal trees compare alike with every third one |
| Compare.Reflexive | src/contrib/cJSON.c:2621-2744 | A tree whose objects repeat no key equals itself and so its duplicate |
| Compare.ReflexiveIff | src/contrib/cJSON.c:2621-2744 | A tree equals itself, and so its duplicate, exactly when in each of its objects members with the same key have values that compare equal |
| Compare.MemberOrder | src/contrib/cJSON.c:2704-2737 | Permuting an object's members, if no key is repeated, changes no comparison with it |
| Compare.ReorderingUnseen | src/contrib/cJSON.c:2621-2744 | Reordering members anywhere in a tree without repeated keys leaves it equal to itself and to whatever it was equal to |
| Messages.DecodeEncoded | src/representation.c:69-211 | Every valid message, with any 32-bit valve number and any C string as text, survives encoding and decoding |
| Messages.DecodeOfTree | src/representation.c:163-207 | The decoder's lookups and prefix tests recognise each of the four trees |
| Decoding.DecodeIff | src/representation.c:163-207 | A tree decodes to a message exactly when it is an object whose first members named `version`, `data` and `type`, up to case, are the number 2, anything, and a string that, with the data, means that message by its first letters |
| Decoding.DecodeTextIff | src/representation.c:153-211 | Bytes decode to a message exactly if up to their first NUL they start with a text of such a tree |
| Messages.DecodedWellFormed | src/representation.c:153-211 | Whatever bytes decode, decode to a message with a C string and a 32-bit valve number |
| MessageTree.BuildTree | src/representation.c:74-115 | Adding nodes one by one, `data` before it is filled, links the message's tree |
| MessageTree.FillData | src/representation.c:90-106 | The text, and the valve number behind it, go into the linked `data` node |
| MessageTree.EncodeMessage | src/representation.c:69-133 | Fails with -1 for an invalid message; otherwise returns the encoding and its length capped at 300 |
| Encodings.ValveBytes | src/representation.c:69-133 | The bytes of a valve error, literally, around its escaped text and the digits of its number |
| Encodings.OtherBytes | src/representation.c:69-133 | The bytes of any other hardware error |
| Encodings.SoftBytes | src/representation.c:69-133 | The bytes of a software error |
| Encodings.KeepAliveBytes | src/representation.c:69-133 | The bytes of a keep-alive |
| MessageTree.Strnlen | src/representation.c:130-132 | The length of the C string, capped |
| Representation.MessageStruct.Decode | src/representation.c:153-211 | Succeeds exactly when the decoder function does and then fills the struct with its message; otherwise leaves it |
| Representation.MessageStruct.Fill | src/representation.c:181-207 | The chain of type comparisons, in order, with its failures |
| Framer.FrameIff | src/server.c:133-207 | The framer returns an object and a rest exactly when, behind line ends, the stream is that object and that rest and the object opens with a brace which its last byte is the first to close |
| Framer.FrameSucceedsIff | src/server.c:133-207 | The framer succeeds exactly when a brace follows the line ends and some prefix from there balances |
| Framer.FrameByCodes | src/server.c:133-207 | By character codes: the framer takes an object exactly if, behind line feeds and carriage returns, it starts with a brace and its opening and closing braces come to the same number for the first time at its end |
| Framer.EndByCodes | src/server.c:133-207 | There is nothing to read exactly if there are only line feeds and carriage returns |
| Framer.ErrorByCodes | src/server.c:133-207 | A failing read takes one byte that is no brace, or an unfinished object to its end |
| Framer.LowestIsLeast | src/server.c:169-203 | The recursive measure of the deepest dip is the minimum over all prefixes |
| Framer.Socket.ReadJsonObject | src/server.c:133-207 | The byte-by-byte loop with its nesting count refines the framer function and takes no byte more |
| Reading.ReadAtOnce | src/server.c:133-207 | A read that takes byte after byte, wherever it stands, while more bytes arrive comes out like one that finds all of them waiting |
| Reading.FrameAtOnce | src/server.c:133-207 | So the framer function on what arrived by the end of a read is what the read returns |
| Wire.EncodedEnclosed | src/representation.c:57-107 | An encoding is one frame exactly when its text's braces balance overall and stay at -1 or above at every prefix |
| Wire.EncodedSize | src/representation.c:69-133 | The exact length of an encoding: a constant for each type, the digits of the valve number, and the escaped text |
| Wire.ShortTextsFit | include/edsac_representation.h:39-89 | Texts that take at most 216 bytes once escaped fit in 300 bytes with every type |
| Wire.SentFrames | src/sending.c:30-93 | A sent message is cut out of the stream whole, whatever follows, exactly when it is sendable |
| Wire.StreamRecovery | src/server.c:133-247 | Every list of sendable messages comes back in order with nothing left over |
| Wire.FitsIff | include/edsac_representation.h:39-89 | For each type, how long the escaped text may be for the encoding to fit in 300 bytes, exactly |
| Wire.QuotesSendableIff | include/edsac_representation.h:39-89 | A software error of n quotes is sendable exactly up to n = 122, and cut beyond, though texts of 200 bytes are allowed |
| Wire.DrainAppend | src/server.c:133-247 | Bytes that arrive later change nothing about objects read before |
| Wire.DrainTaken | src/server.c:211-247 | One successful read takes just one object and the line ends before it |
| Wire.DrainedWellFormed | src/server.c:211-247 | Whatever bytes are read, what the server makes of them are messages |
| Lexing.ValueScan | src/contrib/cJSON.c:1203-1598 | What the parser accepts as a value has its string literals closed and its brackets matched, to a scanner that knows nothing else |
| Streams.EncodedParts | src/representation.c:57-107 | An encoding is a front and a back that depend on the type and the valve number alone, and the escaped text between them |
| Streams.FrameAtMessage | src/server.c:133-247 | A frame that starts at a message and decodes holds the whole encoding, and decodes to that message |
| Streams.FrameInsideMessage | src/server.c:133-247 | A frame that starts inside a message never decodes |
| Streams.DrainedAcceptable | src/server.c:133-247 | If the rest of a stream is read to its end, its braces balance, and whatever is received fits in a frame, closes no more braces than it opens, and is sendable if it opens no more |
| Streams.StreamIff | src/sending.c:79-93 | A list of messages comes back whole, in order and with a clean end exactly when each of them is sendable |
| Streams.StreamAmong | src/server.c:133-247 | Of any messages, sendable or not, nothing is received but these, in order, each at most once, and reports of frames that did not decode |
| Streams.NeighbourSwallowed | src/server.c:133-247 | A message that opens one brace too many is delivered if the next one closes one too many, which is then lost |
| Streams.UnsendableDelivered | src/server.c:133-247 | The software errors `{` and `}`: the first is not sendable and arrives, the second does not |
| Sending.KeepAliveLiteral | src/sending.c:57-61 | The timer's literal is the encoding of a keep-alive message |
| Sending.Sender.SendEncodedMessage | src/sending.c:30-54 | Puts on the stream what `write` takes of at most 300 bytes; succeeds exactly when all of them are taken |
| Sending.Sender.SendMessage | src/sending.c:79-93 | Of the message's bytes as many are appended as the kernel takes, none for an invalid one; it succeeds exactly when that is all of them |
| Sending.Sender.SendKeepAlive | src/sending.c:57-61 | Of the keep-alive's bytes as many are appended as the kernel takes; the message counts as sent exactly when that is all of them |
| Sending.SentIsReceived | src/sending.c:57-93 | If no write stopped in the middle, what a sender sent in full comes back on the other side, in order, keep-alives included, exactly when each message is sendable, and nothing else does but reports; if one did, the messages sent before it come back first, if they are sendable |
| ServerCalls.ServerData.FetchItem | src/server.c:211-248 | Each framed object makes one queue item or one refresh; an undecodable one is queued as a software error |
| ServerCalls.ServerData.ReadObject | src/server.c:269-290 | Under the queue's lock, memory goes on to mirror the machine after its reading step, and a failing read is one after which the machine tears down |
| ServerCalls.ServerData.ReadMessage | src/server.c:574-586 | Pops the oldest item, or returns nothing; memory mirrors the machine after its step |
| ServerCalls.ServerData.DestroyConnection | src/server.c:250-266 | Frees the record the table has at the descriptor and closes it; without one nothing changes |
| ServerCalls.ServerData.TearDown | src/server.c:250-266 | Memory mirrors the machine after its removal and closing steps |
| ServerCalls.ServerData.QueueClose | src/server.c:292-318 | Queues the report, in the table or not; memory mirrors the machine after its step |
| ServerCalls.ServerData.ConnectHandler | src/server.c:367-442 | A descriptor that was not open is never in the table already |
| ServerCalls.ServerData.Accept | src/server.c:367-410 | The new record and its open descriptor; memory mirrors the machine after its step |
| ServerCalls.ServerData.Insert | src/server.c:417-439 | Fails exactly on a duplicate entry, where the machine is marked as crashed; otherwise memory mirrors the machine after its step |
| ServerCalls.ServerData.ReadAge | src/server.c:445-459 | Finds a connection overdue exactly when the machine's visit goes on to report it |
| ServerCalls.ServerData.QueueTimeout | src/server.c:464-482 | The report enters the queue; memory mirrors the machine after its step |
| ServerCalls.ServerData.IterKeepAlives | src/server.c:445-497 | One timeout for each overdue connection at whose turn the queue can be had, and none for the others |
| ServerInvariants.RemoveKeeps | src/server.c:250-266 | The record that is freed is the one whose mutex the thread holds, and it is in the table |
| ServerInvariants.InsertKeeps | src/server.c:417-439 | The descriptor is never in the table already, so the duplicate-entry exit is not taken |
| ServerInvariants.NextKeeps | src/server.c:250-497 | Every step of every thread keeps lock ownership, the table, descriptors and each thread's assumptions |
| ServerHistory.NextHistory | src/server.c:211-483 | Every step keeps the account of pushes, pops, reports and framed objects |
| ServerArrivals.NextConserves | src/server.c:133-248 | Every step keeps the account of bytes: read, taken by a failing read, waiting |
| ServerTimes.NextClocked | src/server.c:211-497 | Every step keeps timeout reports in line with keep-alives and checks |
| ServerRuns.TeardownAtMostOnce | src/server.c:250-364 | However many handlers found a connection, it is removed at most once, reported closed at most once, and no decoded message of it is queued after the report |
| ServerRuns.TeardownCause | src/server.c:250-364 | A connection that was torn down was reported closed, or a read from it failed, and never both |
| ServerRuns.TornDownWhen | src/server.c:269-364 | A thread decides to tear a connection down exactly when it finds nothing to read, or what it reads does not frame |
| ServerRuns.DescriptorsUnique | src/server.c:250-439 | In every reachable state table keys are open descriptors of their records, records with open descriptors never share one, and the assertion on the signal's descriptor holds |
| ServerRuns.Accounting | src/server.c:133-248 | Popped items and the queue are all pushes in order; a connection's decoded pushes are its framed objects without the keep-alives, and there are as many refreshes as keep-alives among these; the framed objects are well-formed messages, and what the bytes read hold; and the bytes read, those a failing read took and those waiting are the bytes that arrived |
| ServerRuns.SentIsQueued | src/server.c:211-364 | While the bytes that arrived are the beginning of a stream of sendable messages, however split up, the pushes are the first of these without the keep-alives, and all of them once all is read |
| ServerRuns.QueuedAmong | src/server.c:211-364 | While the bytes that arrived are the beginning of a stream of any messages, what is queued is some of these in order, each at most once, and reports of frames that did not decode |
| ServerRuns.ItemTexts | src/server.c:292-483 | In every reachable state, popped and queued items read "Connection closed" where a close was reported, "Connection timeout" where a check was overdue, and are messages other than keep-alives where a frame was read |
| ServerRuns.UndecodedText | src/server.c:226-231 | A frame that does not decode reads "Could not decode message" |
| ServerRuns.TimeoutReports | src/server.c:445-497 | In every reachable state a connection's timeout reports are its overdue checks in order, less those that could not get the queue, with at most the last one still on its way |
| ServerRuns.ReportsOverdue | src/server.c:445-483 | Each timeout report carries the time of a check more than 30 seconds after the last keep-alive processed before that check |
| ServerRuns.SilenceReported | src/server.c:445-497 | After silence since T, with a check every 10 seconds, exactly the checks from the fourth on are reported if the queue can be had, the first in (T+30, T+40] |
| ServerRuns.PunctualNotReported | src/server.c:445-483 | A connection whose keep-alives, due every 10 seconds, are processed in order within 20 seconds is never reported |
| ServerWaiting.LockOrder | src/server.c:250-364 | Every blocking acquire goes from connection mutex to queue to table |
| ServerWaiting.NoWaitCycle | src/server.c:250-497 | No reachable state has a cycle of threads each waiting for a mutex the next one holds |
| ServerWaiting.StuckIff | src/server.c:250-497 | In a reachable state no thread can go on exactly when each has returned or wants a dead connection's mutex that is held |
| ServerWaiting.WaitsForEverIff | src/server.c:250-497 | A thread can go on in no continuation of the run exactly when it wants a dead connection's mutex that is held |
| ServerWaiting.Release | src/server.c:250-497 | Whoever holds a lock that is not a dead connection's can be brought to give it up by moving only holders of that lock and higher ones |
| ServerMishaps.HandlerLeftWaiting | src/server.c:340-347 | A run after which no thread can go on and a handler waits for a dead connection's mutex, as it does in every continuation |
| ServerMishaps.LiveReportedClosed | src/server.c:349-359 | A run in which a connection is reported closed in the second in which its keep-alive was read |
| ServerMishaps.HeardReportedSilent | src/server.c:445-483 | A run in which a connection is reported silent in the second in which its keep-alive was processed |
| ServerMishaps.ReportRightIff | src/server.c:445-483 | A timeout report on its way is right exactly when no keep-alive was processed since the check |
| ServerMishaps.SafeIff | include/edsac_server.h:30-36 | A bound on how late keep-alives are processed rules timeout reports out in all runs exactly when it is at most 20 seconds |

## Left out

- Floating point: numbers are exact reals, read without rounding or overflow; printing covers integers below 10^15 in magnitude, all the library sends, for which `%1.15g` gives plain digits.
- Locale support, `cJSON_Raw`, reference items, hooks, and the int, float, double and string array constructors.
- Allocation failure and the clean-up it triggers; `size_t` overflow.
- Where the parser gave up: an error position is modelled as the source sets it, and only known to lie within the text.
- The parser's nodes: the parser builds value trees; linked nodes are covered by the list operations, `NodeTree` and `MessageTree`.
- The printer's nodes: the print buffer prints value trees; `NodeTree.Walk` reads them off linked nodes.
- Null keys and strings in the printer, which prints them as an empty literal.
- End-of-buffer tests in `parse_array` and `parse_object` that never fire, since skipping blanks stops on the terminator.
- `cJSON_PrintBuffered`, which starts the same printer from a caller-chosen buffer size.
- What `cJSON_Minify` does once it leaves the block of memory.
- Compare.CompareTrees: trees share no nodes, so the shortcut for identical pointers is not modelled.
- The memory of replaced and removed nodes, which the source frees; freed connection records stay readable in the server machine.
- Errors of `read` other than an empty or closed descriptor; system calls, signals, timers and addresses appear as parameters or steps.
- A signal handler that interrupts a thread holding the same mutex: handlers are threads of their own.
- Single bytes in the server machine: one of its steps reads a whole object, which by `Reading.FrameAtOnce` loses nothing while the connection's mutex keeps other readers away.
- Message delivery in time: one object is read for each signal, and how signals coalesce is up to the kernel.
- The addresses `get_connected_list` returns; only its place among the locks is modelled.
- `stop_server` while handlers run, and command-line arguments.
- `check_keep_alive` reads the clock twice, for the age and for the report; the machine reads it once.
- The second unlock of the table when `destroy_connection` finds nothing to remove, which no run comes to (`ServerInvariants.RemoveKeeps`).
- ServerCalls.ServerData.IterKeepAlives: the loop is not tied to the machine, only its two steps for each connection are.
