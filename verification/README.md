# Verification of the vending machine

This project models the hard parts of a vending machine's software in Dafny and proves what they
promise: the JSON codec the text interface reads every server reply with (`extern/cJSON`), the
ledger that all workers of the server keep on one SQLite connection (`server/src/services`,
`server/src/db`, `init.sql`), the thread pool they run on (`server/src/threadpool`), the route tree
that dispatches requests (`server/src/api/router`), and the input logic of the text interface with
the stock list that travels from the server to it (`tui/src`).

`dafny verify dfyconfig.toml` checks everything.

## How it is built

Code that works by changing things step by step is a class or a method with loops here too, and
each such method is proved against a function of its inputs or of the state before it. What the
source promises is then proved of those functions, for all inputs or over all runs.

- **JSON.** `Bytes`, `Decimals`, `Bits` and `Utf16` hold bytes, numerals and `\u` escapes.
  `JsonReader` says what the parser reads, `JsonParser` is the parser as it runs on its buffer.
  `JsonSyntax` is a grammar of everything cJSON takes for JSON: `JsonStrings`, `JsonNumbers` and
  `JsonGrammar` show that the parser reads its texts as what they mean, `JsonExact` that it reads
  nothing else. `JsonStandard` marks the texts of RFC 8259 among them. `JsonText` is the text of a
  tree, which is one of these, `JsonPrinter` the printer as it runs in its growing buffer.
  `JsonRoundTrip` joins the two.
  `ChildList` edits the linked child list in place; `JsonLookup` looks members up by name.
- **Ledger.** `LedgerTables` has the tables, the statements and the calls as positions between
  statements. `LedgerRuns` lets any number of calls interleave one statement at a time, lets any
  statement fail, and lets price updates land anywhere; its log is the commit order. `LedgerLaws`
  are the books, `LedgerTheorems` carries them over every run from the seed, `LedgerFutures` says
  what can still follow a run. `LedgerServices` runs the same calls as methods on a connection.
- **Thread pool.** `PoolSections` is each critical section, on the linked queue and as a function;
  `PoolRuns` interleaves them, with the sleepers of both condition variables explicit.
- **Routes.** `RouteList` is the flat list of routes and the walk over it, `RouteTree` the tree that
  is extended in place, `Router` the table of the program.
- **Text interface.** `KeySequence`, `RowNavigation` and `Money` follow parts of `tui/src/app.c`.
  `AppView` is what one key does to the view, given the server's answers; `App` does it in place,
  `AppRuns` says what holds over every run, `AppCalls` what each key asks of the server and changes.
  `StockListing`, `StockJson`, `StockClient` and `StockNames` follow a stock list from the server's
  `sprintf` loop to the client's records.

Assumptions. A tree to be printed holds null, booleans, 32-bit integers, NUL-free strings, arrays
and objects. Memory can always be allocated. A statement that fails has no effect and leaves the
transaction open, and `ROLLBACK` succeeds. User ids and balances are unbounded in the tables, as
SQLite's are against a C int, and every `sqlite3_column_int` truncates to 32 bits; where that
matters the theorem says so. One thread at a time waits for the pool or destroys it, and no job is
added after it is destroyed.

Where the code and the documentation differ, the model follows the code. `readme.md` lines 20 to 40
say that shutdown drains the pool and that every write path is wrapped in a transaction. The code
discards the queued jobs: exactly those are never started (`PoolRuns.DestroyDiscards`). And
`product_update_price` opens no transaction, so its update can be rolled back with somebody else's;
it is safe exactly when no transaction is open (`LedgerFutures.PriceLasts`). A cash-out of a balance
beyond a C int pays a truncated amount, and a run from the seed gets there
(`LedgerFutures.TruncationReached`); the books balance exactly in the runs that do not. A balance
that the column reads as negative cannot be cashed out at all, and a run gets there too
(`LedgerFutures.RejectionReached`). `sprintf` of the stock list overruns its buffer exactly when
`StockListing.FitsExactly` says, and rows that do so are allowed (`StockListing.TwoWideRows`). Names
are written unescaped: the client reads the list back exactly when none has a quote or a backslash
(`StockNames.StockRoundTrip`), and it is JSON exactly when none of these has a control byte
(`StockJson.StockIsJson`). The parser takes more than JSON (`JsonStandard.LeadingZero`) and less: a
string of RFC 8259 is read exactly when its surrogate escapes are paired
(`JsonStandard.LoneSurrogate`), and a U+0000 cuts one short (`JsonStrings.WholeMeaning`). And the
key sequence locks the admin keys behind an open admin prompt, which can still be confirmed
(`AppRuns.LockedRequest`).

## Model

| member | source | states |
|---|---|---|
| `Bits.ShiftSix` | extern/cJSON/cJSON.c:803 | shifting a code point right by six is dividing it by 64 |
| `Bits.ContinuationByte` | extern/cJSON/cJSON.c:799-804 | the masks of a continuation byte leave 0x80 plus the low six bits |
| `Bits.FirstByte` | extern/cJSON/cJSON.c:806-813 | or-ing the length mark onto what is left of the code point adds it, with no bit in common |
| `Bits.SurrogatePair` | extern/cJSON/cJSON.c:758 | the bit formula for a surrogate pair is the sum of section 2.2 of RFC 2781 |
| `Bits.HexShift` | extern/cJSON/cJSON.c:694 | the nibble shift multiplies by 16 without losing bits |
| `Bits.AddDigit` | extern/cJSON/cJSON.c:673-695 | a digit added behind the nibble shift gives the number of the longer digit string |
| `Bits.Pair` | extern/cJSON/cJSON.c:758 | the code's formula for a pair, as the decoding half computes it, is the sum of section 2.2 of RFC 2781 |
| `Bits.Continuation` | extern/cJSON/cJSON.c:802 | the code's masks, as the encoding loop applies them, give the byte of section 3 of RFC 3629 |
| `Bits.ShiftPoint` | extern/cJSON/cJSON.c:803 | the loop's shift leaves the bits still to be written |
| `Bits.Leading` | extern/cJSON/cJSON.c:806-809 | the marked first byte of two, three or four |
| `Utf16.ParseHex4` | extern/cJSON/cJSON.c:666-699 | four hexadecimal digits give their value by shifts and sums, anything else gives 0 |
| `Utf16.LiteralCodePoint` | extern/cJSON/cJSON.c:703-764 | reads one escape or a surrogate pair, refuses lone surrogates and short input, reads nothing past the end |
| `Utf16.Utf16LiteralToUtf8` | extern/cJSON/cJSON.c:703-821 | writes exactly the UTF-8 bytes of the literal behind what was there, or writes nothing and returns 0 |
| `Utf16.EncodeUtf8` | extern/cJSON/cJSON.c:766-815 | writes exactly the UTF-8 bytes of any code point and says how many |
| `Utf16.EncodeBytes` | extern/cJSON/cJSON.c:798-813 | the backward loop leaves the bytes whose bits spell the code point |
| `Utf16.ReadCodePoint` | extern/cJSON/cJSON.c:713-764 | a literal takes 6 bytes below 0x10000 and 12 from there on, and never more than there are |
| `Utf16.PairHalves` | extern/cJSON/cJSON.c:757-758 | the code point of a pair gives the two surrogates back |
| `Utf16.Utf8RoundTrip` | extern/cJSON/cJSON.c:766-815 | decoding the bytes by section 3 of RFC 3629 gives the code point back, for every one outside the surrogates |
| `Utf16.EscapedCodePoint` | extern/cJSON/cJSON.c:703-821 | every escape RFC 8259 writes for a code point becomes its UTF-8 bytes and takes 6 or 12 input bytes |
| `Utf16.HexDigits` | extern/cJSON/cJSON.c:666-699 | the hexadecimal digits are those of 0 to F in either case, and each is worth its place |
| `Utf16.FourDigits` | extern/cJSON/cJSON.c:666-699 | four of them, in either case each, denote the number they spell |
| `Utf16.NotDigits` | extern/cJSON/cJSON.c:686-690 | four bytes that are not all digits denote 0 |
| `Decimals.ValueInt` | extern/cJSON/cJSON.c:382-394 | the int of a number is a 32-bit int, exact when the number is a 32-bit integer |
| `Decimals.FractionCut` | extern/cJSON/cJSON.c:382-394 | a number with a fraction is cut towards zero, and one beyond a C int becomes the end of the range on its side |
| `Decimals.WholeCut` | extern/cJSON/cJSON.c:382-394 | a number without a fraction keeps its value or becomes the end of the range on its side |
| `Decimals.DecimalDigits` | extern/cJSON/cJSON.c:327-357 | the decimal digits are 0 to 9, and each is worth its place |
| `Decimals.Digits` | extern/cJSON/cJSON.c:596-663 | printed digits have the number as their value, without a leading zero |
| `JsonReader.SkipSpace` | extern/cJSON/cJSON.c:1090-1113 | skipping white space never leaves the buffer, for all its stepping back |
| `JsonReader.SimpleEscapes` | extern/cJSON/cJSON.c:887-907 | the eight escapes of two characters of section 7 of RFC 8259, and the byte each stands for |
| `JsonReader.ReadString` | extern/cJSON/cJSON.c:824-951 | a string read moves the offset on, stays in the buffer and yields a NUL-free text |
| `JsonReader.ReadValue` | extern/cJSON/cJSON.c:1368-1420 | on every byte buffer: on success the offset has grown, is in bounds and the depth is restored; on failure it is in bounds |
| `JsonReader.ReadArray` | extern/cJSON/cJSON.c:1497-1592 | the same for arrays, whatever the nesting |
| `JsonReader.ReadElements` | extern/cJSON/cJSON.c:1529-1583 | the same for the element loop, which steps back one byte before each element |
| `JsonReader.ReadObject` | extern/cJSON/cJSON.c:1662-1777 | the same for objects |
| `JsonReader.ReadMembers` | extern/cJSON/cJSON.c:1692-1768 | the same for the member loop |
| `JsonReader.ReadDocument` | extern/cJSON/cJSON.c:1147-1224 | a parsed text ends inside the buffer, on its terminator when that is required; an error position is inside too |
| `JsonParser.ParseBuffer.SkipWhitespace` | extern/cJSON/cJSON.c:1090-1113 | leaves the offset where the specification says |
| `JsonParser.ParseBuffer.ParseNumber` | extern/cJSON/cJSON.c:307-408 | yields the exact number of the longest numeral and steps over just that |
| `JsonParser.ParseBuffer.SizeString` | extern/cJSON/cJSON.c:837-868 | finds the closing quote, and allocates one byte less for each pair it walked over |
| `JsonParser.StepWalk` | extern/cJSON/cJSON.c:837-928 | decoding and sizing pass may be one byte out of step, and still the sizing pass has met few enough pairs for what was decoded |
| `JsonParser.RoomLeft` | extern/cJSON/cJSON.c:837-928 | what has been decoded so far is never longer than what was allocated, whatever is left of the string |
| `JsonParser.ParseBuffer.DecodeString` | extern/cJSON/cJSON.c:862-928 | for every input, bad escapes included, the decoding pass writes only inside what the sizing pass allocated, and leaves the decoded text terminated |
| `JsonParser.ParseBuffer.ParseString` | extern/cJSON/cJSON.c:824-951 | yields the string and the end of it, or the error position |
| `JsonParser.ParseBuffer.ParseValue` | extern/cJSON/cJSON.c:1368-1420 | the running parser leaves the value, offset and depth of the specification, and terminates |
| `JsonParser.ParseBuffer.ParseArray` | extern/cJSON/cJSON.c:1497-1592 | the same for arrays, with the depth limit |
| `JsonParser.ParseBuffer.ParseElements` | extern/cJSON/cJSON.c:1529-1583 | the same for the element loop |
| `JsonParser.ParseBuffer.ParseObject` | extern/cJSON/cJSON.c:1662-1777 | the same for objects |
| `JsonParser.ParseBuffer.ParseMembers` | extern/cJSON/cJSON.c:1692-1768 | the same for the member loop |
| `JsonParser.ParseBuffer.ParseMember` | extern/cJSON/cJSON.c:1695-1750 | one name, colon and value, in that order |
| `JsonParser.ParseDocument` | extern/cJSON/cJSON.c:1147-1224 | the whole parse with byte order mark and terminator, its value and its end or error position |
| `JsonStrings.ClosesAt` | extern/cJSON/cJSON.c:837-868 | the sizing pass closes a string at the first quote that no backslash before it has taken for its second byte |
| `JsonStrings.Unescapes` | extern/cJSON/cJSON.c:870-928 | over every kind of escape, the decoding pass goes through exactly when every surrogate escape has its partner, and then yields the bytes meant |
| `JsonStrings.ReadsString` | extern/cJSON/cJSON.c:824-951 | parse_string reads a string of the grammar if and only if every high surrogate escape is followed at once by a low one and no low one stands alone, and then as what it means |
| `JsonStrings.SoundString` | extern/cJSON/cJSON.c:824-951 | and every string it reads is one of the grammar |
| `JsonStrings.WholeMeaning` | extern/cJSON/cJSON.c:927-931 | the C string that comes of it is the whole string if and only if no character is U+0000 |
| `JsonNumbers.StrtodReads` | extern/cJSON/cJSON.c:372-378 | a numeral of the grammar that is not continued is consumed whole, with its exact value |
| `JsonNumbers.ReadsNumeral` | extern/cJSON/cJSON.c:307-408 | parse_number reads every such numeral as what it means |
| `JsonNumbers.SoundNumber` | extern/cJSON/cJSON.c:307-408 | and every number it reads is one: beyond RFC 8259 there are leading zeros, a point without a fraction, and behind a minus sign a fraction without a whole part |
| `JsonGrammar.ReadsSyntax` | extern/cJSON/cJSON.c:1368-1420 | parse_value reads a text of the grammar, whatever the white space, escapes and numerals, if and only if its surrogate escapes are paired and it nests at most 1000 deep, and then as what it means |
| `JsonGrammar.ReadsItems` | extern/cJSON/cJSON.c:1529-1583 | the same for the elements of an array, read in order |
| `JsonGrammar.ReadsEntries` | extern/cJSON/cJSON.c:1692-1768 | the same for the members of an object, read in order, repeated names kept |
| `JsonGrammar.ReadsDocument` | extern/cJSON/cJSON.c:1116-1224 | the same for a document, with whatever follows it left unread; a byte order mark in front is skipped if and only if two more bytes follow it |
| `JsonExact.SoundValue` | extern/cJSON/cJSON.c:1368-1420 | everything parse_value accepts is a text of the grammar, and is read as what it means |
| `JsonExact.SoundItems` | extern/cJSON/cJSON.c:1529-1583 | so for the elements of an array, white space and commas included |
| `JsonExact.SoundEntries` | extern/cJSON/cJSON.c:1692-1768 | so for the members of an object |
| `JsonExact.ParsesExactly` | extern/cJSON/cJSON.c:1368-1420 | parse_value accepts a value with an end if and only if such a text, one that means it, stands there and ends there, a numeral as far as it goes |
| `JsonExact.DocumentExactly` | extern/cJSON/cJSON.c:1147-1224 | the same for a document behind its mark and white space, the terminator being the last byte with only white space before it when it is required |
| `JsonExact.ReadsBadDigits` | extern/cJSON/cJSON.c:666-699 | four bytes that are no digits behind `\u` are read as U+0000, which ends the string |
| `JsonStandard.StrictGood` | extern/cJSON/cJSON.c:1368-1420 | every text of sections 2 to 7 of RFC 8259 is a text of the grammar |
| `JsonStandard.ReadsJson` | extern/cJSON/cJSON.c:1147-1224 | a JSON text in a C string is parsed to its end if and only if its surrogate escapes are paired and it nests at most 1000 deep, and then as what it means |
| `JsonStandard.LoneSurrogate` | extern/cJSON/cJSON.c:728-739 | a JSON string of one lone surrogate escape is not read |
| `JsonStandard.ReadsEscape` | extern/cJSON/cJSON.c:824-951 | a JSON string of one `\u` escape, its digits in either case, is read as the UTF-8 of the character it names |
| `JsonStandard.ReadsShort` | extern/cJSON/cJSON.c:887-907 | and one of a two-character escape as the byte it stands for |
| `JsonStandard.LeadingZero` | extern/cJSON/cJSON.c:307-408 | `01` is not JSON and is read as 1 |
| `JsonStandard.BarePoint` | extern/cJSON/cJSON.c:307-408 | `-.5` is not JSON and is read as -0.5 |
| `JsonValue.KeywordsSpelled` | extern/cJSON/cJSON.c:1378-1398 | the keywords and the marks of the grammar, in ASCII |
| `JsonStandard.JsonIsLevel` | extern/cJSON/cJSON.c:954-1073 | no string of a JSON text holds a control byte |
| `JsonText.SyntaxOfIs` | extern/cJSON/cJSON.c:1423-1494 | what is printed, formatted or not, is a text of RFC 8259 that means the tree it was printed from: no control byte in a string, no leading zero, its white space only |
| `JsonText.PrintsJson` | extern/cJSON/cJSON.c:1423-1494 | so whatever is printed is a JSON text |
| `JsonText.ArrayLayout` | extern/cJSON/cJSON.c:1595-1659 | an array is its elements with commas between, each followed by a space when formatted |
| `JsonText.ObjectLayout` | extern/cJSON/cJSON.c:1780-1894 | an object is its members with commas between; formatted, each stands on its own line behind a tab for every open brace, with a tab behind the colon, and the closing brace on its own line |
| `JsonText.EscapesWritten` | extern/cJSON/cJSON.c:1024-1070 | seven bytes are written as two characters, the other control bytes as `\u00` and two lower-case digits, all others as they are |
| `JsonText.RoundTrip` | extern/cJSON/cJSON.c:1368-1494 | printing then parsing gives back the same tree, formatted or not, for every tree at most 1000 deep |
| `JsonRoundTrip.RoundTripTerminated` | extern/cJSON/cJSON.c:1147-1224 | so it does when the terminator is required, and the parse ends on it |
| `JsonRoundTrip.PrintThenParse` | extern/cJSON/cJSON.c:1147-1304 | the running printer and parser together return the tree, exactly when nesting and buffer limit allow the print |
| `JsonPrinter.PrintBuffer.Ensure` | extern/cJSON/cJSON.c:490-573 | grants the space exactly when the limit allows, keeps everything before the offset through a reallocation |
| `JsonPrinter.PrintBuffer.UpdateOffset` | extern/cJSON/cJSON.c:576-586 | `strlen` lands on the end of what has been printed |
| `JsonPrinter.PrintBuffer.CountEscapes` | extern/cJSON/cJSON.c:980-1006 | the first pass counts exactly the bytes that escaping adds |
| `JsonPrinter.PrintBuffer.PutEscaped` | extern/cJSON/cJSON.c:1024-1070 | the second pass writes exactly the escaped text, inside what was granted |
| `JsonPrinter.PrintBuffer.PrintString` | extern/cJSON/cJSON.c:954-1073 | prints the quoted text exactly, succeeding exactly when it fits |
| `JsonPrinter.PrintBuffer.PrintNumber` | extern/cJSON/cJSON.c:596-663 | prints a 32-bit integer in at most 11 bytes, exactly |
| `JsonPrinter.PrintBuffer.PrintValue` | extern/cJSON/cJSON.c:1423-1494 | from the entry offset to the NUL stands exactly the text of the tree; it succeeds exactly when nesting and limit allow |
| `JsonPrinter.PrintBuffer.PrintArray` | extern/cJSON/cJSON.c:1595-1659 | the same for arrays, with the offset on the end through every level |
| `JsonPrinter.PrintBuffer.PrintElements` | extern/cJSON/cJSON.c:1623-1647 | the same for the element loop and its separators |
| `JsonPrinter.PrintBuffer.PrintObject` | extern/cJSON/cJSON.c:1780-1896 | the same for objects, with the indentation of the formatted form |
| `JsonPrinter.PrintBuffer.PrintMembers` | extern/cJSON/cJSON.c:1812-1876 | the same for the member loop |
| `JsonPrinter.TextNulFree` | extern/cJSON/cJSON.c:576-586 | no printed text holds a NUL, which is what lets `strlen` find its end |
| `JsonPrinter.Print` | extern/cJSON/cJSON.c:1239-1304 | the growing print returns the text and its terminator, exactly when nesting and INT_MAX allow |
| `JsonPrinter.PrintPreallocated` | extern/cJSON/cJSON.c:1348-1365 | the same into the caller's memory, never beyond it |
| `ChildList.Node.LinkParsed` | extern/cJSON/cJSON.c:1531-1580 | what the parser links item by item is, in the end, a doubly linked list of them in order with the first child's `prev` on the last |
| `ChildList.Node.GetItem` | extern/cJSON/cJSON.c:1922-1939 | returns the child at the index, or none |
| `ChildList.Node.Append` | extern/cJSON/cJSON.c:2027-2058 | the list stays doubly linked with the first child's `prev` on the last, and gains the item at its end |
| `ChildList.Node.Insert` | extern/cJSON/cJSON.c:2334-2366 | so it does with the item at the index, or at the end when the index is past it |
| `ChildList.Node.Detach` | extern/cJSON/cJSON.c:2258-2292 | the item, and only it, leaves the list and is unlinked; an item of no list changes nothing |
| `ChildList.Node.Replace` | extern/cJSON/cJSON.c:2368-2415 | the replacement stands where the item stood, and the list stays linked |
| `ChildList.WithoutIs` | extern/cJSON/cJSON.c:2258-2292 | detaching by pointer removes exactly one place |
| `ChildList.ReplacedIs` | extern/cJSON/cJSON.c:2368-2415 | replacing by pointer changes exactly one place |
| `ChildList.InsertThenDetach` | extern/cJSON/cJSON.c:2258-2366 | detaching what was inserted restores the list |
| `ChildList.DetachThenInsert` | extern/cJSON/cJSON.c:2258-2366 | inserting what was detached where it was restores the list |
| `JsonLookup.CaseInsensitiveStrcmp` | extern/cJSON/cJSON.c:133-154 | is zero exactly for strings that agree up to case |
| `JsonLookup.GetObjectItem` | extern/cJSON/cJSON.c:1951-1981 | finds the first member whose name agrees up to case, and none in anything but an object |
| `JsonLookup.LookupIs` | extern/cJSON/cJSON.c:1951-1979 | that is the value of the first member with the name, and none when there is none |
| `JsonLookup.LowerIs` | extern/cJSON/cJSON.c:133-157 | only the 26 letters lose their case |
| `LedgerTables.ExecuteAdvances` | server/src/services/orders_service.c:9-130 | every statement leads on to a position of the same call that is nearer its end |
| `LedgerRuns.Serialisable` | server/src/services/orders_service.c:9-130 | in every interleaving with any failures, one call owns the open transaction, and the committed tables and results are those of the committed calls run one at a time in commit order; failed calls leave no trace |
| `LedgerRuns.OnlyOwnerEnds` | server/src/services/balance_service.c:41-79 | only the owner's own COMMIT or ROLLBACK ends a transaction |
| `LedgerRuns.RunKeeps` | server/src/services/balance_service.c:86-150 | at every step the open transaction is heading for what the whole call makes of the tables it saw first |
| `LedgerRuns.RunLogs` | server/src/services/users_service.c:9-44 | every call that committed is in the commit order once, with the outcome it reported, and nothing else is |
| `LedgerRuns.RepliesRight` | server/src/services/balance_service.c:86-150 | a call that ends without a failure, by COMMIT or by a planned ROLLBACK, replies what it would have replied alone on the tables it saw first |
| `LedgerRuns.RestCommutes` | server/src/services/products_service.c:146-166 | a price update after a call's first statement changes nothing of what the call goes on to do |
| `LedgerRuns.RepriceFate` | server/src/services/products_service.c:146-166 | a price update inside somebody's transaction lasts exactly when that transaction commits |
| `LedgerRuns.PriceUpdateLost` | server/src/services/products_service.c:146-166 | a run in which a price update that reported success is gone |
| `LedgerLaws.InSlotsUpdate` | server/src/services/orders_service.c:84-97 | changing one slot changes the total of its item by as much |
| `LedgerLaws.ColumnIntIs` | server/src/services/balance_service.c:112-116 | sqlite3_column_int keeps the low 32 bits |
| `LedgerLaws.DepositIs` | server/src/services/balance_service.c:41-79 | a deposit commits, and adds its amount to the balance and to the transactions |
| `LedgerLaws.DepositKeeps` | server/src/services/balance_service.c:47-71 | and keeps rows and stock in order and the transaction sums as far from the balances as they were |
| `LedgerLaws.CashOutIs` | server/src/services/balance_service.c:86-150 | a cash-out of a positive balance pays and logs what it read; nothing to pay or nobody there changes nothing |
| `LedgerLaws.CashOutKeeps` | server/src/services/balance_service.c:112-140 | it logs less than the balance it zeroes if and only if the balance does not fit a C int, and by exactly the difference |
| `LedgerLaws.CashOutTruncates` | server/src/services/balance_service.c:112-140 | with 2^32 + 5 grosze it commits, pays 5, zeroes the balance and breaks the books |
| `LedgerLaws.CashOutRejected` | server/src/services/balance_service.c:112-140 | with 2^31 + 5 grosze it fails and the money stays |
| `LedgerLaws.RestockIs` | server/src/services/products_service.c:105-139 | a restock adds to its slot and to the stock log; of a missing slot it changes nothing |
| `LedgerLaws.RestockKeeps` | server/src/db/db.c:56-93 | and keeps the books in the same sense |
| `LedgerLaws.PurchaseIs` | server/src/services/orders_service.c:9-130 | a purchase goes through exactly when slot, user, stock and balance allow, moving one price and one piece and logging both |
| `LedgerLaws.PurchaseKeeps` | server/src/services/orders_service.c:62-121 | and keeps the books in the same sense |
| `LedgerLaws.LookupIs` | server/src/services/users_service.c:9-44 | a lookup commits and binds the fingerprint to one user for good, a new one with an empty account |
| `LedgerLaws.LookupKeeps` | server/src/services/users_service.c:15-35 | and keeps the books in the same sense |
| `LedgerLaws.SetPriceKeeps` | server/src/services/products_service.c:146-166 | so does a price update |
| `LedgerLaws.PurchaseReplies` | server/src/services/orders_service.c:5-130 | a purchase by itself succeeds exactly when the slot has a piece and the user the money; then it moves one price and one piece, logs both, and changes nothing else |
| `LedgerLaws.DepositReplies` | server/src/services/balance_service.c:32-80 | a deposit by itself fails exactly when the amount is not positive, and otherwise adds it and its row |
| `LedgerLaws.CashOutReplies` | server/src/services/balance_service.c:82-151 | a cash-out by itself pays what the column reads when that is positive; nobody, nothing and a negative reading have each their reply |
| `LedgerLaws.RestockReplies` | server/src/services/products_service.c:96-140 | a restock by itself fails exactly when the quantity is not positive or the slot is missing |
| `LedgerLaws.LookupReplies` | server/src/services/users_service.c:5-45 | a lookup by itself never fails: a known fingerprint is its user, a new one the next user with nothing in the account |
| `LedgerLaws.SetPriceIs` | server/src/services/products_service.c:146-166 | a price update sets the price of that item, of no other one, and nothing else |
| `LedgerLaws.TransactionTaken` | init.sql:33-48 | a transaction row is taken exactly when its user and item are known and its columns fit its type |
| `LedgerLaws.StockLogTaken` | init.sql:50-60 | a stock log row is taken exactly when its item is known and its sign fits its type |
| `LedgerLaws.RowsUpdated` | init.sql:13-31 | no balance and no quantity goes below zero, and no other row changes |
| `LedgerTheorems.CallAccepted` | init.sql:11-59 | run alone on good rows, only a cash-out that reads a negative balance is rejected |
| `LedgerTheorems.CallKeeps` | server/src/services/balance_service.c:112-140 | a committed call raises nobody's transaction sum over the balance, except a cash-out of a balance beyond a C int, which always does |
| `LedgerTheorems.ReplayKeeps` | server/src/services/orders_service.c:33-121 | along any commit order rows and stock stay in order, no sum ever falls behind, and the sums stay where they were if and only if every cash-out met a balance within a C int |
| `LedgerTheorems.BooksBalance` | init.sql:11-59 | in every committed state of every run balances and stock are non-negative, slots add up to the stock log, removals are purchases and prices are positive; and balances are transaction sums if and only if no committed cash-out met a balance beyond a C int |
| `LedgerTheorems.NothingRejected` | init.sql:11-59 | in every reachable state, a CHECK or foreign key rejects the open transaction's next statement if and only if it is the log row of a cash-out that read a negative balance |
| `LedgerTheorems.SeedIsSound` | init.sql:61-171 | seed rows with positive prices and quantities and distinct slots balance |
| `LedgerTheorems.SeededBooksBalance` | init.sql:61-171 | the same in every run from the rows of init.sql |
| `LedgerFutures.LogGrows` | server/src/services/orders_service.c:9-130 | the commit order only grows along a run |
| `LedgerFutures.PriceLasts` | server/src/services/products_service.c:146-166 | a price update survives every continuation if and only if no transaction is open when it is issued |
| `LedgerFutures.SerialOrderRuns` | server/src/services/orders_service.c:9-130 | any calls, one at a time in any order, are a run |
| `LedgerFutures.TruncationReached` | server/src/services/balance_service.c:112-140 | from the rows of init.sql, three deposits and a cash-out reach a committed state whose books do not balance |
| `LedgerFutures.RejectionReached` | server/src/services/balance_service.c:112-140 | from the rows of init.sql, two deposits and a cash-out end in a failure that leaves the money in place |
| `LedgerServices.Connection.BeginTransaction` | server/src/services/orders_service.c:9-13 | BEGIN fails inside a transaction, and takes the snapshot otherwise |
| `LedgerServices.Connection.RollbackTransaction` | server/src/services/orders_service.c:30-39 | ROLLBACK restores the tables at BEGIN |
| `LedgerServices.Connection.LogTransaction` | server/src/db/db.c:33-54 | adds the row, or nothing when a CHECK, a foreign key or a fault says no |
| `LedgerServices.Connection.LogStockChange` | server/src/db/db.c:56-93 | adds the row under the slot's item, or nothing when there is no such slot |
| `LedgerServices.Connection.BalanceDeposit` | server/src/services/balance_service.c:32-80 | with any faults: nothing while another transaction is open, and otherwise what the call does alone, the transaction closed again |
| `LedgerServices.Connection.BalanceReset` | server/src/services/balance_service.c:82-151 | the same |
| `LedgerServices.Connection.ProductRestock` | server/src/services/products_service.c:96-140 | the same |
| `LedgerServices.Connection.OrdersPurchase` | server/src/services/orders_service.c:5-130 | the same, over all eight statements |
| `LedgerServices.Connection.UsersLookup` | server/src/services/users_service.c:5-45 | the same |
| `LedgerServices.Connection.ProductUpdatePrice` | server/src/services/products_service.c:142-166 | sets a positive price, in or out of a transaction |
| `LedgerServices.AllOrNothing` | server/src/services/orders_service.c:9-130 | a call does all it does when none of its statements fails, its COMMIT included, and nothing when one does, whichever it is |
| `LedgerServices.DrivenAlone` | server/src/services/orders_service.c:9-130 | a service method does what its call does in module LedgerRuns when nobody interferes |
| `LedgerServices.DrivenService` | server/src/services/orders_service.c:5-130 | so does a whole call from its start: it fails at once when it is refused or another transaction is open |
| `LedgerServices.DrivenPrice` | server/src/services/products_service.c:142-166 | and a price update among the calls |
| `PoolSections.Pool.AddWork` | server/src/threadpool/threadpool.c:113-121 | the linked queue gains the job at its end |
| `PoolSections.Pool.GetWork` | server/src/threadpool/threadpool.c:214-230 | the linked queue gives up its first job |
| `PoolSections.Pool.EnterSection` | server/src/threadpool/threadpool.c:153-165 | a worker sleeps, leaves or takes the first job, with both counters kept |
| `PoolSections.Pool.FinishSection` | server/src/threadpool/threadpool.c:172-178 | a worker reports back and signals exactly when it was the last busy one and nothing is queued |
| `PoolSections.Pool.CheckSection` | server/src/threadpool/threadpool.c:133-144 | tpool_wait goes on waiting exactly under its condition |
| `PoolSections.Pool.StopSection` | server/src/threadpool/threadpool.c:80-90 | tpool_destroy empties the queue and raises the flag |
| `PoolSections.JobsOfTail` | server/src/threadpool/threadpool.c:214-230 | the jobs behind the first are those of the list behind its first node |
| `PoolRuns.InvAfter` | server/src/threadpool/threadpool.c:72-185 | counters, sleepers, order and conservation hold after every run |
| `PoolRuns.OneFate` | server/src/threadpool/threadpool.c:72-185 | in every run jobs are started in the order added, each at most once, and each added job is exactly one of queued, running, finished or discarded |
| `PoolRuns.LogsGrow` | server/src/threadpool/threadpool.c:72-185 | what was started, finished or discarded stays so |
| `PoolRuns.NoWakeupLost` | server/src/threadpool/threadpool.c:113-184 | a sleeping worker has no job to take and no stop to obey, a sleeper in tpool_wait still has to wait; both counters count what they are meant to |
| `PoolRuns.WaitReturns` | server/src/threadpool/threadpool.c:128-145 | tpool_wait goes past its loop exactly when nothing is queued or busy, or after the stop when no worker is left; every job is accounted for then |
| `PoolRuns.StuckOnlyAtRest` | server/src/threadpool/threadpool.c:148-185 | some step of the pool's threads is enabled, in every run, exactly until there is nothing left to do |
| `PoolRuns.MeasureFalls` | server/src/threadpool/threadpool.c:148-185 | every step that is not a stray wake-up lowers the measure |
| `PoolRuns.Settles` | server/src/threadpool/threadpool.c:148-185 | without new jobs or calls the pool's threads take at most as many steps as the measure says, three more for each stray wake-up |
| `PoolRuns.DestroyReturns` | server/src/threadpool/threadpool.c:72-99 | once the flag is up every run is finite, and one that cannot go on has let every worker out and tpool_destroy return |
| `PoolRuns.DestroyDiscards` | server/src/threadpool/threadpool.c:72-99 | when tpool_destroy comes back, every job added has finished except exactly those queued when it was called, and those never started |
| `PoolRuns.JobDiscarded` | server/src/threadpool/threadpool.c:80-90 | a run in which an added job is never started |
| `RouteTree.Node.FindChild` | server/src/api/router/radix_tree/radix_tree.c:139-147 | finds the child of that name, if there is one |
| `RouteTree.Node.FindWild` | server/src/api/router/radix_tree/radix_tree.c:103-110 | finds the first wildcard child |
| `RouteTree.FirstWildChild` | server/src/api/router/radix_tree/radix_tree.c:103-110 | the first wildcard child of a node is the first wildcard registered there |
| `RouteTree.ChildNamesAre` | server/src/api/router/radix_tree/radix_tree.c:57-75 | a node has a child for a segment exactly when a registered path goes there |
| `RouteTree.Tree.AddNode` | server/src/api/router/radix_tree/radix_tree.c:47-80 | extending the tree in place appends the route to the list the tree stands for |
| `RouteTree.Tree.SearchNode` | server/src/api/router/radix_tree/radix_tree.c:93-122 | computes the literal-first, first-registered-wildcard walk over that flat list |
| `RouteList.FindRegistered` | server/src/api/router/radix_tree/radix_tree.c:47-122 | a registered path finds what was last registered under it |
| `RouteList.Registering` | server/src/api/router/radix_tree/radix_tree.c:47-122 | registering a route makes its own path return its payload and changes no other registered path's result |
| `RouteList.FirstWildFirst` | server/src/api/router/radix_tree/radix_tree.c:103-110 | the wildcard a search takes is the one of the first path registered with one there |
| `RouteList.WalkFound` | server/src/api/router/radix_tree/radix_tree.c:93-122 | whatever the table, a search only finds a registered path that matches segment by segment |
| `RouteList.FindMatches` | server/src/api/router/radix_tree/radix_tree.c:93-122 | when no node mixes a wildcard child with others, a handler is found exactly when a matching route carries it |
| `RouteList.WalksPast` | server/src/api/router/radix_tree/radix_tree.c:93-122 | where a wildcard of one path and a segment of another meet, some search matches the first path and never finds it |
| `RouteList.ExactlyUnmixed` | server/src/api/router/radix_tree/radix_tree.c:93-122 | when the routes have handlers of their own, searches are exact if and only if no node mixes a wildcard child with others |
| `RouteList.MixedMisses` | server/src/api/router/radix_tree/radix_tree.c:93-122 | in a mixed table a matching route can be missed, because the walk never backs up |
| `Router.TokensJoined` | server/src/api/router/radix_tree/radix_tree.c:50-74 | cutting a joined path at its delimiters gives the segments back |
| `Router.TokensSplit` | server/src/api/router/radix_tree/radix_tree.c:50-74 | what stands between delimiters is cut by itself |
| `Router.TokensWhole` | server/src/api/router/radix_tree/radix_tree.c:50-74 | and is one segment, or none when it is empty |
| `Router.InitRouter` | server/src/api/router/router.c:17-57 | builds a tree that stands for exactly the seven routes of the program |
| `Router.Lookup` | server/src/api/router/router.c:63-70 | dispatch finds in the tree what the flat list says for the path |
| `Router.TableUnmixed` | server/src/api/router/router.c:17-57 | no node of that table mixes a wildcard child with others |
| `Router.TableFinds` | server/src/api/router/router.c:17-70 | every request path is routed to the handler it is meant for, and every other path to none |
| `KeySequence.NoOverlap` | tui/src/app.c:8-11 | two occurrences of the sequence never overlap |
| `KeySequence.WindowSees` | tui/src/app.c:88-101 | the window of the keys since the last hit shows every occurrence in the whole history |
| `KeySequence.AdminParity` | tui/src/app.c:88-101 | without a locking Escape the admin keys are unlocked after an odd number of occurrences |
| `RowNavigation.Grid.Refresh` | tui/src/app.c:56-60 | after a new list the selection is on a product, the same index if it still exists |
| `RowNavigation.Grid.FindInRow` | tui/src/app.c:108-119 | the nearest column of the row, first index on ties, or -1 for an empty row |
| `RowNavigation.Grid.Scan` | tui/src/app.c:134-147 | the first occupied row from the start on in the direction |
| `RowNavigation.Grid.MoveVertical` | tui/src/app.c:121-149 | Down lands on the next occupied row or the top one when none is below, Up mirrored, at the nearest column with first index on ties |
| `RowNavigation.Grid.MoveHorizontal` | tui/src/app.c:103-106 | the next or previous product, cyclically |
| `RowNavigation.MovesOnce` | tui/src/app.c:121-149 | that description leaves one place to land |
| `RowNavigation.NearestFirst` | tui/src/app.c:108-119 | no slot of the row is nearer, and none before it as near |
| `RowNavigation.RowColIs` | tui/src/app.c:25-28 | row and column are the tens and the last digit of a slot, rounded as C divides |
| `RowNavigation.OnceAround` | tui/src/app.c:121-149 | pressing once per occupied row visits every one of them and ends in the first |
| `RowNavigation.NeverTwice` | tui/src/app.c:121-149 | and visits none of them twice |
| `Money.ParseWhole` | tui/src/app.c:163-172 | the whole part, refused early only when the amount would be too large anyway |
| `Money.ParseCents` | tui/src/app.c:173-183 | at most two decimals, one of them counting as tens |
| `Money.ParseZlToGr` | tui/src/app.c:163-188 | the amount of the text or -1, with no overflow of a 64-bit long on the way |
| `Money.ParsePosInt` | tui/src/app.c:190-199 | the quantity of a text of digits when a C int can hold it and it is not zero, and -1 otherwise |
| `Money.MoneyIs` | tui/src/app.c:163-188 | every text of digits with an optional point and at most two decimals is accepted exactly when its value is at most INT_MAX, with that value |
| `Money.MoneyOnly` | tui/src/app.c:163-188 | and nothing else is accepted |
| `Money.MoneyRoundTrip` | tui/src/app.c:30-32 | every amount from 0 to INT_MAX is printed as text that reads back as the same amount |
| `Money.ZerosLeftOff` | tui/src/app.c:163-188 | zeros may be left off behind the point, and the point too |
| `App.App.FeedKonami` | tui/src/app.c:88-101 | over every history, the admin flag toggles at exactly the keys that complete the sequence |
| `App.App.Refresh` | tui/src/app.c:50-69 | a new list and balance when they come, and the server is down when either answer fails to arrive |
| `App.App.ConfirmPrompt` | tui/src/app.c:237-283 | sends the deposit, restock or price the text asks for, if it is a proper one; closes the prompt, and refreshes unless the call found the server down |
| `App.App.DoBuy` | tui/src/app.c:201-219 | asks for the selected product exactly when it is in stock and the balance reaches |
| `App.App.HandlePrompt` | tui/src/app.c:294-312 | the prompt in its 16-byte buffer: Escape, Enter, erasing, and as many digits and points as fit |
| `App.App.HandleKey` | tui/src/app.c:285-330 | every key in every mode: the whole new view and the call that goes out are the specified ones |
| `AppRuns.RunShape` | tui/src/app.c:285-330 | in every run a prompt is never open while the server is down, its text is digits and points and fits, and the selection is on a product |
| `AppRuns.AdminIs` | tui/src/app.c:285-330 | in every run the admin flag is what the keys say, with Escape locking it just in the views where it is seen to browse |
| `AppRuns.AdminPrompt` | tui/src/app.c:325-326 | a restock or price prompt has been opened with the admin keys unlocked |
| `AppRuns.AdminRequest` | tui/src/app.c:257-277 | every restock or price request comes from such a prompt; the admin keys are still unlocked then if and only if the sequence has been typed into it an even number of times |
| `AppRuns.LockedRequest` | tui/src/app.c:257-266 | a run in which a restock goes out with the admin keys locked |
| `AppRuns.DepositTyped` | tui/src/app.c:237-256 | from every browsing view, `d`, an amount as it is printed, and Enter ask for a deposit of that amount |
| `AppCalls.PurchaseSent` | tui/src/app.c:201-219 | a purchase goes out if and only if Enter or the space bar is pressed while browsing on a product of that slot that is in stock and that the balance reaches |
| `AppCalls.CashOutSent` | tui/src/app.c:221-235 | a cash-out goes out if and only if `c` is pressed while browsing |
| `AppCalls.DepositSent` | tui/src/app.c:240-256 | a deposit goes out if and only if Enter confirms its prompt with a positive amount, that amount |
| `AppCalls.RestockSent` | tui/src/app.c:257-266 | a restock goes out if and only if Enter confirms its prompt with a quantity: for the slot of the selected product |
| `AppCalls.PriceSent` | tui/src/app.c:267-277 | a price goes out if and only if Enter confirms its prompt with a positive amount: for the item of the selected product |
| `AppCalls.PriceTyped` | tui/src/app.c:267-277 | from every browsing view with the admin keys unlocked, `p`, an amount as it is printed, and Enter ask for that price for the item selected |
| `AppCalls.RestockTyped` | tui/src/app.c:257-266 | likewise `s` and any quantity in digits, for the slot selected |
| `AppCalls.ListShown` | tui/src/app.c:50-69 | the view shows the list last answered, after just the keys that refresh it |
| `AppCalls.BalanceShown` | tui/src/app.c:50-69 | and the balance last answered |
| `AppCalls.ServerDown` | tui/src/app.c:71-86 | the server counts as down exactly when the last call or refresh has not reached it |
| `AppCalls.PromptAfter` | tui/src/app.c:285-330 | which keys open which prompt, and which close it |
| `AppCalls.TextAfter` | tui/src/app.c:299-310 | the prompt takes digits and points up to fifteen and erases from the end |
| `AppCalls.SelectedAfter` | tui/src/app.c:103-149 | the selection after every key and every new list |
| `AppCalls.Quits` | tui/src/app.c:288-324 | the keys that end the program |
| `AppCalls.AdminAfterKey` | tui/src/app.c:88-101 | the flag toggles with the ten keys in a row whatever the mode, and Escape clears it while browsing |
| `AppCalls.Starts` | tui/src/app.c:34-42 | how the interface starts |
| `StockListing.StockBody` | server/src/api/router/handlers/products.c:29-46 | the loop leaves exactly the text in its buffer, every write inside it, when the text fits |
| `StockListing.ListedFits` | server/src/api/router/handlers/products.c:29 | it fits when no product's text takes more than 127 bytes, which is 69 for the name and the digits |
| `StockListing.FitsExactly` | server/src/api/router/handlers/products.c:29 | the text fits if and only if names and numbers take less than 69 bytes a product and 7 more |
| `StockListing.TwoWideRows` | server/src/api/router/handlers/products.c:29-46 | two rows of the allowed sizes that do not fit |
| `StockListing.KeysSpelled` | tui/src/api_client.c:110-114 | the five names of a product, in ASCII |
| `StockJson.StockTextIs` | server/src/api/router/handlers/products.c:36-46 | for names without quote or backslash the text is one of the grammar and means the list of the products |
| `StockJson.StockIsJson` | server/src/api/router/handlers/products.c:36-46 | and it is JSON if and only if no name holds a control byte |
| `StockClient.GetStock` | tui/src/api_client.c:99-128 | reads any response as the products of its elements, missing or odd fields as zero, or reports a parse error |
| `StockClient.StockReadIs` | tui/src/api_client.c:99-128 | a parse error is reported if and only if no text of the grammar that means an array stands in the response; otherwise there is one record per element, each field the number or the text under its name, or nothing |
| `StockClient.MemberFound` | tui/src/api_client.c:110-114 | each of the five names finds its own member, case aside |
| `StockNames.BadName` | extern/cJSON/cJSON.c:824-951 | a name with a quote or a backslash is read as something shorter, or beyond its closing quote |
| `StockNames.StockRoundTrip` | tui/src/api_client.c:99-128 | the client reads the server's text back as the same products in the same order if and only if no name holds a quote or a backslash |
| `StockNames.ListAndRead` | tui/src/api_client.c:99-128 | from the server's buffer to the client's records nothing is lost or changed exactly then |

## Left out

- Floating point: a number is its exact decimal value, `strtod` the exact value of the longest numeral in the "C" locale; the precision choices of print_number for other than 32-bit integers, and locales, are not modelled.
- Allocation failure, custom allocators and the hooks of cJSON; `NULL` items and strings.
- Raw items, references, constant keys, the type predicates, cJSON_Minify and cJSON_Compare.
- The parser and the printer of the model keep children as sequences; that the links the parser makes are such a list, and what every edit of it does, is shown in module ChildList.
- `Decimals.Strtod`: the C library's conversion is written as a function on the characters that parse_number hands over; its own code is not part of this model.
- JsonParser.ParseBuffer.ParseNumber: yields the exact decimal value where the code stores the nearest double.
- JsonNumbers.StrtodReads: the value is the exact decimal, not the double that the C library rounds it to.
- JsonNumbers.ReadsNumeral: the same exact value in place of the stored double.
- JsonPrinter.PrintBuffer.PrintNumber: only the `%d` branch, for 32-bit integers; the other branches print a double.
- Whether bytes from 128 on make up UTF-8 characters: parser and printer pass them through, and `JsonStandard.Strict` does not look into them.
- The error position of a failed parse beyond lying in the buffer: nothing in the program asks for it.
- LedgerLaws.CashOutKeeps: `-balance` of INT_MIN is undefined in C; the tables here reject the row.
- Price updates outside transactions: what the admin sees between a lost update and its rollback.
- balance_get, products_list and product_get only read, and may read inside somebody's transaction; nothing is claimed of what they see.
- SQLite errors that roll a transaction back by themselves, a failing ROLLBACK, and the time stamps and row ids of the two logs.
- The item id and user id are read as C ints; a user id beyond 2^31 is found truncated by users_lookup, as in the code, and nothing more is said of it.
- tpool_create failing half way through starting its threads, and what a job does while it runs.
- Draining at shutdown: the code discards queued jobs, so that is what is proved.
- tpool_wait called by two threads at once, and tpool_add_work after tpool_destroy: the program does neither.
- The hidden state of `strtok`, shared between workers: a search is one call on the tokens of its path. A tree without a wildcard character: the program makes one tree, with `/` and `:`.
- HTTP: parsing of requests, status codes, tokens, and the 8192-byte response buffer with its header; the client's response body is taken to be the server's text.
- Messages and labels of the text interface; ncurses drawing, sockets, signals, configuration and the key script. What the calls of app_handle_key are answered is a parameter of each key.
