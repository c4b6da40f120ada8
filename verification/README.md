# Record stores and protocols of a game server

This project models the parts of a multiplayer game server in which records are rewritten in place
under promises that span many operations, and proves those promises:

- **The market** is a limit order book of three resources, two sides and 251 prices. Each price is a
  first-in-first-out list threaded through one table of slots; free slots form another list in the same
  table; every player has a second copy of their own bids. `OrderBook`, `OrderWorld` and `OrderRuns` say
  what a matching engine with price-time priority does, independently of any file, and prove
  conservation and "never crossed" over all runs of orders that are not negative; `OrderTrade` says what one order
  does to each purse and to the book, in figures. `MarketFile`, `MarketIndex`
  and `MarketDb` are the files and their routines; `MarketExec`, `MarketDecay` and `MarketQuote` are the
  commands, the tick and the special operations, each proved to do what the engine does.
- **MD5** exists twice in the server. `Md5Rfc` is RFC 1321; `Md5Process`, `Md5Transform`, `Md5Stream` and
  `Md5Gnu` are the two implementations, proved equal to it, and so to each other, for any chunking within the
  limits named below. `Md5Vectors` computes digests of its test suite.
- **Base64**: `Base64Rfc` is section 4 of RFC 4648 and decoding as a stream of characters; `Base64` is the
  encoder, `Base64Decoder` the resumable decoder and an older one. `Base64Vectors` has the alphabet and the test
  vectors, and says which texts are accepted.
- **JSON**: `JsonText` and, for numbers, `JsonNumber` say what the printer prints and the parser parses,
  `JsonRoundTrip` proves the round trip, `JsonUnicode` is about escapes, `JsonLiteral` about the two passes over
  a string literal; `JsonGrammar` has texts with any white space, escapes and forms of numbers, which are read as what
  they mean or refused; `JsonVectors` shows the printer's output letter by letter; `JsonPrinter` and `JsonParser` are the
  routines with their buffers.
- **Mail boxes and forum threads** are chains of byte offsets compacted in place: `ByteFile`, `ChainFile`,
  `MailFile`, `ForumFile`.
- **News lists** with expiry and reuse of slots: `NewsRules` on rows, `NewsFile` on links, `NewsDb` the
  routines.
- **Rankings** (`Ranking`) are an insertion sort done as a doubly linked list inside a flat array;
  `RankSort` is sorting by counting smaller entries.
- **Planets** are owned in the map and listed per player (`Planets`). `SwapLast` is the removal all lists of
  records share.
- **Battles** (`Battle`) account for every unit over four phases, whatever the damage.
- **Pacts** between empires are two mirrored records driven by two tables (`Nap`, `NapRuns`, `NapDb`); the tick ends pacts
  and wars (`NapTick`).

Files are fields of classes (`seq` of records, or of bytes), C arrays that are sorted or filled in place are
`array`, and a loop of the source is a loop here. What a routine means is a function on the abstract
content (queues of orders, rows, messages, a pact); each method is proved against it and the lemmas
are about it.

Some promises do not hold of the code as it stands. There the code was kept, the exact condition under
which it does hold is proved, and another member shows an input that fails:

- `MarketQuote.QuoteIsTrueIff`: stored totals have 32 bits, so a price level whose quantities add up to a
  multiple of 2^32 is not quoted, and one that holds 2^31 units or more is quoted with another quantity
  (`ThreeSalesAreQuotedAsNone`: three sales at one price).
- `Base64Rfc.PiecesDecode`: an empty piece is an order to flush, and fails inside a quadruple
  (`EmptyPieceInside`).
- `Base64Decoder.RoomSufficesIff`: the allocating variant makes room for the piece alone; what characters kept
  from an earlier piece complete may not fit, and then the last byte is lost (`LastByteLost`: three characters
  kept and one more). Padding and newlines in the piece make up for it.
- `OrderRuns.PlaceKeepsInvariantIff`, `OrderRuns.CreatesEnergyIff`: nothing keeps an order's quantity from being
  negative. Such an order leaves the book sound exactly when it finds one to trade with (`NegativeRests`), and
  creates energy exactly when it is a purchase and somebody sells below its price (`NegativePurchase`).
- `Md5Gnu.CountIsRightIff`: the first MD5 counts a length right exactly when no chunk has 2^32 bytes
  (`LongChunkLost`).
- `Md5Gnu.SameBitCountIff`: from 2^38 bytes on the second implementation pads with another length
  (`BitCountLost`).
- `Base64Decoder.LinesDecodeIff`: the older decoder skips line breaks but counts them; it ends in time exactly when
  there are none or the text ends with padding (`LastLineBreak`).
- `JsonRoundTrip.SurvivesIff`: a tree survives printing and parsing exactly when its numbers are written without
  loss (`TinyIsLost`, `SeventhDecimalIsLost`).
- `ForumFile.ForumRemovePost`: a negative index is refused only after the thread's count went down
  (`RemoveMinusOne`).
- `ForumFile.ForumEditPost`: the posts behind an edited one are read back and written again; that works exactly
  when each of them has less than 65536 characters and the thread has at most 65536 posts or ends with the
  edited one. An edit may itself store a longer text (`EditSpoilsThread`).
- `NewsRules.FirstRowsAreCurrentIff`: the count returned for an empire's news cuts its rows down to the
  current ones exactly when no expired row stands before a current one (`ExpiredRowFirst`).
- `RankSort.EveryPlaceTakenIff`: sorting by counting fills every place exactly when no two entries are equal
  (`EqualEntries`).
- `Planets.PlanetStore.Explore`, `Planets.SettlingAgreesIff`: settling a planet breaks the index exactly when it has
  an owner, and an old civilisation may just have given the explorer the very planet he explores
  (`OwnPlanetSettled`).
- `Battle.GarrisonSurvivesIff`: the flag for "somebody is left" has 32 bits and looks at fighting units only, so
  when a planet is taken some garrisons vanish (`OverlookedGarrisons`: 2^32 soldiers; a single unit of a kind
  that does not fight).
- `Nap.OfferMirrorsIff`: an empire that replaces its own pending timed offer by an infinite one makes the
  two records disagree (`OutbidsItself`).
- `NapDb.RelationStore.DelNap`: a cancellation finds the other empire's half of the pact exactly when no alliance or
  war with the empire stands before it in that list; else it removes that (`WarBeforePact`).
- `NapTick.TickRelations`: the walk over a copy of the list misses a record that is due exactly when fewer records
  follow it than were due before it (`SecondOfTwoIsMissed`: two pacts, both due).
- `JsonLiteral.FitsIff`: a JSON string literal is read in two passes, and the second takes the characters of a `\u`
  without looking. It stays inside the text and the buffer that the first pass sized, whatever follows the
  literal, exactly when it does not step over the literal's closing quote (`JumpedQuoteOverruns`: a quote
  right after `\u`).

## Model

| member | source | states |
|---|---|---|
| OrderBook.TakeServesAPrefix | cmdexec.c:880-917 | matching serves a prefix of the line of resting orders, every order before the last one whole |
| OrderBook.TakeTotals | cmdexec.c:880-983 | whatever the sign of the incoming quantity, fills plus what is left of it are that quantity, and all of it is served or nobody is left |
| OrderBook.SweepIsPriceTime | cmdexec.c:878-970 | matching level by level is taking from one line of orders, best price first and oldest first within a price: same fills, same remaining orders |
| OrderBook.FillQueueIsTake | cmdexec.c:883-916 | one level is served oldest first, and only the last order served may keep a rest |
| OrderBook.SweepFrame | cmdexec.c:878-970 | levels outside the limit are untouched |
| OrderWorld.SettleTotals | cmdexec.c:902-911 | paying the parties of the fills, also of a trade with oneself, moves exactly the traded amounts |
| OrderTrade.SettleOneEach | cmdexec.c:902-911 | one fill, by user: the side that buys gets the goods, the side that sells the energy, also when both are one user |
| OrderTrade.SettleEach | cmdexec.c:902-963 | all fills, by user: goods rise by the amounts bought, energy by price times amount of what was sold |
| OrderTrade.PlacePays | cmdexec.c:866-990 | after an order each purse is what it was, plus what the fills bring its user, less, for who placed it, price times quantity of a purchase or the goods of a sale |
| OrderTrade.CounterpartIs | cmdexec.c:878-970 | a buyer meets exactly the sales up to his price, the lowest first, a seller exactly the purchases from his price on, the highest first |
| OrderTrade.PlaceMatches | cmdexec.c:878-986 | those are served from the front, all but the last one whole; what is left goes to the end of the order's own level, only when nobody is left to trade with; nothing else in the book changes |
| OrderTrade.TenAtFive | cmdexec.c:878-917 | who buys 10 units that somebody else sells at 5 gets them and the other one 50 energy |
| OrderRuns.PlaceKeepsInvariant | cmdexec.c:824-990 | placing an order that is not negative keeps quantities positive, slots distinct and the book uncrossed |
| OrderRuns.PlaceKeepsInvariantIff | cmdexec.c:824-990 | placing an order of any quantity does so exactly when the quantity is not negative or there is an order it could trade with |
| OrderRuns.NegativeRests | cmdexec.c:846-990 | a purchase of -5 in an empty market comes to rest |
| OrderRuns.BookSweepClears | cmdexec.c:878-986 | if anything of an order is left to rest, no order it could trade with is left |
| OrderRuns.StepKeepsInvariant | cmdexec.c:824-1021 | every other operation, also decay and destruction of bids, keeps that invariant |
| OrderRuns.RunKeepsInvariant | cmdexec.c:824-1021 | in every run without negative orders from a sound market every state is sound and no live buy price reaches a live sell price |
| OrderRuns.PlaceConserves | cmdexec.c:866-990 | an order of any quantity leaves holdings plus sell-side escrow of every resource unchanged; energy plus buy-side escrow falls by the price improvement the buyer is not refunded and by nothing else |
| OrderRuns.NegativeFill | cmdexec.c:879-969 | an order of negative quantity is put upon the oldest order at the best price, and nothing else happens |
| OrderRuns.CreatesEnergyIff | cmdexec.c:846-990 | an order creates energy exactly when it is a purchase of a negative quantity and somebody sells below its price |
| OrderRuns.NegativePurchase | cmdexec.c:846-990 | a purchase of -5 at 3 while somebody sells at 1 |
| OrderRuns.WithdrawConserves | cmdexec.c:994-1021 | withdrawing conserves every resource and the energy |
| OrderRuns.LoseOnlyLoses | cmdtick.c:1364-1405 | decay and special operations never create goods or energy |
| OrderRuns.RunConserves | cmdexec.c:866-1021 | over any such run of orders and withdrawals goods are conserved and energy is up to the sum of those improvements |
| OrderRuns.RunCreatesNothing | cmdexec.c:866-1021 | no such run creates goods or energy |
| MarketFile.LinkKeepsShape | db.c:2944-3002 | linking a slot behind the last of a level keeps every list, total and the partition of the slots |
| MarketFile.UnlinkKeepsShape | db.c:3004-3055 | so does unlinking a slot and putting it on the free list |
| MarketFile.ResizeKeepsShape | db.c:3088-3111 | so does changing the quantity of a slot |
| MarketIndex.IndexAfterAdd | db.c:3144-3165 | book and players' lists agree after an addition to both |
| MarketIndex.IndexAfterResize | db.c:3189-3211 | they agree after a change of quantity in both |
| MarketIndex.IndexAfterRemove | db.c:3213-3247 | they agree after removal from the level and swap-with-last removal from the list |
| MarketDb.MarketStore.constructor | db.c:2889-2906 | an empty market is valid |
| MarketDb.MarketStore.MarketAdd | db.c:2944-3002 | the order is appended to its level, in a reused or new slot, and nothing else changes |
| MarketDb.MarketStore.MarketRemove | db.c:3004-3055 | exactly that order leaves its level |
| MarketDb.MarketStore.MarketSetQuantity | db.c:3088-3111 | exactly that order changes its quantity, and the level's total with it |
| MarketDb.MarketStore.MarketListStart | db.c:3057-3073 | the oldest order of a level, or none |
| MarketDb.MarketStore.MarketListNext | db.c:3075-3086 | quantity and owner of an order, and the next one of its level |
| MarketDb.MarketStore.UserMarketAdd | db.c:3144-3165 | the record is appended to the player's list |
| MarketDb.MarketStore.UserMarketQuantity | db.c:3189-3211 | the first record of the bid changes its quantity; says whether there was one |
| MarketDb.MarketStore.UserMarketRemove | db.c:3213-3247 | the last record takes the place of the bid's; says whether there was one |
| MarketExec.FillLevel | cmdexec.c:883-916 | matching one level reports, pays and leaves exactly what the engine does, whose payments `OrderTrade.SettleEach` gives by user |
| MarketExec.SweepBuy | cmdexec.c:879-917 | a buyer is matched from the lowest sell price up to the limit as the engine says |
| MarketExec.SweepSell | cmdexec.c:931-969 | a seller is matched from the highest buy price down to the limit as the engine says |
| MarketExec.AddBid | cmdexec.c:824-990 | accepted exactly if the market is open, resource, side and price are in range, the quantity is at most 2000000000/price, and the player is in an empire and has the energy or the goods; then, for any quantity, each purse changes by the fills and the deposit as `OrderTrade.Purses` says in figures, the book as `OrderTrade.Matching` says, both being the engine's step; files stay valid, and a sound market stays sound exactly when the quantity is not negative or there is an order to trade with |
| MarketExec.RemoveBid | cmdexec.c:994-1021 | succeeds exactly when the player lists the bid; then the order leaves the book, and of all purses only the player's changes: price times quantity comes back for a purchase, the quantity for a sale |
| MarketDecay.DecayLevel | cmdtick.c:1368-1381 | every order of a level loses its share; those with nothing left disappear from both files |
| MarketDecay.DecayBids | cmdtick.c:1364-1405 | all buy orders, then all crystal sales, decay as the engine says |
| MarketDecay.Tick | cmdtick.c:1364-1405 | every purchase of q units loses the least whole number not below q/200, every crystal sale the least not below q/50, other sales nothing; exactly the orders of one unit disappear, the others keep their order; a sound market stays sound |
| MarketDecay.CeilIs | cmdtick.c:1371-1371 | what a rate takes is at least the fraction and less than one more |
| MarketDecay.ShrinkLeaves | cmdtick.c:1368-1381 | of a level exactly the orders stay of which something is left, in their order, each with what is left of it |
| MarketDecay.ShrinkAges | cmdtick.c:1368-1403 | at the two rates of the game, in whole numbers |
| MarketDecay.TickTakesSomething | cmdtick.c:1370-1379 | a tick takes at least one unit of every order and never more than there is |
| MarketDecay.ReduceEnergyBids | specop.c:137-164 | each of the player's buy orders loses the rate times its quantity, rounded up, and goes if nothing is left; nothing else changes |
| MarketDecay.ReduceEctroliumBids | specop.c:166-195 | so does each of the player's ectrolium sales |
| MarketDecay.RemoveAllBids | cmdexec.c:468-474 | of a player who leaves no order stays, of the others every one |
| MarketQuote.LiveIffListedOnce | db.c:3144-3247 | a bid is live in the book under an owner exactly when the owner's list holds exactly one such record |
| MarketQuote.GetMarket | cmdexec.c:1023-1057 | for each resource and side the best level with a nonzero stored total; in an uncrossed market, whatever totals it overlooks, the price to buy at is below the price to sell at |
| MarketQuote.QuoteIsTrueIff | cmdexec.c:1031-1054 | that is the true best price exactly when the best level does not hold a multiple of 2^32 units, and with the true quantity exactly when it holds less than 2^31 |
| MarketQuote.ThreeSalesAreQuotedAsNone | cmdexec.c:824-1057 | three sales accepted one after the other leave 2^32 units at one price, and the quote says there is none |
| Md5Process.Process | extras/md5.c:90-211 | the first block function is the 64 steps of RFC 1321 |
| Md5Transform.Transform | extras/md5.c:693-819 | so is the second |
| Md5Stream.PolarContext.Update | extras/md5.c:216-253 | after any chunk registers and buffer stand for everything fed in; the count stays right exactly when the chunk has less than 2^32 bytes |
| Md5Stream.PolarContext.Finish | extras/md5.c:266-289 | the digest of everything fed in, padded as sections 3.1 and 3.2 of RFC 1321 say with the length that was counted |
| Md5Gnu.GnuContext.Write | extras/md5.c:828-856 | after any chunk the context stands for everything fed in |
| Md5Gnu.GnuContext.Final | extras/md5.c:864-922 | the digest of everything fed in, with its length modulo 2^38 |
| Md5Gnu.BothAgree | extras/md5.c:216-922 | under 2^38 bytes both give the digest of RFC 1321, however each was fed, if no chunk of the first has 2^32 bytes; in any case the first pads with the length it counted |
| Md5Gnu.CountIsRightIff | extras/md5.c:216-232 | the first counts the bytes there are exactly when no chunk has 2^32 of them |
| Md5Gnu.LongChunkLost | extras/md5.c:216-232 | one chunk of 2^32 bytes is counted as none |
| Md5Gnu.SameInputSameContext | extras/md5.c:216-253 | many chunks leave the context that their concatenation leaves |
| Md5Gnu.SameBitCountIff | extras/md5.c:869-883 | the two appended lengths are equal exactly when the length modulo 2^61 is under 2^38 |
| Md5Gnu.BitCountLost | extras/md5.c:869-883 | at 2^38 bytes the appended lengths differ |
| Md5Vectors.EmptyMessage | extras/md5.c:864-922 | the digest of the empty message, as in appendix A.5 of RFC 1321 |
| Md5Vectors.EightyDigits | extras/md5.c:864-922 | the digest of the eighty digits of that appendix, two blocks |
| Md5Vectors.LengthField | extras/md5.c:869-883 | the length field is the number of bits in eight bytes, the lowest first |
| Base64Rfc.GroupDecodes | extras/base64.c:431-497 | a group of one to three bytes survives encoding and decoding |
| Base64Rfc.StreamDecodes | extras/base64.c:126-162 | decoding an encoding gives the message with nothing left over |
| Base64Rfc.StreamSplit | extras/base64.c:377-425 | decoding in two parts, keeping the odd characters, is decoding the whole |
| Base64Rfc.PiecesDecode | extras/base64.c:499-594 | newlines anywhere, cuts anywhere: the pieces of an encoding decode to the message, every call succeeding, exactly when empty pieces fall between quadruples |
| Base64Rfc.EmptyPieceInside | extras/base64.c:499-594 | an encoding with an empty piece after its first character is not decoded |
| Base64.EncodeInto | extras/base64.c:126-162 | as much of the encoding of RFC 4648 as fits, and a terminating zero if there is room; nothing behind the buffer is touched |
| Base64Decoder.Decode4Into | extras/base64.c:431-497 | one quadruple, its bytes written as far as there is room |
| Base64Decoder.DecodeContext.Get4 | extras/base64.c:377-425 | the next four characters that are no newlines, or all there are, kept for the next call |
| Base64Decoder.DecodeCtx | extras/base64.c:516-594 | one call on a context decodes the characters kept before followed by the piece, an empty piece flushes; without context the text is one unit; output cut to the room given |
| Base64Decoder.DecodePieces | extras/base64.c:499-594 | pieces fed through one context are decoded as the specification feeds them; of an encoding, cut and broken anywhere, they give the message exactly when empty pieces fall between quadruples |
| Base64Decoder.DecodeAlloc | extras/base64.c:607-634 | the same into a buffer of its own size, which silently cuts the output of a context |
| Base64Decoder.RoomSufficesIff | extras/base64.c:612-634 | the room allocated for a piece holds the whole output exactly when three bytes for each quadruple completed, less one for each padding character in them, are no more than that room |
| Base64Decoder.AtMostOneIsLost | extras/base64.c:612-634 | whatever is kept and fed, the output exceeds the room by one byte at most |
| Base64Decoder.LastByteLost | extras/base64.c:612-634 | three characters kept and one more make three bytes, with room for two |
| Base64Decoder.RoomSufficesAfresh | extras/base64.c:612-634 | with nothing kept from before it always suffices |
| Base64Decoder.RoomSufficesPlain | extras/base64.c:612-634 | without a context it always suffices |
| Base64Decoder.PlainDecodes | extras/base64.c:516-594 | without a context decoding inverts encoding |
| Base64Decoder.UnBase64 | extras/base64.c:21-55 | on any text, and whatever length is said to be its own: whole groups, with line breaks between them skipped, up to the first short one, and a terminating zero; or it reads behind the end |
| Base64Decoder.OldDecodes | extras/base64.c:21-55 | the older decoder inverts the encoder on unbroken text |
| Base64Decoder.LinesDecodeIff | extras/base64.c:21-55 | with line breaks behind groups it does so exactly when there are none after all or the text ends with padding, else it reads behind the end |
| Base64Decoder.LastLineBreak | extras/base64.c:21-55 | four characters and a line break are read beyond |
| Base64Vectors.Alphabet | extras/base64.c:126-162 | the 64 digits in their order, as in table 1 of RFC 4648 |
| Base64Vectors.FooBar | extras/base64.c:126-162 | test vectors of section 10 of RFC 4648 |
| Base64Vectors.Decodes | extras/base64.c:431-497 | which characters make a quadruple, and how many bytes a bad one yields before it fails |
| Base64Vectors.DecodesTo | extras/base64.c:431-497 | those bytes, in sums and quotients of the digits |
| Base64Vectors.PlainAcceptsIff | extras/base64.c:516-594 | without a context exactly the groups of four digits are accepted, the last of which may end in one or two `=` |
| Base64Vectors.PlainGives | extras/base64.c:516-594 | every good group before gives three bytes, and a bad one ends the output with what it yields |
| Base64Vectors.LineFeeds | extras/base64.c:377-425 | with a context line feeds, and nothing else, count for nothing |
| Base64Vectors.TrioIs | extras/base64.c:21-55 | a group in the older decoder: other characters count as 0, and cut it short |
| Base64Vectors.BreaksAre | extras/base64.c:48-50 | it skips line feeds and carriage returns between groups |
| JsonRoundTrip.RoundTrip | extras/cJSON.c:287-507 | parsing the text of any tree of null, booleans, numbers, strings, arrays and objects, printed at any depth with or without formatting, gives the tree with each number as its format wrote it, and leaves what follows alone |
| JsonRoundTrip.PrintThenParse | extras/cJSON.c:264-284 | both printers, both ways of parsing a whole text |
| JsonRoundTrip.SurvivesIff | extras/cJSON.c:96-507 | what comes back is the tree itself exactly when every number in it is whole, or has at most six decimals, or at most seven digits, depending on the format it falls under |
| JsonNumber.ShownIff | extras/cJSON.c:118-137 | so it is for one number |
| JsonRoundTrip.NumberReads | extras/cJSON.c:96-137 | a printed number reads back as the number its text stands for |
| JsonRoundTrip.IntegersSurvive | extras/cJSON.c:118-126 | 32-bit integers are printed as such and survive |
| JsonRoundTrip.TinyIsLost | extras/cJSON.c:122-126 | ten to the -17 is printed as an integer and lost |
| JsonRoundTrip.SeventhDecimalIsLost | extras/cJSON.c:133-135 | so is the seventh decimal of 0.1234567 |
| JsonRoundTrip.PrintIsInjective | extras/cJSON.c:302-507 | different trees whose numbers are written without loss have different texts |
| JsonRoundTrip.BodyOfEscaped | extras/cJSON.c:155-248 | an escaped string reads back as the string |
| JsonRoundTrip.NumberRoundTrip | extras/cJSON.c:96-137 | a printed integer reads back as the integer |
| JsonUnicode.EscapeReads | extras/cJSON.c:140-209 | every code point but zero, escaped in one or two units and either case, is read as its UTF-8 bytes |
| JsonUnicode.LoneUnitIsDropped | extras/cJSON.c:180-191 | zero and half a surrogate pair yield nothing |
| JsonUnicode.Utf8RoundTrip | extras/cJSON.c:193-201 | the bytes decode to the code point |
| JsonUnicode.ShortEscapes | extras/cJSON.c:165-206 | in front of any text, a backslash before b, f, n, r, t stands for 8, 12, 10, 13, 9 and is dropped before any other character but u |
| JsonUnicode.Slashes | extras/cJSON.c:165-206 | a slash reads the same with and without a backslash |
| JsonGrammar.Parses | extras/cJSON.c:155-439 | every value, with any white space, escapes and forms of numbers, is read as what it means, and what follows it is left alone |
| JsonGrammar.TextParses | extras/cJSON.c:264-280 | so is a whole text |
| JsonGrammar.NoValue | extras/cJSON.c:287-299 | a text that begins with no word, digit, sign, quote, bracket or brace is no value |
| JsonGrammar.FigureReads | extras/cJSON.c:96-116 | a number with sign, fraction and power of ten reads as its value |
| JsonGrammar.LiteralReads | extras/cJSON.c:155-212 | a literal of plain characters, short escapes and code points reads as their bytes |
| JsonGrammar.ItemsThen | extras/cJSON.c:320-345 | after items, what follows them decides |
| JsonGrammar.ArrayRefused | extras/cJSON.c:320-345 | an array fails in which neither a comma nor the bracket follows an item |
| JsonGrammar.TrailingComma | extras/cJSON.c:320-345 | and one in which no item follows a comma |
| JsonGrammar.ObjectRefused | extras/cJSON.c:406-439 | an object fails in which neither a comma nor the brace follows a member |
| JsonGrammar.TrailingMember | extras/cJSON.c:406-439 | and one in which no member follows a comma |
| JsonGrammar.NoMember | extras/cJSON.c:406-439 | what does not begin with a quote is no member |
| JsonGrammar.NoColon | extras/cJSON.c:406-439 | a name without a colon is no member |
| JsonGrammar.TextRefused | extras/cJSON.c:264-280 | a text with something behind its value is refused if asked, else read up to there |
| JsonVectors.ControlCharacters | extras/cJSON.c:215-248 | the escape of every control character |
| JsonVectors.OtherCharacters | extras/cJSON.c:215-248 | of all others only the quote and the backslash are escaped |
| JsonVectors.WholeNumbers | extras/cJSON.c:118-126 | whole numbers are written without a point, also beyond 32 bits |
| JsonVectors.Fractions | extras/cJSON.c:127-137 | from a millionth to a thousand million with six decimals |
| JsonVectors.Powers | extras/cJSON.c:127-137 | below and above with a power of ten |
| JsonVectors.Carried | extras/cJSON.c:127-137 | rounding that carries into another digit raises the power |
| JsonVectors.HalfWay | extras/cJSON.c:127-137 | halves are rounded to the even side |
| JsonVectors.Borders | extras/cJSON.c:122-133 | two to the -52 is written as nothing, and whole numbers from ten to the 60 on with a power of ten |
| JsonVectors.Formatted | extras/cJSON.c:348-507 | line breaks and tabs of a formatted object with an array |
| JsonVectors.Compact | extras/cJSON.c:348-507 | the same object unformatted |
| JsonVectors.Nested | extras/cJSON.c:442-507 | an empty object is closed one level further out than others |
| JsonVectors.OddNumbers | extras/cJSON.c:96-116 | a lone sign, leading zeros and a point without digits are read as far as they go |
| JsonVectors.OddPowers | extras/cJSON.c:96-116 | so is a power of ten without digits |
| JsonVectors.PairExample | extras/cJSON.c:180-201 | the surrogate pair of U+233B4 reads as the four bytes in section 7 of RFC 3629 |
| JsonPrinter.PrintStringPtr | extras/cJSON.c:215-248 | the literal, in a buffer of exactly its size |
| JsonPrinter.PrintNumber | extras/cJSON.c:118-137 | the text of a number in the format chosen for it; 21 or 64 characters suffice |
| JsonPrinter.PrintArray | extras/cJSON.c:348-403 | the text of the array; the size reserved suffices |
| JsonPrinter.PrintObject | extras/cJSON.c:442-507 | the text of the object; the size reserved suffices |
| JsonPrinter.PrintValue | extras/cJSON.c:302-317 | the text of any printable tree, zero-terminated |
| JsonLiteral.FitsIff | extras/cJSON.c:155-212 | whatever follows a literal, the second pass stays inside the text and its content inside the buffer of the first, exactly when no step of it begins before the literal's closing quote and ends behind it |
| JsonLiteral.ReadsIff | extras/cJSON.c:155-212 | so a literal is read, whatever follows it, exactly then |
| JsonLiteral.BodyFits | extras/cJSON.c:155-212 | in any text, without such a step the content does not outgrow the buffer |
| JsonLiteral.JumpedQuoteOverruns | extras/cJSON.c:155-212 | a quote right after `\u` is stepped over: one character is counted, two are written |
| JsonLiteral.EscapedQuoteFits | extras/cJSON.c:155-212 | a quote among the characters of a `\u` that the first pass takes for an escaped one does no harm, whatever follows |
| JsonParser.ReadString | extras/cJSON.c:155-212 | on any text reads the literal in two passes, and leaves the text or the buffer exactly when one of them steps behind the end or more is written than was counted |
| JsonParser.ReadNumber | extras/cJSON.c:96-116 | sign, digits, fraction and exponent, as a real number |
| JsonParser.ReadArray | extras/cJSON.c:320-345 | on any text the items in order, or failure, or what stopped an item |
| JsonParser.ReadObject | extras/cJSON.c:406-439 | on any text the members in order, or failure, or what stopped a member |
| JsonParser.ReadValue | extras/cJSON.c:287-299 | reads any value of any text |
| JsonParser.ReadText | extras/cJSON.c:264-280 | of any text a value, and if asked nothing but white space after it |
| ChainFile.MoveDown | db.c:4243-4260 | the records behind a removed one move to the front unchanged, each read before it can be overwritten |
| ChainFile.ImageSplit | db.c:4176-4212 | a chain of records is the chain of its first part followed by that of the rest |
| ChainFile.RecordAt | db.c:4151-4155 | following the offsets reaches every record |
| ByteFile.FourBytes | db.c:4176-4213 | numbers are stored with the lowest byte first |
| ByteFile.EightBytes | db.c:4176-4213 | so are those of eight bytes |
| MailFile.NewBox | db.c:893-914 | the box of a new player holds no message |
| MailFile.MailAdd | db.c:4176-4213 | the message is appended; the first one goes to the start whatever the file held before |
| MailFile.MailRemove | db.c:4217-4277 | exactly message i goes, the others stay in order and the stored end is the true end; any index out of range is refused without a change |
| MailFile.MailList | db.c:4117-4174 | the messages asked for, a negative first index standing for 0, or an error |
| MailFile.ListedAre | db.c:4117-4174 | message by message: head and text, the text left out from 65536 characters on |
| MailFile.BoxLayout | db.c:4176-4213 | the bytes of a box: two numbers of eight bytes, and the first message with the place of the next one before it |
| ForumFile.NewThread | db.c:3719-3735 | the file of a new thread holds no post, and its record as given |
| ForumFile.ForumAddPost | db.c:3837-3880 | the post is appended, the thread's count goes up, its topic stays |
| ForumFile.ForumRemovePost | db.c:3949-4033 | exactly post i goes; a refused index leaves the file as it was exactly when it is not negative, else the thread's count is one too low |
| ForumFile.RemoveMinusOne | db.c:3949-4033 | removing post -1 of a thread of one post is refused, and the thread then says it has none |
| ForumFile.ForumListPosts | db.c:3381-3447 | the posts asked for, or an error |
| ForumFile.PostsListed | db.c:3381-3447 | post by post: head and text, the text left out from 65536 characters on |
| ForumFile.ThreadLayout | db.c:3837-3880 | the bytes of a thread: two numbers of four bytes, the thread record with its count of posts at 64, and the first post |
| ForumFile.ForumEditPost | db.c:4036-4111 | exactly post i changes, even if its length does, and the thread record does not; it succeeds exactly when every later post has less than 65536 characters and the thread has at most 65536 posts or ends with post i |
| ForumFile.EditSpoilsThread | html/html_forum.c:1203-1219 | one edit that stores 65536 characters, which it may, makes the next edit of an earlier post fail |
| NewsFile.PushReused | db.c:2148-2183 | a row linked in front in the first free slot keeps both lists and the partition |
| NewsFile.UnlinkKeepsShape | db.c:2272-2299 | unlinking a row and freeing its slot keeps them too |
| NewsDb.NewsStore.UserNewsAdd | db.c:2129-2188 | the row comes first and the flags are joined; a slot is allocated only if none is free |
| NewsDb.NewsStore.UserNewsListUpdate | db.c:2239-2312 | keeps exactly the rows that were unread, now read, or not expired, in order; returns the unread and the expired rows and the number of unread ones |
| NewsDb.NewsStore.FamNewsAdd | db.c:2334-2387 | the row comes first |
| NewsDb.NewsStore.FamNewsList | db.c:2389-2458 | keeps exactly the current rows in order, shows all rows once more and returns the number of current ones |
| NewsRules.ReadingAccountsForAll | db.c:2239-2312 | after reading nothing is unread, and every row is kept or was shown as it went |
| NewsRules.OneRow | db.c:2239-2312 | one row: unread it is shown and stays, read; else it stays for 208 ticks and is shown when it goes |
| NewsRules.RowByRow | db.c:2239-2458 | a list is read row by row, whatever its other rows are |
| NewsRules.ReadingTwice | db.c:2239-2312 | reading again leaves exactly the current rows |
| NewsRules.FirstRowsAreCurrentIff | db.c:2389-2458 | as many of the rows shown as the count says are the current ones exactly when no expired row stands before a current one, as in order of age |
| NewsRules.ExpiredRowFirst | db.c:2389-2458 | news added after the tick number was set back: the first row shown is not the current one |
| NewsRules.AddKeepsOrder | db.c:2334-2387 | news added while time does not run backwards stay newest first |
| NewsRules.CurrentKeepsOrder | db.c:2389-2458 | so they do when the expired ones go |
| Ranking.GenRanks | cmdtick.c:104-142 | the links written form one list over all rows, sorted by both keys with earlier rows first among equals; data columns stay; the same for players at lines 339-375 |
| Ranking.WriteRanks | cmdtick.c:378-397 | the walk ends and gives every row one more than the number of better rows; the ranks 1 to n occur, each once |
| Ranking.PlaceIsRank | cmdtick.c:104-142 | whoever stands at place i of a sorted list has exactly i better rows |
| Ranking.InFigures | cmdtick.c:104-142 | the finished list in numbers of the array: all rows, by numbers 1 and k and then by place, with the places of their neighbours in numbers 4 and 5 |
| RankSort.SortList | db.c:1254-1283 | every id goes to the place that counts the smaller entries; without equal entries the result is a permutation of the ids, ascending by key and id |
| RankSort.SortList2 | db.c:1286-1315 | the same with two keys and the id |
| RankSort.InPlaces | db.c:1254-1315 | the place of an id as the number of entries below its own, key by key |
| RankSort.PlaceIsOrder | db.c:1263-1274 | counted places are ordered as the entries are and collide exactly for equal entries |
| RankSort.EveryPlaceTakenIff | db.c:1263-1274 | every place from 0 to n-1 is taken exactly when no two entries are equal |
| RankSort.EqualEntries | db.c:1263-1274 | two equal entries leave the second place unset |
| Planets.AgreesIff | db.c:1396-1485 | the index says: a planet's owner is u exactly when u lists it, and no list names a planet twice |
| Planets.PlanetStore.PlanetAdd | db.c:1396-1434 | appends an entry |
| Planets.PlanetStore.PlanetRemove | db.c:1436-1485 | the last entry takes the place of the planet's |
| Planets.PlanetStore.Explore | cmd.c:1032-1303 | a planet that is taken, a home, nuked or guarded is left alone; else it gets an owner and an entry, after the planets a find hands out; the index is right exactly when it is none of them |
| Planets.PlanetStore.Capture | battle.c:1112-1141 | a captured planet changes owner and list; a home planet ends without either |
| Planets.PlanetStore.OfferPlanet | cmdexec.c:2445-2472 | a planet that is no home is offered to another player, whoever asks |
| Planets.PlanetStore.TakePlanet | cmdexec.c:2475-2556 | succeeds exactly under the source's conditions, then the planet changes owner and list |
| Planets.PlanetStore.Vacate | specop.c:791-819 | the planet ends without owner and entry |
| Planets.PlanetStore.Nuke | specop.c:587-648 | so it does when nuked, unless it is a home planet, the rules bar it or the operation fails |
| Planets.PlanetStore.MindControl | specop.c:1735-1771 | if it succeeds the planet changes owner and list; a home planet does not |
| Planets.PlanetStore.Deactivate | cmdexec.c:447-466 | all planets of the player, and no other, end without owner, and the list ends empty |
| Planets.SettlingAgreesIff | cmd.c:1180-1303 | listing and owning a planet keeps the index right exactly when it had no owner before |
| Planets.PlanetStore.GiveMany | cmd.c:1180-1228 | the free planets picked, in the order of their numbers and none left out before the number is reached, get the player as owner and an entry each |
| Planets.OwnPlanetSettled | cmd.c:1032-1303 | on a map of one planet, a find that hands out the planet explored leaves it listed twice |
| Battle.PhaseUpdate | battle.c:138-176 | losses of one phase: of each kind the hits, and of a kind aboard n more with n times the carriers (transports) there were at most the lost ones times the cargo, and n + 1 times more than that; never more than there is; units and report add up |
| Battle.ShareIs | battle.c:142-157 | the share of the cargo lost is the whole part of lost carriers times cargo by all carriers |
| Battle.SurvivorsCourse | battle.c:372-968 | a battle is a course of four phases, each of which takes what its hits ask and reports it, or nothing if it is avoided or comes after the flight |
| Battle.DefenceCourse | battle.c:305-987 | the defender fights with the garrison and the part of the main fleet that covers it, and what the course costs is taken from the garrison first |
| Battle.NothingSurvivesAboard | battle.c:142-157 | with the last carriers everything aboard is lost, with the last transports every ground unit but phantoms |
| Battle.CargoGoesIff | battle.c:142-157 | what is not hit itself is lost to the last unit exactly when every carrier, or for ground units every transport, is lost |
| Battle.SurvivorsSplit | battle.c:372-968 | what follows the attacker's flight changes nothing |
| Battle.FightPhases | battle.c:372-968 | four phases with avoided ones and flight: each phase reports what it cost, initial minus final is the sum of the reports, nothing is negative |
| Battle.DefenceAddsUp | battle.c:305-307 | garrison and main fleet together lose exactly the losses and neither goes negative |
| Battle.Settle | battle.c:974-987 | losses come from the garrison first, what it cannot cover from the main fleet |
| Battle.Fight | battle.c:305-1184 | units, totals, garrison, main fleet and report after a battle: there is a course of phases for the attacker and one for garrison and covering fleet that ends in them; on capture the garrison forms a fleet, and no unit of the defender but the losses vanishes exactly when what is left of the garrison is not overlooked |
| Battle.GarrisonSurvivesIff | battle.c:974-1110 | when the planet is taken, main fleet and new fleet hold all the defender had less the reported losses exactly when what is left of the garrison has some fighting kind whose count is not a multiple of 2^32, or is nothing at all |
| Battle.OverlookedGarrisons | battle.c:974-1110 | 2^32 soldiers are overlooked, and so is a unit of a kind that does not fight |
| Nap.OfferMirrorsIff | cmdexec.c:1466-1493 | an offer keeps the two records mirror images exactly when no empire replaces its own pending timed offer by an infinite one |
| Nap.OutbidsItself | cmdexec.c:1466-1493 | a timed offer and then an infinite one by the same empire end in states 5 and 7 |
| Nap.OutbidCancelled | cmdexec.c:1786-1822 | either empire ends that by cancelling |
| Nap.CancelMirrors | cmdexec.c:1775-1822 | a cancellation keeps them mirror images |
| Nap.OfferMeans | cmdexec.c:1466-1691 | what the tables mean: an offer meets one of the same kind (and time) by the other side, or takes the place of what was offered before |
| Nap.CancelMeans | cmdexec.c:1466-1822 | a cancelled offer disappears, a timed pact runs its hours from then on, an infinite one until the other side cancels too |
| Nap.OtherView | cmdexec.c:1466-1493 | the other side sees the same with the roles exchanged |
| NapRuns.RunMirrors | cmdexec.c:1593-1833 | in every such run the records are mirror images with equal timers |
| NapRuns.TimersAgree | cmdexec.c:1593-1833 | in every run, also when an empire replaces its own offer, the two records agree on timer and date |
| NapRuns.TimedPactEnds | cmdexec.c:1775-1833 | a timed pact that is gone was cancelled by someone and its full time has run since |
| NapRuns.InfinitePactEnds | cmdexec.c:1775-1833 | an infinite pact that is gone was cancelled by both |
| NapRuns.BothHaveAgreed | cmdexec.c:1635-1691 | while a pact is in force both have made an offer since there was none |
| NapDb.RelationStore.AddNap | cmdexec.c:1593-1742 | both pact records change as the tables say, with the offering side noted, refused exactly while a pact is in force; no other record changes |
| NapDb.RelationStore.DelNap | cmdexec.c:1745-1833 | both pact records change or go as the tables and the timer say and no other record does, exactly when the other empire's list has the pact before any other record about the empire; else the first such record goes instead |
| NapDb.WarBeforePact | cmdexec.c:1766-1786 | a pact made during a war is such a case |
| NapTick.TickRelations | cmdtick.c:50-70 | exactly the records go that are due and found, pacts and wars, and in the other lists nothing but their other halves; a pact that is not shadowed in the other list ends or stays as it was, though the walk follows a copy; every due pact goes, and as many records go as are due, exactly when none has fewer records behind it than were due before it; at least half go |
| NapTick.DueAre | cmdtick.c:56-66 | due are cancelled pacts whose time is over, and wars the empire began that are old enough and have 26 weeks |
| NapTick.TakenAre | cmdtick.c:50-70 | a record goes as often as it stands at a place where it is due and found |
| NapDb.RelationStore.DelWar | cmdexec.c:1745-1833 | an alliance or war ends with both halves, refused exactly to the other side and before 26 weeks |
| NapDb.AnswerMeans | cmdexec.c:1766-1774 | the other half of an alliance or war is the first record of that kind about the empire that its holder did not begin |
| NapTick.SecondOfTwoIsMissed | cmdtick.c:50-70 | of two due pacts in a list of two the second one is missed |
| NapDb.RelationStore.FindNap | cmdexec.c:1564-1591 | the first pact record about an empire, if there is one |
| NapDb.RelationStore.RelsRemove | db.c:2791-2817 | the last record takes the place of the removed one |

## Left out

- Web pages, sessions, pictures, configuration, pipes, logging and sending of mail: input, output and presentation.
- Opening, seeking in and failing to open files, and failure of `malloc`: the stored records are modelled and operations succeed.
- The formulas for combat, readiness, cost and research: damage, losses and outcomes are arbitrary inputs.
- News texts: the fills of a match are returned, the news rows written about them are not.
- Overflow of 64-bit integers and the rounding of `float` and `double`: integers are unbounded and fractions are real numbers; 32-bit counters that wrap in the source do so here.
- MarketExec.AddBid: requires a slot table below 0x1000000 entries, because the source ends its list walks at that slot number, and for a negative quantity that its price and what it adds to an order fit 32 bits, because C leaves it open what happens otherwise.
- Base64Decoder.UnBase64: what it returns after reading behind the end of the text is not said.
- What the second pass over a string literal does once it has left the text or its buffer: the model stops there (Overrun).
- JsonPrinter.PrintNumber: numbers are real numbers below ten to the 309; infinities and the rounding of `double` itself are not modelled.
- JsonPrinter.PrintArray: requires the same of every number inside.
- JsonPrinter.PrintObject: requires the same of every number inside.
- JsonPrinter.PrintValue: requires the same of every number inside.
- The links between sibling nodes of a JSON tree: children are sequences.
- ForumFile.ForumEditPost: what the file holds behind the edited post after a failed edit is not said, because the source then copies from memory that was never filled.
- The lists of forums and threads beside a thread's file, and marking of posts that are too long beyond not loading them.
- Ranking.WriteRanks: the row number stands for the player or empire the row is about.
- Planets.PlanetStore.Explore: of the finds of an old civilisation only those that bear on ownership; which planets are near enough and lucky is an input.
- Counts of unexplored planets in a system, buildings under construction and the settling of new players.
- Battle.Fight: satellites and population, the recall of fleets after a battle and changes of buildings are not modelled.
- Making alliances and wars: their records stand in the relation lists, and DelWar ends them while the other half is there.
- NapDb.RelationStore.AddNap: requires that the pact records of the two empires come in pairs, as every operation leaves them but the cancellation that takes a wrong record; so does DelNap.
- NapTick.TickRelations: requires, of the wars it is to end, one for each enemy, whose list has the other half, and no pact to be ended with the same enemy in the shadow of it: a cancellation that takes a wrong record may leave lists otherwise. The walk is made only while the setting "End Wars" is positive (cmdtick.c:50-51).
