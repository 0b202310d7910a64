# Verification models of the onchain library

A Dafny model of the parts of this library that decide something without talking to the network,
and of the loops that do. Each module follows one component; the node, the stream and the owner's
callbacks answer arbitrarily.

- **Concentrated liquidity** (`Ticks`, `Liquidity`, `Updates`, `Refinement`, `Books`, `Principal`): a pool is a
  sorted list of ticks with gross and net liquidity. The list is shown to be the unique index of a
  book of positions; updates of the list refine changes of the book, are accepted exactly when the
  changed book fits, and the floored valuation stays within one unit per interval of the exact one.
  The price table is any positive nondecreasing function of the tick.
- **Coverage and protection** (`Coverage`, `Protection`): when known positions explain a whole pool, and
  what share of it is locked.
- **Transactions** (`Bytes`, `Utf8`, `TypeTags`, `TypeParser`, `Transactions`, `Validation`, `BcsReader`,
  `BcsWriter`, `TransactionCodec`, `TypeExpansion`, `WireVectors`, `Builder`): the Binary Canonical
  Serialization of programmable transactions. A grammar in functions has both inverse laws; the reader,
  writer and text parser that update a position in place are proved to compute it. Two transactions
  with the bytes of the official software kit fix the numbers of the format.
- **Amounts** (`Strings`, `Decimals`, `Amounts`): decimal text and base units.
- **Idle progress** (`Journal`, `Observation`): a frontier of verified blocks under a changing journal.
- **Operator histories** (`OperatorHistory`, `OperatorNode`, `OperatorScan`): resumable log scans with checkpoints.
- **Object stream** (`ObjectStream`, `ScopedObjects`, `ObjectChanges`): ordered results of concurrent
  workers, and the batch fetch a later decoder relies on.
- **Tick windows** (`TickWindow`, `TickBatches`, `Producer`): bitmap windows, two-worker batch reads, and
  capture with replay.
- **Transfers** (`Transfers`): greedy matching of balance changes.

Concurrency is modelled by steps: `ObjectStream` is a transition system over the blocking operations
of its goroutines, `TickBatches.Read` runs its two workers under an arbitrary scheduler, and
`Observation.Run` and `Producer.Run` take the events of their loops in any order. A node is a
function from the number of a call and its question to the answer, so that what is returned can be
compared with what was fetched, and so is the cancellation of an evaluation. Elsewhere a cancellation
may come at any time, and `AskWorker` stands for the choice of the scheduler.

Places where the code does less than its description suggests, each with the exact condition:

- A transaction can be encoded whose bytes the decoder refuses, because the limit of 4096 bytes for a
  type text applies again to the canonical text (`TypeExpansion.EncodedButRefused`); the round trip
  holds exactly when the canonical texts fit (`TransactionCodec.MarshalThenParse`).
- A state with the zero baseline can continue the prefix of an earlier state
  (`Observation.ZeroBaselineGap`). The verified ranges of a publication begin at the baseline of its
  state if and only if that is not the zero cursor (`Observation.EveryPublicationProved`).
- The outcome of a proof can depend on the order in which a map is walked: the loop waits or stops
  (`Observation.TwoOutcomes`). It is left open if and only if all requests up to the logs succeeded,
  one applied log lies beyond the head, and another of the range was not returned
  (`Observation.Determined`).
- After a cancellation the object stream can lose received frames, more than one
  (`ObjectStream.LossyRun`), and even before they are queued (`ObjectStream.DroppedRun`). When the end
  is reported, all received frames were delivered if and only if no cancellation took the place of a
  push or of the wait for a result, and the missing frames are those of these steps
  (`ObjectStream.DeliveredAtEnd`); without a cancellation there are none
  (`ObjectStream.FramesConserved`).
- A removal of liquidity is accepted over a range that no position has, when other positions hold
  enough at its two ends; the ticks that are left belong to no book (`Books.UnbookedRemoval`). A state
  of a run indexes a book with the changed liquidity if and only if no range was overdrawn
  (`Books.RunExact`).
- A scan may end at the last 64-bit block number, and leaves evidence that is then refused; after any
  other block it can be restored (`OperatorScan.LastBlock`).

## Model

| member | source | states |
|---|---|---|
| Liquidity.CheckTicks | go/evm/clliquidity/principal.go:56-66 | accepts a tick list exactly when it is strictly sorted, on the spacing grid, with positive 128-bit gross and a net within gross and 128 signed bits; each fault is reported only when it is there |
| Liquidity.TicksRule | go/evm/clliquidity/principal.go:56-66 | which tick lists are accepted, for every list: strictly ascending, between -887272 and 887272 on the spacing, gross positive below 2^128, net of at most the gross and within 128 signed bits |
| Liquidity.ValueInterval | go/evm/clliquidity/principal.go:80-89 | the two floored amounts of one tick interval at the clamped price |
| Liquidity.Accumulate | go/evm/clliquidity/principal.go:67-94 | succeeds exactly when every running sum of nets is a 128-bit unsigned number, they end at zero, and the sum up to the current tick is the active liquidity; the amounts are the sums of the floored intervals |
| Liquidity.Calculate | go/evm/clliquidity/principal.go:33-95 | succeeds exactly on consistent states, with each error only when its own check fails; the value is the sum of the floored intervals, or zero when it is not asked for |
| Liquidity.ConsistentRule | go/evm/clliquidity/principal.go:33-95 | which states are consistent, for every state and spacing: the bounds of tick, price and active liquidity in numbers, and what the running sums must be |
| Updates.Search | go/evm/clliquidity/update.go:72-72 | binary search finds the first tick at or above an index |
| Updates.Touch | go/evm/clliquidity/update.go:71-96 | one end of a range: the tick at that index gains the gross and net, is inserted when new and removed when its gross reaches zero, every other tick is unchanged; an error only for a missing or mismatching tick |
| Updates.ChangeTicks | go/evm/clliquidity/update.go:68-97 | both ends of a range together move exactly that range in the index, or one end is unusable |
| Updates.Apply | go/evm/clliquidity/update.go:46-109 | returns the one state the update leads to, and an error exactly when there is no such state; an accepted change has its ends in order on the spacing between -887272 and 887272 |
| Updates.UpdatedUnique | go/evm/clliquidity/update.go:46-109 | at most one state follows an update |
| Ticks.IndexUnique | go/evm/clliquidity/principal.go:10-32 | two sorted tick lists without empty ticks that agree at every index are equal: the index of a book of positions is unique |
| Refinement.IndexExists | go/evm/clliquidity/principal.go:10-32 | every book of positions has a tick index |
| Refinement.LengthIsEnds | go/evm/clliquidity/update.go:50-52 | the index of a book has one tick for each distinct end of a position, so the tick limit is a limit on the book |
| Refinement.Reindex | go/evm/clliquidity/principal.go:69-90 | a sum over the ticks weighted by their nets equals the sum over the positions of their two ends, for any additive weight |
| Refinement.ActiveIsSum | go/evm/clliquidity/principal.go:69-76 | nets up to a tick add up to the liquidity of the positions that contain it |
| Refinement.RunningSum | go/evm/clliquidity/principal.go:69-76 | the running sum after a tick is the liquidity of the positions active there |
| Refinement.ConsistentIff | go/evm/clliquidity/principal.go:33-95 | for a state that indexes a book, the checks pass exactly when all sums fit 128 bits and the active liquidity is that of the positions containing the tick |
| Refinement.AcceptedStates | go/evm/clliquidity/principal.go:33-95 | the same with every condition in numbers: the bounds of tick, spacing and price, and the gross, net and active liquidity of the positions at every tick |
| Refinement.ChangeRefines | go/evm/clliquidity/update.go:67-108 | an accepted liquidity change leads to the index and the active liquidity of the changed book |
| Refinement.Alterations | go/evm/clliquidity/update.go:67-108 | a position may be grown, reduced or closed where it is, and a new one opened: these are changes of a book |
| Refinement.ChangeReaches | go/evm/clliquidity/update.go:67-108 | a change of the book that fits is accepted, for any range in order on the spacing between -887272 and 887272 and any 128-bit amount |
| Refinement.ChangeAccepted | go/evm/clliquidity/update.go:46-109 | a liquidity change is accepted exactly when -887272 <= lower < upper <= 887272, both ends are multiples of the spacing, the amount is below 2^128 either way, both lists keep to the tick limit, and gross, net and active liquidity of the changed book fit at every tick |
| Refinement.SwapAccepted | go/evm/clliquidity/update.go:60-66 | a swap is accepted exactly when its tick and price agree within the bounds of the grid and its active liquidity is the sum over the positions containing the new tick |
| Refinement.RunRefines | go/evm/clliquidity/update.go:46-109 | over every run of accepted updates whose liquidity changes each alter the book (add to it, or take from a position that has as much), the state stays the index of the altered book, with the right active liquidity |
| Books.LedgerIndexed | go/evm/clliquidity/update.go:46-109 | over every run of accepted updates, whatever they remove, the tick list is that of the starting positions followed by all changes as signed positions |
| Books.BookExists | go/evm/clliquidity/update.go:46-109 | positions with the liquidity of such a ledger, range by range, exist exactly when no range is overdrawn |
| Books.RunExact | go/evm/clliquidity/update.go:46-109 | over every run of accepted updates from the index of a book, a state indexes a book with the changed liquidity if and only if no range was overdrawn; every such book has the active liquidity of the state |
| Books.UnbookedRemoval | go/evm/clliquidity/update.go:46-109 | a concrete removal that is accepted although no position has its range, leaving a tick list that is the index of no book |
| Principal.PositionValue | go/evm/clliquidity/position.go:15-33 | succeeds exactly for an ordered range within the tick bounds, 128-bit liquidity and a price on the grid; each of its two values is then the liquidity times the level value at the lower end less that at the upper end |
| Principal.PositionAmounts | go/evm/clliquidity/position.go:15-33 | both amounts below, inside and above the range, with 2^96 as the unit of square-root prices |
| Principal.IntervalAmounts | go/evm/clliquidity/math.go:34-48 | the two floored amounts of an interval are the floors of these amounts for the liquidity active there |
| Principal.RangeValue | go/evm/clliquidity/position.go:22-32 | the exact value of a clamped range is a difference of two level values, one at each end |
| Principal.ExactByLevel | go/evm/clliquidity/position.go:22-32 | the exact value of a book is the sum of the level values at the ends of its positions |
| Principal.IntervalFloor | go/evm/clliquidity/math.go:34-48 | one interval term is the floor of the difference of level values at its ends |
| Principal.SumOfFloors | go/evm/clliquidity/principal.go:67-94 | the intervals telescope, losing less than one unit each |
| Principal.PrincipalBound | go/evm/clliquidity/principal.go:67-94 | for every book and its index, each calculated amount is at most the exact sum over the positions and short by less than one unit per interval |
| Coverage.Covered | go/evm/lpprotection/principal.go:11-36 | true exactly when the ticks carry the gross and net of the known positions and no other tick exists |
| Coverage.MatchRule | go/evm/lpprotection/principal.go:11-36 | when the check holds, for any ticks and positions: as many ticks as distinct ends, each such an end, with the gross and the net of the positions |
| Coverage.Count | go/evm/lpprotection/principal.go:12-25 | counts gross and net of each end exactly |
| Coverage.CoverageExact | go/evm/lpprotection/principal.go:11-36 | when the known positions are dominated, range by range, by all positions, the check is true exactly when both hold the same liquidity in every range |
| Coverage.SubCollectionExact | go/evm/lpprotection/principal.go:11-36 | if the pool holds the known positions and others, the check is true exactly when there are no others, in range or not |
| Coverage.SumRanges | go/evm/lpprotection/reader.go:430-437 | sums the known liquidity of each range |
| Coverage.CoreCoverage | go/evm/lpprotection/reader.go:425-452 | true exactly when the pool reports, for every known range, the sum of the known positions; for V4 pools, when nothing failed |
| Coverage.CoreChecksDominate | go/evm/lpprotection/reader.go:438-451 | the range sums make the known positions dominated by the positions of the pool |
| Coverage.BothChecks | go/evm/lpprotection/reader.go:425-452 | both checks together hold exactly when every known range could be read, the known positions hold the liquidity of the manager's range by range, and nobody else holds any |
| Protection.PercentageExact | go/evm/lpprotection/principal.go:101-114 | the printed percentage is the shortest decimal of the 18-digit truncation, at most the true percentage and short by less than one in the last place |
| Protection.Aggregate | go/evm/lpprotection/principal.go:38-99 | an observation exactly when all positions are priced, of a known kind and consistent, and some principal exists; its shares, unlock time and weakening flag are those of the positions; each other outcome only in its case |
| Protection.AggregableRule | go/evm/lpprotection/principal.go:44-80 | which positions can be aggregated, in terms of their ranges, liquidity, price, kind and unlock time |
| Protection.ObservedRule | go/evm/lpprotection/principal.go:60-88 | the unlock time is the least of the locked positions; protection may be weakened if one may be, this is unknown if it is for one, and else it may not |
| Protection.TakeNote | go/evm/lpprotection/principal.go:60-81 | keeps the protected flag, the earliest unlock and the weakening flags of the positions so far, or refuses an inconsistent position |
| Protection.SharesAddUp | go/evm/lpprotection/principal.go:89-97 | locked and permanent never exceed 100 together, and are within two units of the last place of 100 when every position is protected |
| Protection.HeldSplits | go/evm/lpprotection/principal.go:52-59 | the total is the sum of locked, permanent and withdrawable principal |
| Protection.HeldIsExact | go/evm/lpprotection/principal.go:49-59 | what is held of a token by one kind of custody, or by all, is the exact value of their ranges as a book of positions |
| Bytes.UlebReads | go/sui/transaction_bcs_primitives.go:30-37 | an encoded 32-bit number is read back, with what follows it |
| Bytes.UlebRule | go/sui/transaction_bcs_primitives.go:30-37 | seven bits in each byte from the lowest, all bytes but the last marked, no zero byte at the end of a longer form |
| Bytes.UlebAccepts | go/sui/transaction_bcs_primitives.go:93-116 | an accepted number is written in its one shortest form and fits 32 bits |
| Bytes.LeInverse | go/sui/transaction_bcs_primitives.go:38-47 | little-endian numbers are read back |
| Bytes.LengthRead | go/sui/transaction_bcs_primitives.go:117-125 | the guard against the remaining bytes never refuses a length the encoder wrote before that many bytes |
| Bytes.BlobRead | go/sui/transaction_bcs_primitives.go:48-51 | a byte string is read back |
| Bytes.BlobCanonical | go/sui/transaction_bcs_primitives.go:140-146 | an accepted byte string is its own encoding |
| Bytes.ListRead | go/sui/transaction_bcs.go:23-28 | a list whose elements read back reads back |
| Bytes.ListCanonical | go/sui/transaction_bcs.go:120-126 | an accepted list is its own encoding when its elements are |
| Utf8.EncodeDecode | go/sui/transaction_bcs_primitives.go:147-153 | text survives its UTF-8 form |
| Utf8.CharRule | go/sui/transaction_bcs_primitives.go:147-153 | the bytes of each character by its range, as section 3 of RFC 3629 sets them |
| Utf8.DecodeEncode | go/sui/transaction_bcs_primitives.go:147-153 | accepted UTF-8 is the encoding of the text it decodes to |
| TypeTags.AddressInverse | go/sui/transaction_type_tag.go:141-157 | a printed address parses back |
| TypeTags.AddressRule | go/sui/address.go:24-43 | an address is one to 64 hexadecimal digits, with or without prefix, and is their number in 32 bytes |
| TypeTags.AddressDigits | go/sui/address.go:55-55 | an address is printed as 0x and the two lower-case digits of each of its 32 bytes |
| TypeTags.TextRule | go/sui/transaction_type_tag.go:141-157 | how vector and struct types are printed |
| TypeTags.IdentifierRule | go/sui/transaction_type_tag.go:123-139 | an identifier has 1 to 128 letters, digits or underscores, and no digit first |
| TypeTags.DepthRule | go/sui/transaction_type_tag.go:61-122 | a tag is well formed exactly when it has at most 64 levels and all its names and kinds are allowed |
| TypeTags.TagText | go/sui/transaction_type_tag.go:61-122 | the parser reads a printed tag and leaves what follows it, at any depth |
| TypeTags.TextParses | go/sui/transaction_type_tag.go:15-30 | the printed text of a well-formed tag parses back to it exactly when it has at most 4096 bytes |
| TypeTags.ParsedWellFormed | go/sui/transaction_type_tag.go:61-139 | whatever the parser accepts is well formed: at most 64 levels, with valid identifiers |
| TypeTags.CanonicalText | go/sui/transaction_type_tag.go:141-158 | printing a parsed text and parsing again gives the same tag when it still fits, and nothing otherwise |
| TypeTags.TagRead | go/sui/transaction_type_tag.go:160-175 | a written tag is read back |
| TypeTags.TagCanonical | go/sui/transaction_type_tag.go:176-203 | an accepted binary tag is its own encoding and well formed |
| TypeParser.Parser.Space | go/sui/transaction_type_tag.go:36-40 | skips blanks |
| TypeParser.Parser.ConsumeToken | go/sui/transaction_type_tag.go:41-48 | takes a token after blanks, if it is there |
| TypeParser.Parser.NextWord | go/sui/transaction_type_tag.go:49-60 | takes the longest word after blanks |
| TypeParser.Parser.ParseNested | go/sui/transaction_type_tag.go:61-122 | the recursive descent ends and agrees with the grammar on result and rest |
| TypeParser.ParseTypeTag | go/sui/transaction_type_tag.go:15-30 | parses a whole text as the grammar says |
| BcsReader.Reader.ReadBytes | go/sui/transaction_bcs_primitives.go:72-84 | takes bytes, or fails for good when there are too few |
| BcsReader.Reader.Uleb | go/sui/transaction_bcs_primitives.go:93-116 | the loop reads a number of at most five bytes in shortest form, or fails and returns zero |
| BcsReader.Reader.Length | go/sui/transaction_bcs_primitives.go:117-125 | refuses a length above the limit or above the bytes that are left |
| BcsReader.Reader.U16 | go/sui/transaction_bcs_primitives.go:126-132 | reads two bytes |
| BcsReader.Reader.U64 | go/sui/transaction_bcs_primitives.go:133-139 | reads eight bytes |
| BcsReader.Reader.ByteString | go/sui/transaction_bcs_primitives.go:140-146 | reads a byte string |
| BcsReader.Reader.Text | go/sui/transaction_bcs_primitives.go:147-153 | reads text, refusing invalid UTF-8 |
| BcsReader.Reader.AddressField | go/sui/transaction_bcs_primitives.go:154-158 | reads an address |
| BcsReader.Reader.Reference | go/sui/transaction_bcs_primitives.go:159-167 | reads an object reference with a digest of 32 bytes |
| BcsReader.Reader.TypeTag | go/sui/transaction_type_tag.go:176-203 | reads a tag within the nesting limit |
| BcsReader.Reader.OneArgument | go/sui/transaction_bcs.go:104-119 | reads an argument of each kind |
| BcsReader.Reader.ManyArguments | go/sui/transaction_bcs.go:120-126 | fills a list of arguments |
| BcsReader.Reader.InputField | go/sui/transaction_bcs.go:129-162 | reads an input of each kind |
| BcsReader.Reader.CommandField | go/sui/transaction_bcs.go:163-201 | reads a command of each kind |
| BcsReader.Reader.ProgrammableField | go/sui/transaction_bcs.go:127-203 | reads inputs and commands |
| BcsReader.Reader.DataField | go/sui/transaction_data.go:151-186 | reads the envelope |
| BcsReader.ParseTransactionData | go/sui/transaction_data.go:151-186 | the imperative decoder returns what the grammar and the validity checks say, for every byte string |
| BcsWriter.Writer.Raw | go/sui/transaction_bcs_primitives.go:19-29 | appends, or fails for good beyond the size limit |
| BcsWriter.Writer.WriteUleb | go/sui/transaction_bcs_primitives.go:30-37 | the loop appends the shortest form of a number |
| BcsWriter.Writer.WriteTag | go/sui/transaction_type_tag.go:160-175 | appends the binary tag |
| BcsWriter.Writer.WriteOne | go/sui/transaction_bcs.go:5-22 | appends an argument |
| BcsWriter.Writer.WriteMore | go/sui/transaction_bcs.go:23-28 | appends a list of arguments |
| BcsWriter.Writer.WriteInputField | go/sui/transaction_bcs.go:31-57 | appends an input |
| BcsWriter.Writer.WriteCommandField | go/sui/transaction_bcs.go:59-100 | succeeds exactly when every type text of the command parses, and then appends its encoding |
| BcsWriter.Writer.WriteData | go/sui/transaction_data.go:115-150 | appends the envelope |
| BcsWriter.MarshalBCS | go/sui/transaction_data.go:115-150 | the imperative encoder returns the encoding of a valid transaction within the size limit, and an error otherwise; `Transactions.DataRule` and `WireVectors` fix what is valid and what the encoding is |
| WireVectors.TransferVector | go/sui/testdata/transaction_vectors.json:6-12 | the transaction of the first vector of the official kit is encoded as the 300 bytes given there, and these are decoded to it |
| WireVectors.VariantsVector | go/sui/testdata/transaction_vectors.json:13-19 | the same for the 804 bytes of the second vector, with inputs, arguments, types and commands of every supported kind |
| Validation.ValidateArguments | go/sui/programmable_transaction.go:391-409 | accepts arguments that use existing inputs and earlier results only, as `Transactions.InBounds` spells out |
| Validation.ValidateCoinCommand | go/sui/coin_commands.go:71-99 | accepts a coin command with one to 65536 valid arguments |
| Validation.ValidateCommand | go/sui/programmable_transaction.go:287-318 | accepts exactly the valid commands at a position |
| Validation.ValidateInputs | go/sui/programmable_transaction.go:260-285 | accepts inputs exactly when each is valid and no object occurs twice |
| Validation.ValidateProgrammable | go/sui/programmable_transaction.go:260-285 | accepts exactly the valid transactions |
| Validation.ValidatePayment | go/sui/transaction_data.go:62-83 | accepts gas coins exactly when they are valid, distinct, and no input object is among them |
| Validation.Validate | go/sui/transaction_data.go:46-109 | accepts exactly the valid transaction data |
| Transactions.InBounds | go/sui/programmable_transaction.go:391-409 | the arguments of a command are valid exactly when every input index is below the number of inputs and every result index below the position of the command |
| Transactions.CommandRule | go/sui/programmable_transaction.go:287-318 | which commands are valid at a position: names and types not blank, one to 65536 arguments of a coin command besides its single one, every named input present, every named result earlier |
| Transactions.ProgrammableRule | go/sui/programmable_transaction.go:260-285 | which transactions are valid, in terms of their fields alone; none is refused for an argument within its bounds |
| Transactions.DataRule | go/sui/transaction_data.go:46-109 | which transaction data is valid, in terms of its fields alone: sender, owner, price, budget, distinct gas coins that are no inputs, and what can be encoded |
| TransactionCodec.DataRead | go/sui/transaction_bcs.go:127-203 | reading the encoding of encodable data gives it back with canonical type texts, and no byte is left |
| TransactionCodec.DataCanonical | go/sui/transaction_bcs.go:127-203 | bytes read completely are the encoding of what was read |
| TransactionCodec.ParseThenMarshal | go/sui/transaction_data.go:151-186 | canonicality: encoding what was decoded returns exactly the accepted bytes |
| TransactionCodec.ParseInjective | go/sui/transaction_data.go:151-186 | no two accepted byte strings decode to the same transaction |
| TransactionCodec.MarshalThenParse | go/sui/transaction_data.go:115-186 | encode then decode returns the transaction with canonical type texts exactly when each of these has at most 4096 bytes; otherwise the bytes are refused |
| TypeExpansion.EncodedButRefused | go/sui/transaction_type_tag.go:16-18 | for each count from 56 to 100 a concrete transaction that is encoded and whose bytes are refused, because its short addresses expand beyond the limit |
| TypeExpansion.LongParses | go/sui/transaction_type_tag.go:15-30 | a list of n short struct types parses, and its canonical text has 73 n + 73 characters |
| Builder.TransactionBuilder.constructor | go/sui/programmable_transaction.go:92-94 | an empty builder |
| Builder.TransactionBuilder.AddPure | go/sui/programmable_transaction.go:108-122 | a new last input for each value, with a copy of it, while there are fewer than 65536 |
| Builder.TransactionBuilder.AddObject | go/sui/programmable_transaction.go:131-162 | the input of the object, merged with an equal earlier request or refused on conflict; the returned index names an input with the address, kind and version asked for, mutable if that was asked |
| Builder.AddRule | go/sui/programmable_transaction.go:131-162 | which requests are accepted: a value while there is room; an object with all its fields, which finds room, or the same object with the same kind and version, and the same digest unless it is shared |
| Builder.TransactionBuilder.AddCommand | go/sui/programmable_transaction.go:328-334 | appends a command exactly when it is valid at its position and the limit is not reached; a command that uses the gas coin, arguments this builder returned and nested results of these is refused only for its other fields or for want of room |
| Builder.TransactionBuilder.Build | go/sui/programmable_transaction.go:242-250 | succeeds exactly when a command was added |
| Builder.AddKeeps | go/sui/programmable_transaction.go:131-162 | one accepted request keeps all inputs and their positions; a new input is exactly what was asked for; a repeated object keeps its reference, and only a shared one may change, to mutable exactly when one of the two requests asked for that |
| Builder.AllGood | go/sui/programmable_transaction.go:108-162 | after any requests each object address occurs in one input and all inputs are valid |
| Builder.IndexStays | go/sui/programmable_transaction.go:131-162 | the index returned for an object names that object after any later requests |
| Builder.SameIndex | go/sui/programmable_transaction.go:131-162 | two accepted requests for one object return the same index |
| Builder.MutableExactly | go/sui/programmable_transaction.go:145-156 | a shared input is mutable exactly when some accepted request for it was |
| Amounts.ParseExact | go/core/amount.go:30-56 | a text parses to n exactly when it is short enough and denotes n base units with at most the given decimals, n positive with at most 78 digits |
| Amounts.FormatExact | go/core/amount.go:118-152 | a number is formatted exactly when it is positive with at most 78 digits, as its shortest decimal text |
| Amounts.FormatThenParse | go/core/amount.go:118-152 | parsing a formatted amount returns the number |
| Amounts.ParseThenFormat | go/core/amount.go:154-194 | formatting a parsed text keeps its value, is shortest, and parses to the same number again |
| Amounts.Cut | go/core/amount.go:154-194 | splits at the first point |
| Journal.PreimageInjective | go/internal/evmobservation/journal.go:23-33 | the bytes that are hashed determine the log: equal bytes mean equal address, transaction, index, topics and data |
| Journal.RecordedMeaning | go/internal/evmobservation/journal.go:40-56 | after any logs, the evidence holds at most 4096 identities, and each with the fingerprint of the last log recorded under it |
| Journal.KeepsNewest | go/internal/evmobservation/journal.go:40-56 | recording keeps the new log and all identities but the oldest |
| Journal.NothingLost | go/internal/evmobservation/journal.go:40-56 | while at most 4096 identities were recorded, the evidence holds exactly these |
| Journal.AppliedLogs.constructor | go/internal/evmobservation/journal.go:18-21 | an empty journal |
| Journal.AppliedLogs.Remember | go/internal/evmobservation/journal.go:40-56 | after each log, map and queue are those of the whole list of logs so far |
| Journal.AppliedLogs.Snapshot | go/internal/evmobservation/journal.go:62-62 | the evidence handed out has at most 4096 identities, each with the fingerprint of the last log recorded under it; the newest is among them, and all are when at most 4096 were recorded |
| Observation.Prove | go/internal/evmobservation/progress.go:109-190 | the outcome is that of the first cause in the order of the requests and of the returned logs; it advances exactly when the answers verify the range, and then to the head |
| Observation.AdvancesExactly | go/internal/evmobservation/progress.go:109-190 | whatever the order in which the applied logs are compared, a proof advances exactly when the answers verify the range |
| Observation.VerifiedRange | go/internal/evmobservation/progress.go:109-190 | which answers verify a range: at most 1024 blocks, the same hashes before and after, every returned log live, in range and applied, every applied log from there on returned |
| Observation.OutcomesMean | go/internal/evmobservation/progress.go:109-190 | what each other outcome says about the answers: unavailable, inconsistent, or waiting |
| Observation.Determined | go/internal/evmobservation/progress.go:169-178 | the answers determine the outcome if and only if it is not left to the order of the applied logs: all requests before succeeded, one applied log lies beyond the head, and another of the range was not returned |
| Observation.TwoOutcomes | go/internal/evmobservation/progress.go:169-178 | concrete answers with which the loop may wait or stop, depending on the order of a map |
| Observation.StepInv | go/internal/evmobservation/progress.go:209-271 | every round keeps: the verified ranges since the last reset tile the blocks from the anchor, each is backed by the evidence it was checked with, and the current evidence up to the frontier is explained by them |
| Observation.BeginInv | go/internal/evmobservation/progress.go:274-300 | continuing a proof keeps the verified prefix valid for changed evidence; otherwise the frontier starts at the baseline |
| Observation.ExtendInv | go/internal/evmobservation/progress.go:109-190 | a verified range extends the prefix without a gap |
| Observation.PublicationProved | go/internal/evmobservation/progress.go:265-270 | at a publication the ranges tile the blocks from their anchor to the proved head, every log they returned was in the evidence of its range, and no applied log from the anchor on lies outside them; the anchor is the baseline of the published state if and only if that is not the zero cursor |
| Observation.RunInv | go/internal/evmobservation/progress.go:199-272 | the invariant holds after every run of rounds |
| Observation.EveryPublicationProved | go/internal/evmobservation/progress.go:199-272 | every publication of every run is proved in this way: from the baseline of its state exactly when that state has one |
| Observation.Run | go/internal/evmobservation/progress.go:199-272 | the loop with its three variables follows such a run of rounds on its inputs, applies exactly its publications, and stops exactly at the first round that stops; `Observation.StopsExactly` and `Observation.PublishesExactly` say which rounds stop and publish, by their inputs alone |
| Observation.StopsExactly | go/internal/evmobservation/progress.go:207-300 | a run stops at a round exactly when the owner is active and its position lies before its baseline, the context was cancelled, or the proof is inconsistent with a state that was read again unchanged; otherwise it goes on |
| Observation.PublishesExactly | go/internal/evmobservation/progress.go:207-300 | a round publishes exactly when its proof advanced, the state was read again unchanged and not before its baseline, and nothing was cancelled; the loop publishes these and no others |
| Observation.ProvesFrom | go/internal/evmobservation/progress.go:207-300 | every proof of a run is one of the range from its cursor, with the answers it got |
| Observation.NextCursor | go/internal/evmobservation/progress.go:207-300 | the next proof begins at the frontier if what was verified still holds for what is read then, and at the baseline otherwise; the frontier moves to the head exactly after a proof that advanced and still holds |
| Observation.CursorAfterPause | go/internal/evmobservation/progress.go:207-300 | after an inactive reading the next proof begins at the baseline, unless that is the zero cursor |
| Observation.RunDetermined | go/internal/evmobservation/progress.go:199-272 | the inputs of the loop determine its rounds, its publications and where it stops, when no proof is left to the order of a map |
| Observation.ZeroBaselineGap | go/internal/evmobservation/progress.go:216-223 | a concrete run: after an inactive reading a state with the zero baseline continues an old prefix and is published, although block 1, the first after its baseline, lies in no verified range |
| OperatorHistory.Restore | go/evm/lpprotection/evidence.go:128-155 | accepts exactly the lists whose histories have distinct keys, full identities, the required shape of checkpoint, failure and operators, and no checkpoint at the last block number |
| OperatorHistory.RestorableRule | go/evm/lpprotection/evidence.go:128-158 | which stored lists can be restored, in terms of the fields of their histories |
| OperatorHistory.Extend | go/evm/lpprotection/approvals.go:131-149 | one more chunk, anchored to the checkpoint, extends a history by exactly the operators of its logs |
| OperatorHistory.FitsRule | go/evm/lpprotection/approvals.go:103-123 | which logs are approval events of a scanned chunk, in terms of their fields and topics |
| OperatorHistory.EveryBlockScanned | go/evm/lpprotection/approvals.go:85-154 | each block from the start to the checkpoint lies in exactly one scanned chunk |
| OperatorHistory.Ordered | go/evm/lpprotection/approvals.go:85-154 | chunks follow each other in block order |
| OperatorScan.Evaluation.constructor | go/evm/lpprotection/reader.go:110-110 | an evaluation starts from restored evidence with empty caches, for any observed block |
| OperatorScan.Evaluation.Attempt | go/evm/lpprotection/rpc.go:61-76 | a call is made only without an error, uncancelled and within the budget, and is counted; otherwise the fault says which of these it was |
| OperatorNode.GenuineRule | go/evm/lpprotection/rpc.go:20-137 | what a recorded call holds: the answer of the node to that call, where a header or code with a zero hash is none |
| OperatorNode.SizeRule | go/evm/lpprotection/rpc.go:20-137 | what each answer counts against the limit on bytes |
| OperatorScan.Evaluation.Block | go/evm/lpprotection/creation_rpc.go:11-36 | a header from the cache or the node; a fresh read with another hash empties the evidence |
| OperatorScan.Evaluation.CheckCanonical | go/evm/lpprotection/creation_rpc.go:46-56 | true only if the block has the expected hash; otherwise the evidence is emptied or an error is kept |
| OperatorScan.Evaluation.InvalidateEvidence | go/evm/lpprotection/creation_rpc.go:58-66 | empties the histories and reports a reorganisation |
| OperatorScan.Evaluation.Logs | go/evm/lpprotection/rpc.go:37-59 | on success all logs are live and inside the requested range; they are handed on even when their size exceeds the budget |
| OperatorScan.Evaluation.Operators | go/evm/lpprotection/approvals.go:104-110 | accepts a chunk exactly when every log is an approval event of the owner on its branch, and returns exactly its operators |
| OperatorScan.Evaluation.Acquire | go/evm/lpprotection/approvals.go:100-123 | on success the node was asked for the tail, the logs, the anchor and the tail again, in this order and with the same tail hash; on failure the evidence is kept or emptied, and an invalid event takes the place of an exceeded budget |
| OperatorScan.Evaluation.Events | go/evm/lpprotection/approvals.go:103-110 | every returned event is checked, also after the budget was exceeded; the operators are exactly those of the events |
| OperatorScan.Evaluation.Open | go/evm/lpprotection/approvals.go:29-61 | a stored history with the requested identity and no checkpoint beyond the block is resumed as it is, any other of the same manager and owner is replaced by an empty one, and a new one is added while there is room |
| OperatorScan.Evaluation.Merge | go/evm/lpprotection/approvals.go:131-145 | the union of the operators without repeats, in the order of their texts |
| OperatorScan.SortedUnique | go/evm/lpprotection/approvals.go:131-145 | two such lists of the same operators are equal: the stored list depends on the set only |
| OperatorScan.Evaluation.Save | go/evm/lpprotection/approvals.go:56-60 | replaces the history in the list, unless the list was emptied |
| OperatorScan.Evaluation.KeepFailure | go/evm/lpprotection/approvals.go:124-130 | a failed attempt is recorded with one more attempt exactly when a call was made and the budget was not the cause |
| OperatorScan.Evaluation.KeepChunk | go/evm/lpprotection/approvals.go:131-149 | an accepted chunk becomes the checkpoint, unless the merged operators exceed the limit |
| OperatorScan.Evaluation.ScanChunk | go/evm/lpprotection/approvals.go:85-154 | one chunk, of the exact range the limit or the failure record gives, ends in a checkpoint, or in an error that leaves one more counted attempt exactly when a call was made and the budget was not the cause; all chunks scanned before are kept |
| OperatorScan.Evaluation.Scan | go/evm/lpprotection/approvals.go:62-154 | the loop ends at the observed block or with an error, and does nothing after four failed attempts |
| OperatorNode.TooLongRule | go/evm/lpprotection/approvals.go:72-81 | a scan with blocks left is refused exactly when four calls for each range that is left, one for each known operator and one at the end are more than remain, where a first range from block zero needs one less |
| OperatorScan.Evaluation.Approved | go/evm/lpprotection/rpc.go:97-137 | the current approval word of an operator, read once |
| OperatorScan.Evaluation.Review | go/evm/lpprotection/approvals.go:155-172 | clear only if every operator of the history reads as unapproved at the observed block |
| OperatorScan.Evaluation.OperatorsClear | go/evm/lpprotection/approvals.go:19-173 | clear only with a history that reaches the observed block and whose operators are all unapproved; active only with an approved operator; other histories are kept, resumed ones keep their chunks and count their attempts, or a reorganisation emptied all |
| OperatorScan.ClearMeans | go/evm/lpprotection/approvals.go:16-19 | after a clear verdict each block from the start to the observed one lies in a chunk accepted in the trace, and every operator its logs name was read as unapproved at the observed block |
| OperatorScan.ActiveMeans | go/evm/lpprotection/approvals.go:155-172 | after an active verdict the trace holds an approved operator read at the observed block |
| OperatorScan.LastBlock | go/evm/lpprotection/evidence.go:141-141 | what an evaluation leaves after it settled an owner can be restored if and only if it was not at the last block number |
| OperatorScan.WithinLimits | go/evm/lpprotection/reader.go:95-138 | over any sequence of evaluations none makes more calls than its limit, and one without a fault got no more bytes and logs than theirs |
| OperatorScan.Evaluate | go/evm/lpprotection/reader.go:95-138 | over any sequence of evaluations, each from the evidence the one before stored: every call of the trace holds what the node returned to it, each stored history is the outcome of contiguous chunks accepted in the trace, histories keep their chunks and count their attempts unless a reorganisation or another identity displaces them, every clear or active verdict rests on calls, every unresolved one on a fault, and every fault on the cancellation, the answers, the limits or the histories of its own evaluation |
| OperatorScan.StoredRests | go/evm/lpprotection/approvals.go:85-154 | every stored history is the outcome of ranges from its start to its checkpoint, each read by consecutive calls between two equal answers for its last header and anchored to the end of the one before; its operators are exactly those of their logs |
| OperatorScan.VerdictsRest | go/evm/lpprotection/approvals.go:155-172 | after a clear verdict each block from the start to the observed one lies in a range read like this, and every operator of its logs was read as the word zero at the observed block; after an active one some operator was read as the word one |
| OperatorScan.OwnersCompleted | go/evm/lpprotection/approvals.go:29-154 | after an evaluation without a fault every owner has a history of the code that was read, with the requested code and start, whose checkpoint is the observed block |
| OperatorScan.ChangedBelong | go/evm/lpprotection/approvals.go:36-61 | what an evaluation leaves is what was stored or belongs to the request: a history of other code or another start, or with a later checkpoint, is never continued |
| OperatorScan.ChunksSurvive | go/evm/lpprotection/approvals.go:29-61 | over any number of evaluations a history keeps all its chunks while none of them reports a reorganisation and each asks for it as it is stored: the same manager and code read, the same owner, code and start, and no earlier block than its checkpoint |
| OperatorScan.HistoryResumed | go/evm/lpprotection/approvals.go:36-71 | a stored history that is asked for as it is keeps its identity and chunks; after four failed attempts it stays as it is, and otherwise it gains nothing, one more attempt at the same range, or a later checkpoint with the failure record dropped or begun anew |
| ObjectStream.KeepsInv | go/sui/object_state_scoped.go:124-178 | every step of producer, workers and consumer keeps the order of cells, the count of slots, the tags of results and that each waiting cell will be served |
| ObjectStream.RunKeepsInv | go/sui/object_state_scoped.go:124-178 | the invariant holds in every state of every interleaving |
| ObjectStream.ResultsInOrder | go/sui/object_state_scoped.go:158-178 | results come in frame order without repetition; of the frames the consumer took exactly those whose wait it gave up are missing; without a cancellation the k-th result is that of the k-th frame |
| ObjectStream.ResultsTrue | go/sui/object_state_scoped.go:107-178 | every result says what happened: a hydrated frame was received and its hydration succeeded, a failed one was received and its hydration failed, and a failed receive failed |
| ObjectStream.FramesConserved | go/sui/object_state_scoped.go:124-178 | in every state the received frames are those delivered, dropped, awaited, queued, and in the hand of the producer; nothing is dropped before a cancellation |
| ObjectStream.DeliveredAtEnd | go/sui/object_state_scoped.go:124-178 | when the end is reported a received frame was delivered if and only if no step dropped it, so all were delivered if and only if no cancellation took the place of a push or of the wait for a result |
| ObjectStream.DroppedRun | go/sui/object_state_scoped.go:136-142 | a concrete run that receives a frame, drops it in place of its push, and reports the end |
| ObjectStream.LossyRun | go/sui/object_state_scoped.go:158-168 | a concrete run that loses two received frames after one cancellation |
| ObjectStream.WindowBounded | go/sui/object_state_scoped.go:125-145 | at most four frames are received and undelivered, at most four workers run, and neither the push, the release of a slot, nor a worker ever blocks |
| ObjectStream.EndIsComplete | go/sui/object_state_scoped.go:143-168 | the end is reported only after all results were delivered, the failed receive last, unless cancelled |
| ObjectStream.NeverStuck | go/sui/object_state_scoped.go:124-178 | in every reachable state some operation can proceed |
| ScopedObjects.Add | go/sui/object_state_scoped.go:201-219 | a reference is added exactly when it is complete, does not conflict, and the limit of 512 holds |
| ScopedObjects.Plan | go/sui/object_state_scoped.go:220-276 | a plan exists exactly when all changes are complete and their references are consistent and within the limit; it requests each referenced version once, in the order of first occurrence, with its digest |
| ScopedObjects.SelectedRule | go/sui/object_state_scoped.go:220-252 | a change is kept exactly when it is no accumulator write and is of the pool, or of an object that one of the given parents owns before or after it |
| ScopedObjects.ReferencesRule | go/sui/object_state_scoped.go:253-276 | the versions a change refers to: the input if there is one and it is not written again under the same owner, and the output if one is written |
| ScopedObjects.PlannableRule | go/sui/object_state_scoped.go:220-276 | which changes can be planned, in terms of their fields |
| ScopedObjects.KeysInOrder | go/sui/object_state_scoped.go:201-219 | the versions are requested in the order in which they are first referred to, each once |
| ScopedObjects.NothingElse | go/sui/object_state_scoped.go:313-342 | the counting argument: as many distinct keys as requests, with all requests among them, are the requests |
| ScopedObjects.CheckBatch | go/sui/object_state_scoped.go:313-342 | accepts an answer exactly when it holds the requested versions, each once, with the expected digests |
| ScopedObjects.AcceptRule | go/sui/object_state_scoped.go:313-342 | which replies to a batch are accepted, in terms of ids, versions and digests |
| ScopedObjects.FetchAll | go/sui/object_state_scoped.go:278-343 | asks for the batches in order up to the first reply that is refused; on success the objects are those of the replies, in that order, and exactly the referenced versions; it fails exactly on such a reply |
| ScopedObjects.Hydrate | go/sui/object_state_scoped.go:180-348 | a transaction keeps its selected changes and holds the objects of the replies to its batches, exactly those they refer to; a frame without a transaction passes unchanged; a frame is refused only without a cursor, when its changes cannot be planned, when a batch is not answered with what it asks for, or after a cancellation |
| ObjectChanges.Index | go/sui/object_state_subscription.go:98-108 | indexes the objects by version, or returns the first fault in their order: a null object or a repeated version |
| ObjectChanges.NoIndexFault | go/sui/object_state_subscription.go:98-108 | there is such a fault exactly when some object is null or some version repeated |
| ObjectChanges.Decode | go/sui/object_state_subscription.go:90-213 | returns the first fault of the objects; without one, the changes decoded in order or the first fault among them; each decoded change has the address of its change, before and after exactly the versions named with their digests and contents, the parents on both sides, and is deleted exactly when its output is absent |
| ObjectChanges.DecodedItems | go/sui/object_state_subscription.go:142-205 | the changes are decoded exactly when none is null, each that is no accumulator write has what it must have, and no two are of one object; the result then describes these, item by item in their order |
| ObjectChanges.Found | go/sui/object_state_subscription.go:109-113 | in a hydrated transaction every referenced version is found with its digest |
| ObjectChanges.HydratedDecodes | go/sui/object_state_subscription.go:90-213 | a hydrated transaction never fails to decode on a missing, mismatched, null or repeated object, nor on an owner, state or address; only on content, or on two changes of one object |
| ObjectChanges.HydratedItems | go/sui/object_state_subscription.go:142-205 | the items decoded from a hydrated transaction describe its selected changes one by one |
| ObjectChanges.HydrateAndDecode | go/sui/object_state_scoped.go:119-121 | the result is the decoding of the selected changes against the objects of the node's replies, and fails only on content; there is none only for a refused frame, one without a transaction, or after a cancellation |
| TickWindow.WordIsFloor | go/internal/suiwindow/window.go:29-35 | the word of a tick is its floor division by 256 spacings |
| TickWindow.WordMonotone | go/internal/suiwindow/window.go:29-35 | words are ordered as ticks |
| TickWindow.TickOfWord | go/internal/suiwindow/window.go:51-53 | the tick of a bit lies in the word of that bit |
| TickWindow.TickOfInjective | go/internal/suiwindow/window.go:51-53 | later bits have later ticks |
| TickWindow.NoOverflow | go/internal/suiwindow/window.go:51-53 | the ticks of all bits of the grid are computed exactly in 32 bits if and only if the spacing is at most 2^23, far above the spacings for which a window is read |
| TickWindow.Missing | go/internal/suiwindow/window.go:41-59 | true exactly when a word of the window or an initialized tick in it, as computed in 32 bits, is unknown, for every positive spacing |
| TickWindow.MissingRule | go/internal/suiwindow/window.go:41-59 | when something of the window is missing, in terms of bits, bounds and the 32-bit number of a tick |
| TickWindow.WindowRule | go/internal/suiwindow/window.go:93-99 | the window is the word of the tick and one on each side, as far as the grid reaches |
| TickWindow.BitRule | go/internal/suiwindow/window.go:51-53 | the bits of a word are its binary digits |
| TickWindow.AllBatches | go/internal/suiwindow/window.go:122-125 | the batches of 32 put together are the initialized ticks |
| TickWindow.TicksAreListed | go/internal/suiwindow/window.go:102-121 | the list of marked ticks is strictly increasing and holds exactly the ticks the words mark |
| TickWindow.MarkRule | go/internal/suiwindow/window.go:115-120 | which ticks the words mark, in terms of bits and bounds |
| TickWindow.ReadWords | go/internal/suiwindow/window.go:90-121 | asks for exactly the words of the window, in one call; every word is the decoded reply at its place, and the listed ticks are exactly those the words mark; none only if the reply is missing, incomplete or undecodable, or the context was cancelled before the call |
| TickWindow.DecodeWords | go/internal/suiwindow/window.go:101-121 | decodes every word of the reply, or refuses exactly when one cannot be decoded |
| TickWindow.DecodeRule | go/internal/suiwindow/window.go:101-153 | how values are read: an absent word is empty, any other is a number of 256 bits; a net is the signed number of its 128 bits |
| TickWindow.ReadNets | go/internal/suiwindow/window.go:129-153 | each tick of each batch gets the signed 128-bit reading of the reply at its place in that batch, and no other tick gets one; none exactly when some reply cannot be read |
| TickWindow.Read | go/internal/suiwindow/window.go:67-158 | on success every word and every net is the decoded reply of the node to the call that asked for it, nothing of the window is missing and nothing else is returned; none only outside the readable ticks and spacings, after a cancellation, or when a reply was missing, incomplete or undecodable |
| TickWindow.RefusalRule | go/internal/suiwindow/window.go:101-153 | when replies are refused: one is missing, has not one value for each key, or holds a value that cannot be read |
| TickBatches.Fetch | go/internal/suiwindow/window.go:71-89 | one call with exactly these keys unless stopped before it; its reply is used exactly when it has as many values as keys |
| TickBatches.Read | go/internal/tickbatch/read.go:15-62 | under any schedule of the workers no batch is asked for twice; on success each was asked for once and its place holds the reply of the node to that call; no result only after a cancellation or a missing or incomplete reply |
| TickBatches.ReadMeans | go/internal/tickbatch/read.go:15-62 | a successful read in terms of the calls: one for each batch, with exactly its keys, and the values are those of its reply, one for each key |
| TickBatches.Stored | go/internal/tickbatch/read.go:40-50 | storing one answer keeps all others in their place |
| TickBatches.Completed | go/internal/tickbatch/read.go:54-61 | when all workers stopped without a failure every batch is stored |
| Producer.Run | go/internal/suiwindow/producer.go:57-115 | for any events: its actions are exactly those the events call for, each at its event, up to the first event that ends the loop, with the failure that event stands for |
| Producer.TickRule | go/internal/suiwindow/producer.go:84-96 | a tick starts a capture exactly when something is missing, none is running, and the last one did not fail or its delay has passed |
| Producer.EventRule | go/internal/suiwindow/producer.go:67-113 | what every other event adds: an applied update, or the end of the running capture, which fails, grew too long with more than 4096 updates, or is offered |
| Producer.EndRule | go/internal/suiwindow/producer.go:57-83 | the loop goes on until it is cancelled, nothing more is received or an update cannot be applied, and its failure says which; a failed receive is joined with the failure of the last capture |
| Producer.Placed | go/internal/suiwindow/producer.go:57-115 | each action is the one its event called for, after the actions of all earlier events |
| Producer.InOrder | go/internal/suiwindow/producer.go:57-115 | actions follow the order of their events, at most one for each |
| Producer.NoOverlap | go/internal/suiwindow/producer.go:84-98 | between two starts a capture ends: captures never overlap |
| Producer.InstallExact | go/internal/suiwindow/producer.go:97-105 | a replacement is offered only at the end of a capture that ended well, with exactly the transaction-bearing updates received between its start and its end, at most 4096, in order |
| Producer.InstallComplete | go/internal/suiwindow/producer.go:97-105 | a capture that ended well is offered exactly when at most 4096 such updates were received since its start |
| Producer.SinceIsBearers | go/internal/suiwindow/producer.go:76-88 | while a capture runs, the updates kept for replay are those received after the event that started it |
| Producer.RetryWaits | go/internal/suiwindow/producer.go:84-113 | a capture after a failed one waits out the delay that its failures in a row give, between the first and the last delay |
| Producer.Doubles | go/internal/suiwindow/producer.go:107-112 | the delay is one second at first and each further failure doubles it, up to 30 |
| Transfers.Collect | go/solana/spltoken/transfer.go:130-148 | the change of each token account: the used balances after minus before, under the owner and decimals of the first used balance of that account |
| Transfers.BalanceRule | go/solana/spltoken/transfer.go:124-142 | what one more reported balance changes: nothing without an owner, with another mint than the filter, or with an amount that is no number, and the sum of its account otherwise |
| Transfers.Split | go/solana/spltoken/transfer.go:151-159 | each changed account once, in any order of the map |
| Transfers.Match | go/solana/spltoken/transfer.go:161-174 | settles amounts in place: every event belongs to one decrease and one increase of a mint, and no pair is left that could still be settled |
| Transfers.Conserved | go/solana/spltoken/transfer.go:161-174 | no decrease and no increase is exceeded, and per mint the smaller of the totals is emitted |
| Transfers.DeriveTransfers | go/solana/spltoken/transfer.go:115-175 | for a transaction that did not fail the events conserve value over the changed token accounts, each with the owner and decimals that were reported for it; otherwise there are none |
| Transfers.ChangedAccounts | go/solana/spltoken/transfer.go:130-159 | the decreases are the accounts that hold less after the transaction than before it, the gains those that hold more, each once and by the difference |
| Transfers.OwnersConserved | go/solana/spltoken/transfer.go:161-174 | no owner sends more of a mint than its accounts lost, nor gets more than they gained; where the gains of the mint suffice every owner sends exactly what it lost, and where the losses suffice every owner gets exactly what it gained |

## Left out

- TickWindow.Missing: positive spacings only, the only ones for which a window can be read.
- OperatorScan.Evaluate: the evidence an evaluation stores is its list of histories; its size limit, and the other kinds of evidence stored beside it, are not modelled.
- ObjectChanges.HydratedDecodes: does not predict content faults (digest texts, JSON, object types), which depend on what the node returns.
- ObjectStream.ResultsInOrder: one consumer only; a second goroutine calling Recv could take results out of order.
- The numeric price table and its finite range: any positive nondecreasing function of the tick takes its place.
- Nil big integers and nil pointers inside a pool state or an update: each is an integer, and an update is either a swap or a change, so the checks for null fields and for both or neither kind are not represented.
- A command or input whose kind does not fit its fields, and a nil pure value inside a transaction: inputs and commands are variants.
- Error texts, offsets and wrapped causes: an error is a kind, or only the fact that there is one.
- Strings hold Unicode characters, so a text that is not valid UTF-8 exists only as bytes; where the code trims or counts bytes of such a text the model does not follow.
- Hash functions: the fingerprint, header hashes and code hashes are opaque numbers; no collision is excluded except that the hashed bytes determine the log.
- Copying of slices and big integers so that callers cannot alias them.
- Timers and deadlines: the loops are given the times of their events; of the delays only the one between failed captures is modelled (`Producer.RetryWaits`).
- Signing, transaction digests, and the execution client around the codec.
- `Value`, `PriceRatio` and the string type of base units: thin wrappers.
- The two framework calls that combine builder commands: easy members.
- Removal of histories when a receipt is discarded (go/evm/lpprotection/receipt_cache.go), creation evidence, custody recognition and the final header check of an evaluation.
- `ConfirmedAt`: a comparison of two values.
- Subscriptions, network clients, catalogs, commands, and venue packages.
