# MANY protocol: a Dafny model

A model of the parts of many-rs, the Rust implementation of the MANY protocol, whose behaviour is
hardest to see from one function alone, with proofs about all inputs, all runs and all
interleavings. It covers the wire formats (CBOR values, attributes, requests, responses, errors,
addresses, token amounts), the migration set that decides at which block height behaviour changes,
the delivery of transactions to consensus, the server with its duplicate-request cache, and the
storage of the web, key-value and ledger modules.

`dafny verify dfyconfig.toml` checks every file.

## How the files fit together

| file | what it models |
|---|---|
| `Wrappers`, `Bytes`, `Lex`, `Sums` | options and results, big-endian numbers, string order, sums over maps |
| `Cbor`, `CborAny`, `CborLoops` | CBOR heads and strings, the dynamic CBOR value with its order and maps, the loops over numbered fields |
| `CborForms`, `Utf8`, `KnownAnswers` | what the CBOR reader makes of forms its writer never uses, text as characters, published test vectors |
| `Base32`, `Address`, `AddressCbor` | addresses as bytes, as checksummed text and on the wire |
| `Attributes`, `RelatedIndex`, `Amounts` | attributes and their sets, nested attribute indices, token amounts and fees |
| `Errors`, `Reason` | error codes, arguments and errors on the wire, and the text of an error |
| `Request`, `Response`, `MessageLayouts` | the two messages, and their bytes written out |
| `Migration`, `MigrationEffects`, `Abci` | migrations over block heights, what they do to the storage, and what a node hands to consensus |
| `Validators`, `Server` | validators as a tree over shared caches, and the server's interleaved request handling |
| `Store`, `Keys` | batches applied to an ordered store, and keys built from an address and a name |
| `WebFiles`, `WebCommands`, `WebListing` | websites in the store, the deploy, update and remove commands, and the listing by pages |
| `WebExamples`, `WebBlocks` | runs that end unexpectedly, and the commands inside a block that is not committed yet |
| `KvStore` | values and access records of the key-value module |
| `Subresources`, `TokenMigration` | fresh subresource addresses, also across the token migration |
| `Ledger`, `LedgerEffects` | balances and supplies, and when a command is accepted |

Where the source works by loops or by changing an object, the model has a method with a loop or a
class with the same fields. Each such method is proved equal to a function, and the properties are
proved about the function: for every main operation, without naming it again, when it is accepted and
what it leaves. Readers are methods on a cursor (`Cbor.Decoder`), writers append to a
buffer (`Cbor.Encoder`).

## Where the code does less than it seems to

These statements fail for the code as it is. Each has a lemma with the exact condition.

- A response does not survive the wire if it has an id. The writer writes the id and the reader
  never consumes it. `Response.DecodeWritten` says what the reader gets from every written
  response, and `Response.RoundTripIff` when that is the response.
- An attribute-specific error code above -10000 comes back as another kind of code
  (`Errors.CodeSurvives`).
- A node that restarts after a migration callback has failed keeps its storage, its outcome and the
  callbacks to come (`Migration.RestartsInvisible`), but can have other flags than one that did not
  restart. `Migration.RestartInvisibleIff` says when, over every run: some migration was not reached
  at its own height, or some trigger not since its range began or ended. `Migration.FailureShows` is
  an example.
- Two copies of one request can both run. A copy is executed just when no request of its digest has
  been marked (`Server.ExecutesIff`), and marking comes after the execution
  (`Server.RacingDuplicates`).
- A request that the fallback handles is never marked, so it can be sent again
  (`Server.ForwardedPassAgain`).
- A site name may contain a slash. Removing or updating one site then touches another just when one
  name continues the other after a slash (`WebFiles.IsolationIff`, `WebFiles.UpdateIsolationIff`,
  with a run in `WebExamples.SlashInName`).
- A deployment writes into another site of the same owner just when that site holds it or is inside
  it at a path that is not hidden (`WebFiles.DeployIsolationIff`).
- Two sites can get one domain if both claim it in one block (`WebBlocks.BlocksUniqueIff`, with a run
  in `WebBlocks.SameDomainOneBlock`).
- A deployment whose archive has a directory called `index.html` is accepted and yet does not exist
  (`WebFiles.StoredExists`); what it leaves behind is served by the next deployment of that name
  (`WebFiles.DeployedExactlyIff`, with a run in `WebExamples.IndexIsDirectory`).
- A comment at src/many-kvstore/src/module.rs:327 allows the transfer of a disabled key. The code
  refuses every one (`KvStore.DisabledRefuses`).
- Two identities of one key, such as a public key and a subresource of it, are granted the same
  subresource addresses, each from a counter of its own (`Subresources.GrantsDistinct`,
  `Subresources.SharedKeyCollides`).
- The token migration lets addresses be granted again if it gives tokens an identity of the same key
  and a counter at or below them (`TokenMigration.GrantedAgainIff`).
- Minting to the anonymous address replaces what is stored for it, so that the supply exceeds the
  balances by exactly that much (`Ledger.MintConservesIff`, `Ledger.RunAccounted`, with a run
  in `Ledger.AnonymousLoses`).
- Creating a token does not look at its maximum supply (`Ledger.MaximumSinceCreation`).

## Model

| member | source | states |
|---|---|---|
| `Cbor.HeadRoundTrip` | src/many-types/src/cbor.rs:58-86 | Every head the encoder writes (any major type, any 64-bit argument, shortest form) is read back with what follows it left over. |
| `Cbor.StringRoundTrip` | src/many-types/src/cbor.rs:65-70 | A byte or text string of any length is read back exactly; text needs to be UTF-8, and then is accepted. |
| `CborAny.CompareEqual` | src/many-types/src/cbor.rs:29-39 | The derived order calls two values equal just when they are the same value. |
| `CborAny.CompareFlips` | src/many-types/src/cbor.rs:29-39 | Exchanging the operands reverses the derived order, through all nesting. |
| `CborAny.BelowTransitive` | src/many-types/src/cbor.rs:29-39 | The derived order is transitive, so map keys have one sorted order. |
| `CborAny.CollectSorted` | src/many-types/src/cbor.rs:110-115 | Entries read in any order, with any repetitions, end in a map with strictly increasing keys. |
| `CborAny.CollectInOrder` | src/many-types/src/cbor.rs:110-115 | Entries that come in key order are kept as they are. |
| `CborAny.CollectedIsLast` | src/many-types/src/cbor.rs:110-115 | The map collected from a list of entries is the only ordered map that holds, under every key, the value of the last entry of the list with that key, and nothing where there is none. |
| `CborAny.InsertAt` | src/many-types/src/cbor.rs:110-115 | An insertion sets what is held under its own key and leaves what is held under every other. |
| `CborAny.RoundTrip` | src/many-types/src/cbor.rs:56-124 | Every dynamic value, at any nesting, followed by any bytes, decodes to exactly the value and those bytes. |
| `CborAny.PrefixFree` | src/many-types/src/cbor.rs:56-124 | Two encodings with anything behind them agree only if values and remainders agree: the encoding is injective and prefix-free. |
| `CborForms.ValueLayout` | src/many-types/src/cbor.rs:56-90 | The bytes of every value: the major type that section 3.1 of RFC 8949 gives its variant, its length or number, and the encodings of what it holds, in order. |
| `CborAny.DecodeValid` | src/many-types/src/cbor.rs:92-124 | Whatever the decoder accepts, from any bytes, is a value the encoder can write. |
| `CborAny.Reencode` | src/many-types/src/cbor.rs:56-124 | What was decoded from any bytes, canonical or not, survives being encoded and decoded again. |
| `CborAny.EncodeInto` | src/many-types/src/cbor.rs:56-90 | The recursive writer appends exactly the encoding to the buffer. |
| `CborAny.WriteItems` | src/many-types/src/cbor.rs:71-76 | The loop over array items appends their encodings in order. |
| `CborAny.WriteEntries` | src/many-types/src/cbor.rs:77-79 | The loop over map entries appends key and value of each in order. |
| `CborAny.DecodeFrom` | src/many-types/src/cbor.rs:92-124 | The recursive reader yields what the decoding function yields, fails where it fails, and leaves the cursor behind the value. |
| `CborAny.CollectItems` | src/many-types/src/cbor.rs:106-109 | The item loop, counted or up to a break, reads exactly the items. |
| `CborAny.CollectEntries` | src/many-types/src/cbor.rs:110-115 | The entry loop, counted or up to a break, leaves the map that holds under each key the value of the last entry with that key, and nothing under any other. |
| `CborForms.AnyEntries` | src/many-types/src/cbor.rs:110-115 | Entries written in any order, with keys repeated or not, counted or closed by a break, decode to that map. |
| `CborForms.OpenArray` | src/many-types/src/cbor.rs:106-109 | An array closed by a break decodes to the items before the break. |
| `CborForms.AnyWidth` | src/many-types/src/cbor.rs:92-124 | A head is read whatever the width of its argument, shortest or not. |
| `CborForms.Refused` | src/many-types/src/cbor.rs:92-124 | What the value type has no variant for is refused: a break, floats and other simple values, open-ended strings, integers outside 64 bits, reserved heads. |
| `CborForms.OrderByContents` | src/many-types/src/cbor.rs:29-39 | Within a variant the derived order is that of the contents: numbers by size, strings and containers by the first place where they differ, a beginning before the whole, entries by key and then by value. |
| `CborForms.OrderByVariant` | src/many-types/src/cbor.rs:29-39 | Across variants the derived order is that of their declaration. |
| `Utf8.Utf8Iff` | src/many-types/src/cbor.rs:65-70 | The bytes accepted as text are exactly those that encode some sequence of Unicode characters (section 3 of RFC 3629). |
| `KnownAnswers.CborVectors` | src/many-types/src/cbor.rs:56-90 | Heads of examples in appendix A of RFC 8949 are written as printed there. |
| `Base32.RoundTrip` | src/many-identity/src/address.rs:549-572 | Lower-case base 32 without padding (section 6 of RFC 4648) gives back every byte string. |
| `KnownAnswers.Base32Vectors` | src/many-identity/src/address.rs:549-572 | Test vectors of section 10 of RFC 4648 are written as printed there. |
| `KnownAnswers.CrcVectors` | src/many-identity/src/address.rs:549-572 | The checksum of one and of two bytes, as the CRC with this polynomial has them. |
| `KnownAnswers.IllegalText` | src/many-identity/src/address.rs:619-619 | The illegal address is written as the repository's test says. |
| `Address.BuildPublicKey` | src/many-identity/src/address.rs:379-388 | The copying loop builds the key address: kind, hash, three zero bytes. |
| `Address.BuildSubresource` | src/many-identity/src/address.rs:390-403 | The copying loop packs the id into the top seven bits of the kind and the last three bytes. |
| `Address.ReadKeyHash` | src/many-identity/src/address.rs:533-546 | The copying loop yields the hash of a key or a subresource, and none for other kinds. |
| `Address.SubresourceExact` | src/many-identity/src/address.rs:144-165 | For every id up to 2^31-1 packing succeeds, the id is read back, and the key stays the same. |
| `Address.SubresourceInjective` | src/many-identity/src/address.rs:390-403 | Different hashes or ids give different addresses. |
| `Address.EqIsByteEquality` | src/many-identity/src/address.rs:337-358 | On every well-formed address the hand-written equality is equality of the bytes. |
| `Address.MatchesIsSameClass` | src/many-identity/src/address.rs:199-208 | Matching is an equivalence whose classes are anonymous, illegal, and each key with all its subresources. |
| `Address.BytesRoundTrip` | src/many-identity/src/address.rs:405-451 | Every well-formed address is read back from its byte form. |
| `Address.FromBytesCanonical` | src/many-identity/src/address.rs:405-451 | Every accepted byte string is the byte form of the address read from it. |
| `Address.FromBytesIff` | src/many-identity/src/address.rs:405-451 | The byte strings that are addresses are one zero, one two, a one and 28 bytes, and 32 bytes that begin with the high bit; each is read as the address whose array begins with it. |
| `Address.TextRoundTrip` | src/many-identity/src/address.rs:453-477 | Every well-formed address is read back from its text. |
| `Address.FromTextCanonical` | src/many-identity/src/address.rs:453-477 | Every accepted text is the text of the address read from it, except the alias "maaaa" of the anonymous address. |
| `Address.TextAlphabet` | src/many-identity/src/address.rs:549-572 | Address text is lower-case letters and digits 2 to 7 only. |
| `Address.TextInjective` | src/many-identity/src/address.rs:549-572 | Different addresses have different texts. |
| `AddressCbor.AddressRoundTrip` | src/many-identity/src/address/minicbor.rs:6-42 | Every well-formed address survives its tagged wire form, whatever follows. |
| `AddressCbor.AddressForms` | src/many-identity/src/address/minicbor.rs:18-42 | The text of an address is read as the address, under any tag or none; bytes without a tag are refused. |
| `AddressCbor.DecodeAddress` | src/many-identity/src/address/minicbor.rs:18-42 | Whatever is accepted, by text or by tagged bytes, is a well-formed address, and something was consumed. |
| `AddressCbor.TimestampRoundTrip` | src/many-types/src/lib.rs:207-223 | Every timestamp survives its tagged wire form. |
| `MessageLayouts.AddressLayout` | src/many-identity/src/address/minicbor.rs:6-16 | The bytes of an address, tag 10000 and its byte form, and of a time, tag 1 and its seconds. |
| `Attributes.WriteAttribute` | src/many-types/src/attributes.rs:132-146 | The writer appends the bare id, or an array of the id and the arguments. |
| `Attributes.ReadAttribute` | src/many-types/src/attributes.rs:148-171 | The reader yields what the decoding function yields: a bare id, or an array whose first item is cut to an id. |
| `Attributes.AttributeRoundTrip` | src/many-types/src/attributes.rs:132-171 | Every attribute, with any arguments, survives the wire. |
| `Attributes.AttributeLayout` | src/many-types/src/attributes.rs:132-146 | An attribute without arguments has the bytes of its id as a value, one with arguments those of the array of both. |
| `Attributes.AnyArray` | src/many-types/src/attributes.rs:148-171 | An array is an attribute just when it begins with an integer below 2^32; the last 32 bits of it, also if negative, are the id, and the other items the arguments. |
| `Attributes.SetRoundTrip` | src/many-types/src/attributes.rs:126-171 | Every attribute set, ordered by id, survives the wire. |
| `Attributes.CollectedIsFirst` | src/many-types/src/attributes.rs:126-171 | The set collected from a list is the only one that holds, for every id, the first attribute of the list with that id, and none where there is none. |
| `Attributes.AnyAttributes` | src/many-types/src/attributes.rs:148-171 | Attributes written in any order, with ids repeated or not, decode to that set. |
| `Attributes.DecodeSetValid` | src/many-types/src/attributes.rs:148-171 | Whatever is decoded as a set has each id once, in order, and can be written again. |
| `RelatedIndex.ChainDecodes` | src/many-types/src/lib.rs:537-561 | A nested chain of an attribute and any number of indices is consumed whole and keeps the first four, whatever follows. |
| `RelatedIndex.RoundTrip` | src/many-types/src/lib.rs:506-561 | Every index is read back as it was, whatever follows. |
| `RelatedIndex.WireForm` | src/many-types/src/lib.rs:506-535 | The bytes of an index, number by number and pair by pair. |
| `RelatedIndex.KeepsFirstFour` | src/many-types/src/lib.rs:458-475 | Adding numbers one at a time keeps exactly the first four. |
| `RelatedIndex.EncodeInto` | src/many-types/src/lib.rs:506-535 | The loop over chunks of two writes the nesting of pairs. |
| `RelatedIndex.DecodeFrom` | src/many-types/src/lib.rs:537-561 | The reading loop yields what the decoding function yields and ends on every input. |
| `Amounts.VecRoundTrip` | src/many-types/src/ledger.rs:70-72 | The byte form of every amount is read back as the amount and has no leading zero, save for zero itself. |
| `Amounts.StripLeadingZeros` | src/many-types/src/ledger.rs:211-222 | Reading any bytes and writing the amount strips exactly the leading zeros. |
| `Amounts.RoundTrip` | src/many-types/src/ledger.rs:238-269 | Every amount survives the wire, as a 64-bit number or as a bignum (section 3.4.3 of RFC 8949), whatever follows. |
| `Amounts.WireForm` | src/many-types/src/ledger.rs:238-252 | An amount below 2^64 is a CBOR integer, a larger one tag 2 and its big-endian bytes without a leading zero. |
| `Amounts.EncodeInto` | src/many-types/src/ledger.rs:238-252 | The writer appends exactly the encoding. |
| `Amounts.DecodeFrom` | src/many-types/src/ledger.rs:254-269 | The reader yields what the decoding function yields. |
| `Amounts.CalculateFees` | src/many-types/src/ledger.rs:44-52 | The fee is the fixed part and, of the percent part, the largest number of whole units that the exact product reaches; without a percentage it is the fixed part. |
| `Amounts.PercentIsFloor` | src/many-types/src/ledger.rs:75-84 | The percent fee is the floor of the exact product. |
| `Amounts.PercentParts` | src/many-types/src/lib.rs:69-75 | A percentage of a whole part and a fraction charges the amount times the whole part plus the floor of the fraction's share. |
| `Amounts.FeesMonotone` | src/many-types/src/ledger.rs:44-52 | A greater amount never pays a smaller fee. |
| `Amounts.SplitPayment` | src/many-types/src/ledger.rs:75-84 | Splitting a payment into n parts lowers the percent fee by at most n-1 units and never raises it. |
| `Errors.CodeSurvives` | src/many-error/src/error.rs:41-62 | A code comes back from its number just when it is not an attribute-specific code above -10000. |
| `Errors.ArgumentsRoundTrip` | src/many-error/src/reason/minicbor.rs:31-83 | Every argument map survives the wire. |
| `Errors.ErrorRoundTrip` | src/many-error/src/reason/minicbor.rs:31-83 | Every error survives the wire up to its code, which comes back as its number reads. |
| `Errors.DecodeErrorValid` | src/many-error/src/reason/minicbor.rs:49-83 | Whatever is decoded as an error can be written again. |
| `Reason.FormatRendered` | src/many-error/src/reason.rs:74-106 | Formatting any list of literals (braces doubled) and plain fields gives the literals and the arguments, missing ones being empty. |
| `Reason.FormatEscaped` | src/many-error/src/reason.rs:74-106 | Formatting an escaped string gives the string. |
| `Reason.MatchIff` | src/many-error/src/reason.rs:81-84 | The pattern matches a doubled brace, or else a brace, characters other than closing braces and white space, and a closing brace, and nothing besides. |
| `Reason.FieldShownIff` | src/many-error/src/reason.rs:81-103 | A field shows every value of its argument just when its name has no closing brace, no white space and no opening brace in front. |
| `Reason.OnlyPlainNames` | src/many-error/src/reason.rs:81-103 | Arguments under other names are never shown, in any message. |
| `Reason.FindMatch` | src/many-error/src/reason.rs:81-84 | The search stops at the first place where the pattern matches, or at the end. |
| `Reason.Display` | src/many-error/src/reason.rs:74-106 | The loop over matches writes the formatted message. |
| `Request.HeaderCountsFields` | src/many-protocol/src/request.rs:159-212 | The map length in the header is the number of fields written, for every request. |
| `Request.RoundTrip` | src/many-protocol/src/request.rs:159-264 | Every request survives the wire up to the dropped version, an anonymous sender read as none, and a missing timestamp filled in. |
| `MessageLayouts.RequestLayout` | src/many-protocol/src/request.rs:159-212 | The bytes of every request: tag 10001, the number of fields, and each field behind its number, an anonymous party, empty data and absent values left out. |
| `MessageLayouts.AnyFields` | src/many-protocol/src/request.rs:214-264 | A request written with its fields in any order and any of them repeated, counted or closed by a break, is read with the last value of each field and the default of every other. |
| `MessageLayouts.VersionField` | src/many-protocol/src/request.rs:235-244 | A version field other than 1 makes a request unreadable; a response may have any. |
| `MessageLayouts.OtherKeys` | src/many-protocol/src/request.rs:234-264 | A key without a case counts as a field, but its value is left to be read as the next key, in both readers. |
| `Request.DecodeValid` | src/many-protocol/src/request.rs:214-264 | Whatever is decoded as a request, from any bytes, can be written again. |
| `Request.Reencode` | src/many-protocol/src/request.rs:159-264 | A request read from any bytes survives being written and read again, up to the normal form. |
| `Request.EncodeInto` | src/many-protocol/src/request.rs:159-212 | The writer appends exactly the encoding. |
| `Request.DecodeFrom` | src/many-protocol/src/request.rs:214-264 | The field loop yields what the decoding function yields, also for repeated, unknown and missing fields. |
| `Response.HeaderCountsFields` | src/many-protocol/src/response.rs:131-176 | The map length in the header is the number of fields written, for every response. |
| `Response.DecodeWritten` | src/many-protocol/src/response.rs:131-222 | What the reader makes of every written response: the response without its id, with bytes left unread, or an error. |
| `MessageLayouts.ResponseLayout` | src/many-protocol/src/response.rs:131-176 | The bytes of every response: tag 10002, the number of fields, and each field behind its number, the id among them. |
| `MessageLayouts.ErrorLayout` | src/many-error/src/reason/minicbor.rs:31-47 | The bytes of every error outcome: a map of the code, the message and the arguments. |
| `Response.RoundTripIff` | src/many-protocol/src/response.rs:131-222 | A response in normal form survives the wire just when it has no id and its error code survives. |
| `Response.DecodeValid` | src/many-protocol/src/response.rs:178-222 | Whatever is decoded as a response can be written again. |
| `Response.EncodeInto` | src/many-protocol/src/response.rs:131-176 | The writer appends exactly the encoding. |
| `Response.DecodeFrom` | src/many-protocol/src/response.rs:178-222 | The field loop yields what the decoding function yields. |
| `Migration.StepAllIsLoad` | src/many-migration/src/lib.rs:524-585 | Stepping a freshly loaded set by one block without a failure gives the set that loading at the new height gives. |
| `Migration.StepAllAgrees` | src/many-migration/src/lib.rs:574-585 | Two sets that differ only in flags that no longer decide anything make the same callbacks, with the same storage and outcome, at the next block, failing or not. |
| `Migration.StepIsFold` | src/many-migration/src/lib.rs:342-359 | The storage and outcome of a step are those of the owed callbacks, `initialize` at a migration's height and `update` above it, applied in name order, each with its own extra values, up to the first that fails. |
| `MigrationEffects.StepUpToFailing` | src/many-migration/src/lib.rs:342-359 | Callback by callback: those before the failing position succeed, the one at it fails and leaves its storage, those behind it are not made. |
| `MigrationEffects.RunIsFold` | src/many-migration/src/lib.rs:342-359 | Over every run, with any restarts and whatever fails, the storage is the fold of the configured callbacks over the heights of its blocks, and the run fails just when one of them does. |
| `Migration.RestartsInvisible` | src/many-migration/src/lib.rs:524-585 | Over every sequence of blocks and restarts, whatever fails, storage, height, outcome and callbacks are those of the blocks alone; without a failing callback the flags are too. `MigrationEffects.RunIsFold` says what that storage is. |
| `Migration.RestartTransparency` | src/many-migration/src/lib.rs:311-359 | The same for a node that starts by loading a configuration at any height. |
| `Migration.StepAt` | src/many-migration/src/lib.rs:574-585 | A step moves each migration up to the failing one and leaves those behind it, and fails just when there is a failing one. |
| `Migration.RestartInvisibleIff` | src/many-migration/src/lib.rs:524-585 | After every run, with any restarts and failures, one more restart leaves the node as it is just when, since the last load, every migration other than a trigger whose height came was reached there, and every trigger is in range now just when it was at the last block that reached it. |
| `Migration.FailureShows` | src/many-migration/src/lib.rs:574-585 | An example: a block after the failure nothing fails, the trigger has caught up, the regular migration has not, and a restart shows it. |
| `Migration.StepEach` | src/many-migration/src/lib.rs:342-359 | In one step each migration either moves and is called exactly as due, or, only behind a failure, stays untouched and uncalled. |
| `Migration.StepManyEach` | src/many-migration/src/lib.rs:574-585 | Over any heights without a failure each migration follows its own timeline, whatever the others do. |
| `Migration.InitialisesAtMostOnce` | src/many-migration/src/lib.rs:311-359 | Over any sequence of heights, repeated, skipped or failing, a regular migration initialises at most once, and never when loaded active. |
| `Migration.InitialisesOnceOverRestarts` | src/many-migration/src/lib.rs:311-359 | The same over every sequence of blocks and restarts, whatever fails. |
| `Migration.TimelineCounts` | src/many-migration/src/lib.rs:311-327 | How often a regular migration initialises and updates over any heights: once if its height is among them, and once for each later one. |
| `Migration.ConsecutiveTimeline` | src/many-migration/src/lib.rs:311-359 | Loaded below its height and stepped past it block by block, a migration initialises exactly once, before any update. |
| `Migration.TriggerFollowsRange` | src/many-migration/src/lib.rs:311-318 | After every step an enabled trigger at or before the failing position is active just when the height is from its first to before its upper height, or before the largest, whatever came before; one behind it is as it was. |
| `Migration.MigrationSet.LoadFrom` | src/many-migration/src/lib.rs:524-572 | The two loops, over the configuration and over the members, build the loaded set, and refuse just the configurations with unknown names or, in strict mode, missing ones. |
| `MigrationEffects.LoadIff` | src/many-migration/src/lib.rs:524-572 | A configuration is accepted just when every entry names a registered migration and, in strict mode, every registered migration has an entry. |
| `MigrationEffects.LoadedMember` | src/many-migration/src/lib.rs:299-340 | A loaded set holds for each configured name the last migration registered and the last metadata configured under it, enabled unless disabled there, active just when enabled and its height is reached or, for a trigger, in range. |
| `MigrationEffects.LoadedNames` | src/many-migration/src/lib.rs:524-572 | A loaded set is in name order and holds the configured names and no others. |
| `MigrationEffects.DisabledStaysOff` | src/many-migration/src/lib.rs:427-440 | Over every run a disabled migration is not called, none of its hotfixes applies, and only a trigger active by default counts as active. |
| `Migration.MigrationSet.UpdateAtHeight` | src/many-migration/src/lib.rs:574-585 | The loop over the set, ending at the first failure, leaves the set that the step gives, and the storage and outcome of the owed callbacks applied in name order. |
| `Migration.MigrationSet.IsActive` | src/many-migration/src/lib.rs:610-616 | Answers whether a migration of that name is active; unknown names are not. |
| `Migration.MigrationSet.ApplyHotfix` | src/many-migration/src/lib.rs:588-600 | Yields what an enabled hotfix of that name makes of the bytes, at exactly its height, and nothing where there is none. |
| `Abci.DeliverAgrees` | src/many-abci/src/abci_app.rs:317-373 | The delivered bytes are equal for any two backend responses that differ only in sender, version and timestamp. |
| `Abci.NodesAgree` | src/many-abci/src/abci_app.rs:256-373 | The same across two nodes that saw the same blocks, whenever each of them was restarted. |
| `Abci.DeliversNoId` | src/many-abci/src/abci_app.rs:317-373 | No delivered response has an id, whatever bytes the backend sent. |
| `Abci.DeliveredContent` | src/many-abci/src/abci_app.rs:317-373 | What consensus reads from the delivered bytes, for every payload: the backend's data or error, attributes and named receiver, no sender, version or id, and the epoch; the error code as its number reads, or unknown where the legacy trigger says so. |
| `Abci.AbciApp.BeginBlock` | src/many-abci/src/abci_app.rs:256-284 | A block with a header moves the migrations to its height, a negative one counting as zero; one without clears the time. |
| `Abci.AbciApp.DeliverTx` | src/many-abci/src/abci_app.rs:317-373 | The fields are overwritten and the legacy error code applied just when the trigger is active. |
| `Validators.HeldIsRefused` | src/many-server-cache/src/lib.rs:49-63 | A payload whose digest a cache of the tree holds is refused, however deep the cache sits and even when it only validates. |
| `Validators.AdmitsIff` | src/many-server-cache/src/lib.rs:49-63 | A tree admits an envelope just when every stateless validator in it does, there is a payload if any cache in it asks for one, and no consulted cache holds the payload's digest. |
| `Validators.LeftmostRefusal` | src/many-server/src/validator.rs:64-71 | The error of a tree is that of its leftmost leaf that has a reason to refuse. |
| `Validators.MarkingSucceeds` | src/many-server/src/validator.rs:64-84 | An envelope that passed the check is always markable later, whatever the caches hold by then. |
| `Validators.MarkingRecords` | src/many-server-cache/src/lib.rs:65-80 | Marking adds the digest to each recording cache of the tree and changes nothing else. |
| `Validators.MarkingIff` | src/many-server-cache/src/lib.rs:65-80 | Marking fails just when there is no payload and an unwrapped cache asks for one, and then records nothing. |
| `Validators.NothingRecorded` | src/many-server/src/validator.rs:26-43 | A tree whose caches are all wrapped to validate only never records anything. |
| `Validators.CacheTable.Add` | src/many-server-cache/src/lib.rs:97-101 | A put adds one digest to one backend. |
| `Validators.CacheTable.Check` | src/many-server/src/validator.rs:64-71 | The walk over the tree admits just when no leaf has a reason to refuse, and otherwise answers with that of the leftmost. |
| `Validators.CacheTable.Mark` | src/many-server/src/validator.rs:76-83 | The walk over the tree changes the shared backends as the marking function does, ending at the first error. |
| `Server.NoRunAfterMark` | src/many-server/src/server.rs:261-331 | In every interleaving, a request that ran had passed its check before any request of the same digest was marked. |
| `Server.OnlyOverlapping` | src/many-server/src/server.rs:261-331 | Two marked requests of one digest each passed the check before the other's mark: they overlapped. |
| `Server.ExecutedIsMarked` | src/many-server/src/server.rs:308-331 | In every interleaving an executed request can be marked, so the server never stops on a failed mark. |
| `Server.PassesIff` | src/many-server/src/server.rs:261-331 | After every run an envelope passes the check just when it passed before the run and no request of its digest was marked in it, if any cache records. |
| `Server.ExecutesIff` | src/many-server/src/server.rs:261-331 | After every run a waiting request that all else admits gets executed just when it would have passed before the run and no request of its digest was marked in it, however many were executed. |
| `Server.RacingDuplicates` | src/many-server/src/server.rs:261-331 | In every state, of two waiting copies that pass the check the second is executed after the first has been executed, and is refused once the first has been marked. |
| `Server.ForwardedPassAgain` | src/many-server/src/server.rs:332-334 | A request that only the fallback handles is never marked: after every run it passes the check as before, even where a cache records. |
| `Server.AtMostOnce` | src/many-server/src/server.rs:261-331 | Handled one at a time, in any number, no two requests of one digest both run, if any cache records. |
| `Server.ReplayRunsIff` | src/many-server/src/validator.rs:26-84 | A request sent again right away runs again just when nothing in the validator tree records. |
| `Server.HandledIff` | src/many-server/src/server.rs:261-331 | Handled alone, a request runs just when it is valid, accepted, routed to a module and admitted by every validator, cache by cache; the caches then hold its digest more, where they record, and nothing else. |
| `Server.HandleIsRun` | src/many-server/src/server.rs:261-353 | Handling a request alone is one of the interleavings: same caches, same events. |
| `Server.ManyServer.AddValidator` | src/many-server/src/server.rs:109-116 | The added validator joins those before it: all must admit, and what recorded still records. |
| `Server.ManyServer.AddModule` | src/many-server/src/server.rs:118-158 | A module joins just when neither its attribute nor an endpoint is taken, and then no endpoint has two modules. |
| `Server.ManyServer.FindModule` | src/many-server/src/server.rs:174-179 | The module found is the only one with the endpoint, and one is found just when the endpoint is known. |
| `Server.ManyServer.HandleAlone` | src/many-server/src/server.rs:261-353 | The phases of one request leave the caches that the handling function gives, and marking does not fail. |
| `Store.MergedBatch` | src/many-web/src/storage.rs:445-460 | Chaining puts before deletes, sorting stably and dropping repeated keys gives strictly increasing keys and the effect of deleting first and putting then. |
| `Store.SortFirst` | src/many-web/src/storage.rs:450-452 | The sort is stable: for every key the first operation stays the first. |
| `Store.ApplyEach` | src/many-web/src/storage.rs:458-460 | A batch that names each key once leaves at a key the value put, nothing where it deletes, and what was there where it is silent. |
| `Store.Scan` | src/many-web/src/storage/iterator.rs:16-45 | A prefix scan yields each entry under the prefix once, in key order, and no other. |
| `Store.List` | src/many-kvstore/src/storage.rs:259-278 | A filtered scan yields exactly the entries picked, each once, forwards or backwards in key order. |
| `Keys.UnderPrefix` | src/many-web/src/storage.rs:23-33 | One key is a prefix of another just when the owners are the same and one name is a prefix of the other. |
| `WebFiles.StoreSiteAt` | src/many-web/src/storage.rs:260-330 | Storing a site sets, key by key, its visible files and its description, and nothing else. |
| `WebFiles.HiddenIff` | src/many-web/src/storage.rs:251-258 | A path is hidden just when one of its components begins with a dot. |
| `WebFiles.UpdateSiteAt` | src/many-web/src/storage.rs:413-473 | After an update every key of the site holds what the upload gives for it, and every other key is unchanged. |
| `WebFiles.UpdatedFile` | src/many-web/src/storage.rs:413-473 | Reading a path of an updated site gives the uploaded file, and nothing where there is none: no stale file. |
| `WebFiles.DeployedExactlyIff` | src/many-web/src/storage.rs:333-362 | A deployment serves exactly its upload just when nothing outside it was left under the site. |
| `WebFiles.StoredExists` | src/many-web/src/storage.rs:169-181 | Whether a site exists after a store, an update and a removal, from the file `index.html` alone. |
| `WebFiles.SharedKeyIff` | src/many-web/src/storage.rs:23-33 | Two sites can share a key just when one owner named them one inside the other. |
| `WebFiles.IsolationIff` | src/many-web/src/storage.rs:364-387 | Removing a site leaves another whole, in every store, just when they cannot share a key. |
| `WebFiles.UpdateIsolationIff` | src/many-web/src/storage.rs:413-473 | Updating a site leaves another whole, in every store and for every upload, just when they cannot share a key. |
| `WebFiles.DeployIsolationIff` | src/many-web/src/storage.rs:333-362 | Deploying a site leaves another whole, in every store and for every upload, just when the owners differ, or the other neither holds it nor is inside it at a path that is not hidden. |
| `WebFiles.PlainNamesIsolated` | src/many-web/src/storage.rs:23-33 | Names without a slash are inside each other only when equal. |
| `WebFiles.WebStorage.ApplyBatch` | src/many-web/src/storage.rs:458-460 | Applying a batch demands strictly increasing keys and does its operations in order. |
| `WebFiles.WebStorage.HasDomain` | src/many-web/src/storage.rs:482-486 | The backward search finds a description with the domain just when there is one. |
| `WebFiles.WebStorage.StoreBatch` | src/many-web/src/storage.rs:260-330 | The walk over the files and the sort build the sorted batch of the site. |
| `WebFiles.WebStorage.RemoveBatch` | src/many-web/src/storage.rs:364-387 | The loop over the scan builds a batch with increasing keys that removes exactly the keys of the site. |
| `WebFiles.WebStorage.StoreWebsite` | src/many-web/src/storage.rs:333-362 | Stores the site with a batch the store accepts. |
| `WebFiles.WebStorage.RemoveWebsite` | src/many-web/src/storage.rs:389-410 | Removes exactly the keys of the site. |
| `WebFiles.WebStorage.UpdateWebsite` | src/many-web/src/storage.rs:413-473 | One combined batch, accepted by the store, does a removal followed by a store. |
| `WebCommands.DomainsStayUnique` | src/many-web/src/module.rs:244-421 | Over every run of deploy, update, remove and other writes, no two descriptions carry one domain, and each stands under its own owner and name. |
| `WebCommands.EmptyStore` | src/many-web/src/storage.rs:129-167 | A new store satisfies both. |
| `WebCommands.CommandStaysInSite` | src/many-web/src/module.rs:244-421 | No command, accepted or not, changes a key outside the sender's site of that name. |
| `WebCommands.OthersCannotTouch` | src/many-web/src/module.rs:244-421 | A run of commands by others, or aimed at other names, leaves a site as it is. |
| `WebCommands.RunsStayTidy` | src/many-web/src/module.rs:244-421 | Over every run with slash-free names and `index.html` as a file, each stored file belongs to an existing site. |
| `WebCommands.DeployedExactly` | src/many-web/src/module.rs:244-321 | After every such run an accepted deployment leaves its site holding exactly what was uploaded. |
| `WebCommands.DeployIff` | src/many-web/src/module.rs:244-321 | A deployment is accepted just when the owner is the sender, the domain parses, the name is short, name and description are printable, the archive has its index, the sender has no such site, and no description in sight has the domain; what is stored is what the arguments say. |
| `WebCommands.DeployRefusals` | src/many-web/src/module.rs:244-321 | Every error of a deployment names something that is wrong with it. |
| `WebCommands.UpdateIff` | src/many-web/src/module.rs:343-421 | An update is accepted just when the same holds of its arguments, the sender has such a site and, if a domain is given, the site's own description can be read and already has it, or no description in sight has it. |
| `WebCommands.UpdateRefusals` | src/many-web/src/module.rs:343-421 | Every error of an update names something that is wrong with it. |
| `WebCommands.StepLeaves` | src/many-web/src/module.rs:244-421 | An accepted deployment or update leaves the description with the argument's description and domain, and serves every visible file of the archive as it is, an update nothing else; a refused one changes nothing. |
| `WebCommands.RemoveLeaves` | src/many-web/src/module.rs:323-341 | A removal named for the sender empties the site, any other nothing, and no other key changes. |
| `WebCommands.SiteName` | src/many-web/src/module.rs:173-175 | A site's name is the lower-case name without the white space around it, with underscores for blanks. |
| `WebCommands.WebModule.DeploySite` | src/many-web/src/module.rs:244-321 | The checks in their order; on acceptance the answer is the description asked for, which the store then holds, and every file of the archive reads as in it. |
| `WebCommands.WebModule.UpdateExisting` | src/many-web/src/module.rs:343-421 | The checks in their order; on acceptance the answer is the description asked for, with its domain, which the store then holds; every file of the archive reads as in it, and no other path reads. |
| `WebCommands.WebModule.RemoveExisting` | src/many-web/src/module.rs:323-341 | Only the owner is checked; a site that does not exist may be removed. |
| `WebExamples.InnerSiteLost` | src/many-web/src/module.rs:244-341 | From the empty store: deploying a site, deploying one whose name continues it after a slash, and removing the first loses every file of the second and keeps its description. |
| `WebExamples.SlashInName` | src/many-web/src/module.rs:173-175 | So it goes with "a" and "a/b". |
| `WebExamples.StaleFileServed` | src/many-web/src/module.rs:199-203 | From the empty store: a deployment with a directory `index.html` is accepted and does not exist, and the next deployment of that name is accepted and serves the files left behind. |
| `WebExamples.IndexIsDirectory` | src/many-web/src/module.rs:199-203 | So it goes with a page beside such a directory. |
| `WebBlocks.ExecuteIsNext` | src/many-web/src/storage.rs:74-80 | Where nothing is pending, a command inside a block does what it does where every command commits. |
| `WebBlocks.ExecuteLeaves` | src/many-web/src/module.rs:244-421 | Inside a block too an accepted deployment or update leaves the description asked for and serves the archive. |
| `WebBlocks.ExecuteUniqueIff` | src/many-web/src/module.rs:244-421 | Inside a block, where scans see the committed store only, a command keeps domains unique just when no other description, committed or pending, has the domain it claims. |
| `WebBlocks.BlocksUniqueIff` | src/many-web/src/module.rs:244-421 | Over every run of commands and commits domains are unique at every moment just when no command claims a domain that another description has at that moment. |
| `WebBlocks.ConflictsWithinBlock` | src/many-web/src/storage.rs:482-486 | Such a claim is always to a domain of a description written since the last commit. |
| `WebBlocks.NoConflictAfterCommit` | src/many-web/src/module.rs:244-421 | A command that finds nothing pending conflicts with nothing. |
| `WebBlocks.DomainTakenTwice` | src/many-web/src/module.rs:244-421 | Two deployments of one domain under different names in one block are both accepted, and both have it after the commit. |
| `WebBlocks.SameDomainOneBlock` | src/many-web/src/module.rs:244-421 | So it goes with "a" and "b". |
| `WebListing.PagesInOrder` | src/many-web/src/module.rs:215-241 | The first n pages, one after the other, are the beginning of the listing: nothing skipped, nothing repeated. |
| `WebListing.OnItsPage` | src/many-web/src/module.rs:215-241 | Every deployment is on the page, and at the place, that its position says. |
| `WebListing.PagingIsComplete` | src/many-web/src/module.rs:215-241 | Paging until the total is reached yields the whole listing. |
| `WebListing.ListedPage` | src/many-web/src/module.rs:215-241 | A listing is refused just for pages of more than a hundred and for page zero; otherwise it has the number of all descriptions and those at the places of its page. |
| `WebListing.ShowsIff` | src/many-web/src/storage.rs:487-506 | A description passes the filters just when every one names its owner. |
| `WebListing.ListSites` | src/many-web/src/storage.rs:487-506 | The listing holds exactly the stored descriptions of the owners asked for, in key order, and the answer is the page asked for, or why not. |
| `KvStore.ValuesAreRecorded` | src/many-kvstore/src/module.rs:225-336 | In every reachable state a key with a value has an access record, and outside the genesis list a key with a record has a value. |
| `KvStore.DisabledStays` | src/many-kvstore/src/module.rs:225-336 | A disabled key keeps owner, reason and value, and reads as disabled, over every run without a put on it. |
| `KvStore.DisabledRefuses` | src/many-kvstore/src/module.rs:253-336 | Disabling or transferring a disabled key fails as disabled, for every sender. |
| `KvStore.PutEffect` | src/many-kvstore/src/module.rs:225-251 | A put is accepted just when the one it acts for may access the key; the key then reads as the value put, and its record has that owner, is not disabled and has no previous owner. |
| `KvStore.DisableEffect` | src/many-kvstore/src/module.rs:253-289 | A key is disabled just when it has a value in force and the command acts for one who may access it; it then reads as disabled, with the reason given and the value kept. |
| `KvStore.TransferEffect` | src/many-kvstore/src/module.rs:293-336 | A key is transferred just when it has a value in force and a record owned by the one the command acts for, to anyone but the anonymous identity; it then has the new and the previous owner and reads as before. |
| `KvStore.Refusals` | src/many-kvstore/src/module.rs:225-336 | Every error of a put, a disable or a transfer names something that is wrong. |
| `KvStore.NotLet` | src/many-kvstore/src/module/account.rs:290-311 | A command for an account that does not let the sender changes nothing. |
| `KvStore.OnlyTheOwner` | src/many-kvstore/src/module/account.rs:313-327 | A record or value changes only by a command for its owner; the owner changes only by the owner's transfer, and is then the previous owner. |
| `KvStore.UntouchedWithoutOwner` | src/many-kvstore/src/module.rs:225-336 | Over every run in which nobody acts for the owner, record and value stay. |
| `KvStore.DisabledListing` | src/many-kvstore/src/storage.rs:61-76 | Listing disabled keys selects just those that read as disabled; listing enabled ones just those with a record that read. |
| `KvStore.OwnerListing` | src/many-kvstore/src/storage.rs:61-76 | The owner filter selects the keys of an owner, the previous-owner filter those last given away by one, an absent previous owner counting as anonymous. |
| `KvStore.FiltersIntersect` | src/many-kvstore/src/storage.rs:259-278 | Several filters select what each of them selects. |
| `KvStore.KvStoreModule.VerifyAccess` | src/many-kvstore/src/module/account.rs:313-327 | Access is given just when there is no record for the key or its owner is the one who asks. |
| `KvStore.KvStoreModule.PutKey` | src/many-kvstore/src/module.rs:225-251 | Accepted just when the one the put acts for may access the key; the key then reads as the value put. |
| `KvStore.KvStoreModule.DisableKey` | src/many-kvstore/src/module.rs:253-289 | The answer and the store after a disable. |
| `KvStore.KvStoreModule.TransferKey` | src/many-kvstore/src/module.rs:293-336 | The answer and the store after a transfer. |
| `KvStore.KvStoreModule.ListKeys` | src/many-kvstore/src/storage.rs:259-278 | Exactly the keys that pass all filters, each once, in strictly increasing or decreasing order. |
| `Subresources.Allocator.NextSubresource` | src/many-ledger/src/storage.rs:258-317 | The loop ends, returns the least id from the counter up whose address is not a symbol, stores the next one, or reports why not. |
| `Subresources.AllocatesOne` | src/many-ledger/src/storage.rs:258-317 | The answer and the new state are determined by the old state. |
| `Subresources.BelowIsPassed` | src/many-ledger/src/storage.rs:258-331 | Along every run, each id that a counter has gone past was granted on that counter, or was passed over because a symbol had its address. |
| `Subresources.ExhaustedOverRun` | src/many-ledger/src/storage.rs:258-331 | Along every run an identity is reported exhausted just when each of its ids, from where the run began up to the largest, was granted or passed over as taken by an earlier grant on its counter, or is taken now. |
| `Subresources.CounterKeys` | src/many-ledger/src/storage.rs:37-44 | Two identities share a counter just when the token migration is not active or they are the same. |
| `Subresources.GrantsIncrease` | src/many-ledger/src/storage.rs:258-331 | Along every run, with symbols and identities changing in between, grants on one counter have increasing ids. |
| `Subresources.SameAddressIff` | src/many-ledger/src/storage.rs:258-331 | Two grants of a run have one address just when their ids and the keys of their identities are equal. |
| `Subresources.GrantsDistinct` | src/many-ledger/src/storage.rs:258-331 | Two grants of a run have one address just when the token migration is active, their identities are different ones of one key, and their counters have come to the same id. |
| `Subresources.SharedKeyCollides` | src/many-ledger/src/storage.rs:258-331 | A run in which a key, for accounts, and a subresource of it, for tokens, are granted the same address. |
| `TokenMigration.MigratedCounter` | src/many-ledger/src/migration/tokens.rs:17-49 | Where each identity counts from after the migration: the token identity from the parameter, the root identity from the carried counter, any other from its own. |
| `TokenMigration.MigratedIdentities` | src/many-ledger/src/migration/tokens.rs:17-49 | The migration needs the root identity; accounts then belong to it and tokens to the identity given, every other identity and the symbols stay, and the single counter is gone. |
| `TokenMigration.CanGrantIff` | src/many-ledger/src/storage.rs:258-331 | Some run grants an identity an address just when the address is of its key and its id is at or above the identity's counter. |
| `TokenMigration.GrantedAgainIff` | src/many-ledger/src/migration/tokens.rs:17-156 | An address granted in any run before the migration can be granted again after it just when the receiving identity has the same key and counts from at or below the id; for the root identity only if tokens were given it with a counter set back. |
| `Ledger.BalanceKeysDistinct` | src/many-ledger/src/storage.rs:33-35 | Each holder and symbol has a balance key of its own. |
| `Ledger.SendConserves` | src/many-ledger/src/storage/ledger_commands.rs:35-95 | A send moves the amount and keeps every other balance and the sum of all. |
| `LedgerEffects.SendIff` | src/many-ledger/src/storage/ledger_commands.rs:35-95 | A send is accepted just when it moves something between two different addresses, neither anonymous, and the sender holds it; each error names what is wrong. |
| `Ledger.MintConservesIff` | src/many-ledger/src/storage/ledger_mintburn.rs:21-81 | A mint keeps supply and balances equal just when it overwrites no balance of the anonymous address. |
| `LedgerEffects.MintEffect` | src/many-ledger/src/storage/ledger_mintburn.rs:21-81 | A mint is accepted just when every share is positive and the supply stays within the maximum; it adds its share to each listed address, nothing to any other, and the shares together to both supplies. |
| `LedgerEffects.BurnEffect` | src/many-ledger/src/storage/ledger_mintburn.rs:83-142 | A burn is accepted just when every share is positive and covered; it takes its share from each listed address, nothing from any other, and the shares together from both supplies, or stops where they are less. |
| `Ledger.RunAccounted` | src/many-ledger/src/storage/ledger_mintburn.rs:21-142 | After every run of sends, mints and burns the supply is the sum of all balances plus exactly what was overwritten. |
| `Ledger.RunConservesIff` | src/many-ledger/src/storage/ledger_mintburn.rs:21-142 | Balances make up the supply after a run just when nothing was overwritten in it. |
| `Ledger.CreateToken` | src/many-ledger/src/storage/ledger_tokens.rs:256-275 | The loop over the initial distribution leaves the new token's balances and their sum as its supply. |
| `LedgerEffects.CreatedEffect` | src/many-ledger/src/storage/ledger_tokens.rs:256-275 | A new token gives each listed address its share, no other anything, and has the shares together as its supply. |
| `Ledger.AccountedSinceCreation` | src/many-ledger/src/storage/ledger_tokens.rs:234-322 | From the creation of a token on, with any initial distribution, every run keeps that account. |
| `Ledger.AnonymousLoses` | src/many-ledger/src/storage/ledger_mintburn.rs:46-55 | A run, from creation, after which the supply exceeds the balances: a mint to the anonymous address that already holds an amount. |
| `Ledger.MaximumSinceCreation` | src/many-ledger/src/storage/ledger_tokens.rs:234-322 | Creation does not look at the maximum: it holds from then on if the initial distribution keeps it, and fails at once if not. |
| `Ledger.BurnNeverUnderflows` | src/many-ledger/src/storage/ledger_mintburn.rs:83-142 | In every run a burn that finds the funds finds the supply, so its subtractions do not fail. |
| `Ledger.StaysWithinMaximum` | src/many-ledger/src/storage/ledger_mintburn.rs:39-45 | A supply within its maximum stays within it over every run. |
| `Ledger.TokenStore.SendTokens` | src/many-ledger/src/storage/ledger_commands.rs:35-95 | The answer and the balances after a send. |
| `Ledger.TokenStore.MintTokens` | src/many-ledger/src/storage/ledger_mintburn.rs:21-81 | The loop over the distribution leaves the token, or the error, that the mint function gives. |
| `Ledger.TokenStore.BurnTokens` | src/many-ledger/src/storage/ledger_mintburn.rs:83-142 | The loop over the distribution leaves the token, or the error, that the burn function gives, and stops just when a subtraction fails. |

## Left out

- The CBOR, base 32, CRC, regular expression, fixed point and store libraries are not part of the
  repository. They are modelled from section 3 of RFC 8949, section 6 of RFC 4648 and their use here.
- CborAny: tags are ordered by their number; the library orders named tags before unnamed ones.
- Decoders give no error values: every kind of decoding error is one failure.
- Address texts are handled character by character; the source cuts a string at byte positions,
  which fails on some texts that are not ASCII.
- Lengths are below 2^64, as memory requires, where a lemma about a reader or writer says so.
- Signatures, key identities, COSE envelopes and the transport: whether an envelope opens is a
  parameter of a request.
- Server.Step: the time check, the destination check and the module's own validation are one outcome
  given with the admission; digests are an arbitrary function of the payload.
- Server: the status and endpoint listings, and a change of validators while requests are handled.
- Migration: the registry's linked slice, the strict mode's message texts and the logging.
- Abci: the check, query and commit calls, and failures of the transport to the backend.
- WebFiles: file contents are kept as they are; the source stores them in base 64. A delete of an
  absent key changes nothing. Batches take effect one after the other; the trouble of the store
  library with a delete and a put of one key in two uncommitted batches, which the comment at
  src/many-web/src/storage.rs:427-443 tells of, is not modelled.
- WebCommands.DomainsStayUnique: a scan of the store sees every batch applied so far, as it does where
  each command commits. In blockchain mode a batch is applied at once and committed with the block
  (src/many-web/src/storage.rs:42-46, 74-80), while scans read the database underneath
  (src/many-web/src/storage/iterator.rs:12). `WebBlocks` takes that up for domains; the other members
  about scans are for a store without pending batches.
- WebCommands: unpacking archives, parsing domain names, the tables of Unicode (lower case, white
  space, letters, size) and errors of the store are parameters or absent; events and heights are
  arbitrary writes outside the two roots.
- WebListing.ListSites: page zero, whose subtraction fails, is an error.
- KvStore: whether an account lets a sender act for it is a parameter, and one error stands for the
  reasons why it does not; roles, features and events are absent. Reasons of disabled keys are strings.
- Subresources.GrantsDistinct: is about a fixed state of the token migration, because the counter
  key changes with it. `TokenMigration.GrantedAgainIff` is about the change.
- TokenMigration.Migrate: the token's metadata and the migration's missing parameters are left out.
- Ledger: who may mint and burn, account counts, the metadata of tokens and multisig
  transactions; one token is modelled at a time, since no command touches two.
- Amounts.RoundTrip: is about amounts whose bytes a length of 64 bits can count.
- Reason.Display: takes the message after the default text has been chosen, and any notion of white
  space.
