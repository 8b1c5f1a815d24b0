# AniDB UDP client — a verified Dafny model

This project models the core of a small TypeScript client for the AniDB UDP
API. It covers three connected pieces.

- **Field-mask encoders.** `generateAnimeMask`, `generateFileMask` and
  `generateFAnimeMask` zero-fill a fixed-size byte buffer, add each requested
  field's bit into the byte its schema table names, and render the buffer as
  lowercase hex. The model keeps the `array` and the loop (`Mask.Generate`) and
  proves facts about the buffer function `Mask.Bytes` that specifies it:
  - every byte is the sum, modulo 256, of its fields' bits;
  - for a duplicate-free field list, that sum equals the bitwise OR and never wraps (a repeated field adds its bit twice, and the `Uint8` byte wraps);
  - the mask does not depend on field order;
  - for a duplicate-free field list, a bit is set exactly when its field was requested;
  - the exact empty and full mask strings of every table.
- **Positional reply decoders.** These are the `switch` bodies of `anime`,
  `file`, `episode`, `character`, `creator`, `group`, `groupStatus` and
  `animeDescription`:
  - the payload between the first and last line feed is cut out and split on `|`;
  - slot *i* becomes the *i*-th selected key;
  - list slots are split on `'` and `,`;
  - character and group records decode nested blocks (`'` then `,`);
  - file replies continue the anime slots at `fileKeys.length`.

  Each decoder is a function with a contract over all inputs. A round-trip lemma
  proves that a reply built from a record decodes back to that record. The
  status-code dispatch covers decode, `undefined`, candidate list, and
  `Unexpected result`.
- **The client object.** `AniDBClient` is a class with these fields:
  - the optional session;
  - the FIFO `commandQueue`;
  - the `commandHistory` map from tag to command;
  - what the timer has sent;
  - the promises that have settled.

  Its methods are:
  - `SendCommand`, which tags and queues a command exactly as the source writes the tag (the corrected tagging of the Findings row is proved beside it, in `Protocol`);
  - `Tick`, one firing of the four-second timer;
  - `Receive`, one datagram reaching the message handler;
  - `Authenticate`, `CompleteAuthenticate`, `Logout` and `StopTimer`;
  - one method per data operation, each guarded by `Not authenticated`.

  The class invariant `Valid` says four things:
  - what was sent followed by what is queued is exactly what was submitted, in order, and the number of submissions is the submission counter;
  - queued commands carry consecutive promise numbers;
  - history entries point at submitted commands;
  - every settled promise belongs to a submitted command.

Sockets, timers and promises are abstracted away. An `await
this.sendCommand(...)` is split in two: the request method returns the number
of the promise it created, and the reply that settles that promise is decoded
by the `Replies` functions. The JavaScript built-ins the client relies on are
modelled with their JavaScript edge cases in module `Strings`: `split`,
`join`, `Buffer.subarray` with negative and clamped indices, `indexOf` and
`lastIndexOf`. So are `Object.keys` order and property insertion (as
`Protocol.Put`). Reply codes, tag length and tag alphabet live in a file that
is not part of this model, so they are parameters (`Status.Codes`, and the
client's constants).

Files:
- `wrappers.dfy`: Option and Result.
- `strings.dfy`: the JavaScript string built-ins.
- `schema.dfy`: mask entries, scalar constructors, table well-formedness.
- `mask.dfy`: the generic encoder and its proofs.
- the tables:
  - `anime.dfy`;
  - `file.dfy`, holding two tables;
  - `character.dfy`;
  - `group.dfy`;
  - `group_status.dfy`;
  - `episode.dfy`;
  - `creator.dfy`;
  - `anime_description.dfy`.
- `decode.dfy`: the generic decoders.
- `status.dfy`: reply codes and dispatch.
- `protocol.dfy`: parameters, tagging, the session key, request parameters.
- `replies.dfy`: one reply decoder per operation.
- `client.dfy`: the client class.

## Model

| member | source | states |
|---|---|---|
| Strings.Split | src/AniDBClient.ts:164 | `split` always yields at least one piece, even from the empty string |
| Strings.SplitCount | src/AniDBClient.ts:164 | a split yields exactly one more piece than there are separators |
| Strings.SplitClean | src/AniDBClient.ts:164 | no piece of a split contains a separator |
| Strings.JoinSplit | src/AniDBClient.ts:164 | joining the pieces of a split with the separator restores the text |
| Strings.SplitJoin | src/AniDBClient.ts:164 | splitting undoes joining when no piece holds the separator, piece for piece |
| Strings.JoinClean | src/AniDBClient.ts:15 | a join of separator-free pieces with a separator-free glue is separator-free |
| Strings.Subarray | src/AniDBClient.ts:36 | `subarray` equals the plain slice for in-range indices, counts a negative end back from the end, never grows the input |
| Strings.IndexOf | src/AniDBClient.ts:126 | the result is -1 exactly when the character does not occur from `from` on, otherwise the first position holding it |
| Strings.LastIndexOfBelow | src/AniDBClient.ts:162 | the result is -1 exactly when the character does not occur below `upto`, otherwise the last position holding it |
| Strings.NatToStringValue | src/AniDBClient.ts:116 | reading back the decimal rendering `${n}` of a natural number gives the number |
| Schema.Convert | src/AniDBClient.ts:172 | `Number(text)`, `String(text)` and `Boolean(text)` give a scalar of the matching kind that keeps the slot text |
| Mask.Generate | src/Anime.ts:54-62 | the loop over a zeroed `width`-byte array returns the hex of `Bytes` of the fields, `2 * width` characters long |
| Mask.BytesStep | src/Anime.ts:56-59 | adding one more field changes the buffer by that field's `mask[offset] += bit` alone |
| Mask.BytesAreSums | src/Anime.ts:56-59 | the buffer has `width` bytes and byte `j` is the sum of the bits of the fields addressed to `j`, modulo 256: other fields leave it alone |
| Mask.OrderIndependent | src/Anime.ts:56-59 | two field lists that are permutations of each other give the same buffer |
| Mask.SumIsOr | src/Anime.ts:58 | for a table with power-of-two bits distinct within a byte and a duplicate-free list, each byte's sum is below 256 and equals the OR of the bits |
| Mask.MaskIsOr | src/Anime.ts:58 | for such a table and a duplicate-free list, every one of the `width` bytes equals the OR of its fields' bits, so no addition wraps |
| Mask.MaskSelects | src/Anime.ts:56-59 | for a duplicate-free list, a field with a bit is set in its byte exactly when it is in the list |
| Mask.Hex | src/Anime.ts:61 | `toString('hex')` gives two lowercase hex digits per byte |
| Mask.HexAt | src/Anime.ts:61 | byte `i` is rendered at positions `2i` and `2i+1`, high nibble first |
| Mask.UnhexHex | src/Anime.ts:61 | the hex rendering is lossless: reading it back gives the bytes |
| Mask.Select | src/AniDBClient.ts:147 | the filtered keys are exactly the schema keys requested (or in `always`), no more than the schema has |
| Mask.SelectNoDuplicates | src/AniDBClient.ts:147 | filtering a duplicate-free key list keeps it duplicate-free |
| Mask.SelectKeepsOrder | src/AniDBClient.ts:147 | the filtered keys are a subsequence of the schema order |
| Mask.SelectFromSchema | src/AniDBClient.ts:359-360 | over a full schema order: membership is "requested or forced", order is schema order, no field list selects every key |
| Mask.SelectNothing | src/AniDBClient.ts:359-360 | an empty field list keeps only the forced keys |
| Mask.ForcedZeroBits | src/AniDBClient.ts:359-360 | forcing keys whose bit is 0 into the selection leaves the buffer unchanged |
| Anime.Keys | src/Anime.ts:1-48 | the 40 anime keys in declaration order |
| Anime.KeyIndexInverse | src/Anime.ts:1-48 | key position and key are inverse maps over all 40 fields |
| Anime.KeysInOrder | src/Anime.ts:1-48 | `Object.keys(ANIME_MASK)` lists every field exactly once |
| Anime.FieldFacts | src/Anime.ts:2-47 | every offset lies in 0..6, every bit is a power of two, the table entry is recovered from (offset, bit), only list fields carry an element decoder and it is Number or String |
| Anime.Distinct | src/Anime.ts:2-47 | two different fields in the same byte have different bits |
| Anime.TableWellFormed | src/Anime.ts:2-47 | the anime table meets every condition the encoder and decoder rely on |
| Anime.GenerateMask | src/Anime.ts:54-62 | the mask is exactly 14 lowercase hex characters, the hex of the 7-byte buffer |
| Anime.MaskNamesFields | src/Anime.ts:56-59 | for a duplicate-free list, a field's bit is set in its byte exactly when the field was requested |
| Anime.MaskIsOr | src/Anime.ts:58 | for a duplicate-free list, each of the 7 bytes equals the OR of its requested fields' bits |
| Anime.MaskOrderIndependent | src/Anime.ts:56-59 | the mask string does not depend on the order of the field list |
| Anime.EmptyMask | src/Anime.ts:54-62 | the empty field list gives `00000000000000` |
| Anime.FullBytes | src/Anime.ts:2-47 | all fields give the bytes 252, 252, 254, 255, 127, 128, 248 |
| Anime.FullMask | src/Anime.ts:54-62 | all fields give `fcfcfeff7f80f8` |
| Anime.OnlyBooleanField | src/Anime.ts:31 | `isAdultRestricted` is the only Boolean field |
| File.Keys | src/File.ts:1-41 | the 35 file keys in declaration order |
| File.KeyIndexInverse | src/File.ts:1-41 | key position and key are inverse maps over all file fields |
| File.KeysInOrder | src/File.ts:1-41 | `Object.keys(FILE_MASK)` lists every field exactly once |
| File.FieldFacts | src/File.ts:2-40 | every offset lies in 0..4, bits are zero or powers of two, entries are recovered from (offset, bit), decoders only on lists |
| File.Distinct | src/File.ts:2-40 | two different fields in the same byte never share a bit |
| File.TableWellFormed | src/File.ts:2-40 | the file table meets every condition the encoder and decoder rely on |
| File.GenerateMask | src/File.ts:79-87 | the file mask is exactly 10 lowercase hex characters, the hex of the 5-byte buffer |
| File.MaskNamesFields | src/File.ts:81-84 | for a duplicate-free list, a field with a bit is set exactly when it was requested |
| File.MaskIsOr | src/File.ts:83 | for a duplicate-free list, each of the 5 bytes equals the OR of its requested fields' bits |
| File.MaskOrderIndependent | src/File.ts:81-84 | the file mask does not depend on the order of the field list |
| File.EmptyMask | src/File.ts:79-87 | the empty field list gives `0000000000` |
| File.FullBytes | src/File.ts:2-40 | all fields give the bytes 127, 250, 255, 249, 254 |
| File.FullMask | src/File.ts:79-87 | all fields give `7ffafff9fe` |
| File.ForcedFid | src/AniDBClient.ts:359-360 | forcing `fid` into the file keys never changes the file mask |
| File.OnlyFidWithoutBit | src/File.ts:2 | `fid` is the only file field whose bit value is 0 |
| FileAnime.Keys | src/File.ts:43-69 | the 22 file-anime keys in declaration order |
| FileAnime.KeyIndexInverse | src/File.ts:43-69 | key position and key are inverse maps over all file-anime fields |
| FileAnime.KeysInOrder | src/File.ts:43-69 | `Object.keys(F_ANIME_MASK)` lists every field exactly once |
| FileAnime.FieldFacts | src/File.ts:44-68 | every offset lies in 0..3, bits are powers of two, entries are recovered from (offset, bit), decoders only on lists |
| FileAnime.Distinct | src/File.ts:44-68 | two different fields in the same byte have different bits |
| FileAnime.TableWellFormed | src/File.ts:44-68 | the file-anime table meets every condition the encoder and decoder rely on |
| FileAnime.GenerateMask | src/File.ts:89-97 | the file-anime mask is exactly 8 lowercase hex characters, the hex of the 4-byte buffer |
| FileAnime.MaskNamesFields | src/File.ts:91-94 | for a duplicate-free list, a field's bit is set exactly when it was requested |
| FileAnime.MaskIsOr | src/File.ts:93 | for a duplicate-free list, each of the 4 bytes equals the OR of its requested fields' bits |
| FileAnime.MaskOrderIndependent | src/File.ts:91-94 | the file-anime mask does not depend on the order of the field list |
| FileAnime.EmptyMask | src/File.ts:89-97 | the empty field list gives `00000000` |
| FileAnime.FullBytes | src/File.ts:44-68 | all fields give the bytes 254, 252, 252, 193 |
| FileAnime.FullMask | src/File.ts:89-97 | all fields give `fefcfcc1` |
| AnimeBlock.Keys | src/Character.ts:14-19 | the anime-block sub-schema is aid, appearance, creatorId, isMainSeiyuu, in that order |
| AnimeBlock.KeysInOrder | src/Character.ts:14-19 | its key order lists every sub-field exactly once |
| AnimeBlock.FieldTypes | src/Character.ts:15-18 | aid, appearance and creatorId are numeric, isMainSeiyuu is the one Boolean |
| Character.Keys | src/Character.ts:1-12 | the 9 character slots in order charId … gender |
| Character.KeysInOrder | src/Character.ts:1-12 | its key order lists every field exactly once |
| Character.FieldTypes | src/Character.ts:2-11 | charId, lastUpdateDate and type are numeric; the names, picName, episodeList and gender are text; animeBlocks is the one nested list |
| GroupRelation.Keys | src/Group.ts:21-24 | the relation sub-schema is otherGid then relationType |
| GroupRelation.KeysInOrder | src/Group.ts:21-24 | its key order lists both sub-fields exactly once |
| GroupRelation.FieldTypes | src/Group.ts:22-23 | both relation sub-fields are numeric |
| Group.Keys | src/Group.ts:1-19 | the 17 group slots in order gid … groupRelations |
| Group.KeysInOrder | src/Group.ts:1-19 | its key order lists every field exactly once |
| Group.FieldTypes | src/Group.ts:2-18 | the ten ids, counts and dates are numeric, the six names and URLs are text, groupRelations is the one nested list |
| GroupStatus.Keys | src/payloads/GroupStatus.ts:1-9 | the 7 group-status slots in order gid … episodeRange |
| GroupStatus.KeysInOrder | src/payloads/GroupStatus.ts:1-9 | its key order lists every field exactly once |
| GroupStatus.FieldTypes | src/payloads/GroupStatus.ts:2-8 | groupName and episodeRange are text, the other five numeric |
| Episode.Keys | src/Episode.ts:1-13 | the 11 episode slots in declaration order |
| Episode.KeysInOrder | src/Episode.ts:1-13 | its key order lists every field exactly once |
| Episode.FieldTypes | src/Episode.ts:2-12 | episodeNumber and the names are text, the rest numeric |
| Creator.Keys | src/payloads/Creator.ts:1-12 | the 10 creator slots in declaration order |
| Creator.KeysInOrder | src/payloads/Creator.ts:1-12 | its key order lists every field exactly once |
| Creator.FieldTypes | src/payloads/Creator.ts:2-11 | creatorId, type and lastUpdateDate are numeric, the rest text |
| AnimeDescription.Keys | src/payloads/AnimeDescription.ts:1-5 | a page is currentPart, maxParts, description, in that order |
| AnimeDescription.KeysInOrder | src/payloads/AnimeDescription.ts:1-5 | its key order lists every field exactly once |
| AnimeDescription.FieldTypes | src/payloads/AnimeDescription.ts:2-4 | the two part counters are numeric, the description text |
| Decode.ReturnCode | src/AniDBClient.ts:122 | the status code is the three characters at positions 6..9 |
| Decode.PayloadOfReply | src/AniDBClient.ts:161-163 | for a status line, a line feed, a body and a final line feed, the payload is exactly the body, line feeds inside it included |
| Decode.ListItems | src/AniDBClient.ts:169 | an empty list slot gives no elements; otherwise one element per `'`/`,` piece, each converted by the element decoder |
| Decode.MaskedSlot | src/AniDBClient.ts:166-173 | a scalar field converts its slot or `''` when the slot is missing; a list field splits its slot and throws a TypeError when the slot is missing |
| Decode.DecodeMasked | src/AniDBClient.ts:166-175 | the decode throws exactly when some list field's slot is missing; otherwise key *i* reads slot `start + i` and every key appears once, in order |
| Decode.ListItemsRender | src/AniDBClient.ts:169 | a list rendered with `'` reads back as the same elements |
| Decode.MaskedSlotRender | src/AniDBClient.ts:166-173 | a fitting value rendered into its slot reads back as that value |
| Decode.DecodeMaskedRender | src/AniDBClient.ts:166-173 | slots holding a rendered record decode by mask to exactly that record |
| Decode.DecodeMaskedJoined | src/AniDBClient.ts:161-173 | a record rendered and joined with `|` splits and decodes back to itself |
| Decode.DecodeMaskedPair | src/AniDBClient.ts:395-411 | two records rendered one after the other decode back, the second read from the slot where the first ends |
| Decode.DecodePositional | src/AniDBClient.ts:247-252 | more slots than keys throws; otherwise slot *i* decodes key *i* through its constructor and a short payload gives a record missing the trailing keys |
| Decode.DecodePositionalRender | src/AniDBClient.ts:248-252 | a non-empty record of fitting scalars joined with the separator decodes back to itself |
| Decode.DecodeBlocks | src/AniDBClient.ts:447-454 | one record per `'` block, each block split on `,` and decoded by position; a block with too many pieces throws |
| Decode.BlocksOf | src/AniDBClient.ts:448-454 | the blocks decode in order, one record each, and the decode throws exactly when some block has too many pieces |
| Decode.EmptyBlocks | src/AniDBClient.ts:447-453 | an empty nested slot gives one block holding only the first sub-key converted from `''` |
| Decode.DecodeBlocksRender | src/AniDBClient.ts:447-454 | blocks rendered with `'` and `,` decode back to themselves |
| Decode.DecodeSlots | src/AniDBClient.ts:440-462 | each slot decodes by its own key's rule; a slot past the last key or a slot whose rule throws makes the record throw |
| Decode.DecodeSlotsRender | src/AniDBClient.ts:440-462 | slots that each decode to the matching entry decode together to the record |
| Status.Dispatch | src/AniDBClient.ts:159-181 | the found code yields the decode's outcome; a "no such" code yields `undefined`; any other code throws `Unexpected result` |
| Status.ReplyTextParts | src/AniDBClient.ts:157-164 | the client reads back the code and the body a reply was assembled from |
| Protocol.ConvertNoParams | src/AniDBClient.ts:12-15 | an empty parameter object gives the empty string |
| Protocol.ConvertParamsRoundTrip | src/AniDBClient.ts:12-15 | `k1=v1&k2=v2…` has one non-empty `&` piece per entry in insertion order, and parsing it gives the entries back |
| Protocol.ConvertParamsSnoc | src/AniDBClient.ts:12-15 | one more entry appends `&key=value` to the text |
| Protocol.Put | src/AniDBClient.ts:153 | assigning a new key appends it last; assigning an existing key keeps key order |
| Protocol.PutLookup | src/AniDBClient.ts:153 | after the assignment the key holds the new value and every other key keeps its value |
| Protocol.PutNew | src/AniDBClient.ts:153 | assigning a key the object does not have appends exactly that entry |
| Protocol.CommandHasEquals | src/AniDBClient.ts:89 | a command text contains `=` exactly when it has parameters |
| Protocol.TaggedAppendsParam | src/AniDBClient.ts:88-98 | the corrected tagging `Tagged` makes `tag` the last parameter, followed by CRLF, with or without other parameters; the client queues the tagging as written instead, which agrees with it only for commands with parameters |
| Protocol.TaggingAgrees | src/AniDBClient.ts:88-92 | for a command containing `=` the corrected tagging and the one as written agree |
| Protocol.TaggedAsWrittenAppendsParam | src/AniDBClient.ts:88-92 | for every command the client builds itself (a name without `=` and at least one parameter), the tagging as written makes `tag` the last parameter, followed by CRLF |
| Protocol.BareCommandFused | src/AniDBClient.ts:88-92 | as written, `PING` is queued as `PINGtag=abcde`, which is not `PING` with a `tag` parameter; the corrected tagging gives `PING tag=abcde` |
| Protocol.SessionOfReply | src/AniDBClient.ts:126 | the session is the text from position 10 up to the next space |
| Protocol.SessionWithoutSpace | src/AniDBClient.ts:126 | with no space after position 10, `indexOf` gives -1 and the session runs up to the last character, which is dropped |
| Protocol.AnimeKeys | src/AniDBClient.ts:147 | anime keys are exactly the requested ones in schema order, all keys without a field list |
| Protocol.FileKeys | src/AniDBClient.ts:359-360 | file keys are the requested ones plus `fid`, in schema order, all keys without a field list |
| Protocol.FileAnimeKeys | src/AniDBClient.ts:361-362 | file-anime keys are exactly the requested ones in schema order, all keys without a field list |
| Protocol.AnimeParamsShape | src/AniDBClient.ts:149-153 | `anime` sends `amask`, `s`, then `aid` for a number or `aname` for a string, with those values |
| Protocol.DescriptionParamsShape | src/AniDBClient.ts:190-194 | `animeDescription` sends `aid`, `part`, `s`; without a part number `part` is `0` |
| Protocol.EpisodeParamsShape | src/AniDBClient.ts:228-239 | a number without an episode number is sent as `eid`, with one as `aid`, a string as `aname`; `epno` is sent exactly when the episode number is truthy |
| Replies.AnimeReply | src/AniDBClient.ts:157-181 | under the ANIME code the reply throws exactly when a list field's slot is missing, else key *i* holds slot *i*; NO_SUCH_ANIME gives `undefined`; any other code throws `Unexpected result` |
| Replies.AnimeRoundTrip | src/AniDBClient.ts:157-175 | an ANIME reply carrying a fitting record for the selected keys resolves with exactly that record |
| Replies.FileReply | src/AniDBClient.ts:385-424 | under the FILE code the reply throws a `TypeError` exactly when a list file key *i* has no slot *i* or a list anime key *j* has no slot `fileKeys.length + j`; otherwise file key *i* reads slot *i* and anime key *j* reads slot `fileKeys.length + j`; MULTIPLE_FILES_FOUND gives the `|` pieces; NO_SUCH_FILE gives `undefined`; any other code throws `Unexpected result` |
| Replies.FileRoundTrip | src/AniDBClient.ts:389-413 | a FILE reply carrying a file record followed by an anime record resolves with both |
| Replies.CandidatesRoundTrip | src/AniDBClient.ts:414-418 | a MULTIPLE_FILES_FOUND reply resolves with exactly the listed ids |
| Replies.PositionalReply | src/AniDBClient.ts:245-260 | under the found code the reply throws exactly when there are more slots than keys, else slot *i* decodes key *i*; a "no such" code gives `undefined`; any other code throws |
| Replies.PositionalRoundTrip | src/AniDBClient.ts:246-254 | a reply carrying a non-empty fitting record, full or missing trailing keys, resolves with exactly it |
| Replies.EpisodeReply | src/AniDBClient.ts:242-260 | under the EPISODE code the reply throws exactly when it has more than 11 slots; otherwise slot *i* is key *i* converted by that key's constructor, trailing keys missing when slots are; NO_SUCH_EPISODE gives `undefined`; any other code throws `Unexpected result` |
| Replies.EpisodeRoundTrip | src/AniDBClient.ts:246-254 | an EPISODE reply carrying a fitting record resolves with it |
| Replies.CreatorReply | src/AniDBClient.ts:481-499 | under the CREATOR code the reply throws exactly when it has more than 10 slots; otherwise slot *i* is key *i* converted by that key's constructor; NO_SUCH_CREATOR gives `undefined`; any other code throws `Unexpected result` |
| Replies.CreatorRoundTrip | src/AniDBClient.ts:485-493 | a CREATOR reply carrying a fitting record resolves with it |
| Replies.DescriptionReply | src/AniDBClient.ts:195-218 | under the ANIMEDESC code a page throws exactly when it has more than 3 slots; otherwise slot *i* is key *i* converted by its constructor; NO_SUCH_ANIME and NO_SUCH_DESCRIPTION both give `undefined`; any other code throws `Unexpected result` |
| Replies.DescriptionRoundTrip | src/AniDBClient.ts:199-207 | an ANIMEDESC reply carrying a fitting page resolves with it |
| Replies.NextPart | src/AniDBClient.ts:208-211 | the walk stops exactly when `currentPart + 1 == maxParts`, and otherwise asks for part `currentPart + 1` |
| Replies.WalkRequestsEachPart | src/AniDBClient.ts:208-211 | from part `p` below `maxParts` the walk requests parts `p, p+1, …, maxParts-1`, each once, in order |
| Replies.GroupStatusReply | src/AniDBClient.ts:271-294 | under the GROUPSTATUS code the reply throws exactly when some payload line has more than 7 slots; otherwise there is one record per line and slot *i* of line *b* is key *i* converted by its constructor; NO_SUCH_GROUP and NO_SUCH_ANIME give `undefined`; any other code throws `Unexpected result` |
| Replies.GroupStatusRoundTrip | src/AniDBClient.ts:275-287 | a GROUPSTATUS reply carrying fitting lines resolves with exactly those records, one per line |
| Replies.CharacterBlocks | src/AniDBClient.ts:446-455 | the animeBlocks slot gives one block per `'` piece, each decoded by position from its `,` pieces against aid, appearance, creatorId, isMainSeiyuu |
| Replies.EmptyAnimeBlocks | src/AniDBClient.ts:447-453 | an empty animeBlocks slot gives `[{aid: Number('')}]`, not an empty list |
| Replies.CharacterReply | src/AniDBClient.ts:435-471 | under the CHARACTER code the reply throws exactly when there are more than 9 slots or a slot fails to decode; otherwise slot *i* decodes key *i*: animeBlocks nested, episodeList kept as raw text, the rest by constructor; NO_SUCH_CHARACTER gives `undefined`; any other code throws `Unexpected result` |
| Replies.CharacterSlotRender | src/AniDBClient.ts:445-461 | every fitting character slot value, nested or scalar, reads back from its rendering |
| Replies.CharacterRoundTrip | src/AniDBClient.ts:439-464 | a CHARACTER reply carrying a fitting record resolves with it |
| Replies.GroupBlocks | src/AniDBClient.ts:521-530 | the groupRelations slot gives one relation per `'` piece, decoded from its `,` pieces as otherGid then relationType |
| Replies.EmptyGroupRelations | src/AniDBClient.ts:522-529 | an empty groupRelations slot gives `[{otherGid: Number('')}]` |
| Replies.GroupReply | src/AniDBClient.ts:510-544 | under the GROUP code the reply throws exactly when there are more than 17 slots or a relation fails to decode; otherwise slot *i* decodes key *i*, groupRelations nested, the rest by constructor; NO_SUCH_GROUP gives `undefined`; any other code throws `Unexpected result` |
| Replies.GroupSlotRender | src/AniDBClient.ts:520-534 | every fitting group slot value reads back from its rendering |
| Replies.GroupRoundTrip | src/AniDBClient.ts:514-537 | a GROUP reply carrying a fitting record resolves with it |
| Client.QueryRequest | src/AniDBClient.ts:337-379 | the query part of `file`: the session, then anime, group and `epno`; or `size` and `ed2k`; or `fid`, each a new key appended in order |
| Client.FileRequest | src/AniDBClient.ts:337-383 | the `file` parameters: the query part, then `fmask` of the file keys, then `amask` of the anime keys |
| Client.AnimeRequest | src/AniDBClient.ts:147-154 | the `anime` parameters: the mask of the selected keys, the session, and the anime under `aid` or `aname` |
| Client.EpisodeRequest | src/AniDBClient.ts:228-240 | the `episode` parameters: the session, the first argument under its key, `epno` when truthy |
| Client.AniDBClient.constructor | src/AniDBClient.ts:29-50 | a new client has no session, an empty queue and history, nothing sent, and a running timer |
| Client.AniDBClient.SendCommand | src/AniDBClient.ts:85-104 | the line is tagged as the source writes it (`&tag=` after a command containing `=`, `tag=` glued on otherwise), queued last under the next promise number and recorded under its tag, replacing an older entry with the same tag; queued commands and other tags' history entries are unchanged and nothing is sent |
| Client.AniDBClient.Tick | src/AniDBClient.ts:40-44 | a tick with an empty queue or a stopped timer sends nothing; otherwise it removes and sends exactly the front command; what was sent is always a prefix of what was submitted |
| Client.AniDBClient.Receive | src/AniDBClient.ts:35-38 | the reply settles the promise recorded under its first five characters, once; an unknown tag throws a TypeError and changes nothing |
| Client.AniDBClient.Authenticate | src/AniDBClient.ts:112-121 | `AUTH` with user, pass, protover, client, clientver and `enc=UTF-8` is queued whether or not a session exists |
| Client.AniDBClient.CompleteAuthenticate | src/AniDBClient.ts:122-131 | the session becomes the key from position 10 exactly when the code is LOGIN_ACCEPTED; otherwise it is unchanged |
| Client.AniDBClient.Logout | src/AniDBClient.ts:133-139 | without a session nothing is queued; otherwise `LOGOUT s=<session>` is queued |
| Client.AniDBClient.StopTimer | src/AniDBClient.ts:108 | the timer stops; nothing else changes |
| Client.AniDBClient.Anime | src/AniDBClient.ts:143-156 | without a session it throws `Not authenticated` and changes nothing; otherwise `ANIME` with the anime parameters is queued |
| Client.AniDBClient.AnimeDescription | src/AniDBClient.ts:186-195 | the same guard; otherwise `ANIMEDESC` with `aid`, `part`, `s` is queued |
| Client.AniDBClient.Episode | src/AniDBClient.ts:224-242 | the same guard; otherwise `EPISODE` with the episode parameters is queued |
| Client.AniDBClient.GroupStatus | src/AniDBClient.ts:263-271 | the same guard; otherwise `GROUPSTATUS` with `aid` and `s` is queued |
| Client.AniDBClient.File | src/AniDBClient.ts:334-385 | the same guard; otherwise `FILE` with the query, `fmask` (with `fid` forced) and `amask` is queued |
| Client.AniDBClient.Character | src/AniDBClient.ts:427-435 | the same guard; otherwise `CHARACTER` with `charid` and `s` is queued |
| Client.AniDBClient.Creator | src/AniDBClient.ts:473-481 | the same guard; otherwise `CREATOR` with `creatorid` and `s` is queued |
| Client.AniDBClient.Group | src/AniDBClient.ts:502-510 | the same guard; otherwise `GROUP` with `gid` and `s` is queued |

## Left out

- Sockets: creating, binding, connecting, sending on and closing the UDP socket (src/AniDBClient.ts:52-74, 109), and the socket's error and listening handlers, are I/O. Transmission is appending to `sent`.
- Timers and promises: the four-second `setInterval` is the `Tick` method, and a promise's resolution is `settled[promise] := reply`. Which reply text reaches which decoder is stated by the `Replies` functions, not by a running promise chain.
- Tag generation: `generateTag` draws random characters. The tag is a parameter that must have the tag length and come from the tag alphabet. Its collision check looks at `Object.keys(this.commandQueue)`, which are queue indices rather than pending tags, so the model does not claim that tags are unique. `SendCommand` overwrites an older history entry with the same tag, as the source does.
- Replies.NextPart: only the page walk's decision is modelled. Line 211 concatenates the page text with an un-awaited Promise, which yields a string holding `[object Promise]`; that concatenated result is not modelled. On the last page the promise resolves with the page's `description` field alone, not with the record `DescriptionReply` returns as `Found`. The walk is modelled only from a part below `maxParts`: if the server answers with `maxParts <= currentPart`, or without a `maxParts` slot (`undefined`), `currentPart + 1 === maxParts` never holds and the source keeps requesting further parts, which the model does not describe.
- Protocol.ArgText: a JavaScript number given to `${…}` is modelled as an unbounded integer rendered in plain decimal. Fractions, `NaN`, `Infinity` and magnitudes of 1e21 and above, which JavaScript renders differently (`1.5`, `NaN`, `1e+21`), are not modelled. The same holds for the `protover`, `clientver`, `size`, `fid`, `aid` and `part` parameters rendered by `IntToString`.
- Schema.Convert: JavaScript `Number()` parsing (floats, whitespace, `NaN`) and `Boolean()` coercion are abstract. A converted value keeps its slot text, and `Number('')` stands for 0. Because `Boolean()` is abstract, no contract here shows that `Boolean('0')` is `true` in JavaScript, so the Boolean fields `isAdultRestricted` (src/Anime.ts:31) and `isMainSeiyuu` (src/Character.ts:18) most likely decode an AniDB `0` as `true`.
- Text encoding: UTF-8 is not modelled. Replies and commands are character sequences, and `toString('utf-8')` is the identity.
- Reply codes, tag length, tag alphabet and protocol version come from a constants file that is not part of this model. They are parameters (`Status.Codes` and the client's constants), never fixed values.
- Console logging and the `debug` flag have no effect on state and are left out.
- Client.AniDBClient.StopTimer: `disconnect` is modelled as `Logout` followed by `StopTimer`; the socket close is I/O.
- Client.AniDBClient.CompleteAuthenticate: the `console.log` of an unaccepted reply is left out; the method returns `None` there, as `authenticate` returns `undefined`.
- The `file` overloads are chosen at run time from `typeof` tests on the positional arguments. The model takes the chosen overload as a `FileQuery` value (by episode, by size and hash, or by file id) together with the two field lists.
- src/utils/hash.ts (file reading and MD4 hashing), src/utils/cmd.ts, src/index.ts and src/test.ts are entry scripts and I/O and are not part of this model.

## Findings

| source | as written | input that shows it | evidently intended | confidence | as-written member | corrected member |
|---|---|---|---|---|---|---|
| src/AniDBClient.ts:88-92 | a command without `=` gets `tag=` glued directly onto its name | `sendCommand('PING')` queues `PINGtag=abcde\r\n` | `PING tag=abcde\r\n`: the tag as the command's first parameter, after a space | medium (not executed) | Protocol.BareCommandFused | Protocol.TaggedAppendsParam |
