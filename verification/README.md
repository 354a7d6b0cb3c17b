# Verified models of the Hashgram indexer, signing encoder and circle timeline

A Dafny model of the parts of Hashgram whose correctness cannot be seen in one function body, with
proofs over every input, every run and every reachable state. `dafny verify dfyconfig.toml` checks
all of it.

* **Block follower and balances projection** (`Coins`, `Balances`, `FollowerModel`, `Follower`, `BalanceMeaning`).
  Blocks are indexed under one persisted cursor and their balance events folded under another, inline
  or in a catch-up loop, with a cached cursor in memory. `FollowerModel` is the state machine: atomic
  database steps, crashes and restarts anywhere. `Follower.Ingester` is the object that takes those
  steps; its `faults` schedule makes any fetch, statement or commit fail, its ghost `history` records
  the run, so each method is proved to be a run of the machine, and each theorem about runs holds of
  the object. `BalanceMeaning` says on raw events whose balance moves, which way and by how much.
* **Registry walk and validators** (`Registry`, `Validators`). The resumable `paginate` with its
  persisted cursor, and the refresh that upserts a complete listing and prunes everything older.
* **Bech32** (`Bech32`, `Regroup`, `Address`). The checksum as a BCH code over GF(32), the 8-to-5 bit
  regrouper whose `uint32` accumulator wraps, and the rendered address with a reader for it. The
  specification is BIP-173, sections "Bech32" and "Checksum".
* **Canonical signing** (`Canonical`, `Signing`, `Payloads`, `WireLayout`). The bounded and unbounded preimage
  builders as classes, the domain separation of the signing preimage, and the payloads of social
  events and content attestations. Parsers are proof devices: each recovers every field.
  `WireLayout` writes the signed bytes out: widths, byte order, order of the fields.
* **Social projection** (`Social`, `SocialTables`, `SocialMeaning`, `SocialColumns`, `SocialRows`, `SocialDeletion`,
  `SocialIngester`, `Registers`, `Attestations`). At-least-once delivery becomes exactly-once effect; profiles and attestations are
  last-writer-wins registers, with the exact condition under which order does not matter. Every row
  is traced to the verified events that made it, column by column.
* **Circle timeline** (`Circle`, `CircleCounters`, `CircleInvariant`, `CircleMeaning`, `CircleOrder`,
  `CircleTimeline`, `CircleViews`). Cached reaction and vote counts agree with the per-author maps in every reachable
  state, through re-votes, duplicates, deletions and eviction; reactions and votes of different
  authors commute.

## Where the code is not what its description suggests

* A conflicting attestation never updates `kind` (`indexer/social.go:447-449`): a subject attested as
  "cid" and then as "event" stays a "cid" (`Attestations.StaleKind`). `Attestations.LatestRowIff` and
  `Attestations.OrderIrrelevant` give the exact conditions.
* The balances parser returns the first `uhash` coin of any size, the transfer parser every `uhash`
  coin that fits 64 bits, so they differ on one coin of 2^64 or on two coins (`Coins.ParsersDiffer`).
  `Coins.ParsersAgree` says exactly when they agree; every list with at most one `uhash` coin below
  2^64 is such a list (`Coins.ChainListsAgree`), as are those the chain prints, with one coin a
  denomination.
* Domain separation rests on purposes having no slash; network ids may have them.
  `Signing.SlashedPurposeCollides` shows the collision that a purpose with a slash would bring.
* A deletion empties the text of a post, but an edit by the author afterwards writes the column
  again, while the row stays marked deleted (`SocialDeletion.EditRewritesDeleted`). The query that
  reads post texts leaves deleted posts out (`indexer/api.go:158-162`), so the text is stored, not
  served. `SocialDeletion.DeliveryKeepsBlankIff` gives the exact guard for one delivery, and
  `SocialDeletion.DeletedTextIff` the exact condition over the applied events.

## Assumptions

* A commit or a single-statement write reports truthfully whether it took effect. After an ambiguous
  commit without a restart the cached projection cursor could lag behind the database.
* The statements of one attestation batch take effect together or not at all.
* Balances stay below 10^40, the range of their `numeric(40,0)` column; the supply is far smaller.
* `Reset` does not run while the follower is live.
* The results, transaction hashes and genesis a follower fetches are fixed functions of the height.
* A page listing does not change while it is walked.
* SHA-256, BLAKE3, ed25519, the protobuf payload decoder, `drive::validate_capability` and the
  lower-casing of hashtags are parameters. `Payloads.EventIdNamesContents` assumes that the hash does
  not collide on the two preimages compared.
* Lengths handed to the unbounded builder are below 2^64, as every Go length is.

## Model

| member | source | states |
|---|---|---|
| Coins.ReadUhashAmount | indexer/balances.go:65-86 | the in-place parser computes the first bond-denom coin of a list, skipping malformed parts |
| Coins.ReadTransferAmounts | indexer/chain.go:216-223 | the transfer loop emits one row for each part with the bond-denom suffix that parses as a uint64 |
| Coins.UhashAmountOfPrinted | indexer/balances.go:61-86 | on every printed list of well-formed coins the parser returns the first uhash amount, unbounded, or reports none |
| Coins.TransferAmountsOfPrinted | indexer/chain.go:216-223 | on every printed list the transfer parser finds exactly the uhash amounts below 2^64, in order |
| Coins.PaddedCoin | indexer/balances.go:70-84 | the balances parser reads a coin through the white space around it |
| Coins.ParsersAgree | indexer/balances.go:65-86 | on every printed list the two parsers agree exactly when no coin is of the bond denomination, or the first such coin is below 2^64 and every other one is not |
| Coins.ChainListsAgree | indexer/chain.go:216-223 | they agree on every list with at most one bond coin, below 2^64 |
| Coins.ParsersDiffer | indexer/chain.go:216-223 | one bond coin of 2^64, or two bond coins, make them differ |
| Balances.ApplyBalanceEvent | indexer/balances.go:88-117 | one event, read with the in-place coin parser, changes one delta by the signed amount, or is ignored and says so; `BalanceMeaning.SpentLowers`, `ReceivedRaises` and `OthersMoveNothing` give sign, address and amount on raw events |
| Balances.DeltasSum | indexer/balances.go:119-138 | a block's deltas name only addresses its events touch, each with what those events add up to |
| Balances.CollectBalanceDeltas | indexer/balances.go:119-138 | all four event groups are folded, those of failed transactions included |
| Balances.UpsertDeltas | indexer/balances.go:345-360 | upserting address by address, in any order, touches exactly the rows with non-zero deltas and stamps the height |
| Balances.DeltasMatchEvents | indexer/balances.go:119-138 | summing first and upserting the non-zero sums gives the table that applying the events one by one in any order gives |
| Balances.BlockConserves | indexer/balances.go:345-360 | a block changes the table's total by the first uhash coins of its coin_received events minus those of its coin_spent events |
| BalanceMeaning.SpentLowers | indexer/balances.go:88-117 | a coin_spent event lowers the balance of its first spender attribute by its first uhash coin, and moves no other balance |
| BalanceMeaning.ReceivedRaises | indexer/balances.go:88-117 | a coin_received event raises the balance of its first receiver attribute by its first uhash coin, and moves no other balance |
| BalanceMeaning.OthersMoveNothing | indexer/balances.go:90-107 | an event of another kind, or without its address, its amount or a uhash coin, moves nothing |
| BalanceMeaning.BlockNet | indexer/balances.go:119-138 | what a block moves at an address is what its begin, transaction, end and finalize events move there, those of failed transactions included |
| BalanceMeaning.BlockStamps | indexer/balances.go:345-360 | a folded block stamps its height on the rows whose balance it moved, and leaves every other row as it was |
| Balances.NetPermuted | indexer/balances.go:119-138 | what a block moves at an address does not depend on the order of its events |
| Balances.SumTable | indexer/balances.go:413-422 | the supply statistic is the sum of the table |
| Balances.SeedTable | indexer/balances.go:317-327 | genesis rows are inserted at height zero, repeated addresses adding up |
| Balances.SeededAmounts | indexer/balances.go:297-340 | the seeded table holds each address's genesis amounts, and the genesis total |
| FollowerModel.NextHeightIs | indexer/chain.go:318-329 | the next height is the least one that is positive, at least the configured start, and above the cursor |
| FollowerModel.IndexedIs | indexer/chain.go:232-257 | an indexed block moves the block cursor and adds its rows, and its balances are folded exactly when the projection stood one block behind |
| FollowerModel.RunInv | indexer/balances.go:280-411 | every run of loads, seeds, inline folds, catch-ups, skips and restarts keeps: cursors ordered, the cache equal to the database, the table exact, transfer rows once a block |
| FollowerModel.UnflaggedTableIsExact | indexer/balances.go:280-411 | once seeded and while the partial flag is unset, the table is genesis plus every event of blocks 1..balances_height, each once, and its total is genesis plus received minus spent; balances_height never exceeds chain_height |
| FollowerModel.NoSilentSkip | indexer/balances.go:367-411 | a step moves the projection cursor only by folding the next block, or with the partial flag already set; the flags and the chain cursor never go back |
| FollowerModel.IndexedOnce | indexer/chain.go:139-257 | across restarts the next height lies above every indexed block, and each indexed block's transfer rows are there exactly once although they have no unique key |
| FollowerModel.FoldExact | indexer/balances.go:345-360 | folding one more block keeps the table equal to genesis plus the folded blocks |
| Follower.CollectTransfers | indexer/chain.go:166-231 | the loops over transactions and events collect the block's transfer rows in order, failed transactions giving none |
| BalanceMeaning.TransferEventRows | indexer/chain.go:208-229 | a transfer event with both parties gives one row from its sender to its recipient for each uhash coin below 2^64, in order |
| BalanceMeaning.NoTransferRows | indexer/chain.go:208-215 | other events, and transfers without a sender or a recipient, give no row |
| BalanceMeaning.BlockTransferRows | indexer/chain.go:166-231 | a block's rows are those of the events of its transactions that have a hash and a result of code zero, under that hash |
| Follower.Ingester.LoadBalanceState | indexer/balances.go:280-294 | the cached cursors are read once and then equal the persisted ones; a failure changes nothing |
| Follower.Ingester.SeedBalances | indexer/balances.go:297-340 | seeding happens once, in one transaction, and leaves exactly the seeded state; a failure leaves the database as it was |
| Follower.Ingester.ApplyBalancesTx | indexer/balances.go:345-360 | the table inside the transaction becomes the table after the block |
| Follower.Ingester.IndexBlock | indexer/chain.go:139-257 | on success the block and its rows are stored and the block is folded exactly when the loaded projection is one behind; on failure the database is untouched |
| Follower.Ingester.SkipUnavailable | indexer/balances.go:378-395 | both cursors move just below the first block held and no balance changes, never before the partial flag is stored; a failure changes at most the flag |
| Follower.Ingester.FoldNext | indexer/balances.go:396-408 | the next block is folded into the table and both cursors move to it, in one transaction |
| Follower.Ingester.CatchUpOnce | indexer/balances.go:375-409 | one turn of the catch-up loop folds exactly the next block, or skips to the first block held with the flag set, or fails with at most the flag changed |
| Follower.Ingester.CatchUpBalances | indexer/balances.go:367-411 | the chain is left alone and the cursor never goes back; without failures it ends exactly at the indexed height or the limit further on |
| Follower.Ingester.UpdateSupplyStat | indexer/balances.go:413-422 | records the table's total at the projection's height, and nothing else changes |
| Follower.Ingester.IndexBatch | indexer/chain.go:337-342 | the block loop of a poll never passes the tip, never touches the partial flag, and without failures gets further when a block is there |
| Follower.Ingester.StepProjections | indexer/chain.go:349-361 | without failures the projection reaches the indexed height or its batch limit, and a caught-up projection records its supply |
| Follower.Ingester.Step | indexer/chain.go:305-344 | one poll keeps the run going under any failure; without failures it strictly reduces the distance of both cursors to the tip |
| Follower.Ingester.FollowTo | indexer/chain.go:279-344 | without failures repeated polls end with both cursors at the tip, the index seeded, and an unflagged table equal, at every address and in total, to genesis plus every event up to it |
| Registry.Pager.HandOver | indexer/chain.go:441-449 | a page is handed over item by item, up to the first callback failure |
| Registry.Pager.Paginate | indexer/chain.go:418-465 | whenever it returns nil every item of the listing has been handed over since the cursor was last empty; interrupted calls keep what was done; a persisted cursor that is refused is cleared; without failures it ends or stops at the page bound further on |
| Registry.Pager.SyncUntilDone | indexer/chain.go:393-465 | without failures repeated calls hand over a listing of any number of pages |
| Validators.RefreshIsExact | indexer/validators.go:62-109 | after upsert and prune the operators are exactly those of the listing if and only if every row not listed was stamped below the refresh height |
| Validators.RefreshKeepsLast | indexer/validators.go:85-95 | a listed operator's row is its last entry in the listing |
| Validators.ValidatorSync.SyncValidators | indexer/validators.go:62-109 | a refresh leaves exactly the operators of the complete listing just read, or changes nothing |
| Validators.ValidatorSync.RefreshIfDue | indexer/chain.go:362-373 | a refresh happens only when none has happened or the configured number of blocks (50 by default) has passed, and without failures it then does; across polls and restarts no row is stamped above the last refresh, so every refresh that succeeds is exact |
| Validators.RestColumns | indexer/validators.go:38-58 | an entry with an operator and a printed amount of tokens becomes a row of its own fields, the status in short form |
| Validators.RestDropped | indexer/validators.go:38-46 | an entry without an operator, without tokens, or with a negative amount is dropped |
| Validators.BondStatuses | indexer/validators.go:20-23 | the chain's bond statuses are stored as bonded, unbonding and unbonded |
| Validators.CollectRows | indexer/validators.go:35-76 | rows the gateway renders without an operator or with bad tokens are dropped |
| Validators.UpsertRows | indexer/validators.go:85-95 | the upserts of a refresh, in listing order |
| Bech32.Polymod | indexer/accounts.go:97-109 | the `uint32` loop keeps the packed register of the BCH polynomial over GF(32) |
| Bech32.ComputeHrpExpand | indexer/accounts.go:111-121 | the result holds the high three bits of each character, a zero, then the low five bits of each, at their indices |
| Bech32.EmptyVector | indexer/accounts.go:123-132 | the checksum of the prefix "a" without data is 10, 28, 25, 31, 20, 31: the symbols of the BIP-173 vector A12UEL5L |
| Bech32.ComputeChecksum | indexer/accounts.go:123-132 | the six symbols are those of the checksum polynomial |
| Bech32.PolymodLinear | indexer/accounts.go:97-109 | the polynomial of a sum of strings is the sum of the polynomials |
| Bech32.StepInjective | indexer/accounts.go:97-109 | one step is injective on 30-bit registers, whatever symbol enters |
| Bech32.ChecksumVerifies | indexer/accounts.go:123-132 | for every prefix and data the polynomial over prefix, data and checksum is one |
| Bech32.ChecksumUnique | indexer/accounts.go:123-132 | no other six symbols verify |
| Bech32.PolymodDetectsBurst | indexer/accounts.go:97-109 | two strings of one length that differ only inside six consecutive symbols have different polynomials, at any length |
| Bech32.ChecksumDetectsBurst | indexer/accounts.go:123-132 | data parts that differ in a burst of at most six symbols, one symbol included, get different checksums |
| Bech32.CodewordDetectsBurst | indexer/accounts.go:123-132 | a codeword altered in one burst, its checksum included, no longer verifies |
| Regroup.ConvertBits8to5 | indexer/accounts.go:135-151 | ceil(8n/5) symbols holding the input's bits followed by zero padding, although the accumulator wraps |
| Regroup.Absorb | indexer/accounts.go:140-146 | shifting a byte in appends its bits to the pending ones whatever leaves at the top |
| Regroup.Emit | indexer/accounts.go:140-146 | taking the top five pending bits leaves the others pending |
| Regroup.RegroupRoundTrip | indexer/accounts.go:135-151 | regrouping the symbols returns the input, for every byte string |
| Address.Encode | indexer/accounts.go:154-168 | lower-cased prefix, separator, data symbols and their checksum in the alphabet |
| Address.EmptyVectorText | indexer/accounts.go:154-168 | the BIP-173 vector "a12uel5l" is what the prefix "a" without data renders as |
| Address.EncodeRoundTrip | indexer/accounts.go:154-168 | a reader that checks the checksum recovers prefix and data |
| Address.EncodeInjective | indexer/accounts.go:154-168 | one text never stands for two byte strings or two lower-case prefixes |
| Address.AddressShape | node/hashgram-app/src/ids.rs:95-102 | under the prefix "hash" the rendered text passes `is_address` exactly for 17 to 49 data bytes |
| Canonical.Buf.Bytes | app/canonical/encode.go:70-87 | appends a length-prefixed field, or records the first oversize one for good |
| Canonical.Buf.Uint32 | app/canonical/encode.go:95-101 | appends four bytes, nothing after an error |
| Canonical.Buf.Uint64 | app/canonical/encode.go:104-110 | appends eight bytes, nothing after an error |
| Canonical.Buf.Enum | app/canonical/encode.go:119-123 | a signed enum is appended as its two's-complement word |
| Canonical.Buf.Height | app/canonical/encode.go:131-134 | a signed height is appended as its two's-complement word |
| Canonical.Buf.Len | app/canonical/encode.go:142-157 | a count is appended, a negative or oversize one is an error for good |
| Canonical.Buf.Finish | app/canonical/encode.go:160-165 | yields the preimage of all fields exactly when every one of them could be framed |
| Canonical.Fixed.Bytes | app/canonical/encode.go:214-218 | a 64-bit length, then the bytes |
| Canonical.Fixed.Count | app/canonical/encode.go:224-232 | a 64-bit count, a negative one clamped to zero |
| Canonical.Fixed.Bytes64Slice | app/canonical/encode.go:251-257 | a count, then each slice with its length |
| Canonical.ParseAllRoundTrip | app/canonical/encode.go:70-165 | fields of known kinds are read back, whatever follows them |
| Canonical.SliceListRoundTrip | app/canonical/encode.go:246-257 | a slice list cannot be re-framed: its bytes give back the slices, their number included, and what follows |
| Signing.BuildPreimage | app/params/network.go:295-303 | the builder computes magic, framed domain, framed payload |
| Signing.PreimageRoundTrip | app/params/network.go:277-303 | the signed bytes give back magic, version, network id, purpose and payload, whatever follows, even when the network id holds slashes |
| Signing.PreimageInjective | app/params/network.go:277-303 | injective and prefix-free jointly in all five ingredients, for every slash-free purpose |
| Signing.DomainsSeparate | app/params/network.go:247-303 | no signed string of one declared purpose or network is, or begins, one of another |
| Signing.PurposesDistinct | app/params/network.go:247-267 | the declared purposes have distinct names |
| Signing.SlashedPurposeCollides | app/params/network.go:277-285 | a purpose with a slash would collide with a longer network id |
| Signing.PeersSignAlike | app/params/network.go:177-200 | peers accepted by `VerifyPeer` build identical preimages for every purpose and payload |
| Signing.AcceptedIff | app/params/network.go:177-200 | a peer is accepted exactly when this node has a genesis hash and the peer shares its network id, chain id, magic, version and, up to ASCII case, genesis hash |
| Signing.PeersFormNetwork | app/params/network.go:177-200 | acceptance is mutual and transitive, and an identity without genesis hash is accepted by nobody |
| Payloads.EventPayloadBytes | indexer/social.go:70-94 | the builder loop yields the preimage of every field but id and signature, in tag order |
| Payloads.EventRoundTrip | indexer/social.go:70-94 | the payload bytes give back every field, the media list of any length included |
| Payloads.EventPayloadInjective | indexer/social.go:70-94 | two events have the same payload bytes exactly when they are equal apart from id and signature |
| Payloads.EventFinishes | indexer/social.go:70-94 | the payload can be built exactly when every length and the media count are within MaxFieldBytes |
| Payloads.AttestationPayload | safety/attest.go:28-41 | the builder yields the preimage of every field but the signature |
| Payloads.AttestationFinishes | safety/attest.go:28-41 | the payload can be built exactly when every length is within MaxFieldBytes |
| Payloads.AttestationRoundTrip | safety/attest.go:28-41 | the payload bytes give back every field, the signed verdict included |
| Payloads.AttestationPayloadInjective | safety/attest.go:28-41 | two attestations have the same payload bytes exactly when they are equal apart from the signature |
| Payloads.SignedEventUnique | indexer/social.go:99-119 | the signed string of an event names its network and its contents |
| Payloads.EventIdNamesContents | indexer/social.go:96-119 | two verified events have one id exactly when they have the same contents, barring a hash collision |
| WireLayout.FieldLayout | app/canonical/encode.go:70-157 | a slice follows its length in four big-endian bytes, a word and a count take four such bytes, a long word eight |
| WireLayout.EventLayout | indexer/social.go:70-94 | the signed payload of an event is the concatenation of its fields in tag order, each media item in full after the count |
| WireLayout.AttestationLayout | safety/attest.go:28-41 | the signed payload of an attestation is the concatenation of its fields in tag order, the verdict in two's complement |
| WireLayout.DomainText | app/params/network.go:277-279 | a domain is the text "hashgram/v", the version, "/", the network id, "/", the purpose |
| WireLayout.SignedLayout | app/params/network.go:281-303 | the signed string is the four magic bytes, then domain and payload, each after its length in eight big-endian bytes, and nothing more |
| WireLayout.EventSigned | indexer/social.go:99-110 | what an event's id is the hash of is the signed string of purpose "social-event" over that layout |
| Registers.Winner | indexer/social.go:331-340 | after any arrivals each key holds its latest-applied entry of maximal timestamp |
| Registers.OrderIrrelevantIff | indexer/social.go:331-340 | every order of arrival builds one table exactly when the latest entries of each key agree |
| Registers.DistinctStampsAgree | indexer/social.go:331-340 | distinct timestamps per key are enough for that |
| Registers.SameEntries | indexer/social.go:331-340 | arrivals of the same entries, repeated or reordered, build one table when the latest agree |
| Social.Lower | indexer/social.go:403-409 | each hashtag loses one leading '#' and is lower-cased, in order |
| Social.ExactlyOnce | indexer/social.go:276-328 | after any deliveries with any failures the tables are those built from the distinct applied events in first-applied order, each once |
| Social.FirstAppliedDistinct | indexer/social.go:318-328 | no id is applied twice |
| Social.FirstAppliedFrom | indexer/social.go:276-328 | only delivered, acceptable events are applied |
| Social.FirstAppliedCovers | indexer/social.go:276-328 | every acceptable event delivered has its id applied |
| Social.Redelivery | indexer/social.go:318-328 | events under ids already delivered, in any order and number, change no table |
| Social.InterruptedBatch | indexer/social.go:208-244 | a batch cut off anywhere and delivered again whole leaves what one whole delivery leaves |
| SocialTables.BuiltCovered | indexer/social.go:318-396 | every row keyed by an event id belongs to a recorded event, so no such insert meets an existing row |
| SocialTables.BuiltProfiles | indexer/social.go:331-340 | the profiles table is the register of the profile updates applied |
| SocialTables.ProfileIsLatest | indexer/social.go:331-340 | an author's profile is the latest-applied update of maximal timestamp, after saturation to int64 |
| SocialTables.ProfilesOrderFree | indexer/social.go:331-340 | the same events in another order, with other repetitions and under other signatures, give the same profiles, as long as no latest updates of one author disagree |
| SocialTables.VerifiedOneEventPerId | indexer/social.go:96-119 | verified events of one id are one event up to the signature, barring a hash collision |
| SocialTables.PostOrigin | indexer/social.go:347-361 | every post row was created by the applied event of its id and keeps its author, time, mentions, channel, reply target, language and media |
| SocialTables.PostsOnlyByAuthor | indexer/social.go:352-361 | no delivery removes a post, revives a deleted one, or lets another author change it |
| SocialMeaning.FollowIsLatest | indexer/social.go:341-346 | an account follows another exactly when the last event applied about the pair is a follow, with that event's time |
| SocialMeaning.ReactionIsLatest | indexer/social.go:366-374 | an author's reaction to a target is the one in the last event applied about it, an empty one removing it |
| SocialMeaning.PostTextIsLatest | indexer/social.go:347-361 | a post's row holds the text that its creation, or its author's last edit or deletion, said |
| SocialMeaning.PostDeletedIff | indexer/social.go:357-361 | a post is marked deleted exactly when its author deleted it after it was there |
| SocialDeletion.EditRewritesDeleted | indexer/social.go:352-361 | a post created, deleted and edited by one author, in that order, is marked deleted and holds the text of the edit |
| SocialDeletion.DeliveryKeepsBlankIff | indexer/social.go:352-361 | a delivery keeps every deleted post's text empty exactly when it is a redelivery or not a text-bearing edit, by the author, of a post marked deleted |
| SocialDeletion.DeletedTextIff | indexer/social.go:352-361 | over any applied events a deleted post's row holds a text exactly when the last event about it is an edit with a text by its author, a deletion by the author coming before it |
| SocialRows.AppliedPostsStay | indexer/social.go:347-361 | once a post's creation is applied its row is there for good, with everything that the creation fixed |
| SocialRows.ReelDeletedIff | indexer/social.go:357-361 | a reel is marked deleted exactly when its author deleted it after it was there |
| SocialRows.ReelsOnlyByAuthor | indexer/social.go:357-361 | no delivery removes a reel or revives a deleted one, and events of other authors leave its row equal |
| SocialColumns.MediaColumns | indexer/social.go:256-273 | a stored media reference keeps every field but the content hash, identifiers in hexadecimal |
| SocialColumns.TagColumns | indexer/social.go:403-409 | the i-th stored tag is the i-th hashtag lower-cased, without one leading '#' |
| SocialColumns.ProfileColumns | indexer/social.go:331-340 | a profile row is, column by column, an applied update of its author whose time no other applied update of that author exceeds |
| SocialColumns.PostRevisionIsLatest | indexer/social.go:347-356 | a post has the hashtags and edit time of its author's last edit, or of its creation when there was none |
| SocialColumns.AcceptableIff | indexer/social.go:285-391 | an event can be projected exactly when its payload decodes and a reel names one of its media, with duration and age below 2^31 |
| SocialRows.AppliedRowsStay | indexer/social.go:318-396 | the event row and the comment, repost, channel, reel or story row of every applied event is there with that event's contents, whatever else was delivered |
| SocialIngester.Ingester.Apply | indexer/social.go:276-401 | one transaction: applied as a whole, a no-op for a known id, or nothing; without failures an event that can be projected is applied |
| SocialIngester.AcceptedAuthentic | indexer/social.go:96-119 | the events taken from a page are exactly those of this network whose id is the hash of their signed string, with a 32-byte device key whose signature of that string verifies |
| SocialIngester.Ingester.TakePage | indexer/social.go:222-237 | every event added to the history is authentic in that sense, and on success every authentic event of the page has been added; a failure stops at a prefix |
| SocialIngester.Ingester.Step | indexer/social.go:208-244 | only authentic events are added, and on success all of the page; the cursor moves only after that, to the time and id of the last authentic event; a failure anywhere keeps it; without failures a page of projectable events succeeds |
| SocialIngester.Ingester.EachEventOnce | indexer/social.go:276-328 | in every state of the ingester the tables are those of the distinct applied events, each once |
| SocialIngester.CrashedPollRecovers | indexer/social.go:208-244 | a poll cut off after any prefix of its page, then repeated, leaves what an uninterrupted poll leaves |
| Attestations.RowMeaning | indexer/social.go:443-452 | a row holds the verdict of the latest arrival of maximal timestamp, and the kind of the first arrival |
| Attestations.LatestRowIff | indexer/social.go:443-452 | the row is the latest arrival in every column exactly when that arrival has the first one's kind |
| Attestations.StaleKind | indexer/social.go:447-449 | a subject attested as "cid" and later as "event" by one attestor is stored with everything of the later view but its kind, which stays "cid" |
| Attestations.OrderIrrelevant | indexer/social.go:443-452 | every order of arrival builds one table exactly when the latest verdicts of each key agree and each key has one kind |
| Attestations.Ingester.SyncAttestations | indexer/social.go:433-457 | one batch applies every view in listing order, column by column, trusted exactly when its attestor is configured in any letter case, or applies nothing |
| Attestations.Ingester.RunBatch | indexer/social.go:443-456 | the queued statements in order amount to the register update |
| CircleInvariant.ReachableInv | node/hashgram-app/src/circle.rs:142-264 | every reachable timeline has distinct item ids, all seen, at most 50,000 items, and caches that agree with the per-author maps |
| CircleInvariant.ReachableReactionCounts | node/hashgram-app/src/circle.rs:181-200 | an item's cached count of a reaction is the number of authors holding it, the key present exactly when that is positive |
| CircleInvariant.ReactionWithdrawalExact | node/hashgram-app/src/circle.rs:184-192 | in every reachable timeline a stored reaction is counted, and withdrawing it takes exactly one off, the key going with the last: `saturating_sub` never saturates |
| CircleInvariant.ReachableVoteCounts | node/hashgram-app/src/circle.rs:201-241 | a poll's cached count of an option is the number of stored ballots with it; ballots are strictly increasing, in range, and single when the poll is |
| CircleInvariant.BallotWithdrawalExact | node/hashgram-app/src/circle.rs:219-225 | in every reachable timeline a stored ballot names only counted options, and withdrawing it takes exactly one off each: `saturating_sub` never saturates |
| CircleMeaning.LateVoteIgnored | node/hashgram-app/src/circle.rs:216-218 | a vote whose time exceeds the non-zero closing time of its poll changes nothing but the seen ids |
| CircleMeaning.VoteStored | node/hashgram-app/src/circle.rs:201-241 | any other vote on a held poll stores its author's ballot: the options asked for that exist when several are allowed, the smallest of them otherwise; only that ballot and that item's counts change |
| CircleMeaning.StrayVoteIgnored | node/hashgram-app/src/circle.rs:204-213 | a vote on anything but a held post with a poll changes nothing but the seen ids |
| CircleMeaning.ReactionStored | node/hashgram-app/src/circle.rs:181-200 | after a reaction its author stands behind exactly that string on a held target, and behind none when it is empty or the target gone; only the target's counts change |
| CircleMeaning.ItemPushed | node/hashgram-app/src/circle.rs:151-180 | a post or comment becomes the newest item, with each field of the event in its place and nothing counted yet |
| CircleMeaning.DeletionBlanks | node/hashgram-app/src/circle.rs:242-252 | a deletion blanks text, media and drive references of its author's own item and marks it; every other item, and every other field, stays |
| CircleMeaning.InfoReplaced | node/hashgram-app/src/circle.rs:150 | circle information is replaced as a whole and nothing else changes |
| CircleMeaning.ValidHeader | node/hashgram-app/src/circle.rs:29-31 | a valid event has version 1, a 16-byte id and a known body |
| CircleMeaning.ValidPost | node/hashgram-app/src/circle.rs:37-61 | the exact bounds of a post and its poll |
| CircleMeaning.ValidOthers | node/hashgram-app/src/circle.rs:33-79 | the exact bounds of every other kind of event |
| CircleInvariant.FreshItemOk | node/hashgram-app/src/circle.rs:142-147 | an id never seen has no leftover reactions or ballots, so a pushed item starts consistent |
| CircleOrder.FoldedExactlyOnce | node/hashgram-app/src/circle.rs:142-147 | folding every delivery is folding the valid events at the first appearance of their id, invalid ones changing nothing |
| CircleOrder.FirstDeliveriesDistinct | node/hashgram-app/src/circle.rs:142-147 | no two deliveries kept carry one id |
| CircleOrder.FirstDeliveriesIds | node/hashgram-app/src/circle.rs:142-147 | no valid id is lost |
| CircleOrder.SeenIsValidIds | node/hashgram-app/src/circle.rs:142-147 | the seen set is the set of ids of the valid events delivered |
| CircleOrder.TimelineHoldsNewest | node/hashgram-app/src/circle.rs:258-264 | the timeline holds the newest 50,000 posts and comments by first arrival, in arrival order |
| CircleOrder.CountersCommute | node/hashgram-app/src/circle.rs:181-241 | from any reachable timeline two valid reactions or votes of different authors give one whole state in both orders, zero-count keys included |
| CircleTimeline.ChooseOptions | node/hashgram-app/src/circle.rs:226-236 | filter, sort, dedup and truncate give the ascending options in range, at most one for a single-choice poll |
| CircleTimeline.Timeline.Push | node/hashgram-app/src/circle.rs:258-264 | appends, and evicts the oldest items beyond the bound |
| CircleTimeline.Timeline.React | node/hashgram-app/src/circle.rs:181-200 | withdraws the author's earlier reaction and counts the new one |
| CircleTimeline.Timeline.Vote | node/hashgram-app/src/circle.rs:201-241 | replaces the author's ballot on an open poll |
| CircleTimeline.Timeline.Delete | node/hashgram-app/src/circle.rs:242-252 | an author's own item becomes an empty tombstone |
| CircleTimeline.Timeline.Apply | node/hashgram-app/src/circle.rs:142-256 | errors exactly on invalid events, and otherwise takes the state to the model's next state |
| CircleViews.BelowIff | node/hashgram-app/src/circle.rs:275-289 | one id is below another exactly when it is smaller at the first difference or a proper prefix |
| CircleViews.OrderedUnique | node/hashgram-app/src/circle.rs:275-289 | items of distinct ids have exactly one listing under the time-then-id order |
| CircleViews.ListingArrivalFree | node/hashgram-app/src/circle.rs:268-294 | a listing depends only on which items the timeline holds, not on their arrival order |
| CircleViews.ReachablePosts | node/hashgram-app/src/circle.rs:268-280 | in every reachable timeline a page of posts is strictly newest first, the greater id first among equal times, and holds the newest of those before the given time, up to the limit |
| CircleViews.ReachableComments | node/hashgram-app/src/circle.rs:282-294 | the comments of a post are all of them, strictly oldest first, the smaller id first among equal times |

## Left out

* HTTP, JSON, PostgreSQL text and the read API: only what the upserts, deletes and cursor writes do to tables is modelled.
* SHA-256, BLAKE3, ed25519, randomness and clocks: parameters or left out.
* Cosmos SDK wiring, generated protobuf code, genesis construction, token constants, operator tools, desktop UI, fuzz targets: no hard property in them.
* Safety pipeline stages, the engine loop, `safety/attest.go` `Sign` and `Verify`: checks around the modelled payload and preimage.
* `parseGenesisBalances` and `sumUhash`: the follower starts from the parsed genesis list.
* The transactions, messages and chain_latest rows of `IndexBlock`: keyed upserts beside the transfer rows; only blocks, transfers and balances are in the modelled database.
* Each transaction's statement failures are one fault point before its commit: a statement that fails rolls all of them back.
* The validator refresh that ends a follower's poll is its own object (`Validators.ValidatorSync`); it shares no table with the balances.
* `sortedAddrs`: `Balances.UpsertDeltas` is proved for every order instead.
* `SyncRegistries` callers of `paginate` other than the validators: plain upserts of each item.
* Circle counters are unbounded naturals: a `u32` would need 2^32 authors on one item.
* Strings are their bytes, one `char` each; `ToLower`, `EqualFold` and `TrimSpace` are those of ASCII text.
* Text with a zero byte, which PostgreSQL refuses: not distinguished from other text.
* `received_at`, a clock value, and the JSON rendering of payload and media columns: the decoded values are stored.
* Progress of the social follower when an accepted event cannot be projected, or when a whole page is refused: the cursor then stays, so only safety is claimed.
* Order-independence of circle posts, comments and deletes relative to reactions and votes: a reaction or vote that arrives before its target is dropped by design.
- Regroup.ConvertBits8to5: shift distances are written out one place at a time (`ShiftRight`, `ShiftLeft`), because a shift by a variable distance is not a fixed bit-vector term; the bits are the same.
- CircleViews.ReachablePosts: the library's stable sort is modelled as a stable insertion, since the source calls it and does not write it.
- Follower.Ingester.FollowTo: the fixed tip is at or above the configured first height, as progress needs.
