# Wavvon hub and farm: a verified model

Wavvon is a self-hosted chat system. A *hub* is one community's server; a *farm* runs
many hubs, on its own machine or through agents; the *identity* crate holds the wire
formats they share with clients. This project models the parts of the three where a
wrong branch loses data, forges a meaning or breaks a promise quietly, and proves what
they keep.

| module | what it models |
|---|---|
| `AttachmentDb`, `AttachmentRuns`, `AttachmentStore` | message attachments: tables, files, SQL statements as steps, runs of them, and the operations under the store lock |
| `WebpContainer`, `CanonicalImage`, `AnimationWriter`, `AnimationReader`, `CanonicalFixpoint`, `DotCodec` | the WebP chunk filter, the animation writer and a reader for it, the image pipeline (RFC 9649, sections 2.3, 2.4, 2.7 and 2.7.1.1) |
| `WireFields`, `KeySort`, `WireEnvelopes`, `WireEncoders` | the bytes nineteen kinds of envelope are signed over, with a decoder |
| `Permissions` | channel overwrites folded along the ancestor chain, and both resolvers |
| `RateLimiter`, `SlowRefill`, `Conformance` | the token bucket per address, its clean-up, and who is never refused |
| `DmMessages`, `Outbox`, `DmRuns`, `DmFailures`, `DmSettlement`, `DmStarvation` | stored direct messages, the retry worker, and their runs with request handlers and background sends |
| `Placement`, `PlacementRaces`, `HubPorts`, `PortPicks`, `Supervision`, `ResponseHead` | the farm: where hubs go, their ports, their restarts, the proxy's head reader |
| `VoiceLoss` | voice packet layout and loss measurement |
| `Bytes`, `SqlOrder`, `Basics` | bytes and fixed-width integers; `ORDER BY`; small shared notions |

How it is built. Code that changes things in place is a class or a method with loops,
and its `ensures` ties it to a function of the old state; the lemmas then prove what
that function means over all inputs and runs. SQL statements are atomic updates on maps
with the row counts the code tests. Codecs, ciphers and SHA-256 are parameters: what is
asked of them is a named predicate (`CanonicalFixpoint.Sound`, `VoiceLoss.Opens`) or, for
the blob key, a `requires` that equal keys mean equal bytes, only where a lemma needs it.
`DotCodec` is a codec of single-pixel images that meets all of `Sound`, so that the
assumptions are known to hold together.

## What holds only under a condition, and exactly which

- **Recipient order of a sender-key distribution.** The comment says the bytes do not
  depend on the order of submission. They do when one pubkey is listed twice
  (`KeySort.OrderMattersForEqualKeys`); they agree exactly when each pubkey's keys come
  in the same order in both (`WireEnvelopes.RecipientOrder`).
- **A live banner stays live.** Pinning takes no lock. A row pinned while an eviction in
  progress already holds its bytes can still be expired (`AttachmentRuns.PinnedTooLate`,
  in a state `AttachmentRuns.BannerRace` exhibits); pinned in any other state it is safe
  in every run (`AttachmentRuns.BannerStaysIff`).
- **A channel is one level over its parent.** Exactly while the parent's walk ends within
  the 64-hop cap, or its topmost channel comes again on the child's own walk, as in a
  cycle of at most 65 channels (`Permissions.ChildIsOneLevelIff`). On a longer line it
  fails (`Permissions.DeepChildDiffers`).
- **The limiter's clean-up is invisible.** Exactly for configurations with
  600 * refill >= burst (`SlowRefill.CleanupIsInvisibleIff`). The built-in three satisfy
  it; the environment can override the first with one that does not.
- **Nobody who keeps to the rate is refused.** For configurations that refill within the
  idle time, every request of a new address is allowed exactly when no stretch of the run
  holds more of its requests than burst + refill * elapsed (`Conformance.AllAllowedIff`).
- **Ports stay apart.** While operations run one after another on the farm itself, always
  (`HubPorts.RunKeepsPortsApart`). When picking and writing are apart, as for concurrent
  requests and for hubs on agents, exactly when every confirmation finds its ports unheld
  (`PortPicks.PortsStayApartIff`), so whenever one hub at a time has ports pending
  (`PortPicks.OneAtATimeKeepsApart`); overlapping picks always collide
  (`PortPicks.OverlappingPicksCollide`).
- **Caps hold.** Always for placements counted at once (`Placement.CapsHold`). But a new
  row has no server yet and counts on the farm's own node until it is assigned, so caps
  hold exactly when every row inserted finds the own node with room and every row assigned
  finds its node with room (`PlacementRaces.CapsHoldIff`). One request at a time, that is
  exactly when the own node has room whenever a row bound for an agent is inserted
  (`PlacementRaces.OneAtATimeIff`); with the own node full a single such request overfills
  it, for good if the agent has gone (`PlacementRaces.FullOwnNodeOverfills`), and two
  requests for a last slot overfill theirs (`PlacementRaces.LastSlotTakenTwice`).
- **How a stream is cut does not matter to the head reader.** Exactly for heads of up to
  65,537 bytes, which are always read, and of more than 66,048, which never are
  (`ResponseHead.CutsMatterIff`).
- **Equal signing bytes mean equal contents.** Exactly while strings and lists are held
  below 2^32 entries (`WireEnvelopes.LengthLimitIff`).
- **One bad message cannot hold the outbox.** True in every reachable state
  (`DmRuns.NoRowStallsTheQueue`), because no statement deletes a conversation or a
  message. The worker itself relies on that: over arbitrary tables its rows are
  independent exactly when no row that could be handled follows one whose message has
  lost its conversation (`Outbox.RowsAreIndependentIff`), and such a row, returned first,
  would stall the queue (`Outbox.OneRowStallsTheQueue`); no foreign key excludes it.
- **A message to a hub fails at most eight times.** The first sends run in the background,
  without a time limit and without the worker knowing: one for each member who takes
  delivery on that hub, all for one row of the queue. Each that fails sets the attempts
  back to one. With m of them in flight or still to be started a fresh row can fail
  8 + 7m times (`DmFailures.FreshBudget`), and how often it can still fail is exact at every moment
  (`DmFailures.FailuresBounded`, `DmFailures.BudgetIsReached`). When a send fails, the row
  stays within eight exactly when this is its first failure, the worker does not have it
  in hand, and no other send of it is open (`DmFailures.EightFailuresIff`).
- **A bounced row is final.** Exactly when no background send of it is in flight or still to
  be started (`DmFailures.BouncedIsFinalIff`).
- **Every message is delivered or bounced in time.** With nothing new arriving and no
  further send started, always (`DmSettlement.QueueDrains`). One row of a live queue is,
  within 8 + 7m longest waits, as long as no more than a hundred rows are due whenever a
  pass finds it due (`DmSettlement.RowSettlesInTime`): exactly then is it in every answer
  the query may give (`Outbox.TakenByEveryBatchIff`), and otherwise it can wait for as many
  passes as one likes (`DmStarvation.DueRowCanStarve`), since the query has no ORDER BY.
  Each restart of the process can cost one wait more.

## Model

| member | source | states |
|---|---|---|
| AttachmentRuns.RunKeepsInv | crates/hub/src/attachments.rs:556-654 | in every interleaving, statement by statement, of the locked operations with `link`, banner changes and message deletion: a live row's blob row and file exist, every digest names a blob row, files hold the bytes their key names, a row has one owner |
| AttachmentRuns.LiveRowsAreServed | crates/hub/src/attachments.rs:824-854 | a reader gets bytes exactly for live rows, shown inline exactly for images not sent as files; "removed" exactly for removed rows, "expired" exactly for the other tombstones, "not found" exactly for unknown ids; and the bytes hash to the row's key |
| AttachmentRuns.SameBytesServed | crates/hub/src/attachments.rs:824-854 | while a row is served it is served the same bytes, whatever was evicted and uploaded in between |
| AttachmentRuns.TombstonesStay | crates/hub/src/attachments.rs:379-409 | a row shown removed or expired is never shown ok again, even when the same bytes come back; removed stays removed |
| AttachmentRuns.RunFollows | crates/hub/src/attachments.rs:502-540 | over any run a row never changes owner or place once linked, never loses a tombstone, never gets another digest |
| AttachmentRuns.LinkSucceedsIff | crates/hub/src/attachments.rs:502-540 | the link transaction succeeds exactly when all ids are live, unlinked and distinct; otherwise it changes nothing |
| AttachmentRuns.LinkCarries | crates/hub/src/attachments.rs:502-540 | after a link the owner's attachments are exactly the ids sent, each at its index |
| AttachmentRuns.CarriesLoads | crates/hub/src/attachments.rs:413-441 | `ORDER BY position` then returns them in the order sent |
| AttachmentRuns.LoadsInOrderSent | crates/hub/src/attachments.rs:413-441 | and still does after any later run that does not touch that owner |
| AttachmentRuns.BannerStaysIff | crates/hub/src/attachments.rs:586-654 | a row that is a live banner now stays live through every interleaving that neither unpins it nor takes it away by intent, exactly when the eviction in progress, if any, does not hold its bytes |
| AttachmentRuns.BannerIsSafe | crates/hub/src/attachments.rs:586-654 | in particular the query's filter, asked again before every batch, protects every banner pinned in time, linked or not, and its bytes stay the same |
| AttachmentRuns.PinnedTooLate | crates/hub/src/attachments.rs:616-640 | whenever the query returns the bytes of a live row, pinning it before the UPDATE comes too late (the pin: crates/hub/src/routes/channels.rs:448-462) |
| AttachmentRuns.BannerRace | crates/hub/src/attachments.rs:614-640 | such a state exists for every image, idle and with nothing in progress |
| AttachmentStore.Store.DropUnused | crates/hub/src/attachments.rs:585-610 | the rows without owner, a day old and no channel's banner go, and exactly the blobs and files that no other live row names; no live row changes; freed bytes are exactly the drop in use; banners stay, invariant kept |
| AttachmentStore.Store.EvictOldest | crates/hub/src/attachments.rs:614-654 | whatever the batches: no blob goes while one linked earlier (or at the same time with the smaller digest) that is no banner's stays; at least `want` bytes go or only banners' blobs are left; the youngest to go was still needed; rows of the blobs gone expire and lose their digest, all else stays; returns exactly the drop in use; counts the evictions |
| AttachmentStore.RequeryIsSuffix | crates/hub/src/attachments.rs:616-632 | after a prefix is evicted, asking again returns the rest of the same order |
| AttachmentStore.VictimsAreOldest | crates/hub/src/attachments.rs:617-624 | the eviction order in terms of the blobs: what goes is no banner's, and everything linked earlier that is no banner's goes too |
| AttachmentStore.NoMoreThanNeeded | crates/hub/src/attachments.rs:614-654 | enough is freed or only banners are left, and without the blob linked last among those that went it was not enough |
| AttachmentStore.RoomTakesOldest | crates/hub/src/attachments.rs:656-670 | through both stages of making room: no blob a live row wants goes while an older one that is no banner's stays |
| AttachmentStore.JustLinkedGoLast | crates/hub/src/attachments.rs:530-540 | the time of a link counts: the blobs of rows just linked are evicted only once every blob linked before that is no banner's has gone |
| AttachmentStore.EnoughIsUnique | crates/hub/src/attachments.rs:614-654 | there is one such shortest prefix |
| AttachmentStore.EvictionConserves | crates/hub/src/attachments.rs:614-654 | freed plus remaining bytes are what was used before |
| AttachmentStore.EvictedKeepsBanners | crates/hub/src/attachments.rs:612-632 | eviction under the lock changes no live banner row |
| AttachmentStore.DroppedKeepsBanners | crates/hub/src/attachments.rs:585-610 | nor does dropping unused blobs |
| AttachmentStore.RoomIsMade | crates/hub/src/attachments.rs:656-670 | afterwards the new bytes fit the cap or nothing evictable is left |
| AttachmentStore.EvictsOnlyIfNeeded | crates/hub/src/attachments.rs:659-670 | when dropping unwanted blobs suffices, every live linked row stays as it was |
| AttachmentStore.Store.EnsureRoom | crates/hub/src/attachments.rs:659-670 | the room is made exactly in that order: nothing, unwanted blobs, oldest blobs; oldest first among those still wanted |
| AttachmentStore.Store.Ingest | crates/hub/src/attachments.rs:729-812 | whole new state and outcome for every result of the two writes; stored means a live unlinked row of this upload whose blob and file are there; what it evicts is the oldest; invariant and banners kept |
| AttachmentStore.IngestRespectsCap | crates/hub/src/attachments.rs:656-670 | after storing a new blob the total is within the cap or every other blob left is a banner's |
| AttachmentStore.DuplicateIsStoredOnce | crates/hub/src/attachments.rs:729-795 | bytes already stored cost no file and no budget, change no other row, and the new row shows them, under its own name and with the kind, type and dimensions on record |
| AttachmentStore.Store.Remove | crates/hub/src/attachments.rs:868-881 | the row loses its digest and shows removed, at the time it was first removed; of the blobs exactly those stay that another live row names; other live rows and banners stay |
| AttachmentStore.Store.Sweep | crates/hub/src/attachments.rs:886-906 | exactly the live rows older than the retention that are no channel's banner expire, and only when there is a retention; orphans go, and exactly the blobs no live row names |
| AttachmentStore.Store.LinkIds | crates/hub/src/attachments.rs:502-540 | the row-by-row transaction is all or nothing, in any phase of the lock holder; the blobs of these rows, and no others, count as linked just now |
| WebpContainer.StripMetadata | crates/hub/src/sticker_image.rs:398-447 | the single pass equals parse, filter, print, `None` included |
| WebpContainer.StrippedIsCleanContainer | crates/hub/src/sticker_image.rs:394-447 | `Some` exactly on well-formed files; the output is well-formed, no longer, of correct RIFF size and without metadata chunks or flags |
| WebpContainer.StrippedIsIdentityIff | crates/hub/src/sticker_image.rs:394-441 | the output is byte-identical exactly when the file had nothing to drop |
| WebpContainer.StrippedTwice | crates/hub/src/sticker_image.rs:394-447 | stripping is idempotent |
| WebpContainer.CleanKeepsBytes | crates/hub/src/sticker_image.rs:422-438 | all other chunks stay in order, byte for byte but for the flag byte |
| WebpContainer.ClearFlagsTwice | crates/hub/src/sticker_image.rs:426-432 | exactly the three flag bits are cleared; doing so is idempotent, and the identity exactly without them |
| CanonicalImage.FitBounds | crates/hub/src/sticker_image.rs:202-211 | a picture in bounds keeps its size; a larger one gets its longer side to the bound and the other to the nearest whole number in proportion, at least 1; it never grows, and fitting again changes nothing |
| CanonicalImage.CollectFrames | crates/hub/src/sticker_image.rs:284-305 | all frames in order, each with the whole milliseconds of its delay and at least 20, or the first fault |
| CanonicalImage.Vp8lChunk | crates/hub/src/sticker_image.rs:331-344 | the scan over chunk headers, also of malformed input |
| AnimationReader.ScanMatchesParse | crates/hub/src/sticker_image.rs:331-344 | on a well-formed file the scan returns the first `VP8L` chunk, and fails exactly if there is none |
| CanonicalImage.MakeChunkIsChunk | crates/hub/src/sticker_image.rs:351-358 | a written chunk parses back to its tag, size and payload |
| CanonicalImage.EncodeAnimation | crates/hub/src/sticker_image.rs:362-392 | the growing buffer is the printed chunk list, or fails when a frame will not encode |
| AnimationReader.AnimationRoundTrip | crates/hub/src/sticker_image.rs:362-392 | an RFC 9649 reader gets back the canvas, the alpha flag, endless looping and every frame in order with delay, full canvas, flags and its own bitstream |
| AnimationWriter.AnmfIsClean | crates/hub/src/sticker_image.rs:374-385 | a frame chunk is well-formed, is no metadata, and holds the still's bitstream verbatim |
| AnimationWriter.AnimationIsClean | crates/hub/src/sticker_image.rs:362-392 | an animation within the limits stays below four gigabytes, is the chunks it was made of, and stripping returns it unchanged |
| CanonicalFixpoint.WrittenIsPlayable | crates/hub/src/sticker_image.rs:362-392 | what the encoder wrote reads as an animation every decoder must play: right canvas, full-canvas frames, bitstreams of that size |
| CanonicalFixpoint.CanonicalIsFixpoint | crates/hub/src/sticker_image.rs:127-200 | whatever WebP the pipeline made of any input, it makes the same bytes of that again, within the profile's bounds; of the decoder it is only asked to open files that read as playable animations |
| CanonicalFixpoint.CanonicalDepicts | crates/hub/src/sticker_image.rs:127-200 | what a picture becomes: a well-formed WebP in bounds its own bytes less the metadata; any other a new file in proportion, a JPEG or still of the first frame, or an animation that reads back as all the frames in order, each with its delay and the bitstream of its own scaled picture |
| CanonicalFixpoint.AcceptedIff | crates/hub/src/sticker_image.rs:127-200 | accepted are exactly files within the size limit, of one of the four formats, that open within the profile's sides, pixels and frames, and whose new encoding is within the limit unless none is needed |
| WireFields.GetFieldOfPut | crates/identity/src/wire.rs:7-25 | each field read back from what was written, whatever follows |
| WireFields.GetFieldsOfPut | crates/identity/src/wire.rs:7-25 | and each list of fields |
| WireEnvelopes.DecodeOfSigningBytes | crates/identity/src/wire.rs:44-662 | one decoder recovers every envelope of every kind, its strings and lists shorter than 2^32, from the bytes it is signed over |
| WireEnvelopes.SigningBytesInjective | crates/identity/src/wire.rs:44-662 | for such envelopes, equal bytes exactly for equal contents (recipients up to their sorted order), never for two kinds |
| WireEnvelopes.LengthLimitIff | crates/identity/src/wire.rs:7-25 | envelopes with strings and lists of at most `limit` entries sign injectively, up to recipient order, exactly when `limit` is below 2^32 |
| WireEnvelopes.LongStringsCollide | crates/identity/src/wire.rs:15-18 | two different records with a string of 2^32 zero bytes sign alike |
| WireEnvelopes.RecipientOrder | crates/identity/src/wire.rs:545-565 | two submissions sign alike exactly when each pubkey's keys come in the same order |
| KeySort.SortIsStable | crates/identity/src/wire.rs:558-563 | sorted by key, byte by byte, with equal keys in their order |
| KeySort.SortsAlikeIff | crates/identity/src/wire.rs:558-563 | two lists sort alike exactly when they agree key by key |
| KeySort.OrderDoesNotMatter | crates/identity/src/wire.rs:545-563 | with distinct pubkeys the order of submission does not matter |
| KeySort.OrderMattersForEqualKeys | crates/identity/src/wire.rs:545-563 | with a repeated pubkey it does |
| WireEncoders.HomeHubListBytes | crates/identity/src/wire.rs:44-57 | tag, master, list of hubs, issue time and sequence, in that order: the bytes the decoder reads back as this list |
| WireEncoders.SubkeyCertBytes | crates/identity/src/wire.rs:91-114 | tag, master, subkey, label, issue time, a flag byte and expiry if there is one, fallback hubs |
| WireEncoders.RevocationBytes | crates/identity/src/wire.rs:145-152 | tag, master, subkey, time of revocation |
| WireEncoders.PrefsBlobBytes | crates/identity/src/wire.rs:181-192 | tag, master, version, the 32-byte digest of the ciphertext |
| WireEncoders.PairingOfferBytes | crates/identity/src/wire.rs:224-239 | tag, master, hubs, token, issue and expiry times |
| WireEncoders.PairingClaimBytes | crates/identity/src/wire.rs:271-278 | tag, token, subkey, label |
| WireEncoders.DhKeyBytes | crates/identity/src/wire.rs:338-347 | tag, key, Diffie-Hellman key |
| WireEncoders.DmV1Bytes | crates/identity/src/wire.rs:358-370 | tag, conversation, ciphertext, nonce, Diffie-Hellman key |
| WireEncoders.DmV2Bytes | crates/identity/src/wire.rs:377-391 | tag, conversation, two 32-bit counters, ciphertext, Diffie-Hellman key |
| WireEncoders.GroupDmBytes | crates/identity/src/wire.rs:396-410 | tag, conversation, key version and iteration as decimal text, ciphertext, nonce |
| WireEncoders.AuthChallengeBytes | crates/identity/src/wire.rs:421-431 | tag and challenge; refused exactly when the challenge is not 32 bytes long |
| WireEncoders.WebhookDeliveryBytes | crates/identity/src/wire.rs:456-461 | tag, timestamp, then the body unprefixed to the end |
| WireEncoders.VoiceGrantBytes | crates/identity/src/wire.rs:494-498 | tag, then the payload unprefixed to the end |
| WireEncoders.FederatedDmBytes | crates/identity/src/wire.rs:513-523 | tag, conversation, its type, content |
| WireEncoders.MemberChangeBytes | crates/identity/src/wire.rs:529-543 | tag, conversation, actor, added, removed, time |
| WireEncoders.SenderKeyDistBytes | crates/identity/src/wire.rs:550-565 | tag, conversation, key version as decimal text, then key and value of each recipient, sorted by key, without a count |
| WireEncoders.RecoveryRequestBytes | crates/identity/src/wire.rs:571-602 | tag, hub, old key, new key |
| WireEncoders.RecoveryAttestationBytes | crates/identity/src/wire.rs:571-625 | tag, hub, old key, new key, nonce |
| WireEncoders.PublicHubProfileBytes | crates/identity/src/wire.rs:650-662 | tag, key, issue time, count, then address, name and joining time of each hub |
| Permissions.AncestorChain | crates/hub/src/permissions.rs:424-471 | the push-and-reverse walk is the chain root to target: each channel the parent of the next, from one without parent unless 64 hops did not reach one, cycles included |
| Permissions.FoldOverwrites | crates/hub/src/permissions.rs:501-531 | the mutating fold grants exactly what the deepest speaking level allows, whatever the order and repetition of rows |
| Permissions.DeepestDecides | crates/hub/src/permissions.rs:495-531 | the deepest level with any row decides, allow over deny there, else the baseline |
| Permissions.OnlyChainRowsMatter | crates/hub/src/permissions.rs:475-531 | rows off the chain change nothing |
| Permissions.ChildChainIff | crates/hub/src/permissions.rs:424-471 | a child's chain extends its parent's exactly when the parent's ended within the cap |
| Permissions.ChildIsOneLevelIff | crates/hub/src/permissions.rs:424-531 | a child's result is one level applied to its parent's, for every baseline, rows and permission, exactly when the parent's walk ended within the cap or its top comes again on the child's walk |
| Permissions.ShortCycleIsOneLevel | crates/hub/src/permissions.rs:424-471 | on a cycle of two the cap cuts both walks and nothing changes |
| Permissions.DeepChildDiffers | crates/hub/src/permissions.rs:424-471 | beyond the cap a child without rows loses what its parent has |
| Permissions.FetchOverwrites | crates/hub/src/permissions.rs:475-493 | the rows of these channels and roles, in any order |
| Permissions.MayInMeans | crates/hub/src/permissions.rs:338-582 | the resolvers' answer over the tables: the owner may, the banned may not; otherwise the deepest channel of the chain with a row for the permission and a role the user holds decides, allow over deny; without one, whether a role the user holds carries the permission |
| Permissions.PlainAnswers | crates/hub/src/permissions.rs:338-397 | without rows for their roles on the chain, members have exactly what the roles they hold carry; a user without roles has nothing, the owner everything |
| Permissions.OtherRolesDoNotMatter | crates/hub/src/permissions.rs:368-493 | permissions and overwrites of roles a user does not hold, and other users' roles and bans, change no answer |
| Permissions.ChannelPermissions | crates/hub/src/permissions.rs:555-584 | the single resolver, as `MayInMeans` reads it; everything for the owner, nothing for the banned or users without roles |
| Permissions.ChannelsWithPermission | crates/hub/src/permissions.rs:615-658 | the batched resolver returns exactly the channels of the table for which the single one grants the permission: all for the owner, none a user is banned from, none for users without roles |
| Permissions.AllRowsAnswerAlike | crates/hub/src/permissions.rs:615-658 | rows fetched for all channels answer as the rows fetched for one chain |
| RateLimiter.SharesBucketIff | crates/hub/src/rate_limit.rs:57-74 | two addresses share a bucket exactly when they are one IPv4 address, mapped or not, or of one IPv6 /64 |
| RateLimiter.Limiter.Check | crates/hub/src/rate_limit.rs:186-211 | the in-place refill, take and sweep as one step on the bucket map, whose decisions over runs `Conformance.AllAllowedIff` and `RateIsBounded` state |
| RateLimiter.BuiltInConfigsRefill | crates/hub/src/rate_limit.rs:102-138 | the three built-in configurations refill within the idle time |
| RateLimiter.OnlyIdleAreForgotten | crates/hub/src/rate_limit.rs:186-211 | a check never changes another address's bucket, and forgets it exactly when the check is allowed, more than 10,000 are remembered, and it has been idle for 600 s |
| RateLimiter.CleanupIsInvisible | crates/hub/src/rate_limit.rs:186-211 | then a run's decisions are those of a map that never forgets |
| SlowRefill.CleanupIsInvisibleIff | crates/hub/src/rate_limit.rs:198-206 | and that holds of all runs of canonical keys exactly for such configurations: otherwise 10,000 other addresses hand a drained one a full bucket |
| RateLimiter.PerfectRate | crates/hub/src/rate_limit.rs:186-211 | what a key is allowed is bounded by what it holds now and what refills by then |
| RateLimiter.RateIsBounded | crates/hub/src/rate_limit.rs:186-211 | between two times at most burst + refill * elapsed, whatever came before |
| Conformance.AllAllowedIff | crates/hub/src/rate_limit.rs:186-211 | every request of a new address is allowed exactly when in no stretch of the run it asks for more than burst + refill * elapsed: nobody who keeps to the rate is ever refused, whatever others do |
| Outbox.Worker.Tick | crates/hub/src/dm_worker.rs:34-147 | an undisturbed pass settles each reached row by what its own message loads as and how its own delivery ends; a database error ends it and leaves the rest |
| Outbox.Worker.Attempt | crates/hub/src/dm_worker.rs:47-144 | one row: load, send, then delete, retry later or bounce |
| Outbox.Worker.TickMemberChanges | crates/hub/src/dm_worker.rs:284-322 | exactly the due changes with fewer than a hundred due ones of smaller id are tried, and deleted or put off; all others stay |
| Outbox.SameSchedule | crates/hub/src/dm_worker.rs:109-142 | through any history of deliveries and failures both queues keep a row equally long, with the same attempts, times and bounce |
| Outbox.BatchLowers | crates/hub/src/dm_worker.rs:47-143 | every processed row lowers the remaining attempts |
| Outbox.FailureSchedule | crates/hub/src/dm_worker.rs:15-17 | in a history that is the worker's alone, at most eight failures, bounced exactly at the eighth, gaps at least the scheduled waits, 113,770 seconds from the first to the eighth |
| Outbox.TakenByEveryBatchIff | crates/hub/src/dm_worker.rs:37-45 | a due row is in every answer the query may give exactly when at most a hundred rows are due |
| Outbox.RowsAreIndependentIff | crates/hub/src/dm_worker.rs:47-73 | over any tables an undisturbed pass treats every row by itself exactly when no row whose message has its conversation follows one whose message has lost it |
| Outbox.OneRowStallsTheQueue | crates/hub/src/dm_worker.rs:192-196 | a message without its conversation, returned first, keeps the whole queue unsent |
| DmRuns.RunKeepsInv | crates/hub/src/routes/dms/messages.rs:86-460 | in every interleaving of handlers, background sends (several for one row, when several members take delivery on one hub) and worker statements every stored message has its conversation and its ciphertext, every queued row its message, and the rows in hand were due and are not bounced (receiving: lines 588-840; creating: crates/hub/src/routes/dms/conversations.rs:84-121) |
| DmRuns.NoRowStallsTheQueue | crates/hub/src/dm_worker.rs:47-73 | so after any run a step of the worker handles one row, leaves every other row alone and goes on with the rest of its pass, whatever version of the code reads the envelopes |
| DmRuns.UndisturbedIsOnePass | crates/hub/src/dm_worker.rs:34-147 | with nothing in between, the worker's statements amount to the pass of `Worker.Tick` |
| DmRuns.QueuedIsRebuilt | crates/hub/src/dm_worker.rs:192-277 | however much later, a parser that reads what was written rebuilds a message as it was stored, with the type of its conversation and for exactly the keys that are its members by then: those at the time of storing if nobody came or went |
| DmRuns.FirstSendEnds | crates/hub/src/routes/dms/messages.rs:396-442 | with one send to a hub: queued due at once with no attempts; delivered, gone; failed, one attempt and the next ten seconds after it was queued |
| DmFailures.FailuresBounded | crates/hub/src/routes/dms/messages.rs:354-445 | in every run, whenever background sends start and end, a row fails no more often than its budget: eight less its attempts and seven more for each send open, with what the worker has in hand accounted for (the worker: crates/hub/src/dm_worker.rs:109-142) |
| DmFailures.BudgetIsReached | crates/hub/src/routes/dms/messages.rs:354-445 | and from every reachable state some run fails it just that often |
| DmFailures.FailuresAreTracked | crates/hub/src/dm_worker.rs:109-142 | a row's attempts, and those the worker read, never exceed the failures it has had, which is what `EightFailuresIff` asks of its count |
| DmFailures.EightFailuresIff | crates/hub/src/routes/dms/messages.rs:426-442 | when a background send fails, its row stays within eight failures in every continuation exactly when this is its first failure, the worker does not have it in hand, and no other send of it is in flight or still to be started |
| DmFailures.BouncedIsFinalIff | crates/hub/src/dm_worker.rs:37-45 | no run touches a bounced row again exactly when no background send of it is in flight or still to be started (the rewriting: crates/hub/src/routes/dms/messages.rs:396-442) |
| DmFailures.HistoryIsTimely | crates/hub/src/dm_worker.rs:34-147 | in every run in which only the worker is about a row, arrivals included, the row is due at each attempt and changed by its own outcomes alone, so that `FailureSchedule` holds of it |
| DmSettlement.EveryRowIsSettled | crates/hub/src/dm_worker.rs:109-143 | whatever the outcomes and whenever background sends end, after as many passes that found something as there are attempts left, seven more for each send in flight, every row is delivered or bounced |
| DmSettlement.QueueDrains | crates/hub/src/dm_worker.rs:17-32 | so it is, polled at least every `gap` seconds, after 86,400 + gap seconds for each of them |
| DmSettlement.RowSettlesInTime | crates/hub/src/dm_worker.rs:17-143 | one row of a live queue, arrivals and all, is delivered or bounced within 86,400 + gap seconds for each of eight attempts, seven more for each of its sends open and one for each restart of the process, as long as at most a hundred rows are due when a pass finds it due |
| DmStarvation.DueRowCanStarve | crates/hub/src/dm_worker.rs:37-45 | otherwise, from every reachable state, a due row can be left untaken for any number of passes ten seconds apart, all full and all accepted |
| Placement.ChooseMeans | crates/farm/src/placement.rs:87-105 | a named server, or refused as unknown or full and only then; else a node with room than which none with room is freer, an agent if one is as free, the last of those; no capacity exactly when all are full |
| Placement.CapsHold | crates/farm/src/placement.rs:28-33 | over any run no node is filled beyond its cap |
| Placement.ExactlyTheSlots | crates/farm/src/placement.rs:87-105 | with all nodes capped exactly the sum of free slots is placed, then refused |
| Placement.SpreadIsKept | crates/farm/src/placement.rs:84-105 | the spread of free slots never exceeds its start, or one |
| PlacementRaces.CapsHoldIff | crates/farm/src/routes/hubs.rs:369-460 | in every interleaving of choices, inserts, assignments, failures and deletions no node ever exceeds its cap exactly when every row inserted finds the farm's own node with room and every row assigned elsewhere finds its node with room (the counting: lines 834-872) |
| PlacementRaces.OneAtATimeIff | crates/farm/src/routes/hubs.rs:369-460 | one request at a time, caps hold exactly when the own node has room whenever a row bound for an agent is inserted |
| PlacementRaces.FullOwnNodeOverfills | crates/farm/src/routes/hubs.rs:387-439 | with the own node full a single request placed on an agent puts it over its cap, for good when the agent has gone |
| PlacementRaces.LastSlotTakenTwice | crates/farm/src/routes/hubs.rs:369-460 | from any nodes two requests that choose before either is inserted end on the same node, over its cap if it had one slot left |
| PlacementRaces.DroppedLeavesNoTrace | crates/farm/src/routes/hubs.rs:387-428 | a request that is inserted and then dropped for want of a database leaves every count as it was |
| ResponseHead.ReadResponseHead | crates/farm/src/proxy.rs:404-427 | splits at the first CRLFCRLF wherever the reads fall, exactly when no earlier read went over the limit; head, leftover and the unread rest are the stream |
| ResponseHead.EndInPrefix | crates/farm/src/proxy.rs:447-449 | a prefix shows the same end exactly when it reaches it |
| ResponseHead.HeadSizes | crates/farm/src/proxy.rs:417-426 | always read up to 65,537 bytes, never above 66,048 |
| ResponseHead.CutsMatterIff | crates/farm/src/proxy.rs:417-426 | a head is read in every cut of its stream exactly up to 65,537 bytes and in some cut exactly up to 66,048 |
| HubPorts.FirstGap | crates/farm/src/hub_manager.rs:15-21 | the least free port at or above the base, none only when all are taken |
| HubPorts.HubManager.OccupiedPorts | crates/farm/src/hub_manager.rs:145-175 | exactly the ports of running children and of rows not deleted, suspended ones too |
| HubPorts.HubManager.AllocatePort | crates/farm/src/hub_manager.rs:182-185 | a port nobody holds |
| HubPorts.HubManager.AllocateVoicePort | crates/farm/src/hub_manager.rs:189-192 | likewise for voice |
| HubPorts.HubManager.AllocateAndSpawn | crates/farm/src/hub_manager.rs:355-377 | both ports persisted before the spawn, whether or not it starts; ports stay apart |
| HubPorts.HubManager.SpawnAllFromDb | crates/farm/src/hub_manager.rs:300-351 | exactly the hubs neither suspended nor deleted and with a port run afterwards, on their ports, missing voice ports filled in; all others are as they were; ports stay apart |
| HubPorts.HubManager.ResolveVoicePort | crates/farm/src/state.rs:112-123 | the persisted voice port, or a fresh one persisted |
| HubPorts.RestartMeans | crates/farm/src/routes/hubs.rs:642-731 | a restart runs the child on the row's ports, suspended or not, or leaves it stopped; nobody else is touched |
| HubPorts.RunKeepsPortsApart | crates/farm/src/hub_manager.rs:145-377 | in every sequential run of creations, start-up passes, restarts (of suspended hubs too: crates/farm/src/routes/hubs.rs:642-731), suspensions and deletions no two existing hubs share an HTTP or a voice port |
| HubPorts.PortsAreKept | crates/farm/src/hub_manager.rs:140-175 | a suspended hub finds its ports again after any run that does not hand it new ones |
| HubPorts.SuspendedStaysDown | crates/farm/src/hub_manager.rs:300-351 | the start-up pass leaves a suspended hub down, and starts it on its old ports once it is resumed |
| HubPorts.PortsAreFreed | crates/farm/src/hub_manager.rs:145-175 | the ports of a deleted hub, or of one an agent has stopped, are free again |
| PortPicks.WriteKeepsIff | crates/farm/src/routes/servers.rs:360-388 | writing picked ports to a row, from an agent's reply or by the farm, keeps ports apart exactly when no other existing hub has taken one of them |
| PortPicks.PortsStayApartIff | crates/farm/src/hub_manager.rs:355-377 | in every interleaving of picks, confirmations and local operations ports are apart after every step exactly when each confirmation finds its ports unheld (picked for an agent: crates/farm/src/routes/hubs.rs:439-440) |
| PortPicks.OneAtATimeKeepsApart | crates/farm/src/hub_manager.rs:355-377 | so they are when no other hub takes ports while one has some pending |
| PortPicks.OverlappingPicksCollide | crates/farm/src/routes/hubs.rs:429-475 | from any state overlapping picks for two hubs are the same two ports, and both rows end on them |
| PortPicks.UndisturbedIsAllocation | crates/farm/src/hub_manager.rs:355-377 | with nothing in between, picking, confirming and starting is `allocate_and_spawn` |
| Supervision.Monitor.Tick | crates/farm/src/monitor.rs:65-175 | hubs seen in the last 180 s, unlisted or disabled are left alone; a silent one is restarted exactly when it has attempts left of five and its wait of 10, 20, 40, 80 or 160 s is over, and disabled when it has none; returns exactly the hubs restarted |
| Supervision.SilentHubIsGivenUp | crates/farm/src/monitor.rs:65-175 | a hub that stays silent, ticked at least every `gap` seconds, is restarted within `gap` of each moment its wait is over, until five attempts are made, and disabled by the deadline |
| Supervision.DeadlineBound | crates/farm/src/monitor.rs:55-80 | which from no attempts is at most 310 seconds and six gaps after it fell silent |
| Supervision.RevivedIsSupervised | crates/farm/src/routes/hubs.rs:633-757 | also after an operator restarted a hub that was given up |
| Supervision.ReportingIsLeftAlone | crates/farm/src/monitor.rs:68-70 | a hub seen less than 180 s before every tick is never restarted nor disabled |
| Supervision.UnlistedIsLeftAlone | crates/farm/src/monitor.rs:107-114 | a suspended or deleted hub is not restarted until it is listed again |
| Supervision.AttemptsStayBounded | crates/farm/src/monitor.rs:55-57 | attempts stay within five in every run, so the power never overflows and the 300 s cap is never reached |
| Supervision.RestartsAreSpaced | crates/farm/src/monitor.rs:62-80 | between two resets, restarts are at most what is left of five, each a doubled wait after the last |
| Supervision.RestartsAfterReset | crates/farm/src/monitor.rs:125-162 | after a reset at most five, the k-th and the next at least 10 * 2^k seconds apart |
| Supervision.GivenUpStays | crates/farm/src/monitor.rs:163-173 | after giving up nothing restarts it, not even returning heartbeats, until an operator does |
| VoiceLoss.TrackedIs | crates/hub/src/voice_loss.rs:46-59 | the tracker holds highest, lowest and count |
| VoiceLoss.OrderDoesNotMatter | crates/hub/src/voice_loss.rs:46-59 | any order of the same counters leaves the same tracker |
| VoiceLoss.LostIsMissingIff | crates/hub/src/voice_loss.rs:60-82 | the lost count is the number of missing counters exactly when none came twice or none is missing |
| VoiceLoss.LossInRange | crates/hub/src/voice_loss.rs:71-82 | the figure is within 0 to 100 percent, 0 without a gap, withheld exactly for a span of one, and without repeats the missing share of the span to the nearest tenth |
| VoiceLoss.VoicePacketSeal | crates/identity/src/voice.rs:154-186 | the arrays filled field by field are the header and the nonce |
| VoiceLoss.OpenOfSealed | crates/identity/src/voice.rs:154-224 | what is sealed opens to the same fields, and the relay reads the sealed counter from the cleartext |
| VoiceLoss.NonceIsFresh | crates/identity/src/voice.rs:167-169 | under one salt, nonces are equal exactly for equal counters |
| VoiceLoss.UnwrapOfWrap | crates/identity/src/voice.rs:91-133 | the wrapped-key layout round-trips |

## Left out

- Codecs, ciphers, signatures and SHA-256 themselves: parameters, with what is asked of them stated as predicates.
- Floating point: the token bucket, `fit` and the loss figure use exact reals and ratios, with rounding to the nearest where the code rounds; the loss figure is in tenths of a percent.
- Machine width where the code does not depend on it: sizes are unbounded, `usize` is taken as 64 bits, and debug-build overflow panics are not modelled.
- Database failures inside an operation, partial writes and the files they can leave without a row; only the write of a blob's file may fail.
- AttachmentStore.Store.Ingest: takes the kind, type and dimensions of an upload as given; sniffing, name cleaning, extension checks and image canonicalisation before it are not part of it.
- `check_ids`, `usage`, settings and the channel-delete cascade of attachments: they add no step of another kind.
- AttachmentRuns.BannerStaysIff: deleting the message a banner's row was linked to takes the row by intent, as the foreign key does.
- AttachmentStore.EvictedKeepsBanners: holds under the lock; a pin that takes no lock can slip in between two statements, which `PinnedTooLate` shows.
- CanonicalFixpoint.CanonicalIsFixpoint: holds for codecs that are `Sound`; that a particular decoder is, is not part of this model.
- RateLimiter.RateIsBounded: takes clock readings in the order of the lock; the code reads the clock before it takes the lock.
- `X-Forwarded-For` parsing and reading the limiter's configuration from the environment.
- Outbox.Worker.Tick: one pass undisturbed; its statements interleaved with others are in `DmRuns`. A failing database is left out, a row that is not there is not.
- DmRuns.UndisturbedIsOnePass: in `DmRuns` the worker's query is one step, and loading, sending and recording one row another: the sending itself changes nothing here, and no statement in between changes what loading reads.
- DmSettlement.QueueDrains: for a process that is not restarted meanwhile, from when the handlers have started their sends; `RowSettlesInTime` counts both.
- DmFailures.FailuresBounded: for a row until it is delivered; a mirror copy queued again after that is a new row.
- DmRuns.RunKeepsInv: tables written by the hub's own statements; signature, membership and block checks come before them and are left out.
- HubPorts.RunKeepsPortsApart: operations run one after another; overlapping ones are in `PortPicks`.
- HubPorts.FirstGap: with every port taken the code's counter overflows; the model returns `None`.
- HubPorts.HubManager.SpawnAllFromDb: a hub whose database cannot be provided is skipped, that is, not in the list of ids it is given.
- Placement.ExactlyTheSlots: placements one after another; overlapping ones are in `PlacementRaces`.
- PortPicks.PortsStayApartIff: an agent replies with the ports it was sent, with or without the voice port.
- Supervision.Monitor.Tick: the voice port that the restart arm may fill in is in `HubPorts.HubManager.ResolveVoicePort`; how a restart is sent to an agent, and whether it succeeds, does not change the row and is left out.
- ResponseHead.ReadResponseHead: parsing of the status line and of the header lines is left out, and read errors other than the end of the stream.
- VoiceLoss.LostIsMissingIff: excludes a span of all 2^64 counters, for which the 64-bit count wraps to 0.
- HTTP, WebSocket and QUIC plumbing, the command line, templates, certificates and the embedded database server.
- `everyone_channel_permissions`, name and slug cleaning, proof of work, LAN discovery: easy members only.
