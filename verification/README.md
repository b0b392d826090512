# HomeTube verification model

HomeTube is a Rust server over SQLite that lets children watch allowlisted YouTube
channels. This project models the parts of it whose correctness depends on many
functions, or on many steps over time, and proves what they promise.

Tables are maps (or sequences of rows, where the point is a join), time is an integer
or real input, a jitter draw is any value in its stated band, and `f64` is `real`. A
transaction is one step. The outcome of a network request, of `yt-dlp` or of the
sidecar is an arbitrary input.

## The parts

**Channel sync** (`Backoff`, `ChannelArchive`, `SyncTables`, `Database`, `SyncMachine`,
`BackfillSafety`, `BackfillOutcomes`, `FreshnessSafety`, `FeedOutcomes`, `StoredRows`,
`FallbackCalls`, `FallbackOvershoot`, `DeadSources`, `ArchiveRuns`, `ArchiveWitnesses`). Two background
loops share the `channels` and `channel_videos` tables: the backfill loop claims one
channel under a lease, commits a whole listing and releases, backs off or shelves the channel; the
freshness loop claims batches under a lease, polls RSS and falls back to the sidecar
under rate caps. `Database` is the tables as an object whose methods do what the
service functions do, each proved against the functions of `SyncTables`.
`SyncMachine` interleaves both loops, the admin routes, the allowlist, the clock and a
crash at any point; a run is any sequence of its steps from the empty database. The
archive commit and the status write of a backfill are separate steps, as they are in
the code, and so are the fallback reservation, the fallback's result and the poll's
final record. `BackfillOutcomes`, `FeedOutcomes` and `StoredRows` say column by column
what the steps leave in the tables.

**Manifest selection** (`Dash`, `DashManifest`). The passes from the extracted formats
to the adaptation sets, and what survives their composition. **Its text** (`XmlText`,
`Signing`): XML escaping, the canonical signed query, signature comparison and cast
tokens.

**Algorithms**: the token bucket (`TokenBucket`), the failure throttle
(`SwitchThrottle`), LIKE escaping (`LikePattern`), heartbeats to sessions (`UsageLog`),
the up-next interleave (`UpNext`), relative times (`RelativeTime`,
`RelativeLanguage`).

**Access** (`Access`, `LikedVideos`, `NewVideos`): the rule `can_child_view`, and the two
queries that encode it in joins. The tables are sequences of rows there, so a join that
fans out or drops a row would show.

`Prelude` and `Text` hold shared vocabulary.

## What the proofs found

The model follows the code. Where the code does less than it or its comments say, one
lemma gives an input that shows it and another says exactly when it holds.

- The tombstone guard is documented to keep RSS rows that land in the middle of a
  backfill (`channel_backfill.rs:696-698`). It keeps exactly those whose poll read the
  clock at or after the listing's start (`ArchiveRuns.SurvivesCommit`);
  `ArchiveWitnesses.StalePollIsTombstoned` is a run that tombstones one stored while the
  listing was running.
- `last_seen_at` can move back, because a listing writes the time it began: exactly when
  a committed sighting carries an earlier time than the stored one
  (`ArchiveRuns.LastSeenMovesBack`; `ArchiveWitnesses.LastSeenRewinds` is a run).
- `backfill_videos_new_last_run` is the number of added rows exactly when no id absent
  from the archive is listed twice (`ChannelArchive.NewCountExact`;
  `ChannelArchive.RepeatedIdIsCountedTwice` is the input). A feed batch's `inserted` and
  `untombstoned` count repeats the same way (`ChannelArchive.FeedCountsExact`).
- The hourly cap on sidecar fallbacks is documented in calls, with a slack of
  `batch_size - 1` (`feed_refresher.rs:135-140`, `579-580`), but the query behind it counts
  channels. For channels the slack holds over whole runs
  (`FreshnessSafety.HourlyFallbacksBounded`). For calls it holds, over all runs that delete
  no channel, exactly when fallbacks are off, the cap is one or every interval a channel can
  have exceeds the hour (`FallbackOvershoot.SlackExactly`); `FallbackOvershoot.SlackIsBroken`
  is a run past it for every other configuration, and `FallbackCalls.HourlyCallsBounded`
  bounds the calls of an hour in all of them.
- A source is documented to be given up after three sidecar not-founds in a row
  (`feed_refresher.rs:60-67`), but the count behind it is that of all failures. The two
  agree exactly when the source has fewer than two failures behind it or the last two were
  not-founds (`DeadSources.GivenUpAsDocumented`); `DeadSources.GivenUpAtFirst` is a run that
  gives a source up at its first not-found.
- A later backoff is longer than an earlier one, whatever the jitters, exactly when the
  longest draw of the one capped delay is below the shortest of the other
  (`Backoff.BackoffGrowsExactly`). That always holds while the next target is within the
  cap (`Backoff.BackoffGrows`) and fails once both are capped
  (`Backoff.CappedBackoffCanShrink`).
- The throttle's check and record are separated by the PIN verification. With at most m
  requests of an address in between, no minute holds more than 4 + m failures
  (`SwitchThrottle.RaceBound`), a run attains that (`SwitchThrottle.RaceAttained`), and so
  five a minute is guaranteed exactly when m is at most one
  (`SwitchThrottle.FiveExactlyWhenSerial`).
- An audio track is the best bitrate of its language among all usable ones exactly when
  some best one is the first with ranges of its media (`DashManifest.BestOfAllExactly`),
  because the bitrate is not part of the deduplication key;
  `DashManifest.LouderTwinIsLost` is an input where it is not.
- A manifest with several languages has a main one exactly when the track that decides,
  the first labelled "original" or else the one of highest preference, has a language tag
  (`DashManifest.SynthesizeManifest`, by `DashManifest.HasMain`);
  `DashManifest.UntaggedOriginalIsMainForNobody` is an input without one.

## Model

| member | source | states |
|---|---|---|
| `BackfillSafety.RunsAreSafe` | src/services/channel_backfill.rs:372-442 | Over every run, with crashes between claim, archive commit and status write: a running channel's lease is its start plus 35 minutes and it was due at its start; no other channel holds a lease; an unshelved channel has fewer errors than the limit; the worker's channel is not shelved; every archive row belongs to a known channel |
| `BackfillSafety.StrandedIsReclaimable` | src/services/channel_backfill.rs:384-413 | A channel left running by a crash is claimable exactly when its lease and the sidecar cooldown have passed |
| `BackfillSafety.LeaseIsExclusive` | src/services/channel_backfill.rs:372-442 | Between two claims of a channel without a release or deletion in between, the clock advanced by at least the lease |
| `BackfillSafety.ShelvedStays` | src/services/channel_backfill.rs:1078-1095 | A shelved channel is never claimed and leaves that state only by an unshelve or a deletion |
| `BackfillSafety.CounterIsStreak` | src/services/channel_backfill.rs:811-910 | The stored error counter is the number of retryable failures since the last success, effective unshelve or insertion |
| `BackfillSafety.OneRow` | src/services/channel_backfill.rs:372-910 | What each step leaves in a channel's backfill columns, column by column: the claim with its 35-minute lease, the release, the two kinds of shelving, the retry, unshelve, run-now and subscribe; every other step leaves them |
| `BackfillSafety.FailureOutcome` | src/services/channel_backfill.rs:811-910 | A failed run shelves its channel iff the message reports it gone or its failure streak reaches the limit, and records the message or `channel_not_found`; else the channel is pending and due after its backoff, which is in the future |
| `Text.NotFoundExactly` | src/services/channel_backfill.rs:936-944 | A message reports a channel gone iff it holds one of six wordings in any letter case |
| `BackfillSafety.RetryWaits` | src/services/channel_backfill.rs:886-905 | Over every run: a channel whose run failed is not claimed again before its backoff is over, unless a route puts it at the front or it is deleted in between |
| `BackfillOutcomes.RetryWaitsOut` | src/services/channel_backfill.rs:886-905 | Over every run and on the same terms: after the k-th failure in a row the next claim is no earlier than min(24 h, gap * 2^k) less 15% |
| `BackfillOutcomes.SuccessOutcome` | src/services/channel_backfill.rs:776-798 | Over every run: a finished run leaves its row pending, unleased, without error, completed now and due after the drawn delay; observed, new and removed are the entries of the listing it committed, those of them whose id had no row, and the live rows that listing tombstoned; title, feed, fallback and start columns stay |
| `BackfillOutcomes.LostChannelEndsRun` | src/services/channel_backfill.rs:597-690 | A listing whose channel was deleted before its commit stores nothing and ends its run |
| `BackfillOutcomes.SuccessWaits` | src/services/channel_backfill.rs:776-784 | Over every run: after a success the next claim is no earlier than the re-backfill interval less 5%, unless a route puts the channel at the front or it is deleted in between |
| `BackfillSafety.RunNowTakesEffect` | src/services/channel_backfill.rs:1066-1076 | In every reachable state run-now makes a waiting channel claimable at any time once the sidecar cooldown has passed, changes nothing for a running or shelved one, and touches no other row |
| `BackfillSafety.UnshelveTakesEffect` | src/services/channel_backfill.rs:1081-1095 | Unshelving makes a shelved channel claimable once the sidecar cooldown has passed and restarts its failure count, changes nothing for another, and touches no other row |
| `Backoff.JitterBand` | src/services/channel_backfill.rs:1103-1107 | A jittered delay stays within its fraction of the nominal one, up to half a second of rounding |
| `Backoff.BackoffBand` | src/services/channel_backfill.rs:1109-1119 | For the sequence that starts at min(2 * gap, 24 h) and doubles up to 24 h over attempts 1 to 16, the possible backoffs of an attempt are exactly the whole seconds within 15% of its member, up to rounding; lower and higher attempts are those of 1 and 16 |
| `Backoff.BackoffGrows` | src/services/channel_backfill.rs:1109-1119 | While twice the nominal delay is within the cap the next backoff is strictly longer, whatever the two jitters |
| `Backoff.BackoffGrowsExactly` | src/services/channel_backfill.rs:1109-1119 | A later backoff is the longer one for all jitters iff (23 n + 9) / 20 < (17 n' + 10) / 20 for the two nominal delays n and n' |
| `Backoff.CappedBackoffCanShrink` | src/services/channel_backfill.rs:1109-1119 | Two capped backoffs where the later one is shorter |
| `ArchiveRuns.TombstonesInRuns` | src/services/channel_backfill.rs:666-752 | In every reachable state of the two loops: a row is there iff a committed change inserted it and none dropped it since, it carries that change's time as first seen, and it is tombstoned iff a later listing of its channel begun after that time missed it and nothing sighted it since |
| `ArchiveRuns.ArchiveIsHistory` | src/services/channel_backfill.rs:604-760 | The archive of every reachable state is what the sequence of its committed changes leaves |
| `ArchiveRuns.SurvivesCommit` | src/services/channel_backfill.rs:666-752 | When a listing commits, a live row survives iff it is another channel's, was listed, or was first seen at or after the listing's start |
| `ArchiveWitnesses.StalePollIsTombstoned` | src/services/channel_backfill.rs:691-752 | A run in which a row stored while the listing was running is tombstoned by it |
| `ArchiveRuns.LastSeenMovesBack` | src/services/channel_backfill.rs:666-686 | A step moves a row's `last_seen_at` back iff it commits a sighting of the row with an earlier time than the stored one |
| `ArchiveWitnesses.LastSeenRewinds` | src/services/channel_backfill.rs:666-686 | A run in which a listing that began before a poll moves the row's `last_seen_at` back |
| `ChannelArchive.TombstonedExactly` | src/services/channel_backfill.rs:666-752 | The same over any history of listings, feed batches and deletions |
| `ChannelArchive.PresentIffInserted` | src/services/feed_cache.rs:337-384 | A row exists iff some event inserted it and none dropped it since |
| `ChannelArchive.RowContents` | src/services/feed_cache.rs:358-384 | `published_at` and its raw text are the first value any sighting since the insertion carried, the view count the last: a non-null date never changes and a view count never returns to null |
| `ChannelArchive.LatestSighting` | src/services/channel_backfill.rs:666-686 | `last_seen_at` and `source` are those of the latest sighting event, even where a listing's start precedes what was stored |
| `ChannelArchive.MergeAllIs` | src/services/channel_backfill.rs:666-686 | A batch that lists a video several times leaves the first date, the last view count and one row |
| `ChannelArchive.ArchiveAccounting` | src/services/channel_backfill.rs:604-760 | For every listing: live rows after = live before + added + revived - removed, the added keys are exactly the ids reported as new, and the removed ones exactly the unobserved older live rows |
| `ChannelArchive.NewCountExact` | src/services/channel_backfill.rs:635-638 | The reported new count is at least the added rows, and equal to them iff no absent id is listed twice |
| `ChannelArchive.RepeatedIdIsCountedTwice` | src/services/channel_backfill.rs:635-638 | One absent id listed twice is counted twice and adds one row |
| `ChannelArchive.FeedCountsExact` | src/services/feed_cache.rs:249-384 | A feed batch's `inserted` is at least the rows it adds and `untombstoned` at least those it brings back, and each is equal iff no id without a row, or with a tombstoned one, repeats in the batch |
| `StoredRows.EntryIsStored` | src/services/channel_backfill.rs:640-690 | An entry a committed listing holds once leaves its own fields: a new archive row is its date, text and view count at the listing's start, over an existing row the stored date and text and the new view count win where they are set; the video row takes its non-empty title, the channel and its duration |
| `StoredRows.ItemIsStored` | src/services/feed_cache.rs:330-384 | The same for an item of a feed batch, at the poll's time and with its source; items carry no view count or duration, and may name another owner and a thumbnail |
| `StoredRows.VideosStay` | src/models/video.rs:37-89 | No step removes a video row, and only a stored listing or feed batch changes one |
| `StoredRows.RouteTables` | src/routes/allowlist.rs:401-436 | What each route and cron job leaves in the allowlist, the channels, their titles and the archive: a channel and its archive go with its last allowlist entry and in a collection or reconciliation iff no child lists it, and a reconciliation gives every listed channel a row |
| `SyncTables.LastNonEmptyWins` | src/models/video.rs:37-89 | After any sequence of upserts each text column of a video holds the last non-empty value offered and the duration the last one offered; where none was, what the row had before or was inserted with, the id standing in for a missing title |
| `SyncTables.StubIsForgotten` | src/models/video.rs:97-110 | A placeholder replaces no row and holds the id for a title; after upserts by callers that filter empty texts, the row is as if no placeholder had been there |
| `Database.Database.ClaimOneDue` | src/services/channel_backfill.rs:372-442 | Claims a due channel with the least due time iff there is one, leases it and changes nothing else |
| `Database.Database.CommitListing` | src/services/channel_backfill.rs:604-760 | The loop over entries and the tombstone update refine the one-shot listing function; new ids and removed count are those of the transaction; an unknown channel aborts it |
| `Database.Database.Stage` | src/services/channel_backfill.rs:727-739 | Multi-row inserts in chunks of any positive size stage exactly the observed ids |
| `Database.Database.ApplyBackfillEntries` | src/services/channel_backfill.rs:597-809 | Commit then release: the whole new state, the returned ids, and the abort that changes nothing |
| `Database.Database.ReconcileWithAllowlist` | src/services/channel_backfill.rs:996-1061 | Afterwards the channels are exactly the allowlisted ones, known rows untouched, and only their archive rows remain |
| `Database.Database.UpsertChannelVideos` | src/services/feed_cache.rs:223-384 | The item loop refines the batch function; each item counts once as inserted, untombstoned or updated, by its row before the batch; an unknown channel stores nothing |
| `Database.Database.ClaimDueSources` | src/services/feed_cache.rs:589-613 | The claimed set is a legal answer of ORDER BY and LIMIT over the due channels, and exactly it is leased |
| `Database.Database.EffectiveSidecarMinInterval` | src/services/feed_refresher.rs:791-822 | The tier picked by the latest live publish date is the tier of the declarative rule |
| `FreshnessSafety.ClaimedInTime` | src/services/feed_cache.rs:589-613 | Bounded waiting from any reachable state: a due channel without a poll in flight is in one of the next k / limit + 1 claims, where k counts the others scheduled no later and those whose poll under way began before it was due, while no channel is inserted and it stays tracked |
| `FreshnessSafety.ClaimedFromWaiting` | src/services/feed_cache.rs:589-613 | Between batches k is just the number of other channels scheduled no later |
| `FreshnessSafety.WaitCost` | src/services/feed_refresher.rs:525-636 | Every step keeps the wait, and each claim that skips the channel moves a full batch past it |
| `FreshnessSafety.FallbacksAreSpaced` | src/services/feed_refresher.rs:749-822 | Two sidecar fallbacks of a channel that stays tracked are at least the later one's effective interval apart |
| `FreshnessSafety.FallbackDefersBackfill` | src/services/feed_cache.rs:554-568 | After a fallback reservation the backfill loop does not claim the channel for an hour, while it stays tracked |
| `FeedOutcomes.PollOutcome` | src/services/feed_cache.rs:406-568 | What each event of a poll leaves in its channel's row, column by column: the first non-empty title of a batch, success, failure with one more error, giving up for a year, the fallback reservation; no other row changes |
| `FeedOutcomes.ClaimOutcome` | src/services/feed_cache.rs:589-613 | A claim leases each row of its batch for two minutes, hands out its error count, validators and fallback time, and touches nothing else |
| `FeedOutcomes.CountOutcome` | src/services/feed_refresher.rs:573-594 | The count a batch works with is that of the channels whose latest fallback is at most an hour old, or 0 without a cap or with fallbacks off |
| `FeedOutcomes.RecordOutcome` | src/services/feed_refresher.rs:662-715 | Over every run: a recorded poll carries the validators and title of the feed that answered it, the claimed validators after "not modified", and none after a fallback |
| `FeedOutcomes.LostChannelEndsPoll` | src/services/feed_cache.rs:283-290 | A poll whose channel was deleted before it stores its items stores nothing and ends unrecorded |
| `SyncMachine.LoopsApart` | src/services/channel_backfill.rs:449-500 | The loops share only the tables and the clock: each moves only by its own events, a claimed channel is listed from the time the listing starts, and a crash puts both at rest and keeps the tables |
| `FeedOutcomes.FeedCounterIsStreak` | src/services/feed_cache.rs:497-548 | Over every run the stored error count is the number of failures since the last recorded success, giving up or insertion |
| `FeedOutcomes.NotFoundOutcome` | src/services/feed_refresher.rs:880-915 | Over every run a clean not-found gives the source up for a year iff the count it was claimed with makes it the third failure; that count is the current streak unless the row was inserted anew since, and else the poll is retried |
| `DeadSources.GivenUpAsDocumented` | src/services/feed_refresher.rs:60-67 | A not-found gives the source up exactly at the third not-found in a row, iff the source has fewer than two failures behind it or the last two were not-founds, where it was not inserted anew while its poll was in flight |
| `DeadSources.GivenUpAtFirst` | src/services/feed_refresher.rs:873-900 | A run that gives a source up for a year at its first not-found, after two sidecar errors |
| `FeedOutcomes.PollsAreSpaced` | src/services/feed_refresher.rs:662-733 | Over every run a tracked channel is not claimed again before its interval less 15% from the start of its last poll, or after a failure before min(24 h, interval * 2^k) less 15% |
| `FreshnessSafety.HourlyFallbacksBounded` | src/services/feed_refresher.rs:586-636 | With a cap set, in every reachable state the channels whose latest fallback is in the last hour, which is what the query counts, number at most cap + batch size - 1 |
| `FallbackCalls.HourlyCallsBounded` | src/services/feed_refresher.rs:573-636 | With a cap set, in every run that deletes no channel the fallback calls of any hour number at most (cap - 1) * (3600 / I + 1) + batch size, I the least interval a channel can have |
| `FallbackOvershoot.SlackIsBroken` | src/services/feed_refresher.rs:576-585 | For every configuration with fallbacks on, a cap of at least two and an interval within the hour: a run without deletions with at least cap + batch size calls in one hour |
| `FallbackOvershoot.SlackExactly` | src/services/feed_refresher.rs:135-140 | Calls of any hour stay within cap + batch size - 1 in all runs without deletions iff fallbacks are off, the cap is one, or the least interval exceeds the hour |
| `Dash.FamiliesPartition` | src/services/dash.rs:250-281 | Every usable format is in exactly one of the four codec families |
| `Dash.UsableExactly` | src/services/dash.rs:250-281 | A format is usable iff it is no storyboard, has a direct URL over one of two protocols, is no compressed variant by id or by note in any letter case, and belongs to a family |
| `Dash.FamilyExactly` | src/services/dash.rs:268-281 | A family is its codec prefixes, without the other kind of codec, and for video with a height |
| `Dash.SameMediaExactly` | src/services/dash.rs:726-770 | Two formats are the same media iff codecs, height, width, bit rate in whole kilobits and language agree |
| `Dash.DedupePreferWithRanges` | src/services/dash.rs:740-786 | One format per media key, keys in order of first appearance; each is the first of its key with ranges, or the first of its key if none has ranges |
| `Dash.TrimVideo` | src/services/dash.rs:802-813 | One format per height, ascending, exactly the heights of the input, the first seen of each |
| `Dash.TrimAudio` | src/services/dash.rs:836-852 | One format per language, ascending, exactly the languages of the input, the first of the best bitrate of each |
| `Dash.BitrateIs` | src/services/dash.rs:836-838 | The audio bit rate decides, the total one where it is missing, and a format with neither counts as silent |
| `DashManifest.DedupeKeepsRanges` | src/services/dash.rs:740-786 | For every usable format with ranges the deduplicated list holds one with ranges of the same media |
| `DashManifest.SelectLadders` | src/services/dash.rs:346-427 | Per family the offered heights (or languages) are exactly those of usable formats with ranges, one format each; a height gets the first, and a language the first of the best bitrate, among the deduplicated ranged formats |
| `DashManifest.LaddersAreDetermined` | src/services/dash.rs:346-427 | Two ladders of a family that meet what `SelectLadders` states are equal, tied heights and bitrates included |
| `DashManifest.OfferedIff` | src/services/dash.rs:429-435 | Some ladder is non-empty iff some usable format has ranges |
| `DashManifest.PickMainAudioLang` | src/services/dash.rs:860-879 | The language is that of the deciding track: the first labelled original, else the first of highest preference among the tagged |
| `DashManifest.MarksExactly` | src/services/dash.rs:860-879 | A note marks the original iff it holds that word in any letter case, and a track is ranked iff it has a language tag and a preference |
| `DashManifest.GroupByLanguage` | src/services/dash.rs:635-640 | The groups are the tracks of each language, in order |
| `DashManifest.Assemble` | src/services/dash.rs:500-544 | The sets hold the four ladders' formats in order; each set is of one family with its mime type and non-empty, has a language iff the family is audio and then one track of that language; no two share mime type and language; a set is main iff its language is the main one of several |
| `DashManifest.MimeIs` | src/services/dash.rs:500-544 | The type of a set is video or audio by its family, in WebM for VP9 and Opus and in MP4 for AVC1 and MP4A |
| `DashManifest.SynthesizeManifest` | src/services/dash.rs:312-548 | There is a manifest iff some usable format has ranges; its representations are exactly the ladders so determined, one set per video family and per audio family and language; a set is main iff its language is the deciding track's among several, and some set is main iff there are several and the deciding track has a tag |
| `DashManifest.BestOfAllExactly` | src/services/dash.rs:755-763 | An offered track is the best of all offerable ones of its family and language iff some best one is the first with ranges of its media |
| `DashManifest.LouderTwinIsLost` | src/services/dash.rs:755-763 | Two formats of the same media where the quieter one is offered |
| `DashManifest.UntaggedOriginalIsMainForNobody` | src/services/dash.rs:860-879 | Two languages, the original untagged: nothing is main |
| `XmlText.EscapeXml` | src/services/dash.rs:884-897 | The loop's output is the text with the five characters replaced by their references |
| `XmlText.ReadingUndoesEscaping` | src/services/dash.rs:884-897 | Resolving entity references in the escaped text gives back the text |
| `XmlText.NoRawMarkup` | src/services/dash.rs:884-897 | The escaped text has no angle bracket or quote, and each ampersand starts one of the five references |
| `Signing.DecodeUndoesEncode` | src/services/youtube.rs:423-436 | Percent-decoding undoes percent-encoding, for all byte strings |
| `Signing.EncodedByteIs` | src/services/youtube.rs:423-436 | Letters, digits and four marks stay as they are, and every other byte is a percent sign and its two upper-case digits, the high one first |
| `Signing.NoSeparators` | src/services/youtube.rs:423-436 | Percent-encoded text holds no `&` and no `=` |
| `Signing.QueryIsRead` | src/services/dash.rs:59-77 | A query reader recovers the parameters from the joined pairs |
| `Signing.CanonicalDecides` | src/services/dash.rs:59-77 | Two parameter lists have the same canonical query iff they are the same multiset |
| `Signing.HexEncode` | src/services/dash.rs:83-91 | The loop writes two lowercase digits per byte |
| `Signing.HexTextIs` | src/services/dash.rs:83-91 | The text of a byte string is two lower-case digits per byte, the high one first |
| `Signing.HexIsInjective` | src/services/dash.rs:83-91 | Different codes have different hex text |
| `Signing.ConstantTimeEq` | src/services/dash.rs:101-110 | The or of the xors is zero iff the byte strings are equal |
| `Signing.VerifyQuery` | src/services/dash.rs:95-98 | Accepts exactly the signature of the parameters |
| `Signing.SignaturesAgree` | src/services/dash.rs:59-98 | Two lists have the same signature iff they are the same parameters in some order or the MAC collides on their canonical queries |
| `Signing.CastTokenIsBound` | src/services/dash.rs:143-202 | Without a MAC collision a minted token is accepted exactly for its own video, viewer and expiry text, before that expiry, and yields its own viewer |
| `Signing.NamesAre` | src/services/dash.rs:143-202 | The signed parameters are named `video_id`, `cast_uid` and `cast_exp` |
| `TokenBucket.Limiter.Serve` | src/middleware/rate_limit.rs:91-110 | One request is charged to its key's bucket, a new key starting full; no other key changes |
| `TokenBucket.RefillsCompose` | src/middleware/rate_limit.rs:59-65 | Refilling at t1 and then t2 is refilling at t2 |
| `TokenBucket.RetryAfterIsExact` | src/middleware/rate_limit.rs:69-80 | After a denial a request of any cost up to capacity is granted after the returned seconds, and not a second earlier unless they are the minimum of one |
| `TokenBucket.FoundIsLeastBudget` | src/middleware/rate_limit.rs:59-80 | The tokens a request finds are the least, over all windows ending with it, of capacity plus rate times length less the grants in the window |
| `TokenBucket.GrantedIff` | src/middleware/rate_limit.rs:69-80 | A request is granted iff with it no window ending at it exceeds 200 and 200 for each minute of its length |
| `TokenBucket.WindowBound` | src/middleware/rate_limit.rs:33-37 | Any window of length t grants at most 200 + t * 200 / 60 |
| `TokenBucket.SteadyDemandGranted` | src/middleware/rate_limit.rs:59-80 | Requests at least 0.3 seconds apart are never denied |
| `TokenBucket.KeysAreIndependent` | src/middleware/rate_limit.rs:83-110 | A request fares as it would among its own key's requests alone |
| `SwitchThrottle.Throttle.IsBlocked` | src/routes/auth.rs:508-520 | The answer and the pruned map are those of the specification; other addresses are untouched |
| `SwitchThrottle.Throttle.RecordFailure` | src/routes/auth.rs:522-528 | Prunes, then appends the failure |
| `SwitchThrottle.AnswerIsFullHistory` | src/routes/auth.rs:495-528 | At nondecreasing times the pruned lists answer as a never-pruned history would: blocked iff it holds five failures less than 60 seconds old |
| `SwitchThrottle.FiveAMinute` | src/routes/auth.rs:197-202 | When checks and records run in order, six consecutive failures of an address span at least 60 seconds |
| `SwitchThrottle.RaceBound` | src/routes/auth.rs:508-528 | With at most m requests of an address between check and record at any time, 5 + m consecutive failures span 60 seconds |
| `SwitchThrottle.RaceAttained` | src/routes/auth.rs:508-528 | For every m of at least one a schedule with at most m in flight and no blocked check has 4 + m failures at one instant |
| `SwitchThrottle.FiveExactlyWhenSerial` | src/routes/auth.rs:508-528 | Five a minute holds over all schedules with at most m in flight iff m is at most one |
| `LikePattern.ThreeReplacesAreOnePass` | src/routes/search.rs:442-447 | The three successive replaces equal one per-character escape |
| `LikePattern.SearchIsContains` | src/routes/search.rs:188 | A title matches the search pattern iff the query occurs in it character by character, where letters may differ in ASCII case |
| `LikePattern.EscapeOrderMatters` | src/routes/search.rs:434-441 | Escaping the backslash last gives another pattern iff the query holds a wildcard, and then the query does not match itself |
| `UsageLog.UsageLog.Heartbeat` | src/routes/usage.rs:109-166 | The log after one heartbeat, in place |
| `UsageLog.LogIsSessions` | src/routes/usage.rs:109-166 | For every interleaving of children's heartbeats each child's rows are exactly the segmentation of its own heartbeats |
| `UsageLog.RunIsMaximal` | src/routes/usage.rs:129-141 | The sessions of that segmentation are maximal runs: same video and gaps of at most 60 s within, another video or a longer gap after |
| `UsageLog.ScreenTimeConserved` | src/routes/usage.rs:61 | A child's logged seconds are the sum of what its heartbeats report, 30 where nothing is said and between 1 and 90 each |
| `UpNext.RoundRobin` | src/routes/feed.rs:1163-1178 | The loop terminates and its output is the first max(2 * limit, 10) items of the rounds |
| `UpNext.RoundsConserve` | src/routes/feed.rs:1163-1178 | The rounds hold every item exactly as often as the buckets do, so the queue has min(target, all) items |
| `UpNext.RoundRobinIsFair` | src/routes/feed.rs:1163-1178 | After any number of items, if one bucket has given two or more items more than another, the other has given all it had |
| `UpNext.TagsDoNotMatter` | src/routes/feed.rs:1163-1178 | The rounds of the bare items are those of the items tagged with their bucket |
| `RelativeTime.PrintedPhrasesParse` | src/services/feed_refresher.rs:975-1033 | Every count below 2^32, article, "few" and "couple", every unit, singular, plural and compact, every lead-in, with or without "ago", each character of a letter in either ASCII case, any surrounding white space: parses to that many units before now, or to nothing when that is before the epoch |
| `RelativeTime.UnitsAreCalendar` | src/services/feed_refresher.rs:1012-1021 | A minute is 60 seconds, an hour 60 minutes, a day 24 hours, a week 7, a month 30 and a year 365 days |
| `RelativeTime.ShorthandsParse` | src/services/feed_refresher.rs:988-992 | "just now", "moments" and "a moment" mean now and "yesterday" a day earlier, in any letter case and surrounding white space |
| `RelativeLanguage.ParsesExactly` | src/services/feed_refresher.rs:975-1033 | A text parses to t iff what is left of it after trimming, folding, lead-in and "ago" is a word for now or yesterday that t is, or its words say, in one of five shapes, a number below 2^32 of a unit that leads from now back to t, not before the epoch |
| `RelativeLanguage.WhiteExactly` | src/services/feed_refresher.rs:978 | White space is exactly the 25 code points of Unicode's property |
| `RelativeTime.NeverInTheFuture` | src/services/feed_refresher.rs:975-1033 | Whatever the input, an answer is not after now, and is the day before or a whole count below 2^32 of a unit before now |
| `RelativeTime.CompactIsRead` | src/services/feed_refresher.rs:1047-1072 | A compact token splits into its digits and its own unit, months apart from minutes |
| `RelativeTime.WordsOfJoin` | src/services/feed_refresher.rs:998 | Splitting at white space undoes joining words with spaces |
| `Access.RuleIs` | src/services/access.rs:21-45 | The early-return rule is: on one of the child's allowlists, and neither blocked nor hidden |
| `Access.AtMostOne` | src/routes/likes.rs:98-121 | A join on the key of a table finds at most one row |
| `LikedVideos.OneRowPerLike` | src/routes/likes.rs:98-121 | The rows are exactly the live likes of the child, each once, with the like's own video, that video's channel if it has a row, its publish date, and `visible` by the access rule on that channel |
| `NewVideos.CandidatesAreEligible` | src/services/feed_cache.rs:639-661 | The joins and conditions let a row through iff it is live, in an allowlisted channel and passes the access rule with that channel |
| `NewVideos.FeedRowsAreNewest` | src/services/feed_cache.rs:619-687 | Whatever the order among ties: each video once, with the row of its own video and channel, by an eligible row; rows descend by publish date or, without one, last-seen time, and then by last-seen time, and no other eligible row of an offered video is newer by that order |
| `NewVideos.AnswerExists` | src/services/feed_cache.rs:645-648 | Every database has such an answer: a row numbering per video and an order of its first rows |
| `NewVideos.FeedOmitsOnlyOlder` | src/services/feed_cache.rs:619-687 | An eligible video is left out only when the limit is reached, and then no returned row is older than it by publish date or last-seen time |

## Left out

- Network and subprocess work (RSS, sidecar, `yt-dlp`, thumbnail prefetch): outcomes are inputs.
- SQLite itself: transactions are atomic steps, an ORDER BY with ties may answer in any order, and errors of the database other than foreign-key aborts are not modelled (the code reads some counts with `unwrap_or(0)`).
- Pacing inside the freshness loop (`max_inflight`, dispatch delay): polls of a batch interleave freely, which allows every order the pacing does.
- The cap check and the reservation of one fallback are one step; the interval it uses is read in that step too.
- `record_poll_deferred` and `record_poll_skipped`: no caller in the loop.
- Settings loaders and their PUT handlers: a run has one fixed configuration within the enforced ranges. The `enabled` switch is left out; a loop that is off takes no steps.
- Upload-date parsing, channel thumbnails and descriptions, `last_updated_at`: columns no property is about. Notifications on shelving are left out too.
- Rounding of `f64`, not-a-number bitrates and 64-bit overflow of clock arithmetic: reals and unbounded integers. 32-bit counts and the saturating product of relative times are modelled.
- The text of the manifest beyond its escaping, and the proxy URL layout: adaptation sets are values. What a player does with them is not modelled.
- HMAC is any function of secret and message; integers in cast tokens are read by any function.
- Shuffles of the up-next buckets: the interleave is proved for any buckets. The trimming `up_next` does afterwards is left out.
- The order of the likes list (`visible` first, then newest): the rows are proved as they leave the joins.
- `child_search` paging, its UNION of sources and the search log: only the pattern is modelled.
- The date view `video_published_at` is a column of the video row: it has one row per video by construction.
- `backfill_video_channel_ids`, `is_effectively_finished`, `row_placeholders`, watch history, sessions, timers and account code: easy or finite. The chunked binding is covered by `Database.Database.Stage`.
- TokenBucket.RetryAfterIsExact: speaks of a request alone; other requests on the key in the meantime can spend the tokens, as in the code.
- BackfillSafety.CounterIsStreak: `record_failure` reads the counter and writes it back in two statements without a transaction (`channel_backfill.rs:836-905`), and the model takes one step; a channel deleted and allowlisted again in between would get the old count on its new row.
- FallbackOvershoot.SlackExactly: speaks of runs that delete no channel, as `FallbackCalls.HourlyCallsBounded` does; a channel deleted and allowlisted again has forgotten its last fallback and may fall back at once.
- Single statements (run-now, unshelve, the poll outcomes, the recorded failure, seeding, garbage collection, the hourly count) are functions of `SyncTables` that the steps of `SyncMachine` use, with no `Database` method around them.
- FreshnessSafety.ClaimedInTime: a channel whose lease ran out while its own poll is still in flight is covered only from the end of that poll, which reschedules it.
