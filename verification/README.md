# Deterministic cores of the news projection repository

A Dafny 4.11 model of the repository's deterministic cores and proofs of what they promise. Every
`.dfy` file is one module; `dafny verify dfyconfig.toml` checks all of them.

| part | modules |
|---|---|
| bytes, order, values and JSON text | `Text`, `Sorting`, `Values`, `Json` |
| receipt encoding, batches and the receipt chain | `Receipt`, `Batching`, `ReceiptChain` |
| building a news projection in memory | `Projection`, `ProjectedRows`, `ProjectionBinding` |
| planning it from captured parts, reading and replaying the plan | `Scan`, `Planner`, `Plan`, `PlanReader`, `PlanLaws`, `Replay` |
| the restartable source capture | `Capture`, `CaptureRuns`, `CaptureSource`, `CaptureProgress`, `CaptureReplay`, `CaptureOwner` |
| the architecture index: emitter, parts, reader, publication | `Canonical`, `CanonicalForm`, `Transport`, `TransportWriter`, `TransportReader`, `TransportParts`, `TransportLimits`, `TransportRoundTrip`, `TransportRestores`, `Publication`, `PublicationRuns`, `PublicationRecovery` |
| one-minute rows from ticks, two ways | `Minutes`, `MinutesParity`, `MinuteRows`, `DoubleClock` |
| backup retention | `Retention`, `RetentionTiers`, `RetentionRuns`, `RetentionRecovery` |
| capacity reservations and the route over them | `Capacity`, `CapacityRuns`, `CapacityRoute`, `CapacityLimits`, `CapacityLaws` |
| the weekly closure | `MarketSession` |
| the live broadcast | `Broadcast`, `BroadcastDelivery` |
| the incremental quote reader | `QuoteReader`, `QuoteAnswers` |

## How it is modelled

- SHA-256, the text of a float, `str()` and `json.loads` are parameters. Nothing assumes a hash free
  of collisions: a result that needs one produces the colliding inputs instead. What is assumed of
  `json.loads` is shown to be satisfiable (`Projection.LoadsExists`, `PublicationRecovery.ParsesExists`).
- An error of the program is `None`, or a refused or failed outcome; different error codes are not told apart.
- A process that stops, a write that fails before or after it takes effect, a torn file, a lost request
  and another process's transaction are parameters of the step they happen in; results over runs
  quantify over all sequences of them.
- Objects that change state are classes. Each method is proved equal to a function of the old state,
  and the properties over runs are proved about that function.
- The hub's publish and subscribe handlers are atomic: the storage operations inside them hold back other events.

## Boundaries of the results

- The two M1 forms do not return the same last quote for every file. The tick-by-tick form cuts times to
  microseconds and turns them back into ticks through a double, which is two ticks off at some of them
  (`DoubleClock.ClockIs`), even at whole milliseconds (`DoubleClock.WholeMillisecondsDiffer`).
  `MinutesParity.Parity` says exactly when the results are the same, for any clock. That form also
  refuses negative times.
- A weekly or monthly retention tier of zero, which the policy allows, still keeps one backup
  (`Retention.TierKeepsItsCount`).
- Replay refuses a planned generation whose rows share a detail key (`Replay.PlansAreReplayable`).
- The endpoint test of a horizon is right for every decision exactly when no closure is shorter than
  the horizon (`MarketSession.EndpointTestIsExact`).
- Open reservations stay within their limit even when the clock goes back (`CapacityRuns.InFlightStaysWithin`).
- Confirming a reservation twice would count tokens twice; the accountant's flag prevents it
  (`CapacityRuns.SecondConfirmationBreaksStep`).
- A reservation stays open past its route only when the transaction to end it raises, until a
  reservation is made after it expired (`CapacityRoute.ExecuteRoute`, `CapacityRoute.StuckExpires`).
- The quote cache may leave rows out when decision times go back: exactly those it let go before that
  qualify again (`QuoteReader.CallAgreesIff`).

## Model

| member | source | states |
|---|---|---|
| Receipt.DecodeInverts | xauusd_news/news_projection.py:124-162 | A decoder reads every encoded value back, up to its normal form, and leaves the bytes after it untouched. |
| Receipt.PrefixFree | xauusd_news/news_projection.py:124-162 | No encoding is a proper prefix of another; followed by anything, an encoding still determines its value. |
| Receipt.EncodesExactlyTheDomain | xauusd_news/news_projection.py:126-162 | Encoding succeeds exactly on the recursive domain: finite numbers, safe integers, strings, lists, string-keyed objects. |
| Receipt.NormalFormEncodesAlike | xauusd_news/news_projection.py:130-161 | A value and its normal form (integers as doubles, no negative zero, tuples as lists, keys in byte order) have the same bytes. |
| Receipt.SameEncodingIffSameNormalForm | xauusd_news/news_projection.py:124-162 | Two values have the same bytes exactly when they have the same normal form. |
| Receipt.NormalFormKeepsIntegers | xauusd_news/news_projection.py:131-138 | Two integers share a normal form only when they are equal. |
| Receipt.NormalFormKeepsNumbers | xauusd_news/news_projection.py:131-138 | An integer and a float share a normal form exactly when the integer is safe and the float has its value. |
| Receipt.NormalFormIsMeaning | xauusd_news/news_projection.py:124-162 | Two values have one normal form exactly when they mean the same: numbers by value, lists and tuples item by item, objects key by key in any order, at every depth. |
| Receipt.SameEncodingIffSameValue | xauusd_news/news_projection.py:124-162 | Two values of the domain have the same bytes exactly when they mean the same. |
| Receipt.InsertionOrderIsForgotten | xauusd_news/news_projection.py:150-161 | Values that mean the same, with keys inserted in any order at any depth, have the same bytes. |
| Values.IntBitsInjective | xauusd_news/news_projection.py:131-138 | Safe integers keep their identity as doubles and none becomes a negative zero. |
| Json.DumpsEnd | xauusd_news/news_projection.py:111-116 | JSON text determines its value and where it ends, inside any larger text. |
| Json.DumpsIsPrintable | xauusd_news/news_projection.py:111-116 | JSON text holds no control character, so a line feed can only end a record. |
| Json.TextReadBack | xauusd_news/news_projection.py:111-116 | What is asked of the text of floats holds of any literal text that reads back to the float. |
| Projection.LoadsExists | xauusd_news/news_projection.py:111-116 | What is assumed of `json.loads` can be met: lines of different values differ. |
| Batching.SizeAppend | xauusd_news/news_projection.py:975-988 | The running size of an open batch equals its real size on the wire after every further row. |
| Batching.BoundedBatches | xauusd_news/news_projection.py:215-232 | The loop makes the greedy cuts of the rows, or rejects a row no batch can hold. |
| Batching.CutIsPartition | xauusd_news/news_projection.py:215-232 | The batches concatenate to the rows; each is non-empty and within the byte and item limits. |
| Batching.CutFailsExactly | xauusd_news/news_projection.py:215-232 | Cutting is refused exactly when some row alone does not fit. |
| Batching.CutIsOptimal | xauusd_news/news_projection.py:215-232 | No partition into consecutive batches within the limits has fewer batches. |
| Batching.CutIsGreedy | xauusd_news/news_projection.py:215-232 | No batch but the last could have taken the first row of the next. |
| ReceiptChain.ReceiptDigest | xauusd_news/news_projection.py:235-247 | The loops over both kinds of batches compute the chain of their links. |
| ReceiptChain.LinkTextInjective | xauusd_news/news_projection.py:240-246 | The text hashed for one batch determines its kind, offset, count and payload hash. |
| ReceiptChain.ChainDeterminesLinks | xauusd_news/news_projection.py:235-247 | Equal chain digests mean equal link sequences, even of different lengths; otherwise a hash collision is produced. |
| ReceiptChain.PayloadDetermines | xauusd_news/news_projection.py:165-167 | Equal payload hashes mean batches of equal normal form, or a collision is produced. |
| Projection.ProjectionKeepsKey | xauusd_news/news_projection.py:185-212 | The index projection of a row still yields the detail key both projections carry. |
| Projection.ProjectionIsJson | xauusd_news/news_projection.py:185-212 | Both projections of a JSON row are JSON values. |
| Projection.SortedSetIs | xauusd_news/news_projection.py:307-311 | The withdrawal keys are each listed once, in code-point order, whatever order they came in. |
| Projection.Build | xauusd_news/news_projection.py:292-323 | The in-memory builder: batches, source digest, receipt chain and counts of a request within capacity. |
| Projection.BatchItems | xauusd_news/news_projection.py:278-290 | Random access by offset returns the batch at a boundary, the empty list at the end, and rejects everything else. |
| ProjectedRows.PayloadIs | xauusd_news/news_projection.py:190-192 | The detail payload is the row without its index fields, in the row's order. |
| ProjectedRows.PayloadHas | xauusd_news/news_projection.py:190-192 | Looking a key up in the payload finds the row's value outside the index fields and nothing for them. |
| ProjectedRows.IndexRowIs | xauusd_news/news_projection.py:194-201 | The index row holds the row's value of every index field, null for what it lacks, optional ones only when present, the cluster as text or its own key, the key, the contract, and no more. |
| ProjectedRows.RowIsRecovered | xauusd_news/news_projection.py:185-212 | A row can be read back from its two projections, the text of its cluster aside. |
| ProjectedRows.GenerationRowsAre | xauusd_news/news_projection.py:207-212 | The rows of a generation are the projections of the request's rows, each once, by key and then by their own order; the manifest counts them under the request's window. |
| ProjectedRows.BuildsExactly | xauusd_news/news_projection.py:292-323 | A request, its size aside, can be built exactly when each of its rows' projections fits its batch limit and can be hashed. |
| ProjectionBinding.StableKeyBinds | xauusd_news/news_projection.py:169-175 | Rows without a NUL in source or item have equal stable keys exactly when they have the same source, item and revision, or a collision is produced. |
| ProjectionBinding.DetailKeyBinds | xauusd_news/news_projection.py:177-183 | Equal detail keys mean the same source revision and exactly the same content, or a collision is produced. |
| ProjectionBinding.GenerationBinds | xauusd_news/news_projection.py:300-350 | Generations of one identity have one window, the same rows and the same withdrawals, or a collision is produced. |
| ProjectionBinding.SourceDigestBinds | xauusd_news/news_projection.py:300-306 | Generations with one source digest have the same rows and withdrawals in order, or a collision is produced. |
| Planner.StreamKind | xauusd_news/news_projection.py:950-989 | A streaming pass over located rows reaches the cuts, links and digest of the rows taken together, or fails with them. |
| Planner.HashedAppend | xauusd_news/news_projection.py:978-980 | Feeding one more sorted row extends the hashed text by exactly that row. |
| Scan.SplitInverts | xauusd_news/news_projection.py:840-849 | Splitting a stored part by lines gives back the lines that were stored. |
| Scan.ScanLines | xauusd_news/news_projection.py:844-849 | The lines of one part give its records with their offsets, lengths and digests. |
| Scan.ScanParts | xauusd_news/news_projection.py:832-849 | Every part is verified before use, and all retained records are located, across all parts. |
| Scan.AllRecordsLieWhereFound | xauusd_news/news_projection.py:843-849 | Each located record lies at its recorded file, offset, length and digest. |
| Scan.FoundReadsBack | xauusd_news/news_projection.py:898-912 | A descriptor made from a located record reads that record back. |
| Scan.PartNameInjective | xauusd_news/news_projection.py:792-793 | Parts of different number or content have different file names. |
| Plan.CountRecords | xauusd_news/news_projection.py:916-945 | The counting pass over located records collects the visible rows, the withdrawn keys and the metadata bound. |
| Plan.CensusOfSource | xauusd_news/news_projection.py:916-945 | The census of a captured source lists exactly its visible and withdrawn rows. |
| Plan.OnlyCheckedItems | xauusd_news/news_projection.py:925-946 | Whatever the parts hold, every planned place is a record whose key and hash agree with its own payload. |
| PlanLaws.MetadataIs | xauusd_news/news_projection.py:916-945 | Planning a captured source is refused for its metadata exactly when what it keeps of all rows is more than 32 MiB. |
| PlanLaws.GenerationOfSource | xauusd_news/news_projection.py:368-370 | A generation built of a captured source holds both projections of exactly the rows no policy skipped and nobody marked irrelevant; it withdraws exactly the stable keys of the others. |
| Plan.PlacesSortLikeRows | xauusd_news/news_projection.py:935-946 | Sorting descriptors with their ordinals gives the order a stable sort gives the rows. |
| Plan.FedIsSourceText | xauusd_news/news_projection.py:954-992 | Hashing piece by piece feeds exactly the sorted JSON text of the whole source. |
| Plan.FinalizePlan | xauusd_news/news_projection.py:851-1026 | For every captured source, however it was cut into parts, planning equals building in memory: same manifest, batches and failures. |
| PlanReader.Open | xauusd_news/news_projection.py:1112-1165 | Of a plan bound to its capture, the places and references are admitted exactly when each is. |
| PlanReader.OpenRefs | xauusd_news/news_projection.py:1143-1163 | The reference loop admits exactly the references that are contiguous, bounded and cover the items. |
| PlanReader.OpenPlaces | xauusd_news/news_projection.py:1112-1138 | The place loop admits exactly the strictly ordered places that lie inside their parts. |
| PlanReader.PartTable | xauusd_news/news_projection.py:1112-1116 | The table holds each part with the ordinals of its records. |
| PlanReader.BatchItems | xauusd_news/news_projection.py:1167-1197 | A request reads the rows of one reference, checked by length, payload hash and key, or is rejected. |
| PlanReader.ServedAsBuilt | xauusd_news/news_projection.py:1167-1197 | Reader and in-memory generation answer every offset alike: rows, end and rejections. |
| PlanReader.PlanServesTheGeneration | xauusd_news/news_projection.py:1094-1197 | A plan made from a complete capture opens and serves the generation the builder makes of the same rows. |
| PlanLaws.ServedIsProven | xauusd_news/news_projection.py:1167-1197 | Whatever was opened, rows are served only for a batch, as many as it counts, each proven by its own record, with the batch's size and hash. |
| PlanLaws.BatchesTile | xauusd_news/news_projection.py:1143-1163 | Every place of an admitted plan lies in exactly one batch of each kind. |
| PlanLaws.AdmittedPlacesAscend | xauusd_news/news_projection.py:1112-1138 | The places of an admitted plan ascend by key and number, all of them, no number comes twice, and each lies within the part that its number falls into. |
| Replay.ChainRefs | xauusd_news/news_projection.py:1060-1067 | The loop extends the chain by the references of one kind. |
| Replay.OpenReplay | xauusd_news/news_projection.py:1043-1082 | Of a plan bound to its capture, replay admits exactly those that belong to their manifest, are within limits and are consistent. |
| Replay.AdmittedPlanIs | xauusd_news/news_projection.py:1050-1060 | Whatever plan is admitted, it lists as many items as it says and were captured, each under its own key, withdraws no more than were withdrawn and is within the limits. |
| Replay.PlansAreReplayable | xauusd_news/news_projection.py:1033-1082 | A plan made by the planner is admitted exactly when it is within limits and its detail keys are distinct. |
| Replay.ManifestDeterminesBatches | xauusd_news/news_projection.py:1033-1082 | Two plans under one manifest have the same batches, or a collision is produced. |
| Replay.ManifestDeterminesRows | xauusd_news/news_projection.py:1033-1197 | Two plans under one manifest serve the same rows at every offset up to receipt identity, wherever both serve any, or a collision is produced. |
| CaptureReplay.EveryRunKeepsPlan | xauusd_news/news_projection.py:990-1026 | Over every run a recorded plan stays finished, bound to the manifest it stands in, and the plan of the rows. |
| CaptureReplay.RecordedPlanReplays | xauusd_news/news_projection.py:715-1197 | Over every run from nothing, whatever failed, a recorded plan opens, is replayed unless a retry is pending, sizes are exceeded or keys repeat, and serves the batches the in-memory builder makes. |
| CaptureReplay.CleanRunReplays | xauusd_news/news_projection.py:715-1197 | From wherever a capture has got to, as many clean steps as records remain and one more, and one clean planning, record a plan exactly when the rows can be built and their metadata fits, and it replays. |
| Capture.CollectIsSound | xauusd_news/news_projection.py:738-763 | The record loop never counts a withdrawal that was not taken, nor takes a record without a cursor. |
| CaptureRuns.RecoverKeeps | xauusd_news/news_projection.py:508-523 | Recording a publication failure leaves a manifest that can be read again. |
| CaptureRuns.AdvanceKeeps | xauusd_news/news_projection.py:715-825 | One step, with any write failing before or after it takes effect, leaves a readable manifest whose parts only grew. |
| CaptureRuns.DeriveKeeps | xauusd_news/news_projection.py:630-708 | Deriving a reader segment keeps the fence: earlier parts unmarked and unchanged, later ones carrying the segment. |
| CaptureRuns.FinalizeKeeps | xauusd_news/news_projection.py:866-1026 | Planning saves only manifests that can be read again. |
| CaptureRuns.EveryRunStaysReadable | xauusd_news/news_projection.py:525-620 | Over every run every saved manifest is accepted by a later read, and the accepted parts only grow by extension. |
| CaptureRuns.HashedAtMostOnce | xauusd_news/news_projection.py:866-882 | Over every run, with any number of restarts, the planning hash pass starts at most once. |
| CaptureSource.EveryRunRetains | xauusd_news/news_projection.py:715-825 | Over every run exactly the first source records are retained, in strictly increasing cursor order, and a complete capture retains all. |
| CaptureSource.EveryCaptureRetains | xauusd_news/news_projection.py:715-825 | So does every run that starts from a directory without a manifest. |
| CaptureSource.StepsMakeProgress | xauusd_news/news_projection.py:790-825 | A successful step saves what it returns and either completes the source or leaves strictly fewer records. |
| CaptureProgress.PageStops | xauusd_news/news_projection.py:734-763 | The record loop stops exactly at the first record that does not fit the part or at the end of the page, and is complete exactly with all of a last page; any other page fails. |
| CaptureProgress.CleanStep | xauusd_news/news_projection.py:715-825 | A clean step returns, retains what its page yields and completes the source exactly with all of a last page. |
| CaptureProgress.FailedStep | xauusd_news/news_projection.py:764-785 | A step whose page fails retains nothing, records the failure and backs off thirty seconds. |
| CaptureProgress.NoStep | xauusd_news/news_projection.py:722-725 | A complete capture, one that backs off and one of another producer are left as they are. |
| CaptureProgress.FailureIsRecorded | xauusd_news/news_projection.py:508-523 | A failing write is recorded with its back-off unless that write fails too. |
| CaptureProgress.StepIsTrue | xauusd_news/news_projection.py:715-825 | Whatever page comes and whatever write fails, a step answers truly: what it returns is on disk, what it raises is on record with a back-off, storage is unresolved only when the failure could not be written, and only a stopped process gives no answer; a page that gives nothing though there is more writes no part. |
| CaptureProgress.DerivingIsTrue | xauusd_news/news_projection.py:630-708 | Deriving a segment is refused with nothing written, whatever the writes would do, or answers truly in the same sense. |
| CaptureProgress.PlanningIsTrue | xauusd_news/news_projection.py:876-1026 | Planning that starts answers truly in the same sense, whichever write fails; only a pass that gave nothing raises without a back-off. |
| CaptureProgress.DeriveFences | xauusd_news/news_projection.py:630-708 | A reader segment is recorded exactly for a proof of a part already read while the source is still read and nothing planned, and then never changes. |
| CaptureProgress.CleanStepsComplete | xauusd_news/news_projection.py:715-825 | From wherever a capture has got to, as many clean steps as records remain and one more complete it with all records. |
| CaptureProgress.PlanIsRecorded | xauusd_news/news_projection.py:1006-1026 | Once the hash passes run and the result can be saved, the directory holds the plan bound to its manifest, or the failure. |
| CaptureProgress.PlanningStarts | xauusd_news/news_projection.py:866-882 | Planning starts exactly on a complete capture with no plan finished, failed or begun and no retry pending. |
| CaptureProgress.ReadIsSound | xauusd_news/news_projection.py:525-581 | What reading has checked of every part, of the chain of cursors, the totals and the fence. |
| CaptureSource.CompleteCaptureIsCaptured | xauusd_news/news_projection.py:790-849 | A complete capture is a captured source in the planner's sense, wherever its parts were cut. |
| CaptureOwner.NewsProjectionSourceCapture.ReadState | xauusd_news/news_projection.py:525-581 | Reads exactly the accepted manifest of the directory, or the initial one. |
| CaptureOwner.NewsProjectionSourceCapture.OpenPlanReader | xauusd_news/news_projection.py:1028-1031 | A plan opens only for a complete capture whose manifest holds what the plan was made from. |
| CaptureOwner.NewsProjectionSourceCapture.OpenReplayGeneration | xauusd_news/news_projection.py:1033-1082 | Replay opens exactly when no plan is in progress or failed, no retry is pending, and the plan is replayable. |
| CaptureOwner.NewsProjectionSourceCapture.PublicationFailed | xauusd_news/news_projection.py:508-523 | Records the failure with a back-off, or reports that storage is unresolved. |
| CaptureOwner.NewsProjectionSourceCapture.CollectRecords | xauusd_news/news_projection.py:734-763 | Takes the records of a page that follow the cursor and fit the part and the total. |
| CaptureOwner.NewsProjectionSourceCapture.AdvanceOnce | xauusd_news/news_projection.py:715-825 | One call changes the directory and answers as the capture's specification says, for every fault. |
| CaptureOwner.NewsProjectionSourceCapture.DeriveReaderSegment | xauusd_news/news_projection.py:630-708 | One call changes the directory and answers as the specification says, for every fault. |
| CaptureOwner.NewsProjectionSourceCapture.FinalizePlan | xauusd_news/news_projection.py:851-1026 | The hash passes run as specified; from a complete capture they yield the plan of the in-memory generation, unless they raise. |
| Canonical.Canonical | scripts/architecture/architecture_compiler.py:36-97 | The text and its line feed are returned exactly when the value is in the domain, within the nesting limit and within the budget. |
| Canonical.Emitter.Emit | scripts/architecture/architecture_compiler.py:53-95 | A value is written exactly when it is admissible and its whole text fits what is left; then size and pieces grow by it. |
| Canonical.Emitter.EmitString | scripts/architecture/architecture_compiler.py:58-69 | A string is written exactly when its whole escaped text fits, although it is escaped in chunks. |
| Canonical.Emitter.EmitList | scripts/architecture/architecture_compiler.py:72-79 | A list is written exactly when every item may be and all of it fits. |
| Canonical.Emitter.EmitObject | scripts/architecture/architecture_compiler.py:80-93 | An object is written in key order exactly when every value may be and all of it fits. |
| Canonical.ChunkEscapes | scripts/architecture/architecture_compiler.py:65-69 | Escaping in chunks equals escaping the whole string. |
| Canonical.ListBudget | scripts/architecture/architecture_compiler.py:73-74 | The early rejection of a long list refuses nothing that would fit. |
| Canonical.ObjectBudget | scripts/architecture/architecture_compiler.py:81-84 | The early rejection of a large object refuses nothing that would fit. |
| CanonicalForm.SameBytesIffMatching | scripts/architecture/architecture_compiler.py:36-42 | Two values of the wire domain have the same canonical bytes exactly when they match: lists item by item, objects key by key in any order, at every depth. |
| CanonicalForm.CanonicalInjective | scripts/architecture/architecture_compiler.py:36-97 | Canonical bytes determine the value up to insertion order. |
| CanonicalForm.TornIsNotCanonical | scripts/architecture/architecture_compiler.py:215-218 | A canonical file cut short is not canonical. |
| CanonicalForm.ReplaceCost | scripts/architecture/architecture_compiler.py:159-178 | Replacing one value of an object changes its encoded length by the difference of the two. |
| Transport.PartBytesAppend | scripts/architecture/architecture_compiler.py:159-178 | The running size of the open part always equals its real encoded length. |
| TransportWriter.Writer.EmitPart | scripts/architecture/architecture_compiler.py:142-157 | A part is published unless it breaks the count, part or total limit. |
| TransportWriter.Writer.EmitSource | scripts/architecture/architecture_compiler.py:159-178 | The facts of one source are packed greedily into parts, or refused with the limits. |
| TransportWriter.GroupFacts | scripts/architecture/architecture_compiler.py:122-139 | Every fact is measured once and filed under its known source, or the index is refused. |
| TransportWriter.EmitSources | scripts/architecture/architecture_compiler.py:159-178 | All sources are packed in code-point order. |
| TransportWriter.RenderTransport | scripts/architecture/architecture_compiler.py:116-190 | The loops produce exactly the files of the index, or refuse it. |
| TransportParts.EveryFactHasOnePart | scripts/architecture/architecture_compiler.py:122-178 | Every fact lies in exactly one part together with its ordinal; a part holds facts of one known source only. |
| TransportParts.PackKeeps | scripts/architecture/architecture_compiler.py:166-178 | Packing keeps the facts of a source in order, all of them. |
| TransportLimits.PackFailsExactly | scripts/architecture/architecture_compiler.py:166-178 | The facts of a source can be packed exactly when each alone fits a part. |
| TransportLimits.PackIsTight | scripts/architecture/architecture_compiler.py:166-178 | Each part of a source is within its limit and could not have taken the first fact of the next. |
| TransportLimits.RendersExactly | scripts/architecture/architecture_compiler.py:116-190 | An index is rendered exactly when its facts fit one by one, its parts are not too many or too large, and index and manifest can be written. |
| TransportLimits.BeforeScopeIs | scripts/architecture/architecture_compiler.py:104-105 | The source of an edge is what comes before the first double colon. |
| TransportLimits.FactIsAttributed | scripts/architecture/architecture_compiler.py:104-130 | A fact is attributed exactly when its path, or what comes before the first double colon of an edge's source, is a key of the inputs. |
| TransportReader.Admit | scripts/architecture/architecture_compiler.py:215-244 | The manifest is admitted exactly when it is canonical, well-formed, within budgets and its totals agree. |
| TransportReader.RestoreParts | scripts/architecture/architecture_compiler.py:253-275 | The nested loops put every fact of every admitted part into its own empty place. |
| TransportReader.ReadGeneratedIndex | scripts/architecture/architecture_compiler.py:247-289 | The reader as a whole: admission, restoration, expected files, logical identity. |
| TransportReader.ReadIsVerified | scripts/architecture/architecture_compiler.py:247-289 | Whatever lies in the directory, what is read comes from a canonical manifest and canonical parts of its own inputs that match their descriptors, with nothing else beside them but drawings of its views. |
| TransportReader.AdmittedIsBounded | scripts/architecture/architecture_compiler.py:215-244 | An admitted manifest has its five fields and no more, few parts, named in turn, each of a known source and bounded size, with totals that agree. |
| TransportRestores.ManifestIsAdmitted | scripts/architecture/architecture_compiler.py:180-190 | A rendered manifest is admitted exactly when its index is of the current version. |
| TransportRestores.ReaderRestoresIndex | scripts/architecture/architecture_compiler.py:247-289 | Round trip: from the files of an index the reader restores it, order and duplicates included, refusing only another version, a disallowed view name or an unexpected file. |
| TransportRestores.RestoredIsSame | scripts/architecture/architecture_compiler.py:286-289 | The restored index equals the original as Python compares dictionaries; every record keeps its place. |
| TransportReader.AdmitDescriptors | scripts/architecture/architecture_compiler.py:228-243 | The descriptors are checked one by one while the byte and count totals are kept. |
| TransportRestores.PartsFill | scripts/architecture/architecture_compiler.py:253-275 | From the files of an index every part is admitted and its facts find their places empty. |
| TransportRestores.FilledIsFull | scripts/architecture/architecture_compiler.py:276-277 | When all parts are read no place is empty and every place holds the fact of the index. |
| Publication.Directory.Perform | scripts/architecture/architecture_compiler.py:551-561 | One file is written or removed, or the process stops before or inside the write. |
| Publication.WriteOutputs | scripts/architecture/architecture_compiler.py:503-561 | File by file, stopped anywhere: outputs in order, then retired parts, the manifest last; nothing at all when refused. |
| PublicationRuns.EveryRunReaches | scripts/architecture/architecture_compiler.py:551-561 | Wherever a run stops, unknown files are untouched, a retired part is whole or gone, an output old or a prefix, and the manifest old until all else is done. |
| PublicationRuns.CompleteRunIs | scripts/architecture/architecture_compiler.py:549-561 | A complete run leaves exactly the outputs and what it neither wrote nor retired. |
| PublicationRuns.OnlyVouchedFilesGo | scripts/architecture/architecture_compiler.py:513-561 | A run removes a file only when the admitted manifest records its bytes and hash, and with an unknown file changes nothing. |
| PublicationRuns.SingleFileMigrates | scripts/architecture/architecture_compiler.py:532-543 | An index from before it was cut into parts may be replaced, removing nothing, exactly when its view names are allowed and nothing lies beside it but outputs and its drawings. |
| PublicationRecovery.ParsesExists | scripts/architecture/architecture_compiler.py:211-212 | What is assumed of `json.loads` on whole and cut files can be met. |
| PublicationRecovery.OldPublicationIsClean | scripts/architecture/architecture_compiler.py:513-548 | The files of an old index whose view names are kept may be replaced. |
| PublicationRecovery.StoppedRunIsResumable | scripts/architecture/architecture_compiler.py:503-561 | A publication stopped anywhere leaves a directory it may start from again. |
| PublicationRecovery.RerunCompletes | scripts/architecture/architecture_compiler.py:503-561 | After any number of interruptions a complete re-run ends with exactly the outputs, and they read back as the index. |
| PublicationRecovery.ReaderSeesOldOrNew | scripts/architecture/architecture_compiler.py:247-289 | At every point between interrupted publications a reader gets the old index, the new one or an error, or a collision is exhibited. |
| Minutes.BatchAccepts | xauusd_news/m1.py:119-152 | The batch form accepts exactly the ordered, positive, uncrossed files whose header boundaries are right. |
| Minutes.RowsAppend | xauusd_news/m1.py:154-223 | By segment reductions, a further tick opens a row or joins the last one. |
| MinutesParity.StartsAreFirsts | xauusd_news/m1.py:154-157 | In an ordered file the segments start at exactly the first tick of each minute. |
| MinutesParity.ReadQuotes | xauusd_news/quotes.py:40-76 | The acceptance loop yields the quotes of exactly the readable files, their times cut to microseconds. |
| MinutesParity.Streaming | xauusd_news/m1.py:226-321 | For every clock that turns times back into ticks, the tick-by-tick loop returns the segment-reduced rows: minute and close from the time, gap and last quote from the clock. |
| MinutesParity.Parity | xauusd_news/m1.py:107-321 | For every clock both forms accept the same non-negative files and agree on every row up to gap and close; the last quotes agree exactly when the clock restores the last tick, the whole results exactly when besides each minute ends with a whole microsecond and the clock's largest step in it is the file's. |
| MinutesParity.SameRowsIff | xauusd_news/m1.py:154-321 | The rows of the two forms are the same exactly when in each minute the last tick is whole and the clock's largest step is the file's. |
| MinutesParity.ParityWhenRestored | xauusd_news/m1.py:107-321 | With whole microseconds that the clock restores the two results are the same. |
| MinutesParity.GapsStayClose | xauusd_news/m1.py:242-300 | A clock off by so many ticks at most makes the gaps of corresponding rows differ by twice as many at most. |
| DoubleClock.ClockIs | xauusd_news/m1.py:329-333 | Between 2004 and 2027 the double arithmetic is exact, or off by two ticks, as the distance of the time from the nearest double says. |
| DoubleClock.ClockRestores | xauusd_news/m1.py:329-333 | A tick comes back from the clock exactly when it is as far past its microsecond as the clock is off there. |
| DoubleClock.ParityInEra | xauusd_news/m1.py:107-333 | With that clock both forms accept the same files, rows agree up to close and a few ticks of gap, and the condition for equal last quotes is exact. |
| DoubleClock.WholeMillisecondsDiffer | xauusd_news/m1.py:329-333 | At 2018-06-17T04:01:05.995Z, a whole millisecond, the last quotes differ by two ticks. |
| MinutesParity.RowsChain | xauusd_news/m1.py:154-223 | Rows of one sequence after another, chained by the last quote, are the rows of both, one shared minute merged. |
| MinutesParity.FilesChain | xauusd_news/m1.py:107-223 | Files in order chain through the last quote; an empty file leaves the prior as it is. |
| MinutesParity.CountsAddUp | xauusd_news/m1.py:154-157 | Tick counts over all rows sum to the number of ticks. |
| MinuteRows.RowsDescribe | xauusd_news/m1.py:154-223 | Quotes fall into segments of one minute, and each row says of its segment, from the quotes alone, the minute, first, highest, lowest and last prices, how often the midpoint rose and fell, and the largest gap. |
| MinuteRows.FormsDescribe | xauusd_news/m1.py:107-321 | So do the rows of both forms, the one of the file's ticks, the other of the quotes it received. |
| Retention.RetainedBackups | xauusd_news/maintenance.py:360-396 | The loops compute the tiers, the horizon, the count limit and the byte limit in that order. |
| Retention.RetainedObeysPolicy | xauusd_news/maintenance.py:387-396 | The selection obeys the limits and holds the newest young backup; it is refused exactly when that one alone is too large. |
| Retention.FitIsLongest | xauusd_news/maintenance.py:392-395 | What is kept is the longest beginning of the tiers that fits. |
| Retention.AddUniqueIs | xauusd_news/maintenance.py:366-376 | A tier takes one backup of each of the first periods, as many as asked for but at least one. |
| Retention.AddUniqueTakesFirst | xauusd_news/maintenance.py:366-376 | A tier takes the newest backup of each period. |
| Retention.TierKeepsItsCount | xauusd_news/maintenance.py:366-376 | A tier keeps to its count exactly when the count is positive or there is nothing to take. |
| Retention.TiersKeepTheirCounts | xauusd_news/maintenance.py:378-385 | With positive tiers no more is kept than they ask for together. |
| RetentionTiers.WeekIsMonday | xauusd_news/maintenance.py:381-384 | Two days are of one ISO week exactly when they have one Monday. |
| RetentionTiers.TakenIff | xauusd_news/maintenance.py:366-376 | A candidate is taken exactly when it is the first of its period and places are left. |
| RetentionTiers.TiersAre | xauusd_news/maintenance.py:378-385 | The tiers hold the newest days; of the rest the newest of each of the first ISO weeks; of what is left the newest of each of the first months; as many as there are places. |
| RetentionTiers.RetainedIs | xauusd_news/maintenance.py:387-396 | The selection is the longest beginning within count and bytes of the tiers' young backups, or refused. |
| RetentionRuns.SortDays | xauusd_news/maintenance.py:314-345 | The managed days are listed in the order of their file names. |
| RetentionRuns.BackupRoot.RemoveOne | xauusd_news/maintenance.py:843-863 | One planned pair: the target on the word of its receipt, then the receipt; stopped or refused in between. |
| RetentionRuns.BackupRoot.ApplyBackupRetention | xauusd_news/maintenance.py:813-863 | A run persists a plan or resumes a valid one of its own policy, and carries it out, stopped after any number of changes; any other plan is refused. |
| RetentionRecovery.PlanIsCarriedOut | xauusd_news/maintenance.py:813-863 | However often interrupted, only planned pairs change; runs under another policy change nothing; a run with time enough leaves exactly the planned pairs gone and all else as it was. |
| RetentionRecovery.RetainedRemain | xauusd_news/maintenance.py:824-863 | After the plan is carried out the managed pairs are exactly the retained ones. |
| RetentionRecovery.RunRemovesOnlyProven | xauusd_news/maintenance.py:843-863 | Whatever else happens in the folder, only a snapshot its own receipt proves planned, and the planned receipt, are removed. |
| Capacity.Connection.Snapshot | xauusd_news/assistant/capacity.py:547-597 | Availability by cooldown, daily, minute, token and in-flight limits. |
| Capacity.Connection.ReserveAssistantCapacity | xauusd_news/assistant/capacity.py:600-684 | One transaction expires, checks and inserts into all four tables, or changes nothing. |
| Capacity.Connection.ConfirmReservedTokens | xauusd_news/assistant/capacity.py:687-747 | One transaction raises minute, request and reserved tokens together, or changes nothing. |
| Capacity.Connection.FinishReservation | xauusd_news/assistant/capacity.py:773-851 | Only an open reservation is ended, with its pair's health. |
| Capacity.CountInFlight | xauusd_news/assistant/capacity.py:566-571 | Counts the open, unexpired reservations of a pair. |
| Capacity.Accountant.Reserve | xauusd_news/assistant/capacity.py:750-770 | A reservation is confirmed at most once. |
| CapacityRuns.TablesStayInStep | xauusd_news/assistant/capacity.py:600-747 | Over every run from empty tables daily, minute and request usage equal the reservations in requests and tokens. |
| CapacityRuns.SecondConfirmationBreaksStep | xauusd_news/assistant/capacity.py:763-770 | Without the accountant's flag a second confirmation past the estimate would count tokens twice. |
| CapacityRuns.InFlightStaysWithin | xauusd_news/assistant/capacity.py:566-585 | Over every run, whatever the clock does, open reservations of a pair never exceed its limit. |
| CapacityRuns.LeavesOnce | xauusd_news/assistant/capacity.py:614-620 | A reservation that has left the open state never changes again. |
| CapacityLimits.DailyStaysWithin | xauusd_news/assistant/capacity.py:547-597 | Over every run the requests of a day against a shared quota never exceed its soft cap. |
| CapacityLimits.HealthComesFromEndings | xauusd_news/assistant/capacity.py:773-851 | Over every run the health row of a pair is made by the endings of its own open reservations, each under its own policy, and by nothing else. |
| CapacityLimits.HealthRemembers | xauusd_news/assistant/capacity.py:797-851 | Over every run failures, throttles, the streak since the last success and the cooldown of a pair are what those endings say. |
| CapacityRoute.RoutePool | xauusd_news/assistant/capacity.py:958-1040 | The credentials of one pool are tried in turn, a further one exactly after a refusal; what the route ended stays closed. |
| CapacityRoute.Attempt | xauusd_news/assistant/capacity.py:966-1040 | One try ends its own reservation, as its result says, whatever the invocation and other processes do, unless ending it raises. |
| CapacityRoute.InvocationMarksHealth | xauusd_news/assistant/capacity.py:800-838 | A confirmed answer heals its pair, a 429 or too many transport or server errors in a row cool it down until the policy's time is over, other faults of the provider degrade it, anything else leaves it. |
| CapacityRoute.ExecuteRoute | xauusd_news/assistant/capacity.py:866-1058 | The route returns or raises with none of its own reservations open but one whose own ending raised; the pools are tried in turn and the result is the answer, the error, or the want of capacity that became of them. |
| CapacityRoute.StuckExpires | xauusd_news/assistant/capacity.py:614-620 | A reservation left open so is closed by the first reservation made after it expired. |
| CapacityLaws.ReservesExactly | xauusd_news/assistant/capacity.py:547-684 | Over every run a request gets a reservation exactly when, counted from the reservations and how they ended, its pair is not cooling down and day, minute, tokens and flight have room; then one open row is added. |
| CapacityLaws.ConfirmsExactly | xauusd_news/assistant/capacity.py:687-770 | A reservation is confirmed exactly for valid usage its estimate covers or the minute has room for while it is open; then its row holds the larger number. |
| MarketSession.ClosureIsWindow | xauusd_news/market_session.py:15-28 | The pointwise closure test is membership in the week's window from Friday 17:00 to Sunday 18:00 local time. |
| MarketSession.WindowEndsAreLocalTimes | xauusd_news/market_session.py:46-51 | The UTC ends of a window are the instants the local clock shows those times. |
| MarketSession.DatesSuffice | xauusd_news/market_session.py:44-46 | The dates the loop visits include the Friday of every closure that meets the interval. |
| MarketSession.MarketOpenElapsed | xauusd_news/market_session.py:31-59 | The loop over dates returns the number of open time units in the interval, or the error. |
| MarketSession.OpenTimeIsAdditive | xauusd_news/market_session.py:31-59 | Open time adds up over adjoining intervals and lies between zero and their length. |
| MarketSession.EndpointTestIsExact | xauusd_news/market_session.py:62-72 | Testing the two ends is right for every decision exactly when no closure is shorter than the horizon. |
| MarketSession.EndsMiss | xauusd_news/market_session.py:62-72 | For a longer horizon there is a decision whose ends miss a closure between them. |
| MarketSession.FixedOffset | xauusd_news/market_session.py:15-28 | With a fixed offset every closure lasts 49 hours. |
| MarketSession.ZoneExists | xauusd_news/market_session.py:15-28 | What is assumed of the New York clock can be met. |
| Broadcast.LiveHub.PublishState | broadcast/src/index.js:79-99 | A newer sequence is stored and sent to every open socket; any other is refused with the latest. |
| Broadcast.LiveHub.AcceptSubscriber | broadcast/src/index.js:30-39 | A subscriber starts with the full latest state, if there is one. |
| Broadcast.ContinuousLivePublisher.PublishStatus | xauusd_news/live_broadcast.py:209-249 | One call with its fortune of lost requests and answers and of the sequence file changes hub, memory and file as specified. |
| Broadcast.ContinuousLivePublisher.ReconcileSequence | xauusd_news/live_broadcast.py:196-207 | After a restart the larger of the stored and the reported sequence is remembered. |
| Broadcast.EveryRunInOrder | xauusd_news/live_broadcast.py:196-249 | Over every run stored sequences strictly increase, memory and disk never exceed them, and each subscriber sees strictly increasing states. |
| Broadcast.HistoryGrows | broadcast/src/index.js:79-99 | What the hub has stored, later events only add to. |
| Broadcast.AcceptedWithinTwo | xauusd_news/live_broadcast.py:209-249 | A publish whose requests are answered is accepted by the hub within two, the second exactly when the hub is ahead, and returns exactly when its sequence file is written. |
| Broadcast.LostAnswerIsCaughtUp | xauusd_news/live_broadcast.py:224-247 | After a lost answer the next publish takes the next sequence with one more request. |
| BroadcastDelivery.EveryRunDelivers | broadcast/src/index.js:30-99 | Over every run each subscriber has received consecutive states of the hub, and one still connected has the latest. |
| BroadcastDelivery.UndisturbedHasAll | broadcast/src/index.js:30-99 | A subscriber left alone stays connected and receives every state from the one at joining on. |
| QuoteReader.JsonlMarketProvider.LoadIncremental | xauusd_news/market.py:189-205 | Complete lines from the offset on are consumed once each; a partial last line stays; a shorter file is an error. |
| QuoteReader.JsonlMarketProvider.Observations | xauusd_news/market.py:111-131 | One call loads, evicts, filters and sorts as specified. |
| QuoteReader.JsonlMarketProvider.AppendRecord | xauusd_news/market.py:206-217 | A record is appended unless it is malformed. |
| QuoteReader.FirstLineEnds | xauusd_news/market.py:195-202 | A line ends at its first line break; without one it is not complete. |
| QuoteReader.ReadingOn | xauusd_news/market.py:193-205 | Reading on after the complete lines of a beginning gives the remaining lines of the whole. |
| QuoteReader.EveryCallAgrees | xauusd_news/market.py:111-131 | Over every growing file and non-decreasing decision times each call answers as reading everything again would. |
| QuoteReader.CallAgreesIff | xauusd_news/market.py:111-131 | Over every growing file and arbitrary decision times a call answers as reading everything again would exactly when no row let go before qualifies for it. |
| QuoteReader.EarlierDecisionsLoseRows | xauusd_news/market.py:121-122 | Any complete record let go for a later decision is missing from an earlier one it qualifies for. |
| QuoteAnswers.LinesAre | xauusd_news/market.py:195-205 | The complete lines are the file up to its last line break, cut after every line break. |
| QuoteAnswers.RecordsAre | xauusd_news/market.py:206-217 | The records are those of the lines that parse, in the order of the lines. |
| QuoteAnswers.AnswerIs | xauusd_news/market.py:111-131 | The answer to a call holds exactly the records received by the decision and of the last sixty-one minutes up to it, each once and in the order of time. |

## Left out

- Text: lone surrogates are not characters here; a string that holds one counts as a value outside the JSON types.
- Projection: rows are JSON objects; impact-clock canonicalisation, `sync_inventory` and the API identity digest are not modelled.
- Plan: the time, memory and disk budgets of planning and its metrics are not measured; running out of them is a hash pass that raises.
- Capture: locks, link checks and `fsync` are reduced to a step that may fail before or after it takes effect; cursor components are ranks in their own order.
- CaptureOwner.NewsProjectionSourceCapture.DeriveReaderSegment: the comparisons of the proof documents with the capture's identity are one flag, because they are field equalities.
- Capture: digests over metadata (a segment's, a plan's inputs) are kept as the values they stand for.
- PlanReader.Open: takes a plan that is bound to its capture; the binding and the state checks are in `CaptureOwner.NewsProjectionSourceCapture.OpenPlanReader`.
- Replay.OpenReplay: takes a plan that is bound to its capture; the checks of a plan in progress, a failure or a pending retry are in `CaptureOwner.NewsProjectionSourceCapture.OpenReplayGeneration`.
- Transport: the index's `inputs`, `allowed` and `views` are objects, as the compiler makes them; another shape is refused here. JSON `true` and `1` are different values, which Python's `==` does not tell apart.
- Transport: extraction of facts from source files, Mermaid views and `check_outputs` are not modelled; `check_outputs` compares files with outputs and adds nothing to the results.
- Publication: a directory holds regular files only; links, other entries and the creation of the directory are not modelled. View files that a new index no longer names are the condition of `PublicationRecovery.IsClean`.
- Minutes: prices are integer units and gaps integer ticks; their conversion to floats, the range of dates, and the duplicate and quality counters are not modelled.
- DoubleClock.ClockIs: the error of the clock is worked out for times from 2004-01-10 to 2027-01-31, where doubles are spaced alike; `DoubleClock.FromDouble` itself is defined for all times.
- Retention: the owner directory, the reclaiming of stale temporary files and the state report are not modelled; the digest, schema and source of a plan are one flag, and so are those of a receipt.
- Capacity: the rolling usage of the last minute is an input of a snapshot and of a confirmation; other writers of the shared usage tables are not modelled, and a database error inside a transaction is a rollback.
- CapacityRoute.ExecuteRoute: pools are tried in any order; their scores and the provenance of the answer are not modelled, nor an exception that is not an `Exception`. A transaction that raises has changed nothing.
- MarketSession: New York's offset changes only while the market is closed; `has_fresh_quote` is not modelled.
- Broadcast: payload validation, tokens and the HTTP layer are not modelled; stored states are valid, and dry runs are left out.
- QuoteReader: one plain file whose records parse or are malformed; several files, compressed files and records that raise other errors are not modelled.
