# HelixDB: models and proofs

A Dafny model of four parts of HelixDB, and proofs of what each promises.

**The arena-mirror derive** (`crates/ast-arena-derive`, `crates/ast/src/arena`). For each owned request type the derive
generates a mirror type, a reader that allocates in an arena, and a conversion back. A schema is a datatype (`Schema`),
the arena an append-only sequence of cells, and a mirror value holds indices into it. `OwnedReader` models what serde and
serde_derive do for the owned types, `ArenaReader` what the derive generates, and `MirrorReader` what the generated code
reads apart from where it puts it; all read a JSON value tree. Four steps lead to the main theorems:

- `ArenaAgreement`: for every schema whose generated code compiles, every input and every allocation policy, the generated
  readers compute what `MirrorReader` says, or the arena refused an allocation.
- `ArenaGaps`: at every item, `MirrorReader` and serde agree if and only if the input shows no gap there. A gap is one of
  two inputs, an absent field that only serde fills or a tuple variant that ends before a defaulted element.
- `ArenaContract.ArenaReaderContract`: on every input without a gap at any depth the two readers give the same error or the
  same owned value, whatever is allocated later. `RequestSchema.RequestsReadTheSame` applies it to the schema of all 35
  request types that derive a mirror: they show no gap on any input.
- `WireForm.Reads`: the owned reader accepts exactly the inputs that stand for a value, by a definition of the wire format
  that names no reader. So do the arena readers of the 35 request types (`RequestSchema.RequestsReadTheWire`).

A type whose reader is written by hand (`ReadBatch`) reads its raw type and then checks it. The check is a parameter of the
environment, with one verdict for a mirror and its owned value; for the read-only check of a batch that is
`ArenaBatch.ValidatorsAgree`.

**The guards of the request syntax** (`crates/ast`). `nesting::within` walks a request with an explicit stack; it is proved
to compute the recursive height over all 18 shapes of step, and the predicates, expressions, inputs and values they embed.
`is_read_only` is proved to mean that no mutation is nested anywhere below a root, along exactly the parts the nesting walk
pushes. The read-batch validator, its arena copy, its error paths and the builders are proved against that.

**The open-loop benchmark pipeline** (`scripts/async-index-benchmark`). The schedule generator, the trace and its reader,
the replay (dispatcher, workers and done-callbacks as a transition system over every interleaving), the ledger and its
reader, the lag histograms, the sampler and the summary. `Pipeline.EveryOfferIsReported` joins them: in every interleaving
that finishes, the summary's counters of each phase and kind add up to the kind's rate times the phase's duration.
`Pipeline.EveryConclusionIsCounted` says what each counter counts: the offers that came to that outcome in the run. Every
interleaving makes progress (`ReplayProgress.RunIsBounded`), and it can be brought to its footer if and only if nothing has
raised and plan and digest match (`ReplayEnding.CanFinishIff`).

**Small processors**: the `cfg` evaluator of the repository's source validator, the Go SDK's step fold, and the two
snake-case rules that produce wire tags.

## Where the code differs from what it promises

Each of these is kept as the code has it and shown by a concrete input. A theorem over all inputs says exactly when the code
does what is promised; for the last one it bounds the difference.

- The derive says the two readers accept the same inputs. A required field whose type is an option behind a box is
  recognised as an option by serde and not by the derive (`ArenaContract.BoxedOptionDiffers`). A tuple variant's generated
  reader ignores `#[serde(default)]` (`ArenaContract.DefaultedTupleDiffers`). The readers of an item agree exactly when the
  input shows neither (`ArenaContract.ReadersAgreeIff`); none of the repository's request types can show one.
- A read-only traversal type records the steps appended one after the other, but the root of an embedded sub-traversal is a
  public field, and the read-batch builders do not validate. A batch built from well-typed calls can therefore hold a
  mutation (`Batch.EmbeddedMutationIsMissed`); it re-validates exactly when every embedded root is read-only
  (`Batch.BuiltRevalidates`).
- The trace specification check stops at the first positive rate of a phase, so a later negative rate passes
  (`Workload.NegativeRatePasses`). `Workload.NegativeRateIff` says which valid phases have one, and
  `Workload.NegativeRateOffersNothing` that the schedule then offers nothing of that kind.
- A counter that one sample leaves out can come back lower without being reported (`Samples.VanishedCounterHides`). What is
  reported is exactly a counter below its value in the sample before, or below zero if that one lacks it
  (`Samples.ReportedIff`).
- The Go SDK's snake-case rule gives two names one tag (`Names.SdkTagsCollide`). Two names share a tag exactly when lowering
  the capitals inside their runs makes them one name (`Names.SdkTagsCollideIff`), and a name can be read back from its tag
  exactly when no run of capitals goes on (`Names.SdkInvertsIff`).
- The comment on `within` counts entries, steps, predicates, expressions and list or map values as levels. The code also
  counts property inputs and scalar values (`Nesting.DocumentedDiffers`), which is at most two levels more
  (`Nesting.DocumentedBounds`).

## Conventions

Quantiles are exact ratios. Clocks are nondecreasing integers, and sleeping never returns early. JSON is a value tree.
Random draws, replies, clock readings and allocation refusals are parameters, so each theorem holds for every outcome of
them. A Python dictionary with integer keys is its items in insertion order. Object fields that several threads update under
locks (the pool's slots, its active set, the ledger and the stop flag) are fields of the transition system's state.

## Model

| member | source | states |
|---|---|---|
| ArenaAgreement.MirrorsSurviveAllocation | crates/ast/src/arena/mod.rs:127-131 | Growing the arena keeps every mirror valid and its owned value unchanged |
| ArenaAgreement.DefaultsAgree | crates/ast-arena-derive/src/expand.rs:246-258 | The mirror's default converts to the owned type's default, enums that are their own mirror included |
| ArenaAgreement.TypesAgree | crates/ast-arena-derive/src/mirror.rs:31-100 | For every mirror type and input, reading into the arena and converting back gives the value or error the type stands for, or the arena refused |
| ArenaAgreement.PairsAgree | crates/ast/src/arena/mod.rs:334-379 | Pairs: same lengths accepted, same error for a missing element, same pair |
| ArenaAgreement.VectorsAgree | crates/ast/src/arena/mod.rs:217-266 | Slices: same elements in order, same first error, or a refused allocation |
| ArenaAgreement.MapsAgree | crates/ast/src/arena/map.rs:83-124 | Sorted, deduplicated arena maps convert to the `BTreeMap` that inserting in reading order gives |
| ArenaAgreement.NamedItemsAgree | crates/ast-arena-derive/src/expand.rs:385-644 | The same for derived structs, enums and validated types |
| ArenaAgreement.VariantsAgree | crates/ast-arena-derive/src/expand.rs:434-541 | The same for unit, newtype, tuple and struct variants, payload errors included |
| ArenaAgreement.StructsAgree | crates/ast-arena-derive/src/expand.rs:213-383 | The same for the map and sequence forms of a struct |
| ArenaAgreement.EntriesAgree | crates/ast-arena-derive/src/expand.rs:360-373 | The key loop leaves slots that convert to what was read, or the same error |
| ArenaContract.ArenaChecksAreMade | crates/ast/src/batch.rs:239-249 | A type read by hand: no mirror is made of a value its check refuses, and where the raw fields read, the check's message is the error |
| ArenaAgreement.FinishesAgree | crates/ast-arena-derive/src/expand.rs:279-294 | Filling absent fields in the arena gives what the field type says, or the same missing field |
| ArenaContract.ArenaReaderContract | crates/ast/src/arena/mod.rs:17-24 | For every schema that compiles and every input without a gap: the readers accept the same inputs and report the same errors, or the arena refused an allocation; the owned value comes back, after any later allocations |
| ArenaContract.HonouredContract | crates/ast-arena-derive/src/expand.rs:4-9 | On schemas without boxed options and defaulted tuple elements, the same for every input |
| WireForm.Reads | crates/ast-arena-derive/src/expand.rs:4-9 | For every schema, type and input: the owned reader gives a value if and only if the input stands for it, by a definition that names no reader |
| WireForm.ChecksAreMade | crates/ast/src/batch.rs:176-184 | A validated type: no value its check refuses is accepted, and the check's message is the error |
| ArenaContract.ArenaReadsTheWire | crates/ast/src/arena/mod.rs:17-24 | On every input without a gap the arena reader yields a value if and only if the input stands for it |
| ArenaContract.ReadersAgreeIff | crates/ast-arena-derive/src/expand.rs:4-9 | For any item of a schema that compiles, where nested values agree: the readers agree if and only if the input shows no gap at that item |
| RequestSchema.RepositoryServes | crates/ast/src/index.rs:28-68 | The 35 request types of the repository, defaulted enum fields included, meet the conditions of the contract |
| RequestSchema.RequestsReadTheSame | crates/ast/src/arena/mod.rs:17-24 | Every request type of the repository reads the same through the arena, on every input |
| RequestSchema.RequestsReadTheWire | crates/ast/src/arena/mod.rs:17-24 | For every request type of the repository the arena reader yields a value if and only if the input stands for it |
| FittingSchema.FittingIsHonoured | crates/ast-arena-derive/src/mirror.rs:31-112 | A check of field types alone ensures that a schema compiles and shows no gap |
| ArenaGaps.ItemAgreesIff | crates/ast-arena-derive/src/expand.rs:385-644 | For structs, enums and validated types: the generated reading is serde's if and only if the input shows no gap there |
| ArenaGaps.ClearReadsTheSame | crates/ast-arena-derive/src/expand.rs:4-9 | For every field type: without a gap at any depth, the generated reading is serde's |
| ArenaGaps.MapFormAgreesIff | crates/ast-arena-derive/src/expand.rs:279-294 | On the map form, for inputs whose known values agree: the readings are one if and only if the keys fail, nothing is refused, or serde refuses the first refused field too |
| ArenaContract.BoxedOptionDiffers | crates/ast-arena-derive/src/mirror.rs:102-112 | A struct and input on which the readers differ, an absent boxed option; on any supplied text they agree |
| ArenaGaps.TupleFormAgreesIff | crates/ast-arena-derive/src/expand.rs:459-521 | Tuple variants of any schema agree unless all supplied elements read and the first absent one has a default |
| ArenaContract.DefaultedTupleDiffers | crates/ast-arena-derive/src/expand.rs:468-486 | An enum of the schema and an input on which its readers differ |
| SortedEntries.NormalizeIsTheBTreeMap | crates/ast/src/arena/map.rs:108-115 | Reverse, stable sort and dedup give strictly sorted entries that collect to the map keeping each key's last value |
| SortedEntries.BinarySearch | crates/ast/src/arena/map.rs:37-43 | Lookup by binary search finds exactly what the collected map holds |
| Visitors.VisitMap | crates/ast-arena-derive/src/expand.rs:360-380 | The generated loop over keys fills the slots, reports and allocates as specified |
| Visitors.VisitSlice | crates/ast/src/arena/mod.rs:235-250 | The slice visitor's reserve-read-push loop reads and allocates as specified |
| Visitors.Bump.TryAlloc | crates/ast/src/arena/mod.rs:82-101 | Handles given out before keep their owned values; a new handle was not in use, and a refusal changes nothing |
| StructForms.UnknownKeysAreIgnored | crates/ast-arena-derive/src/expand.rs:367-371 | In the generated key loop, entries whose key names no field leave no trace in slots or arena |
| StructForms.MapFormIgnoresOrder | crates/ast-arena-derive/src/expand.rs:360-380 | Permuting distinct keys and interleaving unknown ones changes nothing that is read |
| StructForms.DuplicatesComeFirst | crates/ast-arena-derive/src/expand.rs:261-278 | The generated loop stops at the first repeated key, whatever that value and the later ones are |
| StructForms.MissingNamesTheFirst | crates/ast-arena-derive/src/expand.rs:279-294 | The generated missing-field error names the first absent field without a default, and only then occurs |
| StructForms.FormsAgree | crates/ast-arena-derive/src/expand.rs:352-380 | Supplying every field by name reads as supplying them in declaration order |
| StructForms.GeneratedMapFormIgnoresOrder | crates/ast-arena-derive/src/expand.rs:360-380 | Two orders of one object lead the generated reader to one error or to mirrors of one owned value |
| StructForms.GeneratedFormsAgree | crates/ast-arena-derive/src/expand.rs:352-380 | The generated map form and sequence form come to the same when every field is supplied |
| StructForms.GeneratedReportsDuplicates | crates/ast-arena-derive/src/expand.rs:261-278 | The generated struct reader reports a repeated key before anything missing, unknown keys in between |
| Nesting.ChildrenArePushed | crates/ast/src/nesting.rs:32-356 | What one turn pushes has exactly the part's height less one level and its size less one: every embedded part once |
| Nesting.StepPushed | crates/ast/src/nesting.rs:136-356 | The same for each shape of traversal step |
| Nesting.Within | crates/ast/src/nesting.rs:24-133 | The stack walk terminates and returns true if and only if every root's recursive height is within the maximum |
| Nesting.DocumentedBounds | crates/ast/src/nesting.rs:24-26 | The height is at least what the comment counts, and at most two levels more |
| Nesting.DocumentedDiffers | crates/ast/src/nesting.rs:24-26 | Requests that meet the two bounds |
| ReadOnly.ReadOnlyIsClean | crates/ast/src/traversal.rs:665-773 | `is_read_only` holds if and only if no mutation is nested below the root at any depth |
| ReadOnly.SpineAndBranches | crates/ast/src/traversal.rs:1456-1515 | The check holds if and only if the appended steps and the embedded roots are both read-only |
| Batch.DecimalReadsBack | crates/ast/src/batch.rs:186-197 | The index printed in a path reads back and holds no bracket |
| Batch.ValidateReports | crates/ast/src/batch.rs:186-197 | The validator reports the path of the first query in document order that is not read-only |
| Batch.AcceptsClean | crates/ast/src/batch.rs:186-197 | It accepts if and only if no mutation is nested below the entries, at every `for_each` depth |
| Batch.PlacesAreDistinct | crates/ast/src/batch.rs:186-197 | No two queries of a batch share a path |
| Batch.PlacesLead | crates/ast/src/batch.rs:186-197 | Following the indices of a query's path through the entries leads to that query, at every depth |
| Batch.ReportedPathLeads | crates/ast/src/batch.rs:186-197 | The path a batch is refused with leads to a root that is not read-only |
| Batch.TryFromParts | crates/ast/src/batch.rs:96-106 | Exactly these parts when clean, otherwise the first offender's path, which leads to a root that is not read-only |
| Batch.ReadBatch.constructor | crates/ast/src/batch.rs:90-94 | An empty batch, which validates |
| Batch.ReadBatch.VarAs | crates/ast/src/batch.rs:127-154 | Appends one query; the batch still validates if and only if it did and the root's embedded traversals are read-only |
| Batch.ReadBatch.ForEachParam | crates/ast/src/batch.rs:156-163 | Appends one body; validates if and only if both batches do |
| Batch.ReadBatch.Returning | crates/ast/src/batch.rs:165-173 | Overwrites the returned variables and keeps the entries |
| Batch.BuiltRevalidates | crates/ast/src/batch.rs:127-173 | Over every sequence of well-typed builder calls: re-validates if and only if every embedded root is read-only |
| Batch.EmbeddedMutationIsMissed | crates/ast/src/traversal.rs:1197-1202 | Well-typed builder calls whose batch does not validate |
| ArenaBatch.ReadOnlyAgrees | crates/ast/src/traversal.rs:801-905 | The arena check decides as the owned one does on the converted step |
| ArenaBatch.ValidatorsAgree | crates/ast/src/batch.rs:222-237 | Both validators give one verdict and one path on mirrored entries |
| ArenaStore.StoreKeeps | crates/ast/src/arena/mod.rs:17-21 | Every step, of every shape, has a mirror that converts back to it, and storing it disturbs nothing stored before |
| ArenaStore.StoredValidates | crates/ast/src/batch.rs:222-237 | Every batch has a mirror that converts back to it and gets the batch's verdict and path from the arena validator |
| Ledger.Classify | scripts/async-index-benchmark/replay.py:234-275 | Every reply has one of the kind's known outcomes; success exactly on status 200 |
| Ledger.UncertainWrites | scripts/async-index-benchmark/replay.py:32-38 | A write is counted as unknown or timed out if and only if its reply leaves open whether it was carried out |
| Ledger.OutcomesAreExact | scripts/async-index-benchmark/replay.py:39-59 | The known outcomes of a kind are exactly those some reply gives, and the overload recorded without one |
| Ledger.File.Append | scripts/async-index-benchmark/replay.py:122-127 | Appends one record and keeps the counts equal to the recount |
| Ledger.TalliesAreExact | scripts/async-index-benchmark/replay.py:122-127 | Each counter is the number of results of that kind and outcome |
| Ledger.LoadAcceptsIff | scripts/async-index-benchmark/summarize.py:35-55 | Accepts if and only if framed, one known outcome per planned id, and the footer is the recount |
| Replay.Failure.Set | scripts/async-index-benchmark/replay.py:130-140 | Over every sequence of errors: the first one is kept, and the stop flag is set exactly when there was one |
| ReplaySafety.StepKeepsInv | scripts/async-index-benchmark/replay.py:143-191 | Every atomic step of dispatcher, workers and callbacks keeps the invariant |
| ReplaySafety.RunKeepsInv | scripts/async-index-benchmark/replay.py:392-411 | Every state of every interleaving satisfies the invariant |
| ReplaySafety.PoolSafety | scripts/async-index-benchmark/replay.py:154-191 | Slots are conserved, active work holds slots, overload only when a pool is full, nothing submitted early, at most one submission after the stop flag |
| ReplaySafety.AtMostOneResult | scripts/async-index-benchmark/replay.py:160-278 | In every interleaving the start record is first and no offer has two results |
| ReplaySafety.JudgedIsComplete | scripts/async-index-benchmark/replay.py:412-422 | Without an error, every offered request has its one counted result |
| ReplaySafety.FinishedLedgerLoads | scripts/async-index-benchmark/replay.py:412-434 | A ledger with a footer holds one result per planned id, and the summary's reader accepts it |
| ReplayRecords.ResultsAreSourced | scripts/async-index-benchmark/replay.py:234-278 | In every interleaving, every result is an overload or what a reply of the run to that offer is classified as |
| ReplayRecords.RepliesAreRecorded | scripts/async-index-benchmark/replay.py:234-278 | In every interleaving, every reply whose record reached the file is in it |
| ReplayRecords.FinishedResultsTell | scripts/async-index-benchmark/replay.py:211-278 | In a ledger with a footer, results carry their offers' identity, time and kind, are overloads if and only if the offer's pool was held, and otherwise come from a reply |
| ReplayRecords.AcknowledgedIsRecorded | scripts/async-index-benchmark/replay.py:234-278 | A write answered with 200 is in that ledger as acknowledged |
| ReplaySafety.NoDeadlock | scripts/async-index-benchmark/replay.py:280-283 | Until it has finished or failed, some step other than the clock's is enabled |
| ReplayProgress.StepUsesWork | scripts/async-index-benchmark/replay.py:154-191 | Every step of every thread but a tick and a look at the clock before an offer's time leaves less work |
| ReplayProgress.RunIsBounded | scripts/async-index-benchmark/replay.py:392-411 | In every interleaving the steps taken are bounded by the trace's length and the early looks at the clock |
| ReplayProgress.DueRunsEnd | scripts/async-index-benchmark/replay.py:392-411 | Once the clock has reached every offer's time, every order of the threads ends within the work left |
| ReplayProgress.StoppedRunsEnd | scripts/async-index-benchmark/replay.py:392-411 | Once the stop flag is set, every order of the threads ends within the work left, however early the clock is |
| ReplayProgress.ReleasedBeforeNext | scripts/async-index-benchmark/replay.py:174-191 | In every interleaving, a request that is done when its callback is added has released its slot before the next offer is fetched |
| ReplayProgress.CanEnd | scripts/async-index-benchmark/replay.py:392-434 | From every reachable state the run can finish or fail |
| ReplayEnding.HarmIsNotLost | scripts/async-index-benchmark/replay.py:154-191 | In every interleaving: once reading the trace, submitting, a request or a ledger write has raised, every later state has the error recorded, a callback that will record it, or a dispatcher that raised |
| ReplayEnding.FinishedMeans | scripts/async-index-benchmark/replay.py:412-434 | A run that wrote its footer had nothing raise and dispatched the whole planned trace with the digest it should have |
| ReplayEnding.CanFinishIff | scripts/async-index-benchmark/replay.py:392-434 | A run can still be brought to its footer if and only if nothing has raised, the trace holds the whole plan and the digests agree |
| Buckets.BitLength | scripts/async-index-benchmark/samples.py:139-144 | The bit length is the power of two that bounds the number |
| Buckets.FloorIsClose | scripts/async-index-benchmark/samples.py:139-144 | The floor is at or below the lag, by less than one eighth of the floor |
| Buckets.FloorIsIdempotent | scripts/async-index-benchmark/samples.py:139-144 | A floor is its own floor |
| Buckets.FloorIsMonotone | scripts/async-index-benchmark/samples.py:139-144 | A later lag is never in an earlier bucket |
| Buckets.BoundIff | scripts/async-index-benchmark/samples.py:34-36 | The floors are exactly the integers below 16 and the q * 2^s with 8 <= q < 16 and s >= 1 |
| Buckets.FloorIsGreatestBound | scripts/async-index-benchmark/samples.py:139-144 | The floor of a lag is the greatest of those bounds not above it |
| Histograms.NearestRankIsLeast | scripts/async-index-benchmark/samples.py:147-149 | The rank is the least that covers the quantile's share |
| Histograms.BucketQuantile | scripts/async-index-benchmark/samples.py:152-163 | The loop finds the first key whose running count reaches the rank; its assertion never fires |
| Histograms.SumIsCount | scripts/async-index-benchmark/samples.py:152-156 | A histogram's total is the number of lags |
| Histograms.QuantilesCommute | scripts/async-index-benchmark/samples.py:139-163 | The bucket quantile of a histogram is the bucket of the exact percentile of the lags |
| LagWindow.Difference | scripts/async-index-benchmark/samples.py:166-189 | Accepts exactly the pairs of samples that pass the checks; the first faulty item decides the error |
| LagWindow.MeanIsAverage | scripts/async-index-benchmark/samples.py:183-185 | The mean of a window is that of the lags recorded between its samples |
| LagWindow.AcceptsIff | scripts/async-index-benchmark/samples.py:166-179 | Consistent samples have a window if and only if keys are bounds and no bucket shrank or vanished |
| LagWindow.WindowIsExact | scripts/async-index-benchmark/samples.py:166-189 | An accepted window is exactly what was added to every bucket |
| LagWindow.WindowsCompose | scripts/async-index-benchmark/samples.py:166-189 | Adjoining windows join into an accepted window that adds them up |
| LagWindow.WindowHolds | scripts/async-index-benchmark/samples.py:166-189 | The window between two samples is the histogram of the lags recorded between them |
| LagWindow.QuantilesAreOrdered | scripts/async-index-benchmark/samples.py:180-182 | p50 <= p95 <= p99 of a window |
| Samples.Check | scripts/async-index-benchmark/samples.py:56-91 | Accepts exactly contiguous streams of one role whose elapsed time never goes back, and returns their anomalies |
| Samples.FaultlessIff | scripts/async-index-benchmark/samples.py:69-76 | The stream goes through if and only if samples are numbered from zero, have one role, and no earlier one has a later elapsed time |
| Samples.FindFinds | scripts/async-index-benchmark/samples.py:88 | A counter's previous value is found if and only if the previous sample prints it |
| Samples.ReportedIff | scripts/async-index-benchmark/samples.py:73-90 | An anomaly is reported if and only if its sample miscounts, or prints that counter below the previous sample's value or zero |
| Samples.NothingToReport | scripts/async-index-benchmark/samples.py:73-90 | No anomalies if and only if every sample counts every acknowledged lag and prints no counter below its previous value |
| Samples.CountersOnlyGrow | scripts/async-index-benchmark/samples.py:84-90 | With nothing reported, a counter never goes down while samples keep printing it |
| Samples.VanishedCounterHides | scripts/async-index-benchmark/samples.py:84-90 | A stream in which an unreported counter goes down |
| Samples.BracketCovers | scripts/async-index-benchmark/samples.py:122-128 | A window is spanned if and only if samples lie on both sides of it |
| Samples.BracketIsTight | scripts/async-index-benchmark/samples.py:124-129 | The last sample at or before the start and the first at or after the end |
| Samples.GapsAreShort | scripts/async-index-benchmark/samples.py:14-20 | The boundary gaps are less than one sample interval |
| Schedule.PhaseBounds | scripts/async-index-benchmark/workload.py:75-83 | Phases follow each other without gaps |
| Schedule.StreamIsInPhase | scripts/async-index-benchmark/workload.py:97-99 | A kind's offers lie inside their phase |
| Schedule.MergeIsSorted | scripts/async-index-benchmark/workload.py:93-94 | Merging gives the order of time and then kind |
| Schedule.MergeIsComplete | scripts/async-index-benchmark/workload.py:93-94 | Merging loses, adds and reorders nothing within a kind |
| Schedule.ScheduleIsSorted | scripts/async-index-benchmark/workload.py:86-94 | The multi-phase schedule never goes back in time |
| Schedule.ScheduleIsOrdered | scripts/async-index-benchmark/workload.py:93-94 | Of offers at one time, eventual searches come before strong ones, and those before writes |
| Schedule.OfferIsInOnePhase | scripts/async-index-benchmark/summarize.py:86-89 | Every offer lies in exactly one phase, its own, and the summary's lookup finds it |
| Schedule.NoDrift | scripts/async-index-benchmark/workload.py:86-99 | For each kind and its own rate: offers before time t number min(rate * duration, ceil(t * rate / 10^9)) |
| Schedule.EverySecondIsEven | scripts/async-index-benchmark/workload.py:86-99 | For each kind and its own rate: every whole second gets exactly the rate, and the phase rate times duration |
| Workload.Validate | scripts/async-index-benchmark/workload.py:40-72 | Accepts exactly the well-formed specifications |
| Workload.NegativeRateIff | scripts/async-index-benchmark/workload.py:69-70 | A valid phase has a negative rate if and only if a positive one comes before it in the order of the check |
| Workload.NegativeRateOffersNothing | scripts/async-index-benchmark/workload.py:93-99 | The schedule offers nothing of a kind whose rate is negative |
| Workload.NegativeRatePasses | scripts/async-index-benchmark/workload.py:69-70 | An accepted specification with a negative rate |
| Workload.SomethingIsOffered | scripts/async-index-benchmark/workload.py:69-70 | A valid specification offers at least one request |
| Workload.ReadOffers | scripts/async-index-benchmark/replay.py:101-113 | Reads all rows if and only if identities are contiguous and times ordered, and otherwise stops at the first bad row |
| Workload.TraceIsReadable | scripts/async-index-benchmark/workload.py:165-256 | Every valid specification's trace passes the replay reader |
| Workload.RollsAreShared | scripts/async-index-benchmark/workload.py:147-177 | Of the rolls 0 to 99, exactly each operation's percentage selects it, and the rest update |
| Workload.ChooseWrite | scripts/async-index-benchmark/workload.py:169-221 | One write lands in the cohort its draws select |
| Workload.Generate | scripts/async-index-benchmark/workload.py:141-221 | For every random outcome: deletes never meet updates or removals, inserts are consecutive from the row count, lookups are in the seed |
| Summary.PercentileIsRanked | scripts/async-index-benchmark/summarize.py:58-73 | A percentile has at least its rank of values not above it and fewer under it |
| Summary.PercentilesAreOrdered | scripts/async-index-benchmark/summarize.py:58-73 | p50 <= p95 <= p99 <= max |
| Summary.ByPhase | scripts/async-index-benchmark/summarize.py:86-89 | Each counter is the number of results of that phase, kind and outcome, or a result lies outside every phase |
| Pipeline.OfferedAsSpecified | scripts/async-index-benchmark/workload.py:86-99 | The schedule offers each kind of a phase exactly its rate times the duration |
| Pipeline.CountersAddUp | scripts/async-index-benchmark/summarize.py:86-89 | The counters of a phase and kind, over all outcomes, add up to the results that fall into it |
| Pipeline.ReportedAsOffered | scripts/async-index-benchmark/summarize.py:86-89 | One result per id that carries its offer's time and kind makes the summary's counters add up to the schedule |
| Pipeline.EveryOfferIsReported | scripts/async-index-benchmark/summarize.py:35-89 | In every interleaving that finishes, the ledger loads and the counters of each phase and kind add up to that kind's rate times the phase's duration |
| Pipeline.EveryConclusionIsCounted | scripts/async-index-benchmark/summarize.py:35-89 | In every interleaving that finishes, each counter is the number of offers of that phase and kind that came to that outcome in the run |
| Sampler.Collect | scripts/async-index-benchmark/resources.py:175-227 | Succeeds if and only if every turn passes up to the first sample at or after the deadline; each wait is for the first tick after the last sample, and deltas are last less first reading |
| Sampler.Rescheduled | scripts/async-index-benchmark/resources.py:198-202 | The next wait is tick count + skipped |
| Sampler.RunProgress | scripts/async-index-benchmark/resources.py:77-95 | Over a whole run no counter disappears or goes down, and neither does the peak |
| Cfg.Cursor.Parse | scripts/validate-cargo-target-references.py:501-515 | The shared cursor computes the evaluation from its position and stops where that stops |
| Cfg.Cursor.ParseGroup | scripts/validate-cargo-target-references.py:505-512 | The same for a group's arguments |
| Cfg.EvalReadsBack | scripts/validate-cargo-target-references.py:496-517 | On a printed tree among any tokens: its meaning, stopping exactly past it |
| Cfg.PrintedTreeEvaluates | scripts/validate-cargo-target-references.py:496-517 | A printed tree evaluates to its meaning and every token is consumed |
| GoFold.StepsToAst | sdks/go/dsl.go:1670-1683 | The first faulty step's error, or a request whose input spine is what the steps kept |
| GoFold.FoldSucceedsIff | sdks/go/dsl.go:1461-1627 | With no initial input: success if and only if nonempty, all steps known and encodable, and the first needs no input |
| GoFold.SpineIsSuffix | sdks/go/dsl.go:1461-1627 | The spine is exactly the suffix from the last source step |
| Names.Variant | crates/ast-arena-derive/src/model.rs:79-95 | The derive's fold computes serde's snake-case tag |
| Names.SnakeName | sdks/go/dsl.go:63-81 | The SDK's loop computes its tag |
| Names.SerdeInverts | crates/ast-arena-derive/src/model.rs:79-95 | A PascalCase name is recovered from its tag |
| Names.TagsAreDistinct | crates/ast-arena-derive/src/model.rs:79-95 | Distinct variants never share a wire tag |
| Names.RulesAgreeIff | sdks/go/dsl.go:63-81 | The rules give one tag if and only if no run of capitals goes on |
| Names.SdkTagsCollide | sdks/go/dsl.go:63-81 | Two names with one SDK tag |
| Names.SdkTagsCollideIff | sdks/go/dsl.go:63-81 | Two names share an SDK tag if and only if lowering the capitals inside their runs makes them one name |
| Names.SdkInvertsIff | sdks/go/dsl.go:63-81 | The SDK's tag gives the name back if and only if no run of capitals goes on |

## Left out

- The planner, the storage engine, the graph algorithms and query execution: nothing here models what a request does.
- serde and serde_derive: `OwnedReader` states their documented behaviour; their code is not part of this model.
- Numeric and byte keys of generated identifier visitors: the input is a JSON tree, whose keys are text.
- Foreign field types: their readers, defaults and treatment of absence are parameters, as is the check of a validated type.
- Size hints and byte counts of arena allocations: an allocation is granted or refused by an arbitrary policy.
- The pool's methods as an object: they interleave, so the pool is a transition system on values, and aliasing is not modelled.
- The `connections` dictionary, request headers, digests, UUIDs and sockets: a reply is a parameter of the step that records it.
- Interrupts of the dispatcher between statements: exceptions arise only where the code calls out.
- The payloads of a trace row, and the seed, fixture and manifest checks of `generate`.
- Field sets and value types of a specification, a trace row and a sample: the model's fields are typed.
- Batch.ReadBatch.VarAs: takes the traversal's root, so the panic of a traversal without one is not modelled.
- The write batch, which keeps no invariant.
- Ledger.Load: states acceptance exactly; which of several rejections is raised follows the order of the checks.
- Histograms.NearestRank: is exact, so the rounding of a floating-point product is not modelled.
- LagWindow.Difference: leaves out the percentiles, which `Histograms.BucketQuantile` computes, and the text form of keys.
- The latency, throughput and resource reports of the summary beyond percentiles and phase counts.
- Cfg.Cursor.Parse: works on tokens; the regular expression that makes them is not modelled.
- GoFold.StepsToAst: does not model type assertions on payloads, and nests a payload as an opaque value.
- Names.Variant: covers ASCII names; the derive's lowercase and identity rules, which change letter case only, are left out.
