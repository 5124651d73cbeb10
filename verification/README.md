# Reductions, reads and resumption of carta-zarr, modelled in Dafny

carta-zarr reads image cubes stored as Zarr arrays. This project models what the library computes over
them and how it keeps that right while the work is cut up, and proves it for every input, every schedule
and every run. The parts are:

- **Reductions.** Spectral profiles over regions and histograms over planes and cubes, from the caller's
  request to the block handed to the sink: placing and indexing the regions, cutting what they occupy into
  reads, walking the spectrum block by block, binning or accumulating each read in tasks, merging the tasks,
  and handing over. The main results are end to end: `SpectralReduce.ReduceSpectral`,
  `Histograms.ComputeHistogram`, `CubeHistograms.ComputeCubeHistogram`.
- **The worker pool.** Its threads as a state machine over the steps each takes under the mutex, with parked
  threads, notifications and chance wake-ups as steps of their own. The results are about every interleaving,
  and every call ends.
- **Reads.** A request checked, cut into pieces that share no chunk, read and masked in place; a sample of one
  element a chunk; and what decoding costs, the flag's own chunks included.
- **Reading ahead.** Which run of chunks to decode next while an animation plays, and every interleaving of
  the frames served, the decoding threads and cancelling.
- **String arrays.** The codec chain, its checksums and fixed-length UTF-32 text.
- **Resuming a benchmark.** The CSV log as text, a process that may die at any character of any write, and any
  number of runs that resume from what is left.

Pixels are real numbers, infinities or NaN, and sums are exact. A callback is modelled by the list of calls
made of it; what an outside component answers (the store, a caller's sink, the clock) is a parameter.
`dafny verify dfyconfig.toml` checks everything.

## Findings

Where the code and what is written of it disagree, the model follows the code.

- `src/work_pool.h:62-65` promises each body under way a worker index of its own. Two callers that each Run
  one task share one: such a Run is made inline, without waiting its turn, and its body is worker 0 (`WorkPoolIndices.TwoInlineRunsShare`). A call keeps the promise exactly when nobody inline is
  inside and, if it will be made inline itself, nobody is inside at all
  (`WorkPoolIndices.SafeExactlyWhenKeptApart`). The pool's own Runs never break it
  (`WorkPoolIndices.SharedOnlyInline`).
- `src/reduce/occupancy.h:225-237` promises no regions for a chunk no region occupies. A chunk right of the
  grid has the number of a cell in the next row and is answered with that cell's regions
  (`Occupancies.RightOfTheGridWraps`, `Occupancies.AnswersRightOfTheGrid`). The promise is kept exactly when
  the chunk is in the grid's columns or the cell of that number is unoccupied
  (`Occupancies.NoneForUnoccupiedExactly`). A reduction asks only of chunks on the grid.
- `src/reduce/growing_histogram.h:28-33` says that doubling keeps every count. With an odd number of bins the
  last one has no pair and is dropped, as with [0, 0, 1] (`GrowingHistograms.OddGrowthLoses`): the counts are
  kept exactly when the number is even or the last bin is empty (`GrowingHistograms.GrowthKeepsCounts`). The
  library always asks for a power of two (`ProvisionalHistograms.Resolution`).
- Run again without resuming, `bench/main.cc:183-192` writes a completed trial beside the rows it already has,
  and the log then holds two attempts at it (`ResumeSessions.WrittenAgain`). It stays at one attempt exactly when
  nothing is written or the log has no row of the trial (`ResumeSessions.AttemptJoins`), which resuming sees to.

## Model

| member | source | states |
|---|---|---|
| SpectralReduce.ReduceSpectral | src/reduce/spectral_reduce.cc:121-333 | Whatever ends it, every complete block handed over holds, for each region, requested statistic and channel, the report of the totals over exactly the pixels the caller's region picks on the image's own axes, each counted once; an incomplete block has a completeness strictly between 0 and 1; the blocks come in turn, and when the run finishes they cover the selection. Nothing asked and refused are told apart by an if-and-only-if |
| SpectralReduce.CarryOut | src/reduce/spectral_reduce.cc:198-333 | Carrying out any list of calls the pass may make, stopped anywhere by a failing read, the control or the sink, every block handed over tells what has been read of its channels and no more |
| SpectralReduce.AllRead | src/reduce/pass.h:375-396 | A block whose every footprint was read at every channel has read exactly the pixels of every region |
| SpectralReduce.OverPicked | src/reduce/spectral_reduce.cc:148-157 | Totals over a placed region in the walk's axes equal totals over what the caller picked in the image's, whether or not the axes are swapped |
| SpectralReduce.CompleteAnswers | src/reduce/spectral_reduce.cc:323-333 | A complete block answers the request: every requested statistic of every region is that of the caller's own pixels |
| Accumulate.AccumulateSpan | src/reduce/spectral_reduce.cc:104-119 | For each of the loops a span may take (stride, mask, deviations), the row's totals afterwards are those before plus the totals over the span's selected pixels |
| Accumulate.DeviationShift | src/reduce/deviations.h:31-41 | The shift is the first selected finite pixel, or zero exactly when there is none |
| SlabReduction.AccumulateUnit | src/reduce/spectral_reduce.cc:241-281 | One chunk cell at one channel adds to every region exactly the totals over that region's pixels in the cell, for touched and untouched regions alike |
| SlabReduction.RunTask | src/reduce/spectral_reduce.cc:291-318 | A task's partial ends holding exactly its run of units |
| SlabReduction.UnitIsCell | src/reduce/spectral_reduce.cc:305-316 | A unit's number and its channel, cell row and cell column determine each other |
| SlabTasks.AccumulateSlab | src/reduce/spectral_reduce.cc:209-321 | Whatever order the tasks finish in, and however many there are, the accumulator gains exactly the totals over the regions' pixels in the footprint, for the slab's channels and no other |
| Slots.StatisticSlots.Reset | src/reduce/statistic_slots.h:109-132 | Every cell holds the totals of nothing |
| Slots.StatisticSlots.Fold | src/reduce/statistic_slots.h:141-174 | A row's totals are put into one region at one channel, and no other cell changes |
| Slots.StatisticSlots.MergeInOrder | src/reduce/statistic_slots.h:180-228 | The contents become those before with each partial's put in, in order, at its channels |
| Slots.StatisticSlots.HandOver | src/reduce/statistic_slots.h:240-255 | The block reports the accumulator's contents, an extremum of nothing as NaN, and the accumulator is left value for value as it was found |
| Slots.SettledBack | src/reduce/statistic_slots.h:287-305 | Settling a block for the sink and settling it back is the identity |
| Statistics.LayoutOf | src/reduce/statistic_slots.h:61-74 | The layout has exactly the requested statistics, and num_pixels and sum beside sum_sq_dev; each has its own slot |
| Statistics.PutTogetherShowsPlus | src/reduce/statistic_slots.h:180-228 | Merging two cells statistic by statistic shows the totals of both sets of pixels, the spread included |
| Statistics.DeviationsReported | src/reduce/deviations.h:44-75 | What is reported as sum_sq_dev is what the finite pixels' squared distances from their mean add up to |
| Deviations.MergeDescribes | src/reduce/deviations.h:77-90 | Merging the spreads of two sets describes the count, mean and squared deviations of their union, whatever bases each was taken from |
| Deviations.SpanDescribes | src/reduce/deviations.h:66-72 | A span's spread has the right mean and squared deviations whatever shift its distances were taken from, and the clamp at zero changes nothing |
| Deviations.SpreadIsOfTheMean | src/reduce/deviations.h:44-60 | A spread that describes a set of pixels holds their mean and the sum of squared distances from it |
| Occupancies.Of | src/reduce/occupancy.cc:57-314 | It succeeds exactly when the regions are acceptable and touch no more chunks than one reduction indexes; what it builds is the regions in order on the walk's axes, the least box that holds them, the grid of the chunks it has pixels in, and an index of exactly the occupied cells with their regions ascending. No regions and too many regions are refused by name, each by an if-and-only-if |
| Occupancies.RegionsTouchingAreExact | src/reduce/occupancy.h:225-237 | Of a chunk on the grid: exactly the regions with a selected pixel in it, ascending, each once |
| Occupancies.NoneForUnoccupiedExactly | src/reduce/occupancy.h:225-237 | Of an unoccupied chunk anywhere at or past the grid's corner: it is answered with none if and only if it is on the grid's columns or no region occupies the cell its number falls on |
| Occupancies.AnswersRightOfTheGrid | src/reduce/occupancy.h:225-237 | An occupancy Of makes, and an unoccupied chunk right of its grid that is answered with a region |
| CellScan.ScanRegion | src/reduce/occupancy.cc:160-258 | The cells recorded for a region are exactly those holding one of its selected pixels, in order, each once, or the limit was passed |
| Grouping.GroupByKey | src/reduce/occupancy.cc:259-300 | The counting sort: the values grouped by key in key order, stably, and where each group begins |
| Regions.PlacedSelects | src/reduce/occupancy.h:30-91 | A placed region selects on the walk's axes exactly what the caller picked on the image's |
| Regions.ForEachSpan | src/reduce/occupancy.h:66-91 | The spans of a row are in order, apart, inside the bounds, and cover exactly the row's selected pixels, from runs or from a raster alike |
| Footprints.Footprints | src/reduce/occupancy.cc:316-376 | Each occupied chunk is in exactly one footprint and no other chunk in any; each footprint fits a read and is clamped to the regions; their chunks add up to LayerChunks |
| Footprints.BoxesAreDisjoint | src/reduce/occupancy.h:205-223 | The pixel boxes of two footprints share no pixel |
| Footprints.EverySelectedPixelIsRead | src/reduce/occupancy.h:205-223 | Every selected pixel of every region is in the box of some footprint |
| RegionRuns.RunsAlongU | src/reduce/region_runs.cc:136-153 | A raster becomes runs exactly when it is small enough and its runs few enough; the runs made are the edges of its lines, row by row or column by column |
| RegionRuns.AlongY | src/reduce/region_runs.cc:87-134 | The one-pass column encoder makes exactly the runs of the columns |
| RegionRuns.AlongX | src/reduce/region_runs.cc:39-85 | The row encoder, eight bytes at a time, makes exactly the runs of the rows |
| RegionRuns.RunsAreTheLine | src/reduce/region_runs.h:20-47 | The runs of a line select exactly its selected pixels |
| RegionRuns.RunsAreMaximal | src/reduce/region_runs.h:20-47 | Each run is non-empty, inside the line, bounded by unselected pixels, and ends before the next begins |
| RegionRuns.EncodingIsUnique | src/reduce/region_runs.h:20-47 | Lines have one encoding only |
| RegionRuns.ColumnsAreTransposedRows | src/reduce/region_runs.h:20-47 | The column encoder's lines are the row encoder's lines of the transposed raster |
| Passes.InBlocks | src/reduce/pass.h:282-326 | The calls made, in order, are all ones a pass may make: each block reset once, each footprint read at each of its channels once, partial hand-overs only before a later read, one complete hand-over last; the blocks are consecutive and reach the end of the selection |
| Passes.Whole | src/reduce/pass.h:336-352 | One run over the whole selection: progress only before a later read, every footprint visited at every channel, and the chunks counted at the end are those the run covers |
| Passes.FractionsAscend | src/reduce/pass.h:305-312 | The completeness told of one block strictly increases and stays strictly between 0 and 1 until the block is whole |
| Passes.WholeBlockRead | src/reduce/pass.h:83-132 | A walk over every footprint has visited each at each channel and counted exactly the block's chunks |
| PlaneBands.Bands | src/reduce/pass.h:140-176 | Every sampled pixel of the plane is in exactly one band, no other pixel in any; each fits a read; their chunks are the layer's |
| PlaneBands.PlanPassIs | src/reduce/pass.cc:12-48 | The plan made for any request is one the walk may use, and its layer is what the bands add up to |
| PlaneBands.SampledRangeIs | src/reduce/pass.h:37-44 | The start and the count are exactly the multiples of the stride in the range |
| PlaneReads.EachSampleOnce | src/reduce/pass.h:83-176 | Over a finished pass, each sampled pixel of each selected channel is visited exactly once and nothing else is: the number of visits to any (pixel, channel) is 1 or 0 |
| SlabReads.ReadSlab | src/reduce/pass_read.cc:19-79 | A slab holds, at each of its places in stored order, the image's pixel at that sample and channel, NaN where its flag says so |
| SlabReads.ApplyPixelMask | src/pixel_mask.h:44-53 | Each pixel is NaN exactly when flagged and otherwise as it was |
| Histograms.ComputeHistogram | src/reduce/plane_histogram.cc:69-222 | Every complete block's bin holds exactly the number of pixels of that selected plane between the bin's edges; blocks come in turn and, when it finishes, cover the selection with every pixel of every channel read exactly once; bad bins and a bad range are refused by an if-and-only-if |
| CubeHistograms.ComputeCubeHistogram | src/reduce/plane_histogram.cc:224-266 | The totals are exactly those of the sampled pixels of every selected plane in the image's own axes; the counts add up to the finite ones and are shared out over [min, max] from provisional histograms that hold, below every value, as many values as there are finite pixels asked for below it; so at each inner edge the counts below it differ from the number of those pixels below it by no more than the provisional bins lying across the edge hold; every snapshot is the same of what had been read by then |
| PlaneHistograms.BinPlane | src/reduce/plane_histogram.cc:125-216 | Whichever order the row tasks are claimed in, the counts of a plane are the serial loop's |
| PlaneHistograms.BinSlab | src/reduce/plane_histogram.cc:125-216 | Each channel's pixels go to its own bins, each pixel of the range once, and no other bin changes |
| PlaneHistograms.BinIs | src/reduce/plane_histogram.cc:143-176 | A pixel is counted in a bin if and only if it lies between that bin's edges, the last bin's upper edge included; in none if and only if it is out of the range |
| PlaneHistograms.BinsHoldTheRange | src/reduce/plane_histogram.cc:143-176 | The bins together hold every pixel of the range |
| GrowingHistograms.GrowingHistogram.Add | src/reduce/growing_histogram.h:37-51 | After any number of values in any order, each bin holds exactly the number of added values between its edges and all of them are within the range; it terminates whatever the value |
| GrowingHistograms.GrowthKeepsBins | src/reduce/growing_histogram.h:160-171 | With an even number of bins, doubling to either side leaves every bin with exactly the values between its new edges |
| GrowingHistograms.GrowthKeepsCounts | src/reduce/growing_histogram.h:28-33 | Doubling keeps the total if and only if the number of bins is even or the last bin is empty |
| GrowingHistograms.OddGrowthLoses | src/reduce/growing_histogram.h:160-171 | Of the counts [0, 0, 1] either way of doubling loses the one value |
| Aggregation.Aggregate | src/reduce/growing_histogram.h:83-135 | The counts are conserved; each provisional bin's pixels go only to target bins it overlaps, each taking the floor or the ceiling of its share, the leftover ones going to the largest remainders and among equal ones to the earlier bin; a range of no width puts all in the first bin |
| Aggregation.OneFairSplit | src/reduce/growing_histogram.h:113-132 | There is only one way to split a provisional bin like that: any two fair splits of it are the same |
| Sharings.NearAtEdges | src/reduce/provisional_histograms.h:108-144 | At each inner edge of an answer shared out of exact provisional histograms, the counts below it and the values below it differ by no more than the provisional bins lying across that edge hold |
| Aggregation.StraddlersAreCovered | src/reduce/growing_histogram.h:118-131 | A provisional bin that straddles target bins overlaps the first of them, so the uncovered branch is never taken |
| ProvisionalHistograms.Resolution | src/reduce/provisional_histograms.h:55-67 | The least power of two, of two or more, that holds what was asked: so the bins are always even in number |
| ProvisionalHistograms.AddSlab | src/reduce/provisional_histograms.h:94-100 | Whichever tasks are claimed in whichever order, what the accumulators have taken gains exactly the read's pixels, each accumulator those of the tasks it ran |
| ProvisionalHistograms.Collect | src/reduce/provisional_histograms.h:108-144 | The totals are those of all pixels taken; each bin is the sum over the accumulators of what each one's provisional counts put there when shared out over [min, max]; the counts add up to the finite pixels |
| ChunkBlocks.AlignedBlockEndIs | src/chunk_blocks.h:172-208 | A block ends past its beginning, splits no chunk, and is longer than asked only when it is all in one chunk |
| ChunkBlocks.TouchedIsTheSet | src/chunk_blocks.h:210-240 | The number computed is the size of the set of chunks the samples are in |
| ChunkBlocks.TouchedAddsUp | src/chunk_blocks.h:210-240 | Chunks touched add up over a cut that splits no chunk |
| ChunkBlocks.SampledIsTouched | src/chunk_blocks.h:243-269 | The chunks a stride samples are as many as its samples touch |
| ChunkBlocks.RanksBetween | src/chunk_blocks.h:243-269 | The samples between two sampled chunks are those whose chunk's rank lies between |
| WorkPool.RunKeeps | src/work_pool.cc:42-155 | Every interleaving of any number of workers and callers keeps the invariant on turns, generations, counters, claims and bodies |
| WorkPool.NoTaskTwice | src/work_pool.cc:58-83 | In no run is a task started twice |
| WorkPool.ReturnedRanAll | src/work_pool.cc:111-155 | A Run that returned ran every one of its tasks |
| WorkPool.NoBodyOutlivesItsRun | src/work_pool.cc:111-155 | No thread is in a body, or about to claim a task, of a Run that is over |
| WorkPool.RunningIsPending | src/work_pool.cc:85-109 | The count of running workers is always the number yet to finish the current generation |
| WorkPool.NoGenerationSkipped | src/work_pool.cc:85-109 | A worker that starts on a generation starts on the one after the last it saw |
| WorkPool.SomeThreadMoves | src/work_pool.cc:85-155 | While any caller is inside Run some thread can move: no notification is lost and nothing deadlocks |
| WorkPoolEnds.StepFalls | src/work_pool.cc:42-155 | Every step of a thread but a chance wake-up lowers a measure of what is left to do, whether bodies return or throw |
| WorkPoolEnds.EveryCallEnds | src/work_pool.cc:111-155 | However it is scheduled, a pool that nobody calls anew takes at most so many steps as that measure and two for each chance wake-up, and when no other step is left every call has ended |
| WorkPool.EveryWorkerIsTold | src/work_pool.cc:42-56 | Once stopping is told no worker stays parked, and each one that looks returns |
| WorkPoolIndices.SharedOnlyInline | src/work_pool.cc:111-122 | In any reachable state, two bodies run under one worker index if and only if a Run made inline overlaps another caller's body |
| WorkPoolIndices.TwoInlineRunsShare | src/work_pool.h:62-65 | A legal run in which two callers' bodies run at once as worker 0 |
| WorkPoolIndices.SafeExactlyWhenKeptApart | src/work_pool.h:62-65 | A call about to be made shares no index, however everyone is scheduled and short of other calls, if and only if no inline Run is inside and, if the call is one itself, nobody is |
| TaskSplits.PlanRowTasks | src/work_pool.cc:157-165 | No more tasks than allowed or than rows, none exactly when there are no rows, and more than one only when each is worth its pixels |
| TaskSplits.EachRowInOneTask | src/work_pool.cc:167-173 | Every row is in exactly one task's piece |
| TaskSplits.SplitOf | src/reduce/task_split.h:47-57 | Between one task and one a worker, and more than one only when their accumulators fit the budget |
| PixelSelections.BuildSelection | src/zarr/pixel_selection.cc:23-90 | It succeeds exactly when the request has the image's rank, every range fits its axis and the elements fit 64 bits; the selection then is the request, dimension by dimension, in the order asked for |
| PixelSelections.ElementsLandApart | src/zarr/pixel_selection.cc:92-100 | Every selected element lands inside the destination and no two at one place |
| PixelSelections.EveryPlaceIsFilled | src/zarr/pixel_selection.cc:92-100 | Every place of the destination is some selected element's |
| Pieces.PlanPieces | src/read/pieces.cc:72-110 | The pieces are the request, or the request cut end to end along one axis with nothing slower selected, at cuts that split no chunk of it, into pieces the budget affords |
| Pieces.PieceIsAfforded | src/read/pieces.cc:37-110 | Each piece of a read that is cut decodes no more bytes than the budget, or than one row of chunks where that is more; a read left in one piece at most one row beyond |
| Pieces.PiecesShareNoChunk | src/read/pieces.h:20-57 | Units of two pieces lie in different chunks along the cut axis: no chunk is decoded twice |
| Pieces.PieceLands | src/read/pieces_read.cc:53-115 | An element of a piece lands in the destination where it would land unsplit |
| PiecedReads.ReadInPieces | src/read/pieces_read.cc:53-115 | On success the destination is the request's elements, flags folded in, and nothing past them is written; on each failure it is exactly what that failure leaves, and the failed read is of the failing piece's own selection, every piece before it having been served; what is refused before a read is refused by an if-and-only-if; progress is told of every piece in turn; the pieces are ones the budget affords |
| PiecedReads.PiecedIsUnsplit | src/read/pieces.h:59-80 | A pieced read equals, element for element, one unsplit masked read |
| Samples.OneInEachChunk | src/read/pieces.cc:112-127 | The sample has exactly one element in every chunk the request touches and none in any other |
| Samples.ForEachPiece | src/read/pieces_read.cc:141-186 | The pieces are slices of the request, each of at most so many elements |
| Samples.EachElementInOnePiece | src/read/pieces_read.cc:141-186 | Every element of the request is in exactly one piece |
| Prefetching.PrefetchChunks | src/read/pieces_read.cc:191-256 | Finished, it has read one element of every chunk touched, of the pixels and of the flag by its own layout, in pieces the budget affords, and says how many chunks those are; it stops with a refusal, with the control, or with the failed read of some piece of the sample |
| ReadCosts.FlagChunksAcross | src/chunk_blocks.h:99-112 | The answer is the most flag chunks any one pixel chunk lies across: none lies across more and, but for an empty axis, one does |
| ReadCosts.DecodedFlagBytes | src/chunk_blocks.h:130-156 | Enough for the flag beside any one pixel chunk of the image, however the two are chunked |
| ReadCosts.DefaultReadBytes | src/chunk_blocks.h:57-67 | Between the two limits, and at least eight chunks unless the upper limit says otherwise |
| Runs.RunOfItsRequest | src/read_ahead.cc:30-56 | The request that covers a plane's run is in that run itself and selects every element of any plane of it |
| Runs.OneRequestPerRun | src/read_ahead.h:44-49 | Two requests that cover one run are the same request |
| Runs.PlaneRunBytes | src/read_ahead.cc:58-86 | No run of a whole plane, pixels and flag, decodes more bytes; none for an image without two spatial axes |
| ReadAheads.ReadingAhead.Served | src/read_ahead.cc:133-233 | The state under the lock and the work handed to the thread are those of the decision procedure on the state before |
| ReadAheadRuns.DecidedIsFresh | src/read_ahead.cc:160-190 | A batch holds one piece of work for each image, in another run than the last asked for and than the one shown, and what is asked for is brought up to date with it |
| ReadAheadRuns.ReachedIsValid | src/read_ahead.cc:133-259 | Every interleaving of frames served, decoding threads and cancelling keeps the invariant |
| ReadAheadRuns.AtMostOneBatch | src/read_ahead.cc:190-233 | At most one batch is ever being decoded, and no thread is replaced unjoined |
| ReadAheadRuns.CaughtUpAtMostPrefetched | src/read_ahead.cc:133-157 | Runs caught up with are never more than batches, nor batches than prefetches |
| ReadAheadRuns.ConsecutiveRunsDiffer | src/read_ahead.cc:160-190 | Consecutive prefetches of an image are of different runs |
| ReadAheadRuns.StoppedForGood | src/read_ahead.cc:133-158 | Once stopped, no frame served ever starts another batch |
| ReadAheadRuns.CancelledStartsNothing | src/read_ahead.cc:235-239 | Once cancelling has begun no step starts work or takes up another piece of it |
| Checksums.Crc32c | src/zarr/string_array.cc:203-224 | The table-driven checksum equals the shift register fed a bit at a time |
| Checksums.LookUp | src/zarr/string_array.cc:203-224 | One look-up in the table is eight steps of the register |
| Unicode.Utf8RoundTrip | src/zarr/string_array.cc:48-72 | Text exists for exactly the sequences of code points, and reads back as them |
| Unicode.NumberRoundTrip | src/zarr/string_array.cc:74-82 | A number reads back in either byte order |
| StringArrays.ParseStringCodecs | src/zarr/string_array.cc:262-311 | A chain is accepted exactly when it is one a string array may be stored by, and the summary describes it |
| StringArrays.StripCrc32c | src/zarr/string_array.cc:226-240 | It succeeds exactly when the data are some payload with its checksum, and answers that payload |
| StringArrays.DecodeStringChunk | src/zarr/string_array.cc:373-417 | It succeeds exactly when the chunk's bytes come to a payload of the expected size by its chain, and answers it |
| StringArrays.DecodingUndoesEncoding | src/zarr/string_array.cc:373-417 | For every chain accepted, encoding then decoding gives the payload back, and nothing else |
| StringArrays.DecodeFixedLengthUtf32 | src/zarr/string_array.cc:84-112 | It succeeds exactly when every element is text, and answers each up to its first null |
| StringArrays.ReadStringArray | src/zarr/string_array.cc:436-478 | Every element is its chunk's, or the fill value of a chunk never written; an error exactly when some element cannot be read |
| CsvLines.ParsingUndoesPrinting | bench/record.cc:308-344 | Parsing a printed line gives the fields back, their line breaks as spaces |
| CsvLines.LineIsUnbroken | bench/record.cc:151-168 | A printed line holds no line break |
| CsvRows.RowReadsBack | bench/record.cc:346-380 | A printed row reads back as the run, trial, counts, indexes and status it was printed from |
| CsvRows.HeaderIsNoRow | bench/record.cc:297-306 | The header is one line and never reads back as a row |
| Coverages.CompleteIsWhole | bench/record.cc:420-482 | What Open calls completed is, for any rows, exactly a trial that has a row for each process and operation, agrees on how many there are and holds no error |
| ResumeLogs.DropLineCutShort | bench/record.cc:385-410 | What is kept ends a line and is cut by no whole line |
| ResumeLogs.LinesAreUnique | bench/record.cc:385-410 | A text is whole lines and a part that ends none in one way only |
| ResumeLogs.Open | bench/record.cc:412-484 | For any file, and a death anywhere in it, what is opened, refused or left on disk follows from the file's whole lines |
| ResumeLogs.CsvOutput.Write | bench/record.cc:525-533 | With a death anywhere in it, the file holds whole lines, without the earlier attempt at the trial or, cut while that is removed, as it was |
| ResumeLogs.CsvOutput.Remove | bench/record.cc:498-523 | The file is all it was without the trial's rows, or wholly as it was |
| ResumeSessions.AttemptJoins | bench/main.cc:183-192 | The rows of an attempt keep the log one attempt to a trial if and only if there are none or the log has no row of the trial |
| ResumeSessions.WrittenAgain | bench/main.cc:183-192 | A log of one whole trial keeps one attempt to a trial until that trial is written again beside it |
| ResumeSessions.RunSession | bench/main.cc:173-195 | One resuming run over any surviving file, cut anywhere: the file opens, what it finds whole is what is whole and its rows are kept, and what it leaves survives again |
| ResumeSessions.RunSessions | bench/main.cc:173-195 | After any number of runs, each cut anywhere, the file is a log with one attempt at each trial |
| ResumeSessions.OneAttemptEach | bench/record.cc:498-533 | Two rows of one trial in such a file are of one attempt |

## Left out

- BuildSelection: takes the storage indices of the axes to be distinct, which the descriptor guarantees and the function does not check.
- GrowingHistogram.Add: of an even number of bins, which is all the library makes; `GrowthKeepsCounts` says what happens with an odd one.
- ReadInPieces: a piece is read and masked as a sequence and then written to the destination, so the destination between a piece's pixels and its flags is not modelled.
- ComputeHistogram: over a plan whose layer is the bands' chunks, which is what is planned for a plane with pixels.
- SummariseRow: the seconds and the end time, which resuming does not read.
- Floating-point rounding, and the fallbacks of the histogram for a range whose width overflows a double: sums and edges are exact.
- The wrap-around of integers, except the elements of a selection against 64 bits.
- The store and its transport, the file system, metadata and JSON, schemas and coordinates: a source of pixels and flags is given, and what it serves is an image.
- The compressors: any functions that undo each other.
- The cancellation and the deadline of a read, and the sink's answer: any answers, asked when the code asks.
- A reduction without a sink, and the checks of the public entry points.
- The failure path of the pool's constructor, and joining its threads.
- `ReadingAhead::For` and the cache a run has to fit in; the thread pool's naming and the statistics' timings.
- The standard library's sort and binary search, as functions.
- The hash of a run's key, the trials themselves and the printing of the benchmark; a CSV written to standard output.
- The Python tools and the documentation generator.
