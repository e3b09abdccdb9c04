# Verified models of the Parca backend

Dafny models of the stateful parts of the Parca continuous profiling backend, with proofs of what
they promise. `dafny verify dfyconfig.toml` checks the whole project.

## What is modelled

**Flame graph, Arrow form.** `Profiles` gives a sample its meaning: a root-to-leaf stack of 64-bit
merge keys and a value. `FlamegraphBuilders.FlamegraphBuilder` is the row builder with its parallel
columns, children maps and children lists; each method computes a function of the columns that
`FlamegraphWalk` defines, for any input. There the rows are proved to be exactly the distinct
prefixes of the stacks (`FlamegraphTrie`, `StackWalk`). `ExactIffAnchored` says for all stacks when
the builder adds them exactly: when their outermost and innermost location show a frame.
`FrameFilters` is the filter of a query on the validity bits of a record; it proves that every
record as it is written, and as any filter leaves it, has only such stacks, and `FilteredReports`
builds both reports of what is left without any such assumption. `NullLinedRootMissed` is a record
that the builder would take and add wrongly, although nothing in the program writes or leaves it.
`TrimSpec` and `FlamegraphTrim` are the two breadth-first passes of the trimmer over any integer
threshold function, `Columns` the narrowing of columns; that of diffs can lose values, and
`DiffsKeptExactly` says exactly when. `FlamegraphArrow` joins them: from samples to trimmed columns.

**Flame graph, table form.** `FlamegraphTables` has the comparison and equality of siblings,
`AggregationSpec` what aggregation by function means, `MergedRuns` which nodes a merged node stands
for and which locations lose their mapping, `FlamegraphAggregation` the merging loop and
the traversal with two explicit stacks, and `FlamegraphTree` the insertion of samples; its
`GenerateFlamegraph` states the whole way from samples to aggregated graph. All results hold for
every sort that orders by the comparison.

**Location codec.** `Varint` (section "Base 128 Varints" of the Protocol Buffers encoding
specification), `LocationWire` (the byte format and what reading it gives, a Go panic on short data
shown as `None`), `LocationEncoder` (pprof and v2 encoders filling a buffer by offset),
`LocationDecoder` (the full and the two partial decoders), and `LineCache` (the symbolizer's cache
of lines and the cached liner).

**Scrape pool.** `ScrapeProtocol` is a state machine of one sync thread, one config thread (reload
or stop), the loops and the pending starts of a reload, in any interleaving; `ScrapePools` has what
the critical sections compute, and `ScrapeSections` the critical sections as code on the pool's
fields, each proved to be one step of the protocol. `ScrapeLiveness` adds runs without end: if no
thread is starved, every wait ends.

**Call graph.** `Callgraphs` describes the pruned graph and its reachability, `CallgraphShape` its
nodes and edges one by one, `CallgraphPruning` is the pass itself. One property is false of the
code: the walk to a parent does not end on every graph. `SelfCallerNeverEscapes` gives a graph that
two samples lead to, and `ClimbsEndIffNoCycle` says exactly when it ends.

**Debuginfo uploads.** `DebuginfoProtocol` is the protocol at one metadata object with runs of
calls, `DebuginfoStores` the handlers over a bucket of objects. Where code and names disagree the
code is followed: finishing an upload without any metadata is an internal error, because the
handler looks for an error that fetching never returns (pkg/debuginfo/store.go:353-366).

**Reports.** `TableSpec`, `QueryTables` and `TableAgreement` are the function table, its caller and
callee sets, and its agreement with the flame graph. `PprofProfiles`, `PprofTables` and
`PprofWriters` are the check of a pprof profile and the writer: its output always passes the check,
and every sample denotes its row. Locations can be mistaken for each other; `SameKeyExactly` says
exactly which.

**Caches, dictionaries, addresses.** `LruSpec`, `LruCaches` and `TtlCaches` are the LRU cache and
the one with deadlines; `CompactDictionaries` the compaction of dictionary columns;
`AddressNormalizer` the choice of ELF segments (section "Program Header" of chapter 5 of the
System V gABI) and address translation in wrapping 64-bit arithmetic.

Time, random ids, the answers of debuginfod and of the signing client, and the resolver behind a
liner are parameters. Map iteration is an arbitrary choice. `Valid()`, `Tables()` and similar
predicates are class invariants that every method keeps.

## Model

| member | source | states |
|---|---|---|
| Profiles.IsLocationRoot | pkg/query/flamegraph_arrow.go:2112-2119 | answers yes exactly for the last non-null entry of a leaf-first list |
| Profiles.IsFirstNonNil | pkg/query/table.go:96-104 | answers yes exactly for the first non-null entry of a list |
| FlamegraphBuilders.SumValues | pkg/query/flamegraph_arrow.go:136-138 | the record total is the sum of all sample values, whatever their stacks |
| FlamegraphBuilders.FlamegraphBuilder.MergeRows | pkg/query/flamegraph_arrow.go:583-734 | merges exactly if the row compared with has the key among its children: the value is added to that child, at a leaf also as flat value, and the next frame is compared with its children; otherwise only the row compared with is forgotten |
| FlamegraphBuilders.FlamegraphBuilder.AppendRow | pkg/query/flamegraph_arrow.go:1360-1511 | a new row gets the value, the flat value at a leaf, and the height; it is filed in the children map and the children list of its parent if there is one, arrays doubling when full |
| FlamegraphBuilders.FlamegraphBuilder.AddFrame | pkg/query/flamegraph_arrow.go:270-346 | for any state and any frame the new state is that of one step of the walk, which RunWalks and ExactIffAnchored speak of |
| FlamegraphBuilders.FlamegraphBuilder.AddLocation | pkg/query/flamegraph_arrow.go:211-346 | any location walks its visible frames, outermost inlined frame first, each with the root and leaf flags that its place in the lists gives |
| FlamegraphBuilders.FlamegraphBuilder.AddSample | pkg/query/flamegraph_arrow.go:152-346 | any sample walks its frames in order; from exact rows, a sample whose outermost and innermost locations have a visible frame adds exactly its root-to-leaf stack and value to what the rows mean |
| FlamegraphBuilders.FlamegraphBuilder.AddRecord | pkg/query/flamegraph_arrow.go:136-350 | any record walks its samples in order and adds its total to the cumulative value; a record of anchored samples adds exactly them to what the rows mean |
| FlamegraphWalk.MarkedExactly | pkg/query/flamegraph_arrow.go:200-262 | exactly the first frame is taken for the root and exactly the last for the leaf if and only if the outermost and the innermost location that is there have a visible frame; the keys of the frames are the root-to-leaf stack |
| FlamegraphWalk.StepWalks | pkg/query/flamegraph_arrow.go:270-346 | one frame of an exact walk, merged or new, keeps every row exact for the samples added and the part of the stack walked |
| FlamegraphWalk.RunWalks | pkg/query/flamegraph_arrow.go:152-346 | so do any number of frames of a stack whose root and leaf are recognized |
| FlamegraphWalk.RunExact | pkg/query/flamegraph_arrow.go:152-346 | such a stack is added exactly: the rows then mean the samples before and this one |
| FlamegraphWalk.ExactIffAnchored | pkg/query/flamegraph_arrow.go:200-262 | from exact rows a stack with a visible frame and a non-zero value is added exactly if and only if its outermost and innermost location have a visible frame |
| FlamegraphWalk.NullLinedRootMissed | pkg/query/flamegraph_arrow.go:200-262 | the builder takes a stack whose outermost location has nothing but a null line, and no choice of paths makes the rows exact then; no record is written or filtered to be like that |
| StackWalk.PathIsBackwards | pkg/query/flamegraph_arrow.go:152-262 | the root-to-leaf stack of a sample is the list of its frames, location by location and line by line from the leaf, read backwards; nulls leave nothing, a location without lines its address |
| FlamegraphWalk.RowsMatchStacks | pkg/query/flamegraph_arrow.go:152-346 | after any anchored samples the rows other than the root are in bijection with the distinct non-empty prefixes of the stacks; cumulative is the value through the prefix, flat the value ending there, depth its length |
| FlamegraphWalk.RowConservation | pkg/query/flamegraph_arrow.go:1592-1601 | a row has its own value plus that of the rows in its children list; at the root the list accounts for everything but empty stacks |
| FlamegraphWalk.FlatTotal | pkg/query/flamegraph_arrow.go:1592-1601 | the flat values of all rows add up to the value of the samples with a non-empty stack |
| FlamegraphTrie.ThroughSplits | pkg/query/flamegraph_arrow.go:583-734 | the value through a prefix is the value ending there plus the values through its one-frame extensions |
| FlamegraphTrie.ListBranches | pkg/query/flamegraph_arrow.go:1360-1511 | the children list of a row holds exactly the rows that extend its path by one frame, each once |
| FlamegraphTrim.SortByValue | pkg/query/flamegraph_arrow.go:1603-1643 | children in ascending order of value, as a permutation |
| FlamegraphTrim.PassingChildren | pkg/query/flamegraph_arrow.go:1669-1707 | exactly the listed children whose value exceeds the bound, in list order |
| FlamegraphTrim.Measure | pkg/query/flamegraph_arrow.go:1656-1707 | the measuring pass visits exactly the rows for which every edge above passes the threshold of the unsigned conversion of the value; its maxima cover all of them and each is zero or the value of one of them |
| FlamegraphTrim.PassesAgree | pkg/query/flamegraph_arrow.go:1683-1892 | for non-negative profiles the threshold of unsigned values and that of signed ones keep the same rows |
| FlamegraphTrim.Lay | pkg/query/flamegraph_arrow.go:1783-1902 | queues the passing children in list order, side by side from the parent's offset: of two elements of one parent the earlier one stands before the other in the parent's children list; what they and the trimmed total hold is what the list held |
| FlamegraphTrim.Emit | pkg/query/flamegraph_arrow.go:1778-1902 | the emitting pass visits each kept row once, breadth first, with parents before children and siblings in the order of their children list; kept flat values plus the trimmed total are conserved at every step |
| FlamegraphTrim.StoreCumulative | pkg/query/flamegraph_arrow.go:1991-1995 | the cumulative column with the root's rewritten total, stored in the width that total needs |
| FlamegraphTrim.NarrowingExact | pkg/query/flamegraph_arrow.go:1778-1902 | for non-negative profiles every value written by the emitting pass, in list order, fits the width found by the measuring pass, in value order |
| FlamegraphTrim.Trim | pkg/query/flamegraph_arrow.go:1645-2027 | keeps exactly the rows all of whose edges pass the threshold, for any threshold function, siblings in the order of their children list; flat of kept rows plus trimmed equals the value of the root's children; each kept row is in one children list, below its parent |
| FlamegraphTrim.TrimmedLayout | pkg/query/flamegraph_arrow.go:1783-1902 | for non-negative profiles each interval of offset and cumulative value lies in its parent's, and intervals of equal depth are disjoint |
| TrimSpec.KeptIsQueued | pkg/query/flamegraph_arrow.go:1783-1902 | a row whose every edge passes is reached when the queue runs empty |
| TrimSpec.Nested | pkg/query/flamegraph_arrow.go:1783-1902 | an interval lies inside its parent's, whose index is smaller |
| TrimSpec.Ordered | pkg/query/flamegraph_arrow.go:1783-1902 | intervals at equal depth follow each other in breadth-first order without overlap |
| TrimSpec.InsideRoot | pkg/query/flamegraph_arrow.go:1991-1995 | every interval lies inside the root's with its rewritten total |
| TrimSpec.LinksPush | pkg/query/flamegraph_arrow.go:1783-1902 | a row pushed to the queue is not in it and was not in it before, and its parent has a smaller index |
| TrimSpec.InListOrderPush | pkg/query/flamegraph_arrow.go:1886-1897 | the next passing child of a list comes after the children queued before it, and the order of all other elements stays |
| TrimSpec.DistinctRowsBounded | pkg/query/flamegraph_arrow.go:2132-2150 | distinct rows below n are at most n, so a pass ends after at most as many pops as there are rows |
| Columns.StoreLossless | pkg/query/flamegraph_arrow.go:2029-2070 | a non-negative value up to the measured maximum is unchanged by the cast to the chosen unsigned width |
| Columns.StoredSigned | pkg/query/flamegraph_arrow.go:2041-2051 | a stored diff lies in the range of its width and differs from the diff by a multiple of the size of the width |
| Columns.MeasureDiffs | pkg/query/flamegraph_arrow.go:1665-1689 | both bounds of the diff column end as the largest diff or zero: the smallest is tracked with the maximum |
| Columns.DiffsKeptExactly | pkg/query/flamegraph_arrow.go:1725-1726 | the diff column keeps all diffs if and only if none is below the range of the signed type chosen for the largest one |
| Columns.LossOfDiff | pkg/query/flamegraph_arrow.go:1665-1726 | for the diffs [-200], whatever largest diff is measured, the column is not exact and shows 56 |
| FlamegraphArrow.BuiltTree | pkg/query/flamegraph_arrow.go:1166-1270 | the builder's rows form a tree with one list entry per row and depths growing by one |
| FlamegraphArrow.BuiltConserved | pkg/query/flamegraph_arrow.go:1166-1270 | the builder's rows conserve value from every row to its children |
| FlamegraphArrow.BuiltProfile | pkg/query/flamegraph_arrow.go:1166-1270 | non-negative samples within 64 bits give a profile for which layout and narrowing are exact |
| FlamegraphArrow.TrimRecord | pkg/query/flamegraph_arrow.go:1166-1270 | from samples to trimmed columns: kept flat plus trimmed is the value of the non-empty stacks, and each emitted row holds the value through its stack, the value ending there and its length |
| FrameFilters.FilterLocation | pkg/query/columnquery.go:599-620 | in place: a line that does not match becomes null, and the location if no line of it matches, or if it has none and does not match itself; nothing else changes |
| FrameFilters.FilterRecord | pkg/query/columnquery.go:564-623 | in place: exactly the kept rows lose what does not match; answers exactly the rows whose stack matches, in ascending order |
| FrameFilters.SliceRecord | pkg/query/columnquery.go:1621-1646 | runs of consecutive rows, as long as they go, that together are the given rows in their order |
| FrameFilters.FilterShows | pkg/query/columnquery.go:599-620 | after a pass every location left in a kept row has no lines at all or one that is left, and no matching line of a location left was lost |
| FrameFilters.SecondPassChangesNothing | pkg/query/columnquery.go:427-433 | filtering a slice of kept rows again by the same frames, with any stacks, leaves every location and line as it is |
| FrameFilters.FilterQuery | pkg/query/columnquery.go:391-433 | the filter, and the filter again for the sandwich view: the ranges follow each other and hold exactly the rows that match both, and all their locations show a frame |
| FrameFilters.RowRead | pkg/query/flamegraph_arrow.go:152-160 | both reports read of a row its value and its locations between the offsets, null where they are null |
| FrameFilters.LocationRead | pkg/query/flamegraph_arrow.go:211-240 | both reports read of a location its address and the keys or names of its lines between the offsets, null where they are null, and no lines where it has none |
| FrameFilters.CompleteIsAnchored | pkg/profile/decode.go:134-141 | every sample of a record as it is written, without null locations and lines, is anchored |
| FrameFilters.FilteredIsAnchored | pkg/query/columnquery.go:564-623 | every sample that a filter leaves of such a record is anchored, for all filters |
| FilteredReports.RowsComparable | pkg/query/columnquery.go:564-623 | filtered rows of a symbolized record can be compared in the two reports, which read the same stacks |
| FilteredReports.BuildReports | pkg/query/columnquery.go:391-445 | for every record as written and every filter: both builders are given exactly what is left, the rows of the flame graph are exact for it, and the reports of a symbolized record show the same flat value for every function and in total |
| FlamegraphTables.StringLeqAntisymmetric | pkg/query/flamegraph_table.go:508-509 | names that are ordered both ways are equal |
| FlamegraphTables.StringLeqExactly | pkg/query/flamegraph_table.go:508-509 | a name is before another if and only if it is a beginning of it or smaller at the first place where they differ |
| FlamegraphTables.KeyOfFrame | pkg/query/flamegraph_table.go:484-506 | a node is known by the name of the function of its line, locations and functions counting from one; without a function by its address; without a line or location by nothing shared |
| FlamegraphTables.InOrderExactly | pkg/query/flamegraph_table.go:470-510 | siblings without a location come first, then those without lines, those without a function, and the others; within each by address or by name |
| FlamegraphTables.EqualMeansSameKey | pkg/query/flamegraph_table.go:512-538 | two nodes are merged exactly if they have the same function name, or no function and the same address, and a line in range |
| FlamegraphTables.InOrderIsPreorder | pkg/query/flamegraph_table.go:470-510 | the order that the non-strict comparison defines is total and transitive |
| FlamegraphTables.NamesAreContiguous | pkg/query/flamegraph_table.go:470-538 | in sorted siblings whatever stands between two frames of a function is a frame of that function |
| AggregationSpec.InsertionSorts | pkg/query/flamegraph_table.go:434-437 | the promise asked of the library sort can be kept |
| AggregationSpec.MergedKeepsOn | pkg/query/flamegraph_table.go:425-468 | sorting and merging siblings keeps, for every path of frames, the totals of cumulative and diff |
| AggregationSpec.MergedUnique | pkg/query/flamegraph_table.go:425-468 | after merging no two siblings share a function name |
| AggregationSpec.MergedShrinks | pkg/query/flamegraph_table.go:442-462 | merging never adds nodes |
| AggregationSpec.AggregateTotals | pkg/query/flamegraph_table.go:358-421 | for every path of frames below the root, with or without functions, the totals of cumulative and diff are unchanged by aggregation |
| AggregationSpec.AggregateKeepsPresent | pkg/query/flamegraph_table.go:358-421 | aggregation loses no path of frames and invents none |
| AggregationSpec.AggregateUnique | pkg/query/flamegraph_table.go:358-421 | at no level of the aggregated tree do two siblings share a function name |
| AggregationSpec.AggregateMeansTotals | pkg/query/flamegraph_table.go:358-421 | a path of function names leads to a node exactly if the original tree has the path, and that node holds the totals of all original nodes on it |
| AggregationSpec.CoveredNeverRaised | pkg/query/flamegraph_table.go:464-467 | in a tree of non-negative samples the safeguard raises no node of the whole traversal |
| FlamegraphAggregation.MergeChildren | pkg/query/flamegraph_table.go:425-468 | sorts and merges equal neighbours, leaves the mappings as MergeResetsAcross says, and raises the node exactly to the value of all nodes that were taken over if it has less |
| MergedRuns.MergedStandForRuns | pkg/query/flamegraph_table.go:440-462 | merging leaves one node for each maximal run of equal neighbours, in their order, with the frame of its first node, the totals of all, and all their children in order; what was merged away is the value of all but the first of each run |
| MergedRuns.AggregatedInOrder | pkg/query/flamegraph_table.go:434-462 | siblings of the aggregated tree are in the order of the comparison |
| MergedRuns.MergeResetsAcross | pkg/query/flamegraph_table.go:446-451 | the first location of a run has no mapping after merging if a later node has a location of another mapping; a location changes only to that, and only if it begins a run with a node whose location is not left with its mapping |
| MergedRuns.AggregationResets | pkg/query/flamegraph_table.go:358-451 | a run across mappings anywhere in the traversal of a tree leaves its first location without a mapping at the end |
| MergedRuns.AggregationResetsOnlyAcross | pkg/query/flamegraph_table.go:358-451 | a location whose mapping changed in the aggregation of a tree begins a run across mappings somewhere in the traversal |
| AggregationSpec.MappingsOnlyReset | pkg/query/flamegraph_table.go:447-451 | merging keeps every mapping or resets it, and resets none where all locations share one mapping |
| AggregationSpec.AggregationOnlyResets | pkg/query/flamegraph_table.go:358-451 | so does the aggregation of a whole tree |
| FlamegraphAggregation.Descend | pkg/query/flamegraph_table.go:394-411 | the current child is merged and stepped into, and the new node has its values from before the safeguard |
| FlamegraphAggregation.FlamegraphIterator.constructor | pkg/query/flamegraph.go:62-70 | starts before the first child of the root |
| FlamegraphAggregation.FlamegraphIterator.NextChild | pkg/query/flamegraph.go:76-82 | moves to the next child of the node on top and says whether there is one |
| FlamegraphAggregation.FlamegraphIterator.StepInto | pkg/query/flamegraph.go:96-109 | pushes the current child, before its first child |
| FlamegraphAggregation.FlamegraphIterator.StepUp | pkg/query/flamegraph.go:111-113 | leaves the node on top |
| FlamegraphAggregation.VisitKeepsResult | pkg/query/flamegraph_table.go:394-412 | visiting a child on the two stacks leads to the same final tree |
| FlamegraphAggregation.LeaveKeepsResult | pkg/query/flamegraph_table.go:414-415 | leaving a node on the two stacks leads to the same final tree |
| FlamegraphAggregation.VisitWorks | pkg/query/flamegraph_table.go:393-416 | every visit leaves less to do, so the traversal ends |
| FlamegraphAggregation.VisitKeepsMappings | pkg/query/flamegraph_table.go:394-412 | visiting a child on the iterator's stack leads to the same final mappings |
| FlamegraphAggregation.AggregateByFunction | pkg/query/flamegraph_table.go:358-421 | the traversal with two explicit stacks ends and builds exactly the recursively aggregated tree and the mappings of the recursive aggregation; the raised values of the safeguard never reach the tree |
| FlamegraphTree.StackNodes | pkg/query/flamegraph_table.go:51-58 | the nodes of a sample are those of its locations from the last to the first, each with its inlined lines from the last to the first |
| FlamegraphTree.StackIsReversed | pkg/query/flamegraph_table.go:51-58 | the nodes of a sample, location by location and line by line from the leaf, read backwards |
| FlamegraphTree.InsertedSorted | pkg/query/flamegraph_table.go:60-87 | siblings stay sorted by location index, with one node a location, at every level |
| FlamegraphTree.InsertedOn | pkg/query/flamegraph_table.go:60-87 | inserting a stack adds its value to exactly the paths of frames it begins with, although siblings are matched by location index alone |
| FlamegraphTree.InsertedPresent | pkg/query/flamegraph_table.go:60-87 | afterwards the tree has exactly the paths of frames it had and those the stack begins with |
| FlamegraphTree.InsertedCovered | pkg/query/flamegraph_table.go:65-93 | inserting a non-negative stack keeps every node at least as heavy as its children |
| FlamegraphTree.GenerateTree | pkg/query/flamegraph_table.go:44-97 | the tree of all samples has exactly the paths of frames that some sample begins with, each with the totals of the samples that begin with it, siblings sorted by location; the root has the total of all |
| FlamegraphTree.AggregatedMeansSamples | pkg/query/flamegraph_table.go:44-116 | a path of function names leads to a node exactly if some sample's frames begin with these functions, and the node has the total of all such samples |
| FlamegraphTree.GenerateFlamegraph | pkg/query/flamegraph_table.go:28-116 | from samples to the aggregated graph before trimming: every path of function names tells what the samples say, by one node only; mappings are kept or reset, and all kept where they are one |
| Varint.SizeIsExact | pkg/profile/uvarint.go:34-57 | the size by thresholds is the length of the base-128 encoding for every 64-bit value |
| Varint.UvarintRoundTrip | pkg/profile/encode.go:440-489 | decoding an encoded value gives it back and consumes exactly its bytes, whatever follows |
| Varint.EncodedDigits | pkg/profile/encode.go:440-489 | the i-th byte of an encoding holds the i-th digit to the base 128, and its high bit says whether more follow |
| Varint.UvarintCount | pkg/profile/decode.go:82-92 | the count by the first byte that ends a varint: zero if none does, negative beyond 64 bits |
| Varint.SignedRoundTrip | pkg/profile/encode.go:457-462 | signed values survive the cast to unsigned and back |
| Varint.AddSub | pkg/profile/decode.go:118-121 | a limit stored as difference is recovered modulo 2^64 |
| LocationWire.ReadsHeader | pkg/profile/decode.go:32-73 | the header read from an encoded location is its address, mapping and line count |
| LocationWire.LocationRoundTrip | pkg/profile/decode.go:82-212 | reading an encoded location consumes all its bytes and gives the same address, mapping, lines, columns and optional functions, an empty name replaced by the system name |
| LocationWire.BytesOfLocation | pkg/profile/encode.go:163-230 | the bytes of a location with a mapping and a function, and of one with neither, field by field |
| LocationEncoder.SerializedPprofLocationSize | pkg/profile/encode.go:232-290 | the precomputed size is the number of bytes of the encoding |
| LocationEncoder.PutUvarint | pkg/profile/encode.go:464-469 | writes exactly the encoding at the offset and touches no other byte |
| LocationEncoder.WriteString | pkg/profile/encode.go:440-448 | writes length and bytes at the offset and touches no other byte |
| LocationEncoder.WriteMapping | pkg/profile/encode.go:172-193 | writes the mapping flag and fields at the offset and touches no other byte |
| LocationEncoder.WriteLine | pkg/profile/encode.go:195-227 | writes one line with its optional function at the offset and touches no other byte |
| LocationEncoder.EncodePprofLocation | pkg/profile/encode.go:163-230 | fills the buffer of the precomputed size exactly |
| LocationEncoder.PprofLineMeaning | pkg/profile/encode.go:195-227 | a pprof line decodes to its line, column and function with the entries of the string table, an empty or missing name replaced by the system name |
| LocationEncoder.PprofRoundTrip | pkg/profile/encode.go:163-290 | every pprof location with valid indices decodes, with no byte left, to its address, a mapping with the strings, limit and offset of the profile, and its lines |
| LocationEncoder.V2Size | pkg/normalizer/arrow_v2.go:551-583 | the precomputed size of a v2 location is the number of bytes of its encoding |
| LocationEncoder.EncodeV2Location | pkg/normalizer/arrow_v2.go:526-628 | a v2 location is encoded as the same wire format with exactly that many bytes |
| LocationEncoder.V2RoundTrip | pkg/normalizer/arrow_v2.go:526-663 | every v2 location with valid indices decodes, with no byte left, to its address, a mapping without addresses exactly if it has a file or a build id, and all its lines with columns and functions, the system name standing for the name |
| LocationDecoder.DecodeMapping | pkg/profile/decode.go:96-133 | reads the optional mapping and appends its values, or nulls without one; DecodeEncoded says which to which column |
| LocationDecoder.DecodeFunction | pkg/profile/decode.go:153-189 | reads a function and appends its fields, the name demangled |
| LocationDecoder.DecodeLine | pkg/profile/decode.go:139-194 | reads one line and appends it with its optional function |
| LocationDecoder.DecodeLines | pkg/profile/decode.go:138-195 | appends all lines of a location |
| LocationDecoder.DecodeInto | pkg/profile/decode.go:82-212 | appends to the columns exactly the location that the bytes encode, and fails exactly on truncated bytes; DecodeEncoded says what each column then holds |
| LocationDecoder.WithLocationShows | pkg/profile/decode.go:96-209 | the columns after a location end with its encoded fields, one entry per mapping column and one per line in each line column, and the answer is the address and mapping only without lines |
| LocationDecoder.DecodeEncoded | pkg/profile/decode.go:82-212 | a round trip through the columns: after decoding an encoded location each mapping column has one more entry and each line column one more per line, each the field that was encoded or null without it, names demangled, and earlier entries are unchanged |
| LocationDecoder.DecodeSymbolizationInfo | pkg/profile/decode.go:32-73 | returns the address, mapping with build id, and line count that the full format has |
| LocationDecoder.DecodeFunctionName | pkg/profile/decode.go:216-279 | for any bytes: the name in the first line that has a function, or empty, failing only on the bytes read up to it |
| LocationDecoder.FunctionNameAgrees | pkg/profile/decode.go:82-279 | where the full decoder accepts, that is the name of the first function it emits |
| LocationDecoder.PartialDecoders | pkg/profile/decode.go:32-279 | on every encoded location both partial decoders agree with the full one |
| LineCache.EncodeLinesSize | pkg/symbolizer/encode.go:73-100 | the precomputed size is the number of bytes of the cache entry |
| LineCache.EncodeLines | pkg/symbolizer/encode.go:22-71 | fills a buffer of that size exactly |
| LineCache.DecodeLines | pkg/symbolizer/decode.go:23-73 | reads back the lines of an entry |
| LineCache.LinesRoundTrip | pkg/symbolizer/decode.go:23-68 | decoding an encoded list of lines gives it back and consumes all bytes |
| LineCache.KeyInjective | pkg/symbolizer/cache.go:64-66 | equal cache keys come from the same build id and address, also for build ids with slashes |
| LineCache.KeyReads | pkg/symbolizer/cache.go:64-66 | the key of address 0x1f of the build id b reads b/0x1f |
| LineCache.EntryReads | pkg/symbolizer/encode.go:22-71 | the bytes of an entry of two lines, one with a function |
| LineCache.BadgerCache.Get | pkg/symbolizer/cache.go:33-62 | a miss for a key never set, else the stored lines |
| LineCache.BadgerCache.Set | pkg/symbolizer/cache.go:68-72 | stores the encoded lines under the key and changes no other key |
| LineCache.CachedLiner.PCToLines | pkg/symbolizer/symbolizer.go:475-503 | over a deterministic liner, with a cache shared across build ids, returns exactly what the liner returns and keeps the cache consistent |
| ScrapeSections.ScrapePool.StartNew | pkg/scrape/scrape.go:275-293 | starts loops for new hashes, updates labels of known ones, and collects the hashes seen |
| ScrapeSections.ScrapePool.RemoveStale | pkg/scrape/scrape.go:295-306 | removes exactly the targets not seen, in any map order, and takes charge of their loops |
| ScrapeSections.ScrapePool.Sync | pkg/scrape/scrape.go:266-322 | the critical section of a sync is one step of the protocol |
| ScrapeSections.ScrapePool.Stop | pkg/scrape/scrape.go:145-169 | the critical section of a stop is one step of the protocol and leaves the pool empty |
| ScrapeSections.ScrapePool.Reload | pkg/scrape/scrape.go:174-224 | the critical section of a reload is one step of the protocol: every loop is paired with its successor, which waits for it |
| ScrapeSections.SyncEffect | pkg/scrape/scrape.go:266-322 | after a sync exactly the given targets are active; loops of retained targets are untouched, new targets have new loops, and the loops of vanished ones are awaited |
| ScrapeSections.SyncShows | pkg/scrape/scrape.go:275-293 | after a sync a given hash shows the labels it was given last, a known target is kept, and the loop of a new one is run |
| ScrapeSections.ReloadEffect | pkg/scrape/scrape.go:174-224 | a reload changes no target and replaces every loop by a new one of the same hash that waits for the old one and is not run yet; all old ones are awaited |
| ScrapeSections.StopEffect | pkg/scrape/scrape.go:145-169 | a stop leaves no target and no loop, and awaits all loops |
| ScrapeProtocol.NextInv | pkg/scrape/scrape.go:145-322 | every step of the sync thread, the config thread and the loops keeps the invariant |
| ScrapeProtocol.RunSafety | pkg/scrape/scrape.go:145-322 | in every interleaving: equal key sets whenever the lock is free, at most one loop per target hash scraping, and each loop run, closed and claimed at most once |
| ScrapeProtocol.NoDeadlock | pkg/scrape/scrape.go:487-573 | while somebody waits for a loop, some step on that loop or an older one is enabled and brings it closer to stopping; so stops wait only on older loops |
| ScrapeLiveness.DueIsEnabled | pkg/scrape/scrape.go:709-712 | what a fair schedule may not put off for ever can be done |
| ScrapeLiveness.RankDrops | pkg/scrape/scrape.go:487-573 | in a fair run a loop that somebody waits for gets closer to its end, whatever the other threads do |
| ScrapeLiveness.LoopStops | pkg/scrape/scrape.go:487-712 | in a fair run every loop that somebody waits for stops, the fresh loops of reloads behind their predecessors |
| ScrapeLiveness.EveryWaitEnds | pkg/scrape/scrape.go:145-322 | in a fair run every sync, stop and reload returns, and every fresh loop of a reload is run |
| Callgraphs.ClimbsEndIffNoCycle | pkg/query/callgraph.go:277-287 | the search for a staying parent ends for every removed node exactly if no cycle consists of removed nodes |
| Callgraphs.SelfCallerNeverEscapes | pkg/query/callgraph.go:277-287 | in the graph of a recursive function with one sample of value 1, next to a sample of value 1000, the recursive function is removed, and the search for its parent never ends |
| Callgraphs.NoEdgeTouchesRemoved | pkg/query/callgraph.go:240-270 | no edge of the pruned graph starts or ends at a removed node |
| Callgraphs.PruningKeepsReachability | pkg/query/callgraph.go:194-274 | between every two staying nodes a call chain exists after pruning exactly if it existed before |
| CallgraphPruning.IndexEdges | pkg/query/callgraph.go:200-214 | the two maps list exactly the incoming and outgoing edges of every node |
| CallgraphPruning.PrunableNodes | pkg/query/callgraph.go:177-192 | a suffix of the sorted nodes that holds exactly those below the cut-off |
| CallgraphPruning.NodesToRemove | pkg/query/callgraph.go:216-238 | removes exactly the prunable nodes with one incoming and some outgoing edge |
| CallgraphShape.RemovedExactly | pkg/query/callgraph.go:216-238 | a node is removed if and only if it is below the cut-off, exactly one edge leads to it, and some edge leads away from it |
| CallgraphPruning.FindAValidParent | pkg/query/callgraph.go:277-287 | ends at the nearest caller that stays, with the edges passed and their sum |
| CallgraphPruning.PatchNode | pkg/query/callgraph.go:245-252 | connects the parent to exactly the callees that stay |
| CallgraphPruning.DroppedIsTouching | pkg/query/callgraph.go:253-269 | with unique edge ids, an edge is dropped exactly if it touches a removed node |
| CallgraphPruning.PruneGraph | pkg/query/callgraph.go:194-274 | keeps each node of the graph as often as it was there if its id is not removed, and no other, in descending order of value; both ends of every edge are nodes if they were before; the edges are those that PrunedEdgesExactly describes |
| CallgraphShape.NodesStay | pkg/query/callgraph.go:240-260 | the staying nodes are those whose id is not removed, in their order |
| CallgraphShape.PrunedEdgesExactly | pkg/query/callgraph.go:240-287 | first the edges that touch no removed node, in their order; then one collapsed edge, with a new id, for every call of a removed node to a staying one, from the nearest staying caller, with the sum of the values of the edges up to it |
| CallgraphPruning.PrunedGraphIsSound | pkg/query/callgraph.go:194-274 | no edge dangles and reachability between staying nodes is unchanged, for every cut-off and every sort |
| DebuginfoProtocol.RunConsistent | pkg/debuginfo/store.go:137-341 | in every run the metadata holds exactly the upload begun by the last call that issued an id |
| DebuginfoProtocol.OnlyTheLastIsAccepted | pkg/debuginfo/store.go:343-428 | in every run an id is accepted by the upload or finish call exactly if it was issued last |
| DebuginfoProtocol.SupersededForEver | pkg/debuginfo/store.go:402-428 | an id superseded by a later one is refused in every continuation |
| DebuginfoProtocol.InForceSince | pkg/debuginfo/metadata.go:74-106 | since an id was issued an upload is under way or finished and of use, unless it was marked invalid or purged |
| DebuginfoProtocol.NoSecondIdWithoutReason | pkg/debuginfo/store.go:137-268 | in every run, a second id without force is issued only if the upload under way was begun by the first one or later and is older than the upload duration and two minutes, or after the object was marked invalid or purged |
| DebuginfoProtocol.NoIdWhileFresh | pkg/debuginfo/store.go:137-432 | in every run, from one id to the next without force pass more than the upload duration and 120 seconds, unless the object was marked invalid or purged in between |
| DebuginfoProtocol.RetriedOnceStale | pkg/debuginfo/store.go:189-208 | an upload that was neither finished nor purged may be retried without force exactly when more than the upload duration and 120 seconds have passed since its id was issued |
| DebuginfoProtocol.YesMeansWanted | pkg/debuginfo/store.go:137-268 | when the answer is yes, for every state: debuginfod is asked only for GNU build ids and those of unknown type, ids of at most two characters are refused |
| DebuginfoProtocol.ReasonsGiven | pkg/debuginfo/store.go:118-268 | which reason is given in which state, and which reasons mean yes |
| DebuginfoProtocol.IssuedMeansWanted | pkg/debuginfo/store.go:270-341 | an id is issued exactly to a request with a hash and a size within the limit whose upload is wanted, and what is stored then |
| DebuginfoProtocol.StoredIdOnly | pkg/debuginfo/store.go:343-428 | bytes are taken and an upload is finished for the stored id only; finishing changes state and end of the upload and nothing else |
| DebuginfoProtocol.PurgedIsWanted | pkg/debuginfo/metadata.go:108-121 | after purging the answer is yes; setting the quality changes nothing else |
| DebuginfoProtocol.NoIdAfterFinish | pkg/debuginfo/store.go:208-341 | in every run, once an upload is finished on an object not marked invalid, and until it is marked invalid or purged or somebody forces, no id is issued and it stays finished |
| DebuginfoProtocol.YesLeadsToUploaded | pkg/debuginfo/store.go:137-341 | a yes for a hash lets initiate, upload and finish succeed and ends uploaded with that hash, after which nobody is asked again |
| DebuginfoProtocol.YesWithoutHash | pkg/debuginfo/store.go:223-240 | a yes given without a hash holds for exactly the hashes that are not the invalid one stored |
| DebuginfoStores.ObjectStoreMetadata.Write | pkg/debuginfo/metadata.go:146-162 | replaces one object; metadata without build id is refused |
| DebuginfoStores.SamePlace | pkg/debuginfo/metadata.go:164-173 | metadata share a place exactly if build id and type agree, but for source maps and plain debuginfos, which share theirs |
| DebuginfoStores.ObjectStoreMetadata.SetQuality | pkg/debuginfo/metadata.go:50-63 | sets the quality of an existing object and changes nothing else |
| DebuginfoStores.ObjectStoreMetadata.MarkAsDebuginfodSource | pkg/debuginfo/metadata.go:65-72 | replaces the object by one available from debuginfod |
| DebuginfoStores.ObjectStoreMetadata.MarkAsUploading | pkg/debuginfo/metadata.go:74-86 | replaces the object by a fresh upload without quality |
| DebuginfoStores.ObjectStoreMetadata.MarkAsUploaded | pkg/debuginfo/metadata.go:88-106 | finishes the upload with the stored id and refuses every other |
| DebuginfoStores.ObjectStoreMetadata.MarkAsPurged | pkg/debuginfo/metadata.go:108-121 | marks an existing upload as purged |
| DebuginfoStores.Store.ShouldInitiateUpload | pkg/debuginfo/store.go:137-268 | is one protocol call on the object of the build id and type, whose answers YesMeansWanted and ReasonsGiven tell; all other objects stay |
| DebuginfoStores.Store.InitiateUpload | pkg/debuginfo/store.go:270-341 | is one protocol call on the object of the build id and type; all other objects stay |
| DebuginfoStores.Store.MarkUploadFinished | pkg/debuginfo/store.go:343-368 | is one protocol call on the object of the build id and type; all other objects stay |
| CompactDictionaries.CountReferences | pkg/compactdictionary/compactdictionary.go:40-66 | counts the references of every entry and the entries that have any |
| CompactDictionaries.CopyValues | pkg/compactdictionary/compactdictionary.go:68-112 | copies exactly the referenced entries in their order and notes where each went |
| CompactDictionaries.CastKeeps | pkg/compactdictionary/compactdictionary.go:117-127 | an index below the new length is unchanged by the cast to the chosen width |
| CompactDictionaries.CompactDictionary | pkg/compactdictionary/compactdictionary.go:31-187 | every index is null as before or leads to the same entry, the result holds exactly the referenced entries in order, and the width is that of their number, to which no index is lost |
| CompactDictionaries.KeptFrom | pkg/compactdictionary/compactdictionary.go:68-112 | every kept entry is a referenced one, at the place given by its rank |
| AddressNormalizer.CandidatesMatch | pkg/profile/executableinfo.go:134-173 | the candidates are exactly the matching segments, in order |
| AddressNormalizer.MatchesExactly | pkg/profile/executableinfo.go:149-168 | a segment matches if and only if it overlaps the mapping, does not begin on a later page, and is not one of which the mapping has less than a page and goes on for a page or more |
| AddressNormalizer.ProgramHeadersForMapping | pkg/profile/executableinfo.go:134-173 | collects the matching segments in wrapping arithmetic |
| AddressNormalizer.HeaderForFileOffset | pkg/profile/executableinfo.go:178-197 | succeeds exactly if one candidate alone contains the file offset, with that one |
| AddressNormalizer.FindProgramHeader | pkg/profile/executableinfo.go:90-121 | the segment an address belongs to, with the branches for kernel ranges, files without segments, and single candidates |
| AddressNormalizer.NothingToChoose | pkg/profile/executableinfo.go:90-109 | kernel ranges get the segment of the code, files without segments none, mappings without a match an error, and those with one match that one |
| AddressNormalizer.NormalizeAddress | pkg/symbolizer/normalize.go:23-76 | subtracts the base of the address's segment; an error leaves the address |
| AddressNormalizer.NormalizedOtherwise | pkg/symbolizer/normalize.go:23-76 | without a segment and in a mapping of everything the address stays; relocatable files subtract the start, and only at offset 0; other kinds are an error |
| AddressNormalizer.NormalizedIsFileByte | pkg/symbolizer/normalize.go:51-73 | for executables and shared objects the result is the segment's address of the byte that the address maps |
| AddressNormalizer.NormalizedInSegment | pkg/symbolizer/normalize.go:36-76 | the result lies in the chosen segment exactly if the segment contains the mapped byte |
| AddressNormalizer.AmbiguousIsUnique | pkg/profile/executableinfo.go:90-114 | with several matching segments an address is accepted exactly if one alone contains its byte, and then lands in it |
| AddressNormalizer.DistancesKept | pkg/symbolizer/normalize.go:23-30 | two addresses of one segment keep their distance modulo 2^64 |
| AddressNormalizer.SingleSegmentUnchecked | pkg/profile/executableinfo.go:103-109 | with a single matching segment the byte is not checked, so the result can lie outside of it |
| LruCaches.LRU.Add | pkg/cache/lru/lru.go:59-76 | the key is most recent with its new value, the oldest entry beyond the capacity is gone, and list and map stay in bijection |
| LruCaches.LRU.Get | pkg/cache/lru/lru.go:79-87 | returns the stored value and makes the key most recent |
| LruCaches.LRU.Peek | pkg/cache/lru/lru.go:90-95 | returns the stored value and changes nothing |
| LruCaches.LRU.Remove | pkg/cache/lru/lru.go:98-102 | takes out exactly the key |
| LruCaches.LRU.RemoveElement | pkg/cache/lru/lru.go:113-121 | takes an element out of list and map together |
| LruCaches.LRU.Purge | pkg/cache/lru/lru.go:124-132 | empties list and map |
| LruCaches.LRU.RemoveMatching | pkg/cache/lru/lru.go:144-150 | takes out exactly the matching entries, in any map order |
| LruCaches.UnmatchedExactly | pkg/cache/lru/lru.go:144-150 | what is left are exactly the entries that do not match |
| LruCaches.UnmatchedInOrder | pkg/cache/lru/lru.go:144-150 | and they are in the order they were in |
| LruSpec.RunIsCut | pkg/cache/lru/lru.go:59-95 | after every run the cache is an unlimited one cut to the capacity |
| LruSpec.RunHoldsMostRecent | pkg/cache/lru/lru.go:59-95 | after every run of Add, Get and Peek the list is the keys by last successful use, each with its last added value; a used key that is not held is less recent than all held, which fill the capacity |
| TtlCaches.LRUCacheWithTTL.Add | pkg/cache/cache_with_ttl.go:46-82 | adds with a deadline; a new key may trigger the removal of all expired entries |
| TtlCaches.LRUCacheWithTTL.Get | pkg/cache/cache_with_ttl.go:84-106 | hits only entries whose deadline has not passed, removes expired ones, and renews deadlines if so set |
| TtlCaches.RunJustified | pkg/cache/cache_with_ttl.go:75-125 | in every run each entry holds the value added last and the deadline that the last addition or renewing hit of its key gave it |
| TtlCaches.HitsAreLive | pkg/cache/cache_with_ttl.go:84-106 | a hit returns the value added last and is not past the deadline given last, by an addition or a renewing hit |
| TtlCaches.HeldIsHit | pkg/cache/cache_with_ttl.go:84-106 | in every run an entry that is held is a hit until its deadline has passed, and then a miss that removes it; a key that is not held is a miss |
| TtlCaches.OthersStay | pkg/cache/cache_with_ttl.go:46-125 | an entry stays through an operation on another key unless it is pushed out or found expired |
| TtlCaches.RemovalOnAdd | pkg/cache/cache_with_ttl.go:46-73 | adding a new key when a removal is due leaves no expired entry and puts the next removal off by the lifetime |
| TableSpec.FlatIsLeafValue | pkg/query/table.go:134-199 | the flat value of a frame is the value of the samples whose innermost frame it is |
| TableSpec.FramesPassed | pkg/query/table.go:137-198 | a sample passes exactly its frames, location by location and line by line from the leaf; nulls and lines without a name leave nothing |
| QueryTables.TableBuilder.AppendRow | pkg/query/table.go:326-434 | a row for a new frame, with value, flat value at a leaf, and the call to the frame before |
| QueryTables.TableBuilder.MergeRow | pkg/query/table.go:436-451 | adds value, flat value at a leaf, and the call to an existing row |
| QueryTables.TableBuilder.AddCaller | pkg/query/table.go:453-464 | adds one caller and nothing else, growing the list of sets |
| QueryTables.TableBuilder.AddCallee | pkg/query/table.go:466-477 | adds one callee and nothing else, growing the list of sets |
| QueryTables.TableBuilder.AddAddress | pkg/query/table.go:144-173 | a frame without lines has one row per build id and address |
| QueryTables.TableBuilder.AddFunction | pkg/query/table.go:181-194 | a frame with a function has one row per name |
| QueryTables.TableBuilder.AddLines | pkg/query/table.go:174-196 | walks the named lines of a location, innermost first |
| QueryTables.TableBuilder.AddSample | pkg/query/table.go:137-198 | walks a sample leaf first, skipping null locations and lines without a function |
| QueryTables.TableBuilder.AddTotal | pkg/query/table.go:135-135 | the total grows by all values of the record |
| QueryTables.TableBuilder.AddRecord | pkg/query/table.go:134-199 | after a record every row holds the value of the passages through its frame and the value of the samples that end in it |
| QueryTables.TableBuilder.CallersAndCalleesConverse | pkg/query/table.go:453-477 | in every state callers and callees are converse relations, and are the calls of the samples |
| QueryTables.Populate | pkg/query/table.go:285-314 | a row without callers or callees gets null, every other its whole set |
| TableAgreement.LeafIsLast | pkg/query/table.go:144-179 | the frame a symbolized sample ends in is the last of its root-to-leaf stack |
| TableAgreement.TableMatchesFlamegraph | pkg/query/table.go:134-199 | for a symbolized profile the table's flat value of a function is the sum of flat over all rows of that function in the untrimmed flame graph |
| TableAgreement.TotalsAgree | pkg/query/flamegraph_arrow.go:270-346 | both reports' flat values add up to the value of the samples with a non-empty stack |
| TableAgreement.BuildersAgree | pkg/query/table.go:134-199 | a table builder and a flame graph builder that were given the same symbolized samples hold the same flat value for every function, also one without a row |
| TableAgreement.BuilderTotalsAgree | pkg/query/flamegraph_arrow.go:270-346 | and their flat columns have the same sum, the value of the samples with a non-empty stack |
| PprofProfiles.ValidateIsWellFormed | pkg/normalizer/validate.go:23-148 | the check accepts exactly the profiles with sequential ids, all references in range, and samples with one value per type |
| PprofWriters.PprofWriter.constructor | pkg/query/pprof.go:111-137 | starts with the empty string at index 0 and value types that denote the given strings |
| PprofWriters.PprofWriter.String | pkg/query/pprof.go:88-109 | the returned index denotes the string, and indices given before keep theirs |
| PprofWriters.PprofWriter.TransposeBinaryArray | pkg/query/pprof.go:425-433 | every dictionary entry has an index that denotes it |
| PprofWriters.PprofWriter.Transpose | pkg/query/pprof.go:405-423 | all dictionaries of a record are interned, and stay so while it is written |
| PprofWriters.PprofWriter.InternMapping | pkg/query/pprof.go:246-284 | the id of an entry with the input's rounded size and offset and the same build id, or file if it has none; added, with all of the input, only if there is none such; 0 exactly for none |
| PprofTables.RoundedToPages | pkg/query/pprof.go:440-464 | the rounded size is the smallest number of whole pages that holds the size, or zero if that takes all 64 bits |
| PprofWriters.PprofWriter.InternFunction | pkg/query/pprof.go:327-372 | the id of a function with exactly the input's names, file and start line, added only if there is none such; 0 exactly for a line without any |
| PprofWriters.PprofWriter.InternLines | pkg/query/pprof.go:296-313 | exactly the valid lines with a function, each denoting it |
| PprofWriters.PprofWriter.BuildLocation | pkg/query/pprof.go:286-315 | the location built for an input has its address, a mapping that denotes its mapping, and its lines |
| PprofWriters.PprofWriter.InternLocation | pkg/query/pprof.go:286-325 | the id of a location with the key of one that describes the input; added only if there is none such, and then describing the input itself |
| PprofTables.SameKeyExactly | pkg/query/pprof.go:480-498 | two locations have the same key if and only if both are at one address of one mapping, or both have no place in a mapping and the same functions and line numbers, or one has a place whose mapping number and offset are the function number and line number of the other's only line |
| PprofTables.StandsWrongly | pkg/query/pprof.go:480-498 | the entry that stands for a mapped location is one at its place, or else it has no place, its only line reads like the place, and it does not describe the location |
| PprofTables.PlaceTakenForLine | pkg/query/pprof.go:480-498 | two rows, line 5 of the first function unmapped and address 0x1005 in a mapping from 0x1000: the map finds the first location for the second row, whose sample so names a location that does not describe it |
| PprofTables.OneLocationIsWritten | pkg/query/pprof.go:159-213 | the profile of these two rows is what the writer promises of it: each sample denotes its row by key |
| PprofWriters.PprofWriter.Labels | pkg/query/pprof.go:193-203 | the labels are the valid label columns with their names and values |
| PprofWriters.PprofWriter.InternStack | pkg/query/pprof.go:164-178 | the k-th id is that of a location standing for the k-th valid location of the row, and every location added describes one of the row |
| PprofWriters.PprofWriter.AddSample | pkg/query/pprof.go:159-213 | a row with a valid location becomes one sample that denotes its stack, its labels and its value or diff; other rows leave nothing |
| PprofWriters.PprofWriter.WriteRecord | pkg/query/pprof.go:146-157 | keeps the profile acceptable; all tables only grow; behind the samples written before stand, in order, samples that denote the rows with a location, and the sum of the values grows by theirs |
| PprofTables.SamplesDenoteGrows | pkg/query/pprof.go:146-157 | what the samples of a record denote they go on denoting while later records are written |
| PprofWriters.PprofWriter.ResultAccepted | pkg/normalizer/validate.go:23-148 | whatever records were written, the check accepts the profile |
| PprofWriters.GenerateFlatPprof | pkg/query/pprof.go:59-73 | for any records the profile is accepted by the check, its samples denote the rows of all records one record after the other, and the values add up |

## Left out

Deliberately weaker contracts:

- FlamegraphBuilders.FlamegraphBuilder.AddRecord: what the rows mean is stated for anchored samples, which are all that a record as written or filtered has; by ExactIffAnchored no other sample of non-zero value is added exactly. Sums are unbounded integers, so int64 overflow is not modelled.
- FlamegraphBuilders.FlamegraphBuilder.MergeRows: clearing metadata columns and labels on a merge is not modelled.
- FlamegraphBuilders.FlamegraphBuilder.AppendRow: the columns for mapping, location, line and function metadata and the diff column are not modelled; keys are taken as given, whatever hashCombine made them from.
- FlamegraphTrim.Trim: line numbers are passed through from given columns; metadata columns, children's offsets in the Arrow list and the lists' validity bits are not modelled.
- FrameFilters.FilterRecord: which stacks and frames match is any function of the row, and of the location and line; the conditions themselves, the sum of the filtered values and the order of original records are not modelled.
- FilteredReports.BuildReports: one record; a line's merge key and name are columns of it, whatever grouping made the key.
- FlamegraphTrim.Measure: the threshold is an arbitrary function of the integer that is converted to floating point.
- FlamegraphTrim.SortByValue: the library sort is written as an insertion sort.
- FlamegraphArrow.TrimRecord: exact columns need non-negative samples whose total is below 2^63; a record without rows besides the root is covered, its null columns are not modelled.
- FlamegraphAggregation.AggregateByFunction: nodes are values, so update in place through shared pointers is not captured; a merged child is written back into its parent and a finished node joins its parent when it is left.
- FlamegraphTree.GenerateTree: samples refer to a finished location table; the interning converter that fills it, the binary search (its result is stated) and the pointer descent (a recursion here) are not modelled.
- LocationDecoder.DecodeInto: what it leaves in the columns when it fails is not stated; the address is not part of its result when there are lines, as in the source; DecodeSymbolizationInfo returns it.
- LocationEncoder.EncodePprofLocation: strings are byte sequences shorter than 2^63; a slice of a buffer ends at its length, spare capacity is not modelled.
- LineCache.CachedLiner.PCToLines: database errors and resource limits of the liner are not modelled; creating the liner and resolving an address are functions of build id and address.
- ScrapeProtocol.RunSafety: what a scrape does, its timing and errors, and the manager's maps of pools are not modelled; the manager contributes that one config operation runs at a time.
- ScrapeLiveness.EveryWaitEnds: that no thread is starved and every scrape ends is assumed; a cancelled context makes a scrape end in the source.
- Callgraphs.PruningKeepsReachability: the cut-off is any integer, which stands for the comparison in floating point; generating the graph from samples is not modelled.
- CallgraphPruning.PruneGraph: new edge ids come from an arbitrary function; `uuid(k)` is the id of the k-th new edge and may equal another id.
- DebuginfoProtocol.OnlyTheLastIsAccepted: each call is one atomic step; a read and write of metadata interleaved with another call is not modelled.
- DebuginfoStores.Store.MarkUploadFinished: bucket errors and the uploaded bytes are not modelled.
- CompactDictionaries.CompactDictionary: dictionary entries are not null themselves; builders' reserved capacity is not modelled.
- AddressNormalizer.NormalizedInSegment: asks that the segment's file range and address range do not wrap.
- LruCaches.LRU.Add: the linked list is a sequence of element identities; metrics and the eviction callback are not modelled.
- LruCaches.LRU.RemoveMatching: the eviction callback is not modelled.
- TtlCaches.HitsAreLive: sequential runs only.
- QueryTables.TableBuilder.AppendRow: mapping, location and function metadata and the diff columns are not modelled.
- TableAgreement.TableMatchesFlamegraph: needs every remaining location to have lines with function names, and the first remaining location to have a frame if any has, as RowsComparable proves of filtered symbolized records; a location with an empty list of lines is an address in the flame graph and nothing in the table.
- PprofWriters.PprofWriter.InternLocation: an existing location with the same key may differ in what the key leaves out, as in the source; SameKeyExactly says what the key tells.
- PprofWriters.GenerateFlatPprof: label names are not empty and dictionary indices are in range.
- PprofWriters.PprofWriter.AddSample: samples are never merged, since the map for that is never filled; the sample key is not modelled.

Not modelled at all:

- Label and timestamp grouping of flame graphs, and how the diff values of the Arrow flame graph come about.
- Trimming of the table flame graph and the non-table aggregation, which repeats the table one.
- Arrow, Parquet, object storage, gRPC and reference counting: columns are sequences and stores are maps.
- The encoders for Arrow and OpenTelemetry locations.
- The eviction-callback variant of the cache with deadlines and concurrent use of the LRU wrappers.
- Reading ELF files, DWARF and demangling, HTTP, configuration, tracing and metrics.
