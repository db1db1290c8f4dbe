# Verified models of the core of Redis 3.0

A Dafny model of the parts of Redis 3.0, and of the hiredis and jemalloc copies it
ships, that hold the most intricate state: what each does in place, step by step, is
written as a method with a loop or as a class with mutable fields, specified by a
function or predicate, and proved. `dafny verify dfyconfig.toml` checks everything.

| files | model |
|---|---|
| Lzf, LzfLaws | the LZF compressor and decompressor; the format, octet by octet |
| PqSort | the partial quicksort |
| HllBits, HllSpec, HllDense, HllSparse, HllWalk, HllCommands, HllLaws, HllRuns | HyperLogLog: packed bits, registers as a mathematical object, the dense and the sparse encoding, the loops over them, objects and commands, what bits and bytes mean, whole runs of commands |
| RespSpec, RespReader, RespFormat, RespLaws | the RESP protocol as a function, the resumable reader, the command printer, what literal input reads as |
| SdsQuote, SdsLaws | quoting and splitting of argument lines; words, quotes and escapes |
| Ckh | the cuckoo hash table |
| ProfCtx, ProfLaws | profiling contexts, as a protocol of threads: safety, and reclamation |
| Chunk | free address space in two trees |
| ArenaRuns, ArenaState, ArenaPlans, ArenaLaws, ArenaPages | page runs of an arena: lists of runs and page maps, the invariant, what each operation does to them and to every page, the operations |
| AllocSlots | slots and replicas of a new cluster |
| Options | optional values |

## Main results

- **LZF.** `Compress` is correct for every initial content of its uninitialised hash
  table, any 64-bit values, when the input does not lie in the first 8192 addresses: what it
  returns decompresses to the input (`RoundTrip`), is never longer than
  `in_len + in_len / 32 + 1`, and for non-empty input is never 0 with
  `in_len + in_len / 32 + 4` octets of room. One octet repeated compresses to at most
  `in_len / 88 + 9` octets (`Compress`). The three forms of an instruction mean what the
  format says on literal octets (`LzfLaws`).
- **Partial sort.** `PqSort` terminates and permutes under any comparison function; under
  a total preorder each requested index holds what any full sort puts there (`InPlaceIsRank`).
- **HyperLogLog.** Every operation on every encoding refines the pointwise maximum, every
  sum is the same exact sum, and every sequence of PFADD, PFCOUNT and PFMERGE refines a
  model in which a key is the set of elements contributed to it (`HllRuns.Run`), so that runs
  with the same outcome there leave equal registers (`SameOutcome`, `AddEitherWay`,
  `MergeOrAdd`); the cached cardinality is coherent throughout, also after an addition that
  stops at a corrupted object. The merge pass leaves no two opcodes that could be merged
  (`PassTidies`), an addition promotes exactly when it has to (`StaysSparse`), and the places
  of registers, opcodes and cache are fixed bit by bit (`DenseLayout`, `OpcodeLayout`).
- **RESP reader.** Whatever the fragmentation, replies and error are those of the stream
  parsed in one piece (`Deliver`). Encoding and reading are inverse exactly for replies that
  the protocol can carry (`RoundTrip`, `RoundTripOnly`), in particular for every command.
  Streams of replies are read back as they are, and less than all of a reply is neither read
  nor an error (`StreamRoundTrip`, `PrefixAsksForMore`). `RespLaws` says what each kind of
  header reads as, up to a reader that is fed nil replies (`NilReplies`).
- **Quoting.** Splitting undoes quoting and joining for every list of byte strings; words
  without quotes split into themselves whatever blanks surround them (`SplitWords`), and so
  does text in single quotes (`SplitSingle`); open and glued quotes give nothing
  (`SplitOpen`, `SplitGlued`).
- **Cuckoo table.** It is a finite map through every eviction chain, rebuild, grow and
  shrink. An insertion fails if and only if it requested memory and the last request, and
  only that, was refused; otherwise the table has doubled once for each request, and not at
  all when a bucket of the key has a free cell (`Table.Insert`).
- **Profiling contexts.** Over all interleavings, bt2ctx and the threads' caches lead to
  live memory if and only if no failed hash-table insertion loses another entry than its own
  (`SoundExactly`); in all such runs no thread holds a pointer to a released context and none
  is released twice (`Safety`). A merge destroys exactly when nobody else needs the context
  (`MergeEnds`, `DestroyEnds`, `Reclaim`), no step but one can forget a context that nobody
  needs (`StepRemembers`), and without that one all contexts are reclaimed once threads and
  objects are gone (`NothingForgotten`, `AllReclaimed`).
- **Chunks.** Free extents are disjoint, maximal and determined by the free addresses alone;
  recycling removes and recording adds exactly the block, and the `zeroed` flags afterwards
  are stated exactly (`Extents.Recycle`, `Extents.Record`).
- **Arena.** After every operation the runs tile each chunk, boundary tags agree, coalescing
  is maximal, the counters and trees are what the runs amount to, and allocation takes the
  lowest of the smallest sufficient runs. Every page of a small run leads to its first page
  and its bin. The tags determine the owner of every page (`StatusDetermines`), and each
  operation, the purge included, says page by page what becomes of it and what does not.
- **Slots.** The ranges partition the slots fairly, each ending at the slot nearest to its
  exact share; masters are spread over hosts as evenly as the hosts allow; a replica shares
  its master's host only when no other has nodes left; every node is used exactly once.

## What turned out not to hold

- With `opt_prof_accum` the assertion at `prof.c:695` holds if and only if no object was ever
  sampled into the context (`ProfCtx.DestroyAssertsHold`); `AccumAssertFails` constructs a
  run in which it fails. Without the option it always holds.
- A failed `ckh_insert` at `prof.c:484` or `prof.c:535` may drop another entry than the new
  one, which is then freed though it is in the table: `ProfCtx.DanglingEntry` constructs such
  a run for any number of contexts from four on, as many as fill a bucket, and `SoundExactly`
  says that only such runs go wrong. The hash values that make an insertion fail and decide
  which entry is dropped are not part of that model.
- A thread that looks up a context it did not create and then runs out of memory leaves
  `nlimbo` incremented for ever (`LeakingRun` is such a run), and such a context is never
  destroyed (`LeakedForever`). `nlimbo` is more than the increments that threads are going to
  undo exactly when that has happened (`LimboCounts`).
- Without `opt_prof_accum`, the one step that can forget a context, leaving it in bt2ctx with
  nobody to destroy it, is a free by a thread that cannot have a counter: it does so exactly
  when the object is the context's last, nobody has a counter there and nlimbo is 0
  (`ProfLaws.UnchargeForgets`, `StepRemembers`).
- A string in single quotes that ends in a backslash is unbalanced, as `\'` does not close
  the quotes (`SdsLaws.SplitSingle`).
- A failed `ckh_insert` leaves the map as it was if and only if the lost item is the new one.
  When its first request for memory is refused, that is never so, at any table size: the new
  key is there and another one is gone (`Table.Insert`; `FailingInsert` is an instance).
- `hllSparseAdd` returns -1 for an empty stream, and for one that is about to be promoted and
  does not cover the registers exactly; for no other. For a register behind a non-empty
  stream it takes the byte behind the stream for an opcode, overwrites it and returns 1,
  though no register changes, until that byte holds a count as high (`HllObject.SparseAdd`;
  `SilentAddition` is an instance).
- `hllSparseToDense` and `hllMerge` store inside their arrays if and only if no VAL opcode of
  the stream ends behind register 16383 (`HllWalk.Expand`, `MergeSparse`, `InsideExactly`;
  `StrayStream` is a stream with one). `isHLLObjectOrReply` does not look at the stream, so
  the commands say of every object whether that happens: editing a stream and counting never
  do, promotion and merging do exactly for such streams. What follows is not modelled.
- `chunk_recycle` never sets the `zeroed` field of the node it allocates for trailing space;
  `Chunk.CutHonest` states exactly when the flags keep telling the truth, and `FlagLies` has
  an extent for which they do not. Later coalescing keeps what truth there is
  (`Extents.Record`). When it cannot have that node, the trailing space is lost (`Extents.Drop`).
- A cardinality with bit 7 of its low byte set is never cached, because the validity flag
  shares that bit (`StoredCacheValid`). The comment at `hyperloglog.c:84` puts the flag in the
  most significant byte; the macros use the least significant one, and so does the model.
- `redisFormatCommandArgv` counts in an int, which is right exactly for commands whose length
  an int can hold (`CommandLength`).
- The spare chunk is never in the tree of dirty chunks, so the branch at `arena.c:728-733` is
  not taken (`SpareClean`).
- `arena_ralloc_large_grow` asked for less than the old size fails, because the difference at
  `arena.c:1839` wraps around (`Arena.Grow`).
- With more than 16384 masters the slot ranges do not end at 16383 (`AssignSlots`).
- All nodes that are left over by the first round of replicas become replicas of the first
  master, not of several.

## Model

| member | source | states |
|---|---|---|
| Lzf.CopyBack | redis-3.0/src/lzf_d.c:137-142 | a back reference appends n octets and every one of them equals the octet `back` places before it, also where source and destination overlap |
| Lzf.Step | redis-3.0/src/lzf_d.c:70-145 | an instruction that succeeds consumes at least one octet of the stream, produces at least one, and stays within the room |
| Lzf.StepConcat | redis-3.0/src/lzf_d.c:55-149 | octets behind a complete instruction do not change what it does |
| Lzf.DecodeConcat | redis-3.0/src/lzf_d.c:55-149 | decoding a concatenation resumes where the first part stopped: what lets the compressor's output be judged piece by piece |
| Lzf.DecodeRoom | redis-3.0/src/lzf_d.c:80-87 | a stream that decodes needs exactly the room its output takes: with less the result is E2BIG, with more it is the same output |
| Lzf.LiteralRun | redis-3.0/src/lzf_d.c:70-91 | a literal run in place does what the first instruction of the stream means, with the same error |
| Lzf.BackReference | redis-3.0/src/lzf_d.c:96-142 | a back reference in place does what the first instruction means, or reports EINVAL or E2BIG exactly when that does |
| Lzf.CopyLiterals | redis-3.0/src/lzf_d.c:89-91 | appends exactly the literals |
| Lzf.CopyReference | redis-3.0/src/lzf_d.c:137-142 | the do-while copy in the output buffer appends the overlapping copy of the octets at `ref`, and leaves what was before alone |
| Lzf.Decompress | redis-3.0/src/lzf_d.c:55-149 | returns the length and the octets that the stream decodes to, or 0 and the errno of the first offending instruction, for every stream and every output size |
| Lzf.AppendLiteral | redis-3.0/src/lzf_c.c:266 | storing a literal keeps the invariant: everything before the reserved control octet decodes to the input before the pending literals |
| Lzf.CloseRun | redis-3.0/src/lzf_c.c:173 | back-patching lit - 1 into the reserved octet makes the pending run decodable, within 33/32 of the input plus a constant |
| Lzf.StartRun | redis-3.0/src/lzf_c.c:227 | reserving a control octet starts an empty pending run |
| Lzf.CopyBackMatch | redis-3.0/src/lzf_c.c:137-147 | copying from a matching earlier position reproduces the octets of the input, also when the match overlaps itself |
| Lzf.EncodeRef | redis-3.0/src/lzf_c.c:211-224 | the two or three octets of a reference read back as the same offset and length: the inverse of the decoder's field extraction |
| Lzf.AppendReference | redis-3.0/src/lzf_c.c:211-224 | appending a reference to a match extends what the output decodes to by exactly the matched octets, and costs no more than it saves |
| Lzf.ExtendMatch | redis-3.0/src/lzf_c.c:167-209 | the match covers 3..264 octets, all inside the input and all equal, although the sixteen unrolled probes do not test maxlen; it ends at a difference, at 264 or within two octets of the end |
| Lzf.EmitReference | redis-3.0/src/lzf_c.c:211-224 | stores exactly the encoding of the reference |
| Lzf.FindMatch | redis-3.0/src/lzf_c.c:147-166 | takes a match exactly when the slot, whatever it held, points to an earlier position in the window with three equal octets and enough input is left; updates that slot only |
| Lzf.HashSkipped | redis-3.0/src/lzf_c.c:233-246 | after a match enters exactly the last two positions it covered |
| Lzf.Compress | redis-3.0/src/lzf_c.c:98-294 | for every initial content of the table: the result is at most out_len and in_len + in_len / 32 + 1, decompresses to the input, and is not 0 when out_len >= in_len + in_len / 32 + 4; one octet over and over is really compressed, to at most in_len / 88 + 9 octets |
| Lzf.CompressStep | redis-3.0/src/lzf_c.c:147-273 | one round: takes a longest match exactly when the slot of the hash gives a usable one, otherwise one literal; keeps the invariant, and never fails with enough room |
| Lzf.MatchOrLiteral | redis-3.0/src/lzf_c.c:147-273 | the same round with what it leaves in the table and in hval, and how many octets a match takes |
| Lzf.SteadyMatch | redis-3.0/src/lzf_c.c:147-166 | when the input is one octet over and over, the look-up finds a usable match from the third octet on, whatever the table held |
| Lzf.SteadyReference | redis-3.0/src/lzf_c.c:168-246 | and the positions that are entered behind a match make it do so again |
| Lzf.Finish | redis-3.0/src/lzf_c.c:276-293 | appends the last octets and closes the run: gives up exactly when op + 3 exceeds out_len, and takes no more than an octet for each |
| Lzf.PushMatch | redis-3.0/src/lzf_c.c:168-227 | closes the pending run and emits the longest match in at most three octets more, four behind literals; gives up exactly when not more than four octets are left after undoing an empty run |
| Lzf.PushReference | redis-3.0/src/lzf_c.c:179-227 | emits the longest match in at most three octets and reserves the next control octet |
| Lzf.StopRun | redis-3.0/src/lzf_c.c:173-174 | closes the pending run, or takes an empty one back; the store happens in either case, inside the buffer |
| Lzf.PushLiteral | redis-3.0/src/lzf_c.c:266-272 | adds one literal, and closes the run exactly when it has 32 |
| Lzf.RoundTrip | redis-3.0/src/lzf_c.c:98-294 | compressing and then decompressing, as two in-place runs: the input comes back when there is room for it, and E2BIG when there is not |
| PqSort.RearrangedEach | redis-3.0/src/pqsort.c:98-175 | what holds of all elements of a block holds of them after a permutation of the block |
| PqSort.SwapRearranges | redis-3.0/src/pqsort.c:78-84 | a swap is a permutation of every block that holds both elements |
| PqSort.Swap | redis-3.0/src/pqsort.c:78-84 | exchanges two elements and nothing else |
| PqSort.VecSwap | redis-3.0/src/pqsort.c:54-86 | exchanges two disjoint stretches element by element |
| PqSort.Med3 | redis-3.0/src/pqsort.c:88-96 | one of its arguments, with one of the others on either side of it in the order |
| PqSort.ScanUp | redis-3.0/src/pqsort.c:131-137 | keeps the four stretches of the scan and stops only at an element greater than the pivot or at the other scan |
| PqSort.ScanDown | redis-3.0/src/pqsort.c:138-144 | likewise from above, stopping at a lesser element |
| PqSort.SwapInward | redis-3.0/src/pqsort.c:147-149 | exchanging the two stopped elements keeps the four stretches |
| PqSort.Scan | redis-3.0/src/pqsort.c:127-150 | after the scan every element is in the stretch its comparison with the pivot calls for |
| PqSort.GatherLow | redis-3.0/src/pqsort.c:152-153 | moves the equal stretch at the left end behind the lesser one |
| PqSort.GatherHigh | redis-3.0/src/pqsort.c:154-155 | and the one at the right end before the greater one |
| PqSort.Gather | redis-3.0/src/pqsort.c:152-156 | the block is lesser, equal, greater |
| PqSort.Partition | redis-3.0/src/pqsort.c:126-156 | the block ends up permuted and in three parts: lesser, equal and greater, for any comparison function |
| PqSort.InsertionSort | redis-3.0/src/pqsort.c:107-113 | permutes the block and sorts it |
| PqSort.Sink | redis-3.0/src/pqsort.c:109-111 | moves an element down past the elements greater than it and no further |
| PqSort.SunkOrders | redis-3.0/src/pqsort.c:109-111 | where it stops, nothing before exceeds it and nothing passed is less |
| PqSort.SunkSorts | redis-3.0/src/pqsort.c:109-111 | the block with it is sorted |
| PqSort.PrunedMisses | redis-3.0/src/pqsort.c:158-160 | the byte-address test skips a part exactly when it holds no requested index, for every element size and for lrange and rrange in either order |
| PqSort.SettledTransfer | redis-3.0/src/pqsort.c:163-175 | permuting the rest of the block leaves the finished front in place |
| PqSort.SettledCompose | redis-3.0/src/pqsort.c:163-175 | fronts finished by successive rounds add up, so that the tail iteration is sound |
| PqSort.SortBlock | redis-3.0/src/pqsort.c:98-175 | terminates and permutes the block; under a total preorder every requested index has nothing greater before it and nothing smaller after it |
| PqSort.SortStep | redis-3.0/src/pqsort.c:106-175 | one round of the loop finishes a non-empty front of the block |
| PqSort.SortPart | redis-3.0/src/pqsort.c:157-162 | the recursion: a part that is neither trivial nor pruned has its requested indices in place |
| PqSort.PartitionOrders | redis-3.0/src/pqsort.c:126-156 | the three parts are ordered among each other |
| PqSort.StepOrders | redis-3.0/src/pqsort.c:157-162 | sorting the left part keeps the parts ordered |
| PqSort.StepSettles | redis-3.0/src/pqsort.c:157-174 | sorted, trivial and pruned parts together finish the front of the block |
| PqSort.PqSort | redis-3.0/src/pqsort.c:178-185 | the whole array is permuted and each index in [lrange, rrange] is in place |
| PqSort.SortNumbers | redis-3.0/src/pqsort.c:178-185 | on numbers, without the notions of this module: no element before an index of the slice is greater than the one there, none behind it is less, and the array is permuted |
| PqSort.CountPermutation | redis-3.0/src/pqsort.c:98-185 | counting elements does not depend on their order |
| PqSort.RankClash | redis-3.0/src/pqsort.c:98-185 | what holds of the first k + 1 elements of one arrangement holds somewhere from index k on in every other |
| PqSort.NotBelow | redis-3.0/src/pqsort.c:98-185 | elements in place at one index in two arrangements of the same elements compare equal, one direction |
| PqSort.InPlaceIsRank | redis-3.0/src/pqsort.c:178-185 | an index in place holds an element equivalent to the one any full sort of the same elements puts there: the slice is the slice of the sorted array |
| HllBits.OpcodeKinds | redis-3.0/src/hyperloglog.c:365-367 | every byte starts exactly one kind of opcode |
| HllBits.ZeroSet | redis-3.0/src/hyperloglog.c:379-381 | a stored ZERO opcode reads back |
| HllBits.XZeroSet | redis-3.0/src/hyperloglog.c:382-386 | a stored XZERO opcode reads back |
| HllBits.ValSet | redis-3.0/src/hyperloglog.c:376-378 | a stored VAL opcode reads back, value and length |
| HllBits.GroupGetStore | redis-3.0/src/hyperloglog.c:348-359 | storing one of four registers packed into three bytes reads back and leaves the other three alone, whatever the next byte is |
| HllBits.UnrolledGroup | redis-3.0/src/hyperloglog.c:517-537 | the shift-and-mask expressions of the unrolled sum read the same four registers as the accessor macro |
| HllBits.PatLen | redis-3.0/src/hyperloglog.c:444-470 | the pattern length is 1..50, the bits before its end are zero and the one at its end is set; the index is the hash modulo 16384 |
| HllSpec.RaiseRepresents | redis-3.0/src/hyperloglog.c:485-498 | raising one register to the maximum is adding one element to what the registers represent |
| HllSpec.JoinRepresents | redis-3.0/src/hyperloglog.c:1044-1083 | the pointwise maximum of two objects represents the union of their elements |
| HllSpec.RepresentsUnique | redis-3.0/src/hyperloglog.c:1044-1083 | the set of elements determines the registers |
| HllSpec.SumConcat | redis-3.0/src/hyperloglog.c:888-918 | the exact sum of 2^-register and the number of zeros are additive over stretches of registers |
| HllSpec.SumRun | redis-3.0/src/hyperloglog.c:888-918 | and proportional to the length of a run |
| HllDense.GetSet | redis-3.0/src/hyperloglog.c:337-359 | storing one of the 16384 packed registers reads back and leaves all others unchanged, at every position, also where the macros touch the byte behind the last register |
| HllDense.DecodeSet | redis-3.0/src/hyperloglog.c:348-359 | the same for all registers at once |
| HllDense.DecodeZeros | redis-3.0/src/hyperloglog.c:568-590 | zeroed memory stands for zero registers |
| HllSparse.DecodeBound | redis-3.0/src/hyperloglog.c:363-387 | a sparse object holds no value above 32 |
| HllSparse.Concat | redis-3.0/src/hyperloglog.c:363-387 | the registers of a concatenation of streams are the concatenation of their registers |
| HllSparse.SpliceRaise | redis-3.0/src/hyperloglog.c:811-823 | replacing an opcode by a stream for the same registers changes exactly those registers |
| HllSparse.Locate | redis-3.0/src/hyperloglog.c:663-689 | finds the opcode that covers the index, its first register and exactly the opcode before it; for an index that the stream does not reach, ends behind the last opcode |
| HllSparse.LookAt | redis-3.0/src/hyperloglog.c:666-688 | one round of the search: found, or the same question about the next opcode |
| HllSparse.ReadOp | redis-3.0/src/hyperloglog.c:675-683 | reads span and size of the opcode at a position, in each of its three kinds |
| HllSparse.ZeroOp | redis-3.0/src/hyperloglog.c:772-778 | a run of zeros as ZERO or XZERO stands for that many zeros |
| HllSparse.ValOp | redis-3.0/src/hyperloglog.c:794-806 | a VAL opcode stands for a run of its value |
| HllSparse.Split | redis-3.0/src/hyperloglog.c:764-808 | splitting an opcode around a register yields a stream for the same registers with that one set, in every case of the position inside a ZERO, XZERO or VAL run, and at most three bytes longer |
| HllSparse.MergePair | redis-3.0/src/hyperloglog.c:838-856 | two adjacent VAL opcodes of one value with at most four registers together are equal to one of the joint length |
| HllSparse.MergeStep | redis-3.0/src/hyperloglog.c:838-858 | merges exactly such pairs and shortens the stream by one byte then; otherwise steps over one opcode |
| HllSparse.Merge | redis-3.0/src/hyperloglog.c:831-861 | the merge pass, exactly: over five opcodes from the given one on, every pair of VAL opcodes of one value with at most four registers is merged, and the merged opcode tried again; no register changes, the stream never grows, and the string is terminated anew whenever a merge is made |
| HllSparse.SplitSingle | redis-3.0/src/hyperloglog.c:735-747 | overwriting a one-register VAL or ZERO opcode is the general split for it |
| HllSparse.Substitute | redis-3.0/src/hyperloglog.c:730-823 | splices the split opcode in unless it is longer than the old one and the object would exceed the limit: exactly the test of the code; terminates the string anew unless one opcode is overwritten |
| HllSparse.EditTail | redis-3.0/src/hyperloglog.c:690-748 | for an index behind the stream: the byte behind the stream reads as an opcode for one register and is overwritten; the stream stays as it is |
| HllSparse.EditCovered | redis-3.0/src/hyperloglog.c:730-861 | for an index that the stream covers: the same as EditStream |
| HllSparse.EditOpcode | redis-3.0/src/hyperloglog.c:735-861 | for a covered register that is less than the count: promotion is asked for exactly when the split does not fit, otherwise the stream has that one register changed |
| HllSparse.EditTest | redis-3.0/src/hyperloglog.c:730-733 | the test on the opcode is the test on the register it covers |
| HllSparse.SplitFits | redis-3.0/src/hyperloglog.c:764-823 | the stream with the split opcode is well formed, has the one register changed, and can be merged from the opcode before |
| HllSparse.EditStream | redis-3.0/src/hyperloglog.c:656-861 | the stream edit, exactly: an empty stream is invalid; nothing happens when the register is high enough; promotion is asked for exactly when the split does not fit; otherwise the stream is the one with the covering opcode split, after the merge pass from the opcode before, and has that register at the count and all others unchanged. Where the stream does not reach the register, the byte behind it is overwritten unless it holds a count as high |
| HllWalk.InsideExactly | redis-3.0/src/hyperloglog.c:588-607 | a walk stores registers behind the last one exactly when a VAL opcode of the stream ends behind it |
| HllWalk.StrayStream | redis-3.0/src/hyperloglog.c:588-607 | a concrete well-formed stream for which that is so |
| HllWalk.OpWithin | redis-3.0/src/hyperloglog.c:597-605 | the same for one opcode |
| HllWalk.Expand | redis-3.0/src/hyperloglog.c:588-607 | for every stream: either every register stored lies inside the array, exactly when no value stands behind the last register, and the dense registers are those of the stream, filled up with zeros; or the walk would store behind it |
| HllWalk.StoreRun | redis-3.0/src/hyperloglog.c:601-604 | adds one run to the registers stored so far |
| HllWalk.MergeDense | redis-3.0/src/hyperloglog.c:1048-1054 | max becomes the pointwise maximum with the dense registers |
| HllWalk.MergeSparse | redis-3.0/src/hyperloglog.c:1056-1080 | for every stream: max becomes the pointwise maximum with what it covers, with an error exactly when that is not all registers and no more; or a register behind max would be stored, exactly when the stream holds a value there |
| HllWalk.MergeOp | redis-3.0/src/hyperloglog.c:1062-1078 | one opcode raises exactly the registers it covers, or would go beyond max |
| HllWalk.RaiseRun | redis-3.0/src/hyperloglog.c:1073-1076 | raises exactly a run of registers |
| HllWalk.SparseSum | redis-3.0/src/hyperloglog.c:888-918 | the run-length sum is the exact sum and the zero count of the registers, and reports exactly the streams that do not cover them all |
| HllWalk.SumOp | redis-3.0/src/hyperloglog.c:894-912 | what an opcode contributes is what its registers contribute |
| HllWalk.DenseSumGroup | redis-3.0/src/hyperloglog.c:517-546 | a group of the unrolled loop adds its four registers |
| HllWalk.DenseSum | redis-3.0/src/hyperloglog.c:504-558 | the unrolled sum is the exact sum and zero count of the packed registers |
| HllWalk.RawSumWord | redis-3.0/src/hyperloglog.c:938-946 | a word of eight bytes adds its registers, also when the zero word is skipped |
| HllWalk.RawSum | redis-3.0/src/hyperloglog.c:928-954 | the word-skipping sum is the exact sum and zero count: equal to the other two for equal registers |
| HllCommands.Invalidate | redis-3.0/src/hyperloglog.c:190-192 | an invalidated cache is not valid |
| HllCommands.LoadStore | redis-3.0/src/hyperloglog.c:1249-1272 | the cached cardinality reads back through its eight bytes |
| HllCommands.StoredCacheValid | redis-3.0/src/hyperloglog.c:190-192 | a stored cardinality yields a valid cache if and only if bit 7 of its low byte is clear: the validity flag shares that bit |
| HllCommands.EditMeans | redis-3.0/src/hyperloglog.c:638-866 | which result of the stream edit is which change of the registers |
| HllCommands.EditReply | redis-3.0/src/hyperloglog.c:638-882 | which result of the stream edit makes hllSparseAdd return -1, 0, 1 or promote |
| HllCommands.StrayAddition | redis-3.0/src/hyperloglog.c:868-874 | a concrete object whose promotion would store behind the last register |
| HllCommands.SettledNext | redis-3.0/src/hyperloglog.c:863-881 | an addition keeps the cache coherent, or leaves it to the caller when it was promoted |
| HllCommands.EditKeeps | redis-3.0/src/hyperloglog.c:811-861 | an edited stream has the pointwise maximum with the element as its registers and keeps to the size limit |
| HllCommands.SilentAddition | redis-3.0/src/hyperloglog.c:690-748 | a concrete object and element for which 1 is returned and no register changes |
| HllCommands.NewContent | redis-3.0/src/hyperloglog.c:1089-1119 | the bytes of a new object stand for 16384 zero registers, whose exact sum is 16384 |
| HllCommands.AddedNext | redis-3.0/src/hyperloglog.c:1172-1183 | adding one more element keeps what the loop of PFADD knows: registers, reply, and how a reply of 1 comes about |
| HllCommands.HllObject.constructor | redis-3.0/src/hyperloglog.c:1089-1119 | a new object is sparse, has 16384 zero registers, and its cache is valid and correct |
| HllCommands.HllObject.DenseAdd | redis-3.0/src/hyperloglog.c:485-498 | pointwise maximum with one element; 1 exactly when a register changed |
| HllCommands.HllObject.SparseToDense | redis-3.0/src/hyperloglog.c:568-620 | keeps all registers; an error, with nothing changed, exactly when the stream does not cover exactly all of them and no value stands behind the last; a store behind the last exactly when one does |
| HllCommands.HllObject.SparseAdd | redis-3.0/src/hyperloglog.c:638-882 | pointwise maximum with one element, sparse or promoted, on every object. -1 exactly for an empty stream or one about to be promoted that does not cover exactly all registers, and then nothing changes; 1 exactly when a register is raised or the byte behind a stream that does not reach the register is overwritten; promotion exactly for a count above 32 or a split that does not fit, and a store behind the last register exactly when that stream holds a value there; says what becomes of cache and size |
| HllCommands.HllObject.Promote | redis-3.0/src/hyperloglog.c:868-881 | promotion followed by the dense add returns 1, so the assertion holds; an error exactly for a stream that covers another number of registers |
| HllCommands.HllObject.Add | redis-3.0/src/hyperloglog.c:1027-1034 | the same for either encoding, for every element and every object |
| HllCommands.HllObject.PfAdd | redis-3.0/src/hyperloglog.c:1155-1192 | the registers after PFADD on any object; the cache stays coherent, also when the command stops at a corrupted object, where exactly the elements before have been added and the next one fails; the reply is 1 whenever a register changed, for one element exactly when hllAdd returned 1 |
| HllCommands.HllObject.AddAll | redis-3.0/src/hyperloglog.c:1172-1183 | the loop: either the cache is coherent, or something was updated and the caller invalidates it; never fails on an object with all its registers; where it stops, the elements before have been added and the next one fails in the state reached |
| HllCommands.HllObject.AddNext | redis-3.0/src/hyperloglog.c:1172-1183 | one round |
| HllCommands.HllObject.Count | redis-3.0/src/hyperloglog.c:967-1023 | the cardinality depends on the exact sum and zero count of the registers only; validity is reported |
| HllCommands.HllObject.PfCount | redis-3.0/src/hyperloglog.c:1242-1280 | whatever PFCOUNT replies, cached or computed, is the cardinality of the current registers; says exactly when it fails and when a cache becomes valid |
| HllCommands.HllObject.Cache | redis-3.0/src/hyperloglog.c:1265-1272 | the stored bytes decode to the cardinality |
| HllCommands.HllObject.MergeInto | redis-3.0/src/hyperloglog.c:1044-1083 | pointwise maximum of the registers into max; an error or a store beyond max exactly as the registers say |
| HllCommands.HllObject.Assign | redis-3.0/src/hyperloglog.c:1323-1335 | the destination ends up dense with exactly the merged registers and an invalid cache; nothing changes when it cannot be converted |
| HllCommands.MergeAll | redis-3.0/src/hyperloglog.c:1209-1225 | max represents the union of the elements of all sources when all are complete; otherwise ends as the first that is not makes it end |
| HllCommands.MergeOne | redis-3.0/src/hyperloglog.c:1209-1225 | one source adds its elements |
| HllCommands.AllDone | redis-3.0/src/hyperloglog.c:1209-1225 | merging ends well exactly when it does for each source |
| HllCommands.PfCountAll | redis-3.0/src/hyperloglog.c:1204-1230 | the reply is the cardinality of any registers that represent the union of the elements; otherwise it ends as the first incomplete object makes it end |
| HllCommands.PfMerge | redis-3.0/src/hyperloglog.c:1285-1343 | the destination represents the union of the elements of all sources, its own included, with a coherent cache, exactly when all are complete; otherwise nothing changes |
| HllCommands.RaiseAllRepresents | redis-3.0/src/hyperloglog.c:1172-1183 | the registers after a list of additions depend on the set of the elements only |
| HllRuns.MergeIsAddingUnion | redis-3.0/src/hyperloglog.c:1285-1335 | in the set model merging equals adding the union of the sources' elements |
| HllRuns.OrderAndRepetition | redis-3.0/src/hyperloglog.c:1155-1192 | in the set model order, repetition and the promotion limit do not matter |
| HllRuns.Independence | redis-3.0/src/hyperloglog.c:1155-1343 | two objects built from the same elements have equal registers and counts, whatever their encodings and histories |
| HllRuns.Add | redis-3.0/src/hyperloglog.c:1155-1192 | PFADD refines the set model |
| HllRuns.Count | redis-3.0/src/hyperloglog.c:1242-1280 | PFCOUNT leaves the set model alone and replies the cardinality of the current registers |
| HllRuns.Merge | redis-3.0/src/hyperloglog.c:1285-1343 | PFMERGE refines the set model |
| HllRuns.Step | redis-3.0/src/hyperloglog.c:1155-1343 | every command keeps all objects valid and their caches coherent and refines the set model |
| HllRuns.AddEitherWay | redis-3.0/src/hyperloglog.c:1155-1192 | on keyspaces: the same elements added to a key, in any order, with any repetitions and limits, leave equal registers and counts everywhere |
| HllRuns.MergeOrAdd | redis-3.0/src/hyperloglog.c:1155-1343 | on keyspaces: merging keys into one leaves the registers and counts that adding all their elements to it leaves |
| HllRuns.SameOutcome | redis-3.0/src/hyperloglog.c:1155-1343 | on objects: two runs that end in the same state of the set model leave equal registers and counts at every key |
| HllRuns.Run | redis-3.0/src/hyperloglog.c:1155-1343 | so does every sequence of commands, over any number of keys |
| RespSpec.FirstNewline | redis-3.0/deps/hiredis/hiredis.c:260-284 | no CR LF lies before the one found, and none is missed |
| RespSpec.ParseLineExtend | redis-3.0/deps/hiredis/hiredis.c:355-387 | more input behind a complete line changes nothing but the rest |
| RespSpec.ParseBulkExtend | redis-3.0/deps/hiredis/hiredis.c:389-440 | likewise for a complete bulk string |
| RespReader.TypeStep | redis-3.0/deps/hiredis/hiredis.c:512-538 | reading the type byte does not change what the reader is going to emit |
| RespReader.ClimbUnfold | redis-3.0/deps/hiredis/hiredis.c:330-353 | an element handed to an open array, level by level, gives what a recursive parse of the missing elements gives |
| RespReader.FillNext | redis-3.0/deps/hiredis/hiredis.c:330-353 | so does going on with the next element |
| RespReader.CloseStep | redis-3.0/deps/hiredis/hiredis.c:339-343 | the last element closes its array |
| RespReader.NextStep | redis-3.0/deps/hiredis/hiredis.c:344-351 | any other element makes room for the next |
| RespReader.OpenStep | redis-3.0/deps/hiredis/hiredis.c:484-493 | opening a level for a non-empty array does not change what is going to be emitted |
| RespReader.SeekNewline | redis-3.0/deps/hiredis/hiredis.c:260-284 | the memchr-style scan finds the first CR LF |
| RespReader.Reader.constructor | redis-3.0/deps/hiredis/hiredis.c:556-575 | a new reader has emitted nothing |
| RespReader.Reader.SetError | redis-3.0/deps/hiredis/hiredis.c:186-210 | the error is kept, the buffer and any partial reply are dropped |
| RespReader.Reader.MoveToNextTask | redis-3.0/deps/hiredis/hiredis.c:330-353 | pops exactly the arrays that the item completes; the stack stays consistent and the assertions hold |
| RespReader.Reader.FinishItem | redis-3.0/deps/hiredis/hiredis.c:330-353 | consuming an item and moving on changes nothing about what is going to be emitted |
| RespReader.Reader.ProcessLineItem | redis-3.0/deps/hiredis/hiredis.c:355-387 | the same; without a complete line nothing changes at all |
| RespReader.Reader.ProcessBulkItem | redis-3.0/deps/hiredis/hiredis.c:389-440 | likewise for a bulk string, nil included |
| RespReader.Reader.ProcessMultiBulkItem | redis-3.0/deps/hiredis/hiredis.c:442-505 | likewise for an array header, with empty, nil and nested arrays, and an error at the ninth level |
| RespReader.Reader.OpenArray | redis-3.0/deps/hiredis/hiredis.c:484-493 | the level that is opened lies within the stack |
| RespReader.Reader.ReadType | redis-3.0/deps/hiredis/hiredis.c:512-538 | reads the type byte, or fails for want of input or with an error |
| RespReader.Reader.ProcessItem | redis-3.0/deps/hiredis/hiredis.c:507-554 | an item makes progress, or the input does not hold a whole one |
| RespReader.Reader.ProcessTyped | redis-3.0/deps/hiredis/hiredis.c:540-553 | the same for an item whose type has been read |
| RespReader.Reader.Feed | redis-3.0/deps/hiredis/hiredis.c:585-615 | appends the input, or refuses it exactly when there is an error |
| RespReader.Reader.ProcessItems | redis-3.0/deps/hiredis/hiredis.c:630-644 | the loop stops with a reply, an error, or input from which no reply can be made |
| RespReader.Reader.GetReply | redis-3.0/deps/hiredis/hiredis.c:617-665 | emits one more reply, or none; then what was emitted, and the error, are exactly those of all input parsed in one piece |
| RespReader.Reader.Emit | redis-3.0/deps/hiredis/hiredis.c:658-663 | the finished root reply is emitted once and what is still to come stays the same |
| RespReader.OfferedStream | redis-3.0/deps/hiredis/hiredis.c:585-665 | emitted replies and those still to come are the replies of the stream |
| RespReader.Offer | redis-3.0/deps/hiredis/hiredis.c:585-615 | one more feed: the reader has been offered the longer stream |
| RespReader.Poll | redis-3.0/deps/hiredis/hiredis.c:617-665 | any number of GetReply calls keeps that |
| RespReader.Drain | redis-3.0/deps/hiredis/hiredis.c:617-665 | calling GetReply until it yields nothing emits all replies of the stream and its error |
| RespReader.Deliver | redis-3.0/deps/hiredis/hiredis.c:585-665 | fragmentation independence: every cutting of a stream into feeds with any number of GetReply calls between them yields the replies and the error of the stream in one piece |
| RespFormat.ReadSigned | redis-3.0/deps/hiredis/hiredis.c:288-313 | every number that is printed reads back |
| RespFormat.NewlineAfter | redis-3.0/deps/hiredis/hiredis.c:260-284 | an appended CR LF is the first one if and only if the line holds none |
| RespFormat.RoundTrip | redis-3.0/deps/hiredis/hiredis.c:507-554 | every reply whose lines hold no CR LF and whose arrays nest within the stack is read back, whatever follows |
| RespFormat.RoundTripAll | redis-3.0/deps/hiredis/hiredis.c:442-505 | likewise for a list of replies |
| RespFormat.RoundTripOnly | redis-3.0/deps/hiredis/hiredis.c:507-554 | no other reply is read back: the condition is exact |
| RespFormat.IntLen | redis-3.0/deps/hiredis/hiredis.c:668-679 | the number of characters %d prints for an int, negative ones included |
| RespFormat.BulkLen | redis-3.0/deps/hiredis/hiredis.c:682-684 | the length of an encoded bulk string of that size, as far as the size is an int; intlen gets the truncated size_t otherwise |
| RespFormat.CommandLength | redis-3.0/deps/hiredis/hiredis.c:946-950 | the first pass, which adds up in an int, computes the length of the command if and only if an int can hold it |
| RespFormat.FormatCommandArgv | redis-3.0/deps/hiredis/hiredis.c:939-971 | fills the allocated buffer with exactly totlen bytes of the encoded array of arguments, and a NUL, exactly when the size of that buffer is an int |
| RespFormat.PrintArguments | redis-3.0/deps/hiredis/hiredis.c:958-965 | the second pass writes the encoded arguments, inside the buffer |
| RespFormat.PrintBulk | redis-3.0/deps/hiredis/hiredis.c:960-964 | writes exactly the encoded argument and leaves what is before it |
| RespFormat.CommandRoundTrip | redis-3.0/deps/hiredis/hiredis.c:939-971 | a formatted command is parsed back to the array of exactly its arguments, whatever bytes they hold |
| SdsQuote.HexDigit | redis-3.0/deps/hiredis/sds.c:587-607 | a printed hexadecimal digit reads back |
| SdsQuote.CatRepr | redis-3.0/deps/hiredis/sds.c:553-576 | appends the quoted form |
| SdsQuote.Progress | redis-3.0/deps/hiredis/sds.c:639-716 | a token consumes input |
| SdsQuote.EscapeStep | redis-3.0/deps/hiredis/sds.c:645-679 | inside quotes the escape of any byte reads back as that byte |
| SdsQuote.EscapeAllStep | redis-3.0/deps/hiredis/sds.c:645-679 | likewise for a string |
| SdsQuote.ReprToken | redis-3.0/deps/hiredis/sds.c:639-716 | a quoted string before a blank or the end is one token with its value |
| SdsQuote.SplitJoin | redis-3.0/deps/hiredis/sds.c:628-736 | sdssplitargs on sdscatrepr forms joined by single spaces returns exactly the list, for every list of byte strings, the empty one included |
| SdsQuote.SplitArgs | redis-3.0/deps/hiredis/sds.c:628-736 | the loop with its flags computes the tokens of the line, or fails on exactly the lines with unbalanced quotes |
| SdsQuote.GetToken | redis-3.0/deps/hiredis/sds.c:639-716 | one token: the same value and rest, or the same failure, as the recursive reading |
| SdsQuote.QuotedStep | redis-3.0/deps/hiredis/sds.c:645-679 | one round inside double quotes consumes an escape, a hexadecimal escape or a character as the token's reading says; a closing quote must be followed by a blank or the end |
| SdsQuote.SingleQuotedStep | redis-3.0/deps/hiredis/sds.c:680-694 | likewise inside single quotes, where only an escaped quote is special |
| Ckh.StoreItems | redis-3.0/deps/jemalloc/src/ckh.c:107-109 | filling a free cell with a new key adds exactly that item and keeps keys distinct |
| Ckh.ClearItems | redis-3.0/deps/jemalloc/src/ckh.c:491-494 | emptying a cell removes exactly its item |
| Ckh.ExchangeItems | redis-3.0/deps/jemalloc/src/ckh.c:144-151 | storing over an item puts it in flight: table plus the item in flight is conserved |
| Ckh.ItemsStep | redis-3.0/deps/jemalloc/src/ckh.c:222-242 | as long as not all items have been met, the rebuild loop stays inside the table |
| Ckh.FreshKey | redis-3.0/deps/jemalloc/src/ckh.c:222-242 | a key met by the rebuild is not in the new table yet |
| Ckh.AbsentKey | redis-3.0/deps/jemalloc/src/ckh.c:454-476 | a key is in no cell exactly when it is not in the map |
| Ckh.MapItemsSize | redis-3.0/deps/jemalloc/src/ckh.c:479-507 | the number of items is the size of the map |
| Ckh.MapItemsInsert | redis-3.0/deps/jemalloc/src/ckh.c:454-476 | insertion in the map is insertion in the set of items |
| Ckh.MapItemsRemove | redis-3.0/deps/jemalloc/src/ckh.c:479-507 | likewise removal |
| Ckh.LostItem | redis-3.0/deps/jemalloc/src/ckh.c:454-476 | a failed insertion leaves the map as it was if and only if the lost item is the inserted one; otherwise the new key is there and an old one is gone |
| Ckh.Table.constructor | redis-3.0/deps/jemalloc/src/ckh.c:346-399 | an empty table with room for minitems at three quarters load and not twice as large as needed; no memory is requested later on its behalf |
| Ckh.Table.BucketSearch | redis-3.0/deps/jemalloc/src/ckh.c:52-65 | finds the key in the bucket, or it is not there |
| Ckh.Table.ISearch | redis-3.0/deps/jemalloc/src/ckh.c:70-89 | finds a key exactly when it is in the map: looking in two buckets is enough |
| Ckh.Table.Search | redis-3.0/deps/jemalloc/src/ckh.c:509-526 | returns the map's value |
| Ckh.Table.Occupy | redis-3.0/deps/jemalloc/src/ckh.c:107-109 | adds exactly the item |
| Ckh.Table.TryBucketInsert | redis-3.0/deps/jemalloc/src/ckh.c:91-115 | fails exactly when the bucket is full, for every pseudo-random start; otherwise one empty cell of the bucket, and nothing else, receives the item |
| Ckh.Table.Evict | redis-3.0/deps/jemalloc/src/ckh.c:144-151 | an item of the full bucket is in flight instead, the new one is in the bucket, and no other bucket changes |
| Ckh.Table.Relocate | redis-3.0/deps/jemalloc/src/ckh.c:144-187 | one eviction, exactly: an item of the bucket goes to its other home, if it has two; the round fails exactly when that is the first bucket of the chain and ends it exactly when there is a free cell; the items are conserved and all other buckets stay |
| Ckh.Table.EvictRelocInsert | redis-3.0/deps/jemalloc/src/ckh.c:123-190 | through any eviction chain the items of the table and the one in flight are conserved, and every stored item stays in one of its buckets; it fails only when the item in flight has to go back to the first bucket, and that is another item than the argument; it is cut off only after so many evictions; one eviction is enough when every item of the bucket can go elsewhere; a table of one bucket always fails |
| Ckh.Table.TryInsert | redis-3.0/deps/jemalloc/src/ckh.c:193-215 | inserts, or conserves the items with the one in flight, which after a failure is never the argument; evicts nothing when one of the two buckets has a free cell |
| Ckh.Table.TrySecond | redis-3.0/deps/jemalloc/src/ckh.c:206-214 | the same for the second bucket when the first is full |
| Ckh.Table.ChainRound | redis-3.0/deps/jemalloc/src/ckh.c:144-187 | one round of the chain: the argument stays in its bucket and another item is in flight, or the chain ends |
| Ckh.Table.RoomLeft | redis-3.0/deps/jemalloc/src/ckh.c:193-215 | where no bucket is wanted by more items than it has cells, the next item finds a free cell |
| Ckh.Table.Allocate | redis-3.0/deps/jemalloc/src/ckh.c:264-276 | memory is there exactly when the request is granted |
| Ckh.Table.Reinsert | redis-3.0/deps/jemalloc/src/ckh.c:228-239 | one item of the old table: it is in the new one, or the rebuild stops |
| Ckh.Table.Rebuild | redis-3.0/deps/jemalloc/src/ckh.c:222-242 | moves all items of the old table, or restores count; always succeeds where no bucket is wanted by more items than it has cells |
| Ckh.Table.Resize | redis-3.0/deps/jemalloc/src/ckh.c:271-292 | one request, and all items in a new table of the size asked for, or the old table unchanged, as when the request is refused; succeeds when it is granted and no bucket is wanted by more items than it has cells |
| Ckh.Table.Grow | redis-3.0/deps/jemalloc/src/ckh.c:245-297 | same items in a table that has doubled once for each request, all granted; or the old table unchanged, exactly when the last request, and only that, was refused. One request is enough when the doubled table has room |
| Ckh.Table.MakeRoom | redis-3.0/deps/jemalloc/src/ckh.c:466-471 | growing with an item in flight: it fails exactly when a request was made and refused |
| Ckh.GrowingInsert | redis-3.0/deps/jemalloc/src/ckh.c:454-476 | a full table of one bucket with memory, into which a fifth key goes: the table doubles and all five keys are there |
| Ckh.Table.Shrink | redis-3.0/deps/jemalloc/src/ckh.c:300-344 | one request; same items in a table of half the size, or the old table unchanged, as when the request is refused; succeeds when it is granted and the halved table has room |
| Ckh.Table.FirstTry | redis-3.0/deps/jemalloc/src/ckh.c:466 | the attempt of one round: all items are in the table, or one of them, not the argument, is in flight |
| Ckh.Table.InsertRound | redis-3.0/deps/jemalloc/src/ckh.c:454-476 | one round of insertion conserves the items; after a failure another item is in flight, and the table has grown by as many doublings as requests were granted, unless the last was refused |
| Ckh.Table.InsertItem | redis-3.0/deps/jemalloc/src/ckh.c:454-476 | the loop: Done with all items, or with the one in flight lost after a refused request |
| Ckh.Table.Insert | redis-3.0/deps/jemalloc/src/ckh.c:454-476 | fails if and only if a request for memory was made and the last one, only, refused; then the map with the new key loses the item in flight: it is as before exactly when that is the new item, which it never is when the first request is refused. Otherwise the map has the new key, in a table that doubled once for each request; in the same table, without a request, when a bucket of the key has a free cell or every item of the second can be moved; with at most one doubling when memory is there and the doubled table has room |
| Ckh.FailingInsert | redis-3.0/deps/jemalloc/src/ckh.c:454-476 | a full table of one bucket without more memory, into which a fifth key goes at the expense of another one while failure is reported |
| Ckh.Table.Vacate | redis-3.0/deps/jemalloc/src/ckh.c:491-494 | the map without the key |
| Ckh.Table.ShrinkSparse | redis-3.0/deps/jemalloc/src/ckh.c:495-502 | one request exactly when the table is less than a quarter full and larger than at first; then it is halved when that is granted and there is room |
| Ckh.Table.Remove | redis-3.0/deps/jemalloc/src/ckh.c:479-507 | returns the removed value, leaves the map without the key; memory is requested exactly when the table has become less than a quarter full and is larger than at first, and the table is halved when it is granted and there is room |
| ProfCtx.InitInv | redis-3.0/deps/jemalloc/src/prof.c:431-553 | the invariant holds when no context exists |
| ProfCtx.EnterStep | redis-3.0/deps/jemalloc/src/prof.c:461-461 | taking bt2ctx_mtx keeps the invariant |
| ProfCtx.SearchStep | redis-3.0/deps/jemalloc/src/prof.c:462-491 | finding the context in bt2ctx keeps it |
| ProfCtx.CreateStep | redis-3.0/deps/jemalloc/src/prof.c:462-490 | creating one with nlimbo 1 keeps it |
| ProfCtx.CreateFailsStep | redis-3.0/deps/jemalloc/src/prof.c:465-474 | no memory for the context or its key keeps the invariant |
| ProfCtx.IncrementKept | redis-3.0/deps/jemalloc/src/prof.c:492-502 | incrementing nlimbo before bt2ctx_mtx is dropped keeps it and puts the thread in limbo |
| ProfCtx.EvictKept | redis-3.0/deps/jemalloc/src/prof.c:505-517 | handing a cached counter to prof_ctx_merge keeps the invariant for the context and for everybody else |
| ProfCtx.LinkKept | redis-3.0/deps/jemalloc/src/prof.c:531-545 | linking the counter and decrementing nlimbo in one section keeps it: the thread is protected by its counter as it leaves limbo |
| ProfCtx.CreatorFailsKept | redis-3.0/deps/jemalloc/src/prof.c:522-527 | the creator without memory for its counter goes on to prof_ctx_destroy with its increment; the invariant is kept |
| ProfCtx.VisitorFailsKept | redis-3.0/deps/jemalloc/src/prof.c:522-527 | another thread without memory for its counter leaks its increment; the invariant is kept |
| ProfCtx.CreateLosesStep | redis-3.0/deps/jemalloc/src/prof.c:484-490 | a failed insertion into bt2ctx that loses the new context keeps the invariant |
| ProfCtx.LinkLosesNothing | redis-3.0/deps/jemalloc/src/prof.c:535-540 | a failed insertion into bt2cnt that loses the new counter is as if it had not been tried |
| ProfCtx.Unsound | redis-3.0/deps/jemalloc/src/prof.c:484-540 | a failed insertion that loses another entry leaves a released context in bt2ctx or a freed counter in the thread's cache |
| ProfCtx.InvSound | redis-3.0/deps/jemalloc/src/prof.c:431-553 | under the invariant bt2ctx and the caches lead to live contexts and listed counters |
| ProfCtx.MergeKept | redis-3.0/deps/jemalloc/src/prof.c:718-749 | merging a counter conserves the objects and bytes accounted for; when it leads to destruction is ProfLaws.MergeEnds |
| ProfCtx.EnterDestroyStep | redis-3.0/deps/jemalloc/src/prof.c:690-690 | waiting for the mutex in prof_ctx_destroy keeps it: the increment still protects the context |
| ProfCtx.DestroyKept | redis-3.0/deps/jemalloc/src/prof.c:707-714 | giving the increment back keeps it |
| ProfCtx.DestroyAsserts | redis-3.0/deps/jemalloc/src/prof.c:692-696 | a context that passes the test has no live object, no bytes and no leaked increment; its accumulated count is 0 if and only if opt_prof_accum is off or no object was ever sampled into it |
| ProfCtx.DestroyStep | redis-3.0/deps/jemalloc/src/prof.c:692-700 | removing a context from bt2ctx leaves no other thread with a pointer to it |
| ProfCtx.ReleaseStep | redis-3.0/deps/jemalloc/src/prof.c:701-704 | releasing the context keeps it: it was not released before and nobody points to it |
| ProfCtx.SampleKept | redis-3.0/deps/jemalloc/include/jemalloc/internal/prof.h:420-463 | charging a sampled object to the thread's counter keeps it, accounts included |
| ProfCtx.StartFreeStep | redis-3.0/deps/jemalloc/include/jemalloc/internal/prof.h:540-550 | beginning to free an object keeps it |
| ProfCtx.NoLookupStep | redis-3.0/deps/jemalloc/src/prof.c:438-440 | a lookup that gives up at once keeps it |
| ProfCtx.UnchargeKept | redis-3.0/deps/jemalloc/include/jemalloc/internal/prof.h:551-565 | charging a free to the thread's own counter keeps it: counters of the context together still account for the live objects |
| ProfCtx.UnchargeMergedKept | redis-3.0/deps/jemalloc/include/jemalloc/internal/prof.h:566-575 | so does charging it to cnt_merged after a failed lookup: the live object keeps the context in existence |
| ProfCtx.StepInv | redis-3.0/deps/jemalloc/src/prof.c:431-553 | every enabled step of every thread keeps the invariant and finds whatever it points to, unless it is a failed insertion that loses another entry |
| ProfCtx.RunInv | redis-3.0/deps/jemalloc/src/prof.c:431-752 | so does every run from the initial state in which failed insertions lose what they were given, over any number of threads, contexts and objects |
| ProfCtx.SoundExactly | redis-3.0/deps/jemalloc/src/prof.c:431-752 | bt2ctx and all caches lead to live memory at every moment of a run if and only if no failed insertion of the run loses another entry than its own |
| ProfCtx.DanglingEntry | redis-3.0/deps/jemalloc/src/prof.c:484-490 | for four contexts or more, a run in which a failed insertion leaves a released context in bt2ctx and makes it forget one that a thread still uses; the hash values that make the insertion fail are left open |
| ProfCtx.NoDangling | redis-3.0/deps/jemalloc/src/prof.c:674-716 | what a thread points to is in bt2ctx, unless the thread itself has just taken it out; then no other thread points to it |
| ProfCtx.LimboThreads | redis-3.0/deps/jemalloc/src/prof.c:674-689 | nlimbo is at least the number of threads in limbo |
| ProfCtx.Safety | redis-3.0/deps/jemalloc/src/prof.c:431-752 | in every such run: no pointer to a released context, none released twice, and nlimbo equal to the increments that will be undone plus the leaked ones |
| ProfCtx.LimboCounts | redis-3.0/deps/jemalloc/src/prof.c:522-540 | in every such run nlimbo is the increments that will be undone plus the lookups that gave up on a context they did not create: it is more than the former exactly when there was such a lookup |
| ProfCtx.LeakedCounts | redis-3.0/deps/jemalloc/src/prof.c:522-540 | in every run the leaked increments of a context are those lookups |
| ProfCtx.LeakingRun | redis-3.0/deps/jemalloc/src/prof.c:522-540 | a run in which nlimbo is 2 while one thread is in limbo and no other will undo an increment |
| ProfCtx.DestroyAssertsHold | redis-3.0/deps/jemalloc/src/prof.c:694-699 | the assertions of prof_ctx_destroy in every such run: the one on accumobjs holds if and only if opt_prof_accum is off or no object was ever sampled into the context |
| ProfCtx.LeakedForever | redis-3.0/deps/jemalloc/src/prof.c:522-540 | a context with a leaked increment is never destroyed |
| ProfCtx.AccumAssertFails | redis-3.0/deps/jemalloc/src/prof.c:695-695 | a run with opt_prof_accum in which the assertion on accumobjs fails: the creator runs out of memory after another thread has sampled, freed and merged |
| Chunk.BestFitExists | redis-3.0/deps/jemalloc/src/chunk.c:77-81 | if any extent is large enough there is a smallest one, the lowest of its size |
| Chunk.FirstExists | redis-3.0/deps/jemalloc/src/chunk.c:227-228 | likewise the first extent at or after an address |
| Chunk.LastExists | redis-3.0/deps/jemalloc/src/chunk.c:263-263 | and the last before an address, where addresses differ |
| Chunk.Padded | redis-3.0/deps/jemalloc/src/chunk.c:64-67 | the test recognises exactly the overflows of the padded size |
| Chunk.CeilingGap | redis-3.0/deps/jemalloc/src/chunk.c:82-87 | the aligned address is a multiple of the chunk size and the padded size leaves room for it |
| Chunk.CutoutSpread | redis-3.0/deps/jemalloc/src/chunk.c:95-114 | what is left of an extent neither overlaps nor touches any other and consists of whole chunks |
| Chunk.CutoutTakes | redis-3.0/deps/jemalloc/src/chunk.c:95-114 | cutting a block out takes the block's addresses and no others |
| Chunk.JoinForward | redis-3.0/deps/jemalloc/src/chunk.c:228-261 | a block joined with the extent behind it adds exactly its addresses |
| Chunk.JoinBackward | redis-3.0/deps/jemalloc/src/chunk.c:263-282 | joining with the extent before changes no address |
| Chunk.Surrounded | redis-3.0/deps/jemalloc/src/chunk.c:209-284 | the addresses beside an extent are not free: extents are maximal |
| Chunk.CoverDetermines | redis-3.0/deps/jemalloc/src/chunk.c:209-284 | two sets of such extents with the same free addresses are the same extents: the order of recording does not matter |
| Chunk.Successor | redis-3.0/deps/jemalloc/src/chunk.c:227-228 | the search at the block's end finds the extent that begins there, if there is one, also when that address wraps around |
| Chunk.Separate | redis-3.0/deps/jemalloc/src/chunk.c:263-268 | if the extent before does not end where the node begins, nothing touches it |
| Chunk.OneAfter | redis-3.0/deps/jemalloc/src/chunk.c:227-233 | at most one extent begins at the end of a block, so that the flag of the node is that of all its parts |
| Chunk.Joined | redis-3.0/deps/jemalloc/src/chunk.c:230-261 | the node after coalescing forward, with its zeroed flag |
| Chunk.JoinedBack | redis-3.0/deps/jemalloc/src/chunk.c:272-279 | the node after coalescing backward, with its zeroed flag |
| Chunk.JoinHonest | redis-3.0/deps/jemalloc/src/chunk.c:239 | the and of the zeroed flags tells the truth |
| Chunk.CutHonest | redis-3.0/deps/jemalloc/src/chunk.c:91-114 | the zeroed flags keep telling the truth if and only if no new trailing node was needed, or its field, which the code never sets, happens to be false, or the trailing memory is zero |
| Chunk.FlagLies | redis-3.0/deps/jemalloc/src/chunk.c:91-114 | a concrete extent and block after which a flag claims zeros that are not there |
| Chunk.CutShortTakes | redis-3.0/deps/jemalloc/src/chunk.c:101-106 | without a node for the trailing space, free space loses the block and all behind it in the extent |
| Chunk.CutShortHonest | redis-3.0/deps/jemalloc/src/chunk.c:101-106 | and the flags keep telling the truth |
| Chunk.Extents.constructor | redis-3.0/deps/jemalloc/src/chunk.c:339-342 | new trees hold the same, no, extents |
| Chunk.Extents.SearchSize | redis-3.0/deps/jemalloc/src/chunk.c:77-81 | the lowest smallest extent of at least the size, or none exactly when all are smaller |
| Chunk.Extents.SearchAddress | redis-3.0/deps/jemalloc/src/chunk.c:227-228 | the first extent at or after the address |
| Chunk.Extents.Previous | redis-3.0/deps/jemalloc/src/chunk.c:263-263 | the last extent before the node |
| Chunk.Extents.Cut | redis-3.0/deps/jemalloc/src/chunk.c:81-114 | both trees lose exactly the block; what is left before it keeps the node and its flag |
| Chunk.Extents.Recycle | redis-3.0/deps/jemalloc/src/chunk.c:44-130 | fails exactly when no extent of the padded size exists, or when the lowest best fit needs a node that cannot be had, which is exactly when trailing space is lost; otherwise returns an aligned block of the lowest best fit and takes exactly it from the free space, both trees alike; zeros are reported exactly when asked for or when the block is a whole extent whose flag is set, and written exactly when asked for and not so; memory reported as zeroed is zero if the flags told the truth |
| Chunk.Extents.Drop | redis-3.0/deps/jemalloc/src/chunk.c:84-106 | without a node the block is deallocated: it is free again if chunk_record got it and had a node, and the space behind it is lost |
| Chunk.Extents.Serve | redis-3.0/deps/jemalloc/src/chunk.c:81-128 | takes exactly the block |
| Chunk.Extents.Take | redis-3.0/deps/jemalloc/src/chunk.c:81-128 | zeros are reported exactly when asked for or when the block is a whole extent whose flag is set; memory is overwritten exactly when zeros are asked for and that is not so |
| Chunk.Extents.CoalesceForward | redis-3.0/deps/jemalloc/src/chunk.c:226-261 | adds exactly the block, joined with the extent that begins at its end, whose flag it keeps if the block is zero too; without a node only when that extent exists |
| Chunk.Extents.CoalesceBackward | redis-3.0/deps/jemalloc/src/chunk.c:263-282 | joins the node with the extent that ends where it begins, zeroed if both are; restores that no two extents touch, with the same free space |
| Chunk.Extents.Record | redis-3.0/deps/jemalloc/src/chunk.c:209-284 | adds exactly its argument to the free space: the extents that touch it and the block become one, zeroed exactly when all of them are, and all others stay; without a node and an extent behind, the block is lost and nothing changes; the zeroed flags keep telling the truth |
| ArenaRuns.AdjacBound | redis-3.0/deps/jemalloc/src/arena.c:247-312 | there are fewer adjacent pairs than unallocated runs |
| ArenaRuns.TilesConcat | redis-3.0/deps/jemalloc/src/arena.c:371-511 | tilings of two parts of a map are a tiling of both |
| ArenaRuns.TilesSplit | redis-3.0/deps/jemalloc/src/arena.c:371-511 | and a tiling of both splits where the first part ends |
| ArenaRuns.TilesFrame | redis-3.0/deps/jemalloc/src/arena.c:371-511 | tags elsewhere do not matter |
| ArenaRuns.TagsFrame | redis-3.0/deps/jemalloc/src/arena.c:371-511 | likewise for the tags of one run, of which a small run has one on every page |
| ArenaRuns.SmallMore | redis-3.0/deps/jemalloc/src/arena.c:487-511 | one more page of a small run knows its distance from the first page and its bin |
| ArenaRuns.TilesLast | redis-3.0/deps/jemalloc/src/arena.c:1044-1050 | the last page of an unallocated run shows the same size and dirty flag as its first: the boundary tag |
| ArenaRuns.Around | redis-3.0/deps/jemalloc/src/arena.c:247-312 | what a run adds to pages, active pages, dirty pages, runs and adjacent pairs of a list |
| ArenaRuns.GainWhole | redis-3.0/deps/jemalloc/src/arena.c:247-278 | an unallocated run in place of an allocated one changes the accounts by the run and its neighbours |
| ArenaRuns.GainTail | redis-3.0/deps/jemalloc/src/arena.c:408-428 | the same at the end of an allocated run |
| ArenaRuns.GainHead | redis-3.0/deps/jemalloc/src/arena.c:1096-1126 | and at its beginning |
| ArenaRuns.CoalescedConcat | redis-3.0/deps/jemalloc/src/arena.c:1017-1069 | coalescing is maximal in a list if it is in both parts and the boundary does not separate two unallocated runs with one dirty flag |
| ArenaRuns.CoalescedSplit | redis-3.0/deps/jemalloc/src/arena.c:371-511 | splitting keeps it |
| ArenaRuns.ActiveSplit | redis-3.0/deps/jemalloc/src/arena.c:406 | splitting adds the allocated pages |
| ArenaRuns.ForwardHole | redis-3.0/deps/jemalloc/src/arena.c:1017-1042 | one step of coalescing forward, on tags and runs |
| ArenaRuns.BackwardHole | redis-3.0/deps/jemalloc/src/arena.c:1044-1069 | one step backward |
| ArenaRuns.ForwardOnce | redis-3.0/deps/jemalloc/src/arena.c:1017-1042 | one step forward is enough |
| ArenaRuns.BackwardOnce | redis-3.0/deps/jemalloc/src/arena.c:1044-1069 | one step backward is enough |
| ArenaRuns.Filled | redis-3.0/deps/jemalloc/src/arena.c:1071-1076 | after both, the runs tile the map and coalescing is maximal |
| ArenaRuns.FreeSteps | redis-3.0/deps/jemalloc/src/arena.c:960-1094 | the steps of arena_run_dalloc amount to replacing the run and its mergeable neighbours by one unallocated run |
| ArenaRuns.FreeActive | redis-3.0/deps/jemalloc/src/arena.c:991 | freeing takes the run's pages from the allocated ones |
| ArenaRuns.FreeDirty | redis-3.0/deps/jemalloc/src/arena.c:835-845 | freeing as clean adds no dirty page |
| ArenaRuns.FreeKeepsStart | redis-3.0/deps/jemalloc/src/arena.c:835-845 | every other allocated run stays where it is |
| ArenaRuns.CutTiles | redis-3.0/deps/jemalloc/src/arena.c:1096-1159 | the tags of a large run cut in two tile the map |
| ArenaRuns.JoinTiles | redis-3.0/deps/jemalloc/src/arena.c:1855-1866 | the tags of two runs made one tile the map |
| ArenaRuns.ScanPast | redis-3.0/deps/jemalloc/src/arena.c:752-790 | passing a run over is right when it need not be purged |
| ArenaRuns.ScanTake | redis-3.0/deps/jemalloc/src/arena.c:752-790 | taking a run keeps what the scan has established |
| ArenaRuns.ScanEnd | redis-3.0/deps/jemalloc/src/arena.c:792-794 | at the end no two unallocated runs touch, and with `all` none is dirty |
| ArenaState.Mapped | redis-3.0/deps/jemalloc/src/arena.c:371-511 | the invariant gives: runs tile [map_bias, chunk_npages) and coalescing is maximal |
| ArenaState.Booked | redis-3.0/deps/jemalloc/src/arena.c:247-312 | and: counters and trees hold what the runs amount to |
| ArenaState.Restored | redis-3.0/deps/jemalloc/src/arena.c:371-511 | an operation that changes one chunk and its accounts restores the invariant of the arena |
| ArenaState.Shown | redis-3.0/deps/jemalloc/src/arena.c:208-237 | the map shows whether the neighbours of an unallocated run are unallocated; they differ from it in their dirty flags, as the assertions say |
| ArenaState.PlusWhole | redis-3.0/deps/jemalloc/src/arena.c:247-312 | inserting a whole run with both neighbour tests keeps the accounts |
| ArenaState.PlusTail | redis-3.0/deps/jemalloc/src/arena.c:408-428 | likewise without the test before |
| ArenaState.PlusHead | redis-3.0/deps/jemalloc/src/arena.c:1096-1126 | and without the one behind |
| ArenaPlans.SplitPlan | redis-3.0/deps/jemalloc/src/arena.c:384-428 | removal and reinsertion in arena_run_split: accounts of the runs with the run taken and with the tail given back |
| ArenaPlans.SplitEnd | redis-3.0/deps/jemalloc/src/arena.c:371-511 | the invariant after a split |
| ArenaPlans.FreePlan | redis-3.0/deps/jemalloc/src/arena.c:960-1076 | the three steps of freeing end in the freed list of runs, tiled and maximally coalesced |
| ArenaPlans.FreeEnd | redis-3.0/deps/jemalloc/src/arena.c:960-1094 | the invariant after freeing |
| ArenaPlans.DeallocEnd | redis-3.0/deps/jemalloc/src/arena.c:588-618 | the invariant after a chunk became the spare and the old spare was given back |
| ArenaPlans.AllocEnd | redis-3.0/deps/jemalloc/src/arena.c:513-586 | the invariant after a new chunk |
| ArenaPlans.LeastExists | redis-3.0/deps/jemalloc/src/arena.c:107-132 | a set of runs with one large enough has a least one in the order of size and address |
| ArenaPlans.AvailRun | redis-3.0/deps/jemalloc/src/arena.c:247-312 | every element of runs_avail is an unallocated run of the size the map shows |
| ArenaPlans.RunAvail | redis-3.0/deps/jemalloc/src/arena.c:247-312 | every unallocated run outside the spare is in runs_avail |
| ArenaPlans.LeastFits | redis-3.0/deps/jemalloc/src/arena.c:107-132 | the least element is the lowest of the smallest sufficient runs |
| ArenaPlans.NoneFits | redis-3.0/deps/jemalloc/src/arena.c:107-132 | no element means no sufficient run |
| ArenaPlans.CutPlan | redis-3.0/deps/jemalloc/src/arena.c:1096-1159 | cutting a large run keeps tiling and accounts |
| ArenaPlans.JoinPlan | redis-3.0/deps/jemalloc/src/arena.c:1855-1866 | so does joining two |
| ArenaPlans.TrimPlan | redis-3.0/deps/jemalloc/src/arena.c:1096-1159 | the runs after a trim; no trim frees the chunk |
| ArenaPlans.GrowPlan | redis-3.0/deps/jemalloc/src/arena.c:1823-1887 | the runs after growing |
| ArenaPlans.SpareClean | redis-3.0/deps/jemalloc/src/arena.c:728-733 | the spare is never in the tree of dirty chunks: this branch is not taken |
| ArenaPlans.Counted | redis-3.0/deps/jemalloc/src/arena.c:247-312 | in every valid state ndirty, nruns_adjac and nruns_avail of a chunk are the dirty pages in unallocated runs, the adjacent unallocated pairs and the unallocated runs |
| ArenaPlans.ScanDone | redis-3.0/deps/jemalloc/src/arena.c:792-794 | the assertions after the scan |
| ArenaPages.Arena.constructor | redis-3.0/deps/jemalloc/src/arena.c:2097-2149 | an arena without chunks |
| ArenaPages.Arena.AvailInsert | redis-3.0/deps/jemalloc/src/arena.c:247-278 | the run enters runs_avail and the counters, and the tree of dirty chunks follows |
| ArenaPages.Arena.AvailRemove | redis-3.0/deps/jemalloc/src/arena.c:280-312 | the exact opposite of insertion |
| ArenaPages.Arena.SplitTake | redis-3.0/deps/jemalloc/src/arena.c:384-428 | accounts the run as taken and its tail as unallocated again; nactive grows by the pages needed |
| ArenaPages.Arena.RunSplit | redis-3.0/deps/jemalloc/src/arena.c:371-511 | allocates the first pages of an unallocated run: page by page they belong to a run of the kind and size asked for, every other page is as before; nactive grows by as much; no other run of any chunk changes; the invariant holds, by which each page of a small run leads to its first page and its bin |
| ArenaPages.Arena.CoalesceForward | redis-3.0/deps/jemalloc/src/arena.c:1017-1042 | merges with the run behind exactly when it is unallocated with the same dirty flag |
| ArenaPages.Arena.CoalesceBackward | redis-3.0/deps/jemalloc/src/arena.c:1044-1069 | likewise with the one before |
| ArenaPages.Arena.Coalesce | redis-3.0/deps/jemalloc/src/arena.c:991-1069 | the freed pages with both mergeable neighbours are tagged as one run, whose neighbours left trees and counters; nactive drops by the freed pages only |
| ArenaPages.Arena.DallocCore | redis-3.0/deps/jemalloc/src/arena.c:991-1076 | the same, with the run back in trees and counters |
| ArenaPages.Arena.DallocRun | redis-3.0/deps/jemalloc/src/arena.c:991-1076 | the runs after freeing, and whether the chunk is wholly unallocated |
| ArenaPages.Arena.RunSize | redis-3.0/deps/jemalloc/src/arena.c:970-979 | the size and dirty flag of an allocated run from its tags |
| ArenaPages.Arena.RunOf | redis-3.0/deps/jemalloc/src/arena.c:1741 | the page of a region less its run index is the first page of its run |
| ArenaPages.Arena.RunDalloc | redis-3.0/deps/jemalloc/src/arena.c:960-1094 | frees a run: page by page its pages become unallocated with the dirty flag as the arguments say, and every other page is as before; it and its mergeable neighbours become one unallocated run; a chunk that is left without allocated runs becomes the spare and the old spare goes away |
| ArenaPages.Arena.Withdraw | redis-3.0/deps/jemalloc/src/arena.c:591-605 | the chunk's only run leaves trees and counters |
| ArenaPages.Arena.KeepSpare | redis-3.0/deps/jemalloc/src/arena.c:607-617 | the old spare is given back |
| ArenaPages.Arena.ChunkDealloc | redis-3.0/deps/jemalloc/src/arena.c:588-618 | the wholly unallocated chunk leaves all accounts and becomes the spare; the old spare is given back; the invariant holds |
| ArenaPages.Arena.NewChunk | redis-3.0/deps/jemalloc/src/arena.c:537-578 | a new chunk is one unallocated clean run, tagged at both ends and not in any account yet |
| ArenaPages.Arena.Provide | redis-3.0/deps/jemalloc/src/arena.c:581-583 | its only run enters trees and counters |
| ArenaPages.Arena.ChunkAlloc | redis-3.0/deps/jemalloc/src/arena.c:513-586 | the spare if there is one, otherwise a new chunk of one clean unallocated run, otherwise nothing changes |
| ArenaPages.Arena.Search | redis-3.0/deps/jemalloc/src/arena.c:107-132 | the lowest of the smallest sufficient runs, or there is none |
| ArenaPages.Arena.RunAllocHelper | redis-3.0/deps/jemalloc/src/arena.c:620-642 | allocates the first pages of the lowest of the smallest sufficient runs, or nothing changes and no run is large enough |
| ArenaPages.Arena.RunAllocChunk | redis-3.0/deps/jemalloc/src/arena.c:664-669 | allocates the first pages of another chunk |
| ArenaPages.Arena.RunAlloc | redis-3.0/deps/jemalloc/src/arena.c:644-677 | the lowest best fit of all chunks; only if nothing fits another chunk; page by page the pages from the address returned on belong to a run of the size and kind asked for, and all others are as before; fails, changing nothing, exactly when there is none |
| ArenaPages.Arena.CutLarge | redis-3.0/deps/jemalloc/src/arena.c:1096-1159 | two large runs, with the dirty flag of the one, in its place; nothing else changes |
| ArenaPages.Arena.TrimHead | redis-3.0/deps/jemalloc/src/arena.c:1096-1126 | the leading pages of a large run become unallocated, the rest is a run of its own, every other page is as before; nactive shrinks by as much |
| ArenaPages.Arena.TrimTail | redis-3.0/deps/jemalloc/src/arena.c:1128-1159 | likewise the trailing pages: the run keeps its first ones |
| ArenaPages.Arena.JoinLarge | redis-3.0/deps/jemalloc/src/arena.c:1855-1866 | one large run in place of two, dirty if either was |
| ArenaPages.Arena.Extend | redis-3.0/deps/jemalloc/src/arena.c:1845-1866 | takes pages of the run behind and joins them |
| ArenaPages.Arena.FollowSize | redis-3.0/deps/jemalloc/src/arena.c:1836-1839 | the size of the unallocated run behind, if there is one |
| ArenaPages.Arena.Grow | redis-3.0/deps/jemalloc/src/arena.c:1823-1887 | grows in place by as much as asked for and available, exactly when the run behind is unallocated and large enough: then the pages belong to one run, dirty if either part was, and every other page is as before; otherwise nothing changes |
| ArenaPages.Arena.Examine | redis-3.0/deps/jemalloc/src/arena.c:752-790 | the scan takes a run exactly when it is unallocated and dirty and, without `all`, has an unallocated neighbour; it steps by the size of the run |
| ArenaPages.Arena.ScanRun | redis-3.0/deps/jemalloc/src/arena.c:752-790 | takes exactly such a run as a whole, no other, and keeps what the scan has established of the runs behind it |
| ArenaPages.Arena.PurgeScan | redis-3.0/deps/jemalloc/src/arena.c:742-794 | the runs that the scan lists are allocated, they are exactly those a purge takes, and both assertions behind it hold |
| ArenaPages.Arena.FreeFirst | redis-3.0/deps/jemalloc/src/arena.c:835-845 | frees the first listed run as clean: its pages become unallocated and clean, every other page is as before |
| ArenaPages.Arena.FreeListed | redis-3.0/deps/jemalloc/src/arena.c:796-847 | frees every listed run and returns the number of their pages; nactive drops by as many and no page becomes dirty; page by page nothing else changes |
| ArenaPages.Arena.ChunkPurge | redis-3.0/deps/jemalloc/src/arena.c:702-848 | page by page the chunk is as before, with exactly those dirty unallocated runs clean that the call takes: all of them, or those that touch another unallocated run; the pages purged are exactly the dirty pages the chunk has lost, and nactive is as before |
| ArenaPages.MarkAllocated | redis-3.0/deps/jemalloc/src/arena.c:430-510 | the tags of an allocated run on its pages and on no others: of a large one at both ends, of a small one its bin and the distance from the first page on every page |
| AllocSlots.GroupByHost | redis-3.0/src/redis-trib.rb:523-527 | every node is in the group of its host, once, and each group holds the nodes of its host in their order |
| AllocSlots.Visit | redis-3.0/src/redis-trib.rb:533-536 | a host in a pass gives its first node to the masters, if it has one |
| AllocSlots.Pass | redis-3.0/src/redis-trib.rb:532-538 | a pass over the hosts takes at least one node, and one from every host that has any unless it comes to the end |
| AllocSlots.SelectMasters | redis-3.0/src/redis-trib.rb:531-539 | terminates with the requested number of masters, and no node is lost or doubled; the numbers of masters on two hosts differ by at most one, unless all nodes of the host with fewer are masters |
| AllocSlots.LevelHost | redis-3.0/src/redis-trib.rb:531-539 | after so many passes a host has as many masters, or one more, or all its nodes are |
| AllocSlots.Share | redis-3.0/src/redis-trib.rb:543-544 | the exact share lies between the sizes that differ by one |
| AllocSlots.NoMasters | redis-3.0/src/redis-trib.rb:512-513 | there is no master exactly with at most as many nodes as replicas |
| AllocSlots.LastSlot | redis-3.0/src/redis-trib.rb:546-553 | the rounded end of a range |
| AllocSlots.NextFits | redis-3.0/src/redis-trib.rb:545-554 | the next range begins behind the last, is not empty and is fair |
| AllocSlots.AssignSlots | redis-3.0/src/redis-trib.rb:543-555 | the ranges are contiguous from 0 and not empty; they end at 16383 if and only if there are at most 16384 masters, and then their sizes differ by at most one and each ends where so many exact shares do, rounded to the nearest slot, upwards from the middle |
| AllocSlots.AssignRange | redis-3.0/src/redis-trib.rb:546-554 | the next range begins where the last one ended and keeps what holds of those before; with at most 16384 masters that of the last master ends at 16383 |
| AllocSlots.Alone | redis-3.0/src/redis-trib.rb:583-590 | a host with all the nodes that are left is the only one |
| AllocSlots.SomeEligible | redis-3.0/src/redis-trib.rb:583-593 | while nodes are left one is eligible, so the search ends |
| AllocSlots.PickReplica | redis-3.0/src/redis-trib.rb:583-593 | takes the first node of the first host that will do: one with nodes left, and the host of the master only if all nodes that are left are there |
| AllocSlots.SpreadMore | redis-3.0/src/redis-trib.rb:583-593 | a replica is on its master's host only if from then on all remaining nodes are there |
| AllocSlots.AssignOne | redis-3.0/src/redis-trib.rb:583-593 | one more replica for the master |
| AllocSlots.AssignTo | redis-3.0/src/redis-trib.rb:571-594 | min(replicas, nodes left) replicas for the master |
| AllocSlots.AssignRound | redis-3.0/src/redis-trib.rb:570-596 | with nodes for all, every master gets the requested number; with at most that many nodes, the first master gets them all |
| AllocSlots.AssignReplicas | redis-3.0/src/redis-trib.rb:570-597 | every remaining node is assigned exactly once |
| AllocSlots.Owners | redis-3.0/src/redis-trib.rb:570-597 | how many replicas each master has |
| AllocSlots.Leftover | redis-3.0/src/redis-trib.rb:511-517 | how many nodes the first round leaves |
| AllocSlots.AllocSlots | redis-3.0/src/redis-trib.rb:510-598 | masters and replicas are exactly the nodes; masters are spread over the hosts as evenly as the hosts allow; ranges partition the slots fairly for 1..16384 masters, rounded to the nearest slot; every master gets the requested replicas and the first one all left-over nodes; with too few nodes for a master nothing is assigned |
| LzfLaws.LiteralOctets | redis-3.0/src/lzf_c.c:89-96 | a control octet L below 32 stands for the L + 1 octets behind it, within the room |
| LzfLaws.ShortReference | redis-3.0/src/lzf_c.c:89-96 | octets 32 l + hi and lo stand for l + 2 octets that repeat those 256 hi + lo + 1 places back; E2BIG without room for them, EINVAL when the output is shorter |
| LzfLaws.LongReference | redis-3.0/src/lzf_c.c:89-96 | octets 224 + hi, n and lo stand for n + 9 such octets |
| LzfLaws.CutShort | redis-3.0/src/lzf_d.c:70-127 | an instruction that is cut short is an error: E2BIG without room for its literals, otherwise EINVAL |
| LzfLaws.Unpack | redis-3.0/src/lzf_d.c:55-149 | literals and a reference, as octets, decompress in place to the octets they stand for |
| HllLaws.InvPowIs | redis-3.0/src/hyperloglog.c:975-981 | PE[k] times 2^k is 1 |
| HllLaws.SumIs | redis-3.0/src/hyperloglog.c:504-558 | the sum is that of 1 / 2^register |
| HllLaws.ZeroCountIs | redis-3.0/src/hyperloglog.c:504-558 | the zero count is the number of zero registers |
| HllLaws.OpcodeLayout | redis-3.0/src/hyperloglog.c:100-126 | the bits of the three opcodes: 00xxxxxx, 01xxxxxx yyyyyyyy and 1vvvvvxx |
| HllLaws.OpcodeMeaning | redis-3.0/src/hyperloglog.c:100-126 | what each stands for, read off its bits |
| HllLaws.DenseLayout | redis-3.0/src/hyperloglog.c:88-98 | bit k of register i is bit 6 i + k of the bytes, least significant bits first |
| HllLaws.CardLayout | redis-3.0/src/hyperloglog.c:1249-1256 | the cached cardinality is stored least significant octet first |
| HllLaws.FlagLayout | redis-3.0/src/hyperloglog.c:190-192 | the cache is valid when bit 7 of the first of these octets is clear; invalidating it changes no other bit |
| HllLaws.StaysSparse | redis-3.0/src/hyperloglog.c:811-819 | an object becomes dense exactly for a count above 32, or when the stream with the opcode split is longer than before and does not fit the limit with its 16-byte header |
| HllLaws.FusibleMerges | redis-3.0/src/hyperloglog.c:838-848 | which opcodes the pass merges, by their bits |
| HllLaws.PassTidies | redis-3.0/src/hyperloglog.c:831-861 | the merge pass leaves no two opcodes side by side that could be merged, as far as it reaches |
| HllLaws.EditTidies | redis-3.0/src/hyperloglog.c:831-861 | so does every addition that changes a register, from the opcode before the edited one on |
| RespLaws.ReadsNumber | redis-3.0/deps/hiredis/hiredis.c:288-313 | digits with an optional sign read as the number they stand for in decimal |
| RespLaws.NoNumber | redis-3.0/deps/hiredis/hiredis.c:288-313 | anything else behind the sign reads as -1 |
| RespLaws.PrintsPlaces | redis-3.0/deps/hiredis/hiredis.c:668-679 | a number is printed as digits whose places add up to it |
| RespLaws.NoLeadingZero | redis-3.0/deps/hiredis/hiredis.c:668-679 | without a leading zero |
| RespLaws.ReadsLine | redis-3.0/deps/hiredis/hiredis.c:355-387 | a line behind + or - is a status or an error, without its CR LF |
| RespLaws.ReadsInteger | redis-3.0/deps/hiredis/hiredis.c:355-387 | a line of digits behind : is that number |
| RespLaws.ReadsNil | redis-3.0/deps/hiredis/hiredis.c:389-464 | $-1 and *-1 with CR LF read as nil and *0 as the array without elements, at every level that can be read, whatever follows; a * at the ninth level cannot |
| RespLaws.ReadsBulk | redis-3.0/deps/hiredis/hiredis.c:389-440 | $ and a length read as so many bytes, whatever they are, and the two behind them are dropped |
| RespLaws.ReadsArray | redis-3.0/deps/hiredis/hiredis.c:442-505 | * and a positive number n read as the n replies behind it, each one level deeper |
| RespLaws.ReadsErrors | redis-3.0/deps/hiredis/hiredis.c:447-538 | any other first byte is an error, and so is an array at the ninth level |
| RespLaws.PrintsBulk | redis-3.0/deps/hiredis/hiredis.c:957-963 | a bulk string is printed as $, its length, CR LF, its bytes and CR LF |
| RespLaws.PrintsCommand | redis-3.0/deps/hiredis/hiredis.c:939-971 | a command as * and the number of its arguments, and then each of them |
| RespLaws.ParseExtend | redis-3.0/deps/hiredis/hiredis.c:507-554 | more input behind a complete reply or an error changes nothing but the rest |
| RespLaws.PrefixAsksForMore | redis-3.0/deps/hiredis/hiredis.c:507-554 | less than all of a reply is neither read nor an error |
| RespLaws.StreamRoundTrip | redis-3.0/deps/hiredis/hiredis.c:617-665 | a stream of replies is read back as it is |
| RespLaws.FirstReply | redis-3.0/deps/hiredis/hiredis.c:617-665 | a reader that is fed input which begins with a reply answers that reply |
| RespLaws.NilReplies | redis-3.0/deps/hiredis/hiredis.c:617-665 | a reader that is fed $-1, *-1 and *0, with CR LF each, answers nil, nil and the empty array |
| SdsLaws.PlainStep | redis-3.0/deps/hiredis/sds.c:695-714 | characters of an unquoted word are appended as they are |
| SdsLaws.SkipGap | redis-3.0/deps/hiredis/sds.c:634-637 | blanks before a token are skipped |
| SdsLaws.SplitWords | redis-3.0/deps/hiredis/sds.c:628-736 | words without quotes, NUL and blanks split into exactly those words, in their order, whatever blanks stand before, between and behind them |
| SdsLaws.SplitFront | redis-3.0/deps/hiredis/sds.c:628-736 | so do they at the front of any line: the tokens of the rest follow |
| SdsLaws.SingleStep | redis-3.0/deps/hiredis/sds.c:680-694 | between single quotes all characters are read as they are but an escaped quote |
| SdsLaws.SplitSingle | redis-3.0/deps/hiredis/sds.c:680-694 | a string in single quotes splits into itself, unless it ends in a backslash: then the line is unbalanced |
| SdsLaws.SplitOpen | redis-3.0/deps/hiredis/sds.c:645-714 | a line with an opened quote that is never closed is unbalanced, whatever words stand before it |
| SdsLaws.SplitGlued | redis-3.0/deps/hiredis/sds.c:669-674 | a closing quote that is not followed by a blank or the end makes the line unbalanced |
| SdsLaws.OtherEscapes | redis-3.0/deps/hiredis/sds.c:656-668 | a backslash before any other character stands for that character |
| SdsLaws.ControlEscapes | redis-3.0/deps/hiredis/sds.c:660-666 | the five control characters behind a backslash |
| SdsLaws.HexEscape | redis-3.0/deps/hiredis/sds.c:646-656 | two hexadecimal digits, of either case, stand for the octet |
| SdsLaws.WritesOctet | redis-3.0/deps/hiredis/sds.c:553-576 | an unprintable octet is written as a backslash, x and two lower-case digits, high one first |
| ProfLaws.MergeEnds | redis-3.0/deps/jemalloc/src/prof.c:718-751 | a merge leaves the thread with nothing to destroy if and only if opt_prof_accum is set, another thread has a counter in the context, an object of it is alive, or nlimbo is not 0; otherwise it goes on to destroy, with nlimbo 1 |
| ProfLaws.DestroyEnds | redis-3.0/deps/jemalloc/src/prof.c:690-714 | the context leaves bt2ctx if and only if nobody has a counter, no object is alive and nlimbo is 1; otherwise nlimbo is given back and nothing else changes |
| ProfLaws.Reclaim | redis-3.0/deps/jemalloc/src/prof.c:674-752 | the last thread with a counter in a context that nobody else needs: merge, waiting for the mutex, destruction and release are enabled one after the other, the context has left bt2ctx alone and was released once |
| ProfLaws.EvictReclaims | redis-3.0/deps/jemalloc/src/prof.c:1169-1172 | so it is when a thread flushes its counter, as an exiting thread does with all of them |
| ProfLaws.StepRemembers | redis-3.0/deps/jemalloc/src/prof.c:431-752 | without opt_prof_accum no step but one leaves a context in bt2ctx that has no counter, no living object, and no thread that holds or leaked an increment of its nlimbo |
| ProfLaws.UnchargeForgets | redis-3.0/deps/jemalloc/include/jemalloc/internal/prof.h:566-575 | that one is the free of an object by a thread that cannot have a counter: it does so exactly when the object was the last, nobody has a counter and nlimbo is 0 |
| ProfLaws.NothingForgotten | redis-3.0/deps/jemalloc/src/prof.c:431-752 | so in every run without such a free all contexts in bt2ctx are remembered, whatever the interleaving |
| ProfLaws.AllReclaimed | redis-3.0/deps/jemalloc/src/prof.c:431-752 | and when all threads rest with empty caches and all objects are freed, bt2ctx holds no context but those with a leaked increment |
| ProfLaws.LookupCompletes | redis-3.0/deps/jemalloc/src/prof.c:431-553 | when the mutex is free and there is memory, a lookup gives the thread a fresh counter in the context of the backtrace, the one in bt2ctx if there is one, and leaves nlimbo as it was |
| ProfLaws.SampleCounts | redis-3.0/deps/jemalloc/include/jemalloc/internal/prof.h:420-463 | a sampled object is one object more, of its size, in its context and no other |
| ProfLaws.FreeCompletes | redis-3.0/deps/jemalloc/include/jemalloc/internal/prof.h:540-577 | a free, with the lookup it needs, kills the object and no other, and its context counts one object less |
| ArenaLaws.StatusDetermines | redis-3.0/deps/jemalloc/src/arena.c:371-1094 | what each page is, vacant and dirty or not, or part of which run, determines the runs |
| ArenaLaws.SplitPaints | redis-3.0/deps/jemalloc/src/arena.c:371-511 | a split: the first pages belong to a run of the kind asked for, every other page is as before |
| ArenaLaws.FreePaints | redis-3.0/deps/jemalloc/src/arena.c:960-1094 | freeing: the pages of the run become vacant, every other page is as before, however unallocated runs are joined |
| ArenaLaws.CutPaints | redis-3.0/deps/jemalloc/src/arena.c:1096-1159 | a cut: two runs in the place of one |
| ArenaLaws.TrimHeadPaints | redis-3.0/deps/jemalloc/src/arena.c:1096-1126 | trimming the head: its pages become vacant, the rest is a run of its own |
| ArenaLaws.TrimTailPaints | redis-3.0/deps/jemalloc/src/arena.c:1128-1159 | trimming the tail: the run keeps its first pages |
| ArenaLaws.JoinPaints | redis-3.0/deps/jemalloc/src/arena.c:1855-1866 | two runs become one |
| ArenaLaws.GrowPaints | redis-3.0/deps/jemalloc/src/arena.c:1823-1887 | growing: the run has as many pages more |
| ArenaLaws.SameSight | redis-3.0/deps/jemalloc/src/arena.c:752-790 | the scan of a purge sees what was there at first: a run it has taken does not touch another dirty one |
| ArenaLaws.CleanNext | redis-3.0/deps/jemalloc/src/arena.c:752-790 | one run more that a purge takes, or does not |
| ArenaLaws.PurgeTaken | redis-3.0/deps/jemalloc/src/arena.c:752-790 | taking a run and listing it, page by page |
| ArenaLaws.CleansRest | redis-3.0/deps/jemalloc/src/arena.c:835-845 | freeing the first listed run, page by page |
| ArenaLaws.RegionPage | redis-3.0/deps/jemalloc/src/arena.c:1741 | each page of a small run shows its distance from the run's first page and the run's bin |

## Left out

Weaker than the source, on purpose:

- PqSort.Pivot: only that the pivot lies in the block; its choice affects running time only.
- Lzf.Compress: which octets are emitted is stated step by step in CompressStep, FindMatch and ExtendMatch, not as one function of the input and the table.
- HllCommands.HllObject.Count: the floating-point estimate is an arbitrary function of the exact sum and the zero count; rounding, the logarithm and the bias polynomial are not modelled.
- HllWalk.Expand: what follows once a register behind the last one is stored; the same holds of MergeSparse and of the additions and merges that end in STRAY or Stray.
- HllCommands.HllObject.SparseAdd: a stream that ends in the middle of an XZERO opcode is not modelled; copying a shared string, which terminates it anew, is not either.
- RespReader.Reader.ProcessMultiBulkItem: arrays receive their elements when they are complete, not through pointers into the parent; negative counts other than -1 are read as arrays without elements.
- Ckh.Table.EvictRelocInsert: an eviction chain is cut off after a given number of rounds with the outcome Exhausted; nothing is claimed about termination of the original loop, whose choices are pseudo-random.
- Ckh.Table.Insert: when the first request for memory is granted and a later one refused, which item is lost depends on the hash values.
- RespFormat.FormatCommandArgv: what follows when the size of the buffer is no int and totlen + 1 overflows.
- ProfCtx.IncrementKept: the increment and the release of bt2ctx_mtx are one step, as nothing can happen between them that needs the mutex; sections under a context's lock are atomic.
- ProfCtx.Unsound: a failed insertion may lose any entry, whatever the hash values; what a thread does with a freed counter afterwards is not modelled.
- ProfCtx.EvictKept: a thread may hand over any of its cached counters at any time, which covers the least recently used one at PROF_TCMAX and the exit of a thread.
- Chunk.Extents.Recycle: alignments are those for which rounding up to a multiple is what ALIGNMENT_CEILING does, powers of two.
- ArenaPages.Arena.RunSize: the bin of a small run is read from the page map, not from the header of the run.
- AllocSlots.AssignSlots: shares are exact rationals, not floating-point numbers.

Not modelled:

- MurmurHash: an element is a register index and a pattern length; PatLen gives their ranges for every hash.
- Pointers in the compressor: positions are integers relative to the input, which lies above the first 8192 addresses; the output has one octet of slack because lzf_c.c:173 stores before the space test. Configuration: VERY_FAST, HLOG 16, CHECK_INPUT.
- Integer widths of the reader: lengths and counts are unbounded; so are item counts of the cuckoo table.
- Memory exhaustion, except in the cuckoo table, the profiling protocol, chunk_recycle, chunk_record and chunk allocation of the arena.
- Printing from a format string (redisvFormatCommand), user-supplied object functions and the sockets of hiredis.
- sdssplitlen and sdsjoin: easier than quoting and unused by it.
- ckh_delete, ckh_iter and the string and pointer hash functions; hash values are arbitrary.
- prof_realloc, profile dumps, epochs and memory barriers of counters, accumbytes (which moves with accumobjs).
- Locks of the arena and of the chunk trees: both are modelled sequentially.
- Red-black trees: they are sets, searched for the element their order puts first.
- Contents and zeroing of pages in an arena and its unzeroed flags, statistics, the bins and the regions inside small runs.
- The decision when to purge and how much (arena_maybe_purge, the loop of arena_purge).
- The networked part of redis-trib, printing, and CLUSTER commands.
