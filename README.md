# Huffman compression, serial and parallel — a Dafny model

This project models the core of a byte-oriented Huffman compressor written in C with OpenMP.
The compressor has four parts:

- A binary min-heap of tree nodes keyed by frequency (`MinHeaps`).
- The Huffman tree: it is built from a 256-entry frequency table, and a table of (code, bit length) pairs is collected from it (`Huffman`).
- A bit stream. Code chunks of up to 8 bits are pushed onto it, and whole streams are appended to one another (`BitStreams`, with bit-level facts in `Bits`).
- Two compressors over these parts:
  - The serial one counts byte frequencies, builds the table and pushes one code per input byte (`SerialCompression`).
  - The parallel one counts per worker and sums the counts. It then encodes each worker's contiguous slice of the input into a stream of its own, and appends the worker streams in order (`ParallelCompression`).

`Coding` holds the specification functions both compressors are proved against:

- `Frequencies` counts the bytes.
- `Encoded` is the concatenation of the codes as a bit sequence.
- `DecodeAll` walks the tree.

The central results are these:

- When the tree it builds has depth at most 8, the serial digest leaves exactly `Encoded(input, dict)` in its output stream, at offset equal to its length. That encoding decodes back to the input when the input has at least two distinct bytes. With one distinct byte the tree is a single leaf, every code is 0 bits long and the encoding is empty.
- The parallel digest gives the same guarantees, under the table it built, for any number of workers.
- `ParallelCompression.SameOutput` shows that, for one code table, both pipelines fill their output buffers byte for byte identically.

State that the C code changes in place is kept in classes:

- `MinHeap`: a 256-slot `array` plus `size`.
- `HuffTree`: the heap and the root.
- `BitStream`: a byte `array` plus a bit `offset`.
- `SerialCompressor` and `ParallelCompressor`: the input, the code table `array` and the output stream.

The tree itself, which is never changed after it is built, is a datatype.

## Model

| member | source | states |
|---|---|---|
| MinHeaps.MinHeap.constructor | src/minheap.c:110-115 | a new heap is valid and empty |
| MinHeaps.MinHeap.Swap | src/minheap.c:45-47 | exchanging two slots of the heap (the three-assignment swap minheap_insert and minheap_heapify share) changes exactly those two slots and keeps the node multiset |
| MinHeaps.MinHeap.Insert | src/minheap.c:34-51 | after sifting the new node up, the heap is ordered again, its size grew by one and its nodes are the old ones plus the new node |
| MinHeaps.MinHeap.SwapUp | src/minheap.c:43-49 | one swap with a parent of larger frequency moves the out-of-place node one level up and keeps the node multiset |
| MinHeaps.MinHeap.Heapify | src/minheap.c:53-81 | a heap that is ordered everywhere except below index i becomes ordered, and it holds the same nodes |
| MinHeaps.MinHeap.SwapDown | src/minheap.c:66-79 | swapping with the smaller child that beats the parent moves the violation down to that child and keeps the nodes |
| MinHeaps.MinHeap.MoveLastToRoot | src/minheap.c:100-103 | pop's `data[0] = data[size - 1]` and `size--`: the heap becomes the old last node followed by the old nodes strictly between the root and the last |
| MinHeaps.MinHeap.Pop | src/minheap.c:83-108 | an empty heap yields None and is unchanged; otherwise the old root is returned, no node has a smaller frequency than it, and the heap loses exactly that node and stays ordered |
| MinHeaps.MinHeap.RemoveRoot | src/minheap.c:99-107 | moving the last node to the root and heapifying leaves an ordered heap of the remaining nodes |
| MinHeaps.RootIsMinimum | src/minheap.c:83-89 | in an ordered heap the root's frequency is at most that of every node |
| MinHeaps.AncestorBound | src/minheap.c:43 | in an ordered heap no node is smaller than the root, by induction over parents |
| MinHeaps.SiftUpStep | src/minheap.c:43-49 | a parent swap keeps the nodes and leaves the heap ordered except above the parent |
| MinHeaps.SiftDownStep | src/minheap.c:66-79 | a swap with the smallest child keeps the nodes and leaves the heap ordered except below that child |
| MinHeaps.PopStep | src/minheap.c:100-103 | putting the last node at the root gives a heap that is ordered except at the root, holding the old nodes minus the root |
| MinHeaps.PopOrderTrace | src/minheap.c:121-149 | inserting frequencies 5,7,1,2,3 for symbols 0..4 pops symbols 2,3,4,0,1 and then nothing |
| Huffman.InitialHeap | src/huffman.c:7-25 | the heap holds exactly one leaf for each symbol of nonzero frequency, with that frequency |
| Huffman.AddLeaf | src/huffman.c:12-22 | one iteration of hftree_new's loop: the heap holds the leaves of the symbols below i + 1, a leaf added only for a nonzero frequency |
| Huffman.LeavesBelowExactly | src/huffman.c:12-22 | a node is among the first n symbols' leaves iff it is a leaf for a symbol below n whose frequency is that symbol's nonzero count |
| Huffman.HuffTree.constructor | src/huffman.c:7-25 | the tree starts with no root, and its heap holds one leaf per symbol of nonzero frequency |
| Huffman.Merge | src/huffman.c:36-52 | the parent of two popped nodes weighs their sum and has exactly those two as children, the lighter one on the left |
| Huffman.PopsGreedy | src/huffman.c:31-54 | popping a least frequent node, then a least frequent node of the rest, and inserting their parent is one greedy step on the heap's multiset |
| Huffman.MergeSmallest | src/huffman.c:31-54 | one loop iteration is a greedy step: the first node popped is least frequent in the old heap, the second least frequent among the rest, and the new multiset is the old one minus both plus their parent; the heap shrinks by one and keeps the leaves, the total frequency and well-formedness |
| Huffman.LightestPair | src/huffman.c:31-54 | no two nodes of the heap weigh less together than the pair a greedy step merges |
| Huffman.StepSize | src/huffman.c:31-54 | a greedy step leaves one node fewer |
| Huffman.RunSizes | src/huffman.c:28-55 | after k iterations the heap holds k nodes fewer than it started with |
| Huffman.GreedyFromStep | src/huffman.c:28-55 | a heap reached by greedy merges, merged greedily once more, is still reached by greedy merges |
| Huffman.ForestStep | src/huffman.c:28-55 | one iteration keeps the loop's invariant: well-formed nodes over the starting leaves and total frequency, reached from the start by greedy merges |
| Huffman.MergeAll | src/huffman.c:28-55 | the loop stops with at most one node, which is empty only if the heap started empty, keeping that invariant |
| Huffman.ForestRoot | src/huffman.c:57 | the single node the loop leaves is a greedy tree over the starting leaves, weighing their total |
| Huffman.MergeKeepsWellFormed | src/huffman.c:35-52 | after a merge whose parent adds its children's weights with the lighter child on the left, every node left in the heap is still well formed |
| Huffman.HuffTree.Build | src/huffman.c:27-58 | the heap ends empty; the root is None iff the heap was empty; otherwise the root is well formed, is built from the heap's old nodes by a sequence of greedy steps (each merging a least and a next-least frequent node), its leaves are the heap's old leaves and its weight is their total |
| Huffman.EqualFourBalanced | src/huffman.c:27-58 | from four nodes of frequency one, every greedy tree is balanced: both subtrees of the root weigh two |
| Huffman.InternalNodes | src/huffman.c:35-54 | a tree has one internal node fewer than it has leaves |
| Huffman.TreeOfFrequencies | src/huffman.c:7-58 | a tree built from a frequency table weighs the table's total, holds each symbol at most once, holds exactly the symbols of nonzero frequency, and has one merge fewer than there are such symbols |
| Huffman.Collect | src/huffman.c:98-115 | the collected table has 256 entries and leaves untouched every symbol the tree does not hold |
| Huffman.CodeTable | src/huffman.c:98-115 | for a tree of depth at most 8 holding each symbol once, every held symbol gets a code whose bits are its root-to-leaf path, and every other entry is kept |
| Huffman.PrefixFree | src/huffman.c:106-114 | no leaf path is a proper prefix of another, and equal paths reach the same symbol |
| Huffman.PrefixFreeCodes | src/huffman.c:98-115 | no code of one symbol is a prefix of another symbol's code |
| Huffman.SingleLeafCode | src/huffman.c:106-111 | a tree that is a single leaf gives its symbol the empty code (0, 0) |
| Huffman.HuffTree.GenerateDict | src/huffman.c:117-120 | builds the tree with the guarantees of `Build`, then writes into the table exactly what `Collect` gives from the root; an empty heap leaves the table unchanged |
| Coding.FrequenciesTotal | src/serial_compression.c:102-109 | the counts add up to the input's length |
| Coding.FrequencyOccurs | src/serial_compression.c:104-108 | a byte has a nonzero count iff it occurs in the input |
| Coding.EncodedConcat | src/serial_compression.c:123-129 | encoding a concatenation is the concatenation of the encodings, and the lengths add up |
| Coding.EncodedSize | src/serial_compression.c:123-129 | the encoding is as long as the summed code lengths and at most 8 bits per byte |
| Coding.DecodePath | src/huffman.c:98-115 | following a leaf's path from the root decodes that leaf's symbol and leaves the rest of the bits |
| Coding.TableFromTree | src/huffman.c:98-115 | a table collected from a distinct tree of depth at most 8 is usable and gives each held symbol its path |
| Coding.RoundTrip | src/serial_compression.c:123-129 | for a tree whose root is internal and a table whose codes are the tree's paths, decoding the encoding of an input whose bytes the tree holds gives back the input |
| BitStreams.BitStream.constructor | src/serial_compression.c:10-18 | a new stream has a zeroed buffer of the given capacity, offset 0 and no bits |
| BitStreams.PushBits | src/serial_compression.c:27-65 | pushing a chunk appends exactly its bit_length low bits after the existing bits and keeps the buffer clear past the new offset |
| BitStreams.BitStream.PushChunk | src/serial_compression.c:27-65 | the offset grows by bit_length, the buffer becomes the two written bytes, and for a chunk that fits, the stream's bits become the old bits plus the chunk's bits |
| BitStreams.PushChunkTrace | src/serial_compression.c:67-76 | pushing 1101 then 111111 gives 0xD0 at offset 4, then 0xDF 0xC0 at offset 10 |
| BitStreams.AppendBits | src/parallel_compression.c:90-104 | the appended buffer holds the first stream's bits followed by the second's and is clear past the summed offset |
| BitStreams.AlignedAppendCopies | src/parallel_compression.c:95-102 | at a byte-aligned offset, append copies q's used bytes unchanged after p's bytes and writes a zero after them |
| BitStreams.BitStream.Append | src/parallel_compression.c:90-104 | the offset grows by q's offset, the bits become the old bits followed by q's bits, and an empty q leaves the buffer unchanged |
| BitStreams.BitStream.WriteAppended | src/parallel_compression.c:91-102 | bitstream_append's head, middle and tail byte writes for a nonempty q leave the buffer equal to `AppendBytes` of the old buffer and q's bytes |
| BitStreams.BitStream.WriteJoined | src/parallel_compression.c:98-100 | the middle loop sets each byte of its range to q's byte i shifted left joined with q's byte i + 1 shifted right, and no other byte |
| BitStreams.SameBitsSameBuffer | src/parallel_compression.c:90-104 | two equal-sized buffers with the same bits up to n and nothing set past n are equal |
| BitStreams.AppendTrace | src/parallel_compression.c:106-118 | appending 11111 11111111 to 11110111 000 gives bytes 0xF7, 0x1F, 0xFF |
| BitStreams.SourceMiddleCount | src/parallel_compression.c:92-98 | the middle-byte loop bound q_size - 1, computed in size_t, stays within size_t |
| BitStreams.MiddleCountAgrees | src/parallel_compression.c:92-98 | for a non-empty q the loop bound is the byte count minus one |
| BitStreams.EmptyAppendOverruns | src/parallel_compression.c:92-102 | for an empty q the byte count is 0, so the loop bound wraps to 2^64-1 and the loop runs past any buffer's end |
| SerialCompression.SerialCompressor.constructor | src/serial_compression.c:88-95 | the table starts zeroed, and the output stream is empty with the corrected capacity |
| SerialCompression.OneByteOverflows | src/serial_compression.c:93 | with a capacity of in_size, one input byte makes the first push write the byte at index 1, past the buffer |
| SerialCompression.FullCodesOverflow | src/serial_compression.c:61-62 | when every code is 8 bits long, the last push writes at index in_size, one past a buffer of in_size bytes |
| SerialCompression.CapacitySuffices | src/serial_compression.c:61-62 | with in_size + 1 bytes every push of the encode loop writes inside the buffer |
| SerialCompression.SerialCompressor.GenerateFrequencyTable | src/serial_compression.c:102-109 | the table ends equal to the byte counts of the input |
| SerialCompression.PushCodes | src/serial_compression.c:123-129 | pushing each byte's code leaves the stream's bits extended by exactly the encoding of those bytes |
| SerialCompression.PushCode | src/serial_compression.c:125-128 | one push extends the encoded prefix by one byte's code |
| SerialCompression.SerialCompressor.EncodeInput | src/serial_compression.c:123-129 | the stream's bits become the encoding of the whole input, and its offset becomes the encoded length |
| SerialCompression.TableFromCounts | src/serial_compression.c:116-117 | from the input's counts, the root is None iff the input is empty; otherwise the tree weighs the input's length, holds exactly its bytes once each, its leaves are one per byte with that byte's count, it is merged from them greedily, and the table is what `Collect` gives from its root |
| SerialCompression.SerialCompressor.BuildTable | src/serial_compression.c:112-117 | counts the input, then builds the tree and the table as `TableFromCounts` states |
| SerialCompression.EncodingMeaning | src/serial_compression.c:123-129 | with a table collected from the input's tree, the encoding decodes back to the input, or is empty when the tree is a single leaf |
| SerialCompression.SerialCompressor.Digest | src/serial_compression.c:111-136 | an empty input leaves the table unchanged, otherwise the whole table is `Collect` from the root over the old table; a tree deeper than 8 leaves the output stream untouched; if the tree has depth at most 8, the stream holds exactly the input's encoding at offset equal to its length, which decodes back to the input when the tree's root is internal (at least two distinct bytes) and is empty when the tree is a single leaf (one distinct byte) |
| ParallelCompression.StartBounds | src/parallel_compression.c:141-142 | the static schedule starts at 0, ends at n and never decreases |
| ParallelCompression.Schedule | src/parallel_compression.c:141-142 | the schedule has workers + 1 bounds that cut 0..n into contiguous ranges |
| ParallelCompression.ScheduleSizes | src/parallel_compression.c:141-142 | worker t gets n / workers bytes, plus one if t < n % workers |
| ParallelCompression.IdleWorker | src/parallel_compression.c:180-181 | with more workers than bytes, the last worker gets an empty range |
| ParallelCompression.PartitionedCount | src/parallel_compression.c:134-155 | the per-worker counts over contiguous ranges add up to the counts of the covered prefix of the input |
| ParallelCompression.AddInto | src/parallel_compression.c:148-153 | the shared table becomes the entrywise sum of itself and a worker's local table |
| ParallelCompression.ParallelCompressor.CountRange | src/parallel_compression.c:140-145 | a worker's local table counts exactly the bytes of its range |
| ParallelCompression.ParallelCompressor.GenerateFrequencyTable | src/parallel_compression.c:134-155 | for any number of workers, the summed table equals the serial byte counts of the whole input |
| ParallelCompression.ParallelCompressor.constructor | src/parallel_compression.c:120-127 | the table starts zeroed, and the output stream is empty with the corrected capacity |
| ParallelCompression.WorkerPart | src/parallel_compression.c:178-190 | worker t's part is the encoding of the input slice the schedule gives it |
| ParallelCompression.EncodedPrefix | src/parallel_compression.c:178-201 | the first k parts concatenated encode the input up to the k-th bound |
| ParallelCompression.EncodedRanges | src/parallel_compression.c:178-201 | all parts concatenated are the encoding of the whole input |
| ParallelCompression.MergeFits | src/parallel_compression.c:197-201 | parts totalling at most 8n bits fit, appended one by one, into n + 1 bytes |
| ParallelCompression.MergeSuffices | src/parallel_compression.c:197-201 | the workers' parts always fit into the corrected output capacity |
| ParallelCompression.OneByteTwoWorkers | src/parallel_compression.c:178-201 | a one-byte input with two workers gives the second worker an empty stream, which the merge then appends |
| ParallelCompression.ParallelCompressor.EncodeRange | src/parallel_compression.c:181-189 | a worker's fresh stream holds exactly the encoding of its slice |
| ParallelCompression.ParallelCompressor.EncodeWorkers | src/parallel_compression.c:169-190 | there is one stream per worker, each distinct from the output stream and its buffer, and stream t holds worker t's part |
| ParallelCompression.ParallelCompressor.EncodeNext | src/parallel_compression.c:178-189 | one more worker encodes its scheduled range into a new stream holding exactly its part; the earlier streams are kept |
| ParallelCompression.ParallelCompressor.MergeStreams | src/parallel_compression.c:197-201 | appending the streams in worker order extends the output's bits by the parts' concatenation, and its offset by its length |
| ParallelCompression.ParallelCompressor.MergeOne | src/parallel_compression.c:197-198 | one iteration of the merge loop: the output holds the first t + 1 parts, and every worker stream still holds its part |
| ParallelCompression.ParallelCompressor.AppendPart | src/parallel_compression.c:198 | appending worker stream t extends the output's bits and offset from the first t parts to the first t + 1 |
| ParallelCompression.ParallelCompressor.EncodeParallel | src/parallel_compression.c:169-201 | the output's bits grow by exactly the encoding of the whole input, whatever the worker count |
| ParallelCompression.ParallelCompressor.BuildTable | src/parallel_compression.c:158-162 | the parallel counts give the same tree and table guarantees as the serial ones |
| ParallelCompression.ParallelCompressor.Digest | src/parallel_compression.c:157-206 | the same guarantees as the serial digest (the whole table is `Collect` from the root over the old one, and a tree deeper than 8 leaves the output stream untouched): if the tree has depth at most 8, the output holds exactly the input's encoding at offset equal to its length, which decodes back to the input when the tree's root is internal (at least two distinct bytes) and is empty when the tree is a single leaf (one distinct byte) |
| ParallelCompression.SameOutput | src/parallel_compression.c:178-201 | for one code table and any number of workers, the serial and parallel pipelines end at the same offset with identical output buffers holding the input's encoding |

## Left out

- Reading and writing files, the command-line entry points and the print helpers are not modelled. Neither is timing with `omp_get_wtime`, nor `malloc`/`free` and the destroy functions.
- OpenMP threads are not modelled. The worker count is a parameter of at least 1, and the workers run one after another in thread order. The static schedule is modelled as contiguous ranges whose sizes differ by at most one, the first `n % workers` ranges taking the extra byte. The order in which threads enter the critical section does not matter, because addition commutes; the model adds the tables in thread order.
- The 64-bit frequency counters are unbounded naturals, so wrap-around after 2^64 occurrences is not modelled.
- `MinHeaps.MinHeap.Insert`: requires `size < 256`. The C heap writes past its 256-slot array otherwise. At most 256 distinct leaves are ever inserted, and each merge removes two nodes before inserting one, so this never happens in the compressors.
- `MinHeaps.MinHeap.Pop`: the model does not NULL the vacated slots. Slots at or beyond `size` are not part of the heap's contents.
- `Huffman.HuffTree.Build`: the contract fixes the greedy choice at every step, but not which of several equally light nodes the heap pops first, which depends on the heap's layout. So when frequencies tie the tree is not pinned down, and the serial and parallel digests are proved to give the same output only for the same code table (`ParallelCompression.SameOutput`).
- Nodes are values, not pointers. `Build` never sees a NULL from `pop`, because it pops only while the heap holds two or more nodes, so the NULL-child branches of the merge are not modelled.
- `SerialCompression.SerialCompressor.Digest` and `ParallelCompression.ParallelCompressor.Digest` return `encoded = false` when the tree is deeper than 8, where the C code silently truncates the `uint8_t` path to its low 8 bits. `Huffman.Collect` itself keeps the C wrap-around of the path and length.
- `ParallelCompression.ParallelCompressor.EncodeWorkers`: each worker stream gets the corrected capacity of its own range (range length + 1). The C code gives each the heuristic `2 * in_size / threads`, which for one byte and two threads is 1 byte, too small for a push that writes two bytes. Each stream is also allocated just before it is filled, not all before encoding starts.
- The `capacity`, `length` and `size` fields that the C code sets but never reads are not modelled.
- The bit stream is defined identically in the serial and the parallel source file; it is modelled once.

## Findings

| source | as written | input that shows it | evidently intended | confidence | as-written member | corrected member |
|---|---|---|---|---|---|---|
| src/parallel_compression.c:92-102 | `bitstream_append` computes `q_size - 1` in `size_t` and always writes a first and a last byte | an empty worker stream: one input byte with two threads, or any input with a single distinct byte (code length 0) | appending an empty stream changes nothing | not executed | BitStreams.EmptyAppendOverruns | BitStreams.BitStream.Append |
| src/serial_compression.c:93 (also src/parallel_compression.c:125) | the output stream gets `in_size` bytes, but each push writes the byte after the current one | a one-byte input, or an input whose codes are all 8 bits long | a buffer of `in_size + 1` bytes, enough for every push | not executed | SerialCompression.OneByteOverflows | SerialCompression.CapacitySuffices |
