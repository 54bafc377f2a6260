# Sparse long-array and multi-source BFS benchmark fixtures, in Dafny

This project models two benchmark fixtures from the Neo4j graph algorithms
library.

**`LongArrays`** (`long_arrays.dfy`) generates a reference `long[]` of
length `size`. Every entry holds either the sentinel `-1L` or a non-negative
value. The array comes in one of two shapes:

- **packed**: one contiguous block of `blockSize` values starts at a random
  index. Every other entry is the sentinel.
- **uniform**: each index independently holds either the sentinel or a value.

The fixture then replays the reference array into four stores. For every
entry `values[i] >= 0`, in ascending `i`, it issues one `set(i, values[i])`.

The random source is an oracle (`Draws`). It holds:

- `start`: the result of `nextInt(maxIndex)`;
- `keep[i]`: the per-index decision `nextDouble() >= sparseness`;
- `longs`: the stream of `nextLong()` results.

`randomLong` redraws until a draw is non-negative. So the values it hands out
are the non-negative draws of the stream, in order (`NonNegatives(longs)`).
Each generated array is proved equal to a specification function
(`PackedArray` or `UniformArray`), and the properties of that shape are
proved about the function.

The four stores (`LongArray`, `SparseLongArray`, `OffHeapLongArray`,
`DynamicLongArray`) share one abstract class, `LongStore`. It has:

- a length and a default value;
- a map of entries that `Set` updates in place;
- a ghost log of the `set` calls it has received.

`Valid()` ties the entries to that log: the entries are exactly what the
logged calls leave behind.

**`MSBFS`** (`msbfs_source.dfy`) models a complete graph on `nodeCount`
nodes. Its two relationship iterators (`AllNodes`, `HugeAllNodes`) hand every
node other than `nodeId` to a consumer, in ascending order. The consumer is
modelled as the sequence of `accept` calls it receives. The fixture also
builds the source lists `0 .. sourceCount - 1`. It comes at fifteen fixed
scales (the enum constants, here `Scale`).

`java_types.dfy` gives Java's `int` and `long` as integer ranges, and
`wrappers.dfy` gives `Option` and `Result`.

The packed start index comes from `nextInt(size - blockSize)`, whose range
leaves out its bound, so the code draws from `[0, size - blockSize)`. A
description of the fixture as "a start offset chosen from
`[0, size - blockSize]`" would allow the block to end at the last index. The
model follows the code:

- the last index of a packed array is always the sentinel;
- `blockSize == size` fails with `nextInt`'s illegal-bound exception.

## Model

| member | source | states |
|---|---|---|
| `LongArrays.NonNegatives` | benchmark/src/main/java/org/neo4j/graphalgo/utils/LongArrays.java:118-124 | the values rejection sampling keeps: all non-negative, and never more than were drawn |
| `LongArrays.RandomLong` | benchmark/src/main/java/org/neo4j/graphalgo/utils/LongArrays.java:118-124 | returns the first non-negative draw at or after the cursor. Every draw it skips is negative and is discarded rather than reported. The value it returns is the next element of `NonNegatives` |
| `LongArrays.SkipNegatives` | benchmark/src/main/java/org/neo4j/graphalgo/utils/LongArrays.java:120-123 | the draws a redraw loop skips are all negative and contribute nothing, so one call adds exactly its returned value to the values drawn so far |
| `LongArrays.DrawnInOrder` | benchmark/src/main/java/org/neo4j/graphalgo/utils/LongArrays.java:60 | after `c` values have been drawn, the next `randomLong` call returns value number `c` of the stream's non-negative draws |
| `LongArrays.NextValueExists` | benchmark/src/main/java/org/neo4j/graphalgo/utils/LongArrays.java:118-124 | if the stream holds more non-negative draws than have been used, the `do … while` loop has a non-negative draw ahead of it and ends |
| `LongArrays.NonNegativesAppend` | benchmark/src/main/java/org/neo4j/graphalgo/utils/LongArrays.java:118-124 | the values drawn from two stretches of the stream are those of the first followed by those of the second |
| `LongArrays.UniformArray` | benchmark/src/main/java/org/neo4j/graphalgo/utils/LongArrays.java:63-69 | a uniform array has one entry per decision. Entry `i` is the sentinel exactly when the draw at `i` was below `sparseness`, and otherwise a non-negative value |
| `LongArrays.UniformValues` | benchmark/src/main/java/org/neo4j/graphalgo/utils/LongArrays.java:63-69 | removing the sentinels from a uniform array gives the first `CountTrue(keep)` values `randomLong` returns, in order |
| `LongArrays.UniformStep` | benchmark/src/main/java/org/neo4j/graphalgo/utils/LongArrays.java:63-69 | each loop iteration adds one entry, either the sentinel or the next drawn value, and uses at most the values the decisions allow |
| `LongArrays.PackedAt` | benchmark/src/main/java/org/neo4j/graphalgo/utils/LongArrays.java:58-61 | entry `i` of a packed array is drawn value `i - start` inside `[start, start + blockSize)`, and `-1L` outside it |
| `LongArrays.PackedValues` | benchmark/src/main/java/org/neo4j/graphalgo/utils/LongArrays.java:58-61 | removing the sentinels from a packed array gives the first `blockSize` drawn values, in order |
| `LongArrays.PackedGrow` | benchmark/src/main/java/org/neo4j/graphalgo/utils/LongArrays.java:59-60 | writing drawn value `i` at `start + i` grows the block by exactly one entry |
| `LongArrays.PackedIsOneRun` | benchmark/src/main/java/org/neo4j/graphalgo/utils/LongArrays.java:55-61 | a packed array is one run. Exactly the indices in `[start, start + blockSize)` hold non-negative values, every other index holds `-1L`, and the last index is `-1L` whenever the block starts before `size - blockSize` |
| `LongArrays.GeneratedShape` | benchmark/src/main/java/org/neo4j/graphalgo/utils/LongArrays.java:48-72 | in either distribution the array has length `size` and holds only `-1L` or non-negative values. A packed array's last index is always `-1L` |
| `LongArrays.FillPacked` | benchmark/src/main/java/org/neo4j/graphalgo/utils/LongArrays.java:58-61 | filling with `-1L` and then writing `blockSize` values from `startIndex` leaves exactly the packed array |
| `LongArrays.FillUniform` | benchmark/src/main/java/org/neo4j/graphalgo/utils/LongArrays.java:63-69 | the per-index loop leaves exactly the uniform array for its decisions and its draws |
| `LongArrays.CreatePrimitive` | benchmark/src/main/java/org/neo4j/graphalgo/utils/LongArrays.java:48-72 | negative `size` fails with `NegativeArraySize`. A packed request with `blockSize == size` fails with `IllegalBound`, because `nextInt(0)` throws. Otherwise the result is a new array equal to the packed or uniform array of the draws |
| `LongArrays.WritesExactly` | benchmark/src/main/java/org/neo4j/graphalgo/utils/LongArrays.java:74-116 | the replay issues `set(i, v)` exactly when `values[i] >= 0` and `v == values[i]`, so it never writes a sentinel |
| `LongArrays.WritesAscending` | benchmark/src/main/java/org/neo4j/graphalgo/utils/LongArrays.java:74-116 | the `set` calls come in strictly ascending index order, so each index is written at most once |
| `LongArrays.WritesValues` | benchmark/src/main/java/org/neo4j/graphalgo/utils/LongArrays.java:74-116 | the values written, in order, are the non-negative entries of the reference array |
| `LongArrays.ApplyWrites` | benchmark/src/main/java/org/neo4j/graphalgo/utils/LongArrays.java:74-116 | applying the logged `set` calls to a store's entries overlays them with the non-sentinel entries of the reference array |
| `LongArrays.ReplayStep` | benchmark/src/main/java/org/neo4j/graphalgo/utils/LongArrays.java:76-81 | one loop iteration adds one `set` call and one entry for a non-sentinel entry, and nothing for a sentinel |
| `LongArrays.ReplayRoundTrip` | benchmark/src/main/java/org/neo4j/graphalgo/utils/LongArrays.java:96-116 | replaying onto a store whose default is `-1L` gives back the reference array at every index that holds `-1L` or a non-negative value |
| `LongArrays.LongStore.constructor` | benchmark/src/main/java/org/neo4j/graphalgo/utils/LongArrays.java:97 | a new store has the given length and default, no entries and no `set` calls |
| `LongArrays.LongStore.Set` | benchmark/src/main/java/org/neo4j/graphalgo/utils/LongArrays.java:101 | after `set(i, v)`, `get(i)` is `v` and every other index reads as before. The call is appended to the log, and the store stays valid |
| `LongArrays.Replay` | benchmark/src/main/java/org/neo4j/graphalgo/utils/LongArrays.java:76-81 | the store's log grows by exactly the replay's `set` calls, and its entries are overlaid with the non-sentinel entries |
| `LongArrays.CreatePaged` | benchmark/src/main/java/org/neo4j/graphalgo/utils/LongArrays.java:74-83 | a new store of length `values.length` that received exactly the replay's `set` calls. Every non-sentinel index reads back its value; other indices read the store's default |
| `LongArrays.CreateSparse` | benchmark/src/main/java/org/neo4j/graphalgo/utils/LongArrays.java:85-94 | the same as `CreatePaged`, for the sparse store |
| `LongArrays.CreateOffHeap` | benchmark/src/main/java/org/neo4j/graphalgo/utils/LongArrays.java:96-105 | a new store with default `-1L` that received exactly the replay's `set` calls. For a reference array of sentinels and non-negative values, `get(i) == values[i]` at every index |
| `LongArrays.CreateChunked` | benchmark/src/main/java/org/neo4j/graphalgo/utils/LongArrays.java:107-116 | the same as `CreateOffHeap`, for the chunked store |
| `MSBFS.TargetsMembers` | benchmark/src/main/java/org/neo4j/graphalgo/impl/msbfs/MSBFSSource.java:93-97 | a node is a target exactly when it lies in `[0, nodeCount)` and is not `nodeId`, so there are no self-loops |
| `MSBFS.TargetsAscending` | benchmark/src/main/java/org/neo4j/graphalgo/impl/msbfs/MSBFSSource.java:93 | targets come in strictly ascending order, so each target occurs once |
| `MSBFS.TargetsCount` | benchmark/src/main/java/org/neo4j/graphalgo/impl/msbfs/MSBFSSource.java:93-94 | there are `nodeCount - 1` targets when `0 <= nodeId < nodeCount`, `nodeCount` targets for any other id, and none when `nodeCount` is negative |
| `MSBFS.TargetsStep` | benchmark/src/main/java/org/neo4j/graphalgo/impl/msbfs/MSBFSSource.java:93-97 | loop index `i` adds `i` as the last target unless `i == nodeId` |
| `MSBFS.AllNodes.constructor` | benchmark/src/main/java/org/neo4j/graphalgo/impl/msbfs/MSBFSSource.java:84-86 | the iterator keeps the node count it was given |
| `MSBFS.AllNodes.ForEachRelationship` | benchmark/src/main/java/org/neo4j/graphalgo/impl/msbfs/MSBFSSource.java:89-98 | the consumer receives `accept(nodeId, t, -1)` for each target `t`, in order. The result does not depend on `direction` |
| `MSBFS.HugeAllNodes.constructor` | benchmark/src/main/java/org/neo4j/graphalgo/impl/msbfs/MSBFSSource.java:105-107 | the iterator keeps the node count it was given |
| `MSBFS.HugeAllNodes.ForEachRelationship` | benchmark/src/main/java/org/neo4j/graphalgo/impl/msbfs/MSBFSSource.java:110-119 | the consumer receives `accept(nodeId, t)` for the same target sequence as `AllNodes`, over `long` ids |
| `MSBFS.MSBFSSource.WithSources` | benchmark/src/main/java/org/neo4j/graphalgo/impl/msbfs/MSBFSSource.java:60-69 | both iterators get `nodeCount`. `sources` and `hugeSources` are new arrays of length `sourceCount` with `sources[i] == hugeSources[i] == i` |
| `MSBFS.MSBFSSource.NodesOnly` | benchmark/src/main/java/org/neo4j/graphalgo/impl/msbfs/MSBFSSource.java:71-78 | both iterators get `nodeCount`, and both source arrays are null |
| `MSBFS.NodeCount` | benchmark/src/main/java/org/neo4j/graphalgo/impl/msbfs/MSBFSSource.java:35-51 | every constant has 1024, 8192 or 16384 nodes |
| `MSBFS.SourceCount` | benchmark/src/main/java/org/neo4j/graphalgo/impl/msbfs/MSBFSSource.java:35-51 | only the three one-argument constants have no source count. Every other constant has a positive source count no larger than its node count |
| `MSBFS.Instantiate` | benchmark/src/main/java/org/neo4j/graphalgo/impl/msbfs/MSBFSSource.java:35-78 | each constant builds its instance through the constructor it names. Source arrays exist exactly when a source count is given, and every source id is a valid node id |

## Left out

- The JMH harness is not modelled: `@State`, `@Param`, `@Setup` and `setup()`. It supplies only `size` in {100000, 10000000}, `sparseness` in {0.1, 0.5, 0.9, 0.999} and the distribution.
- `java.util.Random` is not modelled. The model takes its three kinds of draws as separate sequences in `Draws`. In the code, `nextInt`, `nextDouble` and `nextLong` interleave on one stream seeded with 0. The model assumes `start` lies in `[0, maxIndex)`, as `nextInt` promises.
- `LongArrays.RandomLong`: termination depends on the generator. The model requires a non-negative draw ahead of the cursor, and `CreatePrimitive` requires enough non-negative draws for the values it needs.
- Floating point is not modelled. `Math.round(size * (1.0 - sparseness))` becomes the integer input `blockSize`, with `0 <= blockSize <= size` (true for a sparseness in `[0, 1]`). `nextDouble() >= sparseness` becomes the boolean `keep[i]`.
- The backend stores are one abstract map with a default value. Paging, sparse encoding, chunking, off-heap allocation and release, and `AllocationTracker` are not modelled. Those classes are not part of this model.
- `LongArrays.CreatePaged`: the default of `LongArray.newArray` is not part of this model. It is a parameter, so no round trip to the reference array is claimed.
- `LongArrays.CreateSparse`: the default of `SparseLongArray.newArray` is not part of this model either. It is a parameter, and no round trip is claimed.
- `LongArrays.LongStore.Set` requires an index below the store's length. The replay only writes such indices. Out-of-range behaviour belongs to the backends, which are not part of this model.
- `DirectIdMapping` and `HugeDirectIdMapping` appear only as the `nodeCount` field. `Direction` is an enum the iterators ignore. The multi-source BFS that consumes the fixture is not modelled.
- `MSBFS.MSBFSSource.WithSources` requires `sourceCount >= 0`. A negative count would make `new int[sourceCount]` throw. Every constant passes a positive count.
- Java integer overflow does not arise in the modelled code. Loop indices stay below `size` or `nodeCount`, and `size - blockSize` stays in `[0, size]`. The model uses unbounded integers, restricted to the `int` and `long` ranges.
