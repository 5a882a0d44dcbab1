# Hoist core: serializer-id registry, collection builders, memoised JSON

A Dafny model of three small stateful pieces of the Hoist server toolkit:

- **`KryoIdGenerator`** — the registry that gives the Kryo-based Hazelcast serializer its
  serializer id. A static map sends each `HazelcastInstance` handle to an `IdSequence`.
  A sequence holds a counter that starts at `BASE_ID = 6000` and a class → id cache.
  `idFor` hands a class `counter + 1` the first time it is seen and the cached id after that.
  `globalId(hz)` asks the handle's sequence about `hz.getClass()`. `instanceDestroyed(hz)`
  drops the handle's sequence.
- **`CollectionUtils`** — `sizedHashMap`, `quickMap` (a map from alternating key/value
  arguments), `collectEntries` (a map from mapper-produced entries) and `collect`
  (an order-preserving map over a collection).
- **`JSONFormatCached`** — a base class whose `getCachedJSON` serializes
  `formatForJSON()` once and returns the stored string on every later call.

Each component has two layers. The first is a specification on values: `IdSeq`, `NextId`,
`GlobalIdOf`, `PairsMap`, `EntriesMap`, `GetCached`, and traces of calls (`IdsFor`,
`Replay`, `Calls`). Lemmas about those traces carry the properties. The second layer has the
source's own shape. `IdSequence`, `Generator` and `JSONFormatCached` are classes whose
methods update their fields in place. `QuickMap`, `CollectEntries` and `Collect` are methods
with loops. Each method's postcondition ties its result or new state to the specification.

Files: `wrappers.dfy` (`Option`, `Result`), `kryo_id_generator.dfy`, `collection_utils.dfy`,
`json_format_cached.dfy`.

Modelling choices:

- The static `counterMap` is one `Generator` object. Handles are values of a type `H` with
  equality.
- `hz.getClass()` is the constant function `classOf`, given to the constructor.
- The map holds `IdSequence` objects. The generator keeps a ghost `registry`, the value
  of the map with each sequence object replaced by its state, and a ghost footprint `Repr`
  holding itself and every sequence object. `Valid()` ties `registry` to the objects and
  requires that no two handles share a sequence object, which is what makes updating one
  handle's sequence leave the others alone. `Valid()` also requires `Dedicated(registry,
  classOf)`: every sequence is fresh or knows only its own handle's class. That invariant is
  what `Generator.GlobalId`'s promise of the id 6001 rests on. The methods state their
  effect on `registry` through `GetOrCreate`, `GlobalIdOf` and `Destroyed`.
- `formatForJSON()` and `JSONSerializer.serialize` are constant function fields of the cached
  object. Together they map the object's current `fields` to a string or a
  `JsonProcessingException` from `serialize`; `formatForJSON` itself never throws in the
  model (see "Left out"). A ghost counter records how often `formatForJSON` runs.
- Java exceptions are `Failure` values of `Result`, not preconditions. `quickMap` on an
  odd-length list throws `ArrayIndexOutOfBoundsException` at index `args.length`.
  `sizedHashMap(size)` throws `IllegalArgumentException` when its capacity
  `(int)(size / 0.75 + 1)` is negative, that is when `size <= -2`.

Consequences of the code worth stating:

- `globalId(hz)` only ever asks about `hz.getClass()`, in a sequence private to `hz`
  (KryoIdGenerator.java:19-21). So every `globalId` call returns `BASE_ID + 1` = 6001
  (`GlobalIdIsFirstId`, `ReplayAlwaysFirstId`). The general `idFor(class)` is modelled
  as well (`NextIdSpec`, `IdSequence.IdFor`).
- `sizedHashMap(size)` throws `IllegalArgumentException` for `size <= -2`. The callers
  here pass `args.length` or `col.size()`, so they never see that failure.

## Model

| member | source | states |
|---|---|---|
| `KryoIdGenerator.NextId` | src/main/groovy/io/xh/hoist/kryo/KryoIdGenerator.java:42-44 | the value model of `idFor`: a known class keeps its cached id, a new class gets counter + 1; either way the id returned is the one the cache holds for the class afterwards |
| `KryoIdGenerator.NextIdSpec` | src/main/groovy/io/xh/hoist/kryo/KryoIdGenerator.java:42-44 | the id returned is the one recorded for the class; a known class gets its cached id and nothing changes; a new class gets counter + 1, which is recorded, and the counter advances by exactly one; ids already issued never change |
| `KryoIdGenerator.NextIdKeepsWellFormed` | src/main/groovy/io/xh/hoist/kryo/KryoIdGenerator.java:39-44 | `idFor` preserves the sequence invariant (ids unique, all in (6000, counter], one counter step per known class), and every id it returns is above 6000 |
| `KryoIdGenerator.IdsFor` | src/main/groovy/io/xh/hoist/kryo/KryoIdGenerator.java:42-44 | a run of `idFor` calls on one sequence, one per class in order, returns one id per call and the final sequence |
| `KryoIdGenerator.IdsForKeeps` | src/main/groovy/io/xh/hoist/kryo/KryoIdGenerator.java:39-43 | any run of `idFor` calls keeps every id already cached and keeps the sequence invariant |
| `KryoIdGenerator.IdsForRecorded` | src/main/groovy/io/xh/hoist/kryo/KryoIdGenerator.java:39-43 | every id returned in a run of `idFor` calls is the id the final cache holds for that class |
| `KryoIdGenerator.IdsStableAndUnique` | src/main/groovy/io/xh/hoist/kryo/KryoIdGenerator.java:39-44 | within one sequence, two `idFor` calls return the same id if and only if they ask about the same class, and every id is above 6000 |
| `KryoIdGenerator.FreshSequenceFirstId` | src/main/groovy/io/xh/hoist/kryo/KryoIdGenerator.java:40-43 | the first id a fresh sequence hands out is 6001 |
| `KryoIdGenerator.GetOrCreate` | src/main/groovy/io/xh/hoist/kryo/KryoIdGenerator.java:28-36 | afterwards the handle has a sequence; an existing sequence is never replaced; otherwise a fresh one is installed; no other handle's entry changes |
| `KryoIdGenerator.GlobalIdOf` | src/main/groovy/io/xh/hoist/kryo/KryoIdGenerator.java:19-22 | afterwards the handle is registered and its sequence records the returned id for `classOf(h)`; the other handles' sequences are untouched |
| `KryoIdGenerator.Destroyed` | src/main/groovy/io/xh/hoist/kryo/KryoIdGenerator.java:24-26 | `instanceDestroyed(h)` removes exactly `h`'s entry and keeps every other entry |
| `KryoIdGenerator.GlobalIdRepeatable` | src/main/groovy/io/xh/hoist/kryo/KryoIdGenerator.java:19-21 | a second `globalId(h)` right after the first returns the same id and leaves the registry unchanged |
| `KryoIdGenerator.DestroyedRestartsFresh` | src/main/groovy/io/xh/hoist/kryo/KryoIdGenerator.java:24-36 | after `instanceDestroyed(h)`, `globalId(h)` behaves as on a brand-new handle: it returns 6001 and leaves `h` with the sequence {classOf(h) ↦ 6001}, counter 6001; other handles keep their sequences |
| `KryoIdGenerator.DedicatedToIffWellFormed` | src/main/groovy/io/xh/hoist/kryo/KryoIdGenerator.java:38-44 | a sequence is fresh or holds exactly {c ↦ 6001} with counter 6001 if and only if it satisfies the sequence invariant and knows no class other than `c` |
| `KryoIdGenerator.DedicatedNextId` | src/main/groovy/io/xh/hoist/kryo/KryoIdGenerator.java:40-43 | a sequence that has only been asked about one class answers 6001 for it and still knows only that class |
| `KryoIdGenerator.GlobalIdIsFirstId` | src/main/groovy/io/xh/hoist/kryo/KryoIdGenerator.java:15-44 | while every sequence has only been asked about its own handle's class, `globalId` returns `BASE_ID + 1` and keeps that so |
| `KryoIdGenerator.DestroyedKeepsDedicated` | src/main/groovy/io/xh/hoist/kryo/KryoIdGenerator.java:24-26 | removing a handle keeps every remaining sequence valid and dedicated to its handle's class |
| `KryoIdGenerator.Replay` | src/main/groovy/io/xh/hoist/kryo/KryoIdGenerator.java:19-26 | a run of `globalId` and `instanceDestroyed` calls in order on the registry; it returns the final registry and exactly one id per `globalId` call (`GlobalIdCount`) |
| `KryoIdGenerator.ReplayAlwaysFirstId` | src/main/groovy/io/xh/hoist/kryo/KryoIdGenerator.java:19-26 | over any interleaving of `globalId` and `instanceDestroyed` calls, every `globalId` returns 6001, so repeated calls for a handle agree |
| `KryoIdGenerator.IdSequence.constructor` | src/main/groovy/io/xh/hoist/kryo/KryoIdGenerator.java:38-41 | a new sequence knows no class and its counter is 6000 |
| `KryoIdGenerator.IdSequence.IdFor` | src/main/groovy/io/xh/hoist/kryo/KryoIdGenerator.java:42-44 | the in-place update of `knownTypes` and `counter`, and the id returned, are those of `NextId` |
| `KryoIdGenerator.Generator.constructor` | src/main/groovy/io/xh/hoist/kryo/KryoIdGenerator.java:17 | the registry starts empty |
| `KryoIdGenerator.Generator.GetOrCreateSequence` | src/main/groovy/io/xh/hoist/kryo/KryoIdGenerator.java:28-36 | returns the handle's sequence object; an existing one is returned and the map is untouched; otherwise a fresh object is installed for that handle only; the registry value follows `GetOrCreate` |
| `KryoIdGenerator.Generator.GlobalId` | src/main/groovy/io/xh/hoist/kryo/KryoIdGenerator.java:19-22 | the new registry value and the id follow `GlobalIdOf`; the id is always 6001; no two handles come to share a sequence |
| `KryoIdGenerator.Generator.InstanceDestroyed` | src/main/groovy/io/xh/hoist/kryo/KryoIdGenerator.java:24-26 | the registry value afterwards is the old one without the handle |
| `CollectionUtils.SizedHashMap` | src/main/groovy/io/xh/hoist/util/CollectionUtils.java:17-19 | returns an empty map for every size of -1 or more; below that the HashMap constructor throws `IllegalArgumentException` |
| `CollectionUtils.PairsMap` | src/main/groovy/io/xh/hoist/util/CollectionUtils.java:24-30 | the map that `quickMap`'s `put` loop builds from an even-length list: pairs (args[0], args[1]), (args[2], args[3]), ... put in order; the last pair is always in it |
| `CollectionUtils.PairsMapKeys` | src/main/groovy/io/xh/hoist/util/CollectionUtils.java:24-30 | the key set of `quickMap(args)` is exactly the set of elements at even indices, so an empty list gives an empty map |
| `CollectionUtils.PairsMapLastWins` | src/main/groovy/io/xh/hoist/util/CollectionUtils.java:24-30 | the value for a key is the value of the last pair with that key; later pairs overwrite earlier ones |
| `CollectionUtils.QuickMap` | src/main/groovy/io/xh/hoist/util/CollectionUtils.java:24-30 | on an even-length list, returns the map of `PairsMap`; on an odd-length list, throws an index-out-of-bounds error at index `args.length` |
| `CollectionUtils.EntriesMap` | src/main/groovy/io/xh/hoist/util/CollectionUtils.java:35-42 | the map that `collectEntries`'s `put` loop builds: mapper(x) for each element in iteration order; the last element's entry is always in it |
| `CollectionUtils.EntriesMapKeys` | src/main/groovy/io/xh/hoist/util/CollectionUtils.java:35-42 | the keys of `collectEntries` are exactly the mapper's output keys, and there are at most `col.size()` of them |
| `CollectionUtils.EntriesMapLastWins` | src/main/groovy/io/xh/hoist/util/CollectionUtils.java:35-42 | the value for a key is the value of the last entry with that key |
| `CollectionUtils.CollectEntries` | src/main/groovy/io/xh/hoist/util/CollectionUtils.java:35-42 | the loop of `put` calls builds exactly `EntriesMap(col, mapper)` |
| `CollectionUtils.Collect` | src/main/groovy/io/xh/hoist/util/CollectionUtils.java:47-53 | the result has the input's length, and element i is `mapper(col[i])` |
| `JsonFormatCached.GetCached` | src/main/groovy/io/xh/hoist/json/JSONFormatCached.java:28-33 | a filled cache answers from itself and does not change; an empty cache passes on the fresh serialization, whether a string or an exception; the cache is filled exactly when the call returns a string, and then holds that string |
| `JsonFormatCached.Calls` | src/main/groovy/io/xh/hoist/json/JSONFormatCached.java:28-33 | a run of `getCachedJSON` calls, where the object's state (and so its fresh serialization) may differ at each call; returns the final cache and one outcome per call |
| `JsonFormatCached.FilledCacheIsFinal` | src/main/groovy/io/xh/hoist/json/JSONFormatCached.java:29-32 | once the cache is filled, any run of later calls returns the stored string and never changes the cache, whatever the object's state becomes |
| `JsonFormatCached.CallsAgree` | src/main/groovy/io/xh/hoist/json/JSONFormatCached.java:28-33 | in any run of calls, every call after a successful one returns that same string, even if the formatted content would now differ |
| `JsonFormatCached.JSONFormatCached.constructor` | src/main/groovy/io/xh/hoist/json/JSONFormatCached.java:22-24 | a new object has an empty cache and has not yet called `formatForJSON` |
| `JsonFormatCached.JSONFormatCached.GetCachedJSON` | src/main/groovy/io/xh/hoist/json/JSONFormatCached.java:28-33 | the new cache and the result follow `GetCached` applied to the serialization of the object's current state; `formatForJSON` runs once if the cache was empty and not at all otherwise; if `serialize` throws, the cache stays empty |

## Left out

- `KryoSerializer` is not part of this model. Its `write`/`read` delegate to Kryo's `writeClassAndObject`/`readClassAndObject` over chunked streams. It also holds a per-thread `KryoContext` and a class resolver that calls `ClassLoaderUtil.loadClass`. Its own logic, `typeId = globalId(hz)` and `destroy → instanceDestroyed(hz)`, is what `Generator.GlobalId` and `Generator.InstanceDestroyed` model.
- Concurrency is not modelled. The model covers sequential calls only. `ConcurrentHashMap.putIfAbsent` never loses a race here, so the branch where `getOrCreateSequence` returns another thread's sequence (KryoIdGenerator.java:35) never runs. The atomicity of `computeIfAbsent` and `incrementAndGet` cannot be stated in a sequential model.
- KryoIdGenerator.IdSequence.IdFor: the counter is an unbounded integer. The 32-bit wrap-around of the `AtomicInteger` after about 2^31 new classes in one sequence is not modelled.
- Handles are never null. A null `hz` would make `counterMap.get` and `counterMap.remove` throw `NullPointerException` (KryoIdGenerator.java:25,29), for example when `KryoSerializer.destroy()` runs before `setHazelcastInstance`; the model has no null handle.
- Handles are compared with value equality. The `equals`/`hashCode` of `HazelcastInstance` is outside the model.
- CollectionUtils.SizedHashMap: the model gives the capacity formula's sign only, which decides whether the HashMap constructor throws. The capacity value is double arithmetic and cannot be seen in the map's contents.
- CollectionUtils.CollectEntries: mappers are total, pure functions. An exception thrown by a mapper, a `null` entry (a `NullPointerException`) and a mapper with side effects are not modelled. The same holds for `CollectionUtils.Collect`.
- The unchecked casts `(K) args[i]` and `(V) args[i + 1]` in `quickMap` are not modelled. Keys and values share one element type.
- `JSONSerializer`, `JSONParser`, the Jackson serializers under `json/serializer/`, `JSONFormat` and `RoutineException` are not part of this model. They are thin adapters over Jackson or interfaces with no behaviour. Serialization is the constant function field `serialize` of a cached object.
- JsonFormatCached.JSONFormatCached.GetCachedJSON: `formatForJSON` is a total function, so an unchecked exception thrown by the subclass's hook is not modelled. The cache would behave as when `serialize` throws: it stays empty and the exception reaches the caller.
- JsonFormatCached.JSONFormatCached.GetCachedJSON: side effects of `formatForJSON` itself are not modelled. The ghost counter `formatCalls` only records whether it ran.
