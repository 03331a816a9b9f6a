# Codec registry and token ranges of the Cassandra Java driver, in Dafny

This project models three pieces of the driver's data-marshalling layer and
proves properties of the model.

- **Codec registry resolution** (`CodecRegistry`). A registry is an immutable,
  ordered list of codecs. A lookup by `(CQL type, Java type)` returns the first
  codec that accepts the key. Either half may be "ANY" (null), but not both. A
  memoising cache sits in front of that scan. A lookup by value is a separate,
  uncached scan. The builder appends codec groups, and `build()` reverses the
  list, so codecs added later take precedence. The default list and the group
  `withCustomType` adds have a fixed layout. The registry logic (module
  `Registry`) is generic over what a codec accepts. Module `Codecs` instantiates
  it with a small closed set of codec descriptors over CQL types and Java types
  (module `CqlTypes`).
- **Collection size limits** (module `CollectionLimits`). A collection with more
  than 65535 elements is rejected when it is serialised. So is one whose element
  serialises to more than 65535 bytes. The check runs over an abstract sequence
  of element byte lengths.
- **Token-range ring arithmetic** (module `TokenRanges`). A range `(start, end]`
  is walked clockwise on a ring of integer tokens, with `intersects` and
  `mergeWith`. `TokenRange.java` is not part of this model. The behaviour is the
  one `TokenRangeTest` pins down.

The modules `TypeCodecTests` and `TokenRangeTests` state the assertions of the
driver's `TypeCodecTest` (lines 43-91) and `TokenRangeTest` as lemmas about the
model.

Modelling choices:

- Exceptions become values. A `checkNotNull` failure is `NullArgument`. A
  `checkArgument` failure is `IllegalArgument`. A missing codec is
  `CodecNotFound(cql, java)`, where `AnyType` stands for a null half.
- The cache is a `map` from key to codec. It only ever receives successful scan
  results. Each `codecFor` call returns the answer together with the registry and
  its updated cache.
- A codec's CQL acceptance is structural. A collection codec accepts a
  collection of the same kind whose element types its element codecs accept. A
  custom codec accepts exactly its own type.
- Java acceptance compares a codec's host type for equality.
- The `TypeCodecTest` lemmas are stated for every builder state before
  `withCustomType(t)` and every custom type `t`. Where the test relies on the
  defaults, the builder state must end with the default list. For `map(t, t)`,
  nothing added before the defaults may accept that type either. The test's registry,
  `builder().withDefaultCodecs().withCustomType(CUSTOM_FOO)`, is the instance
  with nothing before the defaults (`TypeCodecTests.TestRegistryIsAnInstance`),
  and one lemma per test method states the test's assertion about that registry.
  Proving the general statements avoids evaluating the concrete 339-entry list.
- The default list has 16 + 16 × (2 + 16) = 304 entries. That is what the static
  initializer builds. The javadoc of `withDefaultCodecs` says "238", and the
  model follows the code.
- A range with `start == end` is commonly read as the whole ring, and every range
  as intersecting itself. The tests say otherwise:
  `(3,3)` intersects nothing, not even `(3,3)`, while merging two complementary
  ranges returns `(start, start)` as the whole ring. The model follows the tests
  and keeps the two readings apart. `InArc` holds no token for such a range and
  is what `Intersects` uses. `Contains` treats it as the whole ring and is what
  the merge result is read with.

## Model

| member | source | states |
|---|---|---|
| `Registry.KeyEqualsIsEquality` | driver-core/src/main/java/com/datastax/driver/core/CodecRegistry.java:195-205 | `Key.equals` (`Registry.KeyEquals`) holds exactly when both halves are equal, a null half matching only a null half; it is reflexive and symmetric, so the cache can be keyed by value |
| `Registry.Lookup` | driver-core/src/main/java/com/datastax/driver/core/CodecRegistry.java:333-344 | on success the codec sits at a position that accepts the key and no earlier codec accepts it; on failure no codec accepts the key and the error is CodecNotFound naming both halves, ANY for a null one |
| `Registry.LookupCodec` | driver-core/src/main/java/com/datastax/driver/core/CodecRegistry.java:333-344 | the early-return loop of `lookupCodec` returns the same answer as the first-match scan |
| `Registry.LookupFindsFirstAccepting` | driver-core/src/main/java/com/datastax/driver/core/CodecRegistry.java:333-338 | whenever position `i` is the first accepting one, the lookup returns exactly the codec at `i`; no later, better match is ever preferred |
| `Registry.LookupSucceedsWhenSomeCodecAccepts` | driver-core/src/main/java/com/datastax/driver/core/CodecRegistry.java:333-338 | if any codec accepts the key, the lookup succeeds with a codec that accepts it |
| `Registry.CodecFor` | driver-core/src/main/java/com/datastax/driver/core/CodecRegistry.java:297-305 | both halves null gives IllegalArgument before any lookup and leaves the registry alone; otherwise, with a coherent cache, the answer is the uncached lookup; coherence is preserved; a success is cached under its key, a failure leaves the cache unchanged, and the codec list never changes |
| `Registry.CodecForCqlType` | driver-core/src/main/java/com/datastax/driver/core/CodecRegistry.java:241-244 | a null CQL type gives NullArgument; otherwise the answer is the lookup with the Java type ANY, and coherence is preserved |
| `Registry.CodecForClass` | driver-core/src/main/java/com/datastax/driver/core/CodecRegistry.java:269-271 | the answer is the lookup of the CQL type with the given class, and coherence is preserved |
| `Registry.CodecForValue` | driver-core/src/main/java/com/datastax/driver/core/CodecRegistry.java:321-331 | a null value gives NullArgument; on success the codec is the first that accepts the value; on failure none accepts it and the error names no CQL type and the value's class |
| `Registry.CodecForValueIgnoresCache` | driver-core/src/main/java/com/datastax/driver/core/CodecRegistry.java:321-331 | the by-value lookup gives the same answer whatever the cache holds |
| `Registry.RepeatedLookupsAgree` | driver-core/src/main/java/com/datastax/driver/core/CodecRegistry.java:219-229 | with a coherent cache, a second `codecFor` with an equal key returns the first call's answer and changes nothing |
| `Registry.Build` | driver-core/src/main/java/com/datastax/driver/core/CodecRegistry.java:168-172 | the lookup list has the builder's length, position `i` holds the codec appended at position `n - 1 - i`, and the cache starts empty |
| `Registry.NewBuilderIsEmpty` | driver-core/src/main/java/com/datastax/driver/core/CodecRegistry.java:180-182 | `builder()` (`Registry.NewBuilder`) starts with nothing added, so a registry built from it at once fails every lookup with CodecNotFound |
| `Registry.WithCodecsAppends` | driver-core/src/main/java/com/datastax/driver/core/CodecRegistry.java:144-149 | `withCodecs` (`Registry.WithCodecs`) keeps everything added before and appends its arguments in order; two calls add exactly what one call with both argument lists adds |
| `Registry.BuildIsCoherent` | driver-core/src/main/java/com/datastax/driver/core/CodecRegistry.java:219-229 | a freshly built registry satisfies the cache invariant |
| `Registry.LaterAddedCodecWins` | driver-core/src/main/java/com/datastax/driver/core/CodecRegistry.java:168-172 | in a built registry a key resolves exactly when some added codec accepts it, and then to the codec added last among those that accept it |
| `Registry.LastWithCodecsOverrides` | driver-core/src/main/java/com/datastax/driver/core/CodecRegistry.java:136-149 | a codec appended by `withCodecs` after everything else wins every key it accepts |
| `CqlTypes.PrimitivesAreDistinct` | driver-core/src/main/java/com/datastax/driver/core/CodecRegistry.java:73-90 | the native codec list has sixteen pairwise distinct entries covering every native type |
| `CqlTypes.PrimitiveIndex` | driver-core/src/main/java/com/datastax/driver/core/CodecRegistry.java:73-90 | every native type has a position in the native codec list that holds it |
| `Codecs.AcceptsExactlyItsCqlType` | driver-core/src/test/java/com/datastax/driver/core/TypeCodecAssert.java:51-54 | `accepts(cqlType)` (`Codecs.AcceptsCql`) holds exactly when the type is the one the codec is built for |
| `Codecs.AcceptsItsOwnTypes` | driver-core/src/test/java/com/datastax/driver/core/TypeCodecAssert.java:32-43 | `accepts(cqlType, javaType)` holds exactly when both halves are the codec's own CQL and Java types, and `accepts(javaType)` (`Codecs.AcceptsJava`) exactly when the Java type is its own |
| `Codecs.CollectionGroupsAt` | driver-core/src/main/java/com/datastax/driver/core/CodecRegistry.java:110-116 | the loop over native types emits eighteen codecs per type: entry `18 i + k` is entry `k` of type `i`'s group |
| `Codecs.DefaultCodecsLayout` | driver-core/src/main/java/com/datastax/driver/core/CodecRegistry.java:107-118 | the default list `DEFAULT_CODECS` (`Codecs.DefaultCodecs`) has 304 entries: the 16 native codecs in order, then for each native `p` in order `list(p)`, `set(p)` and `map(p, q)` for every native `q` in order |
| `Codecs.DefaultEntryAcceptsList` | driver-core/src/main/java/com/datastax/driver/core/CodecRegistry.java:110-112 | in the default list, `list(p)` is accepted at exactly one position, `16 + 18 × index(p)` |
| `Codecs.DefaultListEntry` | driver-core/src/main/java/com/datastax/driver/core/CodecRegistry.java:110-112 | the entry of the default list at `16 + 18 × index(p)` is the list codec over the native codec of `p` |
| `Codecs.DefaultEntryIsString` | driver-core/src/main/java/com/datastax/driver/core/CodecRegistry.java:83-85 | the only default codecs producing `String` are text, varchar and ascii, at positions 9 to 11 |
| `Codecs.CustomMapsAt` | driver-core/src/main/java/com/datastax/driver/core/CodecRegistry.java:162-165 | for each native `p` in order, `map(p, custom)` is followed by `map(custom, p)` |
| `Codecs.CustomGroupLayout` | driver-core/src/main/java/com/datastax/driver/core/CodecRegistry.java:157-167 | `withCustomType(t)` adds 35 codecs: the custom codec, `list(t)`, `set(t)`, then the 32 maps; none of them is `map(t, t)` |
| `Codecs.WithCustomTypeAppends` | driver-core/src/main/java/com/datastax/driver/core/CodecRegistry.java:157-167 | `withCustomType` (`Codecs.WithCustomType`) keeps everything added before unchanged and appends exactly the 35 codecs of the group |
| `Codecs.WithDefaultCodecsEndsWithDefaults` | driver-core/src/main/java/com/datastax/driver/core/CodecRegistry.java:131-134 | `withDefaultCodecs` (`Codecs.WithDefaultCodecs`) keeps everything added before unchanged and appends the 304 entries of the default list after it |
| `Codecs.BuiltCustomAt` | driver-core/src/main/java/com/datastax/driver/core/CodecRegistry.java:168-172 | in a registry built right after `withCustomType(t)`, lookup positions 0 to 34 run through the group backwards |
| `Codecs.BuiltBeforeCustomAt` | driver-core/src/main/java/com/datastax/driver/core/CodecRegistry.java:168-172 | behind the custom group, lookup continues with the codecs added before it, newest first |
| `Codecs.BuiltDefaultsThenCustomAt` | driver-core/src/main/java/com/datastax/driver/core/CodecRegistry.java:168-172 | with the defaults added just before a custom type, lookup positions 35 to 338 run through the default list backwards |
| `Codecs.BuiltDefaultsAt` | driver-core/src/main/java/com/datastax/driver/core/CodecRegistry.java:131-133 | a registry built right after `withDefaultCodecs()` searches the default list last entry first |
| `Codecs.DefaultInstanceInDeclaredOrder` | driver-core/src/main/java/com/datastax/driver/core/CodecRegistry.java:120 | `DEFAULT_INSTANCE` (`Codecs.DefaultInstance`) searches the default list in declared order, unreversed, from an empty cache |
| `Codecs.DeclaredOrderResolvesStringToText` | driver-core/src/main/java/com/datastax/driver/core/CodecRegistry.java:120 | searching the defaults in declared order, `codecFor(null, String)` returns the text codec |
| `Codecs.DefaultInstanceResolvesStringToText` | driver-core/src/main/java/com/datastax/driver/core/CodecRegistry.java:120 | `DEFAULT_INSTANCE.codecFor(null, String)` returns the text codec, the first `String` codec of the declared list |
| `Codecs.BuiltDefaultsResolveStringToAscii` | driver-core/src/main/java/com/datastax/driver/core/CodecRegistry.java:131-133 | in `builder().withDefaultCodecs().build()`, the same call returns the ascii codec, so the two default registries disagree |
| `CollectionLimits.CheckCollectionSize` | driver-core/src/test/java/com/datastax/driver/core/TypeCodecTest.java:77-91 | a collection passes exactly when it has at most 65535 elements, each of at most 65535 bytes; too many elements is reported with the count; otherwise the first oversized element is reported with its index and size |
| `TypeCodecTests.ResolveByCqlType` | driver-core/src/main/java/com/datastax/driver/core/CodecRegistry.java:241-244 | in a freshly built registry, `codecFor(cqlType)` returns the codec at the first position that accepts the type |
| `TypeCodecTests.TestRegistryIsAnInstance` | driver-core/src/test/java/com/datastax/driver/core/TypeCodecTest.java:43-47 | the test's registry has nothing before the defaults, and `CUSTOM_FOO` is a custom type |
| `TypeCodecTests.CustomListResolves` | driver-core/src/test/java/com/datastax/driver/core/TypeCodecTest.java:49-54 | after `withCustomType(t)`, `list(t)` resolves to the list codec over the custom codec, which accepts `list(t)` |
| `TypeCodecTests.CustomSetResolves` | driver-core/src/test/java/com/datastax/driver/core/TypeCodecTest.java:56-61 | `set(t)` resolves to the set codec over the custom codec, which accepts `set(t)` |
| `TypeCodecTests.CustomKeyMapResolves` | driver-core/src/test/java/com/datastax/driver/core/TypeCodecTest.java:63-68 | for a custom `t`, `map(t, text)` resolves to the map codec from the custom codec to text, which accepts it |
| `TypeCodecTests.CustomValueMapResolves` | driver-core/src/test/java/com/datastax/driver/core/TypeCodecTest.java:70-75 | for a custom `t`, `map(text, t)` resolves to the map codec from text to the custom codec, which accepts it |
| `TypeCodecTests.CustomGroupRejectsNativeList` | driver-core/src/main/java/com/datastax/driver/core/CodecRegistry.java:157-167 | no codec of a custom type's group accepts `list(p)` for a native `p` |
| `TypeCodecTests.NoEarlierNativeList` | driver-core/src/test/java/com/datastax/driver/core/TypeCodecTest.java:79-81 | no codec searched before the default `list(p)` accepts `list(p)`: not the custom group, and no other default |
| `TypeCodecTests.DefaultsAcceptNativeListOnce` | driver-core/src/main/java/com/datastax/driver/core/CodecRegistry.java:107-118 | behind a custom group, the defaults accept `list(p)` at exactly one lookup position, `322 - 18 × index(p)` |
| `TypeCodecTests.NativeListResolves` | driver-core/src/test/java/com/datastax/driver/core/TypeCodecTest.java:79-81 | behind a custom group and the defaults, `list(p)` for a native `p` resolves to the default list codec over `p`, which accepts it |
| `TypeCodecTests.CollectionTooLarge` | driver-core/src/test/java/com/datastax/driver/core/TypeCodecTest.java:77-83 | `list<int>` resolves to the default list codec, and 65536 four-byte integers are rejected for their count |
| `TypeCodecTests.CollectionElementTooLarge` | driver-core/src/test/java/com/datastax/driver/core/TypeCodecTest.java:85-91 | `list<text>` resolves to the default list codec, and one element of 65536 bytes is rejected at index 0 with its size |
| `TypeCodecTests.CustomToCustomMapNotFound` | driver-core/src/main/java/com/datastax/driver/core/CodecRegistry.java:157-167 | when nothing added before the defaults accepts it, `map(t, t)` for a custom `t` is not found, and the error names the type with the Java half ANY |
| `TypeCodecTests.TestCustomList` | driver-core/src/test/java/com/datastax/driver/core/TypeCodecTest.java:49-54 | the test's own registry resolves `list(CUSTOM_FOO)` to the list codec over the custom codec, which accepts it |
| `TypeCodecTests.TestCustomSet` | driver-core/src/test/java/com/datastax/driver/core/TypeCodecTest.java:56-61 | the test's own registry resolves `set(CUSTOM_FOO)` to the set codec over the custom codec, which accepts it |
| `TypeCodecTests.TestCustomKeyMap` | driver-core/src/test/java/com/datastax/driver/core/TypeCodecTest.java:63-68 | the test's own registry resolves `map(CUSTOM_FOO, text)` to the map codec from the custom codec to text, which accepts it |
| `TypeCodecTests.TestCustomValueMap` | driver-core/src/test/java/com/datastax/driver/core/TypeCodecTest.java:70-75 | the test's own registry resolves `map(text, CUSTOM_FOO)` to the map codec from text to the custom codec, which accepts it |
| `TypeCodecTests.TestCollectionTooLarge` | driver-core/src/test/java/com/datastax/driver/core/TypeCodecTest.java:77-83 | the test's own registry resolves `list<int>` to the default list codec, and 65536 integers are rejected for their count |
| `TypeCodecTests.TestCollectionElementTooLarge` | driver-core/src/test/java/com/datastax/driver/core/TypeCodecTest.java:85-91 | the test's own registry resolves `list<text>` to the default list codec, and one 65536-byte string is rejected at index 0 with its size |
| `TokenRanges.SameArcSameRange` | driver-core/src/test/java/com/datastax/driver/core/TokenRangeTest.java:48-79 | two non-degenerate ranges holding the same tokens are equal, which is what makes the merge results below unique |
| `TokenRanges.Intersects` | driver-core/src/test/java/com/datastax/driver/core/TokenRangeTest.java:14-45 | two ranges intersect exactly when some token lies on both arcs, so ranges that only touch at an endpoint, and degenerate ranges, intersect nothing |
| `TokenRanges.IntersectsIsSymmetric` | driver-core/src/test/java/com/datastax/driver/core/TokenRangeTest.java:16-43 | `a.intersects(b)` equals `b.intersects(a)` |
| `TokenRanges.IntersectsItself` | driver-core/src/test/java/com/datastax/driver/core/TokenRangeTest.java:44 | a range intersects itself exactly when its start differs from its end |
| `TokenRanges.MergeWith` | driver-core/src/test/java/com/datastax/driver/core/TokenRangeTest.java:48-79 | for overlapping or touching ranges, the result starts at one of the two starts and ends at one of the two ends; it holds exactly the tokens of the union (a degenerate result is the whole ring); and a degenerate result is `(a.start, a.start)` |
| `TokenRanges.MergeIsWholeRingIffUnionIs` | driver-core/src/test/java/com/datastax/driver/core/TokenRangeTest.java:62 | the merge is `(s, s)` exactly when the two ranges together cover every token |
| `TokenRanges.MergeContainedIsReceiver` | driver-core/src/test/java/com/datastax/driver/core/TokenRangeTest.java:54-55 | merging any range covered by the receiver returns the receiver unchanged |
| `TokenRanges.Complement` | driver-core/src/test/java/com/datastax/driver/core/TokenRangeTest.java:62 | the range `(end, start)` holds exactly the tokens the range does not |
| `TokenRanges.MergeWithComplement` | driver-core/src/test/java/com/datastax/driver/core/TokenRangeTest.java:62 | a range and its complement are mergeable, and merge into `(receiver.start, receiver.start)` |
| `TokenRanges.MergeIsSymmetric` | driver-core/src/test/java/com/datastax/driver/core/TokenRangeTest.java:62-78 | both merge orders hold the same tokens, and they are the same range unless the union is the whole ring |
| `TokenRangeTests.NonWrappedIntersections` | driver-core/src/test/java/com/datastax/driver/core/TokenRangeTest.java:16-29 | (3,9) misses (11,1), (1,2), (11,3), (2,3), (9,10) and (10,11), and hits (2,6), (2,10), (6,10), (4,8) and (3,9) |
| `TokenRangeTests.WrappedIntersections` | driver-core/src/test/java/com/datastax/driver/core/TokenRangeTest.java:30-43 | (9,3) misses (5,7), (7,8), (5,9), (8,9), (3,4) and (4,5), and hits (8,2), (8,4), (2,4), (10,2) and (9,3) |
| `TokenRangeTests.DegenerateIntersectsNothing` | driver-core/src/test/java/com/datastax/driver/core/TokenRangeTest.java:44 | (3,3) and (9,9) intersect neither (3,9), (9,3) nor (3,3) |
| `TokenRangeTests.MergeExtendsStart` | driver-core/src/test/java/com/datastax/driver/core/TokenRangeTest.java:49-68 | merging a range over the receiver's start moves the start and keeps the end, e.g. (3,9)+(11,4) = (11,9) and (9,3)+(4,10) = (4,3) |
| `TokenRangeTests.MergeContainedReturnsReceiver` | driver-core/src/test/java/com/datastax/driver/core/TokenRangeTest.java:54-71 | (3,9)+(4,8), (3,9)+(3,9), (9,3)+(10,2) and (9,3)+(9,3) return the receiver |
| `TokenRangeTests.MergeExtendsEnd` | driver-core/src/test/java/com/datastax/driver/core/TokenRangeTest.java:57-76 | merging a range over the receiver's end keeps the start and moves the end, e.g. (3,9)+(8,1) = (3,1) and (9,3)+(2,7) = (9,7) |
| `TokenRangeTests.MergeComplementaryRanges` | driver-core/src/test/java/com/datastax/driver/core/TokenRangeTest.java:62-78 | (3,9)+(9,3) = (3,3) but (9,3)+(3,9) = (9,9): the whole ring is written from the receiver's start |

## Left out

- Byte encodings. The encoding of each codec is not part of this model, and neither are the conversions of floating-point, decimal, date and address values. A codec is a descriptor of its CQL type and Java type.
- Java type assignability. `TypeToken` reflection is not modelled, and Java acceptance is equality of host types. Covariant matches, where a subclass's codec answers for a superclass, do not arise.
- Guava `LoadingCache`. Its concurrency and its initial capacity of 400 are not modelled. The cache is a plain map. `Key.hashCode` is left out as well, because the map is keyed by value.
- Registry.Build: `withCodecs` accepts a null codec, and `ImmutableList.copyOf` then throws a `NullPointerException` in `build()`. A codec here is a descriptor and is never null, so `Build` always succeeds and that exception is not modelled.
- Registry.WithCodecs: the Java builder holds one mutable list that each `with…` call appends to in place before returning the same builder. Here a builder is an immutable value, and `WithCodecs` returns a new one, leaving its argument unchanged. The two agree on every fluent chain, since `build()` copies the list. They differ when a builder is reused after a call whose result is discarded, and that aliasing is not modelled.
- Registry.CodecForClass: `TypeToken.of(null)` throws before the registry is reached. The model takes the class as always present and does not model that exception.
- Text and varchar: their codecs are distinct descriptors accepting distinct native types. Whether the driver's `DataType` treats the two names as aliases is not part of this model.
- CollectionLimits.CheckCollectionSize: the collection codecs are not part of this model. Checking the element count before any element size is a modelling choice. Element sizes are abstract byte counts: four per `int`, and one per character for the ASCII test string.
- TokenRanges.MergeWith: requires the two ranges to overlap or touch, and neither to be degenerate. Merging ranges separated by a gap on both sides is not modelled, because no assertion of `TokenRangeTest` fixes its result (the whole ring is one plausible answer). Merging a degenerate range is not exercised either.
- Token factories and hashing. Murmur3 and the other partitioners are left out, and tokens are plain integers. Any treatment of a minimum token in the driver's `Token` and `TokenRange` classes, which are not part of this model, is left out too: the integer ring has no minimum.
- The JSON codec and the list-of-lists codec of `TypeCodecTest` (lines 93-223). They depend on Jackson and on string splitting.
- `AbstractGettableData`. It is accessor glue over column definitions and the registry. Besides null defaulting, its `getList`, `getSet` and `getMap` throw `InvalidTypeException` in two cases: when the column is not of the requested collection kind, and when the requested element class cannot be assigned from the raw Java type of the codec the registry resolves for the element type. Both checks rest on `DataType` and `ColumnDefinitions`, which are not part of this model, and on Java class assignability, which is not modelled.
- `MapperSelectFunctionsTest`. These are integration tests against a live cluster.
- The `TypeCodecTest` lemmas are proved for every builder state before `withCustomType` (ending with the default list where the test relies on it), not by evaluating the concrete 339-entry list. Each test method also has a lemma about the test's own registry (`TypeCodecTests.TestCustomList` and its siblings), obtained from the general lemma through `TypeCodecTests.TestRegistryIsAnInstance`.
