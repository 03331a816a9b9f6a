/**
 * The registry-level behaviour `TypeCodecTest` exercises. The test builds its
 * registry with the default codecs followed by the group of one custom type;
 * the lemmas here hold for every builder state before `withCustomType(t)` and
 * every type `t`, the test's registry being one instance.
 */
module TypeCodecTests {
  import opened Results
  import opened CqlTypes
  import opened Codecs
  import opened CollectionLimits
  import Registry

  /** The custom type the test registers. */
  const CustomFoo: DataType := Custom("com.example.FooBar")

  /** Resolving by CQL type alone in a freshly built registry is the uncached first-match scan. */
  lemma ResolveByCqlType(b: Registry.Builder<Codec>, t: DataType, i: nat)
    requires Registry.FirstAccepting(BuildRegistry(b).codecs, CodecAcceptance, Registry.Key(Some(t), None), i)
    ensures Registry.CodecForCqlType(BuildRegistry(b), CodecAcceptance, Some(t)).0 == Success(BuildRegistry(b).codecs[i])
  {
    Registry.BuildIsCoherent<Codec, DataType, JavaType>(b, CodecAcceptance);
    Registry.LookupFindsFirstAccepting(BuildRegistry(b).codecs, CodecAcceptance, Registry.Key(Some(t), None), i);
  }

  /** `list(t)` resolves to the list codec over the custom codec of `t`, which accepts `list(t)`. */
  lemma CustomListResolves(b: Registry.Builder<Codec>, t: DataType)
    ensures var r := Registry.CodecForCqlType(BuildRegistry(WithCustomType(b, t)), CodecAcceptance, Some(List(t))).0;
            && r == Success(ListCodec(CustomCodec(t)))
            && AcceptsCql(r.value, List(t))
  {
    var b' := WithCustomType(b, t);
    var key := Registry.Key(Some(List(t)), None);
    forall j | 0 <= j < 33
      ensures !CodecAcceptance.Accepts(BuildRegistry(b').codecs[j], key)
    {
      BuiltCustomAt(b, t, j);
    }
    BuiltCustomAt(b, t, 33);
    ResolveByCqlType(b', List(t), 33);
  }

  /** `set(t)` resolves to the set codec over the custom codec of `t`, which accepts `set(t)`. */
  lemma CustomSetResolves(b: Registry.Builder<Codec>, t: DataType)
    ensures var r := Registry.CodecForCqlType(BuildRegistry(WithCustomType(b, t)), CodecAcceptance, Some(Set(t))).0;
            && r == Success(SetCodec(CustomCodec(t)))
            && AcceptsCql(r.value, Set(t))
  {
    var b' := WithCustomType(b, t);
    var key := Registry.Key(Some(Set(t)), None);
    forall j | 0 <= j < 32
      ensures !CodecAcceptance.Accepts(BuildRegistry(b').codecs[j], key)
    {
      BuiltCustomAt(b, t, j);
    }
    BuiltCustomAt(b, t, 32);
    ResolveByCqlType(b', Set(t), 32);
  }

  /** For a custom type `t`, `map(t, text)` resolves to the map codec from the custom codec of `t` to the text codec. */
  lemma CustomKeyMapResolves(b: Registry.Builder<Codec>, t: DataType)
    requires t.Custom?
    ensures var r := Registry.CodecForCqlType(BuildRegistry(WithCustomType(b, t)), CodecAcceptance, Some(Map(t, Prim(Text)))).0;
            && r == Success(MapCodec(CustomCodec(t), PrimCodec(Text)))
            && AcceptsCql(r.value, Map(t, Prim(Text)))
  {
    var b' := WithCustomType(b, t);
    var key := Registry.Key(Some(Map(t, Prim(Text))), None);
    forall j | 0 <= j < 12
      ensures !CodecAcceptance.Accepts(BuildRegistry(b').codecs[j], key)
    {
      BuiltCustomAt(b, t, j);
      if Primitives[(31 - j) / 2] == Primitives[9] {
        PrimitivesInjective((31 - j) / 2, 9);
      }
    }
    BuiltCustomAt(b, t, 12);
    ResolveByCqlType(b', Map(t, Prim(Text)), 12);
  }

  /** For a custom type `t`, `map(text, t)` resolves to the map codec from the text codec to the custom codec of `t`. */
  lemma CustomValueMapResolves(b: Registry.Builder<Codec>, t: DataType)
    requires t.Custom?
    ensures var r := Registry.CodecForCqlType(BuildRegistry(WithCustomType(b, t)), CodecAcceptance, Some(Map(Prim(Text), t))).0;
            && r == Success(MapCodec(PrimCodec(Text), CustomCodec(t)))
            && AcceptsCql(r.value, Map(Prim(Text), t))
  {
    var b' := WithCustomType(b, t);
    var key := Registry.Key(Some(Map(Prim(Text), t)), None);
    forall j | 0 <= j < 13
      ensures !CodecAcceptance.Accepts(BuildRegistry(b').codecs[j], key)
    {
      BuiltCustomAt(b, t, j);
      if Primitives[(31 - j) / 2] == Primitives[9] {
        PrimitivesInjective((31 - j) / 2, 9);
      }
    }
    BuiltCustomAt(b, t, 13);
    ResolveByCqlType(b', Map(Prim(Text), t), 13);
  }

  /** No codec of a custom type's group, searched first, accepts a list of a native type. */
  lemma CustomGroupRejectsNativeList(b: Registry.Builder<Codec>, t: DataType, p: Primitive, j: nat)
    requires j < 35 && t.Custom?
    ensures !AcceptsCql(BuildRegistry(WithCustomType(b, t)).codecs[j], List(Prim(p)))
  {
    BuiltCustomAt(b, t, j);
  }

  /** Among the defaults behind a custom group, only the default `list(p)` accepts `list(p)`. */
  lemma DefaultsAcceptNativeListOnce(d: Registry.Builder<Codec>, n: nat, t: DataType, p: Primitive, j: nat)
    requires EndsWithDefaults(d, n)
    requires 35 <= j < 339
    ensures AcceptsCql(BuildRegistry(WithCustomType(d, t)).codecs[j], List(Prim(p))) <==> j == 322 - 18 * PrimitiveIndex(p)
  {
    BuiltDefaultsThenCustomAt(d, n, t, j);
    DefaultEntryAcceptsList(338 - j, p);
  }

  /** Before the default `list(p)`, no codec of the registry accepts `list(p)`. */
  lemma NoEarlierNativeList(d: Registry.Builder<Codec>, n: nat, t: DataType, p: Primitive, j: nat)
    requires EndsWithDefaults(d, n) && t.Custom?
    requires j < 322 - 18 * PrimitiveIndex(p)
    ensures !AcceptsCql(BuildRegistry(WithCustomType(d, t)).codecs[j], List(Prim(p)))
  {
    if j < 35 {
      CustomGroupRejectsNativeList(d, t, p, j);
    } else {
      DefaultsAcceptNativeListOnce(d, n, t, p, j);
    }
  }

  /**
   * Behind a custom type's group, `list(p)` for a native `p` resolves to the default
   * list codec over `p`, whatever builder state `d` ended with the defaults.
   */
  lemma NativeListResolves(d: Registry.Builder<Codec>, n: nat, t: DataType, p: Primitive)
    requires EndsWithDefaults(d, n) && t.Custom?
    ensures var r := Registry.CodecForCqlType(BuildRegistry(WithCustomType(d, t)), CodecAcceptance, Some(List(Prim(p)))).0;
            && r == Success(ListCodec(PrimCodec(p)))
            && AcceptsCql(r.value, List(Prim(p)))
  {
    var idx := PrimitiveIndex(p);
    var f := 322 - 18 * idx;
    var b' := WithCustomType(d, t);
    var key := Registry.Key(Some(List(Prim(p))), None);
    forall j | 0 <= j < f
      ensures !CodecAcceptance.Accepts(BuildRegistry(b').codecs[j], key)
    {
      NoEarlierNativeList(d, n, t, p, j);
    }
    BuiltDefaultsThenCustomAt(d, n, t, f);
    DefaultListEntry(p);
    ResolveByCqlType(b', List(Prim(p)), f);
  }

  /** The serialized size of an `int`: four bytes. */
  const IntSize: nat := 4

  /**
   * `list<int>` resolves to the default list codec, and serialising 65536 integers
   * with it is rejected for having too many elements.
   */
  lemma CollectionTooLarge(d: Registry.Builder<Codec>, n: nat, t: DataType)
    requires EndsWithDefaults(d, n) && t.Custom?
    ensures Registry.CodecForCqlType(BuildRegistry(WithCustomType(d, t)), CodecAcceptance, Some(List(Prim(Int)))).0
            == Success(ListCodec(PrimCodec(Int)))
    ensures CheckCollectionSize(seq(65536, _ => IntSize)) == Fail(TooManyElements(65536))
  {
    NativeListResolves(d, n, t, Int);
  }

  /**
   * `list<text>` resolves to the default list codec, and serialising one string of
   * 65536 one-byte characters with it is rejected for its first element's size.
   */
  lemma CollectionElementTooLarge(d: Registry.Builder<Codec>, n: nat, t: DataType)
    requires EndsWithDefaults(d, n) && t.Custom?
    ensures Registry.CodecForCqlType(BuildRegistry(WithCustomType(d, t)), CodecAcceptance, Some(List(Prim(Text)))).0
            == Success(ListCodec(PrimCodec(Text)))
    ensures CheckCollectionSize([65536]) == Fail(ElementTooLarge(0, 65536))
  {
    NativeListResolves(d, n, t, Text);
  }

  /** The test's registry is an instance of the lemmas above: nothing precedes the defaults, and `CUSTOM_FOO` is custom. */
  lemma TestRegistryIsAnInstance()
    ensures EndsWithDefaults(WithDefaultCodecs(Registry.NewBuilder()), 0)
    ensures CustomFoo.Custom?
  {
    WithDefaultCodecsEndsWithDefaults(Registry.NewBuilder());
  }

  /** The builder state the test adds its custom type to: `builder().withDefaultCodecs()`. */
  function TestDefaults(): Registry.Builder<Codec> {
    WithDefaultCodecs(Registry.NewBuilder())
  }

  /** The test's registry: `builder().withDefaultCodecs().withCustomType(CUSTOM_FOO).build()`. */
  function TestRegistry(): DriverRegistry {
    BuildRegistry(WithCustomType(TestDefaults(), CustomFoo))
  }

  /** `testCustomList`: the test's registry resolves `list(CUSTOM_FOO)` to a codec that accepts it. */
  lemma TestCustomList()
    ensures var r := Registry.CodecForCqlType(TestRegistry(), CodecAcceptance, Some(List(CustomFoo))).0;
            && r == Success(ListCodec(CustomCodec(CustomFoo)))
            && AcceptsCql(r.value, List(CustomFoo))
  {
    CustomListResolves(TestDefaults(), CustomFoo);
  }

  /** `testCustomSet`: the test's registry resolves `set(CUSTOM_FOO)` to a codec that accepts it. */
  lemma TestCustomSet()
    ensures var r := Registry.CodecForCqlType(TestRegistry(), CodecAcceptance, Some(Set(CustomFoo))).0;
            && r == Success(SetCodec(CustomCodec(CustomFoo)))
            && AcceptsCql(r.value, Set(CustomFoo))
  {
    CustomSetResolves(TestDefaults(), CustomFoo);
  }

  /** `testCustomKeyMap`: the test's registry resolves `map(CUSTOM_FOO, text)` to a codec that accepts it. */
  lemma TestCustomKeyMap()
    ensures var r := Registry.CodecForCqlType(TestRegistry(), CodecAcceptance, Some(Map(CustomFoo, Prim(Text)))).0;
            && r == Success(MapCodec(CustomCodec(CustomFoo), PrimCodec(Text)))
            && AcceptsCql(r.value, Map(CustomFoo, Prim(Text)))
  {
    CustomKeyMapResolves(TestDefaults(), CustomFoo);
  }

  /** `testCustomValueMap`: the test's registry resolves `map(text, CUSTOM_FOO)` to a codec that accepts it. */
  lemma TestCustomValueMap()
    ensures var r := Registry.CodecForCqlType(TestRegistry(), CodecAcceptance, Some(Map(Prim(Text), CustomFoo))).0;
            && r == Success(MapCodec(PrimCodec(Text), CustomCodec(CustomFoo)))
            && AcceptsCql(r.value, Map(Prim(Text), CustomFoo))
  {
    CustomValueMapResolves(TestDefaults(), CustomFoo);
  }

  /** `collectionTooLargeTest`: the test's `list<int>` codec rejects 65536 elements for their count. */
  lemma TestCollectionTooLarge()
    ensures Registry.CodecForCqlType(TestRegistry(), CodecAcceptance, Some(List(Prim(Int)))).0
            == Success(ListCodec(PrimCodec(Int)))
    ensures CheckCollectionSize(seq(65536, _ => IntSize)) == Fail(TooManyElements(65536))
  {
    TestRegistryIsAnInstance();
    CollectionTooLarge(TestDefaults(), 0, CustomFoo);
  }

  /** `collectionElementTooLargeTest`: the test's `list<text>` codec rejects a 65536-byte element. */
  lemma TestCollectionElementTooLarge()
    ensures Registry.CodecForCqlType(TestRegistry(), CodecAcceptance, Some(List(Prim(Text)))).0
            == Success(ListCodec(PrimCodec(Text)))
    ensures CheckCollectionSize([65536]) == Fail(ElementTooLarge(0, 65536))
  {
    TestRegistryIsAnInstance();
    CollectionElementTooLarge(TestDefaults(), 0, CustomFoo);
  }

  /**
   * No codec of a custom type's group, and none of the defaults, accepts `map(t, t)`:
   * when nothing added before the defaults does either, its lookup fails with the
   * CQL type named and the Java type reported as ANY.
   */
  lemma CustomToCustomMapNotFound(d: Registry.Builder<Codec>, n: nat, t: DataType)
    requires EndsWithDefaults(d, n) && t.Custom?
    requires forall i :: 0 <= i < n ==> !AcceptsCql(d.added[i], Map(t, t))
    ensures Registry.CodecForCqlType(BuildRegistry(WithCustomType(d, t)), CodecAcceptance, Some(Map(t, t))).0
            == Failure(Registry.CodecNotFound(Registry.Named(Map(t, t)), Registry.AnyType))
  {
    var b' := WithCustomType(d, t);
    var codecs := BuildRegistry(b').codecs;
    var key := Registry.Key(Some(Map(t, t)), None);
    forall j | 0 <= j < |codecs|
      ensures !CodecAcceptance.Accepts(codecs[j], key)
    {
      if j < 35 {
        BuiltCustomAt(d, t, j);
      } else if j < 339 {
        BuiltDefaultsThenCustomAt(d, n, t, j);
      } else {
        BuiltBeforeCustomAt(d, t, j);
      }
    }
    Registry.BuildIsCoherent<Codec, DataType, JavaType>(b', CodecAcceptance);
  }
}
