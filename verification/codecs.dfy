/**
 * The built-in codecs as descriptors, what each accepts, and the codec lists the
 * registry is built from: `DEFAULT_CODECS` and the group `withCustomType` adds.
 */
module Codecs {
  import opened Results
  import opened CqlTypes
  import Registry

  /** A codec descriptor: a native codec, a collection codec over element codecs, or a custom-type codec. */
  datatype Codec =
    | PrimCodec(kind: Primitive)
    | ListCodec(elem: Codec)
    | SetCodec(elem: Codec)
    | MapCodec(keys: Codec, values: Codec)
    | CustomCodec(cqlType: DataType)

  /**
   * `TypeCodec.accepts(DataType)`: a native codec accepts its own type, a
   * collection codec accepts a collection of the same kind whose element types
   * its element codecs accept, and a custom codec accepts exactly its type.
   */
  predicate AcceptsCql(c: Codec, t: DataType) {
    match c
    case PrimCodec(p) => t == Prim(p)
    case ListCodec(e) => t.List? && AcceptsCql(e, t.elem)
    case SetCodec(e) => t.Set? && AcceptsCql(e, t.elem)
    case MapCodec(k, v) => t.Map? && AcceptsCql(k, t.keys) && AcceptsCql(v, t.values)
    case CustomCodec(ct) => t == ct
  }

  /** The CQL type a codec is built for. */
  function CqlTypeOf(c: Codec): DataType {
    match c
    case PrimCodec(p) => Prim(p)
    case ListCodec(e) => List(CqlTypeOf(e))
    case SetCodec(e) => Set(CqlTypeOf(e))
    case MapCodec(k, v) => Map(CqlTypeOf(k), CqlTypeOf(v))
    case CustomCodec(t) => t
  }

  /** A codec accepts exactly one CQL type: the one it is built for. */
  lemma {:induction false} AcceptsExactlyItsCqlType(c: Codec, t: DataType)
    ensures AcceptsCql(c, t) <==> t == CqlTypeOf(c)
  {
    match c
    case PrimCodec(p) =>
    case ListCodec(e) =>
      if t.List? { AcceptsExactlyItsCqlType(e, t.elem); }
    case SetCodec(e) =>
      if t.Set? { AcceptsExactlyItsCqlType(e, t.elem); }
    case MapCodec(k, v) =>
      if t.Map? {
        AcceptsExactlyItsCqlType(k, t.keys);
        AcceptsExactlyItsCqlType(v, t.values);
      }
    case CustomCodec(ct) =>
  }

  /** The Java type a codec converts to and from; a custom codec works on raw bytes. */
  function JavaTypeOf(c: Codec): JavaType {
    match c
    case PrimCodec(p) => ClassType(HostClass(p))
    case ListCodec(e) => ListOf(JavaTypeOf(e))
    case SetCodec(e) => SetOf(JavaTypeOf(e))
    case MapCodec(k, v) => MapOf(JavaTypeOf(k), JavaTypeOf(v))
    case CustomCodec(_) => ClassType(ByteBufferClass)
  }

  /** `TypeCodec.accepts(TypeToken)`, with host types compared exactly. */
  predicate AcceptsJava(c: Codec, j: JavaType) {
    JavaTypeOf(c) == j
  }

  /**
   * `TypeCodec.accepts(cqlType, javaType)` and `accepts(javaType)`: a codec accepts a
   * key exactly when each present half is the codec's own CQL or Java type.
   */
  lemma AcceptsItsOwnTypes(c: Codec, t: DataType, j: JavaType)
    ensures CodecAcceptance.Accepts(c, Registry.Key(Some(t), Some(j))) <==> t == CqlTypeOf(c) && j == JavaTypeOf(c)
    ensures CodecAcceptance.Accepts(c, Registry.Key(None, Some(j))) <==> j == JavaTypeOf(c)
  {
    AcceptsExactlyItsCqlType(c, t);
  }

  /** The acceptance the registry scans with. */
  const CodecAcceptance: Registry.Acceptance<Codec, DataType, JavaType> :=
    Registry.Acceptance(AcceptsCql, AcceptsJava)

  /** `PRIMITIVE_CODECS`: one native codec per type, in the given order. */
  function PrimitiveCodecs(ps: seq<Primitive>): (r: seq<Codec>)
    ensures |r| == |ps|
    ensures forall i :: 0 <= i < |ps| ==> r[i] == PrimCodec(ps[i])
  {
    if |ps| == 0 then [] else [PrimCodec(ps[0])] + PrimitiveCodecs(ps[1..])
  }

  /** The inner loop of the static initializer: `map(k, q)` for every native type `q`, in order. */
  function MapsFrom(k: Codec, qs: seq<Primitive>): (r: seq<Codec>)
    ensures |r| == |qs|
    ensures forall j :: 0 <= j < |qs| ==> r[j] == MapCodec(k, PrimCodec(qs[j]))
  {
    if |qs| == 0 then [] else [MapCodec(k, PrimCodec(qs[0]))] + MapsFrom(k, qs[1..])
  }

  /** One pass of the outer loop for native type `p`: `list(p)`, `set(p)`, then `map(p, q)` for each `q` of `qs`. */
  function CollectionGroup(p: Primitive, qs: seq<Primitive>): (r: seq<Codec>)
    ensures |r| == 2 + |qs|
  {
    [ListCodec(PrimCodec(p)), SetCodec(PrimCodec(p))] + MapsFrom(PrimCodec(p), qs)
  }

  /** The outer loop of the static initializer: one collection group per native type of `ps`. */
  function CollectionGroups(ps: seq<Primitive>, qs: seq<Primitive>): (r: seq<Codec>)
    ensures |qs| == 16 ==> |r| == 18 * |ps|
  {
    if |ps| == 0 then [] else CollectionGroup(ps[0], qs) + CollectionGroups(ps[1..], qs)
  }

  lemma {:induction false} CollectionGroupsAt(ps: seq<Primitive>, qs: seq<Primitive>, i: nat, k: nat)
    requires |qs| == 16 && i < |ps| && k < 18
    ensures CollectionGroups(ps, qs)[18 * i + k] == CollectionGroup(ps[i], qs)[k]
  {
    var head, rest := CollectionGroup(ps[0], qs), CollectionGroups(ps[1..], qs);
    assert |head| == 18;
    if i == 0 {
      assert (head + rest)[k] == head[k];
    } else {
      CollectionGroupsAt(ps[1..], qs, i - 1, k);
      assert (head + rest)[18 * i + k] == rest[18 * (i - 1) + k];
    }
  }

  /** The static initializer of `DEFAULT_CODECS` over the native types `ps`. */
  function DefaultCodecsOver(ps: seq<Primitive>): (r: seq<Codec>)
    ensures |ps| == 16 ==> |r| == 304
  {
    PrimitiveCodecs(ps) + CollectionGroups(ps, ps)
  }

  /** `DEFAULT_CODECS`: the native codecs, then one collection group per native type. */
  function DefaultCodecs(): (r: seq<Codec>)
    ensures |r| == 304
  {
    DefaultCodecsOver(Primitives)
  }

  /** Position `n` of the default list over sixteen native types `ps`, computed directly from `n`. */
  function DefaultEntryOver(ps: seq<Primitive>, n: nat): Codec
    requires |ps| == 16 && n < 304
  {
    if n < 16 then PrimCodec(ps[n])
    else
      var i, k := (n - 16) / 18, (n - 16) % 18;
      var p := PrimCodec(ps[i]);
      if k == 0 then ListCodec(p)
      else if k == 1 then SetCodec(p)
      else MapCodec(p, PrimCodec(ps[k - 2]))
  }

  /** Position `n` of the default codec list. */
  function DefaultEntry(n: nat): Codec
    requires n < 304
  {
    DefaultEntryOver(Primitives, n)
  }

  lemma DefaultCodecsOverAt(ps: seq<Primitive>, n: nat)
    requires |ps| == 16 && n < 304
    ensures |DefaultCodecsOver(ps)| == 304
    ensures DefaultCodecsOver(ps)[n] == DefaultEntryOver(ps, n)
  {
    if n >= 16 {
      var i, k := (n - 16) / 18, (n - 16) % 18;
      CollectionGroupsAt(ps, ps, i, k);
    }
  }

  /**
   * The default list has 16 + 16 * (2 + 16) = 304 entries: the 16 native codecs in
   * declared order, then for each native type `p` in order, `list(p)`, `set(p)` and
   * `map(p, q)` for every native `q` in order.
   */
  lemma DefaultCodecsLayout()
    ensures |DefaultCodecs()| == 304
    ensures forall n :: 0 <= n < 304 ==> DefaultCodecs()[n] == DefaultEntry(n)
  {
    forall n | 0 <= n < 304
      ensures DefaultCodecs()[n] == DefaultEntry(n)
    {
      DefaultCodecsAt(n);
    }
  }

  lemma DefaultCodecsAt(n: nat)
    requires n < 304
    ensures DefaultCodecs()[n] == DefaultEntry(n)
  {
    DefaultCodecsOverAt(Primitives, n);
  }

  /** The loop of `withCustomType(t)`: `map(p, t)` then `map(t, p)` for each native `p` of `ps`. */
  function CustomMaps(custom: Codec, ps: seq<Primitive>): (r: seq<Codec>)
    ensures |r| == 2 * |ps|
  {
    if |ps| == 0 then []
    else [MapCodec(PrimCodec(ps[0]), custom), MapCodec(custom, PrimCodec(ps[0]))] + CustomMaps(custom, ps[1..])
  }

  lemma {:induction false} CustomMapsAt(custom: Codec, ps: seq<Primitive>, j: nat)
    requires j < |ps|
    ensures CustomMaps(custom, ps)[2 * j] == MapCodec(PrimCodec(ps[j]), custom)
    ensures CustomMaps(custom, ps)[2 * j + 1] == MapCodec(custom, PrimCodec(ps[j]))
  {
    var head := [MapCodec(PrimCodec(ps[0]), custom), MapCodec(custom, PrimCodec(ps[0]))];
    var rest := CustomMaps(custom, ps[1..]);
    if j > 0 {
      CustomMapsAt(custom, ps[1..], j - 1);
      assert (head + rest)[2 * j] == rest[2 * (j - 1)];
      assert (head + rest)[2 * j + 1] == rest[2 * (j - 1) + 1];
    }
  }

  /** Everything `withCustomType(t)` appends, in order. */
  function CustomGroup(t: DataType): (r: seq<Codec>)
    ensures |r| == 35
  {
    var custom := CustomCodec(t);
    [custom, ListCodec(custom), SetCodec(custom)] + CustomMaps(custom, Primitives)
  }

  /** Position `n` of the custom-type group, computed directly from `n`. */
  function CustomEntry(t: DataType, n: nat): Codec
    requires n < 35
  {
    var custom := CustomCodec(t);
    if n == 0 then custom
    else if n == 1 then ListCodec(custom)
    else if n == 2 then SetCodec(custom)
    else
      var p := PrimCodec(Primitives[(n - 3) / 2]);
      if (n - 3) % 2 == 0 then MapCodec(p, custom) else MapCodec(custom, p)
  }

  lemma CustomGroupAt(t: DataType, n: nat)
    requires n < 35
    ensures CustomGroup(t)[n] == CustomEntry(t, n)
  {
    if n >= 3 {
      var j := (n - 3) / 2;
      CustomMapsAt(CustomCodec(t), Primitives, j);
      assert CustomGroup(t)[n] == CustomMaps(CustomCodec(t), Primitives)[n - 3];
    }
  }

  /**
   * `withCustomType(t)` adds 3 + 2 * 16 = 35 codecs: the custom codec, `list(t)`,
   * `set(t)`, then `map(p, t)` followed by `map(t, p)` for each native `p` in order.
   * No codec of the group is a map from the custom type to itself.
   */
  lemma CustomGroupLayout(t: DataType)
    ensures |CustomGroup(t)| == 35
    ensures forall n :: 0 <= n < 35 ==> CustomGroup(t)[n] == CustomEntry(t, n)
    ensures forall n :: 0 <= n < 35 ==> CustomGroup(t)[n] != MapCodec(CustomCodec(t), CustomCodec(t))
  {
    forall n | 0 <= n < 35
      ensures CustomGroup(t)[n] == CustomEntry(t, n)
    {
      CustomGroupAt(t, n);
    }
  }

  /** `Builder.withDefaultCodecs`: appends `DEFAULT_CODECS`. */
  function WithDefaultCodecs(b: Registry.Builder<Codec>): Registry.Builder<Codec> {
    Registry.WithCodecs(b, DefaultCodecs())
  }

  /** `Builder.withCustomType`: appends the custom-type group. */
  function WithCustomType(b: Registry.Builder<Codec>, t: DataType): Registry.Builder<Codec> {
    Registry.WithCodecs(b, CustomGroup(t))
  }

  /** `withCustomType(t)` keeps everything added before and appends exactly the 35 codecs of the group. */
  lemma WithCustomTypeAppends(b: Registry.Builder<Codec>, t: DataType)
    ensures |WithCustomType(b, t).added| == |b.added| + 35
    ensures WithCustomType(b, t).added[..|b.added|] == b.added
    ensures forall n :: 0 <= n < 35 ==> WithCustomType(b, t).added[|b.added| + n] == CustomEntry(t, n)
  {
    CustomGroupLayout(t);
  }

  /** The registry type of the driver. */
  type DriverRegistry = Registry.CodecRegistry<Codec, DataType, JavaType>

  /** `Builder.build` for the driver's codecs. */
  function BuildRegistry(b: Registry.Builder<Codec>): DriverRegistry {
    Registry.Build(b)
  }

  /** Appending the defaults: position `|b.added| + m` of the builder holds default entry `m`. */
  lemma WithDefaultCodecsAt(b: Registry.Builder<Codec>, m: nat)
    requires m < 304
    ensures |WithDefaultCodecs(b).added| == |b.added| + 304
    ensures WithDefaultCodecs(b).added[|b.added| + m] == DefaultEntry(m)
  {
    DefaultCodecsAt(m);
  }

  /** The most recently added custom type is searched first: lookup position `j` is group entry `34 - j`. */
  lemma BuiltCustomAt(b: Registry.Builder<Codec>, t: DataType, j: nat)
    requires j < 35
    ensures |BuildRegistry(WithCustomType(b, t)).codecs| == |b.added| + 35
    ensures BuildRegistry(WithCustomType(b, t)).codecs[j] == CustomEntry(t, 34 - j)
  {
    var n := |b.added|;
    assert WithCustomType(b, t).added[n + 34 - j] == CustomGroup(t)[34 - j];
    CustomGroupAt(t, 34 - j);
  }

  /** Behind the custom group, lookup continues with what was added before it, newest first. */
  lemma BuiltBeforeCustomAt(b: Registry.Builder<Codec>, t: DataType, j: nat)
    requires 35 <= j < |b.added| + 35
    ensures |BuildRegistry(WithCustomType(b, t)).codecs| == |b.added| + 35
    ensures BuildRegistry(WithCustomType(b, t)).codecs[j] == b.added[|b.added| + 34 - j]
  {
    var n := |b.added|;
    assert WithCustomType(b, t).added[n + 34 - j] == b.added[n + 34 - j];
  }

  /** In the default list, `list(p)` is accepted at exactly one position: `16 + 18 * index(p)`. */
  lemma DefaultEntryAcceptsList(m: nat, p: Primitive)
    requires m < 304
    ensures AcceptsCql(DefaultEntry(m), List(Prim(p))) <==> m == 16 + 18 * PrimitiveIndex(p)
  {
    var idx := PrimitiveIndex(p);
    if m >= 16 {
      var i, k := (m - 16) / 18, (m - 16) % 18;
      if k == 0 && Primitives[i] == p {
        PrimitivesInjective(i, idx);
      }
      if m == 16 + 18 * idx {
        assert i == idx && k == 0;
      }
    }
  }

  /** The default list holds `list(p)` at position `16 + 18 * index(p)`. */
  lemma DefaultListEntry(p: Primitive)
    ensures 16 + 18 * PrimitiveIndex(p) < 304
    ensures DefaultEntry(16 + 18 * PrimitiveIndex(p)) == ListCodec(PrimCodec(p))
  {
    var idx := PrimitiveIndex(p);
    assert (18 * idx) / 18 == idx && (18 * idx) % 18 == 0;
  }

  /** Builder state `d` ends with the default list, appended after `n` earlier codecs. */
  ghost predicate EndsWithDefaults(d: Registry.Builder<Codec>, n: nat) {
    && |d.added| == n + 304
    && forall m :: 0 <= m < 304 ==> d.added[n + m] == DefaultEntry(m)
  }

  /** `withDefaultCodecs()` leaves the builder ending with the default list. */
  lemma WithDefaultCodecsEndsWithDefaults(b: Registry.Builder<Codec>)
    ensures WithDefaultCodecs(b).added[..|b.added|] == b.added
    ensures EndsWithDefaults(WithDefaultCodecs(b), |b.added|)
  {
    forall m | 0 <= m < 304
      ensures WithDefaultCodecs(b).added[|b.added| + m] == DefaultEntry(m)
    {
      WithDefaultCodecsAt(b, m);
    }
  }

  /** With the defaults added before a custom type, lookup positions 35 to 338 run through the defaults backwards. */
  lemma BuiltDefaultsThenCustomAt(d: Registry.Builder<Codec>, n: nat, t: DataType, j: nat)
    requires EndsWithDefaults(d, n)
    requires 35 <= j < 339
    ensures |BuildRegistry(WithCustomType(d, t)).codecs| == n + 339
    ensures BuildRegistry(WithCustomType(d, t)).codecs[j] == DefaultEntry(338 - j)
  {
    BuiltBeforeCustomAt(d, t, j);
    assert d.added[n + (338 - j)] == DefaultEntry(338 - j);
  }

  /** `DEFAULT_INSTANCE`: the default list used in declared order, NOT reversed. */
  function DefaultInstance(): DriverRegistry {
    Registry.CodecRegistry(DefaultCodecs(), map[])
  }

  /** The native codecs producing `String` are text, varchar and ascii, at positions 9 to 11 of the default list. */
  lemma DefaultEntryIsString(m: nat)
    requires m < 304
    ensures JavaTypeOf(DefaultEntry(m)) == ClassType(StringClass) <==> 9 <= m <= 11
  {
  }

  /** A registry built from a builder ending with the defaults searches them last-first. */
  lemma BuiltDefaultsAt(d: Registry.Builder<Codec>, n: nat, j: nat)
    requires EndsWithDefaults(d, n) && j < 304
    ensures |BuildRegistry(d).codecs| == n + 304
    ensures BuildRegistry(d).codecs[j] == DefaultEntry(303 - j)
  {
    assert d.added[n + (303 - j)] == DefaultEntry(303 - j);
  }

  /** A lookup list that is the default list in declared order, as `DEFAULT_INSTANCE` uses it. */
  ghost predicate InDeclaredOrder(codecs: seq<Codec>) {
    && |codecs| == 304
    && forall m :: 0 <= m < 304 ==> codecs[m] == DefaultEntry(m)
  }

  /** `DEFAULT_INSTANCE` searches the default list unreversed, from an empty cache. */
  lemma DefaultInstanceInDeclaredOrder()
    ensures InDeclaredOrder(DefaultInstance().codecs)
    ensures DefaultInstance().cache == map[]
  {
    DefaultCodecsLayout();
  }

  /** A registry searching the defaults in declared order resolves `(ANY, String)` to the first `String` codec: text. */
  lemma DeclaredOrderResolvesStringToText(reg: DriverRegistry)
    requires InDeclaredOrder(reg.codecs) && Registry.CacheCoherent(reg, CodecAcceptance)
    ensures Registry.CodecFor(reg, CodecAcceptance, None, Some(ClassType(StringClass))).0
            == Success(PrimCodec(Text))
  {
    var key := Registry.Key(None, Some(ClassType(StringClass)));
    forall j | 0 <= j < 9
      ensures !CodecAcceptance.Accepts(reg.codecs[j], key)
    {
      DefaultEntryIsString(j);
    }
    Registry.LookupFindsFirstAccepting(reg.codecs, CodecAcceptance, key, 9);
  }

  /** `DEFAULT_INSTANCE` itself resolves `(ANY, String)` to text. */
  lemma DefaultInstanceResolvesStringToText()
    ensures Registry.CodecFor(DefaultInstance(), CodecAcceptance, None, Some(ClassType(StringClass))).0
            == Success(PrimCodec(Text))
  {
    DefaultInstanceInDeclaredOrder();
    DeclaredOrderResolvesStringToText(DefaultInstance());
  }

  /**
   * `builder().withDefaultCodecs().build()` reverses the same list, so it resolves
   * `(ANY, String)` to the last `String` codec declared: ascii. The two default
   * registries disagree.
   */
  lemma BuiltDefaultsResolveStringToAscii(d: Registry.Builder<Codec>, n: nat)
    requires EndsWithDefaults(d, n)
    ensures Registry.CodecFor(BuildRegistry(d), CodecAcceptance, None, Some(ClassType(StringClass))).0
            == Success(PrimCodec(Ascii))
  {
    var key := Registry.Key(None, Some(ClassType(StringClass)));
    forall j | 0 <= j < 292
      ensures !CodecAcceptance.Accepts(BuildRegistry(d).codecs[j], key)
    {
      BuiltDefaultsAt(d, n, j);
      DefaultEntryIsString(303 - j);
    }
    BuiltDefaultsAt(d, n, 292);
    Registry.BuildIsCoherent<Codec, DataType, JavaType>(d, CodecAcceptance);
    Registry.LookupFindsFirstAccepting(BuildRegistry(d).codecs, CodecAcceptance, key, 292);
  }
}
