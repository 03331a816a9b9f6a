/**
 * The codec registry of the driver, generic over what a codec is and over the
 * two type universes it is looked up by: `Q` for CQL types, `J` for Java types.
 *
 * The registry holds an immutable, ordered list of codecs and resolves a
 * (CQL type, Java type) key to the FIRST codec that accepts it. Either half of
 * the key may be absent ("ANY"), but not both. A memoising cache sits in front
 * of the scan; it only ever stores successful scan results.
 */
module Registry {
  import opened Results
  import opened Sequences

  /** A lookup key; an absent half means "ANY". */
  datatype Key<Q, J> = Key(cqlType: Option<Q>, javaType: Option<J>)

  /** `Key.equals`: each half is compared with `equals`, and a null half matches only a null half. */
  predicate KeyEquals<Q(==), J(==)>(a: Key<Q, J>, b: Key<Q, J>) {
    && (if a.javaType.Some? then b.javaType.Some? && a.javaType.value == b.javaType.value
        else b.javaType.None?)
    && (if a.cqlType.Some? then b.cqlType.Some? && a.cqlType.value == b.cqlType.value
        else b.cqlType.None?)
  }

  /** Key equality is exactly equality of both halves, so the cache may be keyed by value. */
  lemma KeyEqualsIsEquality<Q, J>(a: Key<Q, J>, b: Key<Q, J>)
    ensures KeyEquals(a, b) <==> a == b
    ensures KeyEquals(a, a)
    ensures KeyEquals(a, b) <==> KeyEquals(b, a)
  {
  }

  /**
   * What a codec accepts: `cql(c, t)` is `TypeCodec.accepts(DataType)` and
   * `java(c, j)` is `TypeCodec.accepts(TypeToken)`.
   */
  datatype Acceptance<!C, !Q, !J> = Acceptance(cql: (C, Q) -> bool, java: (C, J) -> bool)
  {
    /** `TypeCodec.accepts(cqlType, javaType)`: an absent half constrains nothing. */
    predicate Accepts(c: C, key: Key<Q, J>) {
      && (key.cqlType.None? || cql(c, key.cqlType.value))
      && (key.javaType.None? || java(c, key.javaType.value))
    }
  }

  /** How a half of a key is reported in a "codec not found" message: a null half reads "ANY". */
  datatype TypeName<T> = AnyType | Named(name: T)

  function NameOf<T>(half: Option<T>): TypeName<T> {
    match half
    case None => AnyType
    case Some(t) => Named(t)
  }

  /** The exceptions the registry raises. */
  datatype RegistryError<Q, J> =
    | NullArgument                                          // checkNotNull: NullPointerException
    | IllegalArgument                                       // checkArgument: IllegalArgumentException
    | CodecNotFound(cqlType: TypeName<Q>, javaType: TypeName<J>)

  /** `i` is the position of the first codec in `codecs` that accepts `key`. */
  ghost predicate FirstAccepting<C, Q, J>(codecs: seq<C>, acc: Acceptance<C, Q, J>, key: Key<Q, J>, i: int) {
    && 0 <= i < |codecs|
    && acc.Accepts(codecs[i], key)
    && forall j :: 0 <= j < i ==> !acc.Accepts(codecs[j], key)
  }

  /** The uncached scan `lookupCodec`: the first codec in lookup order that accepts the key. */
  function Lookup<C, Q, J>(codecs: seq<C>, acc: Acceptance<C, Q, J>, key: Key<Q, J>): (r: Result<C, RegistryError<Q, J>>)
    ensures r.Success? ==> exists i :: FirstAccepting(codecs, acc, key, i) && codecs[i] == r.value
    ensures r.Failure? ==> forall j :: 0 <= j < |codecs| ==> !acc.Accepts(codecs[j], key)
    ensures r.Failure? ==> r.error == CodecNotFound(NameOf(key.cqlType), NameOf(key.javaType))
  {
    match FirstMatch(codecs, c => acc.Accepts(c, key))
    case Some(i) => Success(codecs[i])
    case None => Failure(CodecNotFound(NameOf(key.cqlType), NameOf(key.javaType)))
  }

  /** `lookupCodec` as the loop it is written as, agreeing with the scan above. */
  method LookupCodec<C, Q, J>(codecs: seq<C>, acc: Acceptance<C, Q, J>, key: Key<Q, J>)
    returns (r: Result<C, RegistryError<Q, J>>)
    ensures r == Lookup(codecs, acc, key)
  {
    for i := 0 to |codecs|
      invariant forall j :: 0 <= j < i ==> !acc.Accepts(codecs[j], key)
    {
      if acc.Accepts(codecs[i], key) {
        FirstMatchAt(codecs, c => acc.Accepts(c, key), i);
        return Success(codecs[i]);
      }
    }
    return Failure(CodecNotFound(NameOf(key.cqlType), NameOf(key.javaType)));
  }

  /** The scan returns exactly the codec at the first accepting position. */
  lemma LookupFindsFirstAccepting<C, Q, J>(codecs: seq<C>, acc: Acceptance<C, Q, J>, key: Key<Q, J>, i: int)
    requires FirstAccepting(codecs, acc, key, i)
    ensures Lookup(codecs, acc, key) == Success(codecs[i])
  {
    var r := Lookup(codecs, acc, key);
    if r.Success? {
      var k :| FirstAccepting(codecs, acc, key, k) && codecs[k] == r.value;
    }
  }

  /** If some codec accepts the key, the scan succeeds with a codec that accepts it. */
  lemma LookupSucceedsWhenSomeCodecAccepts<C, Q, J>(codecs: seq<C>, acc: Acceptance<C, Q, J>, key: Key<Q, J>, i: nat)
    requires i < |codecs| && acc.Accepts(codecs[i], key)
    ensures Lookup(codecs, acc, key).Success?
    ensures acc.Accepts(Lookup(codecs, acc, key).value, key)
  {
  }

  /** A registry: its codecs in lookup order and the memoisation cache in front of the scan. */
  datatype CodecRegistry<C, Q(==), J(==)> = CodecRegistry(codecs: seq<C>, cache: map<Key<Q, J>, C>)

  /** Every cached entry is what the uncached scan returns for its key. */
  ghost predicate CacheCoherent<C, Q, J>(reg: CodecRegistry<C, Q, J>, acc: Acceptance<C, Q, J>) {
    forall k :: k in reg.cache ==> Lookup(reg.codecs, acc, k) == Success(reg.cache[k])
  }

  /**
   * `codecFor(DataType, TypeToken)`: rejects a key with both halves absent, then
   * answers from the cache, loading it with `lookupCodec` on a miss. A failed load
   * is rethrown and leaves the cache as it was. Returns the result and the
   * registry with its updated cache.
   */
  function CodecFor<C, Q(==), J(==)>(reg: CodecRegistry<C, Q, J>, acc: Acceptance<C, Q, J>, cqlType: Option<Q>, javaType: Option<J>)
    : (out: (Result<C, RegistryError<Q, J>>, CodecRegistry<C, Q, J>))
    ensures out.1.codecs == reg.codecs
    ensures cqlType.None? && javaType.None? ==> out.0 == Failure(IllegalArgument) && out.1 == reg
    ensures (cqlType.Some? || javaType.Some?) && CacheCoherent(reg, acc) ==>
              out.0 == Lookup(reg.codecs, acc, Key(cqlType, javaType))
    ensures CacheCoherent(reg, acc) ==> CacheCoherent(out.1, acc)
    ensures out.0.Success? ==> out.1.cache == reg.cache[Key(cqlType, javaType) := out.0.value]
    ensures out.0.Failure? ==> out.1.cache == reg.cache
  {
    if cqlType.None? && javaType.None? then (Failure(IllegalArgument), reg)
    else
      var key := Key(cqlType, javaType);
      if key in reg.cache then (Success(reg.cache[key]), reg)
      else match Lookup(reg.codecs, acc, key)
        case Success(c) => (Success(c), reg.(cache := reg.cache[key := c]))
        case Failure(e) => (Failure(e), reg)
  }

  /** `codecFor(DataType)`: the CQL type must not be null; the Java type is "ANY". */
  function CodecForCqlType<C, Q(==), J(==)>(reg: CodecRegistry<C, Q, J>, acc: Acceptance<C, Q, J>, cqlType: Option<Q>)
    : (out: (Result<C, RegistryError<Q, J>>, CodecRegistry<C, Q, J>))
    ensures cqlType.None? ==> out.0 == Failure(NullArgument) && out.1 == reg
    ensures cqlType.Some? && CacheCoherent(reg, acc) ==>
              out.0 == Lookup(reg.codecs, acc, Key(cqlType, None))
    ensures CacheCoherent(reg, acc) ==> CacheCoherent(out.1, acc) && out.1.codecs == reg.codecs
  {
    if cqlType.None? then (Failure(NullArgument), reg)
    else CodecFor(reg, acc, cqlType, None)
  }

  /** `codecFor(DataType, Class)`: a class is always given, so only the CQL type may be "ANY". */
  function CodecForClass<C, Q(==), J(==)>(reg: CodecRegistry<C, Q, J>, acc: Acceptance<C, Q, J>, cqlType: Option<Q>, javaClass: J)
    : (out: (Result<C, RegistryError<Q, J>>, CodecRegistry<C, Q, J>))
    ensures CacheCoherent(reg, acc) ==> out.0 == Lookup(reg.codecs, acc, Key(cqlType, Some(javaClass)))
    ensures CacheCoherent(reg, acc) ==> CacheCoherent(out.1, acc) && out.1.codecs == reg.codecs
  {
    CodecFor(reg, acc, cqlType, Some(javaClass))
  }

  /**
   * `codecFor(value)`: an uncached first-match scan with `TypeCodec.accepts(Object)`.
   * A miss reports no CQL type and the value's runtime class as the Java type.
   */
  function CodecForValue<C, Q(==), J(==), V>(reg: CodecRegistry<C, Q, J>, acceptsValue: (C, V) -> bool, classOf: V -> J, value: Option<V>)
    : (r: Result<C, RegistryError<Q, J>>)
    ensures value.None? ==> r == Failure(NullArgument)
    ensures value.Some? && r.Success? ==>
              exists i :: 0 <= i < |reg.codecs| && reg.codecs[i] == r.value && acceptsValue(r.value, value.value)
                          && forall j :: 0 <= j < i ==> !acceptsValue(reg.codecs[j], value.value)
    ensures value.Some? && r.Failure? ==>
              && r.error == CodecNotFound(AnyType, Named(classOf(value.value)))
              && forall j :: 0 <= j < |reg.codecs| ==> !acceptsValue(reg.codecs[j], value.value)
  {
    match value
    case None => Failure(NullArgument)
    case Some(v) =>
      match FirstMatch(reg.codecs, c => acceptsValue(c, v))
      case Some(i) => Success(reg.codecs[i])
      case None => Failure(CodecNotFound(AnyType, Named(classOf(v))))
  }

  /** The by-value lookup never consults the cache: any cache contents give the same answer. */
  lemma CodecForValueIgnoresCache<C, Q, J, V>(reg: CodecRegistry<C, Q, J>, cache: map<Key<Q, J>, C>,
                                                      acceptsValue: (C, V) -> bool, classOf: V -> J, value: Option<V>)
    ensures CodecForValue(reg.(cache := cache), acceptsValue, classOf, value) == CodecForValue(reg, acceptsValue, classOf, value)
  {
  }

  /**
   * Cache transparency: two calls with equal keys, the second on the registry the first
   * left behind, give the same answer, and the second never changes the cache.
   */
  lemma RepeatedLookupsAgree<C, Q, J>(reg: CodecRegistry<C, Q, J>, acc: Acceptance<C, Q, J>, k1: Key<Q, J>, k2: Key<Q, J>)
    requires CacheCoherent(reg, acc)
    requires KeyEquals(k1, k2)
    ensures var (r1, reg1) := CodecFor(reg, acc, k1.cqlType, k1.javaType);
            var (r2, reg2) := CodecFor(reg1, acc, k2.cqlType, k2.javaType);
            r2 == r1 && reg2 == reg1
  {
    KeyEqualsIsEquality(k1, k2);
  }

  /** The registry builder: the codecs added so far, in append order. */
  datatype Builder<C> = Builder(added: seq<C>)

  /** `CodecRegistry.builder()`. */
  function NewBuilder<C>(): Builder<C> {
    Builder([])
  }

  /** `Builder.withCodecs`: appends the codecs in argument order. */
  function WithCodecs<C>(b: Builder<C>, codecs: seq<C>): Builder<C> {
    Builder(b.added + codecs)
  }

  /** A registry built straight from `builder()` holds no codec, so every lookup in it fails. */
  lemma NewBuilderIsEmpty<C, Q, J>(acc: Acceptance<C, Q, J>, key: Key<Q, J>)
    ensures NewBuilder<C>().added == []
    ensures Lookup(Build<C, Q, J>(NewBuilder()).codecs, acc, key)
            == Failure(CodecNotFound(NameOf(key.cqlType), NameOf(key.javaType)))
  {
  }

  /**
   * `withCodecs` keeps what was added before and appends its arguments in order,
   * so two calls add exactly what one call with both argument lists adds.
   */
  lemma WithCodecsAppends<C>(b: Builder<C>, cs: seq<C>, ds: seq<C>)
    ensures |WithCodecs(b, cs).added| == |b.added| + |cs|
    ensures WithCodecs(b, cs).added[..|b.added|] == b.added
    ensures WithCodecs(b, cs).added[|b.added|..] == cs
    ensures WithCodecs(WithCodecs(b, cs), ds) == WithCodecs(b, cs + ds)
  {
    assert b.added + cs + ds == b.added + (cs + ds);
  }

  /** `Builder.build`: the lookup order is the append order reversed, and the cache starts empty. */
  function Build<C, Q(==), J(==)>(b: Builder<C>): (r: CodecRegistry<C, Q, J>)
    ensures |r.codecs| == |b.added|
    ensures forall i :: 0 <= i < |b.added| ==> r.codecs[i] == b.added[|b.added| - 1 - i]
    ensures r.cache == map[]
  {
    CodecRegistry(Reverse(b.added), map[])
  }

  /** A freshly built registry satisfies the cache invariant. */
  lemma BuildIsCoherent<C, Q, J>(b: Builder<C>, acc: Acceptance<C, Q, J>)
    ensures CacheCoherent(Build<C, Q, J>(b), acc)
  {
  }

  /** `j` is the position of the last codec in append order that accepts `key`. */
  ghost predicate LastAccepting<C, Q, J>(added: seq<C>, acc: Acceptance<C, Q, J>, key: Key<Q, J>, j: int) {
    && 0 <= j < |added|
    && acc.Accepts(added[j], key)
    && forall k :: j < k < |added| ==> !acc.Accepts(added[k], key)
  }

  /**
   * Precedence: in a built registry, a key resolves to the codec added LAST among
   * those that accept it; with no accepting codec the lookup fails.
   */
  lemma LaterAddedCodecWins<C, Q, J>(b: Builder<C>, acc: Acceptance<C, Q, J>, key: Key<Q, J>)
    ensures var r := Lookup(Build<C, Q, J>(b).codecs, acc, key);
            && (r.Success? <==> exists i :: 0 <= i < |b.added| && acc.Accepts(b.added[i], key))
            && (r.Success? ==> exists j :: LastAccepting(b.added, acc, key, j) && b.added[j] == r.value)
  {
    var codecs := Build<C, Q, J>(b).codecs;
    var n := |b.added|;
    var r := Lookup(codecs, acc, key);
    if r.Success? {
      var i :| FirstAccepting(codecs, acc, key, i) && codecs[i] == r.value;
      var j := n - 1 - i;
      forall k | j < k < n
        ensures !acc.Accepts(b.added[k], key)
      {
        assert codecs[n - 1 - k] == b.added[k];
      }
      assert LastAccepting(b.added, acc, key, j);
    } else {
      forall i | 0 <= i < n
        ensures !acc.Accepts(b.added[i], key)
      {
        assert codecs[n - 1 - i] == b.added[i];
      }
    }
  }

  /** Override: a codec added with `withCodecs` after everything else wins every key it accepts. */
  lemma LastWithCodecsOverrides<C, Q, J>(b: Builder<C>, acc: Acceptance<C, Q, J>, key: Key<Q, J>, c: C)
    requires acc.Accepts(c, key)
    ensures Lookup(Build<C, Q, J>(WithCodecs(b, [c])).codecs, acc, key) == Success(c)
  {
    var codecs := Build<C, Q, J>(WithCodecs(b, [c])).codecs;
    assert codecs[0] == c;
    FirstMatchAt(codecs, x => acc.Accepts(x, key), 0);
  }
}
