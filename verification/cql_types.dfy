/**
 * The two type universes codecs are looked up by: CQL types (`DataType`) and the
 * Java types a codec converts to and from.
 */
module CqlTypes {

  /** The sixteen native CQL types that have a built-in codec. */
  datatype Primitive =
    | Blob | Boolean | Int | Bigint | Counter | Double | Float | Varint
    | Decimal | Text | Varchar | Ascii | Timestamp | Uuid | Timeuuid | Inet

  /** The native types in the order the registry's static initializer lists their codecs. */
  const Primitives: seq<Primitive> :=
    [Blob, Boolean, Int, Bigint, Counter, Double, Float, Varint,
     Decimal, Text, Varchar, Ascii, Timestamp, Uuid, Timeuuid, Inet]

  /** The sixteen entries are pairwise distinct and cover every native type. */
  lemma PrimitivesAreDistinct()
    ensures |Primitives| == 16
    ensures forall i, j :: 0 <= i < j < |Primitives| ==> Primitives[i] != Primitives[j]
    ensures forall p: Primitive :: p in Primitives
  {
    forall p: Primitive
      ensures p in Primitives
    {
      match p
      case Blob => case Boolean => case Int => case Bigint =>
      case Counter => case Double => case Float => case Varint =>
      case Decimal => case Text => case Varchar => case Ascii =>
      case Timestamp => case Uuid => case Timeuuid => case Inet =>
    }
  }

  /** Equal entries of the native-type list sit at equal positions. */
  lemma PrimitivesInjective(i: nat, j: nat)
    requires i < |Primitives| && j < |Primitives|
    requires Primitives[i] == Primitives[j]
    ensures i == j
  {
    PrimitivesAreDistinct();
  }

  /** The position of a native type in the list. */
  function PrimitiveIndex(p: Primitive): (i: nat)
    ensures i < |Primitives| && Primitives[i] == p
  {
    match p
    case Blob => 0 case Boolean => 1 case Int => 2 case Bigint => 3
    case Counter => 4 case Double => 5 case Float => 6 case Varint => 7
    case Decimal => 8 case Text => 9 case Varchar => 10 case Ascii => 11
    case Timestamp => 12 case Uuid => 13 case Timeuuid => 14 case Inet => 15
  }

  /** A CQL type: native, a collection over CQL types, or a custom type named by its class. */
  datatype DataType =
    | Prim(kind: Primitive)
    | List(elem: DataType)
    | Set(elem: DataType)
    | Map(keys: DataType, values: DataType)
    | Custom(className: string)

  /** The Java classes the built-in codecs convert to and from. */
  datatype JavaClass =
    | ByteBufferClass | BooleanClass | IntegerClass | LongClass | DoubleClass | FloatClass
    | BigIntegerClass | BigDecimalClass | StringClass | DateClass | UUIDClass | InetAddressClass

  /** A Java type as a type token sees it: a class, or a collection parameterised by Java types. */
  datatype JavaType =
    | ClassType(cls: JavaClass)
    | ListOf(elem: JavaType)
    | SetOf(elem: JavaType)
    | MapOf(keys: JavaType, values: JavaType)

  /** The Java class each native type's built-in codec produces. */
  function HostClass(p: Primitive): JavaClass {
    match p
    case Blob => ByteBufferClass
    case Boolean => BooleanClass
    case Int => IntegerClass
    case Bigint => LongClass
    case Counter => LongClass
    case Double => DoubleClass
    case Float => FloatClass
    case Varint => BigIntegerClass
    case Decimal => BigDecimalClass
    case Text => StringClass
    case Varchar => StringClass
    case Ascii => StringClass
    case Timestamp => DateClass
    case Uuid => UUIDClass
    case Timeuuid => UUIDClass
    case Inet => InetAddressClass
  }
}
