/**
 * The values a bean stores: boxed .NET IConvertible values, tagged with their
 * runtime type, and the rules that the typed accessors apply to them
 * (LimeBean/Bean.cs:22, LimeBean/Bean.cs:71-97).
 */
module Values {
  import opened Wrappers

  /** .NET's System.TypeCode. */
  datatype TypeCode =
    | Empty | Object | DBNull | Boolean | Char
    | SByte | Byte | Int16 | UInt16 | Int32 | UInt32 | Int64 | UInt64
    | Single | Double | Decimal | DateTime | String

  /** The integral type codes, the ones an enum may have as underlying type. */
  predicate IsIntegral(c: TypeCode) {
    c.SByte? || c.Byte? || c.Int16? || c.UInt16? || c.Int32? || c.UInt32? || c.Int64? || c.UInt64?
  }

  /** The range of an integral type, as [lo, hi). */
  function IntegralRange(c: TypeCode): (r: (int, int))
    requires IsIntegral(c)
    ensures r.0 <= 0 < r.1
  {
    match c
    case SByte => (-0x80, 0x80)
    case Byte => (0, 0x100)
    case Int16 => (-0x8000, 0x8000)
    case UInt16 => (0, 0x1_0000)
    case Int32 => (-0x8000_0000, 0x8000_0000)
    case UInt32 => (0, 0x1_0000_0000)
    case Int64 => (-0x8000_0000_0000_0000, 0x8000_0000_0000_0000)
    case UInt64 => (0, 0x1_0000_0000_0000_0000)
  }

  predicate InIntegralRange(c: TypeCode, n: int)
    requires IsIntegral(c)
  {
    IntegralRange(c).0 <= n < IntegralRange(c).1
  }

  /**
   * A runtime type that implements IConvertible: a built-in one (bool, char,
   * the integers, float, double, decimal, DateTime, string, DBNull), an enum
   * with its underlying integral type, or a user type that implements
   * IConvertible itself and answers `reportedCode` from GetTypeCode().
   */
  datatype RuntimeType =
    | Primitive(code: TypeCode)
    | Enumeration(name: string, underlying: TypeCode)
    | Custom(name: string, reportedCode: TypeCode, isValueType: bool)

  predicate IsConvertibleType(t: RuntimeType) {
    match t
    case Primitive(c) => !c.Empty? && !c.Object?
    case Enumeration(_, u) => IsIntegral(u)
    case Custom(_, _, _) => true
  }

  type ClrType = t: RuntimeType | IsConvertibleType(t) witness Primitive(Boolean)

  /** Type.GetTypeCode(type): a user type that is neither primitive nor enum reports Object. */
  function TypeCodeOf(t: ClrType): (c: TypeCode)
    ensures !c.Empty?
    ensures t.Primitive? ==> c == t.code
    ensures t.Enumeration? ==> IsIntegral(c) && c == t.underlying
    ensures t.Custom? ==> c == Object
  {
    match t
    case Primitive(c) => c
    case Enumeration(_, u) => u
    case Custom(_, _, _) => Object
  }

  /** Whether default(T) is a zero value (a struct) rather than null (a class). */
  predicate IsValueType(t: ClrType): (r: bool)
    ensures t.Primitive? ==> (r <==> t.code != String && t.code != DBNull)
    ensures t.Enumeration? ==> r
    ensures t.Custom? ==> (r <==> t.isValueType)
  {
    match t
    case Primitive(c) => !c.String? && !c.DBNull?
    case Enumeration(_, _) => true
    case Custom(_, _, v) => v
  }

  /**
   * The contents of a boxed value. Integers (and a char's UTF-16 code unit) are
   * kept exactly; floating point, decimal, DateTime and DBNull contents are
   * kept as an uninterpreted token, since only their equality matters here.
   */
  datatype Payload = Integer(n: int) | Text(s: string) | Flag(b: bool) | Opaque(token: int)

  /** The payload shape each runtime type admits. */
  predicate Fits(t: RuntimeType, p: Payload) {
    match t
    case Primitive(c) =>
      if c.Boolean? then p.Flag?
      else if c.Char? then p.Integer? && 0 <= p.n < 0x1_0000
      else if IsIntegral(c) then p.Integer? && InIntegralRange(c, p.n)
      else if c.String? then p.Text?
      else p.Opaque?
    case Enumeration(_, u) => IsIntegral(u) && p.Integer? && InIntegralRange(u, p.n)
    case Custom(_, _, _) => true
  }

  datatype Boxed = Box(runtimeType: ClrType, payload: Payload)

  /** A non-null IConvertible reference: a box whose payload fits its runtime type. */
  type TypedValue = v: Boxed | Fits(v.runtimeType, v.payload) witness Box(Primitive(Boolean), Flag(false))

  /** value.GetTypeCode(): a user type answers what it chooses. */
  function ValueTypeCode(v: TypedValue): (c: TypeCode)
    ensures !v.runtimeType.Custom? ==> c == TypeCodeOf(v.runtimeType)
    ensures v.runtimeType.Custom? ==> c == v.runtimeType.reportedCode
  {
    match v.runtimeType
    case Custom(_, reported, _) => reported
    case _ => TypeCodeOf(v.runtimeType)
  }

  /** default(T): a zero of T for value types, null for reference types. */
  function Default(t: ClrType): (r: Option<TypedValue>)
    ensures r.Some? <==> IsValueType(t)
    ensures r.Some? ==> r.value.runtimeType == t
    ensures r.Some? && (IsIntegralLike(t) || t == Primitive(Char)) ==> r.value.payload == Integer(0)
    ensures t == Primitive(Boolean) ==> r == Some(Box(t, Flag(false)))
  {
    if !IsValueType(t) then None
    else
      match t
      case Primitive(c) =>
        if c.Boolean? then Some(Box(t, Flag(false)))
        else if c.Char? || IsIntegral(c) then Some(Box(t, Integer(0)))
        else Some(Box(t, Opaque(0)))
      case Enumeration(_, _) => Some(Box(t, Integer(0)))
      case Custom(_, _, _) => Some(Box(t, Opaque(0)))
  }

  /** Types the CLR lets a boxed value be unboxed across: integers and enums of one underlying type. */
  predicate IsIntegralLike(t: ClrType) {
    (t.Primitive? && IsIntegral(t.code)) || t.Enumeration?
  }

  /** The error `(T)value` raises when the cast is not allowed. */
  datatype CastError = InvalidCast

  /**
   * The cast `(T)value` from object: allowed when the runtime type is T, or
   * when both are integral-like with the same underlying type code (an enum
   * unboxes to its underlying integer and back). The result is a T.
   */
  function Cast(v: TypedValue, t: ClrType): (r: Option<TypedValue>)
    ensures r.Some? ==> r.value.runtimeType == t && r.value.payload == v.payload
    ensures v.runtimeType == t ==> r == Some(v)
    ensures r.None? <==>
              v.runtimeType != t && !(IsIntegralLike(v.runtimeType) && IsIntegralLike(t) && TypeCodeOf(v.runtimeType) == TypeCodeOf(t))
  {
    if v.runtimeType == t then Some(v)
    else if IsIntegralLike(v.runtimeType) && IsIntegralLike(t) && TypeCodeOf(v.runtimeType) == TypeCodeOf(t) then
      Some(Box(t, v.payload))
    else None
  }

  /**
   * The unboxing `(T?)value` to a Nullable<T>: unlike the plain unbox, it
   * allows no enum/integer stand-in and needs exactly a boxed T
   * (ECMA-335 Partition III, unbox.any).
   */
  function UnboxNullable(v: TypedValue, t: ClrType): (r: Option<TypedValue>)
    ensures r.Some? <==> v.runtimeType == t
    ensures r.Some? ==> r.value == v
  {
    if v.runtimeType == t then Some(v) else None
  }

  /**
   * The .NET library conversions the accessors call, as partial functions
   * (None stands for any exception they throw):
   * `format` is value.ToString(CultureInfo.InvariantCulture) on non-string values,
   * `parseEnum` is Enum.Parse(type, text, ignoreCase),
   * `toType` is value.ToType(type, CultureInfo.InvariantCulture).
   */
  datatype Converter = Converter(
    format: TypedValue -> Option<string>,
    parseEnum: (ClrType, string, bool) -> Option<TypedValue>,
    toType: (TypedValue, ClrType) -> Option<TypedValue>)

  /** Enum.Parse(enumType, ...) returns a boxed value of enumType whenever it does not throw. */
  ghost predicate ParsesToTarget(conv: Converter) {
    forall t, s, b :: conv.parseEnum(t, s, b).Some? ==> conv.parseEnum(t, s, b).value.runtimeType == t
  }

  /** value.ToString(CultureInfo.InvariantCulture): a string is its own text. */
  function FormatInvariant(conv: Converter, v: TypedValue): (r: Option<string>)
    ensures v.runtimeType == Primitive(String) ==> r == Some(v.payload.s)
  {
    if v.runtimeType == Primitive(String) then Some(v.payload.s) else conv.format(v)
  }

  /**
   * The guarded conversion of GetCore (LimeBean/Bean.cs:89-96): to an enum
   * target by a case-insensitive Enum.Parse of the invariant text, to any
   * other target by ToType; every failure becomes null.
   */
  function Convert(conv: Converter, v: TypedValue, target: ClrType): (r: Option<TypedValue>)
    ensures target.Enumeration? && FormatInvariant(conv, v).Some? ==>
              r == conv.parseEnum(target, FormatInvariant(conv, v).value, true)
    ensures target.Enumeration? && FormatInvariant(conv, v).None? ==> r.None?
    ensures !target.Enumeration? ==> r == conv.toType(v, target)
  {
    if target.Enumeration? then
      match FormatInvariant(conv, v)
      case None => None
      case Some(text) => conv.parseEnum(target, text, true)
    else conv.toType(v, target)
  }
}
